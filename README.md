# Laydown landing page: typewriter, magnetic button and robot gaze

This project models the only parts of the Laydown landing page (`src/App.jsx`)
that compute anything, and proves properties of them in Dafny:

- **Typewriter placeholder** (`App`, src/App.jsx:295-314). The prompt box
  types a phrase one character every 150 ms. On the full phrase it holds for
  1500 ms. It then deletes one character every 50 ms, and on the empty text it
  moves on to the next phrase, forever. `Typewriter` models this as a state
  machine: `State(displayText, mode, loopNum)` and `Step`, one timer callback.
  The 1500 ms `setTimeout` is the explicit mode `Pausing`. Delays are data
  (`DelayMs`). `TypewriterTimer.TypingEffect` is the same machine as the
  component holds it: mutable `displayText`, `isDeleting` and `loopNum`, plus
  a flag for the pending hold. Each of its two timer callbacks is proved to
  perform exactly one `Step` and to keep the invariant.
- **Magnetic button** (`MagneticButton`, src/App.jsx:73-100). On `mousemove`,
  the spring target becomes 0.3 × (pointer − box centre). On `mouseleave` it
  becomes (0, 0). With no element attached to the ref, the target is unchanged.
- **Robot gaze** (`RobotSection`, src/App.jsx:147-259). On every `mousemove`,
  `lookPos` becomes (pointer − robot centre) / 30, clamped to [-15, 15] × [-12, 12].
  The pupils are drawn at 0.8 × `lookPos`.

JavaScript's `String.prototype.substring` is modelled exactly (`JsText.Substring`).
Both arguments are clamped into `[0, length]` and swapped when out of order.
So typing on the full phrase leaves it unchanged, and deleting from `""` gives `""`.

Pointer coordinates and element boxes are exact `real`s (`Geometry`). The box
is an input to each handler, as `getBoundingClientRect()` returns it at that
event. The ref is an `Option<Rect>`. For the magnetic button that box already
includes the button's own spring translation (src/App.jsx:80, 93), so the
"centre" in `Magnetic` is the button's displaced centre, not its rest position.

Behaviour of the code that the model keeps:

- The code has no check for an empty phrase list. The list is a non-empty
  constant (src/App.jsx:302). The model takes a non-empty list as a precondition
  and raises no configuration error.
- The hold starts on the typing tick that finds the text already complete.
  That tick changes nothing on screen.
- The phrase counter advances on a separate deleting tick. That tick fires 50 ms
  after the text became empty, not on the tick that empties it. A round on a
  phrase of length L therefore takes 2L + 3 callbacks and
  150·(L+1) + 1500 + 50·(L+1) ms (`Typewriter.Round`).
- There is no shared, reference-counted pointer tracker. `MouseGlow`
  (src/App.jsx:33-34) and `RobotSection` (166-167) each add and remove their
  own `window` `mousemove` listener. `MagneticButton` adds none: it uses the
  button's `onMouseMove` and `onMouseLeave` props (91-92).

## Model

| member | source | states |
|---|---|---|
| `JsText.ClampIndex` | src/App.jsx:308 | A `substring` index becomes the position in `[0, n]` nearest to it |
| `JsText.Substring` | src/App.jsx:308 | `s.substring(0, end)` is a prefix of `s` whose length is `end` clamped into `[0, len(s)]`; never longer than `s` |
| `JsText.PrefixGrow` | src/App.jsx:308 | On a proper prefix `p`, `substring(0, len(p)+1)` is `p` plus the next character of `s` |
| `JsText.PrefixShrink` | src/App.jsx:308 | On a non-empty prefix `p`, `substring(0, len(p)-1)` is `p` without its last character |
| `Typewriter.PhraseIndex` | src/App.jsx:306 | `loopNum % phrases.length` is a valid index, equal to `loopNum` on the first pass |
| `Typewriter.FullText` | src/App.jsx:306-307 | The phrase being worked on is one of the phrases |
| `Typewriter.DelayMs` | src/App.jsx:309-312 | The next callback fires 50 to 1500 ms after a state is entered, and after exactly 1500 ms precisely when the hold is pending |
| `Typewriter.Step` | src/App.jsx:304-314 | `loopNum` grows by exactly 1, and typing resumes, only on a deleting tick that starts on `""`. The hold starts only from a typing tick on the full phrase, and deleting starts only when the hold ends. A typing tick gives the phrase prefix of length min(len(text)+1, len(phrase)). A deleting tick gives the prefix of length max(len(text)−1, 0). The hold leaves the text as it is |
| `Typewriter.StepKeepsValid` | src/App.jsx:306-310 | Every callback keeps the invariant: the text is a prefix of `phrases[loopNum % n]`, and all of it while holding |
| `Typewriter.Steps` | src/App.jsx:304-314 | After `n` callbacks `loopNum` has not decreased and has grown by at most `n` |
| `Typewriter.StepsKeepValid` | src/App.jsx:296-314 | Every state reachable from a valid one (in particular from mount) satisfies the prefix invariant |
| `Typewriter.ElapsedMs` | src/App.jsx:309-312 | `n` callbacks take between 50·n and 1500·n ms |
| `Typewriter.TypingAppends` | src/App.jsx:308 | On a proper prefix of the phrase, a typing tick appends exactly the phrase's next character and stays in typing mode |
| `Typewriter.DeletingDrops` | src/App.jsx:308 | On a non-empty prefix, a deleting tick removes exactly the last character and stays in deleting mode |
| `Typewriter.NextPhrase` | src/App.jsx:306-310 | Advancing `loopNum` by one moves to phrase index `(i + 1) mod n` |
| `Typewriter.TypeOne` | src/App.jsx:308 | A typing tick on the phrase's first `j < len(p)` characters shows its first `j + 1` |
| `Typewriter.DeleteOne` | src/App.jsx:308 | A deleting tick on the phrase's first `j > 0` characters shows its first `j − 1` |
| `Typewriter.TypeOut` | src/App.jsx:308-312 | From `""` in typing mode, the first `n ≤ len(p)` ticks show the first `n` characters of the phrase and take 150·n ms |
| `Typewriter.Hold` | src/App.jsx:308-312 | Right after typing out `p`, the next tick starts the hold with `p` unchanged. The end of the hold starts deleting, 150·(len(p)+1) + 1500 ms after the round began |
| `Typewriter.DeleteOut` | src/App.jsx:308-312 | After the hold, `n ≤ len(p)` deleting ticks show the first `len(p) − n` characters, 50 ms apart |
| `Typewriter.Round` | src/App.jsx:304-314 | Round trip: a round from `""` passes through the full phrase, the hold and deleting, and comes back to `""`. It ends in typing mode on phrase `(i+1) mod n` after 2len(p)+3 callbacks and 150·(len(p)+1) + 1500 + 50·(len(p)+1) ms |
| `Typewriter.SinglePhraseLoops` | src/App.jsx:304-314 | With the single phrase `"Hi"`, one round (7 callbacks) ends on phrase 0 again with `""` in typing mode |
| `Typewriter.FirstRound` | src/App.jsx:302-314 | With the page's three phrases, the first `len(phrases[0])` ticks type out phrase 0, and the first round ends on phrase 1 with `""` |
| `TypewriterTimer.TypingEffect.constructor` | src/App.jsx:296-298 | On mount the text is `""`, typing, `loopNum` 0, no hold pending, and the invariant holds |
| `TypewriterTimer.TypingEffect.Current` | src/App.jsx:296-298 | The fields stand for the abstract state; the mode is deleting exactly when `isDeleting` is set and no hold is pending |
| `TypewriterTimer.TypingEffect.PendingDelayMs` | src/App.jsx:309-312 | The pending timer's delay is the abstract `DelayMs`: 50 ms while deleting, 150 ms while typing, 1500 ms while holding |
| `TypewriterTimer.TypingEffect.HandleTyping` | src/App.jsx:305-311 | The tick callback updates the fields exactly as one `Step` of the abstract machine and keeps the invariant |
| `TypewriterTimer.TypingEffect.EndHold` | src/App.jsx:309 | The hold timer's callback performs exactly one `Step`, into deleting mode with the text unchanged, and keeps the invariant |
| `Geometry.Center` | src/App.jsx:81-82 | The centre is equidistant from the box's opposite edges on each axis |
| `Magnetic.HandleMouse` | src/App.jsx:77-84 | No ref: the position is unchanged. Otherwise the pointer equals centre + target / 0.3, so the target is 0.3 of the offset. The target leans toward the pointer on each axis. Over the button it stays within 0.3 × half the width and height |
| `Magnetic.Reset` | src/App.jsx:86 | `reset` yields `(0, 0)` whatever the position was |
| `Magnetic.CentredPointerRests` | src/App.jsx:81-86 | A pointer at the button's centre gives the same `(0, 0)` as `reset` |
| `Magnetic.ResetIdempotent` | src/App.jsx:86 | Resetting twice equals resetting once |
| `Magnetic.OffsetOnly` | src/App.jsx:80-83 | Moving the button and the pointer by the same amount leaves the target unchanged |
| `Gaze.Clamp` | src/App.jsx:161-162 | `Math.max(Math.min(v, hi), lo)` lies in `[lo, hi]`. It equals `v` inside, `hi` above and `lo` below |
| `Gaze.Raw` | src/App.jsx:155-159 | The unclamped gaze times 30, added to the centre, gives the pointer back |
| `Gaze.HandleMouse` | src/App.jsx:153-165 | No ref: `lookPos` is unchanged. Otherwise it is within [-15,15] × [-12,12]. Each axis is clamped on its own: an axis whose raw offset is in its range equals that offset, whatever the other axis does. Beyond its range an axis it saturates at the edge on the pointer's side. It is positive exactly when the pointer is right of (below) the centre. An in-range `lookPos` stays in range |
| `Gaze.Pupil` | src/App.jsx:217 | The pupil offset divided by 0.8 gives `lookPos` back. For an in-range `lookPos` it lies within [-12,12] × [-9.6,9.6] |
| `Gaze.Monotone` | src/App.jsx:158-163 | Moving the pointer right (down) never moves the gaze left (up) |
| `Gaze.Track` | src/App.jsx:152-168 | Any run of `mousemove` events keeps an in-range `lookPos` in range |
| `Gaze.ReachableGazeInRange` | src/App.jsx:148-163 | From the initial `(0, 0)`, every reachable `lookPos` is within [-15,15] × [-12,12]. Every pupil offset is within [-12,12] × [-9.6,9.6] |

## Left out

- Spring physics: every `useSpring` and every `transition: {type: "spring"}` (src/App.jsx:40, 94, 208, 300) runs inside framer-motion, which is not part of this model. The model stops at the spring *targets*. It says nothing about convergence.
- Scroll progress (src/App.jsx:299-300, 318): `useScroll` is a library call. The page computes nothing of its own there.
- Staggered reveal (`containerVariants`, `itemVariants`, `whileInView`, `viewport={{ once: true }}`, src/App.jsx:7-25 and throughout): declarative configuration that framer-motion schedules.
- The mouse glow (src/App.jsx:29-43), floating particles (45-71, driven by `Math.random`), head rotation, mouth animation, FAQ toggle and `AnimatePresence`: presentation only.
- Adding and removing `mousemove` listeners (src/App.jsx:33-34, 166-167). Also the `setTimeout`/`clearTimeout` mechanics (309, 312-313) and React's re-render scheduling. Each timer callback is one discrete step. Each pointer event is one function call.
- The 1500 ms hold timer is never cleared when the component unmounts. Cancellation and callbacks after unmount are timer behaviour, which the model does not cover.
- Arithmetic is exact `real` arithmetic, not IEEE-754 doubles. `loopNum` is an unbounded natural; JavaScript numbers lose precision past 2^53.
- Strings are sequences of characters. `substring` counts UTF-16 code units, which equals characters for the page's ASCII phrases.
