/**
 * The looping typewriter placeholder of the landing page's prompt box
 * (`App`, src/App.jsx:295-314), as a state machine driven by timer callbacks.
 *
 * The React state `(displayText, isDeleting, loopNum)` becomes `State`; the
 * 1500 ms hold scheduled by a typing tick on the full phrase becomes the
 * explicit mode `Pausing`, and each timer callback is one `Step`. The delay
 * after which the next callback fires is plain data (`DelayMs`).
 */
module Typewriter {
  import opened JsText

  /** Delay of a typing tick, of a deleting tick, and the hold before deleting starts. */
  const TypingDelayMs: nat := 150
  const DeletingDelayMs: nat := 50
  const HoldMs: nat := 1500

  /** The phrases the landing page cycles through. */
  const Phrases: seq<string> := ["Build a futuristic UI...", "Analyze neural patterns...", "Code AI agents..."]

  /**
   * `Typing` and `Deleting` are `isDeleting == false` and `== true` with a
   * tick timer pending; `Pausing` is `isDeleting == false` with only the
   * hold timer pending.
   */
  datatype Mode = Typing | Pausing | Deleting

  datatype State = State(displayText: string, mode: Mode, loopNum: nat)

  /** The state the component mounts with. */
  const Start: State := State("", Typing, 0)

  /** `loopNum % phrases.length`: which phrase is being typed or deleted. */
  function PhraseIndex(phrases: seq<string>, loopNum: nat): (i: nat)
    requires |phrases| > 0
    ensures i < |phrases|
    ensures loopNum < |phrases| ==> i == loopNum
  {
    loopNum % |phrases|
  }

  /** The phrase the state is working on (`fullText`). */
  function FullText(phrases: seq<string>, s: State): (p: string)
    requires |phrases| > 0
    ensures p in phrases
  {
    phrases[PhraseIndex(phrases, s.loopNum)]
  }

  /** The invariant of every reachable state: the text shown is a prefix of the current phrase, all of it while pausing. */
  predicate Valid(phrases: seq<string>, s: State)
    requires |phrases| > 0
  {
    IsPrefix(s.displayText, FullText(phrases, s)) &&
    (s.mode == Pausing ==> s.displayText == FullText(phrases, s))
  }

  /** How long after entering `s` the next callback fires. */
  function DelayMs(s: State): (ms: nat)
    ensures DeletingDelayMs <= ms <= HoldMs
    ensures s.mode == Pausing <==> ms == HoldMs
  {
    match s.mode
    case Typing => TypingDelayMs
    case Pausing => HoldMs
    case Deleting => DeletingDelayMs
  }

  /** One timer callback: `handleTyping` in `Typing` and `Deleting`, the end of the hold in `Pausing`. */
  function Step(phrases: seq<string>, s: State): (r: State)
    requires |phrases| > 0
    // the phrase counter moves only when deleting has already emptied the text
    ensures r.loopNum == if s.mode == Deleting && s.displayText == "" then s.loopNum + 1 else s.loopNum
    // the hold starts only from a typing tick on the full phrase; deleting starts only when the hold ends
    ensures r.mode == Pausing <==> s.mode == Typing && s.displayText == FullText(phrases, s)
    ensures r.mode == Deleting <==> s.mode == Pausing || (s.mode == Deleting && s.displayText != "")
    ensures r.mode == Typing && s.mode != Typing ==> s.mode == Deleting && s.displayText == ""
    // typing grows the text by one character of the phrase, never past its end
    ensures s.mode == Typing ==>
      IsPrefix(r.displayText, FullText(phrases, s)) &&
      |r.displayText| == if |s.displayText| < |FullText(phrases, s)| then |s.displayText| + 1 else |FullText(phrases, s)|
    // deleting shrinks it by one, never below the empty text
    ensures s.mode == Deleting ==> IsPrefix(r.displayText, FullText(phrases, s))
    ensures s.mode == Deleting && |s.displayText| <= |FullText(phrases, s)| ==>
      |r.displayText| == if |s.displayText| > 0 then |s.displayText| - 1 else 0
    ensures s.mode == Pausing ==> r.displayText == s.displayText
  {
    var fullText := FullText(phrases, s);
    match s.mode
    case Pausing => s.(mode := Deleting)
    case Typing =>
      var next := Substring(fullText, 0, |s.displayText| + 1);
      if s.displayText == fullText then State(next, Pausing, s.loopNum) else State(next, Typing, s.loopNum)
    case Deleting =>
      var next := Substring(fullText, 0, |s.displayText| - 1);
      if s.displayText == "" then State(next, Typing, s.loopNum + 1) else State(next, Deleting, s.loopNum)
  }

  /** `n` callbacks in a row. */
  function Steps(phrases: seq<string>, s: State, n: nat): (r: State)
    requires |phrases| > 0
    ensures s.loopNum <= r.loopNum <= s.loopNum + n
    decreases n
  {
    if n == 0 then s else Step(phrases, Steps(phrases, s, n - 1))
  }

  /** When, counted from entering `s`, the `n`-th callback fires. */
  function ElapsedMs(phrases: seq<string>, s: State, n: nat): (ms: nat)
    requires |phrases| > 0
    ensures 50 * n <= ms <= 1500 * n
    decreases n
  {
    if n == 0 then 0 else ElapsedMs(phrases, s, n - 1) + DelayMs(Steps(phrases, s, n - 1))
  }

  /** Every callback keeps the invariant. */
  lemma StepKeepsValid(phrases: seq<string>, s: State)
    requires |phrases| > 0 && Valid(phrases, s)
    ensures Valid(phrases, Step(phrases, s))
  {
  }

  /** Every state reached from a valid one, in particular from `Start`, is valid. */
  lemma {:induction false} StepsKeepValid(phrases: seq<string>, s: State, n: nat)
    requires |phrases| > 0 && Valid(phrases, s)
    ensures Valid(phrases, Steps(phrases, s, n))
    decreases n
  {
    if n > 0 {
      StepsKeepValid(phrases, s, n - 1);
      StepKeepsValid(phrases, Steps(phrases, s, n - 1));
    }
  }

  /** On a proper prefix of the phrase, a typing tick appends the next character of the phrase. */
  lemma TypingAppends(phrases: seq<string>, s: State)
    requires |phrases| > 0 && Valid(phrases, s)
    requires s.mode == Typing && s.displayText != FullText(phrases, s)
    ensures Step(phrases, s) == State(s.displayText + [FullText(phrases, s)[|s.displayText|]], Typing, s.loopNum)
  {
    PrefixGrow(s.displayText, FullText(phrases, s));
  }

  /** On a non-empty prefix of the phrase, a deleting tick removes its last character. */
  lemma DeletingDrops(phrases: seq<string>, s: State)
    requires |phrases| > 0 && Valid(phrases, s)
    requires s.mode == Deleting && s.displayText != ""
    ensures Step(phrases, s) == State(s.displayText[..|s.displayText| - 1], Deleting, s.loopNum)
  {
    PrefixShrink(s.displayText, FullText(phrases, s));
  }

  /** Advancing the counter by one moves to the next phrase, wrapping after the last. */
  lemma NextPhrase(phrases: seq<string>, k: nat)
    requires |phrases| > 0
    ensures PhraseIndex(phrases, k + 1) == (PhraseIndex(phrases, k) + 1) % |phrases|
  {
    var n := |phrases|;
    var q, i := k / n, k % n;
    assert k == q * n + i;
    if i + 1 < n {
      ModOf(k + 1, n, q, i + 1);
      ModOf(i + 1, n, 0, i + 1);
    } else {
      assert (q + 1) * n == q * n + n;
      ModOf(k + 1, n, q + 1, 0);
      ModOf(n, n, 1, 0);
    }
  }

  /** The remainder is determined by any quotient-remainder split. */
  lemma ModOf(x: nat, n: nat, q: nat, r: nat)
    requires 0 <= r < n && x == q * n + r
    ensures x % n == r
  {
    var q', r' := x / n, x % n;
    assert x == q' * n + r';
    if q' < q {
      assert (q - q') * n == q * n - q' * n;
      MulAtLeast(q - q', n);
    } else if q' > q {
      assert (q' - q) * n == q' * n - q * n;
      MulAtLeast(q' - q, n);
    }
  }

  lemma {:induction false} MulAtLeast(d: nat, n: nat)
    requires d >= 1
    ensures d * n >= n
  {
    if d > 1 {
      MulAtLeast(d - 1, n);
      assert d * n == (d - 1) * n + n;
    }
  }

  /** A typing tick on the first `j < |p|` characters shows the first `j + 1`. */
  lemma TypeOne(phrases: seq<string>, k: nat, j: nat)
    requires |phrases| > 0 && j < |phrases[PhraseIndex(phrases, k)]|
    ensures var p := phrases[PhraseIndex(phrases, k)];
      Step(phrases, State(p[..j], Typing, k)) == State(p[..j + 1], Typing, k)
  {
    var p := phrases[PhraseIndex(phrases, k)];
    TypingAppends(phrases, State(p[..j], Typing, k));
    assert p[..j] + [p[j]] == p[..j + 1];
  }

  /** A deleting tick on the first `j > 0` characters shows the first `j - 1`. */
  lemma DeleteOne(phrases: seq<string>, k: nat, j: nat)
    requires |phrases| > 0 && 0 < j <= |phrases[PhraseIndex(phrases, k)]|
    ensures var p := phrases[PhraseIndex(phrases, k)];
      Step(phrases, State(p[..j], Deleting, k)) == State(p[..j - 1], Deleting, k)
  {
    var p := phrases[PhraseIndex(phrases, k)];
    DeletingDrops(phrases, State(p[..j], Deleting, k));
    assert p[..j][..j - 1] == p[..j - 1];
  }

  // The round lemmas below write `TypingDelayMs` and `DeletingDelayMs` as the
  // numbers 150 and 50 inside products, which keeps their arithmetic linear.

  /** Typing phase of a round: the first `n` ticks from the empty text show the first `n` characters, 150 ms apart. */
  lemma {:induction false} TypeOut(phrases: seq<string>, k: nat, n: nat)
    requires |phrases| > 0
    requires n <= |phrases[PhraseIndex(phrases, k)]|
    ensures var p := phrases[PhraseIndex(phrases, k)];
      var s := State("", Typing, k);
      Steps(phrases, s, n) == State(p[..n], Typing, k) &&
      ElapsedMs(phrases, s, n) == 150 * n
  {
    var p := phrases[PhraseIndex(phrases, k)];
    var s := State("", Typing, k);
    if n == 0 {
      assert p[..0] == "";
    } else {
      TypeOut(phrases, k, n - 1);
      var before := Steps(phrases, s, n - 1);
      assert before == State(p[..n - 1], Typing, k);
      TypeOne(phrases, k, n - 1);
      assert Steps(phrases, s, n) == Step(phrases, before);
      assert ElapsedMs(phrases, s, n) == ElapsedMs(phrases, s, n - 1) + DelayMs(before);
    }
  }

  /**
   * Hold of a round: the tick on the full phrase starts the hold (150 ms
   * after the last character appeared), and its end starts deleting 1500 ms
   * later, the text still complete.
   */
  lemma Hold(phrases: seq<string>, k: nat)
    requires |phrases| > 0
    ensures var p := phrases[PhraseIndex(phrases, k)];
      var s := State("", Typing, k);
      Steps(phrases, s, |p| + 1) == State(p, Pausing, k) &&
      Steps(phrases, s, |p| + 2) == State(p, Deleting, k) &&
      ElapsedMs(phrases, s, |p| + 2) == 150 * (|p| + 1) + HoldMs
  {
    var p := phrases[PhraseIndex(phrases, k)];
    TypeOut(phrases, k, |p|);
    assert p[..|p|] == p;
  }

  /** Deleting phase of a round: `n` deleting ticks after the hold show the first `|p| - n` characters, 50 ms apart. */
  lemma {:induction false} DeleteOut(phrases: seq<string>, k: nat, n: nat)
    requires |phrases| > 0
    requires n <= |phrases[PhraseIndex(phrases, k)]|
    ensures var p := phrases[PhraseIndex(phrases, k)];
      var s := State("", Typing, k);
      Steps(phrases, s, |p| + 2 + n) == State(p[..|p| - n], Deleting, k) &&
      ElapsedMs(phrases, s, |p| + 2 + n) == 150 * (|p| + 1) + HoldMs + 50 * n
  {
    var p := phrases[PhraseIndex(phrases, k)];
    var s := State("", Typing, k);
    if n == 0 {
      Hold(phrases, k);
      assert p[..|p|] == p;
    } else {
      DeleteOut(phrases, k, n - 1);
      var m := |p| + 2 + n;
      var before := Steps(phrases, s, m - 1);
      assert before == State(p[..|p| - (n - 1)], Deleting, k);
      DeleteOne(phrases, k, |p| - (n - 1));
      assert Steps(phrases, s, m) == Step(phrases, before);
      assert ElapsedMs(phrases, s, m) == ElapsedMs(phrases, s, m - 1) + DelayMs(before);
    }
  }

  /**
   * One full round on phrase `p`, from the empty text in typing mode: `|p|`
   * ticks type it out, one more tick on the full phrase starts the hold,
   * the end of the hold starts deleting, `|p|` ticks delete it, and one
   * tick on the empty text moves to the next phrase. The round takes
   * `|p| + 1` typing delays, the hold, and `|p| + 1` deleting delays.
   */
  lemma Round(phrases: seq<string>, k: nat)
    requires |phrases| > 0
    ensures var p := phrases[PhraseIndex(phrases, k)];
      var s := State("", Typing, k);
      var L := |p|;
      Steps(phrases, s, L) == State(p, Typing, k) &&
      Steps(phrases, s, L + 1) == State(p, Pausing, k) &&
      Steps(phrases, s, L + 2) == State(p, Deleting, k) &&
      Steps(phrases, s, 2 * L + 2) == State("", Deleting, k) &&
      Steps(phrases, s, 2 * L + 3) == State("", Typing, k + 1) &&
      PhraseIndex(phrases, k + 1) == (PhraseIndex(phrases, k) + 1) % |phrases| &&
      ElapsedMs(phrases, s, 2 * L + 3) == 150 * (L + 1) + HoldMs + 50 * (L + 1)
  {
    var p := phrases[PhraseIndex(phrases, k)];
    var L := |p|;
    assert p[..L] == p && p[..0] == "";
    TypeOut(phrases, k, L);
    Hold(phrases, k);
    DeleteOut(phrases, k, L);
    NextPhrase(phrases, k);
  }

  /** A single phrase loops back to itself: one round on `["Hi"]` ends on phrase 0 with the empty text. */
  lemma SinglePhraseLoops()
    ensures Steps(["Hi"], Start, 7) == State("", Typing, 1)
    ensures PhraseIndex(["Hi"], 1) == 0
  {
    Round(["Hi"], 0);
  }

  /** On the landing page's own phrases, the first round types out phrase 0 and ends on phrase 1. */
  lemma FirstRound()
    ensures Steps(Phrases, Start, |Phrases[0]|).displayText == Phrases[0]
    ensures var r := Steps(Phrases, Start, 2 * |Phrases[0]| + 3);
      r.displayText == "" && r.mode == Typing && PhraseIndex(Phrases, r.loopNum) == 1
  {
    Round(Phrases, 0);
  }
}
