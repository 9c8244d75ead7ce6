/**
 * The typewriter as the component actually holds it: three pieces of React
 * state (`displayText`, `isDeleting`, `loopNum`, src/App.jsx:296-298) that
 * timer callbacks overwrite, plus a flag for the 1500 ms hold timer scheduled
 * at src/App.jsx:309 that has not fired yet. Each callback is proved to
 * perform exactly one `Typewriter.Step`.
 */
module TypewriterTimer {
  import opened JsText
  import opened Typewriter

  class TypingEffect {
    const phrases: seq<string>
    var displayText: string
    var isDeleting: bool
    var loopNum: nat
    /** The hold timer is pending; no typing or deleting tick is scheduled meanwhile. */
    var holdPending: bool

    /** The abstract state these fields stand for. */
    function Current(): (s: State)
      reads this
      ensures s.displayText == displayText && s.loopNum == loopNum
      ensures s.mode == Deleting <==> isDeleting && !holdPending
    {
      State(displayText, if holdPending then Pausing else if isDeleting then Deleting else Typing, loopNum)
    }

    ghost predicate Valid()
      reads this
    {
      |phrases| > 0 && !(holdPending && isDeleting) && Typewriter.Valid(phrases, Current())
    }

    /** Mounting: empty text, typing, first phrase. */
    constructor (phrases: seq<string>)
      requires |phrases| > 0
      ensures Valid() && this.phrases == phrases && Current() == Start
    {
      this.phrases := phrases;
      displayText := "";
      isDeleting := false;
      loopNum := 0;
      holdPending := false;
    }

    /** Delay of the timer that is pending (the tick timer of line 312, or the hold of line 309). */
    function PendingDelayMs(): (ms: nat)
      reads this
      ensures ms == DelayMs(Current())
      ensures !holdPending ==> ms == if isDeleting then DeletingDelayMs else TypingDelayMs
    {
      if holdPending then HoldMs else if isDeleting then DeletingDelayMs else TypingDelayMs
    }

    /** The tick callback `handleTyping`: it only fires when no hold is pending. */
    method HandleTyping()
      requires Valid() && !holdPending
      modifies this
      ensures Valid() && Current() == Step(phrases, old(Current()))
    {
      var i := loopNum % |phrases|;
      var fullText := phrases[i];
      var next := if isDeleting then Substring(fullText, 0, |displayText| - 1)
                  else Substring(fullText, 0, |displayText| + 1);
      if !isDeleting && displayText == fullText {
        holdPending := true;
      } else if isDeleting && displayText == "" {
        isDeleting := false;
        loopNum := loopNum + 1;
      }
      displayText := next;
      StepKeepsValid(phrases, old(Current()));
    }

    /** The hold timer's callback `() => setIsDeleting(true)`. */
    method EndHold()
      requires Valid() && holdPending
      modifies this
      ensures Valid() && Current() == Step(phrases, old(Current()))
    {
      holdPending := false;
      isDeleting := true;
      StepKeepsValid(phrases, old(Current()));
    }
  }
}
