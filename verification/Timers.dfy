/** co_delay_seconds of lib/coroutine.h: a coroutine that completes after a number of seconds. */
module Timers {

  datatype CoState = CoCreated | CoRunning | CoCompleted | CoFailed

  /** The lifted locals and the state. The body tests `elapsed < seconds` at the start of every resume,
      whether it enters from the top or continues behind its yield. */
  datatype Timer = Timer(seconds: int, start: int, elapsed: int, state: CoState)

  /** The initialising call: it saves the locals and yields. */
  function Started(seconds: int, now: int): Timer {
    Timer(seconds, now, 0, CoRunning)
  }

  function Resumed(t: Timer, now: int): Timer {
    if t.state != CoRunning then t
    else if t.elapsed < t.seconds then t.(elapsed := now - t.start)
    else t.(state := CoCompleted)
  }

  function ResumedAt(t: Timer, nows: seq<int>): Timer
    decreases |nows|
  {
    if nows == [] then t else Resumed(ResumedAt(t, nows[..|nows| - 1]), nows[|nows| - 1])
  }

  class Delay {
    var seconds: int
    var start: int
    var elapsed: int
    var state: CoState

    ghost function Value(): Timer
      reads this
    {
      Timer(seconds, start, elapsed, state)
    }

    constructor (seconds: int, now: int)
      ensures Value() == Started(seconds, now)
    {
      this.seconds, start, elapsed, state := seconds, now, 0, CoRunning;
    }

    method Resume(now: int)
      modifies this`elapsed, this`state
      ensures Value() == Resumed(old(Value()), now)
    {
      if state != CoRunning { return; }
      if elapsed < seconds {
        elapsed := now - start;
        return;
      }
      state := CoCompleted;
    }
  }

  /** The delay is over exactly one resume after the first one that sees the bound reached, and at the
      first resume when the bound is not positive. */
  lemma {:induction false} CompletesOneResumeLate(seconds: int, born: int, nows: seq<int>)
    ensures ResumedAt(Started(seconds, born), nows).state == CoCompleted <==>
      (seconds <= 0 && nows != []) || exists i :: 0 <= i < |nows| - 1 && nows[i] - born >= seconds
    decreases |nows|
  {
    if nows != [] {
      var init := nows[..|nows| - 1];
      CompletesOneResumeLate(seconds, born, init);
      RunningTimer(seconds, born, init);
      assert forall i :: 0 <= i < |init| ==> init[i] == nows[i];
      if |init| > 0 { assert init[|init| - 1] == nows[|nows| - 2]; }
    }
  }

  /** While it runs, the timer holds the time that its last resume saw. */
  lemma {:induction false} RunningTimer(seconds: int, born: int, nows: seq<int>)
    ensures var t := ResumedAt(Started(seconds, born), nows);
      && t.seconds == seconds && t.start == born
      && (t.state == CoRunning || t.state == CoCompleted)
      && (t.state == CoRunning ==> t.elapsed == if nows == [] then 0 else nows[|nows| - 1] - born)
    decreases |nows|
  {
    if nows != [] { RunningTimer(seconds, born, nows[..|nows| - 1]); }
  }
}
