/** When something an event can begin and another can end holds, read off the events of a run. */
module Stretches {

  /** What an event says of one thing: that it is so, as when a status names a flag; that it is no
      longer so; or that the system wakes up; with the time, and OFFDURATION. */
  datatype Said = Said(named: bool, ended: bool, woken: bool, now: int, duration: int)

  predicate NotEnded(ss: seq<Said>, i: nat, n: nat)
    requires n <= |ss|
  {
    forall k | i < k < n :: !ss[k].ended
  }

  predicate NotDropped(ss: seq<Said>, i: nat, n: nat)
    requires n <= |ss|
  {
    forall k | i < k < n :: !ss[k].ended && !ss[k].woken
  }

  /** After the first `n` events the flag is set: it was named, and neither ended nor forgotten
      in a wake-up since. */
  predicate IsSet(ss: seq<Said>, n: nat)
    requires n <= |ss|
  {
    exists i | 0 <= i < n :: ss[i].named && NotDropped(ss, i, n)
  }

  /** It was named and not ended since; what this leaves behind outlasts a wake-up. */
  predicate IsLeft(ss: seq<Said>, n: nat)
    requires n <= |ss|
  {
    exists i | 0 <= i < n :: ss[i].named && NotEnded(ss, i, n)
  }

  /** Event `i` is the status that sets the flag. */
  predicate Begins(ss: seq<Said>, i: nat)
    requires i < |ss|
  {
    ss[i].named && (ss[i].ended || !IsSet(ss, i))
  }

  /** It is the last to do so in the first `n` events, and its stretch has not ended. */
  predicate IsStart(ss: seq<Said>, i: nat, n: nat)
    requires i < n <= |ss|
  {
    Begins(ss, i) && NotEnded(ss, i, n) && forall k | i < k < n :: !Begins(ss, k)
  }

  /** Status `j` finds the device off for too long: it is just off and OFFDURATION is 0, or the
      stretch began longer than that ago. */
  predicate FindsOff(ss: seq<Said>, j: nat)
    requires j < |ss|
  {
    ss[j].named &&
    if Begins(ss, j) then ss[j].duration == 0
    else ss[j].duration > 0 && exists i | 0 <= i < j :: IsStart(ss, i, j) && ss[j].now - ss[i].now > ss[j].duration
  }

  /** Some status did, and none has ended the stretch since. */
  predicate OffTooLongIn(ss: seq<Said>, n: nat)
    requires n <= |ss|
  {
    exists j | 0 <= j < n :: FindsOff(ss, j) && NotEnded(ss, j, n)
  }

  // ----- one event more -----

  lemma SetStep(ss: seq<Said>, n: nat)
    requires n < |ss|
    ensures IsSet(ss, n + 1) <==> ss[n].named || (IsSet(ss, n) && !ss[n].ended && !ss[n].woken)
  {
    if ss[n].named {
      assert NotDropped(ss, n, n + 1);
    } else if IsSet(ss, n) && !ss[n].ended && !ss[n].woken {
      var i :| 0 <= i < n && ss[i].named && NotDropped(ss, i, n);
      assert NotDropped(ss, i, n + 1);
    }
    if i :| 0 <= i < n && ss[i].named && NotDropped(ss, i, n + 1) {
      assert NotDropped(ss, i, n);
    }
  }

  lemma LeftStep(ss: seq<Said>, n: nat)
    requires n < |ss|
    ensures IsLeft(ss, n + 1) <==> ss[n].named || (IsLeft(ss, n) && !ss[n].ended)
  {
    if ss[n].named {
      assert NotEnded(ss, n, n + 1);
    } else if IsLeft(ss, n) && !ss[n].ended {
      var i :| 0 <= i < n && ss[i].named && NotEnded(ss, i, n);
      assert NotEnded(ss, i, n + 1);
    }
    if i :| 0 <= i < n && ss[i].named && NotEnded(ss, i, n + 1) {
      assert NotEnded(ss, i, n);
    }
  }

  lemma OffTooLongStep(ss: seq<Said>, n: nat)
    requires n < |ss|
    ensures OffTooLongIn(ss, n + 1) <==> FindsOff(ss, n) || (OffTooLongIn(ss, n) && !ss[n].ended)
  {
    if FindsOff(ss, n) {
      assert NotEnded(ss, n, n + 1);
    } else if OffTooLongIn(ss, n) && !ss[n].ended {
      var j :| 0 <= j < n && FindsOff(ss, j) && NotEnded(ss, j, n);
      assert NotEnded(ss, j, n + 1);
    }
    if j :| 0 <= j < n && FindsOff(ss, j) && NotEnded(ss, j, n + 1) {
      assert NotEnded(ss, j, n);
    }
  }

  lemma StartStep(ss: seq<Said>, i: nat, n: nat)
    requires i < n < |ss|
    ensures IsStart(ss, i, n + 1) <==> IsStart(ss, i, n) && !ss[n].ended && !Begins(ss, n)
  {
    assert NotEnded(ss, i, n + 1) <==> NotEnded(ss, i, n) && !ss[n].ended;
  }

  lemma SetIsLeft(ss: seq<Said>, n: nat)
    requires n <= |ss| && IsSet(ss, n)
    ensures IsLeft(ss, n)
  {
    var i :| 0 <= i < n && ss[i].named && NotDropped(ss, i, n);
    assert NotEnded(ss, i, n);
  }

  /** What is left has a start. */
  lemma {:induction false} LeftHasStart(ss: seq<Said>, n: nat)
    requires n <= |ss| && IsLeft(ss, n)
    ensures exists i | 0 <= i < n :: IsStart(ss, i, n)
    decreases n
  {
    var m := n - 1;
    LeftStep(ss, m);
    if Begins(ss, m) {
      assert NotEnded(ss, m, n);
      assert IsStart(ss, m, n);
    } else {
      if ss[m].named {
        SetIsLeft(ss, m);
      }
      LeftHasStart(ss, m);
      var i :| 0 <= i < m && IsStart(ss, i, m);
      StartStep(ss, i, m);
    }
  }
}
