/**
 * The time-slot handlers of the per-day schedule editor: add a slot (no
 * duplicates, kept sorted), flip a slot between free and taken, remove a slot.
 */
module Slots {
  import opened Wrappers
  import opened Roster
  import Lex

  predicate HasVal(times: seq<TimeSlot>, v: string)
  {
    exists t :: t in times && t.val == v
  }

  predicate SortedByVal(times: seq<TimeSlot>)
  {
    forall i, j :: 0 <= i < j < |times| ==> Lex.Le(times[i].val, times[j].val)
  }

  predicate UniqueVals(times: seq<TimeSlot>)
  {
    forall i, j :: 0 <= i < j < |times| ==> times[i].val != times[j].val
  }

  /** The invariant the editor keeps for one day's slots. */
  predicate WellFormedTimes(times: seq<TimeSlot>)
  {
    SortedByVal(times) && UniqueVals(times)
  }

  /** Slots whose values strictly increase from each slot to the next are sorted and distinct. */
  lemma {:induction false} StrictlyIncreasingIsWellFormed(times: seq<TimeSlot>)
    requires forall i :: 0 < i < |times| ==> Lex.Le(times[i - 1].val, times[i].val) && times[i - 1].val != times[i].val
    ensures WellFormedTimes(times)
  {
    if |times| > 1 {
      var rest := times[1..];
      assert forall i :: 0 < i < |rest| ==> rest[i - 1] == times[i] && rest[i] == times[i + 1];
      StrictlyIncreasingIsWellFormed(rest);
      forall j | 1 < j < |times|
        ensures Lex.Le(times[0].val, times[j].val) && times[0].val != times[j].val
      {
        assert rest[j - 1] == times[j] && rest[0] == times[1];
        Lex.LeTransitive(times[0].val, times[1].val, times[j].val);
        if times[0].val == times[j].val {
          Lex.LeAntisymmetric(times[0].val, times[1].val);
        }
      }
    }
  }

  // ---------------------------------------------------------------------------
  // The comparator sort: a stable insertion sort by `val`.

  /** Puts `x` after every slot of `times` whose `val` is not greater. */
  function InsertByVal(x: TimeSlot, times: seq<TimeSlot>): (r: seq<TimeSlot>)
    ensures |r| == |times| + 1 && x in r
  {
    if times == [] then [x]
    else if Lex.Le(times[0].val, x.val) then [times[0]] + InsertByVal(x, times[1..])
    else [x] + times
  }

  function SortByVal(times: seq<TimeSlot>): (r: seq<TimeSlot>)
    ensures |r| == |times|
  {
    if times == [] then []
    else InsertByVal(times[|times| - 1], SortByVal(times[..|times| - 1]))
  }

  lemma {:induction false} InsertByValPermutes(x: TimeSlot, times: seq<TimeSlot>)
    ensures multiset(InsertByVal(x, times)) == multiset(times) + multiset{x}
  {
    if times != [] {
      assert times == [times[0]] + times[1..];
      if Lex.Le(times[0].val, x.val) {
        InsertByValPermutes(x, times[1..]);
      }
    }
  }

  lemma {:induction false} InsertByValSorted(x: TimeSlot, times: seq<TimeSlot>)
    requires SortedByVal(times)
    ensures SortedByVal(InsertByVal(x, times))
  {
    if times == [] {
    } else if Lex.Le(times[0].val, x.val) {
      var rest := InsertByVal(x, times[1..]);
      InsertByValSorted(x, times[1..]);
      InsertByValPermutes(x, times[1..]);
      forall k | 0 <= k < |rest|
        ensures Lex.Le(times[0].val, rest[k].val)
      {
        assert rest[k] in multiset(rest);
        if rest[k] != x {
          assert rest[k] in times[1..];
          var j :| 0 <= j < |times| - 1 && times[1..][j] == rest[k];
          assert times[j + 1] == rest[k];
        }
      }
    } else {
      Lex.LeTotal(times[0].val, x.val);
      forall j | 0 < j < |times|
        ensures Lex.Le(x.val, times[j].val)
      {
        Lex.LeTransitive(x.val, times[0].val, times[j].val);
      }
    }
  }

  lemma {:induction false} SortByValCorrect(times: seq<TimeSlot>)
    ensures SortedByVal(SortByVal(times))
    ensures multiset(SortByVal(times)) == multiset(times)
  {
    if times != [] {
      var init, last := times[..|times| - 1], times[|times| - 1];
      assert times == init + [last];
      SortByValCorrect(init);
      InsertByValSorted(last, SortByVal(init));
      InsertByValPermutes(last, SortByVal(init));
    }
  }

  /** Inserting a slot whose value is new keeps the values distinct. */
  lemma {:induction false} InsertByValUnique(x: TimeSlot, times: seq<TimeSlot>)
    requires UniqueVals(times) && !HasVal(times, x.val)
    ensures UniqueVals(InsertByVal(x, times))
  {
    if times != [] && Lex.Le(times[0].val, x.val) {
      var rest := InsertByVal(x, times[1..]);
      assert !HasVal(times[1..], x.val) by {
        forall t | t in times[1..] ensures t.val != x.val {
          assert t in times;
        }
      }
      InsertByValUnique(x, times[1..]);
      InsertByValPermutes(x, times[1..]);
      forall k | 0 <= k < |rest|
        ensures rest[k].val != times[0].val
      {
        assert rest[k] in multiset(rest);
        if rest[k] != x {
          assert rest[k] in times[1..];
          var j :| 0 <= j < |times| - 1 && times[1..][j] == rest[k];
          assert times[j + 1] == rest[k];
        }
      }
    } else if times != [] {
      forall j | 0 <= j < |times| ensures times[j].val != x.val {
        assert times[j] in times;
      }
    }
  }

  lemma {:induction false} SortByValUnique(times: seq<TimeSlot>)
    requires UniqueVals(times)
    ensures UniqueVals(SortByVal(times))
  {
    if times != [] {
      var init, last := times[..|times| - 1], times[|times| - 1];
      SortByValUnique(init);
      SortByValCorrect(init);
      forall t | t in SortByVal(init) ensures t.val != last.val {
        assert t in multiset(SortByVal(init));
        var j :| 0 <= j < |init| && init[j] == t;
      }
      InsertByValUnique(last, SortByVal(init));
    }
  }

  // ---------------------------------------------------------------------------
  // The editor's handlers.

  /**
   * `handleAddTime`: None when the handler returns early (empty input or a
   * slot with that value already exists), so nothing is reported to the
   * schedule; otherwise the old slots plus a free slot at `newTime`, sorted
   * by value whatever order the old slots were in.
   */
  function AddTime(times: seq<TimeSlot>, newTime: string): (r: Option<seq<TimeSlot>>)
    ensures r.None? <==> newTime == "" || HasVal(times, newTime)
    ensures r.Some? ==> SortedByVal(r.value)
    ensures r.Some? ==> multiset(r.value) == multiset(times) + multiset{TimeSlot(newTime, false)}
    ensures r.Some? ==> |r.value| == |times| + 1 && TimeSlot(newTime, false) in r.value
  {
    if newTime == "" || HasVal(times, newTime) then None
    else
      var all := times + [TimeSlot(newTime, false)];
      SortByValCorrect(all);
      assert TimeSlot(newTime, false) in multiset(SortByVal(all));
      Some(SortByVal(all))
  }

  /** Adding keeps a day's slots sorted with distinct values. */
  lemma AddTimeKeepsWellFormed(times: seq<TimeSlot>, newTime: string)
    requires UniqueVals(times)
    ensures AddTime(times, newTime).Some? ==> WellFormedTimes(AddTime(times, newTime).value)
  {
    if AddTime(times, newTime).Some? {
      var all := times + [TimeSlot(newTime, false)];
      assert UniqueVals(all) by {
        forall i | 0 <= i < |times| ensures times[i].val != newTime {
          assert times[i] in times;
        }
      }
      SortByValUnique(all);
    }
  }

  /** Adding the same time twice: the second request is refused. */
  lemma AddTimeIdempotent(times: seq<TimeSlot>, newTime: string)
    requires AddTime(times, newTime).Some?
    ensures AddTime(AddTime(times, newTime).value, newTime).None?
  {
  }

  /** The toggle closure: flips `isFull` of the slots whose value is `v`. */
  function ToggleSlot(times: seq<TimeSlot>, v: string): (r: seq<TimeSlot>)
    ensures |r| == |times|
    ensures forall i :: 0 <= i < |times| ==>
      r[i].val == times[i].val && r[i].isFull == (if times[i].val == v then !times[i].isFull else times[i].isFull)
  {
    if times == [] then []
    else
      var t := times[0];
      [if t.val == v then t.(isFull := !t.isFull) else t] + ToggleSlot(times[1..], v)
  }

  lemma ToggleSlotInvolutive(times: seq<TimeSlot>, v: string)
    ensures ToggleSlot(ToggleSlot(times, v), v) == times
  {
  }

  lemma ToggleSlotKeepsWellFormed(times: seq<TimeSlot>, v: string)
    requires WellFormedTimes(times)
    ensures WellFormedTimes(ToggleSlot(times, v))
  {
  }

  /** The remove closure: drops the slots whose value is `v`, keeping the others in order. */
  function RemoveSlot(times: seq<TimeSlot>, v: string): (r: seq<TimeSlot>)
    ensures |r| <= |times|
    ensures forall t :: t in r <==> t in times && t.val != v
  {
    if times == [] then []
    else (if times[0].val != v then [times[0]] else []) + RemoveSlot(times[1..], v)
  }

  /** Removal keeps the relative order: it distributes over concatenation. */
  lemma {:induction false} RemoveSlotConcat(a: seq<TimeSlot>, b: seq<TimeSlot>, v: string)
    ensures RemoveSlot(a + b, v) == RemoveSlot(a, v) + RemoveSlot(b, v)
  {
    if a == [] {
      assert a + b == b;
    } else {
      assert (a + b)[1..] == a[1..] + b;
      RemoveSlotConcat(a[1..], b, v);
    }
  }

  /** Slots with another value are all kept. */
  lemma {:induction false} RemoveSlotAbsent(times: seq<TimeSlot>, v: string)
    requires !HasVal(times, v)
    ensures RemoveSlot(times, v) == times
  {
    if times != [] {
      assert times[0] in times;
      assert !HasVal(times[1..], v) by {
        forall t | t in times[1..] ensures t.val != v {
          assert t in times;
        }
      }
      RemoveSlotAbsent(times[1..], v);
    }
  }

  lemma {:induction false} RemoveSlotKeepsWellFormed(times: seq<TimeSlot>, v: string)
    requires WellFormedTimes(times)
    ensures WellFormedTimes(RemoveSlot(times, v))
  {
    if times != [] {
      var rest := RemoveSlot(times[1..], v);
      RemoveSlotKeepsWellFormed(times[1..], v);
      forall k | 0 <= k < |rest|
        ensures Lex.Le(times[0].val, rest[k].val) && times[0].val != rest[k].val
      {
        assert rest[k] in rest;
        var j :| 0 <= j < |times| - 1 && times[1..][j] == rest[k];
        assert times[j + 1] == rest[k];
      }
    }
  }
}
