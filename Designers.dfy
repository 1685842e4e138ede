/**
 * Designer handlers of the roster editor: which designer is active, edit the
 * active designer, add a designer, delete a designer.
 */
module Designers {
  import opened Wrappers
  import opened Roster
  import Decimal

  predicate UniqueDesignerIds(ds: seq<Designer>)
  {
    forall i, j :: 0 <= i < j < |ds| ==> ds[i].id != ds[j].id
  }

  /** The index of the first designer whose id is `id` (`Array.prototype.findIndex`). */
  function FindById(ds: seq<Designer>, id: Option<string>): (r: Option<nat>)
    ensures r.Some? ==> r.value < |ds| && Some(ds[r.value].id) == id
    ensures r.Some? ==> forall j :: 0 <= j < r.value ==> Some(ds[j].id) != id
    ensures r.None? ==> forall j :: 0 <= j < |ds| ==> Some(ds[j].id) != id
  {
    if ds == [] then None
    else if Some(ds[0].id) == id then Some(0)
    else
      match FindById(ds[1..], id)
      case None => None
      case Some(k) => Some(k + 1)
  }

  /**
   * The `activeDesigner` lookup: the first designer whose id is the active id,
   * or else the first designer; None only when there is no designer at all.
   */
  function ActiveDesigner(ds: seq<Designer>, active: Option<string>): (r: Option<Designer>)
    ensures r.None? <==> ds == []
    ensures r.Some? ==> r.value in ds
    ensures (exists d :: d in ds && Some(d.id) == active) ==>
      r.Some? && Some(r.value.id) == active &&
      exists i :: 0 <= i < |ds| && ds[i] == r.value && forall j :: 0 <= j < i ==> Some(ds[j].id) != active
    ensures (forall d :: d in ds ==> Some(d.id) != active) && ds != [] ==> r == Some(ds[0])
  {
    match FindById(ds, active)
    case Some(i) => Some(ds[i])
    case None => if ds == [] then None else Some(ds[0])
  }

  /** The fields of a designer that `updateActiveDesigner` sets. */
  datatype DesignerField =
    | SetName(name: string)
    | SetLocation(location: string)
    | SetSchedules(schedules: seq<Schedule>)

  /** `{ ...d, [field]: value }` */
  function WithField(d: Designer, f: DesignerField): (r: Designer)
    ensures r.id == d.id
  {
    match f
    case SetName(v) => d.(name := v)
    case SetLocation(v) => d.(location := v)
    case SetSchedules(v) => d.(schedules := v)
  }

  /**
   * `updateActiveDesigner`'s new list: the designers whose id is the active
   * id get the field; every other designer is untouched.
   */
  function UpdateActive(ds: seq<Designer>, active: Option<string>, f: DesignerField): (r: seq<Designer>)
    ensures |r| == |ds|
    ensures forall i :: 0 <= i < |ds| ==> r[i].id == ds[i].id
    ensures forall i :: 0 <= i < |ds| && Some(ds[i].id) != active ==> r[i] == ds[i]
    ensures forall i :: 0 <= i < |ds| && Some(ds[i].id) == active ==> r[i] == WithField(ds[i], f)
  {
    if ds == [] then []
    else [if Some(ds[0].id) == active then WithField(ds[0], f) else ds[0]] + UpdateActive(ds[1..], active, f)
  }

  /** Two edits of the same field: the second one wins, as if the first had not happened. */
  lemma UpdateActiveLastWins(ds: seq<Designer>, active: Option<string>, f: DesignerField, g: DesignerField)
    requires f.SetName? == g.SetName? && f.SetLocation? == g.SetLocation? && f.SetSchedules? == g.SetSchedules?
    ensures UpdateActive(UpdateActive(ds, active, f), active, g) == UpdateActive(ds, active, g)
  {
  }

  /**
   * When no designer carries the active id, the lookup still shows the first
   * designer, but an edit of "the active designer" changes nothing.
   */
  lemma UpdateWithoutActiveIsLost(ds: seq<Designer>, active: Option<string>, f: DesignerField)
    requires ds != [] && forall d :: d in ds ==> Some(d.id) != active
    ensures ActiveDesigner(ds, active) == Some(ds[0])
    ensures UpdateActive(ds, active, f) == ds
  {
  }

  // ---------------------------------------------------------------------------
  // Adding a designer.

  /** The id `"d" + Date.now()`, for the clock reading `stamp`. */
  function NewDesignerId(stamp: nat): (r: string)
    ensures |r| >= 2 && r[0] == 'd' && Decimal.IsDigits(r[1..])
    ensures Decimal.ToNat(r[1..]) == stamp
    ensures r[1] == '0' ==> r == "d0"
  {
    Decimal.ToNatFromNat(stamp);
    var r := "d" + Decimal.FromNat(stamp);
    assert r[1..] == Decimal.FromNat(stamp);
    r
  }

  function NewDesigner(stamp: nat): Designer
  {
    Designer(NewDesignerId(stamp), "新設計師", "請輸入地點", [])
  }

  /** `handleAddDesigner`'s new list: the old designers, then a placeholder designer without schedules. */
  function AppendDesigner(ds: seq<Designer>, stamp: nat): (r: seq<Designer>)
    ensures |r| == |ds| + 1 && r[..|ds|] == ds
    ensures r[|ds|].id == NewDesignerId(stamp) && r[|ds|].schedules == []
    ensures r[|ds|].name == "新設計師" && r[|ds|].location == "請輸入地點"
  {
    ds + [NewDesigner(stamp)]
  }

  /** Different clock readings give different ids. */
  lemma NewDesignerIdInjective(m: nat, n: nat)
    requires NewDesignerId(m) == NewDesignerId(n)
    ensures m == n
  {
    assert Decimal.FromNat(m) == NewDesignerId(m)[1..];
    Decimal.FromNatInjective(m, n);
  }

  /** With a fresh id, the added designer is the one the lookup then shows. */
  lemma AppendDesignerBecomesActive(ds: seq<Designer>, stamp: nat)
    requires forall d :: d in ds ==> d.id != NewDesignerId(stamp)
    ensures ActiveDesigner(AppendDesigner(ds, stamp), Some(NewDesignerId(stamp))) == Some(NewDesigner(stamp))
    ensures UniqueDesignerIds(ds) ==> UniqueDesignerIds(AppendDesigner(ds, stamp))
  {
  }

  // ---------------------------------------------------------------------------
  // Deleting a designer.

  /** `confirmDeleteDesigner`'s filter: every designer whose id is not the one to delete, in order. */
  function RemoveDesigner(ds: seq<Designer>, target: Option<string>): (r: seq<Designer>)
    ensures |r| <= |ds|
    ensures forall d :: d in r <==> d in ds && Some(d.id) != target
  {
    if ds == [] then []
    else (if Some(ds[0].id) != target then [ds[0]] else []) + RemoveDesigner(ds[1..], target)
  }

  lemma {:induction false} RemoveDesignerAbsent(ds: seq<Designer>, target: Option<string>)
    requires forall d :: d in ds ==> Some(d.id) != target
    ensures RemoveDesigner(ds, target) == ds
  {
    if ds != [] {
      assert ds[0] in ds;
      RemoveDesignerAbsent(ds[1..], target);
    }
  }

  /** The filter distributes over concatenation, so kept designers stay in their order. */
  lemma {:induction false} RemoveDesignerConcat(a: seq<Designer>, b: seq<Designer>, target: Option<string>)
    ensures RemoveDesigner(a + b, target) == RemoveDesigner(a, target) + RemoveDesigner(b, target)
  {
    if a == [] {
      assert a + b == b;
    } else {
      assert (a + b)[1..] == a[1..] + b;
      RemoveDesignerConcat(a[1..], b, target);
    }
  }

  /** The first designer left by the filter is the first one in the list whose id differs from the target. */
  lemma RemoveDesignerFirstKept(ds: seq<Designer>, target: Option<string>, i: nat)
    requires i < |ds| && Some(ds[i].id) != target
    requires forall j :: 0 <= j < i ==> Some(ds[j].id) == target
    ensures RemoveDesigner(ds, target) != [] && RemoveDesigner(ds, target)[0] == ds[i]
  {
    assert ds == ds[..i] + ds[i..];
    RemoveDesignerConcat(ds[..i], ds[i..], target);
    RemoveDesignerGone(ds[..i], target);
  }

  /** When every designer carries the target id, the filter keeps none. */
  lemma {:induction false} RemoveDesignerGone(ds: seq<Designer>, target: Option<string>)
    requires forall j :: 0 <= j < |ds| ==> Some(ds[j].id) == target
    ensures RemoveDesigner(ds, target) == []
  {
    if ds != [] {
      RemoveDesignerGone(ds[1..], target);
    }
  }

  /** With distinct ids at most one designer goes, so two or more designers never become none. */
  lemma {:induction false} RemoveDesignerRemovesAtMostOne(ds: seq<Designer>, target: Option<string>)
    requires UniqueDesignerIds(ds)
    ensures |RemoveDesigner(ds, target)| >= |ds| - 1
  {
    if ds != [] {
      if Some(ds[0].id) == target {
        RemoveDesignerAbsent(ds[1..], target);
      } else {
        RemoveDesignerRemovesAtMostOne(ds[1..], target);
      }
    }
  }

  /** Without distinct ids the guard does not protect the list: two designers sharing an id both go. */
  lemma SharedIdEmptiesRoster()
    ensures
      var ds := [Designer("d1", "", "", []), Designer("d1", "", "", [])];
      |ds| > 1 && RemoveDesigner(ds, Some("d1")) == []
  {
  }

  /** `filtered[0]?.id || null`: the first remaining id, or null when none remains or that id is "". */
  function FallbackActiveId(filtered: seq<Designer>): (r: Option<string>)
    ensures r.Some? ==> r.value != "" && exists d :: d in filtered && d.id == r.value
    ensures r.Some? ==> filtered != [] && r.value == filtered[0].id
    ensures r.None? <==> filtered == [] || filtered[0].id == ""
  {
    if filtered != [] && filtered[0].id != "" then Some(filtered[0].id) else None
  }

  /** After a delete the new active id, when there is one, selects the first remaining designer. */
  lemma FallbackSelectsFirst(filtered: seq<Designer>)
    requires filtered != [] && filtered[0].id != ""
    ensures ActiveDesigner(filtered, FallbackActiveId(filtered)) == Some(filtered[0])
  {
  }
}
