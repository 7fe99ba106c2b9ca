/** What it means to select rows of a table and project each, whatever loop or query does it. */
module Selections {
  ghost predicate Increasing(places: seq<nat>) { forall j, k | 0 <= j < k < |places| :: places[j] < places[k] }

  /** The places, in order, of exactly the rows to keep. */
  ghost predicate Picks<S>(rows: seq<S>, keep: S -> bool, places: seq<nat>) {
    && Increasing(places)
    && forall i: nat :: i in places <==> i < |rows| && keep(rows[i])
  }

  ghost predicate Projects<S, T>(rows: seq<S>, places: seq<nat>, project: S -> T, out: seq<T>) {
    |out| == |places| && forall k | 0 <= k < |places| :: places[k] < |rows| && out[k] == project(rows[places[k]])
  }

  /** `out` lists, once each and in table order, the projections of exactly the rows to keep. */
  ghost predicate Selects<S, T>(rows: seq<S>, keep: S -> bool, project: S -> T, out: seq<T>) {
    exists places :: Picks(rows, keep, places) && Projects(rows, places, project, out)
  }

  lemma SelectsNothing<S, T>(keep: S -> bool, project: S -> T)
    ensures Selects([], keep, project, [])
  {
    var none: seq<S> := [];
    assert Picks(none, keep, []) && Projects(none, [], project, []);
  }

  lemma PicksOneMore<S>(rows: seq<S>, row: S, keep: S -> bool, places: seq<nat>)
    requires Picks(rows, keep, places)
    ensures Picks(rows + [row], keep, places + if keep(row) then [|rows|] else [])
  {
    var more: seq<nat> := places + if keep(row) then [|rows|] else [];
    forall i: nat
      ensures i in more <==> i < |rows| + 1 && keep((rows + [row])[i])
    {
      assert i in more <==> i in places || (keep(row) && i == |rows|);
    }
    assert forall k | 0 <= k < |places| :: places[k] in places;
  }

  function Shifted(places: seq<nat>): (r: seq<nat>)
    ensures |r| == |places| && forall k | 0 <= k < |r| :: r[k] == places[k] + 1
  {
    seq(|places|, k requires 0 <= k < |places| => places[k] + 1)
  }

  lemma ShiftedHolds(places: seq<nat>, i: nat)
    ensures i in Shifted(places) <==> i > 0 && i - 1 in places
  {
    if i > 0 && i - 1 in places {
      var k :| 0 <= k < |places| && places[k] == i - 1;
      assert Shifted(places)[k] == i;
    }
  }

  lemma PicksOneBefore<S>(row: S, rows: seq<S>, keep: S -> bool, places: seq<nat>)
    requires Picks(rows, keep, places)
    ensures Picks([row] + rows, keep, (if keep(row) then [0] else []) + Shifted(places))
  {
    hide Shifted;
    var more := (if keep(row) then [0] else []) + Shifted(places);
    forall i: nat
      ensures i in more <==> i < |rows| + 1 && keep(([row] + rows)[i])
    {
      ShiftedHolds(places, i);
      assert i in more <==> i in Shifted(places) || (keep(row) && i == 0);
      assert i > 0 ==> (i - 1 in places <==> i - 1 < |rows| && keep(rows[i - 1]));
    }
  }

  lemma SelectsOneMore<S, T>(rows: seq<S>, row: S, keep: S -> bool, project: S -> T, out: seq<T>)
    requires Selects(rows, keep, project, out)
    ensures Selects(rows + [row], keep, project, out + if keep(row) then [project(row)] else [])
  {
    hide Picks;
    var places: seq<nat> :| Picks(rows, keep, places) && Projects(rows, places, project, out);
    PicksOneMore(rows, row, keep, places);
    var more: seq<nat> := places + if keep(row) then [|rows|] else [];
    assert Projects(rows + [row], more, project, out + if keep(row) then [project(row)] else []);
  }

  lemma SelectsOneBefore<S, T>(row: S, rows: seq<S>, keep: S -> bool, project: S -> T, out: seq<T>)
    requires Selects(rows, keep, project, out)
    ensures Selects([row] + rows, keep, project, (if keep(row) then [project(row)] else []) + out)
  {
    hide Picks;
    var places: seq<nat> :| Picks(rows, keep, places) && Projects(rows, places, project, out);
    PicksOneBefore(row, rows, keep, places);
    var more := (if keep(row) then [0] else []) + Shifted(places);
    assert Projects([row] + rows, more, project, (if keep(row) then [project(row)] else []) + out);
  }

  lemma Listed(a: seq<nat>, b: seq<nat>, k: nat)
    requires k < |a| && forall i: nat :: i in a <==> i in b
    ensures a[k] in b
  {
  }

  lemma WithoutLast(a: seq<nat>, i: nat)
    requires a != [] && Increasing(a)
    ensures i in a[..|a| - 1] <==> i in a && i < a[|a| - 1]
    ensures i in a ==> i <= a[|a| - 1]
    ensures Increasing(a[..|a| - 1])
  {
    if i in a {
      var k :| 0 <= k < |a| && a[k] == i;
      if k < |a| - 1 { assert a[..|a| - 1][k] == i; }
    }
  }

  lemma {:induction false} SamePlaces(a: seq<nat>, b: seq<nat>)
    requires Increasing(a) && Increasing(b) && forall i: nat :: i in a <==> i in b
    ensures a == b
    decreases |a|
  {
    hide Increasing;
    if a != [] && b != [] {
      var m, n := |a| - 1, |b| - 1;
      Listed(a, b, m);
      Listed(b, a, n);
      WithoutLast(a, b[n]);
      WithoutLast(b, a[m]);
      forall i: nat
        ensures i in a[..m] <==> i in b[..n]
      {
        WithoutLast(a, i);
        WithoutLast(b, i);
      }
      SamePlaces(a[..m], b[..n]);
      assert a == a[..m] + [a[m]] && b == b[..n] + [b[n]];
    } else if a != [] {
      Listed(a, b, 0);
    } else if b != [] {
      Listed(b, a, 0);
    }
  }

  /** The description fits one list only. */
  lemma SelectionIsUnique<S, T>(rows: seq<S>, keep: S -> bool, project: S -> T, out: seq<T>, other: seq<T>)
    requires Selects(rows, keep, project, out) && Selects(rows, keep, project, other)
    ensures out == other
  {
    hide Increasing;
    var a: seq<nat> :| Picks(rows, keep, a) && Projects(rows, a, project, out);
    var b: seq<nat> :| Picks(rows, keep, b) && Projects(rows, b, project, other);
    SamePlaces(a, b);
  }
}
