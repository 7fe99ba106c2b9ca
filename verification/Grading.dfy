/** Grade bands and competition ranking. */
module Grading {
  import opened Wrappers

  datatype GradeBand = GradeBand(min: real, grade: string, gpa: real)

  const GRADE_BANDS := [
    GradeBand(90.0, "A+", 4.0), GradeBand(80.0, "A", 3.7), GradeBand(70.0, "B+", 3.3), GradeBand(60.0, "B", 3.0),
    GradeBand(50.0, "C+", 2.7), GradeBand(40.0, "C", 2.3), GradeBand(33.0, "D", 1.0), GradeBand(0.0, "F", 0.0)]

  function FindBand(percentage: real, i: nat): GradeBand
    requires i < |GRADE_BANDS|
    decreases |GRADE_BANDS| - i
  {
    if percentage >= GRADE_BANDS[i].min || i == |GRADE_BANDS| - 1 then GRADE_BANDS[i] else FindBand(percentage, i + 1)
  }

  /** The first band the percentage clears, and the lowest when it clears none. */
  function GradeForPercentage(percentage: real): GradeBand { FindBand(percentage, 0) }

  lemma {:induction false} FindBandLeast(percentage: real, i: nat)
    requires i < |GRADE_BANDS|
    requires forall j | 0 <= j < i :: percentage < GRADE_BANDS[j].min
    ensures var b := FindBand(percentage, i);
            exists k | 0 <= k < |GRADE_BANDS| ::
              && b == GRADE_BANDS[k]
              && (percentage >= GRADE_BANDS[k].min || k == |GRADE_BANDS| - 1)
              && forall j | 0 <= j < k :: percentage < GRADE_BANDS[j].min
    decreases |GRADE_BANDS| - i
  {
    if percentage >= GRADE_BANDS[i].min || i == |GRADE_BANDS| - 1 {
      assert FindBand(percentage, i) == GRADE_BANDS[i];
    } else {
      FindBandLeast(percentage, i + 1);
    }
  }

  /** The scale. */
  lemma GradeScale(p: real)
    ensures GradeForPercentage(p).grade ==
            if p >= 90.0 then "A+" else if p >= 80.0 then "A" else if p >= 70.0 then "B+" else if p >= 60.0 then "B"
            else if p >= 50.0 then "C+" else if p >= 40.0 then "C" else if p >= 33.0 then "D" else "F"
    ensures GradeForPercentage(p).gpa ==
            if p >= 90.0 then 4.0 else if p >= 80.0 then 3.7 else if p >= 70.0 then 3.3 else if p >= 60.0 then 3.0
            else if p >= 50.0 then 2.7 else if p >= 40.0 then 2.3 else if p >= 33.0 then 1.0 else 0.0
  {
    FindBandLeast(p, 0);
    var k :| 0 <= k < |GRADE_BANDS| && GradeForPercentage(p) == GRADE_BANDS[k]
             && (p >= GRADE_BANDS[k].min || k == |GRADE_BANDS| - 1) && forall j | 0 <= j < k :: p < GRADE_BANDS[j].min;
    hide FindBand, GradeForPercentage;
    assert k > 0 ==> p < GRADE_BANDS[k - 1].min;
  }

  /** A better percentage never gets a worse grade point, and only percentages below 33 fail. */
  lemma GradesAreMonotone(p: real, q: real)
    requires p <= q
    ensures GradeForPercentage(p).gpa <= GradeForPercentage(q).gpa
    ensures GradeForPercentage(p).grade == "F" <==> p < 33.0
  {
    FindBandLeast(p, 0);
    FindBandLeast(q, 0);
    var i :| 0 <= i < |GRADE_BANDS| && GradeForPercentage(p) == GRADE_BANDS[i]
             && (p >= GRADE_BANDS[i].min || i == |GRADE_BANDS| - 1) && forall j | 0 <= j < i :: p < GRADE_BANDS[j].min;
    var k :| 0 <= k < |GRADE_BANDS| && GradeForPercentage(q) == GRADE_BANDS[k]
             && (q >= GRADE_BANDS[k].min || k == |GRADE_BANDS| - 1) && forall j | 0 <= j < k :: q < GRADE_BANDS[j].min;
    assert k <= i;
  }

  // --- Ranking.

  datatype Entry = Entry(id: string, value: Option<real>)

  datatype Scored = Scored(id: string, value: real)

  ghost predicate DistinctIds(values: seq<Entry>) {
    forall i, j | 0 <= i < j < |values| :: values[i].id != values[j].id
  }

  /** How many entries have a value strictly greater than `x`. */
  function Better(values: seq<Entry>, x: real): nat {
    if values == [] then 0
    else Better(values[1..], x) + if values[0].value.Some? && values[0].value.value > x then 1 else 0
  }

  function RankOf(values: seq<Entry>, value: Option<real>): Option<nat> {
    if value.None? then None else Some(1 + Better(values, value.value))
  }

  /** Standard competition ranking: one more than the number of strictly better entries, and nothing for a missing value. */
  ghost predicate IsRanking(values: seq<Entry>, ranks: map<string, Option<nat>>) {
    && ranks.Keys == (set e | e in values :: e.id)
    && forall e | e in values :: ranks[e.id] == RankOf(values, e.value)
  }

  /** The lowest value listed for an id. */
  ghost predicate Lowest(values: seq<Entry>, e: Entry) {
    && e in values && e.value.Some?
    && forall f | f in values && f.id == e.id && f.value.Some? :: e.value.value <= f.value.value
  }

  /**
   * What the ranks are for any list, ids repeated or not: an id listed with values has the rank of the
   * lowest of them, which is written last, and an id listed only without a value has none.
   */
  ghost predicate RanksLowest(values: seq<Entry>, ranks: map<string, Option<nat>>) {
    && ranks.Keys == (set e | e in values :: e.id)
    && (forall e | Lowest(values, e) :: ranks[e.id] == RankOf(values, e.value))
    && (forall e | e in values && (forall f | f in values && f.id == e.id :: f.value.None?) :: ranks[e.id] == None)
  }

  function Present(values: seq<Entry>): (r: seq<Scored>)
    ensures |r| <= |values|
  {
    if values == [] then []
    else (if values[0].value.Some? then [Scored(values[0].id, values[0].value.value)] else []) + Present(values[1..])
  }

  function Insert(s: seq<Scored>, e: Scored): seq<Scored> {
    if s == [] then [e] else if e.value >= s[0].value then [e] + s else [s[0]] + Insert(s[1..], e)
  }

  /** The entries by falling value; equal values keep their order. */
  function SortDescending(s: seq<Scored>): seq<Scored> {
    if s == [] then [] else Insert(SortDescending(s[1..]), s[0])
  }

  ghost predicate Descending(s: seq<Scored>) { forall i, j | 0 <= i < j < |s| :: s[i].value >= s[j].value }

  function Above(s: seq<Scored>, x: real): nat {
    if s == [] then 0 else Above(s[1..], x) + if s[0].value > x then 1 else 0
  }

  lemma {:induction false} InsertAdds(s: seq<Scored>, e: Scored)
    ensures multiset(Insert(s, e)) == multiset(s) + multiset{e}
  {
    if s != [] && e.value < s[0].value {
      InsertAdds(s[1..], e);
      assert s == [s[0]] + s[1..];
    }
  }

  lemma {:induction false} InsertAbove(s: seq<Scored>, e: Scored, x: real)
    ensures Above(Insert(s, e), x) == Above(s, x) + if e.value > x then 1 else 0
  {
    if s != [] && e.value < s[0].value {
      InsertAbove(s[1..], e, x);
    } else {
      assert ([e] + s)[1..] == s;
    }
  }

  lemma {:induction false} InsertSorts(s: seq<Scored>, e: Scored)
    requires Descending(s)
    ensures Descending(Insert(s, e))
  {
    if s != [] && e.value < s[0].value {
      InsertSorts(s[1..], e);
      InsertAdds(s[1..], e);
      var r := Insert(s[1..], e);
      forall i | 0 <= i < |r|
        ensures s[0].value >= r[i].value
      {
        assert r[i] in multiset(r);
        assert r[i] in multiset(s[1..]) || r[i] == e;
      }
    }
  }

  lemma {:induction false} SortIsSorted(s: seq<Scored>)
    ensures Descending(SortDescending(s)) && multiset(SortDescending(s)) == multiset(s)
    ensures forall x :: Above(SortDescending(s), x) == Above(s, x)
  {
    if s != [] {
      SortIsSorted(s[1..]);
      InsertSorts(SortDescending(s[1..]), s[0]);
      InsertAdds(SortDescending(s[1..]), s[0]);
      forall x ensures Above(SortDescending(s), x) == Above(s, x) { InsertAbove(SortDescending(s[1..]), s[0], x); }
      assert s == [s[0]] + s[1..];
    }
  }

  lemma {:induction false} PresentCounts(values: seq<Entry>, x: real)
    ensures Above(Present(values), x) == Better(values, x)
  {
    if values != [] {
      PresentCounts(values[1..], x);
      if values[0].value.Some? {
        assert Present(values)[1..] == Present(values[1..]);
      } else {
        assert Present(values) == Present(values[1..]);
      }
    }
  }

  lemma {:induction false} PresentAre(values: seq<Entry>, s: Scored)
    ensures s in Present(values) <==> Entry(s.id, Some(s.value)) in values
  {
    if values != [] {
      PresentAre(values[1..], s);
      assert values == [values[0]] + values[1..];
    }
  }

  lemma {:induction false} AboveSplit(s: seq<Scored>, i: nat, x: real)
    requires i <= |s|
    requires forall j | 0 <= j < i :: s[j].value > x
    requires forall j | i <= j < |s| :: s[j].value <= x
    ensures Above(s, x) == i
  {
    if s != [] {
      if i > 0 { AboveSplit(s[1..], i - 1, x); } else { AboveSplit(s[1..], 0, x); }
    }
  }

  /** In a descending list, an entry that differs from the one before it has exactly its position's entries above it. */
  lemma AboveAt(s: seq<Scored>, i: nat)
    requires Descending(s) && i < |s|
    ensures i == 0 || s[i - 1].value != s[i].value ==> Above(s, s[i].value) == i
  {
    if i == 0 || s[i - 1].value != s[i].value { AboveSplit(s, i, s[i].value); }
  }

  /** Entry `j` is the last of its id among the first `n`, and the id has its rank. */
  ghost predicate RankedFrom(ranked: seq<Scored>, n: nat, ranks: map<string, Option<nat>>, id: string, j: int) {
    && 0 <= j < n <= |ranked| && ranked[j].id == id
    && (forall k | j < k < n :: ranked[k].id != id)
    && id in ranks && ranks[id] == Some(1 + Above(ranked, ranked[j].value))
  }

  ghost predicate HasRank(ranked: seq<Scored>, n: nat, ranks: map<string, Option<nat>>, id: string) {
    exists j :: RankedFrom(ranked, n, ranks, id, j)
  }

  lemma PresentKeys(values: seq<Entry>, ranked: seq<Scored>, ranks: map<string, Option<nat>>)
    requires multiset(ranked) == multiset(Present(values)) && ranks.Keys == set j | 0 <= j < |ranked| :: ranked[j].id
    ensures ranks.Keys <= set e | e in values :: e.id
    ensures forall e | e in values && e.value.Some? :: e.id in ranks
  {
    forall id | id in ranks
      ensures id in set e | e in values :: e.id
    {
      var j :| 0 <= j < |ranked| && ranked[j].id == id;
      assert ranked[j] in multiset(ranked);
      PresentAre(values, ranked[j]);
    }
    forall e | e in values && e.value.Some?
      ensures e.id in ranks
    {
      PresentAre(values, Scored(e.id, e.value.value));
      assert Scored(e.id, e.value.value) in multiset(ranked);
    }
  }

  lemma LowestIsListed(values: seq<Entry>, e: Entry)
    requires Lowest(values, e)
    ensures e in values && e.value.Some?
  {
  }

  lemma LowestAgree(values: seq<Entry>, e: Entry, f: Entry)
    requires Lowest(values, e) && Lowest(values, f) && e.id == f.id
    ensures e == f
  {
  }

  /** In a descending list the last entry of an id has its lowest value. */
  lemma LastIsLowest(values: seq<Entry>, ranked: seq<Scored>, id: string, j: int)
    requires Descending(ranked) && multiset(ranked) == multiset(Present(values))
    requires 0 <= j < |ranked| && ranked[j].id == id && forall k | j < k < |ranked| :: ranked[k].id != id
    ensures Lowest(values, Entry(id, Some(ranked[j].value)))
  {
    hide Present;
    assert ranked[j] in multiset(ranked);
    PresentAre(values, ranked[j]);
    forall f | f in values && f.id == id && f.value.Some?
      ensures ranked[j].value <= f.value.value
    {
      PresentAre(values, Scored(id, f.value.value));
      assert Scored(id, f.value.value) in multiset(ranked);
      var k :| 0 <= k < |ranked| && ranked[k] == Scored(id, f.value.value);
    }
  }

  lemma RankedByLowest(values: seq<Entry>, ranked: seq<Scored>, present: map<string, Option<nat>>, id: string) returns (f: Entry)
    requires Descending(ranked)
    requires multiset(ranked) == multiset(Present(values)) && forall x :: Above(ranked, x) == Above(Present(values), x)
    requires id in present && HasRank(ranked, |ranked|, present, id)
    ensures Lowest(values, f) && f.id == id && present[id] == RankOf(values, f.value)
  {
    hide Above, Better, Present, Lowest, Descending;
    var j :| RankedFrom(ranked, |ranked|, present, id, j);
    LastIsLowest(values, ranked, id, j);
    PresentCounts(values, ranked[j].value);
    f := Entry(id, Some(ranked[j].value));
  }

  lemma RanksFromSorted(values: seq<Entry>, ranked: seq<Scored>, present: map<string, Option<nat>>, ranks: map<string, Option<nat>>)
    requires Descending(ranked)
    requires multiset(ranked) == multiset(Present(values)) && forall x :: Above(ranked, x) == Above(Present(values), x)
    requires forall id | id in present :: HasRank(ranked, |ranked|, present, id)
    requires forall e | e in values && e.value.Some? :: e.id in present
    requires ranks.Keys == set e | e in values :: e.id
    requires forall id | id in ranks :: ranks[id] == if id in present then present[id] else None
    ensures RanksLowest(values, ranks)
  {
    hide Above, Better, Present, Lowest, Descending;
    forall e | Lowest(values, e)
      ensures e.id in ranks && ranks[e.id] == RankOf(values, e.value)
    {
      LowestIsListed(values, e);
      var f := RankedByLowest(values, ranked, present, e.id);
      LowestAgree(values, e, f);
    }
    forall e | e in values && (forall f | f in values && f.id == e.id :: f.value.None?)
      ensures ranks[e.id] == None
    {
      if e.id in present {
        var f := RankedByLowest(values, ranked, present, e.id);
        LowestIsListed(values, f);
      }
    }
  }

  lemma LowestOfDistinct(values: seq<Entry>, ranks: map<string, Option<nat>>)
    requires DistinctIds(values) && RanksLowest(values, ranks)
    ensures IsRanking(values, ranks)
  {
    hide Better;
    forall e, f | e in values && f in values && e.id == f.id
      ensures e == f
    {
      var i :| 0 <= i < |values| && values[i] == e;
      var j :| 0 <= j < |values| && values[j] == f;
    }
    forall e | e in values
      ensures ranks[e.id] == RankOf(values, e.value)
    {
      if e.value.Some? { assert Lowest(values, e); }
    }
  }

  method ComputeRanks(values: seq<Entry>) returns (rankById: map<string, Option<nat>>)
    ensures RanksLowest(values, rankById)
    ensures DistinctIds(values) ==> IsRanking(values, rankById)
  {
    hide SortDescending, Present, Above, Better, RanksLowest, DistinctIds;
    var ranked := SortDescending(Present(values));
    SortIsSorted(Present(values));
    rankById := map[];
    var position := 0;
    var previousValue: Option<real> := None;
    var previousRank := 0;
    for i := 0 to |ranked|
      invariant position == i
      invariant i > 0 ==> previousValue == Some(ranked[i - 1].value) && previousRank == 1 + Above(ranked, ranked[i - 1].value)
      invariant i == 0 ==> previousValue == None
      invariant rankById.Keys == set j | 0 <= j < i :: ranked[j].id
      invariant forall id | id in rankById :: HasRank(ranked, i, rankById, id)
    {
      position := position + 1;
      AboveAt(ranked, i);
      var rank := if previousValue == Some(ranked[i].value) then previousRank else position;
      ghost var was := rankById;
      rankById := rankById[ranked[i].id := Some(rank)];
      forall id | id in rankById
        ensures HasRank(ranked, i + 1, rankById, id)
      {
        if id == ranked[i].id {
          assert RankedFrom(ranked, i + 1, rankById, id, i);
        } else {
          var j :| RankedFrom(ranked, i, was, id, j);
          assert RankedFrom(ranked, i + 1, rankById, id, j);
        }
      }
      previousValue := Some(ranked[i].value);
      previousRank := rank;
    }
    ghost var present := rankById;
    for i := 0 to |values|
      invariant rankById.Keys == present.Keys + set j | 0 <= j < i :: values[j].id
      invariant forall id | id in rankById :: rankById[id] == if id in present then present[id] else None
    {
      if values[i].id !in rankById {
        rankById := rankById[values[i].id := None];
      }
    }
    PresentKeys(values, ranked, present);
    assert rankById.Keys == set e | e in values :: e.id;
    RanksFromSorted(values, ranked, present, rankById);
    if DistinctIds(values) { LowestOfDistinct(values, rankById); }
  }

  // --- Ranks do not depend on the order of the input.

  lemma {:induction false} BetterAppend(a: seq<Entry>, b: seq<Entry>, x: real)
    ensures Better(a + b, x) == Better(a, x) + Better(b, x)
  {
    if a == [] {
      assert a + b == b;
    } else {
      BetterAppend(a[1..], b, x);
      assert (a + b)[1..] == a[1..] + b;
    }
  }

  /** The count behind a rank is the number of entries with a strictly greater value. */
  lemma {:induction false} BetterCounts(values: seq<Entry>, x: real)
    ensures Better(values, x) == |set i | 0 <= i < |values| && values[i].value.Some? && values[i].value.value > x|
  {
    var places := set i | 0 <= i < |values| && values[i].value.Some? && values[i].value.value > x;
    if values == [] {
      assert places == {};
    } else {
      var n := |values| - 1;
      BetterCounts(values[..n], x);
      BetterAppend(values[..n], [values[n]], x);
      assert values[..n] + [values[n]] == values;
      var before := set i | 0 <= i < n && values[..n][i].value.Some? && values[..n][i].value.value > x;
      assert places == if values[n].value.Some? && values[n].value.value > x then before + {n} else before;
    }
  }

  lemma RemoveOne(s: seq<Entry>, i: nat, x: real) returns (rest: seq<Entry>)
    requires i < |s|
    ensures |rest| == |s| - 1 && multiset(rest) == multiset(s) - multiset{s[i]}
    ensures Better(s, x) == Better(rest, x) + Better([s[i]], x)
  {
    hide Better;
    rest := s[..i] + s[i + 1..];
    assert s == s[..i] + ([s[i]] + s[i + 1..]);
    BetterAppend(s[..i], s[i + 1..], x);
    BetterAppend(s[..i], [s[i]] + s[i + 1..], x);
    BetterAppend([s[i]], s[i + 1..], x);
  }

  lemma {:induction false} BetterIgnoresOrder(a: seq<Entry>, b: seq<Entry>, x: real)
    requires multiset(a) == multiset(b)
    ensures Better(a, x) == Better(b, x)
    decreases |a|
  {
    assert |a| == |multiset(a)| == |multiset(b)| == |b|;
    if a != [] {
      hide Better;
      assert a[0] in multiset(b);
      var i :| 0 <= i < |b| && b[i] == a[0];
      var a' := RemoveOne(a, 0, x);
      var b' := RemoveOne(b, i, x);
      BetterIgnoresOrder(a', b', x);
    }
  }

  /** The same entries in any order get the same ranks. */
  lemma RanksIgnoreOrder(a: seq<Entry>, b: seq<Entry>, ra: map<string, Option<nat>>, rb: map<string, Option<nat>>)
    requires multiset(a) == multiset(b) && IsRanking(a, ra) && IsRanking(b, rb)
    ensures ra == rb
  {
    hide Better;
    assert forall e :: e in a <==> e in multiset(a);
    assert forall e :: e in b <==> e in multiset(b);
    forall id | id in ra
      ensures id in rb && ra[id] == rb[id]
    {
      var e :| e in a && e.id == id;
      assert e in b;
      if e.value.Some? { BetterIgnoresOrder(a, b, e.value.value); }
    }
    forall id | id in rb
      ensures id in ra
    {
      var e :| e in b && e.id == id;
    }
  }

  /** A strictly greater value that is present has strictly fewer entries above it. */
  lemma {:induction false} BetterIsStrict(values: seq<Entry>, x: real, y: real)
    requires x > y
    ensures Better(values, x) <= Better(values, y)
    ensures (exists e :: e in values && e.value == Some(x)) ==> Better(values, x) < Better(values, y)
  {
    if values != [] {
      BetterIsStrict(values[1..], x, y);
      assert values == [values[0]] + values[1..];
    }
  }
}
