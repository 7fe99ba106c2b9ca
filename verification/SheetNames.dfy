/** Sheet names of an exported workbook: sanitised titles, made unique by a numeric suffix. */
module SheetNames {
  import opened Decimals

  // --- The base name.

  const FORBIDDEN := {'/', '\\', '?', '*', '[', ']', ':'}

  function Cleaned(title: string): string {
    seq(|title|, i requires 0 <= i < |title| => if title[i] in FORBIDDEN then ' ' else title[i])
  }

  /** The white space and line terminators that JavaScript's `trim` removes. */
  predicate IsSpace(c: char) {
    c in {'\t', '\n', '\U{000B}', '\U{000C}', '\r', ' ', '\U{00A0}', '\U{1680}', '\U{2028}', '\U{2029}',
          '\U{202F}', '\U{205F}', '\U{3000}', '\U{FEFF}'}
    || '\U{2000}' <= c <= '\U{200A}'
  }

  function TrimStart(s: string): string { if s != "" && IsSpace(s[0]) then TrimStart(s[1..]) else s }

  function TrimEnd(s: string): string { if s != "" && IsSpace(s[|s| - 1]) then TrimEnd(s[..|s| - 1]) else s }

  function Slice(s: string, n: nat): string { if |s| <= n then s else s[..n] }

  function Base(title: string): string {
    var s := Slice(TrimEnd(TrimStart(Cleaned(title))), 31);
    if s == "" then "Sheet" else s
  }

  predicate Allowed(s: string) { forall i | 0 <= i < |s| :: s[i] !in FORBIDDEN }

  lemma {:induction false} TrimmedAllowed(s: string)
    requires Allowed(s)
    ensures Allowed(TrimStart(s)) && Allowed(TrimEnd(s))
    decreases |s|
  {
    if s != "" {
      TrimmedAllowed(s[1..]);
      TrimmedAllowed(s[..|s| - 1]);
    }
  }

  lemma BaseAllowed(title: string)
    ensures Allowed(Base(title)) && 1 <= |Base(title)| <= 31
  {
    TrimmedAllowed(Cleaned(title));
    TrimmedAllowed(TrimStart(Cleaned(title)));
  }

  lemma {:induction false} TrimsEndTo(s: string, j: nat)
    requires 0 < j <= |s| && !IsSpace(s[0]) && !IsSpace(s[j - 1]) && forall k | j <= k < |s| :: IsSpace(s[k])
    ensures TrimEnd(TrimStart(s)) == s[..j]
    decreases |s|
  {
    hide IsSpace;
    if j < |s| {
      TrimsEndTo(s[..|s| - 1], j);
      assert s[..|s| - 1][..j] == s[..j];
    } else {
      assert s[..j] == s;
    }
  }

  lemma {:induction false} TrimsTo(s: string, i: nat, j: nat)
    requires i <= j <= |s| && (i < j ==> !IsSpace(s[i]) && !IsSpace(s[j - 1]))
    requires forall k | 0 <= k < i || j <= k < |s| :: IsSpace(s[k])
    ensures TrimEnd(TrimStart(s)) == s[i..j]
    decreases |s|
  {
    hide IsSpace;
    if i > 0 {
      TrimsTo(s[1..], i - 1, j - 1);
      assert s[1..][i - 1..j - 1] == s[i..j];
    } else if i < j {
      TrimsEndTo(s, j);
    } else if s != [] {
      TrimsTo(s[1..], 0, 0);
    }
  }

  /** The characters a sheet name may not have become blanks. */
  lemma CleanedIs(title: string, k: nat)
    ensures |Cleaned(title)| == |title|
    ensures k < |title| ==> Cleaned(title)[k] == if title[k] in "/\\?*[]:" then ' ' else title[k]
  {
  }

  /** The base name is the cleaned title from its first to its last visible character, at most 31 of it, or `Sheet`. */
  lemma BaseIs(title: string, i: nat, j: nat)
    requires i <= j <= |title| && (i < j ==> !IsSpace(Cleaned(title)[i]) && !IsSpace(Cleaned(title)[j - 1]))
    requires forall k | 0 <= k < i || j <= k < |title| :: IsSpace(Cleaned(title)[k])
    ensures Base(title) == if i == j then "Sheet" else if j <= i + 31 then Cleaned(title)[i..j] else Cleaned(title)[i..i + 31]
  {
    hide IsSpace, Cleaned;
    CleanedIs(title, 0);
    TrimsTo(Cleaned(title), i, j);
  }

  // --- The search for a free name.

  function Candidate(base: string, suffix: nat): string { Slice(base, 28) + " " + Decimal(suffix) }

  lemma CandidatesDiffer(base: string, i: nat, j: nat)
    requires i != j
    ensures Candidate(base, i) != Candidate(base, j)
  {
    DecimalRoundTrip(i);
    DecimalRoundTrip(j);
    var k := |Slice(base, 28)| + 1;
    assert Candidate(base, i)[k..] == Decimal(i) && Candidate(base, j)[k..] == Decimal(j);
  }

  /** Taken candidates are all different, so there are no more of them than names in use. */
  lemma {:induction false} TakenAtMostUsed(base: string, used: set<string>, n: nat)
    requires forall i: nat | 2 <= i < n + 2 :: Candidate(base, i) in used
    ensures n <= |used|
  {
    if n > 0 {
      var last := Candidate(base, n + 1);
      forall i: nat | 2 <= i < n + 1
        ensures Candidate(base, i) in used - {last}
      {
        CandidatesDiffer(base, i, n + 1);
      }
      TakenAtMostUsed(base, used - {last}, n - 1);
    }
  }

  ghost predicate FreeAt(base: string, used: set<string>, name: string, n: nat) {
    n >= 2 && name == Candidate(base, n) && forall i: nat | 2 <= i < n :: Candidate(base, i) in used
  }

  /** The base name if it is free, and otherwise the candidate with the least free suffix from 2. */
  ghost predicate FirstFree(base: string, used: set<string>, name: string) {
    name !in used &&
    if base !in used then name == base
    else exists n: nat :: FreeAt(base, used, name, n)
  }

  lemma FirstFreeIsUnique(base: string, used: set<string>, a: string, b: string)
    requires FirstFree(base, used, a) && FirstFree(base, used, b)
    ensures a == b
  {
    if base in used {
      var m: nat :| FreeAt(base, used, a, m);
      var n: nat :| FreeAt(base, used, b, n);
    }
  }

  /** A suffix from 2 whose candidate is short enough for a sheet name and not in use. */
  ghost predicate ShortFree(base: string, used: set<string>, n: nat) {
    n >= 2 && |Candidate(base, n)| <= 31 && Candidate(base, n) !in used
  }

  ghost predicate HasShortFree(base: string, used: set<string>) { exists n: nat :: ShortFree(base, used, n) }

  lemma DigitBelow(d: nat)
    requires d < 10
    ensures Digit(d) <= '9'
  {
  }

  lemma CandidateIsNotSummary(base: string, n: nat)
    ensures Candidate(base, n) != "Summary"
  {
    DecimalNonEmpty(n);
    DigitBelow(n % 10);
    assert Candidate(base, n)[|Candidate(base, n)| - 1] == Digit(n % 10);
  }

  lemma {:induction false} LongerNumerals(m: nat, n: nat)
    requires m <= n
    ensures |Decimal(m)| <= |Decimal(n)|
  {
    hide Digit;
    if m >= 10 { LongerNumerals(m / 10, n / 10); }
  }

  lemma LaterCandidatesAreLonger(base: string, m: nat, n: nat)
    requires m <= n
    ensures |Candidate(base, m)| <= |Candidate(base, n)|
  {
    LongerNumerals(m, n);
  }

  lemma DigitAllowed(d: nat)
    requires d < 10
    ensures Digit(d) !in FORBIDDEN
  {
  }

  lemma {:induction false} DecimalAllowed(n: nat)
    ensures Allowed(Decimal(n))
  {
    DigitAllowed(n % 10);
    if n >= 10 {
      hide Digit;
      DecimalAllowed(n / 10);
    }
  }

  /**
   * A chosen name is new and clean. It fits Excel's 31 characters just when the base name is free or
   * some short candidate is, which is so while the names in use, `Summary` among them, are at most 98.
   */
  lemma FirstFreeFits(base: string, used: set<string>, name: string)
    requires FirstFree(base, used, name) && Allowed(base) && |base| <= 31
    ensures name !in used && Allowed(name)
    ensures |name| <= 31 <==> base !in used || HasShortFree(base, used)
    ensures "Summary" in used && |used| <= 98 ==> |name| <= 31
  {
    if base in used {
      var n: nat :| FreeAt(base, used, name, n);
      DecimalAllowed(n);
      if |name| <= 31 { assert ShortFree(base, used, n); }
      if HasShortFree(base, used) {
        var m: nat :| ShortFree(base, used, m);
        LaterCandidatesAreLonger(base, n, m);
      }
      if "Summary" in used {
        forall i: nat ensures Candidate(base, i) != "Summary" { CandidateIsNotSummary(base, i); }
        TakenAtMostUsed(base, used - {"Summary"}, n - 2);
        DecimalLength(n);
      }
    }
  }

  class Workbook {
    var used: set<string>

    constructor ()
      ensures used == {"Summary"}
    {
      used := {"Summary"};
    }

    method SheetName(title: string) returns (candidate: string)
      modifies this
      ensures FirstFree(Base(title), old(used), candidate)
      ensures used == old(used) + {candidate}
    {
      hide Base, Candidate;
      var base := Base(title);
      candidate := base;
      var suffix := 2;
      while candidate in used
        invariant used == old(used)
        invariant 2 <= suffix
        invariant candidate == if suffix == 2 then base else Candidate(base, suffix - 1)
        invariant suffix > 2 ==> base in used
        invariant forall i: nat | 2 <= i < suffix - 1 :: Candidate(base, i) in used
        decreases |used| + 2 - suffix
      {
        TakenAtMostUsed(base, used, suffix - 2);
        candidate := Candidate(base, suffix);
        suffix := suffix + 1;
      }
      if suffix > 2 { assert FreeAt(base, used, candidate, suffix - 1); }
      used := used + {candidate};
    }
  }

  /** The names in use when the title at `i` is named. */
  function UsedBefore(names: seq<string>, i: nat): set<string>
    requires i <= |names|
  {
    if i == 0 then {"Summary"} else UsedBefore(names, i - 1) + {names[i - 1]}
  }

  ghost predicate NamedAt(titles: seq<string>, names: seq<string>, i: nat)
    requires i < |titles| && i < |names|
  {
    FirstFree(Base(titles[i]), UsedBefore(names, i), names[i])
  }

  /** The titles named so far each got the first free name after the ones before it. */
  ghost predicate NamedInOrder(titles: seq<string>, names: seq<string>) {
    |names| <= |titles| && forall i: nat | i < |names| :: NamedAt(titles, names, i)
  }

  lemma {:induction false} UsedBeforeExtends(names: seq<string>, name: string, i: nat)
    requires i <= |names|
    ensures UsedBefore(names + [name], i) == UsedBefore(names, i)
  {
    if i > 0 { UsedBeforeExtends(names, name, i - 1); }
  }

  lemma UsedBeforeNext(names: seq<string>, name: string)
    ensures UsedBefore(names + [name], |names| + 1) == UsedBefore(names, |names|) + {name}
  {
    UsedBeforeExtends(names, name, |names|);
  }

  lemma NameNext(titles: seq<string>, names: seq<string>, name: string)
    requires |names| < |titles| && NamedInOrder(titles, names)
    requires FirstFree(Base(titles[|names|]), UsedBefore(names, |names|), name)
    ensures NamedInOrder(titles, names + [name])
    ensures UsedBefore(names + [name], |names| + 1) == UsedBefore(names, |names|) + {name}
  {
    hide Base, FirstFree, UsedBefore;
    var names' := names + [name];
    UsedBeforeNext(names, name);
    UsedBeforeExtends(names, name, |names|);
    forall i: nat | i < |names'|
      ensures NamedAt(titles, names', i)
    {
      if i < |names| {
        UsedBeforeExtends(names, name, i);
        assert NamedAt(titles, names, i);
        assert names'[i] == names[i];
      }
    }
  }

  /** The sheets of one workbook, named in order: distinct, clean, and the first 98 of them fit. */
  method NameSheets(titles: seq<string>) returns (names: seq<string>)
    ensures |names| == |titles| && NamedInOrder(titles, names) && "Summary" !in names
    ensures forall i, j | 0 <= i < j < |names| :: names[i] != names[j]
    ensures forall i | 0 <= i < |names| :: Allowed(names[i])
    ensures forall i | 0 <= i < |names| && i < 98 :: |names[i]| <= 31
  {
    hide Base, FirstFree, Allowed, HasShortFree, NamedAt;
    var workbook := new Workbook();
    names := [];
    for i := 0 to |titles|
      invariant |names| == i && NamedInOrder(titles, names) && workbook.used == UsedBefore(names, i)
      invariant "Summary" in workbook.used && |workbook.used| == i + 1
      invariant forall j | 0 <= j < i :: names[j] != "Summary" && names[j] in workbook.used
      invariant forall j, k | 0 <= j < k < i :: names[j] != names[k]
      invariant forall j | 0 <= j < i :: Allowed(names[j])
      invariant forall j | 0 <= j < i && j < 98 :: |names[j]| <= 31
    {
      ghost var before := workbook.used;
      var name := workbook.SheetName(titles[i]);
      BaseAllowed(titles[i]);
      FirstFreeFits(Base(titles[i]), before, name);
      NameNext(titles, names, name);
      names := names + [name];
    }
  }

  // --- The bound is the best possible.

  predicate Letters(s: string) { forall i | 0 <= i < |s| :: 'a' <= s[i] <= 'z' }

  lemma LettersAreTheirBase(stem: string)
    requires |stem| == 28 && Letters(stem)
    ensures Base(stem + " 2") == stem + " 2"
  {
    var t := stem + " 2";
    assert Cleaned(t) == t;
    assert TrimStart(t) == t && TrimEnd(t) == t by { assert t[0] == stem[0] && t[29] == '2'; }
  }

  lemma StemIsSecondCandidate(stem: string)
    requires |stem| == 28
    ensures Candidate(stem + " 2", 2) == stem + " 2"
  {
    assert Decimal(2) == "2" && Slice(stem + " 2", 28) == stem;
  }

  function CandidatesUpTo(base: string, n: nat): set<string> {
    if n < 2 then {} else CandidatesUpTo(base, n - 1) + {Candidate(base, n)}
  }

  lemma {:induction false} CandidatesIn(base: string, n: nat, i: nat)
    ensures Candidate(base, i) in CandidatesUpTo(base, n) <==> 2 <= i <= n
  {
    if n >= 2 {
      CandidatesIn(base, n - 1, i);
      if i != n { CandidatesDiffer(base, i, n); }
    }
  }

  lemma NextCandidate(base: string, used: set<string>, n: nat, name: string)
    requires n >= 2 && used == {"Summary"} + CandidatesUpTo(base, n) && base == Candidate(base, 2)
    requires FirstFree(base, used, name)
    ensures name == Candidate(base, n + 1)
  {
    hide Candidate, CandidatesUpTo;
    forall i: nat ensures Candidate(base, i) in used <==> 2 <= i <= n {
      CandidatesIn(base, n, i);
      CandidateIsNotSummary(base, i);
    }
    assert FreeAt(base, used, Candidate(base, n + 1), n + 1);
    FirstFreeIsUnique(base, used, name, Candidate(base, n + 1));
  }

  /** The names equal titles get: the base first, then the candidates from 3 on. */
  lemma {:induction false} EqualTitles(stem: string, titles: seq<string>, names: seq<string>, i: nat)
    requires |stem| == 28 && Letters(stem) && NamedInOrder(titles, names) && i < |names|
    requires forall j | 0 <= j < |titles| :: titles[j] == stem + " 2"
    ensures names[i] == if i == 0 then stem + " 2" else Candidate(stem + " 2", i + 2)
    ensures UsedBefore(names, i) == {"Summary"} + CandidatesUpTo(stem + " 2", i + 1)
  {
    var base := stem + " 2";
    LettersAreTheirBase(stem);
    assert NamedAt(titles, names, i);
    StemIsSecondCandidate(stem);
    CandidateIsNotSummary(base, 2);
    hide Base, Candidate, Letters;
    if i > 0 {
      EqualTitles(stem, titles, names, i - 1);
      NextCandidate(base, UsedBefore(names, i), i + 1, names[i]);
    }
  }

  /** A workbook of 99 sheets that all want one name of 30 characters gives its last sheet a name of 32. */
  lemma NinetyNineSheetsOverflow(stem: string, titles: seq<string>, names: seq<string>)
    requires |stem| == 28 && Letters(stem) && |titles| == |names| == 99 && NamedInOrder(titles, names)
    requires forall j | 0 <= j < |titles| :: titles[j] == stem + " 2"
    ensures |names[98]| == 32
  {
    EqualTitles(stem, titles, names, 98);
    assert Decimal(100) == Decimal(10) + [Digit(0)] && Decimal(10) == Decimal(1) + [Digit(0)];
  }
}
