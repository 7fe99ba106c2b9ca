/** The round-robin timetable generator, which never books a teacher twice in one period. */
module Timetable {
  import opened Decimals
  import opened Selections
  import opened Wrappers

  const PERIODS_PER_DAY := 8
  const PERIOD_MINUTES := 40
  const DAY_START_MINUTES := 8 * 60
  const DAYS := 6
  const SLOTS := 48

  datatype Section = Section(classId: string, roomLabel: string)

  datatype Subject = Subject(id: string, classIds: seq<string>)

  datatype Assignment = Assignment(subjectId: string, classId: string, sectionId: string, teacherId: string)

  datatype Entry = Entry(
    classId: string, sectionId: string, subjectId: string, teacherId: string, roomId: string,
    dayOfWeek: nat, periodIndex: nat, startTime: string, endTime: string)

  // --- Clock times.

  /** Two digits, zero-padded: enough for the hours and minutes of a day. */
  function TwoDigits(n: nat): string
    requires n < 100
  {
    [Digit(n / 10), Digit(n % 10)]
  }

  function FormatMinutes(totalMinutes: nat): string
    requires totalMinutes < 100 * 60
  {
    TwoDigits(totalMinutes / 60) + ":" + TwoDigits(totalMinutes % 60)
  }

  function ParseTwo(s: string): int
    requires |s| == 2
  {
    (s[0] as int - '0' as int) * 10 + (s[1] as int - '0' as int)
  }

  lemma TwoDigitsRoundTrip(n: nat)
    requires n < 100
    ensures ParseTwo(TwoDigits(n)) == n
  {
    assert forall d: nat | d < 10 :: Digit(d) as int - '0' as int == d;
  }

  lemma TwoDigitsLength(n: nat)
    requires n < 100
    ensures |TwoDigits(n)| == 2
  {
  }

  /** A formatted time reads back as the minutes it was made from. */
  lemma FormatRoundTrip(m: nat)
    requires m < 100 * 60
    ensures |FormatMinutes(m)| == 5 && FormatMinutes(m)[2] == ':'
    ensures ParseTwo(FormatMinutes(m)[..2]) * 60 + ParseTwo(FormatMinutes(m)[3..]) == m
  {
    hide ParseTwo, TwoDigits;
    TwoDigitsRoundTrip(m / 60);
    TwoDigitsRoundTrip(m % 60);
    assert |TwoDigits(m / 60)| == 2 && |TwoDigits(m % 60)| == 2 by { TwoDigitsLength(m / 60); TwoDigitsLength(m % 60); }
    assert FormatMinutes(m)[..2] == TwoDigits(m / 60);
    assert FormatMinutes(m)[3..] == TwoDigits(m % 60);
  }

  // --- Which subjects can be scheduled, and by whom.

  /** The last assignment listed for a subject wins. */
  function TeacherBySubject(assignments: seq<Assignment>): map<string, string> {
    if assignments == [] then map[]
    else
      var last := assignments[|assignments| - 1];
      TeacherBySubject(assignments[..|assignments| - 1])[last.subjectId := last.teacherId]
  }

  function AssignmentsFor(all: seq<Assignment>, classId: string, sectionId: string, subjectIds: set<string>): seq<Assignment> {
    if all == [] then []
    else
      var last := all[|all| - 1];
      AssignmentsFor(all[..|all| - 1], classId, sectionId, subjectIds)
      + if last.classId == classId && last.sectionId == sectionId && last.subjectId in subjectIds then [last] else []
  }

  /** The section's own assignment of the subject, and no later one overrides it. */
  ghost predicate AssignedAt(all: seq<Assignment>, classId: string, sectionId: string, subjectId: string, i: nat) {
    && i < |all| && all[i].classId == classId && all[i].sectionId == sectionId && all[i].subjectId == subjectId
    && forall j | i < j < |all| ::
         all[j].classId != classId || all[j].sectionId != sectionId || all[j].subjectId != subjectId
  }

  ghost predicate HasAssignment(all: seq<Assignment>, classId: string, sectionId: string, subjectId: string) {
    exists i: nat :: AssignedAt(all, classId, sectionId, subjectId, i)
  }

  lemma AssignedInRange(all: seq<Assignment>, classId: string, sectionId: string, subjectId: string, i: nat)
    ensures AssignedAt(all, classId, sectionId, subjectId, i) ==> i < |all|
  {
  }

  lemma MoreAssigned(all: seq<Assignment>, classId: string, sectionId: string, subjectId: string, i: nat)
    requires all != []
    ensures var n := |all| - 1;
            AssignedAt(all, classId, sectionId, subjectId, i) <==>
            if all[n].classId == classId && all[n].sectionId == sectionId && all[n].subjectId == subjectId then i == n
            else AssignedAt(all[..n], classId, sectionId, subjectId, i)
  {
    var n := |all| - 1;
    assert forall k | 0 <= k < n :: all[..n][k] == all[k];
    if i < n && AssignedAt(all, classId, sectionId, subjectId, i) { assert all[n] == all[n]; }
  }

  lemma NothingAssigned(classId: string, sectionId: string, subjectId: string)
    ensures !HasAssignment([], classId, sectionId, subjectId)
    ensures forall i: nat :: !AssignedAt([], classId, sectionId, subjectId, i)
  {
  }

  predicate IsOf(a: Assignment, classId: string, sectionId: string, subjectId: string) {
    a.classId == classId && a.sectionId == sectionId && a.subjectId == subjectId
  }

  lemma MoreHas(all: seq<Assignment>, classId: string, sectionId: string, subjectId: string)
    requires all != []
    ensures var n := |all| - 1;
            HasAssignment(all, classId, sectionId, subjectId) <==>
            IsOf(all[n], classId, sectionId, subjectId) || HasAssignment(all[..n], classId, sectionId, subjectId)
  {
    hide AssignedAt;
    var n := |all| - 1;
    if IsOf(all[n], classId, sectionId, subjectId) {
      MoreAssigned(all, classId, sectionId, subjectId, n);
    } else {
      if HasAssignment(all, classId, sectionId, subjectId) {
        var i: nat :| AssignedAt(all, classId, sectionId, subjectId, i);
        MoreAssigned(all, classId, sectionId, subjectId, i);
      }
      if HasAssignment(all[..n], classId, sectionId, subjectId) {
        var i: nat :| AssignedAt(all[..n], classId, sectionId, subjectId, i);
        MoreAssigned(all, classId, sectionId, subjectId, i);
      }
    }
  }

  function TeachersOf(all: seq<Assignment>, classId: string, sectionId: string, ids: set<string>): map<string, string> {
    TeacherBySubject(AssignmentsFor(all, classId, sectionId, ids))
  }

  lemma MoreTeachers(all: seq<Assignment>, classId: string, sectionId: string, ids: set<string>, id: string)
    requires all != [] && id in ids
    ensures var n := |all| - 1;
            var now, was := TeachersOf(all, classId, sectionId, ids), TeachersOf(all[..n], classId, sectionId, ids);
            if IsOf(all[n], classId, sectionId, id) then id in now && now[id] == all[n].teacherId
            else (id in now <==> id in was) && (id in was ==> now[id] == was[id])
  {
    var n := |all| - 1;
    var was := AssignmentsFor(all[..n], classId, sectionId, ids);
    assert was + [] == was && (was + [all[n]])[..|was|] == was;
  }

  /** Each of the class's subjects is taught by whom the section's last assignment of it names, and by nobody without one. */
  lemma {:induction false} TeacherIsLastAssigned(all: seq<Assignment>, classId: string, sectionId: string, ids: set<string>, id: string, i: nat)
    requires id in ids
    ensures id in TeachersOf(all, classId, sectionId, ids) <==> HasAssignment(all, classId, sectionId, id)
    ensures AssignedAt(all, classId, sectionId, id, i) ==>
              id in TeachersOf(all, classId, sectionId, ids) && TeachersOf(all, classId, sectionId, ids)[id] == all[i].teacherId
  {
    if all == [] {
      NothingAssigned(classId, sectionId, id);
    } else {
      hide AssignedAt, HasAssignment, TeachersOf;
      var n := |all| - 1;
      TeacherIsLastAssigned(all[..n], classId, sectionId, ids, id, i);
      MoreAssigned(all, classId, sectionId, id, i);
      MoreHas(all, classId, sectionId, id);
      MoreTeachers(all, classId, sectionId, ids, id);
      assert AssignedAt(all[..n], classId, sectionId, id, i) ==> i < n by { AssignedInRange(all[..n], classId, sectionId, id, i); }
    }
  }

  function SubjectsOf(all: seq<Subject>, classId: string): seq<Subject> {
    if all == [] then [] else (if classId in all[0].classIds then [all[0]] else []) + SubjectsOf(all[1..], classId)
  }

  function Schedulable(subjects: seq<Subject>, teachers: map<string, string>): (r: seq<Subject>)
    ensures forall s | s in r :: s.id in teachers
  {
    if subjects == [] then []
    else (if subjects[0].id in teachers then [subjects[0]] else []) + Schedulable(subjects[1..], teachers)
  }

  /** The subjects tried are the class's subjects that have a teacher, in the order listed. */
  lemma {:induction false} SchedulableSelected(all: seq<Subject>, classId: string, teachers: map<string, string>)
    ensures Selects(all, (s: Subject) => classId in s.classIds && s.id in teachers, (s: Subject) => s,
                    Schedulable(SubjectsOf(all, classId), teachers))
  {
    hide Selects;
    var keep := (s: Subject) => classId in s.classIds && s.id in teachers;
    var project := (s: Subject) => s;
    if all == [] {
      SelectsNothing(keep, project);
    } else {
      var rest := Schedulable(SubjectsOf(all[1..], classId), teachers);
      SchedulableSelected(all[1..], classId, teachers);
      SelectsOneBefore(all[0], all[1..], keep, project, rest);
      assert [all[0]] + all[1..] == all && [] + rest == rest;
      if classId in all[0].classIds {
        assert SubjectsOf(all, classId)[1..] == SubjectsOf(all[1..], classId);
      } else {
        assert SubjectsOf(all, classId) == SubjectsOf(all[1..], classId);
      }
    }
  }

  // --- The slots of the week, numbered 8 * day + period.

  type Slot = (nat, nat, string)

  predicate IsFor(e: Entry, classId: string, sectionId: string) { e.classId == classId && e.sectionId == sectionId }

  function Kept(entries: seq<Entry>, classId: string, sectionId: string): seq<Entry> {
    if entries == [] then []
    else (if IsFor(entries[0], classId, sectionId) then [] else [entries[0]]) + Kept(entries[1..], classId, sectionId)
  }

  lemma KeptStep(entries: seq<Entry>, i: nat, classId: string, sectionId: string)
    requires i < |entries|
    ensures Kept(entries[i..], classId, sectionId)
            == (if IsFor(entries[i], classId, sectionId) then [] else [entries[i]]) + Kept(entries[i + 1..], classId, sectionId)
  {
    assert entries[i..][1..] == entries[i + 1..];
  }

  lemma KeptNone(classId: string, sectionId: string)
    ensures Kept([], classId, sectionId) == []
  {
  }

  predicate SameBooking(a: Entry, b: Entry) {
    a.dayOfWeek == b.dayOfWeek && a.periodIndex == b.periodIndex && a.teacherId == b.teacherId
  }

  /** No teacher is in two entries of the same day and period. */
  ghost predicate NoClash(entries: seq<Entry>) {
    forall i, j | 0 <= i < j < |entries| :: !SameBooking(entries[i], entries[j])
  }

  lemma {:induction false} KeptAre(entries: seq<Entry>, classId: string, sectionId: string)
    ensures forall e :: e in Kept(entries, classId, sectionId) <==> e in entries && !IsFor(e, classId, sectionId)
    ensures NoClash(entries) ==> NoClash(Kept(entries, classId, sectionId))
  {
    if entries != [] {
      KeptAre(entries[1..], classId, sectionId);
      assert entries == [entries[0]] + entries[1..];
      var rest := Kept(entries[1..], classId, sectionId);
      if NoClash(entries) {
        assert forall i | 0 <= i < |rest| :: rest[i] in entries[1..] by {
          forall i | 0 <= i < |rest| ensures rest[i] in entries[1..] { assert rest[i] in rest; }
        }
        assert NoClash(entries[1..]);
      }
    }
  }

  function Bookings(entries: seq<Entry>): set<Slot> {
    set e | e in entries :: (e.dayOfWeek, e.periodIndex, e.teacherId)
  }

  /** The plan for one section: whom to try in each slot, and which teachers are taken elsewhere. */
  datatype Plan = Plan(
    classId: string, sectionId: string, room: string, schedulable: seq<Subject>, teachers: map<string, string>, busy: set<Slot>)

  ghost predicate ValidPlan(p: Plan) { p.schedulable != [] && forall s | s in p.schedulable :: s.id in p.teachers }

  function DayOf(slot: nat): nat { slot / PERIODS_PER_DAY }

  function PeriodOf(slot: nat): (r: nat)
    ensures r < PERIODS_PER_DAY
  {
    slot % PERIODS_PER_DAY
  }

  lemma SlotNumber(day: nat, period: nat)
    requires period < PERIODS_PER_DAY
    ensures DayOf(day * PERIODS_PER_DAY + period) == day && PeriodOf(day * PERIODS_PER_DAY + period) == period
  {
  }

  lemma SlotIsItsDayAndPeriod(a: nat, b: nat)
    requires DayOf(a) == DayOf(b) && PeriodOf(a) == PeriodOf(b)
    ensures a == b
  {
  }

  /** When a period starts and ends on the clock. */
  function Times(period: nat): (string, string)
    requires period < PERIODS_PER_DAY
  {
    var startMinutes := DAY_START_MINUTES + period * PERIOD_MINUTES;
    (FormatMinutes(startMinutes), FormatMinutes(startMinutes + PERIOD_MINUTES))
  }

  /** Periods are 40 minutes long, one after the other from 8 o'clock. */
  lemma PeriodTimes(period: nat)
    requires period < 8
    ensures var (start, end) := Times(period);
            && start[2] == ':' && ParseTwo(start[..2]) * 60 + ParseTwo(start[3..]) == 480 + 40 * period
            && end[2] == ':' && ParseTwo(end[..2]) * 60 + ParseTwo(end[3..]) == 520 + 40 * period
            && |start| == |end| == 5
  {
    hide FormatMinutes, ParseTwo;
    FormatRoundTrip(480 + 40 * period);
    FormatRoundTrip(520 + 40 * period);
  }

  function SubjectAt(p: Plan, slot: nat): Subject
    requires p.schedulable != []
  {
    p.schedulable[slot % |p.schedulable|]
  }

  function TeacherAt(p: Plan, slot: nat): string
    requires ValidPlan(p)
  {
    p.teachers[SubjectAt(p, slot).id]
  }

  predicate Busy(p: Plan, slot: nat)
    requires ValidPlan(p)
  {
    (DayOf(slot), PeriodOf(slot), TeacherAt(p, slot)) in p.busy
  }

  function EntryAt(p: Plan, slot: nat): Entry
    requires ValidPlan(p)
  {
    Entry(p.classId, p.sectionId, SubjectAt(p, slot).id, TeacherAt(p, slot), p.room,
          DayOf(slot), PeriodOf(slot), Times(PeriodOf(slot)).0, Times(PeriodOf(slot)).1)
  }

  /** The entries of the first `n` slots: each slot's, unless its teacher is busy. */
  function Filled(p: Plan, n: nat): seq<Entry>
    requires ValidPlan(p)
  {
    if n == 0 then [] else Filled(p, n - 1) + if Busy(p, n - 1) then [] else [EntryAt(p, n - 1)]
  }

  datatype Outcome = Outcome(entries: seq<Entry>, error: Option<Error>)

  function PlanFor(entries: seq<Entry>, classId: string, sectionId: string, room: string,
                   subjects: seq<Subject>, assignments: seq<Assignment>): Plan {
    var own := SubjectsOf(subjects, classId);
    var teachers := TeachersOf(assignments, classId, sectionId, set s | s in own :: s.id);
    Plan(classId, sectionId, room, Schedulable(own, teachers), teachers, Bookings(Kept(entries, classId, sectionId)))
  }

  /** A call, with the rest of the school as it is at that moment. */
  datatype Request = Request(
    sections: map<string, Section>, subjects: seq<Subject>, assignments: seq<Assignment>, classId: string, sectionId: string)

  function PlanOf(entries: seq<Entry>, r: Request): Plan
    requires r.sectionId in r.sections
  {
    PlanFor(entries, r.classId, r.sectionId, r.sections[r.sectionId].roomLabel, r.subjects, r.assignments)
  }

  function Generated(entries: seq<Entry>, r: Request): Outcome {
    if r.sectionId !in r.sections || r.sections[r.sectionId].classId != r.classId then Outcome(entries, Some(BadRequest))
    else
      var p := PlanOf(entries, r);
      if p.schedulable == [] then Outcome(entries, Some(BadRequest))
      else Outcome(Kept(entries, r.classId, r.sectionId) + Filled(p, SLOTS), None)
  }

  lemma ModInRange(n: nat, size: nat)
    requires size > 0
    ensures 0 <= n % size < size
  {
  }

  lemma {:induction false} SchedulableAre(all: seq<Subject>, classId: string, teachers: map<string, string>)
    ensures forall s :: s in Schedulable(all, teachers) <==> s in all && s.id in teachers
    ensures forall s :: s in SubjectsOf(all, classId) <==> s in all && classId in s.classIds
  {
    if all != [] {
      SchedulableAre(all[1..], classId, teachers);
      assert all == [all[0]] + all[1..];
    }
  }

  ghost predicate OffersSubject(r: Request, id: string) { exists s :: s in r.subjects && s.id == id && r.classId in s.classIds }

  lemma PlannedSubjects(entries: seq<Entry>, r: Request, s: Subject)
    requires r.sectionId in r.sections
    ensures var p := PlanOf(entries, r);
            && (s in p.schedulable <==>
                  s in r.subjects && r.classId in s.classIds && HasAssignment(r.assignments, r.classId, r.sectionId, s.id))
            && (s in p.schedulable ==> s.id in p.teachers && forall i: nat ::
                  AssignedAt(r.assignments, r.classId, r.sectionId, s.id, i) ==> p.teachers[s.id] == r.assignments[i].teacherId)
  {
    hide AssignedAt, HasAssignment, TeachersOf, SubjectsOf, Schedulable, Bookings, Kept;
    var own := SubjectsOf(r.subjects, r.classId);
    var ids := set s | s in own :: s.id;
    var teachers := TeachersOf(r.assignments, r.classId, r.sectionId, ids);
    SchedulableAre(r.subjects, r.classId, teachers);
    SchedulableAre(own, r.classId, teachers);
    if s in own {
      assert s.id in ids;
      forall i: nat | AssignedAt(r.assignments, r.classId, r.sectionId, s.id, i)
        ensures s.id in teachers && i < |r.assignments| && teachers[s.id] == r.assignments[i].teacherId
      {
        AssignedInRange(r.assignments, r.classId, r.sectionId, s.id, i);
        TeacherIsLastAssigned(r.assignments, r.classId, r.sectionId, ids, s.id, i);
      }
      TeacherIsLastAssigned(r.assignments, r.classId, r.sectionId, ids, s.id, 0);
    }
  }

  /** What a slot would hold: a subject of the class, in the section's room, taught by whom its last assignment names. */
  lemma EntryIsAsAssigned(entries: seq<Entry>, r: Request, slot: nat)
    requires r.sectionId in r.sections && PlanOf(entries, r).schedulable != []
    ensures ValidPlan(PlanOf(entries, r))
    ensures var e := EntryAt(PlanOf(entries, r), slot);
            && e.classId == r.classId && e.sectionId == r.sectionId && e.roomId == r.sections[r.sectionId].roomLabel
            && 8 * e.dayOfWeek + e.periodIndex == slot && e.periodIndex < 8
            && (e.startTime, e.endTime) == Times(e.periodIndex)
            && OffersSubject(r, e.subjectId)
            && exists i: nat :: AssignedAt(r.assignments, r.classId, r.sectionId, e.subjectId, i)
                                && r.assignments[i].teacherId == e.teacherId
  {
    hide Times, Kept, Bookings, SubjectsOf, Schedulable, TeachersOf, AssignedAt;
    var p := PlanOf(entries, r);
    forall s | s in p.schedulable ensures s.id in p.teachers { PlannedSubjects(entries, r, s); }
    ModInRange(slot, |p.schedulable|);
    var s := SubjectAt(p, slot);
    assert s in p.schedulable;
    PlannedSubjects(entries, r, s);
    hide PlanOf;
    var i: nat :| AssignedAt(r.assignments, r.classId, r.sectionId, s.id, i);
    AssignedInRange(r.assignments, r.classId, r.sectionId, s.id, i);
  }

  /** A slot is left free when its teacher is booked then by another section, and only then. */
  lemma BusyMeansBookedElsewhere(entries: seq<Entry>, r: Request, slot: nat)
    requires r.sectionId in r.sections && PlanOf(entries, r).schedulable != [] && ValidPlan(PlanOf(entries, r))
    ensures var p := PlanOf(entries, r);
            Busy(p, slot) <==>
            exists e :: e in entries && (e.classId != r.classId || e.sectionId != r.sectionId)
                        && 8 * e.dayOfWeek + e.periodIndex == slot && e.periodIndex < 8 && e.teacherId == TeacherAt(p, slot)
  {
    hide SubjectsOf, Schedulable, TeachersOf, TeacherAt;
    var p := PlanOf(entries, r);
    var kept := Kept(entries, r.classId, r.sectionId);
    KeptAre(entries, r.classId, r.sectionId);
    hide Kept;
    if Busy(p, slot) {
      var e :| e in kept && (e.dayOfWeek, e.periodIndex, e.teacherId) == (DayOf(slot), PeriodOf(slot), TeacherAt(p, slot));
      assert 8 * e.dayOfWeek + e.periodIndex == slot;
    }
    if e :| e in entries && (e.classId != r.classId || e.sectionId != r.sectionId)
            && 8 * e.dayOfWeek + e.periodIndex == slot && e.periodIndex < 8 && e.teacherId == TeacherAt(p, slot) {
      SlotNumber(e.dayOfWeek, e.periodIndex);
      assert e in kept;
    }
  }

  /** Generating fails, changing nothing, exactly for a section not of the class or without an assigned subject. */
  lemma GenerateFailsExactly(entries: seq<Entry>, r: Request)
    ensures var o := Generated(entries, r);
            && (o.error.Some? ==> o == Outcome(entries, Some(BadRequest)))
            && (o.error.Some? <==>
                  || r.sectionId !in r.sections || r.sections[r.sectionId].classId != r.classId
                  || forall s | s in r.subjects && r.classId in s.classIds ::
                       !HasAssignment(r.assignments, r.classId, r.sectionId, s.id))
  {
    hide HasAssignment, PlanOf, Filled, Kept;
    if r.sectionId in r.sections && r.sections[r.sectionId].classId == r.classId {
      var p := PlanOf(entries, r);
      forall s { PlannedSubjects(entries, r, s); }
      assert p.schedulable != [] ==> p.schedulable[0] in p.schedulable;
    }
  }

  method FillSlots(p: Plan) returns (generated: seq<Entry>)
    requires ValidPlan(p)
    ensures generated == Filled(p, SLOTS)
  {
    hide SubjectAt, DayOf, PeriodOf, FormatMinutes;
    generated := [];
    var cursor := 0;
    for day := 0 to DAYS
      invariant cursor == day * PERIODS_PER_DAY
      invariant generated == Filled(p, cursor)
    {
      for period := 0 to PERIODS_PER_DAY
        invariant cursor == day * PERIODS_PER_DAY + period
        invariant generated == Filled(p, cursor)
      {
        var subject := SubjectAt(p, cursor);
        var teacherId := TeacherAt(p, cursor);
        SlotNumber(day, period);
        if (day, period, teacherId) !in p.busy {
          var startMinutes := DAY_START_MINUTES + period * PERIOD_MINUTES;
          generated := generated + [Entry(p.classId, p.sectionId, subject.id, teacherId, p.room, day, period,
                                          FormatMinutes(startMinutes), FormatMinutes(startMinutes + PERIOD_MINUTES))];
        }
        cursor := cursor + 1;
      }
    }
  }

  class TimetableService {
    var entries: seq<Entry>
    var sections: map<string, Section>
    var subjects: seq<Subject>
    var assignments: seq<Assignment>

    method DeleteEntries(classId: string, sectionId: string)
      modifies this`entries
      ensures entries == Kept(old(entries), classId, sectionId)
    {
      hide Kept, IsFor;
      var all := entries;
      var kept := [];
      assert all[0..] == all;
      for i := 0 to |all|
        invariant kept + Kept(all[i..], classId, sectionId) == Kept(all, classId, sectionId)
      {
        KeptStep(all, i, classId, sectionId);
        if !IsFor(all[i], classId, sectionId) {
          kept := kept + [all[i]];
        }
      }
      KeptNone(classId, sectionId);
      assert all[|all|..] == [] && kept + [] == kept;
      entries := kept;
    }

    method Generate(classId: string, sectionId: string) returns (error: Option<Error>)
      modifies this`entries
      ensures Outcome(entries, error) == Generated(old(entries), Request(sections, subjects, assignments, classId, sectionId))
    {
      if sectionId !in sections || sections[sectionId].classId != classId {
        return Some(BadRequest);
      }
      var plan := PlanFor(entries, classId, sectionId, sections[sectionId].roomLabel, subjects, assignments);
      if |plan.schedulable| == 0 {
        return Some(BadRequest);
      }
      var generated := FillSlots(plan);
      DeleteEntries(classId, sectionId);
      entries := entries + generated;
      return None;
    }
  }

  // --- What the generator guarantees.

  lemma SlotsDiffer(p: Plan, a: nat, b: nat)
    requires ValidPlan(p) && SameBooking(EntryAt(p, a), EntryAt(p, b))
    ensures a == b
  {
    hide Times, SubjectAt, TeacherAt, DayOf, PeriodOf;
    SlotIsItsDayAndPeriod(a, b);
  }

  /** An entry is the one of a slot before `n` whose teacher is free. */
  ghost predicate IsSlot(p: Plan, n: nat, e: Entry, slot: nat)
    requires ValidPlan(p)
  {
    slot < n && !Busy(p, slot) && e == EntryAt(p, slot)
  }

  ghost predicate SlotOf(p: Plan, n: nat, e: Entry)
    requires ValidPlan(p)
  {
    exists slot: nat :: IsSlot(p, n, e, slot)
  }

  lemma {:induction false} FilledAre(p: Plan, n: nat)
    requires ValidPlan(p)
    ensures forall i | 0 <= i < |Filled(p, n)| :: SlotOf(p, n, Filled(p, n)[i])
    ensures NoClash(Filled(p, n))
  {
    hide EntryAt, Busy, ValidPlan;
    if n > 0 {
      FilledAre(p, n - 1);
      if !Busy(p, n - 1) { assert IsSlot(p, n, EntryAt(p, n - 1), n - 1); }
      var f := Filled(p, n - 1);
      forall i | 0 <= i < |f|
        ensures SlotOf(p, n, f[i]) && !SameBooking(f[i], EntryAt(p, n - 1))
      {
        var slot: nat :| IsSlot(p, n - 1, f[i], slot);
        assert IsSlot(p, n, f[i], slot);
        if SameBooking(f[i], EntryAt(p, n - 1)) { SlotsDiffer(p, slot, n - 1); }
      }
    }
  }

  lemma BusyBooking(p: Plan, slot: nat, e: Entry)
    requires ValidPlan(p)
    ensures SameBooking(e, EntryAt(p, slot)) && (e.dayOfWeek, e.periodIndex, e.teacherId) in p.busy ==> Busy(p, slot)
    ensures IsFor(EntryAt(p, slot), p.classId, p.sectionId)
  {
  }

  function Own(entries: seq<Entry>, classId: string, sectionId: string): seq<Entry> {
    if entries == [] then []
    else (if IsFor(entries[0], classId, sectionId) then [entries[0]] else []) + Own(entries[1..], classId, sectionId)
  }

  lemma FilledIsOwn(p: Plan, n: nat, j: nat)
    requires ValidPlan(p) && j < |Filled(p, n)|
    ensures IsFor(Filled(p, n)[j], p.classId, p.sectionId)
  {
    hide EntryAt, Busy, Filled;
    FilledAre(p, n);
    assert SlotOf(p, n, Filled(p, n)[j]);
    var slot: nat :| IsSlot(p, n, Filled(p, n)[j], slot);
    BusyBooking(p, slot, Filled(p, n)[j]);
  }

  lemma {:induction false} PartsOfAppend(kept: seq<Entry>, own: seq<Entry>, classId: string, sectionId: string)
    requires forall i | 0 <= i < |kept| :: !IsFor(kept[i], classId, sectionId)
    requires forall i | 0 <= i < |own| :: IsFor(own[i], classId, sectionId)
    ensures Kept(kept + own, classId, sectionId) == kept && Own(kept + own, classId, sectionId) == own
  {
    hide IsFor;
    if kept != [] {
      PartsOfAppend(kept[1..], own, classId, sectionId);
      assert (kept + own)[1..] == kept[1..] + own;
    } else if own != [] {
      PartsOfAppend(kept, own[1..], classId, sectionId);
      assert (kept + own)[1..] == kept + own[1..];
    }
  }

  /** After generating, the section's timetable is the plan for its 48 slots and nothing else. */
  lemma GeneratedIsThePlan(entries: seq<Entry>, r: Request)
    requires Generated(entries, r).error.None?
    ensures r.sectionId in r.sections && ValidPlan(PlanOf(entries, r))
    ensures Own(Generated(entries, r).entries, r.classId, r.sectionId) == Filled(PlanOf(entries, r), 48)
  {
    hide EntryAt, Busy, Filled, FormatMinutes, Own, Kept, SubjectsOf, TeachersOf;
    var p := PlanOf(entries, r);
    var kept, filled := Kept(entries, r.classId, r.sectionId), Filled(p, SLOTS);
    KeptAre(entries, r.classId, r.sectionId);
    forall i | 0 <= i < |kept| ensures !IsFor(kept[i], r.classId, r.sectionId) { assert kept[i] in kept; }
    forall j | 0 <= j < |filled| ensures IsFor(filled[j], r.classId, r.sectionId) { FilledIsOwn(p, SLOTS, j); }
    PartsOfAppend(kept, filled, r.classId, r.sectionId);
  }

  /** Generating leaves the other sections' entries as they were. */
  lemma GenerateLeavesOthers(entries: seq<Entry>, request: Request)
    ensures Kept(Generated(entries, request).entries, request.classId, request.sectionId)
            == Kept(entries, request.classId, request.sectionId)
  {
    hide EntryAt, Busy, Filled, FormatMinutes;
    var classId, sectionId := request.classId, request.sectionId;
    if Generated(entries, request).error.None? {
      var p := PlanOf(entries, request);
      var kept, filled := Kept(entries, classId, sectionId), Filled(p, SLOTS);
      KeptAre(entries, classId, sectionId);
      forall j | 0 <= j < |filled| ensures IsFor(filled[j], classId, sectionId) { FilledIsOwn(p, SLOTS, j); }
      forall i | 0 <= i < |kept| ensures !IsFor(kept[i], classId, sectionId) { assert kept[i] in kept; }
      PartsOfAppend(kept, filled, classId, sectionId);
    }
  }

  /** Generating keeps the whole school free of clashes. */
  lemma GenerateKeepsNoClash(entries: seq<Entry>, request: Request)
    requires NoClash(entries)
    ensures NoClash(Generated(entries, request).entries)
  {
    hide EntryAt, Busy, Filled, FormatMinutes;
    if Generated(entries, request).error.None? {
      var p := PlanOf(entries, request);
      var kept, filled := Kept(entries, request.classId, request.sectionId), Filled(p, SLOTS);
      KeptAre(entries, request.classId, request.sectionId);
      FilledAre(p, SLOTS);
      forall i, j | 0 <= i < |kept| && 0 <= j < |filled|
        ensures !SameBooking(kept[i], filled[j])
      {
        assert kept[i] in kept && SlotOf(p, SLOTS, filled[j]);
        var slot: nat :| IsSlot(p, SLOTS, filled[j], slot);
        BusyBooking(p, slot, kept[i]);
      }
    }
  }

  function Run(entries: seq<Entry>, requests: seq<Request>): seq<Entry> {
    if requests == [] then entries
    else Generated(Run(entries, requests[..|requests| - 1]), requests[|requests| - 1]).entries
  }

  /** However often, for whichever sections and after whatever changes of staff timetables are generated, no teacher is double-booked. */
  lemma {:induction false} RunsKeepNoClash(entries: seq<Entry>, requests: seq<Request>)
    requires NoClash(entries)
    ensures NoClash(Run(entries, requests))
  {
    hide Generated, NoClash;
    if requests != [] {
      var n := |requests| - 1;
      RunsKeepNoClash(entries, requests[..n]);
      GenerateKeepsNoClash(Run(entries, requests[..n]), requests[n]);
    }
  }

  lemma OwnCons(e: Entry, rest: seq<Entry>, classId: string, sectionId: string)
    ensures Own([e] + rest, classId, sectionId)
            == (if IsFor(e, classId, sectionId) then [e] else []) + Own(rest, classId, sectionId)
  {
    assert ([e] + rest)[1..] == rest;
  }

  lemma {:induction false} OwnIsKept(entries: seq<Entry>, c: string, s: string, classId: string, sectionId: string)
    requires c != classId || s != sectionId
    ensures Own(Kept(entries, c, s), classId, sectionId) == Own(entries, classId, sectionId)
  {
    if entries == [] {
      KeptNone(c, s);
    } else {
      hide Own, Kept;
      var e, rest := entries[0], Kept(entries[1..], c, s);
      OwnIsKept(entries[1..], c, s, classId, sectionId);
      KeptStep(entries, 0, c, s);
      assert entries[0..] == entries && entries == [e] + entries[1..] && [] + rest == rest;
      OwnCons(e, entries[1..], classId, sectionId);
      OwnCons(e, rest, classId, sectionId);
    }
  }

  /** A section nobody generated for has the timetable it had. */
  lemma {:induction false} RunsLeaveOthers(entries: seq<Entry>, requests: seq<Request>, classId: string, sectionId: string)
    requires forall r | r in requests :: r.classId != classId || r.sectionId != sectionId
    ensures Own(Run(entries, requests), classId, sectionId) == Own(entries, classId, sectionId)
  {
    hide Generated, Own, Kept;
    if requests != [] {
      var n := |requests| - 1;
      var r := requests[n];
      assert r in requests;
      RunsLeaveOthers(entries, requests[..n], classId, sectionId);
      var before := Run(entries, requests[..n]);
      GenerateLeavesOthers(before, r);
      OwnIsKept(before, r.classId, r.sectionId, classId, sectionId);
      OwnIsKept(Generated(before, r).entries, r.classId, r.sectionId, classId, sectionId);
    }
  }

  // --- The shape of one timetable.

  function BusySlots(p: Plan, n: nat): nat
    requires ValidPlan(p)
  {
    if n == 0 then 0 else BusySlots(p, n - 1) + if Busy(p, n - 1) then 1 else 0
  }

  /** Every free slot is filled by its own entry, and only busy slots are missing. */
  lemma {:induction false} OneEntryPerFreeSlot(p: Plan, n: nat)
    requires ValidPlan(p)
    ensures |Filled(p, n)| + BusySlots(p, n) == n
    ensures forall slot: nat | slot < n :: EntryAt(p, slot) in Filled(p, n) <==> !Busy(p, slot)
  {
    hide EntryAt, Busy, ValidPlan;
    if n > 0 {
      OneEntryPerFreeSlot(p, n - 1);
      FilledAre(p, n);
      forall slot: nat | slot < n
        ensures EntryAt(p, slot) in Filled(p, n) <==> !Busy(p, slot)
      {
        if EntryAt(p, slot) in Filled(p, n) {
          var i :| 0 <= i < |Filled(p, n)| && Filled(p, n)[i] == EntryAt(p, slot);
          assert SlotOf(p, n, Filled(p, n)[i]);
          var s: nat :| IsSlot(p, n, EntryAt(p, slot), s);
          SlotsDiffer(p, s, slot);
        }
      }
    }
  }

  /** How many of the first `n` slots try the subject. */
  function Tries(p: Plan, subject: Subject, n: nat): nat
    requires p.schedulable != []
  {
    if n == 0 then 0 else Tries(p, subject, n - 1) + if SubjectAt(p, n - 1) == subject then 1 else 0
  }

  ghost predicate DistinctSubjects(p: Plan) {
    forall i, j | 0 <= i < j < |p.schedulable| :: p.schedulable[i] != p.schedulable[j]
  }

  lemma TriedAt(p: Plan, slot: nat, j: nat)
    requires DistinctSubjects(p) && j < |p.schedulable|
    ensures SubjectAt(p, slot) == p.schedulable[j] <==> slot % |p.schedulable| == j
  {
    ModInRange(slot, |p.schedulable|);
  }

  lemma AtLeastOne(d: nat, size: nat)
    requires d > 0
    ensures size <= d * size
  {
  }

  lemma SameQuotient(q: nat, r: nat, k: nat, s: nat, size: nat)
    requires r < size && s < size && q * size + r == k * size + s
    ensures q == k && r == s
  {
    if q < k { AtLeastOne(k - q, size); } else if k < q { AtLeastOne(q - k, size); }
  }

  lemma DivIs(n: nat, q: nat, r: nat, size: nat)
    requires r < size && n == q * size + r
    ensures n / size == q && n % size == r
  {
    SameQuotient(q, r, n / size, n % size, size);
  }

  lemma NextRound(n: nat, size: nat)
    requires size > 0
    ensures if n % size == size - 1 then (n + 1) / size == n / size + 1 && (n + 1) % size == 0
            else (n + 1) / size == n / size && (n + 1) % size == n % size + 1
  {
    var q, r := n / size, n % size;
    assert n == q * size + r;
    if r == size - 1 {
      assert n + 1 == (q + 1) * size;
      DivIs(n + 1, q + 1, 0, size);
    } else {
      DivIs(n + 1, q, r + 1, size);
    }
  }

  /** The round robin is fair: every subject is tried the floor of slots over subjects times, the first few once more. */
  lemma {:induction false} TriesAreEven(p: Plan, j: nat, n: nat)
    requires DistinctSubjects(p) && j < |p.schedulable|
    ensures Tries(p, p.schedulable[j], n) == n / |p.schedulable| + if j < n % |p.schedulable| then 1 else 0
  {
    hide SubjectAt, DistinctSubjects;
    if n == 0 {
      DivIs(0, 0, 0, |p.schedulable|);
    } else {
      TriesAreEven(p, j, n - 1);
      TriedAt(p, n - 1, j);
      NextRound(n - 1, |p.schedulable|);
    }
  }

  ghost predicate DistinctRows(subjects: seq<Subject>) {
    forall i, j | 0 <= i < j < |subjects| :: subjects[i] != subjects[j]
  }

  lemma {:induction false} FilteredDistinct(subjects: seq<Subject>, classId: string, teachers: map<string, string>)
    requires DistinctRows(subjects)
    ensures DistinctRows(SubjectsOf(subjects, classId)) && (forall x | x in SubjectsOf(subjects, classId) :: x in subjects)
    ensures DistinctRows(Schedulable(subjects, teachers)) && (forall x | x in Schedulable(subjects, teachers) :: x in subjects)
  {
    if subjects != [] {
      FilteredDistinct(subjects[1..], classId, teachers);
      assert subjects == [subjects[0]] + subjects[1..] && subjects[0] !in subjects[1..];
    }
  }

  /** In a generated timetable every schedulable subject is tried the floor or one more of 48 over their number. */
  lemma GeneratedTriesAreEven(entries: seq<Entry>, r: Request, j: nat)
    requires r.sectionId in r.sections && DistinctRows(r.subjects) && j < |PlanOf(entries, r).schedulable|
    ensures var p := PlanOf(entries, r);
            Tries(p, p.schedulable[j], SLOTS) == SLOTS / |p.schedulable| + if j < SLOTS % |p.schedulable| then 1 else 0
  {
    var p := PlanOf(entries, r);
    FilteredDistinct(r.subjects, r.classId, p.teachers);
    FilteredDistinct(SubjectsOf(r.subjects, r.classId), r.classId, p.teachers);
    TriesAreEven(p, j, SLOTS);
  }
}
