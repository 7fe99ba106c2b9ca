/** The report card of one exam series: its two percentage computations and the rank they must agree on. */
module ReportCards {
  import opened Wrappers
  import opened Money
  import opened Selections
  import opened Grading

  datatype Exam = Exam(id: string, subjectId: string, maxMarks: real)

  datatype Mark = Mark(examId: string, studentId: string, marksObtained: Option<real>, isAbsent: bool)

  datatype SubjectRow = SubjectRow(
    subjectId: string, maxMarks: real, marksObtained: Option<real>, isAbsent: bool, grade: Option<string>)

  datatype ReportCard = ReportCard(
    subjects: seq<SubjectRow>, totalMarksObtained: real, totalMaxMarks: real,
    percentage: real, grade: string, gpa: real, rank: Option<nat>)

  /** The marks by exam: the last one listed wins. */
  function MarkFor(marks: seq<Mark>, examId: string): Option<Mark> {
    if marks == [] then None
    else if marks[|marks| - 1].examId == examId then Some(marks[|marks| - 1])
    else MarkFor(marks[..|marks| - 1], examId)
  }

  ghost predicate LastFor(marks: seq<Mark>, examId: string, i: nat) {
    i < |marks| && marks[i].examId == examId && forall j | i < j < |marks| :: marks[j].examId != examId
  }

  lemma {:induction false} MarkForIsLast(marks: seq<Mark>, examId: string, i: nat)
    ensures LastFor(marks, examId, i) ==> MarkFor(marks, examId) == Some(marks[i])
    ensures (forall m | m in marks :: m.examId != examId) ==> MarkFor(marks, examId) == None
  {
    if marks != [] && marks[|marks| - 1].examId != examId { MarkForIsLast(marks[..|marks| - 1], examId, i); }
  }

  function Attempt(marks: seq<Mark>, exam: Exam): Option<real> {
    var mark := MarkFor(marks, exam.id);
    if mark.Some? && !mark.value.isAbsent then mark.value.marksObtained else None
  }

  function TotalMax(exams: seq<Exam>): real {
    if exams == [] then 0.0 else TotalMax(exams[..|exams| - 1]) + exams[|exams| - 1].maxMarks
  }

  function GetOr(x: Option<real>, default: real): real { if x.Some? then x.value else default }

  function Obtained(exams: seq<Exam>, marks: seq<Mark>): real {
    if exams == [] then 0.0
    else Obtained(exams[..|exams| - 1], marks) + GetOr(Attempt(marks, exams[|exams| - 1]), 0.0)
  }

  /** The percentage ranked on: nothing for a student who attempted no exam of the series. */
  function PercentageAcross(exams: seq<Exam>, marks: seq<Mark>, totalMaxMarks: real): Option<real> {
    if totalMaxMarks <= 0.0 then None
    else if !exists i | 0 <= i < |exams| :: Attempt(marks, exams[i]).Some? then None
    else Some(Obtained(exams, marks) / totalMaxMarks * 100.0)
  }

  /** One subject of the card. */
  function RowFor(exam: Exam, marks: seq<Mark>): SubjectRow
    requires exam.maxMarks != 0.0
  {
    var mark := MarkFor(marks, exam.id);
    var percentage := if mark.Some? && !mark.value.isAbsent && mark.value.marksObtained.Some?
                      then Some(mark.value.marksObtained.value / exam.maxMarks * 100.0) else None;
    SubjectRow(
      exam.subjectId,
      exam.maxMarks,
      if mark.Some? then mark.value.marksObtained else None,
      mark.Some? && mark.value.isAbsent,
      if percentage.Some? then Some(GradeForPercentage(percentage.value).grade) else None)
  }

  lemma PercentOf(part: real, whole: real)
    requires whole != 0.0
    ensures part / whole * 100.0 * whole == 100.0 * part
  {
    assert part / whole * whole == part;
  }

  /** `grade` is the letter of 100 times `part` over `whole`. */
  ghost predicate GradedOutOf(grade: string, part: real, whole: real) {
    exists p: real :: p * whole == 100.0 * part && GradeForPercentage(p).grade == grade
  }

  /** A subject row shows the student's last mark, absence included, and grades it unless absent or without marks. */
  lemma RowShowsLastMark(exam: Exam, marks: seq<Mark>, i: nat)
    requires exam.maxMarks != 0.0
    ensures var row := RowFor(exam, marks);
            && row.subjectId == exam.subjectId && row.maxMarks == exam.maxMarks
            && Attempt(marks, exam) == (if row.isAbsent then None else row.marksObtained)
            && (LastFor(marks, exam.id, i) ==>
                  && row.marksObtained == marks[i].marksObtained && row.isAbsent == marks[i].isAbsent
                  && (row.grade.Some? <==> !marks[i].isAbsent && marks[i].marksObtained.Some?)
                  && (row.grade.Some? ==> GradedOutOf(row.grade.value, marks[i].marksObtained.value, exam.maxMarks)))
            && ((forall m | m in marks :: m.examId != exam.id) ==>
                  row.marksObtained == None && !row.isAbsent && row.grade == None)
  {
    hide GradeForPercentage, MarkFor;
    MarkForIsLast(marks, exam.id, i);
    if LastFor(marks, exam.id, i) && marks[i].marksObtained.Some? {
      PercentOf(marks[i].marksObtained.value, exam.maxMarks);
    }
  }

  /** Exam forms only accept positive maximum marks. */
  predicate ValidExams(exams: seq<Exam>) { forall i | 0 <= i < |exams| :: exams[i].maxMarks > 0.0 }

  function RowsFor(exams: seq<Exam>, marks: seq<Mark>): seq<SubjectRow>
    requires ValidExams(exams)
  {
    seq(|exams|, i requires 0 <= i < |exams| => RowFor(exams[i], marks))
  }

  function CardTotal(rows: seq<SubjectRow>): real {
    if rows == [] then 0.0
    else CardTotal(rows[..|rows| - 1])
         + if rows[|rows| - 1].isAbsent then 0.0 else GetOr(rows[|rows| - 1].marksObtained, 0.0)
  }

  /** The card's own percentage, before rounding. */
  function CardPercentage(exams: seq<Exam>, marks: seq<Mark>): real
    requires ValidExams(exams)
  {
    if TotalMax(exams) > 0.0 then CardTotal(RowsFor(exams, marks)) / TotalMax(exams) * 100.0 else 0.0
  }

  lemma {:induction false} TotalsAgree(exams: seq<Exam>, marks: seq<Mark>)
    requires ValidExams(exams)
    ensures CardTotal(RowsFor(exams, marks)) == Obtained(exams, marks)
  {
    if exams != [] {
      var n := |exams| - 1;
      TotalsAgree(exams[..n], marks);
      assert RowsFor(exams, marks)[..n] == RowsFor(exams[..n], marks);
    }
  }

  lemma {:induction false} TotalMaxPositive(exams: seq<Exam>)
    requires ValidExams(exams)
    ensures TotalMax(exams) >= 0.0 && (TotalMax(exams) > 0.0 <==> exams != [])
  {
    if exams != [] { TotalMaxPositive(exams[..|exams| - 1]); }
  }

  lemma NothingObtained(marks: seq<Mark>)
    ensures Obtained([], marks) == 0.0 && TotalMax([]) == 0.0
  {
  }

  /** The card's percentage times the maximum is 100 times the marks of the exams sat. */
  lemma CardPercentageIsOfMaximum(exams: seq<Exam>, marks: seq<Mark>)
    requires ValidExams(exams)
    ensures CardPercentage(exams, marks) * TotalMax(exams) == 100.0 * Obtained(exams, marks)
    ensures exams == [] ==> CardPercentage(exams, marks) == 0.0
  {
    hide CardTotal, Obtained, RowFor;
    TotalsAgree(exams, marks);
    TotalMaxPositive(exams);
    if exams != [] { PercentOf(CardTotal(RowsFor(exams, marks)), TotalMax(exams)); } else { NothingObtained(marks); }
  }

  predicate SomeGrade(rows: seq<SubjectRow>) { exists i | 0 <= i < |rows| :: rows[i].grade.Some? }

  /** The card's percentage is the one ranked on, which is missing exactly when no subject row has a grade. */
  lemma CardAgreesWithRanking(exams: seq<Exam>, marks: seq<Mark>)
    requires ValidExams(exams)
    ensures var p := PercentageAcross(exams, marks, TotalMax(exams));
            && (p.Some? ==> p.value == CardPercentage(exams, marks))
            && (p.None? <==> !SomeGrade(RowsFor(exams, marks)))
  {
    TotalsAgree(exams, marks);
    TotalMaxPositive(exams);
    var rows := RowsFor(exams, marks);
    forall i | 0 <= i < |exams|
      ensures rows[i].grade.Some? <==> Attempt(marks, exams[i]).Some?
    {
    }
  }

  // --- Grouping the series' marks by student.

  function MarksOf(marks: seq<Mark>, studentId: string): seq<Mark> {
    if marks == [] then []
    else
      var last := marks[|marks| - 1];
      MarksOf(marks[..|marks| - 1], studentId) + if last.studentId == studentId then [last] else []
  }

  lemma {:induction false} MarksSelected(marks: seq<Mark>, studentId: string)
    ensures Selects(marks, (m: Mark) => m.studentId == studentId, (m: Mark) => m, MarksOf(marks, studentId))
  {
    hide Selects;
    var keep := (m: Mark) => m.studentId == studentId;
    var project := (m: Mark) => m;
    if marks == [] {
      SelectsNothing(keep, project);
    } else {
      var n := |marks| - 1;
      MarksSelected(marks[..n], studentId);
      SelectsOneMore(marks[..n], marks[n], keep, project, MarksOf(marks[..n], studentId));
      assert marks[..n] + [marks[n]] == marks;
    }
  }

  function Bucket(m: map<string, seq<Mark>>, studentId: string): seq<Mark> {
    if studentId in m then m[studentId] else []
  }

  method GroupMarks(allMarks: seq<Mark>) returns (marksByStudent: map<string, seq<Mark>>)
    ensures forall s :: Bucket(marksByStudent, s) == MarksOf(allMarks, s)
  {
    marksByStudent := map[];
    for i := 0 to |allMarks|
      invariant forall s :: Bucket(marksByStudent, s) == MarksOf(allMarks[..i], s)
    {
      var mark := allMarks[i];
      assert allMarks[..i + 1][..i] == allMarks[..i];
      if mark.studentId in marksByStudent {
        marksByStudent := marksByStudent[mark.studentId := marksByStudent[mark.studentId] + [mark]];
      } else {
        marksByStudent := marksByStudent[mark.studentId := [mark]];
      }
    }
    assert allMarks[..|allMarks|] == allMarks;
  }

  /** What each classmate is ranked on. */
  function Totals(exams: seq<Exam>, classmates: seq<string>, allMarks: seq<Mark>): seq<Entry> {
    seq(|classmates|, i requires 0 <= i < |classmates| =>
      Entry(classmates[i], PercentageAcross(exams, MarksOf(allMarks, classmates[i]), TotalMax(exams))))
  }

  ghost predicate Distinct(ids: seq<string>) { forall i, j | 0 <= i < j < |ids| :: ids[i] != ids[j] }

  lemma RankedAreListed(totals: seq<Entry>, ranks: map<string, Option<nat>>)
    requires RanksLowest(totals, ranks)
    ensures ranks.Keys == set e | e in totals :: e.id
  {
  }

  /** The student's rank among distinct classmates, if it is one of them. */
  method RankAmong(studentId: string, classmates: seq<string>, totals: seq<Entry>) returns (rank: Option<nat>)
    requires |totals| == |classmates| && forall i | 0 <= i < |totals| :: totals[i].id == classmates[i]
    ensures Distinct(classmates) ==>
              forall i | 0 <= i < |totals| && totals[i].id == studentId :: rank == RankOf(totals, totals[i].value)
    ensures studentId !in classmates ==> rank == None
  {
    hide RankOf, RanksLowest;
    var rankByStudent := ComputeRanks(totals);
    rank := if studentId in rankByStudent then rankByStudent[studentId] else None;
    assert forall i | 0 <= i < |totals| :: totals[i] in totals;
    RankedAreListed(totals, rankByStudent);
  }

  /** Who asks: staff who may read results, or a student or parent who may see this student. */
  datatype Viewer = Staff | Family(related: bool)

  method GetReportCard(viewer: Viewer, published: bool, studentId: string, exams: seq<Exam>, classmates: seq<string>, allMarks: seq<Mark>)
    returns (r: Result<ReportCard>)
    requires ValidExams(exams)
    ensures if viewer.Staff? || (viewer.related && published) then r.Ok? else r == Err(Forbidden)
    ensures r.Ok? ==>
              var marks := MarksOf(allMarks, studentId);
              && r.value.subjects == RowsFor(exams, marks)
              && r.value.totalMaxMarks == TotalMax(exams) && r.value.totalMarksObtained == Obtained(exams, marks)
              && r.value.percentage == Round2(CardPercentage(exams, marks))
              && r.value.grade == GradeForPercentage(CardPercentage(exams, marks)).grade
              && r.value.gpa == GradeForPercentage(CardPercentage(exams, marks)).gpa
    ensures r.Ok? && Distinct(classmates) && studentId in classmates ==>
              r.value.rank == RankOf(Totals(exams, classmates, allMarks),
                                     PercentageAcross(exams, MarksOf(allMarks, studentId), TotalMax(exams)))
    ensures r.Ok? && studentId !in classmates ==> r.value.rank == None
  {
    hide PercentageAcross, Obtained, TotalMax, CardTotal, RowFor, GradeForPercentage, MarksOf, Bucket, RankOf, Round2;
    if !viewer.Staff? {
      if !viewer.related {
        return Err(Forbidden);
      }
      if !published {
        return Err(Forbidden);
      }
    }
    var marksByStudent := GroupMarks(allMarks);
    var totalMaxMarks := TotalMax(exams);
    var totals := seq(|classmates|, i requires 0 <= i < |classmates| =>
      Entry(classmates[i], PercentageAcross(exams, Bucket(marksByStudent, classmates[i]), totalMaxMarks)));
    assert totals == Totals(exams, classmates, allMarks);
    var rank := RankAmong(studentId, classmates, totals);
    var subjects := RowsFor(exams, Bucket(marksByStudent, studentId));
    var totalMarksObtained := CardTotal(subjects);
    var percentage := if totalMaxMarks > 0.0 then totalMarksObtained / totalMaxMarks * 100.0 else 0.0;
    var overall := GradeForPercentage(percentage);
    TotalsAgree(exams, MarksOf(allMarks, studentId));
    return Ok(ReportCard(subjects, totalMarksObtained, totalMaxMarks, Round2(percentage), overall.grade, overall.gpa, rank));
  }

  /**
   * Among distinct classmates, exactly those with no graded subject are unranked, and of two who are
   * ranked the one with the strictly higher card percentage has the strictly better rank.
   */
  lemma RankFollowsCard(exams: seq<Exam>, classmates: seq<string>, allMarks: seq<Mark>, ranks: map<string, Option<nat>>, a: string, b: string)
    requires ValidExams(exams) && a in classmates && b in classmates
    requires IsRanking(Totals(exams, classmates, allMarks), ranks)
    ensures a in ranks && b in ranks
    ensures ranks[a] == None <==> !SomeGrade(RowsFor(exams, MarksOf(allMarks, a)))
    ensures ranks[a].Some? && ranks[b].Some? ==>
              (ranks[a].value < ranks[b].value
               <==> CardPercentage(exams, MarksOf(allMarks, a)) > CardPercentage(exams, MarksOf(allMarks, b)))
  {
    hide PercentageAcross, CardPercentage, SomeGrade, RowsFor, MarksOf, Better, ValidExams;
    var totals := Totals(exams, classmates, allMarks);
    var i :| 0 <= i < |classmates| && classmates[i] == a;
    var j :| 0 <= j < |classmates| && classmates[j] == b;
    assert totals[i] in totals && totals[j] in totals;
    CardAgreesWithRanking(exams, MarksOf(allMarks, a));
    CardAgreesWithRanking(exams, MarksOf(allMarks, b));
    if totals[i].value.Some? && totals[j].value.Some? {
      var x, y := totals[i].value.value, totals[j].value.value;
      if x > y { BetterIsStrict(totals, x, y); } else if y > x { BetterIsStrict(totals, y, x); }
    }
  }
}
