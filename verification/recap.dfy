/** The monthly class recap: for every calendar day of the chosen month,
    one row per student of the teacher's roster, with the 1..5 score of
    each habit or a dash where nothing was recorded. */
module Recap {
  import opened Seqs
  import opened Text
  import opened Scale
  import opened Records
  import opened Calendar

  /** A recap cell: a score, or the dash shown when there is no rating. */
  datatype Score = Value(v: RatingValue) | Dash

  datatype DailyStudentRecord = DailyStudentRecord(studentName: string, habits: map<Habit, Score>)

  datatype DailyReport = DailyReport(day: nat, date: string, studentRecords: seq<DailyStudentRecord>)

  /** The date key of day `day` of the month `ym`: `YYYY-MM-DD`. */
  function DateOf(ym: string, day: nat): (d: string)
    requires day < 100
    ensures |d| == |ym| + 3 && d[..|ym|] == ym && d[|ym|] == '-'
    ensures StartsWith(d, ym)
    ensures IsDigits(d[|ym| + 1..]) && DigitsValue(d[|ym| + 1..]) == day
  {
    var d := ym + "-" + Pad2(day);
    assert d[|ym| + 1..] == Pad2(day);
    assert d == ym + (d[|ym|..]);
    d
  }

  /** The identifiers of the roster, in roster order. */
  function RosterIds(roster: seq<Student>): (ids: seq<string>)
    ensures |ids| == |roster|
    ensures forall j :: 0 <= j < |roster| ==> ids[j] == roster[j].id
  {
    seq(|roster|, j requires 0 <= j < |roster| => roster[j].id)
  }

  /** The records the recap considers: those of roster students whose date
      lies in the chosen month. */
  function RecordsForMonth(roster: seq<Student>, records: seq<HabitRecord>, ym: string): seq<HabitRecord>
  {
    var ids := RosterIds(roster);
    Filter(records, (r: HabitRecord) => r.studentId in ids && StartsWith(r.date, ym))
  }

  /** The last record for (student, date): grouping records by date and
      student id overwrites earlier entries with later ones. */
  function LastRecordFor(records: seq<HabitRecord>, studentId: string, date: string): (r: Option<HabitRecord>)
    ensures r.Some? ==> exists i :: 0 <= i < |records| && records[i] == r.value
                                      && r.value.studentId == studentId && r.value.date == date
                                      && forall k :: i < k < |records| ==> !(records[k].studentId == studentId && records[k].date == date)
    ensures r.None? ==> forall k :: 0 <= k < |records| ==> !(records[k].studentId == studentId && records[k].date == date)
    decreases |records|
  {
    if |records| == 0 then None
    else
      var last := records[|records| - 1];
      if last.studentId == studentId && last.date == date then Some(last)
      else
        var r := LastRecordFor(records[..|records| - 1], studentId, date);
        assert forall k :: 0 <= k < |records| - 1 ==> records[..|records| - 1][k] == records[k];
        r
  }

  /** The cell of one habit: the score of the stored label when the record
      rates the habit, the dash otherwise. */
  function CellFor(rec: Option<HabitRecord>, h: Habit): (c: Score)
    ensures c.Dash? <==> rec.None? || h !in rec.value.habits
    ensures c.Value? ==> RatingOf(c.v) == rec.value.habits[h]
    ensures c.Value? ==> LabelValue(Label(rec.value.habits[h])) == Some(c.v)
  {
    RatingMapBijection();
    if rec.Some? && h in rec.value.habits then
      LabelRoundTrip(rec.value.habits[h]);
      Value(RatingMap(rec.value.habits[h]))
    else Dash
  }

  function StudentRow(student: Student, rec: Option<HabitRecord>): (row: DailyStudentRecord)
    ensures row.studentName == student.name
    ensures forall h: Habit :: h in row.habits && row.habits[h] == CellFor(rec, h)
  {
    EveryHabitListed();
    DailyStudentRecord(student.name, map h | h in Habits :: CellFor(rec, h))
  }

  function DayEntry(roster: seq<Student>, monthRecords: seq<HabitRecord>, ym: string, day: nat): (e: DailyReport)
    requires day < 100
    ensures e.day == day && e.date == DateOf(ym, day) && |e.studentRecords| == |roster|
    ensures forall j :: 0 <= j < |roster| ==>
              e.studentRecords[j] == StudentRow(roster[j], LastRecordFor(monthRecords, roster[j].id, DateOf(ym, day)))
  {
    var date := DateOf(ym, day);
    DailyReport(day, date, seq(|roster|, j requires 0 <= j < |roster| => StudentRow(roster[j], LastRecordFor(monthRecords, roster[j].id, date))))
  }

  /** Restricting the records to the roster and the month never changes the
      record found for a roster student on a day of that month. */
  lemma {:induction false} LastRecordForMonth(roster: seq<Student>, records: seq<HabitRecord>, ym: string, j: nat, date: string)
    requires j < |roster| && StartsWith(date, ym)
    ensures LastRecordFor(RecordsForMonth(roster, records, ym), roster[j].id, date) == LastRecordFor(records, roster[j].id, date)
    decreases |records|
  {
    if |records| > 0 {
      var init := records[..|records| - 1];
      var last := records[|records| - 1];
      var ids := RosterIds(roster);
      var p := (r: HabitRecord) => r.studentId in ids && StartsWith(r.date, ym);
      assert records == init + [last];
      FilterConcat(init, [last], p);
      LastRecordForMonth(roster, init, ym, j, date);
      assert ids[j] == roster[j].id;
      var f := RecordsForMonth(roster, init, ym);
      if p(last) {
        assert RecordsForMonth(roster, records, ym) == f + [last];
        assert (f + [last])[..|f|] == f;
      } else {
        assert RecordsForMonth(roster, records, ym) == f;
      }
    }
  }

  /** The monthly class recap.  An empty roster yields no report at all;
      otherwise there is one entry per day of the month, in order, each with
      one row per roster student in roster order, and each cell shows the
      last record stored for that student on that date. */
  function GenerateClassReport(roster: seq<Student>, records: seq<HabitRecord>, ym: string): (r: Option<seq<DailyReport>>)
    requires ym == "" || WellFormedMonth(ym)
    ensures r.None? <==> |roster| == 0
    ensures r.Some? ==> |r.value| == ReportDays(ym)
    ensures r.Some? ==> forall i :: 0 <= i < |r.value| ==>
              && r.value[i].day == i + 1
              && r.value[i].date == ym + "-" + Pad2(i + 1)
              && |r.value[i].studentRecords| == |roster|
    ensures r.Some? ==> forall i, j :: 0 <= i < |r.value| && 0 <= j < |roster| ==>
              && r.value[i].studentRecords[j].studentName == roster[j].name
              && forall h: Habit :: h in r.value[i].studentRecords[j].habits
                   && r.value[i].studentRecords[j].habits[h] == CellFor(LastRecordFor(records, roster[j].id, r.value[i].date), h)
  {
    if |roster| == 0 then None
    else
      var monthRecords := RecordsForMonth(roster, records, ym);
      var n := ReportDays(ym);
      var days := seq(n, i requires 0 <= i < n => DayEntry(roster, monthRecords, ym, i + 1));
      forall i, j | 0 <= i < n && 0 <= j < |roster|
        ensures days[i].studentRecords[j] == StudentRow(roster[j], LastRecordFor(records, roster[j].id, days[i].date))
      {
        LastRecordForMonth(roster, records, ym, j, DateOf(ym, i + 1));
      }
      Some(days)
  }

  /** A record appended after all others for a roster student and a day of
      the month decides every cell of that student's row on that day. */
  lemma RecapLaterRecordWins(roster: seq<Student>, records: seq<HabitRecord>, rec: HabitRecord, ym: string, i: nat, j: nat)
    requires ym == "" || WellFormedMonth(ym)
    requires j < |roster| && rec.studentId == roster[j].id
    requires i < ReportDays(ym) && rec.date == ym + "-" + Pad2(i + 1)
    ensures var r := GenerateClassReport(roster, records + [rec], ym);
            r.Some? && forall h: Habit ::
              r.value[i].studentRecords[j].habits[h] == (if h in rec.habits then Value(RatingMap(rec.habits[h])) else Dash)
  {
    var all := records + [rec];
    assert all[|all| - 1] == rec;
    assert LastRecordFor(all, rec.studentId, rec.date) == Some(rec);
  }

  /** A record of a student outside the roster, or dated outside the month,
      leaves the recap exactly as it was. */
  lemma RecapIgnoresUnrelated(roster: seq<Student>, records: seq<HabitRecord>, x: HabitRecord, ym: string)
    requires ym == "" || WellFormedMonth(ym)
    requires x.studentId !in RosterIds(roster) || !StartsWith(x.date, ym)
    ensures GenerateClassReport(roster, records + [x], ym) == GenerateClassReport(roster, records, ym)
  {
    var ids := RosterIds(roster);
    var p := (r: HabitRecord) => r.studentId in ids && StartsWith(r.date, ym);
    FilterConcat(records, [x], p);
    assert Filter([x], p) == [];
    assert RecordsForMonth(roster, records + [x], ym) == RecordsForMonth(roster, records, ym);
  }
}
