/** The cell matrix and merge ranges of the monthly recap spreadsheet.  The
    spreadsheet library itself is not modelled: this is the array of rows
    and the list of merged ranges handed to it. */
module Sheet {
  import opened Seqs
  import opened Text
  import opened Scale
  import opened Records
  import opened Recap

  /** A merged block of cells, rows and columns counted from zero. */
  datatype MergeRange = MergeRange(startRow: nat, startCol: nat, endRow: nat, endCol: nat)

  /** What the recap title shows besides the rows. */
  datatype ReportMetadata = ReportMetadata(monthName: string, year: nat, className: string)

  /** Number, name, and one column per habit. */
  const NumCols: nat := |Habits| + 2

  const Title: string := "Laporan Rekapitulasi Pemantauan Kebiasaan Siswa"

  const Legend: string := "Keterangan: Angka dalam tabel merupakan nilai/skor kebiasaan harian (skala 1-5)."

  /** A merge over columns 0..NumCols-1 of one row. */
  function FullWidth(row: nat): MergeRange
  {
    MergeRange(row, 0, row, NumCols - 1)
  }

  function ScoreCell(s: Score): Cell
  {
    match s
    case Value(v) => Num(v)
    case Dash => Str("-")
  }

  /** The four rows above the first day: title, month, class and teacher, spacer. */
  function TitleRows(meta: ReportMetadata, teacherName: string): seq<seq<Cell>>
  {
    [ [Str(Title)],
      [Str("Bulan: " + meta.monthName + " " + NatToString(meta.year))],
      [Str("Kelas: " + meta.className), Str(""), Str("Guru: " + teacherName)],
      [] ]
  }

  function HeaderRow(): seq<Cell>
  {
    [Str("No"), Str("Nama Peserta Didik")] + seq(|Habits|, k requires 0 <= k < |Habits| => Str(HabitName(Habits[k])))
  }

  /** The row of the `index`-th student of a day (numbered from one). */
  function StudentSheetRow(index: nat, rec: DailyStudentRecord): seq<Cell>
  {
    [Num(index + 1), Str(rec.studentName)]
      + seq(|Habits|, k requires 0 <= k < |Habits| =>
              if Habits[k] in rec.habits then ScoreCell(rec.habits[Habits[k]]) else Blank)
  }

  function StudentRows(recs: seq<DailyStudentRecord>): seq<seq<Cell>>
  {
    seq(|recs|, k requires 0 <= k < |recs| => StudentSheetRow(k, recs[k]))
  }

  /** The rows of one day: nothing for a day without students, otherwise a
      day title, the column header, the students and a spacer. */
  function DayBlock(d: DailyReport): seq<seq<Cell>>
  {
    if |d.studentRecords| == 0 then []
    else [[Str("TANGGAL " + NatToString(d.day))], HeaderRow()] + StudentRows(d.studentRecords) + [[]]
  }

  function DayBlocks(days: seq<DailyReport>): seq<seq<Cell>>
    decreases |days|
  {
    if |days| == 0 then [] else DayBlocks(days[..|days| - 1]) + DayBlock(days[|days| - 1])
  }

  /** The number of rows the days take: K + 3 for a day with K > 0 students. */
  function BlockRows(days: seq<DailyReport>): nat
    decreases |days|
  {
    if |days| == 0 then 0
    else
      var k := |days[|days| - 1].studentRecords|;
      BlockRows(days[..|days| - 1]) + (if k == 0 then 0 else k + 3)
  }

  /** The number of days that have at least one student row. */
  function NonEmptyDays(days: seq<DailyReport>): nat
    decreases |days|
  {
    if |days| == 0 then 0
    else NonEmptyDays(days[..|days| - 1]) + (if |days[|days| - 1].studentRecords| == 0 then 0 else 1)
  }

  /** The merges of the day titles when the first day would start at row
      `row`: one over the full width of each non-empty day's title row,
      which comes right after the rows of the days before it. */
  function DayMerges(row: nat, days: seq<DailyReport>): seq<MergeRange>
    decreases |days|
  {
    if |days| == 0 then []
    else
      var init := days[..|days| - 1];
      DayMerges(row, init) + (if |days[|days| - 1].studentRecords| == 0 then [] else [FullWidth(row + BlockRows(init))])
  }

  /** The blocks of the first `j` days come first. */
  lemma {:induction false} DayBlocksPrefix(days: seq<DailyReport>, j: nat)
    requires j <= |days|
    ensures DayBlocks(days[..j]) <= DayBlocks(days)
    decreases |days|
  {
    if j < |days| {
      var init := days[..|days| - 1];
      assert init[..j] == days[..j];
      DayBlocksPrefix(init, j);
    } else {
      assert days[..j] == days;
    }
  }

  /** The merges of the first `j` days come first. */
  lemma {:induction false} DayMergesPrefix(row: nat, days: seq<DailyReport>, j: nat)
    requires j <= |days|
    ensures DayMerges(row, days[..j]) <= DayMerges(row, days)
    decreases |days|
  {
    if j < |days| {
      var init := days[..|days| - 1];
      assert init[..j] == days[..j];
      DayMergesPrefix(row, init, j);
    } else {
      assert days[..j] == days;
    }
  }

  /** A day with students opens with its title row. */
  lemma DayBlockTitle(d: DailyReport)
    requires |d.studentRecords| > 0
    ensures |DayBlock(d)| > 0 && DayBlock(d)[0] == [Str("TANGGAL " + NatToString(d.day))]
  {
  }

  /** Each day with students has its title "TANGGAL d" as a one-cell row
      right after the blocks of the days before it, and that row is merged
      over the full width. */
  lemma DayMergeOnDayTitle(row: nat, days: seq<DailyReport>, j: nat)
    requires j < |days| && |days[j].studentRecords| > 0
    ensures var r := BlockRows(days[..j]);
            && r < |DayBlocks(days)|
            && DayBlocks(days)[r] == [Str("TANGGAL " + NatToString(days[j].day))]
            && FullWidth(row + r) in DayMerges(row, days)
  {
    DayTitleRow(days, j);
    DayMergePresent(row, days, j);
  }

  lemma DayTitleRow(days: seq<DailyReport>, j: nat)
    requires j < |days| && |days[j].studentRecords| > 0
    ensures var r := BlockRows(days[..j]);
            r < |DayBlocks(days)| && DayBlocks(days)[r] == [Str("TANGGAL " + NatToString(days[j].day))]
  {
    var pre := days[..j + 1];
    assert pre[..j] == days[..j] && pre[j] == days[j];
    var a := DayBlocks(days[..j]);
    var b := DayBlock(days[j]);
    assert DayBlocks(pre) == a + b;
    DayBlocksPrefix(days, j + 1);
    DayBlocksLength(days[..j]);
    DayBlockTitle(days[j]);
    assert (a + b)[|a|] == b[0];
  }

  lemma DayMergePresent(row: nat, days: seq<DailyReport>, j: nat)
    requires j < |days| && |days[j].studentRecords| > 0
    ensures FullWidth(row + BlockRows(days[..j])) in DayMerges(row, days)
  {
    var pre := days[..j + 1];
    assert pre[..j] == days[..j] && pre[j] == days[j];
    var a := DayMerges(row, days[..j]);
    var m := FullWidth(row + BlockRows(days[..j]));
    assert DayMerges(row, pre) == a + [m];
    DayMergesPrefix(row, days, j + 1);
    assert DayMerges(row, pre)[|a|] == m;
    assert DayMerges(row, days)[|a|] == m;
  }

  lemma {:induction false} DayBlocksLength(days: seq<DailyReport>)
    ensures |DayBlocks(days)| == BlockRows(days)
    decreases |days|
  {
    if |days| > 0 {
      DayBlocksLength(days[..|days| - 1]);
    }
  }

  /** Every merge covers one row of the sheet, starting at column zero.  A
      merge over the full width sits on a one-cell row (a title, a day title
      or the legend); the only other merge joins the first two cells of the
      class-and-teacher row. */
  ghost predicate MergesWellPlaced(sheet: seq<seq<Cell>>, merges: seq<MergeRange>)
  {
    forall m :: m in merges ==> WellPlaced(sheet, m)
  }

  ghost predicate WellPlaced(sheet: seq<seq<Cell>>, m: MergeRange)
  {
    && m.startRow == m.endRow < |sheet|
    && m.startCol == 0
    && ((m.endCol == NumCols - 1 && |sheet[m.startRow]| == 1) || (m.startRow == 2 && m.endCol == 1))
  }

  /** Appending rows never moves the rows a merge points at. */
  lemma MergesSurviveAppend(sheet: seq<seq<Cell>>, more: seq<seq<Cell>>, merges: seq<MergeRange>)
    requires MergesWellPlaced(sheet, merges)
    ensures MergesWellPlaced(sheet + more, merges)
  {
    forall m | m in merges
      ensures (sheet + more)[m.startRow] == sheet[m.startRow]
    {
    }
  }

  /** Emits the rows of a day's students, one per student, numbered from one. */
  method AppendStudentRows(sheetData: seq<seq<Cell>>, currentRow: nat, recs: seq<DailyStudentRecord>)
    returns (sheet: seq<seq<Cell>>, row: nat)
    requires currentRow == |sheetData|
    ensures sheet == sheetData + StudentRows(recs)
    ensures row == |sheet|
  {
    sheet, row := sheetData, currentRow;
    var k := 0;
    while k < |recs|
      invariant 0 <= k <= |recs|
      invariant sheet == sheetData + StudentRows(recs[..k])
      invariant row == |sheet|
    {
      assert StudentRows(recs[..k + 1]) == StudentRows(recs[..k]) + [StudentSheetRow(k, recs[k])];
      sheet := sheet + [StudentSheetRow(k, recs[k])];
      row := row + 1;
      k := k + 1;
    }
    assert recs[..k] == recs;
  }

  /** Emits the block of one day and the merge of its day title; a day
      without students emits nothing. */
  method AppendDay(sheetData: seq<seq<Cell>>, merges: seq<MergeRange>, currentRow: nat, dailyData: DailyReport)
    returns (sheet: seq<seq<Cell>>, merges': seq<MergeRange>, row: nat)
    requires currentRow == |sheetData|
    requires MergesWellPlaced(sheetData, merges)
    ensures sheet == sheetData + DayBlock(dailyData)
    ensures row == |sheet|
    ensures merges' == merges + (if |dailyData.studentRecords| == 0 then [] else [FullWidth(currentRow)])
    ensures MergesWellPlaced(sheet, merges')
  {
    sheet, merges', row := sheetData, merges, currentRow;
    if |dailyData.studentRecords| > 0 {
      sheet := sheet + [[Str("TANGGAL " + NatToString(dailyData.day))]];
      merges' := merges' + [FullWidth(row)];
      row := row + 1;

      sheet := sheet + [HeaderRow()];
      row := row + 1;

      sheet, row := AppendStudentRows(sheet, row, dailyData.studentRecords);
      sheet := sheet + [[]];
      row := row + 1;
      MergesSurviveAppend(sheetData, DayBlock(dailyData), merges);
      assert sheet[currentRow] == [Str("TANGGAL " + NatToString(dailyData.day))];
    }
  }

  /** The merges of the rows above the first day. */
  function TitleMerges(): seq<MergeRange>
  {
    [FullWidth(0), FullWidth(1), MergeRange(2, 0, 2, 1)]
  }

  /** Emits the title, month, class-and-teacher and spacer rows with their merges. */
  method AppendTitleRows(meta: ReportMetadata, teacherName: string)
    returns (sheetData: seq<seq<Cell>>, merges: seq<MergeRange>, currentRow: nat)
    ensures sheetData == TitleRows(meta, teacherName)
    ensures merges == TitleMerges()
    ensures currentRow == |sheetData| == 4
    ensures MergesWellPlaced(sheetData, merges)
  {
    sheetData := [];
    merges := [];
    currentRow := 0;

    sheetData := sheetData + [[Str(Title)]];
    merges := merges + [FullWidth(currentRow)];
    currentRow := currentRow + 1;

    sheetData := sheetData + [[Str("Bulan: " + meta.monthName + " " + NatToString(meta.year))]];
    merges := merges + [FullWidth(currentRow)];
    currentRow := currentRow + 1;

    sheetData := sheetData + [[Str("Kelas: " + meta.className), Str(""), Str("Guru: " + teacherName)]];
    merges := merges + [MergeRange(currentRow, 0, currentRow, 1)];
    currentRow := currentRow + 1;

    sheetData := sheetData + [[]];
    currentRow := currentRow + 1;
  }

  /** Emits the blocks of all days in order, with one merge per day that
      has students. */
  method AppendDays(sheet0: seq<seq<Cell>>, merges0: seq<MergeRange>, row0: nat, report: seq<DailyReport>)
    returns (sheet: seq<seq<Cell>>, merges: seq<MergeRange>, row: nat)
    requires row0 == |sheet0|
    requires MergesWellPlaced(sheet0, merges0)
    ensures sheet == sheet0 + DayBlocks(report)
    ensures row == |sheet|
    ensures merges == merges0 + DayMerges(row0, report)
    ensures |merges| == |merges0| + NonEmptyDays(report) && merges0 <= merges
    ensures MergesWellPlaced(sheet, merges)
    decreases |report|
  {
    if |report| == 0 {
      sheet, merges, row := sheet0, merges0, row0;
    } else {
      var n := |report| - 1;
      var s1, m1, r1 := AppendDays(sheet0, merges0, row0, report[..n]);
      DayBlocksLength(report[..n]);
      assert r1 == row0 + BlockRows(report[..n]);
      sheet, merges, row := AppendDay(s1, m1, r1, report[n]);
      SheetStep(sheet0, report, s1, sheet);
      MergesStep(merges0, row0, report, m1, merges);
    }
    DayMergesCount(row0, report, merges0, merges);
  }

  /** The last day's block follows those of the days before it. */
  lemma SheetStep(sheet0: seq<seq<Cell>>, report: seq<DailyReport>, s1: seq<seq<Cell>>, sheet: seq<seq<Cell>>)
    requires |report| > 0
    requires s1 == sheet0 + DayBlocks(report[..|report| - 1])
    requires sheet == s1 + DayBlock(report[|report| - 1])
    ensures sheet == sheet0 + DayBlocks(report)
  {
    ConcatAssoc(sheet0, DayBlocks(report[..|report| - 1]), DayBlock(report[|report| - 1]));
  }

  /** The last day's title merge follows those of the days before it. */
  lemma MergesStep(merges0: seq<MergeRange>, row0: nat, report: seq<DailyReport>, m1: seq<MergeRange>, merges: seq<MergeRange>)
    requires |report| > 0
    requires m1 == merges0 + DayMerges(row0, report[..|report| - 1])
    requires merges == m1 + (if |report[|report| - 1].studentRecords| == 0 then []
                             else [FullWidth(row0 + BlockRows(report[..|report| - 1]))])
    ensures merges == merges0 + DayMerges(row0, report)
  {
    DayMergesSnoc(row0, report);
    ConcatAssoc(merges0, DayMerges(row0, report[..|report| - 1]), merges[|m1|..]);
  }

  /** The last day contributes its title merge, if it has students. */
  lemma DayMergesSnoc(row: nat, days: seq<DailyReport>)
    requires |days| > 0
    ensures DayMerges(row, days) == DayMerges(row, days[..|days| - 1])
              + (if |days[|days| - 1].studentRecords| == 0 then [] else [FullWidth(row + BlockRows(days[..|days| - 1]))])
  {
  }

  /** There is one day merge per day with students, and they come after
      the merges already made. */
  lemma {:induction false} DayMergesCount(row: nat, days: seq<DailyReport>, merges0: seq<MergeRange>, merges: seq<MergeRange>)
    requires merges == merges0 + DayMerges(row, days)
    ensures |DayMerges(row, days)| == NonEmptyDays(days)
    ensures |merges| == |merges0| + NonEmptyDays(days) && merges0 <= merges
    decreases |days|
  {
    if |days| > 0 {
      var init := days[..|days| - 1];
      DayMergesCount(row, init, [], DayMerges(row, init));
    }
  }

  /** Builds the recap spreadsheet: title rows, one block per day that has
      students, and the legend; `currentRow` tracks the number of rows
      emitted so far. */
  method BuildSheet(meta: ReportMetadata, teacherName: string, report: seq<DailyReport>)
    returns (sheetData: seq<seq<Cell>>, merges: seq<MergeRange>)
    ensures sheetData == TitleRows(meta, teacherName) + DayBlocks(report) + [[Str(Legend)]]
    ensures |sheetData| == 4 + BlockRows(report) + 1
    ensures |merges| == 4 + NonEmptyDays(report)
    ensures merges[..3] == TitleMerges()
    ensures merges[|merges| - 1] == FullWidth(|sheetData| - 1)
    ensures merges == TitleMerges() + DayMerges(4, report) + [FullWidth(|sheetData| - 1)]
    ensures MergesWellPlaced(sheetData, merges)
  {
    var currentRow;
    sheetData, merges, currentRow := AppendTitleRows(meta, teacherName);
    sheetData, merges, currentRow := AppendDays(sheetData, merges, currentRow, report);
    DayBlocksLength(report);

    ghost var body := sheetData;
    sheetData := sheetData + [[Str(Legend)]];
    MergesSurviveAppend(body, [[Str(Legend)]], merges);
    ghost var dayMerges := merges;
    merges := merges + [FullWidth(currentRow)];
    assert merges[..3] == dayMerges[..3];
  }

  /** For a recap whose every day lists the same K > 0 students, the sheet
      takes 4 + N * (K + 3) + 1 rows and carries N + 4 merges, N being the
      number of days. */
  lemma {:induction false} UniformRecapSheetSize(report: seq<DailyReport>, k: nat)
    requires k > 0
    requires forall i :: 0 <= i < |report| ==> |report[i].studentRecords| == k
    ensures BlockRows(report) == |report| * (k + 3)
    ensures NonEmptyDays(report) == |report|
    decreases |report|
  {
    if |report| > 0 {
      var init := report[..|report| - 1];
      assert forall i :: 0 <= i < |init| ==> init[i] == report[i];
      UniformRecapSheetSize(init, k);
    }
  }
}
