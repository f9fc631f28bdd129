/** The teacher dashboard's collection handlers in the browser-storage
    variant: each reads whole collections, changes them in memory and writes
    them back.  Collections are passed in already parsed; an absent storage
    key reads as the empty list. */
module TeacherStore {
  import opened Seqs
  import opened Text
  import opened Scale
  import opened Records

  /** A record is keyed by the pair (student, date). */
  predicate Keyed(r: HabitRecord, studentId: string, date: string)
  {
    r.studentId == studentId && r.date == date
  }

  /** `i` is the first position holding a record for (student, date). */
  predicate IsFirstKeyed(records: seq<HabitRecord>, i: int, studentId: string, date: string)
  {
    0 <= i < |records| && Keyed(records[i], studentId, date)
    && forall j :: 0 <= j < i ==> !Keyed(records[j], studentId, date)
  }

  /** No two records share a (student, date) pair. */
  ghost predicate UniquePairs(records: seq<HabitRecord>)
  {
    forall i, j :: 0 <= i < j < |records| ==> !Keyed(records[j], records[i].studentId, records[i].date)
  }

  /** The number of records stored for (student, date). */
  function CountKeyed(records: seq<HabitRecord>, studentId: string, date: string): nat
  {
    |Filter(records, (r: HabitRecord) => Keyed(r, studentId, date))|
  }

  /** The students of one teacher, in storage order. */
  function FetchStudents(all: seq<Student>, teacherId: string): (r: seq<Student>)
    ensures forall s :: s in r <==> s in all && s.teacherId == teacherId
    ensures KeepsCounts(r, all, (s: Student) => s.teacherId == teacherId)
    ensures SubsequenceOf(r, all)
  {
    var p := (s: Student) => s.teacherId == teacherId;
    FilterMembership(all, p);
    FilterMultiplicity(all, p);
    FilterIsSubsequence(all, p);
    Filter(all, p)
  }

  /** The first record for (student, date), as `find` returns it. */
  function FindRecord(records: seq<HabitRecord>, studentId: string, date: string): (r: Option<HabitRecord>)
    ensures r.None? <==> forall i :: 0 <= i < |records| ==> !Keyed(records[i], studentId, date)
    ensures forall i :: IsFirstKeyed(records, i, studentId, date) ==> r == Some(records[i])
  {
    match FindIndex(records, (r: HabitRecord) => Keyed(r, studentId, date))
    case Some(i) =>
      assert forall j :: IsFirstKeyed(records, j, studentId, date) ==> !(j < i) && !(i < j);
      Some(records[i])
    case None => None
  }

  /** The ratings the input form shows for (student, date): those of the
      stored record, or every habit at the default label. */
  function HabitFormFor(records: seq<HabitRecord>, studentId: string, date: string): (m: map<Habit, Rating>)
    ensures FindRecord(records, studentId, date).None? ==> m == DefaultHabits()
    ensures forall i :: IsFirstKeyed(records, i, studentId, date) ==> m == records[i].habits
  {
    match FindRecord(records, studentId, date)
    case Some(r) => r.habits
    case None => DefaultHabits()
  }

  /** Saving the input form.  Without a selected student nothing is written;
      otherwise the first record for (student, date) gets the new ratings,
      or a new record is appended when there is none. */
  function HandleHabitSubmit(records: seq<HabitRecord>, selectedStudentId: string, selectedDate: string,
                             habitData: map<Habit, Rating>, freshId: string): (r: seq<HabitRecord>)
    ensures selectedStudentId == "" ==> r == records
    ensures (selectedStudentId != "" && forall i :: 0 <= i < |records| ==> !Keyed(records[i], selectedStudentId, selectedDate))
            ==> r == records + [HabitRecord(freshId, selectedStudentId, selectedDate, habitData, None)]
    ensures forall i :: selectedStudentId != "" && IsFirstKeyed(records, i, selectedStudentId, selectedDate) ==>
              && |r| == |records|
              && r[i] == records[i].(habits := habitData)
              && forall k :: 0 <= k < |records| && k != i ==> r[k] == records[k]
  {
    if selectedStudentId == "" then records
    else
      match FindIndex(records, (x: HabitRecord) => Keyed(x, selectedStudentId, selectedDate))
      case Some(i) =>
        assert forall j :: IsFirstKeyed(records, j, selectedStudentId, selectedDate) ==> !(j < i) && !(i < j);
        records[i := records[i].(habits := habitData)]
      case None => records + [HabitRecord(freshId, selectedStudentId, selectedDate, habitData, None)]
  }

  /** Replacing a keyed record by another record with the same key keeps
      the number of records for that key. */
  lemma CountKeyedUpdate(records: seq<HabitRecord>, i: nat, x: HabitRecord, studentId: string, date: string)
    requires i < |records| && Keyed(records[i], studentId, date) && Keyed(x, studentId, date)
    ensures CountKeyed(records[i := x], studentId, date) == CountKeyed(records, studentId, date)
  {
    var p := (r: HabitRecord) => Keyed(r, studentId, date);
    var a, b := records[..i], records[i + 1..];
    assert records == a + [records[i]] + b;
    assert records[i := x] == a + [x] + b;
    FilterConcat(a + [records[i]], b, p);
    FilterConcat(a, [records[i]], p);
    FilterConcat(a + [x], b, p);
    FilterConcat(a, [x], p);
  }

  /** After a save for a selected student there is at least one record for
      the pair; the count grows only when there was none, and the form then
      shows exactly the saved ratings. */
  lemma HabitSubmitUpserts(records: seq<HabitRecord>, sid: string, date: string, h: map<Habit, Rating>, freshId: string)
    requires sid != ""
    ensures var r := HandleHabitSubmit(records, sid, date, h, freshId);
            && CountKeyed(r, sid, date) == (if CountKeyed(records, sid, date) == 0 then 1 else CountKeyed(records, sid, date))
            && HabitFormFor(r, sid, date) == h
  {
    var p := (x: HabitRecord) => Keyed(x, sid, date);
    var r := HandleHabitSubmit(records, sid, date, h, freshId);
    FilterMembership(records, p);
    match FindIndex(records, p)
    case Some(i) =>
      CountKeyedUpdate(records, i, records[i].(habits := h), sid, date);
      assert records[i] in Filter(records, p);
      assert IsFirstKeyed(r, i, sid, date);
    case None =>
      FilterConcat(records, [HabitRecord(freshId, sid, date, h, None)], p);
      FilterNone(records, p);
      assert IsFirstKeyed(r, |records|, sid, date);
  }

  /** Saving keeps every (student, date) pair unique. */
  lemma HabitSubmitKeepsPairsUnique(records: seq<HabitRecord>, sid: string, date: string, h: map<Habit, Rating>, freshId: string)
    requires UniquePairs(records)
    ensures UniquePairs(HandleHabitSubmit(records, sid, date, h, freshId))
  {
    var r := HandleHabitSubmit(records, sid, date, h, freshId);
    if sid != "" {
      match FindIndex(records, (x: HabitRecord) => Keyed(x, sid, date))
      case Some(i) =>
        assert forall k :: 0 <= k < |r| ==> r[k].studentId == records[k].studentId && r[k].date == records[k].date;
      case None =>
        assert forall k :: 0 <= k < |records| ==> r[k] == records[k];
    }
  }

  /** Saving twice for the same pair leaves a single record for it, holding
      the ratings of the second save. */
  lemma HabitSubmitTwice(records: seq<HabitRecord>, sid: string, date: string,
                         h1: map<Habit, Rating>, h2: map<Habit, Rating>, id1: string, id2: string)
    requires sid != "" && CountKeyed(records, sid, date) <= 1
    ensures var r := HandleHabitSubmit(HandleHabitSubmit(records, sid, date, h1, id1), sid, date, h2, id2);
            CountKeyed(r, sid, date) == 1 && HabitFormFor(r, sid, date) == h2
  {
    var r1 := HandleHabitSubmit(records, sid, date, h1, id1);
    HabitSubmitUpserts(records, sid, date, h1, id1);
    HabitSubmitUpserts(r1, sid, date, h2, id2);
  }

  /** The fields of the add/edit student form. */
  datatype StudentForm = StudentForm(id: string, name: string, nisn: string, className: string)

  /** Submitting the student form: editing overwrites the form's fields on
      the student with the edited id; adding appends a new student owned by
      the current teacher. */
  function HandleStudentSubmit(all: seq<Student>, editing: Option<Student>, form: StudentForm,
                               teacherId: string, freshId: string): (r: seq<Student>)
    ensures editing.None? ==> r == all + [Student(freshId, form.name, form.nisn, form.className, teacherId)]
    ensures editing.Some? ==> |r| == |all|
    ensures editing.Some? ==> forall k :: 0 <= k < |all| ==>
              if all[k].id == editing.value.id
              then r[k] == Student(form.id, form.name, form.nisn, form.className, all[k].teacherId)
              else r[k] == all[k]
  {
    match editing
    case Some(e) =>
      seq(|all|, k requires 0 <= k < |all| =>
            if all[k].id == e.id then Student(form.id, form.name, form.nisn, form.className, all[k].teacherId) else all[k])
    case None => all + [Student(freshId, form.name, form.nisn, form.className, teacherId)]
  }

  /** Adding a student puts it at the end of its teacher's roster and leaves
      every other teacher's roster alone; editing never moves a student to
      another teacher. */
  lemma StudentSubmitRoster(all: seq<Student>, editing: Option<Student>, form: StudentForm,
                            teacherId: string, freshId: string, other: string)
    ensures var r := HandleStudentSubmit(all, editing, form, teacherId, freshId);
            && (editing.None? ==> FetchStudents(r, teacherId) == FetchStudents(all, teacherId) + [r[|r| - 1]])
            && (editing.None? && other != teacherId ==> FetchStudents(r, other) == FetchStudents(all, other))
            && (editing.Some? ==> |FetchStudents(r, other)| == |FetchStudents(all, other)|)
  {
    var r := HandleStudentSubmit(all, editing, form, teacherId, freshId);
    var p := (s: Student) => s.teacherId == other;
    if editing.None? {
      var q := (s: Student) => s.teacherId == teacherId;
      FilterConcat(all, [r[|r| - 1]], q);
      FilterConcat(all, [r[|r| - 1]], p);
    } else {
      FilterSameTeachers(all, r, other);
    }
  }

  /** Two equally long lists whose students have the same owners pairwise
      give rosters of equal size. */
  lemma {:induction false} FilterSameTeachers(a: seq<Student>, b: seq<Student>, t: string)
    requires |a| == |b| && forall k :: 0 <= k < |a| ==> a[k].teacherId == b[k].teacherId
    ensures |FetchStudents(a, t)| == |FetchStudents(b, t)|
    decreases |a|
  {
    if |a| > 0 {
      FilterSameTeachers(a[1..], b[1..], t);
    }
  }

  datatype Collections = Collections(students: seq<Student>, records: seq<HabitRecord>)

  /** Deleting a student after confirmation removes the student and every
      habit record of that student; everything else stays, in order. */
  function HandleStudentDelete(c: Collections, studentId: string, confirmed: bool): (r: Collections)
    ensures !confirmed ==> r == c
    ensures confirmed ==> forall s :: s in r.students <==> s in c.students && s.id != studentId
    ensures confirmed ==> forall x :: x in r.records <==> x in c.records && x.studentId != studentId
    ensures confirmed ==> KeepsCounts(r.students, c.students, (s: Student) => s.id != studentId)
    ensures confirmed ==> KeepsCounts(r.records, c.records, (x: HabitRecord) => x.studentId != studentId)
    ensures SubsequenceOf(r.students, c.students) && SubsequenceOf(r.records, c.records)
  {
    if !confirmed then
      SubsequenceRefl(c.students);
      SubsequenceRefl(c.records);
      c
    else
      var ps := (s: Student) => s.id != studentId;
      var pr := (x: HabitRecord) => x.studentId != studentId;
      FilterMembership(c.students, ps);
      FilterMembership(c.records, pr);
      FilterMultiplicity(c.students, ps);
      FilterMultiplicity(c.records, pr);
      FilterIsSubsequence(c.students, ps);
      FilterIsSubsequence(c.records, pr);
      Collections(Filter(c.students, ps), Filter(c.records, pr))
  }

  lemma {:induction false} SubsequenceRefl<T>(s: seq<T>)
    ensures SubsequenceOf(s, s)
    decreases |s|
  {
    if |s| > 0 {
      SubsequenceRefl(s[1..]);
    }
  }

  /** A value as the spreadsheet reader hands it over: text or a number. */
  datatype CellValue = Text(s: string) | Number(n: int)

  /** One spreadsheet row, keyed by the header of each non-empty cell. */
  type SheetRow = map<string, CellValue>

  /** `String(value || '')`: empty text, zero and a missing cell all give "". */
  function JsString(v: Option<CellValue>): (s: string)
    ensures v.None? ==> s == ""
    ensures v.Some? && v.value.Text? ==> s == v.value.s
    ensures v.Some? && v.value.Number? ==> (s == "" <==> v.value.n == 0)
    ensures v.Some? && v.value.Number? && v.value.n > 0 ==>
              IsDigits(s) && DigitsValue(s) == v.value.n && (|s| > 1 ==> s[0] != '0')
    ensures v.Some? && v.value.Number? && v.value.n < 0 ==>
              |s| > 1 && s[0] == '-' && IsDigits(s[1..]) && DigitsValue(s[1..]) == -v.value.n
              && (|s| > 2 ==> s[1] != '0')
  {
    match v
    case None => ""
    case Some(Text(t)) => t
    case Some(Number(n)) =>
      if n == 0 then ""
      else if n > 0 then
        NatToStringRoundTrip(n);
        NatToString(n)
      else
        NatToStringRoundTrip(-n);
        var digits := NatToString(-n);
        assert ("-" + digits)[1..] == digits;
        "-" + digits
  }

  function Field(row: SheetRow, key: string): Option<CellValue>
  {
    if key in row then Some(row[key]) else None
  }

  /** The student a row would become, with trimmed fields. */
  function RowStudent(row: SheetRow, id: string, teacherId: string): Student
  {
    Student(id, Trim(JsString(Field(row, "Nama"))), Trim(JsString(Field(row, "NISN"))),
            Trim(JsString(Field(row, "Kelas"))), teacherId)
  }

  predicate ValidStudent(s: Student)
  {
    s.name != "" && s.nisn != "" && s.className != ""
  }

  /** The first row lacks one of the four expected headers. */
  predicate BadHeader(rows: seq<SheetRow>)
  {
    |rows| > 0 && ("No" !in rows[0] || "Nama" !in rows[0] || "NISN" !in rows[0] || "Kelas" !in rows[0])
  }

  datatype ImportOutcome = HeaderRejected | NoValidRows | Imported(students: seq<Student>, added: seq<Student>)

  /** The row's name, NISN and class cells all hold more than white space. */
  predicate FilledRow(row: SheetRow)
  {
    && !IsBlank(JsString(Field(row, "Nama")))
    && !IsBlank(JsString(Field(row, "NISN")))
    && !IsBlank(JsString(Field(row, "Kelas")))
  }

  /** A row's student passes the non-empty check exactly when its cells are
      filled, and its fields carry no surrounding white space. */
  lemma RowStudentFacts(row: SheetRow, id: string, teacherId: string)
    ensures ValidStudent(RowStudent(row, id, teacherId)) <==> FilledRow(row)
    ensures var s := RowStudent(row, id, teacherId);
            Trimmed(s.name) && Trimmed(s.nisn) && Trimmed(s.className)
    ensures ReadFromRow(RowStudent(row, id, teacherId), row)
  {
    TrimEmptyIffBlank(JsString(Field(row, "Nama")));
    TrimEmptyIffBlank(JsString(Field(row, "NISN")));
    TrimEmptyIffBlank(JsString(Field(row, "Kelas")));
    ImportedFieldsTrimmed(row, id, teacherId);
    TrimIsTrimOf(JsString(Field(row, "Nama")));
    TrimIsTrimOf(JsString(Field(row, "NISN")));
    TrimIsTrimOf(JsString(Field(row, "Kelas")));
  }

  /** The student's name, NISN and class are the row's "Nama", "NISN" and
      "Kelas" cells as text, with the surrounding white space removed. */
  ghost predicate ReadFromRow(st: Student, row: SheetRow)
  {
    && TrimOf(st.name, JsString(Field(row, "Nama")))
    && TrimOf(st.nisn, JsString(Field(row, "NISN")))
    && TrimOf(st.className, JsString(Field(row, "Kelas")))
  }

  /** Reading a row's cells leaves no choice: a student read from a row is
      the row's student, given its id and teacher. */
  lemma ReadFromRowUnique(st: Student, row: SheetRow)
    requires ReadFromRow(st, row)
    ensures st == RowStudent(row, st.id, st.teacherId)
  {
    TrimOfIsTrim(st.name, JsString(Field(row, "Nama")));
    TrimOfIsTrim(st.nisn, JsString(Field(row, "NISN")));
    TrimOfIsTrim(st.className, JsString(Field(row, "Kelas")));
  }

  /** The student each row would become, in row order: it carries the
      row's generated id and the current teacher, its fields are the row's
      cells trimmed, and it passes the non-empty check exactly when the row
      is filled. */
  function Candidates(rows: seq<SheetRow>, teacherId: string, rowId: nat -> string): (c: seq<Student>)
    ensures |c| == |rows|
    ensures forall i :: 0 <= i < |rows| ==> c[i].id == rowId(i) && c[i].teacherId == teacherId
    ensures forall i :: 0 <= i < |rows| ==> (ValidStudent(c[i]) <==> FilledRow(rows[i]))
    ensures forall i :: 0 <= i < |rows| ==> Trimmed(c[i].name) && Trimmed(c[i].nisn) && Trimmed(c[i].className)
    ensures forall i :: 0 <= i < |rows| ==> ReadFromRow(c[i], rows[i])
  {
    var c := seq(|rows|, i requires 0 <= i < |rows| => RowStudent(rows[i], rowId(i), teacherId));
    CandidateFacts(rows, teacherId, rowId, c);
    c
  }

  lemma CandidateFacts(rows: seq<SheetRow>, teacherId: string, rowId: nat -> string, c: seq<Student>)
    requires |c| == |rows| && forall i :: 0 <= i < |rows| ==> c[i] == RowStudent(rows[i], rowId(i), teacherId)
    ensures forall i :: 0 <= i < |rows| ==> (ValidStudent(c[i]) <==> FilledRow(rows[i]))
    ensures forall i :: 0 <= i < |rows| ==> Trimmed(c[i].name) && Trimmed(c[i].nisn) && Trimmed(c[i].className)
    ensures forall i :: 0 <= i < |rows| ==> ReadFromRow(c[i], rows[i])
  {
    forall i | 0 <= i < |rows|
      ensures (ValidStudent(c[i]) <==> FilledRow(rows[i]))
      ensures Trimmed(c[i].name) && Trimmed(c[i].nisn) && Trimmed(c[i].className)
      ensures ReadFromRow(c[i], rows[i])
    {
      RowStudentFacts(rows[i], rowId(i), teacherId);
    }
  }

  /** What keeping the valid students keeps: each one as often as it
      occurs, in order, and nothing else. */
  lemma ValidKept(c: seq<Student>)
    ensures SubsequenceOf(Filter(c, ValidStudent), c)
    ensures KeepsCounts(Filter(c, ValidStudent), c, ValidStudent)
  {
    FilterIsSubsequence(c, ValidStudent);
    FilterMultiplicity(c, ValidStudent);
  }

  /** The valid candidates are those of the filled rows, all owned by the
      current teacher. */
  lemma FilledRowsKept(rows: seq<SheetRow>, teacherId: string, rowId: nat -> string)
    ensures var c := Candidates(rows, teacherId, rowId);
            var added := Filter(c, ValidStudent);
            && (forall s :: s in added ==> ValidStudent(s) && s.teacherId == teacherId)
            && (forall i :: 0 <= i < |rows| && FilledRow(rows[i]) ==> c[i] in added)
            && (|added| == 0 <==> forall i :: 0 <= i < |rows| ==> !FilledRow(rows[i]))
  {
    var c := Candidates(rows, teacherId, rowId);
    FilterEmptyIff(c, ValidStudent);
    FilterMembership(c, ValidStudent);
    forall s | s in c ensures s.teacherId == teacherId {
      var i :| 0 <= i < |c| && c[i] == s;
    }
  }

  /** Importing students from a spreadsheet.  `rowId(i)` is the identifier
      generated for row `i`. */
  function ImportStudents(all: seq<Student>, rows: seq<SheetRow>, teacherId: string, rowId: nat -> string): (r: ImportOutcome)
    ensures r.HeaderRejected? <==> BadHeader(rows)
    ensures r.NoValidRows? <==> !BadHeader(rows) && forall i :: 0 <= i < |rows| ==> !FilledRow(rows[i])
    ensures r.Imported? ==> r.students == all + r.added && 0 < |r.added| <= |rows|
    ensures r.Imported? ==> SubsequenceOf(r.added, Candidates(rows, teacherId, rowId))
    ensures r.Imported? ==> KeepsCounts(r.added, Candidates(rows, teacherId, rowId), ValidStudent)
    ensures r.Imported? ==> forall s :: s in r.added ==> ValidStudent(s) && s.teacherId == teacherId
    ensures r.Imported? ==> forall i :: 0 <= i < |rows| && FilledRow(rows[i]) ==> Candidates(rows, teacherId, rowId)[i] in r.added
  {
    if BadHeader(rows) then HeaderRejected
    else
      var c := Candidates(rows, teacherId, rowId);
      var added := Filter(c, ValidStudent);
      ValidKept(c);
      FilledRowsKept(rows, teacherId, rowId);
      if |added| == 0 then NoValidRows
      else Imported(all + added, added)
  }

  /** Imported names, NISNs and classes carry no surrounding white space. */
  lemma ImportedFieldsTrimmed(row: SheetRow, id: string, teacherId: string)
    ensures var s := RowStudent(row, id, teacherId);
            Trimmed(s.name) && Trimmed(s.nisn) && Trimmed(s.className)
  {
    TrimEnds(JsString(Field(row, "Nama")));
    TrimEnds(JsString(Field(row, "NISN")));
    TrimEnds(JsString(Field(row, "Kelas")));
  }
}
