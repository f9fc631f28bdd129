/** The records the application keeps in its collections.  Timestamps are
    milliseconds as integers; generated identifiers are supplied by the
    caller. */
module Records {
  import opened Seqs
  import opened Scale

  datatype Role = Admin | Teacher

  /** An account.  Accounts kept in browser storage carry their password;
      teacher documents written by the bulk import carry none. */
  datatype User = User(
    id: string,
    username: string,
    password: Option<string>,
    role: Role,
    name: string,
    nip: Option<string>,
    kelas: Option<string>)

  datatype Student = Student(id: string, name: string, nisn: string, className: string, teacherId: string)

  /** The ratings of one student on one day.  `teacherId` is present only on
      records written through the hosted-database variant. */
  datatype HabitRecord = HabitRecord(
    id: string,
    studentId: string,
    date: string,
    habits: map<Habit, Rating>,
    teacherId: Option<string>)

  /** A record rates every habit, as every record the input form saves does. */
  predicate CompleteHabits(habits: map<Habit, Rating>)
  {
    forall h: Habit :: h in habits
  }

  /** A reference to an uploaded file; `data` is the content locator. */
  datatype Attachment = Attachment(name: string, mediaType: string, data: string)

  /** The recipient value that addresses every teacher at once. */
  const AllTeachers: string := "all_teachers"

  datatype Message = Message(
    id: string,
    senderId: string,
    senderName: string,
    recipientId: string,
    content: string,
    attachment: Option<Attachment>,
    timestamp: int,
    read: bool)

  /** One cell of an exported sheet: a number, a string, or nothing (an
      `undefined` entry, which the sheet writer leaves empty). */
  datatype Cell = Num(n: int) | Str(s: string) | Blank

  datatype AdminReport = AdminReport(
    reportId: string,
    teacherId: string,
    teacherName: string,
    className: string,
    monthName: string,
    year: int,
    submittedAt: int,
    reportData: seq<seq<Cell>>)

  /** Every habit at the default rating: the empty input form. */
  function DefaultHabits(): (m: map<Habit, Rating>)
    ensures CompleteHabits(m)
    ensures forall h :: h in m ==> m[h] == DefaultRating
  {
    EveryHabitListed();
    map h | h in Habits :: DefaultRating
  }
}
