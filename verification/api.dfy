/** The hosted-database variant of the data operations.  Each collection is a
    sequence of documents in the order queries return them, and each
    equality query is a filter over it.  Identifiers of new documents are
    parameters. */
module Api {
  import opened Seqs
  import opened Text
  import opened Scale
  import opened Records
  import TeacherStore

  /** The sign-in address for a login name: a name with an `@` is already an
      address, any other name gets the `@example.com` domain. */
  function LoginEmail(username: string): (email: string)
    ensures Contains(email, '@')
    ensures StartsWith(email, username)
    ensures email == username <==> Contains(username, '@')
    ensures email != username ==> email[|username|..] == "@example.com"
  {
    if '@' in username then username
    else
      var e := username + "@example.com";
      assert e[|username|] == '@';
      assert e == username + e[|username|..];
      e
  }

  /** Deriving the address again changes nothing. */
  lemma LoginEmailIsAddress(username: string)
    ensures LoginEmail(LoginEmail(username)) == LoginEmail(username)
  {
  }

  /** The usernames of teacher accounts stored before an import. */
  function TeacherUsernames(users: seq<User>): (names: set<string>)
    ensures forall u :: u in users && u.role == Teacher ==> u.username in names
    ensures forall n :: n in names ==> exists u :: u in users && u.role == Teacher && u.username == n
  {
    set u | u in users && u.role == Teacher :: u.username
  }

  /** The document written for an imported row: the row without its
      password, under the identifier generated for position `i`. */
  function TeacherDoc(row: User, i: nat, docId: nat -> string): User
  {
    row.(id := docId(i), password := None)
  }

  /** The documents an import of `rows` writes: one per row whose username
      is not in `existing`, in row order. */
  function CreatedDocs(rows: seq<User>, existing: set<string>, docId: nat -> string): seq<User>
    decreases |rows|
  {
    if |rows| == 0 then []
    else
      var n := |rows| - 1;
      CreatedDocs(rows[..n], existing, docId)
        + (if rows[n].username in existing then [] else [TeacherDoc(rows[n], n, docId)])
  }

  /** The number of rows whose username is in `existing`. */
  function SkippedRows(rows: seq<User>, existing: set<string>): nat
    decreases |rows|
  {
    if |rows| == 0 then 0
    else SkippedRows(rows[..|rows| - 1], existing) + (if rows[|rows| - 1].username in existing then 1 else 0)
  }

  /** What the import writes: no stored password, no username of an
      existing teacher, and every row whose username is new. */
  lemma {:induction false} CreatedDocsContents(rows: seq<User>, existing: set<string>, docId: nat -> string)
    ensures |CreatedDocs(rows, existing, docId)| + SkippedRows(rows, existing) == |rows|
    ensures forall d :: d in CreatedDocs(rows, existing, docId) ==> d.password.None? && d.username !in existing
    ensures forall i :: 0 <= i < |rows| && rows[i].username !in existing ==>
              TeacherDoc(rows[i], i, docId) in CreatedDocs(rows, existing, docId)
    decreases |rows|
  {
    if |rows| > 0 {
      var n := |rows| - 1;
      var init := rows[..n];
      CreatedDocsContents(init, existing, docId);
      assert forall i :: 0 <= i < n ==> init[i] == rows[i];
    }
  }

  datatype ImportCounts = ImportCounts(users: seq<User>, createdCount: nat, skippedCount: nat)

  /** Bulk teacher import.  Rows whose username belongs to a teacher stored
      before the call are skipped; every other row is written without its
      password.  The skip set is read once, so repeated new usernames within
      one batch are all written, and admin usernames never cause a skip.
      Nothing is written when no row is new. */
  method BulkCreateTeachers(users: seq<User>, teachers: seq<User>, docId: nat -> string) returns (r: ImportCounts)
    ensures r.users == users + CreatedDocs(teachers, TeacherUsernames(users), docId)
    ensures r.createdCount == |CreatedDocs(teachers, TeacherUsernames(users), docId)|
    ensures r.skippedCount == SkippedRows(teachers, TeacherUsernames(users))
    ensures r.createdCount + r.skippedCount == |teachers|
  {
    var existingUsernames := set u | u in users && u.role == Teacher :: u.username;
    var batch: seq<User> := [];
    var createdCount, skippedCount := 0, 0;
    var i := 0;
    while i < |teachers|
      invariant 0 <= i <= |teachers|
      invariant batch == CreatedDocs(teachers[..i], existingUsernames, docId)
      invariant createdCount == |batch|
      invariant skippedCount == SkippedRows(teachers[..i], existingUsernames)
    {
      assert teachers[..i + 1][..i] == teachers[..i];
      var teacher := teachers[i];
      if teacher.username in existingUsernames {
        skippedCount := skippedCount + 1;
      } else {
        batch := batch + [TeacherDoc(teacher, i, docId)];
        createdCount := createdCount + 1;
      }
      i := i + 1;
    }
    assert teachers[..i] == teachers;
    CreatedDocsContents(teachers, existingUsernames, docId);
    if createdCount > 0 {
      r := ImportCounts(users + batch, createdCount, skippedCount);
    } else {
      r := ImportCounts(users, createdCount, skippedCount);
    }
  }

  /** A witness of `CreatedDocsContents`: the skip set is never extended
      inside the loop, so two new rows with the same username are both
      written. */
  lemma DuplicateUsernamesInOneBatch(t: User, docId: nat -> string)
    ensures |CreatedDocs([t, t], {}, docId)| == 2
  {
    assert [t, t][..1] == [t];
    assert [t][..0] == [];
    assert CreatedDocs([t], {}, docId) == [TeacherDoc(t, 0, docId)];
  }

  /** An admin account never blocks a teacher row: adding one to the stored
      users changes neither the skip set nor what an import writes. */
  lemma AdminUsernameNeverBlocks(users: seq<User>, admin: User, rows: seq<User>, docId: nat -> string)
    requires admin.role == Admin
    ensures TeacherUsernames(users + [admin]) == TeacherUsernames(users)
    ensures CreatedDocs(rows, TeacherUsernames(users + [admin]), docId) == CreatedDocs(rows, TeacherUsernames(users), docId)
  {
    var before, after := TeacherUsernames(users), TeacherUsernames(users + [admin]);
    forall n | n in after ensures n in before {
      var u :| u in users + [admin] && u.role == Teacher && u.username == n;
      assert u in users;
    }
    forall n | n in before ensures n in after {
      var u :| u in users && u.role == Teacher && u.username == n;
      assert u in users + [admin];
    }
  }

  /** A row whose username belongs to an admin and to no stored teacher is
      written. */
  lemma AdminNamedRowWritten(users: seq<User>, admin: User, rows: seq<User>, docId: nat -> string, i: nat)
    requires admin.role == Admin && i < |rows| && rows[i].username == admin.username
    requires forall u :: u in users && u.role == Teacher ==> u.username != admin.username
    ensures TeacherDoc(rows[i], i, docId) in CreatedDocs(rows, TeacherUsernames(users + [admin]), docId)
  {
    AdminUsernameNeverBlocks(users, admin, rows, docId);
    CreatedDocsContents(rows, TeacherUsernames(users), docId);
  }

  datatype Db = Db(students: seq<Student>, habitRecords: seq<HabitRecord>)

  /** Deleting a student removes its document and every habit record of it,
      leaving all other documents in place. */
  function DeleteStudent(db: Db, studentId: string): (r: Db)
    ensures forall s :: s in r.students <==> s in db.students && s.id != studentId
    ensures forall x :: x in r.habitRecords <==> x in db.habitRecords && x.studentId != studentId
    ensures KeepsCounts(r.students, db.students, (s: Student) => s.id != studentId)
    ensures KeepsCounts(r.habitRecords, db.habitRecords, (x: HabitRecord) => x.studentId != studentId)
    ensures SubsequenceOf(r.students, db.students) && SubsequenceOf(r.habitRecords, db.habitRecords)
  {
    var ps := (s: Student) => s.id != studentId;
    var pr := (x: HabitRecord) => x.studentId != studentId;
    FilterMembership(db.students, ps);
    FilterMembership(db.habitRecords, pr);
    FilterMultiplicity(db.students, ps);
    FilterMultiplicity(db.habitRecords, pr);
    FilterIsSubsequence(db.students, ps);
    FilterIsSubsequence(db.habitRecords, pr);
    Db(Filter(db.students, ps), Filter(db.habitRecords, pr))
  }

  /** The two storage variants delete alike: a confirmed delete in the
      browser-storage dashboard leaves the same collections. */
  lemma DeleteVariantsAgree(db: Db, studentId: string)
    ensures var c := TeacherStore.HandleStudentDelete(TeacherStore.Collections(db.students, db.habitRecords), studentId, true);
            DeleteStudent(db, studentId) == Db(c.students, c.records)
  {
  }

  /** The documents a delete of `studentIds` keeps. */
  function StudentKept(studentIds: seq<string>): Student -> bool
  {
    (s: Student) => s.id !in studentIds
  }

  function RecordKept(studentIds: seq<string>): HabitRecord -> bool
  {
    (x: HabitRecord) => x.studentId !in studentIds
  }

  /** Deleting several students at once.  An empty list is rejected by the
      `in` query, so nothing is deleted and the call fails. */
  function BulkDeleteStudents(db: Db, studentIds: seq<string>): (r: Option<Db>)
    ensures r.None? <==> |studentIds| == 0
    ensures r.Some? ==> forall s :: s in r.value.students <==> s in db.students && s.id !in studentIds
    ensures r.Some? ==> forall x :: x in r.value.habitRecords <==> x in db.habitRecords && x.studentId !in studentIds
    ensures r.Some? ==> KeepsCounts(r.value.students, db.students, StudentKept(studentIds))
    ensures r.Some? ==> KeepsCounts(r.value.habitRecords, db.habitRecords, RecordKept(studentIds))
    ensures r.Some? ==> SubsequenceOf(r.value.students, db.students) && SubsequenceOf(r.value.habitRecords, db.habitRecords)
  {
    if |studentIds| == 0 then None
    else
      var ps := StudentKept(studentIds);
      var pr := RecordKept(studentIds);
      FilterMembership(db.students, ps);
      FilterMembership(db.habitRecords, pr);
      FilterMultiplicity(db.students, ps);
      FilterMultiplicity(db.habitRecords, pr);
      FilterIsSubsequence(db.students, ps);
      FilterIsSubsequence(db.habitRecords, pr);
      Some(Db(Filter(db.students, ps), Filter(db.habitRecords, pr)))
  }

  /** Deleting the listed students one after another. */
  function DeleteEach(db: Db, studentIds: seq<string>): Db
    decreases |studentIds|
  {
    if |studentIds| == 0 then db
    else DeleteStudent(DeleteEach(db, studentIds[..|studentIds| - 1]), studentIds[|studentIds| - 1])
  }

  /** Keeping what survives `init` and then what survives `last` keeps
      what survives `init + [last]`. */
  lemma KeptStep(db: Db, init: seq<string>, last: string)
    ensures Filter(Filter(db.students, StudentKept(init)), (s: Student) => s.id != last)
            == Filter(db.students, StudentKept(init + [last]))
    ensures Filter(Filter(db.habitRecords, RecordKept(init)), (x: HabitRecord) => x.studentId != last)
            == Filter(db.habitRecords, RecordKept(init + [last]))
  {
    var ps1 := (s: Student) => s.id != last;
    var pr1 := (x: HabitRecord) => x.studentId != last;
    FilterFilter(db.students, StudentKept(init), ps1, StudentKept(init + [last]));
    FilterFilter(db.habitRecords, RecordKept(init), pr1, RecordKept(init + [last]));
  }

  /** A bulk delete of a non-empty list leaves what deleting the students one
      by one leaves. */
  lemma {:induction false} BulkDeleteIsRepeatedDelete(db: Db, studentIds: seq<string>)
    requires |studentIds| > 0
    ensures BulkDeleteStudents(db, studentIds) == Some(DeleteEach(db, studentIds))
    decreases |studentIds|
  {
    var n := |studentIds| - 1;
    var init := studentIds[..n];
    assert studentIds == init + [studentIds[n]];
    if n == 0 {
      FilterAll(db.students, StudentKept(init));
      FilterAll(db.habitRecords, RecordKept(init));
    } else {
      BulkDeleteIsRepeatedDelete(db, init);
    }
    assert DeleteEach(db, init) == Db(Filter(db.students, StudentKept(init)), Filter(db.habitRecords, RecordKept(init)));
    KeptStep(db, init, studentIds[n]);
  }

  /** Saving a habit record in the hosted database: the query for
      (student, date) finds the documents already stored for the pair; with
      none, a new document is added, otherwise the first one found is updated
      with the saved fields and keeps its identifier. */
  function SaveHabitRecord(records: seq<HabitRecord>, studentId: string, date: string,
                           habits: map<Habit, Rating>, teacherId: string, freshId: string): (r: seq<HabitRecord>)
    ensures (forall i :: 0 <= i < |records| ==> !TeacherStore.Keyed(records[i], studentId, date))
            ==> r == records + [HabitRecord(freshId, studentId, date, habits, Some(teacherId))]
    ensures forall i :: TeacherStore.IsFirstKeyed(records, i, studentId, date) ==>
              && |r| == |records|
              && r[i] == HabitRecord(records[i].id, studentId, date, habits, Some(teacherId))
              && forall k :: 0 <= k < |records| && k != i ==> r[k] == records[k]
  {
    match FindIndex(records, (x: HabitRecord) => TeacherStore.Keyed(x, studentId, date))
    case Some(i) =>
      assert forall j :: TeacherStore.IsFirstKeyed(records, j, studentId, date) ==> !(j < i) && !(i < j);
      records[i := HabitRecord(records[i].id, studentId, date, habits, Some(teacherId))]
    case None => records + [HabitRecord(freshId, studentId, date, habits, Some(teacherId))]
  }

  /** A save never makes a second record for a stored pair: afterwards the
      pair has exactly one record more than before only when it had none,
      the form reads back the saved ratings, and pairs stay unique. */
  lemma SaveHabitRecordUpserts(records: seq<HabitRecord>, sid: string, date: string,
                               h: map<Habit, Rating>, teacherId: string, freshId: string)
    ensures var r := SaveHabitRecord(records, sid, date, h, teacherId, freshId);
            && TeacherStore.CountKeyed(r, sid, date) == (if TeacherStore.CountKeyed(records, sid, date) == 0 then 1 else TeacherStore.CountKeyed(records, sid, date))
            && TeacherStore.HabitFormFor(r, sid, date) == h
            && (TeacherStore.UniquePairs(records) ==> TeacherStore.UniquePairs(r))
  {
    var p := (x: HabitRecord) => TeacherStore.Keyed(x, sid, date);
    var r := SaveHabitRecord(records, sid, date, h, teacherId, freshId);
    FilterMembership(records, p);
    match FindIndex(records, p)
    case Some(i) =>
      TeacherStore.CountKeyedUpdate(records, i, r[i], sid, date);
      assert records[i] in Filter(records, p);
      assert TeacherStore.IsFirstKeyed(r, i, sid, date);
      assert forall k :: 0 <= k < |r| ==> r[k].studentId == records[k].studentId && r[k].date == records[k].date;
    case None =>
      FilterConcat(records, [r[|records|]], p);
      FilterNone(records, p);
      assert TeacherStore.IsFirstKeyed(r, |records|, sid, date);
      assert forall k :: 0 <= k < |records| ==> r[k] == records[k];
  }
}
