/** The sample data the application starts with, and what the model says
    about it. */
module Seed {
  import opened Seqs
  import opened Text
  import opened Scale
  import opened Records
  import opened Calendar
  import opened Recap
  import TeacherStore
  import Messages
  import AdminView
  import Login

  const Day: int := 24 * 60 * 60 * 1000

  const SeedUsers: seq<User> := [
    User("admin01", "admin", Some("password"), Admin, "Admin Utama", None, None),
    User("teacher01", "guru1", Some("password"), Teacher, "Budi Hartono", Some("198001012010011001"), Some("Kelas 1A")),
    User("teacher02", "guru2", Some("password"), Teacher, "Siti Aminah", Some("198502022012022002"), Some("Kelas 1B"))
  ]

  const SeedStudents: seq<Student> := [
    Student("student01", "Adi Saputra", "001", "Kelas 1A", "teacher01"),
    Student("student02", "Citra Lestari", "002", "Kelas 1A", "teacher01"),
    Student("student03", "Doni Firmansyah", "003", "Kelas 1A", "teacher01"),
    Student("student04", "Eka Putri", "004", "Kelas 1B", "teacher02"),
    Student("student05", "Fajar Nugroho", "005", "Kelas 1B", "teacher02")
  ]

  const SeedHabits: map<Habit, Rating> := map[
    BangunPagi := RatingOptions[3],
    Beribadah := RatingOptions[4],
    Olahraga := RatingOptions[2],
    MakanSehat := RatingOptions[3],
    RajinBelajar := RatingOptions[4],
    Bermasyarakat := RatingOptions[3],
    TidurCukup := RatingOptions[2]
  ]

  const SeedRecords: seq<HabitRecord> := [HabitRecord("record01", "student01", "2024-05-20", SeedHabits, None)]

  const BroadcastText: string :=
    "Selamat pagi Bapak/Ibu guru. Mohon untuk segera melengkapi data kebiasaan siswa untuk minggu ini. Terima kasih."

  const ReplyText: string := "Baik, Pak Admin. Untuk laporan kelas 1A akan segera saya selesaikan."

  /** The two sample messages, dated two days and one day before `now`. */
  function SeedMessages(now: int): seq<Message>
  {
    [ Message("msg01", "admin01", "Admin Utama", AllTeachers, BroadcastText, None, now - 2 * Day, true),
      Message("msg02", "teacher01", "Budi Hartono", "admin01", ReplyText, None, now - Day, false) ]
  }

  /** Sample user ids are pairwise distinct, and so are sample usernames. */
  lemma SeedUsersDistinct()
    ensures forall i, j :: 0 <= i < j < |SeedUsers| ==> SeedUsers[i].id != SeedUsers[j].id
    ensures forall i, j :: 0 <= i < j < |SeedUsers| ==> SeedUsers[i].username != SeedUsers[j].username
  {
  }

  /** Every sample student belongs to a sample teacher. */
  lemma SeedStudentsOwned()
    ensures forall s :: s in SeedStudents ==> exists u :: u in SeedUsers && u.role == Teacher && u.id == s.teacherId
  {
    assert SeedUsers[1] in SeedUsers && SeedUsers[2] in SeedUsers;
  }

  /** The first teacher's roster is the first three sample students. */
  lemma SeedRosterFirstTeacher()
    ensures TeacherStore.FetchStudents(SeedStudents, "teacher01") == SeedStudents[..3]
  {
    var p := (s: Student) => s.teacherId == "teacher01";
    assert SeedStudents == SeedStudents[..3] + SeedStudents[3..];
    FilterConcat(SeedStudents[..3], SeedStudents[3..], p);
    FilterAll(SeedStudents[..3], p);
    FilterNone(SeedStudents[3..], p);
  }

  /** The second teacher's roster is the last two sample students. */
  lemma SeedRosterSecondTeacher()
    ensures TeacherStore.FetchStudents(SeedStudents, "teacher02") == SeedStudents[3..]
  {
    var p := (s: Student) => s.teacherId == "teacher02";
    assert SeedStudents == SeedStudents[..3] + SeedStudents[3..];
    FilterConcat(SeedStudents[..3], SeedStudents[3..], p);
    FilterNone(SeedStudents[..3], p);
    FilterAll(SeedStudents[3..], p);
  }

  /** The sample record rates every habit, with scores 4, 5, 3, 4, 5, 4, 3 in
      habit-list order. */
  lemma SeedRecordScores()
    ensures CompleteHabits(SeedHabits)
    ensures forall i :: 0 <= i < |Habits| ==> RatingMap(SeedHabits[Habits[i]]) == [4, 5, 3, 4, 5, 4, 3][i]
  {
    forall h: Habit ensures h in SeedHabits {
      assert h in Habits by { EveryHabitListed(); }
    }
    var expected: seq<int> := [4, 5, 3, 4, 5, 4, 3];
    forall i | 0 <= i < |Habits|
      ensures RatingMap(SeedHabits[Habits[i]]) == expected[i]
    {
      assert RatingOptions[2] == BelumTerbiasa && RatingOptions[3] == Terbiasa && RatingOptions[4] == SudahTerbiasa;
    }
  }

  /** "2024-05" is a month value with 31 days. */
  lemma May2024()
    ensures WellFormedMonth("2024-05") && ReportDays("2024-05") == 31
  {
    var ym := "2024-05";
    assert ym[..4] == "2024" && ym[5..] == "05";
    assert DigitsValue("2024") == 2024 by {
      assert "2024"[..3] == "202" && "202"[..2] == "20" && "20"[..1] == "2" && "2"[..0] == "";
    }
    assert DigitsValue("05") == 5 by {
      assert "05"[..1] == "0" && "0"[..0] == "";
    }
  }

  /** The one sample record is the last record of Adi on 2024-05-20, and
      Citra and Doni have none on that day. */
  lemma SeedLastRecords()
    ensures LastRecordFor(SeedRecords, "student01", "2024-05-20") == Some(SeedRecords[0])
    ensures forall j :: 1 <= j < 3 ==> LastRecordFor(SeedRecords, SeedStudents[j].id, "2024-05-20").None?
  {
    assert SeedRecords[..0] == [];
  }

  /** The recap of the first teacher's class for May 2024: 31 days; on the
      20th Adi scores 4, 5, 3, 4, 5, 4, 3, while Citra and Doni show dashes. */
  lemma SeedRecapWitness()
    ensures WellFormedMonth("2024-05")
    ensures WellFormedMonth("2024-05") &&
            var r := GenerateClassReport(SeedStudents[..3], SeedRecords, "2024-05");
            && r.Some? && |r.value| == 31
            && r.value[19].studentRecords[0].studentName == "Adi Saputra"
            && (forall h :: r.value[19].studentRecords[0].habits[h] == Value(RatingMap(SeedHabits[h])))
            && (forall j, h :: 1 <= j < 3 ==> r.value[19].studentRecords[j].habits[h] == Dash)
  {
    May2024();
    SeedLastRecords();
    var roster := SeedStudents[..3];
    var r := GenerateClassReport(roster, SeedRecords, "2024-05");
    assert Pad2(20) == "20";
    assert r.value[19].date == "2024-05-20";
    assert forall j :: 0 <= j < 3 ==> roster[j] == SeedStudents[j];
  }

  /** Only the second sample message is unread, so the administrator's unread
      senders are exactly the first teacher. */
  lemma SeedUnreadWitness(now: int)
    ensures AdminView.UnreadSenders(SeedMessages(now), "admin01") == {"teacher01"}
  {
    var ms := SeedMessages(now);
    assert ms[1] in ms;
  }

  /** The sample messages have distinct identifiers. */
  lemma SeedMessagesUnique(now: int)
    ensures Messages.UniqueIds(SeedMessages(now))
  {
  }

  /** Both sample teachers are teacher accounts. */
  lemma SeedTeacherAccounts()
    ensures Messages.IsTeacherAccount(SeedUsers, "teacher01") && Messages.IsTeacherAccount(SeedUsers, "teacher02")
  {
  }

  /** The first teacher sees the broadcast and the message they sent. */
  lemma SeedInboxFirstTeacher(now: int)
    ensures var r := Messages.GetMessagesForUser(SeedMessages(now), SeedUsers, "teacher01");
            SeedMessages(now)[0] in r && SeedMessages(now)[1] in r
  {
    var ms := SeedMessages(now);
    SeedMessagesUnique(now);
    SeedTeacherAccounts();
    Messages.MessagesForUserExact(ms, SeedUsers, "teacher01");
    assert Messages.Relevant(ms[0], "teacher01", true) && Messages.Relevant(ms[1], "teacher01", true);
    assert ms[0] in ms && ms[1] in ms;
  }

  /** The second teacher sees the broadcast only. */
  lemma SeedInboxSecondTeacher(now: int)
    ensures var r := Messages.GetMessagesForUser(SeedMessages(now), SeedUsers, "teacher02");
            SeedMessages(now)[0] in r && SeedMessages(now)[1] !in r
  {
    var ms := SeedMessages(now);
    SeedMessagesUnique(now);
    SeedTeacherAccounts();
    Messages.MessagesForUserExact(ms, SeedUsers, "teacher02");
    assert Messages.Relevant(ms[0], "teacher02", true) && !Messages.Relevant(ms[1], "teacher02", true);
    assert ms[0] in ms;
  }

  /** The sample teacher logs in with the sample password; a wrong password
      or different letter case fails. */
  lemma SeedLoginWitness()
    ensures Login.HandleSubmit(Some(SeedUsers), "guru1", "password").loggedIn == Some(SeedUsers[1])
    ensures Login.HandleSubmit(Some(SeedUsers), "guru1", "Password").loggedIn.None?
    ensures Login.HandleSubmit(Some(SeedUsers), "Guru1", "password").loggedIn.None?
  {
    assert !Login.Matches(SeedUsers[0], "guru1", "password");
  }
}
