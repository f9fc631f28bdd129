/** The fixed vocabulary of the tracker: the seven habits and the
    five-step rating scale, with the label-to-score map used by the chart
    and by the monthly recap. */
module Scale {
  import opened Seqs

  /** One of the seven habits, in the order of the habit-name list. */
  datatype Habit = BangunPagi | Beribadah | Olahraga | MakanSehat | RajinBelajar | Bermasyarakat | TidurCukup

  /** One of the five rating labels, from weakest to strongest. */
  datatype Rating = SangatTidakTerbiasa | KurangTerbiasa | BelumTerbiasa | Terbiasa | SudahTerbiasa

  /** A score on the 1..5 scale. */
  type RatingValue = v: int | 1 <= v <= 5 witness 1

  /** The habit-name list, in display and export order. */
  const Habits: seq<Habit> := [BangunPagi, Beribadah, Olahraga, MakanSehat, RajinBelajar, Bermasyarakat, TidurCukup]

  /** The rating options, in display order. */
  const RatingOptions: seq<Rating> := [SangatTidakTerbiasa, KurangTerbiasa, BelumTerbiasa, Terbiasa, SudahTerbiasa]

  /** The label every habit starts with on an empty input form. */
  const DefaultRating: Rating := RatingOptions[2]

  /** The position of a habit in the habit-name list. */
  function HabitIndex(h: Habit): (i: nat)
    ensures i < |Habits| && Habits[i] == h
  {
    match h
    case BangunPagi => 0
    case Beribadah => 1
    case Olahraga => 2
    case MakanSehat => 3
    case RajinBelajar => 4
    case Bermasyarakat => 5
    case TidurCukup => 6
  }

  function HabitName(h: Habit): string
  {
    match h
    case BangunPagi => "Bangun Pagi"
    case Beribadah => "Beribadah"
    case Olahraga => "Olahraga"
    case MakanSehat => "Makan Sehat"
    case RajinBelajar => "Rajin Belajar"
    case Bermasyarakat => "Bermasyarakat"
    case TidurCukup => "Tidur Cukup"
  }

  function Label(r: Rating): string
  {
    match r
    case SangatTidakTerbiasa => "Sangat Tidak Terbiasa"
    case KurangTerbiasa => "Kurang Terbiasa"
    case BelumTerbiasa => "Belum Terbiasa"
    case Terbiasa => "Terbiasa"
    case SudahTerbiasa => "Sudah Terbiasa"
  }

  /** `HABIT_NAMES`: the habit names as strings. */
  function HabitNames(): (names: seq<string>)
    ensures names == ["Bangun Pagi", "Beribadah", "Olahraga", "Makan Sehat", "Rajin Belajar", "Bermasyarakat", "Tidur Cukup"]
    ensures forall h: Habit :: names[HabitIndex(h)] == HabitName(h)
  {
    seq(|Habits|, i requires 0 <= i < |Habits| => HabitName(Habits[i]))
  }

  /** `RATING_OPTIONS`: the rating labels as strings. */
  function RatingLabels(): (labels: seq<string>)
    ensures |labels| == |RatingOptions|
    ensures forall i :: 0 <= i < |RatingOptions| ==> labels[i] == Label(RatingOptions[i])
  {
    seq(|RatingOptions|, i requires 0 <= i < |RatingOptions| => Label(RatingOptions[i]))
  }

  /** `RATING_MAP` on a typed rating. */
  function RatingMap(r: Rating): RatingValue
  {
    match r
    case SangatTidakTerbiasa => 1
    case KurangTerbiasa => 2
    case BelumTerbiasa => 3
    case Terbiasa => 4
    case SudahTerbiasa => 5
  }

  /** The rating at a given score: the option at position `v - 1`. */
  function RatingOf(v: RatingValue): Rating
  {
    RatingOptions[v - 1]
  }

  /** Reading a label string back: the rating whose label it is, if any. */
  function ParseLabel(s: string): (r: Option<Rating>)
    ensures r.Some? ==> Label(r.value) == s
    ensures r.None? ==> forall x: Rating :: Label(x) != s
  {
    if s == "Sangat Tidak Terbiasa" then Some(SangatTidakTerbiasa)
    else if s == "Kurang Terbiasa" then Some(KurangTerbiasa)
    else if s == "Belum Terbiasa" then Some(BelumTerbiasa)
    else if s == "Terbiasa" then Some(Terbiasa)
    else if s == "Sudah Terbiasa" then Some(SudahTerbiasa)
    else None
  }

  /** `RATING_MAP[label]` on a label string: a score for the five labels
      and none for any other string.  Stored habits are typed ratings, so
      the map is never read with a key outside the labels. */
  function LabelValue(s: string): (v: Option<RatingValue>)
    ensures v.Some? <==> s in RatingLabels()
  {
    match ParseLabel(s)
    case Some(r) =>
      assert RatingOptions[RatingMap(r) - 1] == r;
      Some(RatingMap(r))
    case None => None
  }

  /** One entry of `MAPPED_RATINGS`. */
  datatype MappedRating = MappedRating(name: Rating, value: RatingValue)

  /** `MAPPED_RATINGS`: each option with its score, in option order. */
  function MappedRatings(): (m: seq<MappedRating>)
    ensures |m| == |RatingOptions|
    ensures forall i :: 0 <= i < |m| ==> m[i].name == RatingOptions[i] && m[i].value == i + 1
    ensures forall i, j :: 0 <= i < j < |m| ==> m[i].value < m[j].value
  {
    seq(|RatingOptions|, i requires 0 <= i < |RatingOptions| => MappedRating(RatingOptions[i], RatingMap(RatingOptions[i])))
  }

  /** The habit list is in position order, so no habit is listed twice. */
  lemma HabitsInIndexOrder()
    ensures forall i, j :: 0 <= i < j < |Habits| ==> HabitIndex(Habits[i]) < HabitIndex(Habits[j])
  {
    assert forall i :: 0 <= i < |Habits| ==> HabitIndex(Habits[i]) == i;
  }

  /** Distinct habits have distinct names. */
  lemma HabitNameInjective(h1: Habit, h2: Habit)
    ensures HabitName(h1) == HabitName(h2) ==> h1 == h2
  {
  }

  lemma EveryHabitListed()
    ensures forall h: Habit :: h in Habits
  {
    forall h: Habit
      ensures h in Habits
    {
      assert Habits[HabitIndex(h)] == h;
    }
  }

  /** The habit list names seven distinct habits, and names them distinctly. */
  lemma HabitListDistinct()
    ensures |Habits| == 7 && |HabitNames()| == 7
    ensures forall h: Habit :: h in Habits
    ensures forall i, j :: 0 <= i < j < 7 ==> Habits[i] != Habits[j] && HabitNames()[i] != HabitNames()[j]
  {
    EveryHabitListed();
  }

  /** The option list holds five distinct labels, one per rating. */
  lemma RatingListDistinct()
    ensures |RatingOptions| == 5 && |RatingLabels()| == 5
    ensures forall r: Rating :: r in RatingOptions
    ensures forall i, j :: 0 <= i < j < 5 ==> RatingOptions[i] != RatingOptions[j] && RatingLabels()[i] != RatingLabels()[j]
  {
    forall r: Rating
      ensures r in RatingOptions
    {
      assert RatingOptions[RatingMap(r) - 1] == r;
    }
    var labels := RatingLabels();
    assert labels == ["Sangat Tidak Terbiasa", "Kurang Terbiasa", "Belum Terbiasa", "Terbiasa", "Sudah Terbiasa"];
  }

  /** `RATING_MAP` sends the i-th option to i + 1 and is a bijection from
      the five ratings onto 1..5. */
  lemma RatingMapBijection()
    ensures forall i :: 0 <= i < |RatingOptions| ==> RatingMap(RatingOptions[i]) == i + 1
    ensures forall r1: Rating, r2: Rating :: RatingMap(r1) == RatingMap(r2) ==> r1 == r2
    ensures forall r: Rating :: RatingOf(RatingMap(r)) == r
    ensures forall v: RatingValue :: RatingMap(RatingOf(v)) == v
  {
  }

  /** Label strings and typed ratings convert into each other without loss,
      and the string-keyed map agrees with the typed one. */
  lemma LabelRoundTrip(r: Rating)
    ensures ParseLabel(Label(r)) == Some(r)
    ensures LabelValue(Label(r)) == Some(RatingMap(r))
  {
  }

  /** The default label, "Belum Terbiasa", is the midpoint of the scale. */
  lemma DefaultIsMidpoint()
    ensures Label(DefaultRating) == "Belum Terbiasa"
    ensures RatingMap(DefaultRating) == 3
  {
  }
}
