/** The radar-chart data of one habit record. */
module Chart {
  import opened Seqs
  import opened Scale
  import opened Records
  import Recap

  /** The largest score on the chart's radial axis, whose domain is 0..5. */
  const AxisMax: int := 5

  /** One chart point: the habit name, its score, and the axis maximum. */
  datatype Point = Point(subject: string, a: RatingValue, fullMark: int)

  /** The habits a rating map rates, in habit-list order. */
  function RatedHabits(habits: map<Habit, Rating>): (hs: seq<Habit>)
    ensures forall h :: h in hs <==> h in habits
    ensures forall i, j :: 0 <= i < j < |hs| ==> HabitIndex(hs[i]) < HabitIndex(hs[j])
  {
    HabitsInIndexOrder();
    EveryHabitListed();
    RatedFacts(Habits, habits);
    Filter(Habits, (h: Habit) => h in habits)
  }

  /** Keeping the rated habits of a list in position order keeps exactly
      the rated ones of the list, in position order, so none twice. */
  lemma RatedFacts(s: seq<Habit>, habits: map<Habit, Rating>)
    requires forall i, j :: 0 <= i < j < |s| ==> HabitIndex(s[i]) < HabitIndex(s[j])
    ensures var hs := Filter(s, (h: Habit) => h in habits);
            && (forall h :: h in hs <==> h in s && h in habits)
            && forall i, j :: 0 <= i < j < |hs| ==> HabitIndex(hs[i]) < HabitIndex(hs[j])
  {
    var p := (h: Habit) => h in habits;
    FilterMembership(s, p);
    var key := (h: Habit) => HabitIndex(h) as int;
    FilterKeepsStrictOrder(s, p, key);
  }

  /** Habits in strict position order have pairwise different names. */
  lemma NamesDistinct(hs: seq<Habit>)
    requires forall i, j :: 0 <= i < j < |hs| ==> HabitIndex(hs[i]) < HabitIndex(hs[j])
    ensures forall i, j :: 0 <= i < j < |hs| ==> HabitName(hs[i]) != HabitName(hs[j])
  {
    forall i, j | 0 <= i < j < |hs|
      ensures HabitName(hs[i]) != HabitName(hs[j])
    {
      HabitNameInjective(hs[i], hs[j]);
    }
  }

  /** The point of one rated habit. */
  function PointFor(habits: map<Habit, Rating>, h: Habit): Point
    requires h in habits
  {
    Point(HabitName(h), RatingMap(habits[h]), AxisMax)
  }

  /** The points of the rated habits, in habit-list order. */
  function Points(habits: map<Habit, Rating>): (pts: seq<Point>)
    ensures |pts| == |RatedHabits(habits)|
    ensures forall i :: 0 <= i < |pts| ==> RatedHabits(habits)[i] in habits && pts[i] == PointFor(habits, RatedHabits(habits)[i])
    ensures forall i, j :: 0 <= i < j < |pts| ==> pts[i].subject != pts[j].subject
  {
    var hs := RatedHabits(habits);
    assert forall i :: 0 <= i < |hs| ==> hs[i] in hs;
    NamesDistinct(hs);
    seq(|hs|, i requires 0 <= i < |hs| => PointFor(habits, hs[i]))
  }

  /** Every rated habit has its point, and every point is that of a rated
      habit within the 0..5 axis. */
  lemma PointsContents(habits: map<Habit, Rating>)
    ensures forall h :: h in habits ==> PointFor(habits, h) in Points(habits)
    ensures forall p :: p in Points(habits) ==> exists h :: h in habits && p == PointFor(habits, h)
    ensures forall p :: p in Points(habits) ==> p.fullMark == AxisMax && 0 <= p.a <= p.fullMark
  {
    var pts := Points(habits);
    var hs := RatedHabits(habits);
    forall h | h in habits
      ensures PointFor(habits, h) in pts
    {
      var i :| 0 <= i < |hs| && hs[i] == h;
      assert pts[i] == PointFor(habits, h);
    }
    forall p | p in pts
      ensures exists h :: h in habits && p == PointFor(habits, h)
    {
      var i :| 0 <= i < |pts| && pts[i] == p;
      assert p == PointFor(habits, hs[i]);
    }
  }

  /** No record means no data (the placeholder is shown); otherwise one
      point per rated habit and nothing else, each within the 0..5 axis. */
  function ChartData(rec: Option<HabitRecord>): (r: Option<seq<Point>>)
    ensures r.None? <==> rec.None?
    ensures r.Some? ==> forall p :: p in r.value ==> p.fullMark == AxisMax && 0 <= p.a <= p.fullMark
    ensures r.Some? ==> forall h :: h in rec.value.habits ==> PointFor(rec.value.habits, h) in r.value
    ensures r.Some? ==> forall p :: p in r.value ==> exists h :: h in rec.value.habits && p == PointFor(rec.value.habits, h)
  {
    match rec
    case None => None
    case Some(x) =>
      PointsContents(x.habits);
      Some(Points(x.habits))
  }

  /** A map rating every habit rates them all, in habit-list order. */
  lemma RatedHabitsComplete(habits: map<Habit, Rating>)
    requires CompleteHabits(habits)
    ensures RatedHabits(habits) == Habits
  {
    FilterAll(Habits, (h: Habit) => h in habits);
  }

  /** A record rating every habit gives seven points in habit-list order. */
  lemma CompleteRecordChart(rec: HabitRecord)
    requires CompleteHabits(rec.habits)
    ensures var r := ChartData(Some(rec)).value;
            && |r| == |Habits|
            && forall i :: 0 <= i < |Habits| ==> r[i].subject == HabitNames()[i]
  {
    var pts := Points(rec.habits);
    assert ChartData(Some(rec)) == Some(pts);
    RatedHabitsComplete(rec.habits);
    var names := HabitNames();
    forall i | 0 <= i < |Habits|
      ensures pts[i].subject == names[i]
    {
      assert pts[i] == PointFor(rec.habits, Habits[i]);
    }
  }

  /** The chart and the monthly recap agree: a habit's point has the score
      the recap shows for the same record. */
  lemma ChartAgreesWithRecap(rec: HabitRecord, h: Habit)
    requires h in rec.habits
    ensures var c := Recap.CellFor(Some(rec), h);
            c.Value? && Point(HabitName(h), c.v, AxisMax) in ChartData(Some(rec)).value
  {
  }
}
