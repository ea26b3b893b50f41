/** Entities shared by the list-of-placements engine (algorithm.py):
    class records read from a semester file, weekdays, placements and the
    engine's configuration constants. */
module Records {

  /** The five weekdays of DAYS_OF_WEEK, in that order. */
  datatype Day = Monday | Tuesday | Wednesday | Thursday | Friday

  const DaysOfWeek: seq<Day> := [Monday, Tuesday, Wednesday, Thursday, Friday]

  /** Every weekday is listed in DaysOfWeek. */
  lemma EveryDayListed(d: Day)
    ensures d in DaysOfWeek
  {
    match d
    case Monday => assert DaysOfWeek[0] == d;
    case Tuesday => assert DaysOfWeek[1] == d;
    case Wednesday => assert DaysOfWeek[2] == d;
    case Thursday => assert DaysOfWeek[3] == d;
    case Friday => assert DaysOfWeek[4] == d;
  }

  const NumGenerations: nat := 500
  const PopulationSize: nat := 100
  const MutationRate: real := 1.5
  const MaxLabHours: int := 3
  /** len(TIMESLOTS): seven hour-long slots, 9am to 5pm with a lunch gap. */
  const NumTimeslots: int := 7

  /** One row of a semester file: Course, ClassType, WeeklyHours (already
      converted with int(...)), Instructor, and the row's other columns
      (Room among them), which take part when two rows are compared. */
  datatype ClassRec = ClassRec(course: string, classType: string, weeklyHours: int, instructor: string,
                               rest: map<string, string>)

  predicate IsLab(c: ClassRec) { c.classType == "Lab" }

  /** The (Course, ClassType) pair under which hours and days are grouped. */
  type CourseKey = (string, string)

  function KeyOf(c: ClassRec): CourseKey { (c.course, c.classType) }

  /** A schedule entry (class, room, timeslot, day), or the sentinel
      (None, None, None, None) that the rewrite branch of mutate writes. */
  datatype Placement =
    | Entry(cls: ClassRec, room: int, timeslot: int, day: Day)
    | Empty

  /** The draws for one random placement: room, starting timeslot and day. */
  datatype Choice = Choice(room: int, timeslot: int, day: Day)

  /** The ranges random.randint(1, num_rooms) and
      random.choice(range(len(TIMESLOTS) - WeeklyHours + 1)) draw from. */
  predicate ChoiceFits(c: ClassRec, numRooms: int, ch: Choice)
  {
    1 <= ch.room <= numRooms && 0 <= ch.timeslot <= NumTimeslots - c.weeklyHours
  }

  /** An entry as the initialisation and the append branch of mutate build it. */
  predicate WellPlaced(p: Placement, classes: seq<ClassRec>, numRooms: int)
  {
    p.Entry? && p.cls in classes && 1 <= p.room <= numRooms
    && 0 <= p.timeslot <= NumTimeslots - p.cls.weeklyHours
  }

  predicate AllWellPlaced(s: seq<Placement>, classes: seq<ClassRec>, numRooms: int)
  {
    forall i :: 0 <= i < |s| ==> WellPlaced(s[i], classes, numRooms)
  }

  /** What fitness needs of a schedule to run without raising: no sentinel
      (its Instructor lookup would fail), every room a key of room_schedule,
      and every timeslot inside the initial seven-slot occupancy vectors. */
  predicate Scoreable(s: seq<Placement>, numRooms: int)
  {
    forall i :: 0 <= i < |s| ==>
      s[i].Entry? && 1 <= s[i].room <= numRooms && 0 <= s[i].timeslot < NumTimeslots
  }

  /** Semester data whose every row has between 1 and 7 weekly hours, so
      that the timeslot range of the initialisation is non-empty and every
      drawn timeslot is below 7. */
  predicate SaneCatalog(classes: seq<ClassRec>)
  {
    forall i :: 0 <= i < |classes| ==> 1 <= classes[i].weeklyHours <= NumTimeslots
  }

  lemma {:induction false} WellPlacedIsScoreable(s: seq<Placement>, classes: seq<ClassRec>, numRooms: int)
    requires SaneCatalog(classes)
    requires AllWellPlaced(s, classes, numRooms)
    ensures Scoreable(s, numRooms)
  {
    forall i | 0 <= i < |s|
      ensures s[i].Entry? && 1 <= s[i].room <= numRooms && 0 <= s[i].timeslot < NumTimeslots
    {
      assert WellPlaced(s[i], classes, numRooms);
      var j :| 0 <= j < |classes| && classes[j] == s[i].cls;
      assert 1 <= classes[j].weeklyHours;
    }
  }
}
