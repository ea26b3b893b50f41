/** The timetables of the dict-grid engine (timetable.py): dictionaries
    from (day, time_slot) to a cell, built at random by
    generate_random_timetable and rewritten cell by cell by mutate. The
    course list of the database query is a parameter. */
module DictGrid {

  /** A row of get_all_courses_with_instructors: courses.id, courses.name,
      courses.duration, the instructor's name, courses.room_number and
      courses.constraints. */
  datatype CourseRow = CourseRow(id: int, name: string, duration: int, instructor: string,
                                 roomNumber: string, constraints: string)

  /** A (day, time_slot) key. */
  type Key = (int, int)

  /** A cell value: None, a whole course row (as generate_random_timetable
      stores it), or a course id (as mutate stores it). */
  datatype Cell = Vacant | Row(row: CourseRow) | Id(id: int)

  type Timetable = map<Key, Cell>

  /** The cells the nested range(1, n + 1) loops visit. */
  predicate InGrid(k: Key, numDays: int, numTimeSlots: int)
  {
    1 <= k.0 <= numDays && 1 <= k.1 <= numTimeSlots
  }

  /** The cell k holds once the first n courses have been assigned to their
      drawn cells: the row of the last of them drawn on k, or None. */
  function Assigned(courses: seq<CourseRow>, draws: seq<Key>, n: nat, k: Key): Cell
    requires n <= |courses| && n <= |draws|
  {
    if n == 0 then Vacant
    else if draws[n - 1] == k then Row(courses[n - 1])
    else Assigned(courses, draws, n - 1, k)
  }

  /** A cell is None exactly when no course was drawn on it, and otherwise
      holds the row of a course drawn on it after which no course is. */
  lemma {:induction false} AssignedMeaning(courses: seq<CourseRow>, draws: seq<Key>, n: nat, k: Key)
    requires n <= |courses| && n <= |draws|
    ensures Assigned(courses, draws, n, k) == Vacant <==> forall i :: 0 <= i < n ==> draws[i] != k
    ensures Assigned(courses, draws, n, k) != Vacant ==>
      exists i :: 0 <= i < n && draws[i] == k && Assigned(courses, draws, n, k) == Row(courses[i])
        && forall j :: i < j < n ==> draws[j] != k
  {
    if n > 0 {
      AssignedMeaning(courses, draws, n - 1, k);
    }
  }

  /** Whether the nested day/time_slot loops have passed cell k when they
      are about to visit (day, timeSlot). */
  predicate Visited(k: Key, day: int, timeSlot: int)
  {
    k.0 < day || (k.0 == day && k.1 < timeSlot)
  }

  /** generate_random_timetable (timetable.py:45-62) with the courses and
      the (day, time_slot) drawn for each course as parameters. The keys
      are exactly the grid; every cell is None unless a course was drawn
      on it, and then holds the last such course. */
  method GenerateRandomTimetable(courses: seq<CourseRow>, numDays: int, numTimeSlots: int, draws: seq<Key>)
    returns (timetable: Timetable)
    requires |draws| == |courses|
    requires forall i :: 0 <= i < |draws| ==> InGrid(draws[i], numDays, numTimeSlots)
    ensures forall k :: k in timetable <==> InGrid(k, numDays, numTimeSlots)
    ensures forall k :: k in timetable ==> timetable[k] == Assigned(courses, draws, |courses|, k)
  {
    timetable := map[];
    var day := 1;
    while day <= numDays
      invariant 1 <= day && (day <= numDays + 1 || day == 1)
      invariant forall k :: k in timetable <==> InGrid(k, numDays, numTimeSlots) && k.0 < day
      invariant forall k :: k in timetable ==> timetable[k] == Vacant
    {
      var timeSlot := 1;
      while timeSlot <= numTimeSlots
        invariant 1 <= timeSlot && (timeSlot <= numTimeSlots + 1 || timeSlot == 1)
        invariant forall k :: k in timetable <==> InGrid(k, numDays, numTimeSlots) && Visited(k, day, timeSlot)
        invariant forall k :: k in timetable ==> timetable[k] == Vacant
      {
        timetable := timetable[(day, timeSlot) := Vacant];
        timeSlot := timeSlot + 1;
      }
      day := day + 1;
    }
    for i := 0 to |courses|
      invariant forall k :: k in timetable <==> InGrid(k, numDays, numTimeSlots)
      invariant forall k :: k in timetable ==> timetable[k] == Assigned(courses, draws, i, k)
    {
      timetable := timetable[draws[i] := Row(courses[i])];
    }
  }

  /** Whether mutate rewrites cell k: a grid cell whose random() draw falls
      below the mutation rate. */
  predicate Chosen(k: Key, numDays: int, numTimeSlots: int, roll: (int, int) -> real, mutationRate: real)
  {
    InGrid(k, numDays, numTimeSlots) && roll(k.0, k.1) < mutationRate
  }

  /** mutate (timetable.py:108-120) with the random() draw and the
      random.choice index of every cell as parameters. The input is a value
      and stays as it was. A chosen cell ends up holding the id of the
      course picked for it; every other key keeps its cell, and no key
      other than a chosen one is added. When no draw falls below the rate,
      as with a rate of 0, the result is the input itself. */
  method Mutate(timetable: Timetable, coursesData: seq<CourseRow>, mutationRate: real, numDays: int, numTimeSlots: int,
                roll: (int, int) -> real, choice: (int, int) -> nat)
    returns (mutatedTimetable: Timetable)
    requires forall k :: Chosen(k, numDays, numTimeSlots, roll, mutationRate) ==> choice(k.0, k.1) < |coursesData|
    ensures forall k :: k in mutatedTimetable <==> k in timetable || Chosen(k, numDays, numTimeSlots, roll, mutationRate)
    ensures forall k :: Chosen(k, numDays, numTimeSlots, roll, mutationRate) ==>
      mutatedTimetable[k] == Id(coursesData[choice(k.0, k.1)].id)
    ensures forall k :: k in timetable && !Chosen(k, numDays, numTimeSlots, roll, mutationRate) ==>
      mutatedTimetable[k] == timetable[k]
    ensures (forall d: int, t: int :: mutationRate <= roll(d, t)) ==> mutatedTimetable == timetable
  {
    mutatedTimetable := timetable;
    var day := 1;
    while day <= numDays
      invariant 1 <= day && (day <= numDays + 1 || day == 1)
      invariant forall k :: k in mutatedTimetable <==> k in timetable || (Chosen(k, numDays, numTimeSlots, roll, mutationRate) && k.0 < day)
      invariant forall k :: Chosen(k, numDays, numTimeSlots, roll, mutationRate) && k.0 < day ==>
        mutatedTimetable[k] == Id(coursesData[choice(k.0, k.1)].id)
      invariant forall k :: k in timetable && !(Chosen(k, numDays, numTimeSlots, roll, mutationRate) && k.0 < day) ==>
        mutatedTimetable[k] == timetable[k]
    {
      var timeSlot := 1;
      while timeSlot <= numTimeSlots
        invariant 1 <= timeSlot && (timeSlot <= numTimeSlots + 1 || timeSlot == 1)
        invariant forall k :: k in mutatedTimetable <==>
          (k in timetable || (Chosen(k, numDays, numTimeSlots, roll, mutationRate) && Visited(k, day, timeSlot)))
        invariant forall k :: Chosen(k, numDays, numTimeSlots, roll, mutationRate) && Visited(k, day, timeSlot) ==>
          mutatedTimetable[k] == Id(coursesData[choice(k.0, k.1)].id)
        invariant forall k :: k in timetable && !(Chosen(k, numDays, numTimeSlots, roll, mutationRate) && Visited(k, day, timeSlot)) ==>
          mutatedTimetable[k] == timetable[k]
      {
        if roll(day, timeSlot) < mutationRate {
          assert Chosen((day, timeSlot), numDays, numTimeSlots, roll, mutationRate);
          var newCourse := coursesData[choice(day, timeSlot)];
          var newCourseId := newCourse.id;
          mutatedTimetable := mutatedTimetable[(day, timeSlot) := Id(newCourseId)];
        }
        timeSlot := timeSlot + 1;
      }
      day := day + 1;
    }
    if forall d: int, t: int :: mutationRate <= roll(d, t) {
      MutateNothing(timetable, mutatedTimetable, numDays, numTimeSlots, roll, mutationRate);
    }
  }

  /** With no cell chosen, mutate gives back its input. */
  lemma MutateNothing(timetable: Timetable, mutated: Timetable, numDays: int, numTimeSlots: int,
                      roll: (int, int) -> real, mutationRate: real)
    requires forall k :: !Chosen(k, numDays, numTimeSlots, roll, mutationRate)
    requires forall k :: k in mutated <==> k in timetable || Chosen(k, numDays, numTimeSlots, roll, mutationRate)
    requires forall k :: k in timetable && !Chosen(k, numDays, numTimeSlots, roll, mutationRate) ==> mutated[k] == timetable[k]
    ensures mutated == timetable
  {
  }
}
