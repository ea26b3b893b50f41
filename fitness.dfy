/** The fitness function of the list-of-placements engine
    (algorithm.py:116-191): one scan over the schedule that books rooms and
    instructors in occupancy vectors and subtracts six kinds of penalty. */
module Fitness {
  import opened Records
  import opened Occupancy

  type RoomDay = (int, Day)
  type InstructorDay = (string, Day)


  /** The keys of room_schedule: rooms 1..num_rooms, each with every weekday. */
  function RoomDays(numRooms: int): set<RoomDay>
  {
    set r, d | 1 <= r <= numRooms && d in DaysOfWeek :: (r, d)
  }

  function Instructors(s: seq<Placement>): set<string>
  {
    set i | 0 <= i < |s| && s[i].Entry? :: s[i].cls.instructor
  }

  /** The keys of instructor_schedule: every instructor of the schedule, each with every weekday. */
  function InstructorDays(s: seq<Placement>): set<InstructorDay>
  {
    set ins, d | ins in Instructors(s) && d in DaysOfWeek :: (ins, d)
  }

  /** The keys of course_hours. */
  function CourseKeys(s: seq<Placement>): set<CourseKey>
  {
    set i | 0 <= i < |s| && s[i].Entry? :: KeyOf(s[i].cls)
  }

  /** The scan's state: both occupancy dictionaries, course_hours and fitness_score. */
  datatype Tally = Tally(
    rooms: map<RoomDay, seq<bool>>,
    instructors: map<InstructorDay, seq<bool>>,
    hours: map<CourseKey, int>,
    score: int)

  /** The dictionaries as algorithm.py:117-131 set them up: every vector
      seven free slots long, every course at zero hours, score zero. */
  function InitialTally(s: seq<Placement>, numRooms: int): Tally
  {
    Tally(
      map k | k in RoomDays(numRooms) :: Falses(NumTimeslots),
      map k | k in InstructorDays(s) :: Falses(NumTimeslots),
      map k | k in CourseKeys(s) :: 0,
      0)
  }

  /** The dictionary value for k; the fallback is never used in a scan
      (see ScanCovers), where every key the loop looks up is present. */
  function Lookup<K>(m: map<K, seq<bool>>, k: K): seq<bool>
  {
    if k in m then m[k] else []
  }

  function HoursOf(m: map<CourseKey, int>, ck: CourseKey): int
  {
    if ck in m then m[ck] else 0
  }

  /** What one placement costs, constraint by constraint. */
  datatype Charges = Charges(room: nat, instructor: nat, lab: nat, hours: nat, sameDay: nat)
  {
    function Total(): nat { room + instructor + lab + hours + sameDay }
  }

  /** Constraint 5 (algorithm.py:181): another entry of the same Course and
      ClassType lies on the same day; only entries equal to p itself are
      disregarded. */
  predicate SameDayRepeat(s: seq<Placement>, p: Placement)
    requires p.Entry?
  {
    exists j :: 0 <= j < |s| && s[j].Entry? && KeyOf(s[j].cls) == KeyOf(p.cls) && s[j] != p && s[j].day == p.day
  }

  /** Constraint 5 charges entries in pairs: an entry of s charged for a
      same-day repeat has a partner in s, different from it, that is
      charged too. */
  lemma SameDayRepeatPaired(s: seq<Placement>, i: nat)
    requires i < |s| && s[i].Entry? && SameDayRepeat(s, s[i])
    ensures exists j :: 0 <= j < |s| && s[j] != s[i] && s[j].Entry? && SameDayRepeat(s, s[j])
  {
    var j :| 0 <= j < |s| && s[j].Entry? && KeyOf(s[j].cls) == KeyOf(s[i].cls) && s[j] != s[i] && s[j].day == s[i].day;
    assert SameDayRepeat(s, s[j]) by {
      assert s[i].Entry? && KeyOf(s[i].cls) == KeyOf(s[j].cls) && s[i] != s[j] && s[i].day == s[j].day;
    }
  }

  /** Only entries equal to p itself are disregarded: an exact copy of p
      in the schedule never makes p a repeat. */
  lemma SameDayRepeatIgnoresCopies(s: seq<Placement>, p: Placement)
    requires p.Entry?
    ensures SameDayRepeat(s + [p], p) == SameDayRepeat(s, p)
  {
    if SameDayRepeat(s + [p], p) {
      var j :| 0 <= j < |s + [p]| && (s + [p])[j].Entry? && KeyOf((s + [p])[j].cls) == KeyOf(p.cls) && (s + [p])[j] != p && (s + [p])[j].day == p.day;
      assert j < |s| && s[j] == (s + [p])[j];
    }
    if SameDayRepeat(s, p) {
      var j :| 0 <= j < |s| && s[j].Entry? && KeyOf(s[j].cls) == KeyOf(p.cls) && s[j] != p && s[j].day == p.day;
      assert (s + [p])[j] == s[j];
    }
  }

  lemma KeysOf(s: seq<Placement>, numRooms: int, i: int)
    requires Scoreable(s, numRooms) && 0 <= i < |s|
    ensures (s[i].room, s[i].day) in RoomDays(numRooms)
    ensures (s[i].cls.instructor, s[i].day) in InstructorDays(s)
    ensures KeyOf(s[i].cls) in CourseKeys(s)
  {
    EveryDayListed(s[i].day);
    assert s[i].cls.instructor in Instructors(s);
  }

  /** One iteration of the loop at algorithm.py:134-182 on entry p of s:
      the new state and what p costs. */
  function Step(t: Tally, p: Placement, s: seq<Placement>): (r: (Tally, Charges))
    requires p.Entry? && p.timeslot >= 0
    ensures r.0.score == t.score - r.1.Total()
    ensures r.0.score <= t.score
  {
    var h := p.cls.weeklyHours;
    var rk := (p.room, p.day);
    var ik := (p.cls.instructor, p.day);
    var ro := Occupy(Lookup(t.rooms, rk), p.timeslot, h);
    var io := Occupy(Lookup(t.instructors, ik), p.timeslot, h);
    var lab := if IsLab(p.cls) then LabBlock(ro.0, io.0, p.timeslot, h) else (ro.0, io.0, 0);
    var ck := KeyOf(p.cls);
    var cum := HoursOf(t.hours, ck) + h;
    var charges := Charges(ro.1, io.1, lab.2, if cum > h * 2 then 1 else 0, if SameDayRepeat(s, p) then 1 else 0);
    (Tally(t.rooms[rk := lab.0], t.instructors[ik := lab.1], t.hours[ck := cum], t.score - charges.Total()), charges)
  }

  /** Constraint 3 reads the vectors constraints 1 and 2 have just
      updated, so a Lab whose start lies in the week is charged at least 1
      for its own start slot, even with nothing else booked. */
  lemma LabChargedForOwnStart(t: Tally, p: Placement, s: seq<Placement>)
    requires p.Entry? && 0 <= p.timeslot < NumTimeslots && p.cls.weeklyHours >= 1 && IsLab(p.cls)
    ensures Step(t, p, s).1.lab >= 1
    ensures Step(t, p, s).0.score < t.score
  {
    var h := p.cls.weeklyHours;
    var ro := Occupy(Lookup(t.rooms, (p.room, p.day)), p.timeslot, h);
    var io := Occupy(Lookup(t.instructors, (p.cls.instructor, p.day)), p.timeslot, h);
    OccupyMarksStart(Lookup(t.rooms, (p.room, p.day)), p.timeslot, h);
    CountEitherHit(ro.0, io.0, p.timeslot, p.timeslot + h, p.timeslot);
  }

  /** The state after the first n entries of s have been scanned. */
  function Scan(s: seq<Placement>, numRooms: int, n: nat): Tally
    requires Scoreable(s, numRooms) && n <= |s|
  {
    if n == 0 then InitialTally(s, numRooms)
    else Step(Scan(s, numRooms, n - 1), s[n - 1], s).0
  }

  /** Every dictionary lookup the scan makes for entry p finds its key, and
      both occupancy vectors p reads still hold the seven initial slots. */
  predicate Covers(t: Tally, p: Placement)
    requires p.Entry?
  {
    var rk, ik := (p.room, p.day), (p.cls.instructor, p.day);
    && rk in t.rooms && |t.rooms[rk]| >= NumTimeslots
    && ik in t.instructors && |t.instructors[ik]| >= NumTimeslots
    && KeyOf(p.cls) in t.hours
  }

  lemma InitialCovers(s: seq<Placement>, numRooms: int, i: int)
    requires Scoreable(s, numRooms) && 0 <= i < |s|
    ensures Covers(InitialTally(s, numRooms), s[i])
  {
    KeysOf(s, numRooms, i);
  }

  /** A step keeps every key and never shortens a vector. */
  lemma StepCovers(t: Tally, p: Placement, s: seq<Placement>, q: Placement)
    requires p.Entry? && p.timeslot >= 0 && q.Entry? && Covers(t, q)
    ensures Covers(Step(t, p, s).0, q)
  {
    var h := p.cls.weeklyHours;
    var rv, iv := Lookup(t.rooms, (p.room, p.day)), Lookup(t.instructors, (p.cls.instructor, p.day));
    OccupyKeeps(rv, p.timeslot, h);
    OccupyKeeps(iv, p.timeslot, h);
    var ro, io := Occupy(rv, p.timeslot, h), Occupy(iv, p.timeslot, h);
    LabRule(ro.0, io.0, p.timeslot, h);
  }

  /** Every lookup of the scan finds its key and every start slot lies
      inside its vector: fitness raises no KeyError or IndexError on a
      scoreable schedule. */
  lemma {:induction false} ScanCovers(s: seq<Placement>, numRooms: int, n: nat, i: int)
    requires Scoreable(s, numRooms) && n <= |s| && 0 <= i < |s|
    ensures Covers(Scan(s, numRooms, n), s[i])
  {
    if n == 0 {
      InitialCovers(s, numRooms, i);
    } else {
      ScanCovers(s, numRooms, n - 1, i);
      StepCovers(Scan(s, numRooms, n - 1), s[n - 1], s, s[i]);
    }
  }

  /** sum(1 for c in schedule if c[3] == day) */
  function CountOnDay(s: seq<Placement>, d: Day): nat
  {
    if s == [] then 0 else CountOnDay(s[..|s| - 1], d) + (if s[|s| - 1].Entry? && s[|s| - 1].day == d then 1 else 0)
  }

  /** num_courses_per_day (algorithm.py:185), in DAYS_OF_WEEK order. */
  function DayCounts(s: seq<Placement>): (r: seq<nat>)
    ensures |r| == |DaysOfWeek|
  {
    seq(|DaysOfWeek|, k requires 0 <= k < |DaysOfWeek| => CountOnDay(s, DaysOfWeek[k]))
  }

  /** max(xs) of a non-empty list. */
  function SeqMax(xs: seq<int>): int
    requires |xs| > 0
  {
    if |xs| == 1 then xs[0] else Max(SeqMax(xs[..|xs| - 1]), xs[|xs| - 1])
  }

  /** min(xs) of a non-empty list. */
  function SeqMin(xs: seq<int>): int
    requires |xs| > 0
  {
    if |xs| == 1 then xs[0] else Min(SeqMin(xs[..|xs| - 1]), xs[|xs| - 1])
  }

  /** SeqMax and SeqMin are elements of the list bounding all the others. */
  lemma {:induction false} SeqMaxMin(xs: seq<int>)
    requires |xs| > 0
    ensures SeqMax(xs) in xs && forall k :: 0 <= k < |xs| ==> xs[k] <= SeqMax(xs)
    ensures SeqMin(xs) in xs && forall k :: 0 <= k < |xs| ==> SeqMin(xs) <= xs[k]
  {
    if |xs| > 1 {
      var init := xs[..|xs| - 1];
      SeqMaxMin(init);
      forall k | 0 <= k < |xs| - 1 ensures xs[k] == init[k] { }
      assert SeqMax(init) in init && SeqMin(init) in init;
    }
  }

  /** Constraint 6 (algorithm.py:185-189). */
  function Balance(s: seq<Placement>): nat
  {
    var counts := DayCounts(s);
    if SeqMax(counts) - SeqMin(counts) > 1 then 1 else 0
  }

  /** The value fitness returns. */
  function Score(s: seq<Placement>, numRooms: int): int
    requires Scoreable(s, numRooms)
  {
    Scan(s, numRooms, |s|).score - Balance(s)
  }

  /** One pass of the loop body at algorithm.py:135-182 on entry i. */
  method ScoreEntry(s: seq<Placement>, numRooms: int, i: int,
                    roomSchedule: map<RoomDay, seq<bool>>, instructorSchedule: map<InstructorDay, seq<bool>>,
                    courseHours: map<CourseKey, int>, fitnessScore: int)
    returns (roomSchedule': map<RoomDay, seq<bool>>, instructorSchedule': map<InstructorDay, seq<bool>>,
             courseHours': map<CourseKey, int>, fitnessScore': int)
    requires Scoreable(s, numRooms) && 0 <= i < |s|
    requires Covers(Tally(roomSchedule, instructorSchedule, courseHours, fitnessScore), s[i])
    ensures Tally(roomSchedule', instructorSchedule', courseHours', fitnessScore') ==
      Step(Tally(roomSchedule, instructorSchedule, courseHours, fitnessScore), s[i], s).0
  {
    KeysOf(s, numRooms, i);
    var p := s[i];
    var hours := p.cls.weeklyHours;
    var rk := (p.room, p.day);
    var ik := (p.cls.instructor, p.day);
    // Constraint 1: the room
    var rv, roomPenalty := OccupySlots(roomSchedule[rk], p.timeslot, hours);
    // Constraint 2: the instructor
    var iv, instructorPenalty := OccupySlots(instructorSchedule[ik], p.timeslot, hours);
    // Constraint 3: labs
    var labPenalty := 0;
    if IsLab(p.cls) {
      rv, iv, labPenalty := MarkLab(rv, iv, p.timeslot, hours);
    }
    roomSchedule' := roomSchedule[rk := rv];
    instructorSchedule' := instructorSchedule[ik := iv];
    // Constraint 4: the course's cumulative hours
    var ck := KeyOf(p.cls);
    courseHours' := courseHours[ck := courseHours[ck] + hours];
    var hoursPenalty := if courseHours'[ck] > hours * 2 then 1 else 0;
    // Constraint 5: the same course on the same day
    var dayPenalty := if SameDayRepeat(s, p) then 1 else 0;
    fitnessScore' := fitnessScore - roomPenalty - instructorPenalty - labPenalty - hoursPenalty - dayPenalty;
  }

  /** The loop of algorithm.py:134-182 over the whole schedule. */
  method ScanSchedule(s: seq<Placement>, numRooms: int)
    returns (roomSchedule: map<RoomDay, seq<bool>>, instructorSchedule: map<InstructorDay, seq<bool>>,
             courseHours: map<CourseKey, int>, fitnessScore: int)
    requires Scoreable(s, numRooms)
    ensures Tally(roomSchedule, instructorSchedule, courseHours, fitnessScore) == Scan(s, numRooms, |s|)
  {
    var t := InitialTally(s, numRooms);
    roomSchedule, instructorSchedule, courseHours := t.rooms, t.instructors, t.hours;
    fitnessScore := 0;
    for i := 0 to |s|
      invariant Tally(roomSchedule, instructorSchedule, courseHours, fitnessScore) == Scan(s, numRooms, i)
    {
      ScanCovers(s, numRooms, i, i);
      roomSchedule, instructorSchedule, courseHours, fitnessScore :=
        ScoreEntry(s, numRooms, i, roomSchedule, instructorSchedule, courseHours, fitnessScore);
    }
  }

  /** fitness(chromosome) as written: the scan, then the balance test. */
  method ComputeFitness(s: seq<Placement>, numRooms: int) returns (fitnessScore: int)
    requires Scoreable(s, numRooms)
    ensures fitnessScore == Score(s, numRooms)
    ensures fitnessScore <= 0
  {
    var _, _, _, scanned := ScanSchedule(s, numRooms);
    fitnessScore := scanned;
    // Constraint 6: balance across the week
    var numCoursesPerDay := DayCounts(s);
    var maxNumCourses, minNumCourses := SeqMax(numCoursesPerDay), SeqMin(numCoursesPerDay);
    if maxNumCourses - minNumCourses > 1 {
      fitnessScore := fitnessScore - 1;
    }
    ScoreNonPositive(s, numRooms);
  }

  /** The running score never rises: after m entries it is at most what
      it was after any n <= m, and so never above the initial 0. */
  lemma ScanNonIncreasing(s: seq<Placement>, numRooms: int, n: nat, m: nat)
    requires Scoreable(s, numRooms) && n <= m <= |s|
    ensures Scan(s, numRooms, m).score <= Scan(s, numRooms, n).score
  {
    if n == 0 && 0 < m {
      ScanStepLowers(s, numRooms, 0);
      ScanLowersFrom(s, numRooms, 1, m);
    } else if 0 < n {
      ScanLowersFrom(s, numRooms, n, m);
    }
  }

  /** One step of the scan never raises the score. */
  lemma ScanStepLowers(s: seq<Placement>, numRooms: int, n: nat)
    requires Scoreable(s, numRooms) && n < |s|
    ensures Scan(s, numRooms, n + 1).score <= Scan(s, numRooms, n).score
  {
    var r := Step(Scan(s, numRooms, n), s[n], s);
    assert Scan(s, numRooms, n + 1) == r.0;
  }

  /** ScanNonIncreasing for a start after the first entry, step by step
      from n towards m. */
  lemma {:induction false} ScanLowersFrom(s: seq<Placement>, numRooms: int, n: nat, m: nat)
    requires Scoreable(s, numRooms) && 0 < n <= m <= |s|
    ensures Scan(s, numRooms, m).score <= Scan(s, numRooms, n).score
    decreases m - n
  {
    if n < m {
      ScanStepLowers(s, numRooms, n);
      ScanLowersFrom(s, numRooms, n + 1, m);
    }
  }

  /** The score starts at zero and every constraint only subtracts. */
  lemma ScoreNonPositive(s: seq<Placement>, numRooms: int)
    requires Scoreable(s, numRooms)
    ensures Score(s, numRooms) <= 0
  {
    ScanNonIncreasing(s, numRooms, 0, |s|);
  }

  /** Every slot marked in a is still marked in b. */
  ghost predicate KeepsMarks<K>(a: map<K, seq<bool>>, b: map<K, seq<bool>>)
  {
    forall k, j :: k in a && 0 <= j < |a[k]| && a[k][j] ==> k in b && j < |b[k]| && b[k][j]
  }

  lemma KeepsMarksTrans<K>(a: map<K, seq<bool>>, b: map<K, seq<bool>>, c: map<K, seq<bool>>)
    requires KeepsMarks(a, b) && KeepsMarks(b, c)
    ensures KeepsMarks(a, c)
  {
  }

  lemma StepKeepsMarks(t: Tally, p: Placement, s: seq<Placement>)
    requires p.Entry? && p.timeslot >= 0
    ensures KeepsMarks(t.rooms, Step(t, p, s).0.rooms)
    ensures KeepsMarks(t.instructors, Step(t, p, s).0.instructors)
  {
    var h := p.cls.weeklyHours;
    var rv, iv := Lookup(t.rooms, (p.room, p.day)), Lookup(t.instructors, (p.cls.instructor, p.day));
    OccupyKeeps(rv, p.timeslot, h);
    OccupyKeeps(iv, p.timeslot, h);
    var ro, io := Occupy(rv, p.timeslot, h), Occupy(iv, p.timeslot, h);
    LabRule(ro.0, io.0, p.timeslot, h);
  }

  /** Scanning one more entry keeps every mark. */
  lemma ScanKeepsMarks(s: seq<Placement>, numRooms: int, i: nat)
    requires Scoreable(s, numRooms) && i < |s|
    ensures KeepsMarks(Scan(s, numRooms, i).rooms, Scan(s, numRooms, i + 1).rooms)
    ensures KeepsMarks(Scan(s, numRooms, i).instructors, Scan(s, numRooms, i + 1).instructors)
  {
    StepKeepsMarks(Scan(s, numRooms, i), s[i], s);
  }

  /** Marks are never cleared: a slot booked after n entries is still
      booked after any later number of entries, in every room and for
      every instructor. */
  lemma MarksPersist(s: seq<Placement>, numRooms: int, n: nat, n': nat)
    requires Scoreable(s, numRooms) && n <= n' <= |s|
    ensures KeepsMarks(Scan(s, numRooms, n).rooms, Scan(s, numRooms, n').rooms)
    ensures KeepsMarks(Scan(s, numRooms, n).instructors, Scan(s, numRooms, n').instructors)
  {
    if 0 < n {
      MarksPersistFrom(s, numRooms, n, n');
    } else if n < n' {
      var t0, t1, t2 := Scan(s, numRooms, 0), Scan(s, numRooms, 1), Scan(s, numRooms, n');
      ScanKeepsMarks(s, numRooms, 0);
      MarksPersistFrom(s, numRooms, 1, n');
      assert KeepsMarks(t0.rooms, t2.rooms) by {
        KeepsMarksTrans(t0.rooms, t1.rooms, t2.rooms);
      }
      assert KeepsMarks(t0.instructors, t2.instructors) by {
        KeepsMarksTrans(t0.instructors, t1.instructors, t2.instructors);
      }
    }
  }

  /** MarksPersist for a start after the first entry, step by step from
      n towards n'. */
  lemma {:induction false} MarksPersistFrom(s: seq<Placement>, numRooms: int, n: nat, n': nat)
    requires Scoreable(s, numRooms) && 0 < n <= n' <= |s|
    ensures KeepsMarks(Scan(s, numRooms, n).rooms, Scan(s, numRooms, n').rooms)
    ensures KeepsMarks(Scan(s, numRooms, n).instructors, Scan(s, numRooms, n').instructors)
    decreases n' - n
  {
    if n < n' {
      var t0, t1, t2 := Scan(s, numRooms, n), Scan(s, numRooms, n + 1), Scan(s, numRooms, n');
      ScanKeepsMarks(s, numRooms, n);
      MarksPersistFrom(s, numRooms, n + 1, n');
      assert KeepsMarks(t0.rooms, t2.rooms) by {
        KeepsMarksTrans(t0.rooms, t1.rooms, t2.rooms);
      }
      assert KeepsMarks(t0.instructors, t2.instructors) by {
        KeepsMarksTrans(t0.instructors, t1.instructors, t2.instructors);
      }
    }
  }

  /** Hours of the entries among the first n with course key ck. */
  function HoursUpTo(s: seq<Placement>, n: nat, ck: CourseKey): int
    requires n <= |s|
  {
    if n == 0 then 0
    else HoursUpTo(s, n - 1, ck) + (if s[n - 1].Entry? && KeyOf(s[n - 1].cls) == ck then s[n - 1].cls.weeklyHours else 0)
  }

  /** course_hours holds, after n entries, the hours of those entries per course key. */
  lemma {:induction false} CourseHoursAreSums(s: seq<Placement>, numRooms: int, n: nat, ck: CourseKey)
    requires Scoreable(s, numRooms) && n <= |s|
    ensures HoursOf(Scan(s, numRooms, n).hours, ck) == HoursUpTo(s, n, ck)
  {
    if n > 0 {
      CourseHoursAreSums(s, numRooms, n - 1, ck);
    }
  }

  /** Constraint 4 (algorithm.py:175-178): entry n costs 1 exactly when the
      cumulative hours of its (Course, ClassType), itself included, exceed
      twice its WeeklyHours. */
  lemma HoursCharge(s: seq<Placement>, numRooms: int, n: nat)
    requires Scoreable(s, numRooms) && n < |s|
    ensures Step(Scan(s, numRooms, n), s[n], s).1.hours ==
      if HoursUpTo(s, n + 1, KeyOf(s[n].cls)) > 2 * s[n].cls.weeklyHours then 1 else 0
  {
    CourseHoursAreSums(s, numRooms, n, KeyOf(s[n].cls));
  }

  /** Constraint 6 costs 1 exactly when two weekdays' placement counts
      differ by more than one. */
  lemma BalanceCharge(s: seq<Placement>)
    ensures Balance(s) == 1 <==>
      exists a, b :: 0 <= a < |DaysOfWeek| && 0 <= b < |DaysOfWeek| && DayCounts(s)[a] > DayCounts(s)[b] + 1
  {
    var counts := DayCounts(s);
    SeqMaxMin(counts);
    if Balance(s) == 1 {
      var hi, lo := SeqMax(counts), SeqMin(counts);
      var a :| 0 <= a < |counts| && counts[a] == hi;
      var b :| 0 <= b < |counts| && counts[b] == lo;
      assert counts[a] > counts[b] + 1;
    }
  }
}
