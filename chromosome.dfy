/** The Chromosome class of algorithm.py:34-112: a schedule of placements
    built from random draws, and the two branches of mutate. Every random
    draw is a parameter; a retry loop is represented by the draw that ends it. */
module Chromosomes {
  import opened Wrappers
  import opened Records
  import Occupancy

  /** Class c is the class of some entry of s (the test at algorithm.py:59). */
  predicate Scheduled(s: seq<Placement>, c: ClassRec)
  {
    exists i :: 0 <= i < |s| && s[i].Entry? && s[i].cls == c
  }

  /** unused_courses (algorithm.py:59): the classes no entry carries, in catalogue order. */
  function Unused(classes: seq<ClassRec>, s: seq<Placement>): (r: seq<ClassRec>)
    ensures |r| <= |classes|
    ensures forall c :: c in r <==> c in classes && !Scheduled(s, c)
  {
    if classes == [] then []
    else (if Scheduled(s, classes[0]) then [] else [classes[0]]) + Unused(classes[1..], s)
  }

  /** The retry test of algorithm.py:69: an entry of the same Course and
      ClassType already lies on day. */
  predicate CourseOnDay(s: seq<Placement>, key: CourseKey, day: Day)
  {
    exists i :: 0 <= i < |s| && s[i].Entry? && KeyOf(s[i].cls) == key && s[i].day == day
  }

  /** The retry test of algorithm.py:94: as CourseOnDay, restricted to
      entries starting at timeslot. */
  predicate CourseAtOnDay(s: seq<Placement>, key: CourseKey, timeslot: int, day: Day)
  {
    exists i :: 0 <= i < |s| && s[i].Entry? && KeyOf(s[i].cls) == key && s[i].timeslot == timeslot && s[i].day == day
  }

  /** The test of find_valid_timeslot (algorithm.py:110): room is in use at timeslot. */
  predicate RoomUses(s: seq<Placement>, room: int, timeslot: int)
  {
    exists i :: 0 <= i < |s| && s[i].Entry? && s[i].room == room && s[i].timeslot == timeslot
  }

  function Place(c: ClassRec, ch: Choice): Placement
  {
    Entry(c, ch.room, ch.timeslot, ch.day)
  }

  /** The draws of __init__: one choice per class, then for each of the
      POPULATION_SIZE - len(classes) fill slots (none when that is not
      positive) a class index and a choice, each choice in the ranges its
      class allows. */
  predicate InitDrawsFit(classes: seq<ClassRec>, numRooms: int, first: seq<Choice>, fill: seq<(nat, Choice)>)
  {
    && |first| == |classes|
    && (forall i :: 0 <= i < |classes| ==> ChoiceFits(classes[i], numRooms, first[i]))
    && |fill| == Occupancy.Max(PopulationSize - |classes|, 0)
    && (forall i :: 0 <= i < |fill| ==> fill[i].0 < |classes| && ChoiceFits(classes[fill[i].0], numRooms, fill[i].1))
  }

  /** The draws of one Chromosome(semester_data) call. */
  datatype InitDraws = InitDraws(first: seq<Choice>, fill: seq<(nat, Choice)>)

  /** The schedule __init__ builds (algorithm.py:41-54): every class once, in
      catalogue order, then the fill entries; POPULATION_SIZE entries in all
      unless the catalogue alone is longer, and every entry well placed. */
  function InitialSchedule(classes: seq<ClassRec>, numRooms: int, first: seq<Choice>, fill: seq<(nat, Choice)>): (r: seq<Placement>)
    requires InitDrawsFit(classes, numRooms, first, fill)
    ensures |r| == Occupancy.Max(|classes|, PopulationSize)
    ensures forall i :: 0 <= i < |classes| ==> r[i].Entry? && r[i].cls == classes[i]
    ensures AllWellPlaced(r, classes, numRooms)
  {
    seq(|classes|, i requires 0 <= i < |classes| => Place(classes[i], first[i]))
    + seq(|fill|, i requires 0 <= i < |fill| => Place(classes[fill[i].0], fill[i].1))
  }

  /** The draws of one mutate call. Append branch: the unused class picked,
      a choice for it, and the day the retry loop ends on if choice.day
      collides. Rewrite branch: the entry picked, the slot picked among the
      available ones, and likewise the day the retry loop ends on. */
  datatype MutateDraw = MutateDraw(pick: nat, choice: Choice, retryDay: Day, idx: int, slotPick: nat)

  /** The day a retry loop ends on: the first draw when it does not collide. */
  function SettledDay(first: Day, collides: bool, retryDay: Day): Day
  {
    if collides then retryDay else first
  }

  /** The draw of the append branch fits: a valid pick and choice, and a
      final day without a same-course entry. */
  predicate AppendFits(s: seq<Placement>, classes: seq<ClassRec>, numRooms: int, d: MutateDraw)
  {
    var u := Unused(classes, s);
    && d.pick < |u|
    && ChoiceFits(u[d.pick], numRooms, d.choice)
    && !CourseOnDay(s, KeyOf(u[d.pick]), SettledDay(d.choice.day, CourseOnDay(s, KeyOf(u[d.pick]), d.choice.day), d.retryDay))
  }

  /** The entry the append branch adds (algorithm.py:63-72): a class of the
      catalogue that no entry carried before, well placed, on a day on which
      no entry of the same Course and ClassType lies. */
  function Appended(s: seq<Placement>, classes: seq<ClassRec>, numRooms: int, d: MutateDraw): (r: Placement)
    requires AppendFits(s, classes, numRooms, d)
    ensures WellPlaced(r, classes, numRooms)
    ensures !Scheduled(s, r.cls)
    ensures !CourseOnDay(s, KeyOf(r.cls), r.day)
  {
    var c := Unused(classes, s)[d.pick];
    Entry(c, d.choice.room, d.choice.timeslot, SettledDay(d.choice.day, CourseOnDay(s, KeyOf(c), d.choice.day), d.retryDay))
  }

  /** sum(1 for c in schedule if c == p), the count at algorithm.py:81;
      an entry of s counts at least itself. */
  function CountSame(s: seq<Placement>, p: Placement): (r: nat)
    ensures r <= |s|
    ensures p in s ==> r >= 1
  {
    if s == [] then 0
    else
      var init := s[..|s| - 1];
      assert p in s && s[|s| - 1] != p ==> p in init by {
        if p in s && s[|s| - 1] != p {
          var k :| 0 <= k < |s| && s[k] == p;
          assert init[k] == p;
        }
      }
      CountSame(init, p) + (if s[|s| - 1] == p then 1 else 0)
  }

  /** [lo, lo + 1, ..., hi - 1], empty when hi <= lo. */
  function Range(lo: int, hi: int): (r: seq<int>)
    ensures |r| == Occupancy.Max(hi - lo, 0) && forall k :: 0 <= k < |r| ==> r[k] == lo + k
  {
    seq(Occupancy.Max(hi - lo, 0), k => lo + k)
  }

  /** all(schedule[idx + j][1] is None for j in range(j0, hours)) as Python
      evaluates it, left to right and stopping at the first false term;
      None when it would index past the end of the schedule. */
  function AllVacantFrom(s: seq<Placement>, idx: nat, j: nat, hours: int): (r: Option<bool>)
    ensures r == Some(true) ==> j >= hours || idx + hours <= |s|
    ensures r == Some(true) ==> forall k :: idx + j <= k < idx + hours && k < |s| ==> s[k].Empty?
    ensures r == Some(false) ==> exists k :: idx + j <= k < idx + hours && k < |s| && s[k].Entry?
    ensures r.None? ==> j < hours && |s| < idx + hours
    ensures j < hours && idx + j < |s| && s[idx + j].Entry? ==> r == Some(false)
    decreases hours - j
  {
    if j >= hours then Some(true)
    else if idx + j >= |s| then None
    else if s[idx + j].Entry? then Some(false)
    else
      assert s[idx + j].Empty?;
      AllVacantFrom(s, idx, j + 1, hours)
  }

  /** available_slots (algorithm.py:88). The vacancy test does not depend
      on the candidate slot, and its first term reads the picked entry's
      own room: an entry never has a vacant room, so nothing is available
      while hours remain, and every slot of the range is available when
      none do. It never runs past the end of the schedule from an entry. */
  function AvailableSlots(s: seq<Placement>, idx: nat, hours: int): (r: Option<seq<int>>)
    requires idx < |s|
    ensures s[idx].Entry? && hours >= 1 ==> r == Some([])
    ensures hours <= 0 ==> r == Some(Range(0, NumTimeslots - hours + 1))
  {
    var candidates := Range(0, NumTimeslots - hours + 1);
    if candidates == [] then Some([])
    else match AllVacantFrom(s, idx, 0, hours)
      case None => None
      case Some(vacant) => Some(if vacant then candidates else [])
  }

  /** The draw of the rewrite branch fits: a valid entry index, and if the
      entry is a Lab or a Theory class with an available slot, a valid slot
      pick and a final day the retry loop accepts. */
  predicate RewriteFits(s: seq<Placement>, d: MutateDraw)
  {
    && 0 <= d.idx < |s|
    && (s[d.idx].Entry? ==>
        var p := s[d.idx];
        var avail := AvailableSlots(s, d.idx, p.cls.weeklyHours - CountSame(s, p));
        (p.cls.classType == "Lab" || p.cls.classType == "Theory") && avail.Some? && avail.value != [] ==>
          && d.slotPick < |avail.value|
          && var ts := avail.value[d.slotPick];
             !CourseAtOnDay(s, KeyOf(p.cls), ts, SettledDay(p.day, CourseAtOnDay(s, KeyOf(p.cls), ts, p.day), d.retryDay)))
  }

  /** The draws fit the branch mutate takes on schedule s. */
  predicate DrawFitsFor(s: seq<Placement>, classes: seq<ClassRec>, numRooms: int, d: MutateDraw)
  {
    if Unused(classes, s) != [] then AppendFits(s, classes, numRooms, d) else RewriteFits(s, d)
  }

  /** The schedule after mutate with fitting draws: one entry appended
      when a class is unused, otherwise the same schedule. Every earlier
      entry is kept, and a well-placed schedule stays well placed. */
  function Mutated(s: seq<Placement>, classes: seq<ClassRec>, numRooms: int, d: MutateDraw): (r: seq<Placement>)
    requires DrawFitsFor(s, classes, numRooms, d)
    ensures |r| == (if Unused(classes, s) != [] then |s| + 1 else |s|)
    ensures r[..|s|] == s
    ensures AllWellPlaced(s, classes, numRooms) ==> AllWellPlaced(r, classes, numRooms)
  {
    if Unused(classes, s) != [] then s + [Appended(s, classes, numRooms, d)] else s
  }

  class Chromosome {
    var schedule: seq<Placement>
    const numRooms: int
    const classes: seq<ClassRec>

    /** Every entry is a class of the catalogue with its room and timeslot
        in the ranges the draws come from; in particular no entry is the
        (None, None, None, None) sentinel. */
    ghost predicate Valid()
      reads this
    {
      AllWellPlaced(schedule, classes, numRooms)
    }

    /** Chromosome(semester_data) with its draws (algorithm.py:35-54). */
    constructor (classes: seq<ClassRec>, numRooms: int, first: seq<Choice>, fill: seq<(nat, Choice)>)
      requires InitDrawsFit(classes, numRooms, first, fill)
      ensures this.classes == classes && this.numRooms == numRooms
      ensures schedule == InitialSchedule(classes, numRooms, first, fill)
      ensures Valid()
    {
      ghost var want := InitialSchedule(classes, numRooms, first, fill);
      var s: seq<Placement> := [];
      for i := 0 to |classes|
        invariant s == want[..i]
      {
        s := s + [Entry(classes[i], first[i].room, first[i].timeslot, first[i].day)];
      }
      var remainingSlots := PopulationSize - |classes|;
      for j := 0 to Occupancy.Max(remainingSlots, 0)
        invariant s == want[..|classes| + j]
      {
        var c := classes[fill[j].0];
        s := s + [Entry(c, fill[j].1.room, fill[j].1.timeslot, fill[j].1.day)];
      }
      this.numRooms := numRooms;
      this.classes := classes;
      schedule := s;
    }

    /** A chromosome whose schedule is then overwritten with a crossover
        child, as at algorithm.py:247-250. */
    constructor WithSchedule(classes: seq<ClassRec>, numRooms: int, schedule: seq<Placement>)
      requires AllWellPlaced(schedule, classes, numRooms)
      ensures this.classes == classes && this.numRooms == numRooms && this.schedule == schedule
      ensures Valid()
    {
      this.numRooms := numRooms;
      this.classes := classes;
      this.schedule := schedule;
    }

    /** The draws fit the branch mutate takes on the current schedule. */
    predicate DrawFits(d: MutateDraw)
      reads this
    {
      DrawFitsFor(schedule, classes, numRooms, d)
    }

    /** mutate (algorithm.py:57-104). With an unused class the schedule
        grows by exactly the entry Appended describes and keeps all earlier
        entries. Otherwise the rewrite branch runs, and leaves the schedule
        as it was: see AvailableSlots. */
    method Mutate(d: MutateDraw)
      requires Valid() && DrawFits(d)
      modifies this
      ensures Valid()
      ensures schedule == Mutated(old(schedule), classes, numRooms, d)
    {
      var unusedCourses := Unused(classes, schedule);
      if unusedCourses != [] {
        var newCourse := unusedCourses[d.pick];
        var room, timeslot, day := d.choice.room, d.choice.timeslot, d.choice.day;
        if CourseOnDay(schedule, KeyOf(newCourse), day) {
          day := d.retryDay;
        }
        schedule := schedule + [Entry(newCourse, room, timeslot, day)];
      } else {
        var idx := d.idx;
        var p := schedule[idx];
        var courseData, room, timeslot, day := p.cls, p.room, p.timeslot, p.day;
        var classType := courseData.classType;
        var weeklyHours := courseData.weeklyHours;
        var remainingHours := weeklyHours - CountSame(schedule, p);
        var isLab := classType == "Lab";
        if isLab || classType == "Theory" {
          var availableSlots := AvailableSlots(schedule, idx, remainingHours);
          if availableSlots.None? {
            assert false;
            return;
          }
          if availableSlots.value == [] {
            return;
          }
          timeslot := availableSlots.value[d.slotPick];
          if CourseAtOnDay(schedule, KeyOf(courseData), timeslot, day) {
            day := d.retryDay;
          }
          WriteBlock(idx, courseData, room, timeslot, day, remainingHours);
          ClearOverlaps(idx, timeslot, remainingHours, day);
        }
      }
    }

    /** The loop of algorithm.py:98-99: entries idx, idx + 1, ... are
        overwritten with consecutive hours of the block. */
    method WriteBlock(idx: nat, c: ClassRec, room: int, timeslot: int, day: Day, hours: int)
      requires idx + hours <= |schedule|
      modifies this
      ensures |schedule| == |old(schedule)|
      ensures forall k :: 0 <= k < |schedule| ==>
        schedule[k] == if idx <= k < idx + hours then Entry(c, room, timeslot + (k - idx), day) else old(schedule[k])
    {
      for j := 0 to Occupancy.Max(hours, 0)
        invariant |schedule| == |old(schedule)|
        invariant forall k :: 0 <= k < |schedule| ==>
          schedule[k] == if idx <= k < idx + j then Entry(c, room, timeslot + (k - idx), day) else old(schedule[k])
      {
        schedule := schedule[idx + j := Entry(c, room, timeslot + j, day)];
      }
    }

    /** The loop of algorithm.py:102-104: every other entry on day whose
        timeslot lies in [timeslot, timeslot + hours) becomes the sentinel. */
    method ClearOverlaps(idx: nat, timeslot: int, hours: int, day: Day)
      modifies this
      ensures |schedule| == |old(schedule)|
      ensures forall k :: 0 <= k < |schedule| ==>
        schedule[k] == if k != idx && Overlaps(old(schedule[k]), timeslot, hours, day) then Empty else old(schedule[k])
    {
      for k := 0 to |schedule|
        invariant |schedule| == |old(schedule)|
        invariant forall m :: 0 <= m < |schedule| ==>
          schedule[m] == if m < k && m != idx && Overlaps(old(schedule[m]), timeslot, hours, day) then Empty else old(schedule[m])
      {
        if k != idx && Overlaps(schedule[k], timeslot, hours, day) {
          schedule := schedule[k := Empty];
        }
      }
    }

    /** find_valid_timeslot (algorithm.py:107-112), drawing from a tape of
        timeslots: the first draw that the room does not use, or None when
        the tape runs out first. */
    method FindValidTimeslot(room: int, draws: seq<int>) returns (r: Option<int>)
      ensures r == FirstFreeDraw(schedule, room, draws)
    {
      var k := 0;
      while k < |draws| && RoomUses(schedule, room, draws[k])
        invariant 0 <= k <= |draws|
        invariant FirstFreeDraw(schedule, room, draws) == FirstFreeDraw(schedule, room, draws[k..])
      {
        assert draws[k..][1..] == draws[k + 1..];
        k := k + 1;
      }
      r := if k < |draws| then Some(draws[k]) else None;
    }
  }

  /** The clearing test of algorithm.py:103: a sentinel is never in range. */
  predicate Overlaps(p: Placement, timeslot: int, hours: int, day: Day)
  {
    p.Entry? && timeslot <= p.timeslot < timeslot + hours && p.day == day
  }

  /** The timeslot find_valid_timeslot settles on, given its draws. */
  function FirstFreeDraw(s: seq<Placement>, room: int, draws: seq<int>): Option<int>
  {
    if draws == [] then None
    else if !RoomUses(s, room, draws[0]) then Some(draws[0])
    else FirstFreeDraw(s, room, draws[1..])
  }

  /** find_valid_timeslot's result is a drawn timeslot the room does not
      use, preceded only by draws it does use; it runs out exactly when
      the room uses every drawn timeslot. */
  lemma {:induction false} FirstFreeDrawMeaning(s: seq<Placement>, room: int, draws: seq<int>)
    ensures var r := FirstFreeDraw(s, room, draws);
      && (r.None? <==> forall k :: 0 <= k < |draws| ==> RoomUses(s, room, draws[k]))
      && (r.Some? ==> exists k :: 0 <= k < |draws| && draws[k] == r.value && !RoomUses(s, room, r.value)
                                && forall j :: 0 <= j < k ==> RoomUses(s, room, draws[j]))
  {
    if draws != [] && RoomUses(s, room, draws[0]) {
      FirstFreeDrawMeaning(s, room, draws[1..]);
      var r := FirstFreeDraw(s, room, draws);
      if r.Some? {
        var k :| 0 <= k < |draws[1..]| && draws[1..][k] == r.value && !RoomUses(s, room, r.value)
                 && forall j :: 0 <= j < k ==> RoomUses(s, room, draws[1..][j]);
        assert draws[k + 1] == r.value;
        assert forall j :: 0 <= j < k + 1 ==> RoomUses(s, room, draws[j]) by {
          forall j | 0 <= j < k + 1 ensures RoomUses(s, room, draws[j]) {
            if j > 0 { assert draws[j] == draws[1..][j - 1]; }
          }
        }
      } else {
        forall k | 0 <= k < |draws| ensures RoomUses(s, room, draws[k]) {
          if k > 0 { assert draws[k] == draws[1..][k - 1]; }
        }
      }
    } else if draws != [] {
      assert draws[0] == FirstFreeDraw(s, room, draws).value;
    }
  }

  /** remaining_hours <= WeeklyHours - 1 (algorithm.py:81): the picked
      entry counts itself. */
  lemma RemainingBelowWeekly(s: seq<Placement>, idx: int)
    requires 0 <= idx < |s| && s[idx].Entry?
    ensures s[idx].cls.weeklyHours - CountSame(s, s[idx]) <= s[idx].cls.weeklyHours - 1
  {
    assert s[idx] in s;
  }
}
