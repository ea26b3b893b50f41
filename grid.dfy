/** The grid fill of generate_timetable (algorithm.py:200-204): one row of
    len(TIMESLOTS) cells per weekday, filled with each entry's
    "Course (ClassType)" label in schedule order, so that the last entry
    on a cell wins. */
module Grid {
  import opened Records

  /** f"{class_data['Course']} ({class_data['ClassType']})" */
  function Label(c: ClassRec): (r: string)
    ensures |r| >= 3
  {
    c.course + " (" + c.classType + ")"
  }

  /** What the fill loop needs: no sentinel (it has no Course to show) and
      a timeslot that indexes the seven-cell day row. */
  predicate Fillable(s: seq<Placement>)
  {
    forall i :: 0 <= i < |s| ==> s[i].Entry? && 0 <= s[i].timeslot < NumTimeslots
  }

  predicate At(p: Placement, day: Day, t: int)
  {
    p.Entry? && p.day == day && p.timeslot == t
  }

  /** The label cell (day, t) holds after the first n entries have been
      written: that of the last of them on the cell, or "" when none is. */
  function CellAfter(s: seq<Placement>, n: nat, day: Day, t: int): string
    requires n <= |s|
  {
    if n == 0 then ""
    else if At(s[n - 1], day, t) then Label(s[n - 1].cls)
    else CellAfter(s, n - 1, day, t)
  }

  /** A cell is empty exactly when no entry was placed on it, and otherwise
      shows the label of an entry on it after which no other entry is. */
  lemma {:induction false} CellAfterMeaning(s: seq<Placement>, n: nat, day: Day, t: int)
    requires n <= |s|
    ensures CellAfter(s, n, day, t) == "" <==> forall i :: 0 <= i < n ==> !At(s[i], day, t)
    ensures CellAfter(s, n, day, t) != "" ==>
      exists i :: 0 <= i < n && At(s[i], day, t) && CellAfter(s, n, day, t) == Label(s[i].cls)
        && forall j :: i < j < n ==> !At(s[j], day, t)
  {
    if n > 0 {
      CellAfterMeaning(s, n - 1, day, t);
      if At(s[n - 1], day, t) {
        assert |Label(s[n - 1].cls)| >= 3;
      }
    }
  }

  /** timetable_grid after the fill loop: a row of seven cells for every
      weekday, each cell as CellAfter describes it. */
  method FillGrid(schedule: seq<Placement>) returns (grid: map<Day, seq<string>>)
    requires Fillable(schedule)
    ensures forall day: Day :: day in grid && |grid[day]| == NumTimeslots
    ensures forall day: Day, t :: 0 <= t < NumTimeslots ==> grid[day][t] == CellAfter(schedule, |schedule|, day, t)
  {
    grid := map day | day in DaysOfWeek :: seq(NumTimeslots, _ => "");
    forall day: Day ensures day in grid {
      EveryDayListed(day);
    }
    for i := 0 to |schedule|
      invariant forall day: Day :: day in grid && |grid[day]| == NumTimeslots
      invariant forall day: Day, t :: 0 <= t < NumTimeslots ==> grid[day][t] == CellAfter(schedule, i, day, t)
    {
      var p := schedule[i];
      grid := grid[p.day := grid[p.day][p.timeslot := Label(p.cls)]];
    }
  }
}
