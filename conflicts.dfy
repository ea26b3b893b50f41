/** The conflict count of fitness_function (timetable.py:65-87): a double
    loop over the timetable's items that counts ordered pairs of distinct
    cells on the same day, in different slots, holding the same course id
    found in the course list. */
module Conflicts {
  import opened Wrappers
  import opened DictGrid

  /** next((course for course in courses if course[0] == cell), None): the
      first course whose id equals the cell. A cell holding a whole row
      never equals an id, and None is never looked up. */
  function FindCourse(courses: seq<CourseRow>, cell: Cell): (r: Option<CourseRow>)
    ensures r.Some? <==> cell.Id? && exists c :: c in courses && c.id == cell.id
    ensures r.Some? ==> r.value in courses && r.value.id == cell.id
  {
    if courses == [] || !cell.Id? then None
    else if courses[0].id == cell.id then Some(courses[0])
    else FindCourse(courses[1..], cell)
  }

  /** The test of timetable.py:75-82 for the pair (slot1, slot2). */
  predicate Conflicting(t: Timetable, courses: seq<CourseRow>, slot1: Key, slot2: Key)
    requires slot1 in t && slot2 in t
  {
    var course1, course2 := FindCourse(courses, t[slot1]), FindCourse(courses, t[slot2]);
    && slot1 != slot2 && t[slot1] != Vacant && t[slot2] != Vacant
    && course1.Some? && course2.Some?
    && course1.value.id == course2.value.id && slot1.0 == slot2.0 && slot1.1 != slot2.1
  }

  /** The conflicting pairs are the ordered pairs of cells on one day, in
      different slots, holding one course id that the course list knows;
      None cells and whole rows never take part. */
  lemma ConflictingMeaning(t: Timetable, courses: seq<CourseRow>, slot1: Key, slot2: Key)
    requires slot1 in t && slot2 in t
    ensures Conflicting(t, courses, slot1, slot2) <==>
      && slot1.0 == slot2.0 && slot1.1 != slot2.1
      && t[slot1].Id? && t[slot2].Id? && t[slot1].id == t[slot2].id
      && exists c :: c in courses && c.id == t[slot1].id
  {
  }

  /** The pairs the double loop counts. */
  function ConflictPairs(t: Timetable, courses: seq<CourseRow>): set<(Key, Key)>
  {
    set slot1, slot2 | slot1 in t && slot2 in t && Conflicting(t, courses, slot1, slot2) :: (slot1, slot2)
  }

  predicate Distinct(items: seq<Key>)
  {
    forall a, b :: 0 <= a < b < |items| ==> items[a] != items[b]
  }

  lemma AddIf<T>(s: set<T>, x: T, b: bool)
    requires x !in s
    ensures |s + if b then {x} else {}| == |s| + if b then 1 else 0
  {
  }

  lemma DisjointUnion<T>(s: set<T>, u: set<T>)
    requires s * u == {}
    ensures |s + u| == |s| + |u|
  {
  }

  /** The pairs the inner loop has counted for the outer item items[i]
      among the first j items. */
  ghost function RowPairs(t: Timetable, courses: seq<CourseRow>, items: seq<Key>, i: nat, j: nat): set<(Key, Key)>
    requires forall a :: 0 <= a < |items| ==> items[a] in t
    requires i < |items| && j <= |items|
  {
    if j == 0 then {}
    else
      var last := if Conflicting(t, courses, items[i], items[j - 1]) then {(items[i], items[j - 1])} else {};
      RowPairs(t, courses, items, i, j - 1) + last
  }

  /** The pairs the double loop has counted for the first i outer items. */
  ghost function PairsBefore(t: Timetable, courses: seq<CourseRow>, items: seq<Key>, i: nat): set<(Key, Key)>
    requires forall a :: 0 <= a < |items| ==> items[a] in t
    requires i <= |items|
  {
    if i == 0 then {}
    else PairsBefore(t, courses, items, i - 1) + RowPairs(t, courses, items, i - 1, |items|)
  }

  lemma {:induction false} RowPairsMembers(t: Timetable, courses: seq<CourseRow>, items: seq<Key>, i: nat, j: nat)
    requires forall a :: 0 <= a < |items| ==> items[a] in t
    requires i < |items| && j <= |items|
    ensures forall p :: p in RowPairs(t, courses, items, i, j) <==>
      exists b :: 0 <= b < j && p == (items[i], items[b]) && Conflicting(t, courses, items[i], items[b])
  {
    if j > 0 {
      RowPairsMembers(t, courses, items, i, j - 1);
    }
  }

  /** A row's pairs start with its outer item and end with an item the
      inner loop has passed. */
  lemma {:induction false} RowPairsShape(t: Timetable, courses: seq<CourseRow>, items: seq<Key>, i: nat, j: nat)
    requires forall a :: 0 <= a < |items| ==> items[a] in t
    requires i < |items| && j <= |items|
    ensures forall p :: p in RowPairs(t, courses, items, i, j) ==> p.0 == items[i] && exists b :: 0 <= b < j && p.1 == items[b]
  {
    if j > 0 {
      RowPairsShape(t, courses, items, i, j - 1);
    }
  }

  /** One more pair examined by the inner loop adds one pair exactly when
      it conflicts: the items are distinct, so that pair is new. */
  lemma RowPairsStep(t: Timetable, courses: seq<CourseRow>, items: seq<Key>, i: nat, j: nat)
    requires forall a :: 0 <= a < |items| ==> items[a] in t
    requires Distinct(items) && i < |items| && j < |items|
    ensures |RowPairs(t, courses, items, i, j + 1)| ==
      |RowPairs(t, courses, items, i, j)| + if Conflicting(t, courses, items[i], items[j]) then 1 else 0
  {
    var p, prev := (items[i], items[j]), RowPairs(t, courses, items, i, j);
    assert p !in prev by {
      RowPairsShape(t, courses, items, i, j);
      forall b | 0 <= b < j ensures items[b] != p.1 {
        assert items[b] != items[j];
      }
    }
    AddIf(prev, p, Conflicting(t, courses, items[i], items[j]));
  }

  lemma {:induction false} PairsBeforeMembers(t: Timetable, courses: seq<CourseRow>, items: seq<Key>, i: nat)
    requires forall a :: 0 <= a < |items| ==> items[a] in t
    requires i <= |items|
    ensures forall p :: p in PairsBefore(t, courses, items, i) <==>
      exists a, b :: 0 <= a < i && 0 <= b < |items| && p == (items[a], items[b]) && Conflicting(t, courses, items[a], items[b])
  {
    if i > 0 {
      PairsBeforeMembers(t, courses, items, i - 1);
      RowPairsMembers(t, courses, items, i - 1, |items|);
    }
  }

  /** The pairs counted so far start with an outer item already passed. */
  lemma {:induction false} PairsBeforeShape(t: Timetable, courses: seq<CourseRow>, items: seq<Key>, i: nat)
    requires forall a :: 0 <= a < |items| ==> items[a] in t
    requires i <= |items|
    ensures forall p :: p in PairsBefore(t, courses, items, i) ==> exists a :: 0 <= a < i && p.0 == items[a]
  {
    if i > 0 {
      PairsBeforeShape(t, courses, items, i - 1);
      RowPairsShape(t, courses, items, i - 1, |items|);
    }
  }

  /** A finished row shares no pair with the rows before it, since their
      first components are distinct items, so their sizes add up. */
  lemma RowsDisjoint(t: Timetable, courses: seq<CourseRow>, items: seq<Key>, i: nat)
    requires forall a :: 0 <= a < |items| ==> items[a] in t
    requires Distinct(items) && i < |items|
    ensures |PairsBefore(t, courses, items, i + 1)| ==
      |PairsBefore(t, courses, items, i)| + |RowPairs(t, courses, items, i, |items|)|
  {
    var before, row := PairsBefore(t, courses, items, i), RowPairs(t, courses, items, i, |items|);
    PairsBeforeShape(t, courses, items, i);
    RowPairsShape(t, courses, items, i, |items|);
    forall p | p in row ensures p !in before {
      forall a | 0 <= a < i ensures p.0 != items[a] {
        assert items[a] != items[i];
      }
    }
    DisjointUnion(before, row);
  }

  /** Once every item has been the outer one, the pairs counted are all the
      conflicting pairs of the timetable. */
  lemma PairsBeforeAll(t: Timetable, courses: seq<CourseRow>, items: seq<Key>)
    requires forall a :: 0 <= a < |items| ==> items[a] in t
    requires forall k :: k in t ==> k in items
    ensures PairsBefore(t, courses, items, |items|) == ConflictPairs(t, courses)
  {
    PairsBeforeMembers(t, courses, items, |items|);
    forall p | p in ConflictPairs(t, courses) ensures p in PairsBefore(t, courses, items, |items|) {
      var slot1, slot2 :| slot1 in t && slot2 in t && Conflicting(t, courses, slot1, slot2) && p == (slot1, slot2);
      var a :| 0 <= a < |items| && items[a] == slot1;
      var b :| 0 <= b < |items| && items[b] == slot2;
    }
  }

  /** The inner loop of timetable.py:74-82 for the outer item items[i]:
      it adds the size of the row's pair set to the count. */
  method CountRow(timetable: Timetable, courses: seq<CourseRow>, items: seq<Key>, i: nat, conflicts0: nat)
    returns (conflicts: nat)
    requires Distinct(items) && i < |items|
    requires forall a :: 0 <= a < |items| ==> items[a] in timetable
    ensures conflicts == conflicts0 + |RowPairs(timetable, courses, items, i, |items|)|
  {
    conflicts := conflicts0;
    var slot1 := items[i];
    for j := 0 to |items|
      invariant conflicts == conflicts0 + |RowPairs(timetable, courses, items, i, j)|
    {
      RowPairsStep(timetable, courses, items, i, j);
      var slot2 := items[j];
      var courseId1, courseId2 := timetable[slot1], timetable[slot2];
      if slot1 != slot2 && courseId1 != Vacant && courseId2 != Vacant {
        var course1 := FindCourse(courses, courseId1);
        var course2 := FindCourse(courses, courseId2);
        if course1.Some? && course2.Some? {
          if course1.value.id == course2.value.id && slot1.0 == slot2.0 && slot1.1 != slot2.1 {
            conflicts := conflicts + 1;
          }
        }
      }
    }
  }

  /** The double loop of timetable.py:72-83 over the dictionary's items in
      their iteration order: it counts exactly the conflicting pairs, so the
      count does not depend on that order. */
  method CountConflicts(timetable: Timetable, courses: seq<CourseRow>, items: seq<Key>) returns (conflicts: nat)
    requires Distinct(items)
    requires forall a :: 0 <= a < |items| ==> items[a] in timetable
    requires forall k :: k in timetable ==> k in items
    ensures conflicts == |ConflictPairs(timetable, courses)|
  {
    conflicts := 0;
    for i := 0 to |items|
      invariant conflicts == |PairsBefore(timetable, courses, items, i)|
    {
      conflicts := CountRow(timetable, courses, items, i, conflicts);
      RowsDisjoint(timetable, courses, items, i);
    }
    PairsBeforeAll(timetable, courses, items);
  }

  /** A conflict read the other way round is a conflict too, and never
      pairs a cell with itself. */
  lemma ConflictsSymmetric(t: Timetable, courses: seq<CourseRow>, p: (Key, Key))
    requires p in ConflictPairs(t, courses)
    ensures (p.1, p.0) in ConflictPairs(t, courses) && p.0 != p.1
  {
    assert Conflicting(t, courses, p.1, p.0);
  }

  /** A finite set of pairs closed under swapping, with no pair of equal
      halves, has an even number of elements. */
  lemma {:induction false} SwapClosedIsEven(s: set<(Key, Key)>)
    requires forall a, b :: (a, b) in s ==> (b, a) in s && a != b
    ensures |s| % 2 == 0
    decreases |s|
  {
    if s != {} {
      var p :| p in s;
      assert p == (p.0, p.1);
      var q := (p.1, p.0);
      assert q in s && p != q;
      var pair := {p, q};
      assert |pair| == 2;
      var rest := s - pair;
      assert |rest| == |s| - |pair|;
      forall a, b | (a, b) in rest ensures (b, a) in rest && a != b {
        assert (a, b) != p && (a, b) != q;
      }
      SwapClosedIsEven(rest);
    }
  }

  /** Every conflict is counted once from each side, so the count is even. */
  lemma ConflictCountEven(t: Timetable, courses: seq<CourseRow>)
    ensures |ConflictPairs(t, courses)| % 2 == 0
  {
    forall a, b | (a, b) in ConflictPairs(t, courses) ensures (b, a) in ConflictPairs(t, courses) && a != b {
      ConflictsSymmetric(t, courses, (a, b));
    }
    SwapClosedIsEven(ConflictPairs(t, courses));
  }

  /** 1 / (1 + conflicts), as an exact rational: in (0, 1], and 1 exactly
      when there is no conflict. */
  function FitnessScore(conflicts: nat): (r: real)
    ensures 0.0 < r <= 1.0
    ensures r == 1.0 <==> conflicts == 0
  {
    1.0 / (1.0 + conflicts as real)
  }

  /** Of two positive reals, the larger has the smaller reciprocal. */
  lemma ReciprocalDecreasing(x: real, y: real)
    requires 0.0 < x < y
    ensures 1.0 / y < 1.0 / x
  {
    var p, q := 1.0 / x, 1.0 / y;
    assert p * x == 1.0 && q * y == 1.0;
    assert 0.0 < q;
    assert 0.0 < q * (y - x);
    assert q * y - q * x == q * (y - x);
    assert p * x - q * x == (p - q) * x;
    assert 0.0 < (p - q) * x;
    assert 0.0 < p - q;
  }

  /** More conflicts give a strictly lower score. */
  lemma FitnessScoreDecreasing(c1: nat, c2: nat)
    requires c1 < c2
    ensures FitnessScore(c2) < FitnessScore(c1)
  {
    ReciprocalDecreasing(1.0 + c1 as real, 1.0 + c2 as real);
  }

  /** fitness_function (timetable.py:65-87) with the course list and the
      dictionary's iteration order as parameters. */
  method FitnessFunction(timetable: Timetable, courses: seq<CourseRow>, items: seq<Key>) returns (fitnessScore: real)
    requires Distinct(items)
    requires forall a :: 0 <= a < |items| ==> items[a] in timetable
    requires forall k :: k in timetable ==> k in items
    ensures fitnessScore == FitnessScore(|ConflictPairs(timetable, courses)|)
    ensures fitnessScore == 1.0 <==> ConflictPairs(timetable, courses) == {}
  {
    var conflicts := CountConflicts(timetable, courses, items);
    fitnessScore := 1.0 / (1.0 + conflicts as real);
  }
}
