/** The per-room-per-day and per-instructor-per-day occupancy vectors of
    fitness (algorithm.py:120-172): lists of booleans indexed by timeslot,
    extended with False on demand, whose marks are never cleared. */
module Occupancy {
  import opened Records

  function Min(a: int, b: int): int { if a <= b then a else b }
  function Max(a: int, b: int): int { if a >= b then a else b }

  /** [False] * n; a non-positive n gives the empty list, as in Python. */
  function Falses(n: int): (r: seq<bool>)
    ensures |r| == Max(n, 0) && forall k :: 0 <= k < |r| ==> !r[k]
  {
    if n <= 0 then [] else seq(n, _ => false)
  }

  /** Slot k of v, reading slots beyond the end as free. */
  function At(v: seq<bool>, k: int): bool { 0 <= k < |v| && v[k] }

  /** One pass of the marking loop at slot t: grow the vector with False
      up to slot t when it is shorter (algorithm.py:144-145), then mark t. */
  function MarkSlot(w: seq<bool>, t: nat): (r: seq<bool>)
    ensures |r| == Max(|w|, t + 1)
  {
    (w + Falses(t - |w| + 1))[t := true]
  }

  /** The vector after the marking loop over [lo, hi). */
  function MarkRange(v: seq<bool>, lo: nat, hi: int): seq<bool>
    decreases hi - lo
  {
    if hi <= lo then v else MarkSlot(MarkRange(v, lo, hi - 1), hi - 1)
  }

  /** The marking loop grows the vector to hi when the range runs past its
      end, marks exactly the slots of [lo, hi), and keeps every other slot. */
  lemma {:induction false} MarkRangeFacts(v: seq<bool>, lo: nat, hi: int)
    ensures |MarkRange(v, lo, hi)| == if lo < hi then Max(|v|, hi) else |v|
    ensures forall k :: 0 <= k < |MarkRange(v, lo, hi)| ==> MarkRange(v, lo, hi)[k] == (At(v, k) || lo <= k < hi)
    decreases hi - lo
  {
    if lo < hi {
      MarkRangeFacts(v, lo, hi - 1);
    }
  }

  /** Number of slots of [lo, hi) already marked in v. */
  function CountMarked(v: seq<bool>, lo: int, hi: int): nat
    decreases hi - lo
  {
    if hi <= lo then 0 else CountMarked(v, lo, hi - 1) + (if At(v, hi - 1) then 1 else 0)
  }

  /** Number of slots of [lo, hi) already marked in v or in w. */
  function CountEither(v: seq<bool>, w: seq<bool>, lo: int, hi: int): nat
    decreases hi - lo
  {
    if hi <= lo then 0 else CountEither(v, w, lo, hi - 1) + (if At(v, hi - 1) || At(w, hi - 1) then 1 else 0)
  }

  lemma {:induction false} CountMarkedBound(v: seq<bool>, lo: int, hi: int)
    ensures CountMarked(v, lo, hi) <= Max(hi - lo, 0)
    ensures CountMarked(v, lo, hi) == 0 <==> forall k :: lo <= k < hi ==> !At(v, k)
    decreases hi - lo
  {
    if lo < hi {
      CountMarkedBound(v, lo, hi - 1);
    }
  }

  /** Constraints 1 and 2 (algorithm.py:140-148, 151-159) on one vector.
      The start slot is read with At, which agrees with v[timeslot]
      whenever the slot lies inside v, as it always does in a scan. */
  function Occupy(v: seq<bool>, timeslot: nat, hours: int): (r: (seq<bool>, nat))
  {
    if At(v, timeslot) then (v, 1)
    else
      var hi := Min(timeslot + hours, NumTimeslots);
      (MarkRange(v, timeslot, hi), CountMarked(v, timeslot, hi))
  }

  /** The room and instructor rule: a booking whose start slot is taken
      costs exactly 1 and marks nothing; otherwise every slot of
      [timeslot, min(timeslot + hours, 7)) costs 1 if it was already marked
      and is marked afterwards, and no other slot changes. */
  lemma OccupyRule(v: seq<bool>, timeslot: nat, hours: int)
    requires timeslot < |v|
    ensures v[timeslot] ==> Occupy(v, timeslot, hours) == (v, 1)
    ensures !v[timeslot] ==>
      var r := Occupy(v, timeslot, hours);
      var hi := Min(timeslot + hours, NumTimeslots);
      && |r.0| == Max(|v|, hi)
      && (forall k :: 0 <= k < |r.0| ==> r.0[k] == (At(v, k) || timeslot <= k < hi))
      && r.1 == CountMarked(v, timeslot, hi)
  {
    MarkRangeFacts(v, timeslot, Min(timeslot + hours, NumTimeslots));
  }

  /** Constraints 1 and 2 always leave the start slot booked: either it
      was already marked, or the booking loop marks it. */
  lemma OccupyMarksStart(v: seq<bool>, timeslot: nat, hours: int)
    requires 0 < hours && timeslot < NumTimeslots
    ensures At(Occupy(v, timeslot, hours).0, timeslot)
  {
    if !At(v, timeslot) {
      MarkRangeFacts(v, timeslot, Min(timeslot + hours, NumTimeslots));
    }
  }

  /** A slot of [lo, hi) marked in either vector is counted. */
  lemma {:induction false} CountEitherHit(v: seq<bool>, w: seq<bool>, lo: int, hi: int, k: int)
    requires lo <= k < hi && (At(v, k) || At(w, k))
    ensures CountEither(v, w, lo, hi) >= 1
    decreases hi - lo
  {
    if k < hi - 1 {
      CountEitherHit(v, w, lo, hi - 1, k);
    }
  }

  /** Marks are never cleared, whatever the start slot. */
  lemma OccupyKeeps(v: seq<bool>, timeslot: nat, hours: int)
    ensures |Occupy(v, timeslot, hours).0| >= |v|
    ensures forall k :: 0 <= k < |v| && v[k] ==> Occupy(v, timeslot, hours).0[k]
  {
    MarkRangeFacts(v, timeslot, Min(timeslot + hours, NumTimeslots));
  }

  /** Whether a lab breaks the lab policy: more than MAX_LAB_HOURS hours, or
      a block that runs past the last timeslot. */
  predicate LabOverrun(timeslot: int, hours: int)
  {
    hours > MaxLabHours || timeslot + hours > NumTimeslots
  }

  /** Constraint 3 (algorithm.py:162-172) for a lab. */
  function LabBlock(rv: seq<bool>, iv: seq<bool>, timeslot: nat, hours: int): (r: (seq<bool>, seq<bool>, nat))
  {
    var hi := timeslot + hours;
    (MarkRange(rv, timeslot, hi), MarkRange(iv, timeslot, hi),
     (if LabOverrun(timeslot, hours) then 2 else 0) + CountEither(rv, iv, timeslot, hi))
  }

  /** The lab rule: 2 for a policy breach, plus 1 for every slot of
      [timeslot, timeslot + hours) already marked in the room vector or the
      instructor vector; both vectors grow to cover the block, end with
      every block slot marked, and keep every other slot as it was. */
  lemma LabRule(rv: seq<bool>, iv: seq<bool>, timeslot: nat, hours: int)
    ensures
      var r := LabBlock(rv, iv, timeslot, hours);
      && r.2 == (if LabOverrun(timeslot, hours) then 2 else 0) + CountEither(rv, iv, timeslot, timeslot + hours)
      && |r.0| >= |rv| && |r.1| >= |iv|
      && (hours > 0 ==> |r.0| >= timeslot + hours && |r.1| >= timeslot + hours)
      && (forall k :: timeslot <= k < timeslot + hours ==> r.0[k] && r.1[k])
      && (forall k :: 0 <= k < |r.0| && !(timeslot <= k < timeslot + hours) ==> r.0[k] == At(rv, k))
      && (forall k :: 0 <= k < |r.1| && !(timeslot <= k < timeslot + hours) ==> r.1[k] == At(iv, k))
  {
    MarkRangeFacts(rv, timeslot, timeslot + hours);
    MarkRangeFacts(iv, timeslot, timeslot + hours);
  }

  /** The loop of algorithm.py:143-148 (and 154-159): marks [lo, hi),
      growing the vector when a slot lies past its end, and counts the
      slots found already marked. */
  method MarkSlots(v: seq<bool>, lo: nat, hi: int) returns (w: seq<bool>, penalty: nat)
    ensures w == MarkRange(v, lo, hi) && penalty == CountMarked(v, lo, hi)
  {
    w := v;
    penalty := 0;
    var t := lo;
    while t < hi
      invariant t == lo || lo < t <= hi
      invariant w == MarkRange(v, lo, t)
      invariant penalty == CountMarked(v, lo, t)
    {
      MarkRangeFacts(v, lo, t);
      ghost var before := w;
      if t >= |w| {
        w := w + Falses(t - |w| + 1);
      } else {
        assert w + Falses(t - |w| + 1) == w;
      }
      if w[t] {
        penalty := penalty + 1;
      }
      w := w[t := true];
      assert w == MarkSlot(before, t);
      t := t + 1;
    }
  }

  /** Constraint 1 or 2 as written: the start-slot test, then the marking loop. */
  method OccupySlots(v: seq<bool>, timeslot: nat, hours: int) returns (w: seq<bool>, penalty: nat)
    requires timeslot < |v|
    ensures (w, penalty) == Occupy(v, timeslot, hours)
  {
    if v[timeslot] {
      w, penalty := v, 1;
    } else {
      w, penalty := MarkSlots(v, timeslot, Min(timeslot + hours, NumTimeslots));
    }
  }

  /** One pass of the lab loop on one vector booked over [lo, t): after
      growing (always needed when t lies past its end), slot t reads as in
      the original vector, and marking it books [lo, t + 1). */
  lemma LabSlotStep(v: seq<bool>, lo: nat, t: nat, grow: bool)
    requires lo <= t
    ensures
      var w := MarkRange(v, lo, t);
      var g := if grow then w + Falses(t - |w| + 1) else w;
      (grow || t < |w|) ==> t < |g| && g[t] == At(v, t) && g[t := true] == MarkRange(v, lo, t + 1)
  {
    var w := MarkRange(v, lo, t);
    MarkRangeFacts(v, lo, t);
    if t < |w| {
      assert w + Falses(t - |w| + 1) == w;
    }
  }

  /** The loop of algorithm.py:165-172: both vectors are grown together,
      each slot costs 1 if taken in either, and is marked in both. */
  method MarkLab(rv: seq<bool>, iv: seq<bool>, timeslot: nat, hours: int) returns (rw: seq<bool>, iw: seq<bool>, penalty: nat)
    ensures (rw, iw, penalty) == LabBlock(rv, iv, timeslot, hours)
  {
    rw, iw := rv, iv;
    penalty := if LabOverrun(timeslot, hours) then 2 else 0;
    var t := timeslot;
    var hi := timeslot + hours;
    while t < hi
      invariant t == timeslot || timeslot < t <= hi
      invariant rw == MarkRange(rv, timeslot, t) && iw == MarkRange(iv, timeslot, t)
      invariant penalty == (if LabOverrun(timeslot, hours) then 2 else 0) + CountEither(rv, iv, timeslot, t)
    {
      var grow := t >= |rw| || t >= |iw|;
      LabSlotStep(rv, timeslot, t, grow);
      LabSlotStep(iv, timeslot, t, grow);
      if grow {
        rw := rw + Falses(t - |rw| + 1);
        iw := iw + Falses(t - |iw| + 1);
      }
      if rw[t] || iw[t] {
        penalty := penalty + 1;
      }
      rw := rw[t := true];
      iw := iw[t := true];
      t := t + 1;
    }
  }
}
