/**
 * Time slots and conflicts. A component becomes a (day index, start minute,
 * end minute) triple: the day index comes from the fixed Monday-first day
 * map and the minutes are the stored seconds-since-midnight timestamps
 * divided by 60, rounded down. Two slots conflict when they are on the same
 * day and their half-open intervals overlap, so touching slots do not.
 */
module TimeSlots {
  import opened Models

  /** (day index, start minute, end minute). */
  type TimeTuple = (int, int, int)

  /** The day map: MO is 0, ..., SU is 6. */
  function DayIndex(d: Day): (i: nat)
    ensures i <= 6
  {
    match d
    case Mo => 0
    case Tu => 1
    case We => 2
    case Th => 3
    case Fr => 4
    case Sa => 5
    case Su => 6
  }

  /** The day map is one-to-one onto 0..6. */
  lemma DayIndexIsBijective(i: nat)
    requires i <= 6
    ensures exists d :: DayIndex(d) == i
    ensures forall d1, d2 :: DayIndex(d1) == DayIndex(d2) ==> d1 == d2
  {
    var days := [Mo, Tu, We, Th, Fr, Sa, Su];
    assert DayIndex(days[i]) == i;
  }

  /**
   * The slot of a component. Python's `//` rounds down, as Dafny's `/` does
   * for a positive divisor, so the minute is the whole minute that contains
   * the timestamp.
   */
  function ComponentToTimeTuple(c: Component): (t: TimeTuple)
    ensures t.0 == DayIndex(c.day)
    ensures t.1 * 60 <= c.startTimestamp < t.1 * 60 + 60
    ensures t.2 * 60 <= c.endTimestamp < t.2 * 60 + 60
  {
    (DayIndex(c.day), c.startTimestamp / 60, c.endTimestamp / 60)
  }

  /**
   * Neither slot ends before the other starts. For slots that start before
   * they end this means that, on the same day, the later start comes before
   * the earlier end: the two intervals intersect.
   */
  predicate TimesConflict(t1: TimeTuple, t2: TimeTuple): (c: bool)
    ensures c ==> t1.0 == t2.0
    ensures t1.1 < t1.2 && t2.1 < t2.2 ==> (c <==> t1.0 == t2.0 && Max(t1.1, t2.1) < Min(t1.2, t2.2))
  {
    t1.0 == t2.0 && !(t1.2 <= t2.1 || t2.2 <= t1.1)
  }

  function Max(a: int, b: int): int {
    if a < b then b else a
  }

  function Min(a: int, b: int): int {
    if a < b then a else b
  }

  /**
   * The conflict relation is symmetric, never relates different days, and
   * never relates slots that only touch at an end point.
   */
  lemma ConflictBasics(t1: TimeTuple, t2: TimeTuple)
    ensures TimesConflict(t1, t2) <==> TimesConflict(t2, t1)
    ensures t1.0 != t2.0 ==> !TimesConflict(t1, t2)
    ensures t1.2 == t2.1 || t2.2 == t1.1 ==> !TimesConflict(t1, t2)
  {
  }

  /** Minute `m` lies in the half-open interval of slot `t`. */
  predicate Covers(t: TimeTuple, m: int) {
    t.1 <= m < t.2
  }

  /**
   * For non-empty slots, a conflict is exactly a shared minute on the same
   * day: overlapping same-day slots always conflict.
   */
  lemma ConflictIffSharedMinute(t1: TimeTuple, t2: TimeTuple)
    requires t1.1 < t1.2 && t2.1 < t2.2
    ensures TimesConflict(t1, t2)
        <==> t1.0 == t2.0 && exists m :: Covers(t1, m) && Covers(t2, m)
  {
    if t1.0 == t2.0 && !(t1.2 <= t2.1 || t2.2 <= t1.1) {
      var m := if t1.1 < t2.1 then t2.1 else t1.1;
      assert Covers(t1, m) && Covers(t2, m);
    }
  }

  /**
   * A zero-length slot strictly inside another slot of the same day covers
   * no minute, yet it conflicts with that slot.
   */
  lemma EmptySlotInsideConflicts(t: TimeTuple, p: int)
    requires t.1 < p < t.2
    ensures TimesConflict((t.0, p, p), t)
    ensures !exists m :: Covers((t.0, p, p), m)
  {
  }

  /** Components meeting on different days never conflict. */
  lemma ComponentsOnDifferentDaysNeverConflict(c1: Component, c2: Component)
    requires c1.day != c2.day
    ensures !TimesConflict(ComponentToTimeTuple(c1), ComponentToTimeTuple(c2))
  {
    DayIndexIsBijective(0);
  }

  /**
   * Some two positions i < j of the list hold conflicting slots. As the
   * relation is symmetric, the order of the pair does not matter, and a list
   * of fewer than two slots has no conflict.
   */
  predicate AnyConflict(times: seq<TimeTuple>): (r: bool)
    ensures r <==> exists i, j :: 0 <= i < |times| && 0 <= j < |times| && i != j
                                  && TimesConflict(times[i], times[j])
    ensures |times| < 2 ==> !r
  {
    exists i, j :: 0 <= i < j < |times| && TimesConflict(times[i], times[j])
  }

  /** The pairwise conflict scan, stopping at the first conflict found. */
  method HasConflict(times: seq<TimeTuple>) returns (conflict: bool)
    ensures conflict <==> AnyConflict(times)
  {
    conflict := false;
    var i := 0;
    while i < |times|
      invariant 0 <= i <= |times|
      invariant !conflict
      invariant forall a, b :: 0 <= a < i && a < b < |times| ==> !TimesConflict(times[a], times[b])
    {
      var j := i + 1;
      while j < |times|
        invariant i + 1 <= j <= |times|
        invariant !conflict
        invariant forall b :: i < b < j ==> !TimesConflict(times[i], times[b])
      {
        if TimesConflict(times[i], times[j]) {
          conflict := true;
          break;
        }
        j := j + 1;
      }
      if conflict {
        break;
      }
      i := i + 1;
    }
  }
}
