/** The @IntegerRange annotation: inclusive bounds, given as longs, on the value of
    an integral configuration entry. */
module IntegerRangeAnnotation {
  import opened Wrappers
  import opened JavaLang

  /** The value `min()` takes when the annotation does not set it. */
  const DEFAULT_MIN: Int64 := 0

  /** The value `max()` takes when the annotation does not set it (Long.MAX_VALUE). */
  const DEFAULT_MAX: Int64 := LONG_MAX

  datatype IntegerRange = IntegerRange(min: Int64, max: Int64)

  /** The annotation as written on a method: each element that is left out takes
      its default. */
  function Declare(min: Option<Int64>, max: Option<Int64>): (r: IntegerRange)
    ensures min.None? ==> r.min == 0
    ensures max.None? ==> r.max == LONG_MAX
    ensures min.Some? ==> r.min == min.value
    ensures max.Some? ==> r.max == max.value
  {
    IntegerRange(if min.Some? then min.value else DEFAULT_MIN,
                 if max.Some? then max.value else DEFAULT_MAX)
  }

  /** Both bounds are inclusive. */
  predicate Admits(r: IntegerRange, asLong: int)
  {
    r.min <= asLong <= r.max
  }

  /** Both bounds themselves are admitted whenever the range is not empty. */
  lemma BoundsInclusive(r: IntegerRange)
    requires r.min <= r.max
    ensures Admits(r, r.min) && Admits(r, r.max)
    ensures !Admits(r, r.min - 1) && !Admits(r, r.max + 1)
  {
  }

  /** With only `max` given, the default minimum of 0 rejects every negative value. */
  lemma OnlyMaxRejectsNegatives(max: Int64, v: int)
    requires v < 0
    ensures !Admits(Declare(None, Some(max)), v)
  {
  }

  /** A bare @IntegerRange admits exactly the non-negative longs. */
  lemma BareAnnotationAdmitsNonNegativeLongs(v: Int64)
    ensures Admits(Declare(None, None), v) <==> v >= 0
  {
  }
}
