/** Requested capacity ranges and the whole GiB that get provisioned. */
module Capacity {
  import opened Wrappers

  const KIB: int := 1024
  const MIB: int := 1024 * KIB
  const GIB: int := 1024 * MIB
  const TIB: int := 1024 * GIB
  const MINIMUM_SIZE: int := 1 * GIB
  const MAXIMUM_SIZE: int := 16 * TIB
  const DEFAULT_SIZE: int := 16 * GIB
  /** The largest volume in GiB. */
  const MAXIMUM_GIB: int := 16384

  newtype int64 = x: int | -0x8000_0000_0000_0000 <= x < 0x8000_0000_0000_0000

  predicate FitsInt64(x: int) { -0x8000_0000_0000_0000 <= x < 0x8000_0000_0000_0000 }

  datatype CapacityRange = CapacityRange(required: int64, limit: int64)

  /** getStorageSizeFromCapacityRange, in bytes. Bounds that are not positive are not set. */
  function SizeOf(range: Option<CapacityRange>): Result<int>
  {
    if range.None? then Ok(DEFAULT_SIZE)
    else
      var required, limit := range.value.required as int, range.value.limit as int;
      var requiredSet, limitSet := 0 < required, 0 < limit;
      if !requiredSet && !limitSet then Ok(DEFAULT_SIZE)
      else if requiredSet && limitSet && limit < required then Err(OutOfRange)
      else if requiredSet && !limitSet && required < MINIMUM_SIZE then Ok(MINIMUM_SIZE)
      else if limitSet && limit < MINIMUM_SIZE then Err(OutOfRange)
      else if requiredSet && required > MAXIMUM_SIZE then Err(OutOfRange)
      else if !requiredSet && limitSet && limit > MAXIMUM_SIZE then Err(OutOfRange)
      else if requiredSet && limitSet && required == limit then Ok(required)
      else if requiredSet then Ok(required)
      else if limitSet then Ok(limit)
      else Ok(DEFAULT_SIZE)
  }

  predicate Unset(range: Option<CapacityRange>) {
    range.None? || (range.value.required <= 0 && range.value.limit <= 0)
  }

  /** A size that meets the bounds of the range that are set, and the maximum. */
  predicate Admits(range: Option<CapacityRange>, size: int) {
    && (range.Some? && 0 < range.value.required ==> range.value.required as int <= size)
    && (range.Some? && 0 < range.value.limit ==> size <= range.value.limit as int)
    && size <= MAXIMUM_SIZE
  }

  /** The minimum volume size is not enforced on a requirement that comes with a limit. */
  predicate SmallWithLimit(range: Option<CapacityRange>) {
    range.Some? && 0 < range.value.required && 0 < range.value.limit
    && (range.value.required as int) < MINIMUM_SIZE
  }

  /** The result is the least size the volume can have within the range, except that a lone
      limit is taken as the size, that no bounds mean the default, and that a small requirement
      with a limit is granted below the minimum: one byte is, if at most 1 GiB is asked for. */
  lemma SizeMeetsRange(range: Option<CapacityRange>, size: int)
    requires SizeOf(range) == Ok(size)
    ensures Admits(range, size) && 0 < size
    ensures size < MINIMUM_SIZE <==> SmallWithLimit(range)
    ensures Unset(range) ==> size == DEFAULT_SIZE
    ensures !Unset(range) && range.value.required <= 0 ==> size == range.value.limit as int
    ensures !Unset(range) && 0 < range.value.required ==>
              forall other :: Admits(range, other) && (MINIMUM_SIZE <= other || SmallWithLimit(range)) ==> size <= other
    ensures SizeOf(Some(CapacityRange(1, 1_073_741_824))) == Ok(1) && 1 < MINIMUM_SIZE
  {
  }

  /** The call fails exactly when no size of at least the minimum fits, with one gap on each
      side: a lone limit above the maximum is refused although smaller sizes would fit. */
  lemma SizeFailsIff(range: Option<CapacityRange>)
    ensures SizeOf(range).Err? <==>
              !Unset(range) &&
              ((forall size :: MINIMUM_SIZE <= size ==> !Admits(range, size))
               || (range.value.required <= 0 && range.value.limit as int > MAXIMUM_SIZE))
    ensures SizeOf(range).Err? ==> SizeOf(range) == Err(OutOfRange)
  {
    if !Unset(range) {
      var required, limit := range.value.required as int, range.value.limit as int;
      var least := if required < MINIMUM_SIZE then MINIMUM_SIZE else required;
      assert Admits(range, least) || forall size :: MINIMUM_SIZE <= size ==> !Admits(range, size);
    }
  }

  /** The numbers: 16 GiB by default, 1 GiB at least without a limit, and 16 TiB, which is granted,
      at most. */
  lemma Limits(range: Option<CapacityRange>)
    ensures SizeOf(None) == Ok(17_179_869_184)
    ensures SizeOf(Some(CapacityRange(1, 0))) == Ok(1_073_741_824)
    ensures SizeOf(range).Ok? ==> 0 < SizeOf(range).value <= 17_592_186_044_416
    ensures SizeOf(Some(CapacityRange(17_592_186_044_416, 0))) == Ok(17_592_186_044_416)
    ensures SizeOf(Some(CapacityRange(0, 17_592_186_044_416))) == Ok(17_592_186_044_416)
    ensures SizeOf(Some(CapacityRange(17_592_186_044_417, 0))) == Err(OutOfRange)
  {
    assert MAXIMUM_SIZE == 17_592_186_044_416 && DEFAULT_SIZE == 17_179_869_184 && MINIMUM_SIZE == 1_073_741_824;
  }

  /** Sizes are provisioned in whole GiB, rounded down: less than one GiB is lost, nothing
      exactly on multiples; and the way back does not overflow an int64. */
  lemma FloorToGib(range: Option<CapacityRange>, size: int)
    requires SizeOf(range) == Ok(size)
    ensures var gib := size / GIB;
            0 <= gib <= MAXIMUM_GIB && FitsInt64(gib * GIB)
            && size - GIB < gib * GIB <= size
            && (gib * GIB == size <==> size % GIB == 0)
            && (gib == 0 <==> SmallWithLimit(range))
  {
    SizeMeetsRange(range, size);
  }

  /** The provisioned volume reaches the required bytes exactly when they are a whole number of
      GiB, or less than one GiB without a limit; 1.5 GiB is one of the requirements undercut. */
  lemma FloorMeetsRequirementIff(range: Option<CapacityRange>, size: int)
    requires SizeOf(range) == Ok(size) && range.Some? && 0 < range.value.required
    ensures range.value.required as int <= (size / GIB) * GIB <==>
              range.value.required as int % GIB == 0 || (range.value.required as int < GIB && range.value.limit <= 0)
    ensures SizeOf(Some(CapacityRange(1_610_612_736, 0))) == Ok(1_610_612_736)
            && (1_610_612_736 / GIB) * GIB < 1_610_612_736
  {
    SizeMeetsRange(range, size);
  }

  /** What int64 multiplication makes of a product. */
  function Wrap64(x: int): (r: int)
    ensures FitsInt64(r)
    ensures FitsInt64(x) ==> r == x
  {
    (x + 0x8000_0000_0000_0000) % 0x1_0000_0000_0000_0000 - 0x8000_0000_0000_0000
  }

  /** A volume's size in bytes, as the driver computes it from the GiB the API stores. */
  function BytesOf(gib: int): int { Wrap64(gib * GIB) }
}
