/** Byte and GiB conversions of pkg/util/util.go over Go's wrapping int32 and int64. */
module Sizes {

  import opened Base

  const GIB: int := 0x4000_0000
  const MAX_INT32: int := 0x7fff_ffff
  const MAX_INT64: int := 0x7fff_ffff_ffff_ffff

  type Int32 = x: int | -0x8000_0000 <= x <= 0x7fff_ffff
  type Int64 = x: int | -0x8000_0000_0000_0000 <= x <= 0x7fff_ffff_ffff_ffff

  /** Two's complement truncation to 32 bits. */
  function Wrap32(x: int): Int32 {
    (x + 0x8000_0000) % 0x1_0000_0000 - 0x8000_0000
  }

  /** Two's complement truncation to 64 bits. */
  function Wrap64(x: int): Int64 {
    (x + 0x8000_0000_0000_0000) % 0x1_0000_0000_0000_0000 - 0x8000_0000_0000_0000
  }

  /** Go's integer division, which truncates toward zero. */
  function TruncDiv(x: int, y: int): int
    requires y > 0
  {
    if x >= 0 then x / y else -((-x) / y)
  }

  /** The number of GiB that `roundUpSize(bytes, GiB)` computes, wrap-around included. */
  function RoundUpToGiBs(bytes: Int64): Int64 {
    Wrap64(TruncDiv(Wrap64(bytes + GIB - 1), GIB))
  }

  function RoundUpBytes(bytes: Int64): Int64 {
    Wrap64(RoundUpToGiBs(bytes) * GIB)
  }

  /** Fails above the int32 range; below it the conversion truncates silently. */
  function RoundUpGiB(bytes: Int64): Result<Int32, string> {
    var gibs := RoundUpToGiBs(bytes);
    if gibs > MAX_INT32 then Err("rounded up size exceeds maximum value of int32") else Ok(Wrap32(gibs))
  }

  function BytesToGiB(bytes: Int64): Int32 {
    var gibs := TruncDiv(bytes, GIB);
    if gibs > MAX_INT32 then MAX_INT32 else Wrap32(gibs)
  }

  function GiBToBytes(gib: Int32): Int64 {
    gib * GIB
  }

  /** The largest request whose rounding does not leave the int64 range. */
  const MAX_ROUNDABLE: int := MAX_INT64 - GIB + 1

  /** Below the bound the wrapping code is the mathematical ceiling, above it the sum has wrapped. */
  lemma RoundUpToGiBsIsCeiling(bytes: Int64)
    ensures bytes <= MAX_ROUNDABLE ==> RoundUpToGiBs(bytes) == TruncDiv(bytes + GIB - 1, GIB)
    ensures 0 <= bytes <= MAX_ROUNDABLE ==>
              RoundUpToGiBs(bytes) * GIB - GIB < bytes <= RoundUpToGiBs(bytes) * GIB
    ensures bytes <= MAX_ROUNDABLE ==> bytes <= RoundUpToGiBs(bytes) * GIB <= MAX_INT64
    ensures bytes > MAX_ROUNDABLE ==> RoundUpToGiBs(bytes) in {-0x2_0000_0000, -0x1_ffff_ffff}
  {
  }

  /** Rounding covers the request exactly up to the bound, and is the least such multiple of GiB. */
  lemma RoundUpBytesCovers(bytes: Int64)
    ensures RoundUpBytes(bytes) >= bytes <==> bytes <= MAX_ROUNDABLE
    ensures 0 <= bytes <= MAX_ROUNDABLE ==>
              RoundUpBytes(bytes) % GIB == 0 && RoundUpBytes(bytes) - GIB < bytes
  {
    RoundUpToGiBsIsCeiling(bytes);
  }

  /** A whole number of GiB rounds to itself, off by one below zero because Go's division truncates. */
  lemma WholeGiBsRoundToThemselves(gibs: int)
    requires -0x2_0000_0000 <= gibs <= 0x1_ffff_ffff
    ensures RoundUpToGiBs(gibs * GIB) == if gibs >= 0 then gibs else gibs + 1
  {
    var sum := gibs * GIB + GIB - 1;
    assert Wrap64(sum) == sum;
    if gibs >= 0 {
      assert sum / GIB == gibs;
    } else {
      assert (-sum) / GIB == -gibs - 1;
    }
  }

  /** Whole GiB survive the trip through bytes. */
  lemma GiBRoundTrip(gib: Int32)
    ensures BytesToGiB(GiBToBytes(gib)) == gib
    ensures RoundUpGiB(GiBToBytes(gib)) == Ok(if gib >= 0 then gib else gib + 1)
  {
    assert TruncDiv(gib * GIB, GIB) == gib;
    WholeGiBsRoundToThemselves(gib);
  }

  /** The number of GiB is the least that covers the request. */
  lemma RoundUpIsLeastCover(bytes: Int64, gibs: nat)
    requires 0 <= bytes <= MAX_ROUNDABLE && bytes <= gibs * GIB
    ensures 0 <= RoundUpToGiBs(bytes) <= gibs && RoundUpBytes(bytes) == RoundUpToGiBs(bytes) * GIB
  {
    RoundUpToGiBsIsCeiling(bytes);
    var least := RoundUpToGiBs(bytes);
    assert (least - 1) * GIB < gibs * GIB;
  }

  /** The target is refused exactly when it does not fit int32. */
  lemma RoundUpGiBFailsIff(bytes: Int64)
    requires 0 <= bytes <= MAX_ROUNDABLE
    ensures RoundUpGiB(bytes).Err? <==> bytes > MAX_INT32 * GIB
  {
    RoundUpToGiBsIsCeiling(bytes);
  }

  /** Bytes are cut down to whole GiB, and to the int32 maximum beyond it. */
  lemma BytesToGiBIsFloor(bytes: Int64)
    requires bytes >= 0
    ensures var gib := BytesToGiB(bytes);
            0 <= gib && GiBToBytes(gib) <= bytes && (bytes < GiBToBytes(gib) + GIB || gib == MAX_INT32)
  {
    assert bytes / GIB * GIB <= bytes < bytes / GIB * GIB + GIB;
  }

  /**
   * The size a controller asks EC2 for, in GiB, once a request in bytes has been rounded by
   * `RoundUpBytes` and then by `RoundUpGiB`.
   */
  function RequestedGiB(bytes: Int64): Result<Int32, string> {
    RoundUpGiB(RoundUpBytes(bytes))
  }

  /** Rounding twice asks for the ceiling, provided the first rounding did not wrap. */
  lemma RequestedGiBIsCeiling(bytes: Int64)
    requires 0 <= bytes <= MAX_ROUNDABLE
    ensures RoundUpToGiBs(RoundUpBytes(bytes)) == RoundUpToGiBs(bytes)
  {
    RoundUpToGiBsIsCeiling(bytes);
    var gibs := RoundUpToGiBs(bytes);
    assert 0 <= gibs <= 0x1_ffff_ffff;
    assert RoundUpBytes(bytes) == gibs * GIB;
    WholeGiBsRoundToThemselves(gibs);
  }

  /** A volume at least as large as the GiB target covers the requested bytes. */
  lemma RequestedGiBCovers(bytes: Int64, actual: Int32)
    requires bytes <= MAX_ROUNDABLE
    requires RequestedGiB(bytes).Ok? && actual >= RequestedGiB(bytes).value
    requires actual >= 0
    ensures GiBToBytes(actual) >= bytes
  {
    if bytes > 0 {
      RoundUpToGiBsIsCeiling(bytes);
      RequestedGiBIsCeiling(bytes);
      var gibs := RoundUpToGiBs(bytes);
      assert 0 <= gibs <= MAX_INT32 && Wrap32(gibs) == gibs;
    }
  }

  /** Past the bound the target collapses to one or two GiB instead of being refused. */
  lemma RequestedGiBCollapses(bytes: Int64)
    requires bytes > MAX_ROUNDABLE
    ensures RequestedGiB(bytes) == Ok(1) || RequestedGiB(bytes) == Ok(2)
    ensures RoundUpBytes(bytes) != 0
  {
    RoundUpToGiBsIsCeiling(bytes);
    var gibs := RoundUpToGiBs(bytes);
    assert RoundUpBytes(bytes) == gibs * GIB;
    WholeGiBsRoundToThemselves(gibs);
    assert Wrap32(-0x1_ffff_ffff) == 1 && Wrap32(-0x1_ffff_fffe) == 2;
  }
}
