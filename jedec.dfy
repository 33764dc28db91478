/** The manufacturer-ID sanity test that `checkID` applies after detection. */
module Jedec {
  import opened Common

  /**
   * The sum that `checkID` forms: bit k of the ID is `(id >> k) & 1`, and a right
   * shift by k of a non-negative value is k successive halvings.
   */
  function CheckIdBitSum(id: Byte): (sum: int)
    ensures 0 <= sum <= 8
  {
    var s1 := id / 2;
    var s2 := s1 / 2;
    var s3 := s2 / 2;
    var s4 := s3 / 2;
    var s5 := s4 / 2;
    var s6 := s5 / 2;
    var s7 := s6 / 2;
    id % 2 + s1 % 2 + s2 % 2 + s3 % 2 + s4 % 2 + s5 % 2 + s6 % 2 + s7 % 2
  }

  /** `checkID` lets the run go on exactly when the low bit of that sum is set. */
  predicate IsValidManufacturerId(id: Byte)
  {
    CheckIdBitSum(id) % 2 == 1
  }

  /** Number of set bits of a natural number, the reference definition. */
  function PopCount(x: nat): nat
  {
    if x == 0 then 0 else x % 2 + PopCount(x / 2)
  }

  /** The eight-term sum in `checkID` is the population count of the byte. */
  lemma {:induction false} CheckIdBitSumIsPopCount(id: Byte)
    ensures CheckIdBitSum(id) == PopCount(id)
  {
    var x1 := id / 2;
    var x2 := x1 / 2;
    var x3 := x2 / 2;
    var x4 := x3 / 2;
    var x5 := x4 / 2;
    var x6 := x5 / 2;
    var x7 := x6 / 2;
    var x8 := x7 / 2;
    PopCountHalf(id);
    PopCountHalf(x1);
    PopCountHalf(x2);
    PopCountHalf(x3);
    PopCountHalf(x4);
    PopCountHalf(x5);
    PopCountHalf(x6);
    PopCountHalf(x7);
    assert x8 == 0;
  }

  /** Dropping the low bit: the count is that bit plus the count of the rest. */
  lemma PopCountHalf(x: nat)
    ensures PopCount(x) == x % 2 + PopCount(x / 2)
  {
  }

  /** JEDEC JEP106 odd parity: an ID is accepted iff it has an odd number of set bits. */
  lemma ValidIffOddParity(id: Byte)
    ensures IsValidManufacturerId(id) <==> PopCount(id) % 2 == 1
  {
    CheckIdBitSumIsPopCount(id);
  }

  /** The zero ID, which an absent or unpowered chip reads back, is always refused. */
  lemma ZeroIdRejected()
    ensures !IsValidManufacturerId(0)
  {
  }

  /** A sample ID that passes: 0x01 (one bit set). */
  lemma AcceptedSampleOne()
    ensures IsValidManufacturerId(0x01)
  {
  }

  /** A sample ID that passes: 0xBF (seven bits set). */
  lemma AcceptedSampleSeven()
    ensures IsValidManufacturerId(0xBF)
  {
  }

  /** A sample ID that fails: 0x03 (two bits set). */
  lemma RejectedSample()
    ensures !IsValidManufacturerId(0x03)
  {
    assert CheckIdBitSum(0x03) == 2;
  }
}
