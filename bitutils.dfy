/**
 * The 64-bit set helpers of bitutils.h.  A `uint64_t` occupancy or move set is
 * modelled as its 64 bits, least significant first: bit n of the word is
 * element n of the sequence.
 */
module BitUtils {

  /** A 64-bit word as its 64 bits; bit n is element n. */
  type Bitboard = b: seq<bool> | |b| == 64 witness seq(64, _ => false)

  /** The zero word. */
  function Zero(): (r: Bitboard)
    ensures forall i :: 0 <= i < 64 ==> !r[i]
  {
    seq(64, _ => false)
  }

  /** The number of set bits among the first k bits. */
  function CountBelow(x: Bitboard, k: nat): (r: nat)
    requires k <= 64
    ensures r <= k
  {
    if k == 0 then 0 else CountBelow(x, k - 1) + (if x[k - 1] then 1 else 0)
  }

  /** The number of set bits of the word. */
  function Count(x: Bitboard): (r: nat)
    ensures r <= 64
  {
    CountBelow(x, 64)
  }

  /** Clearing a set bit takes one away from every count that sees it. */
  lemma {:induction false} CountBelowClear(x: Bitboard, n: int, k: nat)
    requires 0 <= n < 64 && x[n] && k <= 64
    ensures CountBelow(x[n := false], k) == CountBelow(x, k) - (if n < k then 1 else 0)
  {
    if k > 0 {
      CountBelowClear(x, n, k - 1);
    }
  }

  /** A word with no set bit below k counts zero there, and conversely. */
  lemma {:induction false} CountBelowZero(x: Bitboard, k: nat)
    requires k <= 64
    ensures CountBelow(x, k) == 0 <==> forall i :: 0 <= i < k ==> !x[i]
  {
    if k > 0 {
      CountBelowZero(x, k - 1);
    }
  }

  /** Setting one bit raises the count by at most one. */
  lemma CountSetBit(x: Bitboard, n: int)
    requires 0 <= n < 64
    ensures Count(x[n := true]) <= Count(x) + 1
  {
    if !x[n] {
      var y := x[n := true];
      CountBelowClear(y, n, 64);
      assert y[n := false] == x;
    } else {
      assert x[n := true] == x;
    }
  }

  /** A word whose bits all lie in another counts no more. */
  lemma {:induction false} CountBelowSubset(a: Bitboard, b: Bitboard, k: nat)
    requires k <= 64
    requires forall i :: 0 <= i < 64 && a[i] ==> b[i]
    ensures CountBelow(a, k) <= CountBelow(b, k)
  {
    if k > 0 {
      CountBelowSubset(a, b, k - 1);
    }
  }

  /** The or of two words counts at most the sum of their counts. */
  lemma {:induction false} CountBelowOr(a: Bitboard, b: Bitboard, k: nat)
    requires k <= 64
    ensures CountBelow(Or(a, b), k) <= CountBelow(a, k) + CountBelow(b, k)
  {
    if k > 0 {
      CountBelowOr(a, b, k - 1);
    }
  }

  /** set_nth_bit_to(x, n, val): bit n becomes val, the other bits are kept. */
  function SetNthBitTo(x: Bitboard, n: int, val: int): (r: Bitboard)
    requires 0 <= n < 64 && (val == 0 || val == 1)
    ensures r[n] <==> val == 1
    ensures forall i :: 0 <= i < 64 && i != n ==> r[i] == x[i]
  {
    x[n := val == 1]
  }

  /** get_nth_bit(x, n): the value, 0 or 1, of bit n. */
  function GetNthBit(x: Bitboard, n: int): (r: int)
    requires 0 <= n < 64
    ensures r == 0 || r == 1
  {
    if x[n] then 1 else 0
  }

  /** Reading back the bit just written gives the value written. */
  lemma SetThenGet(x: Bitboard, n: int, val: int)
    requires 0 <= n < 64 && (val == 0 || val == 1)
    ensures GetNthBit(SetNthBitTo(x, n, val), n) == val
  {
  }

  /** Every bit other than n keeps its value. */
  lemma SetKeepsOtherBits(x: Bitboard, n: int, val: int, m: int)
    requires 0 <= n < 64 && (val == 0 || val == 1) && 0 <= m < 64 && m != n
    ensures GetNthBit(SetNthBitTo(x, n, val), m) == GetNthBit(x, m)
  {
  }

  /** Writing the same bit with the same value twice is the same as once. */
  lemma SetIdempotent(x: Bitboard, n: int, val: int)
    requires 0 <= n < 64 && (val == 0 || val == 1)
    ensures SetNthBitTo(SetNthBitTo(x, n, val), n, val) == SetNthBitTo(x, n, val)
  {
  }

  /** The bitwise or of two words. */
  function Or(a: Bitboard, b: Bitboard): (r: Bitboard)
    ensures forall i :: 0 <= i < 64 ==> r[i] == (a[i] || b[i])
  {
    seq(64, i requires 0 <= i < 64 => a[i] || b[i])
  }

  /** Or-ing a word with itself plus bit n sets bit n (the `x |= set_nth_bit_to(x, n, 1)` idiom). */
  lemma OrWithSetBit(x: Bitboard, n: int)
    requires 0 <= n < 64
    ensures Or(x, SetNthBitTo(x, n, 1)) == x[n := true]
  {
    assert forall i :: 0 <= i < 64 ==> Or(x, SetNthBitTo(x, n, 1))[i] == x[n := true][i];
  }

  /** The least significant set bit at or above k. */
  function LowestFrom(x: Bitboard, k: int): (r: int)
    requires 0 <= k <= 64
    requires exists i :: k <= i < 64 && x[i]
    ensures k <= r < 64 && x[r]
    ensures forall i :: k <= i < r ==> !x[i]
    decreases 64 - k
  {
    if x[k] then k else LowestFrom(x, k + 1)
  }

  /**
   * __builtin_clzll counted from bit k downwards: the number of zero bits
   * from bit 63 down to the highest set bit, when no bit above k is set.
   */
  function ClzFrom(x: Bitboard, k: int): (r: int)
    requires -1 <= k < 64
    requires forall i :: k < i < 64 ==> !x[i]
    requires exists i :: 0 <= i < 64 && x[i]
    ensures 0 <= 63 - r <= k && x[63 - r]
    ensures forall i :: 63 - r < i < 64 ==> !x[i]
    decreases k + 1
  {
    if x[k] then 63 - k else ClzFrom(x, k - 1)
  }

  /** A word is zero exactly when none of its bits is set. */
  lemma ZeroIffNoBit(x: Bitboard)
    ensures x == Zero() <==> forall i :: 0 <= i < 64 ==> !x[i]
  {
    if forall i :: 0 <= i < 64 ==> !x[i] {
      assert x == Zero();
    }
  }

  /** __builtin_clzll(x) for x != 0 (the builtin is undefined on 0). */
  function Clz(x: Bitboard): (r: int)
    requires x != Zero()
    ensures 0 <= r < 64 && x[63 - r]
    ensures forall i :: 63 - r < i < 64 ==> !x[i]
  {
    ZeroIffNoBit(x);
    ClzFrom(x, 63)
  }

  /** LOG2(x) = 64 - clz(x) - 1: the index of the most significant set bit. */
  function Log2(x: Bitboard): (r: int)
    requires x != Zero()
    ensures 0 <= r < 64 && x[r]
    ensures forall i :: r < i < 64 ==> !x[i]
  {
    64 - Clz(x) - 1
  }

  /**
   * popcount: clears the least significant set bit (in &= in - 1) until the
   * word is zero, counting the rounds.
   */
  method PopCount(x: Bitboard) returns (ret: int)
    ensures ret == Count(x)
    ensures 0 <= ret <= 64
    ensures ret == 0 <==> x == Zero()
  {
    var rest := x;
    ret := 0;
    while rest != Zero()
      invariant ret + Count(rest) == Count(x)
      decreases Count(rest)
    {
      ZeroIffNoBit(rest);
      var low := LowestFrom(rest, 0);
      CountBelowClear(rest, low, 64);
      rest := rest[low := false];
      ret := ret + 1;
    }
    ZeroIffNoBit(rest);
    CountBelowZero(rest, 64);
    ZeroIffNoBit(x);
    CountBelowZero(x, 64);
  }

  /**
   * pop_next_index: returns LOG2 of the word, the index of its HIGHEST set
   * bit, and clears that bit; the word is passed by pointer in the source, so
   * here it comes in as `x` and its new value goes out as `rest`.
   */
  method PopNextIndex(x: Bitboard) returns (ret: int, rest: Bitboard)
    requires x != Zero()
    ensures 0 <= ret < 64 && x[ret]
    ensures forall i :: ret < i < 64 ==> !x[i]
    ensures rest == x[ret := false]
    ensures Count(rest) == Count(x) - 1
  {
    ret := Log2(x);
    rest := SetNthBitTo(x, ret, 0);
    CountBelowClear(x, ret, 64);
  }
}
