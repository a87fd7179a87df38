/**
 * The bit-reversal permutation that starts the in-place radix-2 FFT
 * (src/lib/audio-utils.ts, fft). Integers stand for the JavaScript numbers; the
 * bitwise operators on a single-bit mask are written out arithmetically.
 */
module BitReversal {
  import Arith

  /** 2 to the power b. */
  function Pow2(b: nat): (p: nat)
    ensures p >= 1
  {
    if b == 0 then 1 else 2 * Pow2(b - 1)
  }

  /** Bit b of x (bit 0 is the least significant). */
  function Bit(x: nat, b: nat): (d: nat)
    ensures d <= 1
  {
    if b == 0 then x % 2 else Bit(x / 2, b - 1)
  }

  /**
   * The `bits`-bit reversal of x: bit i of x (for i < bits) becomes bit bits-1-i of
   * the result; bits of x at or above `bits` are ignored.
   */
  function Reverse(x: nat, bits: nat): (r: nat)
    ensures r < Pow2(bits)
  {
    if bits == 0 then 0
    else (if x % 2 == 1 then Pow2(bits - 1) else 0) + Reverse(x / 2, bits - 1)
  }

  /** `(j & bit) != 0` for a mask `bit` that is a power of two, or zero. */
  predicate TestBit(j: nat, bit: nat)
  {
    bit > 0 && (j / bit) % 2 == 1
  }

  /** `j ^ bit` for a single-bit mask: clears the bit when set, sets it when clear. */
  function ToggleBit(j: nat, bit: nat): nat
    requires TestBit(j, bit) ==> bit <= j
  {
    if TestBit(j, bit) then j - bit else j + bit
  }

  /** Euclidean division is determined by the bracketing multiples of the divisor. */
  lemma DivUnique(x: int, d: int, q: int)
    requires d > 0 && q * d <= x < q * d + d
    ensures x / d == q
  {
    var q0 := x / d;
    assert q0 * d <= x < q0 * d + d;
    if q0 < q {
      Arith.MulMonotone(q0 + 1, q, d);
      assert false;
    } else if q0 > q {
      Arith.MulMonotone(q + 1, q0, d);
      assert false;
    }
  }

  /** Reading off the top bit of a reversal gives the bottom bit of its argument. */
  lemma TopBitOfReverse(y: nat, m: nat)
    requires m >= 1
    ensures TestBit(Reverse(y, m), Pow2(m - 1)) <==> y % 2 == 1
  {
    var p := Pow2(m - 1);
    var rest := Reverse(y / 2, m - 1);
    assert rest < p;
    if y % 2 == 1 {
      assert Reverse(y, m) == p + rest;
      DivUnique(p + rest, p, 1);
      assert TestBit(Reverse(y, m), p);
    } else {
      assert Reverse(y, m) == rest;
      DivUnique(rest, p, 0);
      assert !TestBit(Reverse(y, m), p);
    }
  }

  /** One pass of the inner loop: a set top bit is cleared and the lower bits still reverse y / 2. */
  lemma ClearTopBit(y: nat, m: nat)
    requires m >= 1 && y % 2 == 1 && y + 1 < Pow2(m)
    ensures m >= 2
    ensures Reverse(y, m) >= Pow2(m - 1)
    ensures Reverse(y, m) - Pow2(m - 1) == Reverse(y / 2, m - 1)
    ensures Reverse(y + 1, m) == Reverse(y / 2 + 1, m - 1)
    ensures y / 2 + 1 < Pow2(m - 1)
    ensures Pow2(m - 1) / 2 == Pow2(m - 2)
  {
    assert Pow2(m) == 2 * Pow2(m - 1);
    assert (y + 1) % 2 == 0 && (y + 1) / 2 == y / 2 + 1;
  }

  /** The loop's exit: setting the first clear top bit completes the reversed increment. */
  lemma SetTopBit(y: nat, m: nat)
    requires m >= 1 && y % 2 == 0
    ensures Reverse(y, m) + Pow2(m - 1) == Reverse(y + 1, m)
  {
    assert (y + 1) % 2 == 1 && (y + 1) / 2 == y / 2;
  }

  /**
   * The inner `while (j & bit)` loop plus the final `j ^= bit`: from the reversal of x
   * it computes the reversal of x + 1 ("reversed increment"), without ever
   * exhausting the mask because x + 1 is still below n.
   */
  method ReversedIncrement(j0: nat, n: nat, ghost bits: nat, ghost x: nat) returns (j: nat)
    requires n == Pow2(bits)
    requires x + 1 < n
    requires j0 == Reverse(x, bits)
    ensures j == Reverse(x + 1, bits)
  {
    assert bits >= 1 && Pow2(bits) == 2 * Pow2(bits - 1);
    j := j0;
    var bit := n / 2;
    ghost var y: nat := x;
    ghost var m: nat := bits;
    while TestBit(j, bit)
      invariant 1 <= m <= bits
      invariant bit == Pow2(m - 1)
      invariant j == Reverse(y, m)
      invariant Reverse(x + 1, bits) == Reverse(y + 1, m)
      invariant y + 1 < Pow2(m)
      decreases bit
    {
      TopBitOfReverse(y, m);
      ClearTopBit(y, m);
      j := ToggleBit(j, bit);
      bit := bit / 2;
      y := y / 2;
      m := m - 1;
    }
    TopBitOfReverse(y, m);
    SetTopBit(y, m);
    j := ToggleBit(j, bit);
  }

  /** Appending bit b of x below the b-bit reversal of x gives its (b+1)-bit reversal. */
  lemma {:induction false} ReverseExtend(x: nat, b: nat)
    ensures Reverse(x, b + 1) == 2 * Reverse(x, b) + Bit(x, b)
  {
    if b > 0 {
      ReverseExtend(x / 2, b - 1);
      assert Bit(x, b) == Bit(x / 2, b - 1);
      assert Pow2(b) == 2 * Pow2(b - 1);
    }
  }

  /** Bits at or above position b do not affect the b-bit reversal. */
  lemma {:induction false} ReverseIgnoresHighBits(c: nat, r: nat, b: nat)
    ensures Reverse(c * Pow2(b) + r, b) == Reverse(r, b)
  {
    if b > 0 {
      var z := c * Pow2(b - 1);
      assert c * Pow2(b) == 2 * z;
      assert (2 * z + r) % 2 == r % 2;
      assert (2 * z + r) / 2 == z + r / 2;
      ReverseIgnoresHighBits(c, r / 2, b - 1);
    }
  }

  /** Bit b of c * 2^b + r, with r below 2^b, is the parity of c. */
  lemma {:induction false} BitAtTop(c: nat, r: nat, b: nat)
    requires r < Pow2(b)
    ensures Bit(c * Pow2(b) + r, b) == c % 2
  {
    if b > 0 {
      var z := c * Pow2(b - 1);
      assert c * Pow2(b) == 2 * z;
      assert (2 * z + r) / 2 == z + r / 2;
      BitAtTop(c, r / 2, b - 1);
    }
  }

  /** Reversing twice gives back every number below 2^bits. */
  lemma {:induction false} ReverseInvolution(x: nat, bits: nat)
    requires x < Pow2(bits)
    ensures Reverse(Reverse(x, bits), bits) == x
  {
    if bits > 0 {
      var b := bits - 1;
      var inner := Reverse(x / 2, b);
      var y := Reverse(x, bits);
      assert y == (x % 2) * Pow2(b) + inner by {
        if x % 2 == 1 { assert (x % 2) * Pow2(b) == Pow2(b); }
      }
      ReverseExtend(y, b);
      ReverseIgnoresHighBits(x % 2, inner, b);
      BitAtTop(x % 2, inner, b);
      ReverseInvolution(x / 2, b);
    }
  }

  lemma ReverseOfZero(bits: nat)
    ensures Reverse(0, bits) == 0
  {
  }

  /** Reversal is a bijection of 0 .. 2^bits - 1 onto itself. */
  lemma ReverseBijective(bits: nat)
    ensures forall x, y :: 0 <= x < y < Pow2(bits) ==> Reverse(x, bits) != Reverse(y, bits)
    ensures forall y :: 0 <= y < Pow2(bits) ==> Reverse(Reverse(y, bits), bits) == y
  {
    forall x: nat | x < Pow2(bits)
      ensures Reverse(Reverse(x, bits), bits) == x
    {
      ReverseInvolution(x, bits);
    }
  }

  /** The sequence s rearranged so that position k holds s[Reverse(k)]. */
  function BitReversed<T>(s: seq<T>, bits: nat): (r: seq<T>)
    requires |s| == Pow2(bits)
    ensures |r| == |s|
  {
    seq(|s|, k requires 0 <= k < |s| => s[Reverse(k, bits)])
  }

  /** Applying the permutation twice restores the sequence. */
  lemma BitReversedInvolution<T>(s: seq<T>, bits: nat)
    requires |s| == Pow2(bits)
    ensures BitReversed(BitReversed(s, bits), bits) == s
  {
    ReverseBijective(bits);
  }

  /** True when position k has already been settled by the swap loop before index i. */
  predicate Settled(k: nat, i: nat, bits: nat)
  {
    k < i || Reverse(k, bits) < i
  }

  /** The state of an array after the swap loop has handled indices 1 .. i-1. */
  ghost predicate PartlyReversed<T>(cur: seq<T>, orig: seq<T>, i: nat, bits: nat)
  {
    && |cur| == |orig| == Pow2(bits)
    && forall k :: 0 <= k < |cur| ==> cur[k] == (if Settled(k, i, bits) then orig[Reverse(k, bits)] else orig[k])
  }

  /** `if (i < j) [a[i], a[j]] = [a[j], a[i]]` on a sequence. */
  function SwapIfBelow<T>(a: seq<T>, i: nat, j: nat): seq<T>
    requires i < |a| && j < |a|
  {
    if i < j then a[i := a[j]][j := a[i]] else a
  }

  /** A sequence that differs from another only by exchanging i and j when i < j is their swap. */
  lemma SwappedAt<T>(before: seq<T>, after: seq<T>, i: nat, j: nat)
    requires i < |before| && j < |before| && |after| == |before|
    requires forall k :: 0 <= k < |before| && k != i && k != j ==> after[k] == before[k]
    requires i < j ==> after[i] == before[j] && after[j] == before[i]
    requires i >= j ==> after == before
    ensures after == SwapIfBelow(before, i, j)
  {
  }

  /** Exchanging two positions neither loses nor duplicates an element. */
  lemma SwapKeepsElements<T>(a: seq<T>, i: nat, j: nat)
    requires i < |a| && j < |a|
    ensures multiset(SwapIfBelow(a, i, j)) == multiset(a)
  {
    if i < j {
      assert SwapIfBelow(a, i, j) == a[i := a[j]][j := a[i]];
    }
  }

  /** Handling index i (with j its reversal) extends the settled region by one. */
  lemma SwapStep<T>(cur: seq<T>, orig: seq<T>, i: nat, j: nat, bits: nat)
    requires 1 <= i < |cur| && PartlyReversed(cur, orig, i, bits)
    requires j == Reverse(i, bits)
    ensures PartlyReversed(SwapIfBelow(cur, i, j), orig, i + 1, bits)
    ensures multiset(SwapIfBelow(cur, i, j)) == multiset(cur)
  {
    ReverseBijective(bits);
    var next := SwapIfBelow(cur, i, j);
    forall k | 0 <= k < |next|
      ensures next[k] == (if Settled(k, i + 1, bits) then orig[Reverse(k, bits)] else orig[k])
    {
      if k == i || k == j {
      } else {
        assert Settled(k, i + 1, bits) == Settled(k, i, bits);
      }
    }
    if i < j {
      assert next == cur[i := cur[j]][j := cur[i]];
    }
  }

  /** Before the loop only index 0, its own reversal, counts as handled. */
  lemma NothingSettledYet<T>(s: seq<T>, bits: nat)
    requires |s| == Pow2(bits)
    ensures PartlyReversed(s, s, 1, bits)
  {
    ReverseOfZero(bits);
    ReverseBijective(bits);
  }

  /** After the loop every index is handled, so the array is the bit-reversed input. */
  lemma AllSettled<T>(cur: seq<T>, orig: seq<T>, bits: nat)
    requires PartlyReversed(cur, orig, |cur|, bits)
    ensures cur == BitReversed(orig, bits)
  {
  }

  /**
   * Carrying the swap loop on from index i reaches the bit-reversed sequence by swaps
   * alone, so that sequence has the same elements as the original.
   */
  lemma {:induction false} SwapsPermute<T>(cur: seq<T>, orig: seq<T>, i: nat, bits: nat)
    requires 1 <= i <= |cur| && PartlyReversed(cur, orig, i, bits)
    requires multiset(cur) == multiset(orig)
    ensures multiset(BitReversed(orig, bits)) == multiset(orig)
    decreases |cur| - i
  {
    if i == |cur| {
      AllSettled(cur, orig, bits);
    } else {
      var next := SwapIfBelow(cur, i, Reverse(i, bits));
      SwapStep(cur, orig, i, Reverse(i, bits), bits);
      SwapsPermute(next, orig, i + 1, bits);
    }
  }

  /** The bit-reversal permutation is a permutation: it neither loses nor duplicates elements. */
  lemma BitReversedPermutes<T>(s: seq<T>, bits: nat)
    requires |s| == Pow2(bits)
    ensures multiset(BitReversed(s, bits)) == multiset(s)
  {
    NothingSettledYet(s, bits);
    SwapsPermute(s, s, 1, bits);
  }

  /**
   * `if (i < j) { swap real[i], real[j]; swap imag[i], imag[j] }`: both arrays keep
   * their elements, only positions i and j can change, and they are exchanged exactly
   * when i < j.
   */
  method SwapPair(reals: array<real>, imags: array<real>, i: nat, j: nat)
    requires reals != imags
    requires i < reals.Length && j < reals.Length && reals.Length == imags.Length
    modifies reals, imags
    ensures multiset(reals[..]) == multiset(old(reals[..])) && multiset(imags[..]) == multiset(old(imags[..]))
    ensures forall k :: 0 <= k < reals.Length && k != i && k != j ==> reals[k] == old(reals[k]) && imags[k] == old(imags[k])
    ensures i < j ==> reals[i] == old(reals[j]) && reals[j] == old(reals[i]) && imags[i] == old(imags[j]) && imags[j] == old(imags[i])
    ensures i >= j ==> reals[..] == old(reals[..]) && imags[..] == old(imags[..])
    ensures reals[..] == SwapIfBelow(old(reals[..]), i, j) && imags[..] == SwapIfBelow(old(imags[..]), i, j)
  {
    if i < j {
      reals[i], reals[j] := reals[j], reals[i];
      imags[i], imags[j] := imags[j], imags[i];
    }
    SwappedAt(old(reals[..]), reals[..], i, j);
    SwappedAt(old(imags[..]), imags[..], i, j);
    SwapKeepsElements(old(reals[..]), i, j);
    SwapKeepsElements(old(imags[..]), i, j);
  }

  /** One turn of the bit-reversal loop: j advances to the reversal of i, then i and j are swapped when i < j. */
  method SwapWithReversal(reals: array<real>, imags: array<real>, ghost re: seq<real>, ghost im: seq<real>,
                          i: nat, j: nat, ghost bits: nat) returns (j': nat)
    requires reals != imags && 1 <= i < reals.Length
    requires j == Reverse(i - 1, bits)
    requires PartlyReversed(reals[..], re, i, bits) && PartlyReversed(imags[..], im, i, bits)
    modifies reals, imags
    ensures j' == Reverse(i, bits)
    ensures PartlyReversed(reals[..], re, i + 1, bits) && PartlyReversed(imags[..], im, i + 1, bits)
  {
    j' := ReversedIncrement(j, reals.Length, bits, i - 1);
    SwapStep(reals[..], re, i, j', bits);
    SwapStep(imags[..], im, i, j', bits);
    SwapPair(reals, imags, i, j');
  }

  /**
   * The bit-reversal loop of fft: for i = 1 .. n-1 it advances j to the reversal of i
   * and swaps positions i and j of both arrays when i < j, so each pair is swapped
   * once. The real and imaginary parts are permuted identically.
   */
  method BitReversePermute(re: seq<real>, im: seq<real>, ghost bits: nat) returns (re': seq<real>, im': seq<real>)
    requires |re| == Pow2(bits) && |im| == |re|
    ensures re' == BitReversed(re, bits)
    ensures im' == BitReversed(im, bits)
    ensures multiset(re') == multiset(re) && multiset(im') == multiset(im)
  {
    var n := |re|;
    var reals := new real[n](k requires 0 <= k < n => re[k]);
    var imags := new real[n](k requires 0 <= k < n => im[k]);
    assert reals[..] == re && imags[..] == im;
    NothingSettledYet(re, bits);
    NothingSettledYet(im, bits);
    ReverseOfZero(bits);
    var i := 1;
    var j := 0;
    while i < n
      invariant 1 <= i <= n
      invariant j == Reverse(i - 1, bits)
      invariant PartlyReversed(reals[..], re, i, bits)
      invariant PartlyReversed(imags[..], im, i, bits)
    {
      j := SwapWithReversal(reals, imags, re, im, i, j, bits);
      i := i + 1;
    }
    re' := reals[..];
    im' := imags[..];
    AllSettled(re', re, bits);
    AllSettled(im', im, bits);
    BitReversedPermutes(re, bits);
    BitReversedPermutes(im, bits);
  }
}
