/**
 * 32-bit sequence numbers relative to an initial sequence number, and their
 * conversion to and from 64-bit absolute sequence numbers.
 */
module WrappingIntegers {
  import opened Types

  /** 32-bit addition and subtraction of the raw values. */
  function Plus(a: u32, b: int): u32 {
    (a + b) % 0x1_0000_0000
  }

  /** 64-bit wrap-around of an exact result. */
  function Low64(n: int): u64 {
    n % 0x1_0000_0000_0000_0000
  }

  function Wrap(n: nat, isn: u32): u32 {
    (n % 0x1_0000_0000 + isn) % 0x1_0000_0000
  }

  /** The branches of `unwrap`, with its 64-bit results wrapped explicitly. */
  function Unwrap(n: u32, isn: u32, checkpoint: u64): u64 {
    var cn := Wrap(checkpoint, isn);
    var cnIsLarge := cn >= n;
    var offset := if cnIsLarge then cn - n else n - cn;
    var ofLargeHalf := offset > (TWO32 - 1) / 2;
    var backward := (!cnIsLarge && ofLargeHalf) || (cnIsLarge && !ofLargeHalf);
    // UINT32_MAX + 1 - offset, computed in 32 bits
    var rest := (TWO32 - offset) % 0x1_0000_0000;
    if backward then
      if checkpoint <= (TWO32 - 1) / 2 &&
         ((ofLargeHalf && Low64(checkpoint - rest) > TWO32 - 1) ||
          (!ofLargeHalf && Low64(checkpoint - offset) > TWO32 - 1))
      then Low64(if cn <= n then checkpoint + offset else checkpoint + rest)
      else Low64(if !ofLargeHalf then checkpoint - offset else checkpoint - rest)
    else
      Low64(if !ofLargeHalf then checkpoint + offset else checkpoint + rest)
  }

  /** The shorter form that `wrapping_integers.cc` keeps in a comment. */
  function ShortUnwrap(n: u32, isn: u32, checkpoint: u64): u64 {
    var offset := Forward(n, isn, checkpoint);
    var ret := Low64(checkpoint + offset);
    if offset >= TWO31 && ret >= TWO32 then ret - TWO32 else ret
  }

  /** How far, going forward modulo 2^32, `n` lies ahead of the checkpoint. */
  function Forward(n: u32, isn: u32, checkpoint: nat): u32 {
    (n - Wrap(checkpoint, isn)) % 0x1_0000_0000
  }

  /** Whether `unwrap` steps forward although the sum leaves the 64-bit range. */
  predicate Overflows(n: u32, isn: u32, checkpoint: u64) {
    var f := Forward(n, isn, checkpoint);
    checkpoint + f >= TWO64 && (f < TWO31 || (f == TWO31 && Wrap(checkpoint, isn) > n))
  }

  lemma Residue(k: int, r: u32)
    ensures (k * 0x1_0000_0000 + r) % 0x1_0000_0000 == r
  {
  }

  /** Reducing a summand first does not change the residue. */
  lemma ReduceFirst(x: int, y: int)
    ensures (x % 0x1_0000_0000 + y) % 0x1_0000_0000 == (x + y) % 0x1_0000_0000
  {
    var z := x % 0x1_0000_0000 + y;
    var k, q, r := x / 0x1_0000_0000, z / 0x1_0000_0000, z % 0x1_0000_0000;
    assert x + y == (k + q) * 0x1_0000_0000 + r;
    Residue(k + q, r);
  }

  /** Numbers that wrap alike differ by a multiple of 2^32. */
  lemma WrapResidue(x: nat, y: nat, isn: u32)
    ensures Wrap(x, isn) == Wrap(y, isn) <==> x % 0x1_0000_0000 == y % 0x1_0000_0000
    ensures Wrap(x, isn) == (x + isn) % 0x1_0000_0000
  {
    ReduceFirst(x, isn);
  }

  lemma WrapPlus(x: nat, d: int, isn: u32)
    requires 0 <= x + d
    ensures Plus(Wrap(x, isn), d) == Wrap(x + d, isn)
  {
    ReduceFirst(x, isn);
    ReduceFirst(x + d, isn);
    ReduceFirst(x + isn, d);
  }

  lemma ForwardByCases(n: u32, isn: u32, c: nat)
    ensures Forward(n, isn, c) == if n >= Wrap(c, isn) then n - Wrap(c, isn) else n - Wrap(c, isn) + TWO32
  {
  }

  lemma Low64InRange(n: int)
    requires -TWO64 <= n < 2 * TWO64
    ensures Low64(n) == if n < 0 then n + TWO64 else if n < TWO64 then n else n - TWO64
  {
  }

  /** What the branches of `unwrap` amount to, in terms of the forward distance. */
  lemma UnwrapByDistance(n: u32, isn: u32, c: u64)
    ensures var f := Forward(n, isn, c); var r := Unwrap(n, isn, c);
            if f < TWO31 || (f == TWO31 && Wrap(c, isn) > n) || c + f < TWO32
            then r == Low64(c + f) else r == c + f - TWO32
  {
    ForwardByCases(n, isn, c);
    var cn := Wrap(c, isn);
    var f := Forward(n, isn, c);
    var offset := if cn >= n then cn - n else n - cn;
    assert (TWO32 - offset) % 0x1_0000_0000 == if offset == 0 then 0 else TWO32 - offset;
    Low64InRange(c - offset);
    Low64InRange(c + f - TWO32);
    Low64InRange(c + f);
  }

  lemma ForwardReaches(n: u32, isn: u32, c: nat)
    ensures Wrap(c + Forward(n, isn, c), isn) == n
  {
    var f, cn, k := Forward(n, isn, c), Wrap(c, isn), (c + isn) / 0x1_0000_0000;
    assert c + isn == k * 0x1_0000_0000 + cn by { WrapResidue(c, c, isn); }
    assert f == n - cn || f == n - cn + TWO32 by { ForwardByCases(n, isn, c); }
    assert (c + f + isn) % 0x1_0000_0000 == n by { Residue(k, n); Residue(k + 1, n); }
    WrapResidue(c + f, c, isn);
  }

  /** A value congruent to the checkpoint plus the forward distance, and nothing else, wraps to n. */
  lemma WrapsTo(n: u32, isn: u32, c: nat, m: nat)
    ensures Wrap(m, isn) == n <==> (m - c - Forward(n, isn, c)) % 0x1_0000_0000 == 0
  {
    var f := Forward(n, isn, c);
    ForwardReaches(n, isn, c);
    WrapResidue(m, c + f, isn);
    Congruent(m, c + f);
  }

  lemma Congruent(x: int, y: int)
    ensures (x - y) % 0x1_0000_0000 == 0 <==> x % 0x1_0000_0000 == y % 0x1_0000_0000
  {
  }

  lemma WrapsAfterWholeTurns(n: u32, isn: u32, c: nat, r: nat)
    requires var d := r - c - Forward(n, isn, c); d == 0 || d == -TWO32 || d == -TWO64
    ensures Wrap(r, isn) == n
  {
    WrapsTo(n, isn, c, r);
  }

  /** `unwrap` is a right inverse of `wrap`, whatever the checkpoint. */
  lemma UnwrapWraps(n: u32, isn: u32, c: u64)
    ensures Wrap(Unwrap(n, isn, c), isn) == n
  {
    var r := Unwrap(n, isn, c);
    UnwrapByDistance(n, isn, c);
    Low64InRange(c + Forward(n, isn, c));
    WrapsAfterWholeTurns(n, isn, c, r);
  }

  /**
   * `unwrap` returns a number closest to the checkpoint among all 64-bit numbers
   * that wrap to n, exactly when its forward step does not leave the 64-bit range.
   */
  lemma UnwrapClosest(n: u32, isn: u32, c: u64)
    ensures (forall m: u64 :: Wrap(m, isn) == n ==> Abs(Unwrap(n, isn, c) - c) <= Abs(m - c))
            <==> !Overflows(n, isn, c)
  {
    UnwrapByDistance(n, isn, c);
    var r, f := Unwrap(n, isn, c), Forward(n, isn, c);
    Low64InRange(c + f);
    if Overflows(n, isn, c) {
      var m := c + f - TWO32;
      WrapsTo(n, isn, c, m);
      assert Wrap(m, isn) == n && Abs(r - c) > Abs(m - c);
    } else {
      forall m: u64 | Wrap(m, isn) == n ensures Abs(r - c) <= Abs(m - c) {
        WrapsTo(n, isn, c, m);
        MultipleGap(m - c - f);
      }
    }
  }

  lemma MultipleGap(d: int)
    requires d % 0x1_0000_0000 == 0
    ensures d >= TWO32 || d == 0 || d <= -TWO32
    ensures d > 0 || d == 0 || d == -TWO32 || d <= -2 * 0x1_0000_0000
  {
  }

  /** Every value less than 2^31 away from the checkpoint survives wrapping. */
  lemma UnwrapRecovers(x: u64, isn: u32, c: u64)
    requires Abs(x - c) < TWO31
    ensures Unwrap(Wrap(x, isn), isn, c) == x
  {
    var n := Wrap(x, isn);
    UnwrapByDistance(n, isn, c);
    WrapsTo(n, isn, c, x);
    var f := Forward(n, isn, c);
    MultipleGap(x - c - f);
    Low64InRange(c + f);
  }

  /** Exactly when the two forms agree: never at distance 2^31 seen from above, unless both must go forward. */
  lemma ShortFormAgrees(n: u32, isn: u32, c: u64)
    ensures var f := Forward(n, isn, c);
            ShortUnwrap(n, isn, c) == Unwrap(n, isn, c) <==>
            if f < TWO31 || c + f < TWO32 then true
            else if f == TWO31 && Wrap(c, isn) > n then c + f >= TWO64
            else c + f < TWO64
  {
    UnwrapByDistance(n, isn, c);
    Low64InRange(c + Forward(n, isn, c));
  }
}
