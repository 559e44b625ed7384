/** The Internet checksum (RFC 1071, section 1). */
module Checksums {
  import opened Types

  /** The bytes as 16-bit big-endian words, added up; `odd` when the first byte is the low half of a word. */
  function WordSum(data: seq<u8>, odd: bool): nat {
    if data == [] then 0
    else (if odd then data[0] else 256 * data[0]) + WordSum(data[1..], !odd)
  }

  /** The one's-complement representative of n: congruent to it, zero only for zero. */
  function Fold(n: nat): (f: u16)
    ensures f % 65535 == n % 65535 && (f == 0 <==> n == 0)
  {
    if n == 0 then 0 else 1 + (n - 1) % 65535
  }

  /** What a running checksum has taken in. */
  datatype Running = Running(sum: u32, odd: bool)
  {
    function Add(data: seq<u8>): Running {
      Running((sum + WordSum(data, odd)) % 0x1_0000_0000, odd != (|data| % 2 == 1))
    }

    function Value(): u16 {
      65535 - Fold(sum)
    }
  }

  lemma {:induction false} WordSumConcat(a: seq<u8>, b: seq<u8>, odd: bool)
    ensures WordSum(a + b, odd) == WordSum(a, odd) + WordSum(b, odd != (|a| % 2 == 1))
  {
    if a == [] {
      assert a + b == b;
    } else {
      assert (a + b)[1..] == a[1..] + b;
      WordSumConcat(a[1..], b, !odd);
    }
  }

  lemma AddTwice(s: nat, x: nat, y: nat)
    ensures ((s + x) % 0x1_0000_0000 + y) % 0x1_0000_0000 == (s + x + y) % 0x1_0000_0000
  {
  }

  /** How the data is split across calls does not matter. */
  lemma AddSplits(c: Running, a: seq<u8>, b: seq<u8>)
    ensures c.Add(a).Add(b) == c.Add(a + b)
  {
    var odd := c.odd != (|a| % 2 == 1);
    WordSumConcat(a, b, c.odd);
    AddTwice(c.sum, WordSum(a, c.odd), WordSum(b, odd));
    OddSum(|a|, |b|);
  }

  /** Starting from the sum of some words is taking those words in first. */
  lemma {:induction false} AddAfter(words: seq<u8>, n: u32, data: seq<u8>)
    requires |words| % 2 == 0 && WordSum(words, false) == n
    ensures Running(0, false).Add(words + data) == Running(n, false).Add(data)
  {
    AddSplits(Running(0, false), words, data);
  }

  lemma OddSum(m: nat, n: nat)
    ensures ((m + n) % 2 == 1) == ((m % 2 == 1) != (n % 2 == 1))
  {
  }

  lemma AddOne(c: Running, b: u8)
    ensures c.Add([b]) == Running((c.sum + if c.odd then b else b * 256) % 0x1_0000_0000, !c.odd)
  {
    assert [b][1..] == [];
    assert WordSum([b][1..], !c.odd) == 0;
    assert WordSum([b], c.odd) == if c.odd then b else 256 * b;
  }

  lemma {:induction false} WordSumBound(data: seq<u8>, odd: bool)
    ensures WordSum(data, odd) <= if odd then |data| / 2 * 65535 + 255 else (|data| + 1) / 2 * 65535
  {
    if |data| >= 1 { WordSumBound(data[1..], !odd); }
  }

  lemma FoldStep(n: nat)
    requires n > 0xFFFF
    ensures Fold(n / 0x1_0000 + n % 0x1_0000) == Fold(n) && n / 0x1_0000 + n % 0x1_0000 < n
  {
    var hi, lo := n / 0x1_0000, n % 0x1_0000;
    assert n - 1 == 65535 * hi + (hi + lo - 1);
    SameRest(hi + lo - 1, hi);
  }

  lemma SameRest(a: nat, k: nat)
    ensures (65535 * k + a) % 65535 == a % 65535
  {
  }

  /** Filling in the checksum makes the whole fold to all ones, so that its own checksum is zero. */
  lemma FilledIsZero(n: nat)
    ensures Fold(n + 65535 - Fold(n)) == 65535
  {
    if n > 0 {
      var k := (n - 1) / 65535;
      assert n + 65535 - Fold(n) - 1 == 65535 * k + 65534;
      SameRest(65534, k);
    }
  }

  /** Data whose checksum field, zero before, has been filled in passes the check. */
  lemma {:induction false} FilledPasses(initial: u32, zeroed: seq<u8>, filled: seq<u8>)
    requires initial + WordSum(zeroed, false) + 65535 < 0x1_0000_0000
    requires WordSum(filled, false) == WordSum(zeroed, false) + Running(initial, false).Add(zeroed).Value()
    ensures Running(initial, false).Add(filled).Value() == 0
  {
    var n := initial + WordSum(zeroed, false);
    NoWrap(initial, zeroed);
    FilledIsZero(n);
    NoWrap(initial, filled);
  }

  lemma {:induction false} NoWrap(initial: u32, data: seq<u8>)
    requires initial + WordSum(data, false) < 0x1_0000_0000
    ensures Running(initial, false).Add(data).Value() == 65535 - Fold(initial + WordSum(data, false))
  {
  }

  class InternetChecksum {
    var sum: u32
    var parity: bool

    ghost function State(): Running
      reads this
    {
      Running(sum, parity)
    }

    constructor (initialSum: u32)
      ensures State() == Running(initialSum, false)
    {
      sum, parity := initialSum, false;
    }

    method Add(data: seq<u8>)
      modifies this
      ensures State() == old(State()).Add(data)
    {
      var i := 0;
      while i < |data|
        invariant 0 <= i <= |data| && State() == old(State()).Add(data[..i])
      {
        var val: u16 := data[i];
        if !parity {
          val := val * 256;
        }
        AddSplits(old(State()), data[..i], [data[i]]);
        assert data[..i] + [data[i]] == data[..i + 1];
        AddOne(State(), data[i]);
        sum := (sum + val) % 0x1_0000_0000;
        parity := !parity;
        i := i + 1;
      }
      assert data[..i] == data;
    }

    method Value() returns (v: u16)
      ensures v == State().Value()
    {
      var ret: nat := sum;
      while ret > 0xFFFF
        invariant Fold(ret) == Fold(sum)
      {
        FoldStep(ret);
        ret := ret / 0x1_0000 + ret % 0x1_0000;
      }
      v := 0xFFFF - ret;
    }
  }
}
