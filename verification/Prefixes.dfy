/** Address prefixes as blocks of addresses, and the order in which a routing table keeps them. */
module Prefixes {
  import opened Types
  import opened Arithmetic

  /** A forwarding rule; `hop` zero means that the network is directly attached. */
  datatype Route = Route(prefix: u32, len: nat, hop: u32, interface: nat)

  datatype Key = Key(start: nat, end: nat)

  /** A table entry; `link` names the entry that a lookup jumps to, or none. */
  datatype Entry = Entry(route: Route, end: nat, link: Option<Key>)
  {
    function Start(): nat {
      route.prefix
    }

    function KeyOf(): Key {
      Key(route.prefix, end)
    }

    predicate Matches(dst: u32) {
      route.prefix <= dst <= end
    }
  }

  function Size(len: nat): nat
    requires len <= 32
  {
    Pow2(32 - len)
  }

  /** The last address of the prefix, in 32-bit arithmetic. */
  function EndIndex(prefix: u32, len: nat): u32
    requires len <= 32
  {
    var size := Size(len);
    var start := if len == 0 then prefix else prefix - prefix % size;
    (start + size - 1) % 0x1_0000_0000
  }

  /** The order of the table. */
  predicate Before(a: Key, b: Key) {
    if a.start == b.start then a.end > b.end else a.start < b.start
  }

  // Aligned prefixes of length 0 to 31.

  ghost predicate Aligned(r: Route) {
    r.len <= 31 && r.prefix % Size(r.len) == 0
  }

  ghost predicate Block(e: Entry) {
    Aligned(e.route) && e.end == e.route.prefix + Size(e.route.len) - 1
  }

  lemma PowSplit(a: nat, b: nat)
    ensures Pow2(a + b) == Pow2(a) * Pow2(b)
  {
    if a > 0 { PowSplit(a - 1, b); }
  }

  /** A block that starts inside a block at least as large ends inside it. */
  lemma {:induction false} Inside(x: nat, k: nat, y: nat, l: nat)
    requires l <= k && x % Pow2(k) == 0 && y % Pow2(l) == 0 && x <= y < x + Pow2(k)
    ensures y + Pow2(l) <= x + Pow2(k)
  {
    PowSplit(l, k - l);
    InsideBy(Pow2(k), Pow2(l), Pow2(k - l), x, y);
  }

  lemma InsideBy(p: nat, d: nat, m: nat, x: nat, y: nat)
    requires p == d * m && 0 < p && 0 < d && x % p == 0 && y % d == 0 && y < x + p
    ensures y + d <= x + p
  {
    Quotient(x, p);
    Quotient(y, d);
    Regroup(d, m, x / p);
    Steps(d, y / d, m * (x / p) + m);
  }

  /** A smaller block that starts before a larger one ends before it. */
  lemma {:induction false} Outside(x: nat, k: nat, y: nat, l: nat)
    requires k <= l && x % Pow2(k) == 0 && y % Pow2(l) == 0 && x < y
    ensures x + Pow2(k) <= y
  {
    PowSplit(k, l - k);
    OutsideBy(Pow2(l), Pow2(k), Pow2(l - k), x, y);
  }

  lemma OutsideBy(p: nat, d: nat, m: nat, x: nat, y: nat)
    requires p == d * m && 0 < p && 0 < d && x % d == 0 && y % p == 0 && x < y
    ensures x + d <= y
  {
    Quotient(x, d);
    Quotient(y, p);
    Regroup(d, m, y / p);
    Steps(d, x / d, m * (y / p));
  }

  /** Blocks never cross: one that starts in an earlier one lies inside it and is longer in prefix. */
  lemma Nested(a: Entry, b: Entry)
    requires Block(a) && Block(b) && Before(a.KeyOf(), b.KeyOf()) && b.Start() <= a.end
    ensures b.end <= a.end && a.route.len <= b.route.len
  {
    var k, l := 32 - a.route.len, 32 - b.route.len;
    if l <= k {
      Inside(a.Start(), k, b.Start(), l);
    } else {
      PowMore(k, l);
      Outside(a.Start(), k, b.Start(), l);
      assert false;
    }
  }

  lemma {:induction false} PowMore(k: nat, l: nat)
    requires k < l
    ensures Pow2(k) < Pow2(l)
  {
    PowSplit(l - k, k);
    assert Pow2(l - k) >= 2;
  }

  /** No block starts where another ends. */
  lemma Parity(a: Entry, b: Entry)
    requires Block(a) && Block(b)
    ensures a.end != b.Start() && a.Start() < a.end
  {
    EvenBlock(a);
    EvenBlock(b);
  }

  lemma EvenBlock(a: Entry)
    requires Block(a)
    ensures a.Start() % 2 == 0 && a.end % 2 == 1 && a.Start() < a.end
  {
    EvenMultiple(a.Start(), Pow2(31 - a.route.len));
  }

  lemma EvenMultiple(x: nat, half: nat)
    requires half > 0 && x % (2 * half) == 0
    ensures x % 2 == 0 && (x + 2 * half - 1) % 2 == 1
  {
    var q := x / (2 * half);
    Quotient(x, 2 * half);
    Regroup(2, half, q);
  }

  /** The only aligned prefix of a given length that matches an address. */
  lemma OnlyBlock(a: Entry, b: Entry, dst: u32)
    requires Block(a) && Block(b) && a.route.len == b.route.len && a.Matches(dst) && b.Matches(dst)
    ensures a.KeyOf() == b.KeyOf()
  {
    var k := 32 - a.route.len;
    if a.Start() < b.Start() { Outside(a.Start(), k, b.Start(), k); }
    if b.Start() < a.Start() { Outside(b.Start(), k, a.Start(), k); }
  }

  lemma AlignedEnd(r: Route)
    requires Aligned(r)
    ensures EndIndex(r.prefix, r.len) == r.prefix + Size(r.len) - 1
  {
    PowThirtyTwo();
    PowSplit(r.len, 32 - r.len);
    Inside(0, 32, r.prefix, 32 - r.len);
  }

  lemma PowThirtyTwo()
    ensures Pow2(32) == 0x1_0000_0000
  {
    assert Pow2(8) == 256;
    PowSplit(8, 8);
    PowSplit(16, 16);
  }

  lemma BlockEnd(e: Entry)
    requires Block(e)
    ensures e.end < 0x1_0000_0000
  {
    AlignedEnd(e.route);
  }
}
