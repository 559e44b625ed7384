/** Longest-prefix match over the routes that a table stands for. */
module LongestPrefix {
  import opened Types
  import opened Arithmetic
  import opened Prefixes
  import opened Routing
  import opened Forwarding
  import opened RouteOrder

  // Longest-prefix match, the plain way.

  /** The high-order bits of the address are those of the prefix. */
  predicate Covers(r: Route, dst: u32)
    requires r.len <= 32
  {
    dst / Size(r.len) == r.prefix / Size(r.len)
  }

  ghost predicate AllAligned(routes: seq<Route>) {
    forall k :: 0 <= k < |routes| ==> Aligned(routes[k])
  }

  /** A scan of the routes: the longest that covers the address, the earliest of equals. */
  ghost function LinearMatch(routes: seq<Route>, dst: u32): Option<Route>
    requires AllAligned(routes)
  {
    if routes == [] then None
    else
      var best, r := LinearMatch(routes[..|routes| - 1], dst), routes[|routes| - 1];
      if Covers(r, dst) && (best.None? || r.len > best.value.len) then Some(r) else best
  }

  /** The earliest route with the key. */
  ghost function FirstWith(routes: seq<Route>, key: Key): (f: Option<Route>)
    requires AllAligned(routes)
    ensures f.Some? ==> f.value in routes && KeyFor(f.value) == key
    ensures f.None? ==> forall k :: 0 <= k < |routes| ==> KeyFor(routes[k]) != key
  {
    if routes == [] then None
    else
      var f, r := FirstWith(routes[..|routes| - 1], key), routes[|routes| - 1];
      if f.None? && KeyFor(r) == key then Some(r) else f
  }

  lemma CoversByRange(r: Route, dst: u32)
    requires Aligned(r)
    ensures Covers(r, dst) <==> r.prefix <= dst <= KeyFor(r).end
  {
    AlignedEnd(r);
    SameQuotient(r.prefix, dst, Size(r.len));
  }

  lemma SameQuotient(x: nat, y: nat, d: nat)
    requires d > 0 && x % d == 0
    ensures y / d == x / d <==> x <= y < x + d
  {
    var q := y / d;
    assert d * q <= y < d * q + d;
    Quotient(x, d);
    if x <= y < x + d {
      QuotientOf(x / d, q, d, y);
    }
  }

  lemma {:induction false} LinearIs(routes: seq<Route>, dst: u32)
    requires AllAligned(routes)
    ensures var m := LinearMatch(routes, dst);
            && (m.None? ==> forall k :: 0 <= k < |routes| ==> !Covers(routes[k], dst))
            && (m.Some? ==>
                  && m.value in routes && Covers(m.value, dst) && FirstWith(routes, KeyFor(m.value)) == m
                  && forall k :: 0 <= k < |routes| && Covers(routes[k], dst) ==> routes[k].len <= m.value.len)
  {
    if routes != [] {
      var n := |routes| - 1;
      LinearIs(routes[..n], dst);
      var best, r := LinearMatch(routes[..n], dst), routes[n];
      forall k | 0 <= k < n ensures routes[k] == routes[..n][k] {}
      if LinearMatch(routes, dst) != best { NewKey(routes[..n], r, dst); }
    }
  }

  /** A longer match than all earlier ones has a key of its own. */
  lemma {:induction false} NewKey(routes: seq<Route>, r: Route, dst: u32)
    requires AllAligned(routes) && Aligned(r) && Covers(r, dst)
    requires forall k :: 0 <= k < |routes| && Covers(routes[k], dst) ==> routes[k].len < r.len
    ensures FirstWith(routes, KeyFor(r)).None?
  {
    var f := FirstWith(routes, KeyFor(r));
    CoversByRange(r, dst);
    if f.Some? {
      CoversByRange(f.value, dst);
      SameLength(f.value, r);
    }
  }

  lemma SameLength(a: Route, b: Route)
    requires Aligned(a) && Aligned(b) && KeyFor(a) == KeyFor(b)
    ensures a.len == b.len
  {
    AlignedEnd(a);
    AlignedEnd(b);
    if a.len < b.len { PowMore(32 - b.len, 32 - a.len); }
    if b.len < a.len { PowMore(32 - a.len, 32 - b.len); }
  }

  // The table and the routes it stands for.

  ghost predicate Holds(t: seq<Entry>, key: Key) {
    exists i :: 0 <= i < |t| && t[i].KeyOf() == key
  }

  /** The table has one entry per key, with the earliest route that has it. */
  ghost predicate Represents(t: seq<Entry>, routes: seq<Route>)
    requires AllAligned(routes)
  {
    && (forall i :: 0 <= i < |t| ==> FirstWith(routes, t[i].KeyOf()) == Some(t[i].route))
    && (forall k :: 0 <= k < |routes| ==> Holds(t, KeyFor(routes[k])))
  }

  lemma {:induction false} FirstWithMore(routes: seq<Route>, r: Route, key: Key)
    requires AllAligned(routes) && Aligned(r)
    ensures FirstWith(routes + [r], key) ==
            if FirstWith(routes, key).None? && KeyFor(r) == key then Some(r) else FirstWith(routes, key)
  {
    assert (routes + [r])[..|routes|] == routes;
  }

  lemma SameRepresents(t: seq<Entry>, t': seq<Entry>, routes: seq<Route>)
    requires AllAligned(routes) && Represents(t, routes) && SameKeys(t, t')
    ensures Represents(t', routes)
  {
    forall k | 0 <= k < |routes| ensures Holds(t', KeyFor(routes[k])) {
      assert Holds(t, KeyFor(routes[k]));
      var i :| 0 <= i < |t| && t[i].KeyOf() == KeyFor(routes[k]);
      assert t'[i].KeyOf() == KeyFor(routes[k]);
    }
  }

  lemma {:induction false} InsertFirst(t: seq<Entry>, routes: seq<Route>, r: Route, t1: seq<Entry>, p: nat, i: nat)
    requires Sorted(t) && AllAligned(routes) && Represents(t, routes) && Aligned(r)
    requires t1 == Insert(t, r) && p == LowerBound(t, KeyFor(r)) && i < |t1|
    ensures FirstWith(routes + [r], t1[i].KeyOf()) == Some(t1[i].route)
  {
    FirstWithMore(routes, r, t1[i].KeyOf());
    if !Present(t, KeyFor(r)) {
      InsertInserted(t, r);
      if i == p { NotYet(t, routes, KeyFor(r)); } else { ShiftedFrom(t, p, t1, i); }
    }
  }

  lemma InsertRepresents(t: seq<Entry>, routes: seq<Route>, r: Route)
    requires Sorted(t) && AllAligned(routes) && Represents(t, routes) && Aligned(r)
    ensures Represents(Insert(t, r), routes + [r])
  {
    var t1, p, key := Insert(t, r), LowerBound(t, KeyFor(r)), KeyFor(r);
    var more := routes + [r];
    forall i | 0 <= i < |t1| ensures FirstWith(more, t1[i].KeyOf()) == Some(t1[i].route) {
      InsertFirst(t, routes, r, t1, p, i);
    }
    forall k | 0 <= k < |more| ensures Holds(t1, KeyFor(more[k])) {
      if k < |routes| { StillHolds(t, r, KeyFor(routes[k])); } else { assert t1[p].KeyOf() == key; }
    }
  }

  lemma {:induction false} NotYet(t: seq<Entry>, routes: seq<Route>, key: Key)
    requires Sorted(t) && AllAligned(routes) && Represents(t, routes) && !Present(t, key)
    ensures FirstWith(routes, key).None?
  {
    var f := FirstWith(routes, key);
    if f.Some? {
      var k :| 0 <= k < |routes| && routes[k] == f.value;
      assert Holds(t, KeyFor(routes[k]));
      var i :| 0 <= i < |t| && t[i].KeyOf() == key;
      FindKey(t, i);
    }
  }

  lemma StillHolds(t: seq<Entry>, r: Route, key: Key)
    requires r.len <= 32 && Holds(t, key)
    ensures Holds(Insert(t, r), key)
  {
    var t1, p := Insert(t, r), LowerBound(t, KeyFor(r));
    var i :| 0 <= i < |t| && t[i].KeyOf() == key;
    assert t1[if Present(t, KeyFor(r)) || i < p then i else i + 1].KeyOf() == key;
  }

  /** The longest match in the table is the one a scan of the routes finds. */
  lemma {:induction false} LongestIsLinear(t: seq<Entry>, routes: seq<Route>, dst: u32, best: Option<Route>)
    requires Blocks(t) && AllAligned(routes) && Represents(t, routes) && Longest(t, dst, best)
    ensures best == LinearMatch(routes, dst)
  {
    var m := LinearMatch(routes, dst);
    LinearIs(routes, dst);
    if m.Some? {
      var k :| 0 <= k < |routes| && routes[k] == m.value;
      assert Holds(t, KeyFor(routes[k]));
      var i :| 0 <= i < |t| && t[i].KeyOf() == KeyFor(m.value);
      CoversByRange(m.value, dst);
      assert t[i].Matches(dst) && t[i].route == m.value;
    }
    if best.Some? {
      var j :| 0 <= j < |t| && t[j].Matches(dst) && t[j].route == best.value;
      assert FirstWith(routes, t[j].KeyOf()) == best;
      var k :| 0 <= k < |routes| && routes[k] == best.value;
      CoversByRange(routes[k], dst);
      BestIsFirst(t, routes, dst, j, m);
    }
  }

  lemma {:induction false} BestIsFirst(t: seq<Entry>, routes: seq<Route>, dst: u32, j: nat, m: Option<Route>)
    requires Blocks(t) && AllAligned(routes) && Represents(t, routes) && j < |t| && t[j].Matches(dst)
    requires m.Some? && m.value in routes && Covers(m.value, dst) && m.value.len == t[j].route.len
    requires FirstWith(routes, KeyFor(m.value)) == m
    ensures m == Some(t[j].route)
  {
    var e := Entry(m.value, KeyFor(m.value).end, None);
    AlignedEnd(m.value);
    CoversByRange(m.value, dst);
    OnlyBlock(t[j], e, dst);
  }

  /** No earlier route lies inside the new one, other than the same prefix again. */
  ghost predicate InOrder(routes: seq<Route>, r: Route)
    requires AllAligned(routes) && Aligned(r)
  {
    forall k :: 0 <= k < |routes| ==>
      var key := KeyFor(routes[k]);
      key == KeyFor(r) || !(r.prefix <= key.start && key.end <= KeyFor(r).end)
  }

  lemma OrderSafe(t: seq<Entry>, routes: seq<Route>, r: Route)
    requires Sorted(t) && AllAligned(routes) && Represents(t, routes) && Aligned(r) && InOrder(routes, r)
    ensures Harmfree(t, r)
  {
    var p := LowerBound(t, KeyFor(r));
    if p < |t| && !Present(t, KeyFor(r)) {
      assert FirstWith(routes, t[p].KeyOf()) == Some(t[p].route);
      var k :| 0 <= k < |routes| && routes[k] == t[p].route;
    }
  }

  /** The table stands for the routes and every lookup in it is right. */
  ghost predicate Serves(t: seq<Entry>, routes: seq<Route>) {
    Table(t) && Sure(t) && AllAligned(routes) && Represents(t, routes)
  }

  /** A safe addition keeps the table serving. */
  lemma AddServes(t: seq<Entry>, routes: seq<Route>, r: Route) returns (t': seq<Entry>)
    requires Serves(t, routes) && Aligned(r) && Harmfree(t, r)
    ensures t' == Add(t, r) && Serves(t', routes + [r])
  {
    t' := AddSure(t, r);
    var t'' := AddShape(t, r);
    InsertRepresents(t, routes, r);
    SameRepresents(Insert(t, r), t', routes + [r]);
  }

  /** The table that results from adding routes one after the other. */
  function Build(routes: seq<Route>): seq<Entry>
    requires forall k :: 0 <= k < |routes| ==> routes[k].len <= 32
  {
    if routes == [] then [] else Add(Build(routes[..|routes| - 1]), routes[|routes| - 1])
  }

  ghost predicate AllInOrder(routes: seq<Route>)
    requires AllAligned(routes)
  {
    forall n :: 0 <= n < |routes| ==> InOrder(routes[..n], routes[n])
  }

  /** Every addition is safe, or repeats a prefix. */
  ghost predicate AllSafe(routes: seq<Route>)
    requires AllAligned(routes)
  {
    routes == [] ||
    (var n := |routes| - 1; AllSafe(routes[..n]) && Harmfree(Build(routes[..n]), routes[n]))
  }

  lemma SplitLast<T>(s: seq<T>)
    requires s != []
    ensures s == s[..|s| - 1] + [s[|s| - 1]]
  {
  }

  lemma {:induction false} PrefixOfPrefix<T>(s: seq<T>, n: nat, m: nat)
    requires m <= n <= |s|
    ensures s[..n][..m] == s[..m]
  {
  }

  lemma EarlierInOrder(routes: seq<Route>, n: nat)
    requires AllAligned(routes) && AllInOrder(routes) && n <= |routes|
    ensures AllAligned(routes[..n]) && AllInOrder(routes[..n])
  {
    forall m | 0 <= m < n ensures InOrder(routes[..n][..m], routes[..n][m]) { PrefixOfPrefix(routes, n, m); }
  }

  lemma {:induction false} EarlierSafe(routes: seq<Route>, n: nat)
    requires AllAligned(routes) && AllSafe(routes) && n <= |routes|
    ensures AllAligned(routes[..n]) && AllSafe(routes[..n])
    decreases |routes|
  {
    if n == |routes| {
      assert routes[..n] == routes;
    } else {
      var m := |routes| - 1;
      EarlierSafe(routes[..m], n);
      PrefixOfPrefix(routes, m, n);
    }
  }

  lemma {:induction false} BuildServes(routes: seq<Route>) returns (t: seq<Entry>)
    requires AllAligned(routes) && AllSafe(routes)
    ensures t == Build(routes) && Serves(t, routes)
  {
    t := [];
    if routes != [] {
      var n := |routes| - 1;
      var t0 := BuildServes(routes[..n]);
      SplitLast(routes);
      t := AddServes(t0, routes[..n], routes[n]);
    }
  }

  /** Adding every prefix before those inside it is safe throughout. */
  lemma {:induction false} InOrderSafe(routes: seq<Route>)
    requires AllAligned(routes) && AllInOrder(routes)
    ensures AllSafe(routes)
  {
    if routes != [] {
      var n := |routes| - 1;
      EarlierInOrder(routes, n);
      InOrderSafe(routes[..n]);
      var t := BuildServes(routes[..n]);
      OrderSafe(t, routes[..n], routes[n]);
    }
  }

  /**
   * For every table built from aligned prefixes of length 0 to 31 by safe
   * additions, and every address, following links ends within as many steps as
   * there are entries, with the route that a scan finds.
   */
  lemma {:induction false} LookupIsLinear(routes: seq<Route>, dst: u32)
    requires AllAligned(routes) && AllSafe(routes)
    ensures var t := Build(routes); Search(t, dst, |t|) == Done(LinearMatch(routes, dst))
  {
    var t := BuildServes(routes);
    SearchLongest(t, dst, |t|);
    LongestIsLinear(t, routes, dst, Search(t, dst, |t|).best);
  }

  /** In particular when each prefix is added before any prefix inside it. */
  lemma {:induction false} LookupInOrder(routes: seq<Route>, dst: u32)
    requires AllAligned(routes) && AllInOrder(routes)
    ensures var t := Build(routes); Search(t, dst, |t|) == Done(LinearMatch(routes, dst))
  {
    InOrderSafe(routes);
    LookupIsLinear(routes, dst);
  }

  /** Every lookup is right after each of the additions. */
  ghost predicate AlwaysAnswered(routes: seq<Route>)
    requires AllAligned(routes)
  {
    forall n :: 0 <= n <= |routes| ==> AllAnswered(Build(routes[..n]))
  }

  /** The exact orders: every lookup is right after every addition if and only if every addition is safe. */
  lemma {:induction false} SafeOrdersExactly(routes: seq<Route>)
    requires AllAligned(routes)
    ensures AllSafe(routes) <==> AlwaysAnswered(routes)
  {
    if AllSafe(routes) {
      forall n | 0 <= n <= |routes| ensures AllAnswered(Build(routes[..n])) {
        EarlierSafe(routes, n);
        var t := BuildServes(routes[..n]);
        SureAnswers(t);
      }
    }
    if AlwaysAnswered(routes) { AnsweredSafe(routes); }
  }

  lemma {:induction false} AnsweredSafe(routes: seq<Route>)
    requires AllAligned(routes) && AlwaysAnswered(routes)
    ensures AllSafe(routes)
  {
    if routes != [] {
      var n := |routes| - 1;
      EarlierAnswered(routes, n);
      AnsweredSafe(routes[..n]);
      var t := BuildServes(routes[..n]);
      LastAnswered(routes, n, t);
    }
  }

  lemma {:induction false} EarlierAnswered(routes: seq<Route>, n: nat)
    requires AllAligned(routes) && AlwaysAnswered(routes) && n <= |routes|
    ensures AllAligned(routes[..n]) && AlwaysAnswered(routes[..n])
  {
    forall m | 0 <= m <= n ensures AllAnswered(Build(routes[..n][..m])) { PrefixOfPrefix(routes, n, m); }
  }

  lemma {:induction false} LastAnswered(routes: seq<Route>, n: nat, t: seq<Entry>)
    requires AllAligned(routes) && AlwaysAnswered(routes) && |routes| == n + 1 && t == Build(routes[..n]) && Table(t) && Sure(t)
    ensures Harmfree(t, routes[n])
  {
    assert routes[..n + 1] == routes;
    assert AllAnswered(Build(routes[..n + 1]));
    if !Present(t, KeyFor(routes[n])) { SafeExactly(t, routes[n]); }
  }

  // Out of order.

  const DEFAULT_ROUTE: Route := Route(0, 0, 0, 0)

  /** A default route that comes last breaks some lookup, whatever routes came before it. */
  lemma {:induction false} DefaultLast(routes: seq<Route>)
    requires AllAligned(routes) && AllSafe(routes) && routes != []
    requires forall k :: 0 <= k < |routes| ==> routes[k].len > 0
    ensures !AllAnswered(Build(routes + [DEFAULT_ROUTE]))
  {
    var t := BuildServes(routes);
    DefaultFirst(t, routes);
    SafeExactly(t, DEFAULT_ROUTE);
    assert (routes + [DEFAULT_ROUTE])[..|routes|] == routes;
  }

  lemma DefaultFirst(t: seq<Entry>, routes: seq<Route>)
    requires Serves(t, routes) && routes != [] && forall k :: 0 <= k < |routes| ==> routes[k].len > 0
    ensures Aligned(DEFAULT_ROUTE) && !Present(t, KeyFor(DEFAULT_ROUTE)) && !Safe(t, DEFAULT_ROUTE)
    ensures t != [] && LowerBound(t, KeyFor(DEFAULT_ROUTE)) == 0
  {
    var r := DEFAULT_ROUTE;
    PowThirtyTwo();
    AlignedEnd(r);
    assert Holds(t, KeyFor(routes[0]));
    assert FirstWith(routes, t[0].KeyOf()) == Some(t[0].route);
    var k :| 0 <= k < |routes| && routes[k] == t[0].route;
    if KeyFor(routes[k]) == KeyFor(r) { SameLength(routes[k], r); }
  }

  /** For instance: 10.0.0.0/8, then the default route; the lookup of 10.255.255.255 never ends. */
  lemma DefaultLastInstance()
    ensures var t := Build([Route(0x0A00_0000, 8, 0, 1), DEFAULT_ROUTE]);
            forall steps: nat :: !Search(t, 0x0AFF_FFFF, steps).Done?
  {
    var r := Route(0x0A00_0000, 8, 0, 1);
    assert Aligned(r) && KeyFor(r) == Key(0x0A00_0000, 0x0AFF_FFFF) by { TenSlashEight(); }
    assert [r][..0] == [];
    InOrderSafe([r]);
    var t := BuildServes([r]);
    Single(r);
    AfterSingle(t, [r]);
    assert [r, DEFAULT_ROUTE][..1] == [r];
  }

  lemma TenSlashEight()
    ensures var r := Route(0x0A00_0000, 8, 0, 1); Aligned(r) && KeyFor(r) == Key(0x0A00_0000, 0x0AFF_FFFF)
  {
    assert Pow2(8) == 256;
    PowSplit(8, 8);
    PowSplit(16, 8);
    AlignedEnd(Route(0x0A00_0000, 8, 0, 1));
  }

  lemma Single(r: Route)
    requires r.len <= 32
    ensures Build([r]) == [Entry(r, KeyFor(r).end, None)]
  {
    assert [r][..0] == [];
    assert Insert([], r) == [Entry(r, KeyFor(r).end, None)];
  }

  lemma AfterSingle(t: seq<Entry>, routes: seq<Route>)
    requires Serves(t, routes) && routes != [] && (forall k :: 0 <= k < |routes| ==> routes[k].len > 0)
    requires t != [] && t[0].end < 0x1_0000_0000
    ensures forall steps: nat :: !Search(Add(t, DEFAULT_ROUTE), t[0].end, steps).Done?
  {
    DefaultFirst(t, routes);
    var t' := AddShape(t, DEFAULT_ROUTE);
    Unlinked(t, DEFAULT_ROUTE);
    FrontUnsafe(t, DEFAULT_ROUTE, KeyFor(DEFAULT_ROUTE).end, t');
  }
}
