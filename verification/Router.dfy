/** The router object. */
module Routers {
  import opened Types
  import opened Prefixes
  import opened Routing
  import opened Forwarding
  import opened RouteOrder
  import opened LongestPrefix

  /** The loop variables of the lookup hold the best route so far. */
  ghost predicate Keeps(best: Option<Route>, saved: bool, length: nat, hop: u32, interface: nat) {
    if best.None? then !saved && length == 0
    else saved && best.value == Route(best.value.prefix, length, hop, interface)
  }

  /** One step of the lookup. */
  method Advance(t: seq<Entry>, dst: u32, it: nat, fast: bool, ghost j: nat) returns (it': nat, fast': bool)
    requires 0 < it <= |t| && (fast ==> it < |t|)
    requires j < it && j == if fast then Deref(t, t[it].link) else it - 1
    ensures it' == j && fast' == (fast || t[j].end <= dst)
  {
    fast' := fast;
    if fast {
      it' := Deref(t, t[it].link);
    } else {
      it' := it - 1;
      if t[it'].end <= dst {
        fast' := true;
      }
    }
  }

  /** The loop of the lookup. */
  method Follow(t: seq<Entry>, dst: u32) returns (saved: bool, interface: nat, hop: u32, ghost best: Option<Route>)
    requires Sorted(t) && Blocks(t) && Jumps(t, dst)
    ensures Search(t, dst, |t|) == Done(best) && Longest(t, dst, best) && saved == best.Some?
    ensures saved ==> interface == best.value.interface && hop == best.value.hop
  {
    var it: nat, fast, length := LowerBound(t, Key(dst, 0)), false, 0;
    saved, interface, hop, best := false, 0, 0, None;
    SearchStarts(t, dst);
    while it != 0
      invariant OnTrack(t, dst, it, fast, best)
      invariant Keeps(best, saved, length, hop, interface)
      decreases it
    {
      ghost var j := StaysOnTrack(t, dst, it, fast, best);
      it, fast := Advance(t, dst, it, fast, j);
      best := Better(best, t[it], dst);
      if t[it].end >= dst && t[it].route.len >= length {
        length, interface, hop, saved := t[it].route.len, t[it].route.interface, t[it].route.hop, true;
      }
    }
    SearchLongest(t, dst, |t|);
    LongestUnique(t, dst, best, Search(t, dst, |t|).best);
  }

  class Router {
    var table: seq<Entry>
    /** The routes added so far. */
    ghost var routes: seq<Route>

    /** What every sequence of additions of aligned prefixes keeps. */
    ghost predicate Shaped()
      reads this
    {
      Table(table)
    }

    /** What safe additions keep: lookups are right. */
    ghost predicate Valid()
      reads this
    {
      Serves(table, routes)
    }

    constructor ()
      ensures Valid() && table == [] && routes == []
    {
      table, routes := [], [];
    }

    /** Links the entry at p to the nearest earlier one that ends beyond it. */
    method LinkBack(p: nat)
      requires p < |table|
      modifies this`table
      ensures table == LinkUp(old(table), p)
    {
      var it := p;
      while it != 0
        invariant 0 <= it <= p && table == old(table)
        invariant Enclosing(table, it, table[p].end) == Enclosing(table, p, table[p].end)
      {
        it := it - 1;
        if table[it].end > table[p].end {
          table := SetLink(table, p, it);
          return;
        }
      }
    }

    /** Past the entry at i and everything that starts before its end, one entry at a time. */
    method StepOver(i: nat) returns (k: nat)
      requires Sorted(table) && Blocks(table) && i < |table|
      ensures k == Skip(table, i)
    {
      k := i + 1;
      var key := Key(table[i].end, 0xFFFF_FFFF);
      while k < |table| && table[k].Start() < table[i].end
        invariant i < k <= |table| && LowerFrom(table, key, k) == Skip(table, i)
      {
        k := k + 1;
      }
      if k < |table| { BlockEnd(table[k]); }
    }

    /** The same by search. */
    method JumpOver(i: nat) returns (k: nat)
      requires Sorted(table) && Blocks(table) && i < |table|
      ensures k == Skip(table, i)
    {
      k := LowerBound(table, Key(table[i].end, 0xFFFF_FFFF));
      Overtakes(table, i);
    }
  
    /** Links the later entries that end beyond the one at p to it; the size at which to search is of no consequence. */
    method LinkForward(p: nat, logLength: nat)
      requires Sorted(table) && Blocks(table) && p < |table|
      modifies this`table
      ensures table == Relink(old(table), p, p + 1)
    {
      var it := p + 1;
      while it < |table|
        invariant p < it <= |table| && Sorted(table) && Blocks(table)
        invariant Relink(table, p, it) == Relink(old(table), p, p + 1)
        decreases |table| - it
      {
        if table[p].end >= table[it].end {
          return;
        }
        ghost var t, i := table, it;
        table := SetLink(table, it, p);
        SameSorted(t, table);
        var size := table[it].end - table[it].Start() + 1;
        if size < logLength {
          it := StepOver(it);
        } else {
          it := JumpOver(it);
        }
        SameSkip(t, table, i);
      }
    }

    /** Adds a route; any order leaves a table of the right shape, a safe addition keeps lookups right. */
    method AddRoute(prefix: u32, len: nat, nextHop: Option<u32>, interface: nat, logLength: nat)
      requires Shaped() && Aligned(Route(prefix, len, if nextHop.Some? then nextHop.value else 0, interface))
      modifies this
      ensures var r := Route(prefix, len, if nextHop.Some? then nextHop.value else 0, interface);
              && Shaped() && table == Add(old(table), r) && routes == old(routes) + [r]
              && (old(Valid()) && Harmfree(old(table), r) ==> Valid())
    {
      var r := Route(prefix, len, if nextHop.Some? then nextHop.value else 0, interface);
      var p := LowerBound(table, KeyFor(r));
      if !Present(table, KeyFor(r)) { InsertKeeps(table, r); }
      ghost var t := table;
      table, routes := Insert(table, r), routes + [r];
      ghost var t1 := table;
      LinkBack(p);
      LinkUpImproves(t1, p);
      SameSorted(t1, table);
      LinkForward(p, logLength);
      ghost var t' := AddShape(t, r);
      if Serves(t, old(routes)) && Harmfree(t, r) {
        t' := AddServes(t, old(routes), r);
      }
    }

    method Lookup(dst: u32) returns (saved: bool, interface: nat, hop: u32)
      requires Valid()
      ensures saved == LinearMatch(routes, dst).Some?
      ensures saved ==> interface == LinearMatch(routes, dst).value.interface && hop == LinearMatch(routes, dst).value.hop
    {
      ghost var best;
      saved, interface, hop, best := Follow(table, dst);
      LongestIsLinear(table, routes, dst, best);
    }

    /** Forwards a datagram: the interface and next hop, or nothing if no route matches or its time to live is over. */
    method RouteOneDatagram(dst: u32, ttl: u8) returns (ttl': u8, out: Option<(nat, u32)>)
      requires Valid()
      ensures ttl' == Max(0, ttl - 1)
      ensures out.Some? <==> ttl' > 0 && LinearMatch(routes, dst).Some?
      ensures out.Some? ==> var r := LinearMatch(routes, dst).value;
                            out.value.0 == r.interface && (out.value.1 == dst || r.hop != 0) && (out.value.1 == r.hop || r.hop == 0)
    {
      ttl', out := ttl, None;
      if ttl' != 0 {
        ttl' := ttl' - 1;
      }
      if ttl' == 0 {
        return;
      }
      var saved, interface, hop := Lookup(dst);
      if saved {
        out := Some((interface, if hop == 0 then dst else hop));
      }
    }
  }
}
