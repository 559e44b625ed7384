/** The lookup that follows links, and what it must find: the longest matching prefix. */
module Forwarding {
  import opened Types
  import opened Prefixes
  import opened Routing

  /** The position a link leads to; none leads past the end. */
  function Deref(t: seq<Entry>, link: Option<Key>): nat {
    if link.Some? && Present(t, link.value) then LowerBound(t, link.value) else |t|
  }

  /** How a lookup ends: with a route or none, by following a link past the end, or not within the steps given. */
  datatype Outcome = Done(best: Option<Route>) | Lost | Unfinished

  function Better(best: Option<Route>, e: Entry, dst: u32): Option<Route> {
    if e.end >= dst && e.route.len >= (if best.Some? then best.value.len else 0) then Some(e.route) else best
  }

  /** The loop of `route_one_datagram`: step back until an entry ends by dst, then follow links to the front. */
  function Walk(t: seq<Entry>, it: nat, fast: bool, dst: u32, best: Option<Route>, steps: nat): Outcome
    requires it <= |t| && (fast ==> it < |t|)
    decreases steps
  {
    if it == 0 then Done(best)
    else if steps == 0 then Unfinished
    else
      var it' := if fast then Deref(t, t[it].link) else it - 1;
      if it' >= |t| then Lost
      else Walk(t, it', fast || t[it'].end <= dst, dst, Better(best, t[it'], dst), steps - 1)
  }

  function Search(t: seq<Entry>, dst: u32, steps: nat): Outcome {
    Walk(t, LowerBound(t, Key(dst, 0)), false, dst, None, steps)
  }

  // What a lookup should find.

  /** The best match among the entries from position i on. */
  ghost predicate Leads(t: seq<Entry>, dst: u32, i: nat, best: Option<Route>) {
    && (best.None? ==> forall k :: i <= k < |t| ==> !t[k].Matches(dst))
    && (best.Some? ==>
          && (exists k :: i <= k < |t| && t[k].Matches(dst) && t[k].route == best.value)
          && (forall k :: i <= k < |t| && t[k].Matches(dst) ==> t[k].route.len <= best.value.len))
  }

  ghost predicate Longest(t: seq<Entry>, dst: u32, best: Option<Route>) {
    Leads(t, dst, 0, best)
  }

  /** Whatever the jump from i passes over is outdone from i on. */
  ghost predicate Harmless(t: seq<Entry>, dst: u32, i: nat, j: nat) {
    forall k :: j < k < i < |t| && t[k].Matches(dst) ==> Outdone(t, dst, i, t[k].route.len)
  }

  ghost predicate Outdone(t: seq<Entry>, dst: u32, i: nat, len: nat) {
    exists s :: i <= s < |t| && t[s].Matches(dst) && len <= t[s].route.len
  }

  ghost predicate GoodJump(t: seq<Entry>, dst: u32, i: nat) {
    exists j: nat :: PointsTo(t, i, j) && j < i && Harmless(t, dst, i, j)
  }

  ghost predicate Jumps(t: seq<Entry>, dst: u32) {
    forall i: nat {:trigger GoodJump(t, dst, i)} :: 0 < i < |t| && t[i].Start() <= dst ==> GoodJump(t, dst, i)
  }

  lemma DerefPoints(t: seq<Entry>, i: nat, j: nat)
    requires Sorted(t) && PointsTo(t, i, j)
    ensures Deref(t, t[i].link) == j
  {
    FindKey(t, j);
  }

  lemma FindKey(t: seq<Entry>, j: nat)
    requires Sorted(t) && j < |t|
    ensures Present(t, t[j].KeyOf()) && LowerBound(t, t[j].KeyOf()) == j
  {
    var p := LowerBound(t, t[j].KeyOf());
    assert p <= j;
  }

  lemma Extends(t: seq<Entry>, dst: u32, i: nat, j: nat, best: Option<Route>)
    requires j < i <= |t| && Leads(t, dst, i, best) && t[j].Start() <= dst && (i == j + 1 || Harmless(t, dst, i, j))
    requires i < |t| || i == j + 1
    ensures Leads(t, dst, j, Better(best, t[j], dst))
  {
    var b := Better(best, t[j], dst);
    forall k | j <= k < |t| && t[k].Matches(dst) ensures b.Some? && t[k].route.len <= b.value.len {
      if j < k < i {
        assert Outdone(t, dst, i, t[k].route.len);
        var s :| i <= s < |t| && t[s].Matches(dst) && t[k].route.len <= t[s].route.len;
      }
    }
  }

  /** What holds whenever the lookup is at position it. */
  ghost predicate OnTrack(t: seq<Entry>, dst: u32, it: nat, fast: bool, best: Option<Route>) {
    && it <= |t| && (fast ==> it < |t| && t[it].Start() <= dst)
    && (forall k :: 0 <= k < it ==> t[k].Start() <= dst) && Leads(t, dst, it, best)
  }

  lemma StaysOnTrack(t: seq<Entry>, dst: u32, it: nat, fast: bool, best: Option<Route>) returns (j: nat)
    requires Sorted(t) && Jumps(t, dst) && it > 0 && OnTrack(t, dst, it, fast, best)
    ensures j < it && j == (if fast then Deref(t, t[it].link) else it - 1)
    ensures OnTrack(t, dst, j, fast || t[j].end <= dst, Better(best, t[j], dst))
  {
    j := NextStop(t, it, fast, dst);
    Extends(t, dst, it, j, best);
  }

  lemma {:induction false} WalkLeads(t: seq<Entry>, it: nat, fast: bool, dst: u32, best: Option<Route>, steps: nat) returns (o: Outcome)
    requires Sorted(t) && Jumps(t, dst) && it <= steps && OnTrack(t, dst, it, fast, best)
    ensures o == Walk(t, it, fast, dst, best, steps) && o.Done? && Longest(t, dst, o.best)
    decreases steps
  {
    o := Done(best);
    if it > 0 {
      var j := StaysOnTrack(t, dst, it, fast, best);
      o := WalkLeads(t, j, fast || t[j].end <= dst, dst, Better(best, t[j], dst), steps - 1);
    }
  }

  lemma NextStop(t: seq<Entry>, it: nat, fast: bool, dst: u32) returns (j: nat)
    requires Sorted(t) && Jumps(t, dst) && 0 < it <= |t| && (fast ==> it < |t| && t[it].Start() <= dst)
    ensures j == (if fast then Deref(t, t[it].link) else it - 1) && j < it && (j + 1 == it || Harmless(t, dst, it, j))
  {
    j := it - 1;
    if fast {
      assert GoodJump(t, dst, it);
      j :| PointsTo(t, it, j) && j < it && Harmless(t, dst, it, j);
      DerefPoints(t, it, j);
    }
  }

  lemma SearchStarts(t: seq<Entry>, dst: u32)
    requires Sorted(t) && Blocks(t)
    ensures OnTrack(t, dst, LowerBound(t, Key(dst, 0)), false, None)
  {
    var m := LowerBound(t, Key(dst, 0));
    forall k | m <= k < |t| ensures !t[k].Matches(dst) {
      Parity(t[m], t[m]);
      if m < k { assert Before(t[m].KeyOf(), t[k].KeyOf()); }
    }
  }

  lemma SearchLongest(t: seq<Entry>, dst: u32, steps: nat)
    requires Sorted(t) && Blocks(t) && Jumps(t, dst) && steps >= |t|
    ensures var o := Search(t, dst, steps); o.Done? && Longest(t, dst, o.best)
  {
    SearchStarts(t, dst);
    var o := WalkLeads(t, LowerBound(t, Key(dst, 0)), false, dst, None, steps);
  }

  lemma LongestUnique(t: seq<Entry>, dst: u32, a: Option<Route>, b: Option<Route>)
    requires Sorted(t) && Blocks(t) && Longest(t, dst, a) && Longest(t, dst, b)
    ensures a == b
  {
    if a.Some? {
      var i :| 0 <= i < |t| && t[i].Matches(dst) && t[i].route == a.value;
      var j :| 0 <= j < |t| && t[j].Matches(dst) && t[j].route == b.value;
      OnlyBlock(t[i], t[j], dst);
      UniqueKey(t, i, j);
    }
  }

  lemma LinkHarmless(t: seq<Entry>, dst: u32, i: nat)
    requires Sorted(t) && Blocks(t) && i < |t| && LinkOK(t, i) && t[i].Start() <= dst
    ensures GoodJump(t, dst, i)
  {
    var j: nat :| PointsTo(t, i, j) && j < i && Shadows(t, j, i);
    forall k | j < k < i && t[k].Matches(dst) ensures Outdone(t, dst, i, t[k].route.len) {
      Nested(t[k], t[i]);
      assert t[i].Matches(dst);
    }
    assert Harmless(t, dst, i, j);
  }

  /** In a well-linked table no jump passes over a longer match. */
  lemma LinkedJumps(t: seq<Entry>, dst: u32)
    requires Sorted(t) && Blocks(t) && WellLinked(t)
    ensures Jumps(t, dst)
  {
    forall i: nat | 0 < i < |t| && t[i].Start() <= dst ensures GoodJump(t, dst, i) {
      assert LinkOK(t, i);
      LinkHarmless(t, dst, i);
    }
  }

  /** The lookup of dst ends, with the longest match. */
  ghost predicate Answers(t: seq<Entry>, dst: u32) {
    exists steps: nat :: Search(t, dst, steps).Done? && Longest(t, dst, Search(t, dst, steps).best)
  }

  lemma LinkedAnswers(t: seq<Entry>, dst: u32)
    requires Sorted(t) && Blocks(t) && Jumps(t, dst)
    ensures Answers(t, dst)
  {
    SearchLongest(t, dst, |t|);
  }
}
