/** Exactly which route may be added next: not every order leaves lookups right. */
module RouteOrder {
  import opened Types
  import opened Prefixes
  import opened Routing
  import opened Forwarding

  ghost predicate AllAnswered(t: seq<Entry>) {
    forall dst: u32 :: Answers(t, dst)
  }

  /** Every address of the new prefix beyond the entry that follows it matches an entry inside the new prefix. */
  ghost predicate Covered(t: seq<Entry>, p: nat, end: nat)
    requires p < |t|
  {
    forall dst: u32 :: t[p].end < dst <= end ==> MatchedInside(t, p, end, dst)
  }

  ghost predicate MatchedInside(t: seq<Entry>, p: nat, end: nat, dst: u32) {
    exists x :: p <= x < |t| && t[x].Matches(dst) && t[x].end <= end
  }

  /**
   * The entry that would follow the new one is not inside it; or it is, but the
   * new one is not first, and entries inside it leave it nothing beyond that entry.
   */
  ghost predicate Safe(t: seq<Entry>, r: Route)
    requires r.len <= 32
  {
    var p, end := LowerBound(t, KeyFor(r)), KeyFor(r).end;
    p == |t| || end < t[p].end || (0 < p && Covered(t, p, end))
  }

  // Safe additions.

  /** t' is t with an entry for r at position p, whatever its link. */
  ghost predicate Inserted(t: seq<Entry>, r: Route, p: nat, end: nat, t': seq<Entry>) {
    Shifted(t, p, t') && t'[p].route == r && t'[p].end == end
  }

  /** An addition in front of an entry inside it links nothing to it. */
  lemma Unlinked(t: seq<Entry>, r: Route)
    requires r.len <= 32 && !Present(t, KeyFor(r))
    requires var p := LowerBound(t, KeyFor(r)); p < |t| && t[p].end <= KeyFor(r).end
    ensures Inserted(t, r, LowerBound(t, KeyFor(r)), KeyFor(r).end, Add(t, r))
  {
    var t1, p := Insert(t, r), LowerBound(t, KeyFor(r));
    InsertInserted(t, r);
    var t2 := LinkUp(t1, p);
    assert t2[p + 1] == t[p];
    assert Add(t, r) == t2;
  }

  lemma InsertInserted(t: seq<Entry>, r: Route)
    requires r.len <= 32 && !Present(t, KeyFor(r))
    ensures Inserted(t, r, LowerBound(t, KeyFor(r)), KeyFor(r).end, Insert(t, r))
  {
  }

  /** Whatever the address, following links does no harm. */
  ghost predicate Sure(t: seq<Entry>) {
    forall dst: u32 :: Jumps(t, dst)
  }

  /** Changing links for good ones does no harm. */
  lemma ImproveJump(t: seq<Entry>, t': seq<Entry>, dst: u32, k: nat)
    requires Sorted(t') && Blocks(t') && Improves(t, t') && k < |t| && GoodJump(t, dst, k) && t[k].Start() <= dst
    ensures GoodJump(t', dst, k)
  {
    if LinkOK(t', k) {
      LinkHarmless(t', dst, k);
    } else {
      var j: nat :| PointsTo(t, k, j) && j < k && Harmless(t, dst, k, j);
      assert PointsTo(t', k, j);
      forall f | j < f < k && t'[f].Matches(dst) ensures Outdone(t', dst, k, t'[f].route.len) {
        assert Outdone(t, dst, k, t[f].route.len);
        var x :| k <= x < |t| && t[x].Matches(dst) && t[f].route.len <= t[x].route.len;
        assert t'[x].Matches(dst);
      }
    }
  }

  /** What outdoes a match in the old table does so in the new one. */
  lemma StillOutdone(t: seq<Entry>, r: Route, p: nat, end: nat, t': seq<Entry>, dst: u32, k: nat, len: nat)
    requires Inserted(t, r, p, end, t') && k < |t| && Outdone(t, dst, k, len)
    ensures Outdone(t', dst, if k < p then k else k + 1, len)
  {
    var x :| k <= x < |t| && t[x].Matches(dst) && len <= t[x].route.len;
    assert t'[if x < p then x else x + 1] == t[x];
  }

  /** An entry inside the new one that matches the address, when the new one does and the entry at k starts before it. */
  lemma InsideMatch(t: seq<Entry>, r: Route, p: nat, end: nat, t': seq<Entry>, dst: u32, k: nat) returns (x: nat)
    requires Sorted(t') && Blocks(t') && Inserted(t, r, p, end, t') && p <= k < |t| && t[k].Start() <= dst && t'[p].Matches(dst)
    requires end < t[p].end || Covered(t, p, end)
    ensures p <= x < |t| && t[x].Matches(dst) && r.len <= t[x].route.len
  {
    StartsBefore(t', p + 1, k + 1);
    NestedAt(t', p, p + 1);
    x := p;
    if t[p].end < dst {
      assert MatchedInside(t, p, end, dst);
      x :| p <= x < |t| && t[x].Matches(dst) && t[x].end <= end;
    }
    NestedAt(t', p, x + 1);
  }

  lemma StartsBefore(t: seq<Entry>, i: nat, k: nat)
    requires Sorted(t) && i <= k < |t|
    ensures t[i].Start() <= t[k].Start()
  {
    if i < k { assert Before(t[i].KeyOf(), t[k].KeyOf()); }
  }

  lemma NestedAt(t: seq<Entry>, i: nat, k: nat)
    requires Sorted(t) && Blocks(t) && i < k < |t| && t[k].Start() <= t[i].end
    ensures t[k].end <= t[i].end && t[i].route.len <= t[k].route.len
  {
    Nested(t[i], t[k]);
  }

  /** What a jump over the new entry passes is outdone, the new entry included. */
  lemma PassedOver(t: seq<Entry>, r: Route, p: nat, end: nat, t': seq<Entry>, dst: u32, k: nat, j: nat, f: nat)
    requires Sorted(t') && Blocks(t') && Inserted(t, r, p, end, t') && j < k < |t| && Harmless(t, dst, k, j) && t[k].Start() <= dst
    requires p <= k ==> end < t[p].end || Covered(t, p, end)
    requires (if j < p then j else j + 1) < f < (if k < p then k else k + 1) && t'[f].Matches(dst)
    ensures Outdone(t', dst, if k < p then k else k + 1, t'[f].route.len)
  {
    if f != p {
      var f0 := if f < p then f else f - 1;
      ShiftedFrom(t, p, t', f);
      assert Outdone(t, dst, k, t[f0].route.len);
      StillOutdone(t, r, p, end, t', dst, k, t[f0].route.len);
    } else {
      var x := InsideMatch(t, r, p, end, t', dst, k);
      assert Outdone(t, dst, k, t[x].route.len);
      StillOutdone(t, r, p, end, t', dst, k, r.len);
    }
  }

  lemma InsertJump(t: seq<Entry>, r: Route, p: nat, end: nat, t': seq<Entry>, dst: u32, k: nat)
    requires Sorted(t') && Blocks(t') && Inserted(t, r, p, end, t') && k < |t| && GoodJump(t, dst, k) && t[k].Start() <= dst
    requires p <= k ==> end < t[p].end || Covered(t, p, end)
    ensures GoodJump(t', dst, if k < p then k else k + 1)
  {
    var j: nat :| PointsTo(t, k, j) && j < k && Harmless(t, dst, k, j);
    var k', j' := if k < p then k else k + 1, if j < p then j else j + 1;
    assert PointsTo(t', k', j');
    forall f | j' < f < k' && t'[f].Matches(dst) ensures Outdone(t', dst, k', t'[f].route.len) {
      PassedOver(t, r, p, end, t', dst, k, j, f);
    }
    assert Harmless(t', dst, k', j');
  }

  /** The addition is safe, or repeats a prefix. */
  ghost predicate Harmfree(t: seq<Entry>, r: Route)
    requires r.len <= 32
  {
    Present(t, KeyFor(r)) || Safe(t, r)
  }

  lemma RepeatJumps(t: seq<Entry>, t': seq<Entry>, dst: u32)
    requires Sorted(t') && Blocks(t') && Improves(t, t') && Jumps(t, dst)
    ensures Jumps(t', dst)
  {
    forall i: nat | 0 < i < |t'| && t'[i].Start() <= dst ensures GoodJump(t', dst, i) {
      assert GoodJump(t, dst, i);
      ImproveJump(t, t', dst, i);
    }
  }

  /** A safe addition leaves no harmful jump, nor does adding the same prefix again. */
  lemma AddSure(t: seq<Entry>, r: Route) returns (t': seq<Entry>)
    requires Table(t) && Sure(t) && Aligned(r) && Harmfree(t, r)
    ensures t' == Add(t, r) && Table(t') && Sure(t')
  {
    t' := AddShape(t, r);
    if Present(t, KeyFor(r)) {
      forall dst: u32 ensures Jumps(t', dst) { RepeatJumps(t, t', dst); }
    } else {
      var p, t1 := LowerBound(t, KeyFor(r)), Insert(t, r);
      InsertKeeps(t, r);
      InsertInserted(t, r);
      forall dst: u32 ensures Jumps(t', dst) { NewJumps(t, r, p, KeyFor(r).end, t1, t', dst); }
    }
  }

  lemma NewJumps(t: seq<Entry>, r: Route, p: nat, end: nat, t1: seq<Entry>, t': seq<Entry>, dst: u32)
    requires Sorted(t1) && Blocks(t1) && Inserted(t, r, p, end, t1) && Jumps(t, dst)
    requires Sorted(t') && Blocks(t') && Improves(t1, t') && NewLinks(t, p, end, t')
    requires p == |t| || end < t[p].end || (0 < p && Covered(t, p, end))
    ensures Jumps(t', dst)
  {
    forall i: nat | 0 < i < |t'| && t'[i].Start() <= dst ensures GoodJump(t', dst, i) {
      if i == p || (p == 0 && i == 1) {
        LinkHarmless(t', dst, i);
      } else {
        OldJump(t, r, p, end, t1, dst, i);
        ImproveJump(t1, t', dst, i);
      }
    }
  }

  lemma OldJump(t: seq<Entry>, r: Route, p: nat, end: nat, t1: seq<Entry>, dst: u32, i: nat)
    requires Sorted(t1) && Blocks(t1) && Inserted(t, r, p, end, t1) && Jumps(t, dst)
    requires p == |t| || end < t[p].end || (0 < p && Covered(t, p, end))
    requires 0 < i < |t1| && t1[i].Start() <= dst && i != p && !(p == 0 && i == 1)
    ensures GoodJump(t1, dst, i)
  {
    var k := if i < p then i else i - 1;
    ShiftedFrom(t, p, t1, i);
    assert GoodJump(t, dst, k);
    InsertJump(t, r, p, end, t1, dst, k);
  }

  // Unsafe additions.

  /** Following links never leads to position n. */
  ghost predicate Avoided(t: seq<Entry>, n: nat) {
    forall i {:trigger Deref(t, t[i].link)} :: 0 <= i < |t| && i != n ==> Deref(t, t[i].link) != n
  }

  lemma {:induction false} NeverFront(t: seq<Entry>, it: nat, dst: u32, best: Option<Route>, steps: nat)
    requires Avoided(t, 0) && 0 < it < |t|
    ensures !Walk(t, it, true, dst, best, steps).Done?
    decreases steps
  {
    if steps > 0 {
      var j := Deref(t, t[it].link);
      if j < |t| { NeverFront(t, j, dst, Better(best, t[j], dst), steps - 1); }
    }
  }

  lemma {:induction false} NeverDone(t: seq<Entry>, it: nat, dst: u32, best: Option<Route>, steps: nat)
    requires Avoided(t, 0) && 2 <= it <= |t| && t[1].end <= dst
    ensures !Walk(t, it, false, dst, best, steps).Done?
    decreases steps
  {
    if steps > 0 {
      var e := t[it - 1];
      if e.end <= dst {
        NeverFront(t, it - 1, dst, Better(best, e, dst), steps - 1);
      } else {
        NeverDone(t, it - 1, dst, Better(best, e, dst), steps - 1);
      }
    }
  }

  /** A lookup that never visits position n does not find what is only there. */
  lemma {:induction false} NeverFinds(t: seq<Entry>, n: nat, it: nat, dst: u32, best: Option<Route>, steps: nat)
    requires Avoided(t, n) && it < |t| && it != n && n < |t|
    requires best != Some(t[n].route) && forall i :: 0 <= i < |t| && i != n ==> t[i].route != t[n].route
    ensures Walk(t, it, true, dst, best, steps) != Done(Some(t[n].route))
    decreases steps
  {
    if it > 0 && steps > 0 {
      var j := Deref(t, t[it].link);
      if j < |t| { NeverFinds(t, n, j, dst, Better(best, t[j], dst), steps - 1); }
    }
  }

  lemma LinksAvoid(t: seq<Entry>, r: Route, p: nat, end: nat, t': seq<Entry>)
    requires Live(t) && Sorted(t') && Inserted(t, r, p, end, t')
    ensures Avoided(t', p)
  {
    forall i | 0 <= i < |t'| && i != p ensures Deref(t', t'[i].link) != p {
      var k := if i < p then i else i - 1;
      assert t'[i] == t[k];
      if t[k].link.Some? {
        assert HasTarget(t, k);
        var j :| PointsTo(t, k, j);
        var j' := if j < p then j else j + 1;
        assert PointsTo(t', i, j');
        DerefPoints(t', i, j');
      }
    }
  }

  /** A new first entry that contains the old first one cuts the links off: lookups beyond that never end. */
  lemma FrontUnsafe(t: seq<Entry>, r: Route, end: nat, t': seq<Entry>)
    requires Table(t) && Table(t') && Inserted(t, r, 0, end, t') && t != [] && t[0].end < 0x1_0000_0000
    ensures forall steps: nat :: !Search(t', t[0].end, steps).Done?
  {
    LinksAvoid(t, r, 0, end, t');
    var dst := t[0].end;
    assert t'[1] == t[0];
    Parity(t'[1], t'[1]);
    var m := LowerBound(t', Key(dst, 0));
    assert Before(t'[0].KeyOf(), t'[1].KeyOf());
    assert m >= 2;
    forall steps: nat ensures !Search(t', dst, steps).Done? { NeverDone(t', m, dst, None, steps); }
  }

  /** The new entry is the longest match of an address that it alone covers beyond the entries inside it. */
  lemma NewIsLongest(t: seq<Entry>, r: Route, p: nat, end: nat, t': seq<Entry>, dst: u32, best: Option<Route>)
    requires Sorted(t') && Blocks(t') && Inserted(t, r, p, end, t') && t'[p].Matches(dst)
    requires !MatchedInside(t, p, end, dst) && Longest(t', dst, best)
    ensures best == Some(r)
  {
    var k :| 0 <= k < |t'| && t'[k].Matches(dst) && t'[k].route == best.value;
    assert p < k ==> t'[k] == t[k - 1];
    if k < p {
      Nested(t'[k], t'[p]);
      OnlyBlock(t'[k], t'[p], dst);
    } else if p < k {
      Nested(t'[p], t'[k]);
    }
  }

  lemma RoutesDiffer(t: seq<Entry>, n: nat)
    requires Sorted(t) && Blocks(t) && n < |t|
    ensures forall i :: 0 <= i < |t| && i != n ==> t[i].route != t[n].route
  {
    forall i | 0 <= i < |t| && i != n ensures t[i].route != t[n].route {
      if t[i].route == t[n].route { UniqueKey(t, i, n); }
    }
  }

  /** Links that jump over the new entry make lookups miss it. */
  lemma GapUnsafe(t: seq<Entry>, r: Route, p: nat, end: nat, t': seq<Entry>, dst: u32)
    requires Table(t) && Table(t') && Inserted(t, r, p, end, t') && p < |t| && t[p].end < dst <= end
    requires !MatchedInside(t, p, end, dst)
    ensures !Answers(t', dst)
  {
    LinksAvoid(t, r, p, end, t');
    StartsInGap(t, r, p, end, t', dst);
    forall steps: nat ensures !(Search(t', dst, steps).Done? && Longest(t', dst, Search(t', dst, steps).best)) {
      var o := Missed(t', p, dst, steps);
      if o.Done? && Longest(t', dst, o.best) { NewIsLongest(t, r, p, end, t', dst, o.best); }
    }
  }

  lemma Missed(t: seq<Entry>, n: nat, dst: u32, steps: nat) returns (o: Outcome)
    requires Sorted(t) && Blocks(t) && n < |t| && Avoided(t, n)
    requires var m := LowerBound(t, Key(dst, 0)); n + 2 <= m <= |t| && t[m - 1].end < dst
    ensures o == Search(t, dst, steps) && o != Done(Some(t[n].route))
  {
    var m := LowerBound(t, Key(dst, 0));
    o := Search(t, dst, steps);
    RoutesDiffer(t, n);
    if steps > 0 { NeverFinds(t, n, m - 1, dst, Better(None, t[m - 1], dst), steps - 1); }
  }

  /** The first step back reaches an entry inside the new one, which ends before dst. */
  lemma StartsInGap(t: seq<Entry>, r: Route, p: nat, end: nat, t': seq<Entry>, dst: u32)
    requires Table(t') && Inserted(t, r, p, end, t') && p < |t| && t[p].end < dst <= end
    requires !MatchedInside(t, p, end, dst)
    ensures var m := LowerBound(t', Key(dst, 0)); p + 2 <= m <= |t'| && t'[m - 1].end < dst && t'[p].Matches(dst)
  {
    var m := LowerBound(t', Key(dst, 0));
    assert t'[p + 1] == t[p];
    Parity(t'[p + 1], t'[p + 1]);
    assert Before(t'[p].KeyOf(), t'[p + 1].KeyOf());
    assert m >= p + 2;
    Nested(t'[p], t'[m - 1]);
    assert t'[m - 1] == t[m - 2];
  }

  /**
   * The exact condition: a route added to a table in which no jump does harm
   * leaves every lookup right if and only if the addition is safe, and then no
   * jump does harm afterwards, so that the condition applies to the next addition.
   */
  lemma SafeExactly(t: seq<Entry>, r: Route)
    requires Table(t) && Sure(t) && Aligned(r) && !Present(t, KeyFor(r))
    ensures AllAnswered(Add(t, r)) <==> Safe(t, r)
    ensures Safe(t, r) ==> Table(Add(t, r)) && Sure(Add(t, r))
  {
    if Safe(t, r) {
      var t' := AddSure(t, r);
      SureAnswers(t');
    } else {
      var dst := Unanswered(t, r);
    }
  }

  lemma SureAnswers(t: seq<Entry>)
    requires Table(t) && Sure(t)
    ensures AllAnswered(t)
  {
    forall dst: u32 ensures Answers(t, dst) { LinkedAnswers(t, dst); }
  }

  lemma Unanswered(t: seq<Entry>, r: Route) returns (dst: u32)
    requires Table(t) && Aligned(r) && !Present(t, KeyFor(r)) && !Safe(t, r)
    ensures !Answers(Add(t, r), dst)
  {
    var p, end := LowerBound(t, KeyFor(r)), KeyFor(r).end;
    var t' := AddShape(t, r);
    Unlinked(t, r);
    if p == 0 {
      dst := t[0].end;
      FrontUnsafe(t, r, end, t');
    } else {
      dst :| t[p].end < dst <= end && !MatchedInside(t, p, end, dst);
      GapUnsafe(t, r, p, end, t', dst);
    }
  }
}
