/**
 * The routing table: entries ordered by start and then by decreasing end, with
 * links that let a lookup jump backwards instead of scanning.
 */
module Routing {
  import opened Types
  import opened Prefixes

  ghost predicate Sorted(t: seq<Entry>) {
    forall i, j :: 0 <= i < j < |t| ==> Before(t[i].KeyOf(), t[j].KeyOf())
  }

  ghost predicate Blocks(t: seq<Entry>) {
    forall i :: 0 <= i < |t| ==> Block(t[i])
  }

  // Operations on the table.

  /** The first position from i on that does not come before the key. */
  function LowerFrom(t: seq<Entry>, key: Key, i: nat): (p: nat)
    requires i <= |t|
    ensures i <= p <= |t| && (p < |t| ==> !Before(t[p].KeyOf(), key))
    ensures forall k :: i <= k < p ==> Before(t[k].KeyOf(), key)
    decreases |t| - i
  {
    if i < |t| && Before(t[i].KeyOf(), key) then LowerFrom(t, key, i + 1) else i
  }

  function LowerBound(t: seq<Entry>, key: Key): nat {
    LowerFrom(t, key, 0)
  }

  function KeyFor(r: Route): Key
    requires r.len <= 32
  {
    Key(r.prefix, EndIndex(r.prefix, r.len))
  }

  predicate Present(t: seq<Entry>, key: Key) {
    var p := LowerBound(t, key);
    p < |t| && t[p].KeyOf() == key
  }

  /** The table with the route in its place; a route that is there already stays as it is. */
  function Insert(t: seq<Entry>, r: Route): seq<Entry>
    requires r.len <= 32
  {
    var key := KeyFor(r);
    var p := LowerBound(t, key);
    if Present(t, key) then t
    else t[..p] + [Entry(r, key.end, if t == [] then None else Some(t[0].KeyOf()))] + t[p..]
  }

  /** The nearest position before p whose end lies beyond, or -1. */
  function Enclosing(t: seq<Entry>, p: nat, end: nat): (q: int)
    requires p <= |t|
    ensures -1 <= q < p && (q >= 0 ==> t[q].end > end)
    ensures forall k :: q < k < p ==> t[k].end <= end
  {
    if p == 0 then -1 else if t[p - 1].end > end then p - 1 else Enclosing(t, p - 1, end)
  }

  function SetLink(t: seq<Entry>, i: nat, j: nat): seq<Entry>
    requires i < |t| && j < |t|
  {
    t[i := t[i].(link := Some(t[j].KeyOf()))]
  }

  function LinkUp(t: seq<Entry>, p: nat): seq<Entry>
    requires p < |t|
  {
    var q := Enclosing(t, p, t[p].end);
    if q < 0 then t else SetLink(t, p, q)
  }

  /** Past the entry and everything that starts before its end. */
  function Skip(t: seq<Entry>, i: nat): (k: nat)
    requires i < |t|
    ensures i < k <= |t|
  {
    LowerFrom(t, Key(t[i].end, 0xFFFF_FFFF), i + 1)
  }

  /** A search from the front finds the same place. */
  lemma Overtakes(t: seq<Entry>, i: nat)
    requires Sorted(t) && Blocks(t) && i < |t|
    ensures LowerBound(t, Key(t[i].end, 0xFFFF_FFFF)) == Skip(t, i)
  {
    var key := Key(t[i].end, 0xFFFF_FFFF);
    forall k | 0 <= k <= i ensures Before(t[k].KeyOf(), key) {
      Parity(t[i], t[i]);
      if k < i { assert Before(t[k].KeyOf(), t[i].KeyOf()); }
    }
    SameFrom(t, key, 0, i + 1);
  }

  lemma {:induction false} SameFrom(t: seq<Entry>, key: Key, i: nat, n: nat)
    requires i <= n <= |t| && forall k :: i <= k < n ==> Before(t[k].KeyOf(), key)
    ensures LowerFrom(t, key, i) == LowerFrom(t, key, n)
    decreases n - i
  {
    if i < n { SameFrom(t, key, i + 1, n); }
  }

  /** The loop that links later entries to the one at p, from position i on. */
  function Relink(t: seq<Entry>, p: nat, i: nat): seq<Entry>
    requires p < |t| && i <= |t|
    decreases |t| - i
  {
    if i == |t| || t[p].end >= t[i].end then t
    else Relink(SetLink(t, i, p), p, Skip(t, i))
  }

  function Add(t: seq<Entry>, r: Route): seq<Entry>
    requires r.len <= 32
  {
    var p := LowerBound(t, KeyFor(r));
    Relink(LinkUp(Insert(t, r), p), p, p + 1)
  }

  // Links.

  ghost predicate PointsTo(t: seq<Entry>, i: int, j: int) {
    0 <= i < |t| && 0 <= j < |t| && t[i].link == Some(t[j].KeyOf())
  }

  /** Nothing strictly between ends beyond the entry at i. */
  ghost predicate Shadows(t: seq<Entry>, j: nat, i: nat)
    requires i < |t|
  {
    forall k :: j < k < i ==> t[k].end <= t[i].end
  }

  ghost predicate LinkOK(t: seq<Entry>, i: nat) {
    exists j: nat :: PointsTo(t, i, j) && j < i && Shadows(t, j, i)
  }

  /** Every entry but the first links back over entries that end no later than it does. */
  ghost predicate WellLinked(t: seq<Entry>) {
    forall i :: 0 < i < |t| ==> LinkOK(t, i)
  }

  /** Links lead to entries of the table. */
  ghost predicate Live(t: seq<Entry>) {
    forall i {:trigger HasTarget(t, i)} :: 0 <= i < |t| && t[i].link.Some? ==> HasTarget(t, i)
  }

  ghost predicate HasTarget(t: seq<Entry>, i: int) {
    exists j :: PointsTo(t, i, j)
  }

  /** The same entries up to links. */
  ghost predicate SameKeys(t: seq<Entry>, t': seq<Entry>) {
    |t'| == |t| && forall k :: 0 <= k < |t| ==> t'[k].route == t[k].route && t'[k].end == t[k].end
  }

  /** The same entries, where links may have been improved but not spoilt. */
  ghost predicate Improves(t: seq<Entry>, t': seq<Entry>) {
    && SameKeys(t, t') && (Live(t) ==> Live(t'))
    && (forall k: nat :: k < |t| && LinkOK(t, k) ==> LinkOK(t', k))
    && (forall k: nat :: k < |t| ==> t'[k].link == t[k].link || LinkOK(t', k))
  }

  lemma SetLinkImproves(t: seq<Entry>, i: nat, j: nat)
    requires j < i < |t| && Shadows(t, j, i)
    ensures Improves(t, SetLink(t, i, j)) && LinkOK(SetLink(t, i, j), i)
  {
    var t' := SetLink(t, i, j);
    assert PointsTo(t', i, j) && Shadows(t', j, i);
    forall k: nat | k < |t| && LinkOK(t, k) ensures LinkOK(t', k) {
      if k != i {
        var l: nat :| PointsTo(t, k, l) && l < k && Shadows(t, l, k);
        assert PointsTo(t', k, l) && Shadows(t', l, k);
      }
    }
    if Live(t) { SetLinkLive(t, i, j); }
  }

  lemma SetLinkLive(t: seq<Entry>, i: nat, j: nat)
    requires j < i < |t| && Live(t)
    ensures Live(SetLink(t, i, j))
  {
    var t' := SetLink(t, i, j);
    forall k | 0 <= k < |t'| && t'[k].link.Some? ensures HasTarget(t', k) {
      if k == i {
        assert PointsTo(t', k, j);
      } else {
        assert HasTarget(t, k);
        var l :| PointsTo(t, k, l);
        assert PointsTo(t', k, l);
      }
    }
  }

  /** Everything between p and i ends before anything from i on starts. */
  ghost predicate Clear(t: seq<Entry>, p: nat, i: nat) {
    forall f, k :: p < f < i <= k < |t| ==> t[f].end < t[k].Start()
  }

  lemma SkipClear(t: seq<Entry>, p: nat, i: nat)
    requires Sorted(t) && Blocks(t) && p < i < |t| && Clear(t, p, i)
    ensures Clear(t, p, Skip(t, i))
  {
    var n := Skip(t, i);
    forall f, k | p < f < n <= k < |t| ensures t[f].end < t[k].Start() {
      assert !Before(t[n].KeyOf(), Key(t[i].end, 0xFFFF_FFFF));
      Parity(t[i], t[k]);
      assert t[n].Start() <= t[k].Start() by { if n < k { assert Before(t[n].KeyOf(), t[k].KeyOf()); } }
      if i < f {
        assert Before(t[f].KeyOf(), Key(t[i].end, 0xFFFF_FFFF));
        Nested(t[i], t[f]);
      }
    }
  }

  lemma ImprovesTransitive(t: seq<Entry>, t1: seq<Entry>, t2: seq<Entry>)
    requires Improves(t, t1) && Improves(t1, t2)
    ensures Improves(t, t2)
  {
  }

  lemma {:induction false} RelinkImproves(t: seq<Entry>, p: nat, i: nat) returns (t': seq<Entry>)
    requires Sorted(t) && Blocks(t) && p < i <= |t| && Clear(t, p, i)
    ensures t' == Relink(t, p, i) && Improves(t, t')
    ensures i < |t| && t[p].end < t[i].end ==> LinkOK(t', i)
    decreases |t| - i
  {
    t' := t;
    if i < |t| && t[p].end < t[i].end {
      var t1 := RelinkOne(t, p, i);
      t' := RelinkImproves(t1, p, Skip(t, i));
      ImprovesTransitive(t, t1, t');
    }
  }

  lemma RelinkOne(t: seq<Entry>, p: nat, i: nat) returns (t1: seq<Entry>)
    requires Sorted(t) && Blocks(t) && p < i < |t| && Clear(t, p, i)
    ensures t1 == SetLink(t, i, p) && Improves(t, t1) && LinkOK(t1, i)
    ensures Sorted(t1) && Blocks(t1) && Clear(t1, p, Skip(t, i))
  {
    t1 := SetLink(t, i, p);
    forall k | p < k < i ensures t[k].end <= t[i].end { Parity(t[i], t[i]); }
    SetLinkImproves(t, i, p);
    SkipClear(t, p, i);
    SameSorted(t, t1);
  }

  lemma SameSkip(t: seq<Entry>, t': seq<Entry>, i: nat)
    requires SameKeys(t, t') && i < |t|
    ensures Skip(t', i) == Skip(t, i)
  {
    SameLower(t, t', Key(t[i].end, 0xFFFF_FFFF), i + 1);
  }

  lemma {:induction false} SameLower(t: seq<Entry>, t': seq<Entry>, key: Key, i: nat)
    requires SameKeys(t, t') && i <= |t|
    ensures LowerFrom(t', key, i) == LowerFrom(t, key, i)
    decreases |t| - i
  {
    if i < |t| { SameLower(t, t', key, i + 1); }
  }

  lemma SameSorted(t: seq<Entry>, t': seq<Entry>)
    requires Sorted(t) && Blocks(t) && SameKeys(t, t')
    ensures Sorted(t') && Blocks(t')
  {
  }

  // Adding a route.

  lemma BeforeTransitive(a: Key, b: Key, c: Key)
    requires Before(a, b) && Before(b, c)
    ensures Before(a, c)
  {
  }

  /** Where the route goes, everything before comes before it and everything after comes after it. */
  lemma Split(t: seq<Entry>, key: Key)
    requires Sorted(t) && !Present(t, key)
    ensures var p := LowerBound(t, key);
            && (forall k :: 0 <= k < p ==> Before(t[k].KeyOf(), key))
            && (forall k :: p <= k < |t| ==> Before(key, t[k].KeyOf()))
  {
    var p := LowerBound(t, key);
    forall k | p <= k < |t| ensures Before(key, t[k].KeyOf()) {
      assert Before(key, t[p].KeyOf());
      if p < k { BeforeTransitive(key, t[p].KeyOf(), t[k].KeyOf()); }
    }
  }

  lemma InsertKeeps(t: seq<Entry>, r: Route)
    requires Sorted(t) && Blocks(t) && Aligned(r) && !Present(t, KeyFor(r))
    ensures Sorted(Insert(t, r)) && Blocks(Insert(t, r))
  {
    Split(t, KeyFor(r));
    AlignedEnd(r);
  }

  lemma InsertLive(t: seq<Entry>, r: Route)
    requires Live(t) && r.len <= 32
    ensures Live(Insert(t, r))
  {
    var t1, p := Insert(t, r), LowerBound(t, KeyFor(r));
    if !Present(t, KeyFor(r)) {
      forall k | 0 <= k < |t1| && t1[k].link.Some? ensures HasTarget(t1, k) {
        if k == p {
          assert PointsTo(t1, k, if p == 0 then 1 else 0);
        } else {
          var k0 := if k < p then k else k - 1;
          assert HasTarget(t, k0);
          var l :| PointsTo(t, k0, l);
          assert PointsTo(t1, k, if l < p then l else l + 1);
        }
      }
    }
  }

  /** A link survives the insertion unless it jumps over a new entry that ends later. */
  /** The table with one more entry at p. */
  ghost predicate Shifted(t: seq<Entry>, p: nat, t1: seq<Entry>) {
    && p <= |t| && |t1| == |t| + 1
    && (forall i :: 0 <= i < p ==> t1[i] == t[i])
    && (forall i :: p <= i < |t| ==> t1[i + 1] == t[i])
  }

  /** Where an entry of the larger table comes from. */
  lemma ShiftedFrom(t: seq<Entry>, p: nat, t1: seq<Entry>, i: nat)
    requires Shifted(t, p, t1) && i < |t1| && i != p
    ensures t1[i] == t[if i < p then i else i - 1]
  {
    assert i > p ==> t1[(i - 1) + 1] == t[i - 1];
  }

  lemma ShiftedLink(t: seq<Entry>, p: nat, t1: seq<Entry>, k: nat)
    requires Shifted(t, p, t1) && k < |t| && LinkOK(t, k) && (p <= k ==> t1[p].end <= t[p].end)
    ensures LinkOK(t1, if k < p then k else k + 1)
  {
    var j: nat :| PointsTo(t, k, j) && j < k && Shadows(t, j, k);
    var k', j' := if k < p then k else k + 1, if j < p then j else j + 1;
    assert t1[k'] == t[k] && t1[j'] == t[j];
    assert PointsTo(t1, k', j');
    forall f | j' < f < k' ensures t1[f].end <= t1[k'].end {
      if f != p { ShiftedFrom(t, p, t1, f); }
    }
  }

  lemma InsertLinkOK(t: seq<Entry>, r: Route, k: nat)
    requires WellLinked(t) && r.len <= 32 && !Present(t, KeyFor(r)) && 0 < k < |t|
    requires var p := LowerBound(t, KeyFor(r)); p <= k ==> KeyFor(r).end <= t[p].end
    ensures var p := LowerBound(t, KeyFor(r)); LinkOK(Insert(t, r), if k < p then k else k + 1)
  {
    ShiftedLink(t, LowerBound(t, KeyFor(r)), Insert(t, r), k);
  }

  lemma LinkUpImproves(t: seq<Entry>, p: nat)
    requires p < |t|
    ensures Improves(t, LinkUp(t, p))
    ensures PointsTo(t, p, 0) && 0 < p ==> LinkOK(LinkUp(t, p), p)
  {
    var q := Enclosing(t, p, t[p].end);
    if q >= 0 {
      SetLinkImproves(t, p, q);
    } else if 0 < p && PointsTo(t, p, 0) {
      assert Shadows(t, 0, p);
    }
  }

  /** The entry after the new one, if any, ends beyond it, or no earlier than it unless at the very front. */
  ghost predicate Fits(t: seq<Entry>, r: Route)
    requires r.len <= 32
  {
    var p := LowerBound(t, KeyFor(r));
    p == |t| || KeyFor(r).end < t[p].end || (0 < p && KeyFor(r).end == t[p].end)
  }

  ghost predicate Table(t: seq<Entry>) {
    Sorted(t) && Blocks(t) && Live(t)
  }

  lemma LinksImprove(t: seq<Entry>, p: nat) returns (t': seq<Entry>)
    requires Sorted(t) && Blocks(t) && p < |t|
    ensures t' == Relink(LinkUp(t, p), p, p + 1) && Improves(t, t')
    ensures 0 < p && PointsTo(t, p, 0) ==> LinkOK(t', p)
    ensures p + 1 < |t| && t[p].end < t[p + 1].end ==> LinkOK(t', p + 1)
  {
    var t1 := LinkUp(t, p);
    LinkUpImproves(t, p);
    SameSorted(t, t1);
    t' := RelinkImproves(t1, p, p + 1);
    ImprovesTransitive(t, t1, t');
  }

  lemma AddShape(t: seq<Entry>, r: Route) returns (t': seq<Entry>)
    requires Table(t) && Aligned(r)
    ensures t' == Add(t, r) && Table(t') && Improves(Insert(t, r), t')
    ensures Present(t, KeyFor(r)) || NewLinks(t, LowerBound(t, KeyFor(r)), KeyFor(r).end, t')
  {
    var t1, p := Insert(t, r), LowerBound(t, KeyFor(r));
    if !Present(t, KeyFor(r)) {
      InsertKeeps(t, r);
      InsertAt(t, r, p);
    }
    InsertLive(t, r);
    t' := LinksImprove(t1, p);
    SameSorted(t1, t');
  }

  /** The new entry has a good link unless it is first, and the next one has if it ends later. */
  ghost predicate NewLinks(t: seq<Entry>, p: nat, end: nat, t': seq<Entry>)
    requires p <= |t|
  {
    (0 < p ==> LinkOK(t', p)) && (p < |t| && end < t[p].end ==> LinkOK(t', p + 1))
  }

  lemma InsertAt(t: seq<Entry>, r: Route, p: nat)
    requires r.len <= 32 && !Present(t, KeyFor(r)) && p == LowerBound(t, KeyFor(r))
    ensures var t1 := Insert(t, r);
            && |t1| == |t| + 1 && t1[p].route == r && t1[p].end == KeyFor(r).end
            && (0 < p ==> PointsTo(t1, p, 0)) && (p < |t| ==> t1[p + 1] == t[p])
  {
  }

  /** Adding keeps the table well linked. */
  lemma AddKeeps(t: seq<Entry>, r: Route) returns (t': seq<Entry>)
    requires Table(t) && WellLinked(t) && Aligned(r) && (Present(t, KeyFor(r)) || Fits(t, r))
    ensures t' == Add(t, r) && Table(t') && WellLinked(t')
  {
    t' := AddShape(t, r);
    if !Present(t, KeyFor(r)) {
      AddFits(t, r, t');
    }
  }

  lemma AddFits(t: seq<Entry>, r: Route, t': seq<Entry>)
    requires WellLinked(t) && r.len <= 32 && !Present(t, KeyFor(r)) && Fits(t, r) && Improves(Insert(t, r), t')
    requires var p := LowerBound(t, KeyFor(r)); (0 < p ==> LinkOK(t', p)) && (p == 0 && t != [] ==> LinkOK(t', 1))
    ensures WellLinked(t')
  {
    var t1, p := Insert(t, r), LowerBound(t, KeyFor(r));
    forall i | 0 < i < |t'| ensures LinkOK(t', i) {
      if i != p && !(p == 0 && i == 1) { InsertLinkOK(t, r, if i < p then i else i - 1); }
    }
  }

  lemma UniqueKey(t: seq<Entry>, i: nat, j: nat)
    requires Sorted(t) && i < |t| && j < |t| && t[i].KeyOf() == t[j].KeyOf()
    ensures i == j
  {
  }
}
