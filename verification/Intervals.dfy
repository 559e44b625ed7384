/** The ordered map of intervals that a reassembler keeps, seen as a map of bytes. */
module Intervals {
  import opened Types
  import opened Reassembly

  /** Bytes start..end, both included. */
  datatype Interval = Interval(start: nat, end: nat, data: seq<u8>)
  {
    ghost predicate Valid() {
      |data| > 0 && end == start + |data| - 1
    }

    ghost predicate Covers(i: nat) {
      start <= i < start + |data|
    }

    ghost function Bytes(): map<nat, u8> {
      map i: nat | start <= i < start + |data| && Covers(i) :: data[i - start]
    }
  }

  /** Ascending, disjoint and not even adjacent. */
  ghost predicate Separated(ivs: seq<Interval>) {
    && (forall k :: 0 <= k < |ivs| ==> ivs[k].Valid())
    && (forall k, l :: 0 <= k < l < |ivs| ==> ivs[k].end + 1 < ivs[l].start)
  }

  ghost function Flatten(ivs: seq<Interval>): map<nat, u8> {
    if ivs == [] then map[] else ivs[0].Bytes() + Flatten(ivs[1..])
  }

  ghost function Total(ivs: seq<Interval>): nat {
    if ivs == [] then 0 else |ivs[0].data| + Total(ivs[1..])
  }

  /** Everything stored lies in [lo, hi). */
  ghost predicate Within(ivs: seq<Interval>, lo: int, hi: int) {
    forall k :: 0 <= k < |ivs| ==> lo <= ivs[k].start && ivs[k].end < hi
  }

  ghost predicate Keyed(m: map<nat, u8>, lo: int, hi: int) {
    forall i :: i in m ==> lo <= i < hi
  }

  lemma {:induction false} FlattenWithin(ivs: seq<Interval>, lo: int, hi: int)
    requires Separated(ivs) && Within(ivs, lo, hi)
    ensures Keyed(Flatten(ivs), lo, hi)
  {
    if ivs != [] { FlattenWithin(ivs[1..], lo, hi); }
  }

  lemma {:induction false} FlattenConcat(a: seq<Interval>, b: seq<Interval>)
    ensures Flatten(a + b) == Flatten(a) + Flatten(b)
    ensures Total(a + b) == Total(a) + Total(b)
  {
    if a == [] {
      assert a + b == b;
    } else {
      assert (a + b)[1..] == a[1..] + b;
      FlattenConcat(a[1..], b);
      UnionAssociates(a[0].Bytes(), Flatten(a[1..]), Flatten(b));
    }
  }

  lemma UnionAssociates(x: map<nat, u8>, y: map<nat, u8>, z: map<nat, u8>)
    ensures x + (y + z) == (x + y) + z
  {
  }

  /** Conversely, keys confined to a range confine the intervals. */
  lemma {:induction false} KeyedWithin(ivs: seq<Interval>, lo: int, hi: int)
    requires Separated(ivs) && Keyed(Flatten(ivs), lo, hi)
    ensures Within(ivs, lo, hi)
  {
    forall k | 0 <= k < |ivs| ensures lo <= ivs[k].start && ivs[k].end < hi {
      FlattenConcat(ivs[..k], ivs[k..]);
      assert ivs[..k] + ivs[k..] == ivs;
      FlattenAt(ivs, k, ivs[k].start);
      FlattenAt(ivs, k, ivs[k].end);
    }
  }

  lemma {:induction false} FlattenAt(ivs: seq<Interval>, k: nat, i: nat)
    requires Separated(ivs) && k < |ivs| && ivs[k].start <= i <= ivs[k].end
    ensures i in Flatten(ivs) && Flatten(ivs)[i] == ivs[k].data[i - ivs[k].start]
  {
    if k > 0 {
      FlattenAt(ivs[1..], k - 1, i);
    } else {
      FlattenWithin(ivs[1..], ivs[0].end + 2, MaxEnd(ivs[1..]) + 1);
    }
  }

  ghost function MaxEnd(ivs: seq<Interval>): nat
    requires Separated(ivs)
    ensures forall k :: 0 <= k < |ivs| ==> ivs[k].end <= MaxEnd(ivs)
  {
    if ivs == [] then 0 else Max(ivs[0].end, MaxEnd(ivs[1..]))
  }

  lemma {:induction false} BytesCount(iv: Interval)
    ensures |iv.Bytes()| == |iv.data|
    decreases |iv.data|
  {
    if iv.data != [] {
      var n := |iv.data| - 1;
      var init := iv.(data := iv.data[..n]);
      BytesCount(init);
      assert iv.Bytes() == init.Bytes()[iv.start + n := iv.data[n]];
    }
  }

  /** The sum of interval lengths counts distinct indices. */
  lemma {:induction false} TotalCounts(ivs: seq<Interval>)
    requires Separated(ivs)
    ensures Total(ivs) == |Flatten(ivs)|
  {
    if ivs != [] {
      var rest := Flatten(ivs[1..]);
      TotalCounts(ivs[1..]);
      BytesCount(ivs[0]);
      FlattenWithin(ivs[1..], ivs[0].end + 2, MaxEnd(ivs[1..]) + 1);
      assert Flatten(ivs).Keys == ivs[0].Bytes().Keys + rest.Keys;
      assert ivs[0].Bytes().Keys !! rest.Keys;
    }
  }

  lemma {:induction false} TotalFits(ivs: seq<Interval>, lo: nat, hi: nat)
    requires Separated(ivs) && Within(ivs, lo, hi) && lo <= hi + 1
    ensures ivs != [] ==> Total(ivs) <= hi - lo
  {
    if |ivs| > 1 {
      TotalFits(ivs[1..], ivs[0].end + 2, hi);
    }
  }

  /** An interval laid over later ones that it may still overlap, after earlier ones that it may not. */
  ghost function Overlay(a: seq<Interval>, cur: Interval, b: seq<Interval>): map<nat, u8> {
    Flatten(a) + (Flatten(b) + cur.Bytes())
  }

  ghost predicate Laid(a: seq<Interval>, cur: Interval, b: seq<Interval>) {
    && Separated(a) && cur.Valid() && Separated(b)
    && Within(a, 0, cur.start - 1)
    && (forall k :: 0 <= k < |b| ==> cur.start < b[k].start)
  }

  lemma UnionCommutes(x: map<nat, u8>, y: map<nat, u8>)
    requires forall i :: i in x ==> i !in y
    ensures x + y == y + x
  {
  }

  lemma SeparatedAround(a: seq<Interval>, cur: Interval, b: seq<Interval>)
    requires Laid(a, cur, b) && (b == [] || cur.end + 1 < b[0].start)
    ensures Separated(a + [cur] + b)
  {
    var s := a + [cur] + b;
    forall k, l | 0 <= k < l < |s| ensures s[k].end + 1 < s[l].start {
      if l > |a| {
        assert s[l] == b[l - |a| - 1];
        assert b[0].start <= s[l].start;
      }
    }
  }

  lemma {:induction false} FlattenApart(cur: Interval, b: seq<Interval>, hi: nat)
    requires Separated(b) && cur.Valid() && cur.end <= hi && (b == [] || hi + 1 < b[0].start)
    ensures forall i :: i in cur.Bytes() ==> i !in Flatten(b)
  {
    if b != [] {
      assert Within(b, hi + 2, MaxEnd(b) + 1) by {
        assert forall k :: 0 <= k < |b| ==> b[0].start <= b[k].start;
      }
      FlattenWithin(b, hi + 2, MaxEnd(b) + 1);
    }
  }

  /** Once nothing overlaps, the overlay is the flattened list. */
  lemma {:induction false} OverlaySettled(a: seq<Interval>, cur: Interval, b: seq<Interval>)
    requires Laid(a, cur, b) && (b == [] || cur.end + 1 < b[0].start)
    ensures Flatten(a + [cur] + b) == Overlay(a, cur, b)
  {
    FlattenApart(cur, b, cur.end);
    calc {
      Flatten(a + [cur] + b);
      { assert a + [cur] + b == a + ([cur] + b); FlattenConcat(a, [cur] + b); }
      Flatten(a) + Flatten([cur] + b);
      { assert ([cur] + b)[1..] == b; }
      Flatten(a) + (cur.Bytes() + Flatten(b));
      { UnionCommutes(cur.Bytes(), Flatten(b)); }
      Overlay(a, cur, b);
    }
  }

  /** A covered successor can be dropped. */
  lemma OverlayCovered(a: seq<Interval>, cur: Interval, b: seq<Interval>)
    requires Laid(a, cur, b) && b != [] && b[0].end <= cur.end
    ensures Laid(a, cur, b[1..]) && Overlay(a, cur, b[1..]) == Overlay(a, cur, b)
  {
    Sides(b, 1);
    UnionHides(b[0].Bytes(), Flatten(b[1..]), cur.Bytes());
  }

  lemma UnionHides(x: map<nat, u8>, y: map<nat, u8>, z: map<nat, u8>)
    requires forall i :: i in x ==> i in z
    ensures (x + y) + z == y + z
  {
  }

  /** A successor that starts inside or right after, and ends beyond, can be appended. */
  lemma OverlayJoined(a: seq<Interval>, cur: Interval, b: seq<Interval>, cur': Interval)
    requires Laid(a, cur, b) && b != [] && b[0].start <= cur.end + 1 && cur.end < b[0].end
    requires cur' == Interval(cur.start, b[0].end, cur.data + b[0].data[cur.end - b[0].start + 1..])
    ensures Laid(a, cur', b[1..]) && Overlay(a, cur', b[1..]) == Overlay(a, cur, b)
    ensures b[1..] == [] || cur'.end + 1 < b[1].start
  {
    var rest := Flatten(b[1..]);
    FlattenApart(b[0], b[1..], b[0].end);
    calc {
      Flatten(b) + cur.Bytes();
      { UnionCommutes(b[0].Bytes(), rest); }
      (rest + b[0].Bytes()) + cur.Bytes();
      { UnionAssociates(rest, b[0].Bytes(), cur.Bytes()); }
      rest + (b[0].Bytes() + cur.Bytes());
      { JoinedBytes(cur, b[0], cur'); }
      rest + cur'.Bytes();
    }
  }

  lemma JoinedBytes(cur: Interval, next: Interval, cur': Interval)
    requires cur.Valid() && next.Valid() && cur.start < next.start <= cur.end + 1 && cur.end < next.end
    requires cur' == Interval(cur.start, next.end, cur.data + next.data[cur.end - next.start + 1..])
    ensures next.Bytes() + cur.Bytes() == cur'.Bytes()
  {
    assert cur'.Valid();
  }

  lemma {:induction false} FlattenSplit(ivs: seq<Interval>, p: nat)
    requires p <= |ivs|
    ensures Flatten(ivs) == Flatten(ivs[..p]) + Flatten(ivs[p..])
    ensures p < |ivs| ==> Flatten(ivs[p..]) == ivs[p].Bytes() + Flatten(ivs[p + 1..])
  {
    FlattenConcat(ivs[..p], ivs[p..]);
    assert ivs == ivs[..p] + ivs[p..];
    if p < |ivs| { assert ivs[p..][1..] == ivs[p + 1..]; }
  }

  lemma {:induction false} TotalSplit(ivs: seq<Interval>, p: nat)
    requires p <= |ivs|
    ensures Total(ivs) == Total(ivs[..p]) + Total(ivs[p..])
    ensures p < |ivs| ==> Total(ivs[p..]) == |ivs[p].data| + Total(ivs[p + 1..])
  {
    FlattenConcat(ivs[..p], ivs[p..]);
    assert ivs == ivs[..p] + ivs[p..];
    if p < |ivs| { assert ivs[p..][1..] == ivs[p + 1..]; }
  }

  /** What lies on either side of a position. */
  lemma Sides(ivs: seq<Interval>, n: nat)
    requires Separated(ivs) && n <= |ivs|
    ensures Separated(ivs[..n]) && Separated(ivs[n..])
    ensures n > 0 ==> Within(ivs[..n], 0, ivs[n - 1].end + 1)
    ensures n < |ivs| ==> Within(ivs[..n], 0, ivs[n].start - 1)
    ensures n < |ivs| ==> Within(ivs[n..], ivs[n].start, MaxEnd(ivs[n..]) + 1)
    ensures n > 0 ==> Within(ivs[n..], ivs[n - 1].end + 2, MaxEnd(ivs[n..]) + 1)
  {
    SliceSeparated(ivs, 0, n);
    SliceSeparated(ivs, n, |ivs|);
  }

  lemma SliceSeparated(ivs: seq<Interval>, i: nat, j: nat)
    requires Separated(ivs) && i <= j <= |ivs|
    ensures Separated(ivs[i..j])
  {
    var s := ivs[i..j];
    forall k, l | 0 <= k < l < |s| ensures s[k].end + 1 < s[l].start {
      assert s[k] == ivs[i + k] && s[l] == ivs[i + l];
    }
  }

  /** Before the interval at `n`, and past the end of the one before it, nothing is held. */
  lemma {:induction false} Gap(ivs: seq<Interval>, n: nat, i: nat)
    requires Separated(ivs) && n <= |ivs|
    requires (n < |ivs| ==> i < ivs[n].start) && (n > 0 ==> ivs[n - 1].end < i)
    ensures i !in Flatten(ivs)
  {
    Sides(ivs, n);
    FlattenSplit(ivs, n);
    FlattenWithin(ivs[..n], 0, i);
    FlattenWithin(ivs[n..], i + 1, MaxEnd(ivs[n..]) + 1);
  }

  lemma {:induction false} ReachesWhileCovered(ivs: seq<Interval>, p: nat, lo: nat, i: nat)
    requires Separated(ivs) && p < |ivs| && ivs[p].start <= lo <= ivs[p].end + 1 && lo <= i
    ensures Reaches(Flatten(ivs), lo, i) <==> i <= ivs[p].end
  {
    if i <= ivs[p].end {
      forall j | lo <= j < i + 1 ensures j in Flatten(ivs) { FlattenAt(ivs, p, j); }
    } else {
      Gap(ivs, p + 1, ivs[p].end + 1);
    }
  }

  /** A push that a stored interval covers changes nothing. */
  lemma {:induction false} AbsorbCovered(ivs: seq<Interval>, p: nat, data: seq<u8>, index: nat, lo: nat, hi: nat)
    requires Separated(ivs) && p < |ivs| && index <= lo < hi <= index + |data|
    requires ivs[p].start <= lo && hi <= ivs[p].end + 1
    ensures Absorb(Flatten(ivs), data, index, lo, hi) == Flatten(ivs)
  {
    forall i | lo <= i < hi ensures Reaches(Flatten(ivs), lo, i) {
      ReachesWhileCovered(ivs, p, lo, i);
    }
  }

  /** A push that overlaps or touches the end of a stored interval extends it. */
  lemma {:induction false} AbsorbExtends(ivs: seq<Interval>, p: nat, data: seq<u8>, index: nat, lo: nat, hi: nat, cur: Interval)
    requires Separated(ivs) && p < |ivs| && index <= lo < hi <= index + |data|
    requires ivs[p].start <= lo <= ivs[p].end + 1 < hi
    requires cur == Interval(ivs[p].start, hi - 1, ivs[p].data + data[ivs[p].end + 1 - index..hi - index])
    ensures Laid(ivs[..p], cur, ivs[p + 1..])
    ensures Overlay(ivs[..p], cur, ivs[p + 1..]) == Absorb(Flatten(ivs), data, index, lo, hi)
  {
    assert Laid(ivs[..p], cur, ivs[p + 1..]) by {
      Sides(ivs, p);
      Sides(ivs, p + 1);
    }
    ExtensionBytes(ivs, p, data, index, lo, hi, cur);
    FlattenSplit(ivs, p);
    FlattenApart(ivs[p], ivs[p + 1..], ivs[p].end);
    UnionExtends(Flatten(ivs[..p]), ivs[p].Bytes(), Flatten(ivs[p + 1..]), Novel(Flatten(ivs), data, index, lo, hi));
  }

  lemma UnionExtends(a: map<nat, u8>, x: map<nat, u8>, b: map<nat, u8>, y: map<nat, u8>)
    requires forall i :: i in x ==> i !in b
    ensures (a + (x + b)) + y == a + (b + (x + y))
  {
  }

  lemma NovelFrom(held: map<nat, u8>, data: seq<u8>, index: nat, lo: nat, hi: nat, from: nat)
    requires index <= lo <= from < hi <= index + |data|
    requires forall i | lo <= i < hi :: Reaches(held, lo, i) <==> i < from
    ensures Novel(held, data, index, lo, hi) == Interval(from, hi - 1, data[from - index..hi - index]).Bytes()
  {
  }

  lemma ConcatBytes(iv: Interval, tail: Interval, whole: Interval)
    requires iv.Valid() && tail.start == iv.end + 1
    requires whole.start == iv.start && whole.data == iv.data + tail.data
    ensures whole.Bytes() == iv.Bytes() + tail.Bytes()
  {
  }

  lemma {:induction false} ExtensionBytes(ivs: seq<Interval>, p: nat, data: seq<u8>, index: nat, lo: nat, hi: nat, cur: Interval)
    requires Separated(ivs) && p < |ivs| && index <= lo < hi <= index + |data|
    requires ivs[p].start <= lo <= ivs[p].end + 1 < hi
    requires cur == Interval(ivs[p].start, hi - 1, ivs[p].data + data[ivs[p].end + 1 - index..hi - index])
    ensures cur.Bytes() == ivs[p].Bytes() + Novel(Flatten(ivs), data, index, lo, hi)
  {
    var held, from := Flatten(ivs), ivs[p].end + 1;
    forall i | lo <= i < hi ensures Reaches(held, lo, i) <==> i < from {
      ReachesWhileCovered(ivs, p, lo, i);
    }
    NovelFrom(held, data, index, lo, hi, from);
    ConcatBytes(ivs[p], Interval(from, hi - 1, data[from - index..hi - index]), cur);
  }

  /** A push that starts in a gap becomes an interval of its own. */
  lemma {:induction false} AbsorbInserts(ivs: seq<Interval>, n: nat, data: seq<u8>, index: nat, lo: nat, hi: nat, cur: Interval)
    requires Separated(ivs) && n <= |ivs| && index <= lo < hi <= index + |data|
    requires (n < |ivs| ==> lo < ivs[n].start) && (n > 0 ==> ivs[n - 1].end + 1 < lo)
    requires cur == Interval(lo, hi - 1, data[lo - index..hi - index])
    ensures Laid(ivs[..n], cur, ivs[n..])
    ensures Overlay(ivs[..n], cur, ivs[n..]) == Absorb(Flatten(ivs), data, index, lo, hi)
  {
    Sides(ivs, n);
    InsertionBytes(ivs, n, data, index, lo, hi, cur);
    FlattenSplit(ivs, n);
    UnionAssociates(Flatten(ivs[..n]), Flatten(ivs[n..]), Novel(Flatten(ivs), data, index, lo, hi));
  }

  lemma {:induction false} InsertionBytes(ivs: seq<Interval>, n: nat, data: seq<u8>, index: nat, lo: nat, hi: nat, cur: Interval)
    requires Separated(ivs) && n <= |ivs| && index <= lo < hi <= index + |data|
    requires (n < |ivs| ==> lo < ivs[n].start) && (n > 0 ==> ivs[n - 1].end + 1 < lo)
    requires cur == Interval(lo, hi - 1, data[lo - index..hi - index])
    ensures cur.Bytes() == Novel(Flatten(ivs), data, index, lo, hi)
  {
    Gap(ivs, n, lo);
    NovelFrom(Flatten(ivs), data, index, lo, hi, lo);
  }

  /** Position of the first interval that starts at or after the key. */
  function LowerBound(ivs: seq<Interval>, key: nat): (n: nat)
    requires Separated(ivs)
    ensures n <= |ivs|
    ensures forall k :: 0 <= k < n ==> ivs[k].start < key
    ensures forall k :: n <= k < |ivs| ==> key <= ivs[k].start
  {
    if ivs == [] then 0
    else
      var last := |ivs| - 1;
      if ivs[last].start < key then |ivs| else LowerBound(ivs[..last], key)
  }

  /** When an interval starts where the window does, it is the whole deliverable run. */
  lemma {:induction false} FrontRun(ivs: seq<Interval>, first: nat, edge: nat)
    requires Separated(ivs) && ivs != [] && ivs[0].start == first && Within(ivs, first, edge)
    ensures RunEnd(Flatten(ivs), first, edge) == ivs[0].end + 1
    ensures Cut(Flatten(ivs), first, ivs[0].end + 1) == ivs[0].data
    ensures Flatten(ivs[1..]) == map i | i in Flatten(ivs) && ivs[0].end + 1 <= i :: Flatten(ivs)[i]
  {
    FrontCut(ivs, first, edge);
    FrontRest(ivs);
  }

  lemma {:induction false} FrontCut(ivs: seq<Interval>, first: nat, edge: nat)
    requires Separated(ivs) && ivs != [] && ivs[0].start == first && Within(ivs, first, edge)
    ensures RunEnd(Flatten(ivs), first, edge) == ivs[0].end + 1
    ensures Cut(Flatten(ivs), first, ivs[0].end + 1) == ivs[0].data
  {
    var m, e := Flatten(ivs), ivs[0].end + 1;
    forall i | first <= i < e ensures i in m && m[i] == ivs[0].data[i - first] { FlattenAt(ivs, 0, i); }
    Gap(ivs, 1, e);
    var r := RunEnd(m, first, edge);
    assert r == e by {
      assert (r > e ==> e in m) && (r < e ==> r in m);
    }
  }

  lemma {:induction false} FrontRest(ivs: seq<Interval>)
    requires Separated(ivs) && ivs != []
    ensures Flatten(ivs[1..]) == map i | i in Flatten(ivs) && ivs[0].end + 1 <= i :: Flatten(ivs)[i]
  {
    Sides(ivs, 1);
    FlattenWithin(ivs[1..], ivs[0].end + 2, MaxEnd(ivs[1..]) + 1);
  }
}
