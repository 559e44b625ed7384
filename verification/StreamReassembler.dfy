/** The reassembler object: intervals, counters and 64-bit index arithmetic. */
module StreamReassemblers {
  import opened Types
  import opened WrappingIntegers
  import opened ByteStreams
  import opened Reassembly
  import opened Intervals

  /** The stored interval that the index falls in or right after, or else where a new one belongs. */
  method Locate(ivs: seq<Interval>, indexC: nat) returns (touches: bool, it: nat)
    requires Separated(ivs)
    ensures touches ==> it < |ivs| && ivs[it].start <= indexC <= ivs[it].end + 1
    ensures !touches ==> it <= |ivs| && (it < |ivs| ==> indexC < ivs[it].start) && (it > 0 ==> ivs[it - 1].end + 1 < indexC)
  {
    it := LowerBound(ivs, indexC);
    if it != 0 || (it < |ivs| && ivs[it].start == indexC) {
      if it == |ivs| || ivs[it].start != indexC {
        it := it - 1;
      }
      if ivs[it].end + 1 >= indexC {
        return true, it;
      }
      it := it + 1;
    }
    return false, it;
  }

  /** The intervals hold exactly these bytes. */
  ghost predicate Shows(ivs: seq<Interval>, m: map<nat, u8>) {
    Separated(ivs) && Flatten(ivs) == m
  }

  /** `m` is what the intervals hold once the part of `data` in [lo, hi) is absorbed. */
  ghost predicate Target(ivs: seq<Interval>, data: seq<u8>, index: nat, lo: nat, hi: nat, m: map<nat, u8>) {
    index <= lo && hi <= index + |data| && m == Absorb(Flatten(ivs), data, index, lo, hi)
  }

  /** The three ways an excerpt of `data` in [lo, hi) is placed among the intervals. */
  ghost predicate Inserts(ivs: seq<Interval>, it: nat, cur: Interval, data: seq<u8>, index: nat, lo: nat, hi: nat) {
    && it <= |ivs| && (it < |ivs| ==> lo < ivs[it].start) && (it > 0 ==> ivs[it - 1].end + 1 < lo)
    && index <= lo < hi <= index + |data|
    && cur == Interval(lo, hi - 1, data[lo - index..hi - index])
  }

  ghost predicate Extends(ivs: seq<Interval>, it: nat, cur: Interval, data: seq<u8>, index: nat, lo: nat, hi: nat) {
    && it < |ivs| && ivs[it].start <= lo <= ivs[it].end + 1 < hi
    && index <= lo && hi <= index + |data|
    && cur == Interval(ivs[it].start, hi - 1, ivs[it].data + data[ivs[it].end + 1 - index..hi - index])
  }

  ghost predicate Covers(ivs: seq<Interval>, it: nat, cur: Interval, lo: nat, hi: nat) {
    it < |ivs| && ivs[it].start <= lo < hi <= ivs[it].end + 1 && cur == ivs[it]
  }

  datatype Placement = Inserted | Extended | Covered

  ghost predicate Placed(ivs: seq<Interval>, how: Placement, it: nat, cur: Interval, data: seq<u8>, index: nat, lo: nat, hi: nat) {
    match how
    case Inserted => Inserts(ivs, it, cur, data, index, lo, hi)
    case Extended => Extends(ivs, it, cur, data, index, lo, hi)
    case Covered => Covers(ivs, it, cur, lo, hi)
  }

  /** The bytes that the excerpt replaces or continues. */
  function Kept(ivs: seq<Interval>, how: Placement, it: nat): nat {
    if how.Inserted? || it >= |ivs| then 0 else |ivs[it].data|
  }

  /** Extends the interval that the excerpt touches, or inserts a new one, or finds it covered. */
  method Place(ivs: seq<Interval>, buf: seq<u8>, indexC: nat, endIndex: nat, ghost data: seq<u8>, ghost index: nat)
    returns (how: Placement, it: nat, cur: Interval, added: nat)
    requires Separated(ivs) && Within(ivs, 0, TWO64 - 1)
    requires index <= indexC <= endIndex < index + |data| && endIndex < TWO64 - 1
    requires buf == data[indexC - index..endIndex + 1 - index]
    ensures Placed(ivs, how, it, cur, data, index, indexC, endIndex + 1)
    ensures added == |cur.data| - Kept(ivs, how, it)
  {
    var touches;
    touches, it := Locate(ivs, indexC);
    if !touches {
      return Inserted, it, Interval(indexC, endIndex, buf), |buf|;
    }
    var olapLen := Low64(ivs[it].end - indexC + 1);
    Low64InRange(ivs[it].end - indexC + 1);
    if olapLen >= |buf| {
      return Covered, it, ivs[it], 0;
    }
    var rest := buf[olapLen..];
    assert rest == data[ivs[it].end + 1 - index..endIndex + 1 - index];
    return Extended, it, Interval(ivs[it].start, endIndex, ivs[it].data + rest), |rest|;
  }

  /** Takes in the intervals that `cur` now overlaps or touches. */
  method Swallow(a: seq<Interval>, before: Interval, later: seq<Interval>)
    returns (cur: Interval, b: seq<Interval>, removed: nat)
    requires Laid(a, before, later) && before.end < TWO64 - 1 && Within(later, 0, TWO64 - 1)
    ensures cur.start == before.start && Laid(a, cur, b) && (b == [] || cur.end + 1 < b[0].start)
    ensures Overlay(a, cur, b) == Overlay(a, before, later)
    ensures |cur.data| + Total(b) == |before.data| + Total(later) - removed
  {
    cur, b, removed := before, later, 0;
    while b != []
      invariant Laid(a, cur, b) && cur.start == before.start && Within(b, 0, TWO64 - 1) && cur.end < TWO64 - 1
      invariant Overlay(a, cur, b) == Overlay(a, before, later)
      invariant |cur.data| + Total(b) == |before.data| + Total(later) - removed
      decreases |b|
    {
      var next := b[0];
      if cur.end >= next.end {
        OverlayCovered(a, cur, b);
        b, removed := b[1..], removed + |next.data|;
      } else if cur.end + 1 >= next.start {
        var olapLen := Low64(cur.end - next.start + 1);
        Low64InRange(cur.end - next.start + 1);
        var cur' := Interval(cur.start, next.end, cur.data + next.data[olapLen..]);
        OverlayJoined(a, cur, b, cur');
        cur, b, removed := cur', b[1..], removed + olapLen;
        break;
      } else {
        break;
      }
    }
  }

  /** What follows the interval that received the excerpt. */
  function After(ivs: seq<Interval>, how: Placement, it: nat): seq<Interval>
    requires it < |ivs| || (how.Inserted? && it == |ivs|)
  {
    if how.Inserted? then ivs[it..] else ivs[it + 1..]
  }

  lemma {:induction false} PlacedOverlay(ivs: seq<Interval>, how: Placement, it: nat, cur: Interval, data: seq<u8>, index: nat, lo: nat, hi: nat)
    requires Separated(ivs) && !how.Covered?
    requires Placed(ivs, how, it, cur, data, index, lo, hi)
    ensures Laid(ivs[..it], cur, After(ivs, how, it))
    ensures Absorb(Flatten(ivs), data, index, lo, hi) == Overlay(ivs[..it], cur, After(ivs, how, it))
  {
    if how.Inserted? {
      AbsorbInserts(ivs, it, data, index, lo, hi, cur);
    } else {
      AbsorbExtends(ivs, it, data, index, lo, hi, cur);
    }
  }

  lemma {:induction false} ListTotal(a: seq<Interval>, cur: Interval, b: seq<Interval>)
    ensures Total(a + [cur] + b) == Total(a) + |cur.data| + Total(b)
  {
    FlattenConcat(a + [cur], b);
    FlattenConcat(a, [cur]);
  }

  /** The intervals with `placed` between `a` and `later`, once overlaps are gone. */
  method Settle(a: seq<Interval>, placed: Interval, later: seq<Interval>) returns (ivs: seq<Interval>, removed: nat)
    requires Laid(a, placed, later) && placed.end < TWO64 - 1 && Within(later, 0, TWO64 - 1)
    ensures |ivs| > |a| && ivs[|a|].start == placed.start
    ensures Separated(ivs) && Total(ivs) == Total(a) + |placed.data| + Total(later) - removed
    ensures Flatten(ivs) == Overlay(a, placed, later)
  {
    var cur, b;
    cur, b, removed := Swallow(a, placed, later);
    SeparatedAround(a, cur, b);
    OverlaySettled(a, cur, b);
    ListTotal(a, cur, b);
    ivs := a + [cur] + b;
  }

  /** Absorbs an excerpt that no stored interval covers. */
  method Insert(ivs: seq<Interval>, how: Placement, at: nat, cur: Interval,
                ghost data: seq<u8>, ghost index: nat, ghost lo: nat, ghost hi: nat, ghost m: map<nat, u8>)
    returns (ivs': seq<Interval>, removed: nat)
    requires Separated(ivs) && Within(ivs, 0, TWO64 - 1) && hi < TWO64 && !how.Covered?
    requires Target(ivs, data, index, lo, hi, m)
    requires Placed(ivs, how, at, cur, data, index, lo, hi)
    ensures Shows(ivs', m) && at < |ivs'| && ivs'[at].start <= lo
    ensures Total(ivs') == Total(ivs) + |cur.data| - Kept(ivs, how, at) - removed
  {
    PlacedOverlay(ivs, how, at, cur, data, index, lo, hi);
    TotalSplit(ivs, at);
    ivs', removed := Settle(ivs[..at], cur, After(ivs, how, at));
  }

  /** The part of an excerpt that lies in the window, in 64-bit arithmetic. */
  method Clip(index: u64, length: nat, firstIndex: nat, room: nat)
    returns (outside: bool, offset: nat, indexC: nat, lengthC: nat, endIndex: nat)
    requires firstIndex + room + length < TWO64
    ensures outside ==> Max(index, firstIndex) >= Min(index + length, firstIndex + room)
    ensures !outside ==>
              && indexC == Max(index, firstIndex) == index + offset
              && indexC + lengthC == Min(index + length, firstIndex + room)
              && (lengthC == 0 ==> room == 0)
              && (lengthC > 0 ==> endIndex == indexC + lengthC - 1)
  {
    indexC, lengthC, offset := index, length, 0;
    endIndex := Low64(index + length - 1);
    Low64InRange(index + length - 1);
    var maxAcindex := Low64(firstIndex + room);
    Low64InRange(firstIndex + room);
    if endIndex < firstIndex || indexC >= maxAcindex || lengthC == 0 {
      return true, offset, indexC, lengthC, endIndex;
    }
    outside := false;
    if index < firstIndex {
      indexC, offset := firstIndex, firstIndex - index;
      lengthC := lengthC - offset;
    }
    Low64InRange(indexC + lengthC);
    if Low64(indexC + lengthC) > maxAcindex {
      Low64InRange(maxAcindex - indexC);
      Low64InRange(maxAcindex - 1);
      lengthC := Low64(maxAcindex - indexC);
      endIndex := Low64(indexC + lengthC - 1);
    }
  }

  /** After an excerpt is taken in, its interval starts the window exactly when the window's first byte is held. */
  lemma WindowFront(r: Reassembler, data: seq<u8>, index: nat, ivs: seq<Interval>, at: nat, m: map<nat, u8>)
    requires r.out.Valid() && Keyed(r.held, r.First() + 1, r.Edge())
    requires m == Window(r, data, index) && Shows(ivs, m)
    requires at < |ivs| && ivs[at].start <= Max(index, r.First()) < Min(index + |data|, r.Edge())
    ensures Keyed(m, r.First(), r.Edge())
    ensures ivs[at].start == r.First() <==> r.First() in m
  {
    KeyedWithin(ivs, r.First(), r.Edge());
    FlattenAt(ivs, at, ivs[at].start);
  }

  /** Draining moves the interval at the front of the window, if there is one. */
  lemma {:induction false} DrainIntervals(r: Reassembler, ivs: seq<Interval>, at: nat, m: map<nat, u8>)
    requires r.out.Valid() && Shows(ivs, m)
    requires Keyed(m, r.First(), r.Edge()) && at < |ivs|
    requires ivs[at].start == r.First() <==> r.First() in m
    ensures ivs[at].start == r.First() ==>
              && at == 0 && Total(ivs) == |ivs[0].data| + Total(ivs[1..])
              && Drains(r, m, ivs[0].data, ivs[1..])
    ensures ivs[at].start != r.First() ==> Drains(r, m, [], ivs)
  {
    if ivs[at].start == r.First() {
      KeyedWithin(ivs, r.First(), r.Edge());
      DrainFront(r, ivs, m);
    } else {
      DrainNothing(r.(held := m));
      assert r.out.written + [] == r.out.written;
    }
  }

  lemma {:induction false} AdmittedDrains(r: Reassembler, data: seq<u8>, index: nat, ivs: seq<Interval>, at: nat, m: map<nat, u8>)
    requires r.Valid() && m == Window(r, data, index) && Shows(ivs, m)
    requires at < |ivs| && ivs[at].start <= Max(index, r.First()) < Min(index + |data|, r.Edge())
    ensures ivs[at].start == r.First() ==>
              && at == 0 && Total(ivs) == |ivs[0].data| + Total(ivs[1..])
              && Drains(r, m, ivs[0].data, ivs[1..])
    ensures ivs[at].start != r.First() ==> Drains(r, m, [], ivs)
  {
    WindowFront(r, data, index, ivs, at, m);
    DrainIntervals(r, ivs, at, m);
  }

  lemma DrainFront(r: Reassembler, ivs: seq<Interval>, m: map<nat, u8>)
    requires r.out.Valid() && Shows(ivs, m) && ivs != []
    requires Within(ivs, r.First(), r.Edge()) && ivs[0].start == r.First()
    ensures Drains(r, m, ivs[0].data, ivs[1..])
  {
    FrontRun(ivs, r.First(), r.Edge());
    assert ivs[0].end < r.Edge();
    assert DrainHeld(r.out, m) == Flatten(ivs[1..]);
    DrainAs(r, m, ivs[0].end + 1, ivs[0].data, Flatten(ivs[1..]));
    Sides(ivs, 1);
  }

  lemma {:induction false} DrainAs(r: Reassembler, m: map<nat, u8>, e: nat, seg: seq<u8>, rest: map<nat, u8>)
    requires r.out.Valid() && e == RunEnd(m, r.First(), r.Edge()) && e <= r.Edge()
    requires seg == Cut(m, r.First(), e) && rest == DrainHeld(r.out, m)
    ensures Drain(r, m) == r.(out := r.out.(written := r.out.written + seg), held := rest) && |seg| <= r.out.Remaining()
  {
  }

  /** Draining `m` writes exactly `seg`, without truncation, and leaves what `ivs` shows. */
  ghost predicate Drains(r: Reassembler, m: map<nat, u8>, seg: seq<u8>, ivs: seq<Interval>)
    requires r.out.Valid()
  {
    && Drain(r, m) == r.(out := r.out.(written := r.out.written + seg), held := Flatten(ivs))
    && |seg| <= r.out.Remaining()
    && Separated(ivs)
  }

  lemma CoveredShows(ivs: seq<Interval>, at: nat, data: seq<u8>, index: nat, lo: nat, hi: nat, m: map<nat, u8>)
    requires Separated(ivs) && Target(ivs, data, index, lo, hi, m) && at < |ivs| && Covers(ivs, at, ivs[at], lo, hi)
    ensures Shows(ivs, m)
  {
    AbsorbCovered(ivs, at, data, index, lo, hi);
  }

  lemma CoveredDrains(r: Reassembler, ivs: seq<Interval>, at: nat, cur: Interval,
                      data: seq<u8>, index: nat, lo: nat, hi: nat, m: map<nat, u8>)
    requires r.Valid() && Shows(ivs, r.held) && Target(ivs, data, index, lo, hi, m) && Covers(ivs, at, cur, lo, hi)
    ensures Drains(r, m, [], ivs)
  {
    CoveredShows(ivs, at, data, index, lo, hi, m);
    DrainNothing(r);
    assert r.out.written + [] == r.out.written;
  }

  lemma WindowTarget(r: Reassembler, ivs: seq<Interval>, data: seq<u8>, index: nat, lo: nat, hi: nat)
    requires r.Valid() && Shows(ivs, r.held)
    requires lo == Max(index, r.First()) && hi == Min(index + |data|, r.Edge())
    ensures Target(ivs, data, index, lo, hi, Window(r, data, index))
  {
  }

  /** Takes a placed excerpt in and hands over the interval, if any, that starts the window. */
  method Assemble(ivs: seq<Interval>, how: Placement, at: nat, cur: Interval, firstIndex: nat,
                  ghost data: seq<u8>, ghost index: nat, ghost lo: nat, ghost hi: nat, ghost r: Reassembler)
    returns (ivs': seq<Interval>, seg: seq<u8>, removed: nat)
    requires r.Valid() && Shows(ivs, r.held) && firstIndex == r.First() && r.Edge() < TWO64
    requires lo == Max(index, r.First()) < hi == Min(index + |data|, r.Edge())
    requires Placed(ivs, how, at, cur, data, index, lo, hi)
    ensures Drains(r, Window(r, data, index), seg, ivs')
    ensures Total(ivs') == Total(ivs) + |cur.data| - Kept(ivs, how, at) - removed - |seg|
  {
    ghost var m := Window(r, data, index);
    WindowTarget(r, ivs, data, index, lo, hi);
    if how.Covered? {
      CoveredDrains(r, ivs, at, cur, data, index, lo, hi, m);
      return ivs, [], 0;
    }
    KeyedWithin(ivs, firstIndex + 1, r.Edge());
    ivs', removed := Insert(ivs, how, at, cur, data, index, lo, hi, m);
    AdmittedDrains(r, data, index, ivs', at, m);
    if ivs'[at].start == firstIndex {
      seg, ivs' := ivs'[at].data, ivs'[1..];
    } else {
      seg := [];
    }
  }

  /** Places an excerpt that reaches into the window, and hands over what can be delivered. */
  method Incorporate(ivs: seq<Interval>, buf: seq<u8>, indexC: nat, endIndex: nat, firstIndex: nat,
                     ghost data: seq<u8>, ghost index: nat, ghost r: Reassembler)
    returns (ivs': seq<Interval>, seg: seq<u8>, added: nat, removed: nat)
    requires r.Valid() && Shows(ivs, r.held) && firstIndex == r.First() && r.Edge() < TWO64
    requires indexC == Max(index, firstIndex) && endIndex + 1 == Min(index + |data|, r.Edge())
    requires indexC <= endIndex && buf == data[indexC - index..endIndex + 1 - index]
    ensures Drains(r, Window(r, data, index), seg, ivs')
    ensures Total(ivs') == Total(ivs) + added - removed - |seg|
  {
    var how, at, cur;
    KeyedWithin(ivs, firstIndex + 1, r.Edge());
    how, at, cur, added := Place(ivs, buf, indexC, endIndex, data, index);
    ivs', seg, removed := Assemble(ivs, how, at, cur, firstIndex, data, index, indexC, endIndex + 1, r);
  }

  class StreamReassembler {
    const output: ByteStream
    var unassembled: seq<Interval>
    var unassembledBytes: nat
    var firstIndex: nat
    var eofIndex: nat
    var eof: bool
    var eofed: bool

    /** The fields agree with each other. */
    ghost predicate Sound()
      reads this, output
    {
      && output.Valid()
      && Separated(unassembled)
      && unassembledBytes == Total(unassembled)
      && firstIndex == |output.history|
    }

    ghost predicate Valid()
      reads this, output
    {
      Sound() && State().Valid()
    }

    ghost function State(): Reassembler
      reads this, output
    {
      Reassembler(output.State(), Flatten(unassembled), eof, eofIndex, eofed)
    }

    constructor (capacity: nat)
      ensures Valid() && fresh(output) && State() == Reassembly.Fresh(capacity)
    {
      output := new ByteStream(capacity);
      unassembled, unassembledBytes, firstIndex, eofIndex, eof, eofed := [], 0, 0, 0, false, false;
    }

    /** The counter holds the number of distinct indices held; with the buffered bytes it fits the capacity. */
    lemma Accounting()
      requires Valid()
      ensures unassembledBytes == |State().held|
      ensures |output.buffer| + unassembledBytes <= output.capacity
    {
      TotalCounts(unassembled);
      KeyedWithin(unassembled, firstIndex + 1, State().Edge());
      TotalFits(unassembled, firstIndex + 1, State().Edge());
    }

    method UnassembledBytes() returns (n: nat)
      requires Valid()
      ensures n == |State().held|
    {
      Accounting();
      n := unassembledBytes;
    }

    method CloseIfDone()
      requires Sound()
      modifies this`eofed, output
      ensures Sound() && State() == Close(old(State()))
    {
      if eof && firstIndex == eofIndex {
        output.EndInput();
        eofed := true;
      }
    }

    /** The push of an excerpt that reaches into the window. */
    method PushInside(buf: seq<u8>, indexC: nat, endIndex: nat, ghost data: seq<u8>, ghost index: nat, ghost r: Reassembler)
      requires Sound() && r.Valid() && r.out == State().out && r.held == State().held && r.Edge() < TWO64
      requires indexC == Max(index, firstIndex) && endIndex + 1 == Min(index + |data|, r.Edge())
      requires indexC <= endIndex && buf == data[indexC - index..endIndex + 1 - index]
      modifies this`unassembled, this`unassembledBytes, this`firstIndex, output
      ensures Sound() && output.State() == Drain(r, Window(r, data, index)).out
      ensures Flatten(unassembled) == Drain(r, Window(r, data, index)).held
    {
      ghost var m := Window(r, data, index);
      var ivs, seg, added, removed := Incorporate(unassembled, buf, indexC, endIndex, firstIndex, data, index, r);
      assert Drains(r, m, seg, ivs);
      unassembledBytes := unassembledBytes + added - removed - |seg|;
      unassembled, firstIndex := ivs, firstIndex + |seg|;
      var accepted := output.Write(seg);
    }

    /** Takes in whatever part of the excerpt is inside the window. */
    method Receive(data: seq<u8>, index: u64, ghost r: Reassembler)
      requires Sound() && r.Valid() && r.out == State().out && r.held == State().held && r.Edge() + |data| < TWO64
      modifies this`unassembled, this`unassembledBytes, this`firstIndex, output
      ensures Sound() && output.State() == Drain(r, Window(r, data, index)).out
      ensures Flatten(unassembled) == Drain(r, Window(r, data, index)).held
    {
      var room := output.RemainingCapacity();
      var outside, offset, indexC, lengthC, endIndex := Clip(index, |data|, firstIndex, room);
      if outside || lengthC == 0 {
        // With no room the map is empty: an empty interval would be inserted and handed over at once.
        DrainOutside(r, data, index);
      } else {
        assert offset == indexC - index && offset + lengthC == endIndex + 1 - index;
        PushInside(data[offset..offset + lengthC], indexC, endIndex, data, index, r);
      }
    }

    /** The push of `stream_reassembler.cc`, which does what the byte-by-byte map does. */
    method PushSubstring(data: seq<u8>, index: u64, isEof: bool)
      requires Valid() && State().Edge() + |data| < TWO64
      modifies this, output
      ensures Valid() && State() == Push(old(State()), data, index, isEof)
    {
      if eofed {
        return;
      }
      ghost var r := State();
      if isEof && !eof {
        eof, eofIndex := true, Low64(index + |data|);
      }
      Receive(data, index, r);
      CloseIfDone();
      PushOpen(r, data, index, isEof);
      PushSteps(r, data, index, isEof);
    }
  }
}
