/**
 * What a stream reassembler does, byte by byte: a map from stream index to held
 * byte, from which the run starting at the first missing index is delivered.
 */
module Reassembly {
  import opened Types
  import opened ByteStreams

  datatype Reassembler = Reassembler(out: Stream, held: map<nat, u8>, eof: bool, eofIndex: nat, eofed: bool)
  {
    function First(): nat {
      |out.written|
    }

    /** First index past the window: it moves only when the reader pops. */
    function Edge(): nat {
      out.popped + out.capacity
    }

    ghost predicate Valid() {
      && out.Valid()
      && (forall i :: i in held ==> First() < i < Edge())
      && (eofed <==> eof && First() == eofIndex)
      && out.ended == eofed
    }

    /** Delivered or held. */
    predicate Knows(i: nat) {
      i < First() || i in held
    }

    function Read(len: nat): Reassembler
      requires out.popped <= |out.written|
    {
      this.(out := out.Pop(len))
    }
  }

  function Fresh(capacity: nat): Reassembler {
    Reassembler(ByteStreams.Fresh(capacity), map[], false, 0, false)
  }

  /** All of [lo, hi) is held. */
  predicate Spans(m: map<nat, u8>, lo: nat, hi: int) {
    forall j :: lo <= j < hi ==> j in m
  }

  /** The held run that covers `lo` reaches i. */
  predicate Reaches(m: map<nat, u8>, lo: nat, i: nat) {
    Spans(m, lo, i + 1)
  }

  /** The pushed bytes in [lo, hi), save where a held run that already covers `lo` provides them. */
  function Novel(held: map<nat, u8>, data: seq<u8>, index: nat, lo: nat, hi: nat): map<nat, u8>
    requires index <= lo && hi <= index + |data|
  {
    map i: nat | lo <= i < hi && !Reaches(held, lo, i) :: data[i - index]
  }

  function Absorb(held: map<nat, u8>, data: seq<u8>, index: nat, lo: nat, hi: nat): map<nat, u8>
    requires index <= lo && hi <= index + |data|
  {
    held + Novel(held, data, index, lo, hi)
  }

  /** The end of the held run that starts at i, looking no further than `edge`. */
  function RunEnd(m: map<nat, u8>, i: nat, edge: nat): (r: nat)
    ensures i <= r && (i <= edge ==> r <= edge)
    ensures Spans(m, i, r)
    ensures r < edge ==> r !in m
    decreases edge - i
  {
    if i < edge && i in m then RunEnd(m, i + 1, edge) else i
  }

  function Cut(m: map<nat, u8>, lo: nat, hi: nat): seq<u8>
    requires lo <= hi && Spans(m, lo, hi)
  {
    seq(hi - lo, k requires 0 <= k < hi - lo => assert lo + k in m; m[lo + k])
  }

  function Window(r: Reassembler, data: seq<u8>, index: nat): map<nat, u8> {
    WindowOf(r.out, r.held, data, index)
  }

  function WindowOf(out: Stream, held: map<nat, u8>, data: seq<u8>, index: nat): map<nat, u8> {
    Absorb(held, data, index, Max(index, |out.written|), Min(index + |data|, out.popped + out.capacity))
  }

  function Announce(r: Reassembler, data: seq<u8>, index: nat, eof: bool): Reassembler {
    if eof && !r.eof then r.(eof := true, eofIndex := (index + |data|) % 0x1_0000_0000_0000_0000) else r
  }

  /** Delivers the run at the front of `m`, keeps the rest. */
  function Drain(r: Reassembler, m: map<nat, u8>): Reassembler
    requires r.out.Valid()
  {
    r.(out := DrainOut(r.out, m), held := DrainHeld(r.out, m))
  }

  function DrainOut(out: Stream, m: map<nat, u8>): Stream
    requires out.Valid()
  {
    out.Write(Cut(m, |out.written|, RunEnd(m, |out.written|, out.popped + out.capacity)))
  }

  function DrainHeld(out: Stream, m: map<nat, u8>): map<nat, u8> {
    map i | i in m && RunEnd(m, |out.written|, out.popped + out.capacity) <= i :: m[i]
  }

  function Close(r: Reassembler): Reassembler {
    if r.eof && r.First() == r.eofIndex then r.(out := r.out.EndInput(), eofed := true) else r
  }

  function Push(r: Reassembler, data: seq<u8>, index: nat, eof: bool): Reassembler
    requires r.out.Valid()
  {
    if r.eofed then r
    else
      var r1 := Announce(r, data, index, eof);
      Close(Drain(r1, Window(r1, data, index)))
  }

  /** The window never lets the output truncate what is drained into it. */
  lemma {:induction false} DrainExact(r: Reassembler, m: map<nat, u8>)
    requires r.out.Valid()
    requires forall i :: i in m ==> i < r.Edge()
    ensures var e := RunEnd(m, r.First(), r.Edge()); var d := Drain(r, m);
            && d.out.written == r.out.written + Cut(m, r.First(), e)
            && d.First() == e && e !in m && d.Edge() == r.Edge()
            && d.out.Valid()
  {
  }

  lemma DrainNothing(r: Reassembler)
    requires r.out.Valid() && r.First() !in r.held
    requires forall i :: i in r.held ==> r.First() <= i
    ensures Drain(r, r.held) == r
  {
    var d := Drain(r, r.held);
    assert d.out.written == r.out.written;
    assert d.held == r.held;
  }

  /** A push that misses the window changes nothing but the announced end. */
  lemma DrainOutside(r: Reassembler, data: seq<u8>, index: nat)
    requires r.Valid() && Max(index, r.First()) >= Min(index + |data|, r.Edge())
    ensures Drain(r, Window(r, data, index)) == r
  {
    assert Window(r, data, index) == r.held;
    DrainNothing(r);
  }

  /** Announcing the end does not affect what is absorbed and drained. */
  lemma PushOpen(r: Reassembler, data: seq<u8>, index: nat, eof: bool)
    requires r.Valid() && !r.eofed
    ensures var d := Drain(r, Window(r, data, index));
            Push(r, data, index, eof) == Close(Announce(r, data, index, eof).(out := d.out, held := d.held))
  {
  }

  lemma DrainHolds(r: Reassembler, m: map<nat, u8>)
    requires r.out.Valid() && (forall i :: i in m ==> r.First() <= i < r.Edge())
    ensures var d := Drain(r, m); forall i :: i in d.held ==> d.First() < i < d.Edge()
  {
    DrainExact(r, m);
  }

  lemma WindowBounds(r: Reassembler, data: seq<u8>, index: nat)
    requires r.out.Valid() && (forall i :: i in r.held ==> r.First() < i < r.Edge())
    ensures forall i :: i in Window(r, data, index) ==> r.First() <= i < r.Edge()
  {
  }

  /** What one push leaves behind, in general. */
  lemma PushSteps(r: Reassembler, data: seq<u8>, index: nat, eof: bool)
    requires r.Valid()
    ensures var r' := Push(r, data, index, eof);
            && r'.Valid() && r'.Edge() == r.Edge() && r'.out.popped == r.out.popped
            && r'.out.capacity == r.out.capacity && r'.out.error == r.out.error
            && r.out.written <= r'.out.written
  {
    if !r.eofed {
      PushOpen(r, data, index, eof);
      var m := Window(r, data, index);
      WindowBounds(r, data, index);
      DrainExact(r, m);
      DrainHolds(r, m);
      OpenSteps(r, Announce(r, data, index, eof), Drain(r, m));
    }
  }

  lemma OpenSteps(r: Reassembler, r1: Reassembler, d: Reassembler)
    requires r.Valid() && !r.eofed && !r1.eofed
    requires d.out.Valid() && (forall i :: i in d.held ==> d.First() < i < d.Edge()) && !d.out.ended
    ensures Close(r1.(out := d.out, held := d.held)).Valid()
  {
  }

  /** The first announced end is kept. */
  lemma PushEof(r: Reassembler, data: seq<u8>, index: nat, eof: bool)
    requires r.Valid()
    ensures var r' := Push(r, data, index, eof);
            && r'.eof == (r.eof || eof)
            && (r.eofed ==> r' == r)
            && r'.eofIndex == if !r.eof && eof then (index + |data|) % 0x1_0000_0000_0000_0000 else r.eofIndex
  {
    if !r.eofed { PushOpen(r, data, index, eof); }
  }

  /** Conservation: exactly the old bytes and the pushed bytes inside the window are known afterwards. */
  lemma PushKnows(r: Reassembler, data: seq<u8>, index: nat, eof: bool, i: nat)
    requires r.Valid() && !r.eofed
    ensures Push(r, data, index, eof).Knows(i) <==>
            r.Knows(i) || (index <= i < index + |data| && i < r.Edge())
  {
    var r1 := Announce(r, data, index, eof);
    var m := Window(r1, data, index);
    DrainExact(r1, m);
    assert i in m <==> i in r.held || (Max(index, r.First()) <= i < Min(index + |data|, r.Edge()));
  }

  /** The known bytes are excerpts of one stream. */
  ghost predicate Follows(r: Reassembler, s: seq<u8>) {
    && r.out.written <= s
    && Excerpts(r.held, s)
  }

  ghost predicate Excerpts(m: map<nat, u8>, s: seq<u8>) {
    forall i :: i in m ==> i < |s| && m[i] == s[i]
  }

  lemma WindowFollows(r: Reassembler, data: seq<u8>, index: nat, s: seq<u8>)
    requires Excerpts(r.held, s)
    requires data == [] || (index + |data| <= |s| && data == s[index..index + |data|])
    ensures Excerpts(Window(r, data, index), s)
  {
  }

  lemma CutFollows(m: map<nat, u8>, lo: nat, hi: nat, s: seq<u8>)
    requires lo <= hi && Spans(m, lo, hi) && Excerpts(m, s) && lo <= |s|
    ensures hi <= |s| && Cut(m, lo, hi) == s[lo..hi]
  {
    if lo < hi { assert hi - 1 in m; }
  }

  lemma DrainFollows(r: Reassembler, m: map<nat, u8>, s: seq<u8>)
    requires r.out.Valid() && r.out.written <= s && Excerpts(m, s)
    requires forall i :: i in m ==> i < r.Edge()
    ensures Follows(Drain(r, m), s)
  {
    DrainExact(r, m);
    var e := RunEnd(m, r.First(), r.Edge());
    CutFollows(m, r.First(), e, s);
    assert r.out.written + s[r.First()..e] == s[..e];
  }

  lemma PushFollows(r: Reassembler, data: seq<u8>, index: nat, eof: bool, s: seq<u8>)
    requires r.Valid() && Follows(r, s)
    requires data == [] || (index + |data| <= |s| && data == s[index..index + |data|])
    ensures Follows(Push(r, data, index, eof), s)
  {
    if !r.eofed {
      var r1 := Announce(r, data, index, eof);
      WindowFollows(r1, data, index, s);
      DrainFollows(r1, Window(r1, data, index), s);
    }
  }

  /** For excerpts of one stream the held bytes are simply united: no byte wins over another. */
  lemma PushUnites(r: Reassembler, data: seq<u8>, index: nat, s: seq<u8>)
    requires r.Valid() && Follows(r, s)
    requires index + |data| <= |s| && data == s[index..index + |data|]
    ensures Window(r, data, index) ==
            r.held + map i: nat | Max(index, r.First()) <= i < Min(index + |data|, r.Edge()) :: s[i]
  {
  }

  /** A push that covers the first missing index, with room for it, delivers it. */
  lemma PushAdvances(r: Reassembler, data: seq<u8>, index: nat, eof: bool)
    requires r.Valid() && !r.eofed
    requires index <= r.First() < index + |data| && r.First() < r.Edge()
    ensures Push(r, data, index, eof).First() > r.First()
  {
    PushKnows(r, data, index, eof, r.First());
    PushSteps(r, data, index, eof);
  }
}
