/** Integers in network byte order, and the parser that consumes them. */
module Parsing {
  import opened Types
  import opened Arithmetic
  import opened Checksums

  datatype ParseResult = NoError | BadChecksum | PacketTooShort | WrongIPVersion | HeaderTooShort | TruncatedPacket | Unsupported

  /** 256 to the power n. */
  function Cap(n: nat): (c: nat)
    ensures c >= 1
  {
    if n == 0 then 1 else 256 * Cap(n - 1)
  }

  /** The n low-order bytes of v, most significant first. */
  function Bytes(n: nat, v: nat): (s: seq<u8>)
    ensures |s| == n
  {
    if n == 0 then [] else Bytes(n - 1, v / 256) + [v % 256]
  }

  function FromBytes(s: seq<u8>): (v: nat)
    ensures v < Cap(|s|)
  {
    if s == [] then 0 else FromBytes(s[..|s| - 1]) * 256 + s[|s| - 1]
  }

  lemma {:induction false} FromBytesOf(n: nat, v: nat)
    requires v < Cap(n)
    ensures FromBytes(Bytes(n, v)) == v
  {
    if n > 0 {
      FromBytesOf(n - 1, v / 256);
      assert Bytes(n, v)[..n - 1] == Bytes(n - 1, v / 256);
    }
  }

  lemma {:induction false} ByteAt(n: nat, v: nat, i: nat)
    requires i < n
    ensures Bytes(n, v)[i] == v / Cap(n - 1 - i) % 256
  {
    if i < n - 1 {
      ByteAt(n - 1, v / 256, i);
      DivTwice(v, 256, Cap(n - 2 - i));
    }
  }

  /** What is left to parse, and the error so far. */
  datatype Parser = Parser(buffer: seq<u8>, error: ParseResult)
  {
    function Check(n: nat): Parser {
      if n > |buffer| then this.(error := PacketTooShort) else this
    }

    function Int(n: nat): (v: nat)
      ensures v < Cap(n)
    {
      if Check(n).error.NoError? then FromBytes(buffer[..n]) else 0
    }

    function Skip(n: nat): Parser {
      if Check(n).error.NoError? then Parser(buffer[n..], NoError) else Check(n)
    }
  }

  function Put(n: nat, v: nat, rest: seq<u8>): seq<u8> {
    Bytes(n, v) + rest
  }

  /** What was put is what is read. */
  lemma {:induction false} PutTake(n: nat, v: nat, rest: seq<u8>)
    requires v < Cap(n)
    ensures var p := Parser(Put(n, v, rest), NoError); p.Int(n) == v && p.Skip(n) == Parser(rest, NoError)
  {
    FromBytesOf(n, v);
    var b := Put(n, v, rest);
    assert b[..n] == Bytes(n, v) && b[n..] == rest;
  }

  /** A field: its width in bytes and its value. */
  datatype Field = Field(width: nat, value: nat)

  ghost predicate Fit(fs: seq<Field>) {
    forall i :: 0 <= i < |fs| ==> fs[i].value < Cap(fs[i].width)
  }

  function PutAll(fs: seq<Field>, rest: seq<u8>): seq<u8> {
    if fs == [] then rest else Put(fs[0].width, fs[0].value, PutAll(fs[1..], rest))
  }

  /** Integers of the given widths one after the other, and what is left. */
  function TakeAll(ws: seq<nat>, p: Parser): (r: (seq<nat>, Parser))
    ensures |r.0| == |ws| && forall i :: 0 <= i < |ws| ==> r.0[i] < Cap(ws[i])
  {
    if ws == [] then ([], p)
    else
      var (vs, p') := TakeAll(ws[1..], p.Skip(ws[0]));
      ([p.Int(ws[0])] + vs, p')
  }

  function Widths(fs: seq<Field>): seq<nat> {
    seq(|fs|, i requires 0 <= i < |fs| => fs[i].width)
  }

  function Values(fs: seq<Field>): seq<nat> {
    seq(|fs|, i requires 0 <= i < |fs| => fs[i].value)
  }

  lemma Tails(fs: seq<Field>)
    requires fs != []
    ensures Widths(fs)[1..] == Widths(fs[1..]) && Widths(fs)[0] == fs[0].width
    ensures Values(fs) == [fs[0].value] + Values(fs[1..])
  {
  }

  /** Whatever was put is read back, in order. */
  lemma {:induction false} PutTakeAll(fs: seq<Field>, rest: seq<u8>)
    requires Fit(fs)
    ensures TakeAll(Widths(fs), Parser(PutAll(fs, rest), NoError)) == (Values(fs), Parser(rest, NoError))
  {
    if fs == [] {
      assert Widths(fs) == [] && Values(fs) == [];
    } else {
      PutTake(fs[0].width, fs[0].value, PutAll(fs[1..], rest));
      PutTakeAll(fs[1..], rest);
      Tails(fs);
    }
  }

  function Total(ws: seq<nat>): nat {
    if ws == [] then 0 else ws[0] + Total(ws[1..])
  }

  /** The k-th integer is the bytes at its place. */
  lemma {:induction false} TakeWithin(ws: seq<nat>, b: seq<u8>, k: nat, off: nat)
    requires k < |ws| && off == Total(ws[..k]) && off + ws[k] <= |b|
    ensures TakeAll(ws, Parser(b, NoError)).0[k] == FromBytes(b[off..][..ws[k]])
  {
    if k == 0 {
      TakeFirst(ws, b);
    } else {
      TotalNext(ws, k);
      TakeNext(ws, b, k);
      TakeWithin(ws[1..], b[ws[0]..], k - 1, off - ws[0]);
      RestOfRest(b, ws[0], off);
    }
  }

  lemma {:induction false} TotalNext(ws: seq<nat>, k: nat)
    requires 0 < k < |ws|
    ensures Total(ws[..k]) == ws[0] + Total(ws[1..][..k - 1]) && ws[1..][k - 1] == ws[k]
  {
    assert ws[..k][1..] == ws[1..][..k - 1];
  }

  lemma {:induction false} TakeFirst(ws: seq<nat>, b: seq<u8>)
    requires ws != [] && ws[0] <= |b|
    ensures TakeAll(ws, Parser(b, NoError)).0[0] == FromBytes(b[0..][..ws[0]])
  {
    assert b[0..] == b;
  }

  lemma {:induction false} TakeNext(ws: seq<nat>, b: seq<u8>, k: nat)
    requires 0 < k < |ws| && ws[0] <= |b|
    ensures TakeAll(ws, Parser(b, NoError)).0[k] == TakeAll(ws[1..], Parser(b[ws[0]..], NoError)).0[k - 1]
  {
    assert Parser(b, NoError).Skip(ws[0]) == Parser(b[ws[0]..], NoError);
  }

  lemma {:induction false} OneFromBytes(s: seq<u8>)
    requires |s| == 1
    ensures FromBytes(s) == s[0]
  {
    assert s[..0] == [];
  }

  lemma RestOfRest(b: seq<u8>, n: nat, m: nat)
    requires n <= m <= |b|
    ensures b[n..][m - n..] == b[m..]
  {
  }

  lemma {:induction false} TakeLeaves(ws: seq<nat>, b: seq<u8>)
    ensures var p := TakeAll(ws, Parser(b, NoError)).1;
            if Total(ws) <= |b| then p == Parser(b[Total(ws)..], NoError) else p.error.PacketTooShort?
  {
    if ws == [] {
      assert b[0..] == b;
    } else if ws[0] <= |b| {
      TakeLeaves(ws[1..], b[ws[0]..]);
      if Total(ws) <= |b| { assert b[ws[0]..][Total(ws[1..])..] == b[Total(ws)..]; }
    } else {
      StaysShort(ws[1..], Parser(b, PacketTooShort));
    }
  }

  lemma {:induction false} StaysShort(ws: seq<nat>, p: Parser)
    requires p.error.PacketTooShort?
    ensures TakeAll(ws, p).1.error.PacketTooShort?
  {
    if ws != [] { StaysShort(ws[1..], p.Skip(ws[0])); }
  }

  lemma {:induction false} PutTwo(f: Field, g: Field, fs: seq<Field>, rest: seq<u8>)
    ensures PutAll([f, g] + fs, rest) == Bytes(f.width, f.value) + (Bytes(g.width, g.value) + PutAll(fs, rest))
  {
    var all := [f, g] + fs;
    assert all[1..] == [g] + fs && all[1..][1..] == fs;
    assert PutAll(all[1..], rest) == Bytes(g.width, g.value) + PutAll(fs, rest);
  }

  lemma {:induction false} PutFour(fs: seq<Field>, rest: seq<u8>)
    requires |fs| >= 4
    ensures PutAll(fs, rest) == Bytes(fs[0].width, fs[0].value) + (Bytes(fs[1].width, fs[1].value) +
                                (Bytes(fs[2].width, fs[2].value) + (Bytes(fs[3].width, fs[3].value) + PutAll(fs[4..], rest))))
  {
    assert fs == [fs[0], fs[1]] + fs[2..] && fs[2..] == [fs[2], fs[3]] + fs[4..];
    PutTwo(fs[0], fs[1], fs[2..], rest);
    PutTwo(fs[2], fs[3], fs[4..], rest);
  }

  lemma {:induction false} OneByte(v: u8)
    ensures Bytes(1, v) == [v]
  {
    assert Bytes(1, v) == Bytes(0, v / 256) + [v % 256];
  }

  lemma {:induction false} PutAllAppend(fs: seq<Field>, a: seq<u8>, b: seq<u8>)
    ensures PutAll(fs, a) + b == PutAll(fs, a + b)
  {
    if fs != [] { PutAllAppend(fs[1..], a, b); }
  }

  lemma {:induction false} PutAllConcat(fs: seq<Field>, gs: seq<Field>, rest: seq<u8>)
    ensures PutAll(fs + gs, rest) == PutAll(fs, PutAll(gs, rest))
  {
    if fs == [] {
      assert fs + gs == gs;
    } else {
      assert (fs + gs)[1..] == fs[1..] + gs;
      PutAllConcat(fs[1..], gs, rest);
    }
  }

  function Width(fs: seq<Field>): nat {
    if fs == [] then 0 else fs[0].width + Width(fs[1..])
  }

  lemma {:induction false} PutAllLength(fs: seq<Field>, rest: seq<u8>)
    ensures |PutAll(fs, rest)| == Width(fs) + |rest|
  {
    if fs != [] { PutAllLength(fs[1..], rest); }
  }

  /** A 16-bit field at an even place contributes its own value to the sum of words. */
  lemma {:induction false} SumAround(fs: seq<Field>, c: u16, gs: seq<Field>, rest: seq<u8>)
    requires Width(fs) % 2 == 0
    ensures WordSum(PutAll(fs + [Field(2, c)] + gs, rest), false) ==
            WordSum(PutAll(fs, []), false) + c + WordSum(PutAll(gs, rest), false)
  {
    var mid, tail := [Field(2, c)], PutAll(gs, rest);
    PutAllConcat(fs + mid, gs, rest);
    PutAllConcat(fs, mid, tail);
    assert PutAll(mid, tail) == Bytes(2, c) + tail by { assert mid[1..] == []; }
    PutAllAppend(fs, [], Bytes(2, c) + tail);
    assert [] + (Bytes(2, c) + tail) == Bytes(2, c) + tail;
    PutAllLength(fs, []);
    WordSumConcat(PutAll(fs, []), Bytes(2, c) + tail, false);
    WordSumConcat(Bytes(2, c), tail, false);
    WordOf(c);
  }

  lemma {:induction false} WordOf(c: u16)
    ensures WordSum(Bytes(2, c), false) == c
  {
    var s := Bytes(2, c);
    assert Bytes(1, c / 256) == Bytes(0, c / 256 / 256) + [c / 256 % 256];
    assert s == [c / 256, c % 256];
    assert s[1..] == [c % 256] && s[1..][1..] == [];
    assert WordSum(s[1..], true) == c % 256;
  }

  lemma {:induction false} BytesOfFour(v: nat)
    ensures Bytes(4, v) == Bytes(2, v / 256 / 256) + [v / 256 % 256, v % 256]
  {
    assert Bytes(4, v) == Bytes(3, v / 256) + [v % 256];
  }

  lemma Digits(v: nat)
    ensures v / 256 / 256 == v / 0x1_0000 && 256 * (v / 256 % 256) + v % 256 == v % 0x1_0000
  {
  }

  lemma {:induction false} WordOfTwo(a: u8, b: u8)
    ensures WordSum([a, b], false) == 256 * a + b
  {
    assert [a, b][1..] == [b] && [b][1..] == [];
    assert WordSum([b], true) == b;
  }

  /** A 32-bit field contributes its two halves. */
  lemma {:induction false} WordsOf(v: u32)
    ensures WordSum(Bytes(4, v), false) == v / 0x1_0000 + v % 0x1_0000
  {
    Digits(v);
    BytesOfFour(v);
    WordSumConcat(Bytes(2, v / 256 / 256), [v / 256 % 256, v % 256], false);
    WordOf(v / 256 / 256);
    WordOfTwo(v / 256 % 256, v % 256);
  }

  lemma Caps()
    ensures Cap(1) == 0x100 && Cap(2) == 0x1_0000 && Cap(4) == 0x1_0000_0000
  {
    assert Cap(4) == 0x1_0000 * Cap(2);
  }

  // Bits, padding.

  function Zeros(n: nat): seq<u8> {
    seq(n, _ => 0)
  }

  function Bit(b: bool, weight: nat): nat {
    if b then weight else 0
  }

  predicate HasBit(b: u8, weight: nat)
    requires weight > 0
  {
    b / weight % 2 == 1
  }

  lemma PadSkipped(pad: seq<u8>, payload: seq<u8>)
    ensures Parser(pad + payload, NoError).Skip(|pad|) == Parser(payload, NoError)
  {
    assert (pad + payload)[|pad|..] == payload;
  }

  class NetParser {
    var buffer: seq<u8>
    var error: ParseResult

    ghost function State(): Parser
      reads this
    {
      Parser(buffer, error)
    }

    constructor (buffer: seq<u8>)
      ensures State() == Parser(buffer, NoError)
    {
      this.buffer, error := buffer, NoError;
    }

    method CheckSize(size: nat)
      modifies this`error
      ensures State() == old(State()).Check(size)
    {
      if size > |buffer| {
        error := PacketTooShort;
      }
    }

    method ParseInt(len: nat) returns (ret: nat)
      modifies this
      ensures ret == old(State()).Int(len) && State() == old(State()).Skip(len)
    {
      CheckSize(len);
      ret := 0;
      if !error.NoError? {
        return;
      }
      for i := 0 to len
        invariant ret == FromBytes(buffer[..i])
      {
        assert buffer[..i + 1][..i] == buffer[..i];
        ret := ret * 256 + buffer[i];
      }
      buffer := buffer[len..];
    }

    method RemovePrefix(n: nat)
      modifies this
      ensures State() == old(State()).Skip(n)
    {
      CheckSize(n);
      if !error.NoError? {
        return;
      }
      buffer := buffer[n..];
    }
  }

  method UnparseInt(s: seq<u8>, len: nat, val: nat) returns (s': seq<u8>)
    ensures s' == s + Bytes(len, val)
  {
    s' := s;
    for i := 0 to len
      invariant s' == s + Bytes(len, val)[..i]
    {
      ByteAt(len, val, i);
      s' := s' + [val / Cap(len - i - 1) % 256];
    }
  }
}
