/**
 * A flow-controlled in-memory byte stream: a value that remembers every byte
 * ever written, and the object that only keeps the bytes not yet read.
 */
module ByteStreams {
  import opened Types

  datatype Stream = Stream(capacity: nat, written: seq<u8>, popped: nat, ended: bool, error: bool)
  {
    ghost predicate Valid() {
      popped <= |written| <= popped + capacity
    }

    function Buffer(): seq<u8>
      requires popped <= |written|
    {
      written[popped..]
    }

    function Remaining(): nat
      requires popped <= |written| <= popped + capacity
    {
      capacity - (|written| - popped)
    }

    function Write(data: seq<u8>): Stream
      requires popped <= |written| <= popped + capacity
    {
      this.(written := written + data[..Min(|data|, Remaining())])
    }

    function Pop(len: nat): Stream
      requires popped <= |written|
    {
      this.(popped := popped + Min(|written| - popped, len))
    }

    function EndInput(): Stream {
      this.(ended := true)
    }

    function SetError(): Stream {
      this.(error := true)
    }
  }

  function Fresh(capacity: nat): Stream {
    Stream(capacity, [], 0, false, false)
  }

  class ByteStream {
    const capacity: nat
    var buffer: seq<u8>
    var inputEnded: bool
    var error: bool
    var writeCount: nat
    var readCount: nat
    ghost var history: seq<u8>

    ghost predicate Valid()
      reads this
    {
      && State().Valid()
      && |history| == readCount + |buffer|
      && (forall i :: 0 <= i < |buffer| ==> buffer[i] == history[readCount + i])
      && writeCount == |history|
    }

    ghost function State(): Stream
      reads this
    {
      Stream(capacity, history, readCount, inputEnded, error)
    }

    constructor (capacity: nat)
      ensures Valid() && State() == Fresh(capacity)
    {
      this.capacity := capacity;
      buffer, history, inputEnded, error, writeCount, readCount := [], [], false, false, 0, 0;
    }

    /** Accepts as much of the data as there is room for. */
    method Write(data: seq<u8>) returns (accepted: nat)
      requires Valid()
      modifies this
      ensures Valid() && State() == old(State()).Write(data)
      ensures accepted == Min(|data|, old(State()).Remaining())
      ensures State().written == old(State()).written + data[..accepted]
    {
      accepted := Min(|data|, capacity - |buffer|);
      buffer := buffer + data[..accepted];
      history := history + data[..accepted];
      writeCount := writeCount + accepted;
    }

    method PeekOutput(len: nat) returns (bytes: seq<u8>)
      requires Valid()
      ensures bytes == State().Buffer()[..Min(len, |State().Buffer()|)]
    {
      bytes := buffer[..Min(len, |buffer|)];
    }

    method PopOutput(len: nat)
      requires Valid()
      modifies this
      ensures Valid() && State() == old(State()).Pop(len)
    {
      var length := Min(|buffer|, len);
      buffer := buffer[length..];
      readCount := readCount + length;
    }

    /** Consecutive reads return consecutive pieces of what was written. */
    method Read(len: nat) returns (bytes: seq<u8>)
      requires Valid()
      modifies this
      ensures Valid() && State() == old(State()).Pop(len)
      ensures bytes == State().written[old(State()).popped..State().popped]
      ensures bytes == old(State()).Buffer()[..Min(len, |old(State()).Buffer()|)]
    {
      bytes := PeekOutput(len);
      PopOutput(len);
    }

    method EndInput()
      requires Valid()
      modifies this
      ensures Valid() && State() == old(State()).EndInput()
    {
      inputEnded := true;
    }

    method SetError()
      requires Valid()
      modifies this
      ensures Valid() && State() == old(State()).SetError()
    {
      error := true;
    }

    method RemainingCapacity() returns (room: nat)
      requires Valid()
      ensures room == State().Remaining()
    {
      room := capacity - |buffer|;
    }
  }
}
