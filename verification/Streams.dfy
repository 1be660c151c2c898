/** Byte streams: a source that can run dry and a sink that can refuse bytes. */
module Streams {
  import opened Bytes

  class Source {
    const data: seq<Byte>
    var pos: nat

    ghost predicate Valid()
      reads this
    {
      pos <= |data|
    }

    /** The bytes not yet consumed. */
    function Rest(): seq<Byte>
      requires Valid()
      reads this
    {
      data[pos..]
    }

    constructor (bytes: seq<Byte>)
      ensures Valid() && Rest() == bytes
    {
      data, pos := bytes, 0;
    }

    /** Consumes and returns up to `n` bytes: fewer only when the data ends. */
    method Read(n: nat) returns (chunk: seq<Byte>)
      requires Valid()
      modifies this
      ensures Valid()
      ensures chunk == old(Rest())[..Min(n, |old(Rest())|)]
      ensures Rest() == old(Rest())[|chunk|..]
    {
      var take := Min(n, |data| - pos);
      chunk := data[pos..pos + take];
      pos := pos + take;
    }
  }

  class Sink {
    var data: seq<Byte>
    var room: nat

    constructor (room: nat)
      ensures data == [] && this.room == room
    {
      data, this.room := [], room;
    }

    /** Accepts as many leading bytes as there is room for, and says how many. */
    method Write(bytes: seq<Byte>) returns (n: nat)
      modifies this
      ensures n == Min(|bytes|, old(room))
      ensures data == old(data) + bytes[..n]
      ensures room == old(room) - n
    {
      n := Min(|bytes|, room);
      data := data + bytes[..n];
      room := room - n;
    }
  }
}
