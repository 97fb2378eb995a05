/** The connection buffer with its consumed-prefix cursor (src/internal/buffer.hpp). */
module Buffers {

  const INITIAL_BUFFER_BYTES := 4096
  const BUFFER_GROWTH_FACTOR := 2

  /** Static strings lie below this address, and whatever is allocated does not. */
  const FIRST_FREE_ADDRESS := 2

  function Max(a: nat, b: nat): nat { if a < b then b else a }

  class Buffer {
    var storage: string
    var address: int       // where the storage lies; an allocation moves it
    var readCursor: nat
    var writeCursor: nat

    ghost predicate Valid()
      reads this
    {
      readCursor <= writeCursor <= |storage| && address >= FIRST_FREE_ADDRESS
    }

    /** The bytes written and not yet consumed. */
    function Readable(): string
      requires Valid()
      reads this
    {
      storage[readCursor..writeCursor]
    }

    /** Where the readable bytes lie. */
    function ReadPointer(): int
      reads `address, `readCursor
    {
      address + readCursor
    }

    constructor (capacity: nat)
      ensures Valid() && Readable() == "" && |storage| == capacity
    {
      storage := seq(capacity, _ => '\0');
      readCursor, writeCursor := 0, 0;
      var place: int :| place >= FIRST_FREE_ADDRESS;
      address := place;
    }

    /** Other storage, at whatever address. */
    method Allocate(bytes: string)
      modifies `storage, `address
      ensures storage == bytes && address >= FIRST_FREE_ADDRESS
    {
      var place: int :| place >= FIRST_FREE_ADDRESS;
      storage, address := bytes, place;
    }

    /** Room for at least `minimum` more bytes behind the write cursor; answers how much there is. */
    method WritableTail(minimum: nat) returns (room: nat)
      requires Valid()
      modifies this
      ensures Valid() && Readable() == old(Readable())
      ensures readCursor == old(readCursor) && writeCursor == old(writeCursor)
      ensures room == |storage| - writeCursor >= minimum
      ensures old(|storage| - writeCursor >= minimum) ==> storage == old(storage) && address == old(address)
    {
      if |storage| - writeCursor < minimum {
        var target := Max(Max(writeCursor + minimum, |storage| * BUFFER_GROWTH_FACTOR), INITIAL_BUFFER_BYTES);
        Allocate(storage + seq(target - |storage|, _ => '\0'));
      }
      return |storage| - writeCursor;
    }

    /** The bytes a reader put at the start of the tail become readable. */
    method Commit(bytes: string)
      requires Valid() && |bytes| <= |storage| - writeCursor
      modifies `storage, `writeCursor
      ensures Valid() && Readable() == old(Readable()) + bytes
    {
      storage := storage[..writeCursor] + bytes + storage[writeCursor + |bytes|..];
      writeCursor := writeCursor + |bytes|;
    }

    method Consume(count: nat)
      requires Valid() && count <= |Readable()|
      modifies this
      ensures Valid() && Readable() == old(Readable())[count..] && address == old(address)
    {
      readCursor := readCursor + count;
      if readCursor == writeCursor {
        readCursor, writeCursor := 0, 0;
      }
    }

    method Compact()
      requires Valid()
      modifies this
      ensures Valid() && Readable() == old(Readable())
      ensures readCursor == 0 && |storage| == old(|storage|) && address == old(address)
    {
      if readCursor == 0 { return; }
      var live := storage[readCursor..writeCursor];
      storage := live + storage[|live|..];
      readCursor, writeCursor := 0, |live|;
    }

    /** Keeps the bytes and gives back capacity beyond what they, the retained size and the initial size need. */
    method CompactAndReclaim(retained: nat)
      requires Valid()
      modifies this
      ensures Valid() && Readable() == old(Readable()) && readCursor == 0
      ensures |storage| <= Max(Max(|Readable()|, retained), INITIAL_BUFFER_BYTES)
    {
      Compact();
      var target := Max(Max(writeCursor, retained), INITIAL_BUFFER_BYTES);
      if |storage| <= target { return; }
      Allocate(storage[..writeCursor] + seq(target - writeCursor, _ => '\0'));
    }

    method Clear()
      requires Valid()
      modifies `readCursor, `writeCursor
      ensures Valid() && Readable() == "" && storage == old(storage)
    {
      readCursor, writeCursor := 0, 0;
    }

    method Append(bytes: string)
      requires Valid()
      modifies this
      ensures Valid() && Readable() == old(Readable()) + bytes
    {
      var _ := WritableTail(|bytes|);
      Commit(bytes);
    }
  }
}
