// The per-client output buffer: a ring of BUFFERSIZE bytes that behaves as a
// FIFO sequence.

module CircularBuffer {
  import opened Standards

  class Buffer {
    const data: array<char>
    var count: nat
    var readPtr: nat
    var writePtr: nat

    ghost predicate Valid()
      reads this
    {
      data.Length == BUFFERSIZE && count <= BUFFERSIZE && readPtr < BUFFERSIZE &&
      writePtr == if readPtr + count < BUFFERSIZE then readPtr + count else readPtr + count - BUFFERSIZE
    }

    /** The bytes waiting, oldest first, whichever way they wrap. */
    ghost function Contents(): (s: string)
      requires Valid()
      reads this, data
      ensures |s| == count
    {
      if readPtr + count <= BUFFERSIZE then data[readPtr..readPtr + count]
      else data[readPtr..] + data[..readPtr + count - BUFFERSIZE]
    }

    /** Byte `k` from the read pointer. */
    lemma {:induction false} ByteAt(k: nat)
      requires Valid() && k < count
      ensures Contents()[k] == if readPtr + k < BUFFERSIZE then data[readPtr + k] else data[readPtr + k - BUFFERSIZE]
    {}

    constructor ()
      ensures Valid() && fresh(data) && Contents() == ""
    {
      data := new char[BUFFERSIZE];
      count, readPtr, writePtr := 0, 0, 0;
    }

    function GetBufferFreeSpace(): (k: nat)
      requires Valid()
      reads this, data
      ensures k + |Contents()| == BUFFERSIZE
    {
      BUFFERSIZE - count
    }

    function GetBufferOccupiedSpace(): (k: nat)
      requires Valid()
      reads this, data
      ensures k == |Contents()|
    {
      count
    }

    predicate IsBufferFull()
      requires Valid()
      reads this, data
      ensures IsBufferFull() <==> |Contents()| == BUFFERSIZE
    {
      count == BUFFERSIZE
    }

    predicate IsBufferEmpty()
      requires Valid()
      reads this, data
      ensures IsBufferEmpty() <==> Contents() == ""
    {
      count == 0
    }

    /** The slot is wiped with zeros. */
    method Clear()
      modifies this, data
      requires data.Length == BUFFERSIZE
      ensures Valid() && Contents() == ""
    {
      forall i | 0 <= i < data.Length {
        data[i] := NUL;
      }
      count, readPtr, writePtr := 0, 0, 0;
    }

    /** Appends `src`.  `fatal` is the branch the source says should not happen:
        the buffer is full and bytes are left; the process ends there. */
    method WriteDataToBuffer(src: string) returns (fatal: bool)
      requires Valid()
      modifies this, data
      ensures Valid()
      ensures fatal <==> old(|Contents()|) + |src| > BUFFERSIZE
      ensures !fatal ==> Contents() == old(Contents()) + src
      ensures fatal ==> Contents() == old(Contents()) + src[..BUFFERSIZE - old(|Contents()|)]
    {
      for i := 0 to |src|
        invariant Valid()
        invariant count == old(count) + i
        invariant Contents() == old(Contents()) + src[..i]
      {
        if IsBufferFull() {
          return true;
        }
        PutByte(src[i]);
        assert src[..i + 1] == src[..i] + [src[i]];
      }
      assert src[..|src|] == src;
      return false;
    }

    method PutByte(c: char)
      requires Valid() && count < BUFFERSIZE
      modifies this, data
      ensures Valid() && readPtr == old(readPtr)
      ensures Contents() == old(Contents()) + [c]
    {
      data[writePtr] := c;
      writePtr := (writePtr + 1) % BUFFERSIZE;
      count := count + 1;
    }

    method TakeByte() returns (c: char)
      requires Valid() && count > 0
      modifies this
      ensures Valid() && c == old(Contents())[0] && Contents() == old(Contents())[1..]
    {
      ghost var was := Contents();
      c := data[readPtr];
      readPtr := (readPtr + 1) % BUFFERSIZE;
      count := count - 1;
      assert was[0] == c;
      forall k | 0 <= k < count ensures Contents()[k] == was[k + 1] {
        ByteAt(k);
      }
    }

    /** Moves up to `len` of the oldest bytes to the start of `dest`. */
    method ReadDataFromBuffer(dest: array<char>, len: nat) returns (bytesRead: nat)
      requires Valid() && len <= dest.Length && dest != data
      modifies this, dest
      ensures Valid()
      ensures bytesRead == Min(len, old(|Contents()|))
      ensures dest[..bytesRead] == old(Contents())[..bytesRead]
      ensures Contents() == old(Contents())[bytesRead..]
      ensures data[..] == old(data[..])
    {
      bytesRead := 0;
      var readingData := true;
      var i := 0;
      ghost var was := Contents();
      while readingData && i < len
        invariant Valid() && bytesRead <= Min(len, |was|)
        invariant if readingData then i == bytesRead else bytesRead == |was|
        invariant forall k :: 0 <= k < bytesRead ==> dest[k] == was[k]
        invariant Contents() == was[bytesRead..]
        decreases readingData, len - i
      {
        if IsBufferEmpty() {
          readingData := false;
          continue;
        }
        var c := TakeByte();
        assert c == was[i] && Contents() == was[i + 1..];
        PutAt(dest, i, c);
        bytesRead := bytesRead + 1;
        i := i + 1;
      }
    }

    /** Storing outside the ring does not change the ring. */
    method PutAt(dest: array<char>, i: nat, c: char)
      requires Valid() && i < dest.Length && dest != data
      modifies dest
      ensures Contents() == old(Contents())
      ensures dest[i] == c && forall k :: 0 <= k < dest.Length && k != i ==> dest[k] == old(dest[k])
    {
      dest[i] := c;
    }
  }
}
