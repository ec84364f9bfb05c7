/** `Buffer`: the unread bytes of one client. */
module ClientBuffer {
  import opened Codec

  class Buffer {
    var data: seq<Byte>
    var offset: nat

    constructor ()
      ensures data == [] && offset == 0
    {
      data, offset := [], 0;
    }

    /** The bytes not consumed yet. */
    function Unread(): seq<Byte>
      reads this
    {
      if offset >= |data| then [] else data[offset..]
    }

    predicate Empty()
      reads this
    {
      offset >= |data|
    }

    function PendingBytes(): (n: nat)
      reads this
      ensures n == |Unread()| && (n == 0 <==> Empty())
    {
      if Empty() then 0 else |data| - offset
    }

    method Append(bytes: seq<Byte>)
      requires offset <= |data|
      modifies this
      ensures Unread() == old(Unread()) + bytes
      ensures offset == old(offset) <= |data| == old(|data|) + |bytes|
    {
      data := data + bytes;
    }

    method Consume(n: nat)
      requires offset + n <= |data|
      modifies `offset
      ensures Unread() == old(Unread())[n..] && offset == old(offset) + n
    {
      offset := offset + n;
    }

    /** `compact`: no unread byte is lost or moved, and the consumed ones take less than `threshold`
        bytes, or none. */
    method Compact(threshold: nat := 4096)
      modifies this
      ensures Unread() == old(Unread())
      ensures old(offset) <= old(|data|) ==> offset <= |data| && |data| == offset + |Unread()|
      ensures offset == 0 || offset < threshold
      ensures |data| <= old(|data|)
      ensures if 0 < old(offset) < threshold && old(offset) < old(|data|)
              then data == old(data) && offset == old(offset)
              else data == old(Unread()) && offset == 0
    {
      if offset == 0 {
        return;
      }
      if Empty() {
        data := [];
        offset := 0;
        return;
      }
      if offset >= threshold {
        data := data[offset..];
        offset := 0;
      }
    }
  }
}
