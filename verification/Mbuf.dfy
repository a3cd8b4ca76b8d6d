/** A growing buffer: len elements of buf are in use. */
module Mbufs {
  import opened Memory

  class Mbuf<T(0)> {
    var buf: array<T>
    var len: nat

    constructor ()
      ensures Valid() && Contents() == [] && fresh(buf)
    {
      buf, len := new T[0], 0;
    }

    ghost predicate Valid()
      reads this
    {
      len <= buf.Length
    }

    ghost function Contents(): seq<T>
      requires Valid()
      reads this, buf
    {
      buf[..len]
    }

    /** A bigger buffer is taken when n more elements do not fit. */
    method Reserve(n: nat)
      requires Valid()
      modifies this`buf
      ensures Valid() && Contents() == old(Contents()) && len + n <= buf.Length
      ensures if len + n <= old(buf.Length) then buf == old(buf) else fresh(buf) && buf.Length == (len + n) * 3 / 2
    {
      if len + n > buf.Length {
        // MBUF_SIZE_MULTIPLIER is 1.5.
        var bigger := new T[(len + n) * 3 / 2];
        forall k | 0 <= k < len {
          bigger[k] := buf[k];
        }
        assert bigger[..len] == buf[..len];
        buf := bigger;
      }
    }

    /** mbuf_insert */
    method Insert(off: nat, data: seq<T>)
      requires Valid() && off <= len
      modifies this, buf
      ensures Valid() && (buf == old(buf) || fresh(buf))
      ensures Contents() == old(Contents())[..off] + data + old(Contents())[off..]
    {
      Reserve(|data|);
      OpenGap(buf, off, len, data);
      len := len + |data|;
    }

    static method OpenGap(buf: array<T>, off: nat, len: nat, data: seq<T>)
      requires off <= len && len + |data| <= buf.Length
      modifies buf
      ensures buf[..len + |data|] == old(buf[..len])[..off] + data + old(buf[..len])[off..]
    {
      var n := |data|;
      ghost var head, tail := buf[..off], buf[off..len];
      Memmove(buf, off + n, off, len - off);
      assert buf[..off] == head && buf[off + n..len + n] == tail;
      forall k | off <= k < off + n {
        buf[k] := data[k - off];
      }
      assert buf[..off] == head && buf[off + n..len + n] == tail;
      assert buf[off..off + n] == data;
      assert buf[..len + n] == buf[..off] + buf[off..off + n] + buf[off + n..len + n];
    }

    method Append(data: seq<T>)
      requires Valid()
      modifies this, buf
      ensures Valid() && (buf == old(buf) || fresh(buf))
      ensures Contents() == old(Contents()) + data
    {
      Insert(len, data);
      assert old(Contents())[..old(len)] == old(Contents()) && old(Contents())[old(len)..] == [];
    }

    /** mbuf_remove: nothing happens if more is to be removed than there is. When everything is removed, the
        elements behind the end stay as they are. */
    method Remove(n: nat)
      requires Valid()
      modifies this`len, buf
      ensures Valid()
      ensures Contents() == if n <= old(len) then old(Contents())[n..] else old(Contents())
      ensures 0 < n < old(len) ==> buf[0] == old(Contents())[n]
      ensures n == old(len) ==> buf[..] == old(buf[..])
    {
      if 0 < n <= len {
        ghost var rest := buf[n..len];
        assert rest == Contents()[n..];
        Memmove(buf, 0, n, len - n);
        len := len - n;
        assert buf[..len] == rest;
      }
    }
  }
}
