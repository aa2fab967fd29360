/**
  The elastic byte buffer: a window `start..end` over a byte list that grows on demand, and on top
  of it a read/write offset. Both behave as a plain byte sequence, `Contents()`, with a cursor.
 */
module HpBuffer {
  import opened Bytes

  lemma WriteInWindow(buf: bytes, start: nat, end: nat, at: nat, b: bytes)
    requires start + at + |b| <= end <= |buf|
    ensures var window := buf[start..end];
            (buf[..start + at] + b + buf[start + at + |b|..])[start..end] == window[..at] + b + window[at + |b|..]
  {
    var written := buf[..start + at] + b + buf[start + at + |b|..];
    assert written[start..start + at] == buf[start..end][..at];
    assert written[start + at..start + at + |b|] == b;
    assert written[start + at + |b|..end] == buf[start..end][at + |b|..];
    assert written[start..end] ==
           written[start..start + at] + written[start + at..start + at + |b|] + written[start + at + |b|..end];
  }

  class BytesList {
    var buf: bytes
    var start: nat
    var end: nat

    ghost predicate Valid()
      reads this
    {
      start <= end <= |buf|
    }

    function Contents(): bytes
      requires Valid()
      reads this
    {
      buf[start..end]
    }

    constructor (b: bytes)
      ensures Valid() && Contents() == b
    {
      buf, start, end := b, 0, |b|;
    }

    function Len(): nat
      requires Valid()
      reads this
    {
      end - start
    }

    /** Makes the window exactly `n` long, keeping its front; `n <= 0` is ignored. */
    method GrowTo(n: int)
      requires Valid()
      modifies this
      ensures Valid() && start == old(start)
      ensures n <= 0 ==> unchanged(this)
      ensures n > 0 ==> Len() == n
      ensures n > 0 ==> Contents()[..Min(n, old(Len()))] == old(Contents())[..Min(n, old(Len()))]
    {
      if n <= 0 {
        return;
      }
      ghost var k := Min(n, Len());
      assert Contents()[..k] == buf[start..start + k];
      var grow := n - (|buf| - start);
      if grow > 0 {
        buf := buf + Zeros(grow);
      }
      end := end + n - Len();
      assert Contents()[..k] == buf[start..start + k];
    }

    /** The documented list behaviour: [1, 2, 3] then Append([4]) is [1, 2, 3, 4]. */
    method Append(b: bytes)
      requires Valid()
      modifies this
      ensures Valid() && Contents() == old(Contents()) + b
    {
      ghost var was := Contents();
      var len := Len();
      GrowTo(len + |b|);
      assert |b| > 0 ==> Contents()[..len] == was;
      Overwrite(len, b);
    }

    /** Writes into the window at offset `at`. */
    method Overwrite(at: nat, b: bytes)
      requires Valid() && at + |b| <= Len()
      modifies `buf
      ensures Valid() && Contents() == old(Contents())[..at] + b + old(Contents())[at + |b|..]
    {
      WriteInWindow(buf, start, end, at, b);
      buf := buf[..start + at] + b + buf[start + at + |b|..];
    }

    method Remove(n: int)
      requires Valid()
      modifies `start, `end
      ensures Valid()
      ensures Contents() == if n <= 0 then old(Contents())
                            else if n >= old(Len()) then [] else old(Contents())[n..]
    {
      if n <= 0 {
        return;
      }
      if n >= Len() {
        start, end := 0, 0;
      } else {
        start := start + n;
      }
    }
  }

  class HPBuffer {
    const buffer: BytesList
    var off: int

    ghost predicate Valid()
      reads this, buffer
    {
      buffer.Valid() && 0 <= off <= buffer.Len()
    }

    function Contents(): bytes
      requires Valid()
      reads this, buffer
    {
      buffer.Contents()
    }

    constructor (b: bytes)
      ensures Valid() && fresh(buffer) && Contents() == b && off == 0
    {
      buffer := new BytesList(b);
      off := 0;
    }

    function Len(): nat
      requires Valid()
      reads this, buffer
    {
      buffer.Len() - off
    }

    /** The bytes from the cursor on. */
    function Unread(): (b: bytes)
      requires Valid()
      reads this, buffer
    {
      Contents()[off..]
    }

    function WrittenBytes(): bytes
      requires Valid()
      reads this, buffer
    {
      Contents()[..off]
    }

    method Reset()
      requires Valid()
      modifies this
      ensures Valid() && off == 0
    {
      off := 0;
    }

    method Append(b: bytes)
      requires Valid()
      modifies buffer
      ensures Valid() && Contents() == old(Contents()) + b
    {
      buffer.Append(b);
    }

    /** The cursor may leave the contents; using it there is what fails. */
    method Skip(n: int)
      requires buffer.Valid()
      modifies this
      ensures off == old(off) + n
      ensures 0 <= off <= buffer.Len() ==> Valid()
    {
      off := off + n;
    }

    /** Drops `n` bytes; if they were read before, the cursor stays on the same byte. */
    method Consume(n: int)
      requires buffer.Valid()
      modifies this, buffer
      ensures buffer.Valid() && off == old(off) - n
      ensures buffer.Contents() == if n <= 0 then old(buffer.Contents())
                                   else if n >= old(buffer.Len()) then [] else old(buffer.Contents())[n..]
      ensures old(Valid()) && 0 <= n <= old(off) ==>
                Valid() && Contents() == old(Contents())[n..] && Unread() == old(Unread())
    {
      buffer.Remove(n);
      off := off - n;
    }

    method Write(b: bytes)
      requires Valid() && |b| <= Len()
      modifies this, buffer
      ensures Valid() && off == old(off) + |b|
      ensures Contents() == old(Contents())[..old(off)] + b + old(Contents())[off..]
    {
      buffer.Overwrite(off, b);
      off := off + |b|;
    }
  }
}
