/** The raw byte emitter: a fixed buffer and a write position. */
module Emitter {
  import opened Words

  class Emitter {
    const buf: array<u8>
    var pos: nat

    ghost predicate Valid()
      reads this
    {
      pos <= buf.Length
    }

    ghost function Contents(): seq<u8>
      requires Valid()
      reads this, buf
    {
      buf[..pos]
    }

    constructor (b: array<u8>)
      ensures buf == b && pos == 0
    {
      buf, pos := b, 0;
    }

    method Emit8(v: u8)
      requires Valid() && pos < buf.Length
      modifies this`pos, buf
      ensures Valid() && pos == old(pos) + 1
      ensures Contents() == old(Contents()) + [v]
    {
      buf[pos] := v;
      pos := pos + 1;
    }

    /** Three emit8 in a row. */
    method Emit3(b0: u8, b1: u8, b2: u8)
      requires Valid() && pos + 3 <= buf.Length
      modifies this`pos, buf
      ensures Valid() && pos == old(pos) + 3 && Contents() == old(Contents()) + [b0, b1, b2]
    {
      Emit8(b0);
      Emit8(b1);
      Emit8(b2);
    }

    /** Four emit8 in a row. */
    method Emit4(b0: u8, b1: u8, b2: u8, b3: u8)
      requires Valid() && pos + 4 <= buf.Length
      modifies this`pos, buf
      ensures Valid() && pos == old(pos) + 4 && Contents() == old(Contents()) + [b0, b1, b2, b3]
    {
      Emit3(b0, b1, b2);
      Emit8(b3);
    }

    method Emit32(w: u32)
      requires Valid() && pos + 4 <= buf.Length
      modifies this`pos, buf
      ensures Valid() && pos == old(pos) + 4
      ensures Contents() == old(Contents()) + [ByteOf(w, 0), ByteOf(w, 1), ByteOf(w, 2), ByteOf(w, 3)]
    {
      hide ByteOf;
      Store32(buf, pos, w);
      pos := pos + 4;
    }

    /** emit_pad_to: single-byte NOPs until the region from `start` has `len` bytes. */
    method PadTo(start: nat, len: nat)
      requires Valid() && start <= pos && start + len <= buf.Length
      modifies this`pos, buf
      ensures Valid() && pos == (if old(pos) < start + len then start + len else old(pos))
      ensures Contents() == old(Contents()) + seq(pos - old(pos), _ => 0x90)
    {
      while pos - start < len
        invariant Valid() && old(pos) <= pos
        invariant pos <= start + len || pos == old(pos)
        invariant Contents() == old(Contents()) + seq(pos - old(pos), _ => 0x90)
      {
        Emit8(0x90);
      }
    }
  }
}
