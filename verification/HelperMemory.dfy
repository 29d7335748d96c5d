/** Guest RAM as the C helpers reach it with paging off and no device map: elements of one, two or four bytes. */
module HelperMemory {
  import opened Words
  import opened Paging

  /** The host window shows guest RAM and the three host bytes an element at its very end can reach. */
  const WINDOW_SIZE := RAM_SIZE + 3

  predicate IsSize(size: nat) { size in {1, 2, 4} }

  /** How many values an element can take. */
  function Span(size: nat): (n: nat)
    ensures n > 0
  {
    if size == 1 then 0x100 else if size == 2 then 0x1_0000 else TWO_32
  }

  /** memcpy of an element into a zeroed word. */
  function Load(m: seq<u8>, a: nat, size: nat): u32
    requires IsSize(size) && a + size <= |m|
  {
    if size == 1 then m[a] else if size == 2 then Word(m[a], m[a + 1], 0, 0) else Read32(m, a)
  }

  /** memcpy of the low bytes of a word. */
  function Store(m: seq<u8>, a: nat, v: u32, size: nat): (r: seq<u8>)
    requires IsSize(size) && a + size <= |m|
    ensures |r| == |m|
    ensures forall i {:trigger r[i]} :: 0 <= i < |m| ==> r[i] == if a <= i < a + size then ByteOf(v, i - a) else m[i]
  {
    if size == 4 then Write32(m, a, v)
    else if size == 2 then m[a := ByteOf(v, 0)][a + 1 := ByteOf(v, 1)]
    else m[a := ByteOf(v, 0)]
  }

  lemma LoadedByte(m: seq<u8>, a: nat, size: nat, k: nat)
    requires IsSize(size) && a + size <= |m| && k < size
    ensures ByteOf(Load(m, a, size), k) == m[a + k]
  {
    BytesOfWord(m[a], if size > 1 then m[a + 1] else 0, if size > 2 then m[a + 2] else 0, if size > 2 then m[a + 3] else 0);
  }

  /** guest_read: zero at the address that stands for a fault, all ones behind RAM. */
  function GuestRead(m: seq<u8>, addr: u32, size: nat): u32
    requires IsSize(size) && |m| == WINDOW_SIZE
  {
    if addr == 0xFFFF_FFFF then 0 else if addr < RAM_SIZE then Load(m, addr, size) else 0xFFFF_FFFF
  }

  /** guest_write: dropped behind RAM. */
  function GuestWrite(m: seq<u8>, addr: u32, v: u32, size: nat): (r: seq<u8>)
    requires IsSize(size) && |m| == WINDOW_SIZE
    ensures |r| == |m|
  {
    if addr < RAM_SIZE then Store(m, addr, v, size) else m
  }

  /** What a helper reads: the element's bytes, the rest of the word zero; zero for a faulting address and all ones
      behind RAM. */
  lemma ReadsBytes(m: seq<u8>, addr: u32, size: nat, k: nat)
    requires IsSize(size) && |m| == WINDOW_SIZE && k < 4
    ensures ByteOf(GuestRead(m, addr, size), k)
      == if addr < 0x800_0000 then (if k < size then m[addr + k] else 0) else if addr == 0xFFFF_FFFF then 0 else 0xFF
  {
    if addr < 0x800_0000 {
      BytesOfWord(m[addr], if size > 1 then m[addr + 1] else 0, if size > 2 then m[addr + 2] else 0,
                  if size > 2 then m[addr + 3] else 0);
    }
  }

  /** What a helper writes: the low bytes of the value at the address, and nothing behind RAM. */
  lemma WritesBytes(m: seq<u8>, addr: u32, v: u32, size: nat, a: nat)
    requires IsSize(size) && |m| == WINDOW_SIZE && a < |m|
    ensures GuestWrite(m, addr, v, size)[a] == if addr < 0x800_0000 && addr <= a < addr + size then ByteOf(v, a - addr) else m[a]
  {
  }

  method StoreAt(m: array<u8>, addr: u32, v: u32, size: nat)
    requires IsSize(size) && m.Length == WINDOW_SIZE
    modifies m
    ensures m[..] == GuestWrite(old(m[..]), addr, v, size)
  {
    if addr < RAM_SIZE {
      m[addr] := ByteOf(v, 0);
      if size > 1 { m[addr + 1] := ByteOf(v, 1); }
      if size > 2 { m[addr + 2], m[addr + 3] := ByteOf(v, 2), ByteOf(v, 3); }
    }
  }

  method LoadAt(m: array<u8>, addr: u32, size: nat) returns (v: u32)
    requires IsSize(size) && m.Length == WINDOW_SIZE
    ensures v == GuestRead(m[..], addr, size)
  {
    if addr == 0xFFFF_FFFF { return 0; }
    if addr >= RAM_SIZE { return 0xFFFF_FFFF; }
    v := m[addr];
    if size > 1 { v := Word(m[addr], m[addr + 1], 0, 0); }
    if size > 2 { v := Word(m[addr], m[addr + 1], m[addr + 2], m[addr + 3]); }
  }
}
