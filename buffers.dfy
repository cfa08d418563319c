/** The byte windows of stream.h: StreamBuf (a get area over a byte store),
    RawStreamBuf (a window over borrowed memory) and ArrayStreamBuf<N> (a
    window over an owned array of N bytes that can be fed incrementally).
    Every pointer of the source is an index into the store. */
module Buffers {
  import opened CTypes

  /** The three get-area positions: eback, gptr and egptr. */
  datatype Area = Area(begin: nat, cur: nat, end: nat)

  class StreamBuf {
    /** The memory the window lies in. */
    const store: array<byte>
    var start: nat
    var pos: nat
    var end: nat

    /** The get area is an ordered range inside the store; an object
        occupies fewer than 2^64 bytes, so every index fits a size_t. */
    ghost predicate Valid()
      reads this
    {
      start <= pos <= end <= store.Length < SIZE_MODULUS
    }

    function View(): Area
      reads this
    {
      Area(start, pos, end)
    }

    /** RawStreamBuf(begin, end): reads the borrowed range from its first byte. */
    constructor Raw(mem: array<byte>, begin: nat, end: nat)
      requires begin <= end <= mem.Length < SIZE_MODULUS
      ensures Valid() && store == mem
      ensures View() == Area(begin, begin, end)
    {
      store := mem;
      start, pos, this.end := begin, begin, end;
    }

    /** RawStreamBuf(begin, len). */
    constructor RawLen(mem: array<byte>, begin: nat, len: nat)
      requires begin + len <= mem.Length < SIZE_MODULUS
      ensures Valid() && store == mem
      ensures View() == Area(begin, begin, begin + len)
    {
      store := mem;
      start, pos, end := begin, begin, begin + len;
    }

    /** setArea, that is setg: installs a new get area over the same store. */
    method SetArea(begin: nat, cur: nat, end: nat)
      requires Valid()
      requires begin <= cur <= end <= store.Length
      modifies this
      ensures Valid() && View() == Area(begin, cur, end)
    {
      start, pos, this.end := begin, cur, end;
    }

    /** position(): the distance of the read position from the window start. */
    function Position(): (r: nat)
      reads this
      requires Valid()
      ensures start + r == pos
      ensures r <= end - start
    {
      pos - start
    }

    /** reset(): the window becomes empty (the source's null pointers are
        index 0 here), so no byte is available. */
    method Reset()
      requires Valid()
      modifies this
      ensures Valid() && View() == Area(0, 0, 0)
      ensures InAvail() == 0 && Position() == 0
    {
      start, pos, end := 0, 0, 0;
    }

    /** in_avail() of std::basic_streambuf: the bytes left in the get area
        (showmanyc() adds nothing for this class). */
    function InAvail(): (r: nat)
      reads this
      requires Valid()
      ensures pos + r == end
    {
      end - pos
    }

    /** sgetc(): the byte at the read position as an unsigned value, or EOF
        when the get area is exhausted (underflow() adds nothing). */
    function Sgetc(): (r: int)
      reads this, store
      requires Valid()
      ensures pos < end ==> r == store[pos] as int
      ensures pos == end ==> r == EOF
    {
      if pos < end then store[pos] as int else EOF
    }

    /** sbumpc(): returns the byte at the read position and moves past it,
        or returns EOF and moves nothing (uflow() adds nothing). */
    method Sbumpc() returns (r: int)
      requires Valid()
      modifies this
      ensures Valid() && start == old(start) && end == old(end)
      ensures old(pos) < end ==> r == store[old(pos)] as int && pos == old(pos) + 1
      ensures old(pos) == end ==> r == EOF && pos == old(pos)
    {
      if pos == end {
        r := EOF;
      } else {
        r := store[pos] as int;
        pos := pos + 1;
      }
    }

    /** snext() AS WRITTEN: `*(gptr + 1)` is a `char`, widened to int with
        its sign, so a 0xFF byte comes back as -1, the EOF value. The source
        reads one byte past gptr even when gptr + 1 is the window end; that
        byte must at least lie in the store. */
    function SnextAsWritten(): (r: int)
      reads this, store
      requires Valid()
      requires pos < end ==> pos + 1 < store.Length
      ensures pos == end ==> r == EOF
      ensures pos < end ==> r == SignedChar(store[pos + 1])
    {
      if pos == end then EOF else SignedChar(store[pos + 1])
    }

    /** snext() as intended: the byte after the read position widened as an
        unsigned value (traits_type::to_int_type), so EOF means "no byte
        ahead" and nothing else. Same one-byte over-read as above. */
    function Snext(): (r: int)
      reads this, store
      requires Valid()
      requires pos < end ==> pos + 1 < store.Length
      ensures r == EOF <==> pos == end
      ensures pos < end ==> 0 <= r < 0x100 && r == store[pos + 1] as int
    {
      if pos == end then EOF else store[pos + 1] as int
    }
  }

  /** The discrepancy of SnextAsWritten: a 0xFF byte after the read position
      reads as EOF although bytes remain in the window. */
  lemma SnextAsWrittenMistakesFFForEof(b: StreamBuf)
    requires b.Valid() && b.pos + 1 < b.end && b.store[b.pos + 1] == 0xFF
    ensures b.InAvail() >= 2
    ensures b.SnextAsWritten() == EOF && b.Snext() == 0xFF
  {
  }

  /** ArrayStreamBuf<N>: owns `bytes` (N of them) and a fill counter `size`;
      its window is the StreamBuf `win` over `bytes`. */
  class ArrayStreamBuf {
    const bytes: array<byte>
    const win: StreamBuf
    var size: nat

    ghost predicate Valid()
      reads this, win
    {
      win.store == bytes && win.Valid() && 1 <= bytes.Length && size <= bytes.Length
    }

    /** ArrayStreamBuf(): all N bytes zero, nothing filled, empty window at
        the first byte. */
    constructor (n: nat)
      requires 1 <= n < SIZE_MODULUS
      ensures Valid() && fresh(bytes) && fresh(win)
      ensures bytes.Length == n && bytes[..] == seq(n, _ => 0 as byte)
      ensures size == 0 && win.View() == Area(0, 0, 0)
    {
      var mem := new byte[n](_ => 0);
      bytes := mem;
      size := 0;
      win := new StreamBuf.Raw(mem, 0, 0);
    }

    /** ArrayStreamBuf(char (&arr)[M]) with M <= N: the first M bytes are a
        copy of arr and form the window; the rest are left unspecified. */
    constructor FromArray(arr: seq<byte>, n: nat)
      requires |arr| <= n && 1 <= n < SIZE_MODULUS
      ensures Valid() && fresh(bytes) && fresh(win)
      ensures bytes.Length == n && bytes[..|arr|] == arr
      ensures size == |arr| && win.View() == Area(0, 0, |arr|)
    {
      var mem := new byte[n](i => if 0 <= i < |arr| then arr[i] else 0);
      bytes := mem;
      size := |arr|;
      win := new StreamBuf.Raw(mem, 0, |arr|);
    }

    /** feed(data, len): refused when size + len reaches N; otherwise data
        is copied to bytes[size..size+len) and becomes the whole readable
        window, so the read position moves to the old size. */
    method Feed(data: seq<byte>) returns (ok: bool)
      requires Valid()
      modifies this, bytes, win
      ensures Valid()
      ensures ok <==> old(size) + |data| < bytes.Length
      ensures !ok ==> size == old(size) && bytes[..] == old(bytes[..]) && win.View() == old(win.View())
      ensures ok ==> size == old(size) + |data| < bytes.Length
      ensures ok ==> bytes[..] == old(bytes[..size]) + data + old(bytes[size + |data|..])
      ensures ok ==> win.View() == Area(0, old(size), old(size) + |data|)
    {
      if size + |data| >= bytes.Length {
        return false;
      }
      forall i | 0 <= i < |data| {
        bytes[size + i] := data[i];
      }
      win.SetArea(0, size, size + |data|);
      size := size + |data|;
      return true;
    }

    /** reset(): zeroes all N bytes, empties the buffer and the window. */
    method Reset()
      requires Valid()
      modifies this, bytes, win
      ensures Valid()
      ensures bytes[..] == seq(bytes.Length, _ => 0 as byte)
      ensures size == 0 && win.View() == Area(0, 0, 0)
    {
      forall i | 0 <= i < bytes.Length {
        bytes[i] := 0;
      }
      size := 0;
      win.SetArea(0, 0, 0);
    }
  }
}
