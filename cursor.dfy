/** StreamCursor (stream.h, stream.cc): a read head over one StreamBuf,
    with Token (the bytes consumed since a mark) and Revert (a guard that
    puts the window back as it was unless told to keep the progress). */
module Cursors {
  import opened CTypes
  import opened Buffers

  class StreamCursor {
    /** The window the cursor reads; the cursor has no other state. */
    const buf: StreamBuf

    /** StreamCursor(buf, initialPos): advance(initialPos), which moves
        nothing when initialPos exceeds the bytes available. */
    constructor (b: StreamBuf, initialPos: nat)
      requires b.Valid()
      modifies b
      ensures buf == b && b.Valid()
      ensures b.start == old(b.start) && b.end == old(b.end)
      ensures initialPos <= old(b.InAvail()) ==> b.pos == old(b.pos) + initialPos
      ensures initialPos > old(b.InAvail()) ==> b.pos == old(b.pos)
    {
      buf := b;
      new;
      var _ := Advance(initialPos);
    }

    /** advance(count): all or nothing. Refused, with no change, when count
        exceeds what remains; otherwise count single-byte sbumpc steps. */
    method Advance(count: nat) returns (ok: bool)
      requires buf.Valid()
      modifies buf
      ensures buf.Valid() && buf.start == old(buf.start) && buf.end == old(buf.end)
      ensures ok <==> count <= old(buf.InAvail())
      ensures ok ==> buf.pos == old(buf.pos) + count
      ensures !ok ==> buf.pos == old(buf.pos)
    {
      if count > buf.InAvail() {
        return false;
      }
      for i := 0 to count
        invariant buf.Valid() && buf.start == old(buf.start) && buf.end == old(buf.end)
        invariant buf.pos == old(buf.pos) + i
      {
        var _ := buf.Sbumpc();
      }
      return true;
    }

    /** remaining(): in_avail(), the bytes between the read position and the
        window end. */
    function Remaining(): (r: nat)
      reads buf
      requires buf.Valid()
      ensures buf.pos + r == buf.end
    {
      buf.InAvail()
    }

    /** eof(): nothing remains. */
    function Eof(): (r: bool)
      reads buf
      requires buf.Valid()
      ensures r <==> buf.pos == buf.end
    {
      Remaining() == 0
    }

    /** current(): sgetc() narrowed to a char, so at end of window it is the
        char 0xFF that EOF narrows to. */
    function Current(): (r: byte)
      reads buf, buf.store
      requires buf.Valid()
      ensures !Eof() ==> r == buf.store[buf.pos]
      ensures Eof() ==> r == ByteOf(EOF) == 0xFF
    {
      ByteOf(buf.Sgetc())
    }

    /** The condition under which next() stays inside the store. When one
        byte remains, the source's next() reads the byte just past the window
        end: a hazard of the source, which this precondition confines to the
        store that holds the window. */
    predicate LookaheadInStore()
      reads buf
      requires buf.Valid()
    {
      buf.pos < buf.end ==> buf.pos + 1 < buf.store.Length
    }

    /** next() AS WRITTEN: EOF when nothing remains, else snext() as
        written, the byte after the read position (which may lie past the
        window end) widened with its sign, so 0x80..0xFF come back as
        -128..-1 and 0xFF as EOF. */
    function NextAsWritten(): (r: int)
      reads buf, buf.store
      requires buf.Valid() && LookaheadInStore()
      ensures Eof() ==> r == EOF
      ensures !Eof() ==> r == SignedChar(buf.store[buf.pos + 1])
    {
      if Remaining() < 1 then EOF else buf.SnextAsWritten()
    }

    /** next() as intended, over the corrected snext(): EOF when nothing
        remains, else the byte after the read position (which may lie past
        the window end) as an unsigned value. */
    function Next(): (r: int)
      reads buf, buf.store
      requires buf.Valid() && LookaheadInStore()
      ensures r == EOF <==> Eof()
      ensures !Eof() ==> r == buf.store[buf.pos + 1] as int
    {
      if Remaining() < 1 then EOF else buf.Snext()
    }

    /** eol(): the current byte is CR and next() is LF. Because next() looks
        one byte past the window when only the CR remains, the LF may lie
        outside the window. */
    function Eol(): (r: bool)
      reads buf, buf.store
      requires buf.Valid()
      requires buf.pos < buf.end && buf.store[buf.pos] == CR ==> buf.pos + 1 < buf.store.Length
      ensures r <==> buf.pos < buf.end && buf.store[buf.pos] == CR && buf.store[buf.pos + 1] == LF
    {
      buf.Sgetc() == CR as int && Next() == LF as int
    }

    /** offset(): the read position, as an index into the store rather than
        a pointer. */
    function Offset(): (r: nat)
      reads buf
      requires buf.Valid()
      ensures r == buf.start + buf.Position() && r + Remaining() == buf.end
    {
      buf.pos
    }

    /** diff(other): position() - other in size_t, which wraps when other is
        past the position. */
    function Diff(other: nat): (r: nat)
      reads buf
      requires buf.Valid() && other < SIZE_MODULUS
      ensures r < SIZE_MODULUS
      ensures other <= buf.Position() ==> r == buf.Position() - other
      ensures buf.Position() < other ==> r == SIZE_MODULUS - (other - buf.Position())
    {
      SizeSub(buf.Position(), other)
    }

    /** diff(const StreamCursor& other): the operands are the other way
        round, other.position() - position(). */
    function DiffCursor(other: StreamCursor): (r: nat)
      reads buf, other.buf
      requires buf.Valid() && other.buf.Valid()
      ensures r < SIZE_MODULUS
      ensures buf.Position() <= other.buf.Position() ==> r == other.buf.Position() - buf.Position()
      ensures other.buf.Position() < buf.Position() ==>
        r == SIZE_MODULUS - (buf.Position() - other.buf.Position())
    {
      SizeSub(other.buf.Position(), buf.Position())
    }

    /** reset(): resets the window, after which the cursor is at EOF. */
    method Reset()
      requires buf.Valid()
      modifies buf
      ensures buf.Valid() && buf.View() == Area(0, 0, 0) && Eof()
    {
      buf.Reset();
    }
  }

  /** Token: captures the position and the three pointers of the cursor's
      window when it is made; its end is read live from the cursor. */
  class Token {
    const cursor: StreamCursor
    const position: nat
    const eback: nat
    const gptr: nat
    const egptr: nat

    constructor (c: StreamCursor)
      requires c.buf.Valid()
      ensures cursor == c && position == c.buf.Position()
      ensures eback == c.buf.start && gptr == c.buf.pos && egptr == c.buf.end
    {
      cursor := c;
      position := c.buf.Position();
      eback, gptr, egptr := c.buf.start, c.buf.pos, c.buf.end;
    }

    /** start(): the position captured at construction. */
    function Start(): (r: nat)
      ensures r == position
    {
      position
    }

    /** end(): the cursor's position now. */
    function End(): (r: nat)
      reads cursor.buf
      requires cursor.buf.Valid()
      ensures cursor.buf.start + r == cursor.buf.pos
    {
      cursor.buf.Position()
    }

    /** size(): end() - start() in size_t: the bytes consumed since the mark,
        or a wrapped value if the cursor has gone back behind it. */
    function Size(): (r: nat)
      reads cursor.buf
      requires cursor.buf.Valid() && position < SIZE_MODULUS
      ensures r < SIZE_MODULUS
      ensures Start() <= End() ==> r == End() - Start()
      ensures End() < Start() ==> r == SIZE_MODULUS - (Start() - End())
    {
      SizeSub(End(), Start())
    }

    /** text(): the size() bytes of the store from the captured read
        position, as they are now. */
    function Text(): (r: seq<byte>)
      reads cursor.buf, cursor.buf.store
      requires cursor.buf.Valid() && position < SIZE_MODULUS
      requires gptr + Size() <= cursor.buf.store.Length
      ensures |r| == Size()
      ensures forall i :: 0 <= i < |r| ==> r[i] == cursor.buf.store[gptr + i]
    {
      cursor.buf.store[gptr..gptr + Size()]
    }
  }

  /** The discrepancy of next() as written: a 0xFF byte after the read
      position reads as Eof although bytes remain. */
  lemma NextAsWrittenMistakesFFForEof(c: StreamCursor)
    requires c.buf.Valid() && c.LookaheadInStore()
    requires c.buf.pos < c.buf.end && c.buf.store[c.buf.pos + 1] == 0xFF
    ensures c.Remaining() >= 1
    ensures c.NextAsWritten() == EOF && c.Next() == 0xFF
  {
  }

  /** The sign of next() cannot change a comparison with LF, so eol() gives
      the same answer over next() as written and over the corrected next(). */
  lemma NextSignDoesNotAffectLf(c: StreamCursor)
    requires c.buf.Valid() && c.LookaheadInStore()
    ensures c.NextAsWritten() == LF as int <==> c.Next() == LF as int
  {
  }

  /** A Token made before advance(k) measures exactly the k bytes that the
      advance consumed. */
  method TokenAcrossAdvance(cursor: StreamCursor, k: nat) returns (tok: Token, ok: bool)
    requires cursor.buf.Valid()
    modifies cursor.buf
    ensures cursor.buf.Valid() && tok.cursor == cursor
    ensures tok.position == old(cursor.buf.Position()) && tok.gptr == old(cursor.buf.pos)
    ensures ok <==> k <= old(cursor.Remaining())
    ensures ok ==> tok.Size() == k
    ensures ok ==> tok.Text() == old(cursor.buf.store[cursor.buf.pos..cursor.buf.pos + k])
  {
    tok := new Token(cursor);
    ok := cursor.Advance(k);
  }

  /** Revert: captures eback, gptr and egptr of the cursor's window; closing
      it (the destructor) restores them unless ignore() was called. */
  class Revert {
    const cursor: StreamCursor
    const saved: Area
    var active: bool

    /** The captured window fits the store it was captured from. */
    predicate Fits() {
      saved.begin <= saved.cur <= saved.end <= cursor.buf.store.Length
    }

    constructor (c: StreamCursor)
      requires c.buf.Valid()
      ensures cursor == c && saved == c.buf.View() && active && Fits()
    {
      cursor := c;
      saved := c.buf.View();
      active := true;
    }

    /** revert(): setArea with the captured pointers. */
    method RevertNow()
      requires cursor.buf.Valid() && Fits()
      modifies cursor.buf
      ensures cursor.buf.Valid() && cursor.buf.View() == saved
    {
      cursor.buf.SetArea(saved.begin, saved.cur, saved.end);
    }

    /** ignore(): keep whatever progress is made. */
    method Ignore()
      modifies this
      ensures !active
    {
      active := false;
    }

    /** ~Revert(): puts the window back exactly as captured while the guard
        is active, whatever happened to it meanwhile; otherwise leaves it. */
    method Close()
      requires cursor.buf.Valid() && Fits()
      modifies cursor.buf
      ensures cursor.buf.Valid()
      ensures active ==> cursor.buf.View() == saved
      ensures !active ==> cursor.buf.View() == old(cursor.buf.View())
    {
      if active {
        RevertNow();
      }
    }
  }
}
