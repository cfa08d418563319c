/** The matchers of stream.cc, built on StreamCursor: match_raw, match_literal
    and both overloads of match_until. */
module Matchers {
  import opened CTypes
  import opened Buffers
  import opened Cursors

  datatype CaseSensitivity = Sensitive | Insensitive

  /** The comparison match_literal and match_until make between a pattern
      character c and an input byte b. The folding is lopsided: Insensitive
      lower-cases only the pattern character, Sensitive lower-cases only the
      input byte. So an upper-case input byte never matches in Insensitive
      mode, an upper-case pattern character never matches in Sensitive mode,
      and otherwise each mode is ASCII case-insensitive equality. */
  function Matches(c: byte, b: byte, cs: CaseSensitivity): (r: bool)
    ensures r ==> ToLower(c) == ToLower(b)
    ensures cs == Insensitive && IsUpper(b) ==> !r
    ensures cs == Sensitive && IsUpper(c) ==> !r
    ensures !IsUpper(c) && !IsUpper(b) ==> (r <==> c == b)
    ensures cs == Insensitive && !IsUpper(b) ==> (r <==> ToLower(c) == ToLower(b))
    ensures cs == Sensitive && !IsUpper(c) ==> (r <==> ToLower(c) == ToLower(b))
  {
    var lhs := if cs == Sensitive then c else ToLower(c);
    var rhs := if cs == Insensitive then b else ToLower(b);
    lhs == rhs
  }

  /** The inverted folding on the letter A: in Insensitive mode the pattern
      'A' accepts 'a' but not 'A'; in Sensitive mode 'a' accepts 'A' and the
      pattern 'A' accepts neither. */
  lemma FoldingIsInverted()
    ensures Matches(0x41, 0x61, Insensitive) && !Matches(0x41, 0x41, Insensitive)
    ensures Matches(0x61, 0x41, Sensitive) && Matches(0x61, 0x61, Sensitive)
    ensures !Matches(0x41, 0x41, Sensitive) && !Matches(0x41, 0x61, Sensitive)
  {
  }

  /** The byte b matches one of the characters of the set. */
  predicate InSet(chars: seq<byte>, b: byte, cs: CaseSensitivity) {
    exists j :: 0 <= j < |chars| && Matches(chars[j], b, cs)
  }

  /** The `find` lambda of match_until: tries each character of the set in
      turn and stops at the first that matches. */
  method Find(chars: seq<byte>, val: byte, cs: CaseSensitivity) returns (found: bool)
    ensures found <==> InSet(chars, val, cs)
  {
    for i := 0 to |chars|
      invariant forall j :: 0 <= j < i ==> !Matches(chars[j], val, cs)
    {
      var lhs := if cs == Sensitive then chars[i] else ToLower(chars[i]);
      var rhs := if cs == Insensitive then val else ToLower(val);
      if lhs == rhs {
        return true;
      }
    }
    return false;
  }

  /** Where a scan of data[from..end) for a byte of the set stops: at the
      first byte that matches, or at end when none does. */
  function ScanUntil(data: seq<byte>, from: nat, end: nat, chars: seq<byte>, cs: CaseSensitivity): (r: nat)
    requires from <= end <= |data|
    decreases end - from
    ensures from <= r <= end
    ensures forall i :: from <= i < r ==> !InSet(chars, data[i], cs)
    ensures r < end ==> InSet(chars, data[r], cs)
  {
    if from == end then end
    else if InSet(chars, data[from], cs) then from
    else ScanUntil(data, from + 1, end, chars, cs)
  }

  /** A scan resumed from any byte an earlier scan passed over stops where
      the earlier one did; in particular a second match_until right after a
      successful one does not move, and one after a failure stays at the end. */
  lemma {:induction false} ScanUntilResumes(data: seq<byte>, from: nat, mid: nat, end: nat, chars: seq<byte>, cs: CaseSensitivity)
    requires from <= end <= |data|
    requires from <= mid <= ScanUntil(data, from, end, chars, cs)
    ensures ScanUntil(data, mid, end, chars, cs) == ScanUntil(data, from, end, chars, cs)
    decreases mid - from
  {
    if from < mid {
      ScanUntilResumes(data, from + 1, mid, end, chars, cs);
    }
  }

  /** match_raw(buf, len, cursor): all or nothing. It succeeds exactly when
      at least len bytes remain and they equal buf, and then moves past them. */
  method MatchRaw(pattern: seq<byte>, cursor: StreamCursor) returns (ok: bool)
    requires cursor.buf.Valid()
    modifies cursor.buf
    ensures cursor.buf.Valid()
    ensures cursor.buf.start == old(cursor.buf.start) && cursor.buf.end == old(cursor.buf.end)
    ensures ok <==> |pattern| <= old(cursor.Remaining()) &&
                    cursor.buf.store[old(cursor.buf.pos)..old(cursor.buf.pos) + |pattern|] == pattern
    ensures ok ==> cursor.buf.pos == old(cursor.buf.pos) + |pattern|
    ensures !ok ==> cursor.buf.pos == old(cursor.buf.pos)
  {
    if cursor.Remaining() < |pattern| {
      return false;
    }
    var at := cursor.Offset();
    if cursor.buf.store[at..at + |pattern|] == pattern {
      var _ := cursor.Advance(|pattern|);
      return true;
    }
    return false;
  }

  /** match_literal(c, cursor, cs): fails with no change at EOF; otherwise
      succeeds, moving one byte, exactly when the current byte matches c
      under the lopsided folding of Matches. */
  method MatchLiteral(c: byte, cursor: StreamCursor, cs: CaseSensitivity) returns (ok: bool)
    requires cursor.buf.Valid()
    modifies cursor.buf
    ensures cursor.buf.Valid()
    ensures cursor.buf.start == old(cursor.buf.start) && cursor.buf.end == old(cursor.buf.end)
    ensures ok <==> old(cursor.buf.pos) < cursor.buf.end && Matches(c, cursor.buf.store[old(cursor.buf.pos)], cs)
    ensures ok ==> cursor.buf.pos == old(cursor.buf.pos) + 1
    ensures !ok ==> cursor.buf.pos == old(cursor.buf.pos)
  {
    if cursor.Eof() {
      return false;
    }
    var lhs := if cs == Sensitive then c else ToLower(c);
    var rhs := if cs == Insensitive then cursor.Current() else ToLower(cursor.Current());
    if lhs == rhs {
      var _ := cursor.Advance(1);
      return true;
    }
    return false;
  }

  /** match_until(chars, cursor, cs): NOT all or nothing. At EOF it fails
      without moving; otherwise it moves byte by byte and stops at the first
      byte of the set (success, the cursor on that byte) or at the window end
      (failure, the cursor left there). */
  method MatchUntil(chars: seq<byte>, cursor: StreamCursor, cs: CaseSensitivity) returns (ok: bool)
    requires cursor.buf.Valid()
    modifies cursor.buf
    ensures cursor.buf.Valid()
    ensures cursor.buf.start == old(cursor.buf.start) && cursor.buf.end == old(cursor.buf.end)
    ensures cursor.buf.pos == ScanUntil(cursor.buf.store[..], old(cursor.buf.pos), cursor.buf.end, chars, cs)
    ensures old(cursor.buf.pos) == cursor.buf.end ==> !ok && cursor.buf.pos == old(cursor.buf.pos)
    ensures forall i :: old(cursor.buf.pos) <= i < cursor.buf.pos ==> !InSet(chars, cursor.buf.store[i], cs)
    ensures ok <==> cursor.buf.pos < cursor.buf.end
    ensures ok ==> InSet(chars, cursor.buf.store[cursor.buf.pos], cs)
  {
    ghost var data := cursor.buf.store[..];
    if cursor.Eof() {
      return false;
    }
    while !cursor.Eof()
      invariant cursor.buf.Valid()
      invariant cursor.buf.start == old(cursor.buf.start) && cursor.buf.end == old(cursor.buf.end)
      invariant old(cursor.buf.pos) <= cursor.buf.pos
      invariant ScanUntil(data, cursor.buf.pos, cursor.buf.end, chars, cs)
             == ScanUntil(data, old(cursor.buf.pos), cursor.buf.end, chars, cs)
      decreases cursor.buf.end - cursor.buf.pos
    {
      var c := cursor.Current();
      var found := Find(chars, c, cs);
      if found {
        return true;
      }
      var _ := cursor.Advance(1);
    }
    return false;
  }

  /** match_until(c, cursor, cs): the one-character set {c}. */
  method MatchUntilChar(c: byte, cursor: StreamCursor, cs: CaseSensitivity) returns (ok: bool)
    requires cursor.buf.Valid()
    modifies cursor.buf
    ensures cursor.buf.Valid()
    ensures cursor.buf.start == old(cursor.buf.start) && cursor.buf.end == old(cursor.buf.end)
    ensures cursor.buf.pos == ScanUntil(cursor.buf.store[..], old(cursor.buf.pos), cursor.buf.end, [c], cs)
    ensures forall i :: old(cursor.buf.pos) <= i < cursor.buf.pos ==> !Matches(c, cursor.buf.store[i], cs)
    ensures ok <==> cursor.buf.pos < cursor.buf.end
    ensures ok ==> Matches(c, cursor.buf.store[cursor.buf.pos], cs)
  {
    ok := MatchUntil([c], cursor, cs);
    forall i | old(cursor.buf.pos) <= i < cursor.buf.pos
      ensures !Matches(c, cursor.buf.store[i], cs)
    {
      assert !InSet([c], cursor.buf.store[i], cs);
      assert [c][0] == c;
    }
    if ok {
      var j :| 0 <= j < 1 && Matches([c][j], cursor.buf.store[cursor.buf.pos], cs);
    }
  }

  /** One matcher call of a grammar rule. */
  datatype Step =
    | Raw(pattern: seq<byte>)
    | Literal(c: byte, cs: CaseSensitivity)
    | Until(chars: seq<byte>, cs: CaseSensitivity)
    | Skip(count: nat)

  method RunStep(step: Step, cursor: StreamCursor) returns (ok: bool)
    requires cursor.buf.Valid()
    modifies cursor.buf
    ensures cursor.buf.Valid()
    ensures cursor.buf.start == old(cursor.buf.start) && cursor.buf.end == old(cursor.buf.end)
    ensures old(cursor.buf.pos) <= cursor.buf.pos
  {
    match step
    case Raw(pattern) => ok := MatchRaw(pattern, cursor);
    case Literal(c, cs) => ok := MatchLiteral(c, cursor, cs);
    case Until(chars, cs) => ok := MatchUntil(chars, cursor, cs);
    case Skip(count) => ok := cursor.Advance(count);
  }

  /** The speculative-parsing pattern Revert exists for: run the matcher
      calls of a rule in order under a Revert guard, ignore() the guard when
      they all succeed, and let it close. A rule that fails anywhere leaves
      the window exactly as it was, however far its earlier steps moved. */
  method Attempt(steps: seq<Step>, cursor: StreamCursor) returns (ok: bool)
    requires cursor.buf.Valid()
    modifies cursor.buf
    ensures cursor.buf.Valid()
    ensures !ok ==> cursor.buf.View() == old(cursor.buf.View())
    ensures ok ==> cursor.buf.start == old(cursor.buf.start) && cursor.buf.end == old(cursor.buf.end)
    ensures ok ==> old(cursor.buf.pos) <= cursor.buf.pos
  {
    var guard := new Revert(cursor);
    ok := true;
    var i := 0;
    while i < |steps| && ok
      invariant 0 <= i <= |steps|
      invariant cursor.buf.Valid() && guard.Fits() && guard.active
      invariant guard.cursor == cursor && guard.saved == old(cursor.buf.View())
      invariant cursor.buf.start == old(cursor.buf.start) && cursor.buf.end == old(cursor.buf.end)
      invariant old(cursor.buf.pos) <= cursor.buf.pos
    {
      ok := RunStep(steps[i], cursor);
      i := i + 1;
    }
    if ok {
      guard.Ignore();
    }
    guard.Close();
  }
}
