# Stream scanning core of pistache, in Dafny

This project models the byte-scanning toolkit of `src/stream.h` and
`src/stream.cc` that pistache's incremental protocol parsers are built on:

- **Byte windows.** `StreamBuf` is a get area of three positions over a byte store: window start, read position and window end. `RawStreamBuf` is such a window over borrowed memory. `ArrayStreamBuf<N>` owns N bytes and can be fed data.
- **Growable output buffer.** `NetworkStream` is an output buffer whose vector doubles on overflow, up to `maxSize`.
- **Cursor.** `StreamCursor` is a read head over one window. It comes with `Token`, which measures the bytes consumed since a mark, and `Revert`, a guard that puts the window back.
- **Matchers.** `match_raw`, `match_literal` and both overloads of `match_until`.

Every pointer of the C++ code is a natural-number index into a store
(`CTypes.byte` is a `newtype` over 0..255). For the windows the store is an
`array<byte>`. For `NetworkStream` the growable vector `data_` is a
`seq<byte>` that the methods reassign.

- **State changes.** Windows, buffers, cursors and guards are classes. Their methods change fields in place, with `modifies` clauses.
- **Reads.** Queries are functions with `reads` clauses.
- **Loops.** `advance`, `match_until` and its `find` lambda keep their loops.

Module layout:

| file | module | models |
|---|---|---|
| ctypes.dfy | `CTypes` | `char`/`int`/`size_t` conversions, `EOF`, `CR`, `LF`, "C"-locale `tolower` |
| buffers.dfy | `Buffers` | `StreamBuf`, `RawStreamBuf`, `ArrayStreamBuf` |
| network_stream.dfy | `Network` | `NetworkStream` |
| cursor.dfy | `Cursors` | `StreamCursor`, `Token`, `Revert` |
| matchers.dfy | `Matchers` | `match_raw`, `match_literal`, `match_until`, and a Revert-guarded rule |

The code has these quirks, and the model keeps them:

- **Inverted case folding.** In `match_literal` and `match_until`, Insensitive lower-cases only the pattern character and Sensitive lower-cases only the input byte (`src/stream.cc:117-118`, `140-141`). So `match_literal('A', Insensitive)` accepts `a` but not `A`, and in Sensitive mode an upper-case pattern character never matches. `Matchers.Matches` and `Matchers.FoldingIsInverted` state this.
- **`feed` moves the read position.** `ArrayStreamBuf::feed` makes the fed bytes the whole readable window: the read position moves to the old `size`. Bytes that were still unread before the feed are skipped. They are not kept readable.
- **`next()` can read past the window.** When exactly one byte remains, `next()` (and so `eol()`) reads the byte just past the window end. The model requires that byte to lie in the store. `eol()` can therefore see an LF that lies outside the window.
- **`current()` at end of window.** `current()` returns the char that EOF narrows to, 0xFF.
- **`Token::size()` wraps.** It is a `size_t` difference, so it wraps when the cursor has gone back behind the mark.

## Model

| member | source | states |
|---|---|---|
| CTypes.ToLower | src/stream.cc:117-118 | the result is never an upper-case ASCII letter; only 'A'..'Z' change, each to the letter 0x20 above |
| CTypes.ByteOf | src/stream.cc:16 | narrowing an int to a char keeps it modulo 256 and leaves 0..255 unchanged |
| CTypes.SignedChar | src/stream.h:54-55 | a char widened where char is signed lies in -128..127 and narrows back to the same byte |
| CTypes.SizeSub | src/stream.cc:79-82 | size_t subtraction: a - b when b <= a, otherwise 2^64 - (b - a), always below 2^64 |
| Buffers.StreamBuf.Raw | src/stream.h:65-67 | RawStreamBuf(begin, end) reads the borrowed range from its first byte: start = pos = begin, end = end |
| Buffers.StreamBuf.RawLen | src/stream.h:68-70 | RawStreamBuf(begin, len) gives the window [begin, begin + len) with pos = begin |
| Buffers.StreamBuf.SetArea | src/stream.h:25-27 | setArea installs exactly the given three positions and keeps start <= pos <= end inside the store |
| Buffers.StreamBuf.Position | src/stream.h:41-43 | position() is the read position minus the window start, never more than the window length |
| Buffers.StreamBuf.Reset | src/stream.h:45-47 | reset() leaves an empty window: no byte available, position 0 |
| Buffers.StreamBuf.InAvail | src/stream.cc:89-92 | in_avail() is the number of bytes from the read position to the window end |
| Buffers.StreamBuf.Sgetc | src/stream.cc:64-67 | sgetc() is the unsigned byte at the read position, or EOF exactly at the window end |
| Buffers.StreamBuf.Sbumpc | src/stream.cc:39-41 | sbumpc() returns the current byte and moves one position, or returns EOF and moves nothing at the end |
| Buffers.StreamBuf.SnextAsWritten | src/stream.h:49-56 | snext() as written: EOF at the window end, else the next byte widened with its sign (0xFF becomes -1) |
| Buffers.SnextAsWrittenMistakesFFForEof | src/stream.h:54-55 | with a 0xFF byte after the read position, snext() as written returns EOF although two or more bytes remain |
| Buffers.StreamBuf.Snext | src/stream.h:49-56 | corrected snext(): EOF exactly when the read position is the window end, otherwise the byte after it as 0..255 |
| Buffers.ArrayStreamBuf.constructor | src/stream.h:79-84 | ArrayStreamBuf(): N zero bytes, size 0, empty window at the first byte |
| Buffers.ArrayStreamBuf.FromArray | src/stream.h:86-92 | ArrayStreamBuf(arr) with M <= N: the first M bytes are arr, size = M, the window is [0, M) |
| Buffers.ArrayStreamBuf.Feed | src/stream.h:94-103 | feed refuses exactly when size + len >= N and then changes nothing; on success data lands in bytes[size..size+len), the other bytes are untouched, the window becomes [0, old size, old size + len) and size grows by len, staying below N |
| Buffers.ArrayStreamBuf.Reset | src/stream.h:105-109 | reset() zeroes all N bytes, sets size to 0 and the window to start = pos = end = 0 |
| Network.NetworkStream.constructor | src/stream.h:132-138 | the store starts at min(size, maxSize) bytes with nothing written |
| Network.NetworkStream.Reserve | src/stream.cc:25-32 | reserve(s) resizes the store to min(s, maxSize), keeps the existing bytes, zero-fills the rest and makes [oldSize, newSize) the put area |
| Network.NetworkStream.Overflow | src/stream.cc:10-23 | for a non-EOF ch with the store below maxSize: the store grows to min(2 x size, maxSize) keeping its bytes, ch is written at the old size, the put position moves past it and ch is returned; otherwise EOF and nothing changes; the store never exceeds maxSize |
| Network.NetworkStream.Put | src/stream.cc:10-23 | sputc rule: a write succeeds exactly while fewer than maxSize bytes are written, appending the byte to buffer(); a refused write changes no byte |
| Network.NetworkStream.Buffer | src/stream.h:158-160 | buffer() is the store up to the put position, at most maxSize bytes |
| Cursors.StreamCursor.constructor | src/stream.h:174-178 | the cursor advances by initialPos when that many bytes remain, and moves nothing otherwise |
| Cursors.StreamCursor.Advance | src/stream.cc:34-44 | advance(count) fails with no change when count > remaining; otherwise it succeeds and the read position moves by exactly count, start and end unchanged |
| Cursors.StreamCursor.Remaining | src/stream.cc:89-92 | remaining() = end - pos |
| Cursors.StreamCursor.Eof | src/stream.cc:51-54 | eof() holds exactly when the read position is the window end, that is remaining() = 0 |
| Cursors.StreamCursor.Current | src/stream.cc:64-67 | current() is the byte at the read position, or 0xFF at the window end |
| Cursors.StreamCursor.NextAsWritten | src/stream.cc:56-62 | next() as written: EOF at the window end, otherwise the byte after the read position widened with its sign (0x80..0xFF give -128..-1, 0xFF gives EOF) |
| Cursors.StreamCursor.Next | src/stream.cc:56-62 | corrected next(): EOF exactly at the window end, otherwise the byte after the read position, possibly past the window end |
| Cursors.NextAsWrittenMistakesFFForEof | src/stream.cc:56-62 | with a 0xFF byte after the read position, next() as written returns Eof although bytes remain |
| Cursors.NextSignDoesNotAffectLf | src/stream.cc:46-49 | next() as written equals LF exactly when the corrected next() does, so eol() is unaffected by the sign |
| Cursors.StreamCursor.Eol | src/stream.cc:46-49 | eol() holds exactly when a byte remains, it is CR, and the byte after it (possibly past the window end) is LF |
| Cursors.StreamCursor.Offset | src/stream.cc:69-72 | offset() is the store index of the read position: start + position(), remaining() before the end |
| Cursors.StreamCursor.Diff | src/stream.cc:79-82 | diff(n) = position() - n, wrapping modulo 2^64 when n is past the position |
| Cursors.StreamCursor.DiffCursor | src/stream.cc:84-87 | diff(other) = other.position() - this.position(), operands reversed, wrapping modulo 2^64 |
| Cursors.StreamCursor.Reset | src/stream.cc:94-97 | reset() empties the window, leaving the cursor at EOF |
| Cursors.Token.constructor | src/stream.h:183-189 | a Token captures the cursor's position and its three window positions |
| Cursors.Token.Start | src/stream.h:191 | start() is the position captured when the Token was made |
| Cursors.Token.End | src/stream.h:193-195 | end() is the cursor's live position |
| Cursors.Token.Size | src/stream.h:197-199 | size() = end() - start(), the bytes consumed since the mark, wrapping when the cursor went back behind it |
| Cursors.Token.Text | src/stream.h:201-203 | text() has size() bytes, those of the store from the captured read position |
| Cursors.TokenAcrossAdvance | src/stream.h:183-203 | a Token taken before a successful advance(k) has size() = k and text() = the k bytes consumed |
| Cursors.Revert.constructor | src/stream.h:218-224 | a Revert guard captures start, pos and end and is active |
| Cursors.Revert.RevertNow | src/stream.h:231-233 | revert() restores the three captured positions exactly |
| Cursors.Revert.Ignore | src/stream.h:235-237 | ignore() deactivates the guard |
| Cursors.Revert.Close | src/stream.h:226-229 | the destructor restores start/pos/end as captured while the guard is active, whatever happened meanwhile, and leaves the window as it is after ignore() |
| Matchers.Matches | src/stream.cc:117-118 | a match implies equal folded bytes; Insensitive never accepts an upper-case input byte, Sensitive never an upper-case pattern character; without upper-case letters both are plain equality |
| Matchers.FoldingIsInverted | src/stream.cc:117-118 | Insensitive 'A' accepts 'a' but not 'A'; Sensitive 'a' accepts 'A'; Sensitive 'A' accepts neither |
| Matchers.Find | src/stream.cc:138-147 | the find lambda answers true exactly when some character of the set matches the byte |
| Matchers.ScanUntil | src/stream.cc:149-155 | a scan stops at the first byte of the set, or at the end: every byte skipped is outside the set and a stop before the end is on a byte of the set |
| Matchers.ScanUntilResumes | src/stream.cc:149-155 | resuming a scan from any byte it passed over stops at the same place, so repeating match_until after it finished does not move |
| Matchers.MatchRaw | src/stream.cc:99-110 | match_raw succeeds exactly when remaining >= len and the next len bytes equal buf; success moves by len, failure changes nothing |
| Matchers.MatchLiteral | src/stream.cc:112-126 | match_literal fails unchanged at EOF; otherwise it succeeds, moving exactly one byte, exactly when the current byte matches c under the inverted folding, and changes nothing when it fails |
| Matchers.MatchUntil | src/stream.cc:133-156 | match_until fails unmoved at EOF; otherwise it stops at the first byte of the set and succeeds, every skipped byte outside the set; with no such byte it fails with pos = end |
| Matchers.MatchUntilChar | src/stream.cc:128-131 | match_until(c) is match_until({c}): skipped bytes do not match c, success stops on a byte that matches c |
| Matchers.Attempt | src/stream.h:217-237 | matcher calls run under an active Revert guard: a rule that fails anywhere leaves start, pos and end exactly as before; a rule that succeeds only moves pos forward |

## Findings

| source | as written | input that shows it | evidently intended | confidence | as-written member | corrected member |
|---|---|---|---|---|---|---|
| src/stream.h:49-56 | `snext()` returns `*(gptr + 1)`, a `char` widened to int with its sign, so a 0xFF byte reads as -1, which is `traits_type::eof()` and `StreamCursor::Eof` | window `41 FF` with the read position on `41`: `next()` returns -1 (EOF) although two bytes remain | widen through `traits_type::to_int_type`, so EOF only means that no byte lies ahead | not executed; holds where `char` is signed (x86-64 System V) | Buffers.StreamBuf.SnextAsWritten, Cursors.StreamCursor.NextAsWritten, Buffers.SnextAsWrittenMistakesFFForEof, Cursors.NextAsWrittenMistakesFFForEof | Buffers.StreamBuf.Snext, Cursors.StreamCursor.Next |

`Cursors.StreamCursor.Next` uses the corrected `Snext`. It differs from
`Cursors.StreamCursor.NextAsWritten` on every byte 0x80..0xFF after the read
position: the corrected value is 128..255, the value as written is -128..-1.
`Cursors.StreamCursor.Eol` compares `next()` only with LF (0x0A), and
`Cursors.NextSignDoesNotAffectLf` shows that both versions give the same
answer there, so `Eol` is the source's `eol()` as written.

## Left out

- `match_double`: its value comes from floating-point `strtod`, and its scan is not bounded by the window.
- `NetworkStream`'s move constructor and move assignment: they only hand over the vector and the put pointers.
- The rest of the `std::basic_streambuf` machinery: locale, `imbue`, `sync`, `showmanyc` and `underflow`. Only the get-area and put-area rules that the core uses are modelled: `in_avail`, `sgetc`, `sbumpc`, `setg` and `sputc`.
- The `CharT` template parameter: only byte streams are modelled.
- Raw-pointer results become indices:
  - `offset()` is modelled as an index.
  - `offset(n)` (`begptr() + n`), `Token::rawText()` and the accessors `begptr/curptr/endptr` are the fields `start`, `pos`, `end` and `Token.gptr` themselves.
  - `operator size_t()` is `buf.Position()`.
- Pointer invalidation after the vector grows or a window is reset: indices stay meaningful, so a stale Token or cursor is not modelled.
- `NetworkStream`'s get area is never set by the source, so reading a `NetworkStream` back as a window is not modelled.
- `StreamBuf::reset()` sets the three pointers to null. The model uses index 0 of the same store instead. Both give an empty window at position 0.
- `Revert`'s destructor is the explicit `Close()`. Calling it on every exit path is up to the caller, as `Matchers.Attempt` does.
- Buffers.ArrayStreamBuf.Feed: does not model the `size_t` wrap of `size + len`. It would need a `len` near 2^64, larger than any array `data` could be.
- Network.NetworkStream.Overflow: does not model the `size_t` wrap of `size * 2`. It would need a vector of 2^63 bytes, beyond what `std::vector<char>` can hold.
- Network.NetworkStream.constructor: requires an initial size and a maximum size of at least 1. The source takes `&data_[0]`, and with an empty store `overflow` would write where there is no room.
- CTypes.ToLower: covers only the "C" locale on bytes. `std::tolower` on a negative `char` is undefined in C++ and is not modelled.
