/** NetworkStream (stream.h, stream.cc): an output stream buffer whose store
    is a vector that grows by doubling, up to maxSize, whenever a write finds
    the put area full. The put area is pbase/pptr/epptr, as indices into
    `data`. */
module Network {
  import opened CTypes

  function Min(a: nat, b: nat): nat {
    if a <= b then a else b
  }

  class NetworkStream {
    const maxSize: nat
    /** data_: the vector that backs the put area. */
    var data: seq<byte>
    var pbase: nat
    var pptr: nat
    var epptr: nat

    /** The store is never empty and never longer than maxSize, and the put
        area always ends at the end of the store. */
    ghost predicate Valid()
      reads this
    {
      1 <= |data| <= maxSize && pbase <= pptr <= epptr == |data|
    }

    /** buffer(): the bytes from the start of the store up to the put
        position. */
    function Buffer(): (b: seq<byte>)
      reads this
      requires Valid()
      ensures |b| == pptr <= maxSize
      ensures b <= data
    {
      data[..pptr]
    }

    /** NetworkStream(size, maxSize): reserve(size) on an empty vector. The
        source takes &data_[0] of the resized vector, so the store it gets
        must not be empty: both sizes are at least one. */
    constructor (initialSize: nat, maxSize: nat)
      requires 1 <= initialSize && 1 <= maxSize
      ensures Valid() && this.maxSize == maxSize
      ensures |data| == Min(initialSize, maxSize) && Buffer() == []
    {
      this.maxSize := maxSize;
      data := [];
      pbase, pptr, epptr := 0, 0, 0;
      new;
      Reserve(initialSize);
    }

    /** reserve(size): resizes the vector to min(size, maxSize), keeping the
        bytes it holds and zero-filling the new ones, and makes the put area
        the new part [oldSize, newSize). Its callers never shrink the store. */
    method Reserve(size: nat)
      requires |data| <= Min(size, maxSize)
      modifies this
      ensures |data| == Min(size, maxSize)
      ensures data == old(data) + seq(|data| - |old(data)|, _ => 0 as byte)
      ensures pbase == pptr == |old(data)| && epptr == |data|
    {
      var newSize := size;
      if newSize > maxSize {
        newSize := maxSize;
      }
      var oldSize := |data|;
      data := data + seq(newSize - oldSize, _ => 0 as byte);
      pbase, pptr, epptr := oldSize, oldSize, newSize;
    }

    /** overflow(ch): for a non-EOF ch while the store is below maxSize, the
        store doubles (clamped to maxSize), ch is written as the first byte of
        the new put area and returned; otherwise EOF and nothing changes. */
    method Overflow(ch: int) returns (r: int)
      requires Valid()
      modifies this
      ensures Valid()
      ensures ch != EOF && old(|data|) < maxSize ==>
        r == ch &&
        |data| == Min(2 * old(|data|), maxSize) &&
        data[..old(|data|)] == old(data) &&
        data[old(|data|)] == ByteOf(ch) &&
        pbase == old(|data|) && pptr == old(|data|) + 1
      ensures !(ch != EOF && old(|data|) < maxSize) ==>
        r == EOF && data == old(data) && pbase == old(pbase) && pptr == old(pptr)
    {
      if ch != EOF {
        var size := |data|;
        if size < maxSize {
          Reserve(size * 2);
          data := data[pptr := ByteOf(ch)];
          pptr := pptr + 1;
          return ch;
        }
      }
      return EOF;
    }

    /** sputc(c), the caller-side rule of std::basic_streambuf: store c at the
        put position if the put area has room, else hand it to overflow. A
        write succeeds exactly while fewer than maxSize bytes have been
        written; a refused write leaves every written byte in place. */
    method Put(c: byte) returns (r: int)
      requires Valid()
      modifies this
      ensures Valid()
      ensures r != EOF <==> old(pptr) < maxSize
      ensures r != EOF ==> r == c as int && Buffer() == old(Buffer()) + [c]
      ensures r == EOF ==> Buffer() == old(Buffer()) && data == old(data)
    {
      if pptr < epptr {
        data := data[pptr := c];
        pptr := pptr + 1;
        return c as int;
      }
      r := Overflow(c as int);
    }
  }
}
