/** The C++ representations the stream code relies on: bytes, the EOF
    sentinel of std::char_traits<char>, size_t subtraction and the
    "C"-locale std::tolower. */
module CTypes {

  /** One `char` of a stream, held as its unsigned byte value. */
  newtype byte = b: int | 0 <= b < 0x100

  /** traits_type::eof(); StreamCursor::Eof has the same value. */
  const EOF: int := -1

  /** Carriage return and line feed (stream.h, CR and LF). */
  const CR: byte := 0x0D
  const LF: byte := 0x0A

  /** size_t is 64 bits wide: its subtraction wraps modulo this. */
  const SIZE_MODULUS: int := 0x1_0000_0000_0000_0000

  predicate IsUpper(b: byte) {
    0x41 <= b <= 0x5A
  }

  /** std::tolower in the "C" locale: 'A'..'Z' map to 'a'..'z', every
      other byte is returned as it is. */
  function ToLower(b: byte): (r: byte)
    ensures !IsUpper(r)
    ensures r == b || (IsUpper(b) && r as int == b as int + 0x20)
  {
    if IsUpper(b) then b + 0x20 else b
  }

  /** Conversion of an int to `char`: only the low eight bits survive. */
  function ByteOf(x: int): (r: byte)
    ensures (x - r as int) % 0x100 == 0
    ensures 0 <= x < 0x100 ==> r as int == x
  {
    (x % 0x100) as byte
  }

  /** The int a `char` widens to on a platform where `char` is signed
      (x86-64 System V, among others). */
  function SignedChar(b: byte): (r: int)
    ensures -0x80 <= r < 0x80
    ensures ByteOf(r) == b
  {
    if b < 0x80 then b as int else b as int - 0x100
  }

  /** The size_t difference a - b, which wraps when b > a. */
  function SizeSub(a: nat, b: nat): (r: nat)
    requires a < SIZE_MODULUS && b < SIZE_MODULUS
    ensures r < SIZE_MODULUS
    ensures b <= a ==> r == a - b
    ensures a < b ==> r == SIZE_MODULUS - (b - a)
  {
    (a - b) % SIZE_MODULUS
  }
}
