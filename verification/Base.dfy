/** Types shared by every module: bytes, machine integers and the two message records. */
module Base {
  datatype Option<+T> = None | Some(value: T)

  type byte = b: int | 0 <= b < 256

  const TWO_31: int := 0x8000_0000
  const TWO_32: int := 0x1_0000_0000
  const TWO_63: int := 0x8000_0000_0000_0000
  const TWO_64: int := 0x1_0000_0000_0000_0000

  type i32 = n: int | -TWO_31 <= n < TWO_31
  type u64 = n: int | 0 <= n < TWO_64

  /** PHP's `int` on a 64-bit build. */
  type PhpInt = n: int | -TWO_63 <= n < TWO_63

  /** A message as the SDK hands it to the binding. */
  datatype Message = Message(topic: seq<byte>, payload: seq<byte>, seqNo: u64, streamId: u64)

  /** The PHP object built from a message. */
  datatype PhpMessage = PhpMessage(topic: seq<byte>, payload: seq<byte>, seqNo: PhpInt, streamId: PhpInt)

  /** PHP FFI reads a `uint64_t` field into a PHP int by keeping its 64 bits. */
  function ToPhpInt(u: u64): (n: PhpInt) {
    if u < TWO_63 then u else u - TWO_64
  }

  /** PHP FFI passes a PHP int to a C `int` parameter by keeping its low 32 bits. */
  function ToI32(n: PhpInt): (r: i32) {
    var low := n % TWO_32;
    if low < TWO_31 then low else low - TWO_32
  }

  /** Rust's `i32 as usize`: sign extension, then reinterpretation as 64 unsigned bits. */
  function AsUsize(n: i32): (u: u64) {
    if n < 0 then TWO_64 + n else n
  }

  /** A sequence number survives the trip to PHP unchanged exactly when it is below 2^63; above, it is
      the negative number with the same 64 bits; so no two are ever confused. */
  lemma PhpIntFaithful(u: u64, v: u64)
    ensures ToPhpInt(u) == u <==> u < 0x8000_0000_0000_0000
    ensures u >= 0x8000_0000_0000_0000 ==> ToPhpInt(u) as int + 0x1_0000_0000_0000_0000 == u as int
    ensures ToPhpInt(u) == ToPhpInt(v) ==> u == v
  {
  }

  /** The count that C sees is the 32-bit number congruent to PHP's, and as a `usize` the 64-bit one
      congruent to that. */
  lemma CountOnTheWire(n: PhpInt)
    ensures -0x8000_0000 <= ToI32(n) < 0x8000_0000
    ensures (n as int - ToI32(n) as int) % 0x1_0000_0000 == 0
    ensures 0 <= AsUsize(ToI32(n)) < 0x1_0000_0000_0000_0000
    ensures (AsUsize(ToI32(n)) as int - ToI32(n) as int) % 0x1_0000_0000_0000_0000 == 0
  {
  }
}
