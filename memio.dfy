/**
 * The memory-backed read callback of src/mem_io_muxer.cpp: the input file
 * is mapped into memory and handed to FFmpeg's AVIOContext through
 * `read_packet`, which copies the next bytes of the mapped region into the
 * context's 4096-byte staging buffer each time the context needs a refill.
 */
module MemIo {
  import opened TimeBase

  newtype byte = x: int | 0 <= x < 256

  /** avio_ctx_buffer_size: the capacity of the staging buffer. */
  const AVIO_BUFFER_SIZE: int := 4096

  const SIZE_T_MODULUS: int := 0x1_0000_0000_0000_0000
  const INT_MODULUS: int := 0x1_0000_0000
  const INT_MAX: int := 0x7FFF_FFFF

  predicate IsInt(x: int) { -INT_MAX - 1 <= x <= INT_MAX }

  /**
   * The number of bytes one call hands out: the smaller of the request and
   * what is left, compared as signed numbers. A result <= 0 makes the call
   * return -1.
   */
  function ReadCount(bufSize: int, size: nat): (n: int)
    ensures n <= bufSize && n <= size
    ensures n == bufSize || n == size
  {
    if bufSize < size then bufSize else size
  }

  /** The value of an unsigned quantity converted to a 32-bit signed int. */
  function ToInt(x: int): (r: int)
    requires 0 <= x
    ensures IsInt(r) && (r - x) % INT_MODULUS == 0
  {
    var t := x % INT_MODULUS;
    if t > INT_MAX then t - INT_MODULUS else t
  }

  /**
   * `buf_size = FFMIN(buf_size, bd->size)` as C evaluates it: the int
   * request is converted to size_t for the comparison, so a negative
   * request compares as a huge value and the minimum is the remaining size,
   * which is then converted back to int.
   */
  function ReadCountAsWritten(bufSize: int, size: nat): (n: int)
    requires IsInt(bufSize) && size < SIZE_T_MODULUS
    ensures 0 <= bufSize ==> n == ReadCount(bufSize, size)
    ensures bufSize < 0 && size <= INT_MAX ==> n == size
  {
    var u := if bufSize < 0 then bufSize + SIZE_T_MODULUS else bufSize;
    var m := if u > size then size else u;
    ToInt(m)
  }

  /**
   * A request of -1 bytes against 10 remaining bytes: the code as written
   * yields 10 (and would copy 10 bytes into the caller's buffer), where the
   * signed minimum yields -1 and the call reports "no data".
   */
  lemma NegativeRequestCopiesRemainder()
    ensures ReadCountAsWritten(-1, 10) == 10
    ensures ReadCount(-1, 10) == -1
  {
  }

  /**
   * The `buffer_data { ptr, size }` state of one input: the mapped region,
   * the offset of `ptr` into it and the number of bytes left.
   */
  class BufferData {
    const region: seq<byte>
    var ptr: nat
    var size: nat

    ghost predicate Valid()
      reads this
    {
      ptr + size == |region|
    }

    /** The bytes delivered so far. */
    function Consumed(): seq<byte>
      reads this
      requires Valid()
    {
      region[..ptr]
    }

    /** The bytes still to be delivered. */
    function Remaining(): seq<byte>
      reads this
      requires Valid()
    {
      region[ptr..]
    }

    /** `bd->ptr = *input_buffer; bd->size = *buffer_size;` after av_file_map. */
    constructor (mapped: seq<byte>)
      ensures Valid()
      ensures region == mapped && ptr == 0 && size == |mapped|
      ensures Consumed() == [] && Remaining() == mapped
    {
      region := mapped;
      ptr := 0;
      size := |mapped|;
    }

    /**
     * read_packet(opaque = this, buf, buf_size): copies the next
     * min(buf_size, size) bytes into buf[0..n), advances ptr and decreases
     * size by n, and returns n; returns -1 and changes nothing when that
     * minimum is not positive. The caller's buffer must hold buf_size bytes.
     */
    method ReadPacket(buf: array<byte>, bufSize: int) returns (n: int)
      requires Valid()
      requires bufSize <= buf.Length
      modifies this, buf
      ensures Valid()
      ensures n == (if ReadCount(bufSize, old(size)) <= 0 then -1 else ReadCount(bufSize, old(size)))
      ensures n == -1 ==> ptr == old(ptr) && size == old(size) && buf[..] == old(buf[..])
      ensures n > 0 ==> ptr == old(ptr) + n && size == old(size) - n
      ensures n > 0 ==> buf[..n] == old(Remaining())[..n] && buf[n..] == old(buf[n..])
      ensures Consumed() == old(Consumed()) + (if n > 0 then buf[..n] else [])
      ensures ptr >= old(ptr)
    {
      var count := ReadCount(bufSize, size);
      if count <= 0 {
        return -1;
      }
      // memcpy(buf, bd->ptr, buf_size)
      for i := 0 to count
        invariant ptr == old(ptr) && size == old(size) && ptr + count <= |region|
        invariant buf[..i] == region[ptr..ptr + i]
        invariant buf[i..] == old(buf[i..])
      {
        buf[i] := region[ptr + i];
      }
      assert region[..ptr + count] == region[..ptr] + region[ptr..ptr + count];
      ptr := ptr + count;
      size := size - count;
      n := count;
    }
  }

  /**
   * A consumer that refills a 4096-byte staging buffer until the callback
   * reports -1 receives the whole mapped region, in order, in
   * ceil(|region| / 4096) successful refills.
   */
  method ReadToEnd(region: seq<byte>) returns (delivered: seq<byte>, refills: nat)
    ensures delivered == region
    ensures refills * AVIO_BUFFER_SIZE >= |region|
    ensures refills == 0 || (refills - 1) * AVIO_BUFFER_SIZE < |region|
    ensures refills == (|region| + AVIO_BUFFER_SIZE - 1) / AVIO_BUFFER_SIZE
  {
    var bd := new BufferData(region);
    var buf := new byte[AVIO_BUFFER_SIZE];
    delivered, refills := [], 0;
    while true
      invariant bd.Valid() && bd.region == region
      invariant delivered == bd.Consumed()
      invariant bd.ptr == if refills * AVIO_BUFFER_SIZE <= |region| then refills * AVIO_BUFFER_SIZE else |region|
      invariant refills == 0 || (refills - 1) * AVIO_BUFFER_SIZE < |region|
      decreases bd.size
    {
      var n := bd.ReadPacket(buf, AVIO_BUFFER_SIZE);
      if n < 0 {
        break;
      }
      delivered := delivered + buf[..n];
      refills := refills + 1;
    }
    assert region[..|region|] == region;
    DivUnique(|region| + AVIO_BUFFER_SIZE - 1, AVIO_BUFFER_SIZE, refills);
  }

  /**
   * A region of exactly one buffer's worth of bytes: the first read
   * delivers all 4096 bytes, and the next two reads return -1.
   */
  method ExactlyOneBuffer(region: seq<byte>) returns (first: int, second: int, third: int)
    requires |region| == AVIO_BUFFER_SIZE
    ensures first == AVIO_BUFFER_SIZE && second == -1 && third == -1
  {
    var bd := new BufferData(region);
    var buf := new byte[AVIO_BUFFER_SIZE];
    first := bd.ReadPacket(buf, AVIO_BUFFER_SIZE);
    second := bd.ReadPacket(buf, AVIO_BUFFER_SIZE);
    third := bd.ReadPacket(buf, AVIO_BUFFER_SIZE);
  }
}
