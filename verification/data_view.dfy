/** The two DataView reads the driver performs on a characteristic value. */
module DataView {
  import opened Results

  type byte = b: int | 0 <= b < 256

  /** Two's-complement reading of one byte. */
  function ToInt8(b: byte): (i: int)
    ensures -128 <= i < 128
    ensures i % 256 == b
  {
    if b < 128 then b else b - 256
  }

  /** The byte that holds a given signed 8-bit value. */
  function FromInt8(i: int): (b: byte)
    requires -128 <= i < 128
  {
    i % 256
  }

  /** `getUint8(offset)`: the byte itself, or RangeError past the end. */
  function GetUint8(view: seq<byte>, offset: nat): (r: Result<int>)
    ensures r.Ok? <==> offset < |view|
    ensures r.Ok? ==> 0 <= r.value < 256 && r.value == view[offset]
    ensures r.Err? ==> r.error == RangeError
  {
    if offset < |view| then Ok(view[offset]) else Err(RangeError)
  }

  /** `getInt8(offset)`: the signed value whose two's complement is the
      byte, or RangeError past the end. */
  function GetInt8(view: seq<byte>, offset: nat): (r: Result<int>)
    ensures r.Ok? <==> offset < |view|
    ensures r.Ok? ==> -128 <= r.value < 128 && r.value % 256 == view[offset]
    ensures r.Err? ==> r.error == RangeError
  {
    if offset < |view| then Ok(ToInt8(view[offset])) else Err(RangeError)
  }

  /** Reading a byte as int8 loses nothing: the two conversions are inverse. */
  lemma Int8RoundTrip(b: byte, i: int)
    requires -128 <= i < 128
    ensures FromInt8(ToInt8(b)) == b
    ensures ToInt8(FromInt8(i)) == i
  {
  }
}
