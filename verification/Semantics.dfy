/** What a decoded value means: the choice a field's encoding and format make,
    and the numbers they give back. */
module Semantics {
  import opened Wire
  import opened Format
  import opened Clock

  const FORMAT_DEFAULT: byte := 0
  const FORMAT_UNSIGNED: byte := 1
  const FORMAT_SIGNED: byte := 2
  const FORMAT_HEX: byte := 3
  const FORMAT_ERRNO: byte := 4
  const FORMAT_PID: byte := 5
  const FORMAT_TIME: byte := 6
  const FORMAT_BOOLEAN: byte := 7
  const FORMAT_FLOAT: byte := 8
  const FORMAT_HEX_BYTES: byte := 9
  const FORMAT_STRING8: byte := 10
  const FORMAT_STRING_UTF: byte := 11
  const FORMAT_STRING_BOM: byte := 12
  const FORMAT_XML: byte := 13
  const FORMAT_JSON: byte := 14
  const FORMAT_UUID: byte := 15
  const FORMAT_PORT: byte := 16
  const FORMAT_IP: byte := 17
  const FORMAT_IP_OBSOLETE: byte := 18

  /** Text, addresses and floats keep their bytes. */
  datatype Meaning =
    | Null
    | Unsigned(u: nat)
    | Signed(s: int)
    | Boolean(b: bool)
    | InvalidBoolean
    | FloatBits(bits: Bytes)
    | Uuid(uuid: Bytes)
    | PortNumber(port: nat)
    | Address(address: Bytes)
    | Time(time: Timestamp)
    | InvalidTime
    | Binary(binary: Bytes)
    | Text(text: Bytes, unit: nat, bom: bool)

  predicate UtfFormat(format: byte) {
    format == FORMAT_STRING_UTF || format == FORMAT_STRING_BOM || format == FORMAT_XML || format == FORMAT_JSON
  }

  predicate FormatApplicable(encoding: byte, format: byte) {
    if format == FORMAT_DEFAULT || format > FORMAT_IP_OBSOLETE then false
    else if encoding == ENCODING_VALUE8 then
      format in {FORMAT_UNSIGNED, FORMAT_SIGNED, FORMAT_HEX, FORMAT_BOOLEAN, FORMAT_HEX_BYTES, FORMAT_STRING8}
    else if encoding == ENCODING_VALUE16 then
      format in {FORMAT_UNSIGNED, FORMAT_SIGNED, FORMAT_HEX, FORMAT_BOOLEAN, FORMAT_HEX_BYTES, FORMAT_STRING_UTF, FORMAT_PORT}
    else if encoding == ENCODING_VALUE32 then
      format in {FORMAT_UNSIGNED, FORMAT_SIGNED, FORMAT_HEX, FORMAT_ERRNO, FORMAT_PID, FORMAT_TIME, FORMAT_BOOLEAN,
                 FORMAT_FLOAT, FORMAT_HEX_BYTES, FORMAT_STRING_UTF, FORMAT_IP, FORMAT_IP_OBSOLETE}
    else if encoding == ENCODING_VALUE64 then
      format in {FORMAT_UNSIGNED, FORMAT_SIGNED, FORMAT_HEX, FORMAT_TIME, FORMAT_FLOAT, FORMAT_HEX_BYTES}
    else if encoding == ENCODING_VALUE128 then
      format in {FORMAT_HEX_BYTES, FORMAT_UUID, FORMAT_IP, FORMAT_IP_OBSOLETE}
    else if encoding == ENCODING_ZSTRING8 then
      format == FORMAT_HEX_BYTES || format == FORMAT_STRING8 || UtfFormat(format)
    else if encoding in {ENCODING_ZSTRING16, ENCODING_ZSTRING32, ENCODING_STRING16, ENCODING_STRING32} then
      format == FORMAT_HEX_BYTES || UtfFormat(format)
    else encoding == ENCODING_STRING8 || encoding == ENCODING_BINARY
  }

  predicate FixedSemantic(format: byte) {
    FORMAT_UNSIGNED <= format <= FORMAT_FLOAT || FORMAT_UUID <= format <= FORMAT_IP_OBSOLETE
  }

  function UnsignedOf(order: ByteOrder, raw: Bytes): Option<nat> {
    if |raw| in {1, 2, 4, 8} then Some(Get(order, raw)) else None
  }

  /** The two's-complement reading of `u` in `n` bytes. */
  function SignExtend(n: nat, u: nat): int {
    if 2 * u < Pow256(n) then u else u - Pow256(n)
  }

  /** The `n`-byte pattern of `v`, as a conversion to unsigned gives it. */
  function Wrap(n: nat, v: int): nat {
    if v < 0 && v + Pow256(n) >= 0 then v + Pow256(n) else if v < 0 then 0 else v
  }

  function SignedOf(order: ByteOrder, raw: Bytes): Option<int> {
    match UnsignedOf(order, raw)
    case None => None
    case Some(u) => Some(SignExtend(|raw|, u))
  }

  /** The meaning a fixed-semantic format gives to bytes of this length, if any. */
  function DecodeSemantic(order: ByteOrder, format: byte, raw: Bytes): Option<Meaning> {
    if format == FORMAT_UNSIGNED || format == FORMAT_HEX then
      match UnsignedOf(order, raw) case None => None case Some(u) => Some(Unsigned(u))
    else if format == FORMAT_SIGNED then
      match SignedOf(order, raw) case None => None case Some(s) => Some(Signed(s))
    else if format == FORMAT_ERRNO || format == FORMAT_PID then
      if |raw| != 4 then None else Some(Signed(SignExtend(4, Get(order, raw))))
    else if format == FORMAT_BOOLEAN then
      if |raw| !in {1, 2, 4} then None
      else if Get(order, raw) > 1 then Some(InvalidBoolean)
      else Some(Boolean(Get(order, raw) != 0))
    else if format == FORMAT_FLOAT then
      if |raw| == 4 || |raw| == 8 then Some(FloatBits(raw)) else None
    else if format == FORMAT_UUID then
      if |raw| == 16 then Some(Uuid(raw)) else None
    else if format == FORMAT_PORT then
      if |raw| == 2 then Some(PortNumber(Get(Big, raw))) else None
    else if format == FORMAT_IP || format == FORMAT_IP_OBSOLETE then
      if |raw| == 4 || |raw| == 16 then Some(Address(raw)) else None
    else if format == FORMAT_TIME then
      if |raw| == 4 || |raw| == 8 then Some(DecodeTime(SignExtend(|raw|, Get(order, raw)))) else None
    else None
  }

  /** Largest whole seconds whose nanoseconds fit int64; Go's division truncates. */
  const MAX_SECONDS := 9223372036

  function DecodeTime(seconds: int): Meaning {
    if seconds > MAX_SECONDS || seconds < -MAX_SECONDS then InvalidTime
    else
      var nanoseconds := seconds * 1_000_000_000;
      Time(if nanoseconds >= 0 then Timestamp(nanoseconds, ClockRealtime, 0, true)
           else Timestamp(0, ClockRealtime, nanoseconds, true))
  }

  function TextUnit(encoding: byte): nat {
    if encoding in {ENCODING_VALUE16, ENCODING_ZSTRING16, ENCODING_STRING16} then 2
    else if encoding in {ENCODING_VALUE32, ENCODING_ZSTRING32, ENCODING_STRING32} then 4
    else 1
  }

  function DefaultMeaning(order: ByteOrder, encoding: byte, raw: Bytes): Meaning {
    if ENCODING_VALUE8 <= encoding <= ENCODING_VALUE64 then
      match UnsignedOf(order, raw) case None => Unsigned(0) case Some(u) => Unsigned(u)
    else if Terminated(encoding) || ENCODING_STRING8 <= encoding <= ENCODING_STRING32 then
      Text(raw, UnitWidth(encoding), false)
    else Binary(raw)
  }

  /** `decodeScalar` */
  function Interpret(order: ByteOrder, encoding: byte, format: byte, raw: Bytes): Meaning {
    if !FormatApplicable(encoding, format) then DefaultMeaning(order, encoding, raw)
    else if FixedSemantic(format) then
      if encoding >= ENCODING_ZSTRING8 && raw == [] then Null
      else match DecodeSemantic(order, format, raw)
        case None => DefaultMeaning(order, encoding, raw)
        case Some(m) => m
    else if format == FORMAT_HEX_BYTES then Binary(raw)
    else if format == FORMAT_STRING8 then Text(raw, 1, false)
    else if format == FORMAT_STRING_UTF then Text(raw, TextUnit(encoding), false)
    else Text(raw, TextUnit(encoding), true)
  }

  // --------------------------------------------------------------- inverse laws

  /** The encoding of a fixed width. */
  function EncodingOfWidth(width: nat): byte
    requires width in {1, 2, 4, 8}
  {
    if width == 1 then ENCODING_VALUE8 else if width == 2 then ENCODING_VALUE16
    else if width == 4 then ENCODING_VALUE32 else ENCODING_VALUE64
  }

  /** The meaning of the number `v` in `width` bytes under every format, by the
      format's number; the formats that fit no such number leave none. */
  function NumberMeaning(order: ByteOrder, width: nat, format: byte, v: nat): Option<Meaning>
    requires width in {1, 2, 4, 8} && v < Pow256(width)
  {
    var signed := if 2 * v < Pow256(width) then v else v - Pow256(width);
    if format == 1 || format == 3 then Some(Unsigned(v))
    else if format == 2 || (format in {4, 5} && width == 4) then Some(Signed(signed))
    else if format == 6 && width >= 4 then Some(SecondsMeaning(signed))
    else if format == 7 && width <= 4 then Some(if v == 0 then Boolean(false) else if v == 1 then Boolean(true) else InvalidBoolean)
    else if format == 8 && width >= 4 then Some(FloatBits(Put(order, width, v)))
    else if format == 16 && width == 2 then
      Some(PortNumber(if order.Big? then v else v % 256 * 256 + v / 256))
    else if format in {17, 18} && width == 4 then Some(Address(Put(order, width, v)))
    else None
  }

  /** Seconds since 1970 as nanoseconds, before or after. */
  function SecondsMeaning(seconds: int): Meaning {
    if !InInt64(seconds * 1_000_000_000) then InvalidTime
    else if seconds >= 0 then Time(Timestamp(seconds * 1_000_000_000, ClockRealtime, 0, true))
    else Time(Timestamp(0, ClockRealtime, seconds * 1_000_000_000, true))
  }

  lemma NumberDecodes(order: ByteOrder, width: nat, format: byte, v: nat)
    requires width in {1, 2, 4, 8} && v < Pow256(width)
    ensures DecodeSemantic(order, format, Put(order, width, v)) == NumberMeaning(order, width, format, v)
  {
    hide Put, Get;
    GetPut(order, width, v);
    if format == 16 && width == 2 {
      SwappedPort(order, v);
    }
  }

  lemma SwappedPort(order: ByteOrder, v: nat)
    requires v < Pow256(2)
    ensures Get(Big, Put(order, 2, v)) == if order.Big? then v else v % 256 * 256 + v / 256
  {
    PowersOf256();
    GetPut(Big, 2, v);
    if order.Little? {
      var swapped := v % 256 * 256 + v / 256;
      TwoDigits(v);
      TwoDigits(swapped);
      assert swapped % 256 == v / 256 && swapped / 256 == v % 256;
      assert Reverse(Digits(2, swapped)) == Digits(2, v);
      GetPut(Big, 2, swapped);
    }
  }

  lemma TwoDigits(v: nat)
    requires v < 0x1_0000
    ensures Digits(2, v) == [v % 256, v / 256]
  {
    assert Digits(1, v / 256) == [v / 256 % 256] + Digits(0, v / 256 / 256);
    assert Digits(2, v) == [v % 256] + Digits(1, v / 256);
  }

  /** Every fixed-width number under every format: what the format means, bytes,
      text of that unit, or the plain number. */
  lemma NumberBack(order: ByteOrder, width: nat, format: byte, v: nat)
    requires width in {1, 2, 4, 8} && v < Pow256(width)
    ensures Interpret(order, EncodingOfWidth(width), format, Put(order, width, v)) ==
            if format == 0 then Unsigned(v)
            else if NumberMeaning(order, width, format, v).Some? then NumberMeaning(order, width, format, v).value
            else if format == 9 then Binary(Put(order, width, v))
            else if (format == 10 && width == 1) || (format == 11 && width in {2, 4}) then Text(Put(order, width, v), width, false)
            else Unsigned(v)
  {
    hide Put, Get, NumberMeaning, DecodeSemantic;
    GetPut(order, width, v);
    NumberDecodes(order, width, format, v);
    Applicable(order, width, format, v);
  }

  /** A format that means nothing for a width is not applied to it. */
  lemma Applicable(order: ByteOrder, width: nat, format: byte, v: nat)
    requires width in {1, 2, 4, 8} && v < Pow256(width)
    ensures FormatApplicable(EncodingOfWidth(width), format) && FixedSemantic(format) ==> NumberMeaning(order, width, format, v).Some?
    ensures !FormatApplicable(EncodingOfWidth(width), format) ==> NumberMeaning(order, width, format, v).None?
    ensures FormatApplicable(EncodingOfWidth(width), format) && !FixedSemantic(format) <==>
            format == 9 || (format == 10 && width == 1) || (format == 11 && width in {2, 4})
    ensures !FixedSemantic(format) ==> NumberMeaning(order, width, format, v).None?
  {
    hide Put, SecondsMeaning;
  }

  /** Sixteen bytes are a UUID, an address, or plain bytes. */
  lemma WideBack(order: ByteOrder, format: byte, raw: Bytes)
    requires |raw| == 16
    ensures Interpret(order, ENCODING_VALUE128, format, raw) ==
            if format == 15 then Uuid(raw) else if format in {17, 18} then Address(raw) else Binary(raw)
  {
  }

  /** Counted bytes take every format: nothing is null, a number of a width that
      the format knows is that number, and what no format explains stays as it is. */
  lemma CountedBack(order: ByteOrder, encoding: byte, format: byte, raw: Bytes)
    requires encoding == 10 || encoding == 13
    ensures var m := Interpret(order, encoding, format, raw);
            var plain := if encoding == 10 then Text(raw, 1, false) else Binary(raw);
            if format == 0 || format > 18 then m == plain
            else if format == 9 then m == Binary(raw)
            else if format == 10 || format == 11 then m == Text(raw, 1, false)
            else if format in {12, 13, 14} then m == Text(raw, 1, true)
            else if raw == [] then m == Null
            else if |raw| in {1, 2, 4, 8} then
              Get(order, raw) < Pow256(|raw|) &&
              m == (match NumberMeaning(order, |raw|, format, Get(order, raw)) case Some(n) => n case None => plain)
            else if |raw| == 16 && format == 15 then m == Uuid(raw)
            else if |raw| == 16 && format in {17, 18} then m == Address(raw)
            else m == plain
  {
    hide Put, Get, NumberMeaning;
    if |raw| in {1, 2, 4, 8} {
      PutGet(order, raw);
      NumberDecodes(order, |raw|, format, Get(order, raw));
    }
  }

  /** Terminated text, and counted text of wide units, takes text formats only. */
  lemma TextBack(order: ByteOrder, encoding: byte, format: byte, raw: Bytes)
    requires encoding in {7, 8, 9, 11, 12}
    ensures var unit := if encoding == 7 then 1 else if encoding in {8, 11} then 2 else 4;
            Interpret(order, encoding, format, raw) ==
            if format == 9 then Binary(raw) else Text(raw, unit, format in {12, 13, 14})
  {
  }

  lemma UnsignedBack(order: ByteOrder, width: nat, v: nat)
    requires width in {1, 2, 4, 8} && v < Pow256(width)
    ensures Interpret(order, EncodingOfWidth(width), FORMAT_DEFAULT, Put(order, width, v)) == Unsigned(v)
  {
    GetPut(order, width, v);
  }

  /** Sign extension undoes wrapping, for every value of the width. */
  lemma SignedBack(order: ByteOrder, width: nat, v: int)
    requires width in {1, 2, 4, 8} && 0 - Pow256(width) <= 2 * v < Pow256(width)
    ensures Wrap(width, v) < Pow256(width)
    ensures Interpret(order, EncodingOfWidth(width), FORMAT_SIGNED, Put(order, width, Wrap(width, v))) == Signed(v)
  {
    GetPut(order, width, Wrap(width, v));
  }

  lemma BoolBack(order: ByteOrder, b: bool)
    ensures Interpret(order, ENCODING_VALUE8, FORMAT_BOOLEAN, [if b then 1 else 0]) == Boolean(b)
  {
    PowersOf256();
    var v := if b then 1 else 0;
    GetPut(order, 1, v);
    assert Put(order, 1, v) == [v] by { assert Digits(0, 0) == []; }
  }

  /** A port is big-endian whatever the order of the event. */
  lemma PortBack(order: ByteOrder, port: u16)
    ensures Interpret(order, ENCODING_VALUE16, FORMAT_PORT, Put(Big, 2, port)) == PortNumber(port)
  {
    PowersOf256();
    GetPut(Big, 2, port);
  }

  /** A time is exactly its seconds in nanoseconds, or invalid exactly when those
      leave int64. */
  lemma TimeExact(seconds: int)
    ensures match DecodeTime(seconds)
            case Time(t) => InInt64(seconds * 1_000_000_000) && UnixNano(t) == Some(seconds * 1_000_000_000)
            case InvalidTime => !InInt64(seconds * 1_000_000_000)
            case _ => false
  {
  }
}
