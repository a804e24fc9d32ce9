/** The EventHeader wire format: constants, the field trees a producer writes
    and a consumer sees, and the reference encoder on whole trees. */
module Format {
  import opened Wire

  // ------------------------------------------------------------- constants

  const MAX_COUNT := 0xffff
  const MAX_METADATA_PAYLOAD := 65467
  const MAX_STRUCT_DEPTH := 8
  const MAX_STRUCT_CHILDREN := 127

  const ENCODING_STRUCT: byte := 1
  const ENCODING_VALUE8: byte := 2
  const ENCODING_VALUE16: byte := 3
  const ENCODING_VALUE32: byte := 4
  const ENCODING_VALUE64: byte := 5
  const ENCODING_VALUE128: byte := 6
  const ENCODING_ZSTRING8: byte := 7
  const ENCODING_ZSTRING16: byte := 8
  const ENCODING_ZSTRING32: byte := 9
  const ENCODING_STRING8: byte := 10
  const ENCODING_STRING16: byte := 11
  const ENCODING_STRING32: byte := 12
  const ENCODING_BINARY: byte := 13

  const ENCODING_CARRAY_FLAG := 0x20
  const ENCODING_VARRAY_FLAG := 0x40
  const CHAIN_FLAG := 0x80

  const FLAG_POINTER64 := 1
  const FLAG_LITTLE_ENDIAN := 2
  const FLAG_EXTENSION := 4

  const EXTENSION_METADATA := 1
  const EXTENSION_ACTIVITY := 2
  const EXTENSION_CHAIN_FLAG := 0x8000

  const SEMICOLON: byte := 0x3b

  datatype ArrayKind = Scalar | Fixed | Variable

  // ----------------------------------------------------------------- names

  predicate Continuation(b: byte) { 0x80 <= b <= 0xbf }

  predicate Utf8Valid(s: Bytes) {
    if s == [] then true
    else if s[0] < 0x80 then Utf8Valid(s[1..])
    else if 0xc2 <= s[0] <= 0xdf then
      |s| >= 2 && Continuation(s[1]) && Utf8Valid(s[2..])
    else if 0xe0 <= s[0] <= 0xef then
      && |s| >= 3
      && (if s[0] == 0xe0 then 0xa0 else 0x80) <= s[1] <= (if s[0] == 0xed then 0x9f else 0xbf)
      && Continuation(s[2])
      && Utf8Valid(s[3..])
    else if 0xf0 <= s[0] <= 0xf4 then
      && |s| >= 4
      && (if s[0] == 0xf0 then 0x90 else 0x80) <= s[1] <= (if s[0] == 0xf4 then 0x8f else 0xbf)
      && Continuation(s[2])
      && Continuation(s[3])
      && Utf8Valid(s[4..])
    else false
  }

  /** What the producer demands of an event or field name. */
  predicate ValidName(name: Bytes) {
    && name != []
    && Utf8Valid(name)
    && 0 !in name
    && SEMICOLON !in name
  }

  // ---------------------------------------------------------------- values

  /** Bytes of a fixed-width value, and 0 for every other encoding. */
  function FixedWidth(encoding: byte): nat {
    if encoding == ENCODING_VALUE8 then 1
    else if encoding == ENCODING_VALUE16 then 2
    else if encoding == ENCODING_VALUE32 then 4
    else if encoding == ENCODING_VALUE64 then 8
    else if encoding == ENCODING_VALUE128 then 16
    else 0
  }

  /** Bytes of one code unit of a string encoding. */
  function UnitWidth(encoding: byte): (w: nat)
    ensures w in {1, 2, 4}
  {
    if encoding == ENCODING_ZSTRING16 || encoding == ENCODING_STRING16 then 2
    else if encoding == ENCODING_ZSTRING32 || encoding == ENCODING_STRING32 then 4
    else 1
  }

  predicate Counted(encoding: byte) { ENCODING_STRING8 <= encoding <= ENCODING_BINARY }

  predicate Terminated(encoding: byte) { ENCODING_ZSTRING8 <= encoding <= ENCODING_ZSTRING32 }

  /** The encodings a producer can put on the wire. */
  predicate Writable(encoding: byte) {
    ENCODING_VALUE8 <= encoding <= ENCODING_VALUE128 || Counted(encoding)
  }

  /** The bytes of one value that fit its encoding. */
  predicate ValidElem(encoding: byte, raw: Bytes) {
    if Counted(encoding)
    then |raw| % UnitWidth(encoding) == 0 && |raw| / UnitWidth(encoding) <= MAX_COUNT
    else |raw| == FixedWidth(encoding)
  }

  function WireElem(order: ByteOrder, encoding: byte, raw: Bytes): (r: Bytes)
    requires ValidElem(encoding, raw)
  {
    if Counted(encoding) then Put16(order, |raw| / UnitWidth(encoding)) + raw else raw
  }

  predicate ValidElems(encoding: byte, elems: seq<Bytes>) {
    forall i :: 0 <= i < |elems| ==> ValidElem(encoding, elems[i])
  }

  function WireElems(order: ByteOrder, encoding: byte, elems: seq<Bytes>): Bytes
    requires ValidElems(encoding, elems)
  {
    if elems == [] then [] else WireElem(order, encoding, elems[0]) + WireElems(order, encoding, elems[1..])
  }

  lemma {:induction false} WireElemsConcat(order: ByteOrder, encoding: byte, a: seq<Bytes>, b: seq<Bytes>)
    requires ValidElems(encoding, a) && ValidElems(encoding, b)
    ensures ValidElems(encoding, a + b)
    ensures WireElems(order, encoding, a + b) == WireElems(order, encoding, a) + WireElems(order, encoding, b)
  {
    if a == [] {
      assert a + b == b;
    } else {
      assert ValidElems(encoding, a[1..]);
      WireElemsConcat(order, encoding, a[1..], b);
      assert (a + b)[1..] == a[1..] + b;
      assert (a + b)[0] == a[0];
    }
  }

  // ----------------------------------------------------------------- trees

  /** A field as the producer sees it: its metadata together with its values. */
  datatype Node =
    | Leaf(name: Bytes, encoding: byte, format: byte, tag: u16, kind: ArrayKind, elems: seq<Bytes>)
    | Struct(name: Bytes, tag: u16, children: seq<Node>)

  predicate ValidLeaf(n: Node)
    requires n.Leaf?
  {
    && ValidName(n.name)
    && Writable(n.encoding)
    && n.format < CHAIN_FLAG
    && ValidElems(n.encoding, n.elems)
    && (n.kind.Scalar? ==> |n.elems| == 1)
    && (n.kind.Fixed? ==> 1 <= |n.elems|)
    && |n.elems| <= MAX_COUNT
  }

  predicate ValidNode(n: Node)
    decreases n, 0
  {
    match n
    case Leaf(_, _, _, _, _, _) => ValidLeaf(n)
    case Struct(name, _, children) =>
      ValidName(name) && 1 <= |children| <= MAX_STRUCT_CHILDREN && ValidForest(children)
  }

  predicate ValidForest(ns: seq<Node>)
    decreases ns, 1
  {
    forall i :: 0 <= i < |ns| ==> ValidNode(ns[i])
  }

  /** Number of nested structs on the deepest path. */
  function Height(n: Node): nat
    decreases n, 0
  {
    match n
    case Leaf(_, _, _, _, _, _) => 0
    case Struct(_, _, children) => 1 + ForestHeight(children)
  }

  function ForestHeight(ns: seq<Node>): nat
    decreases ns, 1
  {
    if ns == [] then 0
    else var a := Height(ns[0]); var b := ForestHeight(ns[1..]); if a < b then b else a
  }

  /** Number of fields, nested ones included. */
  function Size(n: Node): (r: nat)
    ensures r > 0
    decreases n, 0
  {
    match n
    case Leaf(_, _, _, _, _, _) => 1
    case Struct(_, _, children) => 1 + ForestSize(children)
  }

  function ForestSize(ns: seq<Node>): nat
    decreases ns, 1
  {
    if ns == [] then 0 else Size(ns[0]) + ForestSize(ns[1..])
  }

  // -------------------------------------------------------- reference encoder

  function KindFlag(kind: ArrayKind): nat {
    match kind
    case Scalar => 0
    case Fixed => ENCODING_CARRAY_FLAG
    case Variable => ENCODING_VARRAY_FLAG
  }

  function TagBytes(order: ByteOrder, tag: u16): Bytes {
    if tag != 0 then Put16(order, tag) else []
  }

  /** Format byte and, when there is one, tag; `low` is a format or a child count. */
  function FormatBytes(order: ByteOrder, low: byte, tag: u16): (r: Bytes)
    requires low < CHAIN_FLAG
    ensures |r| == 1 + |TagBytes(order, tag)|
  {
    [if tag != 0 then low + CHAIN_FLAG else low] + TagBytes(order, tag)
  }

  function LeafMeta(order: ByteOrder, n: Node): Bytes
    requires n.Leaf? && ValidLeaf(n)
  {
    var encoded: byte := n.encoding + KindFlag(n.kind);
    n.name + [0]
    + (if n.format != 0 || n.tag != 0
       then [encoded + CHAIN_FLAG] + FormatBytes(order, n.format, n.tag)
       else [encoded])
    + (if n.kind.Fixed? then Put16(order, |n.elems|) else [])
  }

  /** The metadata of a struct with `count` children, up to its first child. */
  function StructHead(order: ByteOrder, name: Bytes, tag: u16, count: nat): Bytes
    requires count < CHAIN_FLAG
  {
    name + [0, ENCODING_STRUCT + CHAIN_FLAG] + FormatBytes(order, count, tag)
  }

  function Meta(order: ByteOrder, n: Node): Bytes
    requires ValidNode(n)
    decreases n, 0
  {
    match n
    case Leaf(_, _, _, _, _, _) => LeafMeta(order, n)
    case Struct(name, tag, children) =>
      StructHead(order, name, tag, |children|) + ForestMeta(order, children)
  }

  function ForestMeta(order: ByteOrder, ns: seq<Node>): Bytes
    requires ValidForest(ns)
    decreases ns, 1
  {
    if ns == [] then [] else Meta(order, ns[0]) + ForestMeta(order, ns[1..])
  }

  function Payload(order: ByteOrder, n: Node): Bytes
    requires ValidNode(n)
    decreases n, 0
  {
    match n
    case Leaf(_, encoding, _, _, kind, elems) =>
      (if kind.Variable? then Put16(order, |elems|) else []) + WireElems(order, encoding, elems)
    case Struct(_, _, children) => ForestPayload(order, children)
  }

  function ForestPayload(order: ByteOrder, ns: seq<Node>): Bytes
    requires ValidForest(ns)
    decreases ns, 1
  {
    if ns == [] then [] else Payload(order, ns[0]) + ForestPayload(order, ns[1..])
  }

  lemma {:induction false} ForestAppend(order: ByteOrder, a: seq<Node>, b: seq<Node>)
    requires ValidForest(a) && ValidForest(b)
    ensures ValidForest(a + b)
    ensures ForestMeta(order, a + b) == ForestMeta(order, a) + ForestMeta(order, b)
    ensures ForestPayload(order, a + b) == ForestPayload(order, a) + ForestPayload(order, b)
  {
    hide Meta, Payload, ValidNode;
    if a == [] {
      assert a + b == b;
    } else {
      ForestAppend(order, a[1..], b);
      assert (a + b)[1..] == a[1..] + b;
      assert (a + b)[0] == a[0];
    }
  }

  lemma {:induction false} ForestMeasuresAppend(a: seq<Node>, b: seq<Node>)
    ensures ForestSize(a + b) == ForestSize(a) + ForestSize(b)
    ensures ForestHeight(a + b) == if ForestHeight(a) < ForestHeight(b) then ForestHeight(b) else ForestHeight(a)
  {
    if a == [] {
      assert a + b == b;
    } else {
      ForestMeasuresAppend(a[1..], b);
      assert (a + b)[1..] == a[1..] + b;
      assert (a + b)[0] == a[0];
    }
  }

  // ----------------------------------------------------------------- events

  type Guid = g: Bytes | |g| == 16 witness seq(16, _ => 0)

  /** Everything of an event but its fields. */
  datatype Header = Header(
    order: ByteOrder, pointer64: bool, version: byte, id: u16, tag: u16, opcode: byte, level: byte,
    activity: Option<Guid>, related: Option<Guid>)

  predicate ValidHeader(h: Header) {
    1 <= h.level <= 5 && (h.related.Some? ==> h.activity.Some?)
  }

  function HeaderFlags(h: Header): byte {
    FLAG_EXTENSION
    + (if h.pointer64 then FLAG_POINTER64 else 0)
    + (if h.order.Little? then FLAG_LITTLE_ENDIAN else 0)
  }

  function FixedHeader(h: Header): (r: Bytes)
    ensures |r| == 8
  {
    [HeaderFlags(h), h.version] + Put16(h.order, h.id) + Put16(h.order, h.tag) + [h.opcode, h.level]
  }

  function ActivityBytes(h: Header): Bytes {
    match h.activity
    case None => []
    case Some(a) =>
      Put16(h.order, if h.related.Some? then 32 else 16)
      + Put16(h.order, EXTENSION_ACTIVITY + EXTENSION_CHAIN_FLAG)
      + a
      + (if h.related.Some? then h.related.value else [])
  }

  function MetadataHead(h: Header, size: u16): Bytes {
    Put16(h.order, size) + Put16(h.order, EXTENSION_METADATA)
  }

  function Metadata(order: ByteOrder, name: Bytes, fields: seq<Node>): Bytes
    requires ValidForest(fields)
  {
    name + [0] + ForestMeta(order, fields)
  }

  function Prefix(h: Header, size: u16): Bytes {
    FixedHeader(h) + ActivityBytes(h) + MetadataHead(h, size)
  }

  /** What an encoder can emit for this name and these fields. */
  predicate Encodable(order: ByteOrder, name: Bytes, fields: seq<Node>) {
    && ValidName(name)
    && ValidForest(fields)
    && ForestHeight(fields) <= MAX_STRUCT_DEPTH
    && |Metadata(order, name, fields)| <= MAX_COUNT
    && |Metadata(order, name, fields)| + |ForestPayload(order, fields)| <= MAX_METADATA_PAYLOAD
  }

  /** The reference encoding of a whole event. */
  function EncodeEvent(h: Header, name: Bytes, fields: seq<Node>): Bytes
    requires Encodable(h.order, name, fields)
  {
    var metadata := Metadata(h.order, name, fields);
    Prefix(h, |metadata|) + metadata + ForestPayload(h.order, fields)
  }
}
