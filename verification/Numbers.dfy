/** The wire format in numbers: what the reference encoder's names stand for, byte
    by byte, and the table of value kinds. */
module Numbers {
  import opened Wire
  import opened Format
  import opened Semantics
  import opened Building
  import opened Schemas

  /** Bits of an encoding byte that say whether and how values repeat. */
  function RepeatBits(kind: ArrayKind): nat {
    if kind.Fixed? then 0x20 else if kind.Variable? then 0x40 else 0
  }

  /** A leaf without format and tag ends its metadata with the encoding; bit 7 of the
      encoding announces a format byte, bit 7 of the format a tag, and a fixed array
      has its count last. */
  lemma LeafLayout(order: ByteOrder, n: Node)
    requires n.Leaf? && ValidLeaf(n)
    ensures var count := if n.kind.Fixed? then Put16(order, |n.elems|) else [];
            LeafMeta(order, n) ==
            if n.format == 0 && n.tag == 0 then n.name + [0, n.encoding + RepeatBits(n.kind)] + count
            else if n.tag == 0 then n.name + [0, 0x80 + n.encoding + RepeatBits(n.kind), n.format] + count
            else n.name + [0, 0x80 + n.encoding + RepeatBits(n.kind), 0x80 + n.format] + Put16(order, n.tag) + count
    ensures n.encoding in {2, 3, 4, 5, 6, 10, 11, 12, 13}
  {
    hide ValidName;
    var count := if n.kind.Fixed? then Put16(order, |n.elems|) else [];
    var encoded := n.encoding + KindFlag(n.kind);
    assert LeafMeta(order, n) == n.name + [0]
      + (if n.format != 0 || n.tag != 0 then [encoded + 0x80] + FormatBytes(order, n.format, n.tag) else [encoded]) + count;
  }

  /** A structure has encoding 1, always with a format byte, which is the number of
      its children. */
  lemma StructLayout(order: ByteOrder, name: Bytes, tag: u16, count: nat)
    requires count <= 127
    ensures StructHead(order, name, tag, count) ==
            if tag == 0 then name + [0, 0x81, count] else name + [0, 0x81, 0x80 + count] + Put16(order, tag)
  {
  }

  /** The value bytes: a variable array starts with its count, counted elements with
      their number of units. */
  lemma ValueLayout(order: ByteOrder, n: Node)
    requires n.Leaf? && ValidNode(n)
    ensures Payload(order, n) == (if n.kind.Variable? then Put16(order, |n.elems|) else []) + WireElems(order, n.encoding, n.elems)
    ensures forall raw :: ValidElem(n.encoding, raw) ==>
              WireElem(order, n.encoding, raw) ==
              (if n.encoding in {10, 13} then Put16(order, |raw|)
               else if n.encoding == 11 then Put16(order, |raw| / 2)
               else if n.encoding == 12 then Put16(order, |raw| / 4) else []) + raw
    ensures forall raw :: ValidElem(n.encoding, raw) ==>
              if n.encoding in {10, 13} then |raw| <= 65535
              else if n.encoding == 11 then |raw| % 2 == 0 && |raw| / 2 <= 65535
              else if n.encoding == 12 then |raw| % 4 == 0 && |raw| / 4 <= 65535
              else |raw| == (if n.encoding == 2 then 1 else if n.encoding == 3 then 2 else if n.encoding == 4 then 4
                             else if n.encoding == 5 then 8 else 16)
  {
    hide ValidName, WireElems;
    forall raw | ValidElem(n.encoding, raw)
      ensures WireElem(order, n.encoding, raw) ==
              (if n.encoding in {10, 13} then Put16(order, |raw|)
               else if n.encoding == 11 then Put16(order, |raw| / 2)
               else if n.encoding == 12 then Put16(order, |raw| / 4) else []) + raw
    {
      assert [] + raw == raw;
    }
  }

  /** Header byte 0 has bit 0 for 64-bit pointers, bit 1 for little endian, bit 2 for
      extensions; then version, ID, tag, opcode and level; the activity extension has
      kind 2 and is followed by the metadata extension of kind 1. */
  lemma EventLayoutNumbers(h: Header, name: Bytes, fields: seq<Node>)
    requires Encodable(h.order, name, fields)
    ensures var metadata := name + [0] + ForestMeta(h.order, fields);
            var first := (if h.order.Little? then 6 else 4) + (if h.pointer64 then 1 else 0);
            var head := [first, h.version] + Put16(h.order, h.id) + Put16(h.order, h.tag) + [h.opcode, h.level];
            var activity :=
              if h.activity.None? then []
              else if h.related.None? then Put16(h.order, 16) + Put16(h.order, 0x8002) + h.activity.value + []
              else Put16(h.order, 32) + Put16(h.order, 0x8002) + h.activity.value + h.related.value;
            && |metadata| <= 65535 && |metadata| + |ForestPayload(h.order, fields)| <= 65467
            && EncodeEvent(h, name, fields)
               == head + activity + (Put16(h.order, |metadata|) + Put16(h.order, 1)) + metadata + ForestPayload(h.order, fields)
  {
    hide ForestMeta, ForestPayload, ValidForest, ForestHeight, Put16, Utf8Valid;
  }

  /** The bounds of the format, as they show in what an encoder can emit. */
  lemma Bounds(order: ByteOrder, name: Bytes, fields: seq<Node>, n: Node)
    ensures Encodable(order, name, fields) <==>
            && ValidName(name) && ValidForest(fields) && ForestHeight(fields) <= 8
            && |Metadata(order, name, fields)| <= 65535
            && |Metadata(order, name, fields)| + |ForestPayload(order, fields)| <= 65467
    ensures n.Struct? ==> (ValidNode(n) <==> ValidName(n.name) && 1 <= |n.children| <= 127 && ValidForest(n.children))
    ensures n.Leaf? && ValidNode(n) ==> |n.elems| <= 65535 && n.format < 128 && (n.kind.Fixed? ==> |n.elems| >= 1)
  {
    hide ValidName, ForestHeight, ForestPayload, Metadata;
  }

  /** Encoding, format and least payload of every kind of value. */
  lemma KindTable(pointer64: bool, kind: ValueKind)
    requires IsValue(kind)
    ensures KindEncoding(pointer64, kind) ==
            if kind in {KindInt8, KindUint8, KindBool} then 2
            else if kind in {KindInt16, KindUint16, KindPort} then 3
            else if kind in {KindInt32, KindUint32, KindFloat32, KindIPv4} then 4
            else if kind in {KindInt64, KindUint64, KindFloat64} then 5
            else if kind == KindUintptr then (if pointer64 then 5 else 4)
            else if kind in {KindUUID, KindIPv6} then 6
            else if kind == KindString then 10 else if kind == KindUTF16 then 11 else 13
    ensures KindFormat(kind) ==
            if kind in {KindInt8, KindInt16, KindInt32, KindInt64} then 2
            else if kind == KindBool then 7
            else if kind in {KindFloat32, KindFloat64} then 8
            else if kind == KindUUID then 15 else if kind == KindPort then 16
            else if kind in {KindIPv4, KindIPv6} then 17 else 0
    ensures MinimumValueSize(pointer64, kind) ==
            if KindEncoding(pointer64, kind) in {10, 11, 13} then 2
            else |WireElem(Little, KindEncoding(pointer64, kind), seq(FixedWidth(KindEncoding(pointer64, kind)), _ => 0))|
  {
  }
}
