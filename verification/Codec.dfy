/** The codec law: decoding inverts encoding on whole events, items and trees. */
module Codec {
  import opened Wire
  import opened Format
  import opened Names
  import opened Parser
  import opened MetadataInverse
  import opened EventParser
  import opened EventInverse
  import opened WireValue
  import opened Walk
  import opened Enumeration
  import opened Decode

  // ------------------------------------------- what the decoder must give back

  function SimplesOf(encoding: byte, format: byte, elems: seq<Bytes>): seq<Value> {
    if elems == [] then [] else [Simple(elems[0], encoding, format)] + SimplesOf(encoding, format, elems[1..])
  }

  /** Bytes in front of the content of one value. */
  function LengthPrefix(encoding: byte): nat { if Counted(encoding) then 2 else 0 }

  /** The field of a node whose payload stands at event offset `at`. */
  function FieldOf(order: ByteOrder, n: Node, at: nat): FieldValue
    requires ValidNode(n)
    decreases n, 0
  {
    match n
    case Leaf(name, encoding, format, _, kind, elems) =>
      if kind.Scalar? then FieldValue(name, Simple(elems[0], encoding, format), at + LengthPrefix(encoding))
      else FieldValue(name, Sequence(Payload(order, n), encoding, format, SimplesOf(encoding, format, elems)), at)
    case Struct(name, _, children) =>
      FieldValue(name, Group(ForestPayload(order, children), ENCODING_STRUCT, |children|, FieldsOf(order, children, at)), at)
  }

  function FieldsOf(order: ByteOrder, ns: seq<Node>, at: nat): seq<FieldValue>
    requires ValidForest(ns)
    decreases ns, 1
  {
    if ns == [] then []
    else [FieldOf(order, ns[0], at)] + FieldsOf(order, ns[1..], at + |Payload(order, ns[0])|)
  }

  /** The items of a node; `d` is its definition and `at` its event offset. */
  function NodeItems(order: ByteOrder, n: Node, depth: nat, at: nat): seq<Item>
    requires ValidNode(n)
    decreases n, 0
  {
    match n
    case Leaf(name, encoding, format, tag, kind, elems) =>
      if kind.Scalar? then ElemItems(order, n, depth, elems, -1, at)
      else
        var begin := Item(ArrayBegin, name, encoding, format, tag, kind, |elems|, -1, depth, at, []);
        [begin] + ElemItems(order, n, depth, elems, 0, at + if kind.Variable? then 2 else 0)
        + [begin.(state := ArrayEnd, raw := Payload(order, n))]
    case Struct(name, tag, children) =>
      var begin := Item(StructBegin, name, ENCODING_STRUCT, |children|, tag, Scalar, 0, -1, depth, at, []);
      [begin] + ForestItems(order, children, depth + 1, at)
      + [begin.(state := StructEnd, raw := ForestPayload(order, children))]
  }

  function ElemItems(order: ByteOrder, n: Node, depth: nat, elems: seq<Bytes>, index: int, at: nat): seq<Item>
    requires n.Leaf? && ValidElems(n.encoding, elems)
    decreases n, 0, |elems|
  {
    if elems == [] then []
    else
      [Item(ValueItem, n.name, n.encoding, n.format, n.tag, Scalar, 0, index, depth, at + LengthPrefix(n.encoding), elems[0])]
      + ElemItems(order, n, depth, elems[1..], index + 1, at + |WireElem(order, n.encoding, elems[0])|)
  }

  function ForestItems(order: ByteOrder, ns: seq<Node>, depth: nat, at: nat): seq<Item>
    requires ValidForest(ns)
    decreases ns, 1
  {
    if ns == [] then []
    else NodeItems(order, ns[0], depth, at) + ForestItems(order, ns[1..], depth, at + |Payload(order, ns[0])|)
  }

  // ------------------------------------------------------------- inverse law

  /** One value of a leaf. */
  lemma ElemBack(s: Source, d: Def, n: Node, index: int, pos: nat, raw: Bytes)
    requires n.Leaf? && Writable(n.encoding) && ValidElem(n.encoding, raw)
    requires d.name == n.name && d.encoding == n.encoding && d.format == n.format && d.tag == n.tag
    requires At(s.payload, pos, WireElem(s.order, n.encoding, raw))
    ensures pos + |WireElem(s.order, n.encoding, raw)| <= |s.payload|
    ensures var next := pos + |WireElem(s.order, n.encoding, raw)|;
            var at := s.base + pos + LengthPrefix(n.encoding);
            && WalkScalar(s, d, index, pos)
               == Walked([Item(ValueItem, n.name, n.encoding, n.format, n.tag, Scalar, 0, index, d.depth, at, raw)], Ok(next))
            && ReadScalar(s, d, pos) == Ok(Read(FieldValue(n.name, Simple(raw, n.encoding, n.format), at), next))
  {
    hide ReadWireValue, WireElem;
    ReadBack(s.order, n.encoding, s.payload, pos, raw);
  }

  lemma {:induction false} ElemsBack(s: Source, d: Def, n: Node, elems: seq<Bytes>, index: nat, pos: nat)
    requires n.Leaf? && Writable(n.encoding) && ValidElems(n.encoding, elems)
    requires d.name == n.name && d.encoding == n.encoding && d.format == n.format && d.tag == n.tag
    requires At(s.payload, pos, WireElems(s.order, n.encoding, elems))
    ensures var next := pos + |WireElems(s.order, n.encoding, elems)|;
            && WalkElems(s, d, |elems|, index, pos) == Walked(ElemItems(s.order, n, d.depth, elems, index, s.base + pos), Ok(next))
            && ReadElems(s, d, |elems|, pos) == Ok(Read(SimplesOf(n.encoding, n.format, elems), next))
    decreases |elems|
  {
    hide WalkScalar, ReadScalar, WireElem;
    if elems != [] {
      var first := WireElem(s.order, n.encoding, elems[0]);
      AtConcat(s.payload, pos, first, WireElems(s.order, n.encoding, elems[1..]));
      ElemBack(s, d, n, index, pos, elems[0]);
      ElemsBack(s, d, n, elems[1..], index + 1, pos + |first|);
    }
  }

  ghost predicate Back(s: Source, d: Def, n: Node, pos: nat)
    requires ValidNode(n) && pos <= |s.payload|
  {
    var next := pos + |Payload(s.order, n)|;
    && WalkField(s, d, -1, pos) == Walked(NodeItems(s.order, n, d.depth, s.base + pos), Ok(next))
    && ReadField(s, d, pos) == Ok(Read(FieldOf(s.order, n, s.base + pos), next))
  }

  lemma ScalarBack(s: Source, n: Node, depth: nat, offset: nat, pos: nat)
    requires ValidNode(n) && n.Leaf? && n.kind.Scalar? && At(s.payload, pos, Payload(s.order, n))
    ensures Back(s, DefOf(s.order, n, depth, offset), n, pos)
  {
    hide WalkScalar, ReadScalar, WireElem;
    var d, raw := DefOf(s.order, n, depth, offset), n.elems[0];
    assert n.elems == [raw] && n.elems[1..] == [];
    assert Payload(s.order, n) == WireElem(s.order, n.encoding, raw) by {
      var w := WireElem(s.order, n.encoding, raw);
      assert WireElems(s.order, n.encoding, n.elems[1..]) == [];
      assert [] + (w + []) == w;
    }
    ElemBack(s, d, n, -1, pos, raw);
    var at := s.base + pos;
    assert ElemItems(s.order, n, depth, n.elems[1..], 0, at + |WireElem(s.order, n.encoding, raw)|) == [];
  }

  lemma ArrayBack(s: Source, n: Node, depth: nat, offset: nat, pos: nat)
    requires ValidNode(n) && n.Leaf? && !n.kind.Scalar? && At(s.payload, pos, Payload(s.order, n))
    ensures Back(s, DefOf(s.order, n, depth, offset), n, pos)
  {
    hide WalkElems, ReadElems, ElemItems, WireElems, SimplesOf;
    var d := DefOf(s.order, n, depth, offset);
    var count := if n.kind.Variable? then Put16(s.order, |n.elems|) else [];
    AtConcat(s.payload, pos, count, WireElems(s.order, n.encoding, n.elems));
    if n.kind.Variable? {
      Get16At(s.order, s.payload, pos, |n.elems|);
    }
    ElemsBack(s, d, n, n.elems, 0, pos + |count|);
    assert ReadCount(s, d, pos) == Ok((pos + |count|, |n.elems|));
    assert Slice(s, pos, pos + |Payload(s.order, n)|) == Payload(s.order, n);
  }

  lemma StructBack(s: Source, n: Node, d: Def, pos: nat)
    requires ValidNode(n) && n.Struct? && pos + |Payload(s.order, n)| <= |s.payload|
    requires d.name == n.name && d.encoding == ENCODING_STRUCT && d.format == |n.children| && d.tag == n.tag && d.kind.Scalar?
    requires var next := pos + |ForestPayload(s.order, n.children)|;
             && WalkFields(s, d.children, pos) == Walked(ForestItems(s.order, n.children, d.depth + 1, s.base + pos), Ok(next))
             && ReadFields(s, d.children, pos) == Ok(Read(FieldsOf(s.order, n.children, s.base + pos), next))
             && Slice(s, pos, next) == ForestPayload(s.order, n.children)
    ensures Back(s, d, n, pos)
  {
    hide WalkFields, ReadFields, ForestItems, FieldsOf, ForestPayload, ReadWireValue;
    var next := pos + |ForestPayload(s.order, n.children)|;
    assert d.(kind := Scalar) == d;
    assert WalkField(s, d, -1, pos) == WalkScalar(s, d, -1, pos);
    var begin := ItemOf(s, StructBegin, d, pos, [], 0, -1);
    assert WalkScalar(s, d, -1, pos) == Bracket(s, begin, StructEnd, pos, WalkFields(s, d.children, pos));
    assert begin == Item(StructBegin, n.name, ENCODING_STRUCT, |n.children|, n.tag, Scalar, 0, -1, d.depth, s.base + pos, []);
    assert NodeItems(s.order, n, d.depth, s.base + pos)
        == [begin] + ForestItems(s.order, n.children, d.depth + 1, s.base + pos)
           + [begin.(state := StructEnd, raw := ForestPayload(s.order, n.children))];
    assert Payload(s.order, n) == ForestPayload(s.order, n.children);
    assert ReadField(s, d, pos) == ReadScalar(s, d, pos);
    assert ReadScalar(s, d, pos) == Ok(Read(FieldOf(s.order, n, s.base + pos), next));
  }

  lemma {:induction false} NodeBack(s: Source, n: Node, depth: nat, offset: nat, pos: nat)
    requires ValidNode(n) && At(s.payload, pos, Payload(s.order, n))
    ensures Back(s, DefOf(s.order, n, depth, offset), n, pos)
    decreases n, 0
  {
    match n
    case Leaf(_, _, _, _, kind, _) =>
      if kind.Scalar? {
        ScalarBack(s, n, depth, offset, pos);
      } else {
        ArrayBack(s, n, depth, offset, pos);
      }
    case Struct(name, tag, children) =>
      hide WalkFields, ReadFields, ForestItems, FieldsOf, ForestPayload, DefsOf, ReadWireValue, StructHead;
      var d := DefOf(s.order, n, depth, offset);
      ForestBack(s, children, depth + 1, offset + |StructHead(s.order, name, tag, |children|)|, pos);
      assert Slice(s, pos, pos + |ForestPayload(s.order, children)|) == ForestPayload(s.order, children);
      StructBack(s, n, d, pos);
  }

  /** One field and then the others. */
  lemma FieldsStep(s: Source, ds: seq<Def>, pos: nat, items: seq<Item>, field: FieldValue, mid: nat,
                   others: seq<Item>, fields: seq<FieldValue>, next: nat)
    requires ds != [] && pos <= |s.payload| && mid <= |s.payload|
    requires WalkField(s, ds[0], -1, pos) == Walked(items, Ok(mid)) && ReadField(s, ds[0], pos) == Ok(Read(field, mid))
    requires WalkFields(s, ds[1..], mid) == Walked(others, Ok(next)) && ReadFields(s, ds[1..], mid) == Ok(Read(fields, next))
    ensures WalkFields(s, ds, pos) == Walked(items + others, Ok(next))
    ensures ReadFields(s, ds, pos) == Ok(Read([field] + fields, next))
  {
    hide WalkField, ReadField;
  }

  lemma {:induction false} ForestBack(s: Source, ns: seq<Node>, depth: nat, offset: nat, pos: nat)
    requires ValidForest(ns) && At(s.payload, pos, ForestPayload(s.order, ns))
    ensures var ds := DefsOf(s.order, ns, depth, offset);
            var next := pos + |ForestPayload(s.order, ns)|;
            && WalkFields(s, ds, pos) == Walked(ForestItems(s.order, ns, depth, s.base + pos), Ok(next))
            && ReadFields(s, ds, pos) == Ok(Read(FieldsOf(s.order, ns, s.base + pos), next))
    decreases ns, 1
  {
    hide Payload, Meta, WalkField, ReadField, NodeItems, FieldOf, ValidNode;
    if ns != [] {
      var n := ns[0];
      var rest := offset + |Meta(s.order, n)|;
      AtConcat(s.payload, pos, Payload(s.order, n), ForestPayload(s.order, ns[1..]));
      NodeBack(s, n, depth, offset, pos);
      DefDepth(s.order, n, depth, offset);
      ForestBack(s, ns[1..], depth, rest, pos + |Payload(s.order, n)|);
      var ds := DefsOf(s.order, ns, depth, offset);
      assert ds[0] == DefOf(s.order, n, depth, offset) && ds[1..] == DefsOf(s.order, ns[1..], depth, rest);
      hide WalkFields, ReadFields, DefsOf, DefOf;
      var mid := pos + |Payload(s.order, n)|;
      FieldsStep(s, ds, pos, NodeItems(s.order, n, depth, s.base + pos), FieldOf(s.order, n, s.base + pos), mid,
                 ForestItems(s.order, ns[1..], depth, s.base + mid), FieldsOf(s.order, ns[1..], s.base + mid),
                 mid + |ForestPayload(s.order, ns[1..])|);
    }
  }

  lemma DefDepth(order: ByteOrder, n: Node, depth: nat, offset: nat)
    requires ValidNode(n)
    ensures DefOf(order, n, depth, offset).depth == depth
  {
  }

  /** The record the decoder must produce for an encoded event. */
  function RecordOf(trace: TraceName, h: Header, name: Bytes, fields: seq<Node>): Record
    requires Encodable(h.order, name, fields)
  {
    Record(InfoOf(trace, h, name, fields), FieldsOf(h.order, fields, PayloadOffset(h, name, fields)), [])
  }

  function EventItems(h: Header, name: Bytes, fields: seq<Node>): seq<Item>
    requires Encodable(h.order, name, fields)
  {
    ForestItems(h.order, fields, 0, PayloadOffset(h, name, fields))
  }

  /** The iterator gives exactly the items of the tree that was encoded. */
  lemma WalkEncoded(trace: TraceName, h: Header, name: Bytes, fields: seq<Node>)
    requires ValidHeader(h) && Encodable(h.order, name, fields)
    ensures var e := ParsedOf(trace, h, name, fields);
            && WalkFields(SourceOf(e), e.fields, 0) == Walked(EventItems(h, name, fields), Ok(|e.payload|))
            && ReadFields(SourceOf(e), e.fields, 0) == Ok(Read(RecordOf(trace, h, name, fields).fields, |e.payload|))
  {
    hide WalkFields, ReadFields, ForestItems, FieldsOf, PayloadOffset, DefsOf, ForestPayload;
    var e := ParsedOf(trace, h, name, fields);
    assert At(e.payload, 0, ForestPayload(h.order, fields));
    ForestBack(SourceOf(e), fields, 0, |name| + 1, 0);
  }

  /** Decoding an encoded event, in either byte order, gives back its header,
      activity IDs, name, tree and values with nothing left over, whenever the
      decoder's limits admit the event; otherwise it reports the limit. */
  lemma DecodeEncoded(raw: Limits, tracepoint: Bytes, h: Header, name: Bytes, fields: seq<Node>)
    requires ValidHeader(h) && Encodable(h.order, name, fields) && ValidLimits(Normalized(raw))
    requires ParseTracepointName(tracepoint).Ok? && ParseTracepointName(tracepoint).value.level == h.level
    ensures var r := DecodeEvent(raw, tracepoint, EncodeEvent(h, name, fields));
            if Admits(Normalized(raw), h, name, fields) && |EventItems(h, name, fields)| <= Normalized(raw).maxTransitions
            then r == Ok(RecordOf(ParseTracepointName(tracepoint).value, h, name, fields))
            else r.Err? && r.error.kind == Limit
  {
    hide ParseEvent, ParseTracepointName, WalkFields, ReadFields, EncodeEvent, Admits, Encodable, RecordOf, EventItems, ValidLimits, Normalized;
    ParseEncoded(raw, tracepoint, h, name, fields);
    var trace := ParseTracepointName(tracepoint).value;
    WalkEncoded(trace, h, name, fields);
    RecordParts(trace, h, name, fields);
    LimitsPositive(raw);
  }

  lemma LimitsPositive(raw: Limits)
    requires ValidLimits(Normalized(raw))
    ensures Normalized(raw).maxTransitions > 0
  {
  }

  lemma RecordParts(trace: TraceName, h: Header, name: Bytes, fields: seq<Node>)
    requires Encodable(h.order, name, fields)
    ensures RecordOf(trace, h, name, fields).info == ParsedOf(trace, h, name, fields).info
    ensures RecordOf(trace, h, name, fields).diagnostics == []
  {
  }

  /** Every field gives at least one item. */
  lemma {:induction false} ItemsOfNode(order: ByteOrder, n: Node, depth: nat, at: nat)
    requires ValidNode(n)
    ensures |NodeItems(order, n, depth, at)| >= Size(n)
    decreases n, 0
  {
    match n
    case Leaf(_, _, _, _, kind, elems) =>
      if kind.Scalar? {
        assert elems != [];
      }
    case Struct(name, tag, children) =>
      hide ForestItems, ForestSize, ForestPayload;
      ItemsOfForest(order, children, depth + 1, at);
  }

  lemma {:induction false} ItemsOfForest(order: ByteOrder, ns: seq<Node>, depth: nat, at: nat)
    requires ValidForest(ns)
    ensures |ForestItems(order, ns, depth, at)| >= ForestSize(ns)
    decreases ns, 1
  {
    hide NodeItems, Payload, Size;
    if ns != [] {
      ItemsOfNode(order, ns[0], depth, at);
      ItemsOfForest(order, ns[1..], depth, at + |Payload(order, ns[0])|);
    }
  }
}
