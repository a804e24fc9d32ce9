/** The metadata parser inverts the encoder: it finds exactly the definitions of
    the tree that was written, or stops at a limit exactly when the tree exceeds
    one. */
module MetadataInverse {
  import opened Wire
  import opened Format
  import opened Names
  import opened Parser

  lemma IndexOfTerminator(data: Bytes, pos: nat, name: Bytes)
    requires At(data, pos, name + [0]) && 0 !in name
    ensures pos <= |data| && IndexOf(data, pos, 0) == Some(pos + |name|)
    ensures data[pos..pos + |name|] == name
  {
    AtConcat(data, pos, name, [0]);
    AtIndex(data, pos, name + [0], |name|);
    assert data[pos..pos + |name|] == name;
    IndexSkips(data, pos, pos + |name|, 0);
  }

  lemma {:induction false} IndexSkips(data: Bytes, pos: nat, stop: nat, value: byte)
    requires pos <= stop <= |data| && value !in data[pos..stop]
    ensures IndexOf(data, pos, value) == IndexOf(data, stop, value)
    decreases stop - pos
  {
    if pos < stop {
      assert data[pos] == data[pos..stop][0];
      assert forall i :: pos + 1 <= i < stop ==> data[i] == data[pos..stop][i - pos];
      IndexSkips(data, pos + 1, stop, value);
    }
  }

  lemma FormatOf(p: ParserInput, pos: nat, encoded: byte, low: byte, tag: u16)
    requires low < CHAIN_FLAG && encoded >= CHAIN_FLAG
    requires At(p.data, pos, FormatBytes(p.order, low, tag))
    ensures ParseFormat(p, encoded, pos) == Ok(Decoration(low, tag, pos + |FormatBytes(p.order, low, tag)|))
  {
    var first := if tag != 0 then low + CHAIN_FLAG else low;
    AtConcat(p.data, pos, [first], TagBytes(p.order, tag));
    AtIndex(p.data, pos, [first], 0);
    if tag != 0 {
      Get16At(p.order, p.data, pos + 1, tag);
    }
  }

  lemma FormatAbsent(p: ParserInput, pos: nat, encoded: byte)
    requires encoded < CHAIN_FLAG && pos <= |p.data|
    ensures ParseFormat(p, encoded, pos) == Ok(Decoration(0, 0, pos))
  {
  }

  lemma FlagsOf(encoding: byte, kind: ArrayKind, chained: bool)
    requires encoding < 0x20
    ensures var encoded := encoding + KindFlag(kind) + if chained then CHAIN_FLAG else 0;
            && 0 <= encoded < 0x100
            && encoded % 0x20 == encoding
            && (encoded / ENCODING_CARRAY_FLAG % 2 == 1 <==> kind.Fixed?)
            && (encoded / ENCODING_VARRAY_FLAG % 2 == 1 <==> kind.Variable?)
            && (encoded >= CHAIN_FLAG <==> chained)
  {
  }

  /** Once the name is read, the rest of a definition follows its encoding byte. */
  lemma HeadAfterName(p: ParserInput, start: nat, depth: nat, name: Bytes, encoded: byte)
    requires ValidName(name) && At(p.data, start, name + [0, encoded])
    requires 0 < encoded % 0x20 <= ENCODING_BINARY
    requires !(encoded / ENCODING_CARRAY_FLAG % 2 == 1 && encoded / ENCODING_VARRAY_FLAG % 2 == 1)
    ensures start + |name| + 2 <= |p.data|
    ensures ParseHead(p, start, depth) ==
            match ParseFormat(p, encoded, start + |name| + 2)
            case Err(e) => Err(e)
            case Ok(d) => ParseCount(p, start, depth, name, encoded, d)
  {
    assert name + [0, encoded] == name + [0] + [encoded];
    AtConcat(p.data, start, name + [0], [encoded]);
    IndexOfTerminator(p.data, start, name);
    AtIndex(p.data, start + |name| + 1, [encoded], 0);
  }

  lemma HeadOfStruct(p: ParserInput, pos: nat, depth: nat, name: Bytes, tag: u16, count: nat)
    requires ValidName(name) && count < CHAIN_FLAG
    requires At(p.data, pos, StructHead(p.order, name, tag, count))
    ensures ParseHead(p, pos, depth) ==
            Ok(Head(Def(name, ENCODING_STRUCT, count, tag, Scalar, 0, depth, pos, []),
                    pos + |StructHead(p.order, name, tag, count)|, true))
  {
    var encoded := ENCODING_STRUCT + CHAIN_FLAG;
    hide ParseHead;
    AtConcat(p.data, pos, name + [0, encoded], FormatBytes(p.order, count, tag));
    HeadAfterName(p, pos, depth, name, encoded);
    FormatOf(p, pos + |name| + 2, encoded, count, tag);
  }

  lemma CountOf(p: ParserInput, pos: nat, depth: nat, n: Node, encoded: byte, d: Decoration)
    requires n.Leaf? && ValidLeaf(n) && pos < d.next <= |p.data|
    requires encoded == n.encoding + KindFlag(n.kind) + if n.format != 0 || n.tag != 0 then CHAIN_FLAG else 0
    requires d.format == n.format && d.tag == n.tag
    requires n.kind.Fixed? ==> At(p.data, d.next, Put16(p.order, |n.elems|))
    ensures ParseCount(p, pos, depth, n.name, encoded, d) ==
            Ok(Head(DefOf(p.order, n, depth, pos), d.next + if n.kind.Fixed? then 2 else 0, encoded >= CHAIN_FLAG))
  {
    FlagsOf(n.encoding, n.kind, n.format != 0 || n.tag != 0);
    if n.kind.Fixed? {
      Get16At(p.order, p.data, d.next, |n.elems|);
    }
  }

  function LeafByte(n: Node): byte
    requires n.Leaf? && ValidLeaf(n)
  {
    n.encoding + KindFlag(n.kind) + if n.format != 0 || n.tag != 0 then CHAIN_FLAG else 0
  }

  function LeafFormat(order: ByteOrder, n: Node): Bytes
    requires n.Leaf? && ValidLeaf(n)
  {
    if n.format != 0 || n.tag != 0 then FormatBytes(order, n.format, n.tag) else []
  }

  function LeafCount(order: ByteOrder, n: Node): Bytes
    requires n.Leaf? && ValidLeaf(n)
  {
    if n.kind.Fixed? then Put16(order, |n.elems|) else []
  }

  lemma LeafMetaParts(order: ByteOrder, n: Node)
    requires n.Leaf? && ValidLeaf(n)
    ensures LeafMeta(order, n) == n.name + [0, LeafByte(n)] + (LeafFormat(order, n) + LeafCount(order, n))
  {
    hide FormatBytes, Put16;
    var encoded := n.encoding + KindFlag(n.kind);
    assert [0] + [LeafByte(n)] == [0, LeafByte(n)];
    assert [LeafByte(n)] + LeafFormat(order, n)
        == if n.format != 0 || n.tag != 0 then [encoded + CHAIN_FLAG] + FormatBytes(order, n.format, n.tag) else [encoded];
  }

  lemma DecorationOf(p: ParserInput, pos: nat, n: Node)
    requires n.Leaf? && ValidLeaf(n) && At(p.data, pos, LeafFormat(p.order, n))
    ensures ParseFormat(p, LeafByte(n), pos) == Ok(Decoration(n.format, n.tag, pos + |LeafFormat(p.order, n)|))
  {
    hide ParseFormat, FormatBytes;
    FlagsOf(n.encoding, n.kind, n.format != 0 || n.tag != 0);
    if n.format != 0 || n.tag != 0 {
      FormatOf(p, pos, LeafByte(n), n.format, n.tag);
    } else {
      FormatAbsent(p, pos, LeafByte(n));
    }
  }

  lemma HeadOfLeaf(p: ParserInput, pos: nat, depth: nat, n: Node)
    requires n.Leaf? && ValidLeaf(n)
    requires At(p.data, pos, LeafMeta(p.order, n))
    ensures ParseHead(p, pos, depth) ==
            Ok(Head(DefOf(p.order, n, depth, pos), pos + |LeafMeta(p.order, n)|, n.format != 0 || n.tag != 0))
  {
    hide ParseHead, ParseFormat, ParseCount, DefOf, LeafMeta, LeafFormat;
    LeafMetaParts(p.order, n);
    AtConcat(p.data, pos, n.name + [0, LeafByte(n)], LeafFormat(p.order, n) + LeafCount(p.order, n));
    var at := pos + |n.name| + 2;
    AtConcat(p.data, at, LeafFormat(p.order, n), LeafCount(p.order, n));
    FlagsOf(n.encoding, n.kind, n.format != 0 || n.tag != 0);
    HeadAfterName(p, pos, depth, n.name, LeafByte(n));
    DecorationOf(p, at, n);
    CountOf(p, pos, depth, n, LeafByte(n), Decoration(n.format, n.tag, at + |LeafFormat(p.order, n)|));
  }

  // --------------------------------------------------------------- whole trees

  /** The tree keeps within the parser's item and depth limits. */
  predicate Fits(p: ParserInput, items: nat, depth: nat, size: nat, height: nat) {
    items + size <= p.maxItems && depth + height <= p.maxDepth
  }

  lemma {:induction false} ParseNode(p: ParserInput, pos: nat, items: nat, depth: nat, n: Node)
    requires ValidNode(n) && At(p.data, pos, Meta(p.order, n)) && depth <= p.maxDepth
    ensures var r := ParseField(p, pos, items, depth);
            if Fits(p, items, depth, Size(n), Height(n))
            then r == Ok(Parsed(DefOf(p.order, n, depth, pos), pos + |Meta(p.order, n)|, items + Size(n)))
            else r.Err? && r.error.kind == Limit
    decreases n, 0
  {
    hide ParseHead, LeafMeta, StructHead;
    match n
    case Leaf(_, _, _, _, _, _) =>
      HeadOfLeaf(p, pos, depth, n);
    case Struct(name, tag, children) =>
      var head := StructHead(p.order, name, tag, |children|);
      AtConcat(p.data, pos, head, ForestMeta(p.order, children));
      HeadOfStruct(p, pos, depth, name, tag, |children|);
      if items < p.maxItems && depth + 1 <= p.maxDepth {
        ParseForest(p, pos + |head|, items + 1, depth + 1, children);
      }
  }

  lemma {:induction false} ParseForest(p: ParserInput, pos: nat, items: nat, depth: nat, ns: seq<Node>)
    requires ValidForest(ns) && At(p.data, pos, ForestMeta(p.order, ns)) && depth <= p.maxDepth
    requires items <= p.maxItems
    ensures var r := ParseChildren(p, pos, items, depth, |ns|);
            if Fits(p, items, depth, ForestSize(ns), ForestHeight(ns))
            then r == Ok(Parsed(DefsOf(p.order, ns, depth, pos), pos + |ForestMeta(p.order, ns)|, items + ForestSize(ns)))
            else r.Err? && r.error.kind == Limit
    decreases ns, 1
  {
    hide ParseHead, LeafMeta, StructHead, Meta, ParseField, DefOf, Size, Height, ValidNode;
    if ns != [] {
      var n, rest := ns[0], ns[1..];
      AtConcat(p.data, pos, Meta(p.order, n), ForestMeta(p.order, rest));
      MetaNonempty(p.order, n);
      ParseNode(p, pos, items, depth, n);
      if Fits(p, items, depth, Size(n), Height(n)) {
        ParseForest(p, pos + |Meta(p.order, n)|, items + Size(n), depth, rest);
      }
    }
  }

  lemma MetaNonempty(order: ByteOrder, n: Node)
    requires ValidNode(n)
    ensures |Meta(order, n)| > 0
  {
  }

  /** The whole metadata after the event name. */
  lemma {:induction false} ParseWhole(p: ParserInput, pos: nat, items: nat, ns: seq<Node>)
    requires ValidForest(ns) && At(p.data, pos, ForestMeta(p.order, ns))
    requires pos + |ForestMeta(p.order, ns)| == |p.data|
    requires items <= p.maxItems && 0 <= p.maxDepth
    ensures var r := ParseTop(p, pos, items);
            if Fits(p, items, 0, ForestSize(ns), ForestHeight(ns))
            then r == Ok(Parsed(DefsOf(p.order, ns, 0, pos), |p.data|, items + ForestSize(ns)))
            else r.Err? && r.error.kind == Limit
    decreases |ns|
  {
    hide ParseHead, LeafMeta, StructHead, Meta, ParseField, DefOf, Size, Height, ValidNode;
    if ns != [] {
      var n, rest := ns[0], ns[1..];
      AtConcat(p.data, pos, Meta(p.order, n), ForestMeta(p.order, rest));
      MetaNonempty(p.order, n);
      ParseNode(p, pos, items, 0, n);
      if Fits(p, items, 0, Size(n), Height(n)) {
        ParseWhole(p, pos + |Meta(p.order, n)|, items + Size(n), rest);
      }
    }
  }
}
