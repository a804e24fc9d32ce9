/** The decoder's first half: limits, header, extension chain and metadata.
    Each parser is a class or a method over positions, proved against a function
    of the input bytes; the functions carry the inverse laws. */
module Parser {
  import opened Wire
  import opened Format
  import opened Names

  // ------------------------------------------------------------------ limits

  datatype Limits = Limits(
    maxEventSize: int, maxMetadataSize: int, maxPayloadSize: int,
    maxDepth: int, maxItems: int, maxTransitions: int)

  /** Zero fields select the documented defaults. */
  function Normalized(l: Limits): Limits {
    Limits(
      if l.maxEventSize == 0 then 0x100_0000 else l.maxEventSize,
      if l.maxMetadataSize == 0 then 0x1_0000 else l.maxMetadataSize,
      if l.maxPayloadSize == 0 then 0x100_0000 else l.maxPayloadSize,
      if l.maxDepth == 0 then 8 else l.maxDepth,
      if l.maxItems == 0 then 4096 else l.maxItems,
      if l.maxTransitions == 0 then 4096 else l.maxTransitions)
  }

  predicate ValidLimits(l: Limits) {
    && l.maxEventSize > 0 && l.maxMetadataSize > 0 && l.maxPayloadSize > 0
    && 0 < l.maxDepth <= 8 && l.maxItems > 0 && l.maxTransitions > 0
  }

  /** Every raw setting: a negative field or a depth beyond 8 is refused, and what is
      accepted is what was asked for or the documented default. */
  lemma LimitsMeant(l: Limits)
    ensures ValidLimits(Normalized(l)) <==>
            && l.maxEventSize >= 0 && l.maxMetadataSize >= 0 && l.maxPayloadSize >= 0
            && 0 <= l.maxDepth <= 8 && l.maxItems >= 0 && l.maxTransitions >= 0
    ensures l.maxEventSize != 0 ==> Normalized(l).maxEventSize == l.maxEventSize
    ensures l.maxMetadataSize != 0 ==> Normalized(l).maxMetadataSize == l.maxMetadataSize
    ensures l.maxPayloadSize != 0 ==> Normalized(l).maxPayloadSize == l.maxPayloadSize
    ensures l.maxDepth != 0 ==> Normalized(l).maxDepth == l.maxDepth
    ensures l.maxItems != 0 ==> Normalized(l).maxItems == l.maxItems
    ensures l.maxTransitions != 0 ==> Normalized(l).maxTransitions == l.maxTransitions
    ensures l.maxEventSize == 0 ==> Normalized(l).maxEventSize == 16777216
    ensures l.maxMetadataSize == 0 ==> Normalized(l).maxMetadataSize == 65536
    ensures l.maxPayloadSize == 0 ==> Normalized(l).maxPayloadSize == 16777216
    ensures l.maxDepth == 0 ==> Normalized(l).maxDepth == 8
    ensures l.maxItems == 0 ==> Normalized(l).maxItems == 4096
    ensures l.maxTransitions == 0 ==> Normalized(l).maxTransitions == 4096
  {
  }

  // ------------------------------------------------------------- definitions

  /** A field as the metadata describes it; `offset` is within the metadata. */
  datatype Def = Def(
    name: Bytes, encoding: byte, format: byte, tag: u16, kind: ArrayKind, count: u16,
    depth: nat, offset: nat, children: seq<Def>)

  /** The definition the parser must find for a node written at `offset`. */
  function DefOf(order: ByteOrder, n: Node, depth: nat, offset: nat): Def
    requires ValidNode(n)
    decreases n, 0
  {
    match n
    case Leaf(name, encoding, format, tag, kind, elems) =>
      Def(name, encoding, format, tag, kind, if kind.Fixed? then |elems| else 0, depth, offset, [])
    case Struct(name, tag, children) =>
      Def(name, ENCODING_STRUCT, |children|, tag, Scalar, 0, depth, offset,
          DefsOf(order, children, depth + 1, offset + |StructHead(order, name, tag, |children|)|))
  }

  function DefsOf(order: ByteOrder, ns: seq<Node>, depth: nat, offset: nat): (r: seq<Def>)
    requires ValidForest(ns)
    ensures |r| == |ns|
    decreases ns, 1
  {
    if ns == [] then []
    else [DefOf(order, ns[0], depth, offset)] + DefsOf(order, ns[1..], depth, offset + |Meta(order, ns[0])|)
  }

  // --------------------------------------------------------- metadata parser

  datatype ParserInput = ParserInput(data: Bytes, order: ByteOrder, maxDepth: int, maxItems: int)

  /** A parse result with the position and the item count after it. */
  datatype Parsed<+T> = Parsed(value: T, pos: nat, items: nat)

  /** A definition without its children; `chained` says a format byte was present. */
  datatype Head = Head(def: Def, next: nat, chained: bool)

  /** Format and tag with the position after them. */
  datatype Decoration = Decoration(format: byte, tag: u16, next: nat)

  function ParseFormat(p: ParserInput, encoded: byte, pos: nat): (r: Result<Decoration, DecodeError>)
    requires pos <= |p.data|
    ensures r.Ok? ==> pos <= r.value.next <= |p.data|
  {
    if encoded < CHAIN_FLAG then Ok(Decoration(0, 0, pos))
    else if pos >= |p.data| then Err(DecodeError(pos, Truncated))
    else if p.data[pos] < CHAIN_FLAG then Ok(Decoration(p.data[pos], 0, pos + 1))
    else if |p.data| - (pos + 1) < 2 then Err(DecodeError(pos + 1, Truncated))
    else Ok(Decoration(p.data[pos] - CHAIN_FLAG, Get16(p.order, p.data, pos + 1), pos + 3))
  }

  function ParseHead(p: ParserInput, start: nat, depth: nat): (r: Result<Head, DecodeError>)
    requires start <= |p.data|
    ensures r.Ok? ==> start < r.value.next <= |p.data|
  {
    match IndexOf(p.data, start, 0)
    case None => Err(DecodeError(start, Truncated))
    case Some(nul) =>
      var name := p.data[start..nul];
      if name == [] then Err(DecodeError(start, Invalid))
      else if SEMICOLON in name then Err(DecodeError(start, Invalid))
      else if nul + 1 >= |p.data| then Err(DecodeError(nul + 1, Truncated))
      else
        var encoded, at := p.data[nul + 1], nul + 1;
        var base := encoded % 0x20;
        var fixed, variable := encoded / ENCODING_CARRAY_FLAG % 2 == 1, encoded / ENCODING_VARRAY_FLAG % 2 == 1;
        if base == 0 then Err(DecodeError(at, Invalid))
        else if fixed && variable then Err(DecodeError(at, Invalid))
        else if base > ENCODING_BINARY then Err(DecodeError(at, Unsupported))
        else
          match ParseFormat(p, encoded, at + 1)
          case Err(e) => Err(e)
          case Ok(d) => ParseCount(p, start, depth, name, encoded, d)
  }

  /** The last part of a definition: the count of a fixed array. */
  function ParseCount(p: ParserInput, start: nat, depth: nat, name: Bytes, encoded: byte, d: Decoration)
    : (r: Result<Head, DecodeError>)
    requires start < d.next <= |p.data|
    ensures r.Ok? ==> start < r.value.next <= |p.data|
  {
    var base, chained, pos := encoded % 0x20, encoded >= CHAIN_FLAG, d.next;
    if encoded / ENCODING_CARRAY_FLAG % 2 == 1 then
      if |p.data| - pos < 2 then Err(DecodeError(pos, Truncated))
      else
        var count := Get16(p.order, p.data, pos);
        if count == 0 then Err(DecodeError(pos, Invalid))
        else Ok(Head(Def(name, base, d.format, d.tag, Fixed, count, depth, start, []), pos + 2, chained))
    else
      var kind := if encoded / ENCODING_VARRAY_FLAG % 2 == 1 then Variable else Scalar;
      Ok(Head(Def(name, base, d.format, d.tag, kind, 0, depth, start, []), pos, chained))
  }

  function ParseField(p: ParserInput, pos: nat, items: nat, depth: nat): (r: Result<Parsed<Def>, DecodeError>)
    requires pos <= |p.data|
    ensures r.Ok? ==> pos < r.value.pos <= |p.data|
    decreases |p.data| - pos, 0
  {
    if items >= p.maxItems then Err(DecodeError(pos, Limit))
    else
      match ParseHead(p, pos, depth)
      case Err(e) => Err(e)
      case Ok(h) =>
        if h.def.encoding != ENCODING_STRUCT then Ok(Parsed(h.def, h.next, items + 1))
        else if !h.chained then Err(DecodeError(pos, Invalid))
        else if h.def.format == 0 then Err(DecodeError(pos, Invalid))
        else if depth + 1 > p.maxDepth then Err(DecodeError(pos, Limit))
        else
          match ParseChildren(p, h.next, items + 1, depth + 1, h.def.format)
          case Err(e) => Err(e)
          case Ok(c) => Ok(Parsed(h.def.(children := c.value), c.pos, c.items))
  }

  /** At most `count` fields, fewer when the metadata ends first. */
  function ParseChildren(p: ParserInput, pos: nat, items: nat, depth: nat, count: nat)
    : (r: Result<Parsed<seq<Def>>, DecodeError>)
    requires pos <= |p.data|
    ensures r.Ok? ==> pos <= r.value.pos <= |p.data|
    decreases |p.data| - pos, 1
  {
    if count == 0 || pos == |p.data| then Ok(Parsed([], pos, items))
    else
      match ParseField(p, pos, items, depth)
      case Err(e) => Err(e)
      case Ok(f) => Prepend([f.value], ParseChildren(p, f.pos, f.items, depth, count - 1))
  }

  function ParseTop(p: ParserInput, pos: nat, items: nat): (r: Result<Parsed<seq<Def>>, DecodeError>)
    requires pos <= |p.data|
    ensures r.Ok? ==> r.value.pos == |p.data|
    decreases |p.data| - pos
  {
    if pos == |p.data| then Ok(Parsed([], pos, items))
    else
      match ParseField(p, pos, items, 0)
      case Err(e) => Err(e)
      case Ok(f) => Prepend([f.value], ParseTop(p, f.pos, f.items))
  }

  function Prepend(defs: seq<Def>, r: Result<Parsed<seq<Def>>, DecodeError>): (s: Result<Parsed<seq<Def>>, DecodeError>)
    ensures s.Ok? <==> r.Ok?
    ensures r.Ok? ==> s.value == Parsed(defs + r.value.value, r.value.pos, r.value.items)
    ensures r.Err? ==> s == r
    ensures defs == [] ==> s == r
    ensures r.Ok? && r.value.value == [] ==> s.value.value == defs
  {
    match r
    case Err(e) => Err(e)
    case Ok(v) =>
      assert defs == [] ==> defs + v.value == v.value;
      assert v.value == [] ==> defs + v.value == defs;
      Ok(Parsed(defs + v.value, v.pos, v.items))
  }

  lemma PrependTwice(a: seq<Def>, b: seq<Def>, r: Result<Parsed<seq<Def>>, DecodeError>)
    ensures Prepend(a, Prepend(b, r)) == Prepend(a + b, r)
  {
    if r.Ok? {
      assert a + (b + r.value.value) == a + b + r.value.value;
    }
  }

  /** `byteIndex` from position `pos` on. */
  method ByteIndex(data: Bytes, pos: nat, value: byte) returns (r: Option<nat>)
    requires pos <= |data|
    ensures r == IndexOf(data, pos, value)
  {
    var i := pos;
    while i < |data|
      invariant pos <= i <= |data|
      invariant IndexOf(data, i, value) == IndexOf(data, pos, value)
    {
      if data[i] == value {
        return Some(i);
      }
      i := i + 1;
    }
    return None;
  }

  class MetadataParser {
    const input: ParserInput
    var pos: nat
    var items: nat

    constructor (input: ParserInput, pos: nat)
      requires pos <= |input.data|
      ensures this.input == input && this.pos == pos && items == 0
    {
      this.input := input;
      this.pos := pos;
      items := 0;
    }

    method ParseTopFields() returns (r: Result<seq<Def>, DecodeError>)
      requires pos <= |input.data|
      modifies this
      ensures match ParseTop(input, old(pos), old(items))
              case Ok(v) => r == Ok(v.value) && pos == v.pos && items == v.items
              case Err(e) => r == Err(e)
    {
      var fields: seq<Def> := [];
      while pos < |input.data|
        invariant pos <= |input.data|
        invariant ParseTop(input, old(pos), old(items)) == Prepend(fields, ParseTop(input, pos, items))
      {
        ghost var pos0, items0 := pos, items;
        var field := ParseOne(0);
        if field.Err? {
          return Err(field.error);
        }
        PrependTwice(fields, [field.value], ParseTop(input, pos, items));
        fields := fields + [field.value];
      }
      return Ok(fields);
    }

    method ParseOne(depth: nat) returns (r: Result<Def, DecodeError>)
      requires pos <= |input.data|
      modifies this
      ensures pos <= |input.data|
      ensures match ParseField(input, old(pos), old(items), depth)
              case Ok(v) => r == Ok(v.value) && pos == v.pos && items == v.items
              case Err(e) => r == Err(e)
      decreases |input.data| - pos, 0
    {
      if items >= input.maxItems {
        return Err(DecodeError(pos, Limit));
      }
      ghost var pos0, items0 := pos, items;
      var start := pos;
      var head := ParseDefinition(depth);
      if head.Err? {
        return Err(head.error);
      }
      var field := head.value.def;
      items := items + 1;
      if field.encoding != ENCODING_STRUCT {
        return Ok(field);
      }
      if !head.value.chained {
        return Err(DecodeError(start, Invalid));
      }
      var childCount := field.format;
      if childCount == 0 {
        return Err(DecodeError(start, Invalid));
      }
      if depth + 1 > input.maxDepth {
        return Err(DecodeError(start, Limit));
      }
      var children := ParseChildList(depth + 1, childCount);
      if children.Err? {
        return Err(children.error);
      }
      return Ok(field.(children := children.value));
    }

    /** The children of one struct: the loop at the end of `parseField`. */
    method ParseChildList(depth: nat, count: nat) returns (r: Result<seq<Def>, DecodeError>)
      requires pos <= |input.data|
      modifies this
      ensures pos <= |input.data|
      ensures match ParseChildren(input, old(pos), old(items), depth, count)
              case Ok(v) => r == Ok(v.value) && pos == v.pos && items == v.items
              case Err(e) => r == Err(e)
      decreases |input.data| - pos, 1
    {
      var children: seq<Def> := [];
      var i := 0;
      ghost var all := ParseChildren(input, pos, items, depth, count);
      while i < count
        invariant 0 <= i <= count
        invariant old(pos) <= pos <= |input.data|
        invariant i == 0 ==> pos == old(pos)
        invariant i > 0 ==> old(pos) < pos
        invariant all == Prepend(children, ParseChildren(input, pos, items, depth, count - i))
      {
        if pos == |input.data| {
          break;
        }
        var child := ParseOne(depth);
        if child.Err? {
          return Err(child.error);
        }
        PrependTwice(children, [child.value], ParseChildren(input, pos, items, depth, count - i - 1));
        children := children + [child.value];
        i := i + 1;
      }
      return Ok(children);
    }

    /** Name, encoding, format, tag and fixed count, without the children. */
    method ParseDefinition(depth: nat) returns (r: Result<Head, DecodeError>)
      requires pos <= |input.data|
      modifies this`pos
      ensures pos <= |input.data|
      ensures r == ParseHead(input, old(pos), depth)
      ensures r.Ok? ==> pos == r.value.next
    {
      var start := pos;
      var nul := ByteIndex(input.data, pos, 0);
      if nul.None? {
        return Err(DecodeError(pos, Truncated));
      }
      if nul.value == pos {
        return Err(DecodeError(pos, Invalid));
      }
      var name := input.data[pos..nul.value];
      if SEMICOLON in name {
        return Err(DecodeError(pos, Invalid));
      }
      pos := nul.value + 1;
      if pos >= |input.data| {
        return Err(DecodeError(pos, Truncated));
      }
      var encoded := input.data[pos];
      pos := pos + 1;
      var base := encoded % 0x20;
      var fixed, variable := encoded / ENCODING_CARRAY_FLAG % 2 == 1, encoded / ENCODING_VARRAY_FLAG % 2 == 1;
      if base == 0 || (fixed && variable) {
        return Err(DecodeError(pos - 1, Invalid));
      }
      if base > ENCODING_BINARY {
        return Err(DecodeError(pos - 1, Unsupported));
      }
      var format: byte, tag: u16 := 0, 0;
      if encoded >= CHAIN_FLAG {
        if pos >= |input.data| {
          return Err(DecodeError(pos, Truncated));
        }
        var formatByte := input.data[pos];
        format := formatByte % CHAIN_FLAG;
        pos := pos + 1;
        if formatByte >= CHAIN_FLAG {
          if |input.data| - pos < 2 {
            return Err(DecodeError(pos, Truncated));
          }
          tag := Get16(input.order, input.data, pos);
          pos := pos + 2;
        }
      }
      var kind, count: u16 := Scalar, 0;
      if fixed {
        kind := Fixed;
        if |input.data| - pos < 2 {
          return Err(DecodeError(pos, Truncated));
        }
        count := Get16(input.order, input.data, pos);
        pos := pos + 2;
        if count == 0 {
          return Err(DecodeError(pos - 2, Invalid));
        }
      } else if variable {
        kind := Variable;
      }
      return Ok(Head(Def(name, base, format, tag, kind, count, depth, start, []), pos, encoded >= CHAIN_FLAG));
    }
  }
}
