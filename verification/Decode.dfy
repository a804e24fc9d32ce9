/** Materialising an event: the decoder's second stack rebuilds, from the items
    of the iterator, the tree a recursive reader would give. */
module Decode {
  import opened Wire
  import opened Format
  import opened Names
  import opened Parser
  import opened EventParser
  import opened WireValue
  import opened Walk
  import opened Enumeration

  /** A decoded value; `encoding` and `format` are those of its field. */
  datatype Value =
    | Simple(raw: Bytes, encoding: byte, format: byte)
    | Sequence(raw: Bytes, encoding: byte, format: byte, values: seq<Value>)
    | Group(raw: Bytes, encoding: byte, format: byte, fields: seq<FieldValue>)

  datatype FieldValue = FieldValue(name: Bytes, value: Value, offset: nat)

  // -------------------------------------------------------- recursive reader

  /** Something read and the position after it. */
  datatype Read<+T> = Read(value: T, next: nat)

  type ReadResult<T> = Result<Read<T>, DecodeError>

  predicate ReadEnds<T>(s: Source, pos: nat, r: ReadResult<T>) {
    r.Ok? ==> pos <= r.value.next <= |s.payload|
  }

  function Located<T>(s: Source, e: DecodeError): ReadResult<T> {
    Err(DecodeError(s.base + e.offset, e.kind))
  }

  /** One value or structure, with the offset its field reports. */
  function ReadScalar(s: Source, d: Def, pos: nat): (r: ReadResult<FieldValue>)
    requires pos <= |s.payload|
    ensures ReadEnds(s, pos, r)
    decreases d, 0, 0
  {
    if d.encoding == ENCODING_STRUCT then
      match ReadFields(s, d.children, pos)
      case Err(e) => Err(e)
      case Ok(c) =>
        Ok(Read(FieldValue(d.name, Group(Slice(s, pos, c.next), d.encoding, d.format, c.value), s.base + pos), c.next))
    else
      match ReadWireValue(s.order, d.encoding, s.payload, pos)
      case Err(e) => Located(s, e)
      case Ok(v) => Ok(Read(FieldValue(d.name, Simple(v.raw, d.encoding, d.format), s.base + v.offset), v.next))
  }

  function ReadElems(s: Source, d: Def, n: nat, pos: nat): (r: ReadResult<seq<Value>>)
    requires pos <= |s.payload|
    ensures ReadEnds(s, pos, r)
    decreases d, 1, n
  {
    if n == 0 then Ok(Read([], pos))
    else
      match ReadScalar(s, d, pos)
      case Err(e) => Err(e)
      case Ok(v) =>
        match ReadElems(s, d, n - 1, v.next)
        case Err(e) => Err(e)
        case Ok(vs) => Ok(Read([v.value.value] + vs.value, vs.next))
  }

  function ReadField(s: Source, d: Def, pos: nat): (r: ReadResult<FieldValue>)
    requires pos <= |s.payload|
    ensures ReadEnds(s, pos, r)
    decreases d, 2, 0
  {
    if d.kind.Scalar? then ReadScalar(s, d, pos)
    else
      match ReadCount(s, d, pos)
      case Err(e) => Located(s, e)
      case Ok(c) =>
        match ReadElems(s, d, c.1, c.0)
        case Err(e) => Err(e)
        case Ok(vs) =>
          Ok(Read(FieldValue(d.name, Sequence(Slice(s, pos, vs.next), d.encoding, d.format, vs.value), s.base + pos), vs.next))
  }

  function ReadFields(s: Source, ds: seq<Def>, pos: nat): (r: ReadResult<seq<FieldValue>>)
    requires pos <= |s.payload|
    ensures ReadEnds(s, pos, r)
    decreases ds, 3, 0
  {
    if ds == [] then Ok(Read([], pos))
    else
      match ReadField(s, ds[0], pos)
      case Err(e) => Err(e)
      case Ok(f) =>
        match ReadFields(s, ds[1..], f.next)
        case Err(e) => Err(e)
        case Ok(fs) => Ok(Read([f.value] + fs.value, fs.next))
  }

  // ------------------------------------------------------------ second stack

  /** An open container: the item that opened it and what it has so far. */
  datatype Frame = Frame(begin: Item, values: seq<Value>, fields: seq<FieldValue>)

  datatype Build = Build(top: seq<FieldValue>, stack: seq<Frame>)

  /** `appendValue`. */
  function Append(b: Build, f: FieldValue): Build {
    if b.stack == [] then b.(top := b.top + [f])
    else
      var n := |b.stack| - 1;
      var parent := b.stack[n];
      b.(stack := b.stack[..n] +
                  [if parent.begin.state.ArrayBegin? then parent.(values := parent.values + [f.value])
                   else parent.(fields := parent.fields + [f])])
  }

  /** The value of a container whose end item carries `raw`. */
  function CloseFrame(frame: Frame, raw: Bytes): FieldValue {
    var i := frame.begin;
    FieldValue(i.name,
               if i.state.ArrayBegin? then Sequence(raw, i.encoding, i.format, frame.values)
               else Group(raw, i.encoding, i.format, frame.fields),
               i.offset)
  }

  /** One item; None when an end item finds no open container. */
  function Absorb(b: Build, item: Item): Option<Build> {
    match item.state
    case ValueItem => Some(Append(b, FieldValue(item.name, Simple(item.raw, item.encoding, item.format), item.offset)))
    case ArrayBegin => Some(b.(stack := b.stack + [Frame(item, [], [])]))
    case StructBegin => Some(b.(stack := b.stack + [Frame(item, [], [])]))
    case ArrayEnd => AbsorbEnd(b, item)
    case StructEnd => AbsorbEnd(b, item)
    case _ => Some(b)
  }

  function AbsorbEnd(b: Build, item: Item): Option<Build> {
    if b.stack == [] then None
    else Some(Append(b.(stack := b.stack[..|b.stack| - 1]), CloseFrame(b.stack[|b.stack| - 1], item.raw)))
  }

  function AbsorbAll(b: Build, items: seq<Item>): Option<Build>
    decreases |items|
  {
    if items == [] then Some(b)
    else match Absorb(b, items[0])
      case None => None
      case Some(c) => AbsorbAll(c, items[1..])
  }

  lemma {:induction false} AbsorbConcat(b: Build, x: seq<Item>, y: seq<Item>)
    ensures AbsorbAll(b, x + y) ==
            match AbsorbAll(b, x) case None => None case Some(c) => AbsorbAll(c, y)
    decreases |x|
  {
    hide Absorb;
    if x == [] {
      assert x + y == y;
    } else {
      assert (x + y)[0] == x[0] && (x + y)[1..] == x[1..] + y;
      if Absorb(b, x[0]).Some? {
        AbsorbConcat(Absorb(b, x[0]).value, x[1..], y);
      }
    }
  }

  lemma AbsorbOne(b: Build, item: Item)
    ensures AbsorbAll(b, [item]) == Absorb(b, item)
  {
    hide Absorb;
    assert [item][1..] == [];
  }

  // --------------------------------------------------- the stacks agree

  function AddFields(b: Build, fs: seq<FieldValue>): Build {
    if b.stack == [] then b.(top := b.top + fs)
    else
      var n := |b.stack| - 1;
      b.(stack := b.stack[..n] + [b.stack[n].(fields := b.stack[n].fields + fs)])
  }

  function AddValues(b: Build, vs: seq<Value>): Build
    requires b.stack != []
  {
    var n := |b.stack| - 1;
    b.(stack := b.stack[..n] + [b.stack[n].(values := b.stack[n].values + vs)])
  }

  predicate TakesFields(b: Build) {
    b.stack == [] || b.stack[|b.stack| - 1].begin.state.StructBegin?
  }

  predicate TakesValues(b: Build) {
    b.stack != [] && b.stack[|b.stack| - 1].begin.state.ArrayBegin?
  }

  /** The walk and the reader end alike, and absorbing the items of a walk that
      ends well is appending what the reader gives. */
  ghost predicate Agree(b: Build, w: Walked, r: ReadResult<FieldValue>) {
    && AbsorbAll(b, w.items).Some?
    && (match r
        case Err(e) => w.end == Err(e)
        case Ok(v) => w.end == Ok(v.next) && AbsorbAll(b, w.items).value == Append(b, v.value))
  }

  /** Opening, filling and closing a container. */
  lemma AgreeBracket(s: Source, b: Build, begin: Item, endState: State, start: nat, inner: Walked,
                     filled: Frame, r: ReadResult<FieldValue>)
    requires (begin.state.ArrayBegin? && endState.ArrayEnd?) || (begin.state.StructBegin? && endState.StructEnd?)
    requires var started := b.(stack := b.stack + [Frame(begin, [], [])]);
             && AbsorbAll(started, inner.items).Some?
             && (inner.end.Ok? ==> AbsorbAll(started, inner.items).value == b.(stack := b.stack + [filled]))
    requires match inner.end
             case Err(e) => r == Err(e)
             case Ok(p) => r == Ok(Read(CloseFrame(filled, Slice(s, start, p)), p))
    ensures Agree(b, Bracket(s, begin, endState, start, inner), r)
  {
    hide AbsorbAll, Append, CloseFrame;
    var started := b.(stack := b.stack + [Frame(begin, [], [])]);
    AbsorbOne(b, begin);
    AbsorbConcat(b, [begin], inner.items);
    if inner.end.Ok? {
      var p := inner.end.value;
      var last := begin.(state := endState, raw := Slice(s, start, p));
      var full := b.(stack := b.stack + [filled]);
      AbsorbConcat(b, [begin] + inner.items, [last]);
      AbsorbOne(full, last);
      assert full.stack[..|full.stack| - 1] == b.stack;
    }
  }

  lemma {:induction false} AgreeScalar(s: Source, b: Build, d: Def, index: int, pos: nat)
    requires pos <= |s.payload|
    ensures Agree(b, WalkScalar(s, d, index, pos), ReadScalar(s, d, pos))
    decreases d, 0, 0
  {
    hide AbsorbAll, ReadWireValue, Append;
    var e := d.(kind := Scalar);
    if d.encoding == ENCODING_STRUCT {
      var begin := ItemOf(s, StructBegin, e, pos, [], 0, index);
      var started := b.(stack := b.stack + [Frame(begin, [], [])]);
      AgreeFields(s, started, d.children, pos);
      var inner, c := WalkFields(s, d.children, pos), ReadFields(s, d.children, pos);
      var filled := if c.Ok? then Frame(begin, [], c.value.value) else Frame(begin, [], []);
      if c.Ok? {
        assert [] + c.value.value == c.value.value;
        assert started.stack[..|b.stack|] == b.stack;
      }
      AgreeBracket(s, b, begin, StructEnd, pos, inner, filled, ReadScalar(s, d, pos));
    } else {
      match ReadWireValue(s.order, d.encoding, s.payload, pos)
      case Err(_) => AbsorbNothing(b);
      case Ok(v) => AbsorbOne(b, ItemOf(s, ValueItem, e, v.offset, v.raw, 0, index));
    }
  }

  lemma AbsorbNothing(b: Build)
    ensures AbsorbAll(b, []) == Some(b)
  {
  }

  lemma {:induction false} AgreeElems(s: Source, b: Build, d: Def, n: nat, index: nat, pos: nat)
    requires pos <= |s.payload| && TakesValues(b)
    ensures var w, r := WalkElems(s, d, n, index, pos), ReadElems(s, d, n, pos);
            && AbsorbAll(b, w.items).Some?
            && (match r
                case Err(e) => w.end == Err(e)
                case Ok(v) => w.end == Ok(v.next) && AbsorbAll(b, w.items).value == AddValues(b, v.value))
    decreases d, 1, n
  {
    hide AbsorbAll, WalkScalar, ReadScalar;
    if n == 0 {
      AbsorbNothing(b);
      assert AddValues(b, []) == b by {
        assert b.stack[..|b.stack| - 1] + [b.stack[|b.stack| - 1]] == b.stack;
        assert b.stack[|b.stack| - 1].values + [] == b.stack[|b.stack| - 1].values;
      }
    } else {
      AgreeScalar(s, b, d, index, pos);
      var w, r := WalkScalar(s, d, index, pos), ReadScalar(s, d, pos);
      if r.Ok? {
        var c := Append(b, r.value.value);
        AgreeElems(s, c, d, n - 1, index + 1, r.value.next);
        var rest := WalkElems(s, d, n - 1, index + 1, r.value.next);
        AbsorbConcat(b, w.items, rest.items);
        var vs := ReadElems(s, d, n - 1, r.value.next);
        if vs.Ok? {
          AddValuesTwice(b, r.value.value, vs.value.value);
        }
      }
    }
  }

  lemma AddValuesTwice(b: Build, f: FieldValue, vs: seq<Value>)
    requires TakesValues(b)
    ensures TakesValues(Append(b, f))
    ensures AddValues(Append(b, f), vs) == AddValues(b, [f.value] + vs)
  {
    var n := |b.stack| - 1;
    var values := b.stack[n].values;
    assert values + [f.value] + vs == values + ([f.value] + vs);
    assert Append(b, f).stack[..n] == b.stack[..n];
  }

  lemma AddFieldsTwice(b: Build, f: FieldValue, fs: seq<FieldValue>)
    requires TakesFields(b)
    ensures TakesFields(Append(b, f))
    ensures AddFields(Append(b, f), fs) == AddFields(b, [f] + fs)
  {
    if b.stack == [] {
      assert b.top + [f] + fs == b.top + ([f] + fs);
    } else {
      var n := |b.stack| - 1;
      var fields := b.stack[n].fields;
      assert fields + [f] + fs == fields + ([f] + fs);
      assert Append(b, f).stack[..n] == b.stack[..n];
    }
  }

  lemma {:induction false} AgreeField(s: Source, b: Build, d: Def, index: int, pos: nat)
    requires pos <= |s.payload|
    ensures Agree(b, WalkField(s, d, index, pos), ReadField(s, d, pos))
    decreases d, 2, 0
  {
    hide AbsorbAll, Append, WalkScalar, ReadScalar;
    if d.kind.Scalar? {
      AgreeScalar(s, b, d, index, pos);
    } else {
      match ReadCount(s, d, pos)
      case Err(_) => AbsorbNothing(b);
      case Ok(count) =>
        var begin := ItemOf(s, ArrayBegin, d, pos, [], count.1, -1);
        var started := b.(stack := b.stack + [Frame(begin, [], [])]);
        AgreeElems(s, started, d, count.1, 0, count.0);
        var inner, c := WalkElems(s, d, count.1, 0, count.0), ReadElems(s, d, count.1, count.0);
        var filled := if c.Ok? then Frame(begin, c.value.value, []) else Frame(begin, [], []);
        if c.Ok? {
          assert [] + c.value.value == c.value.value;
          assert started.stack[..|b.stack|] == b.stack;
        }
        AgreeBracket(s, b, begin, ArrayEnd, pos, inner, filled, ReadField(s, d, pos));
    }
  }

  lemma {:induction false} AgreeFields(s: Source, b: Build, ds: seq<Def>, pos: nat)
    requires pos <= |s.payload| && TakesFields(b)
    ensures var w, r := WalkFields(s, ds, pos), ReadFields(s, ds, pos);
            && AbsorbAll(b, w.items).Some?
            && (match r
                case Err(e) => w.end == Err(e)
                case Ok(v) => w.end == Ok(v.next) && AbsorbAll(b, w.items).value == AddFields(b, v.value))
    decreases ds, 3, 0
  {
    hide AbsorbAll, WalkField, ReadField;
    if ds == [] {
      AbsorbNothing(b);
      assert AddFields(b, []) == b by {
        assert b.stack != [] ==> b.stack[..|b.stack| - 1] + [b.stack[|b.stack| - 1]] == b.stack;
        assert b.stack != [] ==> b.stack[|b.stack| - 1].fields + [] == b.stack[|b.stack| - 1].fields;
        assert b.top + [] == b.top;
      }
    } else {
      AgreeField(s, b, ds[0], -1, pos);
      var w, r := WalkField(s, ds[0], -1, pos), ReadField(s, ds[0], pos);
      if r.Ok? {
        AddFieldsTwice(b, r.value.value, []);
        var c := Append(b, r.value.value);
        AgreeFields(s, c, ds[1..], r.value.next);
        var rest := WalkFields(s, ds[1..], r.value.next);
        AbsorbConcat(b, w.items, rest.items);
        var fs := ReadFields(s, ds[1..], r.value.next);
        if fs.Ok? {
          AddFieldsTwice(b, r.value.value, fs.value.value);
        }
      }
    }
  }

  /** The decoder's second stack never underflows, whatever the payload, and a
      walk that ends well leaves exactly the reader's tree and no open frame. */
  lemma StacksAgree(s: Source, ds: seq<Def>)
    ensures var w, r := WalkFields(s, ds, 0), ReadFields(s, ds, 0);
            && AbsorbAll(Build([], []), w.items).Some?
            && (match r
                case Err(e) => w.end == Err(e)
                case Ok(v) => w.end == Ok(v.next) && AbsorbAll(Build([], []), w.items) == Some(Build(v.value, [])))
  {
    hide AbsorbAll, WalkFields, ReadFields;
    AgreeFields(s, Build([], []), ds, 0);
    var r := ReadFields(s, ds, 0);
    assert r.Ok? ==> [] + r.value.value == r.value.value;
  }

  // ------------------------------------------------------------------ decoder

  lemma {:induction false} ParsedHeight(p: ParserInput, pos: nat, items: nat, depth: nat)
    requires pos <= |p.data| && depth <= p.maxDepth
    ensures ParseField(p, pos, items, depth).Ok? ==> depth + DefHeight(ParseField(p, pos, items, depth).value.value) <= p.maxDepth
    decreases |p.data| - pos, 0
  {
    hide ParseHead;
    var r := ParseField(p, pos, items, depth);
    if r.Ok? {
      var h := ParseHead(p, pos, depth).value;
      if h.def.encoding == ENCODING_STRUCT {
        ParsedHeights(p, h.next, items + 1, depth + 1, h.def.format);
      }
    }
  }

  lemma {:induction false} ParsedHeights(p: ParserInput, pos: nat, items: nat, depth: nat, count: nat)
    requires pos <= |p.data| && depth <= p.maxDepth
    ensures var r := ParseChildren(p, pos, items, depth, count);
            r.Ok? ==> depth + DefsHeight(r.value.value) <= p.maxDepth
    decreases |p.data| - pos, 1
  {
    hide ParseField, DefHeight;
    if count != 0 && pos != |p.data| {
      ParsedHeight(p, pos, items, depth);
      var f := ParseField(p, pos, items, depth);
      if f.Ok? {
        ParsedHeights(p, f.value.pos, f.value.items, depth, count - 1);
        var rest := ParseChildren(p, f.value.pos, f.value.items, depth, count - 1);
        if rest.Ok? {
          assert ([f.value.value] + rest.value.value)[1..] == rest.value.value;
        }
      }
    }
  }

  lemma {:induction false} ParsedTopHeight(p: ParserInput, pos: nat, items: nat)
    requires pos <= |p.data| && 0 <= p.maxDepth
    ensures var r := ParseTop(p, pos, items);
            r.Ok? ==> DefsHeight(r.value.value) <= p.maxDepth
    decreases |p.data| - pos
  {
    hide ParseField, DefHeight;
    if pos != |p.data| {
      ParsedHeight(p, pos, items, 0);
      var f := ParseField(p, pos, items, 0);
      if f.Ok? {
        ParsedTopHeight(p, f.value.pos, f.value.items);
        var rest := ParseTop(p, f.value.pos, f.value.items);
        if rest.Ok? {
          assert ([f.value.value] + rest.value.value)[1..] == rest.value.value;
        }
      }
    }
  }

  lemma ParsedEventHeight(raw: Limits, tracepoint: Bytes, data: Bytes)
    requires ParseEvent(raw, tracepoint, data).Ok?
    ensures ValidLimits(Normalized(raw))
    ensures DefsHeight(ParseEvent(raw, tracepoint, data).value.fields) <= Normalized(raw).maxDepth
  {
    hide ParseTop, ParseChain, ParseTracepointName, ParseHeader, DefsHeight;
    var limits := Normalized(raw);
    var chain := ParseChain(data).value;
    var block := chain.found.metadata.value;
    var nul := IndexOf(block.bytes, 0, 0).value;
    ParsedTopHeight(ParserInput(block.bytes, ParseHeader(data).order, limits.maxDepth, limits.maxItems), nul + 1, 0);
  }

  /** A whole decoded event. */
  datatype Record = Record(info: EventInfo, fields: seq<FieldValue>, diagnostics: seq<Diagnostic>)

  function SourceOf(e: ParsedEvent): Source {
    Source(e.info.header.order, e.payload, e.payloadOffset)
  }

  /** Decoding, recursively: parse, walk within the transition limit, read. */
  function DecodeEvent(raw: Limits, tracepoint: Bytes, data: Bytes): Result<Record, DecodeError> {
    match ParseEvent(raw, tracepoint, data)
    case Err(e) => Err(e)
    case Ok(event) => ReadEvent(event, Normalized(raw).maxTransitions)
  }

  function ReadEvent(event: ParsedEvent, maxTransitions: int): Result<Record, DecodeError> {
    var s := SourceOf(event);
    var items := WalkFields(s, event.fields, 0).items;
    if 0 <= maxTransitions < |items| then Err(DecodeError(items[maxTransitions].offset, Limit))
    else
      match ReadFields(s, event.fields, 0)
      case Err(e) => Err(e)
      case Ok(r) => Ok(Record(event.info, r.value, Trailing(s, r.next)))
  }

  /** `Decoder.Start`. */
  method Start(raw: Limits, tracepoint: Bytes, data: Bytes) returns (r: Result<Enumerator, DecodeError>)
    ensures match ParseEvent(raw, tracepoint, data)
            case Err(e) => r == Err(e)
            case Ok(event) =>
              && r.Ok?
              && fresh(r.value) && r.value.Valid() && r.value.state == BeforeFirst
              && r.value.event == event && r.value.source == SourceOf(event)
              && r.value.maxTransitions == Normalized(raw).maxTransitions && r.value.maxDepth == Normalized(raw).maxDepth
              && r.value.transitions == 0 && r.value.err == None && r.value.diagnostics == []
              && r.value.Rest() == WalkFields(r.value.source, event.fields, 0)
  {
    hide ParseEvent, WalkFields, DefsHeight;
    var event := Parse(raw, tracepoint, data);
    if event.Err? {
      return Err(event.error);
    }
    ParsedEventHeight(raw, tracepoint, data);
    var limits := Normalized(raw);
    var e := new Enumerator(event.value, limits.maxTransitions, limits.maxDepth);
    return Ok(e);
  }

  lemma ParsedEventLimits(raw: Limits, tracepoint: Bytes, data: Bytes)
    requires ParseEvent(raw, tracepoint, data).Ok?
    ensures ValidLimits(Normalized(raw))
  {
    hide ParseTracepointName, ParseChain;
  }

  /** Where the iterator stands after giving all of `all` but `left`; with `more`
      the head of `left` is its current item. */
  ghost predicate Running(e: Enumerator, all: Walked, left: seq<Item>, more: bool)
    reads e
  {
    && e.Valid()
    && e.transitions <= e.maxTransitions
    && (if more then
          && e.Active() && left != [] && e.err == None && e.diagnostics == []
          && e.item == Some(left[0]) && e.state == left[0].state
          && 1 <= e.transitions <= |all.items| && left == all.items[e.transitions - 1..]
          && e.Rest() == Walked(left[1..], all.end)
        else
          && e.transitions <= |all.items| && left == all.items[e.transitions..]
          && (if left != [] then e.transitions == e.maxTransitions && e.err == Some(DecodeError(left[0].offset, Limit))
              else match all.end
                case Err(x) => e.err == Some(x)
                case Ok(p) => e.err == None && p <= |e.source.payload| && e.diagnostics == Trailing(e.source, p)))
  }

  /** The next call, from the start or after the current item. */
  method Advance(e: Enumerator, ghost all: Walked, ghost left: seq<Item>) returns (more: bool)
    requires e.Valid() && e.Active() && e.err == None && e.diagnostics == []
    requires e.transitions <= e.maxTransitions
    requires e.transitions <= |all.items| && left == all.items[e.transitions..]
    requires e.Rest() == Walked(left, all.end)
    modifies e
    ensures Running(e, all, left, more)
  {
    ghost var pops, peak;
    more, pops, peak := e.Next();
  }

  lemma AbsorbStep(b: Build, items: seq<Item>)
    requires items != [] && AbsorbAll(b, items).Some?
    ensures Absorb(b, items[0]).Some?
    ensures AbsorbAll(b, items) == AbsorbAll(Absorb(b, items[0]).value, items[1..])
  {
    hide Absorb;
  }

  /** One turn of the loop: the item goes to the second stack or comes off it. */
  method TakeItem(item: Item, top: seq<FieldValue>, stack: seq<Frame>) returns (top': seq<FieldValue>, stack': seq<Frame>)
    requires Absorb(Build(top, stack), item).Some?
    ensures Absorb(Build(top, stack), item) == Some(Build(top', stack'))
  {
    hide Append, CloseFrame;
    top', stack' := top, stack;
    match item.state {
      case ValueItem =>
        var b := Append(Build(top, stack), FieldValue(item.name, Simple(item.raw, item.encoding, item.format), item.offset));
        top', stack' := b.top, b.stack;
      case ArrayBegin =>
        stack' := stack + [Frame(item, [], [])];
      case StructBegin =>
        stack' := stack + [Frame(item, [], [])];
      case ArrayEnd =>
        var frame := stack[|stack| - 1];
        var b := Append(Build(top, stack[..|stack| - 1]), CloseFrame(frame, item.raw));
        top', stack' := b.top, b.stack;
      case StructEnd =>
        var frame := stack[|stack| - 1];
        var b := Append(Build(top, stack[..|stack| - 1]), CloseFrame(frame, item.raw));
        top', stack' := b.top, b.stack;
      case _ =>
    }
  }

  lemma RunningItem(e: Enumerator, all: Walked, left: seq<Item>)
    requires Running(e, all, left, true)
    ensures left != [] && e.item == Some(left[0])
  {
  }

  /** The current item is taken in and the iterator moves on. */
  method Turn(e: Enumerator, ghost all: Walked, ghost left: seq<Item>, top: seq<FieldValue>, stack: seq<Frame>)
    returns (top': seq<FieldValue>, stack': seq<Frame>, more: bool)
    requires Running(e, all, left, true) && left != [] && e.item == Some(left[0])
    requires AbsorbAll(Build(top, stack), left).Some?
    modifies e
    ensures Running(e, all, left[1..], more)
    ensures AbsorbAll(Build(top', stack'), left[1..]) == AbsorbAll(Build(top, stack), left)
  {
    hide AbsorbAll, Absorb;
    AbsorbStep(Build(top, stack), left);
    top', stack' := TakeItem(e.item.value, top, stack);
    more := Advance(e, all, left[1..]);
  }

  /** The loop of `Decoder.Decode`, with its stack of frames. */
  method TakeItems(e: Enumerator, ghost all: Walked) returns (top: seq<FieldValue>, stack: seq<Frame>, ghost left: seq<Item>)
    requires e.Valid() && e.Active() && e.err == None && e.diagnostics == []
    requires e.transitions == 0 <= e.maxTransitions && e.Rest() == all
    requires AbsorbAll(Build([], []), all.items).Some?
    modifies e
    ensures Running(e, all, left, false)
    ensures AbsorbAll(Build(top, stack), left) == AbsorbAll(Build([], []), all.items)
  {
    left := all.items;
    top := [];
    stack := [];
    var more := Advance(e, all, left);
    hide AbsorbAll, Running;
    while more
      invariant Running(e, all, left, more)
      invariant AbsorbAll(Build(top, stack), left) == AbsorbAll(Build([], []), all.items)
      decreases |left|, more
    {
      RunningItem(e, all, left);
      top, stack, more := Turn(e, all, left, top, stack);
      left := left[1..];
    }
  }

  /** `Decoder.Decode` */
  method DecodeRecord(raw: Limits, tracepoint: Bytes, data: Bytes) returns (r: Result<Record, DecodeError>)
    ensures r == DecodeEvent(raw, tracepoint, data)
  {
    hide ParseEvent, WalkFields, ReadFields, AbsorbAll, Absorb;
    var start := Start(raw, tracepoint, data);
    if start.Err? {
      return Err(start.error);
    }
    var e := start.value;
    ParsedEventLimits(raw, tracepoint, data);
    StacksAgree(e.source, e.event.fields);
    ghost var all := e.Rest();
    var top, stack, left := TakeItems(e, all);
    if e.err.Some? {
      return Err(e.err.value);
    }
    AbsorbNothing(Build(top, stack));
    return Ok(Record(e.event.info, top, e.diagnostics));
  }
}
