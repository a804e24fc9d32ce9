/** The meaning of iteration: the items a recursive walk over definitions and
    payload gives, and what a stack of pending tasks still has to give. */
module Walk {
  import opened Wire
  import opened Format
  import opened Names
  import opened Parser
  import opened WireValue

  datatype State = BeforeFirst | ValueItem | ArrayBegin | ArrayEnd | StructBegin | StructEnd | Done | Error

  datatype Item = Item(
    state: State, name: Bytes, encoding: byte, format: byte, tag: u16, kind: ArrayKind,
    count: nat, index: int, depth: nat, offset: nat, raw: Bytes)

  /** Payload, its byte order and where it starts in the event. */
  datatype Source = Source(order: ByteOrder, payload: Bytes, base: nat)

  /** The items of a walk, and the position after it or the error that ended it. */
  datatype Walked = Walked(items: seq<Item>, end: Result<nat, DecodeError>)

  function ItemOf(s: Source, state: State, d: Def, offset: nat, raw: Bytes, count: nat, index: int): Item {
    Item(state, d.name, d.encoding, d.format, d.tag, d.kind, count, index, d.depth, s.base + offset, raw)
  }

  function Slice(s: Source, start: nat, end: nat): Bytes {
    if start <= end <= |s.payload| then s.payload[start..end] else []
  }

  function Fail(s: Source, e: DecodeError): Walked {
    Walked([], Err(DecodeError(s.base + e.offset, e.kind)))
  }

  function Cons(item: Item, w: Walked): (r: Walked)
    ensures r.items != [] && r.items[0] == item
    ensures Walked(r.items[1..], r.end) == w
  {
    Walked([item] + w.items, w.end)
  }

  // ---------------------------------------------------------- recursive walk

  /** Position of the first element, and the number of elements. */
  function ReadCount(s: Source, d: Def, pos: nat): (r: Result<(nat, nat), DecodeError>)
    requires pos <= |s.payload|
    ensures r.Ok? ==> pos <= r.value.0 <= |s.payload|
  {
    if !d.kind.Variable? then Ok((pos, d.count))
    else if |s.payload| - pos < 2 then Err(DecodeError(pos, Truncated))
    else Ok((pos + 2, Get16(s.order, s.payload, pos)))
  }

  predicate Ends(s: Source, pos: nat, w: Walked) {
    w.end.Ok? ==> pos <= w.end.value <= |s.payload|
  }

  /** `inner` between a begin item and, if it ends well, the matching end item. */
  function Bracket(s: Source, begin: Item, endState: State, start: nat, inner: Walked): Walked {
    match inner.end
    case Err(_) => Walked([begin] + inner.items, inner.end)
    case Ok(p) => Walked([begin] + inner.items + [begin.(state := endState, raw := Slice(s, start, p))], inner.end)
  }

  /** One value or structure; the definition is taken as scalar. */
  function WalkScalar(s: Source, d: Def, index: int, pos: nat): (w: Walked)
    requires pos <= |s.payload|
    ensures Ends(s, pos, w)
    decreases d, 0, 0
  {
    var e := d.(kind := Scalar);
    if d.encoding == ENCODING_STRUCT then
      Bracket(s, ItemOf(s, StructBegin, e, pos, [], 0, index), StructEnd, pos, WalkFields(s, d.children, pos))
    else
      match ReadWireValue(s.order, d.encoding, s.payload, pos)
      case Err(err) => Fail(s, err)
      case Ok(v) => Walked([ItemOf(s, ValueItem, e, v.offset, v.raw, 0, index)], Ok(v.next))
  }

  function WalkElems(s: Source, d: Def, n: nat, index: nat, pos: nat): (w: Walked)
    requires pos <= |s.payload|
    ensures Ends(s, pos, w)
    decreases d, 1, n
  {
    if n == 0 then Walked([], Ok(pos))
    else
      var w := WalkScalar(s, d, index, pos);
      match w.end
      case Err(_) => w
      case Ok(p) => var r := WalkElems(s, d, n - 1, index + 1, p); Walked(w.items + r.items, r.end)
  }

  function WalkField(s: Source, d: Def, index: int, pos: nat): (w: Walked)
    requires pos <= |s.payload|
    ensures Ends(s, pos, w)
    decreases d, 2, 0
  {
    if d.kind.Scalar? then WalkScalar(s, d, index, pos)
    else
      match ReadCount(s, d, pos)
      case Err(err) => Fail(s, err)
      case Ok(c) =>
        Bracket(s, ItemOf(s, ArrayBegin, d, pos, [], c.1, -1), ArrayEnd, pos, WalkElems(s, d, c.1, 0, c.0))
  }

  function WalkFields(s: Source, ds: seq<Def>, pos: nat): (w: Walked)
    requires pos <= |s.payload|
    ensures Ends(s, pos, w)
    decreases ds, 3, 0
  {
    if ds == [] then Walked([], Ok(pos))
    else
      var w := WalkField(s, ds[0], -1, pos);
      match w.end
      case Err(_) => w
      case Ok(p) => var r := WalkFields(s, ds[1..], p); Walked(w.items + r.items, r.end)
  }

  // ------------------------------------------------------------- pending tasks

  datatype Task =
    | Fields(fields: seq<Def>, next: nat)
    | Field(def: Def, index: int)
    | Array(def: Def, count: nat, next: nat)
    | EndArray(def: Def, count: nat, start: nat)
    | EndStruct(def: Def, start: nat, index: int)

  /** What one task gives on its own. */
  function WalkTask(s: Source, t: Task, pos: nat): (w: Walked)
    requires pos <= |s.payload|
    ensures Ends(s, pos, w)
  {
    match t
    case Fields(fields, next) =>
      WalkFields(s, if next <= |fields| then fields[next..] else [], pos)
    case Field(d, index) => WalkField(s, d, index, pos)
    case Array(d, count, next) => WalkElems(s, d, if next <= count then count - next else 0, next, pos)
    case EndArray(d, count, start) =>
      Walked([ItemOf(s, ArrayEnd, d, start, Slice(s, start, pos), count, -1)], Ok(pos))
    case EndStruct(d, start, index) =>
      Walked([ItemOf(s, StructEnd, d, start, Slice(s, start, pos), 0, index)], Ok(pos))
  }

  /** What a stack of tasks gives, the last task first. */
  function Pending(s: Source, stack: seq<Task>, pos: nat): (w: Walked)
    requires pos <= |s.payload|
    ensures Ends(s, pos, w)
    decreases |stack|, 0
  {
    if stack == [] then Walked([], Ok(pos))
    else Then(s, WalkTask(s, stack[|stack| - 1], pos), stack[..|stack| - 1])
  }

  /** `w`, and then the stack from where `w` ended. */
  function Then(s: Source, w: Walked, stack: seq<Task>): (r: Walked)
    requires w.end.Ok? ==> w.end.value <= |s.payload|
    ensures w.end.Ok? ==> Ends(s, w.end.value, r)
    ensures w.end.Err? ==> r.end.Err?
    decreases |stack|, 1
  {
    match w.end
    case Err(_) => w
    case Ok(p) => var r := Pending(s, stack, p); Walked(w.items + r.items, r.end)
  }

  lemma PendingPush(s: Source, stack: seq<Task>, t: Task, pos: nat)
    requires pos <= |s.payload|
    ensures Pending(s, stack + [t], pos) == Then(s, WalkTask(s, t, pos), stack)
  {
    assert (stack + [t])[..|stack|] == stack;
  }

  lemma PendingNothing(s: Source, stack: seq<Task>, t: Task, pos: nat)
    requires pos <= |s.payload| && WalkTask(s, t, pos) == Walked([], Ok(pos))
    ensures Pending(s, stack + [t], pos) == Pending(s, stack, pos)
  {
    PendingPush(s, stack, t, pos);
    var r := Pending(s, stack, pos);
    assert [] + r.items == r.items;
  }

  /** Fields still to go: the next one, and then the ones after it. */
  lemma PendingFields(s: Source, stack: seq<Task>, fields: seq<Def>, next: nat, pos: nat)
    requires pos <= |s.payload| && next < |fields|
    ensures Pending(s, stack + [Fields(fields, next)], pos)
         == Pending(s, stack + [Fields(fields, next + 1)] + [Field(fields[next], -1)], pos)
  {
    hide WalkField;
    var first := WalkField(s, fields[next], -1, pos);
    assert fields[next..][1..] == fields[next + 1..];
    PendingPush(s, stack, Fields(fields, next), pos);
    PendingPush(s, stack + [Fields(fields, next + 1)], Field(fields[next], -1), pos);
    if first.end.Ok? {
      var p := first.end.value;
      PendingPush(s, stack, Fields(fields, next + 1), p);
      var second := WalkFields(s, fields[next + 1..], p);
      if second.end.Ok? {
        var third := Pending(s, stack, second.end.value);
        assert first.items + second.items + third.items == first.items + (second.items + third.items);
      }
    }
  }

  /** Elements still to go: the next one, and then the ones after it. */
  lemma PendingElems(s: Source, stack: seq<Task>, d: Def, count: nat, next: nat, pos: nat)
    requires pos <= |s.payload| && next < count
    ensures Pending(s, stack + [Array(d, count, next)], pos)
         == Pending(s, stack + [Array(d, count, next + 1)] + [Field(d.(kind := Scalar), next)], pos)
  {
    ScalarAsField(s, d, next, pos);
    hide WalkScalar, WalkField;
    var first := WalkScalar(s, d, next, pos);
    PendingPush(s, stack, Array(d, count, next), pos);
    PendingPush(s, stack + [Array(d, count, next + 1)], Field(d.(kind := Scalar), next), pos);
    if first.end.Ok? {
      var p := first.end.value;
      PendingPush(s, stack, Array(d, count, next + 1), p);
      var second := WalkElems(s, d, count - next - 1, next + 1, p);
      if second.end.Ok? {
        var third := Pending(s, stack, second.end.value);
        assert first.items + second.items + third.items == first.items + (second.items + third.items);
      }
    }
  }

  lemma ScalarAsField(s: Source, d: Def, index: int, pos: nat)
    requires pos <= |s.payload|
    ensures WalkField(s, d.(kind := Scalar), index, pos) == WalkScalar(s, d, index, pos)
  {
  }

  /** A container: its begin item, then the content task, then the end task. */
  lemma PendingBracket(s: Source, stack: seq<Task>, t: Task, content: Task, close: Task,
                       begin: Item, endState: State, start: nat, pos: nat, at: nat)
    requires pos <= |s.payload| && at <= |s.payload|
    requires WalkTask(s, t, pos) == Bracket(s, begin, endState, start, WalkTask(s, content, at))
    requires forall p: nat | p <= |s.payload| ::
               WalkTask(s, close, p) == Walked([begin.(state := endState, raw := Slice(s, start, p))], Ok(p))
    ensures Pending(s, stack + [t], pos) == Cons(begin, Pending(s, stack + [close] + [content], at))
  {
    hide WalkTask;
    var inner := WalkTask(s, content, at);
    PendingPush(s, stack, t, pos);
    PendingPush(s, stack + [close], content, at);
    if inner.end.Ok? {
      var p := inner.end.value;
      PendingPush(s, stack, close, p);
      var last := begin.(state := endState, raw := Slice(s, start, p));
      var rest := Pending(s, stack, p);
      assert [begin] + inner.items + [last] + rest.items == [begin] + (inner.items + ([last] + rest.items));
    }
  }

  lemma ArrayTask(s: Source, d: Def, index: int, pos: nat)
    requires pos <= |s.payload| && !d.kind.Scalar?
    ensures WalkTask(s, Field(d, index), pos) ==
            match ReadCount(s, d, pos)
            case Err(err) => Fail(s, err)
            case Ok(c) =>
              Bracket(s, ItemOf(s, ArrayBegin, d, pos, [], c.1, -1), ArrayEnd, pos, WalkTask(s, Array(d, c.1, 0), c.0))
  {
  }

  lemma PendingFails(s: Source, stack: seq<Task>, t: Task, pos: nat, e: DecodeError)
    requires pos <= |s.payload| && WalkTask(s, t, pos) == Fail(s, e)
    ensures Pending(s, stack + [t], pos) == Fail(s, e)
  {
    PendingPush(s, stack, t, pos);
  }

  lemma EndTasks(s: Source, d: Def, count: nat, start: nat, index: int)
    ensures forall p: nat | p <= |s.payload| ::
              WalkTask(s, EndArray(d, count, start), p)
              == Walked([ItemOf(s, ArrayBegin, d, start, [], count, -1).(state := ArrayEnd, raw := Slice(s, start, p))], Ok(p))
    ensures forall p: nat | p <= |s.payload| ::
              WalkTask(s, EndStruct(d, start, index), p)
              == Walked([ItemOf(s, StructBegin, d, start, [], 0, index).(state := StructEnd, raw := Slice(s, start, p))], Ok(p))
  {
  }

  lemma StructTask(s: Source, d: Def, index: int, pos: nat)
    requires pos <= |s.payload| && d.kind.Scalar? && d.encoding == ENCODING_STRUCT
    ensures WalkTask(s, Field(d, index), pos)
         == Bracket(s, ItemOf(s, StructBegin, d, pos, [], 0, index), StructEnd, pos, WalkTask(s, Fields(d.children, 0), pos))
  {
    assert d.(kind := Scalar) == d;
    assert d.children[0..] == d.children;
    assert WalkField(s, d, index, pos) == WalkScalar(s, d, index, pos);
  }

  lemma ValueTask(s: Source, d: Def, index: int, pos: nat)
    requires pos <= |s.payload| && d.kind.Scalar? && d.encoding != ENCODING_STRUCT
    ensures WalkTask(s, Field(d, index), pos) ==
            match ReadWireValue(s.order, d.encoding, s.payload, pos)
            case Err(err) => Fail(s, err)
            case Ok(v) => Walked([ItemOf(s, ValueItem, d, v.offset, v.raw, 0, index)], Ok(v.next))
  {
    hide ReadWireValue;
    assert d.(kind := Scalar) == d;
    assert WalkField(s, d, index, pos) == WalkScalar(s, d, index, pos);
  }

  /** A task that gives one item and moves to `next`. */
  lemma PendingOne(s: Source, stack: seq<Task>, t: Task, item: Item, pos: nat, next: nat)
    requires pos <= |s.payload| && next <= |s.payload|
    requires WalkTask(s, t, pos) == Walked([item], Ok(next))
    ensures Pending(s, stack + [t], pos) == Cons(item, Pending(s, stack, next))
  {
    PendingPush(s, stack, t, pos);
  }
}
