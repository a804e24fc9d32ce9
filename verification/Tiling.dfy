/** Conservation of the payload: the items of a walk, over any input, account for
    every byte it consumed, once and in order. */
module Tiling {
  import opened Wire
  import opened Format
  import opened Names
  import opened Parser
  import opened WireValue
  import opened Walk

  function Zeros(n: nat): (r: Bytes)
    ensures |r| == n
  {
    seq(n, _ => 0)
  }

  /** The bytes that an item stands for on its own: a value with its length prefix
      or terminator, the count of a variable array, and nothing for other brackets. */
  function OwnWire(s: Source, item: Item): Bytes {
    match item.state
    case ValueItem =>
      if Counted(item.encoding) then
        (if |item.raw| / UnitWidth(item.encoding) <= MAX_COUNT then Put16(s.order, |item.raw| / UnitWidth(item.encoding)) else [])
        + item.raw
      else if Terminated(item.encoding) && item.offset + |item.raw| != s.base + |s.payload| then
        item.raw + Zeros(UnitWidth(item.encoding))
      else item.raw
    case ArrayBegin => if item.kind.Variable? && item.count <= MAX_COUNT then Put16(s.order, item.count) else []
    case _ => []
  }

  function WireOf(s: Source, items: seq<Item>): Bytes {
    if items == [] then [] else OwnWire(s, items[0]) + WireOf(s, items[1..])
  }

  lemma {:induction false} WireConcat(s: Source, a: seq<Item>, b: seq<Item>)
    ensures WireOf(s, a + b) == WireOf(s, a) + WireOf(s, b)
  {
    hide OwnWire;
    if a == [] {
      assert a + b == b;
      assert [] + WireOf(s, b) == WireOf(s, b);
    } else {
      WireConcat(s, a[1..], b);
      assert (a + b)[1..] == a[1..] + b;
    }
  }

  lemma WireOne(s: Source, item: Item)
    ensures WireOf(s, [item]) == OwnWire(s, item)
  {
    hide OwnWire;
    assert OwnWire(s, item) + [] == OwnWire(s, item);
  }

  /** The items tile the payload from `pos` on, up to the end of the walk if it
      ended well. */
  ghost predicate Tiles(s: Source, w: Walked, pos: nat) {
    At(s.payload, pos, WireOf(s, w.items)) && (w.end.Ok? ==> w.end.value == pos + |WireOf(s, w.items)|)
  }

  lemma CountedTiles(s: Source, d: Def, pos: nat, item: Item)
    requires pos <= |s.payload| && FixedWidth(d.encoding) == 0 && Counted(d.encoding) && !Terminated(d.encoding)
    requires ReadWireValue(s.order, d.encoding, s.payload, pos).Ok?
    requires var v := ReadWireValue(s.order, d.encoding, s.payload, pos).value;
             item == ItemOf(s, ValueItem, d, v.offset, v.raw, 0, item.index)
    ensures var v := ReadWireValue(s.order, d.encoding, s.payload, pos).value;
            OwnWire(s, item) == s.payload[pos..v.next]
  {
    hide Get16, Put16;
    var v := ReadWireValue(s.order, d.encoding, s.payload, pos).value;
    var count, unit := Get16(s.order, s.payload, pos), UnitWidth(d.encoding);
    assert |v.raw| == count * unit && |v.raw| / unit == count;
    Put16Get16(s.order, s.payload, pos);
    assert s.payload[pos..v.next] == s.payload[pos..pos + 2] + v.raw;
  }

  lemma TerminatedTiles(s: Source, d: Def, pos: nat, item: Item)
    requires pos <= |s.payload| && FixedWidth(d.encoding) == 0 && Terminated(d.encoding) && !Counted(d.encoding)
    requires ReadWireValue(s.order, d.encoding, s.payload, pos).Ok?
    requires var v := ReadWireValue(s.order, d.encoding, s.payload, pos).value;
             item == ItemOf(s, ValueItem, d, v.offset, v.raw, 0, item.index)
    ensures var v := ReadWireValue(s.order, d.encoding, s.payload, pos).value;
            OwnWire(s, item) == s.payload[pos..v.next]
  {
    hide FindTerminator;
    var v := ReadWireValue(s.order, d.encoding, s.payload, pos).value;
    var unit := UnitWidth(d.encoding);
    if FindTerminator(s.payload, pos, unit).Some? {
      var i := FindTerminator(s.payload, pos, unit).value;
      assert s.payload[i..i + unit] == Zeros(unit);
      assert s.payload[pos..i + unit] == v.raw + Zeros(unit);
    }
  }

  lemma ValueTiles(s: Source, d: Def, pos: nat, index: int)
    requires pos <= |s.payload| && ReadWireValue(s.order, d.encoding, s.payload, pos).Ok?
    ensures var v := ReadWireValue(s.order, d.encoding, s.payload, pos).value;
            Tiles(s, Walked([ItemOf(s, ValueItem, d, v.offset, v.raw, 0, index)], Ok(v.next)), pos)
  {
    hide FindTerminator, Get16, Put16;
    var v := ReadWireValue(s.order, d.encoding, s.payload, pos).value;
    var item := ItemOf(s, ValueItem, d, v.offset, v.raw, 0, index);
    WireOne(s, item);
    if FixedWidth(d.encoding) == 0 {
      if Terminated(d.encoding) {
        TerminatedTiles(s, d, pos, item);
      } else {
        CountedTiles(s, d, pos, item);
      }
    }
  }

  lemma TilesThen(s: Source, a: Walked, b: Walked, pos: nat)
    requires Tiles(s, a, pos) && a.end.Ok? && Tiles(s, b, a.end.value)
    ensures Tiles(s, Walked(a.items + b.items, b.end), pos)
  {
    WireConcat(s, a.items, b.items);
    var first, second := WireOf(s, a.items), WireOf(s, b.items);
    assert s.payload[pos..pos + |first| + |second|] == first + second;
  }

  /** A bracket adds its own count and nothing else; its end item holds the wire
      bytes of everything between. */
  lemma BracketTiles(s: Source, begin: Item, endState: State, pos: nat, inner: Walked)
    requires (endState.ArrayEnd? || endState.StructEnd?) && (begin.state.ArrayBegin? || begin.state.StructBegin?)
    requires At(s.payload, pos, OwnWire(s, begin)) && Tiles(s, inner, pos + |OwnWire(s, begin)|)
    ensures var w := Bracket(s, begin, endState, pos, inner);
            && Tiles(s, w, pos)
            && (w.end.Ok? ==> w.items != [] && w.items[|w.items| - 1].raw == WireOf(s, w.items))
  {
    WireOne(s, begin);
    var start := Walked([begin], Ok(pos + |OwnWire(s, begin)|));
    TilesThen(s, start, inner, pos);
    if inner.end.Ok? {
      var close := begin.(state := endState, raw := Slice(s, pos, inner.end.value));
      WireOne(s, close);
      var both := Walked([begin] + inner.items, inner.end);
      assert At(s.payload, inner.end.value, []);
      TilesThen(s, both, Walked([close], inner.end), pos);
      assert WireOf(s, both.items) + [] == WireOf(s, both.items);
      WireConcat(s, both.items, [close]);
    }
  }

  lemma NothingTiles(s: Source, pos: nat, e: Result<nat, DecodeError>)
    requires pos <= |s.payload| && (e.Ok? ==> e.value == pos)
    ensures Tiles(s, Walked([], e), pos)
  {
  }

  lemma {:induction false} ScalarTiles(s: Source, d: Def, index: int, pos: nat)
    requires pos <= |s.payload|
    ensures Tiles(s, WalkScalar(s, d, index, pos), pos)
    decreases d, 0, 0
  {
    hide WireOf, Tiles, ReadWireValue, WalkFields;
    if d.encoding == ENCODING_STRUCT {
      FieldsTile(s, d.children, pos);
      var begin := ItemOf(s, StructBegin, d.(kind := Scalar), pos, [], 0, index);
      assert s.payload[pos..pos + 0] == [];
      BracketTiles(s, begin, StructEnd, pos, WalkFields(s, d.children, pos));
    } else if ReadWireValue(s.order, d.encoding, s.payload, pos).Ok? {
      ValueTiles(s, d.(kind := Scalar), pos, index);
    } else {
      NothingTiles(s, pos, WalkScalar(s, d, index, pos).end);
    }
  }

  lemma {:induction false} ElemsTile(s: Source, d: Def, n: nat, index: nat, pos: nat)
    requires pos <= |s.payload|
    ensures Tiles(s, WalkElems(s, d, n, index, pos), pos)
    decreases d, 1, n
  {
    hide WireOf, Tiles, WalkScalar;
    if n == 0 {
      NothingTiles(s, pos, Ok(pos));
    } else {
      ScalarTiles(s, d, index, pos);
      var w := WalkScalar(s, d, index, pos);
      if w.end.Ok? {
        ElemsTile(s, d, n - 1, index + 1, w.end.value);
        TilesThen(s, w, WalkElems(s, d, n - 1, index + 1, w.end.value), pos);
      }
    }
  }

  lemma {:induction false} FieldTiles(s: Source, d: Def, index: int, pos: nat)
    requires pos <= |s.payload|
    ensures Tiles(s, WalkField(s, d, index, pos), pos)
    ensures (!d.kind.Scalar? || d.encoding == ENCODING_STRUCT) && WalkField(s, d, index, pos).end.Ok? ==>
      var items := WalkField(s, d, index, pos).items;
      items != [] && items[|items| - 1].raw == WireOf(s, items)
    decreases d, 2, 0
  {
    hide WireOf, Tiles, WalkElems, WalkFields, Get16;
    if d.kind.Scalar? {
      ScalarTiles(s, d, index, pos);
      if d.encoding == ENCODING_STRUCT {
        FieldsTile(s, d.children, pos);
        assert s.payload[pos..pos + 0] == [];
        BracketTiles(s, ItemOf(s, StructBegin, d.(kind := Scalar), pos, [], 0, index), StructEnd, pos, WalkFields(s, d.children, pos));
      }
    } else if ReadCount(s, d, pos).Ok? {
      var c := ReadCount(s, d, pos).value;
      var begin := ItemOf(s, ArrayBegin, d, pos, [], c.1, -1);
      CountTiles(s, d, pos, begin);
      ElemsTile(s, d, c.1, 0, c.0);
      BracketTiles(s, begin, ArrayEnd, pos, WalkElems(s, d, c.1, 0, c.0));
    } else {
      NothingTiles(s, pos, WalkField(s, d, index, pos).end);
    }
  }

  lemma CountTiles(s: Source, d: Def, pos: nat, begin: Item)
    requires pos <= |s.payload| && !d.kind.Scalar? && ReadCount(s, d, pos).Ok?
    requires begin == ItemOf(s, ArrayBegin, d, pos, [], ReadCount(s, d, pos).value.1, -1)
    ensures At(s.payload, pos, OwnWire(s, begin)) && pos + |OwnWire(s, begin)| == ReadCount(s, d, pos).value.0
  {
    if d.kind.Variable? {
      Put16Get16(s.order, s.payload, pos);
    }
  }

  /** Over any definitions and any payload, well-formed or not: the items tile what
      was consumed, without gap or overlap. */
  lemma {:induction false} FieldsTile(s: Source, ds: seq<Def>, pos: nat)
    requires pos <= |s.payload|
    ensures Tiles(s, WalkFields(s, ds, pos), pos)
    decreases ds, 3, 0
  {
    hide WireOf, Tiles, WalkField;
    if ds == [] {
      NothingTiles(s, pos, Ok(pos));
    } else {
      FieldTiles(s, ds[0], -1, pos);
      var w := WalkField(s, ds[0], -1, pos);
      if w.end.Ok? {
        FieldsTile(s, ds[1..], w.end.value);
        TilesThen(s, w, WalkFields(s, ds[1..], w.end.value), pos);
      }
    }
  }
}
