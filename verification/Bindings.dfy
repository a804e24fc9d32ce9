/** The precompiled producer, second half: a binding collects the values of one
    schema, and an event splices its fixed prefix, metadata and payload. */
module Bindings {
  import opened Wire
  import opened Format
  import opened Clock
  import opened Semantics
  import opened Building
  import opened Schemas
  import opened SchemaMeaning

  /** Room for metadata before any value is bound. */
  lemma SchemaRoom(schema: Schema)
    requires schema.Valid()
    ensures ValidName(schema.options.name)
    ensures schema.plan == PlansOf(schema.fields) && Bindable(schema.plan)
    ensures |schema.metadata| <= MAX_COUNT && |schema.metadata| <= MAX_METADATA_PAYLOAD
  {
    hide ValidName, CompileDefs, AllConstructed, AllShaped, PlansOf;
    var least :| CompileSchema(schema.order, schema.pointer64, schema.options.name, schema.fields)
                 == Ok(Compiled(schema.metadata, schema.plan, least));
    var start := Compiled(schema.options.name + [0], [], 0);
    CompileAllExact(schema.order, schema.pointer64, start, schema.fields, 0);
    assert [] + PlansOf(schema.fields) == PlansOf(schema.fields);
    AllShapedBindable(schema.pointer64, schema.fields, 0);
  }

  /** The tree a complete binding of a schema stands for. */
  ghost function BoundTree(schema: Schema, values: seq<seq<Bytes>>): seq<Node>
    requires schema.Valid() && SlotsFit(schema.pointer64, schema.plan, values)
  {
    SchemaRoom(schema);
    FillAll(schema.fields, values)
  }

  class Binding {
    const schema: Schema?
    var payload: Bytes
    var index: nat
    /** The values bound so far, in plan order. */
    ghost var values: seq<seq<Bytes>>

    ghost predicate Valid()
      reads this
    {
      schema != null ==>
        && schema.Valid()
        && index <= |schema.plan|
        && SlotsFit(schema.pointer64, schema.plan[..index], values)
        && payload == SlotsPayload(schema.order, schema.pointer64, schema.plan[..index], values)
        && |schema.metadata| + |payload| <= MAX_METADATA_PAYLOAD
    }

    constructor (schema: Schema?)
      requires schema != null ==> schema.Valid()
      ensures Valid() && this.schema == schema && index == 0 && payload == [] && values == []
    {
      this.schema := schema;
      payload, index, values := [], 0, [];
      new;
      if schema != null {
        SchemaRoom(schema);
      }
    }

    method Reset()
      requires Valid()
      modifies this
      ensures Valid() && index == 0 && payload == [] && values == []
    {
      payload, index, values := [], 0, [];
      if schema != null {
        SchemaRoom(schema);
      }
    }

    method Complete() returns (err: Option<BuildError>)
      requires Valid()
      ensures err.None? <==> schema != null && index == |schema.plan|
      ensures err.None? ==>
        && SlotsFit(schema.pointer64, schema.plan, values)
        && payload == SlotsPayload(schema.order, schema.pointer64, schema.plan, values)
      ensures err.Some? ==> err == Some(ErrState)
    {
      if schema == null || index != |schema.plan| {
        return Some(ErrState);
      }
      assert schema.plan[..index] == schema.plan;
      return None;
    }

    /** The next plan entry is of this kind and shape. */
    ghost predicate Awaits(kind: ValueKind, isArray: bool)
      reads this
    {
      && schema != null && index < |schema.plan|
      && schema.plan[index].kind == kind
      && (isArray <==> schema.plan[index].arrayKind in {Fixed, Variable})
    }

    /** `elems` is what the next plan entry takes, and it fits the event. */
    ghost predicate Takes(kind: ValueKind, isArray: bool, elems: seq<Bytes>)
      reads this
    {
      && Awaits(kind, isArray)
      && SlotFits(schema.pointer64, schema.plan[index], elems)
      && |schema.metadata| + |payload| + |SlotPayload(schema.order, schema.pointer64, schema.plan[index], elems)| <= 65467
    }

    /** `check` */
    function Check(kind: ValueKind, isArray: bool, count: nat): (r: Option<BuildError>)
      reads this
      ensures r == Some(ErrState) <==> !Awaits(kind, isArray)
      ensures r == Some(ErrCountTooLarge) <==> Awaits(kind, isArray) && isArray && count >= 0x1_0000
      ensures r == Some(ErrInvalidValue) <==>
              Awaits(kind, isArray) && schema.plan[index].arrayKind.Fixed? && count < 0x1_0000 && count != schema.plan[index].arrayCount
      ensures r in {None, Some(ErrState), Some(ErrCountTooLarge), Some(ErrInvalidValue)}
    {
      if schema == null then Some(ErrState)
      else if index >= |schema.plan| then Some(ErrState)
      else
        var plan := schema.plan[index];
        if plan.kind != kind then Some(ErrState)
        else if isArray != !plan.arrayKind.Scalar? then Some(ErrState)
        else if !isArray then None
        else if count > MAX_COUNT then Some(ErrCountTooLarge)
        else if plan.arrayKind.Fixed? && count != plan.arrayCount then Some(ErrInvalidValue)
        else None
    }

    function PrefixSize(): nat
      requires schema != null && index < |schema.plan|
      reads this
    {
      if schema.plan[index].arrayKind.Variable? then 2 else 0
    }

    /** Why `dataSize` bytes of values cannot be bound next, if they cannot. */
    function BindError(kind: ValueKind, isArray: bool, count: nat, dataSize: nat): (r: Option<BuildError>)
      reads this
      ensures r == Some(ErrEventTooLarge) <==>
              && Check(kind, isArray, count).None?
              && |schema.metadata| + |payload| + dataSize + (if schema.plan[index].arrayKind.Variable? then 2 else 0) > 65467
      ensures r != Some(ErrEventTooLarge) ==> r == Check(kind, isArray, count)
    {
      var e := Check(kind, isArray, count);
      if e.Some? then e
      else if |schema.metadata| + |payload| + PrefixSize() + dataSize > MAX_METADATA_PAYLOAD then Some(ErrEventTooLarge)
      else None
    }

    /** `begin`: makes room for the values and writes the count of a variable
        array; on success the values belong at offset `at`. */
    method Begin(kind: ValueKind, isArray: bool, count: nat, dataSize: nat) returns (err: Option<BuildError>, at: nat)
      requires Valid()
      modifies this`payload, this`index
      ensures err == old(BindError(kind, isArray, count, dataSize))
      ensures err.Some? ==> payload == old(payload) && index == old(index)
      ensures err.None? ==>
        && schema != null && old(index) < |schema.plan|
        && (schema.plan[old(index)].arrayKind.Variable? ==> count <= MAX_COUNT)
        && var counted := if schema.plan[old(index)].arrayKind.Variable? then Put16(schema.order, count) else [];
           && index == old(index) + 1
           && at == |old(payload)| + |counted|
           && |payload| == at + dataSize
           && payload[..at] == old(payload) + counted
    {
      hide SlotsPayload, SlotsFit, Put16;
      at := 0;
      err := Check(kind, isArray, count);
      if err.Some? {
        return;
      }
      var plan := schema.plan[index];
      var prefixSize := 0;
      if plan.arrayKind.Variable? {
        prefixSize := 2;
      }
      if dataSize > MAX_METADATA_PAYLOAD - prefixSize - |payload| ||
         |schema.metadata| + |payload| + prefixSize + dataSize > MAX_METADATA_PAYLOAD {
        return Some(ErrEventTooLarge), 0;
      }
      at := |payload| + prefixSize;
      if prefixSize != 0 {
        payload := payload + Put16(schema.order, count);
      }
      assert payload == old(payload) + if plan.arrayKind.Variable? then Put16(schema.order, count) else [];
      payload := payload + seq(dataSize, _ => 0);
      index := index + 1;
    }

    /** The loops that fill the bytes `begin` returned. */
    method WriteAt(at: nat, data: Bytes)
      requires at + |data| == |payload|
      modifies this`payload
      ensures payload == old(payload)[..at] + data
    {
      var i := 0;
      while i < |data|
        invariant 0 <= i <= |data| && |payload| == at + |data|
        invariant payload[..at + i] == old(payload)[..at] + data[..i]
      {
        payload := payload[at + i := data[i]];
        i := i + 1;
        assert payload[..at + i] == old(payload)[..at] + (data[..i - 1] + [data[i - 1]]);
        assert data[..i] == data[..i - 1] + [data[i - 1]];
      }
      assert data[..i] == data && payload[..at + i] == payload;
    }

    /** Bound the values, or left the binding as it was. */
    twostate predicate Bound(elems: seq<Bytes>, err: Option<BuildError>)
      reads this
    {
      && Valid()
      && (err.Some? ==> payload == old(payload) && index == old(index) && values == old(values))
      && (err.None? ==> index == old(index) + 1 && values == old(values) + [elems])
    }

    /** One value or array: `data` is the wire form of `elems`. */
    method Bind(kind: ValueKind, isArray: bool, count: nat, data: Bytes, ghost elems: seq<Bytes>) returns (err: Option<BuildError>)
      requires Valid() && IsValue(kind)
      requires |elems| == count && (!isArray ==> count == 1) && KindElems(kind, elems)
      requires schema != null ==>
        && ValidElems(KindEncoding(schema.pointer64, kind), elems)
        && data == WireElems(schema.order, KindEncoding(schema.pointer64, kind), elems)
      modifies this
      ensures err == old(BindError(kind, isArray, count, |data|))
      ensures err.None? <==> old(Takes(kind, isArray, elems))
      ensures err == Some(ErrEventTooLarge) ==> old(Awaits(kind, isArray)) && SlotFits(schema.pointer64, schema.plan[old(index)], elems)
      ensures Bound(elems, err)
    {
      hide SlotsPayload, SlotsFit, Put16, WireElems, ValidElems, KindElems, Takes, SlotFits, KindEncoding, SlotPayload;
      var at;
      ghost var payload0 := payload;
      TakenIffFits(kind, isArray, data, elems);
      err, at := Begin(kind, isArray, count, |data|);
      if err.Some? {
        return;
      }
      WriteAt(at, data);
      values := values + [elems];
      ghost var p := schema.plan[index - 1];
      BoundSlot(schema.order, schema.pointer64, p, isArray, elems);
      SlotsSnoc(schema.order, schema.pointer64, schema.plan[..index - 1], p, old(values), elems);
      assert schema.plan[..index] == schema.plan[..index - 1] + [p];
      assert payload == payload0 + SlotPayload(schema.order, schema.pointer64, p, elems);
    }

    /** A value is refused only for its kind and shape, its number of elements, or
        the size of the event. */
    lemma TakenIffFits(kind: ValueKind, isArray: bool, data: Bytes, elems: seq<Bytes>)
      requires Valid() && IsValue(kind) && (!isArray ==> |elems| == 1) && KindElems(kind, elems)
      requires schema != null ==>
        && ValidElems(KindEncoding(schema.pointer64, kind), elems)
        && data == WireElems(schema.order, KindEncoding(schema.pointer64, kind), elems)
      ensures BindError(kind, isArray, |elems|, |data|).None? <==> Takes(kind, isArray, elems)
      ensures BindError(kind, isArray, |elems|, |data|) == Some(ErrEventTooLarge) ==>
                Awaits(kind, isArray) && SlotFits(schema.pointer64, schema.plan[index], elems)
    {
      hide Valid, ValidElems, WireElems, KindElems, Put16;
    }

    method Int32(value: int) returns (err: Option<BuildError>)
      requires Valid() && schema != null && -0x8000_0000 <= value < 0x8000_0000
      modifies this
      ensures err == old(BindError(KindInt32, false, 1, 4))
      ensures Bound([Put(schema.order, 4, Wrap(4, value))], err)
    {
      hide Valid, BindError, WireElems, ValidElems;
      var data := Put(schema.order, 4, Wrap(4, value));
      OneElem(schema.order, ENCODING_VALUE32, data);
      err := Bind(KindInt32, false, 1, data, [data]);
    }

    method Bool(value: bool) returns (err: Option<BuildError>)
      requires Valid() && schema != null
      modifies this
      ensures err == old(BindError(KindBool, false, 1, 1))
      ensures Bound([[if value then 1 else 0]], err)
    {
      hide Valid, BindError, WireElems, ValidElems;
      var data: Bytes := [0];
      if value {
        data := [1];
      }
      OneElem(schema.order, ENCODING_VALUE8, data);
      err := Bind(KindBool, false, 1, data, [data]);
    }

    method Port(value: u16) returns (err: Option<BuildError>)
      requires Valid() && schema != null
      modifies this
      ensures err == old(BindError(KindPort, false, 1, 2))
      ensures Bound([Put(Big, 2, value)], err)
    {
      hide Valid, BindError, WireElems, ValidElems;
      var data := Put(Big, 2, value);
      OneElem(schema.order, ENCODING_VALUE16, data);
      err := Bind(KindPort, false, 1, data, [data]);
    }

    method String(value: Bytes) returns (err: Option<BuildError>)
      requires Valid() && schema != null
      modifies this
      ensures err == (var e := old(Check(KindString, false, 1));
                      if e.Some? then e
                      else if StringError(value).Some? then StringError(value)
                      else old(BindError(KindString, false, 1, 2 + |value|)))
      ensures Bound([value], err)
    {
      hide Valid, WireElems, ValidElems, Utf8Valid;
      err := Check(KindString, false, 1);
      if err.Some? {
        return;
      }
      if !Utf8Valid(value) {
        return Some(ErrInvalidValue);
      }
      if |value| > MAX_COUNT {
        return Some(ErrCountTooLarge);
      }
      OneElem(schema.order, ENCODING_STRING8, value);
      err := Bind(KindString, false, 1, Put16(schema.order, |value|) + value, [value]);
    }

    method Uint16Array(elements: seq<u16>) returns (err: Option<BuildError>)
      requires Valid() && schema != null
      modifies this
      ensures err == old(BindError(KindUint16, true, |elements|, 2 * |elements|))
      ensures Bound(seq(|elements|, i requires 0 <= i < |elements| => Put16(schema.order, elements[i])), err)
    {
      hide Valid, Put16, BindError;
      var data: Bytes := [];
      ghost var elems: seq<Bytes> := [];
      var i := 0;
      while i < |elements|
        invariant unchanged(this)
        invariant 0 <= i <= |elements| && |elems| == i && |data| == 2 * i
        invariant forall k :: 0 <= k < i ==> elems[k] == Put16(schema.order, elements[k])
        invariant ValidElems(ENCODING_VALUE16, elems) && data == WireElems(schema.order, ENCODING_VALUE16, elems)
      {
        var encoded := Put16(schema.order, elements[i]);
        OneElem(schema.order, ENCODING_VALUE16, encoded);
        WireElemsConcat(schema.order, ENCODING_VALUE16, elems, [encoded]);
        data := data + encoded;
        elems := elems + [encoded];
        i := i + 1;
      }
      assert elems == seq(|elements|, i requires 0 <= i < |elements| => Put16(schema.order, elements[i]));
      err := Bind(KindUint16, true, |elements|, data, elems);
    }

    method StringArray(elements: seq<Bytes>) returns (err: Option<BuildError>)
      requires Valid() && schema != null
      modifies this
      ensures err == (var e := old(Check(KindString, true, |elements|));
                      if e.Some? then e
                      else if FirstBindError(elements, 0).Some? then FirstBindError(elements, 0)
                      else old(BindError(KindString, true, |elements|, StringsSize(elements))))
      ensures Bound(elements, err)
    {
      hide Valid, Put16, Utf8Valid, WireElems, ValidElems, BindError;
      err := Check(KindString, true, |elements|);
      if err.Some? {
        return;
      }
      var data: Bytes := [];
      var i := 0;
      NoStrings(schema.order, elements);
      while i < |elements|
        invariant unchanged(this)
        invariant 0 <= i <= |elements|
        invariant FirstBindError(elements, 0) == FirstBindError(elements[i..], |data|)
        invariant |data| + StringsSize(elements[i..]) == StringsSize(elements)
        invariant KindElems(KindString, elements[..i])
        invariant ValidElems(ENCODING_STRING8, elements[..i]) && data == WireElems(schema.order, ENCODING_STRING8, elements[..i])
      {
        assert elements[i..][0] == elements[i] && elements[i..][1..] == elements[i + 1..];
        if !Utf8Valid(elements[i]) {
          return Some(ErrInvalidValue);
        }
        if |elements[i]| > MAX_COUNT {
          return Some(ErrCountTooLarge);
        }
        if |elements[i]| + 2 > MAX_METADATA_PAYLOAD - |data| {
          return Some(ErrEventTooLarge);
        }
        OneElem(schema.order, ENCODING_STRING8, elements[i]);
        WireElemsConcat(schema.order, ENCODING_STRING8, elements[..i], [elements[i]]);
        assert elements[..i + 1] == elements[..i] + [elements[i]];
        data := data + (Put16(schema.order, |elements[i]|) + elements[i]);
        i := i + 1;
      }
      assert elements[..i] == elements;
      err := Bind(KindString, true, |elements|, data, elements);
    }
  }

  /** A caller that binds the values of a whole schema in plan order: every call
      succeeds if the values fit an event together, and the first that does not
      fit behind those before it is refused for its size if they do not. */
  method BindAll(b: Binding, all: seq<seq<Bytes>>) returns (err: Option<BuildError>)
    requires b.Valid() && b.schema != null && b.index == 0 && b.values == []
    requires SlotsFit(b.schema.pointer64, b.schema.plan, all)
    modifies b
    ensures b.Valid()
    ensures var size := |b.schema.metadata| + |SlotsPayload(b.schema.order, b.schema.pointer64, b.schema.plan, all)|;
            if size <= 65467 then err.None? && b.index == |b.schema.plan| && b.values == all
            else err == Some(ErrEventTooLarge)
  {
    hide SlotsPayload, SlotPayload, WireElems, ValidElems, KindElems, Put16;
    var schema := b.schema;
    SchemaRoom(schema);
    var i := 0;
    while i < |all|
      invariant 0 <= i <= |all| && b.Valid() && b.index == i && b.values == all[..i]
    {
      var p := schema.plan[i];
      assert SlotFits(schema.pointer64, p, all[i]);
      SlotsSplit(schema.pointer64, schema.plan[..i], schema.plan[i..], all);
      Onward(schema.order, schema.pointer64, schema.plan, all, i);
      var data := WireElems(schema.order, KindEncoding(schema.pointer64, p.kind), all[i]);
      err := b.Bind(p.kind, !p.arrayKind.Scalar?, |all[i]|, data, all[i]);
      if err.Some? {
        return;
      }
      assert all[..i + 1] == all[..i] + [all[i]];
      i := i + 1;
    }
    assert all[..i] == all && schema.plan[..i] == schema.plan;
    err := b.Complete();
  }

  /** What is bound so far and the next value are no longer than the whole. */
  lemma Onward(order: ByteOrder, pointer64: bool, plan: seq<ValuePlan>, all: seq<seq<Bytes>>, i: nat)
    requires SlotsFit(pointer64, plan, all) && i < |plan|
    ensures SlotsFit(pointer64, plan[..i], all[..i]) && SlotFits(pointer64, plan[i], all[i])
    ensures |SlotsPayload(order, pointer64, plan[..i], all[..i])| + |SlotPayload(order, pointer64, plan[i], all[i])|
         <= |SlotsPayload(order, pointer64, plan, all)|
  {
    hide SlotFits, SlotPayload;
    assert plan[..i] + plan[i..] == plan && all[..i] + all[i..] == all;
    SlotsConcat(order, pointer64, plan[..i], plan[i..], all[..i], all[i..]);
    assert plan[i..][0] == plan[i] && all[i..][0] == all[i];
  }

  /** Bytes of an array of strings, each with its length. */
  function StringsSize(elements: seq<Bytes>): nat {
    if elements == [] then 0 else |elements[0]| + 2 + StringsSize(elements[1..])
  }

  /** The error of the first string that is invalid, too long, or does not fit
      behind `size` bytes of strings. */
  function FirstBindError(elements: seq<Bytes>, size: nat): Option<BuildError> {
    if elements == [] then None
    else if StringError(elements[0]).Some? then StringError(elements[0])
    else if |elements[0]| + 2 > MAX_METADATA_PAYLOAD - size then Some(ErrEventTooLarge)
    else FirstBindError(elements[1..], size + |elements[0]| + 2)
  }

  /** Over valid strings the loop gives up early exactly when the array as a whole
      exceeds an event. */
  lemma {:induction false} EarlyIsExact(elements: seq<Bytes>, size: nat)
    requires FirstStringError(elements).None? && size <= MAX_METADATA_PAYLOAD
    ensures FirstBindError(elements, size)
         == if size + StringsSize(elements) > MAX_METADATA_PAYLOAD then Some(ErrEventTooLarge) else None
    decreases elements
  {
    hide StringError;
    if elements != [] && |elements[0]| + 2 <= MAX_METADATA_PAYLOAD - size {
      EarlyIsExact(elements[1..], size + |elements[0]| + 2);
    }
  }

  lemma NoStrings(order: ByteOrder, elements: seq<Bytes>)
    ensures ValidElems(ENCODING_STRING8, elements[..0]) && WireElems(order, ENCODING_STRING8, elements[..0]) == []
  {
  }

  lemma BoundSlot(order: ByteOrder, pointer64: bool, p: ValuePlan, isArray: bool, elems: seq<Bytes>)
    requires IsValue(p.kind) && ValidElems(KindEncoding(pointer64, p.kind), elems) && KindElems(p.kind, elems)
    requires isArray == !p.arrayKind.Scalar? && (!isArray ==> |elems| == 1)
    requires isArray ==> |elems| <= MAX_COUNT && (p.arrayKind.Fixed? ==> |elems| == p.arrayCount)
    ensures SlotFits(pointer64, p, elems)
    ensures SlotPayload(order, pointer64, p, elems)
         == (if p.arrayKind.Variable? then Put16(order, |elems|) else []) + WireElems(order, KindEncoding(pointer64, p.kind), elems)
  {
  }

  lemma SlotsSnoc(order: ByteOrder, pointer64: bool, plan: seq<ValuePlan>, p: ValuePlan, values: seq<seq<Bytes>>, v: seq<Bytes>)
    requires SlotsFit(pointer64, plan, values) && SlotFits(pointer64, p, v)
    ensures SlotsFit(pointer64, plan + [p], values + [v])
    ensures SlotsPayload(order, pointer64, plan + [p], values + [v])
         == SlotsPayload(order, pointer64, plan, values) + SlotPayload(order, pointer64, p, v)
  {
    hide SlotFits, SlotPayload;
    SlotsConcat(order, pointer64, plan, [p], values, [v]);
    assert [p][1..] == [] && [v][1..] == [];
    assert SlotsPayload(order, pointer64, [p], [v]) == SlotPayload(order, pointer64, p, v) + SlotsPayload(order, pointer64, [], []);
  }
}
