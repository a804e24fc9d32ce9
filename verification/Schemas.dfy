/** The precompiled producer, first half: field definitions and their compilation
    into metadata, a flat plan of values and a least payload size. */
module Schemas {
  import opened Wire
  import opened Format
  import opened Semantics
  import opened Building

  // --------------------------------------------------------------- value kinds

  datatype ValueKind =
    | KindInvalid
    | KindInt8 | KindUint8 | KindInt16 | KindUint16 | KindInt32 | KindUint32 | KindInt64 | KindUint64
    | KindBool | KindFloat32 | KindFloat64 | KindUintptr | KindUUID | KindIPv4 | KindIPv6 | KindPort
    | KindString | KindUTF16 | KindBinary
    | KindStruct

  predicate IsValue(kind: ValueKind) { !kind.KindInvalid? && !kind.KindStruct? }

  /** The encoding the typed constructor of a kind chooses. */
  function KindEncoding(pointer64: bool, kind: ValueKind): (e: byte)
    ensures IsValue(kind) ==> Writable(e)
    ensures kind.KindStruct? ==> e == ENCODING_STRUCT
  {
    match kind
    case KindInvalid => 0
    case KindStruct => ENCODING_STRUCT
    case KindInt8 => ENCODING_VALUE8
    case KindUint8 => ENCODING_VALUE8
    case KindBool => ENCODING_VALUE8
    case KindInt16 => ENCODING_VALUE16
    case KindUint16 => ENCODING_VALUE16
    case KindPort => ENCODING_VALUE16
    case KindInt32 => ENCODING_VALUE32
    case KindUint32 => ENCODING_VALUE32
    case KindFloat32 => ENCODING_VALUE32
    case KindIPv4 => ENCODING_VALUE32
    case KindInt64 => ENCODING_VALUE64
    case KindUint64 => ENCODING_VALUE64
    case KindFloat64 => ENCODING_VALUE64
    case KindUintptr => if pointer64 then ENCODING_VALUE64 else ENCODING_VALUE32
    case KindUUID => ENCODING_VALUE128
    case KindIPv6 => ENCODING_VALUE128
    case KindString => ENCODING_STRING8
    case KindUTF16 => ENCODING_STRING16
    case KindBinary => ENCODING_BINARY
  }

  function KindFormat(kind: ValueKind): (f: byte)
    ensures f < CHAIN_FLAG
  {
    match kind
    case KindInt8 => FORMAT_SIGNED
    case KindInt16 => FORMAT_SIGNED
    case KindInt32 => FORMAT_SIGNED
    case KindInt64 => FORMAT_SIGNED
    case KindBool => FORMAT_BOOLEAN
    case KindFloat32 => FORMAT_FLOAT
    case KindFloat64 => FORMAT_FLOAT
    case KindUUID => FORMAT_UUID
    case KindIPv4 => FORMAT_IP
    case KindIPv6 => FORMAT_IP
    case KindPort => FORMAT_PORT
    case _ => FORMAT_DEFAULT
  }

  function MinimumValueSize(pointer64: bool, kind: ValueKind): nat {
    match kind
    case KindInt8 => 1
    case KindUint8 => 1
    case KindBool => 1
    case KindInt16 => 2
    case KindUint16 => 2
    case KindPort => 2
    case KindInt32 => 4
    case KindUint32 => 4
    case KindFloat32 => 4
    case KindIPv4 => 4
    case KindInt64 => 8
    case KindUint64 => 8
    case KindFloat64 => 8
    case KindUintptr => if pointer64 then 8 else 4
    case KindUUID => 16
    case KindIPv6 => 16
    case KindString => 2
    case KindUTF16 => 2
    case KindBinary => 2
    case _ => 0
  }

  // --------------------------------------------------------------- definitions

  datatype FieldDefinition = FieldDefinition(
    name: Bytes, kind: ValueKind, encoding: byte, format: byte, options: seq<FieldOptions>,
    arrayKind: byte, arrayCount: u16, countArgs: int, arrayField: bool, children: seq<FieldDefinition>)

  function ScalarField(pointer64: bool, name: Bytes, kind: ValueKind, options: seq<FieldOptions>): FieldDefinition
    requires IsValue(kind)
  {
    FieldDefinition(name, kind, KindEncoding(pointer64, kind), KindFormat(kind), options, 0, 0, 0, false, [])
  }

  function ArrayField(element: FieldDefinition, kind: byte, count: seq<u16>): FieldDefinition {
    element.(arrayKind := kind,
             countArgs := if element.arrayField then -1 else |count|,
             arrayField := true,
             arrayCount := if |count| != 0 then count[0] else element.arrayCount)
  }

  function StructField(name: Bytes, fields: seq<FieldDefinition>, options: seq<FieldOptions>): FieldDefinition {
    FieldDefinition(name, KindStruct, ENCODING_STRUCT, 0, options, 0, 0, 0, false, fields)
  }

  /** What the constructors can produce, the zero value included. */
  predicate Constructed(pointer64: bool, d: FieldDefinition)
    decreases d, 0
  {
    && d.encoding == KindEncoding(pointer64, d.kind)
    && d.format == KindFormat(d.kind)
    && (!d.arrayField ==> d.arrayKind == 0 && d.countArgs == 0)
    && (!d.kind.KindStruct? ==> d.children == [])
    && AllConstructed(pointer64, d.children)
  }

  predicate AllConstructed(pointer64: bool, ds: seq<FieldDefinition>)
    decreases ds, 1
  {
    forall i :: 0 <= i < |ds| ==> Constructed(pointer64, ds[i])
  }

  lemma ConstructorsConstruct(pointer64: bool, name: Bytes, kind: ValueKind, options: seq<FieldOptions>,
                              element: FieldDefinition, arrayKind: byte, count: seq<u16>, fields: seq<FieldDefinition>)
    requires IsValue(kind) && Constructed(pointer64, element) && AllConstructed(pointer64, fields)
    ensures Constructed(pointer64, ScalarField(pointer64, name, kind, options))
    ensures Constructed(pointer64, ArrayField(element, arrayKind, count))
    ensures Constructed(pointer64, StructField(name, fields, options))
  {
  }

  // --------------------------------------------------------------- compilation

  /** One value the binding must supply. */
  datatype ValuePlan = ValuePlan(kind: ValueKind, arrayKind: ArrayKind, arrayCount: u16)

  datatype Compiled = Compiled(metadata: Bytes, plan: seq<ValuePlan>, minPayload: int)

  /** Go's division, which truncates toward zero. */
  function Quotient(a: int, b: int): int
    requires b > 0
  {
    if a >= 0 then a / b else -(-a / b)
  }

  function ArrayKindOf(d: FieldDefinition): Result<ArrayKind, BuildError> {
    if d.arrayKind == 0 then
      if d.arrayField || d.countArgs != 0 then Err(ErrInvalidValue) else Ok(Scalar)
    else if d.arrayKind == 1 then
      if d.countArgs != 1 || d.arrayCount == 0 then Err(ErrInvalidValue) else Ok(Fixed)
    else if d.arrayKind == 2 then
      if d.countArgs != 0 then Err(ErrInvalidValue) else Ok(Variable)
    else Err(ErrInvalidValue)
  }

  /** The least payload after a value, or that it cannot fit. */
  function GrowPayload(pointer64: bool, minPayload: int, kind: ValueKind, arrayKind: ArrayKind, arrayCount: u16): Result<int, BuildError> {
    var elementSize := MinimumValueSize(pointer64, kind);
    var count: int := if arrayKind.Fixed? then arrayCount else if arrayKind.Variable? then 0 else 1;
    var base := if arrayKind.Variable? then minPayload + 2 else minPayload;
    if elementSize != 0 && count > Quotient(MAX_METADATA_PAYLOAD - base, elementSize) then Err(ErrEventTooLarge)
    else Ok(base + count * elementSize)
  }

  /** The metadata of a value field, as `appendDefinition` writes it. */
  function ValueMeta(order: ByteOrder, d: FieldDefinition, kind: ArrayKind, option: FieldOptions): Bytes
    requires d.encoding < 0x20 && option.format < CHAIN_FLAG
  {
    var encoded: byte := d.encoding + KindFlag(kind);
    d.name + [0]
    + (if option.format != 0 || option.tag != 0
       then [encoded + CHAIN_FLAG] + FormatBytes(order, option.format, option.tag)
       else [encoded])
    + (if kind.Fixed? then Put16(order, d.arrayCount) else [])
  }

  function CompileValue(order: ByteOrder, pointer64: bool, acc: Compiled, d: FieldDefinition): Result<Compiled, BuildError> {
    if d.children != [] then Err(ErrInvalidValue)
    else if d.encoding == 0 || d.encoding >= 0x20 || d.encoding == ENCODING_STRUCT then Err(ErrInvalidValue)
    else
      match ArrayKindOf(d)
      case Err(e) => Err(e)
      case Ok(kind) =>
        match ResolveOptions(d.format, d.options)
        case Err(e) => Err(e)
        case Ok(option) =>
          match GrowPayload(pointer64, acc.minPayload, d.kind, kind, d.arrayCount)
          case Err(e) => Err(e)
          case Ok(minPayload) =>
            Ok(Compiled(acc.metadata + ValueMeta(order, d, kind, option),
                        acc.plan + [ValuePlan(d.kind, kind, d.arrayCount)], minPayload))
  }

  function CompileDef(order: ByteOrder, pointer64: bool, acc: Compiled, d: FieldDefinition, depth: nat): Result<Compiled, BuildError>
    decreases d, 0
  {
    if !ValidName(d.name) then Err(ErrInvalidName)
    else if d.kind.KindInvalid? then Err(ErrInvalidValue)
    else if |d.options| > 1 then Err(ErrInvalidValue)
    else if !d.kind.KindStruct? then CompileValue(order, pointer64, acc, d)
    else if d.arrayField then Err(ErrStructArrayUnsupported)
    else if depth >= MAX_STRUCT_DEPTH then Err(ErrNestingTooDeep)
    else if |d.children| == 0 then Err(ErrInvalidValue)
    else if |d.children| > MAX_STRUCT_CHILDREN then Err(ErrTooManyFields)
    else
      match ResolveOptions(0, d.options)
      case Err(e) => Err(e)
      case Ok(option) =>
        if option.format != 0 then Err(ErrInvalidValue)
        else CompileDefs(order, pointer64,
                         acc.(metadata := acc.metadata + StructHead(order, d.name, option.tag, |d.children|)),
                         d.children, depth + 1)
  }

  function CompileDefs(order: ByteOrder, pointer64: bool, acc: Compiled, ds: seq<FieldDefinition>, depth: nat): Result<Compiled, BuildError>
    decreases ds, 1
  {
    if ds == [] then Ok(acc)
    else
      match CompileDef(order, pointer64, acc, ds[0], depth)
      case Err(e) => Err(e)
      case Ok(next) => CompileDefs(order, pointer64, next, ds[1..], depth)
  }

  function CompileSchema(order: ByteOrder, pointer64: bool, name: Bytes, ds: seq<FieldDefinition>): Result<Compiled, BuildError> {
    if !ValidName(name) then Err(ErrInvalidName)
    else
      match CompileDefs(order, pointer64, Compiled(name + [0], [], 0), ds, 0)
      case Err(e) => Err(e)
      case Ok(c) =>
        if |c.metadata| > MAX_COUNT then Err(ErrMetadataTooLarge)
        else if |c.metadata| + c.minPayload > MAX_METADATA_PAYLOAD then Err(ErrEventTooLarge)
        else Ok(c)
  }

  datatype SchemaOptions = SchemaOptions(name: Bytes, id: u16, version: byte, tag: u16, opcode: byte)

  /** An accepted definition tree; `fields` records what was compiled. */
  class Schema {
    const order: ByteOrder
    const pointer64: bool
    const options: SchemaOptions
    const metadata: Bytes
    const plan: seq<ValuePlan>
    ghost const fields: seq<FieldDefinition>

    ghost predicate Valid() {
      && AllConstructed(pointer64, fields)
      && exists least :: CompileSchema(order, pointer64, options.name, fields) == Ok(Compiled(metadata, plan, least))
    }

    constructor (order: ByteOrder, pointer64: bool, options: SchemaOptions, compiled: Compiled, ghost fields: seq<FieldDefinition>)
      requires AllConstructed(pointer64, fields)
      requires CompileSchema(order, pointer64, options.name, fields) == Ok(compiled)
      ensures Valid()
      ensures this.order == order && this.pointer64 == pointer64 && this.options == options && this.fields == fields
      ensures metadata == compiled.metadata && plan == compiled.plan
    {
      this.order, this.pointer64, this.options, this.fields := order, pointer64, options, fields;
      metadata, plan := compiled.metadata, compiled.plan;
    }
  }

  /** `appendDefinition`: the accumulators grow in a loop over the children. */
  method AppendDefinition(order: ByteOrder, pointer64: bool, acc: Compiled, d: FieldDefinition, depth: nat)
    returns (r: Result<Compiled, BuildError>)
    ensures r == CompileDef(order, pointer64, acc, d, depth)
    decreases d
  {
    hide ValidName, CompileValue, StructHead;
    if !ValidName(d.name) {
      return Err(ErrInvalidName);
    }
    if d.kind.KindInvalid? || |d.options| > 1 {
      return Err(ErrInvalidValue);
    }
    if !d.kind.KindStruct? {
      r := AppendValue(order, pointer64, acc, d);
      return;
    }
    if d.arrayField {
      return Err(ErrStructArrayUnsupported);
    }
    if depth >= MAX_STRUCT_DEPTH {
      return Err(ErrNestingTooDeep);
    }
    if |d.children| == 0 {
      return Err(ErrInvalidValue);
    }
    if |d.children| > MAX_STRUCT_CHILDREN {
      return Err(ErrTooManyFields);
    }
    var option := ResolveOptions(0, d.options);
    if option.Err? {
      return Err(option.error);
    }
    if option.value.format != 0 {
      return Err(ErrInvalidValue);
    }
    var current := acc.(metadata := acc.metadata + StructHead(order, d.name, option.value.tag, |d.children|));
    ghost var start := current;
    var i := 0;
    while i < |d.children|
      invariant 0 <= i <= |d.children|
      invariant CompileDefs(order, pointer64, start, d.children, depth + 1)
             == CompileDefs(order, pointer64, current, d.children[i..], depth + 1)
    {
      var next := AppendDefinition(order, pointer64, current, d.children[i], depth + 1);
      assert d.children[i..][1..] == d.children[i + 1..];
      if next.Err? {
        return Err(next.error);
      }
      current := next.value;
      i := i + 1;
    }
    return Ok(current);
  }

  /** The value part of `appendDefinition`. */
  method AppendValue(order: ByteOrder, pointer64: bool, acc: Compiled, d: FieldDefinition) returns (r: Result<Compiled, BuildError>)
    ensures r == CompileValue(order, pointer64, acc, d)
  {
    hide FormatBytes, Put16, GrowPayload;
    if d.children != [] {
      return Err(ErrInvalidValue);
    }
    if d.encoding == 0 || d.encoding >= 0x20 || d.encoding == ENCODING_STRUCT {
      return Err(ErrInvalidValue);
    }
    var kind := ArrayKindOf(d);
    if kind.Err? {
      return Err(kind.error);
    }
    var option := ResolveOptions(d.format, d.options);
    if option.Err? {
      return Err(option.error);
    }
    var encoded: byte := d.encoding;
    if kind.value.Fixed? {
      encoded := encoded + ENCODING_CARRAY_FLAG;
    } else if kind.value.Variable? {
      encoded := encoded + ENCODING_VARRAY_FLAG;
    }
    var metadata := acc.metadata + d.name;
    metadata := metadata + [0];
    if option.value.format != 0 || option.value.tag != 0 {
      metadata := metadata + [encoded + CHAIN_FLAG];
      metadata := metadata + FormatBytes(order, option.value.format, option.value.tag);
    } else {
      metadata := metadata + [encoded];
    }
    if kind.value.Fixed? {
      metadata := metadata + Put16(order, d.arrayCount);
    }
    assert metadata == acc.metadata + ValueMeta(order, d, kind.value, option.value);
    var minPayload := GrowPayload(pointer64, acc.minPayload, d.kind, kind.value, d.arrayCount);
    if minPayload.Err? {
      return Err(minPayload.error);
    }
    return Ok(Compiled(metadata, acc.plan + [ValuePlan(d.kind, kind.value, d.arrayCount)], minPayload.value));
  }

  /** `NewSchema` */
  method NewSchema(order: ByteOrder, pointer64: bool, options: SchemaOptions, fields: seq<FieldDefinition>)
    returns (r: Result<Schema, BuildError>)
    requires AllConstructed(pointer64, fields)
    ensures match CompileSchema(order, pointer64, options.name, fields)
            case Err(e) => r == Err(e)
            case Ok(c) =>
              && r.Ok? && r.value.Valid() && r.value.options == options && r.value.fields == fields
              && r.value.order == order && r.value.pointer64 == pointer64
              && r.value.metadata == c.metadata && r.value.plan == c.plan
  {
    hide ValidName, CompileDef, AllConstructed;
    if !ValidName(options.name) {
      return Err(ErrInvalidName);
    }
    var current := Compiled(options.name + [0], [], 0);
    var i := 0;
    while i < |fields|
      invariant 0 <= i <= |fields|
      invariant CompileDefs(order, pointer64, Compiled(options.name + [0], [], 0), fields, 0)
             == CompileDefs(order, pointer64, current, fields[i..], 0)
    {
      var next := AppendDefinition(order, pointer64, current, fields[i], 0);
      assert fields[i..][1..] == fields[i + 1..];
      if next.Err? {
        return Err(next.error);
      }
      current := next.value;
      i := i + 1;
    }
    if |current.metadata| > MAX_COUNT {
      return Err(ErrMetadataTooLarge);
    }
    if |current.metadata| + current.minPayload > MAX_METADATA_PAYLOAD {
      return Err(ErrEventTooLarge);
    }
    var schema := new Schema(order, pointer64, options, current, fields);
    return Ok(schema);
  }
}
