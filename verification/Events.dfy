/** Writing a bound event, and the law that the precompiled path emits the bytes
    of the dynamic one. */
module Events {
  import opened Wire
  import opened Format
  import opened Semantics
  import opened Building
  import opened Schemas
  import opened SchemaMeaning
  import opened Bindings

  datatype WriteError = ErrClosed | ErrDisabled | Rejected(why: BuildError)

  method CopyInto(a: array<byte>, offset: nat, s: Bytes)
    requires offset + |s| <= a.Length
    modifies a
    ensures a[..offset] == old(a[..offset]) && a[offset..offset + |s|] == s
    ensures a[offset + |s|..] == old(a[offset + |s|..])
  {
    var i := 0;
    while i < |s|
      invariant 0 <= i <= |s|
      invariant forall k :: 0 <= k < offset ==> a[k] == old(a[k])
      invariant forall k :: 0 <= k < i ==> a[offset + k] == s[k]
      invariant forall k :: offset + i <= k < a.Length ==> a[k] == old(a[k])
    {
      a[offset + i] := s[i];
      i := i + 1;
    }
  }

  /** The copy at the end of what has been written so far. */
  method Append(a: array<byte>, offset: nat, s: Bytes, ghost written: Bytes)
    requires offset + |s| <= a.Length && a[..offset] == written
    modifies a
    ensures a[..offset + |s|] == written + s
  {
    CopyInto(a, offset, s);
    assert a[..offset + |s|] == a[..offset] + a[offset..offset + |s|];
  }

  class Event {
    const schema: Schema
    const level: byte
    const prefix: array<byte>

    /** The header of this event with these correlation IDs. */
    function HeaderWith(activity: Option<Guid>, related: Option<Guid>): Header {
      Header(schema.order, schema.pointer64, schema.options.version, schema.options.id, schema.options.tag,
             schema.options.opcode, level, activity, related)
    }

    ghost predicate Valid()
      reads prefix
    {
      && schema.Valid() && 1 <= level <= 5 && |schema.metadata| <= MAX_COUNT
      && prefix[..] == FixedHeader(HeaderWith(None, None)) + MetadataHead(HeaderWith(None, None), |schema.metadata|)
    }

    /** Fills the fixed prefix in place. */
    constructor (schema: Schema, level: byte)
      requires schema.Valid() && 1 <= level <= 5
      ensures Valid() && fresh(prefix) && this.schema == schema && this.level == level
    {
      this.schema, this.level := schema, level;
      prefix := new byte[12](_ => 0);
      new;
      SchemaRoom(schema);
      var h := HeaderWith(None, None);
      hide Put16;
      prefix[0], prefix[1] := HeaderFlags(h), schema.options.version;
      ghost var written: Bytes := [HeaderFlags(h), schema.options.version];
      assert prefix[..2] == written;
      Append(prefix, 2, Put16(schema.order, schema.options.id), written);
      written := written + Put16(schema.order, schema.options.id);
      Append(prefix, 4, Put16(schema.order, schema.options.tag), written);
      written := written + Put16(schema.order, schema.options.tag);
      Append(prefix, 6, [schema.options.opcode, level], written);
      written := written + [schema.options.opcode, level];
      assert written == FixedHeader(h);
      Append(prefix, 8, Put16(schema.order, |schema.metadata|), written);
      written := written + Put16(schema.order, |schema.metadata|);
      Append(prefix, 10, Put16(schema.order, EXTENSION_METADATA), written);
      written := written + Put16(schema.order, EXTENSION_METADATA);
      assert written == FixedHeader(h) + MetadataHead(h, |schema.metadata|);
      assert prefix[..12] == prefix[..];
    }

    /** The segments that `Write` hands to the registration. */
    method Write(binding: Binding, activity: Option<Guid>, related: Option<Guid>, closed: bool, enabled: bool)
      returns (r: Result<(Bytes, Bytes, Bytes), WriteError>)
      requires Valid() && binding.Valid()
      ensures closed ==> r == Err(ErrClosed)
      ensures !closed && !enabled ==> r == Err(ErrDisabled)
      ensures !closed && enabled && related.Some? && activity.None? ==> r == Err(Rejected(ErrInvalidValue))
      ensures !closed && enabled && (related.Some? ==> activity.Some?) ==>
        (r.Ok? <==> binding.schema == schema && binding.index == |schema.plan|) && (r.Err? ==> r.error == Rejected(ErrState))
      ensures r.Ok? ==>
        && binding.schema == schema
        && SlotsFit(schema.pointer64, schema.plan, binding.values)
        && ValidHeader(HeaderWith(activity, related))
        && var tree := BoundTree(schema, binding.values);
           && Encodable(schema.order, schema.options.name, tree)
           && r.value.0 + r.value.1 + r.value.2 == EncodeEvent(HeaderWith(activity, related), schema.options.name, tree)
    {
      hide SlotsPayload, SlotsFit, EncodeEvent, Encodable, FixedHeader, MetadataHead;
      if closed {
        return Err(ErrClosed);
      }
      if !enabled {
        return Err(ErrDisabled);
      }
      if related.Some? && activity.None? {
        return Err(Rejected(ErrInvalidValue));
      }
      if binding.schema != schema {
        return Err(Rejected(ErrState));
      }
      var err := binding.Complete();
      if err.Some? {
        return Err(Rejected(err.value));
      }
      BoundEncodable(schema, binding.values);
      var spliced := Splice(activity, related);
      SegmentsEncode(HeaderWith(activity, related), schema, binding.values);
      return Ok((spliced, schema.metadata, binding.payload));
    }

    /** The prefix with the activity extension spliced in front of the metadata head. */
    method Splice(activity: Option<Guid>, related: Option<Guid>) returns (r: Bytes)
      requires Valid() && (related.Some? ==> activity.Some?)
      ensures r == Prefix(HeaderWith(activity, related), |schema.metadata|)
    {
      hide Put16;
      ghost var h := HeaderWith(activity, related);
      assert FixedHeader(h) == FixedHeader(HeaderWith(None, None));
      assert MetadataHead(h, |schema.metadata|) == MetadataHead(HeaderWith(None, None), |schema.metadata|);
      assert prefix[..] == prefix[..8] + prefix[8..];
      if activity.None? {
        assert ActivityBytes(h) == [];
        return prefix[..];
      }
      var whole := new byte[48](_ => 0);
      var activitySize: u16 := if related.Some? then 32 else 16;
      CopyInto(whole, 0, prefix[..8]);
      assert whole[..8] == FixedHeader(h) by { assert whole[..8] == whole[0..8]; }
      Append(whole, 8, Put16(schema.order, activitySize), FixedHeader(h));
      ghost var head := FixedHeader(h) + Put16(schema.order, activitySize);
      Append(whole, 10, Put16(schema.order, EXTENSION_ACTIVITY + EXTENSION_CHAIN_FLAG), head);
      head := head + Put16(schema.order, EXTENSION_ACTIVITY + EXTENSION_CHAIN_FLAG);
      Append(whole, 12, activity.value, head);
      head := head + activity.value;
      var offset := 28;
      if related.Some? {
        Append(whole, offset, related.value, head);
        head := head + related.value;
        offset := offset + 16;
      }
      assert head == FixedHeader(h) + ActivityBytes(h);
      Append(whole, offset, prefix[8..12], head);
      offset := offset + 4;
      r := whole[..offset];
    }
  }

  /** A complete binding that fits its schema is an event an encoder accepts. */
  lemma BoundEncodable(schema: Schema, values: seq<seq<Bytes>>)
    requires schema.Valid() && SlotsFit(schema.pointer64, schema.plan, values)
    requires |schema.metadata| + |SlotsPayload(schema.order, schema.pointer64, schema.plan, values)| <= MAX_METADATA_PAYLOAD
    ensures var tree := BoundTree(schema, values);
            && Encodable(schema.order, schema.options.name, tree)
            && schema.metadata == Metadata(schema.order, schema.options.name, tree)
            && SlotsPayload(schema.order, schema.pointer64, schema.plan, values) == ForestPayload(schema.order, tree)
  {
    hide CompileDefs, SlotsPayload, FillAll, SlotsFit, ForestHeight, ForestPayload, ForestMeta, Utf8Valid, AllConstructed, ValidForest;
    SchemaRoom(schema);
    SchemaTree(schema.order, schema.pointer64, schema.options.name, schema.fields, values);
  }

  lemma SegmentsEncode(h: Header, schema: Schema, values: seq<seq<Bytes>>)
    requires schema.Valid() && SlotsFit(schema.pointer64, schema.plan, values) && h.order == schema.order
    requires |schema.metadata| + |SlotsPayload(schema.order, schema.pointer64, schema.plan, values)| <= MAX_METADATA_PAYLOAD
    ensures Encodable(schema.order, schema.options.name, BoundTree(schema, values))
    ensures |schema.metadata| <= MAX_COUNT
    ensures Prefix(h, |schema.metadata|) + schema.metadata + SlotsPayload(schema.order, schema.pointer64, schema.plan, values)
         == EncodeEvent(h, schema.options.name, BoundTree(schema, values))
  {
    hide SlotsPayload, BoundTree, SlotsFit, Encodable, ForestPayload, Metadata, Prefix;
    BoundEncodable(schema, values);
    SchemaRoom(schema);
  }

  // -------------------------------------------------- replay on a builder

  /** Attaching a forest, one node after the other. */
  function AttachAll(levels: seq<Open>, ns: seq<Node>): seq<Open>
    requires levels != []
  {
    var last := |levels| - 1;
    levels[..last] + [levels[last].(done := levels[last].done + ns)]
  }

  lemma AttachNone(levels: seq<Open>)
    requires levels != []
    ensures AttachAll(levels, []) == levels
  {
    var last := |levels| - 1;
    assert levels[last].done + [] == levels[last].done;
  }

  lemma AttachNext(levels: seq<Open>, n: Node, rest: seq<Node>)
    requires levels != []
    ensures AttachAll(Attach(levels, n), rest) == AttachAll(levels, [n] + rest)
    ensures |Attach(levels, n)| == |levels| && Attach(levels, n)[|levels| - 1].done == levels[|levels| - 1].done + [n]
  {
    var last := |levels| - 1;
    assert levels[last].done + [n] + rest == levels[last].done + ([n] + rest);
    assert Attach(levels, n)[..last] == levels[..last];
  }

  lemma AttachStruct(levels: seq<Open>, name: Bytes, tag: u16, ns: seq<Node>)
    requires levels != []
    ensures CloseLevel(AttachAll(levels + [Open(name, tag, [])], ns)) == Attach(levels, Struct(name, tag, ns))
  {
    var around := levels + [Open(name, tag, [])];
    assert around[..|levels|] == levels;
    assert [] + ns == ns;
    assert AttachAll(around, ns)[..|levels|] == levels;
  }

  /** The builder calls for one definition: they all succeed and build its tree. */
  method ReplayDefinition(b: Builder, ghost pointer64: bool, d: FieldDefinition, depth: nat, values: seq<seq<Bytes>>)
    returns (err: Option<BuildError>)
    requires b.Valid() && b.active && |b.levels| == depth + 1
    requires Constructed(pointer64, d) && Shaped(d, depth) && SlotsFit(pointer64, PlanOf(d), values)
    requires depth > 0 ==> |b.levels[depth].done| < MAX_STRUCT_CHILDREN
    modifies b
    ensures err == None
    ensures b.Valid() && b.active && b.SameHeader() && b.levels == Attach(old(b.levels), Fill(d, values))
    decreases d, 0
  {
    hide LevelsMeta, LevelsPayload, FramesFit, ValidLevels, ValidName, WireElems, ValidElems;
    if !d.kind.KindStruct? {
      err := ReplayValue(b, pointer64, d, depth, values);
      return;
    }
    ghost var levels0 := b.levels;
    err := b.BeginStruct(d.name, GivenTag(d.options));
    if err.Some? {
      assert b.Valid() && b.active;
      FrameCount(b);
      assert false;
    }
    assert b.levels[depth + 1].done == [];
    err := ReplayAll(b, pointer64, d.children, depth + 1, values);
    AttachStruct(levels0, d.name, GivenTag(d.options), FillAll(d.children, values));
    err := b.EndStruct();
  }

  lemma FrameCount(b: Builder)
    requires b.Valid() && b.active
    ensures |b.structs| + 1 == |b.levels|
  {
    b.LastFrame();
  }

  method ReplayAll(b: Builder, ghost pointer64: bool, ds: seq<FieldDefinition>, depth: nat, values: seq<seq<Bytes>>)
    returns (err: Option<BuildError>)
    requires b.Valid() && b.active && |b.levels| == depth + 1
    requires AllConstructed(pointer64, ds) && AllShaped(ds, depth) && SlotsFit(pointer64, PlansOf(ds), values)
    requires depth > 0 ==> |b.levels[depth].done| + |ds| <= MAX_STRUCT_CHILDREN
    modifies b
    ensures err == None
    ensures b.Valid() && b.active && b.SameHeader() && b.levels == AttachAll(old(b.levels), FillAll(ds, values))
    decreases ds, 1
  {
    hide LevelsMeta, LevelsPayload, FramesFit, ValidLevels, Constructed, Shaped, PlanOf, Fill, SlotFits, Attach, AttachAll;
    if ds == [] {
      AttachNone(b.levels);
      return None;
    }
    var n := |PlanOf(ds[0])|;
    SlotsSplit(pointer64, PlanOf(ds[0]), PlansOf(ds[1..]), values);
    ghost var levels0 := b.levels;
    err := ReplayDefinition(b, pointer64, ds[0], depth, values[..n]);
    AttachNext(levels0, Fill(ds[0], values[..n]), FillAll(ds[1..], values[n..]));
    err := ReplayAll(b, pointer64, ds[1..], depth, values[n..]);
  }

  /** One scalar or array call with the definition's own options. */
  method ReplayValue(b: Builder, ghost pointer64: bool, d: FieldDefinition, depth: nat, values: seq<seq<Bytes>>)
    returns (err: Option<BuildError>)
    requires b.Valid() && b.active && |b.levels| == depth + 1
    requires Constructed(pointer64, d) && Shaped(d, depth) && SlotsFit(pointer64, PlanOf(d), values) && !d.kind.KindStruct?
    requires depth > 0 ==> |b.levels[depth].done| < MAX_STRUCT_CHILDREN
    modifies b
    ensures err == None
    ensures b.Valid() && b.active && b.SameHeader() && b.levels == Attach(old(b.levels), Fill(d, values))
  {
    hide LevelsMeta, LevelsPayload, FramesFit, ValidLevels, ValidName, WireElems, ValidElems, WireElem, ValidElem, KindElems, KindElem;
    var elems := values[0];
    assert SlotFits(pointer64, PlanOf(d)[0], values[0]);
    var kind := GivenKind(d);
    if kind.Scalar? {
      assert elems == [elems[0]];
      ScalarElem(d.encoding, d.kind, elems);
      err := TypedScalar(b, pointer64, d, elems[0]);
    } else {
      err := TypedArray(b, pointer64, d, kind, elems);
    }
  }

  /** The typed call of a scalar definition; kinds whose call differs from another
      one here only in the value's Go type go straight to `addScalar`. */
  method TypedScalar(b: Builder, ghost pointer64: bool, d: FieldDefinition, raw: Bytes) returns (err: Option<BuildError>)
    requires b.Valid() && IsValue(d.kind)
    requires d.encoding == KindEncoding(pointer64, d.kind) && d.format == KindFormat(d.kind)
    requires ValidElem(d.encoding, raw) && KindElem(d.kind, raw)
    modifies b
    ensures err == old(b.ScalarError(d.name, d.format, d.options))
    ensures b.Added(d.name, d.encoding, d.format, d.options, Scalar, [raw], err)
  {
    hide Builder.Valid, ChildError, Put, Get, WireElem, UnitBytes, Utf8Valid;
    FixedRaw(b.order, raw);
    if d.kind.KindUint8? {
      assert raw == [raw[0]];
      err := b.Uint8(d.name, raw[0], d.options);
    } else if d.kind.KindUint16? {
      err := b.Uint16(d.name, Get(b.order, raw), d.options);
    } else if d.kind.KindInt32? {
      err := b.Int32(d.name, SignExtend(4, Get(b.order, raw)), d.options);
    } else if d.kind.KindUint64? {
      err := b.Uint64(d.name, Get(b.order, raw), d.options);
    } else if d.kind.KindBool? {
      err := b.Bool(d.name, raw == [1], d.options);
    } else if d.kind.KindUUID? {
      err := b.UUID(d.name, raw, d.options);
    } else if d.kind.KindPort? {
      FixedRaw(Big, raw);
      err := b.Port(d.name, Get(Big, raw), d.options);
    } else if d.kind.KindString? {
      err := b.String(d.name, raw, d.options);
    } else if d.kind.KindUTF16? {
      UnitsBack(b.order, raw);
      err := b.UTF16(d.name, UnitsOf(b.order, raw), d.options);
    } else {
      err := b.AddScalar(d.name, d.encoding, WireElem(b.order, d.encoding, raw), d.format, d.options, raw);
    }
  }

  /** The typed call of an array definition. */
  method TypedArray(b: Builder, ghost pointer64: bool, d: FieldDefinition, kind: ArrayKind, elems: seq<Bytes>) returns (err: Option<BuildError>)
    requires b.Valid() && IsValue(d.kind)
    requires d.encoding == KindEncoding(pointer64, d.kind) && d.format == KindFormat(d.kind)
    requires ValidElems(d.encoding, elems) && KindElems(d.kind, elems)
    modifies b
    ensures err == old(b.ArrayError(d.name, |elems|, kind, d.format, d.options))
    ensures b.Added(d.name, d.encoding, d.format, d.options, kind, elems, err)
  {
    hide Builder.Valid, ChildError, Put16, Get16, WireElems, WireElem, Utf8Valid;
    if d.kind.KindUint16? {
      var values: seq<u16> := seq(|elems|, i requires 0 <= i < |elems| => Get16(b.order, elems[i], 0));
      forall i | 0 <= i < |elems| ensures Put16(b.order, values[i]) == elems[i] {
        Put16Get16(b.order, elems[i], 0);
        assert elems[i][0..2] == elems[i];
      }
      assert seq(|values|, i requires 0 <= i < |values| => Put16(b.order, values[i])) == elems;
      err := b.Uint16Array(d.name, values, kind, d.options);
    } else if d.kind.KindString? {
      StringsFine(elems);
      err := b.StringArray(d.name, elems, kind, d.options);
    } else {
      err := b.AddArray(d.name, d.encoding, |elems|, WireElems(b.order, d.encoding, elems), kind, d.format, d.options, elems);
    }
  }

  lemma {:induction false} StringsFine(elems: seq<Bytes>)
    requires ValidElems(ENCODING_STRING8, elems) && KindElems(KindString, elems)
    ensures FirstStringError(elems).None?
  {
    hide Utf8Valid;
    if elems != [] {
      assert ValidElem(ENCODING_STRING8, elems[0]) && KindElem(KindString, elems[0]);
      StringsFine(elems[1..]);
    }
  }

  /** Reading a fixed-width value and writing it again gives its bytes. */
  lemma FixedRaw(order: ByteOrder, raw: Bytes)
    ensures |raw| in {2, 4, 8} ==> Put(order, |raw|, Get(order, raw)) == raw
    ensures |raw| == 2 ==> Get(order, raw) < 0x1_0000
    ensures |raw| == 8 ==> Get(order, raw) < 0x1_0000_0000_0000_0000
    ensures |raw| == 4 ==>
      && -0x8000_0000 <= SignExtend(4, Get(order, raw)) < 0x8000_0000
      && Wrap(4, SignExtend(4, Get(order, raw))) == Get(order, raw)
  {
    hide Put, Get;
    PutGet(order, raw);
    PowersOf256();
  }

  /** The code units of counted UTF-16 text. */
  function UnitsOf(order: ByteOrder, raw: Bytes): (r: seq<u16>)
    requires |raw| % 2 == 0
    ensures |r| == |raw| / 2
    decreases |raw|
  {
    if raw == [] then [] else UnitsOf(order, raw[..|raw| - 2]) + [Get16(order, raw, |raw| - 2)]
  }

  lemma {:induction false} UnitsBack(order: ByteOrder, raw: Bytes)
    requires |raw| % 2 == 0
    ensures UnitBytes(order, UnitsOf(order, raw)) == raw
    decreases |raw|
  {
    hide Get16, Put16;
    if raw != [] {
      var units := UnitsOf(order, raw);
      UnitsBack(order, raw[..|raw| - 2]);
      Put16Get16(order, raw, |raw| - 2);
      assert units[..|units| - 1] == UnitsOf(order, raw[..|raw| - 2]);
      assert raw == raw[..|raw| - 2] + raw[|raw| - 2..];
    }
  }

  lemma ScalarElem(encoding: byte, kind: ValueKind, elems: seq<Bytes>)
    requires ValidElems(encoding, elems) && KindElems(kind, elems) && |elems| == 1
    ensures ValidElem(encoding, elems[0]) && KindElem(kind, elems[0])
  {
  }

  lemma SchemaShaped(schema: Schema)
    requires schema.Valid()
    ensures AllConstructed(schema.pointer64, schema.fields) && AllShaped(schema.fields, 0)
    ensures schema.plan == PlansOf(schema.fields)
    ensures forall values :: SlotsFit(schema.pointer64, schema.plan, values) ==> |values| == |PlansOf(schema.fields)|
  {
    hide ValidName, CompileDefs, AllConstructed, AllShaped, PlansOf;
    SchemaRoom(schema);
    var start := Compiled(schema.options.name + [0], [], 0);
    CompileAllExact(schema.order, schema.pointer64, start, schema.fields, 0);
  }

  /** A builder with the schema's name and options, holding no field yet. */
  method Prepare(schema: Schema, activity: Option<Guid>, related: Option<Guid>) returns (b: Builder)
    requires schema.Valid() && (related.Some? ==> activity.Some?)
    ensures fresh(b) && b.Valid() && b.active && b.levels == [Open(schema.options.name, 0, [])]
    ensures b.order == schema.order && b.pointer64 == schema.pointer64 && b.activity == activity && b.related == related
    ensures SchemaOptions(schema.options.name, b.id, b.version, b.tag, b.opcode) == schema.options
  {
    hide Schema.Valid, ValidName, LevelsMeta, LevelsPayload, FramesFit, ValidLevels, PlansOf;
    b := new Builder(schema.order, schema.pointer64);
    SchemaRoom(schema);
    var err := b.Reset(schema.options.name);
    err := b.SetIDVersion(schema.options.id, schema.options.version);
    err := b.SetTag(schema.options.tag);
    err := b.SetOpcode(schema.options.opcode);
    err := b.SetActivity(activity, related);
  }

  /** Replaying an accepted schema with fitting values on a builder: every call
      succeeds and the event encoded is that of the bound tree. */
  method Replay(schema: Schema, level: byte, activity: Option<Guid>, related: Option<Guid>, values: seq<seq<Bytes>>,
                fields: seq<FieldDefinition>)
    returns (encoded: Result<Bytes, BuildError>)
    requires schema.Valid() && fields == schema.fields && 1 <= level <= 5 && (related.Some? ==> activity.Some?)
    requires SlotsFit(schema.pointer64, schema.plan, values)
    requires |schema.metadata| + |SlotsPayload(schema.order, schema.pointer64, schema.plan, values)| <= MAX_METADATA_PAYLOAD
    ensures var h := Header(schema.order, schema.pointer64, schema.options.version, schema.options.id, schema.options.tag,
                            schema.options.opcode, level, activity, related);
            && ValidHeader(h)
            && Encodable(schema.order, schema.options.name, BoundTree(schema, values))
            && encoded == Ok(EncodeEvent(h, schema.options.name, BoundTree(schema, values)))
  {
    hide Schema.Valid, SlotsPayload, SlotsFit, FillAll, EncodeEvent, Encodable, Metadata, ForestPayload, LevelsMeta, LevelsPayload, FramesFit, ValidLevels,
      AllConstructed, AllShaped, PlansOf;
    var b := Prepare(schema, activity, related);
    SchemaShaped(schema);
    var err := ReplayAll(b, schema.pointer64, fields, 0, values);
    assert [] + FillAll(fields, values) == FillAll(fields, values);
    ghost var tree := BoundTree(schema, values);
    assert b.levels == [Open(schema.options.name, 0, tree)];
    BoundEncodable(schema, values);
    SchemaRoom(schema);
    assert b.EncodeError(level) == None;
    encoded := b.Encode(level);
  }

  /** The precompiled path and the dynamic path emit the same bytes: a builder
      replaying an accepted schema with the values of a complete binding accepts
      every call, and encodes exactly the segments that the event writes. */
  method PrecompiledEqualsDynamic(event: Event, binding: Binding, activity: Option<Guid>, related: Option<Guid>,
                                  fields: seq<FieldDefinition>, values: seq<seq<Bytes>>)
    returns (segments: (Bytes, Bytes, Bytes), encoded: Result<Bytes, BuildError>)
    requires event.Valid() && binding.Valid() && binding.schema == event.schema
    requires fields == event.schema.fields && values == binding.values
    requires binding.index == |event.schema.plan| && (related.Some? ==> activity.Some?)
    ensures encoded == Ok(segments.0 + segments.1 + segments.2)
  {
    hide Schema.Valid, SlotsPayload, SlotsFit, EncodeEvent, Encodable, BoundTree;
    var written := event.Write(binding, activity, related, false, true);
    segments := written.value;
    assert event.schema.plan[..binding.index] == event.schema.plan;
    encoded := Replay(event.schema, event.level, activity, related, values, fields);
  }
}
