/** Whole runs: what a sequence of builder calls writes is what the decoder reads. */
module RoundTrips {
  import opened Wire
  import opened Format
  import opened Names
  import opened Parser
  import opened EventParser
  import opened EventInverse
  import opened Walk
  import opened Decode
  import opened Codec
  import opened Semantics
  import opened Building

  /** The builder's calls: its header, its structures and every kind of value. */
  datatype Call =
    | CallIDVersion(id: u16, version: byte) | CallTag(eventTag: u16) | CallOpcode(opcode: byte)
    | CallActivity(activity: Option<Guid>, related: Option<Guid>)
    | CallBegin(name: Bytes, tag: u16) | CallEnd
    | CallUint8(name: Bytes, u8: byte, options: seq<FieldOptions>)
    | CallUint16(name: Bytes, u16: u16, options: seq<FieldOptions>)
    | CallInt32(name: Bytes, i32: i32, options: seq<FieldOptions>)
    | CallUint64(name: Bytes, u64: u64, options: seq<FieldOptions>)
    | CallBool(name: Bytes, flag: bool, options: seq<FieldOptions>)
    | CallUUID(name: Bytes, uuid: Guid, options: seq<FieldOptions>)
    | CallPort(name: Bytes, port: u16, options: seq<FieldOptions>)
    | CallString(name: Bytes, text: Bytes, options: seq<FieldOptions>)
    | CallUTF16(name: Bytes, units: seq<u16>, options: seq<FieldOptions>)
    | CallUint16Array(name: Bytes, values: seq<u16>, kind: ArrayKind, options: seq<FieldOptions>)
    | CallStringArray(name: Bytes, texts: seq<Bytes>, kind: ArrayKind, options: seq<FieldOptions>)

  type i32 = v: int | -0x8000_0000 <= v < 0x8000_0000

  /** What a builder has been told so far. */
  datatype Told = Told(
    id: u16, version: byte, tag: u16, opcode: byte, activity: Option<Guid>, related: Option<Guid>, levels: seq<Open>)

  ghost function ToldBy(b: Builder): Told
    reads b
  {
    Told(b.id, b.version, b.tag, b.opcode, b.activity, b.related, b.levels)
  }

  /** The field appended, unless the options or the position refuse it. */
  function ApplyField(levels: seq<Open>, name: Bytes, encoding: byte, format: byte, options: seq<FieldOptions>, kind: ArrayKind,
                      elems: seq<Bytes>): (r: seq<Open>)
    requires levels != []
    ensures r != []
  {
    if OptionsRefused(format, options) || ChildError(true, levels, name).Some? then levels
    else Attach(levels, Leaf(name, encoding, GivenFormat(format, options), GivenTag(options), kind, elems))
  }

  function ApplyArray(levels: seq<Open>, name: Bytes, encoding: byte, options: seq<FieldOptions>, kind: ArrayKind, elems: seq<Bytes>): (r: seq<Open>)
    requires levels != []
    ensures r != []
  {
    if kind.Scalar? || |elems| > MAX_COUNT || (kind.Fixed? && elems == []) then levels
    else ApplyField(levels, name, encoding, FORMAT_DEFAULT, options, kind, elems)
  }

  /** The open structures after one call about the tree; a refused call changes nothing. */
  function ApplyTree(order: ByteOrder, levels: seq<Open>, call: Call): (r: seq<Open>)
    requires levels != []
    ensures r != []
  {
    match call
    case CallBegin(name, tag) =>
      if |levels| > MAX_STRUCT_DEPTH || ChildError(true, levels, name).Some? then levels else levels + [Open(name, tag, [])]
    case CallEnd =>
      if |levels| == 1 || levels[|levels| - 1].done == [] then levels else CloseLevel(levels)
    case CallUint8(name, v, options) =>
      ApplyField(levels, name, ENCODING_VALUE8, FORMAT_DEFAULT, options, Scalar, [[v]])
    case CallUint16(name, v, options) =>
      ApplyField(levels, name, ENCODING_VALUE16, FORMAT_DEFAULT, options, Scalar, [Put(order, 2, v)])
    case CallInt32(name, v, options) =>
      ApplyField(levels, name, ENCODING_VALUE32, FORMAT_SIGNED, options, Scalar, [Put(order, 4, Wrap(4, v))])
    case CallUint64(name, v, options) =>
      ApplyField(levels, name, ENCODING_VALUE64, FORMAT_DEFAULT, options, Scalar, [Put(order, 8, v)])
    case CallBool(name, v, options) =>
      ApplyField(levels, name, ENCODING_VALUE8, FORMAT_BOOLEAN, options, Scalar, [[if v then 1 else 0]])
    case CallUUID(name, v, options) =>
      ApplyField(levels, name, ENCODING_VALUE128, FORMAT_UUID, options, Scalar, [v])
    case CallPort(name, v, options) =>
      ApplyField(levels, name, ENCODING_VALUE16, FORMAT_PORT, options, Scalar, [Put(Big, 2, v)])
    case CallString(name, v, options) =>
      if StringError(v).Some? then levels
      else ApplyField(levels, name, ENCODING_STRING8, FORMAT_DEFAULT, options, Scalar, [v])
    case CallUTF16(name, units, options) =>
      if |units| > MAX_COUNT then levels
      else ApplyField(levels, name, ENCODING_STRING16, FORMAT_DEFAULT, options, Scalar, [UnitBytes(order, units)])
    case CallUint16Array(name, values, kind, options) =>
      ApplyArray(levels, name, ENCODING_VALUE16, options, kind, seq(|values|, i requires 0 <= i < |values| => Put16(order, values[i])))
    case CallStringArray(name, texts, kind, options) =>
      if FirstStringError(texts).Some? then levels else ApplyArray(levels, name, ENCODING_STRING8, options, kind, texts)
    case _ => levels
  }

  function Apply(order: ByteOrder, t: Told, call: Call): (r: Told)
    requires t.levels != []
    ensures r.levels != []
  {
    match call
    case CallIDVersion(id, version) => t.(id := id, version := version)
    case CallTag(tag) => t.(tag := tag)
    case CallOpcode(opcode) => t.(opcode := opcode)
    case CallActivity(activity, related) =>
      if related.Some? && activity.None? then t else t.(activity := activity, related := related)
    case _ => t.(levels := ApplyTree(order, t.levels, call))
  }

  function ApplyAll(order: ByteOrder, t: Told, calls: seq<Call>): (r: Told)
    requires t.levels != []
    ensures r.levels != []
    decreases |calls|
  {
    if calls == [] then t else ApplyAll(order, Apply(order, t, calls[0]), calls[1..])
  }

  predicate AboutHeader(call: Call) {
    call.CallIDVersion? || call.CallTag? || call.CallOpcode? || call.CallActivity?
  }

  method PerformHeader(b: Builder, call: Call) returns (err: Option<BuildError>)
    requires b.Valid() && b.active && b.levels != [] && AboutHeader(call)
    modifies b
    ensures b.Valid() && b.active
    ensures ToldBy(b) == Apply(b.order, old(ToldBy(b)), call)
    ensures err.Some? ==> ToldBy(b) == old(ToldBy(b))
  {
    hide LevelsMeta, LevelsPayload, FramesFit, ValidLevels, ApplyTree;
    if call.CallIDVersion? {
      err := b.SetIDVersion(call.id, call.version);
    } else if call.CallTag? {
      err := b.SetTag(call.eventTag);
    } else if call.CallOpcode? {
      err := b.SetOpcode(call.opcode);
    } else {
      err := b.SetActivity(call.activity, call.related);
    }
  }

  method PerformTree(b: Builder, call: Call) returns (err: Option<BuildError>)
    requires b.Valid() && b.active && b.levels != [] && !AboutHeader(call)
    modifies b
    ensures b.Valid() && b.active && b.SameHeader()
    ensures b.levels == ApplyTree(b.order, old(b.levels), call)
    ensures err.Some? ==> b.levels == old(b.levels)
  {
    hide LevelsMeta, LevelsPayload, FramesFit, ValidLevels, ValidName, UnitBytes, Put, Put16, StringError, FirstStringError, Attach, Wrap;
    if call.CallBegin? {
      b.LastFrame();
      err := b.BeginStruct(call.name, call.tag);
    } else if call.CallEnd? {
      err := b.EndStruct();
    } else if call.CallUint8? {
      err := b.Uint8(call.name, call.u8, call.options);
    } else if call.CallUint16? {
      err := b.Uint16(call.name, call.u16, call.options);
    } else if call.CallInt32? {
      err := b.Int32(call.name, call.i32, call.options);
    } else if call.CallUint64? {
      err := b.Uint64(call.name, call.u64, call.options);
    } else if call.CallBool? {
      err := b.Bool(call.name, call.flag, call.options);
    } else if call.CallUUID? {
      err := b.UUID(call.name, call.uuid, call.options);
    } else if call.CallPort? {
      err := b.Port(call.name, call.port, call.options);
    } else if call.CallString? {
      err := b.String(call.name, call.text, call.options);
    } else if call.CallUTF16? {
      err := b.UTF16(call.name, call.units, call.options);
    } else if call.CallUint16Array? {
      err := b.Uint16Array(call.name, call.values, call.kind, call.options);
    } else {
      err := b.StringArray(call.name, call.texts, call.kind, call.options);
    }
  }

  method Run(b: Builder, calls: seq<Call>)
    requires b.Valid() && b.active && b.levels != []
    modifies b
    ensures b.Valid() && b.active
    ensures ToldBy(b) == ApplyAll(b.order, old(ToldBy(b)), calls)
  {
    hide Builder.Valid, Apply, ApplyTree;
    var i := 0;
    while i < |calls|
      invariant 0 <= i <= |calls|
      invariant b.Valid() && b.active && b.levels != []
      invariant ApplyAll(b.order, ToldBy(b), calls[i..]) == ApplyAll(b.order, old(ToldBy(b)), calls)
    {
      assert calls[i..][0] == calls[i] && calls[i..][1..] == calls[i + 1..];
      if AboutHeader(calls[i]) {
        var err := PerformHeader(b, calls[i]);
      } else {
        ApplyOfTree(b.order, ToldBy(b), calls[i]);
        var err := PerformTree(b, calls[i]);
      }
      i := i + 1;
    }
  }

  lemma ApplyOfTree(order: ByteOrder, t: Told, call: Call)
    requires t.levels != [] && !AboutHeader(call)
    ensures Apply(order, t, call) == t.(levels := ApplyTree(order, t.levels, call))
  {
    hide ApplyTree;
  }

  /** Encoding and decoding under the event's tracepoint name give back the
      builder's header, name, tree and values, in either byte order, whenever
      the decoder's limits admit the event, and the limit error otherwise. */
  method RoundTrip(b: Builder, level: byte, raw: Limits, provider: Bytes, keyword: u64, group: Bytes)
    returns (r: Result<Record, DecodeError>)
    requires b.Valid() && b.EncodeError(level) == None && ValidLimits(Normalized(raw))
    requires TracepointName(provider, level, keyword, group).Ok?
    ensures
      && b.active && ValidHeader(b.HeaderAt(level)) && Encodable(b.order, b.levels[0].name, b.levels[0].done)
      && var h, name, tree := b.HeaderAt(level), b.levels[0].name, b.levels[0].done;
         if Admits(Normalized(raw), h, name, tree) && |EventItems(h, name, tree)| <= Normalized(raw).maxTransitions
         then r == Ok(RecordOf(TraceName(provider, level, keyword, GroupOptions(group)), h, name, tree))
         else r.Err? && r.error.kind == Limit
  {
    hide EncodeEvent, Encodable, Admits, EventItems, RecordOf, ParseTracepointName, TracepointName, ValidLimits, Normalized, DecodeEvent,
      Metadata, ForestPayload, LevelsMeta, LevelsPayload, FramesFit, ValidLevels, GroupOptions;
    var encoded := b.Encode(level);
    b.LastFrame();
    var printed := TracepointName(provider, level, keyword, group);
    r := DecodeRecord(raw, printed.value, encoded.value);
    ParsePrinted(provider, level, keyword, group);
    DecodeEncoded(raw, printed.value, b.HeaderAt(level), b.levels[0].name, b.levels[0].done);
  }

  const DEFAULTS := Limits(0, 0, 0, 0, 0, 0)

  /** With the default limits the decoder accepts an encoder's event if and only if
      it has at most 4096 items: its size, its depth and its number of fields never
      refuse it on their own. */
  lemma DefaultsAdmit(h: Header, name: Bytes, fields: seq<Node>)
    requires ValidHeader(h) && Encodable(h.order, name, fields)
    ensures ValidLimits(Normalized(DEFAULTS))
    ensures (Admits(Normalized(DEFAULTS), h, name, fields) && |EventItems(h, name, fields)| <= Normalized(DEFAULTS).maxTransitions)
            <==> |EventItems(h, name, fields)| <= 4096
  {
    hide Metadata, ForestPayload, ForestSize, ForestHeight, ForestItems, ValidForest, ValidName, FixedHeader, MetadataHead, ActivityBytes,
      PayloadOffset;
    SmallPrefix(h, |Metadata(h.order, name, fields)|);
    ItemsOfForest(h.order, fields, 0, PayloadOffset(h, name, fields));
  }

  /** With the default limits the iterator of an encoder's event gives the items of
      its tree, tags and formats included, and uses the payload up. */
  lemma ItemsBack(h: Header, name: Bytes, fields: seq<Node>, tracepoint: Bytes)
    requires ValidHeader(h) && Encodable(h.order, name, fields) && |EventItems(h, name, fields)| <= 4096
    requires ParseTracepointName(tracepoint).Ok? && ParseTracepointName(tracepoint).value.level == h.level
    ensures var r := ParseEvent(DEFAULTS, tracepoint, EncodeEvent(h, name, fields));
            r.Ok? && WalkFields(SourceOf(r.value), r.value.fields, 0) == Walked(EventItems(h, name, fields), Ok(|r.value.payload|))
  {
    hide ParseEvent, ParseTracepointName, EncodeEvent, Encodable, Admits, EventItems, WalkFields, Normalized, ValidLimits, ParsedOf;
    DefaultsAdmit(h, name, fields);
    ParseEncoded(DEFAULTS, tracepoint, h, name, fields);
    WalkEncoded(ParseTracepointName(tracepoint).value, h, name, fields);
  }

  /** A value call adds one field, and the item of that field has the tag that the
      caller gave and the caller's format, or the call's own if the caller gave none;
      two options, or a format with the chain bit, add nothing. */
  lemma OptionsCarried(order: ByteOrder, event: Bytes, name: Bytes, encoding: byte, default: byte, options: seq<FieldOptions>,
                       raw: Bytes, depth: nat, at: nat)
    requires ValidName(name) && Writable(encoding) && ValidElem(encoding, raw) && default < 0x80
    ensures var added := ApplyField([Open(event, 0, [])], name, encoding, default, options, Scalar, [raw])[0].done;
            if |options| >= 2 || (|options| == 1 && options[0].format >= 0x80) then added == []
            else
              var format := if options == [] || options[0].format == 0 then default else options[0].format;
              var tag := if options == [] then 0 else options[0].tag;
              && ValidForest(added)
              && ForestItems(order, added, depth, at)
                 == [Item(ValueItem, name, encoding, format, tag, Scalar, 0, -1, depth, at + LengthPrefix(encoding), raw)]
  {
    hide ValidName, WireElem, ForestItems;
    var levels := [Open(event, 0, [])];
    assert ChildError(true, levels, name).None?;
    if !OptionsRefused(default, options) {
      var leaf := Leaf(name, encoding, GivenFormat(default, options), GivenTag(options), Scalar, [raw]);
      assert Attach(levels, leaf)[0].done == [leaf];
      OneLeaf(order, leaf, depth, at);
    }
  }

  lemma OneLeaf(order: ByteOrder, leaf: Node, depth: nat, at: nat)
    requires leaf.Leaf? && ValidNode(leaf) && leaf.kind.Scalar?
    ensures ForestItems(order, [leaf], depth, at)
         == [Item(ValueItem, leaf.name, leaf.encoding, leaf.format, leaf.tag, Scalar, 0, -1, depth, at + LengthPrefix(leaf.encoding), leaf.elems[0])]
  {
    hide ValidName, WireElem;
    assert [leaf][1..] == [] && leaf.elems[1..] == [];
    assert ElemItems(order, leaf, depth, [], 0, at + |WireElem(order, leaf.encoding, leaf.elems[0])|) == [];
  }

  /** A whole run: a fresh builder takes any calls, the event is encoded and then
      decoded with the default limits. If it could be encoded and has at most 4096
      items, the record is that of the tree the calls described. */
  method Carry(order: ByteOrder, pointer64: bool, name: Bytes, calls: seq<Call>, level: byte, provider: Bytes, keyword: u64, group: Bytes)
    returns (encoded: Result<Bytes, BuildError>, r: Option<Result<Record, DecodeError>>)
    requires ValidName(name) && TracepointName(provider, level, keyword, group).Ok?
    ensures encoded.Ok? <==> r.Some?
    ensures
      var told := ApplyAll(order, Told(0, 0, 0, 0, None, None, [Open(name, 0, [])]), calls);
      var h := Header(order, pointer64, told.version, told.id, told.tag, told.opcode, level, told.activity, told.related);
      r.Some? ==>
        && ValidHeader(h) && |told.levels| == 1 && Encodable(order, told.levels[0].name, told.levels[0].done)
        && encoded.value == EncodeEvent(h, told.levels[0].name, told.levels[0].done)
        && if |EventItems(h, told.levels[0].name, told.levels[0].done)| <= 4096
           then r.value == Ok(RecordOf(TraceName(provider, level, keyword, GroupOptions(group)), h, told.levels[0].name, told.levels[0].done))
           else r.value.Err? && r.value.error.kind == Limit
  {
    hide EncodeEvent, Encodable, Admits, EventItems, RecordOf, TracepointName, ValidLimits, GroupOptions, ApplyAll,
      Metadata, ForestPayload, LevelsMeta, LevelsPayload, FramesFit, ValidLevels, ValidName, DecodeEvent, Normalized;
    var b := new Builder(order, pointer64);
    var err := b.Reset(name);
    Run(b, calls);
    ghost var failure := b.EncodeError(level);
    encoded := b.Encode(level);
    if encoded.Err? {
      return encoded, None;
    }
    DefaultsAdmit(b.HeaderAt(level), b.levels[0].name, b.levels[0].done);
    var record := RoundTrip(b, level, DEFAULTS, provider, keyword, group);
    return encoded, Some(record);
  }

  lemma SmallPrefix(h: Header, size: nat)
    requires ValidHeader(h) && size <= MAX_COUNT
    ensures |Prefix(h, size)| <= 48
  {
  }
}
