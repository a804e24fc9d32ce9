/** `Decoder.parse` inverts the reference encoder on whole events. */
module EventInverse {
  import opened Wire
  import opened Format
  import opened Names
  import opened Parser
  import opened MetadataInverse
  import opened EventParser

  /** The event keeps within every limit the parser enforces. */
  predicate Admits(l: Limits, h: Header, name: Bytes, fields: seq<Node>)
    requires Encodable(h.order, name, fields)
  {
    && |EncodeEvent(h, name, fields)| <= l.maxEventSize
    && |Metadata(h.order, name, fields)| <= l.maxMetadataSize
    && |ForestPayload(h.order, fields)| <= l.maxPayloadSize
    && ForestSize(fields) <= l.maxItems
    && ForestHeight(fields) <= l.maxDepth
  }

  lemma HeaderOf(h: Header, rest: Bytes)
    ensures ParseHeader(FixedHeader(h) + rest) == h.(activity := None, related := None)
    ensures var first := (FixedHeader(h) + rest)[0]; first < 8 && first / FLAG_EXTENSION % 2 == 1
    ensures (FixedHeader(h) + rest)[7] == h.level
  {
    var data := FixedHeader(h) + rest;
    assert data[..8] == FixedHeader(h);
    assert data[2..4] == FixedHeader(h)[2..4] == Put16(h.order, h.id);
    assert data[4..6] == FixedHeader(h)[4..6] == Put16(h.order, h.tag);
    Get16At(h.order, data, 2, h.id);
    Get16At(h.order, data, 4, h.tag);
    var first := data[0];
    assert first == HeaderFlags(h);
    assert first / FLAG_LITTLE_ENDIAN % 2 == 1 <==> h.order.Little?;
  }

  /** One step of the extension loop over an extension that was written. */
  lemma ExtensionStep(order: ByteOrder, data: Bytes, offset: nat, x: Extensions, rawKind: u16, body: Bytes)
    requires |body| <= MAX_COUNT && rawKind % EXTENSION_CHAIN_FLAG != 0
    requires At(data, offset, Put16(order, |body|) + Put16(order, rawKind) + body)
    ensures offset + 4 + |body| <= |data|
    ensures ParseExtensions(order, data, offset, x) ==
            match ApplyExtension(x, rawKind % EXTENSION_CHAIN_FLAG, rawKind >= EXTENSION_CHAIN_FLAG, offset, body)
            case Err(e) => Err(e)
            case Ok(y) =>
              if rawKind >= EXTENSION_CHAIN_FLAG then ParseExtensions(order, data, offset + 4 + |body|, y)
              else Ok(Chain(y, offset + 4 + |body|))
  {
    hide Get16, Put16, ApplyExtension;
    AtConcat(data, offset, Put16(order, |body|) + Put16(order, rawKind), body);
    AtConcat(data, offset, Put16(order, |body|), Put16(order, rawKind));
    Get16At(order, data, offset, |body|);
    Get16At(order, data, offset + 2, rawKind);
    assert data[offset + 4..offset + 4 + |body|] == body;
  }

  function WithActivity(h: Header): Extensions {
    Extensions(None, h.activity, h.related, [])
  }

  /** Past the activity extension, if the event has one. */
  lemma ActivityStep(h: Header, data: Bytes)
    requires ValidHeader(h) && At(data, 8, ActivityBytes(h))
    ensures 8 + |ActivityBytes(h)| <= |data|
    ensures ParseExtensions(h.order, data, 8, NO_EXTENSIONS)
         == ParseExtensions(h.order, data, 8 + |ActivityBytes(h)|, WithActivity(h))
  {
    hide ParseExtensions, Put16, ApplyExtension;
    if h.activity.Some? {
      ApplyActivity(h);
      ExtensionStep(h.order, data, 8, NO_EXTENSIONS, EXTENSION_ACTIVITY + EXTENSION_CHAIN_FLAG, ActivityBody(h));
    }
  }

  function ActivityBody(h: Header): (r: Bytes)
    requires h.activity.Some?
    ensures |r| == if h.related.Some? then 32 else 16
  {
    h.activity.value + if h.related.Some? then h.related.value else []
  }

  lemma ApplyActivity(h: Header)
    requires h.activity.Some?
    ensures ApplyExtension(NO_EXTENSIONS, EXTENSION_ACTIVITY, true, 8, ActivityBody(h)) == Ok(WithActivity(h))
    ensures ActivityBytes(h)
         == Put16(h.order, |ActivityBody(h)|) + Put16(h.order, EXTENSION_ACTIVITY + EXTENSION_CHAIN_FLAG) + ActivityBody(h)
  {
    hide Put16;
    assert ActivityBody(h)[..16] == h.activity.value;
    if h.related.Some? {
      assert ActivityBody(h)[16..] == h.related.value;
    }
    var a, b := Put16(h.order, |ActivityBody(h)|), Put16(h.order, EXTENSION_ACTIVITY + EXTENSION_CHAIN_FLAG);
    assert a + b + ActivityBody(h)
        == a + b + h.activity.value + if h.related.Some? then h.related.value else [];
  }

  /** The whole chain of an encoded event. */
  lemma ChainOf(h: Header, data: Bytes, metadata: Bytes)
    requires ValidHeader(h) && |metadata| <= MAX_COUNT
    requires At(data, 8, ActivityBytes(h) + MetadataHead(h, |metadata|) + metadata)
    ensures var at := 8 + |ActivityBytes(h)| + 4;
            at + |metadata| <= |data| &&
            ParseExtensions(h.order, data, 8, NO_EXTENSIONS)
            == Ok(Chain(WithActivity(h).(metadata := Some(Block(metadata, at))), at + |metadata|))
  {
    hide ActivityBytes, ParseExtensions;
    var tail := MetadataHead(h, |metadata|) + metadata;
    assert ActivityBytes(h) + MetadataHead(h, |metadata|) + metadata == ActivityBytes(h) + tail;
    AtConcat(data, 8, ActivityBytes(h), tail);
    ActivityStep(h, data);
    ExtensionStep(h.order, data, 8 + |ActivityBytes(h)|, WithActivity(h), EXTENSION_METADATA, metadata);
  }

  lemma MetadataOf(limits: Limits, order: ByteOrder, name: Bytes, fields: seq<Node>, offset: nat)
    requires ValidName(name) && ValidForest(fields) && ValidLimits(limits)
    ensures var r := ParseMetadata(limits, order, Block(Metadata(order, name, fields), offset));
            if ForestSize(fields) <= limits.maxItems && ForestHeight(fields) <= limits.maxDepth
            then r == Ok((name, DefsOf(order, fields, 0, |name| + 1)))
            else r.Err? && r.error.kind == Limit
  {
    hide ParseTop, ForestMeta, DefsOf, ForestSize, ForestHeight, Utf8Valid;
    var data := Metadata(order, name, fields);
    assert At(data, 0, name + [0]) by {
      assert data[..|name| + 1] == name + [0];
    }
    IndexOfTerminator(data, 0, name);
    var p := ParserInput(data, order, limits.maxDepth, limits.maxItems);
    assert At(data, |name| + 1, ForestMeta(order, fields));
    ParseWhole(p, |name| + 1, 0, fields);
  }

  function InfoOf(trace: TraceName, h: Header, name: Bytes, fields: seq<Node>): EventInfo
    requires ValidForest(fields)
  {
    EventInfo(trace, h, name, Metadata(h.order, name, fields), [])
  }

  function PayloadOffset(h: Header, name: Bytes, fields: seq<Node>): nat
    requires Encodable(h.order, name, fields)
  {
    |Prefix(h, |Metadata(h.order, name, fields)|)| + |Metadata(h.order, name, fields)|
  }

  /** What the decoder must find in an encoded event. */
  function ParsedOf(trace: TraceName, h: Header, name: Bytes, fields: seq<Node>): ParsedEvent
    requires Encodable(h.order, name, fields)
  {
    ParsedEvent(InfoOf(trace, h, name, fields), ForestPayload(h.order, fields),
                PayloadOffset(h, name, fields), DefsOf(h.order, fields, 0, |name| + 1))
  }

  lemma EventLayout(h: Header, name: Bytes, fields: seq<Node>)
    requires ValidHeader(h) && Encodable(h.order, name, fields)
    ensures var data, metadata := EncodeEvent(h, name, fields), Metadata(h.order, name, fields);
            && (exists rest :: data == FixedHeader(h) + rest)
            && At(data, 8, ActivityBytes(h) + MetadataHead(h, |metadata|) + metadata)
            && PayloadOffset(h, name, fields) == 8 + |ActivityBytes(h)| + 4 + |metadata|
            && PayloadOffset(h, name, fields) <= |data|
            && data[PayloadOffset(h, name, fields)..] == ForestPayload(h.order, fields)
  {
    hide FixedHeader, ActivityBytes, ForestPayload, Metadata, Encodable;
    EncodableBounds(h.order, name, fields);
    var metadata := Metadata(h.order, name, fields);
    var head, chain, payload := FixedHeader(h), ActivityBytes(h) + MetadataHead(h, |metadata|) + metadata, ForestPayload(h.order, fields);
    var data := EncodeEvent(h, name, fields);
    assert data == head + (chain + payload);
    assert data[8..8 + |chain|] == chain;
    assert data[8 + |chain|..] == payload;
  }

  lemma EncodableBounds(order: ByteOrder, name: Bytes, fields: seq<Node>)
    requires Encodable(order, name, fields)
    ensures ValidName(name) && ValidForest(fields)
    ensures |Metadata(order, name, fields)| <= MAX_COUNT
  {
  }

  /** Decoding an encoded event gives the event back whenever the limits admit
      it, and reports the limit otherwise. */
  lemma ParseEncoded(raw: Limits, tracepoint: Bytes, h: Header, name: Bytes, fields: seq<Node>)
    requires ValidHeader(h) && Encodable(h.order, name, fields) && ValidLimits(Normalized(raw))
    requires ParseTracepointName(tracepoint).Ok? && ParseTracepointName(tracepoint).value.level == h.level
    ensures var r := ParseEvent(raw, tracepoint, EncodeEvent(h, name, fields));
            if Admits(Normalized(raw), h, name, fields)
            then r == Ok(ParsedOf(ParseTracepointName(tracepoint).value, h, name, fields))
            else r.Err? && r.error.kind == Limit
  {
    hide ParseTracepointName, FixedHeader, ActivityBytes, MetadataHead, EncodeEvent, Metadata, ForestPayload, ForestSize,
         ForestHeight, Utf8Valid, ParseHeader, ParseExtensions, ParseMetadata, ValidForest, PayloadOffset, DefsOf, Encodable;
    EncodableBounds(h.order, name, fields);
    var data, metadata := EncodeEvent(h, name, fields), Metadata(h.order, name, fields);
    EventLayout(h, name, fields);
    var rest :| data == FixedHeader(h) + rest;
    HeaderOf(h, rest);
    ChainOf(h, data, metadata);
    MetadataOf(Normalized(raw), h.order, name, fields, 8 + |ActivityBytes(h)| + 4);
  }
}
