/** Header and extension chain of an event, `Decoder.parse` as a whole, and its
    inverse law over encoded events. */
module EventParser {
  import opened Wire
  import opened Format
  import opened Names
  import opened Parser
  import opened MetadataInverse

  /** An extension the decoder does not interpret. */
  datatype Extension = Extension(kind: u16, chain: bool, offset: nat, data: Bytes)

  /** Metadata bytes and where they start in the event. */
  datatype Block = Block(bytes: Bytes, offset: nat)

  datatype Extensions = Extensions(metadata: Option<Block>, activity: Option<Guid>, related: Option<Guid>, others: seq<Extension>)

  datatype Chain = Chain(found: Extensions, next: nat)

  datatype EventInfo = EventInfo(trace: TraceName, header: Header, eventName: Bytes, metadata: Bytes, others: seq<Extension>)

  datatype ParsedEvent = ParsedEvent(info: EventInfo, payload: Bytes, payloadOffset: nat, fields: seq<Def>)

  // --------------------------------------------------------------- functions

  /** One extension of the chain, whose header starts at `offset`. */
  function ApplyExtension(x: Extensions, kind: u16, chain: bool, offset: nat, body: Bytes): Result<Extensions, DecodeError> {
    if kind == EXTENSION_METADATA then
      if x.metadata.Some? then Err(DecodeError(offset, Invalid))
      else Ok(x.(metadata := Some(Block(body, offset + 4))))
    else if kind == EXTENSION_ACTIVITY then
      if x.activity.Some? || (|body| != 16 && |body| != 32) then Err(DecodeError(offset, Invalid))
      else Ok(x.(activity := Some(body[..16]), related := if |body| == 32 then Some(body[16..]) else None))
    else Ok(x.(others := x.others + [Extension(kind, chain, offset, body)]))
  }

  function ParseExtensions(order: ByteOrder, data: Bytes, offset: nat, x: Extensions): (r: Result<Chain, DecodeError>)
    requires offset <= |data|
    ensures r.Ok? ==> r.value.next <= |data|
    decreases |data| - offset
  {
    if |data| - offset < 4 then Err(DecodeError(offset, Truncated))
    else
      var size, rawKind := Get16(order, data, offset), Get16(order, data, offset + 2);
      var kind, chain := rawKind % EXTENSION_CHAIN_FLAG, rawKind >= EXTENSION_CHAIN_FLAG;
      if kind == 0 then Err(DecodeError(offset + 2, Invalid))
      else if size > |data| - (offset + 4) then Err(DecodeError(offset + 4, Truncated))
      else
        var next := offset + 4 + size;
        match ApplyExtension(x, kind, chain, offset, data[offset + 4..next])
        case Err(e) => Err(e)
        case Ok(y) => if chain then ParseExtensions(order, data, next, y) else Ok(Chain(y, next))
  }

  const NO_EXTENSIONS := Extensions(None, None, None, [])

  function ParseHeader(data: Bytes): Header
    requires |data| >= 8
  {
    var order := if data[0] / FLAG_LITTLE_ENDIAN % 2 == 1 then Little else Big;
    Header(order, data[0] % 2 == 1, data[1], Get16(order, data, 2), Get16(order, data, 4), data[6], data[7], None, None)
  }

  function ParseChain(data: Bytes): Result<Chain, DecodeError>
    requires |data| >= 8
  {
    if data[0] / FLAG_EXTENSION % 2 == 1
    then ParseExtensions(ParseHeader(data).order, data, 8, NO_EXTENSIONS)
    else Ok(Chain(NO_EXTENSIONS, 8))
  }

  function ShiftError(e: DecodeError, amount: nat): DecodeError { DecodeError(e.offset + amount, e.kind) }

  /** Event name and fields of the metadata block. */
  function ParseMetadata(limits: Limits, order: ByteOrder, block: Block): Result<(Bytes, seq<Def>), DecodeError> {
    match IndexOf(block.bytes, 0, 0)
    case None => Err(DecodeError(block.offset, Truncated))
    case Some(nul) =>
      var name := block.bytes[..nul];
      if name == [] || SEMICOLON in name then Err(DecodeError(block.offset, Invalid))
      else
        match ParseTop(ParserInput(block.bytes, order, limits.maxDepth, limits.maxItems), nul + 1, 0)
        case Err(e) => Err(ShiftError(e, block.offset))
        case Ok(p) => Ok((name, p.value))
  }

  function ParseBody(limits: Limits, trace: TraceName, data: Bytes, chain: Chain): Result<ParsedEvent, DecodeError>
    requires |data| >= 8 && chain.next <= |data|
  {
    var h, x := ParseHeader(data), chain.found;
    if x.metadata.None? then Err(DecodeError(chain.next, Invalid))
    else if |x.metadata.value.bytes| > limits.maxMetadataSize then Err(DecodeError(x.metadata.value.offset, Limit))
    else if |data| - chain.next > limits.maxPayloadSize then Err(DecodeError(chain.next, Limit))
    else
      match ParseMetadata(limits, h.order, x.metadata.value)
      case Err(e) => Err(e)
      case Ok(m) =>
        var info := EventInfo(trace, h.(activity := x.activity, related := x.related), m.0, x.metadata.value.bytes, x.others);
        Ok(ParsedEvent(info, data[chain.next..], chain.next, m.1))
  }

  function ParseEvent(raw: Limits, tracepoint: Bytes, data: Bytes): Result<ParsedEvent, DecodeError> {
    var limits := Normalized(raw);
    if !ValidLimits(limits) then Err(DecodeError(0, Limit))
    else if |data| > limits.maxEventSize then Err(DecodeError(0, Limit))
    else
      match ParseTracepointName(tracepoint)
      case Err(e) => Err(e)
      case Ok(trace) =>
        if |data| < 8 then Err(DecodeError(|data|, Truncated))
        else if data[0] >= 8 then Err(DecodeError(0, Invalid))
        else if data[7] != trace.level then Err(DecodeError(7, Invalid))
        else
          match ParseChain(data)
          case Err(e) => Err(e)
          case Ok(chain) => ParseBody(limits, trace, data, chain)
  }

  // ------------------------------------------------------------------ method

  /** `Decoder.parse`: the extension loop updates `offset` and what was found. */
  method Parse(raw: Limits, tracepoint: Bytes, data: Bytes) returns (r: Result<ParsedEvent, DecodeError>)
    ensures r == ParseEvent(raw, tracepoint, data)
  {
    hide ParseTracepointName, ParseBody, Normalized, ValidLimits, ApplyExtension, Get16;
    var limits := Normalized(raw);
    if !ValidLimits(limits) {
      return Err(DecodeError(0, Limit));
    }
    if |data| > limits.maxEventSize {
      return Err(DecodeError(0, Limit));
    }
    var trace := ParseTracepointName(tracepoint);
    if trace.Err? {
      return Err(trace.error);
    }
    if |data| < 8 {
      return Err(DecodeError(|data|, Truncated));
    }
    if data[0] >= 8 {
      return Err(DecodeError(0, Invalid));
    }
    var header := ParseHeader(data);
    if header.level != trace.value.level {
      return Err(DecodeError(7, Invalid));
    }
    var offset := 8;
    var found := NO_EXTENSIONS;
    if data[0] / FLAG_EXTENSION % 2 == 1 {
      var more := true;
      while more
        invariant 8 <= offset <= |data|
        invariant ParseChain(data) ==
                  if more then ParseExtensions(header.order, data, offset, found) else Ok(Chain(found, offset))
        decreases |data| - offset, more
      {
        if |data| - offset < 4 {
          return Err(DecodeError(offset, Truncated));
        }
        var size := Get16(header.order, data, offset);
        var rawKind := Get16(header.order, data, offset + 2);
        var kind := rawKind % EXTENSION_CHAIN_FLAG;
        var start := offset;
        offset := offset + 4;
        if kind == 0 {
          return Err(DecodeError(start + 2, Invalid));
        }
        if size > |data| - offset {
          return Err(DecodeError(offset, Truncated));
        }
        var body := data[offset..offset + size];
        offset := offset + size;
        var next := ApplyExtension(found, kind, rawKind >= EXTENSION_CHAIN_FLAG, start, body);
        if next.Err? {
          return Err(next.error);
        }
        found := next.value;
        more := rawKind >= EXTENSION_CHAIN_FLAG;
      }
    }
    r := FinishParse(limits, trace.value, data, Chain(found, offset));
  }

  /** The part of `Decoder.parse` after the extension loop. */
  method FinishParse(limits: Limits, trace: TraceName, data: Bytes, chain: Chain) returns (r: Result<ParsedEvent, DecodeError>)
    requires |data| >= 8 && chain.next <= |data|
    ensures r == ParseBody(limits, trace, data, chain)
  {
    hide ParseTop, ParseHeader;
    var header := ParseHeader(data);
    if chain.found.metadata.None? {
      return Err(DecodeError(chain.next, Invalid));
    }
    var block := chain.found.metadata.value;
    if |block.bytes| > limits.maxMetadataSize {
      return Err(DecodeError(block.offset, Limit));
    }
    var payload := data[chain.next..];
    if |payload| > limits.maxPayloadSize {
      return Err(DecodeError(chain.next, Limit));
    }
    var nul := ByteIndex(block.bytes, 0, 0);
    if nul.None? {
      return Err(DecodeError(block.offset, Truncated));
    }
    if nul.value == 0 || SEMICOLON in block.bytes[..nul.value] {
      return Err(DecodeError(block.offset, Invalid));
    }
    var parser := new MetadataParser(ParserInput(block.bytes, header.order, limits.maxDepth, limits.maxItems), nul.value + 1);
    var fields := parser.ParseTopFields();
    if fields.Err? {
      return Err(ShiftError(fields.error, block.offset));
    }
    var info := EventInfo(
      trace, header.(activity := chain.found.activity, related := chain.found.related),
      block.bytes[..nul.value], block.bytes, chain.found.others);
    return Ok(ParsedEvent(info, payload, chain.next, fields.value));
  }
}
