/** Extension chains of any content.  What `Decoder.parse` finds is stated by
    kind number and position in the event alone, for every list of extensions
    laid out one behind the other. */
module Chains {
  import opened Wire
  import opened Format
  import opened Names
  import opened Parser
  import opened EventParser
  import opened EventInverse

  /** An extension before it is laid out. */
  datatype Written = Written(kind: nat, body: Bytes)

  predicate FitsOne(e: Written) { e.kind < 0x8000 && |e.body| <= 0xffff }

  predicate Fits(es: seq<Written>) { forall i :: 0 <= i < |es| ==> FitsOne(es[i]) }

  /** Size, kind and body; bit 15 of the kind says that another extension follows. */
  function Piece(order: ByteOrder, e: Written, more: bool): (r: Bytes)
    requires FitsOne(e)
    ensures |r| == 4 + |e.body|
  {
    Put16(order, |e.body|) + Put16(order, e.kind + if more then 0x8000 else 0) + e.body
  }

  function ChainBytes(order: ByteOrder, es: seq<Written>): Bytes
    requires Fits(es)
  {
    if es == [] then [] else Piece(order, es[0], |es| > 1) + ChainBytes(order, es[1..])
  }

  /** The same extensions with the places they get from `offset` on. */
  function Placed(es: seq<Written>, offset: nat): seq<Extension>
    requires Fits(es)
  {
    if es == [] then []
    else [Extension(es[0].kind, |es| > 1, offset, es[0].body)] + Placed(es[1..], offset + 4 + |es[0].body|)
  }

  function OfKind(ps: seq<Extension>, kind: u16): seq<Extension> {
    if ps == [] then [] else (if ps[0].kind == kind then [ps[0]] else []) + OfKind(ps[1..], kind)
  }

  /** The extensions that are neither metadata nor activity IDs. */
  function Rest(ps: seq<Extension>): seq<Extension> {
    if ps == [] then [] else (if ps[0].kind != 1 && ps[0].kind != 2 then [ps[0]] else []) + Rest(ps[1..])
  }

  /** After what `x` holds, `ps` has no kind zero, no second metadata block and
      no second activity extension, and activity extensions have 16 or 32 bytes. */
  predicate Lawful(x: Extensions, ps: seq<Extension>) {
    && |OfKind(ps, 0)| == 0
    && |OfKind(ps, 1)| + (if x.metadata.Some? then 1 else 0) <= 1
    && |OfKind(ps, 2)| + (if x.activity.Some? then 1 else 0) <= 1
    && forall i :: 0 <= i < |OfKind(ps, 2)| ==> |OfKind(ps, 2)[i].data| in {16, 32}
  }

  /** The metadata block of `x` or, failing that, the one among `ps`. */
  predicate JoinedBlock(x: Extensions, ps: seq<Extension>, y: Extensions) {
    var metas := OfKind(ps, 1);
    y.metadata == if metas == [] then x.metadata else Some(Block(metas[0].data, metas[0].offset + 4))
  }

  /** The same for the activity ID and the related one behind it. */
  predicate JoinedActivity(x: Extensions, ps: seq<Extension>, y: Extensions) {
    var activities := OfKind(ps, 2);
    if activities == [] then y.activity == x.activity && y.related == x.related
    else
      var body := activities[0].data;
      && |body| in {16, 32}
      && y.activity.Some? && y.activity.value == body[..16]
      && (if |body| == 32 then y.related.Some? && y.related.value == body[16..] else y.related.None?)
  }

  /** `y` is `x` together with what `ps` brings. */
  predicate Joined(x: Extensions, ps: seq<Extension>, y: Extensions) {
    && JoinedBlock(x, ps, y)
    && JoinedActivity(x, ps, y)
    && y.others == x.others + Rest(ps)
  }

  /** Where and why reading `ps` fails: at the first extension that breaks the
      law, two bytes further for a zero kind. */
  ghost predicate FailsAt(x: Extensions, ps: seq<Extension>, e: DecodeError) {
    exists i :: 0 <= i < |ps| && Lawful(x, ps[..i]) && !Lawful(x, ps[..i + 1])
                && e == DecodeError(ps[i].offset + (if ps[i].kind == 0 then 2 else 0), Invalid)
  }

  // ------------------------------------------------------------- one by one

  lemma Selections(p: Extension, ps: seq<Extension>, kind: u16)
    ensures ([p] + ps)[1..] == ps
    ensures OfKind([p] + ps, kind) == (if p.kind == kind then [p] + OfKind(ps, kind) else OfKind(ps, kind))
    ensures Rest([p] + ps) == (if p.kind != 1 && p.kind != 2 then [p] + Rest(ps) else Rest(ps))
  {
    assert ([p] + ps)[1..] == ps;
    assert [] + OfKind(ps, kind) == OfKind(ps, kind);
    assert [] + Rest(ps) == Rest(ps);
  }

  /** One extension alone is applied if and only if the law allows it. */
  lemma ApplyOne(x: Extensions, p: Extension)
    requires p.kind != 0
    ensures var r := ApplyExtension(x, p.kind, p.chain, p.offset, p.data);
            if Lawful(x, [p]) then r.Ok? && Joined(x, [p], r.value) else r == Err(DecodeError(p.offset, Invalid))
  {
    assert [p] + [] == [p];
    Selections(p, [], 0);
    Selections(p, [], 1);
    Selections(p, [], 2);
  }

  lemma LawfulStep(x: Extensions, p: Extension, ps: seq<Extension>, y: Extensions)
    requires Lawful(x, [p]) && Joined(x, [p], y)
    ensures Lawful(x, [p] + ps) <==> Lawful(y, ps)
  {
    assert [p] + [] == [p];
    forall kind: u16 | kind in {0, 1, 2}
      ensures OfKind([p], kind) == if p.kind == kind then [p] else []
      ensures OfKind([p] + ps, kind) == OfKind([p], kind) + OfKind(ps, kind)
    {
      Selections(p, [], kind);
      Selections(p, ps, kind);
    }
    if p.kind == 2 {
      assert OfKind([p], 2)[0] == p;
      assert OfKind([p] + ps, 2)[0] == p;
      assert OfKind([p] + ps, 2)[1..] == OfKind(ps, 2);
    } else {
      assert OfKind([p] + ps, 2) == OfKind(ps, 2);
    }
  }

  lemma Front(p: Extension, ps: seq<Extension>)
    ensures OfKind([p], 1) == if p.kind == 1 then [p] else []
    ensures OfKind([p], 2) == if p.kind == 2 then [p] else []
    ensures OfKind([p] + ps, 1) == OfKind([p], 1) + OfKind(ps, 1)
    ensures OfKind([p] + ps, 2) == OfKind([p], 2) + OfKind(ps, 2)
    ensures Rest([p] + ps) == Rest([p]) + Rest(ps)
  {
    assert [p] + [] == [p];
    Selections(p, [], 1);
    Selections(p, [], 2);
    Selections(p, ps, 1);
    Selections(p, ps, 2);
  }

  lemma JoinedStep(x: Extensions, p: Extension, ps: seq<Extension>, y: Extensions, z: Extensions)
    requires Lawful(x, [p]) && Joined(x, [p], y)
    requires Lawful(y, ps) && Joined(y, ps, z)
    ensures Lawful(x, [p] + ps) && Joined(x, [p] + ps, z)
  {
    hide OfKind, Rest, Lawful, JoinedBlock, JoinedActivity;
    LawfulStep(x, p, ps, y);
    JoinedBlockStep(x, p, ps, y, z);
    JoinedActivityStep(x, p, ps, y, z);
    Front(p, ps);
    assert x.others + Rest([p]) + Rest(ps) == x.others + (Rest([p]) + Rest(ps));
  }

  lemma JoinedBlockStep(x: Extensions, p: Extension, ps: seq<Extension>, y: Extensions, z: Extensions)
    requires Lawful(y, ps) && JoinedBlock(x, [p], y) && JoinedBlock(y, ps, z)
    ensures JoinedBlock(x, [p] + ps, z)
  {
    hide OfKind, Rest, JoinedActivity;
    Front(p, ps);
    if p.kind == 1 {
      assert y.metadata.Some?;
      assert OfKind(ps, 1) == [];
    } else {
      assert [] + OfKind(ps, 1) == OfKind(ps, 1);
    }
  }

  lemma JoinedActivityStep(x: Extensions, p: Extension, ps: seq<Extension>, y: Extensions, z: Extensions)
    requires Lawful(y, ps) && JoinedActivity(x, [p], y) && JoinedActivity(y, ps, z)
    ensures JoinedActivity(x, [p] + ps, z)
  {
    hide OfKind, Rest, JoinedBlock;
    Front(p, ps);
    if p.kind == 2 {
      assert y.activity.Some?;
      assert OfKind(ps, 2) == [];
    } else {
      assert [] + OfKind(ps, 2) == OfKind(ps, 2);
    }
  }

  lemma FailStep(x: Extensions, p: Extension, ps: seq<Extension>, y: Extensions, e: DecodeError)
    requires Lawful(x, [p]) && Joined(x, [p], y) && FailsAt(y, ps, e)
    ensures FailsAt(x, [p] + ps, e)
  {
    hide Lawful, Joined;
    var i :| 0 <= i < |ps| && Lawful(y, ps[..i]) && !Lawful(y, ps[..i + 1])
             && e == DecodeError(ps[i].offset + (if ps[i].kind == 0 then 2 else 0), Invalid);
    var all := [p] + ps;
    LawfulStep(x, p, ps[..i], y);
    LawfulStep(x, p, ps[..i + 1], y);
    assert all[..i + 1] == [p] + ps[..i] && all[..i + 2] == [p] + ps[..i + 1];
    assert all[i + 1] == ps[i];
  }

  lemma FailFirst(x: Extensions, p: Extension, ps: seq<Extension>)
    requires !Lawful(x, [p])
    ensures FailsAt(x, [p] + ps, DecodeError(p.offset + (if p.kind == 0 then 2 else 0), Invalid))
  {
    var all := [p] + ps;
    assert all[..0] == [] && all[..1] == [p];
    assert Lawful(x, []);
    assert all[0] == p;
  }

  lemma UnlawfulGrows(x: Extensions, p: Extension, ps: seq<Extension>)
    requires !Lawful(x, [p])
    ensures !Lawful(x, [p] + ps)
  {
    assert [p] + [] == [p];
    forall kind: u16 | kind in {0, 1, 2}
      ensures OfKind([p], kind) == if p.kind == kind then [p] else []
      ensures OfKind([p] + ps, kind) == OfKind([p], kind) + OfKind(ps, kind)
    {
      Selections(p, [], kind);
      Selections(p, ps, kind);
    }
    if p.kind == 2 {
      assert OfKind([p], 2)[0] == p && OfKind([p] + ps, 2)[0] == p;
    }
  }

  // ------------------------------------------------------------ whole chains

  /** Reading a chain that was laid out: everything in it is found if it obeys
      the law, and the first extension that breaks the law is reported if not. */
  lemma {:induction false} ChainBack(order: ByteOrder, data: Bytes, offset: nat, x: Extensions, es: seq<Written>)
    requires es != [] && Fits(es) && At(data, offset, ChainBytes(order, es))
    ensures offset + |ChainBytes(order, es)| <= |data|
    ensures var r, ps := ParseExtensions(order, data, offset, x), Placed(es, offset);
            if Lawful(x, ps)
            then r.Ok? && Joined(x, ps, r.value.found) && r.value.next == offset + |ChainBytes(order, es)|
            else r.Err? && FailsAt(x, ps, r.error)
    decreases es
  {
    hide Get16, Put16, ApplyExtension, Lawful, Joined, FailsAt, OfKind, Rest, ParseExtensions;
    var e, rawKind: u16 := es[0], es[0].kind + if |es| > 1 then 0x8000 else 0;
    var head := Piece(order, e, |es| > 1);
    AtConcat(data, offset, head, ChainBytes(order, es[1..]));
    var p, ps := Extension(e.kind, |es| > 1, offset, e.body), Placed(es[1..], offset + |head|);
    assert Placed(es, offset) == [p] + ps;
    if e.kind == 0 {
      ZeroKind(order, data, offset, x, rawKind, e.body);
      ZeroUnlawful(x, p);
      UnlawfulGrows(x, p, ps);
      FailFirst(x, p, ps);
    } else {
      ExtensionStep(order, data, offset, x, rawKind, e.body);
      ApplyOne(x, p);
      if !Lawful(x, [p]) {
        UnlawfulGrows(x, p, ps);
        FailFirst(x, p, ps);
      } else {
        var y := ApplyExtension(x, p.kind, p.chain, p.offset, p.data).value;
        LawfulStep(x, p, ps, y);
        if |es| == 1 {
          assert ps == [] && [p] + ps == [p];
          assert head + [] == head;
        } else {
          ChainBack(order, data, offset + |head|, y, es[1..]);
          var r := ParseExtensions(order, data, offset + |head|, y);
          if Lawful(y, ps) {
            JoinedStep(x, p, ps, y, r.value.found);
          } else {
            FailStep(x, p, ps, y, r.error);
          }
        }
      }
    }
  }

  lemma ZeroUnlawful(x: Extensions, p: Extension)
    requires p.kind == 0
    ensures !Lawful(x, [p])
  {
    assert [p] + [] == [p];
    Selections(p, [], 0);
  }

  lemma ZeroKind(order: ByteOrder, data: Bytes, offset: nat, x: Extensions, rawKind: u16, body: Bytes)
    requires |body| <= 0xffff && rawKind % 0x8000 == 0
    requires At(data, offset, Put16(order, |body|) + Put16(order, rawKind) + body)
    ensures ParseExtensions(order, data, offset, x) == Err(DecodeError(offset + 2, Invalid))
  {
    hide Get16, Put16, ApplyExtension;
    AtConcat(data, offset, Put16(order, |body|) + Put16(order, rawKind), body);
    AtConcat(data, offset, Put16(order, |body|), Put16(order, rawKind));
    Get16At(order, data, offset + 2, rawKind);
  }

  /** The extension that a chain starts with. */
  lemma FirstRead(order: ByteOrder, data: Bytes, offset: nat, x: Extensions) returns (e: Written, more: bool, y: Extensions)
    requires offset <= |data| && ParseExtensions(order, data, offset, x).Ok?
    ensures FitsOne(e) && At(data, offset, Piece(order, e, more))
    ensures more ==> ParseExtensions(order, data, offset + 4 + |e.body|, y).Ok?
  {
    hide Get16, Put16, ApplyExtension;
    var size, rawKind := Get16(order, data, offset), Get16(order, data, offset + 2);
    var next := offset + 4 + size;
    var body := data[offset + 4..next];
    Put16Get16(order, data, offset);
    Put16Get16(order, data, offset + 2);
    e, more := Written(rawKind % 0x8000, body), rawKind >= 0x8000;
    y := ApplyExtension(x, rawKind % 0x8000, more, offset, body).value;
    assert data[offset..next] == data[offset..offset + 2] + data[offset + 2..offset + 4] + body;
  }

  /** Whatever is read as a chain was laid out as one. */
  lemma {:induction false} ChainRead(order: ByteOrder, data: Bytes, offset: nat, x: Extensions) returns (es: seq<Written>)
    requires offset <= |data| && ParseExtensions(order, data, offset, x).Ok?
    ensures es != [] && Fits(es) && At(data, offset, ChainBytes(order, es))
    decreases |data| - offset
  {
    hide Piece, ParseExtensions;
    var e, more, y := FirstRead(order, data, offset, x);
    var head := Piece(order, e, more);
    if more {
      var tail := ChainRead(order, data, offset + |head|, y);
      es := [e] + tail;
      assert es[1..] == tail;
      AtJoin(data, offset, head, ChainBytes(order, tail));
    } else {
      es := [e];
      assert es[1..] == [] && head + [] == head;
    }
  }

  /** A chain is accepted if and only if lawful extensions stand there one
      behind the other. */
  lemma ChainIff(order: ByteOrder, data: Bytes, offset: nat)
    requires offset <= |data|
    ensures ParseExtensions(order, data, offset, NO_EXTENSIONS).Ok? <==>
            exists es ::
              es != [] && Fits(es) && At(data, offset, ChainBytes(order, es)) && Lawful(NO_EXTENSIONS, Placed(es, offset))
  {
    hide Lawful, Joined, FailsAt, ParseExtensions, ChainBytes, Placed;
    if ParseExtensions(order, data, offset, NO_EXTENSIONS).Ok? {
      var es := ChainRead(order, data, offset, NO_EXTENSIONS);
      ChainBack(order, data, offset, NO_EXTENSIONS, es);
    }
    forall es | es != [] && Fits(es) && At(data, offset, ChainBytes(order, es)) && Lawful(NO_EXTENSIONS, Placed(es, offset))
      ensures ParseExtensions(order, data, offset, NO_EXTENSIONS).Ok?
    {
      ChainBack(order, data, offset, NO_EXTENSIONS, es);
    }
  }

  // ------------------------------------------------------------ whole events

  function OrderOf(first: byte): ByteOrder { if first / 2 % 2 == 1 then Little else Big }

  /** An event header that announces extensions. */
  predicate Announces(head: Bytes) {
    |head| == 8 && head[0] < 8 && head[0] >= 4
  }

  /** The event under its fixed header: where its parts must be found. */
  predicate Found(trace: TraceName, head: Bytes, ps: seq<Extension>, payload: Bytes, size: nat, e: ParsedEvent)
    requires |head| == 8
  {
    var h, order := e.info.header, OrderOf(head[0]);
    && Lawful(NO_EXTENSIONS, ps) && |OfKind(ps, 1)| == 1
    && e.info.trace == trace
    && h.order == order && h.pointer64 == (head[0] % 2 == 1) && h.version == head[1]
    && h.id == Get(order, head[2..4]) && h.tag == Get(order, head[4..6]) && h.opcode == head[6] && h.level == head[7]
    && Joined(NO_EXTENSIONS, ps, Extensions(Some(Block(e.info.metadata, OfKind(ps, 1)[0].offset + 4)), h.activity, h.related, e.info.others))
    && e.info.eventName + [0] <= e.info.metadata
    && e.info.eventName != [] && 0 !in e.info.eventName && 0x3b !in e.info.eventName
    && e.payload == payload && e.payloadOffset == size - |payload|
  }

  /** Errors and findings of a metadata block do not depend on where it stands;
      offsets count from the start of the event. */
  lemma MetadataShifts(limits: Limits, order: ByteOrder, block: Block)
    ensures ParseMetadata(limits, order, block) ==
            match ParseMetadata(limits, order, Block(block.bytes, 0))
            case Err(e) => Err(DecodeError(block.offset + e.offset, e.kind))
            case Ok(m) => Ok(m)
  {
    hide ParseTop, IndexOf;
  }

  lemma NameOf(limits: Limits, order: ByteOrder, block: Block)
    requires ParseMetadata(limits, order, block).Ok?
    ensures var name := ParseMetadata(limits, order, block).value.0;
            name + [0] <= block.bytes && name != [] && 0 !in name && 0x3b !in name
  {
    hide ParseTop;
    var nul := IndexOf(block.bytes, 0, 0).value;
    assert block.bytes[..nul + 1] == block.bytes[..nul] + [0];
  }

  lemma HeaderFields(data: Bytes, head: Bytes)
    requires |head| == 8 && head <= data
    ensures var h := ParseHeader(data);
            && h.order == OrderOf(head[0]) && h.pointer64 == (head[0] % 2 == 1) && h.version == head[1]
            && h.id == Get(h.order, head[2..4]) && h.tag == Get(h.order, head[4..6]) && h.opcode == head[6] && h.level == head[7]
  {
    hide Get, Get16;
    var h := ParseHeader(data);
    assert data[2..4] == head[2..4] && data[4..6] == head[4..6];
    Get16IsGet(h.order, data, 2);
    Get16IsGet(h.order, data, 4);
  }

  /** An event of eight header bytes, any chain of extensions and a payload is
      refused for its chain exactly when the chain breaks the law or holds no
      metadata, then for its limits and its metadata, and is found otherwise. */
  lemma AnyEvent(raw: Limits, tracepoint: Bytes, head: Bytes, es: seq<Written>, payload: Bytes)
    requires Announces(head) && es != [] && Fits(es)
    requires ParseTracepointName(tracepoint).Ok? && ParseTracepointName(tracepoint).value.level == head[7]
    requires ValidLimits(Normalized(raw))
    requires |head + ChainBytes(OrderOf(head[0]), es) + payload| <= Normalized(raw).maxEventSize
    ensures var data, l, ps := head + ChainBytes(OrderOf(head[0]), es) + payload, Normalized(raw), Placed(es, 8);
            var r, metas := ParseEvent(raw, tracepoint, data), OfKind(ps, 1);
            if !Lawful(NO_EXTENSIONS, ps) then r.Err? && FailsAt(NO_EXTENSIONS, ps, r.error)
            else if metas == [] then r == Err(DecodeError(|data| - |payload|, Invalid))
            else if |metas[0].data| > l.maxMetadataSize then r == Err(DecodeError(metas[0].offset + 4, Limit))
            else if |payload| > l.maxPayloadSize then r == Err(DecodeError(|data| - |payload|, Limit))
            else
              match ParseMetadata(l, OrderOf(head[0]), Block(metas[0].data, 0))
              case Err(e) => r == Err(DecodeError(metas[0].offset + 4 + e.offset, e.kind))
              case Ok(m) =>
                && r.Ok? && r.value.info.metadata == metas[0].data
                && r.value.info.eventName == m.0 && r.value.fields == m.1
                && Found(ParseTracepointName(tracepoint).value, head, ps, payload, |data|, r.value)
  {
    hide ParseTracepointName, ParseMetadata, ParseHeader, ParseExtensions, Get16, Get, ChainBytes, Placed, OfKind, Rest,
         FailsAt, Normalized, ValidLimits, JoinedActivity;
    var order, l, ps := OrderOf(head[0]), Normalized(raw), Placed(es, 8);
    var data := head + ChainBytes(order, es) + payload;
    assert data[8..8 + |ChainBytes(order, es)|] == ChainBytes(order, es);
    assert data[8 + |ChainBytes(order, es)|..] == payload;
    assert head <= data;
    HeaderFields(data, head);
    ChainBack(order, data, 8, NO_EXTENSIONS, es);
    var chain := ParseExtensions(order, data, 8, NO_EXTENSIONS);
    assert ParseChain(data) == chain;
    if chain.Ok? && chain.value.found.metadata.Some? {
      var block := chain.value.found.metadata.value;
      MetadataShifts(l, order, block);
      if ParseMetadata(l, order, block).Ok? {
        NameOf(l, order, block);
        FoundWhole(chain.value.found, ps);
      }
    }
  }

  /** Without the extension flag there is no metadata to find. */
  lemma NoChain(raw: Limits, tracepoint: Bytes, data: Bytes)
    requires |data| >= 8 && data[0] < 4 && ValidLimits(Normalized(raw)) && |data| <= Normalized(raw).maxEventSize
    requires ParseTracepointName(tracepoint).Ok? && ParseTracepointName(tracepoint).value.level == data[7]
    ensures ParseEvent(raw, tracepoint, data) == Err(DecodeError(8, Invalid))
  {
    hide ParseTracepointName, Normalized, ValidLimits, ParseHeader, ParseMetadata;
    assert ParseChain(data) == Ok(Chain(NO_EXTENSIONS, 8));
  }

  lemma FoundWhole(y: Extensions, ps: seq<Extension>)
    requires Lawful(NO_EXTENSIONS, ps) && Joined(NO_EXTENSIONS, ps, y) && y.metadata.Some?
    ensures |OfKind(ps, 1)| == 1
  {
  }
}
