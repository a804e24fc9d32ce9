/** What is written to a perf.data stream is what is read from it: any list of
    records, with the block sizes that records 66 and 71 declare. */
module Streams {
  import opened Wire
  import opened Framing

  /** A record before it is written, with the block that follows it. */
  datatype Entry = Entry(kind: nat, misc: nat, body: Bytes, post: Bytes)

  function Raw(order: ByteOrder, e: Entry): (r: Bytes)
    requires e.misc < 0x1_0000 && |e.body| < 0xfff8
    ensures |r| == 8 + |e.body|
  {
    Put(order, 4, e.kind) + (Put16(order, e.misc) + (Put16(order, 8 + |e.body|) + e.body))
  }

  predicate Sized(l: FrameLimits, e: Entry) {
    e.kind < 0x1_0000_0000 && e.misc < 0x1_0000 && |e.body| < 0xfff8 && 8 + |e.body| <= l.maxRecordBytes
  }

  /** Compressed records are not read; tracing data (66) declares the size of its
      block in its first four bytes, AUXTRACE (71) in its first eight, and nothing
      else has one. */
  predicate Readable(order: ByteOrder, l: FrameLimits, e: Entry) {
    && Sized(l, e)
    && e.kind != 81 && e.kind != 83
    && |e.post| <= l.maxPostBytes && |e.post| < 0x8000_0000_0000_0000
    && (e.kind == 66 ==> |e.post| < 0x1_0000_0000 && |e.post| <= l.maxFeatureBytes && Put(order, 4, |e.post|) <= e.body)
    && (e.kind == 71 ==> Put(order, 8, |e.post|) <= e.body)
    && (e.kind != 66 && e.kind != 71 ==> e.post == [])
  }

  /** Records about the file itself. */
  predicate AboutFile(e: Entry) { e.kind in {64, 66, 68, 80, 82} }

  lemma HeaderBack(order: ByteOrder, l: FrameLimits, e: Entry, rest: Bytes)
    requires Sized(l, e)
    ensures var raw := Raw(order, e);
            && Get16(order, raw + rest, 6) == 8 + |e.body|
            && TypeOf(order, raw) == e.kind
            && raw[8..] == e.body && (raw + rest)[..|raw|] == raw && (raw + rest)[|raw|..] == rest
  {
    hide Put, Put16, Get, Get16;
    var raw := Raw(order, e);
    var data := raw + rest;
    assert At(data, 6, Put16(order, 8 + |e.body|)) by {
      assert data[6..8] == Put16(order, 8 + |e.body|);
    }
    Get16At(order, data, 6, 8 + |e.body|);
    assert raw[..4] == Put(order, 4, e.kind);
    PowersOf256();
    GetPut(order, 4, e.kind);
  }

  /** The size that stands in front of a body. */
  lemma DeclaredBack(order: ByteOrder, l: FrameLimits, e: Entry, width: nat, size: nat)
    requires Sized(l, e) && width in {4, 8} && size < Pow256(width) && Put(order, width, size) <= e.body
    ensures Get(order, Raw(order, e)[8..8 + width]) == size
  {
    hide Put, Put16, Get;
    assert Raw(order, e)[8..8 + width] == e.body[..width] == Put(order, width, size);
    GetPut(order, width, size);
  }

  /** One record is read back with its block, whatever follows. */
  lemma EntryBack(order: ByteOrder, l: FrameLimits, e: Entry, rest: Bytes)
    requires Readable(order, l, e)
    ensures FirstFrame(order, l, Raw(order, e) + e.post + rest) == Ok(Frame(Raw(order, e), e.post))
    ensures IsMetadata(order, Raw(order, e)) <==> AboutFile(e)
  {
    hide Put, Put16, Get, Get16, Raw, TypeOf;
    var raw := Raw(order, e);
    assert raw + e.post + rest == raw + (e.post + rest);
    HeaderBack(order, l, e, e.post + rest);
    PowersOf256();
    if e.kind == 66 {
      DeclaredBack(order, l, e, 4, |e.post|);
    } else if e.kind == 71 {
      DeclaredBack(order, l, e, 8, |e.post|);
    }
    assert (e.post + rest)[..|e.post|] == e.post;
  }

  /** What a record that cannot be read is reported as. */
  lemma EntryRefused(order: ByteOrder, l: FrameLimits, e: Entry, width: nat, size: nat, rest: Bytes)
    requires Sized(l, e)
    requires width == (if e.kind == 66 then 4 else if e.kind == 71 then 8 else 0) && size < Pow256(width)
    requires |e.body| >= width ==> Put(order, width, size) <= e.body
    ensures var r := FirstFrame(order, l, Raw(order, e) + rest);
            if e.kind == 81 || e.kind == 83 then r == Err(Bad(Unsupported))
            else if |e.body| < width then r == Err(Bad(Truncated))
            else if width > 0 && size > 0 && (size > l.maxPostBytes || size >= 0x8000_0000_0000_0000) then r == Err(Bad(Limit))
            else if e.kind == 66 && size > l.maxFeatureBytes then r == Err(Bad(Limit))
            else if size > |rest| then r == Err(Bad(Truncated))
            else r == Ok(Frame(Raw(order, e), rest[..size]))
  {
    hide Put, Put16, Get, Get16, Raw, TypeOf;
    HeaderBack(order, l, e, rest);
    PowersOf256();
    if width > 0 && |e.body| >= width {
      DeclaredBack(order, l, e, width, size);
    }
  }

  function StreamBytes(order: ByteOrder, l: FrameLimits, es: seq<Entry>): Bytes
    requires forall i :: 0 <= i < |es| ==> Readable(order, l, es[i])
  {
    if es == [] then []
    else
      assert Readable(order, l, es[0]);
      Raw(order, es[0]) + es[0].post + StreamBytes(order, l, es[1..])
  }

  /** The records one after the other: those about the file change the metadata, or
      end everything with their error, and are shown only if they are wanted. */
  function Shown<S>(order: ByteOrder, keep: bool, handler: (S, Frame) -> Result<S, FrameError>, es: seq<Entry>, state: S): Whole<S>
    requires forall i :: 0 <= i < |es| ==> es[i].misc < 0x1_0000 && |es[i].body| < 0xfff8
  {
    if es == [] then Whole([], EndOfData)
    else
      var frame := Frame(Raw(order, es[0]), es[0].post);
      if !AboutFile(es[0]) then
        var more := Shown(order, keep, handler, es[1..], state);
        Whole([Seen(frame, state)] + more.records, more.end)
      else
        match handler(state, frame)
        case Err(e) => Whole([], Bad(e))
        case Ok(next) =>
          var more := Shown(order, keep, handler, es[1..], next);
          if keep then Whole([Seen(frame, next)] + more.records, more.end) else more
  }

  /** Any list of records written one behind the other is read back as that list. */
  lemma {:induction false} StreamBack<S>(order: ByteOrder, l: FrameLimits, keep: bool, handler: (S, Frame) -> Result<S, FrameError>,
                                         es: seq<Entry>, state: S)
    requires forall i :: 0 <= i < |es| ==> Readable(order, l, es[i])
    ensures TakeAll(order, l, keep, handler, StreamBytes(order, l, es), state) == Shown(order, keep, handler, es, state)
    decreases es
  {
    hide FirstFrame, IsMetadata, Raw, Readable, AboutFile;
    assert forall i :: 0 <= i < |es| ==> Sized(l, es[i]) by { SizedAll(order, l, es); }
    if es == [] {
      Exhausted(order, l);
    } else {
      var data, rest := StreamBytes(order, l, es), StreamBytes(order, l, es[1..]);
      EntryBack(order, l, es[0], rest);
      var raw := Raw(order, es[0]);
      assert data[|raw| + |es[0].post|..] == rest;
      var frame := Frame(raw, es[0].post);
      assert FirstFrame(order, l, data) == Ok(frame);
      var t := Take(order, l, keep, handler, data, state);
      if !AboutFile(es[0]) {
        StreamBack(order, l, keep, handler, es[1..], state);
        assert t == Taken(Ok(frame), state, rest);
      } else if handler(state, frame).Ok? {
        var next := handler(state, frame).value;
        StreamBack(order, l, keep, handler, es[1..], next);
        assert t == if keep then Taken(Ok(frame), next, rest) else Take(order, l, keep, handler, rest, next);
        if !keep {
          AllOfTake(order, l, keep, handler, data, state, rest, next);
        }
      } else {
        assert t.r == Err(Bad(handler(state, frame).error));
      }
    }
  }

  lemma AllOfTake<S>(order: ByteOrder, l: FrameLimits, keep: bool, handler: (S, Frame) -> Result<S, FrameError>,
                     data: Bytes, state: S, rest: Bytes, next: S)
    requires Take(order, l, keep, handler, data, state) == Take(order, l, keep, handler, rest, next)
    ensures TakeAll(order, l, keep, handler, data, state) == TakeAll(order, l, keep, handler, rest, next)
  {
    hide Take;
  }

  lemma Exhausted(order: ByteOrder, l: FrameLimits)
    ensures FirstFrame(order, l, []) == Err(EndOfData)
  {
  }

  lemma SizedAll(order: ByteOrder, l: FrameLimits, es: seq<Entry>)
    requires forall i :: 0 <= i < |es| ==> Readable(order, l, es[i])
    ensures forall i :: 0 <= i < |es| ==> Sized(l, es[i])
  {
  }
}
