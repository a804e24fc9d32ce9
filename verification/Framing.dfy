/** Cutting a perf.data stream into records and their out-of-record blocks, from a
    seekable file and from a pipe. */
module Framing {
  import opened Wire

  datatype FrameError = Truncated | Invalid | Limit | Unsupported

  /** The end of the data is no error: reading on reports it again. */
  datatype Stop = EndOfData | Bad(why: FrameError)

  /** A record with the block that follows it, if its type has one. */
  datatype Frame = Frame(raw: Bytes, post: Bytes)

  datatype FrameLimits = FrameLimits(maxRecordBytes: nat, maxFeatureBytes: nat, maxPostBytes: nat)

  const HEADER_ATTR := 64
  const TRACING_DATA := 66
  const FINISHED_ROUND := 68
  const HEADER_FEATURE := 80
  const FINISHED_INIT := 82
  const AUXTRACE := 71
  const COMPRESSED := 81
  const COMPRESSED2 := 83
  const MAX_INT := 0x7fff_ffff_ffff_ffff

  function TypeOf(order: ByteOrder, raw: Bytes): nat
    requires |raw| >= 8
  {
    Get(order, raw[..4])
  }

  /** Records about the file itself. */
  predicate IsMetadata(order: ByteOrder, raw: Bytes)
    requires |raw| >= 8
  {
    TypeOf(order, raw) in {HEADER_ATTR, TRACING_DATA, FINISHED_ROUND, HEADER_FEATURE, FINISHED_INIT}
  }

  /** Size of the block behind a record, as the record states it. */
  function PostSize(order: ByteOrder, limits: FrameLimits, raw: Bytes): Result<nat, FrameError>
    requires |raw| >= 8
  {
    var kind := TypeOf(order, raw);
    if kind == COMPRESSED || kind == COMPRESSED2 then Err(Unsupported)
    else if kind == TRACING_DATA then
      if |raw| < 12 then Err(Truncated)
      else
        var size := Get(order, raw[8..12]);
        if size > limits.maxFeatureBytes || size > MAX_INT then Err(Limit) else Ok(size)
    else if kind == AUXTRACE then
      if |raw| < 16 then Err(Truncated)
      else
        Ok(Get(order, raw[8..16]))
    else Ok(0)
  }

  /** What stands behind a record, when `size` bytes are asked for. */
  function PostOf(limits: FrameLimits, data: Bytes, size: nat): Result<Bytes, FrameError> {
    if size > limits.maxPostBytes || size > MAX_INT then Err(Limit)
    else if size > |data| then Err(Truncated)
    else Ok(data[..size])
  }

  /** The first frame of what is left to read. */
  function FirstFrame(order: ByteOrder, limits: FrameLimits, data: Bytes): (r: Result<Frame, Stop>)
    ensures r.Ok? ==> |r.value.raw| >= 8 && r.value.raw + r.value.post <= data
  {
    if data == [] then Err(EndOfData)
    else if |data| < 8 then Err(Bad(Truncated))
    else
      var size: int := Get16(order, data, 6);
      if size < 8 || size > limits.maxRecordBytes then Err(Bad(Invalid))
      else if size > |data| then Err(Bad(Truncated))
      else
        match PostSize(order, limits, data[..size])
        case Err(e) => Err(Bad(e))
        case Ok(asked) =>
          if asked == 0 then Ok(Frame(data[..size], []))
          else
            match PostOf(limits, data[size..], asked)
            case Err(e) => Err(Bad(e))
            case Ok(post) => Ok(Frame(data[..size], post))
  }

  /** A record, or why there is none, with the metadata in force and what remains. */
  datatype Taken<S> = Taken(r: Result<Frame, Stop>, state: S, rest: Bytes)

  /** The next record: metadata records change the state by `handler`, the
      interpretation of attributes, descriptors, features and clocks, and are
      skipped unless they are wanted. */
  function Take<S>(order: ByteOrder, limits: FrameLimits, keep: bool, handler: (S, Frame) -> Result<S, FrameError>, data: Bytes, state: S): Taken<S>
    decreases |data|
  {
    match FirstFrame(order, limits, data)
    case Err(e) => Taken(Err(e), state, data)
    case Ok(f) =>
      var rest := data[|f.raw| + |f.post|..];
      if !IsMetadata(order, f.raw) then Taken(Ok(f), state, rest)
      else
        match handler(state, f)
        case Err(e) => Taken(Err(Bad(e)), state, rest)
        case Ok(next) => if keep then Taken(Ok(f), next, rest) else Take(order, limits, keep, handler, rest, next)
  }

  /** A record with the metadata it is decoded under. */
  datatype Seen<S> = Seen(frame: Frame, state: S)

  datatype Whole<S> = Whole(records: seq<Seen<S>>, end: Stop)

  lemma TakeShrinks<S>(order: ByteOrder, limits: FrameLimits, keep: bool, handler: (S, Frame) -> Result<S, FrameError>, data: Bytes, state: S)
    ensures Take(order, limits, keep, handler, data, state).r.Ok? ==> |Take(order, limits, keep, handler, data, state).rest| < |data|
    decreases |data|
  {
    hide FirstFrame, IsMetadata;
    var first := FirstFrame(order, limits, data);
    if first.Ok? && IsMetadata(order, first.value.raw) && handler(state, first.value).Ok? && !keep {
      TakeShrinks(order, limits, keep, handler, data[|first.value.raw| + |first.value.post|..], handler(state, first.value).value);
    }
  }

  /** All records up to the end or the first error. */
  function TakeAll<S>(order: ByteOrder, limits: FrameLimits, keep: bool, handler: (S, Frame) -> Result<S, FrameError>, data: Bytes, state: S): Whole<S>
    decreases |data|
  {
    var t := Take(order, limits, keep, handler, data, state);
    match t.r
    case Err(e) => Whole([], e)
    case Ok(f) =>
      TakeShrinks(order, limits, keep, handler, data, state);
      var more := TakeAll(order, limits, keep, handler, t.rest, t.state);
      Whole([Seen(f, t.state)] + more.records, more.end)
  }

  lemma SliceOfSlice(s: Bytes, a: nat, b: nat, i: nat, j: nat)
    requires a <= b <= |s| && i <= j <= b - a
    ensures s[a..b][i..j] == s[a + i..a + j]
  {
    var whole := s[a..b];
    var x, y := whole[i..j], s[a + i..a + j];
    forall k | 0 <= k < |x| ensures x[k] == y[k] {
      assert x[k] == whole[i + k] == s[a + i + k];
    }
  }

  class Reader<S> {
    const order: ByteOrder
    const limits: FrameLimits
    const keep: bool
    const handler: (S, Frame) -> Result<S, FrameError>
    const pipe: bool
    /** The file and the end of its data section, without a pipe. */
    const file: Bytes
    const dataEnd: nat
    /** What the pipe has not delivered yet. */
    var stream: Bytes
    var offset: nat
    var terminal: Option<FrameError>
    /** Attributes, descriptors, features and clock. */
    var state: S

    ghost predicate Valid()
      reads this
    {
      !pipe ==> offset <= dataEnd <= |file|
    }

    ghost function Remaining(): Bytes
      requires Valid()
      reads this
    {
      if pipe then stream else file[offset..dataEnd]
    }

    constructor Seek(order: ByteOrder, limits: FrameLimits, keep: bool, handler: (S, Frame) -> Result<S, FrameError>, state: S,
                     file: Bytes, start: nat, dataEnd: nat)
      requires start <= dataEnd <= |file|
      ensures Valid() && Remaining() == file[start..dataEnd] && terminal.None? && offset == start
      ensures this.order == order && this.limits == limits && this.keep == keep && this.handler == handler && this.state == state && !pipe
    {
      this.keep, this.handler, this.state := keep, handler, state;
      this.order, this.limits, this.file, this.dataEnd := order, limits, file, dataEnd;
      pipe, stream, offset, terminal := false, [], start, None;
    }

    constructor Pipe(order: ByteOrder, limits: FrameLimits, keep: bool, handler: (S, Frame) -> Result<S, FrameError>, state: S,
                     stream: Bytes, start: nat)
      ensures Valid() && Remaining() == stream && terminal.None? && offset == start
      ensures this.order == order && this.limits == limits && this.keep == keep && this.handler == handler && this.state == state && pipe
    {
      this.keep, this.handler, this.state := keep, handler, state;
      this.order, this.limits, this.file, this.dataEnd := order, limits, [], 0;
      this.stream := stream;
      pipe, offset, terminal := true, start, None;
    }

    /** `io.ReadFull`: a short read consumes what there was. */
    method ReadFull(n: nat) returns (r: Option<Bytes>, got: nat)
      modifies this`stream
      ensures got == if |old(stream)| < n then |old(stream)| else n
      ensures stream == old(stream)[got..]
      ensures r == if got == n then Some(old(stream)[..n]) else None
    {
      got := if |stream| < n then |stream| else n;
      r := if got == n then Some(stream[..n]) else None;
      stream := stream[got..];
    }

    /** `readOuter` */
    method ReadOuter() returns (r: Result<Bytes, Stop>)
      requires Valid()
      modifies this`stream, this`offset
      ensures Valid()
      ensures var data := old(Remaining());
        if data == [] then r == Err(EndOfData) && Remaining() == data && offset == old(offset)
        else if |data| < 8 then r == Err(Bad(Truncated))
        else if Get16(order, data, 6) < 8 || Get16(order, data, 6) > limits.maxRecordBytes then r == Err(Bad(Invalid))
        else if Get16(order, data, 6) > |data| then r == Err(Bad(Truncated))
        else
          && r == Ok(data[..Get16(order, data, 6)])
          && Remaining() == data[Get16(order, data, 6)..]
          && offset == old(offset) + Get16(order, data, 6)
    {
      ghost var data := Remaining();
      var header: Bytes;
      if pipe {
        var read, got := ReadFull(8);
        if read.None? {
          return Err(if got == 0 then EndOfData else Bad(Truncated));
        }
        header := read.value;
      } else {
        if offset == dataEnd {
          return Err(EndOfData);
        }
        if dataEnd - offset < 8 {
          return Err(Bad(Truncated));
        }
        header := file[offset..offset + 8];
        SliceOfSlice(file, offset, dataEnd, 0, 8);
      }
      assert header == data[..8];
      var size := Get16(order, header, 6);
      assert size == Get16(order, data, 6);
      if size < 8 || size > limits.maxRecordBytes {
        return Err(Bad(Invalid));
      }
      if !pipe && size > dataEnd - offset {
        return Err(Bad(Truncated));
      }
      var body: Bytes := [];
      if size > 8 {
        if pipe {
          var read, got := ReadFull(size - 8);
          if read.None? {
            return Err(Bad(Truncated));
          }
          body := read.value;
          SliceOfSlice(data, 8, |data|, 0, size - 8);
          assert body == data[8..][..size - 8];
        } else {
          body := file[offset + 8..offset + size];
          SliceOfSlice(file, offset, dataEnd, 8, size);
        }
        assert body == data[8..size];
      }
      assert data[..size] == data[..8] + data[8..size];
      offset := offset + size;
      return Ok(header + body);
    }

    /** `readPost` */
    method ReadPost(size: nat) returns (r: Result<Bytes, FrameError>)
      requires Valid()
      modifies this`stream, this`offset
      ensures Valid()
      ensures r == PostOf(limits, old(Remaining()), size)
      ensures r.Ok? ==> Remaining() == old(Remaining())[size..] && offset == old(offset) + size
    {
      ghost var data := Remaining();
      if size > limits.maxPostBytes || size > MAX_INT {
        return Err(Limit);
      }
      var post: Bytes;
      if pipe {
        var read, got := ReadFull(size);
        if read.None? {
          return Err(Truncated);
        }
        post := read.value;
      } else if size > dataEnd - offset {
        return Err(Truncated);
      } else {
        post := file[offset..offset + size];
      }
      assert post == data[..size];
      offset := offset + size;
      assert Remaining() == data[size..];
      return Ok(post);
    }

    /** One turn of `Next`: whatever the source, the result is the first frame of
        what remains, and the offset advances by exactly that frame. */
    method NextFrame() returns (r: Result<Frame, Stop>)
      requires Valid()
      modifies this`stream, this`offset
      ensures Valid()
      ensures r == FirstFrame(order, limits, old(Remaining()))
      ensures r.Ok? ==>
        && offset == old(offset) + |r.value.raw| + |r.value.post|
        && Remaining() == old(Remaining())[|r.value.raw| + |r.value.post|..]
      ensures r == Err(EndOfData) ==> Remaining() == old(Remaining()) && offset == old(offset)
    {
      hide Get, Get16, PostSize, PostOf;
      ghost var data := Remaining();
      var raw := ReadOuter();
      if raw.Err? {
        return Err(raw.error);
      }
      var size := PostSize(order, limits, raw.value);
      if size.Err? {
        return Err(Bad(size.error));
      }
      if size.value == 0 {
        return Ok(Frame(raw.value, []));
      }
      var post := ReadPost(size.value);
      if post.Err? {
        return Err(Bad(post.error));
      }
      PostSizes(limits, data[|raw.value|..], size.value);
      assert data[|raw.value|..][size.value..] == data[|raw.value| + size.value..];
      return Ok(Frame(raw.value, post.value));
    }

    /** `Next`: metadata is applied in order and skipped unless it is wanted; the
        end is not sticky and every error is. */
    method Next() returns (r: Result<Frame, Stop>)
      requires Valid()
      modifies this
      ensures Valid()
      ensures old(terminal).Some? ==> r == Err(Bad(old(terminal).value)) && terminal == old(terminal) && state == old(state)
      ensures old(terminal).None? ==>
        && var t := Take(order, limits, keep, handler, old(Remaining()), old(state));
           && r == t.r && state == t.state
           && terminal == (if r.Err? && r.error.Bad? then Some(r.error.why) else None)
           && (r.Ok? || r == Err(EndOfData) ==> Remaining() == t.rest && offset + |t.rest| == old(offset) + |old(Remaining())|)
    {
      hide FirstFrame, IsMetadata;
      if terminal.Some? {
        return Err(Bad(terminal.value));
      }
      while true
        invariant Valid() && terminal.None?
        invariant Take(order, limits, keep, handler, Remaining(), state)
               == Take(order, limits, keep, handler, old(Remaining()), old(state))
        invariant offset + |Remaining()| == old(offset) + |old(Remaining())|
        decreases |Remaining()|
      {
        var frame := NextFrame();
        if frame.Err? {
          if frame.error.Bad? {
            terminal := Some(frame.error.why);
          }
          return frame;
        }
        if !IsMetadata(order, frame.value.raw) {
          return frame;
        }
        var next := handler(state, frame.value);
        if next.Err? {
          terminal := Some(next.error);
          return Err(Bad(next.error));
        }
        state := next.value;
        if keep {
          return frame;
        }
      }
    }
  }

  lemma PostSizes(limits: FrameLimits, data: Bytes, size: nat)
    ensures PostOf(limits, data, size).Ok? ==> |PostOf(limits, data, size).value| == size <= |data|
  {
  }

  /** A whole file: all records, each with the metadata in force, and the end. */
  method ReadAll<S>(reader: Reader<S>) returns (whole: Whole<S>)
    requires reader.Valid() && reader.terminal.None?
    modifies reader
    ensures whole == TakeAll(reader.order, reader.limits, reader.keep, reader.handler, old(reader.Remaining()), old(reader.state))
    ensures reader.Valid() && reader.terminal == if whole.end.EndOfData? then None else Some(whole.end.why)
    decreases |reader.Remaining()|
  {
    hide Take;
    TakeShrinks(reader.order, reader.limits, reader.keep, reader.handler, reader.Remaining(), reader.state);
    var next := reader.Next();
    if next.Err? {
      return Whole([], next.error);
    }
    ghost var state := reader.state;
    var seen := Seen(next.value, reader.state);
    var more := ReadAll(reader);
    return Whole([seen] + more.records, more.end);
  }

  /** From equal metadata, a file section and a pipe that deliver the same bytes
      give the same records, decoded under the same metadata, and end the same way,
      whatever deterministic interpretation metadata records have. */
  method SourcesAgree<S>(order: ByteOrder, limits: FrameLimits, keep: bool, handler: (S, Frame) -> Result<S, FrameError>, state: S,
                         file: Bytes, start: nat, dataEnd: nat)
    returns (seek: Whole<S>, pipe: Whole<S>)
    requires start <= dataEnd <= |file|
    ensures seek == pipe == TakeAll(order, limits, keep, handler, file[start..dataEnd], state)
  {
    var a := new Reader<S>.Seek(order, limits, keep, handler, state, file, start, dataEnd);
    var b := new Reader<S>.Pipe(order, limits, keep, handler, state, file[start..dataEnd], start);
    seek := ReadAll(a);
    pipe := ReadAll(b);
  }
}
