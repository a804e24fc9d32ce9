/** The dynamic producer: `Builder` appends metadata and payload step by step and
    patches each structure's child count when the structure ends.  A ghost tree
    records what the calls so far mean. */
module Building {
  import opened Wire
  import opened Format
  import opened Clock
  import opened Semantics

  datatype BuildError =
    | ErrInvalidName | ErrInvalidLevel | ErrInvalidValue | ErrState | ErrCountTooLarge
    | ErrMetadataTooLarge | ErrEventTooLarge | ErrNestingTooDeep | ErrTooManyFields | ErrStructArrayUnsupported

  datatype FieldOptions = FieldOptions(format: byte, tag: u16)

  function ResolveOptions(defaultFormat: byte, options: seq<FieldOptions>): Result<FieldOptions, BuildError> {
    if |options| > 1 then Err(ErrInvalidValue)
    else
      var option :=
        if |options| == 0 then FieldOptions(defaultFormat, 0)
        else FieldOptions(
            if options[0].format != 0 || defaultFormat == 0 then options[0].format else defaultFormat,
            options[0].tag);
      if option.format >= CHAIN_FLAG then Err(ErrInvalidValue) else Ok(option)
  }

  // What the options of a call ask for: one at most, a nonzero format instead
  // of the call's own, a tag, and no bit beyond the seven of a format.

  function GivenFormat(default: byte, options: seq<FieldOptions>): byte {
    if |options| == 1 && options[0].format != 0 then options[0].format else default
  }

  function GivenTag(options: seq<FieldOptions>): u16 {
    if |options| == 1 then options[0].tag else 0
  }

  predicate OptionsRefused(default: byte, options: seq<FieldOptions>) {
    |options| >= 2 || GivenFormat(default, options) >= 0x80
  }

  lemma ResolvesAsGiven(default: byte, options: seq<FieldOptions>)
    ensures ResolveOptions(default, options) ==
            if OptionsRefused(default, options) then Err(ErrInvalidValue)
            else Ok(FieldOptions(GivenFormat(default, options), GivenTag(options)))
  {
  }

  // ---------------------------------------------------------- trees under way

  /** The event itself or an open structure, with its finished children. */
  datatype Open = Open(name: Bytes, tag: u16, done: seq<Node>)

  function Attach(levels: seq<Open>, n: Node): seq<Open>
    requires levels != []
  {
    var last := |levels| - 1;
    levels[..last] + [levels[last].(done := levels[last].done + [n])]
  }

  /** The innermost structure becomes a finished child of the level around it. */
  function CloseLevel(levels: seq<Open>): seq<Open>
    requires |levels| >= 2
  {
    var inner := levels[|levels| - 1];
    Attach(levels[..|levels| - 1], Struct(inner.name, inner.tag, inner.done))
  }

  /** Children of level `i` that have been started, the open one included. */
  function Started(levels: seq<Open>, i: nat): nat
    requires i < |levels|
  {
    |levels[i].done| + if i < |levels| - 1 then 1 else 0
  }

  predicate ValidLevel(levels: seq<Open>, i: nat)
    requires i < |levels|
  {
    && ValidName(levels[i].name)
    && ValidForest(levels[i].done)
    && i + ForestHeight(levels[i].done) <= MAX_STRUCT_DEPTH
    && (i > 0 ==> Started(levels, i) <= MAX_STRUCT_CHILDREN)
  }

  predicate Forests(levels: seq<Open>) {
    forall i :: 0 <= i < |levels| ==> ValidForest(levels[i].done)
  }

  predicate ValidLevels(levels: seq<Open>) {
    && 1 <= |levels| <= MAX_STRUCT_DEPTH + 1
    && Forests(levels)
    && forall i :: 0 <= i < |levels| ==> ValidLevel(levels, i)
  }

  /** What one level has written: its head, the child count still zero. */
  function LevelMeta(order: ByteOrder, level: Open, root: bool): Bytes
    requires ValidForest(level.done)
  {
    (if root then level.name + [0] else StructHead(order, level.name, level.tag, 0)) + ForestMeta(order, level.done)
  }

  function LevelsMeta(order: ByteOrder, levels: seq<Open>): Bytes
    requires Forests(levels)
    decreases |levels|
  {
    if levels == [] then []
    else LevelsMeta(order, levels[..|levels| - 1]) + LevelMeta(order, levels[|levels| - 1], |levels| == 1)
  }

  function LevelsPayload(order: ByteOrder, levels: seq<Open>): Bytes
    requires Forests(levels)
    decreases |levels|
  {
    if levels == [] then []
    else LevelsPayload(order, levels[..|levels| - 1]) + ForestPayload(order, levels[|levels| - 1].done)
  }

  // ----------------------------------------------------------------- lemmas

  lemma Singleton(order: ByteOrder, n: Node)
    requires ValidNode(n)
    ensures ValidForest([n])
    ensures ForestMeta(order, [n]) == Meta(order, n) && ForestPayload(order, [n]) == Payload(order, n)
    ensures ForestHeight([n]) == Height(n)
  {
    hide Meta, Payload, ValidNode, Height;
    assert [n][1..] == [];
    assert ForestMeta(order, [n]) == Meta(order, n) + ForestMeta(order, []);
    assert ForestPayload(order, [n]) == Payload(order, n) + ForestPayload(order, []);
  }

  /** Attaching a node appends its bytes and keeps every level well formed. */
  lemma AttachBytes(order: ByteOrder, levels: seq<Open>, n: Node)
    requires ValidLevels(levels) && ValidNode(n)
    requires |levels| - 1 + Height(n) <= MAX_STRUCT_DEPTH
    requires |levels| > 1 ==> |levels[|levels| - 1].done| < MAX_STRUCT_CHILDREN
    ensures ValidLevels(Attach(levels, n))
    ensures LevelsMeta(order, Attach(levels, n)) == LevelsMeta(order, levels) + Meta(order, n)
    ensures LevelsPayload(order, Attach(levels, n)) == LevelsPayload(order, levels) + Payload(order, n)
  {
    hide Meta, Payload, ValidNode, Height, ForestMeta, ForestPayload, ForestHeight, ValidName, StructHead, ValidForest;
    var last := |levels| - 1;
    var level, after := levels[last], Attach(levels, n);
    assert ValidLevel(levels, last);
    Singleton(order, n);
    ForestAppend(order, level.done, [n]);
    ForestMeasuresAppend(level.done, [n]);
    assert after[..last] == levels[..last];
    forall i | 0 <= i < |after| ensures ValidLevel(after, i) {
      assert ValidLevel(levels, i);
    }
  }

  lemma OpenBytes(order: ByteOrder, levels: seq<Open>, name: Bytes, tag: u16)
    requires ValidLevels(levels) && ValidName(name) && |levels| <= MAX_STRUCT_DEPTH
    requires |levels| > 1 ==> |levels[|levels| - 1].done| < MAX_STRUCT_CHILDREN
    ensures var after := levels + [Open(name, tag, [])];
            && ValidLevels(after)
            && LevelsMeta(order, after) == LevelsMeta(order, levels) + StructHead(order, name, tag, 0)
            && LevelsPayload(order, after) == LevelsPayload(order, levels)
  {
    hide ForestMeta, ForestPayload, ForestHeight, ValidName, StructHead;
    var after := levels + [Open(name, tag, [])];
    assert after[..|levels|] == levels;
    EmptyForest(order);
    forall i | 0 <= i < |after| ensures ValidLevel(after, i) {
      if i < |levels| {
        assert ValidLevel(levels, i);
      }
    }
    assert StructHead(order, name, tag, 0) + [] == StructHead(order, name, tag, 0);
    assert LevelsPayload(order, levels) + [] == LevelsPayload(order, levels);
  }

  lemma EmptyForest(order: ByteOrder)
    ensures ValidForest([]) && ForestMeta(order, []) == [] && ForestPayload(order, []) == [] && ForestHeight([]) == 0
  {
  }

  lemma CloseKeepsValid(levels: seq<Open>)
    requires ValidLevels(levels) && |levels| >= 2 && levels[|levels| - 1].done != []
    ensures var inner := levels[|levels| - 1];
            && ValidNode(Struct(inner.name, inner.tag, inner.done))
            && |levels| - 2 + Height(Struct(inner.name, inner.tag, inner.done)) <= MAX_STRUCT_DEPTH
            && ValidLevels(levels[..|levels| - 1])
            && (|levels| > 2 ==> |levels[|levels| - 2].done| < MAX_STRUCT_CHILDREN)
  {
    hide ForestHeight, ValidName, ValidForest;
    var rest := levels[..|levels| - 1];
    assert ValidLevel(levels, |levels| - 1) && ValidLevel(levels, |levels| - 2);
    forall i | 0 <= i < |rest| ensures ValidLevel(rest, i) {
      assert ValidLevel(levels, i);
    }
  }

  /** Where the child count of the innermost structure stands. */
  function FormatIndex(order: ByteOrder, levels: seq<Open>): nat
    requires levels != []
    requires Forests(levels)
  {
    |LevelsMeta(order, levels[..|levels| - 1])| + |levels[|levels| - 1].name| + 2
  }

  /** The bytes around the child count, before and after the structure ends. */
  lemma CloseBytes(order: ByteOrder, levels: seq<Open>)
    requires ValidLevels(levels) && |levels| >= 2 && levels[|levels| - 1].done != []
    ensures ValidLevels(CloseLevel(levels))
    ensures var inner, rest := levels[|levels| - 1], levels[..|levels| - 1];
            && Forests(rest) && ValidForest(inner.done) && |inner.done| < CHAIN_FLAG
            && FormatIndex(order, levels) == |LevelsMeta(order, rest)| + |inner.name| + 2
            && LevelsMeta(order, levels)
               == LevelsMeta(order, rest) + (StructHead(order, inner.name, inner.tag, 0) + ForestMeta(order, inner.done))
            && LevelsMeta(order, CloseLevel(levels))
               == LevelsMeta(order, rest) + (StructHead(order, inner.name, inner.tag, |inner.done|) + ForestMeta(order, inner.done))
    ensures LevelsPayload(order, levels) == LevelsPayload(order, CloseLevel(levels))
  {
    hide ForestMeta, ForestPayload, ForestHeight, ValidName, ValidLevel, StructHead, Attach;
    var inner, rest := levels[|levels| - 1], levels[..|levels| - 1];
    CloseKeepsValid(levels);
    AttachBytes(order, rest, Struct(inner.name, inner.tag, inner.done));
  }

  /** Writing the child count in place turns the open structure into its node. */
  lemma PatchBytes(order: ByteOrder, levels: seq<Open>)
    requires ValidLevels(levels) && |levels| >= 2 && levels[|levels| - 1].done != []
    ensures ValidLevels(CloseLevel(levels))
    ensures var metadata, index := LevelsMeta(order, levels), FormatIndex(order, levels);
            var count := |levels[|levels| - 1].done|;
            && index < |metadata|
            && metadata[index] == (if levels[|levels| - 1].tag != 0 then CHAIN_FLAG else 0)
            && metadata[index] + count < 0x100 && metadata[index := metadata[index] + count] == LevelsMeta(order, CloseLevel(levels))
    ensures LevelsPayload(order, levels) == LevelsPayload(order, CloseLevel(levels))
  {
    hide LevelsMeta, LevelsPayload, CloseLevel, FormatIndex, ForestMeta, ValidLevels, ValidForest, StructHead;
    var inner, rest := levels[|levels| - 1], levels[..|levels| - 1];
    CloseBytes(order, levels);
    PatchHead(order, inner.name, inner.tag, |inner.done|);
    UpdateInside(LevelsMeta(order, rest), StructHead(order, inner.name, inner.tag, 0), ForestMeta(order, inner.done),
                 |inner.name| + 2, |inner.done|);
  }

  /** Adding to one byte of the middle part. */
  lemma UpdateInside(before: Bytes, head: Bytes, tail: Bytes, at: nat, count: nat)
    requires at < |head| && head[at] + count < 0x100
    ensures var whole, index := before + (head + tail), |before| + at;
            && whole[index] == head[at]
            && whole[index := whole[index] + count] == before + (head[at := head[at] + count] + tail)
  {
  }

  lemma PatchHead(order: ByteOrder, name: Bytes, tag: u16, count: nat)
    requires count < CHAIN_FLAG
    ensures var head, at := StructHead(order, name, tag, 0), |name| + 2;
            && at < |head|
            && head[at] == (if tag != 0 then CHAIN_FLAG else 0)
            && head[at] + count < 0x100 && head[at := head[at] + count] == StructHead(order, name, tag, count)
  {
  }

  // ------------------------------------------------------------ struct stack

  /** An open structure: where its format byte is, and its children so far. */
  datatype StructFrame = StructFrame(formatIndex: nat, children: nat)

  function FrameAt(order: ByteOrder, levels: seq<Open>, i: nat): StructFrame
    requires Forests(levels) && i < |levels|
  {
    StructFrame(FormatIndex(order, levels[..i + 1]), Started(levels, i))
  }

  ghost predicate FramesFit(order: ByteOrder, levels: seq<Open>, frames: seq<StructFrame>)
    requires Forests(levels)
  {
    && |frames| + 1 == |levels|
    && forall i :: 0 <= i < |frames| ==> frames[i] == FrameAt(order, levels, i + 1)
  }

  /** `noteChild` */
  function NoteChild(frames: seq<StructFrame>): seq<StructFrame> {
    if frames == [] then []
    else
      var last := |frames| - 1;
      frames[..last] + [StructFrame(frames[last].formatIndex, frames[last].children + 1)]
  }

  lemma SameIndex(order: ByteOrder, a: seq<Open>, b: seq<Open>)
    requires Forests(a) && Forests(b) && 0 < |a| == |b|
    requires a[..|a| - 1] == b[..|b| - 1] && a[|a| - 1].name == b[|b| - 1].name
    ensures FormatIndex(order, a) == FormatIndex(order, b)
  {
  }

  lemma FramesAttach(order: ByteOrder, levels: seq<Open>, n: Node, frames: seq<StructFrame>)
    requires levels != [] && Forests(levels) && Forests(Attach(levels, n)) && FramesFit(order, levels, frames)
    ensures FramesFit(order, Attach(levels, n), NoteChild(frames))
  {
    hide FormatIndex, ValidForest;
    var after, noted, last := Attach(levels, n), NoteChild(frames), |levels| - 1;
    forall i | 0 <= i < |noted| ensures noted[i] == FrameAt(order, after, i + 1) {
      assert frames[i] == FrameAt(order, levels, i + 1);
      assert levels[..i + 2][..i + 1] == levels[..i + 1] == after[..i + 1] == after[..i + 2][..i + 1];
      SameIndex(order, levels[..i + 2], after[..i + 2]);
    }
  }

  lemma FramesOpen(order: ByteOrder, levels: seq<Open>, level: Open, frames: seq<StructFrame>)
    requires levels != [] && Forests(levels) && level.done == [] && FramesFit(order, levels, frames)
    ensures Forests(levels + [level])
    ensures FramesFit(order, levels + [level],
                      NoteChild(frames) + [StructFrame(|LevelsMeta(order, levels)| + |level.name| + 2, 0)])
  {
    hide LevelsMeta;
    var after := levels + [level];
    var noted := NoteChild(frames);
    var all := noted + [StructFrame(|LevelsMeta(order, levels)| + |level.name| + 2, 0)];
    forall i | 0 <= i < |all| ensures all[i] == FrameAt(order, after, i + 1) {
      if i < |noted| {
        assert frames[i] == FrameAt(order, levels, i + 1);
        assert after[..i + 2] == levels[..i + 2];
      } else {
        assert after[..i + 2] == after && after[..|after| - 1] == levels;
      }
    }
  }

  lemma FramesClose(order: ByteOrder, levels: seq<Open>, frames: seq<StructFrame>)
    requires |levels| >= 2 && Forests(levels) && Forests(CloseLevel(levels)) && FramesFit(order, levels, frames)
    ensures FramesFit(order, CloseLevel(levels), frames[..|frames| - 1])
  {
    hide FormatIndex, ValidForest;
    var after := CloseLevel(levels);
    var kept := frames[..|frames| - 1];
    forall i | 0 <= i < |kept| ensures kept[i] == FrameAt(order, after, i + 1) {
      assert frames[i] == FrameAt(order, levels, i + 1);
      assert levels[..i + 2][..i + 1] == levels[..i + 1] == after[..i + 1] == after[..i + 2][..i + 1];
      SameIndex(order, levels[..i + 2], after[..i + 2]);
    }
  }

  // ----------------------------------------------------------------- builder

  /** Why a child cannot be started here, if it cannot. */
  function ChildError(active: bool, levels: seq<Open>, name: Bytes): Option<BuildError> {
    if !active then Some(ErrState)
    else if |levels| > 1 && |levels[|levels| - 1].done| == MAX_STRUCT_CHILDREN then Some(ErrTooManyFields)
    else if !ValidName(name) then Some(ErrInvalidName)
    else None
  }

  /** Why one string cannot be written, if it cannot. */
  function StringError(value: Bytes): Option<BuildError> {
    if !Utf8Valid(value) then Some(ErrInvalidValue)
    else if |value| > MAX_COUNT then Some(ErrCountTooLarge)
    else None
  }

  /** The error of the first string that cannot be written. */
  function FirstStringError(values: seq<Bytes>): Option<BuildError> {
    if values == [] then None
    else if StringError(values[0]).Some? then StringError(values[0])
    else FirstStringError(values[1..])
  }

  lemma {:induction false} FirstStringErrorIs(values: seq<Bytes>, k: nat)
    requires k < |values| && forall i :: 0 <= i < k ==> StringError(values[i]).None?
    ensures StringError(values[k]).Some? ==> FirstStringError(values) == StringError(values[k])
    ensures k == |values| - 1 && StringError(values[k]).None? ==> FirstStringError(values) == None
  {
    hide StringError;
    if k > 0 {
      FirstStringErrorIs(values[1..], k - 1);
    }
  }

  class Builder {
    const order: ByteOrder
    const pointer64: bool
    var metadata: Bytes
    var payload: Bytes
    var version: byte
    var id: u16
    var tag: u16
    var opcode: byte
    var activity: Option<Guid>
    var related: Option<Guid>
    var active: bool
    var structs: seq<StructFrame>
    /** The event and the open structures, outermost first. */
    ghost var levels: seq<Open>

    ghost predicate Valid()
      reads this
    {
      && (related.Some? ==> activity.Some?)
      && (active ==>
        && ValidLevels(levels)
        && metadata == LevelsMeta(order, levels)
        && payload == LevelsPayload(order, levels)
        && FramesFit(order, levels, structs))
    }

    /** The zero value: not yet usable. */
    constructor (order: ByteOrder, pointer64: bool)
      ensures Valid() && !active && this.order == order && this.pointer64 == pointer64
    {
      this.order, this.pointer64 := order, pointer64;
      metadata, payload, version, id, tag, opcode := [], [], 0, 0, 0, 0;
      activity, related, active, structs, levels := None, None, false, [], [];
    }

    /** Only the tree, its bytes and the frames may differ. */
    twostate predicate SameHeader()
      reads this
    {
      && version == old(version) && id == old(id) && tag == old(tag) && opcode == old(opcode)
      && activity == old(activity) && related == old(related) && active == old(active)
    }

    method Reset(name: Bytes) returns (err: Option<BuildError>)
      modifies this
      ensures err == if ValidName(name) then None else Some(ErrInvalidName)
      ensures err.Some? ==> unchanged(this)
      ensures err.None? ==>
        && Valid() && active && levels == [Open(name, 0, [])]
        && version == 0 && id == 0 && tag == 0 && opcode == 0 && activity == None && related == None
    {
      hide ValidLevels, LevelsMeta, LevelsPayload, ValidName;
      if !ValidName(name) {
        return Some(ErrInvalidName);
      }
      metadata := name + [0];
      payload := [];
      version, id, tag, opcode := 0, 0, 0, 0;
      activity, related := None, None;
      active := true;
      structs := [];
      levels := [Open(name, 0, [])];
      FreshLevels(order, name);
      return None;
    }

    method SetIDVersion(id: u16, version: byte) returns (err: Option<BuildError>)
      requires Valid()
      modifies this`id, this`version
      ensures Valid()
      ensures err == if old(active) then None else Some(ErrState)
      ensures if err.None? then this.id == id && this.version == version else unchanged(this)
    {
      if !active {
        return Some(ErrState);
      }
      this.id, this.version := id, version;
      return None;
    }

    method SetTag(tag: u16) returns (err: Option<BuildError>)
      requires Valid()
      modifies this`tag
      ensures Valid()
      ensures err == if old(active) then None else Some(ErrState)
      ensures this.tag == if err.None? then tag else old(this.tag)
    {
      if !active {
        return Some(ErrState);
      }
      this.tag := tag;
      return None;
    }

    method SetOpcode(opcode: byte) returns (err: Option<BuildError>)
      requires Valid()
      modifies this`opcode
      ensures Valid()
      ensures err == if old(active) then None else Some(ErrState)
      ensures this.opcode == if err.None? then opcode else old(this.opcode)
    {
      if !active {
        return Some(ErrState);
      }
      this.opcode := opcode;
      return None;
    }

    method SetActivity(activity: Option<Guid>, related: Option<Guid>) returns (err: Option<BuildError>)
      requires Valid()
      modifies this`activity, this`related
      ensures Valid()
      ensures err == if !old(active) then Some(ErrState)
                     else if related.Some? && activity.None? then Some(ErrInvalidValue) else None
      ensures if err.None? then this.activity == activity && this.related == related else unchanged(this)
    {
      if !active {
        return Some(ErrState);
      }
      if related.Some? && activity.None? {
        return Some(ErrInvalidValue);
      }
      this.activity, this.related := activity, related;
      return None;
    }

    method BeginStruct(name: Bytes, fieldTag: u16) returns (err: Option<BuildError>)
      requires Valid()
      modifies this
      ensures Valid() && SameHeader()
      ensures err == if old(active) && old(|structs|) >= MAX_STRUCT_DEPTH then Some(ErrNestingTooDeep)
                     else ChildError(old(active), old(levels), name)
      ensures err.Some? ==> unchanged(this)
      ensures err.None? ==> levels == old(levels) + [Open(name, fieldTag, [])]
    {
      hide LevelsMeta, LevelsPayload, Utf8Valid, ValidLevel, FormatBytes;
      if !active {
        return Some(ErrState);
      }
      if |structs| >= MAX_STRUCT_DEPTH {
        return Some(ErrNestingTooDeep);
      }
      LastFrame();
      if structs != [] && structs[|structs| - 1].children == MAX_STRUCT_CHILDREN {
        return Some(ErrTooManyFields);
      }
      if !ValidName(name) {
        return Some(ErrInvalidName);
      }
      assert ValidLevel(levels, |levels| - 1);
      LastLevel(levels);
      OpenBytes(order, levels, name, fieldTag);
      FramesOpen(order, levels, Open(name, fieldTag, []), structs);
      var formatIndex := |metadata| + |name| + 2;
      metadata := metadata + StructHead(order, name, fieldTag, 0);
      structs := NoteChild(structs);
      structs := structs + [StructFrame(formatIndex, 0)];
      levels := levels + [Open(name, fieldTag, [])];
      return None;
    }

    method EndStruct() returns (err: Option<BuildError>)
      requires Valid()
      modifies this
      ensures Valid() && SameHeader()
      ensures err == if !old(active) || old(|levels|) == 1 || old(levels[|levels| - 1].done) == [] then Some(ErrState) else None
      ensures err.Some? ==> unchanged(this)
      ensures err.None? ==> levels == CloseLevel(old(levels))
    {
      hide LevelsMeta, LevelsPayload, Utf8Valid, ValidLevel;
      if !active {
        return Some(ErrState);
      }
      if |structs| == 0 {
        return Some(ErrState);
      }
      LastFrame();
      var index := |structs| - 1;
      var frame := structs[index];
      if frame.children == 0 {
        return Some(ErrState);
      }
      LastLevel(levels);
      PatchBytes(order, levels);
      FramesClose(order, levels, structs);
      var format := metadata[frame.formatIndex];
      metadata := metadata[frame.formatIndex := (if format >= CHAIN_FLAG then CHAIN_FLAG else 0) + frame.children];
      structs := structs[..index];
      levels := CloseLevel(levels);
      return None;
    }

    /** `addField`; `elems` are the values that `data` holds on the wire. */
    method AddField(name: Bytes, encoding: byte, kind: ArrayKind, count: u16, data: Bytes, option: FieldOptions,
                    ghost elems: seq<Bytes>) returns (err: Option<BuildError>)
      requires Valid()
      requires Writable(encoding) && option.format < CHAIN_FLAG
      requires ValidElems(encoding, elems) && data == WireElems(order, encoding, elems)
      requires if kind.Scalar? then |elems| == 1 else |elems| == count
      modifies this
      ensures Valid() && SameHeader()
      ensures err == (var e := ChildError(old(active), old(levels), name);
                      if e.None? && kind.Fixed? && count == 0 then Some(ErrInvalidValue) else e)
      ensures err.Some? ==> unchanged(this)
      ensures err.None? ==>
        old(levels) != [] && levels == Attach(old(levels), Leaf(name, encoding, option.format, option.tag, kind, elems))
    {
      hide LevelsMeta, LevelsPayload, Utf8Valid, ValidLevel, WireElems, FormatBytes, Put16, ValidLevels, FramesFit, Meta, Payload, Attach, NoteChild;
      if !active {
        return Some(ErrState);
      }
      LastFrame();
      if structs != [] && structs[|structs| - 1].children == MAX_STRUCT_CHILDREN {
        return Some(ErrTooManyFields);
      }
      if !ValidName(name) {
        return Some(ErrInvalidName);
      }
      if kind.Fixed? && count == 0 {
        return Some(ErrInvalidValue);
      }
      ghost var leaf := Leaf(name, encoding, option.format, option.tag, kind, elems);
      AttachLeaf(order, levels, leaf, structs);
      WriteField(name, encoding, kind, count, data, option, leaf);
      structs := NoteChild(structs);
      levels := Attach(levels, leaf);
      return None;
    }

    /** The appends of `addField`. */
    method WriteField(name: Bytes, encoding: byte, kind: ArrayKind, count: u16, data: Bytes, option: FieldOptions, ghost leaf: Node)
      requires leaf.Leaf? && ValidLeaf(leaf)
      requires leaf == Leaf(name, encoding, option.format, option.tag, kind, leaf.elems)
      requires data == WireElems(order, encoding, leaf.elems) && (!kind.Scalar? ==> |leaf.elems| == count)
      modifies this`metadata, this`payload
      ensures metadata == old(metadata) + Meta(order, leaf)
      ensures payload == old(payload) + Payload(order, leaf)
    {
      hide ValidName, WireElems, FormatBytes, Put16;
      var encoded: byte := encoding;
      match kind {
        case Scalar =>
        case Fixed =>
          encoded := encoded + ENCODING_CARRAY_FLAG;
        case Variable =>
          encoded := encoded + ENCODING_VARRAY_FLAG;
      }
      metadata := metadata + name;
      metadata := metadata + [0];
      if option.format != 0 || option.tag != 0 {
        metadata := metadata + [encoded + CHAIN_FLAG];
        metadata := metadata + FormatBytes(order, option.format, option.tag);
      } else {
        metadata := metadata + [encoded];
      }
      if kind.Fixed? {
        metadata := metadata + Put16(order, count);
      }
      if kind.Variable? {
        payload := payload + Put16(order, count);
      }
      payload := payload + data;
      assert metadata == old(metadata) + LeafMeta(order, leaf);
      assert payload == old(payload) + Payload(order, leaf);
    }

    /** `addScalar` */
    method AddScalar(name: Bytes, encoding: byte, data: Bytes, defaultFormat: byte, options: seq<FieldOptions>, ghost raw: Bytes)
      returns (err: Option<BuildError>)
      requires Valid()
      requires Writable(encoding) && ValidElem(encoding, raw) && data == WireElem(order, encoding, raw)
      modifies this
      ensures err == old(ScalarError(name, defaultFormat, options))
      ensures Added(name, encoding, defaultFormat, options, Scalar, [raw], err)
    {
      hide WireElem, ChildError;
      ResolvesAsGiven(defaultFormat, options);
      var option := ResolveOptions(defaultFormat, options);
      if option.Err? {
        return Some(option.error);
      }
      OneElem(order, encoding, raw);
      err := AddField(name, encoding, Scalar, 0, data, option.value, [raw]);
    }

    /** `addArray` */
    method AddArray(name: Bytes, encoding: byte, count: nat, data: Bytes, kind: ArrayKind, defaultFormat: byte,
                    options: seq<FieldOptions>, ghost elems: seq<Bytes>) returns (err: Option<BuildError>)
      requires Valid()
      requires Writable(encoding) && |elems| == count
      requires ValidElems(encoding, elems) && data == WireElems(order, encoding, elems)
      modifies this
      ensures err == old(ArrayError(name, count, kind, defaultFormat, options))
      ensures Added(name, encoding, defaultFormat, options, kind, elems, err)
    {
      hide WireElems, ChildError;
      if kind.Scalar? {
        return Some(ErrInvalidValue);
      }
      if count > MAX_COUNT {
        return Some(ErrCountTooLarge);
      }
      if kind.Fixed? && count == 0 {
        return Some(ErrInvalidValue);
      }
      ResolvesAsGiven(defaultFormat, options);
      var option := ResolveOptions(defaultFormat, options);
      if option.Err? {
        return Some(option.error);
      }
      err := AddField(name, encoding, kind, count, data, option.value, elems);
    }

    /** A call that added the field, or left the builder as it was. */
    twostate predicate Added(name: Bytes, encoding: byte, defaultFormat: byte, options: seq<FieldOptions>,
                             kind: ArrayKind, elems: seq<Bytes>, err: Option<BuildError>)
      reads this
    {
      && Valid() && SameHeader()
      && (err.Some? ==> unchanged(this))
      && (err.None? ==>
        && old(levels) != [] && !OptionsRefused(defaultFormat, options)
        && levels == Attach(old(levels),
                            Leaf(name, encoding, GivenFormat(defaultFormat, options), GivenTag(options), kind, elems)))
    }

    ghost function ScalarError(name: Bytes, defaultFormat: byte, options: seq<FieldOptions>): Option<BuildError>
      reads this
    {
      if OptionsRefused(defaultFormat, options) then Some(ErrInvalidValue) else ChildError(active, levels, name)
    }

    method Uint8(name: Bytes, value: byte, options: seq<FieldOptions>) returns (err: Option<BuildError>)
      requires Valid()
      modifies this
      ensures err == old(ScalarError(name, FORMAT_DEFAULT, options))
      ensures Added(name, ENCODING_VALUE8, FORMAT_DEFAULT, options, Scalar, [[value]], err)
    {
      hide ChildError, Attach, Valid;
      err := AddScalar(name, ENCODING_VALUE8, [value], FORMAT_DEFAULT, options, [value]);
    }

    method Uint16(name: Bytes, value: u16, options: seq<FieldOptions>) returns (err: Option<BuildError>)
      requires Valid()
      modifies this
      ensures err == old(ScalarError(name, FORMAT_DEFAULT, options))
      ensures Added(name, ENCODING_VALUE16, FORMAT_DEFAULT, options, Scalar, [Put(order, 2, value)], err)
    {
      hide ChildError, Attach, Valid;
      var data := Put(order, 2, value);
      err := AddScalar(name, ENCODING_VALUE16, data, FORMAT_DEFAULT, options, data);
    }

    method Int32(name: Bytes, value: int, options: seq<FieldOptions>) returns (err: Option<BuildError>)
      requires Valid() && -0x8000_0000 <= value < 0x8000_0000
      modifies this
      ensures err == old(ScalarError(name, FORMAT_SIGNED, options))
      ensures Added(name, ENCODING_VALUE32, FORMAT_SIGNED, options, Scalar, [Put(order, 4, Wrap(4, value))], err)
    {
      hide ChildError, Attach, Valid;
      var data := Put(order, 4, Wrap(4, value));
      err := AddScalar(name, ENCODING_VALUE32, data, FORMAT_SIGNED, options, data);
    }

    method Uint64(name: Bytes, value: u64, options: seq<FieldOptions>) returns (err: Option<BuildError>)
      requires Valid()
      modifies this
      ensures err == old(ScalarError(name, FORMAT_DEFAULT, options))
      ensures Added(name, ENCODING_VALUE64, FORMAT_DEFAULT, options, Scalar, [Put(order, 8, value)], err)
    {
      hide ChildError, Attach, Valid;
      var data := Put(order, 8, value);
      err := AddScalar(name, ENCODING_VALUE64, data, FORMAT_DEFAULT, options, data);
    }

    method Bool(name: Bytes, value: bool, options: seq<FieldOptions>) returns (err: Option<BuildError>)
      requires Valid()
      modifies this
      ensures err == old(ScalarError(name, FORMAT_BOOLEAN, options))
      ensures Added(name, ENCODING_VALUE8, FORMAT_BOOLEAN, options, Scalar, [[if value then 1 else 0]], err)
    {
      hide ChildError, Attach, Valid;
      var data: Bytes := [0];
      if value {
        data := [1];
      }
      err := AddScalar(name, ENCODING_VALUE8, data, FORMAT_BOOLEAN, options, data);
    }

    method UUID(name: Bytes, value: Guid, options: seq<FieldOptions>) returns (err: Option<BuildError>)
      requires Valid()
      modifies this
      ensures err == old(ScalarError(name, FORMAT_UUID, options))
      ensures Added(name, ENCODING_VALUE128, FORMAT_UUID, options, Scalar, [value], err)
    {
      hide ChildError, Attach, Valid;
      err := AddScalar(name, ENCODING_VALUE128, value, FORMAT_UUID, options, value);
    }

    method Port(name: Bytes, value: u16, options: seq<FieldOptions>) returns (err: Option<BuildError>)
      requires Valid()
      modifies this
      ensures err == old(ScalarError(name, FORMAT_PORT, options))
      ensures Added(name, ENCODING_VALUE16, FORMAT_PORT, options, Scalar, [Put(Big, 2, value)], err)
    {
      hide ChildError, Attach, Valid;
      var data := Put(Big, 2, value);
      err := AddScalar(name, ENCODING_VALUE16, data, FORMAT_PORT, options, data);
    }

    method String(name: Bytes, value: Bytes, options: seq<FieldOptions>) returns (err: Option<BuildError>)
      requires Valid()
      modifies this
      ensures err == if StringError(value).Some? then StringError(value) else old(ScalarError(name, FORMAT_DEFAULT, options))
      ensures Added(name, ENCODING_STRING8, FORMAT_DEFAULT, options, Scalar, [value], err)
    {
      hide ChildError, Attach, Valid, Utf8Valid;
      if !Utf8Valid(value) {
        return Some(ErrInvalidValue);
      }
      if |value| > MAX_COUNT {
        return Some(ErrCountTooLarge);
      }
      err := AddScalar(name, ENCODING_STRING8, Put16(order, |value|) + value, FORMAT_DEFAULT, options, value);
    }

    method UTF16(name: Bytes, value: seq<u16>, options: seq<FieldOptions>) returns (err: Option<BuildError>)
      requires Valid()
      modifies this
      ensures err == if |value| > MAX_COUNT then Some(ErrCountTooLarge) else old(ScalarError(name, FORMAT_DEFAULT, options))
      ensures Added(name, ENCODING_STRING16, FORMAT_DEFAULT, options, Scalar, [UnitBytes(order, value)], err)
    {
      hide ChildError, Attach, Valid;
      if |value| > MAX_COUNT {
        return Some(ErrCountTooLarge);
      }
      var data := Put16(order, |value|);
      var i := 0;
      while i < |value|
        invariant 0 <= i <= |value|
        invariant data == Put16(order, |value|) + UnitBytes(order, value[..i])
      {
        data := data + Put16(order, value[i]);
        i := i + 1;
        assert value[..i][..i - 1] == value[..i - 1];
      }
      assert value[..i] == value;
      err := AddScalar(name, ENCODING_STRING16, data, FORMAT_DEFAULT, options, UnitBytes(order, value));
    }

    method Uint16Array(name: Bytes, values: seq<u16>, kind: ArrayKind, options: seq<FieldOptions>) returns (err: Option<BuildError>)
      requires Valid()
      modifies this
      ensures err == old(ArrayError(name, |values|, kind, FORMAT_DEFAULT, options))
      ensures Added(name, ENCODING_VALUE16, FORMAT_DEFAULT, options, kind, seq(|values|, i requires 0 <= i < |values| => Put16(order, values[i])), err)
    {
      hide ChildError, Attach, Valid, Put16;
      var data: Bytes := [];
      ghost var elems: seq<Bytes> := [];
      var i := 0;
      while i < |values|
        invariant unchanged(this)
        invariant 0 <= i <= |values| && |elems| == i
        invariant forall k :: 0 <= k < i ==> elems[k] == Put16(order, values[k])
        invariant ValidElems(ENCODING_VALUE16, elems) && data == WireElems(order, ENCODING_VALUE16, elems)
      {
        var encoded := Put16(order, values[i]);
        OneElem(order, ENCODING_VALUE16, encoded);
        WireElemsConcat(order, ENCODING_VALUE16, elems, [encoded]);
        data := data + encoded;
        elems := elems + [encoded];
        i := i + 1;
      }
      assert elems == seq(|values|, i requires 0 <= i < |values| => Put16(order, values[i]));
      err := AddArray(name, ENCODING_VALUE16, |values|, data, kind, FORMAT_DEFAULT, options, elems);
    }

    method StringArray(name: Bytes, values: seq<Bytes>, kind: ArrayKind, options: seq<FieldOptions>) returns (err: Option<BuildError>)
      requires Valid()
      modifies this
      ensures err == if FirstStringError(values).Some? then FirstStringError(values)
                     else old(ArrayError(name, |values|, kind, FORMAT_DEFAULT, options))
      ensures Added(name, ENCODING_STRING8, FORMAT_DEFAULT, options, kind, values, err)
    {
      hide ChildError, Attach, Valid, Put16, Utf8Valid;
      var data: Bytes := [];
      var i := 0;
      while i < |values|
        invariant unchanged(this)
        invariant 0 <= i <= |values|
        invariant FirstStringError(values) == FirstStringError(values[i..])
        invariant ValidElems(ENCODING_STRING8, values[..i]) && data == WireElems(order, ENCODING_STRING8, values[..i])
      {
        assert values[i..][0] == values[i] && values[i..][1..] == values[i + 1..];
        if !Utf8Valid(values[i]) {
          return Some(ErrInvalidValue);
        }
        if |values[i]| > MAX_COUNT {
          return Some(ErrCountTooLarge);
        }
        OneElem(order, ENCODING_STRING8, values[i]);
        WireElemsConcat(order, ENCODING_STRING8, values[..i], [values[i]]);
        assert values[..i + 1] == values[..i] + [values[i]];
        data := data + (Put16(order, |values[i]|) + values[i]);
        i := i + 1;
      }
      assert values[..i] == values;
      err := AddArray(name, ENCODING_STRING8, |values|, data, kind, FORMAT_DEFAULT, options, values);
    }

    ghost function ArrayError(name: Bytes, count: nat, kind: ArrayKind, defaultFormat: byte, options: seq<FieldOptions>): Option<BuildError>
      reads this
    {
      if kind.Scalar? then Some(ErrInvalidValue)
      else if count > MAX_COUNT then Some(ErrCountTooLarge)
      else if kind.Fixed? && count == 0 then Some(ErrInvalidValue)
      else ScalarError(name, defaultFormat, options)
    }

    function HeaderAt(level: byte): Header
      reads this
    {
      Header(order, pointer64, version, id, tag, opcode, level, activity, related)
    }

    /** Why the event cannot be encoded now, if it cannot. */
    ghost function EncodeError(level: byte): Option<BuildError>
      requires Valid()
      reads this
    {
      if !active then Some(ErrState)
      else if !(1 <= level <= 5) then Some(ErrInvalidLevel)
      else if |levels| > 1 then Some(ErrState)
      else if |Metadata(order, levels[0].name, levels[0].done)| > MAX_COUNT then Some(ErrMetadataTooLarge)
      else if |Metadata(order, levels[0].name, levels[0].done)| + |ForestPayload(order, levels[0].done)| > MAX_METADATA_PAYLOAD
      then Some(ErrEventTooLarge)
      else None
    }

    /** Prefix, metadata and payload of the event, as `encodeSegments` returns them. */
    method EncodeSegments(level: byte) returns (r: Result<(Bytes, Bytes, Bytes), BuildError>)
      requires Valid()
      ensures match EncodeError(level)
              case Some(e) => r == Err(e)
              case None =>
                && active && ValidHeader(HeaderAt(level))
                && Encodable(order, levels[0].name, levels[0].done)
                && r.Ok?
                && r.value.1 == Metadata(order, levels[0].name, levels[0].done)
                && r.value.2 == ForestPayload(order, levels[0].done)
                && r.value.0 + r.value.1 + r.value.2 == EncodeEvent(HeaderAt(level), levels[0].name, levels[0].done)
    {
      hide Utf8Valid, ForestMeta, ForestPayload, Put16, ForestHeight, ValidForest;
      if !active {
        return Err(ErrState);
      }
      if level < 1 || level > 5 {
        return Err(ErrInvalidLevel);
      }
      if |structs| != 0 {
        return Err(ErrState);
      }
      RootBytes(order, levels);
      if |metadata| > MAX_COUNT {
        return Err(ErrMetadataTooLarge);
      }
      if |metadata| + |payload| > MAX_METADATA_PAYLOAD {
        return Err(ErrEventTooLarge);
      }
      var prefix: Bytes := [HeaderFlags(HeaderAt(level)), version];
      prefix := prefix + Put16(order, id);
      prefix := prefix + Put16(order, tag);
      prefix := prefix + [opcode, level];
      assert prefix == FixedHeader(HeaderAt(level));
      if activity.Some? {
        var size: u16 := 16;
        if related.Some? {
          size := 32;
        }
        ghost var before := prefix;
        prefix := prefix + Put16(order, size);
        prefix := prefix + Put16(order, EXTENSION_ACTIVITY + EXTENSION_CHAIN_FLAG);
        prefix := prefix + activity.value;
        if related.Some? {
          prefix := prefix + related.value;
        }
        assert prefix == before + ActivityBytes(HeaderAt(level));
      }
      assert prefix == FixedHeader(HeaderAt(level)) + ActivityBytes(HeaderAt(level));
      ghost var before := prefix;
      prefix := prefix + Put16(order, |metadata|);
      prefix := prefix + Put16(order, EXTENSION_METADATA);
      assert prefix == before + MetadataHead(HeaderAt(level), |metadata|);
      return Ok((prefix, metadata, payload));
    }

    /** `Encode`: the reference encoding of the tree the calls built. */
    method Encode(level: byte) returns (r: Result<Bytes, BuildError>)
      requires Valid()
      ensures match EncodeError(level)
              case Some(e) => r == Err(e)
              case None =>
                && active && ValidHeader(HeaderAt(level))
                && Encodable(order, levels[0].name, levels[0].done)
                && r == Ok(EncodeEvent(HeaderAt(level), levels[0].name, levels[0].done))
    {
      hide EncodeEvent, Encodable, Metadata, ForestPayload;
      var segments := EncodeSegments(level);
      if segments.Err? {
        return Err(segments.error);
      }
      var result := segments.value.0;
      result := result + segments.value.1;
      result := result + segments.value.2;
      return Ok(result);
    }

    /** The innermost frame counts exactly the finished children of its level. */
    lemma LastFrame()
      requires Valid() && active
      ensures |levels| == |structs| + 1
      ensures structs != [] ==>
        structs[|structs| - 1] == StructFrame(FormatIndex(order, levels), |levels[|levels| - 1].done|)
    {
      if structs != [] {
        assert levels[..|levels|] == levels;
        assert structs[|structs| - 1] == FrameAt(order, levels, |structs|);
      }
    }
  }

  lemma AttachLeaf(order: ByteOrder, levels: seq<Open>, leaf: Node, frames: seq<StructFrame>)
    requires ValidLevels(levels) && leaf.Leaf? && ValidLeaf(leaf) && FramesFit(order, levels, frames)
    requires |levels| > 1 ==> |levels[|levels| - 1].done| != MAX_STRUCT_CHILDREN
    ensures ValidNode(leaf) && ValidLevels(Attach(levels, leaf))
    ensures LevelsMeta(order, Attach(levels, leaf)) == LevelsMeta(order, levels) + Meta(order, leaf)
    ensures LevelsPayload(order, Attach(levels, leaf)) == LevelsPayload(order, levels) + Payload(order, leaf)
    ensures FramesFit(order, Attach(levels, leaf), NoteChild(frames))
  {
    hide LevelsMeta, LevelsPayload, ValidLevel, Meta, Payload, FramesFit, ValidLeaf;
    LastLevel(levels);
    AttachBytes(order, levels, leaf);
    FramesAttach(order, levels, leaf, frames);
  }

  /** UTF-16 code units in the event's byte order. */
  function UnitBytes(order: ByteOrder, units: seq<u16>): (r: Bytes)
    ensures |r| == 2 * |units|
  {
    if units == [] then [] else UnitBytes(order, units[..|units| - 1]) + Put16(order, units[|units| - 1])
  }

  lemma OneElem(order: ByteOrder, encoding: byte, raw: Bytes)
    requires ValidElem(encoding, raw)
    ensures ValidElems(encoding, [raw]) && WireElems(order, encoding, [raw]) == WireElem(order, encoding, raw)
  {
    hide WireElem;
    assert [raw][1..] == [];
    assert WireElems(order, encoding, []) == [];
  }

  /** With no open structure, what was written is the event's own metadata and payload. */
  lemma RootBytes(order: ByteOrder, levels: seq<Open>)
    requires ValidLevels(levels) && |levels| == 1
    ensures ValidName(levels[0].name) && ValidForest(levels[0].done) && ForestHeight(levels[0].done) <= MAX_STRUCT_DEPTH
    ensures LevelsMeta(order, levels) == Metadata(order, levels[0].name, levels[0].done)
    ensures LevelsPayload(order, levels) == ForestPayload(order, levels[0].done)
  {
    hide ForestMeta, ForestPayload, ForestHeight, ValidForest;
    assert ValidLevel(levels, 0);
    assert levels[..0] == [];
    assert LevelsMeta(order, []) == [] && LevelsPayload(order, []) == [];
  }

  lemma FreshLevels(order: ByteOrder, name: Bytes)
    requires ValidName(name)
    ensures var levels := [Open(name, 0, [])];
            && ValidLevels(levels)
            && LevelsMeta(order, levels) == name + [0]
            && LevelsPayload(order, levels) == []
  {
    var levels := [Open(name, 0, [])];
    EmptyForest(order);
    assert levels[..0] == [];
    assert ValidLevel(levels, 0);
    assert LevelMeta(order, levels[0], true) == name + [0];
  }

  lemma LastLevel(levels: seq<Open>)
    requires ValidLevels(levels)
    ensures |levels| > 1 ==> |levels[|levels| - 1].done| <= MAX_STRUCT_CHILDREN
  {
    assert ValidLevel(levels, |levels| - 1);
  }
}
