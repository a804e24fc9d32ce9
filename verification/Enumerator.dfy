/** The bounded forward-only iterator: an explicit stack of tasks, proved to give
    exactly the items of the recursive walk. */
module Enumeration {
  import opened Wire
  import opened Format
  import opened Names
  import opened Parser
  import opened EventParser
  import opened WireValue
  import opened Walk

  // ------------------------------------------------------- shape of the stack

  /** Nested structures on the deepest path of a definition. */
  function DefHeight(d: Def): nat
    decreases d, 0
  {
    if d.encoding == ENCODING_STRUCT then 1 + DefsHeight(d.children) else 0
  }

  function DefsHeight(ds: seq<Def>): nat
    decreases ds, 1
  {
    if ds == [] then 0
    else var a := DefHeight(ds[0]); var b := DefsHeight(ds[1..]); if a < b then b else a
  }

  lemma {:induction false} HeightOfMember(ds: seq<Def>, i: nat)
    requires i < |ds|
    ensures DefHeight(ds[i]) <= DefsHeight(ds)
  {
    if i > 0 {
      HeightOfMember(ds[1..], i - 1);
    }
  }

  /** Inside the fields of the structure at nesting `level`. */
  predicate InFields(stack: seq<Task>, level: nat, limit: nat)
    decreases |stack|, 0
  {
    var n := |stack|;
    && n > 0
    && stack[n - 1].Fields?
    && stack[n - 1].next <= |stack[n - 1].fields|
    && level + DefsHeight(stack[n - 1].fields) <= limit
    && (if level == 0 then n == 1 else n > 1 && InStruct(stack[..n - 1], level - 1, limit))
  }

  /** About to close a structure whose own field is at nesting `level`. */
  predicate InStruct(stack: seq<Task>, level: nat, limit: nat)
    decreases |stack|, 0
  {
    var n := |stack|;
    n > 0 && stack[n - 1].EndStruct? && AtRest(stack[..n - 1], level, limit)
  }

  /** Inside an array that is a field at nesting `level`. */
  predicate InArray(stack: seq<Task>, level: nat, limit: nat)
    decreases |stack|, 0
  {
    var n := |stack|;
    && n > 0
    && stack[n - 1].Array?
    && stack[n - 1].next <= stack[n - 1].count
    && level + DefHeight(stack[n - 1].def) <= limit
    && InArrayEnd(stack[..n - 1], level, limit)
  }

  predicate InArrayEnd(stack: seq<Task>, level: nat, limit: nat)
    decreases |stack|, 0
  {
    var n := |stack|;
    n > 0 && stack[n - 1].EndArray? && InFields(stack[..n - 1], level, limit)
  }

  /** Where the stack stands between two calls of Next. */
  predicate AtRest(stack: seq<Task>, level: nat, limit: nat)
    decreases |stack|, 1
  {
    InFields(stack, level, limit) || InArray(stack, level, limit)
  }

  lemma {:induction false} RestSize(stack: seq<Task>, level: nat, limit: nat)
    requires AtRest(stack, level, limit)
    ensures |stack| > 0 && level <= limit && |stack| <= 4 * limit + 3
    ensures InFields(stack, level, limit) ==> |stack| <= 4 * level + 1
    ensures InArray(stack, level, limit) ==> |stack| <= 4 * level + 3
    decreases |stack|
  {
    var below := stack[..|stack| - 1];
    if InFields(stack, level, limit) {
      if level > 0 {
        assert InStruct(below, level - 1, limit);
        RestSize(below[..|below| - 1], level - 1, limit);
      }
    } else {
      assert InArrayEnd(below, level, limit);
      RestSize(below[..|below| - 1], level, limit);
      assert !InArray(below[..|below| - 1], level, limit);
    }
  }

  /** What the loop of Next meets: a resting stack, the same with one field to
      read, a container about to be closed, or nothing. */
  predicate InLoop(stack: seq<Task>, level: nat, limit: nat, popped: bool) {
    var n := |stack|;
    if !popped then AtRest(stack, level, limit)
    else
      || n == 0
      || (stack[n - 1].Field? && AtRest(stack[..n - 1], level, limit) && level + DefHeight(stack[n - 1].def) <= limit
          && (!stack[n - 1].def.kind.Scalar? ==> InFields(stack[..n - 1], level, limit)))
      || InStruct(stack, level, limit)
      || InArrayEnd(stack, level, limit)
  }

  lemma Snoc(stack: seq<Task>, t: Task)
    ensures (stack + [t])[..|stack|] == stack && (stack + [t])[|stack|] == t
  {
  }

  lemma RestAfterField(stack: seq<Task>, fields: seq<Def>, next: nat, level: nat, limit: nat)
    requires InFields(stack + [Fields(fields, next)], level, limit) && next < |fields|
    ensures InLoop(stack + [Fields(fields, next + 1)] + [Field(fields[next], -1)], level, limit, true)
  {
    HeightOfMember(fields, next);
    var base := stack + [Fields(fields, next + 1)];
    Snoc(stack, Fields(fields, next));
    Snoc(stack, Fields(fields, next + 1));
    Snoc(base, Field(fields[next], -1));
    assert InFields(base, level, limit);
  }

  lemma RestAfterElem(stack: seq<Task>, d: Def, count: nat, next: nat, level: nat, limit: nat)
    requires InArray(stack + [Array(d, count, next)], level, limit) && next < count
    ensures InLoop(stack + [Array(d, count, next + 1)] + [Field(d.(kind := Scalar), next)], level, limit, true)
  {
    var base := stack + [Array(d, count, next + 1)];
    Snoc(stack, Array(d, count, next));
    Snoc(stack, Array(d, count, next + 1));
    Snoc(base, Field(d.(kind := Scalar), next));
    assert InArray(base, level, limit);
  }

  lemma LoopCases(stack: seq<Task>, t: Task, level: nat, limit: nat, popped: bool)
    requires InLoop(stack + [t], level, limit, popped)
    ensures t.Fields? ==> !popped && InFields(stack + [t], level, limit) && t.next <= |t.fields|
    ensures t.Array? ==> !popped && InArray(stack + [t], level, limit) && t.next <= t.count
    ensures t.Field? ==> popped && AtRest(stack, level, limit) && level + DefHeight(t.def) <= limit
    ensures t.Field? && !t.def.kind.Scalar? ==> InFields(stack, level, limit)
    ensures t.EndArray? || t.EndStruct? ==> popped && AtRest(stack, level, limit)
  {
    Snoc(stack, t);
    if popped {
      assert t.EndStruct? ==> InStruct(stack + [t], level, limit);
      assert t.EndArray? ==> InArrayEnd(stack + [t], level, limit);
    } else {
      assert InFields(stack + [t], level, limit) || InArray(stack + [t], level, limit);
    }
  }

  lemma FieldsDone(s: Source, stack: seq<Task>, fields: seq<Def>, level: nat, limit: nat, pos: nat)
    requires InFields(stack + [Fields(fields, |fields|)], level, limit) && pos <= |s.payload|
    ensures InLoop(stack, if level == 0 then 0 else level - 1, limit, true)
    ensures Pending(s, stack + [Fields(fields, |fields|)], pos) == Pending(s, stack, pos)
  {
    Snoc(stack, Fields(fields, |fields|));
    assert fields[|fields|..] == [];
    PendingNothing(s, stack, Fields(fields, |fields|), pos);
  }

  lemma ElemsDone(s: Source, stack: seq<Task>, d: Def, count: nat, level: nat, limit: nat, pos: nat)
    requires InArray(stack + [Array(d, count, count)], level, limit) && pos <= |s.payload|
    ensures InLoop(stack, level, limit, true)
    ensures Pending(s, stack + [Array(d, count, count)], pos) == Pending(s, stack, pos)
  {
    Snoc(stack, Array(d, count, count));
    PendingNothing(s, stack, Array(d, count, count), pos);
  }

  lemma EndTask(s: Source, stack: seq<Task>, t: Task, item: Item, pos: nat)
    requires pos <= |s.payload|
    requires t.EndArray? ==> item == ItemOf(s, ArrayEnd, t.def, t.start, Slice(s, t.start, pos), t.count, -1)
    requires t.EndStruct? ==> item == ItemOf(s, StructEnd, t.def, t.start, Slice(s, t.start, pos), 0, t.index)
    requires t.EndArray? || t.EndStruct?
    ensures Pending(s, stack + [t], pos) == Cons(item, Pending(s, stack, pos))
  {
    PendingOne(s, stack, t, item, pos, pos);
  }

  lemma PendingEmpty(s: Source, pos: nat)
    requires pos <= |s.payload|
    ensures Pending(s, [], pos) == Walked([], Ok(pos))
  {
  }

  lemma LoopStarts(stack: seq<Task>, level: nat, limit: nat)
    requires AtRest(stack, level, limit)
    ensures InLoop(stack, level, limit, false)
  {
  }

  lemma RestInArray(stack: seq<Task>, d: Def, count: nat, start: nat, level: nat, limit: nat)
    requires InFields(stack, level, limit) && level + DefHeight(d) <= limit
    ensures InArray(stack + [EndArray(d, count, start)] + [Array(d, count, 0)], level, limit)
  {
    Snoc(stack, EndArray(d, count, start));
    Snoc(stack + [EndArray(d, count, start)], Array(d, count, 0));
  }

  lemma RestInStruct(stack: seq<Task>, d: Def, start: nat, index: int, level: nat, limit: nat)
    requires AtRest(stack, level, limit) && level + DefHeight(d) <= limit && d.encoding == ENCODING_STRUCT
    ensures InFields(stack + [EndStruct(d, start, index)] + [Fields(d.children, 0)], level + 1, limit)
  {
    Snoc(stack, EndStruct(d, start, index));
    Snoc(stack + [EndStruct(d, start, index)], Fields(d.children, 0));
    assert InStruct(stack + [EndStruct(d, start, index)], level, limit);
  }

  // ----------------------------------------------------------------- iterator

  datatype Severity = SeverityWarning | SeverityError

  datatype Diagnostic = Diagnostic(severity: Severity, offset: nat)

  /** The diagnostic for payload left over after the last field. */
  function Trailing(s: Source, pos: nat): seq<Diagnostic>
    requires pos <= |s.payload|
  {
    if pos == |s.payload| then []
    else [Diagnostic(if |s.payload| - pos <= 7 then SeverityWarning else SeverityError, s.base + pos)]
  }

  class Enumerator {
    const event: ParsedEvent
    const source: Source
    const maxTransitions: int
    ghost const maxDepth: nat
    var state: State
    var item: Option<Item>
    var err: Option<DecodeError>
    var pos: nat
    var transitions: nat
    var stack: seq<Task>
    var diagnostics: seq<Diagnostic>
    ghost var level: nat

    ghost predicate Valid()
      reads this
    {
      && pos <= |source.payload|
      && (Active() ==> AtRest(stack, level, maxDepth))
    }

    predicate Active()
      reads this
    {
      !state.Done? && !state.Error?
    }

    /** Everything the iterator still has to give. */
    ghost function Rest(): Walked
      requires Valid()
      reads this
    {
      Pending(source, stack, pos)
    }

    constructor (event: ParsedEvent, maxTransitions: int, ghost maxDepth: nat)
      requires DefsHeight(event.fields) <= maxDepth
      ensures Valid() && Active() && state == BeforeFirst
      ensures this.event == event && this.maxTransitions == maxTransitions && this.maxDepth == maxDepth
      ensures source == Source(event.info.header.order, event.payload, event.payloadOffset)
      ensures transitions == 0 && err == None && diagnostics == []
      ensures Rest() == WalkFields(source, event.fields, 0)
    {
      this.event := event;
      source := Source(event.info.header.order, event.payload, event.payloadOffset);
      this.maxTransitions := maxTransitions;
      this.maxDepth := maxDepth;
      state, item, err, pos, transitions, diagnostics := BeforeFirst, None, None, 0, 0, [];
      stack := [Fields(event.fields, 0)];
      level := 0;
      new;
      assert event.fields[0..] == event.fields;
      var w := WalkFields(source, event.fields, 0);
      PendingPush(source, [], Fields(event.fields, 0), 0);
      assert [] + [Fields(event.fields, 0)] == stack;
      assert w.items + [] == w.items;
    }

    /** `emit`: one more item, unless the transition limit is reached. */
    method Emit(next: Item) returns (more: bool)
      modifies this`item, this`state, this`err, this`transitions
      ensures more == (old(transitions) < maxTransitions)
      ensures more ==> item == Some(next) && state == next.state && transitions == old(transitions) + 1 && err == old(err)
      ensures !more ==> state == Error && err == Some(DecodeError(next.offset, Limit)) && transitions == old(transitions)
    {
      if transitions >= maxTransitions {
        err, state := Some(DecodeError(next.offset, Limit)), Error;
        return false;
      }
      transitions := transitions + 1;
      item, state := Some(next), next.state;
      return true;
    }

    method FailWith(e: DecodeError) returns (more: bool)
      modifies this`err, this`state
      ensures !more && state == Error && err == Some(DecodeError(source.base + e.offset, e.kind))
    {
      err, state := Some(DecodeError(source.base + e.offset, e.kind)), Error;
      return false;
    }

    method Finish()
      requires pos <= |source.payload|
      modifies this`diagnostics, this`state
      ensures state == Done && diagnostics == old(diagnostics) + Trailing(source, pos)
      // nothing if the payload is used up, a warning for what may be padding, an error for more
      ensures |source.payload| - pos == 0 ==> diagnostics == old(diagnostics)
      ensures 1 <= |source.payload| - pos <= 7 ==> diagnostics == old(diagnostics) + [Diagnostic(SeverityWarning, source.base + pos)]
      ensures |source.payload| - pos >= 8 ==> diagnostics == old(diagnostics) + [Diagnostic(SeverityError, source.base + pos)]
    {
      var trailing := |source.payload| - pos;
      if trailing != 0 {
        var severity := SeverityError;
        if trailing <= 7 {
          severity := SeverityWarning;
        }
        diagnostics := diagnostics + [Diagnostic(severity, source.base + pos)];
      }
      state := Done;
    }

    /** One field: a container opens or a value is read. */
    method NextField(def: Def, index: int) returns (more: bool)
      requires pos <= |source.payload| && Active()
      requires AtRest(stack, level, maxDepth) && level + DefHeight(def) <= maxDepth
      requires !def.kind.Scalar? ==> InFields(stack, level, maxDepth)
      modifies this
      ensures Valid() && AtRest(stack, level, maxDepth)
      ensures Gave(old(Pending(source, stack + [Field(def, index)], pos)), more)
    {
      hide Cons, Pending, WalkTask, InFields, InArray, InStruct, InArrayEnd, Slice, Get16, ReadWireValue, DefHeight;
      var start := pos;
      if !def.kind.Scalar? {
        ArrayTask(source, def, index, pos);
        var count: nat := def.count;
        if def.kind.Variable? {
          if |source.payload| - pos < 2 {
            PendingFails(source, stack, Field(def, index), pos, DecodeError(pos, Truncated));
            more := FailWith(DecodeError(pos, Truncated));
            return;
          }
          count := Get16(source.order, source.payload, pos);
          pos := pos + 2;
        }
        var begin := ItemOf(source, ArrayBegin, def, start, [], count, -1);
        EndTasks(source, def, count, start, -1);
        PendingBracket(source, stack, Field(def, index), Array(def, count, 0), EndArray(def, count, start), begin, ArrayEnd, start, start, pos);
        RestInArray(stack, def, count, start, level, maxDepth);
        stack := stack + [EndArray(def, count, start)] + [Array(def, count, 0)];
        more := Emit(begin);
        return;
      }
      if def.encoding == ENCODING_STRUCT {
        StructTask(source, def, index, pos);
        var begin := ItemOf(source, StructBegin, def, start, [], 0, index);
        EndTasks(source, def, 0, start, index);
        PendingBracket(source, stack, Field(def, index), Fields(def.children, 0), EndStruct(def, start, index), begin, StructEnd, start, start, pos);
        RestInStruct(stack, def, start, index, level, maxDepth);
        stack := stack + [EndStruct(def, start, index)] + [Fields(def.children, 0)];
        level := level + 1;
        more := Emit(begin);
        return;
      }
      ValueTask(source, def, index, pos);
      var value := ReadValue(source.order, def.encoding, source.payload, pos);
      if value.Err? {
        PendingFails(source, stack, Field(def, index), pos, value.error);
        more := FailWith(value.error);
        return;
      }
      var v := value.value;
      var scalar := ItemOf(source, ValueItem, def, v.offset, v.raw, 0, index);
      PendingOne(source, stack, Field(def, index), scalar, pos, v.next);
      pos := v.next;
      more := Emit(scalar);
    }

    /** The tasks that only put other tasks on the stack, or nothing. */
    method Expand(task: Task)
      requires pos <= |source.payload|
      requires task.Fields? ==> InFields(stack + [task], level, maxDepth) && task.next <= |task.fields|
      requires task.Array? ==> InArray(stack + [task], level, maxDepth) && task.next <= task.count
      requires task.Fields? || task.Array?
      modifies this`stack, this`level
      ensures InLoop(stack, level, maxDepth, true)
      ensures Pending(source, stack, pos) == Pending(source, old(stack) + [task], pos)
      ensures |stack| <= old(|stack|) + 2
    {
      hide InFields, InArray, InStruct, InArrayEnd, AtRest, InLoop, Pending;
      match task {
        case Fields(fields, next) =>
          if next == |fields| {
            FieldsDone(source, stack, fields, level, maxDepth, pos);
            level := if level == 0 then 0 else level - 1;
          } else {
            PendingFields(source, stack, fields, next, pos);
            RestAfterField(stack, fields, next, level, maxDepth);
            stack := stack + [Fields(fields, next + 1)] + [Field(fields[next], -1)];
          }
        case Array(def, count, next) =>
          if next == count {
            ElemsDone(source, stack, def, count, level, maxDepth, pos);
          } else {
            PendingElems(source, stack, def, count, next, pos);
            RestAfterElem(stack, def, count, next, level, maxDepth);
            stack := stack + [Array(def, count, next + 1)] + [Field(def.(kind := Scalar), next)];
          }
      }
    }

    /** The tasks that give an item: one field, or the end of a container. */
    method Yield(task: Task) returns (more: bool)
      requires pos <= |source.payload| && Active() && AtRest(stack, level, maxDepth)
      requires task.Field? ==> level + DefHeight(task.def) <= maxDepth
      requires task.Field? && !task.def.kind.Scalar? ==> InFields(stack, level, maxDepth)
      requires !task.Fields? && !task.Array?
      modifies this
      ensures Valid() && AtRest(stack, level, maxDepth)
      ensures Gave(old(Pending(source, stack + [task], pos)), more)
    {
      hide InFields, InArray, AtRest, Pending, Cons, Slice;
      match task {
        case Field(def, index) =>
          more := NextField(def, index);
        case EndArray(def, count, start) =>
          var last := ItemOf(source, ArrayEnd, def, start, Slice(source, start, pos), count, -1);
          EndTask(source, stack, task, last, pos);
          more := Emit(last);
        case EndStruct(def, start, index) =>
          var last := ItemOf(source, StructEnd, def, start, Slice(source, start, pos), 0, index);
          EndTask(source, stack, task, last, pos);
          more := Emit(last);
      }
    }

    /** What a call leaves behind when `w` was still to come. */
    twostate predicate Gave(w: Walked, more: bool)
      reads this
    {
      if w.items == [] then
        && !more
        && transitions == old(transitions)
        && (match w.end
            case Ok(p) => state == Done && err == old(err) && pos == p && p <= |source.payload| && diagnostics == old(diagnostics) + Trailing(source, p)
            case Err(e) => state == Error && err == Some(e) && diagnostics == old(diagnostics))
      else if old(transitions) >= maxTransitions then
        && !more && transitions == old(transitions)
        && state == Error && err == Some(DecodeError(w.items[0].offset, Limit)) && diagnostics == old(diagnostics)
      else
        && more && Valid() && Active()
        && item == Some(w.items[0]) && state == w.items[0].state
        && transitions == old(transitions) + 1
        && err == old(err) && diagnostics == old(diagnostics)
        && Rest() == Walked(w.items[1..], w.end)
    }

    /** `Next`.  The head of what was still to come becomes the current item and
        the rest stays to come; `pops` and `peak` count the tasks taken off the
        stack and its greatest size. */
    method Next() returns (more: bool, ghost pops: nat, ghost peak: nat)
      requires Valid()
      modifies this
      ensures Valid()
      ensures pops <= 2 && (old(Active()) ==> peak <= 4 * maxDepth + 4)
      ensures !old(Active()) ==>
        !more && state == old(state) && err == old(err) && pos == old(pos) && transitions == old(transitions) && diagnostics == old(diagnostics)
      ensures old(Active()) ==> Gave(old(Rest()), more)
    {
      hide InFields, InArray, InStruct, InArrayEnd, AtRest, InLoop, Cons, Pending, Slice, WalkTask;
      pops, peak := 0, |stack|;
      if state.Done? || state.Error? {
        return false, pops, peak;
      }
      RestSize(stack, level, maxDepth);
      LoopStarts(stack, level, maxDepth);
      ghost var w := Rest();
      while stack != []
        invariant pos == old(pos) && state == old(state) && err == old(err)
        invariant transitions == old(transitions) && diagnostics == old(diagnostics)
        invariant pops <= 1 && peak <= 4 * maxDepth + 4
        invariant pops == 0 ==> |stack| <= 4 * maxDepth + 3
        invariant InLoop(stack, level, maxDepth, pops == 1)
        invariant Pending(source, stack, pos) == w
        decreases 2 - pops
      {
        var task := stack[|stack| - 1];
        ghost var whole, popped := stack, pops == 1;
        stack := stack[..|stack| - 1];
        pops := pops + 1;
        assert whole == stack + [task];
        LoopCases(stack, task, level, maxDepth, popped);
        if task.Fields? || task.Array? {
          Expand(task);
          peak := if peak < |stack| then |stack| else peak;
        } else {
          more := Yield(task);
          RestSize(stack, level, maxDepth);
          peak := if peak < |stack| then |stack| else peak;
          return more, pops, peak;
        }
      }
      PendingEmpty(source, pos);
      Finish();
      return false, pops, peak;
    }
  }
}
