/** The lifecycle of one registration: every atomic step of `acquire`, `release`,
    `Writev`, `Enabled` and `Registration.Close`, for any number of threads. */
module Registrations {
  import opened Wire

  const ZERO := 0
  const OPEN := 1
  const CLOSING := 2
  const CLOSED := 3
  const ACTIVE_ONE := 4
  const WORD_MODULUS := 0x1_0000_0000_0000_0000

  /** Where a thread stands: the name says which operation it performs next. */
  datatype Pc =
    | Idle
    | AcquireLoad | AcquireSwap(seen: nat)
    | Entered | Writing | Leaving
    | SignalLock | Broadcast | SignalUnlock
    | CloseLock | CloseLoad
    | MarkLoad | MarkSwap(marked: nat)
    | DrainLoad | DrainWait | Parked | Woken
    | Unregister | Reopen | Unmap | Forget | StoreClosed
    | CloseUnlock(ok: bool) | Returned(ok: bool)

  /** The shared variables. `registered` is the kernel's view, `listed` membership
      in the file's map; the counters record successful calls. */
  datatype Memory = Memory(
    word: nat, lock: Option<nat>, registered: bool, mapped: bool, listed: bool,
    made: nat, unregistered: nat, unmapped: nat)

  datatype State = State(mem: Memory, pcs: seq<Pc>)

  datatype Move = Move(mem: Memory, pc: Pc)

  /** Between a successful compare-and-swap in `acquire` and the add in `release`. */
  predicate Holds(pc: Pc) { pc.Entered? || pc.Writing? || pc.Leaving? }

  /** Holding `closeMu`. */
  predicate Owns(pc: Pc) {
    || pc.Broadcast? || pc.SignalUnlock? || pc.CloseLoad? || pc.MarkLoad? || pc.MarkSwap? || pc.DrainLoad? || pc.DrainWait?
    || pc.Unregister? || pc.Reopen? || pc.Unmap? || pc.Forget? || pc.StoreClosed? || pc.CloseUnlock?
  }

  /** Waiting for the operations in progress, or past the wait and not yet done
      with `unregister`. */
  predicate Drains(pc: Pc) {
    pc.DrainLoad? || pc.DrainWait? || pc.Parked? || pc.Woken? || pc.Unregister? || pc.Reopen?
  }

  predicate Signals(pc: Pc) { pc.SignalLock? || pc.Broadcast? }

  /** A call to `Close` is in flight. */
  predicate InClose(pc: Pc) {
    || pc.CloseLock? || pc.CloseLoad? || pc.MarkLoad? || pc.MarkSwap? || Drains(pc)
    || pc.Unmap? || pc.Forget? || pc.StoreClosed? || pc.CloseUnlock?
  }

  function Holders(pcs: seq<Pc>): nat {
    if pcs == [] then 0 else Holders(pcs[..|pcs| - 1]) + if Holds(pcs[|pcs| - 1]) then 1 else 0
  }

  /** `closeCond.Broadcast` */
  function Wake(pcs: seq<Pc>): (r: seq<Pc>)
    ensures |r| == |pcs|
    ensures forall k :: 0 <= k < |pcs| ==> r[k] == if pcs[k].Parked? then Woken else pcs[k]
  {
    seq(|pcs|, k requires 0 <= k < |pcs| => if pcs[k].Parked? then Woken else pcs[k])
  }

  // ------------------------------------------------------------------ steps

  predicate Enabled(s: State, i: nat) {
    && i < |s.pcs|
    && !s.pcs[i].Parked?
    && (s.pcs[i].SignalLock? || s.pcs[i].CloseLock? || s.pcs[i].Woken? ==> s.mem.lock.None?)
  }

  /** The next atomic step of thread `i` at `pc`. `choice` picks what an idle thread
      calls, whether the kernel enabled the event, and whether a system call
      succeeds. */
  function Act(m: Memory, i: nat, pc: Pc, choice: bool): Move {
    match pc
    case Idle => Move(m, if choice then AcquireLoad else CloseLock)
    case AcquireLoad => Move(m, if m.word % 4 != OPEN then Idle else AcquireSwap(m.word))
    case AcquireSwap(seen) =>
      if m.word == seen then Move(m.(word := (seen + ACTIVE_ONE) % WORD_MODULUS), Entered) else Move(m, AcquireLoad)
    case Entered => Move(m, if choice then Writing else Leaving)
    case Writing => Move(m, Leaving)
    case Leaving =>
      var word := (m.word + WORD_MODULUS - ACTIVE_ONE) % WORD_MODULUS;
      Move(m.(word := word), if word == CLOSING then SignalLock else Idle)
    case SignalLock => Move(m.(lock := Some(i)), Broadcast)
    case Broadcast => Move(m, SignalUnlock)
    case SignalUnlock => Move(m.(lock := None), Idle)
    case CloseLock => Move(m.(lock := Some(i)), CloseLoad)
    case CloseLoad =>
      Move(m, if m.word % 4 == ZERO then CloseUnlock(false)
              else if m.word % 4 == CLOSED then CloseUnlock(true)
              else if m.word % 4 == OPEN then MarkLoad
              else Unmap)
    case MarkLoad => Move(m, MarkSwap(m.word))
    case MarkSwap(seen) =>
      if m.word == seen then Move(m.(word := seen - seen % 4 + CLOSING), DrainLoad) else Move(m, MarkLoad)
    case DrainLoad => Move(m, if m.word != CLOSING then DrainWait else Unregister)
    case DrainWait => Move(m.(lock := None), Parked)
    case Parked => Move(m, Parked)
    case Woken => Move(m.(lock := Some(i)), DrainLoad)
    case Unregister =>
      if choice then Move(m.(registered := false, unregistered := m.unregistered + 1), Unmap) else Move(m, Reopen)
    case Reopen => Move(m.(word := OPEN), CloseUnlock(false))
    case Unmap =>
      if choice then Move(m.(mapped := false, unmapped := m.unmapped + 1), Forget) else Move(m, CloseUnlock(false))
    case Forget => Move(m.(listed := false), StoreClosed)
    case StoreClosed => Move(m.(word := CLOSED), CloseUnlock(true))
    case CloseUnlock(ok) => Move(m.(lock := None), Returned(ok))
    case Returned(_) => Move(m, Idle)
  }

  /** A broadcast also wakes every thread parked on the condition. */
  function Next(s: State, i: nat, choice: bool): State
    requires Enabled(s, i)
  {
    var move := Act(s.mem, i, s.pcs[i], choice);
    State(move.mem, (if s.pcs[i].Broadcast? then Wake(s.pcs) else s.pcs)[i := move.pc])
  }

  predicate AllIdle(pcs: seq<Pc>) {
    forall i :: 0 <= i < |pcs| ==> pcs[i].Idle?
  }

  const MOST_THREADS := 0x3fff_ffff_ffff_ffff

  /** A registration made by `File.Register`, shared by idle threads. */
  predicate Fresh(s: State) {
    AllIdle(s.pcs) && |s.pcs| < MOST_THREADS && s.mem == Memory(OPEN, None, true, true, true, 1, 0, 0)
  }

  /** The zero value, which no file registered. */
  predicate Unusable(s: State) {
    AllIdle(s.pcs) && |s.pcs| < MOST_THREADS && s.mem == Memory(ZERO, None, false, false, false, 0, 0, 0)
  }

  // -------------------------------------------------------------- invariant

  ghost predicate SignalPending(pcs: seq<Pc>) {
    exists k :: 0 <= k < |pcs| && Signals(pcs[k])
  }

  ghost predicate Draining(pcs: seq<Pc>) {
    exists k :: 0 <= k < |pcs| && Drains(pcs[k])
  }

  /** What the position of one thread says about the shared variables. */
  predicate Local(m: Memory, pc: Pc) {
    && (pc.AcquireSwap? ==> pc.seen % 4 == OPEN)
    && (pc.MarkLoad? || pc.MarkSwap? ==> m.word % 4 == OPEN)
    && (Drains(pc) ==> m.word % 4 == CLOSING && m.registered)
    && (pc.Unregister? || pc.Reopen? ==> m.word == CLOSING)
    && (pc.Unmap? || pc.Forget? || pc.StoreClosed? ==> m.word == CLOSING && !m.registered)
    && (pc.Unmap? ==> m.mapped)
    && (pc.Forget? ==> !m.mapped && m.listed)
    && (pc.StoreClosed? ==> !m.mapped && !m.listed)
    && (pc == CloseUnlock(true) || pc == Returned(true) ==> !m.listed)
    && (pc.CloseUnlock? ==> Answers(m, pc.ok))
  }

  /** What the answer of `Close` says while it still holds the mutex: success means
      closed; failure means never registered, open and intact, or out of the kernel
      with the mapping left to remove. */
  predicate Answers(m: Memory, ok: bool) {
    if ok then m.word % 4 == CLOSED && !m.registered && !m.mapped && !m.listed
    else
      || m.word == ZERO
      || (m.word % 4 == OPEN && m.registered && m.mapped && m.listed)
      || (m.word == CLOSING && !m.registered && m.mapped && m.listed)
  }

  /** What holds between the shared variables. */
  predicate Shared(m: Memory, holders: nat) {
    && m.word == m.word % 4 + ACTIVE_ONE * holders
    && (m.word % 4 == ZERO ==> !m.registered && !m.mapped && !m.listed)
    && (m.word % 4 == OPEN ==> m.registered)
    && (m.word % 4 == CLOSED ==> !m.registered && !m.mapped && !m.listed)
    && (m.registered ==> m.mapped) && (m.mapped ==> m.listed)
    && (!m.registered ==> holders == 0)
    && m.made <= 1 && (m.word % 4 == ZERO <==> m.made == 0)
    && m.unregistered + (if m.registered then 1 else 0) == m.made
    && m.unmapped + (if m.mapped then 1 else 0) == m.made
  }

  /** Only the thread between `munmap` and the final store sees the mapping gone. */
  predicate Dismantled(s: State) {
    s.mem.word % 4 == CLOSING && !s.mem.mapped ==>
      exists k :: 0 <= k < |s.pcs| && (s.pcs[k].Forget? || s.pcs[k].StoreClosed?)
  }

  /** The owner of the mutex is the only thread at a position inside it. */
  predicate Exclusive(s: State) {
    && (forall k :: 0 <= k < |s.pcs| ==> (Owns(s.pcs[k]) <==> s.mem.lock == Some(k)))
    && (s.mem.lock.Some? ==> s.mem.lock.value < |s.pcs|)
  }

  /** One `Close` at a time drains, and while the kernel still holds a closing
      registration one does. */
  ghost predicate OneDrain(s: State) {
    && (forall j, k :: 0 <= j < |s.pcs| && 0 <= k < |s.pcs| && Drains(s.pcs[j]) && Drains(s.pcs[k]) ==> j == k)
    && (s.mem.word % 4 == CLOSING && s.mem.registered ==> Draining(s.pcs))
  }

  /** No wake-up is lost: whoever waits, or is about to, still has an operation
      to wait for or a broadcast to come. */
  ghost predicate NoLostWakeUp(s: State) {
    (exists k :: 0 <= k < |s.pcs| && (s.pcs[k].DrainWait? || s.pcs[k].Parked?)) ==>
      s.mem.word != CLOSING || SignalPending(s.pcs)
  }

  ghost predicate Inv(s: State) {
    && |s.pcs| < MOST_THREADS
    && Shared(s.mem, Holders(s.pcs)) && Dismantled(s) && Exclusive(s) && OneDrain(s) && NoLostWakeUp(s)
    && (forall k :: 0 <= k < |s.pcs| ==> Local(s.mem, s.pcs[k]))
  }

  /** A `Close` reads Closing while another one still drains: the step that the
      mutex does not exclude, since a waiting `Close` has released it. */
  predicate Overlaps(s: State, i: nat) {
    i < |s.pcs| && s.pcs[i].CloseLoad? && s.mem.word % 4 == CLOSING && s.mem.registered
  }

  // ------------------------------------------------------------ preservation

  lemma {:induction false} HoldersUpdate(pcs: seq<Pc>, i: nat, pc: Pc)
    requires i < |pcs|
    ensures Holders(pcs[i := pc]) + (if Holds(pcs[i]) then 1 else 0) == Holders(pcs) + (if Holds(pc) then 1 else 0)
  {
    var last := |pcs| - 1;
    if i < last {
      HoldersUpdate(pcs[..last], i, pc);
      assert pcs[i := pc][..last] == pcs[..last][i := pc];
    } else {
      assert pcs[i := pc][..last] == pcs[..last];
    }
  }

  lemma {:induction false} HoldersBound(pcs: seq<Pc>)
    ensures Holders(pcs) <= |pcs|
    ensures forall i :: 0 <= i < |pcs| && Holds(pcs[i]) ==> Holders(pcs) > 0
    ensures Holders(pcs) > 0 ==> exists i :: 0 <= i < |pcs| && Holds(pcs[i])
  {
    if pcs != [] {
      var last := |pcs| - 1;
      HoldersBound(pcs[..last]);
      assert forall i :: 0 <= i < last ==> pcs[..last][i] == pcs[i];
      if Holders(pcs) > 0 && !Holds(pcs[last]) {
        var i :| 0 <= i < last && Holds(pcs[..last][i]);
        assert Holds(pcs[i]);
      }
    }
  }

  lemma {:induction false} HoldersWake(pcs: seq<Pc>)
    ensures Holders(Wake(pcs)) == Holders(pcs)
  {
    if pcs != [] {
      var last := |pcs| - 1;
      HoldersWake(pcs[..last]);
      assert Wake(pcs)[..last] == Wake(pcs[..last]);
    }
  }

  lemma FreshInv(s: State)
    requires Fresh(s) || Unusable(s)
    ensures Inv(s)
  {
    HoldersBound(s.pcs);
  }

  lemma StepHolders(s: State, i: nat, choice: bool)
    requires Enabled(s, i)
    ensures var t := Next(s, i, choice);
            && |t.pcs| == |s.pcs|
            && Holders(t.pcs) + (if Holds(s.pcs[i]) then 1 else 0) == Holders(s.pcs) + (if Holds(t.pcs[i]) then 1 else 0)
            && t.pcs[i] == Act(s.mem, i, s.pcs[i], choice).pc
            && (forall k :: 0 <= k < |s.pcs| && k != i ==>
                 t.pcs[k] == if s.pcs[i].Broadcast? && s.pcs[k].Parked? then Woken else s.pcs[k])
  {
    hide Holders, Act, Holds;
    var t := Next(s, i, choice);
    if s.pcs[i].Broadcast? {
      HoldersWake(s.pcs);
      HoldersUpdate(Wake(s.pcs), i, t.pcs[i]);
    } else {
      HoldersUpdate(s.pcs, i, t.pcs[i]);
    }
  }

  /** The new shared variables, and what the thread that moved relies on. */
  lemma ActKeeps(m: Memory, holders: nat, i: nat, pc: Pc, choice: bool)
    requires Shared(m, holders) && Local(m, pc) && holders < MOST_THREADS && (Holds(pc) ==> holders > 0)
    requires pc.CloseLoad? && m.word % 4 == CLOSING ==> !m.registered && m.mapped
    ensures var r := Act(m, i, pc, choice);
            && holders + (if Holds(r.pc) then 1 else 0) >= (if Holds(pc) then 1 else 0)
            && Shared(r.mem, holders + (if Holds(r.pc) then 1 else 0) - (if Holds(pc) then 1 else 0))
            && Local(r.mem, r.pc)
  {
  }

  /** What another thread relies on survives the step. */
  lemma ActSpares(m: Memory, holders: nat, i: nat, pc: Pc, choice: bool, other: Pc)
    requires Shared(m, holders) && Local(m, pc) && Local(m, other) && (Holds(pc) ==> holders > 0)
    requires !(Owns(pc) && Owns(other))
    requires !(Drains(pc) && Drains(other))
    ensures Local(Act(m, i, pc, choice).mem, if pc.Broadcast? && other.Parked? then Woken else other)
  {
  }

  lemma StepMemory(s: State, i: nat, choice: bool)
    requires Inv(s) && Enabled(s, i) && !Overlaps(s, i)
    ensures var t := Next(s, i, choice);
            && Shared(t.mem, Holders(t.pcs))
            && (forall k :: 0 <= k < |t.pcs| ==> Local(t.mem, t.pcs[k]))
  {
    hide Holders, Act, Local, Shared;
    var t := Next(s, i, choice);
    HoldersBound(s.pcs);
    StepHolders(s, i, choice);
    if s.pcs[i].CloseLoad? && s.mem.word % 4 == CLOSING {
      UnmapReady(s, i);
    }
    assert t.mem == Act(s.mem, i, s.pcs[i], choice).mem;
    ActKeeps(s.mem, Holders(s.pcs), i, s.pcs[i], choice);
    forall k | 0 <= k < |t.pcs| ensures Local(t.mem, t.pcs[k]) {
      if k != i {
        ActSpares(s.mem, Holders(s.pcs), i, s.pcs[i], choice, s.pcs[k]);
      }
    }
  }

  lemma UnmapReady(s: State, i: nat)
    requires Inv(s) && i < |s.pcs| && s.pcs[i].CloseLoad? && s.mem.word % 4 == CLOSING
    ensures s.mem.mapped
  {
    hide Holders;
  }

  lemma StepExclusive(s: State, i: nat, choice: bool)
    requires Exclusive(s) && Enabled(s, i)
    ensures Exclusive(Next(s, i, choice))
  {
    hide Holders;
    StepHolders(s, i, choice);
  }

  lemma StepDismantled(s: State, i: nat, choice: bool)
    requires Inv(s) && Enabled(s, i) && !Overlaps(s, i)
    ensures Dismantled(Next(s, i, choice))
  {
    hide Holders, NoLostWakeUp, OneDrain, Answers;
    StepHolders(s, i, choice);
  }

  lemma StepDrain(s: State, i: nat, choice: bool)
    requires Inv(s) && Enabled(s, i) && !Overlaps(s, i)
    ensures OneDrain(Next(s, i, choice))
  {
    hide Holders, NoLostWakeUp, Dismantled, Answers, Exclusive;
    StepHolders(s, i, choice);
  }

  lemma StepWakes(s: State, i: nat, choice: bool)
    requires Inv(s) && Enabled(s, i) && !Overlaps(s, i)
    ensures NoLostWakeUp(Next(s, i, choice))
  {
    hide Holders;
    StepHolders(s, i, choice);
  }

  /** The invariant survives a step exactly when that step is not a second `Close`
      slipping past one that drains; such a step leads straight to `munmap` of a
      mapping that the kernel still writes. */
  lemma StepKeeps(s: State, i: nat, choice: bool)
    requires Inv(s) && Enabled(s, i)
    ensures Inv(Next(s, i, choice)) <==> !Overlaps(s, i)
    ensures Overlaps(s, i) ==> Next(s, i, choice).pcs[i].Unmap? && Next(s, i, choice).mem.registered
  {
    hide Holders, Shared, Dismantled, Exclusive, OneDrain, NoLostWakeUp;
    StepHolders(s, i, choice);
    if !Overlaps(s, i) {
      StepMemory(s, i, choice);
      StepExclusive(s, i, choice);
      StepDismantled(s, i, choice);
      StepDrain(s, i, choice);
      StepWakes(s, i, choice);
    } else {
      assert !Local(Next(s, i, choice).mem, Next(s, i, choice).pcs[i]);
    }
  }

  // ------------------------------------------------------------------ safety

  /** What the protocol is for. */
  ghost predicate Safe(s: State) {
    var h := Holders(s.pcs);
    // the word counts the operations in progress
    && s.mem.word == s.mem.word % 4 + ACTIVE_ONE * h
    // whoever acquired the registration finds it registered and mapped
    && (h > 0 ==> s.mem.registered && s.mem.mapped && s.mem.listed)
    // nobody is inside from the call of `unregister` on
    && (forall k :: 0 <= k < |s.pcs| && (s.pcs[k].Unregister? || s.pcs[k].Reopen?) ==> h == 0 && s.mem.registered)
    && (forall k :: 0 <= k < |s.pcs| && (s.pcs[k].Unmap? || s.pcs[k].Forget? || s.pcs[k].StoreClosed?) ==>
         h == 0 && !s.mem.registered)
    // `munmap` runs on a live mapping, after `unregister` succeeded
    && (forall k :: 0 <= k < |s.pcs| && s.pcs[k].Unmap? ==> s.mem.mapped && s.mem.unregistered == 1)
    // each succeeds at most once
    && s.mem.unregistered <= 1 && s.mem.unmapped <= s.mem.unregistered
    // an open registration is intact, a closed one is gone from kernel, memory and file
    && (s.mem.word % 4 == OPEN ==> s.mem.registered && s.mem.mapped && s.mem.listed)
    && (s.mem.word % 4 == CLOSED ==> h == 0 && !s.mem.registered && !s.mem.mapped && !s.mem.listed)
    // a file that no longer lists the registration can drop its descriptor
    && (!s.mem.listed ==> h == 0 && !s.mem.registered && !s.mem.mapped)
    // `Close` answers truly
    && (forall k :: 0 <= k < |s.pcs| && s.pcs[k].CloseUnlock? ==> Answers(s.mem, s.pcs[k].ok))
    && (forall k :: 0 <= k < |s.pcs| && s.pcs[k].CloseUnlock? ==> (s.pcs[k].ok <==> s.mem.word % 4 == CLOSED))
    // a waiting `Close` has something to wait for
    && NoLostWakeUp(s)
  }

  lemma InvSafe(s: State)
    requires Inv(s)
    ensures Safe(s)
  {
    hide Holders;
  }

  /** In terms of what the protocol is for: a step from a state that obeys the
      protocol is safe if and only if it does not overlap. */
  lemma StepSafe(s: State, i: nat, choice: bool)
    requires Inv(s) && Enabled(s, i)
    ensures Safe(Next(s, i, choice)) <==> !Overlaps(s, i)
  {
    StepKeeps(s, i, choice);
    if !Overlaps(s, i) {
      InvSafe(Next(s, i, choice));
    } else {
      hide Holders, Inv;
      assert Next(s, i, choice).pcs[i].Unmap?;
    }
  }

  /** A choice of thread and outcome for each step. */
  predicate Legal(s: State, steps: seq<(nat, bool)>)
    decreases |steps|
  {
    steps == [] || (Enabled(s, steps[0].0) && Legal(Next(s, steps[0].0, steps[0].1), steps[1..]))
  }

  function After(s: State, steps: seq<(nat, bool)>): State
    requires Legal(s, steps)
    decreases |steps|
  {
    if steps == [] then s else After(Next(s, steps[0].0, steps[0].1), steps[1..])
  }

  /** No step of the run overlaps a drain. */
  predicate Serialized(s: State, steps: seq<(nat, bool)>)
    requires Legal(s, steps)
    decreases |steps|
  {
    steps == [] || (!Overlaps(s, steps[0].0) && Serialized(Next(s, steps[0].0, steps[0].1), steps[1..]))
  }

  ghost predicate OneClose(s: State) {
    forall j, k :: 0 <= j < |s.pcs| && 0 <= k < |s.pcs| && InClose(s.pcs[j]) && InClose(s.pcs[k]) ==> j == k
  }

  /** Every state on the way has at most one `Close` in flight. */
  ghost predicate CloseAlone(s: State, steps: seq<(nat, bool)>)
    requires Legal(s, steps)
    decreases |steps|
  {
    OneClose(s) && (steps == [] || CloseAlone(Next(s, steps[0].0, steps[0].1), steps[1..]))
  }

  /** Safety over all runs of any number of users and closers, as long as no
      `Close` slips past one that drains. */
  lemma {:induction false} RunSafe(s: State, steps: seq<(nat, bool)>)
    requires Inv(s) && Legal(s, steps) && Serialized(s, steps)
    ensures Inv(After(s, steps)) && Safe(After(s, steps))
    decreases |steps|
  {
    hide Inv, Safe, Next, Enabled, Overlaps;
    if steps == [] {
      InvSafe(s);
    } else {
      StepKeeps(s, steps[0].0, steps[0].1);
      RunSafe(Next(s, steps[0].0, steps[0].1), steps[1..]);
    }
  }

  lemma AloneNeverOverlaps(s: State, i: nat)
    requires Inv(s) && OneClose(s)
    ensures !Overlaps(s, i)
  {
    hide Holders, Shared, Dismantled, Exclusive, NoLostWakeUp;
  }

  /** In particular, one `Close` in flight at a time is safe beside any number of
      users, whatever system calls fail. */
  lemma {:induction false} OneCloseSafe(s: State, steps: seq<(nat, bool)>)
    requires Inv(s) && Legal(s, steps) && CloseAlone(s, steps)
    ensures Serialized(s, steps) && Safe(After(s, steps))
    decreases |steps|
  {
    hide Inv, Safe, Next, Enabled, Overlaps, OneClose;
    if steps == [] {
      InvSafe(s);
    } else {
      AloneNeverOverlaps(s, steps[0].0);
      StepKeeps(s, steps[0].0, steps[0].1);
      OneCloseSafe(Next(s, steps[0].0, steps[0].1), steps[1..]);
    }
  }

  /** No run gets stuck: while some thread is inside an operation, a thread inside
      an operation can move. */
  lemma NoDeadlock(s: State)
    requires Inv(s) && !AllIdle(s.pcs)
    ensures exists i: nat :: Enabled(s, i) && !s.pcs[i].Idle?
  {
    hide Holders;
    HoldersBound(s.pcs);
    var busy :| 0 <= busy < |s.pcs| && !s.pcs[busy].Idle?;
    if s.mem.lock.Some? {
      assert Enabled(s, s.mem.lock.value);
    } else if s.pcs[busy].Parked? {
      if s.mem.word != CLOSING {
        assert Local(s.mem, s.pcs[busy]);
        assert Holders(s.pcs) > 0;
        var holder :| 0 <= holder < |s.pcs| && Holds(s.pcs[holder]);
        assert Enabled(s, holder);
      } else {
        var signaller :| 0 <= signaller < |s.pcs| && Signals(s.pcs[signaller]);
        assert Enabled(s, signaller);
      }
    } else {
      assert Enabled(s, busy);
    }
  }

  // ------------------------------------------------------------ what is answered

  /** On the way to a failing answer, or past it. */
  predicate Blamed(pc: Pc) { pc.Reopen? || pc == CloseUnlock(false) || pc == Returned(false) }

  ghost predicate NobodyBlamed(s: State) {
    forall k :: 0 <= k < |s.pcs| ==> !Blamed(s.pcs[k])
  }

  /** No `unregister` and no `munmap` of the run fails. */
  predicate Succeeding(s: State, steps: seq<(nat, bool)>)
    requires Legal(s, steps)
    decreases |steps|
  {
    steps != [] ==>
      && (s.pcs[steps[0].0].Unregister? || s.pcs[steps[0].0].Unmap? ==> steps[0].1)
      && Succeeding(Next(s, steps[0].0, steps[0].1), steps[1..])
  }

  /** Over every run in which no system call fails, no `Close` of a registered
      event answers with a failure, whoever else is using or closing it. */
  lemma {:induction false} CloseSucceeds(s: State, steps: seq<(nat, bool)>)
    requires Inv(s) && s.mem.made == 1 && NobodyBlamed(s)
    requires Legal(s, steps) && Serialized(s, steps) && Succeeding(s, steps)
    ensures NobodyBlamed(After(s, steps))
    decreases |steps|
  {
    hide Inv, Next, Enabled, Overlaps;
    if steps != [] {
      StepBlames(s, steps[0].0, steps[0].1);
      StepKeeps(s, steps[0].0, steps[0].1);
      CloseSucceeds(Next(s, steps[0].0, steps[0].1), steps[1..]);
    }
  }

  lemma StepBlames(s: State, i: nat, choice: bool)
    requires Inv(s) && Enabled(s, i) && s.mem.made == 1 && NobodyBlamed(s)
    requires s.pcs[i].Unregister? || s.pcs[i].Unmap? ==> choice
    ensures Next(s, i, choice).mem.made == 1 && NobodyBlamed(Next(s, i, choice))
  {
    hide Holders, Dismantled, Exclusive, OneDrain, NoLostWakeUp;
    StepHolders(s, i, choice);
  }

  /** One thread alone, from `pc` until its call returns; `unregister` and
      `munmap` have the given outcomes. */
  function Alone(m: Memory, i: nat, pc: Pc, unregister: bool, munmap: bool, steps: nat): Move
    decreases steps
  {
    if steps == 0 then Move(m, pc)
    else
      var move := Act(m, i, pc, if pc.Unregister? then unregister else munmap);
      Alone(move.mem, i, move.pc, unregister, munmap, steps - 1)
  }

  /** `Close` by one thread that nobody disturbs, to the end. */
  lemma CloseAloneReturns(m: Memory, i: nat, unregister: bool, munmap: bool) returns (steps: nat)
    requires m.lock.None? && Shared(m, 0)
    requires m.word == CLOSING ==> !m.registered && m.mapped
    ensures Alone(m, i, CloseLock, unregister, munmap, steps) ==
            if m.word == ZERO then Move(m, Returned(false))
            else if m.word == CLOSED then Move(m, Returned(true))
            else if m.word == OPEN && !unregister then Move(m, Returned(false))
            else if !munmap then Move(m.(word := CLOSING, registered := false, unregistered := 1), Returned(false))
            else Move(m.(word := CLOSED, registered := false, unregistered := 1, mapped := false, unmapped := 1, listed := false),
                      Returned(true))
  {
    hide Alone;
    var l := m.(lock := Some(i));
    if m.word == ZERO || m.word == CLOSED {
      steps := 3;
      AloneStep(m, i, CloseLock, unregister, munmap, 2);
      AloneStep(l, i, CloseLoad, unregister, munmap, 1);
      AloneStep(l, i, CloseUnlock(m.word == CLOSED), unregister, munmap, 0);
    } else if m.word == OPEN {
      steps := OpenAlone(m, i, unregister, munmap);
    } else {
      steps := 2 + UnmapSteps(munmap);
      AloneStep(m, i, CloseLock, unregister, munmap, 1 + UnmapSteps(munmap));
      AloneStep(l, i, CloseLoad, unregister, munmap, UnmapSteps(munmap));
      UnmapAlone(l, i, unregister, munmap);
    }
  }

  lemma OpenAlone(m: Memory, i: nat, unregister: bool, munmap: bool) returns (steps: nat)
    requires m.lock.None? && m.word == OPEN && m.registered && m.mapped && m.listed && m.unregistered == 0 && m.unmapped == 0
    ensures Alone(m, i, CloseLock, unregister, munmap, steps) ==
            if !unregister then Move(m, Returned(false))
            else if !munmap then Move(m.(word := CLOSING, registered := false, unregistered := 1), Returned(false))
            else Move(m.(word := CLOSED, registered := false, unregistered := 1, mapped := false, unmapped := 1, listed := false),
                      Returned(true))
  {
    hide Alone, Act;
    var c := m.(lock := Some(i), word := CLOSING);
    var rest: nat := if unregister then UnmapSteps(munmap) else 2;
    steps := 6 + rest;
    MarkAlone(m, i, unregister, munmap, rest + 1);
    UnregisterAlone(c, i, unregister, munmap, rest);
    if unregister {
      UnmapAlone(c.(registered := false, unregistered := 1), i, unregister, munmap);
    }
  }

  /** Nobody is inside, so that the drain is over at once. */
  lemma MarkAlone(m: Memory, i: nat, unregister: bool, munmap: bool, rest: nat)
    requires m.lock.None? && m.word == OPEN
    ensures Alone(m, i, CloseLock, unregister, munmap, rest + 5)
         == Alone(m.(lock := Some(i), word := CLOSING), i, Unregister, unregister, munmap, rest)
  {
    hide Alone;
    var l := m.(lock := Some(i));
    AloneStep(m, i, CloseLock, unregister, munmap, rest + 4);
    AloneStep(l, i, CloseLoad, unregister, munmap, rest + 3);
    AloneStep(l, i, MarkLoad, unregister, munmap, rest + 2);
    AloneStep(l, i, MarkSwap(OPEN), unregister, munmap, rest + 1);
    AloneStep(l.(word := CLOSING), i, DrainLoad, unregister, munmap, rest);
  }

  lemma UnregisterAlone(m: Memory, i: nat, unregister: bool, munmap: bool, rest: nat)
    requires !unregister ==> rest == 2
    ensures Alone(m, i, Unregister, unregister, munmap, rest + 1) ==
            if unregister then Alone(m.(registered := false, unregistered := m.unregistered + 1), i, Unmap, unregister, munmap, rest)
            else Move(m.(lock := None, word := OPEN), Returned(false))
  {
    hide Alone;
    AloneStep(m, i, Unregister, unregister, munmap, rest);
    if !unregister {
      AloneStep(m, i, Reopen, unregister, munmap, 1);
      AloneStep(m.(word := OPEN), i, CloseUnlock(false), unregister, munmap, 0);
    }
  }

  function UnmapSteps(munmap: bool): nat { if munmap then 4 else 2 }

  lemma UnmapAlone(m: Memory, i: nat, unregister: bool, munmap: bool)
    ensures Alone(m, i, Unmap, unregister, munmap, UnmapSteps(munmap)) ==
            if !munmap then Move(m.(lock := None), Returned(false))
            else Move(m.(lock := None, word := CLOSED, mapped := false, unmapped := m.unmapped + 1, listed := false), Returned(true))
  {
    hide Alone;
    if munmap {
      var a := m.(mapped := false, unmapped := m.unmapped + 1);
      var b := a.(listed := false);
      AloneStep(m, i, Unmap, unregister, munmap, 3);
      AloneStep(a, i, Forget, unregister, munmap, 2);
      AloneStep(b, i, StoreClosed, unregister, munmap, 1);
      AloneStep(b.(word := CLOSED), i, CloseUnlock(true), unregister, munmap, 0);
    } else {
      AloneStep(m, i, Unmap, unregister, munmap, 1);
      AloneStep(m, i, CloseUnlock(false), unregister, munmap, 0);
    }
  }

  /** One step of the thread, and what the others would see of it. */
  lemma AloneStep(m: Memory, i: nat, pc: Pc, unregister: bool, munmap: bool, more: nat)
    ensures var move := Act(m, i, pc, if pc.Unregister? then unregister else munmap);
            && Alone(m, i, pc, unregister, munmap, more + 1) == Alone(move.mem, i, move.pc, unregister, munmap, more)
            && Alone(move.mem, i, move.pc, unregister, munmap, 0) == move
  {
  }

  /** `acquire` gives up only where it read a word that is not open, and what it
      adds `release` takes away again. */
  lemma AcquireAndRelease(m: Memory, holders: nat, i: nat, choice: bool)
    requires Shared(m, holders) && holders < MOST_THREADS
    ensures forall pc: Pc :: pc.AcquireLoad? || pc.AcquireSwap? ==> (Act(m, i, pc, choice).pc.Idle? ==> m.word % 4 != OPEN)
    ensures m.word % 4 == OPEN ==>
              && Alone(m, i, AcquireLoad, choice, choice, 2) == Move(m.(word := m.word + 4), Entered)
              && Act(m.(word := m.word + 4), i, Leaving, choice) == Move(m, Idle)
  {
    AloneStep(m, i, AcquireLoad, choice, choice, 1);
    AloneStep(m, i, AcquireSwap(m.word), choice, choice, 0);
  }

  // ---------------------------------------------------------------- progress

  /** Steps a thread can still take before it is idle, once the word says Closing;
      a broadcast pays for the wake-up it causes. */
  function Weight(pc: Pc): nat {
    match pc
    case Idle => 0
    case AcquireLoad => 1 case AcquireSwap(_) => 2
    case Entered => 14 case Writing => 13 case Leaving => 12
    case SignalLock => 11 case Broadcast => 10 case SignalUnlock => 1
    case CloseLock => 7 case CloseLoad => 6
    case MarkLoad => 0 case MarkSwap(_) => 0
    case Woken => 10 case DrainLoad => 9 case DrainWait => 8 case Parked => 7
    case Unregister => 6 case Reopen => 3 case Unmap => 5 case Forget => 4 case StoreClosed => 3
    case CloseUnlock(_) => 2 case Returned(_) => 1
  }

  function Total(pcs: seq<Pc>): nat {
    if pcs == [] then 0 else Total(pcs[..|pcs| - 1]) + Weight(pcs[|pcs| - 1])
  }

  lemma {:induction false} TotalUpdate(pcs: seq<Pc>, i: nat, pc: Pc)
    requires i < |pcs|
    ensures Total(pcs[i := pc]) + Weight(pcs[i]) == Total(pcs) + Weight(pc)
  {
    hide Weight;
    var last := |pcs| - 1;
    if i < last {
      TotalUpdate(pcs[..last], i, pc);
      assert pcs[i := pc][..last] == pcs[..last][i := pc];
    } else {
      assert pcs[i := pc][..last] == pcs[..last];
    }
  }

  lemma TotalWake(s: State)
    requires Inv(s)
    ensures Total(Wake(s.pcs)) <= Total(s.pcs) + 3
  {
    hide Holders, Total;
    if parked: nat :| parked < |s.pcs| && s.pcs[parked].Parked? {
      assert Wake(s.pcs) == s.pcs[parked := Woken];
      TotalUpdate(s.pcs, parked, Woken);
    } else {
      assert Wake(s.pcs) == s.pcs;
    }
  }

  /** While the registration is closing, every step of a thread inside an operation
      brings the end nearer. */
  lemma ClosingProgress(s: State, i: nat, choice: bool)
    requires Inv(s) && Enabled(s, i) && !Overlaps(s, i) && !s.pcs[i].Idle?
    requires s.mem.word % 4 == CLOSING
    ensures Total(Next(s, i, choice).pcs) < Total(s.pcs)
  {
    hide Total, Holders, Shared, Dismantled, Exclusive, OneDrain, NoLostWakeUp;
    assert Local(s.mem, s.pcs[i]);
    var t := Next(s, i, choice);
    if s.pcs[i].Broadcast? {
      TotalWake(s);
      TotalUpdate(Wake(s.pcs), i, t.pcs[i]);
    } else {
      TotalUpdate(s.pcs, i, t.pcs[i]);
    }
  }

  /** Every state on the way is closing and no thread starts a new operation. */
  predicate Ending(s: State, steps: seq<(nat, bool)>)
    requires Legal(s, steps)
    decreases |steps|
  {
    steps == [] ||
      (s.mem.word % 4 == CLOSING && !s.pcs[steps[0].0].Idle? && Ending(Next(s, steps[0].0, steps[0].1), steps[1..]))
  }

  /** Such a run is bounded: once threads stop calling in, the closing phase ends
      within `Total(s.pcs)` steps, whatever the scheduler and the kernel do. */
  lemma {:induction false} DrainBounded(s: State, steps: seq<(nat, bool)>)
    requires Inv(s) && Legal(s, steps) && Serialized(s, steps) && Ending(s, steps)
    ensures |steps| + Total(After(s, steps).pcs) <= Total(s.pcs)
    decreases |steps|
  {
    hide Inv, Next, Enabled, Overlaps, Total;
    if steps != [] {
      ClosingProgress(s, steps[0].0, steps[0].1);
      StepKeeps(s, steps[0].0, steps[0].1);
      DrainBounded(Next(s, steps[0].0, steps[0].1), steps[1..]);
    }
  }

  /** After a serialized run, if no thread inside an operation can move then no
      thread is inside one: no `Close` is ever left waiting. */
  lemma DrainEnds(s: State, steps: seq<(nat, bool)>)
    requires Inv(s) && Legal(s, steps) && Serialized(s, steps)
    requires forall i: nat :: Enabled(After(s, steps), i) ==> After(s, steps).pcs[i].Idle?
    ensures AllIdle(After(s, steps).pcs)
  {
    hide Inv, Safe, Next, Enabled, Holders;
    RunSafe(s, steps);
    var t := After(s, steps);
    if !AllIdle(t.pcs) {
      NoDeadlock(t);
    }
  }

  // ------------------------------------------- the run the mutex does not exclude

  ghost predicate Reaches(s: State, t: State) {
    exists steps :: Legal(s, steps) && After(s, steps) == t
  }

  lemma {:induction false} OneMore(s: State, steps: seq<(nat, bool)>, i: nat, choice: bool)
    requires Legal(s, steps) && Enabled(After(s, steps), i)
    ensures Legal(s, steps + [(i, choice)]) && After(s, steps + [(i, choice)]) == Next(After(s, steps), i, choice)
    decreases |steps|
  {
    hide Next, Enabled;
    if steps == [] {
      assert [(i, choice)][1..] == [] && [] + [(i, choice)] == [(i, choice)];
      assert Legal(Next(s, i, choice), []);
    } else {
      OneMore(Next(s, steps[0].0, steps[0].1), steps[1..], i, choice);
      assert (steps + [(i, choice)])[1..] == steps[1..] + [(i, choice)];
    }
  }

  lemma ReachesNext(s: State, t: State, i: nat, choice: bool)
    requires Reaches(s, t) && Enabled(t, i)
    ensures Reaches(s, Next(t, i, choice))
  {
    hide Next, Enabled, Legal, After;
    var steps :| Legal(s, steps) && After(s, steps) == t;
    OneMore(s, steps, i, choice);
  }

  lemma ReachesSelf(s: State)
    ensures Reaches(s, s)
  {
    assert Legal(s, []) && After(s, []) == s;
  }

  const LIVE := Memory(OPEN, None, true, true, true, 1, 0, 0)
  const THREE := State(LIVE, [Idle, Idle, Idle])

  lemma AcquireRun(t: State)
    requires t == State(LIVE.(word := 5), [Writing, Idle, Idle])
    ensures Reaches(THREE, t)
  {
    hide Reaches;
    ReachesSelf(THREE);
    ReachesNext(THREE, THREE, 0, true);
    var a := State(LIVE, [AcquireLoad, Idle, Idle]);
    assert Next(THREE, 0, true) == a;
    ReachesNext(THREE, a, 0, true);
    var b := State(LIVE, [AcquireSwap(1), Idle, Idle]);
    assert Next(a, 0, true) == b;
    ReachesNext(THREE, b, 0, true);
    var c := State(LIVE.(word := 5), [Entered, Idle, Idle]);
    assert Next(b, 0, true) == c;
    ReachesNext(THREE, c, 0, true);
    assert Next(c, 0, true) == t;
  }

  lemma ParkRun(t: State)
    requires t == State(LIVE.(word := 6), [Writing, Parked, Idle])
    ensures Reaches(THREE, t)
  {
    hide Reaches;
    var held := LIVE.(word := 5);
    var a := State(held, [Writing, Idle, Idle]);
    AcquireRun(a);
    ReachesNext(THREE, a, 1, false);
    var b := State(held, [Writing, CloseLock, Idle]);
    assert Next(a, 1, false) == b;
    ReachesNext(THREE, b, 1, false);
    var c := State(held.(lock := Some(1)), [Writing, CloseLoad, Idle]);
    assert Next(b, 1, false) == c;
    ReachesNext(THREE, c, 1, false);
    var d := State(c.mem, [Writing, MarkLoad, Idle]);
    assert Next(c, 1, false) == d;
    ReachesNext(THREE, d, 1, false);
    var e := State(c.mem, [Writing, MarkSwap(5), Idle]);
    assert Next(d, 1, false) == e;
    ReachesNext(THREE, e, 1, false);
    var f := State(c.mem.(word := 6), [Writing, DrainLoad, Idle]);
    assert Next(e, 1, false) == f;
    ReachesNext(THREE, f, 1, false);
    var g := State(f.mem, [Writing, DrainWait, Idle]);
    assert Next(f, 1, false) == g;
    ReachesNext(THREE, g, 1, false);
    assert Next(g, 1, false) == t;
  }

  /** Two overlapping calls of `Close` beside one user: the second unmaps the enable
      word while the user is about to write and the kernel still has the registration. */
  lemma OverlapUnmaps(t: State)
    requires t == State(LIVE.(word := 6, lock := Some(2), mapped := false, unmapped := 1), [Writing, Parked, Forget])
    ensures Reaches(THREE, t) && !Safe(t)
    ensures t.mem.registered && !t.mem.mapped && Holds(t.pcs[0])
  {
    hide Reaches, Holders;
    var a := State(LIVE.(word := 6), [Writing, Parked, Idle]);
    ParkRun(a);
    ReachesNext(THREE, a, 2, false);
    var b := State(a.mem, [Writing, Parked, CloseLock]);
    assert Next(a, 2, false) == b;
    ReachesNext(THREE, b, 2, false);
    var c := State(a.mem.(lock := Some(2)), [Writing, Parked, CloseLoad]);
    assert Next(b, 2, false) == c;
    assert Overlaps(c, 2);
    ReachesNext(THREE, c, 2, false);
    var d := State(c.mem, [Writing, Parked, Unmap]);
    assert Next(c, 2, false) == d;
    ReachesNext(THREE, d, 2, true);
    assert Next(d, 2, true) == t;
    HoldersBound(t.pcs);
    assert Holds(t.pcs[0]);
  }

  /** The same run goes on until the word has underflowed and the first `Close`
      is left waiting with nobody to wake it. */
  lemma OverlapStrands(t: State)
    requires t == State(LIVE.(word := WORD_MODULUS - 1, mapped := false, unmapped := 1, listed := false), [Idle, Parked, Idle])
    ensures Reaches(THREE, t) && Stranded(t, 1)
  {
    hide Reaches;
    var gone := LIVE.(word := 6, lock := Some(2), mapped := false, unmapped := 1);
    var a := State(gone, [Writing, Parked, Forget]);
    OverlapUnmaps(a);
    ReachesNext(THREE, a, 2, false);
    var b := State(gone.(listed := false), [Writing, Parked, StoreClosed]);
    assert Next(a, 2, false) == b;
    ReachesNext(THREE, b, 2, false);
    var closed := b.mem.(word := CLOSED);
    var c := State(closed, [Writing, Parked, CloseUnlock(true)]);
    assert Next(b, 2, false) == c;
    ReachesNext(THREE, c, 2, false);
    var d := State(closed.(lock := None), [Writing, Parked, Returned(true)]);
    assert Next(c, 2, false) == d;
    ReachesNext(THREE, d, 2, false);
    var e := State(d.mem, [Writing, Parked, Idle]);
    assert Next(d, 2, false) == e;
    ReachesNext(THREE, e, 0, false);
    var f := State(d.mem, [Leaving, Parked, Idle]);
    assert Next(e, 0, false) == f;
    ReachesNext(THREE, f, 0, false);
    assert Next(f, 0, false) == t;
  }

  /** Thread `who` waits, and no thread is on its way to a broadcast. */
  predicate Stranded(s: State, who: nat) {
    && who < |s.pcs| && s.pcs[who].Parked? && s.mem.word % 4 == CLOSED
    && forall k :: 0 <= k < |s.pcs| && k != who ==>
         || s.pcs[k].Idle? || s.pcs[k].AcquireLoad? || s.pcs[k].CloseLock? || s.pcs[k].CloseLoad?
         || s.pcs[k].CloseUnlock? || s.pcs[k].Returned?
  }

  /** Whatever the other threads do from there, it waits for ever. */
  lemma {:induction false} StrandedForever(s: State, who: nat, steps: seq<(nat, bool)>)
    requires Stranded(s, who) && Legal(s, steps)
    ensures Stranded(After(s, steps), who)
    decreases |steps|
  {
    if steps != [] {
      StrandedForever(Next(s, steps[0].0, steps[0].1), who, steps[1..]);
    }
  }
}
