/** One data file with every registration it ever made: `File.Register`, `Delete` and
    `Close` beside any use of the registrations. A section under the file's mutex is
    one step; registrations move by their own atomic steps. */
module Files {
  import opened Wire
  import R = Registrations

  datatype Phase = Open | Closing | Closed

  datatype FilePc =
    | Outside
    | Waiting | Awake                                       // closeCond.Wait
    | Each(todo: seq<nat>, failed: bool, inside: bool)      // the loop over the snapshot
    | CloseFd | Finish

  /** `closes` counts the calls of `closeFD`; thread `t` of the file is thread `t`
      of each registration. */
  datatype State = State(phase: Phase, closes: nat, regs: seq<R.State>, files: seq<FilePc>)

  datatype Event =
    | Register(ok: bool)
    | Delete
    | Use(reg: nat, choice: bool)     // a step inside a registration
    | Enter(order: seq<nat>)          // File.Close up to the end of its first section
    | Call | Return | Leave | DoClose | End

  function Listed(s: State): set<nat> {
    set r | 0 <= r < |s.regs| && s.regs[r].mem.listed
  }

  /** `closeCond.Broadcast` */
  function Wake(files: seq<FilePc>): (r: seq<FilePc>)
    ensures |r| == |files|
    ensures forall t :: 0 <= t < |files| ==> r[t] == if files[t].Waiting? then Awake else files[t]
  {
    seq(|files|, t requires 0 <= t < |files| => if files[t].Waiting? then Awake else files[t])
  }

  function NewRegistration(threads: nat): R.State {
    R.State(R.Memory(R.OPEN, None, true, true, true, 1, 0, 0), seq(threads, _ => R.Idle))
  }

  /** Whether thread `t` can take this step. */
  predicate Enabled(s: State, t: nat, e: Event) {
    && t < |s.files|
    && match e
       case Register(_) => s.files[t].Outside?
       case Delete => s.files[t].Outside?
       case Use(r, choice) =>
         && r < |s.regs| && R.Enabled(s.regs[r], t)
         && (s.regs[r].pcs[t].Idle? ==> s.files[t].Outside?)
         && (s.regs[r].pcs[t].Returned? ==> !(s.files[t].Each? && s.files[t].inside && s.files[t].todo != [] && s.files[t].todo[0] == r))
       case Enter(order) =>
         && (s.files[t].Outside? || s.files[t].Awake?)
         && (set r | r in order) == Listed(s)
         && (forall i, j :: 0 <= i < j < |order| ==> order[i] != order[j])
       case Call =>
         && s.files[t].Each? && !s.files[t].inside && s.files[t].todo != []
         && s.files[t].todo[0] < |s.regs| && R.Enabled(s.regs[s.files[t].todo[0]], t) && s.regs[s.files[t].todo[0]].pcs[t].Idle?
       case Return =>
         && s.files[t].Each? && s.files[t].inside && s.files[t].todo != []
         && s.files[t].todo[0] < |s.regs| && R.Enabled(s.regs[s.files[t].todo[0]], t) && s.regs[s.files[t].todo[0]].pcs[t].Returned?
       case Leave => s.files[t].Each? && !s.files[t].inside && s.files[t].todo == []
       case DoClose => s.files[t].CloseFd?
       case End => s.files[t].Finish?
  }

  function MoveReg(s: State, t: nat, r: nat, choice: bool): State
    requires r < |s.regs| && R.Enabled(s.regs[r], t)
  {
    s.(regs := s.regs[r := R.Next(s.regs[r], t, choice)])
  }

  function Goto(s: State, t: nat, pc: FilePc): State
    requires t < |s.files|
  {
    s.(files := s.files[t := pc])
  }

  function Next(s: State, t: nat, e: Event): State
    requires Enabled(s, t, e)
  {
    match e
    case Register(ok) =>
      if s.phase.Open? && ok then s.(regs := s.regs + [NewRegistration(|s.files|)]) else s
    case Delete => s
    case Use(r, choice) => MoveReg(s, t, r, choice)
    case Enter(order) =>
      (match s.phase
       case Closing => Goto(s, t, Waiting)
       case Closed => Goto(s, t, Outside)
       case Open => Goto(s.(phase := Closing), t, Each(order, false, false)))
    case Call => Goto(MoveReg(s, t, s.files[t].todo[0], false), t, s.files[t].(inside := true))
    case Return =>
      var r := s.files[t].todo[0];
      var ok := s.regs[r].pcs[t].ok;
      Goto(MoveReg(s, t, r, false), t, Each(s.files[t].todo[1..], s.files[t].failed || !ok, false))
    case Leave =>
      if s.files[t].failed then Goto(s.(phase := Open, files := Wake(s.files)), t, Outside)
      else Goto(s, t, CloseFd)
    case DoClose => Goto(s.(closes := s.closes + 1), t, Finish)
    case End => Goto(s.(phase := Closed, files := Wake(s.files)), t, Outside)
  }

  /** The system calls on the descriptor: `ioctl` for register, delete and
      unregister, and `writev`. */
  predicate UsesDescriptor(s: State, t: nat, e: Event)
    requires Enabled(s, t, e)
  {
    match e
    case Register(_) => s.phase.Open?
    case Delete => s.phase.Open?
    case Use(r, _) => s.regs[r].pcs[t].Writing? || s.regs[r].pcs[t].Unregister?
    case _ => false
  }

  /** `Close` calls on one registration do not slip past each other. */
  predicate Disciplined(s: State, t: nat, e: Event) {
    match e
    case Use(r, _) => r < |s.regs| && !R.Overlaps(s.regs[r], t)
    case _ => true
  }

  predicate Start(s: State) {
    && s.phase.Open? && s.closes == 0 && s.regs == [] && |s.files| < R.MOST_THREADS
    && forall t :: 0 <= t < |s.files| ==> s.files[t].Outside?
  }

  // -------------------------------------------------------------- invariant

  predicate Closes(pc: FilePc) { pc.Each? || pc.CloseFd? || pc.Finish? }

  ghost predicate RegInv(s: State, r: nat)
    requires r < |s.regs|
  {
    R.Inv(s.regs[r]) && |s.regs[r].pcs| == |s.files| && s.regs[r].mem.made == 1
  }

  /** What the position of a thread in `File.Close` says about the file. */
  predicate Local(s: State, pc: FilePc) {
    && (Closes(pc) ==> s.phase.Closing?)
    && (pc.Waiting? ==> s.phase.Closing?)
    && (pc.Each? ==>
      && s.closes == 0
      && (!pc.failed ==> forall r :: 0 <= r < |s.regs| && s.regs[r].mem.listed ==> r in pc.todo))
    && (pc.CloseFd? ==> s.closes == 0 && Listed(s) == {})
    && (pc.Finish? ==> s.closes == 1 && Listed(s) == {})
  }

  ghost predicate Inv(s: State) {
    && |s.files| < R.MOST_THREADS
    && (forall r :: 0 <= r < |s.regs| ==> RegInv(s, r))
    && (forall t :: 0 <= t < |s.files| ==> Local(s, s.files[t]))
    && (forall t, u :: 0 <= t < |s.files| && 0 <= u < |s.files| && Closes(s.files[t]) && Closes(s.files[u]) ==> t == u)
    && (s.phase.Closing? ==> exists t :: 0 <= t < |s.files| && Closes(s.files[t]))
    && (s.phase.Open? ==> s.closes == 0)
    && (s.phase.Closed? ==> s.closes == 1 && Listed(s) == {})
  }

  /** One registration step seen from the file. */
  lemma RegStep(s: R.State, t: nat, choice: bool)
    requires R.Inv(s) && R.Enabled(s, t) && !R.Overlaps(s, t)
    ensures var u := R.Next(s, t, choice);
            R.Inv(u) && |u.pcs| == |s.pcs| && u.mem.made == s.mem.made && (u.mem.listed ==> s.mem.listed)
  {
    hide R.Inv;
    R.StepKeeps(s, t, choice);
  }

  lemma ReturnedUnlists(s: R.State, t: nat)
    requires R.Inv(s) && t < |s.pcs| && s.pcs[t] == R.Returned(true)
    ensures !s.mem.listed
  {
    hide R.Holders, R.Shared, R.Dismantled, R.Exclusive, R.OneDrain, R.NoLostWakeUp;
  }

  lemma NewInv(threads: nat)
    requires threads < R.MOST_THREADS
    ensures R.Inv(NewRegistration(threads))
  {
    hide R.Inv;
    R.FreshInv(NewRegistration(threads));
  }

  lemma UseKeeps(s: State, t: nat, e: Event)
    requires Inv(s) && Enabled(s, t, e) && Disciplined(s, t, e) && e.Use?
    ensures Inv(Next(s, t, e))
  {
    hide R.Inv, R.Next, R.Overlaps, R.Enabled;
    assert RegInv(s, e.reg);
    RegStep(s.regs[e.reg], t, e.choice);
    var u := Next(s, t, e);
    forall r | 0 <= r < |u.regs| ensures RegInv(u, r) {
      assert RegInv(s, r);
    }
    assert Listed(u) <= Listed(s);
  }

  lemma CallKeeps(s: State, t: nat, e: Event)
    requires Inv(s) && Enabled(s, t, e) && (e.Call? || e.Return?)
    ensures Inv(Next(s, t, e))
  {
    hide R.Inv, R.Next, R.Enabled;
    var r := s.files[t].todo[0];
    assert RegInv(s, r);
    RegStep(s.regs[r], t, false);
    if e.Return? && s.regs[r].pcs[t].ok {
      ReturnedUnlists(s.regs[r], t);
    }
    assert s.files[t].todo == [r] + s.files[t].todo[1..];
    var u := Next(s, t, e);
    forall k | 0 <= k < |u.regs| ensures RegInv(u, k) {
      assert RegInv(s, k);
    }
    assert Listed(u) <= Listed(s);
    forall v | 0 <= v < |u.files| ensures Local(u, u.files[v]) {
      assert Local(s, s.files[v]);
    }
    assert Closes(u.files[t]);
  }

  lemma FileKeeps(s: State, t: nat, e: Event)
    requires Inv(s) && Enabled(s, t, e) && !e.Use? && !e.Call? && !e.Return? && !e.Register?
    ensures Inv(Next(s, t, e))
  {
    hide R.Inv, R.Next, R.Enabled;
    var u := Next(s, t, e);
    forall k | 0 <= k < |u.regs| ensures RegInv(u, k) {
      assert RegInv(s, k);
    }
    assert Listed(u) == Listed(s);
    if e.Enter? {
      assert forall r :: 0 <= r < |s.regs| && s.regs[r].mem.listed ==> r in Listed(s);
      assert forall r :: r in Listed(s) ==> r in e.order;
    }
    forall v | 0 <= v < |u.files| ensures Local(u, u.files[v]) {
      assert Local(s, s.files[v]);
    }
    if s.phase.Closing? && u.phase.Closing? {
      var k :| 0 <= k < |s.files| && Closes(s.files[k]);
      assert Closes(u.files[k]);
    } else if u.phase.Closing? {
      assert Closes(u.files[t]);
    }
  }

  lemma RegisterKeeps(s: State, t: nat, e: Event)
    requires Inv(s) && Enabled(s, t, e) && e.Register?
    ensures Inv(Next(s, t, e))
  {
    hide R.Inv, R.Next, R.Enabled;
    var u := Next(s, t, e);
    NewInv(|s.files|);
    forall k | 0 <= k < |u.regs| ensures RegInv(u, k) {
      if k < |s.regs| {
        assert RegInv(s, k);
      }
    }
  }

  lemma StepKeeps(s: State, t: nat, e: Event)
    requires Inv(s) && Enabled(s, t, e) && Disciplined(s, t, e)
    ensures Inv(Next(s, t, e))
  {
    hide Inv, Next, Enabled, Disciplined;
    if e.Use? {
      UseKeeps(s, t, e);
    } else if e.Call? || e.Return? {
      CallKeeps(s, t, e);
    } else if e.Register? {
      RegisterKeeps(s, t, e);
    } else {
      FileKeeps(s, t, e);
    }
  }

  // ----------------------------------------------------------------- safety

  /** Gone from the kernel and from memory, exactly once each, with nobody inside. */
  predicate Dead(r: R.State) {
    !r.mem.registered && !r.mem.mapped && R.Holders(r.pcs) == 0 && r.mem.unregistered == 1 && r.mem.unmapped == 1
  }

  ghost predicate Safe(s: State) {
    && s.closes <= 1
    // the descriptor is released only when the map is empty and every registration ever made is dead
    && (s.closes == 1 || (exists t :: 0 <= t < |s.files| && s.files[t].CloseFd?) ==>
         Listed(s) == {} && forall r :: 0 <= r < |s.regs| ==> Dead(s.regs[r]))
    // nobody is inside a registration after that, and a waiting Close has one to wait for
    && (forall r :: 0 <= r < |s.regs| && R.Holders(s.regs[r].pcs) > 0 ==> s.closes == 0)
    && ((exists t :: 0 <= t < |s.files| && s.files[t].Waiting?) ==> exists t :: 0 <= t < |s.files| && Closes(s.files[t]))
    // an open file has its descriptor, a closed one has released it
    && (s.phase.Open? ==> s.closes == 0) && (s.phase.Closed? ==> s.closes == 1)
  }

  lemma UnlistedDead(r: R.State)
    requires R.Inv(r) && r.mem.made == 1
    ensures !r.mem.listed ==> Dead(r)
    ensures R.Holders(r.pcs) > 0 ==> r.mem.listed
  {
    hide R.Holders;
  }

  lemma InvSafe(s: State)
    requires Inv(s)
    ensures Safe(s)
  {
    hide R.Inv, Dead, R.Holders;
    forall r | 0 <= r < |s.regs|
      ensures !s.regs[r].mem.listed ==> Dead(s.regs[r])
      ensures R.Holders(s.regs[r].pcs) > 0 ==> r in Listed(s)
      ensures s.regs[r].mem.listed ==> r in Listed(s)
    {
      assert RegInv(s, r);
      UnlistedDead(s.regs[r]);
    }
  }

  /** No system call sees the descriptor after `closeFD`. */
  lemma DescriptorAlive(s: State, t: nat, e: Event)
    requires Inv(s) && Enabled(s, t, e) && UsesDescriptor(s, t, e)
    ensures s.closes == 0
  {
    hide R.Next, R.Enabled;
    if e.Use? {
      assert RegInv(s, e.reg);
      InsideListed(s.regs[e.reg], t);
      assert e.reg in Listed(s);
      var phase := s.phase;
      if phase.Closing? {
        var k :| 0 <= k < |s.files| && Closes(s.files[k]);
        assert Local(s, s.files[k]);
      }
    }
  }

  lemma InsideListed(r: R.State, t: nat)
    requires R.Inv(r) && t < |r.pcs| && (r.pcs[t].Writing? || r.pcs[t].Unregister?)
    ensures r.mem.listed
  {
    hide R.Holders, R.Dismantled, R.Exclusive, R.OneDrain, R.NoLostWakeUp;
    R.HoldersBound(r.pcs);
    assert R.Local(r.mem, r.pcs[t]);
  }

  /** A failed close reopens the file, keeps the descriptor and touches no
      registration; the ones it keeps are those still mapped, except one whose
      mapping is just gone and whose removal from the map is the next step of the
      thread that unmapped it. */
  lemma FailedCloseKeeps(s: State, t: nat)
    requires Inv(s) && Enabled(s, t, Leave) && s.files[t].failed
    ensures var u := Next(s, t, Leave);
            && u.phase.Open? && u.closes == 0 && u.regs == s.regs
            && (forall v :: 0 <= v < |u.files| ==> !u.files[v].Waiting?)
            && (forall r :: 0 <= r < |u.regs| ==>
                 (r in Listed(u) <==> u.regs[r].mem.mapped || (u.regs[r].mem.listed && Removing(u.regs[r]))))
  {
    hide R.Inv, R.Next;
    var u := Next(s, t, Leave);
    assert Local(s, s.files[t]);
    forall r | 0 <= r < |u.regs|
      ensures r in Listed(u) <==> u.regs[r].mem.mapped || (u.regs[r].mem.listed && Removing(u.regs[r]))
    {
      assert RegInv(s, r);
      ListedMapped(s.regs[r]);
    }
  }

  /** Some thread stands between `munmap` and the removal. */
  predicate Removing(r: R.State) {
    exists k :: 0 <= k < |r.pcs| && r.pcs[k].Forget?
  }

  lemma ListedMapped(r: R.State)
    requires R.Inv(r)
    ensures r.mem.listed <==> r.mem.mapped || (r.mem.listed && Removing(r))
  {
    hide R.Holders, R.Exclusive, R.OneDrain, R.NoLostWakeUp;
    if r.mem.listed && !r.mem.mapped {
      var k :| 0 <= k < |r.pcs| && (r.pcs[k].Forget? || r.pcs[k].StoreClosed?);
      assert R.Local(r.mem, r.pcs[k]);
    }
  }

  // -------------------------------------------------------------------- runs

  predicate Legal(s: State, steps: seq<(nat, Event)>)
    decreases |steps|
  {
    steps == [] || (Enabled(s, steps[0].0, steps[0].1) && Legal(Next(s, steps[0].0, steps[0].1), steps[1..]))
  }

  function After(s: State, steps: seq<(nat, Event)>): State
    requires Legal(s, steps)
    decreases |steps|
  {
    if steps == [] then s else After(Next(s, steps[0].0, steps[0].1), steps[1..])
  }

  predicate AllDisciplined(s: State, steps: seq<(nat, Event)>)
    requires Legal(s, steps)
    decreases |steps|
  {
    steps == [] || (Disciplined(s, steps[0].0, steps[0].1) && AllDisciplined(Next(s, steps[0].0, steps[0].1), steps[1..]))
  }

  lemma StartInv(s: State)
    requires Start(s)
    ensures Inv(s)
  {
  }

  /** Over every run of registering, deleting, writing and closing, with any
      failures, the descriptor outlives every use of it and is released at most
      once, after every registration ever made is dead. */
  lemma {:induction false} RunSafe(s: State, steps: seq<(nat, Event)>)
    requires Inv(s) && Legal(s, steps) && AllDisciplined(s, steps)
    ensures Inv(After(s, steps)) && Safe(After(s, steps))
    ensures forall t, e :: Enabled(After(s, steps), t, e) && UsesDescriptor(After(s, steps), t, e) ==> After(s, steps).closes == 0
    decreases |steps|
  {
    hide Inv, Safe, Next, Enabled, Disciplined, UsesDescriptor;
    if steps == [] {
      InvSafe(s);
      forall t, e | Enabled(s, t, e) && UsesDescriptor(s, t, e) ensures s.closes == 0 {
        DescriptorAlive(s, t, e);
      }
    } else {
      StepKeeps(s, steps[0].0, steps[0].1);
      RunSafe(Next(s, steps[0].0, steps[0].1), steps[1..]);
    }
  }

  /** No call of `Close` on a registration has failed or is about to, and no loop
      of `File.Close` has noted a failure. */
  ghost predicate Smooth(s: State) {
    && (forall t :: 0 <= t < |s.files| && s.files[t].Each? ==> !s.files[t].failed)
    && (forall r :: 0 <= r < |s.regs| ==> R.NobodyBlamed(s.regs[r]))
  }

  /** `unregister` and `munmap` succeed. */
  predicate Granted(s: State, t: nat, e: Event) {
    match e
    case Use(r, choice) =>
      r < |s.regs| && t < |s.regs[r].pcs| && (s.regs[r].pcs[t].Unregister? || s.regs[r].pcs[t].Unmap? ==> choice)
    case _ => true
  }

  predicate AllGranted(s: State, steps: seq<(nat, Event)>)
    requires Legal(s, steps)
    decreases |steps|
  {
    steps == [] || (Granted(s, steps[0].0, steps[0].1) && AllGranted(Next(s, steps[0].0, steps[0].1), steps[1..]))
  }

  lemma StepSmooth(s: State, t: nat, e: Event)
    requires Inv(s) && Smooth(s) && Enabled(s, t, e) && Granted(s, t, e)
    ensures Smooth(Next(s, t, e))
  {
    hide R.Inv, R.Next, R.Enabled, Local, R.NobodyBlamed;
    var u := Next(s, t, e);
    if e.Use? || e.Call? || e.Return? {
      var r := if e.Use? then e.reg else s.files[t].todo[0];
      assert RegInv(s, r);
      assert R.NobodyBlamed(s.regs[r]);
      NotFailed(s.regs[r], t);
      R.StepBlames(s.regs[r], t, e.Use? && e.choice);
    } else if e.Register? {
      NewUnblamed(|s.files|);
    }
  }

  lemma NotFailed(r: R.State, t: nat)
    requires R.NobodyBlamed(r) && t < |r.pcs|
    ensures !(r.pcs[t].Returned? && !r.pcs[t].ok)
  {
  }

  lemma NewUnblamed(threads: nat)
    ensures R.NobodyBlamed(NewRegistration(threads))
  {
  }

  /** Over every run in which the system calls of closing succeed, `File.Close`
      goes on to `closeFD` once its loop is done, however many registrations there
      are and whoever else uses or closes them. */
  lemma {:induction false} CloseReleases(s: State, steps: seq<(nat, Event)>)
    requires Inv(s) && Smooth(s) && Legal(s, steps) && AllDisciplined(s, steps) && AllGranted(s, steps)
    ensures Smooth(After(s, steps))
    ensures forall t: nat :: Enabled(After(s, steps), t, Leave) ==> Next(After(s, steps), t, Leave).files[t].CloseFd?
    decreases |steps|
  {
    if steps == [] {
      hide Inv, R.NobodyBlamed;
    } else {
      hide Inv, Smooth, Next, Enabled, Disciplined, Granted;
      StepSmooth(s, steps[0].0, steps[0].1);
      StepKeeps(s, steps[0].0, steps[0].1);
      CloseReleases(Next(s, steps[0].0, steps[0].1), steps[1..]);
    }
  }

  /** When the descriptor goes, a registration reads Closed if and only if no `Close`
      of it stands between leaving the map and storing the final state. */
  lemma ClosedAtRelease(s: State, r: nat)
    requires Inv(s) && s.closes == 1 && r < |s.regs|
    ensures s.regs[r].mem.word == R.CLOSED <==> forall k :: 0 <= k < |s.regs[r].pcs| ==> !s.regs[r].pcs[k].StoreClosed?
    ensures s.regs[r].mem.word in {R.CLOSED, R.CLOSING}
  {
    hide R.Next, R.Enabled, R.Inv;
    if s.phase.Closing? {
      var k :| 0 <= k < |s.files| && Closes(s.files[k]);
      assert Local(s, s.files[k]);
    }
    assert s.regs[r].mem.listed ==> r in Listed(s);
    assert RegInv(s, r);
    UnlistedWord(s.regs[r]);
  }

  lemma UnlistedWord(r: R.State)
    requires R.Inv(r) && !r.mem.listed && r.mem.made == 1
    ensures r.mem.word == R.CLOSED <==> forall k :: 0 <= k < |r.pcs| ==> !r.pcs[k].StoreClosed?
    ensures r.mem.word in {R.CLOSED, R.CLOSING}
  {
    hide R.Holders, R.Exclusive, R.OneDrain, R.NoLostWakeUp;
    if r.mem.word == R.CLOSING {
      var k :| 0 <= k < |r.pcs| && (r.pcs[k].Forget? || r.pcs[k].StoreClosed?);
      assert R.Local(r.mem, r.pcs[k]);
    }
  }

  // -------------------------------------- releasing before the final state

  ghost predicate Reaches(s: State, t: State) {
    exists steps :: Legal(s, steps) && After(s, steps) == t
  }

  lemma {:induction false} OneMore(s: State, steps: seq<(nat, Event)>, t: nat, e: Event)
    requires Legal(s, steps) && Enabled(After(s, steps), t, e)
    ensures Legal(s, steps + [(t, e)]) && After(s, steps + [(t, e)]) == Next(After(s, steps), t, e)
    decreases |steps|
  {
    hide Next, Enabled;
    if steps == [] {
      assert [(t, e)][1..] == [] && [] + [(t, e)] == [(t, e)];
      assert Legal(Next(s, t, e), []);
    } else {
      OneMore(Next(s, steps[0].0, steps[0].1), steps[1..], t, e);
      assert (steps + [(t, e)])[1..] == steps[1..] + [(t, e)];
    }
  }

  lemma ReachesNext(s: State, m: State, t: nat, e: Event, u: State)
    requires Reaches(s, m) && Enabled(m, t, e) && Next(m, t, e) == u
    ensures Reaches(s, u)
  {
    hide Next, Enabled, Legal, After;
    var steps :| Legal(s, steps) && After(s, steps) == m;
    OneMore(s, steps, t, e);
  }

  const FRESH := State(Open, 0, [], [Outside, Outside])

  /** Two threads and one registration, thread 0 at `pc` inside it. */
  function One(mem: R.Memory, pc: R.Pc, phase: Phase, other: FilePc): State {
    State(phase, 0, [R.State(mem, [pc, R.Idle])], [Outside, other])
  }

  lemma Solo(mem: R.Memory, pc: R.Pc, choice: bool, r: R.Move)
    requires Reaches(FRESH, One(mem, pc, Open, Outside)) && r == R.Act(mem, 0, pc, choice)
    requires !pc.Parked? && !pc.Broadcast? && (pc.SignalLock? || pc.CloseLock? || pc.Woken? ==> mem.lock.None?)
    ensures Reaches(FRESH, One(r.mem, r.pc, Open, Outside))
  {
    hide Reaches, R.Act;
    var s := One(mem, pc, Open, Outside);
    assert [pc, R.Idle][0 := r.pc] == [r.pc, R.Idle];
    assert R.Next(s.regs[0], 0, choice) == R.State(r.mem, [r.pc, R.Idle]);
    assert Next(s, 0, Use(0, choice)).regs == [R.State(r.mem, [r.pc, R.Idle])];
    ReachesNext(FRESH, s, 0, Use(0, choice), One(r.mem, r.pc, Open, Outside));
  }

  lemma LeaveMapRun()
    ensures Reaches(FRESH, One(R.LIVE.(word := R.CLOSING, lock := Some(0), registered := false, mapped := false,
                                       listed := false, unregistered := 1, unmapped := 1), R.StoreClosed, Open, Outside))
  {
    hide Reaches;
    assert Reaches(FRESH, FRESH) by { ReachesSelf(FRESH); }
    assert NewRegistration(2).pcs == [R.Idle, R.Idle];
    var live := R.LIVE;
    ReachesNext(FRESH, FRESH, 0, Register(true), One(live, R.Idle, Open, Outside));
    Solo(live, R.Idle, false, R.Move(live, R.CloseLock));
    var mine := live.(lock := Some(0));
    Solo(live, R.CloseLock, false, R.Move(mine, R.CloseLoad));
    Solo(mine, R.CloseLoad, false, R.Move(mine, R.MarkLoad));
    Solo(mine, R.MarkLoad, false, R.Move(mine, R.MarkSwap(1)));
    var closing := mine.(word := R.CLOSING);
    Solo(mine, R.MarkSwap(1), false, R.Move(closing, R.DrainLoad));
    Solo(closing, R.DrainLoad, false, R.Move(closing, R.Unregister));
    var off := closing.(registered := false, unregistered := 1);
    Solo(closing, R.Unregister, true, R.Move(off, R.Unmap));
    var bare := off.(mapped := false, unmapped := 1);
    Solo(off, R.Unmap, true, R.Move(bare, R.Forget));
    Solo(bare, R.Forget, false, R.Move(bare.(listed := false), R.StoreClosed));
  }

  lemma ReachesSelf(s: State)
    ensures Reaches(s, s)
  {
    assert Legal(s, []) && After(s, []) == s;
  }

  /** `closeFD` can run while a registration still reads Closing: its `Close` has
      left the map and is about to store the final state. */
  lemma ReleaseBeforeClosed(t: State)
    requires t == One(R.LIVE.(word := R.CLOSING, lock := Some(0), registered := false, mapped := false,
                              listed := false, unregistered := 1, unmapped := 1), R.StoreClosed, Closing, CloseFd)
    ensures Reaches(FRESH, t) && Enabled(t, 1, DoClose) && t.regs[0].mem.word != R.CLOSED
  {
    hide Reaches;
    LeaveMapRun();
    var gone := t.regs[0].mem;
    var a := One(gone, R.StoreClosed, Open, Outside);
    assert Listed(a) == {};
    var none: seq<nat> := [];
    assert (set r | r in none) == Listed(a);
    var b := One(gone, R.StoreClosed, Closing, Each([], false, false));
    ReachesNext(FRESH, a, 1, Enter(none), b);
    ReachesNext(FRESH, b, 1, Leave, t);
  }
}
