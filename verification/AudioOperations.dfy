/** What the operations of the audio controller and the recovery have done when they are over
    (src/audio/controller.rs:82-309, src/audio/recovery.rs:122-278), over every interleaving of AudioRecovery. */
module AudioOperations {
  import opened Common
  import opened AudioRecovery

  // ---------------------------------------------------------------- what is promised

  /** What is running is the configured device. */
  predicate Plays(s: Shared) {
    IsRunning(s) ==> s.streams[s.slot.value].device == s.device
  }

  /** A streamer of the configured device is installed; it runs or has failed since. */
  predicate Up(s: Shared) {
    && s.slot.Some? && s.slot.value < |s.streams|
    && (s.streams[s.slot.value].state.Running? || s.streams[s.slot.value].state.Failed?)
    && s.streams[s.slot.value].device == s.device
  }

  /** A start that succeeded, or one that failed because audio is disabled or left a recovery under way. */
  predicate Started(s: Shared, r: Result) {
    if r.Ok? then Up(s) else !s.enabled || (s.counter % 2 == 1 && !IsRunning(s))
  }

  /** The configuration is as the operation asked; an empty device may have been replaced by the best one. */
  predicate Asked(s: Shared, op: Op) {
    match op
    case SelectDevice(d) => d != 0 ==> s.device == d
    case SetEnabled(on) => s.enabled == on
    case UpdateConfig(on, d) => s.enabled == on && (d != 0 ==> s.device == d)
    case _ => true
  }

  /** What an operation has done when it returns. */
  predicate Finished(s: Shared, op: Op, r: Result) {
    match op
    case Stop => r.Ok? && s.slot.None?
    case SetEnabled(on) => r.Ok? && Asked(s, op) && (!on ==> !IsRunning(s))
    case UpdateConfig(on, d) => Asked(s, op) && (if on then Started(s, r) else r.Ok? && !IsRunning(s))
    case Start => Started(s, r)
    case SelectDevice(d) => r.Ok? ==> Asked(s, op)
    case SetQuality => true
  }

  /** A recovery that has committed or given up is stale, or audio is disabled. */
  predicate Retired(s: Shared, task: Task) {
    task.Recovery? && (task.rpc.StopStale? || task.rpc.SpawnMonitor? || task.rpc.RecoveryUnlock? || task.rpc.DropLease?)
    ==> task.token != s.counter || !s.enabled
  }

  // ---------------------------------------------------------------- the invariant of the lock holder

  /** Why the operation stops the stream. */
  predicate Stopping(s: Shared, op: Op, next: Then) {
    match next
    case Finish => op.Stop? || (op == SetEnabled(false) && !s.enabled)
    case Restart => op.SelectDevice? && Asked(s, op)
    case Rewrite => op.UpdateConfig?
  }

  /** The operation is starting a stream. */
  predicate Beginning(s: Shared, op: Op) {
    (op.Start? || op.SelectDevice? || (op.UpdateConfig? && op.on)) && Asked(s, op)
  }

  predicate MadeFor(s: Shared, sid: Sid) {
    sid < |s.streams| && s.streams[sid].device == s.device
  }

  predicate UserOk(s: Shared, op: Op, pc: UserPc) {
    match pc
    case WaitLock => true
    case CancelLoad => !op.Stop? && !op.SetQuality? && Plays(s)
    case CancelCas(_) => !op.Stop? && !op.SetQuality? && Plays(s)
    case Body => !op.Stop? && !op.SetQuality? && !op.Start? && Plays(s)
    case StopCancelLoad(next) => Stopping(s, op, next) && (next.Restart? || Plays(s))
    case StopCancelCas(_, next) => Stopping(s, op, next) && (next.Restart? || Plays(s))
    case StopTake(next) => Stopping(s, op, next) && (next.Restart? || Plays(s))
    case StopWait(_, next) => Stopping(s, op, next) && s.slot.None?
    case WriteConfig => op.UpdateConfig? && !IsRunning(s)
    case StartCheck => Beginning(s, op) && Plays(s)
    case StartPick => Beginning(s, op) && s.enabled && !IsRunning(s)
    case StartWait(sid) => Beginning(s, op) && s.enabled && !IsRunning(s) && MadeFor(s, sid)
    case StartInstall(sid) => Beginning(s, op) && s.enabled && !IsRunning(s) && MadeFor(s, sid)
    case StartMonitor(sid) => Beginning(s, op) && s.slot == Some(sid) && Up(s)
    case BeginLoad => Beginning(s, op) && s.enabled && !IsRunning(s)
    case BeginCas(_) => Beginning(s, op) && s.enabled && !IsRunning(s)
    case Unlock(r) => Finished(s, op, r) && Plays(s)
  }

  /** A monitor that is done has found its streamer replaced, or a recovery is under way. */
  predicate MonitorOk(s: Shared, sid: Sid, pc: MonitorPc) {
    && Plays(s)
    && (pc.MonitorUnlock? && s.slot == Some(sid) ==> s.counter % 2 == 1 || !s.enabled)
  }

  predicate RecoveryOk(s: Shared, pc: RecoveryPc) {
    && Plays(s)
    && (pc.SetDevice? ==> s.enabled)
    && (pc.Install? ==> MadeFor(s, pc.sid))
    && (pc.FinishCas? ==> s.slot == Some(pc.sid) && Up(s))
    && (pc.SpawnMonitor? ==> s.slot == Some(pc.sid) && Up(s))
  }

  predicate HolderOk(s: Shared, task: Task) {
    match task
    case User(op, pc) => UserOk(s, op, pc)
    case Monitor(sid, pc) => MonitorOk(s, sid, pc)
    case Recovery(_, pc) => RecoveryOk(s, pc)
    case Ended => false
  }

  /** A streamer that its maker started and does not stop runs or has failed since. */
  predicate Live(s: Shared, task: Task) {
    Pending(task).Some? && !IsStarting(task) && !(task.Recovery? && task.rpc.StopStale?) ==>
      var sid := Pending(task).value;
      sid < |s.streams| && (s.streams[sid].state.Running? || s.streams[sid].state.Failed?)
  }

  ghost predicate Inv2(s: State) {
    && (forall t | 0 <= t < |s.tasks| :: Retired(s.sh, s.tasks[t]) && Live(s.sh, s.tasks[t]))
    && (match s.sh.lock
        case None => Plays(s.sh)
        case Some(t) => t < |s.tasks| && HolderOk(s.sh, s.tasks[t]))
  }

  // ---------------------------------------------------------------- steps of the holder

  /** After a step of the holder the invariant of the holder, or of the free lock, holds again. */
  ghost predicate Hands(t: Tid, m: Move) {
    if m.sh.lock == Some(t) then HolderOk(m.sh, m.task) else m.sh.lock.None? && Plays(m.sh)
  }

  lemma UserCancelHands(s: Shared, t: Tid, op: Op, pc: UserPc, ok: bool, found: Device, next: Tid)
    requires Ready(s, t, User(op, pc), next) && s.lock == Some(t) && UserOk(s, op, pc)
    requires pc.CancelLoad? || pc.CancelCas? || pc.Body?
    ensures Hands(t, UserMove(s, t, op, pc, ok, found))
  {
  }

  lemma UserStopHands(s: Shared, t: Tid, op: Op, pc: UserPc, ok: bool, found: Device, next: Tid)
    requires Ready(s, t, User(op, pc), next) && s.lock == Some(t) && UserOk(s, op, pc)
    requires pc.StopCancelLoad? || pc.StopCancelCas? || pc.StopTake? || pc.StopWait? || pc.WriteConfig?
    ensures Hands(t, UserMove(s, t, op, pc, ok, found))
  {
  }

  lemma UserStartHands(s: Shared, t: Tid, op: Op, pc: UserPc, ok: bool, found: Device, next: Tid)
    requires Ready(s, t, User(op, pc), next) && s.lock == Some(t) && UserOk(s, op, pc)
    requires pc.StartCheck? || pc.StartPick? || pc.StartWait?
    ensures Hands(t, UserMove(s, t, op, pc, ok, found))
  {
  }

  lemma UserEndHands(s: Shared, t: Tid, op: Op, pc: UserPc, ok: bool, found: Device, next: Tid)
    requires Ready(s, t, User(op, pc), next) && s.lock == Some(t) && UserOk(s, op, pc)
    requires Live(s, User(op, pc))
    requires pc.StartInstall? || pc.StartMonitor? || pc.BeginLoad? || pc.BeginCas? || pc.Unlock?
    ensures Hands(t, UserMove(s, t, op, pc, ok, found))
  {
  }

  lemma MonitorHands(s: Shared, t: Tid, sid: Sid, pc: MonitorPc, next: Tid)
    requires Ready(s, t, Monitor(sid, pc), next) && s.lock == Some(t) && MonitorOk(s, sid, pc)
    ensures Hands(t, MonitorMove(s, t, sid, pc))
  {
  }

  lemma RecoveryHands(s: Shared, t: Tid, g: nat, pc: RecoveryPc, ok: bool, found: Device, next: Tid)
    requires Ready(s, t, Recovery(g, pc), next) && s.lock == Some(t) && RecoveryOk(s, pc)
    requires Live(s, Recovery(g, pc))
    ensures Hands(t, RecoveryMove(s, t, g, pc, ok, found))
  {
  }

  lemma UserHands(s: Shared, t: Tid, op: Op, pc: UserPc, ok: bool, found: Device, next: Tid)
    requires Ready(s, t, User(op, pc), next) && s.lock == Some(t) && UserOk(s, op, pc) && Live(s, User(op, pc))
    ensures Hands(t, UserMove(s, t, op, pc, ok, found))
  {
    match pc {
      case CancelLoad | CancelCas(_) | Body => UserCancelHands(s, t, op, pc, ok, found, next);
      case StartCheck | StartPick | StartWait(_) => UserStartHands(s, t, op, pc, ok, found, next);
      case StartInstall(_) | StartMonitor(_) | BeginLoad | BeginCas(_) | Unlock(_) =>
        UserEndHands(s, t, op, pc, ok, found, next);
      case WaitLock => assert false;
      case _ => UserStopHands(s, t, op, pc, ok, found, next);
    }
  }

  lemma HolderHands(s: Shared, t: Tid, task: Task, ok: bool, found: Device, next: Tid)
    requires Ready(s, t, task, next) && s.lock == Some(t) && HolderOk(s, task) && Live(s, task)
    ensures Hands(t, TaskMove(s, t, task, ok, found))
  {
    match task
    case User(op, pc) => UserHands(s, t, op, pc, ok, found, next);
    case Monitor(sid, pc) => MonitorHands(s, t, sid, pc, next);
    case Recovery(g, pc) => RecoveryHands(s, t, g, pc, ok, found, next);
  }

  // ---------------------------------------------------------------- what a step does to the others

  /** The effects of a step of task `t` on what the others rely on. */
  ghost predicate Effects(s: Shared, r: Shared, t: Tid, task: Task) {
    && |s.streams| <= |r.streams| && s.counter <= r.counter
    && (forall i | 0 <= i < |s.streams| ::
          r.streams[i] == s.streams[i] || s.streams[i].owner == t || s.streams[i].installed)
    && (r.enabled != s.enabled ==> s.counter % 2 == 0)
    && (s.lock != Some(t) ==>
          && r.enabled == s.enabled && r.device == s.device && r.slot == s.slot
          && (forall i | 0 <= i < |s.streams| && s.streams[i].installed :: r.streams[i] == s.streams[i])
          && (r.counter != s.counter ==> task.Recovery? && task.rpc.DropLease? && task.token == s.counter))
  }

  lemma UserEffects(s: Shared, t: Tid, op: Op, pc: UserPc, ok: bool, found: Device, next: Tid)
    requires Ready(s, t, User(op, pc), next)
    ensures Effects(s, UserMove(s, t, op, pc, ok, found).sh, t, User(op, pc))
  {
  }

  lemma MonitorEffects(s: Shared, t: Tid, sid: Sid, pc: MonitorPc, next: Tid)
    requires Ready(s, t, Monitor(sid, pc), next)
    ensures Effects(s, MonitorMove(s, t, sid, pc).sh, t, Monitor(sid, pc))
  {
  }

  lemma RecoveryEffects(s: Shared, t: Tid, g: nat, pc: RecoveryPc, ok: bool, found: Device, next: Tid)
    requires Ready(s, t, Recovery(g, pc), next)
    ensures Effects(s, RecoveryMove(s, t, g, pc, ok, found).sh, t, Recovery(g, pc))
  {
  }

  lemma TaskEffects(s: Shared, t: Tid, task: Task, ok: bool, found: Device, next: Tid)
    requires Ready(s, t, task, next)
    ensures Effects(s, TaskMove(s, t, task, ok, found).sh, t, task)
  {
    match task
    case Ended =>
    case User(op, pc) => UserEffects(s, t, op, pc, ok, found, next);
    case Monitor(sid, pc) => MonitorEffects(s, t, sid, pc, next);
    case Recovery(g, pc) => RecoveryEffects(s, t, g, pc, ok, found, next);
  }

  /** What another task relies on survives the step. */
  lemma OtherRetired(s: Shared, r: Shared, t: Tid, task: Task, u: Tid, other: Task)
    requires Effects(s, r, t, task) && u != t && TaskOk(s, u, other)
    requires Retired(s, other) && Live(s, other)
    ensures Retired(r, other) && Live(r, other)
  {
  }

  lemma OtherHolds(s: Shared, r: Shared, t: Tid, task: Task, u: Tid, other: Task)
    requires Effects(s, r, t, task) && u != t && TaskOk(s, u, other) && SlotOk(s)
    requires s.lock == Some(u) && HolderOk(s, other) && Retired(s, task) && TaskOk(s, t, task)
    ensures HolderOk(r, other)
  {
    assert r.counter != s.counter ==> !s.enabled;
    assert IsRunning(r) <==> IsRunning(s);
    if other.User? {
      UserHolds(s, r, u, other.op, other.pc);
    }
  }

  lemma UserHolds(s: Shared, r: Shared, u: Tid, op: Op, pc: UserPc)
    requires TaskOk(s, u, User(op, pc)) && SlotOk(s) && UserOk(s, op, pc)
    requires r.enabled == s.enabled && r.device == s.device && r.slot == s.slot && |s.streams| <= |r.streams|
    requires forall i | 0 <= i < |s.streams| && (s.streams[i].installed || s.streams[i].owner == u) ::
               r.streams[i] == s.streams[i]
    requires r.counter != s.counter ==> !s.enabled
    ensures UserOk(r, op, pc)
  {
  }

  /** A recovery that holds the current token, and is not finishing a commit, sees no running streamer. */
  lemma CurrentSeesNothing(s: State, t: Tid)
    requires Inv(s) && t < |s.tasks| && s.tasks[t].Recovery? && !s.tasks[t].rpc.FinishCas?
    requires s.tasks[t].token == s.sh.counter
    ensures !IsRunning(s.sh)
  {
    assert TaskOk(s.sh, t, s.tasks[t]);
    if s.sh.lock.Some? {
      assert TaskOk(s.sh, s.sh.lock.value, s.tasks[s.sh.lock.value]);
    }
  }

  /** The stepping task itself. */
  ghost predicate StaysHonest(m: Move) {
    && Retired(m.sh, m.task) && Live(m.sh, m.task)
    && (m.spawned.Some? ==> Retired(m.sh, m.spawned.value) && Live(m.sh, m.spawned.value))
  }

  lemma UserHonest(s: Shared, t: Tid, op: Op, pc: UserPc, ok: bool, found: Device, next: Tid)
    requires Ready(s, t, User(op, pc), next)
    ensures StaysHonest(UserMove(s, t, op, pc, ok, found))
  {
  }

  lemma RecoveryHonest(s: Shared, t: Tid, g: nat, pc: RecoveryPc, ok: bool, found: Device, next: Tid)
    requires Ready(s, t, Recovery(g, pc), next) && Retired(s, Recovery(g, pc)) && Live(s, Recovery(g, pc))
    requires !pc.FinishCas? && g == s.counter ==> !IsRunning(s)
    ensures StaysHonest(RecoveryMove(s, t, g, pc, ok, found))
  {
  }

  lemma TaskHonest(s: Shared, t: Tid, task: Task, ok: bool, found: Device, next: Tid)
    requires Ready(s, t, task, next) && Retired(s, task) && Live(s, task)
    requires task.Recovery? && !task.rpc.FinishCas? && task.token == s.counter ==> !IsRunning(s)
    ensures StaysHonest(TaskMove(s, t, task, ok, found))
  {
    match task
    case User(op, pc) => UserHonest(s, t, op, pc, ok, found, next);
    case Recovery(g, pc) => RecoveryHonest(s, t, g, pc, ok, found, next);
    case _ =>
  }

  // ---------------------------------------------------------------- every run keeps it

  /** A task takes the lock, or leaves it alone, while it is free. */
  lemma FreeHands(s: Shared, t: Tid, task: Task, ok: bool, found: Device, next: Tid)
    requires Ready(s, t, task, next) && s.lock.None? && Plays(s)
    ensures var m := TaskMove(s, t, task, ok, found);
            Plays(m.sh) && (m.sh.lock.None? || (m.sh.lock == Some(t) && HolderOk(m.sh, m.task)))
  {
    TaskEffects(s, t, task, ok, found, next);
  }

  lemma AdvanceKeepsInv2(s: State, t: Tid, ok: bool, found: Device)
    requires Inv(s) && Inv2(s) && t < |s.tasks|
    ensures Inv2(Step(s, Advance(t, ok, found)))
  {
    var task, next := s.tasks[t], |s.tasks|;
    var m := TaskMove(s.sh, t, task, ok, found);
    var r := Step(s, Advance(t, ok, found));
    AdvanceKeepsInv(s, t, ok, found);
    assert TaskOk(s.sh, t, task);
    if task.Recovery? && !task.rpc.FinishCas? && task.token == s.sh.counter {
      CurrentSeesNothing(s, t);
    }
    TaskHonest(s.sh, t, task, ok, found, next);
    TaskEffects(s.sh, t, task, ok, found, next);
    OthersHonest(s, t, m);
    LockStep(s, t, ok, found);
  }

  lemma OthersHonest(s: State, t: Tid, m: Move)
    requires Inv(s) && Inv2(s) && t < |s.tasks| && Effects(s.sh, m.sh, t, s.tasks[t]) && StaysHonest(m)
    ensures var r := Apply(s, t, m);
            forall u | 0 <= u < |r.tasks| :: Retired(r.sh, r.tasks[u]) && Live(r.sh, r.tasks[u])
  {
    var r := Apply(s, t, m);
    forall u | 0 <= u < |r.tasks| ensures Retired(r.sh, r.tasks[u]) && Live(r.sh, r.tasks[u]) {
      if u < |s.tasks| && u != t {
        assert TaskOk(s.sh, u, s.tasks[u]);
        OtherRetired(s.sh, m.sh, t, s.tasks[t], u, s.tasks[u]);
      }
    }
  }

  lemma LockStep(s: State, t: Tid, ok: bool, found: Device)
    requires Inv(s) && Inv2(s) && t < |s.tasks|
    ensures var r := Step(s, Advance(t, ok, found));
            match r.sh.lock
            case None => Plays(r.sh)
            case Some(u) => u < |r.tasks| && HolderOk(r.sh, r.tasks[u])
  {
    var task, next := s.tasks[t], |s.tasks|;
    var m := TaskMove(s.sh, t, task, ok, found);
    assert TaskOk(s.sh, t, task);
    AdvanceKeepsInv(s, t, ok, found);
    if s.sh.lock.None? {
      FreeHands(s.sh, t, task, ok, found, next);
    } else if s.sh.lock == Some(t) {
      HolderHands(s.sh, t, task, ok, found, next);
    } else {
      var u := s.sh.lock.value;
      assert TaskOk(s.sh, u, s.tasks[u]);
      TaskEffects(s.sh, t, task, ok, found, next);
      OtherHolds(s.sh, m.sh, t, task, u, s.tasks[u]);
    }
  }

  lemma StreamKeepsInv2(s: State, e: Event)
    requires Inv(s) && Inv2(s) && (e.StreamFails? || e.StreamEnds?)
    ensures Inv2(Step(s, e))
  {
    var r := Step(s, e);
    forall u | 0 <= u < |s.tasks| ensures Retired(r.sh, s.tasks[u]) && Live(r.sh, s.tasks[u]) {
      assert TaskOk(s.sh, u, s.tasks[u]);
      StreamLive(s, e, u);
    }
    if s.sh.lock.Some? {
      StreamHolds(s, e, s.sh.lock.value);
    }
  }

  lemma StreamLive(s: State, e: Event, u: Tid)
    requires Inv(s) && Inv2(s) && (e.StreamFails? || e.StreamEnds?) && u < |s.tasks|
    ensures Live(Step(s, e).sh, s.tasks[u])
  {
    assert TaskOk(s.sh, u, s.tasks[u]);
    if s.sh.lock.Some? {
      assert TaskOk(s.sh, s.sh.lock.value, s.tasks[s.sh.lock.value]);
    }
  }

  lemma StreamHolds(s: State, e: Event, u: Tid)
    requires Inv(s) && Inv2(s) && (e.StreamFails? || e.StreamEnds?) && s.sh.lock == Some(u)
    ensures HolderOk(Step(s, e).sh, s.tasks[u])
  {
    var task := s.tasks[u];
    assert TaskOk(s.sh, u, task);
    StreamChange(s, e, u);
    HolderSeesFailure(s.sh, Step(s, e).sh, u, task);
  }

  /** What an ending stream leaves alone, seen by the holder of the lock. */
  ghost predicate Ends(s: Shared, r: Shared) {
    && r == s.(streams := r.streams) && |r.streams| == |s.streams|
    && (forall i | 0 <= i < |s.streams| :: r.streams[i].device == s.streams[i].device
                                          && (r.streams[i].state == s.streams[i].state || !r.streams[i].state.Running?))
    && (s.slot.Some? && s.slot.value < |s.streams| && s.streams[s.slot.value].state.Running? ==>
          r.streams[s.slot.value].state.Running? || r.streams[s.slot.value].state.Failed?)
    && (s.slot.Some? && s.slot.value < |s.streams| && s.streams[s.slot.value].state.Failed? ==>
          r.streams[s.slot.value].state.Failed?)
  }

  lemma StreamChange(s: State, e: Event, u: Tid)
    requires Inv(s) && Inv2(s) && (e.StreamFails? || e.StreamEnds?) && s.sh.lock == Some(u)
    ensures Ends(s.sh, Step(s, e).sh)
  {
    assert TaskOk(s.sh, u, s.tasks[u]);
  }

  lemma HolderSeesFailure(s: Shared, r: Shared, u: Tid, task: Task)
    requires Ends(s, r) && HolderOk(s, task)
    ensures HolderOk(r, task)
  {
  }

  lemma StepKeepsInv2(s: State, e: Event)
    requires Inv(s) && Inv2(s)
    ensures Inv2(Step(s, e))
  {
    match e
    case Advance(t, ok, found) => if t < |s.tasks| { AdvanceKeepsInv2(s, t, ok, found); }
    case Spawn(op) =>
    case StreamFails(_) | StreamEnds(_) => StreamKeepsInv2(s, e);
  }

  lemma {:induction false} RunKeepsInv2(s: State, events: seq<Event>)
    requires Inv(s) && Inv2(s)
    ensures Inv(Run(s, events)) && Inv2(Run(s, events))
    decreases |events|
  {
    if events != [] {
      StepKeepsInv(s, events[0]);
      StepKeepsInv2(s, events[0]);
      RunKeepsInv2(Step(s, events[0]), events[1..]);
    }
  }

  // ---------------------------------------------------------------- main results

  /** In every reachable state an operation about to return has done what it was asked: on the installed streamer,
      the configuration and the recovery. */
  lemma OperationResult(s: State, events: seq<Event>, t: Tid, op: Op, r: Result)
    requires Init(s)
    requires var m := Run(s, events); t < |m.tasks| && m.tasks[t] == User(op, Unlock(r))
    ensures Finished(Run(s, events).sh, op, r)
  {
    RunKeepsInv2(s, events);
    assert TaskOk(Run(s, events).sh, t, Run(s, events).tasks[t]);
  }

  /** Whenever no operation is under way, what is running is the configured device. */
  lemma ConfiguredDevicePlays(s: State, events: seq<Event>)
    requires Init(s) && Run(s, events).sh.lock.None?
    ensures Plays(Run(s, events).sh)
  {
    RunKeepsInv2(s, events);
  }

  /** A monitor that has seen its streamer fail lets go of the lock only if the streamer was replaced, a recovery is
      under way, or audio is disabled. */
  lemma MonitorResult(s: State, events: seq<Event>, t: Tid, sid: Sid)
    requires Init(s)
    requires var m := Run(s, events); t < |m.tasks| && m.tasks[t] == Monitor(sid, MonitorUnlock)
    ensures var m := Run(s, events).sh; m.slot == Some(sid) ==> m.counter % 2 == 1 || !m.enabled
  {
    RunKeepsInv2(s, events);
    assert TaskOk(Run(s, events).sh, t, Run(s, events).tasks[t]);
  }

  /** A recovery that is current does not give up while audio is enabled. */
  lemma CurrentRecoveryGoesOn(s: State, events: seq<Event>, t: Tid)
    requires Init(s)
    requires var m := Run(s, events); t < |m.tasks| && m.tasks[t].Recovery? && m.tasks[t].token == m.sh.counter
    ensures var m := Run(s, events);
            m.sh.enabled ==> var pc := m.tasks[t].rpc; !pc.StopStale? && !pc.RecoveryUnlock? && !pc.DropLease?
  {
    RunKeepsInv2(s, events);
  }

  // ---------------------------------------------------------------- a restart replaces the stream

  /** While SelectDevice holds the lock: something is installed, or the stream is between its stop and its start. */
  predicate Replacing(s: Shared, pc: UserPc) {
    || s.slot.Some?
    || (pc.StopWait? && pc.next.Restart?) || pc.StartCheck? || pc.StartPick? || pc.StartWait? || pc.StartInstall?
    || pc.BeginLoad? || pc.BeginCas?
    || (pc == Unlock(Err) && Started(s, Err))
  }

  ghost predicate SelectUnderWay(s: State, t: Tid, d: Device) {
    && t < |s.tasks| && s.sh.lock == Some(t) && s.tasks[t].User? && s.tasks[t].op == SelectDevice(d)
    && Replacing(s.sh, s.tasks[t].pc)
  }

  lemma SelectMoves(s: Shared, t: Tid, d: Device, pc: UserPc, ok: bool, found: Device, next: Tid)
    requires Ready(s, t, User(SelectDevice(d), pc), next) && s.lock == Some(t) && UserOk(s, SelectDevice(d), pc)
    requires Replacing(s, pc)
    ensures var m := UserMove(s, t, SelectDevice(d), pc, ok, found);
            m.task.Ended? || (m.task.User? && m.task.op == SelectDevice(d) && Replacing(m.sh, m.task.pc))
  {
  }

  lemma SelectStays(s: State, t: Tid, d: Device, e: Event)
    requires Inv(s) && Inv2(s) && SelectUnderWay(s, t, d)
    requires t < |Step(s, e).tasks| && !Step(s, e).tasks[t].Ended?
    ensures SelectUnderWay(Step(s, e), t, d)
  {
    match e
    case Advance(u, ok, found) =>
      if u == t {
        SelectSteps(s, t, d, ok, found);
      } else if u < |s.tasks| {
        OtherLeavesSelect(s, t, d, u, ok, found);
      }
    case Spawn(_) =>
    case StreamFails(_) | StreamEnds(_) =>
      StreamChange(s, e, t);
      ReplacingStays(s.sh, Step(s, e).sh, s.tasks[t].pc);
  }

  lemma SelectSteps(s: State, t: Tid, d: Device, ok: bool, found: Device)
    requires Inv(s) && Inv2(s) && SelectUnderWay(s, t, d) && !Step(s, Advance(t, ok, found)).tasks[t].Ended?
    ensures SelectUnderWay(Step(s, Advance(t, ok, found)), t, d)
  {
    var r := Step(s, Advance(t, ok, found));
    assert TaskOk(s.sh, t, s.tasks[t]);
    SelectMoves(s.sh, t, d, s.tasks[t].pc, ok, found, |s.tasks|);
    AdvanceKeepsInv(s, t, ok, found);
    assert TaskOk(r.sh, t, r.tasks[t]);
  }

  lemma OtherLeavesSelect(s: State, t: Tid, d: Device, u: Tid, ok: bool, found: Device)
    requires Inv(s) && Inv2(s) && SelectUnderWay(s, t, d) && u < |s.tasks| && u != t
    ensures SelectUnderWay(Step(s, Advance(u, ok, found)), t, d)
  {
    var m := TaskMove(s.sh, u, s.tasks[u], ok, found);
    assert TaskOk(s.sh, u, s.tasks[u]);
    AdvanceKeepsInv(s, u, ok, found);
    TaskEffects(s.sh, u, s.tasks[u], ok, found, |s.tasks|);
    assert Retired(s.sh, s.tasks[u]);
    ReplacingStays(s.sh, m.sh, s.tasks[t].pc);
  }

  lemma ReplacingStays(s: Shared, r: Shared, pc: UserPc)
    requires Replacing(s, pc) && r.slot == s.slot && r.enabled == s.enabled && SlotOk(s)
    requires r.counter != s.counter ==> !s.enabled
    requires IsRunning(r) ==> IsRunning(s)
    ensures Replacing(r, pc)
  {
  }

  lemma {:induction false} SelectRun(s: State, t: Tid, d: Device, events: seq<Event>)
    requires Inv(s) && Inv2(s) && SelectUnderWay(s, t, d)
    requires t < |Run(s, events).tasks| && !Run(s, events).tasks[t].Ended?
    ensures SelectUnderWay(Run(s, events), t, d)
    decreases |events|
  {
    if events != [] {
      var e, next := events[0], Step(s, events[0]);
      StepKeepsInv(s, e);
      StepKeepsInv2(s, e);
      StepIsMonotone(s, e);
      EndedStays(next, t, events[1..]);
      SelectStays(s, t, d, e);
      SelectRun(next, t, d, events[1..]);
    }
  }

  lemma {:induction false} EndedStays(s: State, t: Tid, events: seq<Event>)
    requires t < |s.tasks|
    ensures t < |Run(s, events).tasks| && (s.tasks[t].Ended? ==> Run(s, events).tasks[t].Ended?)
    decreases |events|
  {
    if events != [] {
      EndedStays(Step(s, events[0]), t, events[1..]);
    }
  }

  /** When a device is selected while a streamer is installed, a streamer is installed afterwards too: the restart
      that follows the stop ends like any start, so an empty slot means that it failed and left a recovery under way,
      or that audio is disabled. */
  lemma SelectReplacesTheStream(s: State, before: seq<Event>, t: Tid, d: Device, during: seq<Event>, r: Result)
    requires Init(s)
    requires var m := Run(s, before);
             t < |m.tasks| && m.tasks[t] == User(SelectDevice(d), CancelLoad) && m.sh.slot.Some?
    requires var n := Run(Run(s, before), during); t < |n.tasks| && n.tasks[t] == User(SelectDevice(d), Unlock(r))
    ensures var n := Run(Run(s, before), during).sh; n.slot.Some? || (r.Err? && Started(n, r))
  {
    RunKeepsInv2(s, before);
    var m := Run(s, before);
    assert TaskOk(m.sh, t, m.tasks[t]);
    SelectRun(m, t, d, during);
  }

  // ---------------------------------------------------------------- operations end

  function Alone(t: Tid, choices: seq<(bool, Device)>): seq<Event> {
    if choices == [] then [] else [Advance(t, choices[0].0, choices[0].1)] + Alone(t, choices[1..])
  }

  const LONGEST: nat := 20

  function Rank(pc: UserPc): (n: nat)
    ensures 0 < n <= LONGEST
  {
    match pc
    case WaitLock => 20
    case CancelLoad => 19
    case CancelCas(_) => 18
    case Body => 17
    case StopCancelLoad(_) => 16
    case StopCancelCas(_, _) => 15
    case StopTake(_) => 14
    case StopWait(_, _) => 13
    case WriteConfig => 12
    case StartCheck => 11
    case StartPick => 10
    case StartWait(_) => 9
    case StartInstall(_) => 8
    case StartMonitor(_) => 7
    case BeginLoad => 6
    case BeginCas(_) => 5
    case Unlock(_) => 4
  }

  lemma RankDrops(s: Shared, t: Tid, op: Op, pc: UserPc, ok: bool, found: Device)
    requires pc.WaitLock? ==> s.lock.None?
    ensures var task := UserMove(s, t, op, pc, ok, found).task;
            task.Ended? || (task.User? && !task.pc.WaitLock? && Rank(task.pc) < Rank(pc))
  {
  }

  lemma {:induction false} EndsWithin(s: State, t: Tid, choices: seq<(bool, Device)>)
    requires t < |s.tasks| && s.tasks[t].User? && (s.tasks[t].pc.WaitLock? ==> s.sh.lock.None?)
    requires |choices| >= Rank(s.tasks[t].pc)
    ensures var n := Run(s, Alone(t, choices)); t < |n.tasks| && n.tasks[t].Ended?
    decreases |choices|
  {
    var next := Step(s, Advance(t, choices[0].0, choices[0].1));
    RankDrops(s.sh, t, s.tasks[t].op, s.tasks[t].pc, choices[0].0, choices[0].1);
    assert Alone(t, choices)[1..] == Alone(t, choices[1..]);
    if next.tasks[t].Ended? {
      EndedStays(next, t, Alone(t, choices[1..]));
    } else {
      EndsWithin(next, t, choices[1..]);
    }
  }

  /** An operation that has the lock, or finds it free, returns within twenty of its steps, whatever they answer. */
  lemma OperationEnds(s: State, t: Tid, choices: seq<(bool, Device)>)
    requires t < |s.tasks| && s.tasks[t].User? && (s.tasks[t].pc.WaitLock? ==> s.sh.lock.None?)
    requires |choices| >= LONGEST
    ensures var n := Run(s, Alone(t, choices)); t < |n.tasks| && n.tasks[t].Ended?
  {
    EndsWithin(s, t, choices);
  }

  // ---------------------------------------------------------------- a recovery succeeds

  /** A working attempt: every call succeeds and finds device `d`. */
  function Attempt(t: Tid, d: Device, n: nat): seq<Event> {
    if n == 0 then [] else [Advance(t, true, d)] + Attempt(t, d, n - 1)
  }

  lemma AttemptStep(s: State, t: Tid, d: Device, n: nat)
    requires n > 0
    ensures Run(s, Attempt(t, d, n)) == Run(Step(s, Advance(t, true, d)), Attempt(t, d, n - 1))
  {
    assert Attempt(t, d, n)[1..] == Attempt(t, d, n - 1);
  }

  function At(s: State, t: Tid, sh: Shared, task: Task): State
    requires t < |s.tasks|
  {
    State(sh, s.tasks[t := task])
  }

  /** One step of a working attempt that spawns nothing. */
  lemma AtStep(s: State, t: Tid, d: Device, n: nat, sh: Shared, task: Task, sh': Shared, task': Task)
    requires t < |s.tasks| && n > 0 && TaskMove(sh, t, task, true, d) == Go(sh', task')
    ensures Run(At(s, t, sh, task), Attempt(t, d, n)) == Run(At(s, t, sh', task'), Attempt(t, d, n - 1))
  {
    var a := At(s, t, sh, task);
    AttemptStep(a, t, d, n);
    assert a.tasks[t := task'] + [] == s.tasks[t := task'];
  }

  lemma AttemptStarts(s: State, t: Tid, d: Device, g: nat, sh: Shared, n: nat)
    requires t < |s.tasks| && sh.counter == g && sh.enabled && !IsRunning(sh) && n >= 5
    ensures var up := sh.(streams := sh.streams + [Streamer(Running, t, d, true, false)]);
            Run(At(s, t, sh, Recovery(g, LoopTop)), Attempt(t, d, n)) ==
            Run(At(s, t, up, Recovery(g, RecoveryLock(|sh.streams|))), Attempt(t, d, n - 5))
  {
    var sid := |sh.streams|;
    var made := NewStream(sh, t, d);
    AtStep(s, t, d, n, sh, Recovery(g, LoopTop), sh, Recovery(g, ReadConfig));
    AtStep(s, t, d, n - 1, sh, Recovery(g, ReadConfig), sh, Recovery(g, ReadSlot));
    AtStep(s, t, d, n - 2, sh, Recovery(g, ReadSlot), sh, Recovery(g, Retry));
    AtStep(s, t, d, n - 3, sh, Recovery(g, Retry), made, Recovery(g, RecoveryStart(sid)));
    StartsRunning(sh, made, t, d);
    AtStep(s, t, d, n - 4, made, Recovery(g, RecoveryStart(sid)), StartResult(made, sid, true),
           Recovery(g, RecoveryLock(sid)));
  }

  lemma StartsRunning(s: Shared, made: Shared, t: Tid, d: Device)
    requires made == s.(streams := s.streams + [Streamer(Starting, t, d, false, false)])
    ensures StartResult(made, |s.streams|, true) == s.(streams := s.streams + [Streamer(Running, t, d, true, false)])
  {
  }

  /** The commit of a started streamer `sid` of task `t`, up to its installation. */
  lemma AttemptInstalls(s: State, t: Tid, d: Device, g: nat, sh: Shared, sid: Sid, n: nat)
    requires t < |s.tasks| && sh.lock.None? && sh.counter == g && sh.enabled && sid < |sh.streams| && n >= 4
    ensures var held := sh.(lock := Some(t), device := sh.streams[sid].device);
            Run(At(s, t, sh, Recovery(g, RecoveryLock(sid))), Attempt(t, d, n)) ==
            Run(At(s, t, Put(held, sid), Recovery(g, FinishCas(sid))), Attempt(t, d, n - 4))
  {
    var held := sh.(lock := Some(t));
    var named := held.(device := sh.streams[sid].device);
    AtStep(s, t, d, n, sh, Recovery(g, RecoveryLock(sid)), held, Recovery(g, Recheck(sid)));
    AtStep(s, t, d, n - 1, held, Recovery(g, Recheck(sid)), held, Recovery(g, SetDevice(sid)));
    AtStep(s, t, d, n - 2, held, Recovery(g, SetDevice(sid)), named, Recovery(g, Install(sid)));
    AtStep(s, t, d, n - 3, named, Recovery(g, Install(sid)), Put(named, sid), Recovery(g, FinishCas(sid)));
  }

  lemma AttemptFinishes(s: State, t: Tid, d: Device, g: nat, sh: Shared, sid: Sid)
    requires t < |s.tasks| && sh.lock == Some(t) && sh.counter == g
    ensures Run(At(s, t, sh, Recovery(g, FinishCas(sid))), Attempt(t, d, 4)) ==
            State(sh.(lock := None, counter := g + 1), s.tasks[t := Ended] + [Monitor(sid, Watch)])
  {
    var done := sh.(counter := g + 1);
    AtStep(s, t, d, 4, sh, Recovery(g, FinishCas(sid)), done, Recovery(g, SpawnMonitor(sid)));
    var watched := State(s.sh, s.tasks + [Monitor(sid, Watch)]);
    MonitorSpawned(s, t, d, g, done, sid);
    LeaseDropped(watched, t, d, g, done);
    assert watched.tasks[t := Ended] == s.tasks[t := Ended] + [Monitor(sid, Watch)];
  }

  lemma LeaseDropped(s: State, t: Tid, d: Device, g: nat, sh: Shared)
    requires t < |s.tasks| && sh.counter != g
    ensures Run(At(s, t, sh, Recovery(g, RecoveryUnlock)), Attempt(t, d, 2)) == At(s, t, sh.(lock := None), Ended)
  {
    var free := sh.(lock := None);
    AtStep(s, t, d, 2, sh, Recovery(g, RecoveryUnlock), free, Recovery(g, DropLease));
    AtStep(s, t, d, 1, free, Recovery(g, DropLease), free, Ended);
  }

  lemma MonitorSpawned(s: State, t: Tid, d: Device, g: nat, sh: Shared, sid: Sid)
    requires t < |s.tasks|
    ensures var watched := State(s.sh, s.tasks + [Monitor(sid, Watch)]);
            Run(At(s, t, sh, Recovery(g, SpawnMonitor(sid))), Attempt(t, d, 3)) ==
            Run(At(watched, t, sh, Recovery(g, RecoveryUnlock)), Attempt(t, d, 2))
  {
    var a := At(s, t, sh, Recovery(g, SpawnMonitor(sid)));
    var watched := State(s.sh, s.tasks + [Monitor(sid, Watch)]);
    AttemptStep(a, t, d, 3);
    assert a.tasks[t := Recovery(g, RecoveryUnlock)] + [Monitor(sid, Watch)] ==
           watched.tasks[t := Recovery(g, RecoveryUnlock)];
  }

  /** A current recovery whose next attempt works, with the lock free and audio enabled, installs a running streamer
      of the device it found, writes that device to the configuration, ends its generation, starts a monitor and
      returns. */
  lemma RecoverySucceeds(s: State, events: seq<Event>, t: Tid, d: Device, g: nat)
    requires Init(s)
    requires var m := Run(s, events);
             && t < |m.tasks| && m.tasks[t] == Recovery(g, LoopTop) && m.sh.counter == g && m.sh.enabled
             && m.sh.lock.None?
    ensures var m := Run(s, events);
            var sid := |m.sh.streams|;
            Run(m, Attempt(t, d, 13)) ==
              State(Shared(g + 1, None, true, d, Some(sid), m.sh.streams + [Streamer(Running, t, d, true, true)]),
                    m.tasks[t := Ended] + [Monitor(sid, Watch)])
  {
    ReachableInv(s, events);
    CurrentSeesNothing(Run(s, events), t);
    AttemptWorks(Run(s, events), t, d, g);
  }

  lemma AttemptWorks(m: State, t: Tid, d: Device, g: nat)
    requires t < |m.tasks| && m.tasks[t] == Recovery(g, LoopTop) && m.sh.counter == g && m.sh.enabled
    requires m.sh.lock.None? && !IsRunning(m.sh)
    ensures Run(m, Attempt(t, d, 13)) ==
              State(Shared(g + 1, None, true, d, Some(|m.sh.streams|),
                           m.sh.streams + [Streamer(Running, t, d, true, true)]),
                    m.tasks[t := Ended] + [Monitor(|m.sh.streams|, Watch)])
  {
    var sid := |m.sh.streams|;
    assert m == At(m, t, m.sh, Recovery(g, LoopTop));
    AttemptStarts(m, t, d, g, m.sh, 13);
    var up := m.sh.(streams := m.sh.streams + [Streamer(Running, t, d, true, false)]);
    AttemptInstalls(m, t, d, g, up, sid, 8);
    PutRunning(m.sh, up.(lock := Some(t), device := d), t, d);
    AttemptFinishes(m, t, d, g, Put(up.(lock := Some(t), device := d), sid), sid);
  }

  lemma PutRunning(s: Shared, up: Shared, t: Tid, d: Device)
    requires up.streams == s.streams + [Streamer(Running, t, d, true, false)]
    ensures Put(up, |s.streams|) ==
            up.(slot := Some(|s.streams|), streams := s.streams + [Streamer(Running, t, d, true, true)])
  {
  }

  // ---------------------------------------------------------------- every stream is watched

  /** The task is about to start the monitor of the streamer. */
  predicate StartsMonitor(task: Task, sid: Sid) {
    || (task.User? && task.pc == StartMonitor(sid))
    || (task.Recovery? && (task.rpc == FinishCas(sid) || task.rpc == SpawnMonitor(sid)))
  }

  /** A monitor waits for the streamer's end, or the holder of the lock is about to start one. */
  ghost predicate WatchedBy(s: State, sid: Sid) {
    || (exists t | 0 <= t < |s.tasks| :: s.tasks[t] == Monitor(sid, Watch))
    || (s.sh.lock.Some? && s.sh.lock.value < |s.tasks| && StartsMonitor(s.tasks[s.sh.lock.value], sid))
  }

  predicate IsPlaying(s: Shared, sid: Sid) {
    sid < |s.streams| && s.streams[sid].installed && s.streams[sid].state.Running?
  }

  ghost predicate AllWatched(s: State) {
    forall sid: Sid | IsPlaying(s.sh, sid) :: WatchedBy(s, sid)
  }

  /** What a step of task `t` does about the monitor of one playing streamer. */
  ghost predicate Watches(s: Shared, t: Tid, task: Task, m: Move, sid: Sid) {
    IsPlaying(m.sh, sid) ==>
      && (!IsPlaying(s, sid) ==> m.sh.lock == Some(t) && StartsMonitor(m.task, sid))
      && (IsPlaying(s, sid) && task == Monitor(sid, Watch) ==> m.task == task)
      && (IsPlaying(s, sid) && StartsMonitor(task, sid) ==>
            m.spawned == Some(Monitor(sid, Watch)) || (m.sh.lock == Some(t) && StartsMonitor(m.task, sid)))
  }

  lemma UserWatches(s: Shared, t: Tid, op: Op, pc: UserPc, ok: bool, found: Device, next: Tid, sid: Sid)
    requires Ready(s, t, User(op, pc), next)
    ensures Watches(s, t, User(op, pc), UserMove(s, t, op, pc, ok, found), sid)
  {
  }

  lemma MonitorWatches(s: Shared, t: Tid, w: Sid, pc: MonitorPc, next: Tid, sid: Sid)
    requires Ready(s, t, Monitor(w, pc), next)
    ensures Watches(s, t, Monitor(w, pc), MonitorMove(s, t, w, pc), sid)
  {
  }

  lemma RecoveryWatches(s: Shared, t: Tid, g: nat, pc: RecoveryPc, ok: bool, found: Device, next: Tid, sid: Sid)
    requires Ready(s, t, Recovery(g, pc), next)
    ensures Watches(s, t, Recovery(g, pc), RecoveryMove(s, t, g, pc, ok, found), sid)
  {
  }

  lemma TaskWatches(s: Shared, t: Tid, task: Task, ok: bool, found: Device, next: Tid, sid: Sid)
    requires Ready(s, t, task, next)
    ensures Watches(s, t, task, TaskMove(s, t, task, ok, found), sid)
  {
    match task
    case Ended =>
    case User(op, pc) => UserWatches(s, t, op, pc, ok, found, next, sid);
    case Monitor(w, pc) => MonitorWatches(s, t, w, pc, next, sid);
    case Recovery(g, pc) => RecoveryWatches(s, t, g, pc, ok, found, next, sid);
  }

  lemma MoveKeepsWatched(s: State, t: Tid, m: Move, sid: Sid)
    requires t < |s.tasks| && AllWatched(s) && Watches(s.sh, t, s.tasks[t], m, sid) && IsPlaying(m.sh, sid)
    requires m.sh.lock == s.sh.lock || s.sh.lock.None? || s.sh.lock == Some(t)
    ensures WatchedBy(Apply(s, t, m), sid)
  {
    var r := Apply(s, t, m);
    assert r.tasks[t] == m.task;
    assert m.spawned.Some? ==> r.tasks[|s.tasks|] == m.spawned.value;
    if IsPlaying(s.sh, sid) {
      assert WatchedBy(s, sid);
      if u :| 0 <= u < |s.tasks| && s.tasks[u] == Monitor(sid, Watch) {
        assert r.tasks[u] == Monitor(sid, Watch);
      } else {
        var u := s.sh.lock.value;
        assert u != t ==> r.tasks[u] == s.tasks[u];
      }
    }
  }

  lemma StepKeepsWatched(s: State, e: Event)
    requires Inv(s) && AllWatched(s)
    ensures AllWatched(Step(s, e))
  {
    var r := Step(s, e);
    forall sid: Sid | IsPlaying(r.sh, sid) ensures WatchedBy(r, sid) {
      if e.Advance? && e.tid < |s.tasks| {
        var m := TaskMove(s.sh, e.tid, s.tasks[e.tid], e.ok, e.found);
        AdvanceKeepsInv(s, e.tid, e.ok, e.found);
        assert TaskOk(s.sh, e.tid, s.tasks[e.tid]);
        TaskWatches(s.sh, e.tid, s.tasks[e.tid], e.ok, e.found, |s.tasks|, sid);
        MoveKeepsWatched(s, e.tid, m, sid);
      } else {
        assert WatchedBy(s, sid);
        MoreTasksWatch(s, r, sid);
      }
    }
  }

  lemma MoreTasksWatch(s: State, r: State, sid: Sid)
    requires WatchedBy(s, sid) && s.tasks <= r.tasks && r.sh.lock == s.sh.lock
    ensures WatchedBy(r, sid)
  {
    if u :| 0 <= u < |s.tasks| && s.tasks[u] == Monitor(sid, Watch) {
      assert r.tasks[u] == Monitor(sid, Watch);
    }
  }

  lemma {:induction false} RunKeepsWatched(s: State, events: seq<Event>)
    requires Inv(s) && AllWatched(s)
    ensures AllWatched(Run(s, events))
    decreases |events|
  {
    if events != [] {
      StepKeepsInv(s, events[0]);
      StepKeepsWatched(s, events[0]);
      RunKeepsWatched(Step(s, events[0]), events[1..]);
    }
  }

  /** In every reachable state with the lock free, a running installed streamer has a monitor that waits for its
      end. */
  lemma RunningStreamersAreWatched(s: State, events: seq<Event>, sid: Sid)
    requires Init(s)
    requires var m := Run(s, events).sh;
             m.lock.None? && sid < |m.streams| && m.streams[sid].installed && m.streams[sid].state.Running?
    ensures exists t | 0 <= t < |Run(s, events).tasks| :: Run(s, events).tasks[t] == Monitor(sid, Watch)
  {
    RunKeepsWatched(s, events);
    assert WatchedBy(Run(s, events), sid);
  }

  /** When a watched streamer has failed and is still installed, its monitor, finding the lock free and no recovery
      under way, begins one and ends. */
  lemma FailureIsRecovered(m: State, t: Tid, sid: Sid)
    requires t < |m.tasks| && m.tasks[t] == Monitor(sid, Watch) && m.sh.lock.None? && m.sh.slot == Some(sid)
    requires sid < |m.sh.streams| && m.sh.streams[sid].state.Failed? && m.sh.counter % 2 == 0
    ensures Run(m, Attempt(t, 0, 6)) ==
            State(m.sh.(counter := m.sh.counter + 1), m.tasks[t := Ended] + [Recovery(m.sh.counter + 1, LoopTop)])
  {
    var held := m.sh.(lock := Some(t));
    assert m == At(m, t, m.sh, Monitor(sid, Watch));
    MonitorLocks(m, t, m.sh, sid);
    MonitorDecides(m, t, held, sid);
    RecoveryBegins(m, t, held, sid, m.sh.counter);
  }

  lemma MonitorLocks(m: State, t: Tid, sh: Shared, sid: Sid)
    requires t < |m.tasks| && sh.lock.None? && sid < |sh.streams| && sh.streams[sid].state.Failed?
    ensures Run(At(m, t, sh, Monitor(sid, Watch)), Attempt(t, 0, 6)) ==
            Run(At(m, t, sh.(lock := Some(t)), Monitor(sid, MonitorCheck)), Attempt(t, 0, 4))
  {
    AtStep(m, t, 0, 6, sh, Monitor(sid, Watch), sh, Monitor(sid, MonitorLock));
    AtStep(m, t, 0, 5, sh, Monitor(sid, MonitorLock), sh.(lock := Some(t)), Monitor(sid, MonitorCheck));
  }

  lemma MonitorDecides(m: State, t: Tid, sh: Shared, sid: Sid)
    requires t < |m.tasks| && sh.slot == Some(sid) && sh.counter % 2 == 0
    ensures Run(At(m, t, sh, Monitor(sid, MonitorCheck)), Attempt(t, 0, 4)) ==
            Run(At(m, t, sh, Monitor(sid, MonitorCas(sh.counter))), Attempt(t, 0, 2))
  {
    AtStep(m, t, 0, 4, sh, Monitor(sid, MonitorCheck), sh, Monitor(sid, MonitorLoad));
    AtStep(m, t, 0, 3, sh, Monitor(sid, MonitorLoad), sh, Monitor(sid, MonitorCas(sh.counter)));
  }

  lemma RecoveryBegins(m: State, t: Tid, sh: Shared, sid: Sid, c: nat)
    requires t < |m.tasks| && sh.counter == c
    ensures Run(At(m, t, sh, Monitor(sid, MonitorCas(c))), Attempt(t, 0, 2)) ==
            State(sh.(counter := c + 1, lock := None), m.tasks[t := Ended] + [Recovery(c + 1, LoopTop)])
  {
    var a := At(m, t, sh, Monitor(sid, MonitorCas(c)));
    var begun := sh.(counter := c + 1);
    var more := State(m.sh, m.tasks + [Recovery(c + 1, LoopTop)]);
    AttemptStep(a, t, 0, 2);
    assert Step(a, Advance(t, true, 0)) == At(more, t, begun, Monitor(sid, MonitorUnlock));
    AtStep(more, t, 0, 1, begun, Monitor(sid, MonitorUnlock), begun.(lock := None), Ended);
    assert more.tasks[t := Ended] == m.tasks[t := Ended] + [Recovery(c + 1, LoopTop)];
  }
}
