/** Audio device-loss recovery (src/audio/recovery.rs, src/audio/controller.rs, src/audio/streamer.rs).

    Any number of user operations, stream monitors and recovery tasks interleave. Each event advances one
    task by one atomic access, starts a user operation, or makes a running stream fail. The load and the
    compare-exchange of the generation counter are separate steps. The counter is a natural number: the
    64-bit counter is assumed not to wrap. An event that does not apply leaves the state unchanged, so
    every interleaving is some event sequence. */
module AudioRecovery {
  import opened Common

  type Tid = nat
  type Sid = nat
  type Device = nat      // 0 stands for the empty device name

  datatype StreamState = Starting | Running | Failed | Stopped

  /** A streamer with the task that made it, its device, whether it was started and whether it was ever installed. */
  datatype Streamer = Streamer(state: StreamState, owner: Tid, device: Device, started: bool, installed: bool)

  datatype Op =
    | SelectDevice(device: Device) | SetQuality | Start | Stop
    | SetEnabled(on: bool) | UpdateConfig(on: bool, device: Device)

  /** What a user operation returns. */
  datatype Result = Ok | Err

  /** What follows stop_streaming_inner. */
  datatype Then = Finish | Restart | Rewrite

  datatype UserPc =
    | WaitLock | CancelLoad | CancelCas(seen: nat) | Body
    | StopCancelLoad(next: Then) | StopCancelCas(seen: nat, next: Then)
    | StopTake(next: Then) | StopWait(sid: Sid, next: Then)
    | WriteConfig | StartCheck | StartPick | StartWait(sid: Sid) | StartInstall(sid: Sid) | StartMonitor(sid: Sid)
    | BeginLoad | BeginCas(idle: nat) | Unlock(result: Result)

  datatype MonitorPc = Watch | MonitorLock | MonitorCheck | MonitorLoad | MonitorCas(idle: nat) | MonitorUnlock

  datatype RecoveryPc =
    | LoopTop | ReadConfig | ReadSlot | Retry | RecoveryStart(sid: Sid) | RecoveryLock(sid: Sid) | Recheck(sid: Sid)
    | StopStale(sid: Sid) | SetDevice(sid: Sid) | Install(sid: Sid) | FinishCas(sid: Sid) | SpawnMonitor(sid: Sid)
    | RecoveryUnlock | DropLease

  datatype Task =
    | Ended
    | User(op: Op, pc: UserPc)
    | Monitor(watched: Sid, mpc: MonitorPc)
    | Recovery(token: nat, rpc: RecoveryPc)

  /** Everything the tasks share: the generation counter, the operation lock, the configuration, the
      installed streamer and all streamers made so far. */
  datatype Shared = Shared(
    counter: nat, lock: Option<Tid>, enabled: bool, device: Device, slot: Option<Sid>, streams: seq<Streamer>)

  datatype State = State(sh: Shared, tasks: seq<Task>)

  /** One step of a task: the shared state after it, the task after it, and a task it spawned. */
  datatype Move = Move(sh: Shared, task: Task, spawned: Option<Task>)

  /** Environment choices of a step: did the call succeed, and which device was found. */
  datatype Event =
    | Spawn(op: Op) | Advance(tid: Tid, ok: bool, found: Device) | StreamFails(sid: Sid) | StreamEnds(sid: Sid)

  predicate IsRunning(s: Shared) {
    s.slot.Some? && s.slot.value < |s.streams| && s.streams[s.slot.value].state.Running?
  }

  function Go(s: Shared, task: Task): Move {
    Move(s, task, None)
  }

  /** One compare-exchange on the generation counter. */
  function Exchange(s: Shared, expected: nat, next: nat): Shared {
    if s.counter == expected then s.(counter := next) else s
  }

  /** begin's exchange: a failed one spawns nothing, a successful one spawns a recovery with the token. */
  function BeginExchange(s: Shared, idle: nat, task: Task): Move {
    if s.counter == idle then Move(s.(counter := idle + 1), task, Some(Recovery(idle + 1, LoopTop)))
    else Go(s, task)
  }

  /** cancel's exchange happens only when the loaded value was odd. */
  function CancelExchange(s: Shared, seen: nat): Shared {
    if seen % 2 == 1 then Exchange(s, seen, seen + 1) else s
  }

  function SetStream(s: Shared, sid: Sid, st: Streamer): Shared {
    if sid < |s.streams| then s.(streams := s.streams[sid := st]) else s
  }

  /** AudioStreamer::stop: nothing that it calls fails, so it ends in Stopped. */
  function StopStream(s: Shared, sid: Sid): Shared {
    if sid < |s.streams| then SetStream(s, sid, s.streams[sid].(state := Stopped)) else s
  }

  /** AudioStreamer::start returns Ok with the stream running, or Err with it failed. */
  function StartResult(s: Shared, sid: Sid, ok: bool): Shared {
    if sid < |s.streams|
    then SetStream(s, sid, s.streams[sid].(state := if ok then Running else Failed, started := ok))
    else s
  }

  function Put(s: Shared, sid: Sid): Shared {
    if sid < |s.streams|
    then SetStream(s, sid, s.streams[sid].(installed := true)).(slot := Some(sid))
    else s
  }

  function NewStream(s: Shared, t: Tid, d: Device): Shared {
    s.(streams := s.streams + [Streamer(Starting, t, d, false, false)])
  }

  function Resume(next: Then): UserPc {
    match next case Finish => Unlock(Ok) case Restart => StartCheck case Rewrite => WriteConfig
  }

  function UserMove(s: Shared, t: Tid, op: Op, pc: UserPc, ok: bool, found: Device): Move {
    match pc
    case WaitLock =>
      if s.lock.Some? then Go(s, User(op, pc))
      else Go(s.(lock := Some(t)), User(op,
             match op
             case SetQuality => Unlock(if ok then Ok else Err)
             case Stop => StopCancelLoad(Finish)
             case _ => CancelLoad))
    case CancelLoad => Go(s, User(op, CancelCas(s.counter)))
    case CancelCas(seen) => Go(CancelExchange(s, seen), User(op, if op.Start? then StartCheck else Body))
    case Body => BodyMove(s, op, ok)
    case StopCancelLoad(next) => Go(s, User(op, StopCancelCas(s.counter, next)))
    case StopCancelCas(seen, next) => Go(CancelExchange(s, seen), User(op, StopTake(next)))
    case StopTake(next) =>
      if s.slot.Some? then Go(s.(slot := None), User(op, StopWait(s.slot.value, next)))
      else Go(s, User(op, Resume(next)))
    case StopWait(sid, next) => Go(StopStream(s, sid), User(op, Resume(next)))
    case WriteConfig =>
      if op.UpdateConfig?
      then Go(s.(enabled := op.on, device := op.device), User(op, if op.on then StartCheck else Unlock(Ok)))
      else Go(s, User(op, Unlock(Ok)))
    case StartCheck =>
      Go(s, User(op, if !s.enabled then Unlock(Err) else if IsRunning(s) then Unlock(Ok) else StartPick))
    case StartPick =>
      if s.device == 0 && !ok then Go(s, User(op, BeginLoad))
      else
        var s1 := if s.device == 0 then s.(device := found) else s;
        Go(NewStream(s1, t, s1.device), User(op, StartWait(|s.streams|)))
    case StartWait(sid) => Go(StartResult(s, sid, ok), User(op, if ok then StartInstall(sid) else BeginLoad))
    case StartInstall(sid) => Go(Put(s, sid), User(op, StartMonitor(sid)))
    case StartMonitor(sid) => Move(s, User(op, Unlock(Ok)), Some(Monitor(sid, Watch)))
    case BeginLoad => Go(s, User(op, if s.counter % 2 == 1 then Unlock(Err) else BeginCas(s.counter)))
    case BeginCas(idle) => BeginExchange(s, idle, User(op, Unlock(Err)))
    case Unlock(_) => Go(s.(lock := None), Ended)
  }

  /** The part of an operation between its cancel and its stop or start. */
  function BodyMove(s: Shared, op: Op, ok: bool): Move {
    match op
    case SelectDevice(d) =>
      if !ok then Go(s, User(op, Unlock(Err)))    // listing failed or the device is unknown
      else Go(s.(device := d), User(op, if IsRunning(s) then StopCancelLoad(Restart) else Unlock(Ok)))
    case SetEnabled(on) =>
      Go(s.(enabled := on), User(op, if !on && IsRunning(s) then StopCancelLoad(Finish) else Unlock(Ok)))
    case UpdateConfig(_, _) => Go(s, User(op, if IsRunning(s) then StopCancelLoad(Rewrite) else WriteConfig))
    case _ => Go(s, User(op, Unlock(Ok)))
  }

  function MonitorMove(s: Shared, t: Tid, sid: Sid, pc: MonitorPc): Move {
    match pc
    case Watch =>
      if sid >= |s.streams| then Go(s, Monitor(sid, pc))
      else (match s.streams[sid].state
            case Failed => Go(s, Monitor(sid, MonitorLock))
            case Stopped => Go(s, Ended)
            case _ => Go(s, Monitor(sid, pc)))
    case MonitorLock =>
      if s.lock.Some? then Go(s, Monitor(sid, pc)) else Go(s.(lock := Some(t)), Monitor(sid, MonitorCheck))
    case MonitorCheck => Go(s, Monitor(sid, if s.slot == Some(sid) then MonitorLoad else MonitorUnlock))
    case MonitorLoad => Go(s, Monitor(sid, if s.counter % 2 == 1 then MonitorUnlock else MonitorCas(s.counter)))
    case MonitorCas(idle) => BeginExchange(s, idle, Monitor(sid, MonitorUnlock))
    case MonitorUnlock => Go(s.(lock := None), Ended)
  }

  function RecoveryMove(s: Shared, t: Tid, g: nat, pc: RecoveryPc, ok: bool, found: Device): Move {
    match pc
    case LoopTop => Go(s, Recovery(g, if s.counter == g then ReadConfig else DropLease))
    case ReadConfig => Go(s, Recovery(g, if s.enabled then ReadSlot else DropLease))
    case ReadSlot => Go(s, Recovery(g, if IsRunning(s) then DropLease else Retry))
    case Retry =>
      if s.counter != g then Go(s, Recovery(g, DropLease))
      else if !ok then Go(s, Recovery(g, LoopTop))      // no device could be listed or chosen
      else Go(NewStream(s, t, found), Recovery(g, RecoveryStart(|s.streams|)))
    case RecoveryStart(sid) => Go(StartResult(s, sid, ok), Recovery(g, if ok then RecoveryLock(sid) else LoopTop))
    case RecoveryLock(sid) =>
      if s.lock.Some? then Go(s, Recovery(g, pc)) else Go(s.(lock := Some(t)), Recovery(g, Recheck(sid)))
    case Recheck(sid) => Go(s, Recovery(g, if s.counter != g || !s.enabled then StopStale(sid) else SetDevice(sid)))
    case StopStale(sid) => Go(StopStream(s, sid), Recovery(g, RecoveryUnlock))
    case SetDevice(sid) =>
      Go(s.(device := if sid < |s.streams| then s.streams[sid].device else s.device), Recovery(g, Install(sid)))
    case Install(sid) => Go(Put(s, sid), Recovery(g, FinishCas(sid)))
    case FinishCas(sid) => Go(Exchange(s, g, g + 1), Recovery(g, SpawnMonitor(sid)))
    case SpawnMonitor(sid) => Move(s, Recovery(g, RecoveryUnlock), Some(Monitor(sid, Watch)))
    case RecoveryUnlock => Go(s.(lock := None), Recovery(g, DropLease))
    case DropLease => Go(Exchange(s, g, g + 1), Ended)
  }

  function TaskMove(s: Shared, t: Tid, task: Task, ok: bool, found: Device): Move {
    match task
    case Ended => Go(s, task)
    case User(op, pc) => UserMove(s, t, op, pc, ok, found)
    case Monitor(sid, pc) => MonitorMove(s, t, sid, pc)
    case Recovery(g, pc) => RecoveryMove(s, t, g, pc, ok, found)
  }

  function Apply(s: State, t: Tid, m: Move): State
    requires t < |s.tasks|
  {
    State(m.sh, s.tasks[t := m.task] + if m.spawned.Some? then [m.spawned.value] else [])
  }

  /** The task is waiting for a stop of the streamer. */
  predicate IsStopping(task: Task, sid: Sid) {
    (task.User? && task.pc.StopWait? && task.pc.sid == sid) || (task.Recovery? && task.rpc == StopStale(sid))
  }

  /** The streamer's stop flag is set; its own task may then end it before the stop returns. */
  predicate StopBegun(s: State, sid: Sid) {
    && sid < |s.sh.streams|
    && s.sh.lock.Some? && s.sh.lock.value < |s.tasks| && IsStopping(s.tasks[s.sh.lock.value], sid)
  }

  function Step(s: State, e: Event): State {
    match e
    case Spawn(op) => s.(tasks := s.tasks + [User(op, WaitLock)])
    case StreamFails(sid) =>
      if sid < |s.sh.streams| && s.sh.streams[sid].state.Running?
      then s.(sh := SetStream(s.sh, sid, s.sh.streams[sid].(state := Failed))) else s
    case StreamEnds(sid) =>          // the stream's own task sees the stop flag
      if StopBegun(s, sid) && s.sh.streams[sid].state != Starting
      then s.(sh := SetStream(s.sh, sid, s.sh.streams[sid].(state := Stopped))) else s
    case Advance(t, ok, found) =>
      if t < |s.tasks| then Apply(s, t, TaskMove(s.sh, t, s.tasks[t], ok, found)) else s
  }

  function Run(s: State, events: seq<Event>): State
    decreases |events|
  {
    if events == [] then s else Run(Step(s, events[0]), events[1..])
  }

  predicate Init(s: State) {
    s.sh.counter == 0 && s.sh.lock.None? && s.sh.slot.None? && s.sh.streams == [] && s.tasks == []
  }

  // ---------------------------------------------------------------- the invariant

  /** Is the task inside the critical section of the operation lock? */
  predicate Holds(task: Task) {
    match task
    case Ended => false
    case User(_, pc) => !pc.WaitLock?
    case Monitor(_, pc) => !pc.Watch? && !pc.MonitorLock?
    case Recovery(_, pc) =>
      || pc.Recheck? || pc.StopStale? || pc.SetDevice? || pc.Install? || pc.FinishCas? || pc.SpawnMonitor?
      || pc.RecoveryUnlock?
  }

  /** The streamer a task has made and not yet installed or stopped. */
  function Pending(task: Task): Option<Sid> {
    match task
    case User(_, StartWait(sid)) => Some(sid)
    case User(_, StartInstall(sid)) => Some(sid)
    case Recovery(_, RecoveryStart(sid)) => Some(sid)
    case Recovery(_, RecoveryLock(sid)) => Some(sid)
    case Recovery(_, Recheck(sid)) => Some(sid)
    case Recovery(_, StopStale(sid)) => Some(sid)
    case Recovery(_, SetDevice(sid)) => Some(sid)
    case Recovery(_, Install(sid)) => Some(sid)
    case _ => None
  }

  predicate IsStarting(task: Task) {
    (task.User? && task.pc.StartWait?) || (task.Recovery? && task.rpc.RecoveryStart?)
  }

  /** What the program point of a task says about the counter. */
  predicate CounterAt(s: Shared, task: Task) {
    match task
    case User(_, CancelCas(seen)) => s.counter == seen || (seen % 2 == 1 && s.counter == seen + 1)
    case User(_, StopCancelCas(seen, _)) => s.counter == seen || (seen % 2 == 1 && s.counter == seen + 1)
    case User(_, BeginCas(idle)) => s.counter == idle && idle % 2 == 0
    case User(_, Body) | User(_, StopTake(_)) | User(_, StopWait(_, _)) | User(_, WriteConfig) | User(_, StartCheck)
       | User(_, StartPick) | User(_, StartWait(_)) | User(_, StartInstall(_)) | User(_, StartMonitor(_))
       | User(_, BeginLoad) => s.counter % 2 == 0
    case Monitor(_, MonitorCas(idle)) => s.counter == idle && idle % 2 == 0
    case Recovery(g, pc) =>
      g % 2 == 1 && g <= s.counter && (pc.SetDevice? || pc.Install? || pc.FinishCas? ==> s.counter == g)
    case _ => true
  }

  predicate InstalledOnce(s: Shared, sid: Sid) {
    sid < |s.streams| && s.streams[sid].state != Starting && s.streams[sid].installed
  }

  /** What the program point of a task says about the installed streamer. */
  predicate SlotAt(s: Shared, task: Task) {
    match task
    case User(_, StartPick) | User(_, StartWait(_)) | User(_, StartInstall(_)) | User(_, BeginLoad)
       | User(_, BeginCas(_)) => !IsRunning(s)
    case Monitor(sid, pc) =>
      && InstalledOnce(s, sid)
      && (!pc.Watch? ==> s.streams[sid].state != Running)
      && (pc.MonitorLoad? || pc.MonitorCas? ==> s.slot == Some(sid))
    case User(_, StopWait(sid, _)) => InstalledOnce(s, sid)
    case User(_, StartMonitor(sid)) => InstalledOnce(s, sid)
    case Recovery(_, FinishCas(sid)) => InstalledOnce(s, sid)
    case Recovery(_, SpawnMonitor(sid)) => InstalledOnce(s, sid)
    case _ => true
  }

  predicate PendingAt(s: Shared, t: Tid, task: Task) {
    Pending(task).Some? ==>
      var sid := Pending(task).value;
      && sid < |s.streams| && s.streams[sid].owner == t && !s.streams[sid].installed
      && (IsStarting(task) <==> s.streams[sid].state.Starting?)
      && (!IsStarting(task) ==> s.streams[sid].started)
  }

  /** Every streamer the task started is installed, stopped by it, or still in its hands. */
  ghost predicate Accounts(s: Shared, t: Tid, task: Task) {
    forall i | 0 <= i < |s.streams| && s.streams[i].owner == t && s.streams[i].started ::
      s.streams[i].installed || s.streams[i].state.Stopped? || Pending(task) == Some(i)
  }

  ghost predicate TaskOk(s: Shared, t: Tid, task: Task) {
    && (Holds(task) <==> s.lock == Some(t))
    && CounterAt(s, task) && SlotAt(s, task) && PendingAt(s, t, task) && Accounts(s, t, task)
  }

  ghost predicate TokensDiffer(tasks: seq<Task>) {
    forall t, u | 0 <= t < u < |tasks| && tasks[t].Recovery? && tasks[u].Recovery? :: tasks[t].token != tasks[u].token
  }

  predicate SlotOk(s: Shared) {
    s.slot.Some? ==> InstalledOnce(s, s.slot.value)
  }

  /** A commit is between its installation and its finish. */
  predicate IsCommit(task: Task) {
    task.Recovery? && task.rpc.FinishCas?
  }

  predicate Committing(s: State) {
    s.sh.lock.Some? && s.sh.lock.value < |s.tasks| && IsCommit(s.tasks[s.sh.lock.value])
  }

  ghost predicate Inv(s: State) {
    && SlotOk(s.sh) && TokensDiffer(s.tasks)
    && (s.sh.lock.Some? ==> s.sh.lock.value < |s.tasks|)
    && (forall t | 0 <= t < |s.tasks| :: TaskOk(s.sh, t, s.tasks[t]))
    && (forall i | 0 <= i < |s.sh.streams| :: s.sh.streams[i].owner < |s.tasks|)
    && (s.sh.counter % 2 == 1 && !Committing(s) ==> !IsRunning(s.sh))
  }

  // ---------------------------------------------------------------- non-interference

  /** What a step of task `t` may do to a streamer without disturbing the other tasks. */
  predicate StreamFrame(a: Streamer, b: Streamer, t: Tid) {
    || a == b
    || (a.state.Running? && b == a.(state := Failed))
    || (a.state != Starting && b == a.(state := Stopped))
    || (&& b.owner == a.owner && (a.installed ==> b.installed && b.started == a.started)
        && (a.state.Stopped? ==> b.state.Stopped?)
        && (a.installed ==> b.state == a.state || b.state == Stopped)
        && (!a.installed ==> a.owner == t))
  }

  /** What a step of task `t`, which is `task`, may do to the shared state. */
  ghost predicate Frame(s: Shared, r: Shared, t: Tid, task: Task) {
    && (r.lock == s.lock || (s.lock.None? && r.lock == Some(t)) || (s.lock == Some(t) && r.lock.None?))
    && (|| r.counter == s.counter
        || (r.counter == s.counter + 1 && s.lock == Some(t))
        || (r.counter == s.counter + 1 && task.Recovery? && task.token == s.counter && s.counter % 2 == 1))
    && (r.slot == s.slot || s.lock == Some(t))
    && |s.streams| <= |r.streams|
    && (forall i | 0 <= i < |s.streams| :: StreamFrame(s.streams[i], r.streams[i], t))
    && (forall i | |s.streams| <= i < |r.streams| :: r.streams[i].owner == t)
  }

  lemma OtherKept(s: Shared, r: Shared, t: Tid, task: Task, u: Tid, other: Task)
    requires SlotOk(s) && Frame(s, r, t, task) && u != t && TaskOk(s, u, other)
    requires task.Recovery? && other.Recovery? ==> task.token != other.token
    ensures TaskOk(r, u, other)
  {
  }

  /** A running streamer under a current token belongs to a commit in progress, seen from task `t`. */
  predicate Calm(s: Shared, t: Tid, task: Task) {
    s.counter % 2 == 1 && IsRunning(s) ==> s.lock.Some? && (s.lock.value == t ==> IsCommit(task))
  }

  /** What a step must establish by itself; `next` is the identifier of a task it spawns. */
  ghost predicate Moves(s: Shared, t: Tid, task: Task, m: Move, next: Tid) {
    && Frame(s, m.sh, t, task) && SlotOk(m.sh) && TaskOk(m.sh, t, m.task)
    && (m.task.Recovery? ==> task.Recovery? && m.task.token == task.token)
    && (m.spawned.Some? ==> TaskOk(m.sh, next, m.spawned.value))
    && (m.spawned.Some? && m.spawned.value.Recovery? ==> m.spawned.value.token > s.counter)
    && (m.sh.counter % 2 == 1 && IsRunning(m.sh) ==>
          || IsCommit(m.task)
          || (s.counter % 2 == 1 && IsRunning(s) && m.sh.lock == s.lock && s.lock != Some(t)))
  }

  /** A task ready to step, with the identifier a spawned task would get. */
  ghost predicate Ready(s: Shared, t: Tid, task: Task, next: Tid) {
    && SlotOk(s) && TaskOk(s, t, task) && Calm(s, t, task) && t != next
    && s.lock != Some(next) && (forall i | 0 <= i < |s.streams| :: s.streams[i].owner != next)
  }

  // ---------------------------------------------------------------- every step of every task

  lemma CancelSteps(s: Shared, t: Tid, op: Op, pc: UserPc, ok: bool, found: Device, next: Tid)
    requires Ready(s, t, User(op, pc), next) && (pc.WaitLock? || pc.CancelLoad? || pc.CancelCas?)
    ensures Moves(s, t, User(op, pc), UserMove(s, t, op, pc, ok, found), next)
  {
  }

  lemma BodySteps(s: Shared, t: Tid, op: Op, pc: UserPc, ok: bool, found: Device, next: Tid)
    requires Ready(s, t, User(op, pc), next) && pc.Body?
    ensures Moves(s, t, User(op, pc), UserMove(s, t, op, pc, ok, found), next)
  {
  }

  lemma StopSteps(s: Shared, t: Tid, op: Op, pc: UserPc, ok: bool, found: Device, next: Tid)
    requires Ready(s, t, User(op, pc), next) && (pc.StopCancelLoad? || pc.StopCancelCas? || pc.StopTake?)
    ensures Moves(s, t, User(op, pc), UserMove(s, t, op, pc, ok, found), next)
  {
  }

  lemma StopWaitSteps(s: Shared, t: Tid, op: Op, pc: UserPc, ok: bool, found: Device, next: Tid)
    requires Ready(s, t, User(op, pc), next) && pc.StopWait?
    ensures Moves(s, t, User(op, pc), UserMove(s, t, op, pc, ok, found), next)
  {
  }

  lemma ConfigSteps(s: Shared, t: Tid, op: Op, pc: UserPc, ok: bool, found: Device, next: Tid)
    requires Ready(s, t, User(op, pc), next) && (pc.WriteConfig? || pc.StartCheck?)
    ensures Moves(s, t, User(op, pc), UserMove(s, t, op, pc, ok, found), next)
  {
  }

  lemma StartPickSteps(s: Shared, t: Tid, op: Op, pc: UserPc, ok: bool, found: Device, next: Tid)
    requires Ready(s, t, User(op, pc), next) && pc.StartPick?
    ensures Moves(s, t, User(op, pc), UserMove(s, t, op, pc, ok, found), next)
  {
  }

  lemma StartWaitSteps(s: Shared, t: Tid, op: Op, pc: UserPc, ok: bool, found: Device, next: Tid)
    requires Ready(s, t, User(op, pc), next) && pc.StartWait?
    ensures Moves(s, t, User(op, pc), UserMove(s, t, op, pc, ok, found), next)
  {
  }

  lemma InstallSteps(s: Shared, t: Tid, op: Op, pc: UserPc, ok: bool, found: Device, next: Tid)
    requires Ready(s, t, User(op, pc), next) && (pc.StartInstall? || pc.StartMonitor?)
    ensures Moves(s, t, User(op, pc), UserMove(s, t, op, pc, ok, found), next)
  {
  }

  lemma BeginSteps(s: Shared, t: Tid, op: Op, pc: UserPc, ok: bool, found: Device, next: Tid)
    requires Ready(s, t, User(op, pc), next) && (pc.BeginLoad? || pc.BeginCas? || pc.Unlock?)
    ensures Moves(s, t, User(op, pc), UserMove(s, t, op, pc, ok, found), next)
  {
  }

  lemma WatchSteps(s: Shared, t: Tid, sid: Sid, pc: MonitorPc, next: Tid)
    requires Ready(s, t, Monitor(sid, pc), next) && (pc.Watch? || pc.MonitorLock? || pc.MonitorCheck?)
    ensures Moves(s, t, Monitor(sid, pc), MonitorMove(s, t, sid, pc), next)
  {
  }

  lemma MonitorBeginSteps(s: Shared, t: Tid, sid: Sid, pc: MonitorPc, next: Tid)
    requires Ready(s, t, Monitor(sid, pc), next) && (pc.MonitorLoad? || pc.MonitorCas? || pc.MonitorUnlock?)
    ensures Moves(s, t, Monitor(sid, pc), MonitorMove(s, t, sid, pc), next)
  {
  }

  lemma LoopSteps(s: Shared, t: Tid, g: nat, pc: RecoveryPc, ok: bool, found: Device, next: Tid)
    requires Ready(s, t, Recovery(g, pc), next) && (pc.LoopTop? || pc.ReadConfig? || pc.ReadSlot?)
    ensures Moves(s, t, Recovery(g, pc), RecoveryMove(s, t, g, pc, ok, found), next)
  {
  }

  lemma RetrySteps(s: Shared, t: Tid, g: nat, pc: RecoveryPc, ok: bool, found: Device, next: Tid)
    requires Ready(s, t, Recovery(g, pc), next) && pc.Retry?
    ensures Moves(s, t, Recovery(g, pc), RecoveryMove(s, t, g, pc, ok, found), next)
  {
  }

  lemma RecoveryStartSteps(s: Shared, t: Tid, g: nat, pc: RecoveryPc, ok: bool, found: Device, next: Tid)
    requires Ready(s, t, Recovery(g, pc), next) && pc.RecoveryStart?
    ensures Moves(s, t, Recovery(g, pc), RecoveryMove(s, t, g, pc, ok, found), next)
  {
  }

  lemma RecheckSteps(s: Shared, t: Tid, g: nat, pc: RecoveryPc, ok: bool, found: Device, next: Tid)
    requires Ready(s, t, Recovery(g, pc), next) && (pc.RecoveryLock? || pc.Recheck?)
    ensures Moves(s, t, Recovery(g, pc), RecoveryMove(s, t, g, pc, ok, found), next)
  {
  }

  lemma StopStaleSteps(s: Shared, t: Tid, g: nat, pc: RecoveryPc, ok: bool, found: Device, next: Tid)
    requires Ready(s, t, Recovery(g, pc), next) && pc.StopStale?
    ensures Moves(s, t, Recovery(g, pc), RecoveryMove(s, t, g, pc, ok, found), next)
  {
  }

  lemma CommitSteps(s: Shared, t: Tid, g: nat, pc: RecoveryPc, ok: bool, found: Device, next: Tid)
    requires Ready(s, t, Recovery(g, pc), next) && (pc.SetDevice? || pc.Install?)
    ensures Moves(s, t, Recovery(g, pc), RecoveryMove(s, t, g, pc, ok, found), next)
  {
  }

  lemma FinishSteps(s: Shared, t: Tid, g: nat, pc: RecoveryPc, ok: bool, found: Device, next: Tid)
    requires Ready(s, t, Recovery(g, pc), next)
    requires pc.FinishCas? || pc.SpawnMonitor? || pc.RecoveryUnlock? || pc.DropLease?
    ensures Moves(s, t, Recovery(g, pc), RecoveryMove(s, t, g, pc, ok, found), next)
  {
  }

  lemma UserMoves(s: Shared, t: Tid, op: Op, pc: UserPc, ok: bool, found: Device, next: Tid)
    requires Ready(s, t, User(op, pc), next)
    ensures Moves(s, t, User(op, pc), UserMove(s, t, op, pc, ok, found), next)
  {
    match pc {
      case WaitLock | CancelLoad | CancelCas(_) => CancelSteps(s, t, op, pc, ok, found, next);
      case Body => BodySteps(s, t, op, pc, ok, found, next);
      case StopCancelLoad(_) | StopCancelCas(_, _) | StopTake(_) => StopSteps(s, t, op, pc, ok, found, next);
      case StopWait(_, _) => StopWaitSteps(s, t, op, pc, ok, found, next);
      case WriteConfig | StartCheck => ConfigSteps(s, t, op, pc, ok, found, next);
      case StartPick => StartPickSteps(s, t, op, pc, ok, found, next);
      case StartWait(_) => StartWaitSteps(s, t, op, pc, ok, found, next);
      case StartInstall(_) | StartMonitor(_) => InstallSteps(s, t, op, pc, ok, found, next);
      case BeginLoad | BeginCas(_) | Unlock(_) => BeginSteps(s, t, op, pc, ok, found, next);
    }
  }

  lemma MonitorMoves(s: Shared, t: Tid, sid: Sid, pc: MonitorPc, next: Tid)
    requires Ready(s, t, Monitor(sid, pc), next)
    ensures Moves(s, t, Monitor(sid, pc), MonitorMove(s, t, sid, pc), next)
  {
    match pc {
      case Watch | MonitorLock | MonitorCheck => WatchSteps(s, t, sid, pc, next);
      case MonitorLoad | MonitorCas(_) | MonitorUnlock => MonitorBeginSteps(s, t, sid, pc, next);
    }
  }

  lemma RecoveryMoves(s: Shared, t: Tid, g: nat, pc: RecoveryPc, ok: bool, found: Device, next: Tid)
    requires Ready(s, t, Recovery(g, pc), next)
    ensures Moves(s, t, Recovery(g, pc), RecoveryMove(s, t, g, pc, ok, found), next)
  {
    match pc {
      case LoopTop | ReadConfig | ReadSlot => LoopSteps(s, t, g, pc, ok, found, next);
      case Retry => RetrySteps(s, t, g, pc, ok, found, next);
      case RecoveryStart(_) => RecoveryStartSteps(s, t, g, pc, ok, found, next);
      case RecoveryLock(_) | Recheck(_) => RecheckSteps(s, t, g, pc, ok, found, next);
      case StopStale(_) => StopStaleSteps(s, t, g, pc, ok, found, next);
      case SetDevice(_) | Install(_) => CommitSteps(s, t, g, pc, ok, found, next);
      case FinishCas(_) | SpawnMonitor(_) | RecoveryUnlock | DropLease => FinishSteps(s, t, g, pc, ok, found, next);
    }
  }

  lemma TaskMoves(s: Shared, t: Tid, task: Task, ok: bool, found: Device, next: Tid)
    requires Ready(s, t, task, next)
    ensures Moves(s, t, task, TaskMove(s, t, task, ok, found), next)
  {
    match task
    case Ended =>
    case User(op, pc) => UserMoves(s, t, op, pc, ok, found, next);
    case Monitor(sid, pc) => MonitorMoves(s, t, sid, pc, next);
    case Recovery(g, pc) => RecoveryMoves(s, t, g, pc, ok, found, next);
  }

  // ---------------------------------------------------------------- every run keeps the invariant

  lemma MoveKeepsTokens(s: State, t: Tid, m: Move)
    requires Inv(s) && t < |s.tasks| && Moves(s.sh, t, s.tasks[t], m, |s.tasks|)
    ensures TokensDiffer(Apply(s, t, m).tasks)
  {
    forall u | 0 <= u < |s.tasks| && s.tasks[u].Recovery? ensures s.tasks[u].token <= s.sh.counter {
      assert TaskOk(s.sh, u, s.tasks[u]);
    }
  }

  lemma MoveKeepsInv(s: State, t: Tid, m: Move)
    requires Inv(s) && t < |s.tasks| && Moves(s.sh, t, s.tasks[t], m, |s.tasks|)
    ensures Inv(Apply(s, t, m))
  {
    var r := Apply(s, t, m);
    MoveKeepsTokens(s, t, m);
    forall u | 0 <= u < |r.tasks| ensures TaskOk(r.sh, u, r.tasks[u]) {
      if u < |s.tasks| && u != t {
        OtherKept(s.sh, m.sh, t, s.tasks[t], u, s.tasks[u]);
      }
    }
    forall i | 0 <= i < |r.sh.streams| ensures r.sh.streams[i].owner < |r.tasks| {
      assert i < |s.sh.streams| ==> StreamFrame(s.sh.streams[i], r.sh.streams[i], t);
    }
  }

  lemma AdvanceKeepsInv(s: State, t: Tid, ok: bool, found: Device)
    requires Inv(s) && t < |s.tasks|
    ensures Moves(s.sh, t, s.tasks[t], TaskMove(s.sh, t, s.tasks[t], ok, found), |s.tasks|)
    ensures Inv(Step(s, Advance(t, ok, found)))
  {
    TaskMoves(s.sh, t, s.tasks[t], ok, found, |s.tasks|);
    MoveKeepsInv(s, t, TaskMove(s.sh, t, s.tasks[t], ok, found));
  }

  lemma StepKeepsInv(s: State, e: Event)
    requires Inv(s)
    ensures Inv(Step(s, e))
  {
    match e
    case Advance(t, ok, found) => if t < |s.tasks| { AdvanceKeepsInv(s, t, ok, found); }
    case Spawn(op) =>
      assert TaskOk(s.sh, |s.tasks|, User(op, WaitLock));
    case StreamFails(_) | StreamEnds(_) => StreamChangeKeepsInv(s, e);
  }

  lemma StreamChangeKeepsInv(s: State, e: Event)
    requires Inv(s) && (e.StreamFails? || e.StreamEnds?)
    ensures Inv(Step(s, e))
  {
    var r := Step(s, e);
    forall u | 0 <= u < |s.tasks| ensures TaskOk(r.sh, u, s.tasks[u]) {
      OtherKept(s.sh, r.sh, |s.tasks|, Ended, u, s.tasks[u]);
    }
  }

  lemma {:induction false} RunKeepsInv(s: State, events: seq<Event>)
    requires Inv(s)
    ensures Inv(Run(s, events))
    decreases |events|
  {
    if events != [] {
      StepKeepsInv(s, events[0]);
      RunKeepsInv(Step(s, events[0]), events[1..]);
    }
  }

  lemma ReachableInv(s: State, events: seq<Event>)
    requires Init(s)
    ensures Inv(Run(s, events))
  {
    RunKeepsInv(s, events);
  }

  // ---------------------------------------------------------------- the generation counter

  /** The counter never goes back, and a task keeps its token. */
  lemma StepIsMonotone(s: State, e: Event)
    requires Inv(s)
    ensures s.sh.counter <= Step(s, e).sh.counter && |s.tasks| <= |Step(s, e).tasks|
    ensures forall t | 0 <= t < |s.tasks| && Step(s, e).tasks[t].Recovery? ::
              s.tasks[t].Recovery? && s.tasks[t].token == Step(s, e).tasks[t].token
  {
    if e.Advance? && e.tid < |s.tasks| {
      AdvanceKeepsInv(s, e.tid, e.ok, e.found);
    }
  }

  lemma {:induction false} RunIsMonotone(s: State, events: seq<Event>)
    requires Inv(s)
    ensures s.sh.counter <= Run(s, events).sh.counter && |s.tasks| <= |Run(s, events).tasks|
    ensures forall t | 0 <= t < |s.tasks| && Run(s, events).tasks[t].Recovery? ::
              s.tasks[t].Recovery? && s.tasks[t].token == Run(s, events).tasks[t].token
    decreases |events|
  {
    if events != [] {
      StepIsMonotone(s, events[0]);
      StepKeepsInv(s, events[0]);
      RunIsMonotone(Step(s, events[0]), events[1..]);
    }
  }

  // ---------------------------------------------------------------- main results

  /** Event `e` is a recovery task installing a streamer or writing the configured device. */
  predicate RecoveryCommits(s: State, e: Event) {
    && e.Advance? && e.tid < |s.tasks| && s.tasks[e.tid].Recovery?
    && (s.tasks[e.tid].rpc.SetDevice? || s.tasks[e.tid].rpc.Install?)
  }

  /** The slot and the device change only by a commit or by a user operation, and only under the lock. */
  lemma SlotWriters(s: State, events: seq<Event>, e: Event)
    requires Init(s)
    requires var m := Run(s, events); Step(m, e).sh.slot != m.sh.slot || Step(m, e).sh.device != m.sh.device
    ensures var m := Run(s, events);
            && e.Advance? && e.tid < |m.tasks| && m.sh.lock == Some(e.tid)
            && (m.tasks[e.tid].User? || (RecoveryCommits(m, e) && m.tasks[e.tid].token == m.sh.counter))
  {
    ReachableInv(s, events);
    var m := Run(s, events);
    assert TaskOk(m.sh, e.tid, m.tasks[e.tid]);
  }

  /** Event `e` is a user operation completing a cancel of the recovery. */
  predicate Cancels(s: State, e: Event) {
    && e.Advance? && e.tid < |s.tasks| && s.tasks[e.tid].User?
    && (s.tasks[e.tid].pc.CancelCas? || s.tasks[e.tid].pc.StopCancelCas?)
  }

  /** A cancel leaves the counter even although its load and its exchange are separate, and every
      recovery that exists then has lost its token. */
  lemma CancelLeavesIdle(s: State, events: seq<Event>, e: Event)
    requires Init(s) && Cancels(Run(s, events), e)
    ensures var n := Step(Run(s, events), e);
            && n.sh.counter % 2 == 0
            && (forall t | 0 <= t < |n.tasks| && n.tasks[t].Recovery? :: n.tasks[t].token < n.sh.counter)
  {
    ReachableInv(s, events);
    var m := Run(s, events);
    assert TaskOk(m.sh, e.tid, m.tasks[e.tid]);
    StepKeepsInv(m, e);
    var n := Step(m, e);
    forall t | 0 <= t < |n.tasks| && n.tasks[t].Recovery? ensures n.tasks[t].token < n.sh.counter {
      assert TaskOk(n.sh, t, n.tasks[t]);
    }
  }

  /** Once a user operation has cancelled, no recovery task that existed then ever installs a streamer or
      changes the configured device: whoever commits later was spawned later. */
  lemma NoResurrection(s: State, before: seq<Event>, cancel: Event, after: seq<Event>, e: Event)
    requires Init(s) && Cancels(Run(s, before), cancel)
    requires RecoveryCommits(Run(Step(Run(s, before), cancel), after), e)
    ensures e.tid >= |Step(Run(s, before), cancel).tasks|
    ensures Run(Step(Run(s, before), cancel), after).tasks[e.tid].token > Step(Run(s, before), cancel).sh.counter
  {
    ReachableInv(s, before);
    StepKeepsInv(Run(s, before), cancel);
    CancelLeavesIdle(s, before, cancel);
    LaterCommit(Step(Run(s, before), cancel), after, e);
  }

  /** From a state in which every recovery is stale, a commit is by a task that was spawned later. */
  lemma LaterCommit(n: State, after: seq<Event>, e: Event)
    requires Inv(n) && forall t | 0 <= t < |n.tasks| && n.tasks[t].Recovery? :: n.tasks[t].token < n.sh.counter
    requires n.sh.counter % 2 == 0 && RecoveryCommits(Run(n, after), e)
    ensures e.tid >= |n.tasks| && Run(n, after).tasks[e.tid].token > n.sh.counter
  {
    CommitIsCurrent(n, after, e);
    RunIsMonotone(n, after);
    var m := Run(n, after);
    LaterTask(n.tasks, m.tasks, n.sh.counter, m.sh.counter, e.tid);
  }

  lemma CommitIsCurrent(n: State, after: seq<Event>, e: Event)
    requires Inv(n) && RecoveryCommits(Run(n, after), e)
    ensures var m := Run(n, after); m.tasks[e.tid].token == m.sh.counter && m.sh.counter % 2 == 1
  {
    RunKeepsInv(n, after);
    var m := Run(n, after);
    assert TaskOk(m.sh, e.tid, m.tasks[e.tid]);
  }

  /** A recovery that is current when all the old ones are stale is none of them. */
  lemma LaterTask(olds: seq<Task>, tasks: seq<Task>, idle: nat, counter: nat, tid: Tid)
    requires |olds| <= |tasks| && idle <= counter && idle % 2 == 0 && counter % 2 == 1
    requires forall t | 0 <= t < |olds| && olds[t].Recovery? :: olds[t].token < idle
    requires forall t | 0 <= t < |olds| && tasks[t].Recovery? :: olds[t].Recovery? && olds[t].token == tasks[t].token
    requires tid < |tasks| && tasks[tid].Recovery? && tasks[tid].token == counter
    ensures tid >= |olds| && counter > idle
  {
  }

  /** Outside the tail of a commit a current recovery means the installed streamer is not running, and no
      step, by a user operation or a recovery, ever replaces a running streamer by another one. */
  lemma LiveStreamerIsNeverReplaced(s: State, events: seq<Event>, e: Event)
    requires Init(s)
    ensures var m := Run(s, events);
            && (m.sh.counter % 2 == 1 && !Committing(m) ==> !IsRunning(m.sh))
            && (IsRunning(m.sh) ==> Step(m, e).sh.slot == m.sh.slot || Step(m, e).sh.slot.None?)
  {
    ReachableInv(s, events);
    var m := Run(s, events);
    if e.Advance? && e.tid < |m.tasks| {
      assert TaskOk(m.sh, e.tid, m.tasks[e.tid]);
    }
  }

  /** Every streamer that a task started successfully is installed or was stopped by the time it ends. */
  lemma StartedStreamersAreAccountedFor(s: State, events: seq<Event>, i: Sid)
    requires Init(s) && i < |Run(s, events).sh.streams| && Run(s, events).sh.streams[i].started
    ensures var m := Run(s, events);
            && m.sh.streams[i].owner < |m.tasks|
            && (m.tasks[m.sh.streams[i].owner].Ended? || Pending(m.tasks[m.sh.streams[i].owner]) != Some(i) ==>
                  m.sh.streams[i].installed || m.sh.streams[i].state.Stopped?)
  {
    ReachableInv(s, events);
    var m := Run(s, events);
    assert TaskOk(m.sh, m.sh.streams[i].owner, m.tasks[m.sh.streams[i].owner]);
  }

  // ---------------------------------------------------------------- running streamers

  /** A running streamer is installed, in its maker's hands, or being stopped. */
  predicate Owned(s: State, i: Sid)
    requires i < |s.sh.streams| && s.sh.streams[i].owner < |s.tasks|
  {
    || s.sh.slot == Some(i)
    || Pending(s.tasks[s.sh.streams[i].owner]) == Some(i)
    || (s.sh.lock.Some? && s.sh.lock.value < |s.tasks| && IsStopping(s.tasks[s.sh.lock.value], i))
  }

  ghost predicate RunningOwned(s: State) {
    forall i: Sid | i < |s.sh.streams| && s.sh.streams[i].state.Running? ::
      s.sh.streams[i].owner < |s.tasks| && Owned(s, i)
  }

  /** What a step of task `t` does to one running streamer. */
  ghost predicate Passes(s: Shared, t: Tid, task: Task, m: Move, i: Sid) {
    i < |m.sh.streams| && m.sh.streams[i].state.Running? ==>
      if i < |s.streams| && s.streams[i].state.Running? then
        && m.sh.streams[i].owner == s.streams[i].owner
        && (s.slot == Some(i) ==> m.sh.slot == Some(i) || (m.sh.lock == Some(t) && IsStopping(m.task, i)))
        && (Pending(task) == Some(i) ==> Pending(m.task) == Some(i) || m.sh.slot == Some(i))
        && !IsStopping(task, i)
      else m.sh.streams[i].owner == t && Pending(m.task) == Some(i)
  }

  lemma UserPasses(s: Shared, t: Tid, op: Op, pc: UserPc, ok: bool, found: Device, next: Tid, i: Sid)
    requires Ready(s, t, User(op, pc), next)
    ensures Passes(s, t, User(op, pc), UserMove(s, t, op, pc, ok, found), i)
  {
  }

  lemma RecoveryPasses(s: Shared, t: Tid, g: nat, pc: RecoveryPc, ok: bool, found: Device, next: Tid, i: Sid)
    requires Ready(s, t, Recovery(g, pc), next)
    ensures Passes(s, t, Recovery(g, pc), RecoveryMove(s, t, g, pc, ok, found), i)
  {
  }

  lemma StepKeepsOwned(s: State, e: Event)
    requires Inv(s) && RunningOwned(s)
    ensures RunningOwned(Step(s, e))
  {
    var r := Step(s, e);
    forall i: Sid | i < |r.sh.streams| && r.sh.streams[i].state.Running?
      ensures r.sh.streams[i].owner < |r.tasks| && Owned(r, i)
    {
      if e.Advance? && e.tid < |s.tasks| {
        AdvanceKeepsOwned(s, e.tid, e.ok, e.found, i);
      }
    }
  }

  lemma TaskPasses(s: Shared, t: Tid, task: Task, ok: bool, found: Device, next: Tid, i: Sid)
    requires Ready(s, t, task, next)
    ensures Passes(s, t, task, TaskMove(s, t, task, ok, found), i)
  {
    match task
    case User(op, pc) => UserPasses(s, t, op, pc, ok, found, next, i);
    case Recovery(g, pc) => RecoveryPasses(s, t, g, pc, ok, found, next, i);
    case _ =>
  }

  /** A move that passes the streamer on leaves it with an owner, whoever had it before. */
  lemma PassKeepsOwned(s: State, t: Tid, m: Move, i: Sid)
    requires t < |s.tasks| && RunningOwned(s) && (Holds(s.tasks[t]) <==> s.sh.lock == Some(t))
    requires m.sh.lock == s.sh.lock || s.sh.lock.None? || s.sh.lock == Some(t)
    requires Passes(s.sh, t, s.tasks[t], m, i) && i < |m.sh.streams| && m.sh.streams[i].state.Running?
    ensures var r := Apply(s, t, m); r.sh.streams[i].owner < |r.tasks| && Owned(r, i)
  {
    var r := Apply(s, t, m);
    assert forall u | 0 <= u < |s.tasks| && u != t :: r.tasks[u] == s.tasks[u];
    assert r.tasks[t] == m.task;
  }

  lemma AdvanceKeepsOwned(s: State, t: Tid, ok: bool, found: Device, i: Sid)
    requires Inv(s) && RunningOwned(s) && t < |s.tasks|
    requires var r := Step(s, Advance(t, ok, found)); i < |r.sh.streams| && r.sh.streams[i].state.Running?
    ensures var r := Step(s, Advance(t, ok, found)); r.sh.streams[i].owner < |r.tasks| && Owned(r, i)
  {
    AdvanceKeepsInv(s, t, ok, found);
    assert TaskOk(s.sh, t, s.tasks[t]);
    TaskPasses(s.sh, t, s.tasks[t], ok, found, |s.tasks|, i);
    PassKeepsOwned(s, t, TaskMove(s.sh, t, s.tasks[t], ok, found), i);
  }

  lemma {:induction false} RunKeepsOwned(s: State, events: seq<Event>)
    requires Inv(s) && RunningOwned(s)
    ensures RunningOwned(Run(s, events))
    decreases |events|
  {
    if events != [] {
      StepKeepsInv(s, events[0]);
      StepKeepsOwned(s, events[0]);
      RunKeepsOwned(Step(s, events[0]), events[1..]);
    }
  }

  /** In every reachable state a running streamer is installed, in its maker's hands, or being stopped by the
      holder of the lock: no other streamer is left running. */
  lemma NoRunningStreamerIsLost(s: State, events: seq<Event>)
    requires Init(s)
    ensures RunningOwned(Run(s, events))
  {
    RunKeepsOwned(s, events);
  }

  /** No two recovery tasks ever hold the same token, so at most one is current. */
  lemma AtMostOneCurrent(s: State, events: seq<Event>, t: Tid, u: Tid)
    requires Init(s)
    requires var m := Run(s, events);
             && t < |m.tasks| && m.tasks[t].Recovery? && m.tasks[t].token == m.sh.counter
             && u < |m.tasks| && m.tasks[u].Recovery? && m.tasks[u].token == m.sh.counter
    ensures t == u
  {
    ReachableInv(s, events);
  }
}
