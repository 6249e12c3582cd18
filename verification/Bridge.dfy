/** The OTG network bridge transaction and its recovery journal (src/otg/bridge.rs).

    The process and the host it edits form one state machine. Every nmcli, ip or file command is one
    event; it may succeed, be refused, or take effect and still report an error. A crash may happen
    between any two events, and an activation may start while an unrecovered journal is still there.
    A run is an arbitrary sequence of events: one that does not apply to the current state leaves it
    unchanged, so quantifying over event sequences covers every interleaving of activations, failures,
    crashes and recoveries. */
module Bridge {
  import opened Common

  type Uuid = nat
  type Name = string

  /** Which of the three profiles of a transaction. */
  datatype Role = BridgeRole | UplinkRole | UsbRole

  /** A NetworkManager profile; `reserved` when it is bound to the interface okvm-br0. */
  datatype Profile = Profile(name: Name, reserved: bool)

  datatype Entry = Entry(uuid: Option<Uuid>, name: Option<Name>)

  datatype Journal = Journal(
    version: nat,
    existingBridge: bool,
    original: Option<Uuid>,
    bridge: Entry,
    uplink: Entry,
    usb: Entry)
  {
    function Of(r: Role): Entry {
      match r case BridgeRole => bridge case UplinkRole => uplink case UsbRole => usb
    }

    function With(r: Role, e: Entry): Journal {
      match r
      case BridgeRole => this.(bridge := e)
      case UplinkRole => this.(uplink := e)
      case UsbRole => this.(usb := e)
    }
  }

  const JOURNAL_VERSION: nat := 2

  /** The okvm-br0 interface: absent, left by someone else, or created by a transaction. */
  datatype Link = Absent | Foreign | Ours

  datatype Host = Host(profiles: map<Uuid, Profile>, active: set<Uuid>, link: Link, journal: Option<Journal>)

  /** How a command ends: done, failed without effect, or failed after its effect. */
  datatype Outcome = Done | Refused | Garbled

  function Effect(o: Outcome, before: Host, after: Host): Host {
    if o.Refused? then before else after
  }

  // ---------------------------------------------------------------- activation

  datatype Act =
    | WriteJournal | CreateLink | AddProfile(role: Role) | LearnUuid(role: Role) | Configure
    | TakeDown | BringUp(role: Role) | AwaitAddress

  /** The commands of activate_physical_uplink from the first journal write on. */
  const SCRIPT: seq<Act> := [
    WriteJournal, CreateLink, Configure,
    AddProfile(BridgeRole), LearnUuid(BridgeRole), WriteJournal, Configure,
    AddProfile(UplinkRole), LearnUuid(UplinkRole), WriteJournal,
    AddProfile(UsbRole), LearnUuid(UsbRole), WriteJournal,
    TakeDown, BringUp(BridgeRole), BringUp(UplinkRole), BringUp(UsbRole), AwaitAddress
  ]

  function Named(ps: map<Uuid, Profile>, n: Option<Name>): (us: set<Uuid>) {
    set u | u in ps && Some(ps[u].name) == n
  }

  function ActOn(a: Act, h: Host, mem: Journal, uuid: Uuid): Host {
    match a
    case WriteJournal => h.(journal := Some(mem))
    case CreateLink => h.(link := Ours)
    case AddProfile(r) =>
      if mem.Of(r).name.Some?
      then h.(profiles := h.profiles[uuid := Profile(mem.Of(r).name.value, r.BridgeRole?)])
      else h
    case TakeDown => if mem.original.Some? then h.(active := h.active - {mem.original.value}) else h
    case BringUp(r) => h.(active := h.active + Named(h.profiles, mem.Of(r).name))
    case LearnUuid(_) | Configure | AwaitAddress => h
  }

  // ---------------------------------------------------------------- restore

  function Delete(h: Host, us: set<Uuid>): Host {
    h.(profiles := h.profiles - us, active := h.active - us)
  }

  /** delete_owned_connection: by UUID when that UUID still exists, otherwise by name. */
  function DeleteOwned(h: Host, e: Entry): Host {
    if e.uuid.Some? && e.uuid.value in h.profiles then Delete(h, {e.uuid.value})
    else if e.name.Some? then Delete(h, Named(h.profiles, e.name))
    else h
  }

  /** Only a profile that still exists can be brought up. */
  predicate CanRevive(h: Host, j: Journal) {
    j.existingBridge || j.original.None? || j.original.value in h.profiles
  }

  /** The undo steps of restore_from_journal in order; the sixth removes the journal file. */
  function Undo(stage: nat, h: Host, j: Journal): Host {
    match stage
    case 0 => DeleteOwned(h, j.usb)
    case 1 => DeleteOwned(h, j.uplink)
    case 2 => DeleteOwned(h, j.bridge)
    case 3 => if j.existingBridge then h else h.(link := Absent)
    case 4 =>
      if !j.existingBridge && j.original.Some? && CanRevive(h, j)
      then h.(active := h.active + {j.original.value}) else h
    case _ => h.(journal := None)
  }

  // ---------------------------------------------------------------- the state machine

  /** Where a restore returns to when it fails: boot recovery, rollback of an activation, deactivation. */
  datatype Caller = AtBoot | Rollback | Deactivation

  datatype Process =
    | Dead
    | Ready
    | Selecting
    | Activating(pc: nat, mem: Journal)
    | Active(mem: Journal)
    | Restoring(mem: Journal, stage: nat, failed: bool, caller: Caller)

  /** `owned` and `issued` are the profile names and UUIDs handed out so far in the run. */
  datatype System = System(host: Host, process: Process, owned: set<Name>, issued: set<Uuid>)

  datatype Event =
    | Crash
    | Boot
    | ResetLink(outcome: Outcome, removed: set<Uuid>)
    | Select(original: Uuid, bridgeName: Name, uplinkName: Name, usbName: Name)
    | GiveUp
    | Act(outcome: Outcome, uuid: Uuid)
    | Deactivate
    | UndoStep(outcome: Outcome)

  function Step(s: System, e: Event): System {
    match e
    case Crash => s.(process := Dead)
    case Boot => if s.process.Dead? then BootStep(s) else s
    case ResetLink(o, removed) => if s.process.Ready? then ResetStep(s, o, removed) else s
    case Select(u, b, l, g) => if s.process.Selecting? then SelectStep(s, u, b, l, g) else s
    case GiveUp => if s.process.Selecting? then s.(process := Ready) else s
    case Act(o, u) => if s.process.Activating? && s.process.pc < |SCRIPT| then ActStep(s, o, u) else s
    case Deactivate =>
      if s.process.Active? then s.(process := Restoring(s.process.mem, 0, false, Deactivation)) else s
    case UndoStep(o) => if s.process.Restoring? then RestoreStep(s, o) else s
  }

  /** recover_stale_transaction: nothing to do, a restore, or a journal of another version. */
  function BootStep(s: System): System {
    match s.host.journal
    case None => s.(process := Ready)
    case Some(j) =>
      if j.version == JOURNAL_VERSION then s.(process := Restoring(j, 0, false, AtBoot)) else s
  }

  /** reset_bridge_interface deletes the profiles bound to okvm-br0, then the interface. It stops at the
      first error, so a failed run has deleted some of them. */
  function ResetStep(s: System, o: Outcome, removed: set<Uuid>): System {
    var h := s.host;
    var bound := set u | u in h.profiles && h.profiles[u].reserved;
    match o
    case Done => s.(host := Delete(h, bound).(link := Absent), process := Selecting)
    case Refused => s.(host := Delete(h, bound * removed))
    case Garbled => s.(host := Delete(h, bound).(link := Absent))
  }

  /** The active connection of the uplink becomes the original; the three names are new. */
  function SelectStep(s: System, u: Uuid, b: Name, l: Name, g: Name): System {
    var names := {b, l, g};
    if u in s.host.active && u in s.host.profiles && b != l && b != g && l != g && names !! s.owned
       && (forall v | v in s.host.profiles :: s.host.profiles[v].name !in names)
    then
      s.(process := Activating(0, Journal(JOURNAL_VERSION, false, Some(u),
             Entry(None, Some(b)), Entry(None, Some(l)), Entry(None, Some(g)))),
         owned := s.owned + names)
    else s
  }

  function ActStep(s: System, o: Outcome, u: Uuid): System
    requires s.process.Activating? && s.process.pc < |SCRIPT|
  {
    var a, mem, pc := SCRIPT[s.process.pc], s.process.mem, s.process.pc;
    if a.AddProfile? && u in s.issued then s   // NetworkManager never reuses a UUID
    else if a.LearnUuid? && u !in Named(s.host.profiles, mem.Of(a.role).name) then s
    else
      var h := Effect(o, s.host, ActOn(a, s.host, mem, u));
      var issued := if a.AddProfile? then s.issued + {u} else s.issued;
      var mem' := if a.LearnUuid? && o.Done? then mem.With(a.role, mem.Of(a.role).(uuid := Some(u))) else mem;
      var next :=
        if o.Done? then (if pc + 1 == |SCRIPT| then Active(mem') else Activating(pc + 1, mem'))
        else if pc == 0 then Ready             // the first journal write fails with nothing to undo
        else Restoring(mem', 0, false, Rollback);
      s.(host := h, process := next, issued := issued)
  }

  function RestoreStep(s: System, o: Outcome): System
    requires s.process.Restoring?
  {
    var Restoring(mem, stage, failed, caller) := s.process;
    if stage < 5 then
      s.(host := Effect(o, s.host, Undo(stage, s.host, mem)),
         process := Restoring(mem, stage + 1, failed || !o.Done? || (stage == 4 && !CanRevive(s.host, mem)), caller))
    else if failed then s.(process := Abandoned(caller, mem))
    else
      s.(host := Effect(o, s.host, Undo(5, s.host, mem)),
         process := if o.Done? then Ready else Abandoned(caller, mem))
  }

  function Abandoned(c: Caller, mem: Journal): Process {
    match c case AtBoot => Dead case Rollback => Ready case Deactivation => Active(mem)
  }

  function Run(s: System, events: seq<Event>): System
    decreases |events|
  {
    if events == [] then s else Run(Step(s, events[0]), events[1..])
  }

  ghost predicate Init(s: System) {
    && s.process.Dead? && s.host.journal.None? && s.host.link != Ours && s.owned == {}
    && s.issued == s.host.profiles.Keys && s.host.active <= s.host.profiles.Keys
  }

  // ---------------------------------------------------------------- what a run promises

  /** Profiles that belong to the user and are outside the reserved interface. */
  predicate IsUser(base: Host, u: Uuid) {
    u in base.profiles && !base.profiles[u].reserved
  }

  /** Every user profile is still there, untouched, and nothing else appeared except owned profiles. */
  ghost predicate Conserved(s: System, base: Host) {
    && (forall u :: IsUser(base, u) ==> u in s.host.profiles)
    && (forall u | u in s.host.profiles ::
          if u in base.profiles
          then s.host.profiles[u] == base.profiles[u] && s.host.profiles[u].name !in s.owned
          else s.host.profiles[u].name in s.owned)
  }

  /** Nothing of any transaction is left and every user connection that was up is up again. */
  ghost predicate Clean(s: System, base: Host) {
    && s.host.link != Ours
    && (forall u | u in s.host.profiles :: s.host.profiles[u].name !in s.owned)
    && (forall u | IsUser(base, u) && u in base.active :: u in s.host.active)
  }

  predicate Names(j: Journal, n: Name) {
    j.bridge.name == Some(n) || j.uplink.name == Some(n) || j.usb.name == Some(n)
  }

  /** The journal accounts for everything that is not clean. */
  ghost predicate Covered(h: Host, owned: set<Name>, base: Host, j: Journal) {
    && (forall u | u in h.profiles && h.profiles[u].name in owned :: Names(j, h.profiles[u].name))
    && (forall u | IsUser(base, u) && u in base.active :: u in h.active || j.original == Some(u))
  }

  // ---------------------------------------------------------------- the invariant

  predicate Same(a: Journal, b: Journal) {
    && a.original == b.original && a.bridge.name == b.bridge.name
    && a.uplink.name == b.uplink.name && a.usb.name == b.usb.name
  }

  predicate Sound(s: System, e: Entry, base: Host) {
    && e.name.Some? && e.name.value in s.owned
    && (e.uuid.Some? ==>
          && e.uuid.value in s.issued && e.uuid.value !in base.profiles
          && (e.uuid.value in s.host.profiles ==> s.host.profiles[e.uuid.value].name == e.name.value))
  }

  /** The journal describes one transaction; with `c`, its original connection is the user's. */
  predicate Good(s: System, j: Journal, base: Host, c: bool) {
    && j.version == JOURNAL_VERSION && !j.existingBridge
    && j.original.Some? && j.original.value in s.issued
    && (c ==> IsUser(base, j.original.value))
    && (j.original.value in s.host.profiles ==> !Names(j, s.host.profiles[j.original.value].name))
    && j.bridge.name != j.uplink.name && j.bridge.name != j.usb.name && j.uplink.name != j.usb.name
    && Sound(s, j.bridge, base) && Sound(s, j.uplink, base) && Sound(s, j.usb, base)
  }

  function AddIndex(r: Role): nat {
    match r case BridgeRole => 3 case UplinkRole => 7 case UsbRole => 10
  }

  /** After a completed reset no profile is bound to the reserved interface. */
  ghost predicate NoneReserved(h: Host) {
    forall u | u in h.profiles :: !h.profiles[u].reserved
  }

  ghost predicate ProcessInv(s: System, base: Host, c: bool) {
    match s.process
    case Dead | Ready => true
    case Selecting => NoneReserved(s.host)
    case Activating(pc, mem) =>
      && pc < |SCRIPT| && Good(s, mem, base, c && pc > 0)
      && (if pc == 0 then
            NoneReserved(s.host) && mem.original.value in s.host.profiles && forall r :: mem.Of(r).uuid.None?
          else s.host.journal.Some? && Same(s.host.journal.value, mem))
      && (forall r :: pc <= AddIndex(r) ==> Named(s.host.profiles, mem.Of(r).name) == {})
    case Active(mem) => Good(s, mem, base, c) && (s.host.journal.Some? ==> Same(s.host.journal.value, mem))
    case Restoring(mem, stage, failed, _) =>
      && stage <= 5 && Good(s, mem, base, c) && (s.host.journal.Some? ==> Same(s.host.journal.value, mem))
      && (!failed ==>
            && (stage > 0 ==> Named(s.host.profiles, mem.usb.name) == {})
            && (stage > 1 ==> Named(s.host.profiles, mem.uplink.name) == {})
            && (stage > 2 ==> Named(s.host.profiles, mem.bridge.name) == {})
            && (stage > 3 ==> s.host.link != Ours)
            && (stage > 4 ==> mem.original.value in s.host.active))
  }

  /** What every run keeps; the part under `c` is kept while no overwritten journal was still needed. */
  ghost predicate Inv(s: System, base: Host, c: bool) {
    && s.host.active <= s.host.profiles.Keys <= s.issued && base.profiles.Keys <= s.issued
    && Conserved(s, base)
    && (forall u, v | u in s.host.profiles && v in s.host.profiles
                      && s.host.profiles[u].name in s.owned && s.host.profiles[u].name == s.host.profiles[v].name ::
          u == v)
    && (match s.host.journal
        case None => c ==> Clean(s, base)
        case Some(j) => Good(s, j, base, c) && (c ==> Covered(s.host, s.owned, base, j)))
    && ProcessInv(s, base, c)
  }

  /** The first journal write of an activation takes effect. */
  predicate Journals(s: System, e: Event) {
    e.Act? && !e.outcome.Refused? && s.process.Activating? && s.process.pc == 0
  }

  /** Nothing is left that only the old journal knew: no owned profile, and no user connection down but the one that
      the new journal names. */
  ghost predicate Harmless(s: System, base: Host)
    requires s.process.Activating?
  {
    && (forall v | v in s.host.profiles :: s.host.profiles[v].name !in s.owned)
    && (forall v | IsUser(base, v) && v in base.active :: v in s.host.active || s.process.mem.original == Some(v))
  }

  /** The event does not overwrite a journal that is still needed. */
  ghost predicate Careful(s: System, base: Host, e: Event) {
    Journals(s, e) && s.host.journal.Some? ==> Harmless(s, base)
  }

  ghost predicate AllCareful(s: System, base: Host, events: seq<Event>)
    decreases |events|
  {
    events != [] ==> Careful(s, base, events[0]) && AllCareful(Step(s, events[0]), base, events[1..])
  }

  lemma BootKeepsInv(s: System, base: Host, c: bool)
    requires Inv(s, base, c) && s.process.Dead?
    ensures Inv(BootStep(s), base, c)
  {
  }

  lemma ResetKeepsInv(s: System, base: Host, c: bool, o: Outcome, removed: set<Uuid>)
    requires Inv(s, base, c) && s.process.Ready?
    ensures Inv(ResetStep(s, o, removed), base, c)
  {
  }

  lemma SelectKeepsInv(s: System, base: Host, c: bool, u: Uuid, b: Name, l: Name, g: Name)
    requires Inv(s, base, c) && s.process.Selecting?
    ensures Inv(SelectStep(s, u, b, l, g), base, c)
  {
  }

  ghost predicate Acting(s: System, base: Host, c: bool) {
    Inv(s, base, c) && s.process.Activating? && 0 < s.process.pc < |SCRIPT|
  }

  lemma NoneNamed(h: Host, n: Name)
    requires Named(h.profiles, Some(n)) == {}
    ensures forall u | u in h.profiles :: h.profiles[u].name != n
  {
    forall u | u in h.profiles ensures h.profiles[u].name != n {
      assert u !in Named(h.profiles, Some(n));
    }
  }

  lemma AddKeepsInv(s: System, base: Host, c: bool, o: Outcome, u: Uuid)
    requires Acting(s, base, c) && SCRIPT[s.process.pc].AddProfile?
    ensures Inv(ActStep(s, o, u), base, c)
  {
    var r := SCRIPT[s.process.pc].role;
    assert s.process.pc == AddIndex(r);
    assert Named(s.host.profiles, s.process.mem.Of(r).name) == {};
    var t := ActStep(s, o, u);
    NoneNamed(s.host, s.process.mem.Of(r).name.value);
    forall q | s.process.pc + 1 <= AddIndex(q) ensures Named(t.host.profiles, s.process.mem.Of(q).name) == {} {
      assert Named(s.host.profiles, s.process.mem.Of(q).name) == {};
      assert Named(t.host.profiles, s.process.mem.Of(q).name) <= Named(s.host.profiles, s.process.mem.Of(q).name);
    }
  }

  lemma ProcessKeepsInv(s: System, t: System, base: Host, c: bool)
    requires Inv(s, base, c) && t == s.(process := t.process) && ProcessInv(t, base, c)
    ensures Inv(t, base, c)
  {
  }

  lemma LearntProcess(s: System, base: Host, c: bool, o: Outcome, u: Uuid)
    requires Acting(s, base, c) && SCRIPT[s.process.pc].LearnUuid?
    ensures ProcessInv(ActStep(s, o, u), base, c)
  {
  }

  lemma LearnKeepsInv(s: System, base: Host, c: bool, o: Outcome, u: Uuid)
    requires Acting(s, base, c) && SCRIPT[s.process.pc].LearnUuid?
    ensures Inv(ActStep(s, o, u), base, c)
  {
    LearntProcess(s, base, c, o, u);
    ProcessKeepsInv(s, ActStep(s, o, u), base, c);
  }

  lemma LinkProcess(s: System, base: Host, c: bool, o: Outcome, u: Uuid)
    requires Acting(s, base, c)
    requires var a := SCRIPT[s.process.pc]; a.CreateLink? || a.Configure? || a.AwaitAddress?
    ensures ProcessInv(ActStep(s, o, u), base, c)
  {
  }

  lemma LinkKeepsInv(s: System, base: Host, c: bool, o: Outcome, u: Uuid)
    requires Acting(s, base, c)
    requires var a := SCRIPT[s.process.pc]; a.CreateLink? || a.Configure? || a.AwaitAddress?
    ensures Inv(ActStep(s, o, u), base, c)
  {
    LinkProcess(s, base, c, o, u);
  }

  lemma RewriteKeepsInv(s: System, base: Host, c: bool, o: Outcome, u: Uuid)
    requires Acting(s, base, c) && SCRIPT[s.process.pc].WriteJournal?
    ensures Inv(ActStep(s, o, u), base, c)
  {
  }

  /** A change of the active set alone keeps the invariant when the journal still covers it. */
  lemma ActivityKeepsInv(s: System, t: System, base: Host, c: bool)
    requires Inv(s, base, c) && s.host.journal.Some?
    requires t == s.(process := t.process, host := s.host.(active := t.host.active))
    requires t.host.active <= s.host.profiles.Keys
    requires c ==> forall u | IsUser(base, u) && u in base.active ::
                     u in t.host.active || s.host.journal.value.original == Some(u)
    requires ProcessInv(t, base, c)
    ensures Inv(t, base, c)
  {
  }

  lemma NextProcess(s: System, base: Host, c: bool, o: Outcome, u: Uuid)
    requires Acting(s, base, c)
    requires var a := SCRIPT[s.process.pc]; a.TakeDown? || a.BringUp?
    ensures ProcessInv(ActStep(s, o, u), base, c) && s.host.journal.Some?
  {
  }

  /** The connection taken down is the original that the journal names. */
  lemma TakeDownKeepsInv(s: System, base: Host, c: bool, o: Outcome, u: Uuid)
    requires Acting(s, base, c) && SCRIPT[s.process.pc].TakeDown?
    ensures Inv(ActStep(s, o, u), base, c)
  {
    NextProcess(s, base, c, o, u);
    ActivityKeepsInv(s, ActStep(s, o, u), base, c);
  }

  lemma BringUpKeepsInv(s: System, base: Host, c: bool, o: Outcome, u: Uuid)
    requires Acting(s, base, c) && SCRIPT[s.process.pc].BringUp?
    ensures Inv(ActStep(s, o, u), base, c)
  {
    NextProcess(s, base, c, o, u);
    ActivityKeepsInv(s, ActStep(s, o, u), base, c);
  }

  lemma ActKeepsInv(s: System, base: Host, c: bool, o: Outcome, u: Uuid)
    requires Acting(s, base, c)
    ensures Inv(ActStep(s, o, u), base, c)
  {
    match SCRIPT[s.process.pc]
    case AddProfile(_) => AddKeepsInv(s, base, c, o, u);
    case LearnUuid(_) => LearnKeepsInv(s, base, c, o, u);
    case TakeDown => TakeDownKeepsInv(s, base, c, o, u);
    case BringUp(_) => BringUpKeepsInv(s, base, c, o, u);
    case WriteJournal => RewriteKeepsInv(s, base, c, o, u);
    case _ => LinkKeepsInv(s, base, c, o, u);
  }

  /** The first write: with a careful overwrite the new journal covers everything. */
  lemma JournalKeepsInv(s: System, base: Host, c: bool, o: Outcome, u: Uuid)
    requires Inv(s, base, c) && s.process.Activating? && s.process.pc == 0
    requires c && s.host.journal.Some? && !o.Refused? ==> Harmless(s, base)
    ensures Inv(ActStep(s, o, u), base, c)
  {
  }

  ghost predicate Undoing(s: System, base: Host, c: bool) {
    Inv(s, base, c) && s.process.Restoring?
  }

  /** Deleting by the journal entry removes the one owned profile of that name and no other. */
  lemma DeleteOwnedExact(s: System, base: Host, c: bool, e: Entry)
    requires Inv(s, base, c) && Sound(s, e, base)
    ensures DeleteOwned(s.host, e) == Delete(s.host, Named(s.host.profiles, e.name))
    ensures Named(s.host.profiles, e.name) !! base.profiles.Keys
  {
    if e.uuid.Some? && e.uuid.value in s.host.profiles {
      assert Named(s.host.profiles, e.name) == {e.uuid.value};
    }
  }

  lemma DeletionKeepsInv(s: System, base: Host, c: bool, o: Outcome)
    requires Undoing(s, base, c) && s.process.stage < 3
    ensures Inv(RestoreStep(s, o), base, c)
  {
    var mem, stage := s.process.mem, s.process.stage;
    var e := if stage == 0 then mem.usb else if stage == 1 then mem.uplink else mem.bridge;
    DeleteOwnedExact(s, base, c, e);
    var t := RestoreStep(s, o);
    forall n ensures Named(t.host.profiles, n) <= Named(s.host.profiles, n) {}
    assert o.Done? ==> Named(t.host.profiles, e.name) == {};
  }

  lemma ReviveKeepsInv(s: System, base: Host, c: bool, o: Outcome)
    requires Undoing(s, base, c) && 3 <= s.process.stage < 5
    ensures Inv(RestoreStep(s, o), base, c)
  {
    var t := RestoreStep(s, o);
    forall n ensures Named(t.host.profiles, n) == Named(s.host.profiles, n) {}
  }

  lemma CloseKeepsInv(s: System, base: Host, c: bool, o: Outcome)
    requires Undoing(s, base, c) && s.process.stage == 5
    ensures Inv(RestoreStep(s, o), base, c)
  {
    var mem := s.process.mem;
    if !s.process.failed {
      NoneNamed(s.host, mem.usb.name.value);
      NoneNamed(s.host, mem.uplink.name.value);
      NoneNamed(s.host, mem.bridge.name.value);
    }
  }

  lemma RestoreKeepsInv(s: System, base: Host, c: bool, o: Outcome)
    requires Undoing(s, base, c)
    ensures Inv(RestoreStep(s, o), base, c)
  {
    if s.process.stage < 3 {
      DeletionKeepsInv(s, base, c, o);
    } else if s.process.stage < 5 {
      ReviveKeepsInv(s, base, c, o);
    } else {
      CloseKeepsInv(s, base, c, o);
    }
  }

  lemma StepKeepsInv(s: System, base: Host, c: bool, e: Event)
    requires Inv(s, base, c)
    ensures Inv(Step(s, e), base, c && Careful(s, base, e))
  {
    var c' := c && Careful(s, base, e);
    assert Inv(s, base, c');
    match e
    case Boot => if s.process.Dead? { BootKeepsInv(s, base, c'); }
    case ResetLink(o, removed) => if s.process.Ready? { ResetKeepsInv(s, base, c', o, removed); }
    case Select(u, b, l, g) => if s.process.Selecting? { SelectKeepsInv(s, base, c', u, b, l, g); }
    case Act(o, u) =>
      if s.process.Activating? && s.process.pc == 0 {
        JournalKeepsInv(s, base, c', o, u);
      } else if s.process.Activating? {
        ActKeepsInv(s, base, c', o, u);
      }
    case UndoStep(o) => if s.process.Restoring? { RestoreKeepsInv(s, base, c', o); }
    case _ =>
  }

  lemma {:induction false} RunKeepsInv(s: System, base: Host, c: bool, events: seq<Event>)
    requires Inv(s, base, c)
    ensures Inv(Run(s, events), base, c && AllCareful(s, base, events))
    decreases |events|
  {
    if events != [] {
      StepKeepsInv(s, base, c, events[0]);
      RunKeepsInv(Step(s, events[0]), base, c && Careful(s, base, events[0]), events[1..]);
    }
  }

  // ---------------------------------------------------------------- main results

  lemma StartInv(s: System)
    requires Init(s)
    ensures Inv(s, s.host, true)
  {
  }

  /** In every reachable state the user's profiles are untouched.  While no journal that was still needed has been
      overwritten, either nothing of a transaction is left, or a journal of the current version names every owned
      profile and the connection that is down. */
  lemma CleanOrJournalled(s: System, events: seq<Event>)
    requires Init(s)
    ensures var t := Run(s, events);
            && Conserved(t, s.host)
            && (AllCareful(s, s.host, events) ==>
                  if t.host.journal.None? then Clean(t, s.host)
                  else && t.host.journal.value.version == JOURNAL_VERSION
                       && !t.host.journal.value.existingBridge
                       && Covered(t.host, t.owned, s.host, t.host.journal.value))
  {
    StartInv(s);
    RunKeepsInv(s, s.host, true, events);
  }

  function Working(n: nat): seq<Event> {
    if n == 0 then [] else [UndoStep(Done)] + Working(n - 1)
  }

  /** A restart whose commands all work. */
  const RECOVERY: seq<Event> := [Crash, Boot] + Working(6)

  lemma {:induction false} RunConcat(s: System, a: seq<Event>, b: seq<Event>)
    ensures Run(s, a + b) == Run(Run(s, a), b)
    decreases |a|
  {
    if a == [] {
      assert a + b == b;
    } else {
      assert (a + b)[1..] == a[1..] + b;
      RunConcat(Step(s, a[0]), a[1..], b);
    }
  }

  lemma {:induction false} WorkingUndo(s: System, base: Host, n: nat)
    requires Undoing(s, base, true) && !s.process.failed && s.process.stage + n == 6
    ensures var t := Run(s, Working(n)); t.process.Ready? && t.host.journal.None? && Inv(t, base, true)
    decreases n
  {
    var next := RestoreStep(s, Done);
    UndoAdvances(s, base);
    WorkingStep(s, n);
    if n > 1 {
      WorkingUndo(next, base, n - 1);
    }
  }

  lemma WorkingStep(s: System, n: nat)
    requires s.process.Restoring? && n > 0
    ensures Run(s, Working(n)) == Run(RestoreStep(s, Done), Working(n - 1))
    ensures n == 1 ==> Run(s, Working(n)) == RestoreStep(s, Done)
  {
    assert Working(n)[1..] == Working(n - 1);
  }

  lemma UndoAdvances(s: System, base: Host)
    requires Undoing(s, base, true) && !s.process.failed
    ensures var t := RestoreStep(s, Done);
            Inv(t, base, true)
            && (if s.process.stage < 5
                then t.process.Restoring? && !t.process.failed && t.process.stage == s.process.stage + 1
                else t.process.Ready? && t.host.journal.None?)
  {
    RestoreKeepsInv(s, base, true, Done);
  }

  lemma {:induction false} NothingToUndo(s: System, n: nat)
    requires !s.process.Restoring?
    ensures Run(s, Working(n)) == s
  {
    if n > 0 {
      assert Working(n)[1..] == Working(n - 1);
      NothingToUndo(s, n - 1);
    }
  }

  /** A restart whose commands work leaves no journal and a clean host. */
  ghost predicate Recovers(s: System, base: Host) {
    var t := Run(s, RECOVERY);
    t.process.Ready? && t.host.journal.None? && Clean(t, base)
  }

  lemma Restarted(s: System)
    ensures Run(s, RECOVERY) == Run(Step(Step(s, Crash), Boot), Working(6))
  {
    RunConcat(s, [Crash, Boot], Working(6));
    assert [Crash, Boot][1..] == [Boot] && [Boot][1..] == [];
  }

  /** Crash safety: from every state that keeps the invariant, whatever led to it, including recoveries that were
      cut short or had failing commands, a working restart recovers. */
  lemma InvRecovers(s: System, base: Host)
    requires Inv(s, base, true)
    ensures Recovers(s, base) && Conserved(Run(s, RECOVERY), base)
  {
    var booted := Step(Step(s, Crash), Boot);
    StepKeepsInv(s, base, true, Crash);
    StepKeepsInv(Step(s, Crash), base, true, Boot);
    Restarted(s);
    if booted.process.Restoring? {
      WorkingUndo(booted, base, 6);
    } else {
      NothingToUndo(booted, 6);
    }
  }

  lemma RecoveryRestores(s: System, events: seq<Event>)
    requires Init(s) && AllCareful(s, s.host, events)
    ensures var t := Run(s, events + RECOVERY);
            t.process.Ready? && t.host.journal.None? && Clean(t, s.host) && Conserved(t, s.host)
  {
    StartInv(s);
    RunKeepsInv(s, s.host, true, events);
    InvRecovers(Run(s, events), s.host);
    RunConcat(s, events, RECOVERY);
  }

  /** The journal disappears only when the whole restore succeeded; the host is then clean, unless a journal that
      was still needed had been overwritten. */
  lemma JournalRemovedOnlyWhenClean(s: System, events: seq<Event>, e: Event)
    requires Init(s)
    requires Run(s, events).host.journal.Some? && Step(Run(s, events), e).host.journal.None?
    ensures var t := Run(s, events);
            && t.process.Restoring? && t.process.stage == 5 && !t.process.failed
            && (AllCareful(s, s.host, events) ==> Clean(Step(t, e), s.host) && Clean(t, s.host))
  {
    StartInv(s);
    RunKeepsInv(s, s.host, true, events);
    StepKeepsInv(Run(s, events), s.host, AllCareful(s, s.host, events), e);
  }

  // ---------------------------------------------------------------- deactivation and rollback

  /** A deactivation whose commands work undoes everything on the spot. */
  lemma DeactivationRestores(s: System, events: seq<Event>)
    requires Init(s) && AllCareful(s, s.host, events) && Run(s, events).process.Active?
    ensures var t := Run(Run(s, events), [Deactivate] + Working(6));
            t.process.Ready? && t.host.journal.None? && Clean(t, s.host) && Conserved(t, s.host)
  {
    StartInv(s);
    RunKeepsInv(s, s.host, true, events);
    var m := Run(s, events);
    StepKeepsInv(m, s.host, true, Deactivate);
    assert ([Deactivate] + Working(6))[1..] == Working(6);
    WorkingUndo(Step(m, Deactivate), s.host, 6);
  }

  /** The command can be given: a new profile gets a new UUID, and the UUID read is one that the name has. */
  predicate Applies(s: System, e: Event) {
    && e.Act? && s.process.Activating? && s.process.pc < |SCRIPT|
    && (SCRIPT[s.process.pc].AddProfile? ==> e.uuid !in s.issued)
    && (SCRIPT[s.process.pc].LearnUuid? ==>
          && e.uuid in s.host.profiles
          && s.process.mem.Of(SCRIPT[s.process.pc].role).name == Some(s.host.profiles[e.uuid].name))
  }

  /** An activation that fails after its first journal write, whether or not the failing command took effect, is
      undone on the spot when the undo commands work; before that write there is nothing to undo. */
  lemma RollbackRestores(s: System, events: seq<Event>, e: Event)
    requires Init(s) && AllCareful(s, s.host, events) && Applies(Run(s, events), e) && !e.outcome.Done?
    ensures var m := Run(s, events);
            var t := Run(Step(m, e), Working(6));
            if m.process.pc > 0
            then t.process.Ready? && t.host.journal.None? && Clean(t, s.host) && Conserved(t, s.host)
            else Step(m, e).process.Ready? && (e.outcome.Refused? ==> Step(m, e).host == m.host)
  {
    StartInv(s);
    RunKeepsInv(s, s.host, true, events);
    var m := Run(s, events);
    if m.process.pc > 0 {
      StepKeepsInv(m, s.host, true, e);
      FailedActRestores(m, e);
      WorkingUndo(Step(m, e), s.host, 6);
    }
  }

  lemma FailedActRestores(m: System, e: Event)
    requires Applies(m, e) && !e.outcome.Done? && m.process.pc > 0
    ensures var p := Step(m, e).process; p.Restoring? && p.stage == 0 && !p.failed && p.caller.Rollback?
  {
  }

  function Undos(os: seq<Outcome>): seq<Event> {
    if os == [] then [] else [UndoStep(os[0])] + Undos(os[1..])
  }

  /** Where an unfinished restore leaves the process: at boot it counts as dead and recovers again, a rollback leaves
      it ready, a deactivation still active. */
  predicate LeftBy(p: Process, caller: Caller, mem: Journal) {
    match caller
    case AtBoot => p == Dead
    case Rollback => p == Ready
    case Deactivation => p == Active(mem)
  }

  /** One of the commands before the last one did not report success. */
  ghost predicate Trouble(failed: bool, os: seq<Outcome>) {
    failed || exists i | 0 <= i < |os| - 1 :: !os[i].Done?
  }

  lemma TroubleNext(failed: bool, os: seq<Outcome>)
    requires |os| > 1
    ensures Trouble(failed, os) <==> Trouble(failed || !os[0].Done?, os[1..])
  {
    assert forall i | 0 < i < |os| - 1 :: os[i] == os[1..][i - 1];
    assert forall i | 0 <= i < |os| - 2 :: os[1..][i] == os[i + 1];
  }

  /** How a restore ends: ready, or left by its caller, and with or without the journal. */
  ghost predicate Ended(s: System, t: System, bad: bool, last: Outcome)
    requires s.process.Restoring?
  {
    && (if !bad && last.Done? then t.process.Ready? else LeftBy(t.process, s.process.caller, s.process.mem))
    && t.host.journal == (if bad || last.Refused? then s.host.journal else None)
  }

  lemma {:induction false} UndoFrom(s: System, base: Host, os: seq<Outcome>)
    requires Undoing(s, base, true) && s.process.stage + |os| == 6
    ensures var t := Run(s, Undos(os));
            Inv(t, base, true) && Ended(s, t, Trouble(s.process.failed, os), os[|os| - 1])
    decreases |os|
  {
    var next := Step(s, UndoStep(os[0]));
    RestoreKeepsInv(s, base, true, os[0]);
    RunHead(s, UndoStep(os[0]), Undos(os[1..]));
    if |os| > 1 {
      UndoStepKeeps(s, base, os[0]);
      UndoFrom(next, base, os[1..]);
      TroubleNext(s.process.failed, os);
    }
  }

  lemma RunHead(s: System, e: Event, es: seq<Event>)
    ensures Run(s, [e] + es) == Run(Step(s, e), es)
    ensures Run(s, [e] + []) == Step(s, e)
  {
    assert ([e] + es)[1..] == es;
    assert ([e] + [])[1..] == [];
  }

  lemma UndoStepKeeps(s: System, base: Host, o: Outcome)
    requires Undoing(s, base, true) && s.process.stage < 5
    ensures var t := RestoreStep(s, o);
            && t.process == s.process.(stage := s.process.stage + 1, failed := s.process.failed || !o.Done?)
            && t.host.journal == s.host.journal
  {
  }

  /** A restore with arbitrary answers of its six commands: it succeeds exactly when all report success, and the
      journal stays exactly when one of the first five did not, or the removal itself had no effect.  Whenever the
      journal is gone the host is clean. */
  lemma RestoreExactly(s: System, events: seq<Event>, os: seq<Outcome>)
    requires Init(s) && AllCareful(s, s.host, events) && |os| == 6
    requires var p := Run(s, events).process; p.Restoring? && p.stage == 0 && !p.failed
    ensures var m := Run(s, events);
            var t := Run(m, Undos(os));
            var bad := exists i | 0 <= i < 5 :: !os[i].Done?;
            && (if !bad && os[5].Done? then t.process.Ready? else LeftBy(t.process, m.process.caller, m.process.mem))
            && t.host.journal == (if bad || os[5].Refused? then m.host.journal else None)
            && (t.host.journal.None? ==> Clean(t, s.host))
  {
    StartInv(s);
    RunKeepsInv(s, s.host, true, events);
    UndoFrom(Run(s, events), s.host, os);
  }

  // ---------------------------------------------------------------- activation over an unrecovered journal

  /** Before its first journal write an activation has made nothing of its own. */
  ghost predicate Unwritten(s: System, base: Host) {
    Inv(s, base, true) && s.process.Activating? && s.process.pc == 0
  }

  lemma NothingDeleted(h: Host, e: Entry)
    requires e.uuid.None? && Named(h.profiles, e.name) == {} && h.active <= h.profiles.Keys
    ensures DeleteOwned(h, e) == h
  {
    assert h.profiles - {} == h.profiles && h.active - {} == h.active;
  }

  /** A journal none of whose profiles exists. */
  ghost predicate Empty(h: Host, j: Journal) {
    && j.version == JOURNAL_VERSION && !j.existingBridge && j.original.Some? && j.original.value in h.profiles
    && h.active <= h.profiles.Keys
    && forall r :: j.Of(r).uuid.None? && Named(h.profiles, j.Of(r).name) == {}
  }

  /** Restoring from it takes only the interface away and brings only its original connection up. */
  lemma EmptyRestore(s: System, j: Journal, caller: Caller)
    requires s.process == Restoring(j, 0, false, caller) && Empty(s.host, j)
    ensures var h := s.host.(link := Absent, active := s.host.active + {j.original.value}, journal := None);
            Run(s, Working(6)) == s.(host := h, process := Ready)
  {
    NothingDeleted(s.host, j.Of(UsbRole));
    NothingDeleted(s.host, j.Of(UplinkRole));
    NothingDeleted(s.host, j.Of(BridgeRole));
    var s3 := s.(process := Restoring(j, 3, false, caller));
    var s4 := s.(host := s.host.(link := Absent), process := Restoring(j, 4, false, caller));
    assert Run(s, Working(6)) == Run(s3, Working(3)) by {
      WorkingStep(s, 6);
      WorkingStep(s.(process := Restoring(j, 1, false, caller)), 5);
      WorkingStep(s.(process := Restoring(j, 2, false, caller)), 4);
    }
    WorkingStep(s3, 3);
    WorkingStep(s4, 2);
    WorkingStep(RestoreStep(s4, Done), 1);
  }

  lemma AfterOverwrite(s: System, base: Host, o: Outcome, u: Uuid)
    requires Unwritten(s, base) && !o.Refused?
    ensures var t := Run(ActStep(s, o, u), RECOVERY);
            && t.owned == s.owned && t.host.profiles == s.host.profiles
            && t.host.active == s.host.active + {s.process.mem.original.value}
  {
    var w := ActStep(s, o, u);
    var mem := s.process.mem;
    Restarted(w);
    assert w.host == s.host.(journal := Some(mem));
    EmptyRestore(Step(Step(w, Crash), Boot), mem, AtBoot);
  }

  /** One overwrite: the state after the first journal write recovers if and only if the write was harmless. */
  lemma OverwritingAJournal(s: System, base: Host, o: Outcome, u: Uuid)
    requires Unwritten(s, base) && !o.Refused?
    ensures Recovers(ActStep(s, o, u), base) <==> Harmless(s, base)
  {
    if Harmless(s, base) {
      JournalKeepsInv(s, base, true, o, u);
      InvRecovers(ActStep(s, o, u), base);
    } else {
      AfterOverwrite(s, base, o, u);
    }
  }

  lemma {:induction false} RecoversFrom(s: System, base: Host, events: seq<Event>)
    requires Inv(s, base, true)
    ensures (forall k | 0 <= k <= |events| :: Recovers(Run(s, events[..k]), base)) <==> AllCareful(s, base, events)
    decreases |events|
  {
    InvRecovers(s, base);
    if events == [] {
      assert events[..0] == [];
    } else {
      var e, tail := events[0], events[1..];
      var next := Step(s, e);
      forall k | 0 < k <= |events| ensures Run(s, events[..k]) == Run(next, tail[..k - 1]) {
        assert events[..k][1..] == tail[..k - 1];
      }
      if Careful(s, base, e) {
        StepKeepsInv(s, base, true, e);
        RecoversFrom(next, base, tail);
        FromTail(s, base, events);
      } else {
        OverwritingAJournal(s, base, e.outcome, e.uuid);
        assert tail[..0] == [] && Run(s, events[..1]) == next;
      }
    }
  }

  lemma FromTail(s: System, base: Host, events: seq<Event>)
    requires events != [] && Recovers(s, base)
    requires forall k | 0 < k <= |events| :: Run(s, events[..k]) == Run(Step(s, events[0]), events[1..][..k - 1])
    ensures (forall k | 0 <= k <= |events| :: Recovers(Run(s, events[..k]), base))
            <==> forall k | 0 <= k <= |events[1..]| :: Recovers(Run(Step(s, events[0]), events[1..][..k]), base)
  {
    var next, tail := Step(s, events[0]), events[1..];
    assert events[..0] == [];
    if forall k | 0 <= k <= |events| :: Recovers(Run(s, events[..k]), base) {
      forall k | 0 <= k <= |tail| ensures Recovers(Run(next, tail[..k]), base) {
        assert Recovers(Run(s, events[..k + 1]), base);
      }
    }
  }

  /** Over whole runs: every state that was passed recovers if and only if no activation overwrote a journal that
      was still needed. */
  lemma RecoversExactly(s: System, events: seq<Event>)
    requires Init(s)
    ensures (forall k | 0 <= k <= |events| :: Recovers(Run(s, events[..k]), s.host)) <==> AllCareful(s, s.host, events)
  {
    StartInv(s);
    RecoversFrom(s, s.host, events);
  }

  // ---------------------------------------------------------------- one such run

  lemma Extend(s: System, events: seq<Event>, e: Event) returns (events': seq<Event>)
    ensures events' == events + [e] && Run(s, events') == Step(Run(s, events), e)
  {
    RunConcat(s, events, [e]);
    assert [e][1..] == [];
    events' := events + [e];
  }

  const UPLINK: Profile := Profile("eth", false)
  const USER: Host := Host(map[0 := UPLINK], {0}, Absent, None)
  const FIRST: Journal :=
    Journal(JOURNAL_VERSION, false, Some(0), Entry(None, Some("b")), Entry(None, Some("l")), Entry(None, Some("g")))
  const LEARNT: Journal := FIRST.(bridge := Entry(Some(1), Some("b")))
  const SECOND: Journal :=
    Journal(JOURNAL_VERSION, false, Some(0), Entry(None, Some("b2")), Entry(None, Some("l2")), Entry(None, Some("g2")))
  const BEGUN: Host := Host(map[0 := UPLINK, 1 := Profile("b", true)], {0}, Ours, Some(LEARNT))
  const LEFT: Host := Host(map[0 := UPLINK, 1 := Profile("b", true), 2 := Profile("l", false)], {0}, Ours, Some(LEARNT))

  /** An activation up to its first journal write. */
  lemma Started() returns (s: System, es: seq<Event>)
    ensures Init(s) && s.host == USER
    ensures Run(s, es) == System(USER.(journal := Some(FIRST)), Activating(1, FIRST), {"b", "l", "g"}, {0})
  {
    s, es := System(USER, Dead, {}, {0}), [];
    es := Extend(s, es, Boot);
    es := Extend(s, es, ResetLink(Done, {}));
    assert Run(s, es) == System(USER, Selecting, {}, {0}) by {
      assert Delete(USER, {}) == USER;
    }
    assert {"b", "l", "g"} !! {} && "b" != "l" && "b" != "g" && "l" != "g";
    assert "eth" !in {"b", "l", "g"};
    es := Extend(s, es, Select(0, "b", "l", "g"));
    assert {} + {"b", "l", "g"} == {"b", "l", "g"};
    es := Extend(s, es, Act(Done, 0));
  }

  /** It makes and journals the bridge profile. */
  lemma BridgeMade() returns (s: System, es: seq<Event>)
    ensures Init(s) && s.host == USER
    ensures Run(s, es) == System(BEGUN, Activating(6, LEARNT), {"b", "l", "g"}, {0, 1})
  {
    s, es := Started();
    es := Extend(s, es, Act(Done, 0));
    es := Extend(s, es, Act(Done, 0));
    assert Run(s, es) ==
           System(USER.(journal := Some(FIRST), link := Ours), Activating(3, FIRST), {"b", "l", "g"}, {0});
    es := Extend(s, es, Act(Done, 1));
    assert Run(s, es) == System(BEGUN.(journal := Some(FIRST)), Activating(4, FIRST), {"b", "l", "g"}, {0, 1});
    assert 1 in Named(BEGUN.profiles, Some("b"));
    es := Extend(s, es, Act(Done, 1));
    es := Extend(s, es, Act(Done, 0));
  }

  /** Adding the uplink profile takes effect and reports an error, and every step of the rollback is refused. */
  lemma RollbackFails() returns (s: System, es: seq<Event>)
    ensures Init(s) && s.host == USER
    ensures Run(s, es) == System(LEFT, Ready, {"b", "l", "g"}, {0, 1, 2})
  {
    s, es := BridgeMade();
    es := Extend(s, es, Act(Done, 0));
    es := Extend(s, es, Act(Garbled, 2));
    assert Run(s, es) == System(LEFT, Restoring(LEARNT, 0, false, Rollback), {"b", "l", "g"}, {0, 1, 2});
    es := Extend(s, es, UndoStep(Refused));
    es := Extend(s, es, UndoStep(Refused));
    es := Extend(s, es, UndoStep(Refused));
    es := Extend(s, es, UndoStep(Refused));
    es := Extend(s, es, UndoStep(Refused));
    es := Extend(s, es, UndoStep(Refused));
  }

  /** The next activation replaces the journal. */
  lemma Overwritten() returns (s: System, es: seq<Event>)
    ensures Init(s) && s.host == USER
    ensures Run(s, es) == System(Host(map[0 := UPLINK, 2 := Profile("l", false)], {0}, Absent, Some(SECOND)),
                                 Activating(1, SECOND), {"b", "l", "g"} + {"b2", "l2", "g2"}, {0, 1, 2})
  {
    s, es := RollbackFails();
    var cleared := Host(map[0 := UPLINK, 2 := Profile("l", false)], {0}, Absent, Some(LEARNT));
    es := Extend(s, es, ResetLink(Done, {}));
    assert Run(s, es) == System(cleared, Selecting, {"b", "l", "g"}, {0, 1, 2}) by {
      assert (set u | u in LEFT.profiles && LEFT.profiles[u].reserved) == {1};
      assert Delete(LEFT, {1}) == cleared.(link := Ours);
    }
    assert {"b2", "l2", "g2"} !! {"b", "l", "g"};
    es := Extend(s, es, Select(0, "b2", "l2", "g2"));
    es := Extend(s, es, Act(Done, 0));
  }

  /** After that a working recovery removes the new journal and leaves the first transaction's uplink profile. */
  lemma OverwriteLosesAProfile() returns (s: System, events: seq<Event>)
    ensures Init(s)
    ensures var t := Run(s, events + RECOVERY);
            && t.process.Ready? && t.host.journal.None?
            && 2 in t.host.profiles && t.host.profiles[2].name in t.owned && !Clean(t, s.host)
  {
    s, events := Overwritten();
    var w := Run(s, events);
    RunConcat(s, events, RECOVERY);
    Restarted(w);
    forall r: Role ensures Named(w.host.profiles, SECOND.Of(r).name) == {} {}
    EmptyRestore(Step(Step(w, Crash), Boot), SECOND, AtBoot);
    assert "l" in w.owned;
  }

  // ---------------------------------------------------------------- what a successful activation builds

  function LearnIndex(r: Role): nat {
    match r case BridgeRole => 4 case UplinkRole => 8 case UsbRole => 11
  }

  function UpIndex(r: Role): nat {
    match r case BridgeRole => 14 case UplinkRole => 15 case UsbRole => 16
  }

  /** What the first `pc` commands of the script have built. */
  ghost predicate Built(h: Host, mem: Journal, pc: nat) {
    && (pc > 1 ==> h.link == Ours)
    && (forall r :: pc > LearnIndex(r) ==>
          && mem.Of(r).uuid.Some? && mem.Of(r).uuid.value in h.profiles
          && Some(h.profiles[mem.Of(r).uuid.value].name) == mem.Of(r).name)
    && (forall r :: pc > AddIndex(r) ==> Named(h.profiles, mem.Of(r).name) != {})
    && (pc > 12 ==> h.journal == Some(mem))
    && (pc > 13 ==> mem.original.Some? && mem.original.value !in h.active)
    && (forall r :: pc > UpIndex(r) ==> mem.Of(r).uuid.Some? && mem.Of(r).uuid.value in h.active)
  }

  ghost predicate Progress(s: System) {
    s.process.Activating? ==> Built(s.host, s.process.mem, s.process.pc)
  }

  ghost predicate Advances(s: System, u: Uuid) {
    && s.process.Activating? && s.process.pc < |SCRIPT|
    && var t := ActStep(s, Done, u);
       && (t.process.Activating? ==> t == s || Built(t.host, t.process.mem, t.process.pc))
       && (t.process.Active? ==> Built(t.host, t.process.mem, |SCRIPT|))
  }

  lemma AddAdvances(s: System, base: Host, c: bool, u: Uuid)
    requires Acting(s, base, c) && Progress(s) && SCRIPT[s.process.pc].AddProfile?
    ensures Advances(s, u)
  {
    assert s.process.pc == 3 || s.process.pc == 7 || s.process.pc == 10;
    var r, mem := SCRIPT[s.process.pc].role, s.process.mem;
    var t := ActStep(s, Done, u);
    if t != s {
      forall q | s.process.pc + 1 > AddIndex(q) ensures Named(t.host.profiles, mem.Of(q).name) != {} {
        if q == r {
          assert u in Named(t.host.profiles, mem.Of(r).name);
        } else {
          var v :| v in Named(s.host.profiles, mem.Of(q).name);
          assert v in Named(t.host.profiles, mem.Of(q).name);
        }
      }
    }
  }

  lemma LearnAdvances(s: System, base: Host, c: bool, u: Uuid)
    requires Acting(s, base, c) && Progress(s) && SCRIPT[s.process.pc].LearnUuid?
    ensures Advances(s, u)
  {
    var r := SCRIPT[s.process.pc].role;
    assert s.process.pc == LearnIndex(r);
    var t := ActStep(s, Done, u);
    if t != s {
      forall q | s.process.pc + 1 > LearnIndex(q)
        ensures t.process.mem.Of(q).uuid.Some? && t.process.mem.Of(q).uuid.value in t.host.profiles
             && Some(t.host.profiles[t.process.mem.Of(q).uuid.value].name) == t.process.mem.Of(q).name
      {
        assert q == r || s.process.pc > LearnIndex(q);
      }
    }
  }

  lemma BringUpAdvances(s: System, base: Host, c: bool, u: Uuid)
    requires Acting(s, base, c) && Progress(s) && SCRIPT[s.process.pc].BringUp?
    ensures Advances(s, u)
  {
    var r, mem := SCRIPT[s.process.pc].role, s.process.mem;
    assert s.process.pc == UpIndex(r);
    assert mem.Of(r).uuid.value in Named(s.host.profiles, mem.Of(r).name);
    forall q | s.process.pc + 1 > UpIndex(q) ensures q == r || s.process.pc > UpIndex(q) {}
    assert mem.original.value !in Named(s.host.profiles, mem.Of(r).name);
  }

  lemma OthersAdvance(s: System, base: Host, c: bool, u: Uuid)
    requires Acting(s, base, c) && Progress(s)
    requires var a := SCRIPT[s.process.pc]; !a.AddProfile? && !a.LearnUuid? && !a.BringUp? && !a.TakeDown?
    ensures Advances(s, u)
  {
  }

  lemma TakeDownAdvances(s: System, base: Host, c: bool, u: Uuid)
    requires Acting(s, base, c) && Progress(s) && SCRIPT[s.process.pc].TakeDown?
    ensures Advances(s, u)
  {
    assert s.process.pc == 13;
  }

  lemma StepKeepsProgress(s: System, base: Host, c: bool, e: Event)
    requires Inv(s, base, c) && Progress(s)
    ensures Progress(Step(s, e))
    ensures s.process.Activating? && Step(s, e).process.Active? ==>
              Built(Step(s, e).host, Step(s, e).process.mem, |SCRIPT|)
  {
    if e.Act? && s.process.Activating? && s.process.pc > 0 && e.outcome.Done? {
      match SCRIPT[s.process.pc]
      case AddProfile(_) => AddAdvances(s, base, c, e.uuid);
      case LearnUuid(_) => LearnAdvances(s, base, c, e.uuid);
      case BringUp(_) => BringUpAdvances(s, base, c, e.uuid);
      case TakeDown => TakeDownAdvances(s, base, c, e.uuid);
      case _ => OthersAdvance(s, base, c, e.uuid);
    }
  }

  lemma {:induction false} RunKeepsProgress(s: System, base: Host, events: seq<Event>)
    requires Inv(s, base, false) && Progress(s)
    ensures Inv(Run(s, events), base, false) && Progress(Run(s, events))
    decreases |events|
  {
    if events != [] {
      StepKeepsInv(s, base, false, events[0]);
      StepKeepsProgress(s, base, false, events[0]);
      RunKeepsProgress(Step(s, events[0]), base, events[1..]);
    }
  }

  /** An activation that reports success has the bridge interface, the three profiles existing under their
      journalled names and UUIDs and active, the original connection down, and all of it journalled; this holds
      even after an overwritten journal. */
  lemma SuccessfulActivation(s: System, events: seq<Event>, e: Event)
    requires Init(s)
    requires Run(s, events).process.Activating? && Step(Run(s, events), e).process.Active?
    ensures var t := Step(Run(s, events), e);
            Built(t.host, t.process.mem, |SCRIPT|)
  {
    StartInv(s);
    RunKeepsProgress(s, s.host, events);
    StepKeepsProgress(Run(s, events), s.host, false, e);
  }

  // ---------------------------------------------------------------- a working activation succeeds

  lemma {:induction false} FreshUuid(issued: set<Uuid>) returns (u: Uuid)
    ensures forall v | v in issued :: v < u
  {
    if issued == {} {
      u := 0;
    } else {
      var v :| v in issued;
      var w := FreshUuid(issued - {v});
      u := if v < w then w else v + 1;
      assert forall x | x in issued :: x == v || x in issued - {v};
    }
  }

  /** An answer with which the next command works. */
  lemma NextAct(s: System, base: Host) returns (e: Event)
    requires Inv(s, base, true) && Progress(s) && s.process.Activating?
    ensures e.Act? && e.outcome.Done? && Applies(s, e)
  {
    var a := SCRIPT[s.process.pc];
    if a.AddProfile? {
      var u := FreshUuid(s.issued);
      e := Act(Done, u);
    } else if a.LearnUuid? {
      LearnAfterAdd(s.process.pc);
      var u :| u in Named(s.host.profiles, s.process.mem.Of(a.role).name);
      e := Act(Done, u);
    } else {
      e := Act(Done, 0);
    }
  }

  lemma LearnAfterAdd(pc: nat)
    requires pc < |SCRIPT| && SCRIPT[pc].LearnUuid?
    ensures pc > AddIndex(SCRIPT[pc].role)
  {
    assert pc == 4 || pc == 8 || pc == 11;
  }

  lemma ActProceeds(s: System, e: Event)
    requires Applies(s, e) && e.outcome.Done?
    ensures var p := Step(s, e).process;
            if s.process.pc + 1 == |SCRIPT| then p.Active? else p.Activating? && p.pc == s.process.pc + 1
  {
  }

  lemma {:induction false} FinishActivation(s: System, base: Host) returns (events: seq<Event>)
    requires Inv(s, base, true) && Progress(s) && s.process.Activating?
    requires s.process.pc == 0 ==> s.host.journal.None?
    ensures Run(s, events).process.Active? && forall i | 0 <= i < |events| :: events[i].Act? && events[i].outcome.Done?
    decreases |SCRIPT| - s.process.pc
  {
    var e := NextAct(s, base);
    ActProceeds(s, e);
    StepKeepsInv(s, base, true, e);
    StepKeepsProgress(s, base, true, e);
    var next := Step(s, e);
    var rest := [];
    if s.process.pc + 1 < |SCRIPT| {
      rest := FinishActivation(next, base);
    }
    events := [e] + rest;
    assert events[1..] == rest;
  }

  /** From every ready state without a journal, an activation of an active user connection with new names and working
      commands succeeds. */
  lemma ActivationSucceeds(s: System, before: seq<Event>, u: Uuid, b: Name, l: Name, g: Name)
    returns (events: seq<Event>)
    requires Init(s) && AllCareful(s, s.host, before)
    requires var m := Run(s, before);
             && m.process.Ready? && m.host.journal.None? && IsUser(s.host, u) && u in m.host.active
             && b != l && b != g && l != g && {b, l, g} !! m.owned
             && forall v | v in m.host.profiles :: m.host.profiles[v].name !in {b, l, g}
    ensures Run(Run(s, before), [ResetLink(Done, {}), Select(u, b, l, g)] + events).process.Active?
    ensures forall i | 0 <= i < |events| :: events[i].Act? && events[i].outcome.Done?
  {
    StartInv(s);
    RunKeepsInv(s, s.host, true, before);
    var m := Run(s, before);
    var reset := Step(m, ResetLink(Done, {}));
    var selected := Step(reset, Select(u, b, l, g));
    StepKeepsInv(m, s.host, true, ResetLink(Done, {}));
    StepKeepsInv(reset, s.host, true, Select(u, b, l, g));
    ResetKeepsUser(m, s.host, u);
    events := FinishActivation(selected, s.host);
    var all := [ResetLink(Done, {}), Select(u, b, l, g)] + events;
    assert all[1..][1..] == events;
  }

  /** An activation that ends before it chose its names leaves the process ready, with nothing of its own; only the
      profiles bound to the reserved interface and that interface are gone. */
  lemma NothingBegun(m: System)
    requires m.process.Ready?
    ensures var t := Run(m, [ResetLink(Done, {}), GiveUp]);
            && t.process.Ready? && t.owned == m.owned && t.issued == m.issued && t.host.journal == m.host.journal
            && t.host.link.Absent?
            && (forall u :: u in t.host.profiles <==> u in m.host.profiles && !m.host.profiles[u].reserved)
            && (forall u | u in t.host.profiles :: t.host.profiles[u] == m.host.profiles[u])
            && (forall u | u in t.host.profiles :: u in t.host.active <==> u in m.host.active)
  {
    var a := Step(m, ResetLink(Done, {}));
    RunHead(m, ResetLink(Done, {}), [GiveUp]);
    RunHead(a, GiveUp, []);
    assert [GiveUp] + [] == [GiveUp];
  }

  lemma ResetKeepsUser(m: System, base: Host, u: Uuid)
    requires Inv(m, base, true) && m.process.Ready? && IsUser(base, u) && u in m.host.active
    ensures var t := Step(m, ResetLink(Done, {}));
            && t.process.Selecting? && u in t.host.active && u in t.host.profiles && t.owned == m.owned
            && t.host.journal == m.host.journal && t.host.profiles.Keys <= m.host.profiles.Keys
            && forall v | v in t.host.profiles :: t.host.profiles[v] == m.host.profiles[v]
  {
  }
}
