/** The virtual-media controller: a slot allocator over an unreliable USB gadget
    (src/msd/controller.rs, src/msd/types.rs). */
module MsdController {
  import opened Common
  import L = LunConfig

  datatype Error = Unavailable | ResourceNotFound | AlreadyMounted | InvalidRequest | SlotsFull
                 | DriveNotInitialized | OperationFailed | DisconnectFailed

  datatype Result<+T> = Ok(value: T) | Err(error: Error)

  datatype DiskMode = Single | Multi {
    function Capacity(): nat {
      match this case Single => 1 case Multi => 8
    }
  }

  datatype Kind = Drive | Image

  datatype Media = Media(id: string, kind: Kind, cdrom: bool, readOnly: bool, lun: nat, path: string)

  /** The attributes written to one LUN. */
  datatype LunConfig = LunConfig(file: string, cdrom: bool, ro: bool, removable: bool, nofua: bool)

  function ImageMedia(lun: nat, id: string, path: string, cdrom: bool, readOnly: bool): Media {
    Media(id, Image, cdrom, cdrom || readOnly, lun, path)
  }

  function DriveMedia(lun: nat, path: string): Media {
    Media("drive", Drive, false, false, lun, path)
  }

  function MediaConfig(m: Media): LunConfig {
    if m.cdrom then LunConfig(m.path, true, true, true, true)
    else LunConfig(m.path, false, m.readOnly, true, false)
  }

  /** What the host is shown of a medium: its file, as a read-only cdrom or as a disk that is read-only exactly when
      the medium is; a disk honours forced unit access. */
  predicate Exposes(c: LunConfig, m: Media) {
    c.file == m.path && c.cdrom == m.cdrom && c.ro == (m.cdrom || m.readOnly) && c.removable && c.nofua == m.cdrom
  }

  // ---------------------------------------------------------------- slots

  predicate Taken(ms: seq<Media>, lun: nat) {
    exists i :: 0 <= i < |ms| && ms[i].lun == lun
  }

  /** The first free LUN at or above `from`. */
  function FreeFrom(ms: seq<Media>, from: nat, capacity: nat): (r: Option<nat>)
    requires from <= capacity
    ensures r.Some? ==> from <= r.value < capacity && !Taken(ms, r.value)
                        && forall l | from <= l < r.value :: Taken(ms, l)
    ensures r.None? ==> forall l | from <= l < capacity :: Taken(ms, l)
    decreases capacity - from
  {
    if from == capacity then None
    else if Taken(ms, from) then FreeFrom(ms, from + 1, capacity)
    else Some(from)
  }

  function LowestFreeLun(ms: seq<Media>, mode: DiskMode): Option<nat> {
    FreeFrom(ms, 0, mode.Capacity())
  }

  function SelectLun(ms: seq<Media>, mode: DiskMode, requested: Option<nat>): Result<nat> {
    match requested
    case None =>
      (match LowestFreeLun(ms, mode) case Some(l) => Ok(l) case None => Err(SlotsFull))
    case Some(l) =>
      if l >= mode.Capacity() then Err(InvalidRequest)
      else if Taken(ms, l) then Err(SlotsFull)
      else Ok(l)
  }

  /** Slots are distinct and below capacity, no image is mounted twice and at most one drive is mounted. */
  ghost predicate ListOk(ms: seq<Media>, mode: DiskMode) {
    && (forall i | 0 <= i < |ms| :: ms[i].lun < mode.Capacity())
    && (forall i, j | 0 <= i < j < |ms| :: ms[i].lun != ms[j].lun)
    && (forall i, j | 0 <= i < j < |ms| && ms[i].kind == ms[j].kind :: ms[i].kind.Image? && ms[i].id != ms[j].id)
  }

  function Luns(ms: seq<Media>): (r: set<nat>)
    ensures forall l :: l in r <==> Taken(ms, l)
  {
    set i | 0 <= i < |ms| :: ms[i].lun
  }

  lemma {:induction false} DistinctLunsCount(ms: seq<Media>)
    requires forall i, j | 0 <= i < j < |ms| :: ms[i].lun != ms[j].lun
    ensures |Luns(ms)| == |ms|
  {
    if ms != [] {
      var n := |ms| - 1;
      DistinctLunsCount(ms[..n]);
      assert Luns(ms) == Luns(ms[..n]) + {ms[n].lun};
    }
  }

  function Below(n: nat): (r: set<nat>)
    ensures |r| == n && forall l: nat :: l in r <==> l < n
  {
    if n == 0 then {} else Below(n - 1) + {n - 1}
  }

  lemma SubsetCount<T>(a: set<T>, b: set<T>)
    requires a <= b
    ensures |a| <= |b| && (|a| == |b| <==> a == b)
  {
    assert b == a + (b - a);
  }

  /** Pigeonhole: automatic allocation reports the slots full exactly when the mounted count is the capacity. */
  lemma FullExactlyAtCapacity(ms: seq<Media>, mode: DiskMode)
    requires ListOk(ms, mode)
    ensures |ms| <= mode.Capacity()
    ensures SelectLun(ms, mode, None) == Err(SlotsFull) <==> |ms| == mode.Capacity()
    ensures SelectLun(ms, mode, None).Ok? ==>
              var l := SelectLun(ms, mode, None).value;
              l < mode.Capacity() && !Taken(ms, l) && forall k | 0 <= k < l :: Taken(ms, k)
  {
    var all := Below(mode.Capacity());
    DistinctLunsCount(ms);
    assert Luns(ms) <= all by {
      forall l | l in Luns(ms) ensures l in all { var i :| 0 <= i < |ms| && ms[i].lun == l; }
    }
    SubsetCount(Luns(ms), all);
    assert LowestFreeLun(ms, mode).None? <==> Luns(ms) == all;
  }

  // ---------------------------------------------------------------- the gadget

  /** configure_lun succeeds, fails after it emptied the LUN, fails before it could, or has written the LUN and
      failed to rebind the UDC. */
  datatype Configured = Written | Cleared | Untouched | NotRebound

  function AfterConfigure(luns: map<nat, LunConfig>, lun: nat, c: LunConfig, o: Configured): map<nat, LunConfig> {
    match o
    case Written => luns[lun := c]
    case NotRebound => luns[lun := c]
    case Cleared => luns - {lun}
    case Untouched => luns
  }

  /** The LUNs left configured without belonging to a mounted medium. */
  function StraysAfter(strays: map<nat, LunConfig>, lun: nat, c: LunConfig, o: Configured): map<nat, LunConfig> {
    match o
    case NotRebound => strays[lun := c]
    case Untouched => strays
    case _ => strays - {lun}
  }

  /** What the controller's view keeps of configure_lun's answer. */
  function OutcomeOf(r: L.Outcome): Configured {
    match r
    case Ok => Written
    case RebindFailed(None) => NotRebound
    case RebindFailed(Some(e)) => if e.ClearFailed? then Untouched else Cleared
    case Err(e) => if e.Early() || e.ClearFailed? then Untouched else Cleared
  }

  /** These outcomes are those of one LUN: the medium is the image, none, or what it was. */
  method ConfigureOne(lun: L.Lun, c: L.Config, present: bool) returns (o: Configured)
    modifies lun
    ensures lun.file == match o
                        case Written => if present then c.file else ""
                        case NotRebound => if present then c.file else ""
                        case Cleared => ""
                        case Untouched => old(lun.file)
    ensures o.NotRebound? ==> lun.udc == Some("") && old(lun.udc) != lun.udc
    ensures o.Written? ==> lun.udc == old(lun.udc)
  {
    ghost var seen, tries;
    var r;
    r, seen, tries := lun.ConfigureLun(c, present);
    o := OutcomeOf(r);
  }

  /** The gadget holds exactly the media of the list. */
  ghost predicate Agrees(luns: map<nat, LunConfig>, ms: seq<Media>) {
    && (forall l :: l in luns <==> Taken(ms, l))
    && (forall i | 0 <= i < |ms| :: Exposes(luns[ms[i].lun], ms[i]))
  }

  /** A failed configure of a free slot keeps the list right exactly when it is not the configured-but-not-rebound
      outcome. */
  lemma FailedConfigureAgrees(luns: map<nat, LunConfig>, ms: seq<Media>, lun: nat, c: LunConfig, o: Configured)
    requires Agrees(luns, ms) && !Taken(ms, lun) && !o.Written?
    ensures Agrees(AfterConfigure(luns, lun, c, o), ms) <==> !o.NotRebound?
  {
    if o.Cleared? {
      assert luns - {lun} == luns;
    } else if o.NotRebound? {
      assert lun in AfterConfigure(luns, lun, c, o);
    }
  }

  /** OtgService and MsdFunction seen from the controller. Outcomes are arbitrary. `strays` are the LUNs that a
      configure wrote before it failed to rebind the UDC, and that no later operation cleared. */
  class Gadget {
    const configures: bool            // every configure works
    const ejects: bool                // every disconnect works
    const offers: nat -> bool       // a change to this capacity works and gives a function handle
    var luns: map<nat, LunConfig>
    var capacity: nat
    ghost var strays: map<nat, LunConfig>

    ghost predicate Valid()
      reads this
    {
      forall l | l in strays :: l in luns && luns[l] == strays[l]
    }

    /** What the gadget holds apart from the strays. */
    ghost function Core(): map<nat, LunConfig>
      reads this
    {
      luns - strays.Keys
    }

    /** A capacity change that succeeds rebuilds the gadget with empty LUNs; a failed one leaves anything. */
    method SetCapacity(n: nat) returns (ok: bool)
      modifies this
      ensures Valid() && (ok ==> capacity == n && luns == map[] && strays == map[]) && (offers(n) ==> ok)
    {
      ok := *;
      ok := ok || offers(n);
      luns, capacity := *, *;
      strays := map[];
      if ok {
        luns, capacity := map[], n;
      }
    }

    /** Apart from the strays, a failed configure leaves its LUN empty or as it was; the not-rebound outcome makes a
        stray. */
    method Configure(lun: nat, c: LunConfig) returns (ok: bool, ghost o: Configured)
      requires Valid()
      modifies this
      ensures Valid() && capacity == old(capacity) && (ok <==> o.Written?) && (configures ==> ok)
      ensures luns == AfterConfigure(old(luns), lun, c, o)
      ensures strays == StraysAfter(old(strays), lun, c, o)
      ensures Core() == if ok then old(Core())[lun := c] else if o.Untouched? then old(Core()) else old(Core()) - {lun}
    {
      ok := *;
      ok := ok || configures;
      var written: bool, touched: bool := *, *;
      o := if ok then Written else if written then NotRebound else if touched then Cleared else Untouched;
      if ok || written {
        luns := luns[lun := c];
      } else if touched {
        luns := luns - {lun};
      }
      strays := StraysAfter(strays, lun, c, o);
    }

    /** A failed disconnect leaves its LUN unchanged. */
    method Disconnect(lun: nat) returns (ok: bool)
      requires Valid()
      modifies this
      ensures Valid() && capacity == old(capacity)
      ensures luns == if ok then old(luns) - {lun} else old(luns)
      ensures strays == if ok then old(strays) - {lun} else old(strays)
      ensures Core() == if ok then old(Core()) - {lun} else old(Core())
      ensures ejects ==> ok
    {
      ok := *;
      ok := ok || ejects;
      if ok {
        luns, strays := luns - {lun}, strays - {lun};
      }
    }
  }

  // ---------------------------------------------------------------- the controller

  /** The medium is a new image, or the first drive. */
  predicate Addable(ms: seq<Media>, media: Media) {
    forall m | m in ms :: m.kind == media.kind ==> m.kind.Image? && m.id != media.id
  }

  lemma DriveAddable(ms: seq<Media>, lun: nat, path: string)
    requires forall m | m in ms :: !m.kind.Drive?
    ensures Addable(ms, DriveMedia(lun, path))
  {
  }

  lemma AddAgrees(luns: map<nat, LunConfig>, ms: seq<Media>, m: Media)
    requires Agrees(luns, ms) && !Taken(ms, m.lun)
    ensures Agrees(luns[m.lun := MediaConfig(m)], ms + [m])
  {
    var all := ms + [m];
    assert all[|ms|] == m;
    forall l ensures Taken(all, l) <==> Taken(ms, l) || l == m.lun {
      if Taken(ms, l) { var i :| 0 <= i < |ms| && ms[i].lun == l; assert all[i].lun == l; }
    }
  }

  lemma RemoveAgrees(luns: map<nat, LunConfig>, ms: seq<Media>, k: nat)
    requires Agrees(luns, ms) && k < |ms|
    requires forall i, j | 0 <= i < j < |ms| :: ms[i].lun != ms[j].lun
    ensures Agrees(luns - {ms[k].lun}, ms[..k] + ms[k + 1..])
  {
    var rest := ms[..k] + ms[k + 1..];
    forall l ensures Taken(rest, l) <==> Taken(ms, l) && l != ms[k].lun {
      if Taken(ms, l) && l != ms[k].lun {
        var i :| 0 <= i < |ms| && ms[i].lun == l;
        assert rest[if i < k then i else i - 1].lun == l;
      }
    }
  }

  lemma TakenHead(m: Media, rest: seq<Media>, l: nat)
    ensures Taken([m] + rest, l) <==> Taken(rest, l) || l == m.lun
  {
    var ms := [m] + rest;
    if Taken(rest, l) {
      var i :| 0 <= i < |rest| && rest[i].lun == l;
      assert ms[i + 1].lun == l;
    } else if l == m.lun {
      assert ms[0].lun == l;
    }
  }

  lemma HeadAgrees(luns: map<nat, LunConfig>, m: Media, rest: seq<Media>)
    requires Agrees(luns, [m] + rest) && !Taken(rest, m.lun)
    ensures Agrees(luns - {m.lun}, rest)
  {
    var ms := [m] + rest;
    var luns' := luns - {m.lun};
    forall l ensures l in luns' <==> Taken(rest, l) {
      TakenHead(m, rest, l);
    }
    forall i | 0 <= i < |rest| ensures Exposes(luns'[rest[i].lun], rest[i]) {
      assert ms[i + 1] == rest[i];
    }
  }

  /** The list without its first `n` entries loses the next one. */
  lemma DropAgrees(luns: map<nat, LunConfig>, ms: seq<Media>, n: nat)
    requires n < |ms| && Agrees(luns, ms[n..])
    requires forall i, j | 0 <= i < j < |ms| :: ms[i].lun != ms[j].lun
    ensures Agrees(luns - {ms[n].lun}, ms[n + 1..])
  {
    assert ms[n..] == [ms[n]] + ms[n + 1..];
    HeadAgrees(luns, ms[n], ms[n + 1..]);
  }

  /** The entries after the first `n`, followed by the first `i`, gain entry `i`. */
  lemma RestoreAgrees(luns: map<nat, LunConfig>, ms: seq<Media>, n: nat, i: nat)
    requires i < n <= |ms| && Agrees(luns, ms[n..] + ms[..i])
    requires forall i, j | 0 <= i < j < |ms| :: ms[i].lun != ms[j].lun
    ensures Agrees(luns[ms[i].lun := MediaConfig(ms[i])], ms[n..] + ms[..i + 1])
  {
    var part := ms[n..] + ms[..i];
    assert forall k | 0 <= k < |part| :: part[k] == ms[if k < |ms| - n then n + k else k - (|ms| - n)];
    assert !Taken(part, ms[i].lun);
    AddAgrees(luns, part, ms[i]);
    assert part + [ms[i]] == ms[n..] + ms[..i + 1];
  }

  lemma RemoveKeepsListOk(ms: seq<Media>, mode: DiskMode, k: nat)
    requires ListOk(ms, mode) && k < |ms|
    ensures ListOk(ms[..k] + ms[k + 1..], mode)
  {
  }

  lemma PermutedAgrees(luns: map<nat, LunConfig>, a: seq<Media>, b: seq<Media>)
    requires Agrees(luns, a + b)
    ensures Agrees(luns, b + a)
  {
    forall l ensures Taken(b + a, l) <==> Taken(a + b, l) {
      if Taken(a + b, l) {
        var i :| 0 <= i < |a + b| && (a + b)[i].lun == l;
        assert (b + a)[if i < |a| then i + |b| else i - |a|].lun == l;
      }
      if Taken(b + a, l) {
        var i :| 0 <= i < |b + a| && (b + a)[i].lun == l;
        assert (a + b)[if i < |b| then i + |a| else i - |b|].lun == l;
      }
    }
    forall i | 0 <= i < |b + a| ensures Exposes(luns[(b + a)[i].lun], (b + a)[i]) {
      assert (b + a)[i] == (a + b)[if i < |b| then i + |a| else i - |b|];
    }
  }

  /** While no configure was left not rebound, the list is all that the gadget holds; otherwise the gadget holds the
      strays besides, none of them in a slot of the list. */
  lemma ListAndStrays(g: Gadget, ms: seq<Media>)
    requires g.Valid() && Agrees(g.Core(), ms)
    ensures g.strays == map[] ==> Agrees(g.luns, ms)
    ensures g.luns == g.Core() + g.strays && forall l | l in g.strays :: !Taken(ms, l)
    ensures Agrees(g.luns, ms) <==> g.strays == map[]
  {
    assert g.strays == map[] ==> g.Core() == g.luns;
    if l :| l in g.strays {
      assert l in g.luns && l !in g.Core();
    }
  }

  class Controller {
    const gadget: Gadget
    var available: bool
    var mode: DiskMode
    var mounted: seq<Media>
    var drive: Option<string>
    var hasFunction: bool
    var reenumerating: bool

    /** Between operations: the list is well formed and, while the controller is available, it is what the
        gadget holds apart from strays. */
    ghost predicate Valid()
      reads this, gadget
    {
      && ListOk(mounted, mode) && !reenumerating && gadget.Valid()
      && (available ==>
            && hasFunction
            && gadget.capacity == mode.Capacity() && Agrees(gadget.Core(), mounted))
    }

    constructor (g: Gadget)
      requires (g.capacity == 1 || g.capacity == 8) && g.luns == map[] && g.Valid()
      ensures Valid() && gadget == g && mounted == [] && available && mode.Capacity() == g.capacity
    {
      gadget := g;
      available := true;
      mode := if g.capacity == 1 then Single else Multi;
      mounted := [];
      drive := None;
      hasFunction := true;
      reenumerating := false;
    }

    method MountImage(id: string, path: string, present: bool, cdrom: bool, readOnly: bool, requested: Option<nat>)
      returns (r: Result<nat>)
      requires Valid()
      modifies this, gadget
      ensures Valid()
      ensures available == old(available) && mode == old(mode) && drive == old(drive) && hasFunction == old(hasFunction)
      ensures r.Ok? ==> old(available) && present && SelectLun(old(mounted), mode, requested) == r
                        && mounted == old(mounted) + [Media(id, Image, cdrom, cdrom || readOnly, r.value, path)]
                        && r.value in gadget.luns
                        && gadget.luns[r.value] == LunConfig(path, cdrom, cdrom || readOnly, true, cdrom)
      ensures r.Ok? && requested.Some? ==> r.value == requested.value
      ensures r.Err? ==> mounted == old(mounted)
      ensures !old(available) ==> r == Err(Unavailable)
      ensures old(available) && !present ==> r == Err(ResourceNotFound)
      ensures old(available) && present && (exists m | m in old(mounted) :: m.kind.Image? && m.id == id) ==>
                r == Err(AlreadyMounted)
      ensures (old(available) && present && (forall m | m in old(mounted) :: !(m.kind.Image? && m.id == id))
               && SelectLun(old(mounted), mode, requested).Err?) ==>
                r == SelectLun(old(mounted), mode, requested)
      ensures (old(available) && present && (forall m | m in old(mounted) :: !(m.kind.Image? && m.id == id))
               && SelectLun(old(mounted), mode, requested).Ok?) ==>
                r.Ok? || (r == Err(OperationFailed) && !gadget.configures)
    {
      if !available { return Err(Unavailable); }
      if !present { return Err(ResourceNotFound); }
      if exists m | m in mounted :: m.kind.Image? && m.id == id { return Err(AlreadyMounted); }
      var slot := SelectLun(mounted, mode, requested);
      if slot.Err? { return slot; }
      var media := ImageMedia(slot.value, id, path, cdrom, readOnly);
      ghost var o;
      r, o := Attach(media);
    }

    /** The common end of both mounts: configure the free LUN and append, or leave the list as it was. */
    method Attach(media: Media) returns (r: Result<nat>, ghost o: Configured)
      requires Valid() && available && media.lun < mode.Capacity() && !Taken(mounted, media.lun)
      requires Addable(mounted, media)
      modifies this`mounted, gadget
      ensures Valid()
      ensures r.Ok? ==> r.value == media.lun && mounted == old(mounted) + [media]
      ensures r.Err? ==> r.error == OperationFailed && mounted == old(mounted)
      ensures (r.Ok? <==> o.Written?) && (gadget.configures ==> r.Ok?)
      ensures gadget.luns == AfterConfigure(old(gadget.luns), media.lun, MediaConfig(media), o)
      ensures gadget.strays == StraysAfter(old(gadget.strays), media.lun, MediaConfig(media), o)
    {
      ghost var core := gadget.Core();
      var ok;
      ok, o := gadget.Configure(media.lun, MediaConfig(media));
      if !ok {
        FailedConfigureAgrees(core, mounted, media.lun, MediaConfig(media), Cleared);
        r := Err(OperationFailed);
        return;
      }
      AddAgrees(core, mounted, media);
      mounted := mounted + [media];
      r := Ok(media.lun);
    }

    method MountDrive(present: bool, path: string, metadata: bool) returns (r: Result<nat>)
      requires Valid()
      modifies this, gadget
      ensures Valid()
      ensures available == old(available) && mode == old(mode) && hasFunction == old(hasFunction)
      ensures r.Ok? ==> old(available) && present && LowestFreeLun(old(mounted), mode) == Some(r.value)
                        && drive.Some?
                        && mounted == old(mounted) + [Media("drive", Drive, false, false, r.value, drive.value)]
                        && r.value in gadget.luns
                        && gadget.luns[r.value] == LunConfig(drive.value, false, false, true, false)
      ensures r.Ok? ==> drive == if old(drive).Some? then old(drive) else Some(path)
      ensures r.Err? ==> mounted == old(mounted)
      ensures !old(available) ==> r == Err(Unavailable)
      ensures old(available) && !present ==> r == Err(DriveNotInitialized)
      ensures old(available) && present && (exists m | m in old(mounted) :: m.kind.Drive?) ==> r == Err(AlreadyMounted)
      ensures old(available) && present && (forall m | m in old(mounted) :: !m.kind.Drive?) ==>
                if old(drive).None? && !metadata then r == Err(DriveNotInitialized)
                else if LowestFreeLun(old(mounted), mode).None? then r == Err(SlotsFull)
                else r == Ok(LowestFreeLun(old(mounted), mode).value)
                     || (r == Err(OperationFailed) && !gadget.configures)
      ensures r == Err(OperationFailed) ==> drive == old(drive)
      ensures old(drive).Some? ==> drive == old(drive)
    {
      if !available { return Err(Unavailable); }
      if !present { return Err(DriveNotInitialized); }
      var previous := drive;
      if drive.None? && metadata {
        drive := Some(path);
      }
      if exists m | m in mounted :: m.kind.Drive? { return Err(AlreadyMounted); }
      if drive.None? { return Err(DriveNotInitialized); }
      var slot := LowestFreeLun(mounted, mode);
      if slot.None? { return Err(SlotsFull); }
      DriveAddable(mounted, slot.value, drive.value);
      ghost var o;
      r, o := Attach(DriveMedia(slot.value, drive.value));
      if r.Err? {
        drive := previous;
      }
    }

    /** disconnect_lun needs the function handle; without it, or when the gadget refuses, nothing changes. */
    method DisconnectLun(lun: nat) returns (ok: bool)
      requires gadget.Valid()
      modifies gadget
      ensures gadget.Valid() && gadget.capacity == old(gadget.capacity)
      ensures gadget.Core() == if ok then old(gadget.Core()) - {lun} else old(gadget.Core())
      ensures gadget.strays == if ok then old(gadget.strays) - {lun} else old(gadget.strays)
      ensures gadget.luns == if ok then old(gadget.luns) - {lun} else old(gadget.luns)
      ensures gadget.ejects && hasFunction ==> ok
    {
      if !hasFunction { return false; }
      ok := gadget.Disconnect(lun);
    }

    /** Unmounts the first medium that matches; Ok(false) when none does. */
    method Unmount(matches: Media -> bool) returns (r: Result<bool>)
      requires Valid()
      modifies this`mounted, gadget
      ensures Valid()
      ensures r == Ok(false) <==> forall i | 0 <= i < |old(mounted)| :: !matches(old(mounted)[i])
      ensures r == Ok(true) ==>
                exists k | 0 <= k < |old(mounted)| ::
                  && matches(old(mounted)[k]) && (forall i | 0 <= i < k :: !matches(old(mounted)[i]))
                  && mounted == old(mounted)[..k] + old(mounted)[k + 1..]
      ensures r != Ok(true) ==> mounted == old(mounted) && gadget.luns == old(gadget.luns)
      ensures gadget.ejects && hasFunction ==> r.Ok?
    {
      var k := 0;
      while k < |mounted| && !matches(mounted[k])
        invariant 0 <= k <= |mounted|
        invariant forall i | 0 <= i < k :: !matches(mounted[i])
      {
        k := k + 1;
      }
      if k == |mounted| { return Ok(false); }
      ghost var core := gadget.Core();
      var ok := DisconnectLun(mounted[k].lun);
      if !ok { return Err(DisconnectFailed); }
      if available {
        RemoveAgrees(core, mounted, k);
      }
      RemoveKeepsListOk(mounted, mode, k);
      mounted := mounted[..k] + mounted[k + 1..];
      return Ok(true);
    }

    /** Disconnects everything; on a refusal restores what was already disconnected. */
    method Disconnect() returns (r: Result<()>)
      requires Valid()
      modifies this`mounted, this`available, gadget
      ensures Valid()
      ensures r.Ok? ==> mounted == [] && available == old(available)
      ensures r.Err? ==> mounted == old(mounted) && (available ==> old(available))
      ensures gadget.ejects && hasFunction ==> r.Ok?
      ensures gadget.configures ==> available == old(available)
    {
      if mounted == [] { return Ok(()); }
      var n := 0;
      while n < |mounted|
        invariant 0 <= n <= |mounted| && gadget.Valid() && gadget.capacity == old(gadget.capacity)
        invariant mounted == old(mounted) && available == old(available)
        invariant available ==> Agrees(gadget.Core(), mounted[n..])
      {
        ghost var core := gadget.Core();
        var ok := DisconnectLun(mounted[n].lun);
        if !ok {
          var restored := Restore(n);
          if !restored {
            available := false;
          }
          return Err(DisconnectFailed);
        }
        if available {
          DropAgrees(core, mounted, n);
        }
        n := n + 1;
      }
      mounted := [];
      return Ok(());
    }

    /** Configures the first `n` media again, in order, while the rest is still in place. */
    method Restore(n: nat) returns (ok: bool)
      requires n <= |mounted| && ListOk(mounted, mode) && gadget.Valid()
      requires available ==> Agrees(gadget.Core(), mounted[n..])
      modifies gadget
      ensures gadget.Valid() && gadget.capacity == old(gadget.capacity)
      ensures ok && available ==> Agrees(gadget.Core(), mounted)
      ensures gadget.configures ==> ok
    {
      assert mounted[n..] + mounted[..0] == mounted[n..];
      for i := 0 to n
        invariant gadget.Valid() && gadget.capacity == old(gadget.capacity)
        invariant available ==> Agrees(gadget.Core(), mounted[n..] + mounted[..i])
      {
        ghost var core := gadget.Core();
        ghost var o;
        ok, o := gadget.Configure(mounted[i].lun, MediaConfig(mounted[i]));
        if !ok { return; }
        if available {
          RestoreAgrees(core, mounted, n, i);
        }
      }
      ok := true;
      if available {
        PermutedAgrees(gadget.Core(), mounted[n..], mounted[..n]);
        assert mounted[..n] + mounted[n..] == mounted;
      }
    }

    /** set_disk_mode: Ok(false) when nothing changes, Ok(true) with every slot empty in the new mode; a
        failure either rolled everything back or made the controller unavailable with an empty list. */
    method SetDiskMode(target: DiskMode) returns (r: Result<bool>)
      requires Valid()
      modifies this, gadget
      ensures Valid() && drive == old(drive)
      ensures !old(available) ==> r == Err(Unavailable)
      ensures r == Ok(false) <==> old(available) && target == old(mode)
      ensures r == Ok(true) ==> available && mode == target && mounted == [] && gadget.luns == map[]
      ensures r == Ok(false) || r == Err(Unavailable) ==>
                && available == old(available) && mode == old(mode) && mounted == old(mounted)
                && gadget.luns == old(gadget.luns) && gadget.strays == old(gadget.strays)
      ensures r.Err? && old(available) ==>
                && r.error == OperationFailed && mode == old(mode) && !gadget.offers(target.Capacity())
                && (gadget.offers(mode.Capacity()) && gadget.configures ==> available)
                && (if available then mounted == old(mounted) else mounted == [])
    {
      if !available { return Err(Unavailable); }
      if mode == target { return Ok(false); }
      reenumerating := true;
      var ok := gadget.SetCapacity(target.Capacity());
      var found: bool := *;                 // the new function handle may be missing
      found := found || gadget.offers(target.Capacity());
      if !ok || !found {
        var restored := RollbackModeSwitch();
        if !restored {
          available, mounted, reenumerating, hasFunction := false, [], false, false;
          return Err(OperationFailed);
        }
        reenumerating := false;
        return Err(OperationFailed);
      }
      hasFunction := true;
      mode, mounted, reenumerating := target, [], false;
      return Ok(true);
    }

    method RollbackModeSwitch() returns (ok: bool)
      requires ListOk(mounted, mode) && available
      modifies this`hasFunction, gadget
      ensures gadget.Valid()
      ensures gadget.offers(mode.Capacity()) && gadget.configures ==> ok
      ensures ok ==> hasFunction
                     && gadget.capacity == mode.Capacity() && Agrees(gadget.Core(), mounted)
    {
      ok := gadget.SetCapacity(mode.Capacity());
      if !ok { return; }
      ok := *;
      ok := ok || gadget.offers(mode.Capacity());
      if !ok { return; }
      hasFunction := true;
      ok := Restore(|mounted|);
    }
  }
}
