/** Writing a media configuration into one mass-storage LUN (src/otg/msd.rs:168-236, 259-366, 454-488).

    The configfs attributes are fields; their contents are the trimmed text.  A read may fail and then counts as
    the empty text; a write may fail and then changes nothing. */
module LunConfig {
  import opened Common

  datatype Attr = Cdrom | Ro | Removable | Nofua
  datatype Config = Config(file: string, cdrom: bool, ro: bool, removable: bool, nofua: bool)
  datatype Status = Written | Busy | Failed

  datatype Error =
    | OutsideCapacity
    | NoSuchLun
    | UdcUnreadable
    | UnbindFailed
    | ClearFailed
    | FlagFailed(attr: Attr)
    | InquiryFailed
    | FileFailed(last: Status)
  {
    /** The errors found before the LUN is touched. */
    predicate Early() { OutsideCapacity? || NoSuchLun? || UdcUnreadable? || UnbindFailed? }
  }

  /** `RebindFailed` carries the error of the attribute step, if that failed too. */
  datatype Outcome = Ok | Err(error: Error) | RebindFailed(configure: Option<Error>)

  const ATTEMPTS: nat := 5

  function Flag(b: bool): string {
    if b then "1" else "0"
  }

  function Wanted(c: Config, a: Attr): string {
    match a
    case Cdrom => Flag(c.cdrom)
    case Ro => Flag(c.ro)
    case Removable => Flag(c.removable)
    case Nofua => Flag(c.nofua)
  }

  /** The four flags are those of the request. */
  predicate Requested(flags: Attr -> string, c: Config) {
    && flags(Cdrom) == (if c.cdrom then "1" else "0") && flags(Ro) == (if c.ro then "1" else "0")
    && flags(Removable) == (if c.removable then "1" else "0") && flags(Nofua) == (if c.nofua then "1" else "0")
  }

  /** Every flag is as it was or as requested. */
  predicate Between(now: Attr -> string, was: Attr -> string, c: Config) {
    && (now(Cdrom) == was(Cdrom) || now(Cdrom) == if c.cdrom then "1" else "0")
    && (now(Ro) == was(Ro) || now(Ro) == if c.ro then "1" else "0")
    && (now(Removable) == was(Removable) || now(Removable) == if c.removable then "1" else "0")
    && (now(Nofua) == was(Nofua) || now(Nofua) == if c.nofua then "1" else "0")
  }

  /** The retry loop's answers: only a busy file is tried again, five times at most. */
  predicate Retried(tries: seq<Status>, ok: bool) {
    && 1 <= |tries| <= ATTEMPTS
    && (forall i | 0 <= i < |tries| - 1 :: tries[i] == Busy)
    && (ok <==> tries[|tries| - 1] == Written)
    && (tries[|tries| - 1] == Busy ==> |tries| == ATTEMPTS)
  }

  class Lun {
    const capacity: nat
    const number: nat
    const created: bool
    const forcedEject: bool              // the attribute exists
    const reliable: bool                 // every read and write works
    const flashInquiry: string
    const cdromInquiry: string
    var flags: Attr -> string
    var file: string                     // empty: no medium
    var inquiry: Option<string>          // None: the attribute does not exist
    var inquiryCdrom: Option<string>
    var udc: Option<string>              // empty: unbound; None: no UDC attribute
    ghost var udcWrites: seq<string>

    method ReadFlag(a: Attr) returns (text: string)
      ensures text == "" || text == flags(a)
      ensures reliable ==> text == flags(a)
    {
      var ok: bool := *;
      text := if ok || reliable then flags(a) else "";
    }

    method WriteFlag(a: Attr, text: string) returns (ok: bool)
      modifies this`flags
      ensures flags(a) == if ok then text else old(flags)(a)
      ensures forall b | b != a :: flags(b) == old(flags)(b)
      ensures reliable ==> ok
    {
      ok := *;
      ok := ok || reliable;
      if ok {
        var was := flags;
        flags := b => if b == a then text else was(b);
      }
    }

    method WriteFile(text: string) returns (s: Status)
      modifies this`file
      ensures file == if s == Written then text else old(file)
      ensures reliable ==> s == Written
    {
      var ok: bool, busy: bool := *, *;
      ok := ok || reliable;
      s := if ok then Written else if busy then Busy else Failed;
      if ok { file := text; }
    }

    /** The kernel drops the medium when the forced-eject attribute is written. */
    method WriteForcedEject() returns (ok: bool)
      modifies this`file
      ensures file == if ok then "" else old(file)
      ensures reliable ==> ok
    {
      ok := *;
      ok := ok || reliable;
      if ok { file := ""; }
    }

    method WriteUdc(text: string) returns (ok: bool)
      requires udc.Some?
      modifies this`udc, this`udcWrites
      ensures udc == if ok then Some(text) else old(udc)
      ensures udcWrites == old(udcWrites) + [text]
      ensures reliable ==> ok
    {
      ok := *;
      ok := ok || reliable;
      if ok { udc := Some(text); }
      udcWrites := udcWrites + [text];
    }

    /** The attribute that holds the inquiry string of a media type. */
    function SelectedInquiry(cdrom: bool): Option<string>
      reads this
    {
      if cdrom && inquiryCdrom.Some? then inquiryCdrom else inquiry
    }

    /** The attribute that belongs to the media type, if there is one, holds that type's text. */
    predicate Inquires(cdrom: bool)
      reads this
    {
      if cdrom && inquiryCdrom.Some? then inquiryCdrom == Some(cdromInquiry)
      else inquiry.Some? ==> inquiry == Some(if cdrom then cdromInquiry else flashInquiry)
    }

    function InquiryText(cdrom: bool): string {
      if cdrom then cdromInquiry else flashInquiry
    }

    /** The cdrom attribute, when a cdrom is asked for and the attribute exists, otherwise the generic one. */
    method WriteInquiryString(cdrom: bool) returns (ok: bool)
      modifies this`inquiry, this`inquiryCdrom
      ensures ok ==>
                if cdrom && old(inquiryCdrom).Some? then inquiryCdrom == Some(cdromInquiry) && inquiry == old(inquiry)
                else inquiryCdrom == old(inquiryCdrom)
                     && inquiry == (if old(inquiry).None? then None
                                    else Some(if cdrom then cdromInquiry else flashInquiry))
      ensures !ok ==> inquiry == old(inquiry) && inquiryCdrom == old(inquiryCdrom)
      ensures reliable ==> ok
    {
      if SelectedInquiry(cdrom).None? {
        return true;
      }
      ok := *;
      ok := ok || reliable;
      if ok {
        if cdrom && inquiryCdrom.Some? {
          inquiryCdrom := Some(InquiryText(cdrom));
        } else {
          inquiry := Some(InquiryText(cdrom));
        }
      }
    }

    /** forced_eject when it exists and works, otherwise an empty write to the file attribute. */
    method Eject() returns (ok: bool)
      modifies this`file
      ensures file == if ok then "" else old(file)
      ensures reliable ==> ok
    {
      if forcedEject {
        ok := WriteForcedEject();
        if ok {
          return;
        }
      }
      var s := WriteFile("");
      ok := s == Written;
    }

    /** Writes a flag only when its earlier reading differs from the request. */
    method UpdateFlag(a: Attr, current: string, c: Config) returns (ok: bool)
      requires current == "" || current == flags(a)
      modifies this`flags
      ensures ok ==> flags(a) == Wanted(c, a)
      ensures flags(a) == old(flags)(a) || flags(a) == Wanted(c, a)
      ensures forall b | b != a :: flags(b) == old(flags)(b)
      ensures reliable ==> ok
    {
      ok := true;
      if current != Wanted(c, a) {
        ok := WriteFlag(a, Wanted(c, a));
      }
    }

    method InsertFile(image: string) returns (s: Status, ghost tries: seq<Status>)
      modifies this`file
      ensures file == if s == Written then image else old(file)
      ensures Retried(tries, s == Written) && s == tries[|tries| - 1]
      ensures reliable ==> s == Written
    {
      tries := [];
      for attempt := 0 to ATTEMPTS
        invariant |tries| == attempt && forall i | 0 <= i < attempt :: tries[i] == Busy
        invariant file == old(file)
        invariant attempt < ATTEMPTS
      {
        s := WriteFile(image);
        tries := tries + [s];
        if s == Busy && attempt < ATTEMPTS - 1 {
          continue;
        }
        return;
      }
    }

    /** The three flags that need no inquiry string. */
    method UpdatePlainFlags(ro: string, removable: string, nofua: string, c: Config) returns (r: Outcome)
      requires (ro == "" || ro == flags(Ro)) && (removable == "" || removable == flags(Removable))
      requires nofua == "" || nofua == flags(Nofua)
      modifies this`flags
      ensures r == Ok || (r.Err? && r.error.FlagFailed?)
      ensures reliable ==> r == Ok
      ensures Between(flags, old(flags), c) && flags(Cdrom) == old(flags)(Cdrom)
      ensures r == Ok && flags(Cdrom) == Wanted(c, Cdrom) ==> Requested(flags, c)
    {
      var ok := UpdateFlag(Ro, ro, c);
      if !ok { return Err(FlagFailed(Ro)); }
      ok := UpdateFlag(Removable, removable, c);
      if !ok { return Err(FlagFailed(Removable)); }
      ok := UpdateFlag(Nofua, nofua, c);
      r := if ok then Ok else Err(FlagFailed(Nofua));
    }

    /** The media type and, when its reading differed, the inquiry string that goes with it. */
    method UpdateMediaType(cdrom: string, c: Config) returns (r: Outcome)
      requires cdrom == "" || cdrom == flags(Cdrom)
      modifies this`flags, this`inquiry, this`inquiryCdrom
      ensures r == Ok || (r.Err? && (r.error.FlagFailed? || r.error.InquiryFailed?))
      ensures reliable ==> r == Ok
      ensures r == Ok ==> flags(Cdrom) == Wanted(c, Cdrom)
      ensures flags(Cdrom) == old(flags)(Cdrom) || flags(Cdrom) == Wanted(c, Cdrom)
      ensures forall b | b != Cdrom :: flags(b) == old(flags)(b)
      ensures r == Ok && cdrom != Wanted(c, Cdrom) ==> Inquires(c.cdrom)
    {
      var ok := UpdateFlag(Cdrom, cdrom, c);
      if !ok { return Err(FlagFailed(Cdrom)); }
      if cdrom != Wanted(c, Cdrom) {
        ok := WriteInquiryString(c.cdrom);
        if !ok { return Err(InquiryFailed); }
      }
      r := Ok;
    }

    method UpdateFlags(c: Config) returns (r: Outcome)
      modifies this`flags, this`inquiry, this`inquiryCdrom, this`file
      ensures r == Ok || (r.Err? && (r.error.ClearFailed? || r.error.FlagFailed? || r.error.InquiryFailed?))
      ensures reliable ==> r == Ok
      ensures file == if r == Err(ClearFailed) then old(file) else ""
      ensures Between(flags, old(flags), c) && (r == Ok ==> Requested(flags, c))
      ensures r == Ok && old(flags)(Cdrom) != Wanted(c, Cdrom) ==> Inquires(c.cdrom)
    {
      var cdrom := ReadFlag(Cdrom);
      var ro := ReadFlag(Ro);
      var removable := ReadFlag(Removable);
      var nofua := ReadFlag(Nofua);
      var ok := Eject();
      if !ok { return Err(ClearFailed); }
      r := UpdateMediaType(cdrom, c);
      if r == Ok {
        r := UpdatePlainFlags(ro, removable, nofua, c);
      }
    }

    method ConfigureAttributes(c: Config, present: bool) returns (r: Outcome, ghost tries: seq<Status>)
      modifies this`flags, this`file, this`inquiry, this`inquiryCdrom
      ensures !r.RebindFailed? && (r.Err? ==> !r.error.Early())
      ensures reliable ==> r == Ok
      ensures r == Ok ==> Requested(flags, c) && file == if present then c.file else ""
      ensures r.Err? ==> Between(flags, old(flags), c) && file == if r.error.ClearFailed? then old(file) else ""
      ensures r == Ok && old(flags)(Cdrom) != Wanted(c, Cdrom) ==> Inquires(c.cdrom)
      ensures if r == Ok && present then Retried(tries, true)
              else if r.Err? && r.error.FileFailed? then Retried(tries, false)
              else tries == []
    {
      tries := [];
      r := UpdateFlags(c);
      if r == Ok && present {
        var s;
        s, tries := InsertFile(c.file);
        if s != Written { r := Err(FileFailed(s)); }
      }
    }

    /** The UDC ends as it began exactly when the rebind did not fail; otherwise it is left unbound.  It is not
        written when the media type reads as requested or no UDC is bound.  `seen` is what the reading gave. */
    method ConfigureLun(c: Config, present: bool) returns (r: Outcome, ghost seen: string, ghost tries: seq<Status>)
      modifies this
      ensures reliable && number < capacity && created ==> r == Ok
      ensures udc == old(udc) <==> !r.RebindFailed?
      ensures r.RebindFailed? ==> udc == Some("")
      ensures seen == "" || seen == old(flags)(Cdrom)
      ensures seen == Wanted(c, Cdrom) || old(udc) == None || old(udc) == Some("") ==>
                udcWrites == old(udcWrites) && !r.RebindFailed?
      ensures udcWrites == old(udcWrites)
              || (r == Err(UnbindFailed) && udcWrites == old(udcWrites) + [""])
              || (r != Err(UnbindFailed) && old(udc).Some? && udcWrites == old(udcWrites) + ["", old(udc).value])
      ensures seen != Wanted(c, Cdrom) && old(udc).Some? && old(udc).value != "" && (r == Ok || r.RebindFailed?) ==>
                udcWrites == old(udcWrites) + ["", old(udc).value]
      ensures r == Ok && old(flags)(Cdrom) != (if c.cdrom then "1" else "0") ==> Inquires(c.cdrom)
      ensures r == Ok || r == RebindFailed(None) ==> Requested(flags, c) && file == if present then c.file else ""
      ensures r.Err? && r.error.Early() ==> flags == old(flags) && file == old(file)
      ensures (number >= capacity <==> r == Err(OutsideCapacity))
              && (number < capacity && !created <==> r == Err(NoSuchLun))
      ensures forall e | (r == Err(e) && !e.Early()) || r == RebindFailed(Some(e)) ::
                Between(flags, old(flags), c) && file == if e.ClearFailed? then old(file) else ""
      ensures if (r == Ok || r == RebindFailed(None)) && present then Retried(tries, true)
              else if r.Err? && r.error.FileFailed? then Retried(tries, false)
              else |tries| <= ATTEMPTS
    {
      seen, tries := "", [];
      if number >= capacity { return Err(OutsideCapacity), "", []; }
      if !created { return Err(NoSuchLun), "", []; }
      var current := ReadFlag(Cdrom);
      seen := current;
      var bound := "";
      if current != Wanted(c, Cdrom) && udc.Some? {
        var readable: bool := *;
        if !readable && !reliable { return Err(UdcUnreadable), seen, []; }
        bound := udc.value;
      }
      var ok;
      if bound != "" {
        ok := WriteUdc("");
        if !ok { return Err(UnbindFailed), seen, []; }
      }
      r, tries := ConfigureAttributes(c, present);
      if bound != "" {
        ok := WriteUdc(bound);
        if !ok {
          r := RebindFailed(if r == Ok then None else Some(r.error));
        }
      }
    }

    /** A failed disconnect leaves the medium in place. */
    method DisconnectLun() returns (ok: bool)
      modifies this`file
      ensures number >= capacity ==> !ok
      ensures reliable && number < capacity ==> ok
      ensures file == if ok && created then "" else old(file)
    {
      if number >= capacity { return false; }
      if !created { return true; }
      ok := Eject();
    }
  }
}
