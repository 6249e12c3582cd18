/** Applying and reading back the CH9329's USB descriptor (src/hid/ch9329.rs:68-134, 443-683), against a chip that
    stores what it is sent.  Texts are their UTF-8 bytes; `utf8` says which byte strings are texts. */
module Descriptor {
  import opened Common

  datatype Error = Lost | ErrorReply | InvalidResponse | InvalidConfig
  datatype Result<T> = Ok(value: T) | Err(error: Error)
  datatype Kind = Manufacturer | Product | Serial

  datatype Config = Config(vendor: bv16, product: bv16, manufacturer: seq<Byte>, name: seq<Byte>,
                           serial: Option<seq<Byte>>)
  datatype State = State(descriptor: Config, manufacturerEnabled: bool, productEnabled: bool, serialEnabled: bool)

  const PARAM_LEN: nat := 50
  const IDS: nat := 11              // offset of the vendor and product ids
  const FLAGS: nat := 36            // offset of the string flags
  const STRING_MAX: nat := 23
  const RETRIES: nat := 3

  function Code(k: Kind): Byte {
    match k case Manufacturer => 0 case Product => 1 case Serial => 2
  }

  // ---------------------------------------------------------------- the parameter block

  predicate Layout(p: seq<bv8>) {
    && |p| == PARAM_LEN
    && p[0] in {0x00, 0x01, 0x02, 0x03, 0x80, 0x81, 0x82, 0x83}
    && p[1] in {0x00, 0x01, 0x02, 0x80, 0x81, 0x82}
  }

  function Low(x: bv16): bv8 { (x & 0xFF) as bv8 }
  function High(x: bv16): bv8 { (x >> 8) as bv8 }
  function FromLe(lo: bv8, hi: bv8): bv16 { (lo as bv16) | ((hi as bv16) << 8) }

  lemma LeRoundTrip(x: bv16, lo: bv8, hi: bv8)
    ensures FromLe(Low(x), High(x)) == x
    ensures Low(FromLe(lo, hi)) == lo && High(FromLe(lo, hi)) == hi
  {
  }

  /** The low byte comes first: 0x1A86 is stored as 0x86, 0x1A. */
  lemma LowByteFirst(x: bv16)
    ensures Low(0x1A86) == 0x86 && High(0x1A86) == 0x1A
    ensures Low(x) as bv16 == x & 0xFF && (High(x) as bv16) << 8 == x & 0xFF00
  {
  }

  /** The accepted work modes are 0 to 3 and the serial modes 0 to 2, each with or without the hardware bit. */
  lemma LayoutBits(p: seq<bv8>)
    ensures Layout(p) <==> |p| == PARAM_LEN && p[0] & 0x7C == 0 && p[1] & 0x7F <= 2
  {
    if |p| == PARAM_LEN {
      WorkMode(p[0]);
      SerialMode(p[1]);
    }
  }

  lemma WorkMode(m: bv8)
    ensures m in {0x00, 0x01, 0x02, 0x03, 0x80, 0x81, 0x82, 0x83} <==> m & 0x7C == 0
  {
  }

  lemma SerialMode(m: bv8)
    ensures m in {0x00, 0x01, 0x02, 0x80, 0x81, 0x82} <==> m & 0x7F <= 2
  {
  }

  predicate HasSerial(d: Config) {
    d.serial.Some? && d.serial.value != []
  }

  function NewFlags(old_: bv8, serial: bool): bv8 {
    var flags := (old_ & 0x78) | (0x80 | 0x04 | 0x02);
    if serial then flags | 0x01 else flags
  }

  /** The four meaningful bits are as wanted, the four others as before. */
  lemma FlagBits(b: bv8, serial: bool)
    ensures var f := NewFlags(b, serial);
            f & 0x80 != 0 && f & 0x04 != 0 && f & 0x02 != 0 && (f & 0x01 != 0 <==> serial) && f & 0x78 == b & 0x78
  {
  }

  /** The block that apply writes back. */
  function Patched(p: seq<bv8>, d: Config): seq<bv8>
    requires |p| == PARAM_LEN
  {
    p[IDS := Low(d.vendor)][IDS + 1 := High(d.vendor)][IDS + 2 := Low(d.product)][IDS + 3 := High(d.product)]
     [FLAGS := NewFlags(p[FLAGS], HasSerial(d))]
  }

  class ParameterConfig {
    const bytes: array<bv8>

    constructor (data: seq<bv8>)
      requires |data| == PARAM_LEN
      ensures fresh(bytes) && bytes[..] == data
    {
      bytes := new bv8[PARAM_LEN](i requires 0 <= i < PARAM_LEN => data[i]);
      new;
      assert bytes[..] == data;
    }

    method SetVidPid(vendor: bv16, product: bv16)
      requires bytes.Length == PARAM_LEN
      modifies bytes
      ensures bytes[..] == old(bytes[..])[IDS := Low(vendor)][IDS + 1 := High(vendor)]
                                         [IDS + 2 := Low(product)][IDS + 3 := High(product)]
    {
      bytes[IDS] := Low(vendor);
      bytes[IDS + 1] := High(vendor);
      bytes[IDS + 2] := Low(product);
      bytes[IDS + 3] := High(product);
    }

    method SetStringFlags(d: Config)
      requires bytes.Length == PARAM_LEN
      modifies bytes
      ensures bytes[..] == old(bytes[..])[FLAGS := NewFlags(old(bytes[FLAGS]), HasSerial(d))]
    {
      var flags := bytes[FLAGS] & 0x78;
      flags := flags | (0x80 | 0x04 | 0x02);
      if HasSerial(d) {
        flags := flags | 0x01;
      }
      bytes[FLAGS] := flags;
    }
  }

  /** Nothing but the ids and the string flags changes, and the block stays readable. */
  lemma PatchedElsewhere(p: seq<bv8>, d: Config, i: nat)
    requires Layout(p) && i < PARAM_LEN
    ensures Layout(Patched(p, d))
    ensures !(IDS <= i < IDS + 4) && i != FLAGS ==> Patched(p, d)[i] == p[i]
    ensures Patched(p, d)[FLAGS] & 0x78 == p[FLAGS] & 0x78
  {
    FlagBits(p[FLAGS], HasSerial(d));
  }

  // ---------------------------------------------------------------- USB strings

  function BuildUsbString(k: Kind, value: seq<Byte>): (r: Result<seq<Byte>>)
    ensures r.Ok? <==> |value| <= STRING_MAX
  {
    if |value| > STRING_MAX then Err(InvalidConfig) else Ok([Code(k), |value|] + value)
  }

  function ParseUsbString(data: seq<Byte>, utf8: seq<Byte> -> bool): Result<seq<Byte>> {
    if |data| < 2 then Err(InvalidResponse)
    else
      var len := data[1];
      if |data| < 2 + len || len > STRING_MAX then Err(InvalidResponse)
      else if utf8(data[2..2 + len]) then Ok(data[2..2 + len]) else Err(InvalidResponse)
  }

  /** The frame of a stored string parses to that string exactly when it is short enough and a text. */
  lemma UsbStringRoundTrip(k: Kind, value: seq<Byte>, utf8: seq<Byte> -> bool)
    requires |value| < 256
    ensures ParseUsbString([Code(k), |value|] + value, utf8) ==
            if |value| <= STRING_MAX && utf8(value) then Ok(value) else Err(InvalidResponse)
  {
    var data: seq<Byte> := [Code(k), |value|] + value;
    assert data[1] == |value| && data[2..2 + |value|] == value;
  }

  // ---------------------------------------------------------------- the chip

  type Strings = Kind -> seq<Byte>

  function Store(s: Strings, k: Kind, v: seq<Byte>): Strings {
    x => if x == k then v else s(x)
  }

  class Chip {
    const reliable: bool              // every exchange reaches the chip and back
    const utf8: seq<Byte> -> bool
    var params: seq<bv8>
    var strings: Strings

    ghost predicate Valid()
      reads this
    {
      forall k :: |strings(k)| < 256
    }

    /** GET_PARA_CFG: the block, nothing, an error reply, or data that is no parameter block. */
    method GetParams() returns (r: Result<seq<bv8>>)
      ensures r.Ok? && Layout(r.value) ==> r.value == params
      ensures reliable ==> r == Ok(params)
      ensures r != Err(InvalidResponse)
    {
      var genuine: bool, garbled: bool, lost: bool := *, *, *;
      var noise: seq<bv8> := *;
      if reliable || genuine || (garbled && Layout(noise)) {
        return Ok(params);
      }
      return if garbled then Ok(noise) else if lost then Err(Lost) else Err(ErrorReply);
    }

    /** SET_PARA_CFG: a lost answer leaves open whether the block was stored. */
    method SetParams(p: seq<bv8>) returns (r: Result<()>)
      modifies this`params
      ensures r.Ok? ==> params == p
      ensures params == p || params == old(params)
      ensures reliable ==> r.Ok?
    {
      var answered: bool, stored: bool, lost: bool := *, *, *;
      if reliable || answered || stored {
        params := p;
      }
      return if reliable || answered then Ok(()) else if lost then Err(Lost) else Err(ErrorReply);
    }

    /** SET_USB_STRING with a kind, a length and that many bytes. */
    method SetString(ghost k: Kind, data: seq<Byte>) returns (r: Result<()>)
      requires |data| >= 2 && data[0] == Code(k) && data[1] == |data| - 2 && Valid()
      modifies this`strings
      ensures Valid()
      ensures r.Ok? ==> forall x :: strings(x) == Store(old(strings), k, data[2..])(x)
      ensures r.Err? ==> forall x :: strings(x) == Store(old(strings), k, data[2..])(x) || strings(x) == old(strings)(x)
      ensures reliable ==> r.Ok?
    {
      var answered: bool, stored: bool, lost: bool := *, *, *;
      if reliable || answered || stored {
        var kind := if data[0] == 0 then Manufacturer else if data[0] == 1 then Product else Serial;
        strings := Store(strings, kind, data[2..]);
      }
      return if reliable || answered then Ok(()) else if lost then Err(Lost) else Err(ErrorReply);
    }

    /** GET_USB_STRING: the stored string's frame, nothing, an error reply, or data that does not parse. */
    method GetString(k: Kind) returns (r: Result<seq<Byte>>)
      requires Valid()
      ensures r.Ok? && ParseUsbString(r.value, utf8).Ok? ==> r.value == [Code(k), |strings(k)|] + strings(k)
      ensures reliable ==> r == Ok([Code(k), |strings(k)|] + strings(k))
    {
      var genuine: bool, garbled: bool, lost: bool := *, *, *;
      var noise: seq<Byte> := *;
      if reliable || genuine || (garbled && ParseUsbString(noise, utf8).Ok?) {
        return Ok([Code(k), |strings(k)|] + strings(k));
      }
      return if garbled then Ok(noise) else if lost then Err(Lost) else Err(ErrorReply);
    }

    // -------------------------------------------------------------- the host's side

    /** Only an answer that is no parameter block is asked for again, three times in all. */
    method ReadParameterConfig() returns (r: Result<seq<bv8>>, ghost tries: nat)
      ensures r.Ok? ==> r.value == params && Layout(params)
      ensures reliable && Layout(params) ==> r.Ok? && tries == 1
      ensures 1 <= tries <= RETRIES && (r == Err(InvalidResponse) ==> tries == RETRIES)
    {
      r, tries := Err(InvalidResponse), 0;
      for attempt := 0 to RETRIES
        invariant r == Err(InvalidResponse) && tries == attempt
        invariant reliable && Layout(params) ==> attempt == 0
      {
        tries := tries + 1;
        var reply := GetParams();
        if reply.Err? || Layout(reply.value) {
          r := reply;
          return;
        }
      }
    }

    method ReadUsbString(k: Kind) returns (r: Result<seq<Byte>>)
      requires Valid()
      ensures r.Ok? ==> r.value == strings(k) && |strings(k)| <= STRING_MAX
      ensures reliable && |strings(k)| <= STRING_MAX && utf8(strings(k)) ==> r.Ok?
    {
      r := Err(InvalidResponse);
      UsbStringRoundTrip(k, strings(k), utf8);
      for attempt := 0 to RETRIES
        invariant r == Err(InvalidResponse)
        invariant reliable && |strings(k)| <= STRING_MAX && utf8(strings(k)) ==> attempt == 0
      {
        var reply := GetString(k);
        if reply.Err? {
          return reply;
        }
        var parsed := ParseUsbString(reply.value, utf8);
        if parsed.Ok? {
          return parsed;
        }
      }
    }

    method WriteUsbString(k: Kind, value: seq<Byte>) returns (r: Result<()>)
      requires Valid()
      modifies this`strings
      ensures Valid()
      ensures r.Ok? ==> |value| <= STRING_MAX && forall x :: strings(x) == Store(old(strings), k, value)(x)
      ensures r.Err? ==> forall x :: strings(x) == Store(old(strings), k, value)(x) || strings(x) == old(strings)(x)
      ensures reliable ==> (r.Ok? <==> |value| <= STRING_MAX)
    {
      var data := BuildUsbString(k, value);
      if data.Err? {
        return Err(data.error);
      }
      assert data.value[2..] == value;
      r := SetString(k, data.value);
    }

    method ReadDeviceDescriptor() returns (r: Result<State>)
      requires Valid()
      ensures r.Ok? ==> Layout(params) && r.value == StateOf(params, strings)
      ensures reliable && Layout(params) && Readable(params, strings, utf8) ==> r.Ok?
    {
      ghost var tries;
      var config;
      config, tries := ReadParameterConfig();
      if config.Err? {
        return Err(config.error);
      }
      var p := config.value;
      var flags := p[FLAGS];
      var enabled := flags & 0x80 != 0;
      var state := State(Config(FromLe(p[IDS], p[IDS + 1]), FromLe(p[IDS + 2], p[IDS + 3]), [], [], None),
                         enabled && flags & 0x04 != 0, enabled && flags & 0x02 != 0, enabled && flags & 0x01 != 0);
      if state.manufacturerEnabled {
        var s := ReadUsbString(Manufacturer);
        if s.Err? { return Err(s.error); }
        state := state.(descriptor := state.descriptor.(manufacturer := s.value));
      }
      if state.productEnabled {
        var s := ReadUsbString(Product);
        if s.Err? { return Err(s.error); }
        state := state.(descriptor := state.descriptor.(name := s.value));
      }
      if state.serialEnabled {
        var s := ReadUsbString(Serial);
        if s.Err? { return Err(s.error); }
        state := state.(descriptor := state.descriptor.(serial := if s.value == [] then None else Some(s.value)));
      }
      return Ok(state);
    }

    /** The parameter block is written before the strings are checked, so a text that is too long is refused only
        after the new ids and flags are in the chip. */
    method ApplyDeviceDescriptor(d: Config) returns (r: Result<State>)
      requires Valid()
      modifies this
      ensures Valid()
      ensures r.Ok? ==> Layout(old(params)) && params == Patched(old(params), d) && Short(d)
                        && (forall k :: strings(k) == Applied(old(strings), d)(k))
                        && r.value == State(d, true, true, HasSerial(d))
      ensures params == old(params) || (Layout(old(params)) && params == Patched(old(params), d))
      ensures reliable && Layout(old(params)) ==> params == Patched(old(params), d) && (r.Ok? <==> Short(d))
    {
      ghost var tries;
      var read;
      read, tries := ReadParameterConfig();
      if read.Err? {
        return Err(read.error);
      }
      var config := new ParameterConfig(read.value);
      config.SetVidPid(d.vendor, d.product);
      config.SetStringFlags(d);
      var w := SetParams(config.bytes[..]);
      if w.Err? {
        return Err(w.error);
      }
      w := WriteUsbString(Manufacturer, d.manufacturer);
      if w.Err? {
        return Err(w.error);
      }
      w := WriteUsbString(Product, d.name);
      if w.Err? {
        return Err(w.error);
      }
      if HasSerial(d) {
        w := WriteUsbString(Serial, d.serial.value);
        if w.Err? {
          return Err(w.error);
        }
      }
      var alive: bool := *;
      if !reliable && !alive {
        return Err(Lost);
      }
      return Ok(State(d, true, true, HasSerial(d)));
    }
  }

  /** Every text fits. */
  predicate Short(d: Config) {
    |d.manufacturer| <= STRING_MAX && |d.name| <= STRING_MAX && (HasSerial(d) ==> |d.serial.value| <= STRING_MAX)
  }

  function Applied(s: Strings, d: Config): Strings {
    var s' := Store(Store(s, Manufacturer, d.manufacturer), Product, d.name);
    if HasSerial(d) then Store(s', Serial, d.serial.value) else s'
  }

  /** The descriptor that a block and the stored strings describe. */
  function StateOf(p: seq<bv8>, s: Strings): State
    requires |p| == PARAM_LEN
  {
    var f := p[FLAGS];
    var on := f & 0x80 != 0;
    var m, n, sn := on && f & 0x04 != 0, on && f & 0x02 != 0, on && f & 0x01 != 0;
    State(Config(FromLe(p[IDS], p[IDS + 1]), FromLe(p[IDS + 2], p[IDS + 3]),
                 if m then s(Manufacturer) else [], if n then s(Product) else [],
                 if sn && s(Serial) != [] then Some(s(Serial)) else None), m, n, sn)
  }

  /** Each string is described exactly when its own bit and the common enable bit are set, and is empty otherwise;
      the ids are the two little-endian words from byte 11 on. */
  lemma StateBits(p: seq<bv8>, s: Strings)
    requires |p| == PARAM_LEN
    ensures var st := StateOf(p, s);
            && (st.manufacturerEnabled <==> p[36] & 0x84 == 0x84)
            && (st.productEnabled <==> p[36] & 0x82 == 0x82)
            && (st.serialEnabled <==> p[36] & 0x81 == 0x81)
            && st.descriptor.manufacturer == (if p[36] & 0x84 == 0x84 then s(Manufacturer) else [])
            && st.descriptor.name == (if p[36] & 0x82 == 0x82 then s(Product) else [])
            && st.descriptor.serial == (if p[36] & 0x81 == 0x81 && s(Serial) != [] then Some(s(Serial)) else None)
            && st.descriptor.vendor & 0xFF == p[11] as bv16 && st.descriptor.vendor >> 8 == p[12] as bv16
            && st.descriptor.product & 0xFF == p[13] as bv16 && st.descriptor.product >> 8 == p[14] as bv16
  {
    BitPairs(p[36]);
    WordBytes(p[11], p[12]);
    WordBytes(p[13], p[14]);
  }

  lemma BitPairs(f: bv8)
    ensures f & 0x84 == 0x84 <==> f & 0x80 != 0 && f & 0x04 != 0
    ensures f & 0x82 == 0x82 <==> f & 0x80 != 0 && f & 0x02 != 0
    ensures f & 0x81 == 0x81 <==> f & 0x80 != 0 && f & 0x01 != 0
  {
  }

  lemma WordBytes(lo: bv8, hi: bv8)
    ensures FromLe(lo, hi) & 0xFF == lo as bv16 && FromLe(lo, hi) >> 8 == hi as bv16
  {
  }

  predicate Readable(p: seq<bv8>, s: Strings, utf8: seq<Byte> -> bool)
    requires |p| == PARAM_LEN
  {
    var st := StateOf(p, s);
    && (st.manufacturerEnabled ==> |s(Manufacturer)| <= STRING_MAX && utf8(s(Manufacturer)))
    && (st.productEnabled ==> |s(Product)| <= STRING_MAX && utf8(s(Product)))
    && (st.serialEnabled ==> |s(Serial)| <= STRING_MAX && utf8(s(Serial)))
  }

  /** An empty serial number is no serial number. */
  function Normalised(d: Config): Config {
    if HasSerial(d) then d else d.(serial := None)
  }

  /** What a read finds after an apply is the applied descriptor, normalised. */
  lemma ReadsBack(p: seq<bv8>, s: Strings, d: Config)
    requires |p| == PARAM_LEN
    ensures StateOf(Patched(p, d), Applied(s, d)) == State(Normalised(d), true, true, HasSerial(d))
  {
    LeRoundTrip(d.vendor, 0, 0);
    LeRoundTrip(d.product, 0, 0);
    FlagBits(p[FLAGS], HasSerial(d));
  }

  /** Apply's own answer is what a read would give exactly when the serial number is not the empty text. */
  lemma AnswerIsWhatIsRead(p: seq<bv8>, s: Strings, d: Config)
    requires |p| == PARAM_LEN
    ensures StateOf(Patched(p, d), Applied(s, d)) == State(d, true, true, HasSerial(d)) <==> d.serial != Some([])
  {
    ReadsBack(p, s, d);
  }

  /** Apply, then read: whenever both succeed the descriptor comes back normalised; over a reliable link to a chip
      in configuration mode both succeed exactly for texts that fit. */
  method ApplyThenRead(chip: Chip, d: Config) returns (applied: Result<State>, r: Result<State>)
    requires chip.Valid() && chip.utf8(d.manufacturer) && chip.utf8(d.name)
    requires HasSerial(d) ==> chip.utf8(d.serial.value)
    modifies chip
    ensures applied.Ok? && r.Ok? ==> r.value == State(Normalised(d), true, true, HasSerial(d))
    ensures chip.reliable && Layout(old(chip.params)) ==> (applied.Ok? <==> Short(d)) && (applied.Ok? ==> r.Ok?)
  {
    ghost var p, s := chip.params, chip.strings;
    applied := chip.ApplyDeviceDescriptor(d);
    if applied.Err? {
      return applied, applied;
    }
    PatchedElsewhere(p, d, 0);
    ReadsBack(p, s, d);
    SameState(chip.params, chip.strings, Applied(s, d), chip.utf8);
    r := chip.ReadDeviceDescriptor();
  }

  lemma SameState(p: seq<bv8>, s: Strings, t: Strings, utf8: seq<Byte> -> bool)
    requires |p| == PARAM_LEN && forall k :: s(k) == t(k)
    ensures StateOf(p, s) == StateOf(p, t) && (Readable(p, s, utf8) <==> Readable(p, t, utf8))
  {
  }
}
