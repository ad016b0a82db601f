/** The pin registry: a static table with one row per pin. The hardware
    address, signal kind and capability class of each row are constants;
    only the pin mode changes. Calls into the board's pin driver are not
    executed but recorded as an ordered trace of driver calls, and pin
    readings come from an oracle. */
module Gpio {
  import opened Protocol

  /** The hardware address of a pin: the digital header number, or one of
      the board's analog-input and DAC macros (whose numeric values belong to
      the board support package). */
  datatype PinNumber = Header(n: nat) | AnalogIn(k: nat) | DacOut(k: nat)

  /** One row of mapping_dict. */
  datatype PinRow = PinRow(pin: PinId, number: PinNumber, kind: SignalKind, initialMode: PinMode, capability: Capability)

  /** mapping_dict as compiled, one row per pin in pin order: D30..D39
      digital and starting as inputs, D40..D49 digital and starting as
      outputs (all twenty may be either), A0..A3 analog input-only, DAC0 and
      DAC1 analog output-only. */
  function Row(p: PinId): (row: PinRow)
    ensures row.pin == p
  {
    if p < 10 then PinRow(p, Header(30 + p), Digital, Input, InputAndOutput)
    else if p < 20 then PinRow(p, Header(30 + p), Digital, Output, InputAndOutput)
    else if p < 24 then PinRow(p, AnalogIn(p - 20), Analog, Input, InputOnly)
    else PinRow(p, DacOut(p - 24), Analog, Output, OutputOnly)
  }

  /** The mutable column of mapping_dict: one stored mode per pin. */
  type PinModes = s: seq<PinMode> | |s| == PIN_COUNT witness seq(26, _ => Input)

  /** A call into the pin driver, in the order the firmware makes it. */
  datatype DriverCall =
    | PinModeCall(number: PinNumber, mode: PinMode)
    | DigitalWrite(number: PinNumber, high: bool)
    | AnalogWrite(number: PinNumber, level: int)

  /** What digitalRead and analogRead would return for each pin right now. */
  datatype Readings = Readings(digital: PinId -> int, analog: PinId -> int)

  /** The Arduino HIGH level. */
  const HIGH: int := 1

  /** The modes the table starts with. */
  function InitialModes(): (m: PinModes)
    ensures forall p: PinId :: m[p] == Row(p).initialMode
  {
    seq(26, i requires 0 <= i < 26 => Row(i).initialMode)
  }

  /** The four groups of the table, as the firmware's comments name them. */
  lemma TableContents(p: PinId)
    ensures p < 10 ==> Row(p).kind == Digital && Row(p).capability == InputAndOutput && Row(p).initialMode == Input
    ensures 10 <= p < 20 ==> Row(p).kind == Digital && Row(p).capability == InputAndOutput && Row(p).initialMode == Output
    ensures 20 <= p < 24 ==> Row(p).kind == Analog && Row(p).capability == InputOnly && Row(p).initialMode == Input
    ensures 24 <= p ==> Row(p).kind == Analog && Row(p).capability == OutputOnly && Row(p).initialMode == Output
  {
  }

  /** get_pin_type: the twenty D pins are digital, the rest analog. */
  function GetPinType(p: PinId): (k: SignalKind)
    ensures k == Digital <==> p < 20
  {
    Row(p).kind
  }

  /** get_pin_mode_type: the D pins may be either, A0..A3 only read and
      DAC0, DAC1 only write. */
  function GetPinModeType(p: PinId): (c: Capability)
    ensures c == InputAndOutput <==> p < 20
    ensures c == InputOnly <==> 20 <= p < 24
    ensures c == OutputOnly <==> 24 <= p
  {
    Row(p).capability
  }

  /** get_pin_mode: the stored mode, which is a real one whenever the
      table holds only real modes. */
  function GetPinMode(modes: PinModes, p: PinId): (m: PinMode)
    ensures AllValid(modes) ==> m != NotValid
  {
    modes[p]
  }

  /** Whether a mode is one the pin's capability class admits: the input
      modes need an input-capable pin, OUTPUT an output-capable one. */
  predicate Compatible(p: PinId, m: PinMode) {
    match m
    case Input => GetPinModeType(p) != OutputOnly
    case InputPullup => GetPinModeType(p) != OutputOnly
    case Output => GetPinModeType(p) != InputOnly
    case NotValid => false
  }

  predicate AllCompatible(modes: PinModes) {
    forall p: PinId :: Compatible(p, modes[p])
  }

  predicate AllValid(modes: PinModes) {
    forall p: PinId :: modes[p] != NotValid
  }

  /** set_pin_mode: store the mode for this pin alone, with no capability
      check, and forward it to the driver. The driver's mode table is
      indexed by the mode, so PIN_MODE_NOT_VALID cannot be passed. */
  function SetPinMode(modes: PinModes, p: PinId, m: PinMode): (r: (PinModes, DriverCall))
    requires m != NotValid
    ensures GetPinMode(r.0, p) == m
    ensures forall q: PinId :: q != p ==> GetPinMode(r.0, q) == GetPinMode(modes, q)
    ensures r.1 == PinModeCall(Row(p).number, m)
  {
    (modes[p := m], PinModeCall(Row(p).number, m))
  }

  /** The clamp load_pin_modes applies to a stored mode: any value above
      PIN_MODE_INPUT_PULLUP becomes PIN_MODE_INPUT. */
  function Clamp(m: PinMode): (r: PinMode)
    ensures r != NotValid
    ensures m != NotValid ==> r == m
  {
    if m.Ordinal() > InputPullup.Ordinal() then Input else m
  }

  /** load_pin_modes, from pin `i` on: re-apply each pin's clamped stored
      mode through set_pin_mode, in table order. */
  function LoadFrom(modes: PinModes, i: nat): (r: (PinModes, seq<DriverCall>))
    requires i <= PIN_COUNT
    ensures forall p: PinId :: p < i ==> r.0[p] == modes[p]
    ensures forall p: PinId :: i <= p ==> r.0[p] == Clamp(modes[p])
    ensures |r.1| == PIN_COUNT - i
    ensures forall k :: 0 <= k < |r.1| ==> r.1[k] == PinModeCall(Row(i + k).number, Clamp(modes[i + k]))
    decreases PIN_COUNT - i
  {
    if i == PIN_COUNT then (modes, [])
    else
      var (m1, call) := SetPinMode(modes, i, Clamp(modes[i]));
      var (m2, calls) := LoadFrom(m1, i + 1);
      (m2, [call] + calls)
  }

  /** load_pin_modes: every pin's mode is re-applied (the persistent store
      it was meant to read from is commented out, so the source of each mode
      is the table itself). */
  function LoadPinModes(modes: PinModes): (r: (PinModes, seq<DriverCall>))
    ensures forall p: PinId :: r.0[p] == Clamp(modes[p])
    ensures |r.1| == PIN_COUNT
    ensures forall p: PinId :: r.1[p] == PinModeCall(Row(p).number, Clamp(modes[p]))
  {
    LoadFrom(modes, 0)
  }

  /** save_pin_modes: the store it would write to is commented out, so no
      pin's mode changes. */
  function SavePinModes(modes: PinModes): (r: PinModes)
    ensures forall p: PinId :: GetPinMode(r, p) == GetPinMode(modes, p)
  {
    modes
  }

  /** reset_pin_modes: every stored mode becomes INPUT, with no driver call. */
  function ResetPinModes(modes: PinModes): (r: PinModes)
    ensures forall p: PinId :: GetPinMode(r, p) == Input
  {
    seq(26, _ => Input)
  }

  /** trigger_pulse: drive the pin HIGH, then LOW (the 100 ms hold between
      them is timing, not state). */
  function TriggerPulse(p: PinId): (calls: seq<DriverCall>)
    ensures |calls| == 2
    ensures calls[0] == DigitalWrite(Row(p).number, true) && calls[1] == DigitalWrite(Row(p).number, false)
  {
    [DigitalWrite(Row(p).number, true), DigitalWrite(Row(p).number, false)]
  }

  /** No two pins share a hardware address. */
  lemma AddressesDistinct(p: PinId, q: PinId)
    requires Row(p).number == Row(q).number
    ensures p == q
  {
  }

  /** write_digital_to_pin: one digitalWrite of the level, at the address of
      this pin and of no other. */
  function WriteDigital(p: PinId, high: bool): (c: DriverCall)
    ensures c.DigitalWrite? && c.high == high
    ensures forall q: PinId :: c.number == Row(q).number <==> q == p
  {
    var c := DigitalWrite(Row(p).number, high);
    assert forall q: PinId :: c.number == Row(q).number ==> q == p by {
      forall q: PinId | c.number == Row(q).number ensures q == p { AddressesDistinct(p, q); }
    }
    c
  }

  /** write_analog_to_pin: one analogWrite of the level, at the address of
      this pin and of no other. */
  function WriteAnalog(p: PinId, level: int): (c: DriverCall)
    ensures c.AnalogWrite? && c.level == level
    ensures forall q: PinId :: c.number == Row(q).number <==> q == p
  {
    var c := AnalogWrite(Row(p).number, level);
    assert forall q: PinId :: c.number == Row(q).number ==> q == p by {
      forall q: PinId | c.number == Row(q).number ensures q == p { AddressesDistinct(p, q); }
    }
    c
  }

  /** The value a logging sample reads: digitalRead for the twenty D pins,
      analogRead for the others. */
  function ReadPin(rd: Readings, p: PinId): (v: int)
    ensures p < 20 ==> v == rd.digital(p)
    ensures 20 <= p ==> v == rd.analog(p)
  {
    if GetPinType(p) == Digital then rd.digital(p) else rd.analog(p)
  }

  // ------------------------------------------------------------------
  // Properties
  // ------------------------------------------------------------------

  /** The table starts with every pin in a mode its capability admits. */
  lemma InitialModesCompatible()
    ensures AllCompatible(InitialModes())
    ensures AllValid(InitialModes())
  {
    forall p: PinId ensures Compatible(p, InitialModes()[p]) {
      TableContents(p);
    }
  }

  /** reset_pin_modes does not keep that: the output-only DAC0 and DAC1
      end up in INPUT mode. */
  lemma ResetBreaksCompatibility(modes: PinModes)
    ensures !AllCompatible(ResetPinModes(modes))
    ensures !Compatible(24, GetPinMode(ResetPinModes(modes), 24))
    ensures !Compatible(25, GetPinMode(ResetPinModes(modes), 25))
    ensures AllValid(ResetPinModes(modes))
  {
    assert !Compatible(24, ResetPinModes(modes)[24]);
  }

  /** With only valid modes stored, load_pin_modes changes nothing. */
  lemma LoadIdentityOnValid(modes: PinModes)
    requires AllValid(modes)
    ensures LoadPinModes(modes).0 == modes
  {
    var once := LoadPinModes(modes).0;
    forall p: PinId ensures once[p] == modes[p] {}
  }

  /** load_pin_modes stores only valid modes, so a second load is the same
      as one. */
  lemma LoadIdempotent(modes: PinModes)
    ensures AllValid(LoadPinModes(modes).0)
    ensures LoadPinModes(LoadPinModes(modes).0).0 == LoadPinModes(modes).0
  {
    LoadIdentityOnValid(LoadPinModes(modes).0);
  }

  /** Saving and then loading gives back the modes saved, whenever they
      are all real ones. */
  lemma SaveLoadRoundTrip(modes: PinModes)
    requires AllValid(modes)
    ensures LoadPinModes(SavePinModes(modes)).0 == modes
  {
    LoadIdentityOnValid(SavePinModes(modes));
  }

  /** Setting a mode the capability admits keeps every pin compatible. */
  lemma SetCompatiblePreserves(modes: PinModes, p: PinId, m: PinMode)
    requires AllCompatible(modes) && m != NotValid && Compatible(p, m)
    ensures AllCompatible(SetPinMode(modes, p, m).0)
  {
  }
}
