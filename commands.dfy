/** The actions the module offers and the payloads each one sends. Two
    dispatchers turn an action into payloads: the `action()` switch of the
    module instance and the callbacks `getActions` builds. They build the
    same payloads except for how an option value picks an entry of the
    focus-mode, exposure, tally and OSD tables, and where the pan/tilt speed
    bytes come from. */
module Commands {
  import opened Wrappers
  import opened Bytes
  import opened JsValues
  import opened Visca
  import opened CustomCommand

  datatype Action =
    | Move(dir: Direction)
    | Home
    | PtSpeedSet(speed: string)
    | PtSpeedUp
    | PtSpeedDown
    | PtSlow(bol: JsVal)
    | ZoomIn
    | ZoomOut
    | ZoomStop
    | ZoomSpeedSet(speed: string)
    | ZoomSpeedUp
    | ZoomSpeedDown
    | ZoomInOut(zIn: nat, zOut: nat)
    | ZoomInFor(ms: nat)
    | ZoomOutFor(ms: nat)
    | FocusNear
    | FocusFar
    | FocusStop
    | FocusMode(bol: JsVal)
    | ExposureMode(val: JsVal)
    | IrisUp
    | IrisDown
    | IrisSet(level: string)
    | ShutterUp
    | ShutterDown
    | ShutterSet(level: string)
    | SavePreset(preset: string)
    | RecallPreset(preset: string)
    | PresetSpeed(preset: string, speed: string)
    | Custom(text: string)
    | Tally(val: JsVal)
    | Osd(val: JsVal)

  /** The `action()` switch of the instance, or the `getActions` callbacks. */
  datatype Dispatcher = ActionSwitch | Callbacks

  /** The actions that only change a speed selection (or, for slow mode,
      nothing) and send no payload. */
  predicate IsSpeedAction(a: Action) {
    a.PtSpeedSet? || a.PtSpeedUp? || a.PtSpeedDown? || a.PtSlow? ||
    a.ZoomSpeedSet? || a.ZoomSpeedUp? || a.ZoomSpeedDown?
  }

  function OptionalPayload(o: Option<Payload>): seq<Payload> {
    match o
    case Some(p) => [p]
    case None => []
  }

  /** Focus mode: the switch sends auto for 0 and manual for 1 and nothing
      otherwise; the callback sends auto for 0 and manual for anything else. */
  function FocusModeSelect(disp: Dispatcher, bol: JsVal): Option<Payload> {
    match disp
    case ActionSwitch => LooseSelect(FocusModePayloads, bol)
    case Callbacks => Some(if LooseEquals(bol, 0) then FocusModePayloads[0] else FocusModePayloads[1])
  }

  /** Exposure and tally: `if (opt.val == k)` chains in the switch,
      `commands[val]` in the callbacks. */
  function TableSelect(disp: Dispatcher, table: seq<Payload>, v: JsVal): Option<Payload> {
    match disp
    case ActionSwitch => LooseSelect(table, v)
    case Callbacks => PropertySelect(table, v)
  }

  /** OSD: a `switch (opt.val)` over numbers in the switch, `commands[val]` in
      the callbacks. */
  function OsdSelect(disp: Dispatcher, v: JsVal): Option<Payload> {
    match disp
    case ActionSwitch => StrictSelect(OsdPayloads, v)
    case Callbacks => PropertySelect(OsdPayloads, v)
  }

  /** The actions whose payload is a constant. */
  predicate IsFixed(a: Action) {
    a.Home? || a.ZoomStop? || a.FocusNear? || a.FocusFar? || a.FocusStop? ||
    a.IrisUp? || a.IrisDown? || a.ShutterUp? || a.ShutterDown?
  }

  /** The zooms that run for a time and then stop. */
  predicate IsTimedZoom(a: Action) {
    a.ZoomInOut? || a.ZoomInFor? || a.ZoomOutFor?
  }

  /** The actions whose payload an option value picks from a table. */
  predicate IsSelection(a: Action) {
    a.FocusMode? || a.ExposureMode? || a.Tally? || a.Osd?
  }

  /** The actions whose payload is computed from a speed or an option. */
  predicate IsComputed(a: Action) {
    a.Move? || a.ZoomIn? || a.ZoomOut? || a.IrisSet? || a.ShutterSet? ||
    a.SavePreset? || a.RecallPreset? || a.PresetSpeed? || a.Custom?
  }

  function FixedPayload(a: Action): Payload
    requires IsFixed(a)
  {
    match a
    case Home => HomePayload
    case ZoomStop => ZoomStopPayload
    case FocusNear => FocusNearPayload
    case FocusFar => FocusFarPayload
    case FocusStop => FocusStopPayload
    case IrisUp => IrisUpPayload
    case IrisDown => IrisDownPayload
    case ShutterUp => ShutterUpPayload
    case ShutterDown => ShutterDownPayload
  }

  /** A timed zoom's commands in the order they go out; the stop comes after
      the configured delays, which are not modelled. */
  function TimedZoomPayloads(a: Action): seq<Payload>
    requires IsTimedZoom(a)
  {
    match a
    case ZoomInOut(_, _) => ZoomInOutPayloads
    case ZoomInFor(_) => ZoomForPayloads(true)
    case ZoomOutFor(_) => ZoomForPayloads(false)
  }

  function SelectedPayload(disp: Dispatcher, a: Action): Option<Payload>
    requires IsSelection(a)
  {
    match a
    case FocusMode(bol) => FocusModeSelect(disp, bol)
    case ExposureMode(v) => TableSelect(disp, ExposurePayloads, v)
    case Tally(v) => TableSelect(disp, TallyPayloads, v)
    case Osd(v) => OsdSelect(disp, v)
  }

  function ComputedPayload(a: Action, pan: byte, tilt: byte, zoomSpeed: string): Payload
    requires IsComputed(a)
  {
    match a
    case Move(d) => PanTiltPayload(pan, tilt, d)
    case ZoomIn => ZoomInPayload(zoomSpeed)
    case ZoomOut => ZoomOutPayload(zoomSpeed)
    case IrisSet(v) => NibblePayload(IrisSetTemplate, v)
    case ShutterSet(v) => NibblePayload(ShutterSetTemplate, v)
    case SavePreset(v) => PresetPayload(Save, v)
    case RecallPreset(v) => PresetPayload(Recall, v)
    case PresetSpeed(v, s) => PresetSpeedPayload(v, s)
    case Custom(text) => CustomPayload(text)
  }

  /** The payloads an action hands to `sendVISCACommand`, in order, given the
      pan/tilt speed bytes in effect and the current zoom speed id. An option
      that selects nothing leaves `cmd` undefined, and nothing is sent. */
  function Payloads(disp: Dispatcher, a: Action, pan: byte, tilt: byte, zoomSpeed: string): (ps: seq<Payload>)
    ensures IsSpeedAction(a) ==> ps == []
    ensures |ps| <= 3
  {
    if IsSpeedAction(a) then []
    else if IsFixed(a) then [FixedPayload(a)]
    else if IsTimedZoom(a) then TimedZoomPayloads(a)
    else if IsSelection(a) then OptionalPayload(SelectedPayload(disp, a))
    else [ComputedPayload(a, pan, tilt, zoomSpeed)]
  }

  /** An action that picks from a table sends the picked entry, or nothing. */
  lemma SelectionPayloads(disp: Dispatcher, a: Action, pan: byte, tilt: byte, zoomSpeed: string)
    requires IsSelection(a)
    ensures Payloads(disp, a, pan, tilt, zoomSpeed) == OptionalPayload(SelectedPayload(disp, a))
  {
  }

  predicate EndsInFF(p: Payload) {
    |p| >= 1 && p[|p| - 1] == 0xFF
  }

  /** A table entry picked by an option ends in FF. */
  lemma SelectedPayloadEndsInFF(disp: Dispatcher, a: Action)
    requires IsSelection(a)
    ensures SelectedPayload(disp, a).Some? ==> EndsInFF(SelectedPayload(disp, a).value)
  {
    SelectionTablesWellFormed();
  }

  /** Every payload either dispatcher sends ends in FF, except the iris and
      shutter set commands, whose last byte is the value's low nibble (at
      most 0F), and custom commands, which are sent as typed (white space
      alone decodes to an empty payload). */
  lemma PayloadsTerminated(disp: Dispatcher, a: Action, pan: byte, tilt: byte, zoomSpeed: string)
    ensures var ps := Payloads(disp, a, pan, tilt, zoomSpeed);
      forall i | 0 <= i < |ps| ::
        (a.IrisSet? || a.ShutterSet? ==> |ps[i]| >= 1 && ps[i][|ps[i]| - 1] <= 0x0F) &&
        (!a.IrisSet? && !a.ShutterSet? && !a.Custom? ==> EndsInFF(ps[i]))
  {
    var ps := Payloads(disp, a, pan, tilt, zoomSpeed);
    if IsSpeedAction(a) {
    } else if IsFixed(a) {
      assert ps == [FixedPayload(a)];
    } else if IsTimedZoom(a) {
      assert ps == TimedZoomPayloads(a);
    } else if IsSelection(a) {
      SelectedPayloadEndsInFF(disp, a);
    } else {
      assert ps == [ComputedPayload(a, pan, tilt, zoomSpeed)];
      match a
      case IrisSet(v) => NibblePayloadCarriesValue(IrisSetTemplate, v);
      case ShutterSet(v) => NibblePayloadCarriesValue(ShutterSetTemplate, v);
      case _ =>
    }
  }

  /** Apart from where the pan/tilt bytes come from and how an option value
      picks a focus-mode, exposure, tally or OSD payload, the two dispatchers
      send the same payloads. This holds by construction: the model gives
      both dispatchers the same payload functions outside those four
      selections, and that sharing rests on a case-by-case reading of
      index.js and actions.js, not on this proof. */
  lemma DispatchersAgree(a: Action, pan: byte, tilt: byte, zoomSpeed: string)
    requires !a.FocusMode? && !a.ExposureMode? && !a.Tally? && !a.Osd?
    ensures Payloads(ActionSwitch, a, pan, tilt, zoomSpeed) == Payloads(Callbacks, a, pan, tilt, zoomSpeed)
  {
  }

  /** For the exposure and tally tables both dispatchers pick entry k for
      every dropdown choice k, whether it arrives as the number k or as its
      string id "k". */
  lemma TableSelectsAgreeOnChoices(table: seq<Payload>, k: nat)
    requires k < |table|
    ensures TableSelect(ActionSwitch, table, Num(k)) == Some(table[k])
    ensures TableSelect(ActionSwitch, table, Str(DecimalString(k))) == Some(table[k])
    ensures TableSelect(Callbacks, table, Num(k)) == Some(table[k])
    ensures TableSelect(Callbacks, table, Str(DecimalString(k))) == Some(table[k])
  {
    LooseEqualsDecimalString(k, k);
    ArrayIndexOfDecimalString(k, |table|);
  }

  /** Focus mode 0 and 1, as numbers or string ids: both dispatchers send
      auto focus for 0 and manual focus for 1. */
  lemma FocusModeAgreesOnChoices(k: nat, pan: byte, tilt: byte, zoomSpeed: string)
    requires k < 2
    ensures Payloads(ActionSwitch, FocusMode(Str(DecimalString(k))), pan, tilt, zoomSpeed) == [FocusModePayloads[k]]
    ensures Payloads(Callbacks, FocusMode(Str(DecimalString(k))), pan, tilt, zoomSpeed) == [FocusModePayloads[k]]
    ensures Payloads(Callbacks, FocusMode(Num(k)), pan, tilt, zoomSpeed) == [FocusModePayloads[k]]
  {
    var v := Str(DecimalString(k));
    LooseEqualsDecimalString(k, 0);
    LooseEqualsDecimalString(k, k);
    assert LooseSelect(FocusModePayloads, v) == Some(FocusModePayloads[k]);
    assert FocusModeSelect(Callbacks, v) == Some(FocusModePayloads[k]);
    assert FocusModeSelect(Callbacks, Num(k)) == Some(FocusModePayloads[k]);
    SelectionPayloads(ActionSwitch, FocusMode(v), pan, tilt, zoomSpeed);
    SelectionPayloads(Callbacks, FocusMode(v), pan, tilt, zoomSpeed);
    SelectionPayloads(Callbacks, FocusMode(Num(k)), pan, tilt, zoomSpeed);
  }

  /** The OSD switch compares with `===` against numbers, so the string id
      of a dropdown choice ("0".."8") selects nothing and no command is sent;
      only a number (a preset's `val`) works. */
  lemma OsdSwitchIgnoresDropdownIds(k: nat, pan: byte, tilt: byte, zoomSpeed: string)
    requires k < 9
    ensures Payloads(ActionSwitch, Osd(Str(DecimalString(k))), pan, tilt, zoomSpeed) == []
    ensures Payloads(ActionSwitch, Osd(Num(k)), pan, tilt, zoomSpeed) == [OsdPayloads[k]]
  {
    SelectionPayloads(ActionSwitch, Osd(Str(DecimalString(k))), pan, tilt, zoomSpeed);
    SelectionPayloads(ActionSwitch, Osd(Num(k)), pan, tilt, zoomSpeed);
  }

  /** The callbacks look the option up as an array property, so every
      dropdown choice, as string id or as number, sends its OSD payload. */
  lemma OsdCallbackSelectsEveryChoice(k: nat, pan: byte, tilt: byte, zoomSpeed: string)
    requires k < 9
    ensures Payloads(Callbacks, Osd(Str(DecimalString(k))), pan, tilt, zoomSpeed) == [OsdPayloads[k]]
    ensures Payloads(Callbacks, Osd(Num(k)), pan, tilt, zoomSpeed) == [OsdPayloads[k]]
  {
    ArrayIndexOfDecimalString(k, 9);
    SelectionPayloads(Callbacks, Osd(Str(DecimalString(k))), pan, tilt, zoomSpeed);
    SelectionPayloads(Callbacks, Osd(Num(k)), pan, tilt, zoomSpeed);
  }

  /** Focus mode outside 0 and 1: the switch sends nothing, the callback
      sends manual focus. */
  lemma FocusModeOutsideChoices(v: JsVal, pan: byte, tilt: byte, zoomSpeed: string)
    requires !LooseEquals(v, 0) && !LooseEquals(v, 1)
    ensures Payloads(ActionSwitch, FocusMode(v), pan, tilt, zoomSpeed) == []
    ensures Payloads(Callbacks, FocusMode(v), pan, tilt, zoomSpeed) == [FocusModePayloads[1]]
  {
    SelectionPayloads(ActionSwitch, FocusMode(v), pan, tilt, zoomSpeed);
    SelectionPayloads(Callbacks, FocusMode(v), pan, tilt, zoomSpeed);
  }
}
