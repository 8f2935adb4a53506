/** The VISCA payloads the module sends, one function or constant per
    command family, with the JavaScript arithmetic that fills in their
    parameter bytes. */
module Visca {
  import opened Wrappers
  import opened Bytes
  import opened JsValues

  type Payload = seq<byte>

  // ---------------------------------------------------------------------------
  // Pan and tilt

  datatype Direction = Left | Right | Up | Down | UpLeft | UpRight | DownLeft | DownRight | Stop

  /** Reference meaning of a direction: horizontal step (-1 left, +1 right)
      and vertical step (+1 up, -1 down). */
  function PanStep(d: Direction): int {
    match d
    case Left | UpLeft | DownLeft => -1
    case Right | UpRight | DownRight => 1
    case _ => 0
  }

  function TiltStep(d: Direction): int {
    match d
    case Up | UpLeft | UpRight => 1
    case Down | DownLeft | DownRight => -1
    case _ => 0
  }

  /** The two direction bytes of the pan/tilt drive command. */
  function DirectionBytes(d: Direction): (byte, byte) {
    match d
    case Left => (0x01, 0x03)
    case Right => (0x02, 0x03)
    case Up => (0x03, 0x01)
    case Down => (0x03, 0x02)
    case UpLeft => (0x01, 0x01)
    case UpRight => (0x02, 0x01)
    case DownLeft => (0x01, 0x02)
    case DownRight => (0x02, 0x02)
    case Stop => (0x03, 0x03)
  }

  /** The first direction byte says 01 left, 02 right, 03 no pan; the second
      01 up, 02 down, 03 no tilt. */
  lemma DirectionBytesMeaning(d: Direction)
    ensures DirectionBytes(d).0 == (match PanStep(d) case -1 => 0x01 case 1 => 0x02 case _ => 0x03)
    ensures DirectionBytes(d).1 == (match TiltStep(d) case 1 => 0x01 case -1 => 0x02 case _ => 0x03)
    ensures d == Stop <==> PanStep(d) == 0 && TiltStep(d) == 0
  {
  }

  /** No two directions share their bytes. */
  lemma DirectionBytesInjective(d1: Direction, d2: Direction)
    requires DirectionBytes(d1) == DirectionBytes(d2)
    ensures d1 == d2
  {
    DirectionBytesMeaning(d1);
    DirectionBytesMeaning(d2);
  }

  /** `parseInt(ptSpeed, 16) & 0xFF`: the pan speed byte. */
  function PanSpeedByte(ptSpeed: string): byte {
    HexByte(ptSpeed)
  }

  /** `Math.min(parseInt(ptSpeed, 16), 0x14) & 0xFF`: the tilt speed byte
      (`Math.min` of `NaN` is `NaN`, and `NaN & 0xFF` is 0). */
  function TiltSpeedByte(ptSpeed: string): byte {
    match ParseIntHex(ptSpeed)
    case None => 0
    case Some(v) => Low8(if v < 0x14 then v else 0x14)
  }

  /** The tilt speed is the pan speed capped at 0x14: never above 0x14 for a
      speed id without a minus sign, equal to the pan speed up to 0x14 and
      exactly 0x14 from there on. */
  lemma TiltSpeedCapped(ptSpeed: string)
    ensures !SignedNegative(ptSpeed) ==> TiltSpeedByte(ptSpeed) <= 0x14
    ensures ParseIntHex(ptSpeed).None? ==> PanSpeedByte(ptSpeed) == 0 && TiltSpeedByte(ptSpeed) == 0
    ensures ParseIntHex(ptSpeed).Some? && 0 <= ParseIntHex(ptSpeed).value <= 0x14 ==>
      TiltSpeedByte(ptSpeed) == PanSpeedByte(ptSpeed) && PanSpeedByte(ptSpeed) as int == ParseIntHex(ptSpeed).value
    ensures ParseIntHex(ptSpeed).Some? && ParseIntHex(ptSpeed).value >= 0x14 ==> TiltSpeedByte(ptSpeed) == 0x14
  {
  }

  /** `01 06 01 pan tilt dx dy FF`. */
  function PanTiltPayload(pan: byte, tilt: byte, d: Direction): Payload {
    [0x01, 0x06, 0x01, pan, tilt, DirectionBytes(d).0, DirectionBytes(d).1, 0xFF]
  }

  /** The direction a pair of direction bytes stands for, if any. */
  function DirectionOf(dx: byte, dy: byte): Option<Direction> {
    if dx == 0x01 && dy == 0x03 then Some(Left)
    else if dx == 0x02 && dy == 0x03 then Some(Right)
    else if dx == 0x03 && dy == 0x01 then Some(Up)
    else if dx == 0x03 && dy == 0x02 then Some(Down)
    else if dx == 0x01 && dy == 0x01 then Some(UpLeft)
    else if dx == 0x02 && dy == 0x01 then Some(UpRight)
    else if dx == 0x01 && dy == 0x02 then Some(DownLeft)
    else if dx == 0x02 && dy == 0x02 then Some(DownRight)
    else if dx == 0x03 && dy == 0x03 then Some(Stop)
    else None
  }

  /** Reads a pan/tilt drive payload back into its speeds and direction. */
  function DecodePanTilt(p: Payload): Option<(byte, byte, Direction)> {
    if |p| == 8 && p[..3] == [0x01, 0x06, 0x01] && p[7] == 0xFF && DirectionOf(p[5], p[6]).Some?
    then Some((p[3], p[4], DirectionOf(p[5], p[6]).value))
    else None
  }

  /** Every pan/tilt payload decodes to the speeds and direction it was built
      from ... */
  lemma DecodePanTiltOfPayload(pan: byte, tilt: byte, d: Direction)
    ensures DecodePanTilt(PanTiltPayload(pan, tilt, d)) == Some((pan, tilt, d))
  {
    var p := PanTiltPayload(pan, tilt, d);
    assert p[..3] == [0x01, 0x06, 0x01];
  }

  /** ... and whatever decodes is exactly the payload of what it decodes to. */
  lemma PayloadOfDecodePanTilt(p: Payload)
    requires DecodePanTilt(p).Some?
    ensures PanTiltPayload(DecodePanTilt(p).value.0, DecodePanTilt(p).value.1, DecodePanTilt(p).value.2) == p
  {
    var (pan, tilt, d) := DecodePanTilt(p).value;
    assert DirectionBytes(d) == (p[5], p[6]);
    var q := PanTiltPayload(pan, tilt, d);
    assert p[0] == p[..3][0] && p[1] == p[..3][1] && p[2] == p[..3][2];
    assert forall i | 0 <= i < 8 :: q[i] == p[i];
  }

  const HomePayload: Payload := [0x01, 0x06, 0x04, 0xFF]

  // ---------------------------------------------------------------------------
  // Zoom

  /** Zoom-in adds 0x20 to the speed, zoom-out 0x30. */
  const ZoomInOffset: int := 32
  const ZoomOutOffset: int := 48

  /** `(parseInt(zoomSpeed, 16) + offset) & 0xFF`; `NaN + offset` is `NaN`,
      which masks to 0. */
  function ZoomSpeedByte(zoomSpeed: string, offset: int): byte {
    match ParseIntHex(zoomSpeed)
    case None => 0
    case Some(v) => Low8(v + offset)
  }

  /** `01 04 07 speed FF`. */
  function ZoomPayload(speed: byte): Payload {
    [0x01, 0x04, 0x07, speed, 0xFF]
  }

  function ZoomInPayload(zoomSpeed: string): Payload {
    ZoomPayload(ZoomSpeedByte(zoomSpeed, ZoomInOffset))
  }

  function ZoomOutPayload(zoomSpeed: string): Payload {
    ZoomPayload(ZoomSpeedByte(zoomSpeed, ZoomOutOffset))
  }

  const ZoomStopPayload: Payload := [0x01, 0x04, 0x07, 0x00, 0xFF]

  /** The fixed payloads of the timed zooms. */
  const TimedZoomInPayload: Payload := [0x01, 0x04, 0x07, 0x27, 0xFF]
  const TimedZoomOutPayload: Payload := [0x01, 0x04, 0x07, 0x37, 0xFF]

  /** Zoom in sends `(speed + 0x20) & 0xFF` and zoom out
      `(speed + 0x30) & 0xFF`, which never coincide. For the zoom speeds
      0..7 the byte carries the direction in its high nibble (2 in, 3 out)
      and the speed in its low nibble. */
  lemma ZoomSpeedBytes(zoomSpeed: string)
    requires ParseIntHex(zoomSpeed).Some?
    ensures var v := ParseIntHex(zoomSpeed).value;
      ZoomInPayload(zoomSpeed) == ZoomPayload(Low8(v + 0x20)) &&
      ZoomOutPayload(zoomSpeed) == ZoomPayload(Low8(v + 0x30)) &&
      Low8(v + 0x20) != Low8(v + 0x30) &&
      (0 <= v <= 7 ==> Low8(v + 0x20) as int == 0x20 + v && Low8(v + 0x30) as int == 0x30 + v)
    ensures ZoomInPayload(zoomSpeed) != ZoomOutPayload(zoomSpeed)
  {
    var v := ParseIntHex(zoomSpeed).value;
    WrappedBytesDiffer(v);
    assert ZoomPayload(Low8(v + 0x20))[3] != ZoomPayload(Low8(v + 0x30))[3];
  }

  /** Adding 0x20 and adding 0x30 never land on the same byte. */
  lemma WrappedBytesDiffer(v: int)
    ensures (v + 0x20) % 256 != (v + 0x30) % 256
  {
    var q := (v + 0x20) / 256;
    var r := (v + 0x20) % 256;
    assert v + 0x30 == 256 * q + r + 16;
    if r + 16 < 256 {
      assert (v + 0x30) % 256 == r + 16;
    } else {
      assert v + 0x30 == 256 * (q + 1) + (r + 16 - 256);
      assert (v + 0x30) % 256 == r + 16 - 256;
    }
  }

  /** The wrap-around case: speed E5 (229 + 32 = 261) zooms in with byte 05. */
  lemma ZoomInWrapsModulo256()
    ensures ZoomInPayload("E5") == [0x01, 0x04, 0x07, 0x05, 0xFF]
  {
    ParseIntHexOfDigits("E5");
    assert HexDigitsValue("E5") == 229 by {
      assert "E5"[..1] == "E" && "E"[..0] == "";
    }
    ZoomSpeedBytes("E5");
    assert Low8(229 + 0x20) == 0x05;
  }

  /** A zoom speed that does not parse makes zoom-in and zoom-out send the
      zoom-stop payload. */
  lemma UnparsableZoomSpeedStops(zoomSpeed: string)
    requires ParseIntHex(zoomSpeed).None?
    ensures ZoomInPayload(zoomSpeed) == ZoomStopPayload
    ensures ZoomOutPayload(zoomSpeed) == ZoomStopPayload
  {
  }

  /** The timed zooms do not read the zoom speed: they always send what the
      variable zoom sends at speed 7. */
  lemma TimedZoomIsSpeedSeven(zoomSpeed: string)
    requires ParseIntHex(zoomSpeed) == Some(7)
    ensures TimedZoomInPayload == ZoomInPayload(zoomSpeed)
    ensures TimedZoomOutPayload == ZoomOutPayload(zoomSpeed)
  {
  }

  /** "Zoom in for ms" / "zoom out for ms": zoom, then stop, in that order. */
  function ZoomForPayloads(zoomIn: bool): (r: seq<Payload>)
    ensures |r| == 2 && r[1] == ZoomStopPayload
    ensures r[0] == ZoomPayload(if zoomIn then 0x27 else 0x37)
  {
    [if zoomIn then TimedZoomInPayload else TimedZoomOutPayload, ZoomStopPayload]
  }

  /** "Zoom position in/out": zoom in, zoom out, stop, in that order. */
  const ZoomInOutPayloads: seq<Payload> := [TimedZoomInPayload, TimedZoomOutPayload, ZoomStopPayload]

  // ---------------------------------------------------------------------------
  // Focus, exposure, iris and shutter

  const FocusNearPayload: Payload := [0x01, 0x04, 0x08, 0x03, 0xFF]
  const FocusFarPayload: Payload := [0x01, 0x04, 0x08, 0x02, 0xFF]
  const FocusStopPayload: Payload := [0x01, 0x04, 0x08, 0x00, 0xFF]

  /** Auto focus, manual focus. */
  const FocusModePayloads: seq<Payload> := [
    [0x01, 0x04, 0x38, 0x02, 0xFF],
    [0x01, 0x04, 0x38, 0x03, 0xFF]
  ]

  /** Full auto, manual, shutter priority, iris priority, bright. */
  const ExposurePayloads: seq<Payload> := [
    [0x01, 0x04, 0x39, 0x00, 0xFF],
    [0x01, 0x04, 0x39, 0x03, 0xFF],
    [0x01, 0x04, 0x39, 0x0A, 0xFF],
    [0x01, 0x04, 0x39, 0x0B, 0xFF],
    [0x01, 0x04, 0x39, 0x0D, 0xFF]
  ]

  const IrisUpPayload: Payload := [0x01, 0x04, 0x0B, 0x02, 0xFF]
  const IrisDownPayload: Payload := [0x01, 0x04, 0x0B, 0x03, 0xFF]
  const ShutterUpPayload: Payload := [0x01, 0x04, 0x0A, 0x02, 0xFF]
  const ShutterDownPayload: Payload := [0x01, 0x04, 0x0A, 0x03, 0xFF]

  /** The buffers the iris and shutter values are written into. */
  const IrisSetTemplate: Payload := [0x01, 0x04, 0x4B, 0x00, 0x00, 0x00, 0x00, 0xFF]
  const ShutterSetTemplate: Payload := [0x01, 0x04, 0x4A, 0x00, 0x00, 0x00, 0x00, 0xFF]

  /** `(parseInt(val, 16) & 0xF0) >> 4`. */
  function HighNibble(val: string): (b: byte)
    ensures b < 16
  {
    match ParseIntHex(val)
    case None => 0
    case Some(v) => (v % 256 / 16) as byte
  }

  /** `parseInt(val, 16) & 0x0F`. */
  function LowNibble(val: string): (b: byte)
    ensures b < 16
  {
    match ParseIntHex(val)
    case None => 0
    case Some(v) => (v % 16) as byte
  }

  /** The template with the value's high nibble at offset 6 and its low
      nibble at offset 7. */
  function NibblePayload(template: Payload, val: string): Payload
    requires |template| == 8
  {
    template[..6] + [HighNibble(val), LowNibble(val)]
  }

  /** The two nibbles put back together are the value's low byte: the set
      command carries exactly `parseInt(val, 16) & 0xFF`. The first six bytes
      of the template stay, and the template's closing FF is overwritten, so
      the payload never ends in FF. */
  lemma NibblePayloadCarriesValue(template: Payload, val: string)
    requires |template| == 8
    ensures var p := NibblePayload(template, val);
      |p| == 8 && p[..6] == template[..6] &&
      16 * p[6] as int + p[7] as int == HexByte(val) as int &&
      p[7] <= 0x0F && p[7] != 0xFF
  {
    var p := NibblePayload(template, val);
    assert p[..6] == template[..6];
    match ParseIntHex(val)
    case None =>
    case Some(v) =>
      NibblesOfLowByte(v);
  }

  lemma NibblesOfLowByte(v: int)
    ensures 16 * (v % 256 / 16) + v % 16 == v % 256
  {
    var x := v % 256;
    var q := v / 256;
    assert v == 16 * (16 * q) + x;
    assert v % 16 == x % 16;
  }

  /** Value 2A sets offset 6 to 02 and offset 7 to 0A. */
  lemma NibblePayloadExample()
    ensures NibblePayload(IrisSetTemplate, "2A") == [0x01, 0x04, 0x4B, 0x00, 0x00, 0x00, 0x02, 0x0A]
  {
    ParseIntHexOfDigits("2A");
    assert HexDigitsValue("2A") == 42 by {
      assert "2A"[..1] == "2" && "2"[..0] == "";
    }
  }

  /** `Buffer.from(template)` followed by the two `writeUInt8` calls that put
      the nibbles at offsets 6 and 7, in place. */
  method SetNibbles(template: Payload, val: string) returns (p: Payload)
    requires |template| == 8
    ensures p == NibblePayload(template, val)
    ensures |p| == 8 && 16 * p[6] as int + p[7] as int == HexByte(val) as int
  {
    var buf := new byte[8](i requires 0 <= i < 8 => template[i]);
    buf[6] := HighNibble(val);
    buf[7] := LowNibble(val);
    p := buf[..];
    NibblePayloadCarriesValue(template, val);
  }

  // ---------------------------------------------------------------------------
  // Presets

  datatype PresetOp = Save | Recall

  /** `01 04 3F 01|02 p FF` with `p = parseInt(val, 16) & 0xFF`. */
  function PresetPayload(op: PresetOp, val: string): Payload {
    [0x01, 0x04, 0x3F, if op == Save then 0x01 else 0x02, HexByte(val), 0xFF]
  }

  /** `01 7E 01 0B p s FF`: the drive speed of a preset. */
  function PresetSpeedPayload(val: string, speed: string): Payload {
    [0x01, 0x7E, 0x01, 0x0B, HexByte(val), HexByte(speed), 0xFF]
  }

  /** The id of preset slot `i`: `` `0${i.toString(16)}`.slice(-2) ``. */
  function PresetId(i: nat): string
    requires i < 64
  {
    var s := "0" + ToHexString(i);
    s[|s| - 2..]
  }

  /** The id of every slot 0..63 is two hexadecimal digits that read back as
      the slot number, so saving or recalling slot i sends byte i. */
  lemma PresetIdReadsBack(i: nat)
    requires i < 64
    ensures |PresetId(i)| == 2 && ParseIntHex(PresetId(i)) == Some(i)
    ensures PresetPayload(Save, PresetId(i))[4] as int == i
    ensures PresetPayload(Recall, PresetId(i))[4] as int == i
  {
    var id := PresetId(i);
    if i < 16 {
      SingleDigitPresetId(i);
    } else {
      TwoDigitPresetId(i);
    }
    assert ParseIntHex(id) == Some(i);
    assert HexByte(id) == Low8(i);
    assert HexByte(id) as int == i;
  }

  lemma TwoDigitPresetId(i: nat)
    requires 16 <= i < 64
    ensures ParseIntHex(PresetId(i)) == Some(i) && |PresetId(i)| == 2
  {
    var h := ToHexString(i);
    assert |h| == 2;
    var s := "0" + h;
    assert s[|s| - 2..] == h;
    ParseIntHexOfToHexString(i);
  }

  lemma SingleDigitPresetId(i: nat)
    requires i < 16
    ensures ParseIntHex(PresetId(i)) == Some(i) && |PresetId(i)| == 2
  {
    var id := PresetId(i);
    var c := HexDigit(i);
    assert ToHexString(i) == [c];
    assert id == ['0', c];
    ParseIntHexOfDigits(id);
    assert id[..1] == ['0'];
    assert HexDigitsValue(['0']) == 0;
  }

  /** Saving and recalling the same slot never send the same payload, and a
      preset payload is never a drive-speed payload. */
  lemma PresetPayloadsDistinct(val: string, val2: string, speed: string)
    ensures PresetPayload(Save, val) != PresetPayload(Recall, val)
    ensures PresetPayload(Save, val) != PresetSpeedPayload(val2, speed)
    ensures PresetPayload(Recall, val) != PresetSpeedPayload(val2, speed)
  {
    assert PresetPayload(Save, val)[3] != PresetPayload(Recall, val)[3];
    assert PresetPayload(Save, val)[1] != PresetSpeedPayload(val2, speed)[1];
    assert PresetPayload(Recall, val)[1] != PresetSpeedPayload(val2, speed)[1];
  }

  // ---------------------------------------------------------------------------
  // Tally and on-screen display

  /** Red, green, off. */
  const TallyPayloads: seq<Payload> := [
    [0x01, 0x7E, 0x01, 0x0A, 0x00, 0x02, 0x03, 0xFF],
    [0x01, 0x7E, 0x01, 0x0A, 0x00, 0x03, 0x02, 0xFF],
    [0x01, 0x7E, 0x01, 0x0A, 0x00, 0x03, 0x03, 0xFF]
  ]

  /** On, off, enter, back, up, down, left, right, release. */
  const OsdPayloads: seq<Payload> := [
    [0x01, 0x06, 0x06, 0x02, 0xFF],
    [0x01, 0x06, 0x06, 0x03, 0xFF],
    [0x01, 0x7E, 0x01, 0x02, 0x00, 0x01, 0xFF],
    [0x01, 0x06, 0x01, 0x09, 0x09, 0x01, 0x03, 0xFF],
    [0x01, 0x06, 0x01, 0x0A, 0x0A, 0x03, 0x01, 0xFF],
    [0x01, 0x06, 0x01, 0x0A, 0x0A, 0x03, 0x02, 0xFF],
    [0x01, 0x06, 0x01, 0x0A, 0x0A, 0x01, 0x03, 0xFF],
    [0x01, 0x06, 0x01, 0x0A, 0x0A, 0x02, 0x03, 0xFF],
    [0x01, 0x06, 0x01, 0x01, 0x01, 0x03, 0x03, 0xFF]
  ]

  /** Each entry of a selection table is a distinct command ending in FF. */
  predicate WellFormedTable(table: seq<Payload>) {
    (forall i | 0 <= i < |table| :: |table[i]| >= 2 && table[i][|table[i]| - 1] == 0xFF) &&
    (forall i, j | 0 <= i < j < |table| :: table[i] != table[j])
  }

  /** The focus-mode, exposure, tally and OSD tables are well formed. */
  lemma SelectionTablesWellFormed()
    ensures WellFormedTable(FocusModePayloads)
    ensures WellFormedTable(ExposurePayloads)
    ensures WellFormedTable(TallyPayloads)
    ensures WellFormedTable(OsdPayloads)
  {
    assert forall i, j | 0 <= i < j < 2 :: FocusModePayloads[i][3] != FocusModePayloads[j][3];
    assert forall i, j | 0 <= i < j < 5 :: ExposurePayloads[i][3] != ExposurePayloads[j][3];
    assert forall i, j | 0 <= i < j < 3 ::
      TallyPayloads[i][5] != TallyPayloads[j][5] || TallyPayloads[i][6] != TallyPayloads[j][6];
    forall i, j | 0 <= i < j < 9 ensures OsdPayloads[i] != OsdPayloads[j] {
      var a, b := OsdPayloads[i], OsdPayloads[j];
      if |a| == |b| {
        if |a| == 5 {
          assert a[3] != b[3];
        } else {
          assert |a| == 8;
          assert a[3] != b[3] || a[5] != b[5] || a[6] != b[6];
        }
      }
    }
  }

  /** The OSD navigation buttons are pan/tilt drive commands: back is a slow
      pan left, up/down/left/right drive at speed 0A, release is a stop. */
  lemma OsdNavigationIsPanTilt()
    ensures OsdPayloads[3] == PanTiltPayload(0x09, 0x09, Left)
    ensures OsdPayloads[4] == PanTiltPayload(0x0A, 0x0A, Up)
    ensures OsdPayloads[5] == PanTiltPayload(0x0A, 0x0A, Down)
    ensures OsdPayloads[6] == PanTiltPayload(0x0A, 0x0A, Left)
    ensures OsdPayloads[7] == PanTiltPayload(0x0A, 0x0A, Right)
    ensures OsdPayloads[8] == PanTiltPayload(0x01, 0x01, Stop)
  {
  }

  // ---------------------------------------------------------------------------
  // Choosing a payload by option value

  /** The `if (opt.val == k)` chains: entry k when the option loosely equals
      k, nothing (`cmd` stays undefined) otherwise. */
  function LooseSelect(table: seq<Payload>, v: JsVal): (r: Option<Payload>)
    ensures r.Some? <==> exists k | 0 <= k < |table| :: LooseEquals(v, k)
    ensures forall k | 0 <= k < |table| && LooseEquals(v, k) :: r == Some(table[k])
  {
    match v
    case Num(n) => if 0 <= n < |table| then assert LooseEquals(v, n); Some(table[n]) else None
    case Str(s) =>
      match StringToNumber(s)
      case Some(k) => if k < |table| then assert LooseEquals(v, k); Some(table[k]) else None
      case None => None
  }

  /** The `switch (opt.val) { case k: ... }` statement: `===` comparison, so
      only a number selects an entry. */
  function StrictSelect(table: seq<Payload>, v: JsVal): (r: Option<Payload>)
    ensures r.Some? <==> exists k | 0 <= k < |table| :: StrictEquals(v, k)
    ensures forall k | 0 <= k < |table| && StrictEquals(v, k) :: r == Some(table[k])
  {
    match v
    case Num(n) => if 0 <= n < |table| then assert StrictEquals(v, n); Some(table[n]) else None
    case Str(_) => None
  }

  /** `commands[opt.val]`: a property lookup on an array, entry k when the
      option is k or "k", `undefined` otherwise. */
  function PropertySelect(table: seq<Payload>, v: JsVal): (r: Option<Payload>)
    ensures r.Some? ==> r.value in table
  {
    match ArrayIndex(v, |table|)
    case Some(k) => Some(table[k])
    case None => None
  }

  /** The lookup picks entry k exactly when the option is k or "k", and
      gives `undefined` for every value that names no index. */
  lemma PropertySelectMeaning(table: seq<Payload>, v: JsVal)
    ensures PropertySelect(table, v).Some? <==> exists k: nat | k < |table| :: NamesIndex(v, k)
    ensures forall k: nat | k < |table| && NamesIndex(v, k) :: PropertySelect(table, v) == Some(table[k])
  {
    forall k: nat | k < |table| {
      ArrayIndexMeaning(v, |table|, k);
    }
    match ArrayIndex(v, |table|)
    case Some(j) => ArrayIndexMeaning(v, |table|, j);
    case None =>
  }

  // ---------------------------------------------------------------------------
  // Custom commands and the state inquiry

  /** The fixed inquiry the poll timer sends. */
  const StateRequestPayload: Payload := [0x09, 0x7E, 0x7E, 0x70, 0xFF]

  /** `Buffer.from(h, 'hex')`: pairs of hexadecimal digits are decoded from
      the start, and decoding stops at the first pair that is not two digits
      (so an odd last digit is dropped). */
  function HexDecode(h: string): (p: Payload)
    ensures |p| <= |h| / 2
    ensures AllHexDigits(h) ==> |p| == |h| / 2
  {
    if |h| >= 2 && IsHexDigit(h[0]) && IsHexDigit(h[1])
    then [(16 * HexDigitValue(h[0]) + HexDigitValue(h[1])) as byte] + HexDecode(h[2..])
    else []
  }

  /** Byte i of the decoding is the value of digits 2i and 2i + 1. */
  lemma {:induction false} HexDecodeReadsPairs(h: string, i: nat)
    requires i < |HexDecode(h)|
    ensures IsHexDigit(h[2 * i]) && IsHexDigit(h[2 * i + 1])
    ensures HexDecode(h)[i] as int == 16 * HexDigitValue(h[2 * i]) + HexDigitValue(h[2 * i + 1])
    decreases i
  {
    if i > 0 {
      var t := h[2..];
      HexDecodeReadsPairs(t, i - 1);
      assert HexDecode(h)[i] == HexDecode(t)[i - 1];
      assert h[2 * i] == t[2 * (i - 1)] && h[2 * i + 1] == t[2 * (i - 1) + 1];
    }
  }

  /** Decoding stops only at a pair that is not two hexadecimal digits. */
  lemma {:induction false} HexDecodeStopsAtBadPair(h: string)
    requires |HexDecode(h)| < |h| / 2
    ensures var n := |HexDecode(h)|; !(IsHexDigit(h[2 * n]) && IsHexDigit(h[2 * n + 1]))
  {
    if |h| >= 2 && IsHexDigit(h[0]) && IsHexDigit(h[1]) {
      var t := h[2..];
      HexDecodeStopsAtBadPair(t);
      var n := |HexDecode(t)|;
      assert h[2 * (n + 1)] == t[2 * n] && h[2 * (n + 1) + 1] == t[2 * n + 1];
    }
  }

  /** Two lower-case hexadecimal digits per byte. */
  function HexEncode(p: Payload): (h: string)
    ensures AllHexDigits(h) && |h| == 2 * |p|
  {
    if p == [] then [] else [HexDigit(p[0] as int / 16), HexDigit(p[0] as int % 16)] + HexEncode(p[1..])
  }

  /** Decoding undoes encoding. */
  lemma {:induction false} HexDecodeOfHexEncode(p: Payload)
    ensures HexDecode(HexEncode(p)) == p
  {
    if p != [] {
      var h := HexEncode(p);
      var hi, lo := p[0] as int / 16, p[0] as int % 16;
      assert h == [HexDigit(hi), HexDigit(lo)] + HexEncode(p[1..]);
      assert h[2..] == HexEncode(p[1..]);
      assert |h| >= 2 && IsHexDigit(h[0]) && IsHexDigit(h[1]);
      assert HexDigitValue(h[0]) == hi && HexDigitValue(h[1]) == lo;
      HexDecodeOfHexEncode(p[1..]);
      assert HexDecode(h) == [(16 * hi + lo) as byte] + HexDecode(h[2..]);
    }
  }
}
