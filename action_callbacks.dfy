/** The action callbacks `getActions(instance)` builds. The pan/tilt speed
    characters are computed once, when `getActions` runs, and every direction
    callback sends those. The speed callbacks only assign the instance's
    speed ids; they never touch the speed indexes. Every other callback sends
    what the `action()` switch sends, except that an option picks an entry of
    the exposure, tally and OSD tables by property lookup and focus mode is
    auto for 0 and manual for anything else. */
module ActionCallbacks {
  import opened Wrappers
  import opened Bytes
  import opened JsValues
  import opened Dvip
  import opened Visca
  import opened Speed
  import opened Commands
  import opened Camera

  /** `hex2str(h)`: one character whose code is `parseInt(h, 16) & 0xFF`, so
      always a single byte. Written in hexadecimal, every byte reads back as
      itself. */
  lemma Hex2StrReadsBack(b: byte)
    ensures HexByte(ToHexString(b as nat)) == b
  {
    ParseIntHexOfToHexString(b as nat);
  }

  /** What `getActions` captures: the pan speed character and the tilt speed
      character, the latter capped at 0x14. */
  datatype ActionSet = ActionSet(panSpeed: byte, tiltSpeed: byte)

  /** `getActions(instance)`, reduced to the two values it captures from the
      pan/tilt speed id current at that moment. */
  function GetActions(ptSpeed: string): (acts: ActionSet)
    ensures acts.panSpeed == HexByte(ptSpeed)
    ensures !SignedNegative(ptSpeed) ==> acts.tiltSpeed <= 0x14
    ensures ParseIntHex(ptSpeed).Some? && 0 <= ParseIntHex(ptSpeed).value <= 0x14 ==>
      acts.tiltSpeed == acts.panSpeed
    ensures ParseIntHex(ptSpeed).Some? && ParseIntHex(ptSpeed).value >= 0x14 ==> acts.tiltSpeed == 0x14
  {
    TiltSpeedCapped(ptSpeed);
    ActionSet(PanSpeedByte(ptSpeed), TiltSpeedByte(ptSpeed))
  }

  /** The speed ids after a callback: `ptSpeedS`/`zoomSpeedS` store the
      chosen id, the up and down callbacks store what `nextChoiceId` and
      `prevChoiceId` give for the current id, and every other callback
      leaves both alone. The choice tables and the two helpers are
      parameters. */
  function CallbackSpeeds(ptChoices: seq<Choice>, zoomChoices: seq<Choice>,
                          next: (seq<Choice>, string) -> string, prev: (seq<Choice>, string) -> string,
                          a: Action, pt: string, zoom: string): (r: (string, string))
    ensures !(a.PtSpeedSet? || a.PtSpeedUp? || a.PtSpeedDown?) ==> r.0 == pt
    ensures !(a.ZoomSpeedSet? || a.ZoomSpeedUp? || a.ZoomSpeedDown?) ==> r.1 == zoom
    ensures a.PtSpeedSet? ==> r.0 == a.speed
    ensures a.ZoomSpeedSet? ==> r.1 == a.speed
    ensures a.PtSpeedUp? ==> r == (next(ptChoices, pt), zoom)
    ensures a.PtSpeedDown? ==> r == (prev(ptChoices, pt), zoom)
    ensures a.ZoomSpeedUp? ==> r == (pt, next(zoomChoices, zoom))
    ensures a.ZoomSpeedDown? ==> r == (pt, prev(zoomChoices, zoom))
  {
    match a
    case PtSpeedSet(id) => (id, zoom)
    case PtSpeedUp => (next(ptChoices, pt), zoom)
    case PtSpeedDown => (prev(ptChoices, pt), zoom)
    case ZoomSpeedSet(id) => (pt, id)
    case ZoomSpeedUp => (pt, next(zoomChoices, zoom))
    case ZoomSpeedDown => (pt, prev(zoomChoices, zoom))
    case _ => (pt, zoom)
  }

  /** When the callbacks choose from the switch's tables and the two helpers
      step an id the way the switch steps its index, a callback leaves the
      same speed ids as the switch: the two dispatchers differ only in the
      indexes, which the callbacks never move. */
  lemma CallbackSpeedsMatchSwitch(speedTable: seq<Choice>, zoomTable: seq<Choice>,
                                  next: (seq<Choice>, string) -> string, prev: (seq<Choice>, string) -> string,
                                  a: Action, s: Speeds)
    requires SpeedsInRange(speedTable, zoomTable, s) && InStep(speedTable, zoomTable, s)
    requires next(speedTable, s.pt) == speedTable[PtStepUp(s.ptIndex)].id
    requires prev(speedTable, s.pt) == speedTable[PtStepDown(s.ptIndex)].id
    requires next(zoomTable, s.zoom) == zoomTable[ZoomStepUp(s.zoomIndex)].id
    requires prev(zoomTable, s.zoom) == zoomTable[ZoomStepDown(s.zoomIndex)].id
    ensures var r := SpeedsAfter(speedTable, zoomTable, a, s);
      CallbackSpeeds(speedTable, zoomTable, next, prev, a, s.pt, s.zoom) == (r.pt, r.zoom)
  {
  }

  /** A setting callback for an id the table holds at another position than
      the current index leaves the stored id and the index out of step; the
      switch would have moved the index to it. */
  lemma SetCallbackDesynchronises(speedTable: seq<Choice>, zoomTable: seq<Choice>,
                                  next: (seq<Choice>, string) -> string, prev: (seq<Choice>, string) -> string,
                                  s: Speeds, j: nat)
    requires SpeedsInRange(speedTable, zoomTable, s)
    requires j < |speedTable| && speedTable[j].id != speedTable[s.ptIndex].id
    ensures var id := speedTable[j].id;
      var r := CallbackSpeeds(speedTable, zoomTable, next, prev, PtSpeedSet(id), s.pt, s.zoom);
      !InStep(speedTable, zoomTable, s.(pt := r.0, zoom := r.1)) &&
      InStep(speedTable, zoomTable, SpeedsAfter(speedTable, zoomTable, PtSpeedSet(id), s.(zoom := zoomTable[s.zoomIndex].id)))
  {
    var id := speedTable[j].id;
    PtSpeedSetMeaning(speedTable, zoomTable, id, s.(zoom := zoomTable[s.zoomIndex].id));
  }

  /** Runs the callback of action `a` from the set `acts` on the instance:
      a speed callback assigns a speed id, any other callback sends its
      payloads, the direction callbacks with the captured speed bytes. The
      speed indexes are never touched. */
  method Invoke(camera: Instance, acts: ActionSet, a: Action,
                ptChoices: seq<Choice>, zoomChoices: seq<Choice>,
                next: (seq<Choice>, string) -> string, prev: (seq<Choice>, string) -> string)
    requires camera.Valid()
    modifies camera`ptSpeed, camera`zoomSpeed, camera`sent
    ensures camera.Valid()
    ensures (camera.ptSpeed, camera.zoomSpeed) ==
      CallbackSpeeds(ptChoices, zoomChoices, next, prev, a, old(camera.ptSpeed), old(camera.zoomSpeed))
    ensures camera.ptSpeedIndex == old(camera.ptSpeedIndex) && camera.zoomSpeedIndex == old(camera.zoomSpeedIndex)
    ensures camera.sent == old(camera.sent) +
      camera.Outgoing(Payloads(Callbacks, a, acts.panSpeed, acts.tiltSpeed, old(camera.zoomSpeed)))
  {
    if IsSpeedAction(a) {
      match a {
        case PtSpeedSet(id) => camera.ptSpeed := id;
        case PtSpeedUp => camera.ptSpeed := next(ptChoices, camera.ptSpeed);
        case PtSpeedDown => camera.ptSpeed := prev(ptChoices, camera.ptSpeed);
        case PtSlow(_) =>
        case ZoomSpeedSet(id) => camera.zoomSpeed := id;
        case ZoomSpeedUp => camera.zoomSpeed := next(zoomChoices, camera.zoomSpeed);
        case ZoomSpeedDown => camera.zoomSpeed := prev(zoomChoices, camera.zoomSpeed);
      }
    } else {
      camera.SendForAction(Callbacks, a, acts.panSpeed, acts.tiltSpeed);
    }
  }

  /** The speed captured by `getActions` is the one the direction callbacks
      keep using: with actions built at the default speed 0C, setting the
      pan/tilt speed to 18 and panning left still sends speed bytes 0C 0C,
      while the `action()` switch, which reads the current speed, sends
      18 14. */
  method CapturedSpeedScenario(speedTable: seq<Choice>, zoomTable: seq<Choice>,
                               next: (seq<Choice>, string) -> string, prev: (seq<Choice>, string) -> string)
    returns (byCallback: seq<seq<byte>>, bySwitch: seq<seq<byte>>)
    requires |speedTable| >= PtSpeedTableMin && |zoomTable| >= ZoomSpeedTableMin
    ensures byCallback == [[0x00, 0x0B, 0x81, 0x01, 0x06, 0x01, 0x0C, 0x0C, 0x01, 0x03, 0xFF]]
    ensures bySwitch == [[0x00, 0x0B, 0x81, 0x01, 0x06, 0x01, 0x18, 0x14, 0x01, 0x03, 0xFF]]
  {
    var camera, acts := NewCameraOne(speedTable, zoomTable, "camera", "5002");
    PanLeftByCallback(camera, acts, speedTable, zoomTable, next, prev);
    byCallback := camera.sent;
    SpeedBytesOf18();
    PanLeftBySwitch(camera, 0x18, 0x14);
    bySwitch := camera.sent[|byCallback|..];
  }

  /** The `action()` switch panning left sends the speed bytes of the
      current pan/tilt speed id. */
  method PanLeftBySwitch(camera: Instance, pan: byte, tilt: byte)
    requires camera.Valid() && camera.tcp.Some? && camera.deviceAddress == Some(AddressByte(1))
    requires PanSpeedByte(camera.ptSpeed) == pan && TiltSpeedByte(camera.ptSpeed) == tilt
    modifies camera`ptSpeed, camera`ptSpeedIndex, camera`zoomSpeed, camera`zoomSpeedIndex, camera`sent
    ensures camera.sent == old(camera.sent) + [[0x00, 0x0B, 0x81, 0x01, 0x06, 0x01, pan, tilt, 0x01, 0x03, 0xFF]]
  {
    var zoom := camera.zoomSpeed;
    camera.RunAction(Move(Left));
    PanLeftFrame(ActionSwitch, pan, tilt, zoom);
  }

  /** A new instance configured for camera 1 at `host`, with the actions
      built at the default speed. */
  method NewCameraOne(speedTable: seq<Choice>, zoomTable: seq<Choice>, host: string, port: string)
    returns (camera: Instance, acts: ActionSet)
    requires |speedTable| >= PtSpeedTableMin && |zoomTable| >= ZoomSpeedTableMin
    ensures fresh(camera) && camera.Valid()
    ensures camera.tcp.Some? && camera.deviceAddress == Some(AddressByte(1))
    ensures camera.sent == [] && acts == ActionSet(0x0C, 0x0C)
  {
    camera := new Instance(speedTable, zoomTable);
    camera.Init(Config(Some(host), port, 1, Flag(false)));
    assert camera.ptSpeed == "0C";
    DefaultActions();
    acts := GetActions(camera.ptSpeed);
  }

  /** The actions built at the initial speed 0C capture the bytes 0C 0C. */
  lemma DefaultActions()
    ensures GetActions("0C") == ActionSet(0x0C, 0x0C)
  {
    DefaultSpeedBytes();
  }

  /** With actions built at the default speed, the speed callback for 18
      followed by the pan-left callback. */
  method PanLeftByCallback(camera: Instance, acts: ActionSet, speedTable: seq<Choice>, zoomTable: seq<Choice>,
                           next: (seq<Choice>, string) -> string, prev: (seq<Choice>, string) -> string)
    requires camera.Valid() && camera.tcp.Some? && camera.deviceAddress == Some(AddressByte(1))
    requires camera.sent == [] && acts == ActionSet(0x0C, 0x0C)
    modifies camera`ptSpeed, camera`zoomSpeed, camera`sent
    ensures camera.Valid() && camera.ptSpeed == "18"
    ensures camera.sent == [[0x00, 0x0B, 0x81, 0x01, 0x06, 0x01, 0x0C, 0x0C, 0x01, 0x03, 0xFF]]
  {
    Invoke(camera, acts, PtSpeedSet("18"), speedTable, zoomTable, next, prev);
    assert camera.sent == [];
    var zoom := camera.zoomSpeed;
    Invoke(camera, acts, Move(Left), speedTable, zoomTable, next, prev);
    PanLeftFrame(Callbacks, 0x0C, 0x0C, zoom);
    assert camera.sent == camera.Outgoing(Payloads(Callbacks, Move(Left), 0x0C, 0x0C, zoom));
  }

  /** Speed id 18 gives pan byte 18 and, capped, tilt byte 14. */
  lemma SpeedBytesOf18()
    ensures PanSpeedByte("18") == 0x18 && TiltSpeedByte("18") == 0x14
  {
    ParseIntHexOfDigits("18");
    assert HexDigitsValue("18") == 24 by {
      assert "18"[..1] == "1" && "1"[..0] == "";
    }
    assert ParseIntHex("18") == Some(24);
  }
}
