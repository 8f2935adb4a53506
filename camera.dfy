/** The module instance: its configuration, its connection to the camera,
    the poll timer that sends the state inquiry, the pan/tilt and zoom speed
    selections, and the `action()` switch that turns an action into VISCA
    frames on the connection. */
module Camera {
  import opened Wrappers
  import opened Bytes
  import opened JsValues
  import opened Dvip
  import opened Visca
  import opened CustomCommand
  import opened Speed
  import opened Commands

  /** A configuration value as `if (this.config.feedback)` sees it: undefined,
      the boolean a ticked or cleared checkbox stores, or a number or string. */
  datatype Setting = Unset | Flag(on: bool) | Given(v: JsVal)

  /** JavaScript truthiness: undefined, `false`, 0 and the empty string are
      falsy, and every other value is truthy, the string "0" included. */
  predicate Truthy(s: Setting) {
    match s
    case Unset => false
    case Flag(b) => b
    case Given(Num(n)) => n != 0
    case Given(Str(t)) => t != ""
  }

  /** The checkbox's declared default, the string '0'. */
  const FeedbackDefault: Setting := Given(Str("0"))

  /** The falsy settings are exactly undefined, `false`, 0 and "", so the
      checkbox default '0' counts as on. */
  lemma FalsySettings(s: Setting)
    ensures !Truthy(s) <==> s == Unset || s == Flag(false) || s == Given(Num(0)) || s == Given(Str(""))
    ensures Truthy(FeedbackDefault)
  {
    assert FeedbackDefault.v.s != "";
  }

  /** The configuration fields the instance reads. `host` is `None` when the
      field is undefined, as in the empty configuration an instance starts
      with; `port` is passed to the transport unread. */
  datatype Config = Config(host: Option<string>, port: string, deviceAddress: int, feedback: Setting)

  /** `config = {}`: no host, and feedback undefined. */
  const EmptyConfig: Config := Config(None, "", 0, Unset)

  /** A connection the instance opened: the host and port it was opened for,
      and whether `destroy()` was called on it. */
  datatype Transport = Transport(host: string, port: string, destroyed: bool)

  /** `writeUInt8(deviceAddress + 128)` accepts only a byte, and it runs
      whenever a host is configured. */
  predicate AddressFits(c: Config) {
    c.host.Some? ==> 0 <= c.deviceAddress + 128 < 256
  }

  /** The connection `init_tcp` opens for a configuration: one to the
      configured host and port, or none when no host is configured. */
  function OpenedFor(c: Config): (t: Option<Transport>)
    ensures t.Some? <==> c.host.Some?
    ensures t.Some? ==> t.value.host == c.host.value && t.value.port == c.port && !t.value.destroyed
  {
    match c.host
    case Some(h) => Some(Transport(h, c.port, false))
    case None => None
  }

  /** The handles `clearInterval(handle)` stops: none for an undefined handle. */
  function Handles(handle: Option<nat>): set<nat> {
    match handle
    case Some(h) => {h}
    case None => {}
  }

  // ---------------------------------------------------------------------------
  // Frames on the wire

  /** The frame `sendVISCACommand` hands the transport for one payload, or
      nothing when `prependPacketSize` throws. */
  function FrameOrNothing(address: byte, p: Payload): (fs: seq<seq<byte>>)
    ensures |fs| <= 1
    ensures fs == [] <==> Frame(address, p).Failure?
  {
    match Frame(address, p)
    case Success(f) => [f]
    case Failure(_) => []
  }

  /** The frames for a run of payloads sent one after another. */
  function FramesSent(address: byte, ps: seq<Payload>): (fs: seq<seq<byte>>)
    ensures |fs| <= |ps|
  {
    if ps == [] then [] else FrameOrNothing(address, ps[0]) + FramesSent(address, ps[1..])
  }

  /** Sending payloads one run after another sends their frames one run after
      another. */
  lemma {:induction false} FramesSentAppend(address: byte, ps: seq<Payload>, qs: seq<Payload>)
    ensures FramesSent(address, ps + qs) == FramesSent(address, ps) + FramesSent(address, qs)
  {
    if ps == [] {
      assert ps + qs == qs;
    } else {
      assert (ps + qs)[0] == ps[0];
      assert (ps + qs)[1..] == ps[1..] + qs;
      FramesSentAppend(address, ps[1..], qs);
    }
  }

  /** Every payload that fits is sent as one frame, in order, and each frame
      reads back as the instance's address and that payload. */
  lemma {:induction false} FramesSentReadBack(address: byte, ps: seq<Payload>)
    requires forall i | 0 <= i < |ps| :: |ps[i]| + 3 <= MaxUInt16
    ensures |FramesSent(address, ps)| == |ps|
    ensures forall i | 0 <= i < |ps| :: ParseFrame(FramesSent(address, ps)[i]) == Some((address, ps[i]))
  {
    if ps != [] {
      FramesSentReadBack(address, ps[1..]);
      FrameLayout(address, ps[0]);
      ParseFrameOfFrame(address, ps[0]);
      var fs := FramesSent(address, ps);
      forall i | 1 <= i < |ps|
        ensures ParseFrame(fs[i]) == Some((address, ps[i]))
      {
        assert fs[i] == FramesSent(address, ps[1..])[i - 1];
      }
    }
  }

  /** The state inquiry framed for camera address 1 is byte for byte the
      acknowledgement `ok_pkt`: the camera's answer is the inquiry's echo. */
  lemma FramedStateRequestIsAck()
    ensures AddressByte(1) == 0x81
    ensures Frame(AddressByte(1), StateRequestPayload) == Success(OkPacket)
    ensures IsAck(FramesSent(AddressByte(1), [StateRequestPayload])[0])
  {
    FrameLayout(AddressByte(1), StateRequestPayload);
    assert [(8 / 256) as byte, (8 % 256) as byte, 0x81] + StateRequestPayload == OkPacket;
    assert [StateRequestPayload][1..] == [];
  }

  /** Pan left with speed bytes `pan` and `tilt` to camera 1 is the 11-byte
      frame 00 0B 81 01 06 01 pan tilt 01 03 FF, whichever dispatcher sends
      it: the length field counts the whole frame. */
  lemma PanLeftFrame(disp: Dispatcher, pan: byte, tilt: byte, zoomSpeed: string)
    ensures FramesSent(AddressByte(1), Payloads(disp, Move(Left), pan, tilt, zoomSpeed)) ==
      [[0x00, 0x0B, 0x81, 0x01, 0x06, 0x01, pan, tilt, 0x01, 0x03, 0xFF]]
  {
    var p := PanTiltPayload(pan, tilt, Left);
    assert p == [0x01, 0x06, 0x01, pan, tilt, 0x01, 0x03, 0xFF];
    assert Payloads(disp, Move(Left), pan, tilt, zoomSpeed) == [p];
    FrameLayout(AddressByte(1), p);
    assert Frame(AddressByte(1), p) == Success([0x00, 0x0B, 0x81] + p);
    assert [p][1..] == [];
    assert FramesSent(AddressByte(1), [p]) == [[0x00, 0x0B, 0x81] + p];
    var frame: seq<byte> := [0x00, 0x0B, 0x81, 0x01, 0x06, 0x01, pan, tilt, 0x01, 0x03, 0xFF];
    assert [0x00, 0x0B, 0x81] + p == frame;
  }

  /** The default pan/tilt speed "0C" gives pan and tilt bytes 0C. */
  lemma DefaultSpeedBytes()
    ensures PanSpeedByte("0C") == 0x0C && TiltSpeedByte("0C") == 0x0C
  {
    ParseIntHexOfDigits("0C");
    assert HexDigitsValue("0C") == 12;
  }

  // ---------------------------------------------------------------------------
  // Speed selections

  /** The four speed fields: pan/tilt id and index, zoom id and index. */
  datatype Speeds = Speeds(pt: string, ptIndex: nat, zoom: string, zoomIndex: nat)

  /** The tables are long enough for the steps, and both indexes are inside
      them. */
  predicate SpeedsInRange(speedTable: seq<Choice>, zoomTable: seq<Choice>, s: Speeds) {
    |speedTable| >= PtSpeedTableMin && |zoomTable| >= ZoomSpeedTableMin &&
    s.ptIndex < |speedTable| && s.zoomIndex < |zoomTable|
  }

  /** Each id is the id of the table entry its index points at. */
  predicate InStep(speedTable: seq<Choice>, zoomTable: seq<Choice>, s: Speeds)
    requires SpeedsInRange(speedTable, zoomTable, s)
  {
    s.pt == speedTable[s.ptIndex].id && s.zoom == zoomTable[s.zoomIndex].id
  }

  /** The speed fields after an action: a set stores the id and moves the
      index to the id's first entry if it has one; a step moves the index and
      takes the id from the table; every other action leaves them alone. */
  function SpeedsAfter(speedTable: seq<Choice>, zoomTable: seq<Choice>, a: Action, s: Speeds): (r: Speeds)
    requires SpeedsInRange(speedTable, zoomTable, s)
    ensures SpeedsInRange(speedTable, zoomTable, r)
    ensures !IsSpeedAction(a) || a.PtSlow? ==> r == s
  {
    match a
    case PtSpeedSet(id) =>
      var i := FirstIndexOf(speedTable, id);
      s.(pt := id, ptIndex := if i > -1 then i else s.ptIndex)
    case PtSpeedUp =>
      var i := PtStepUp(s.ptIndex);
      s.(pt := speedTable[i].id, ptIndex := i)
    case PtSpeedDown =>
      var i := PtStepDown(s.ptIndex);
      s.(pt := speedTable[i].id, ptIndex := i)
    case ZoomSpeedSet(id) =>
      var i := FirstIndexOf(zoomTable, id);
      s.(zoom := id, zoomIndex := if i > -1 then i else s.zoomIndex)
    case ZoomSpeedUp =>
      var i := ZoomStepUp(s.zoomIndex);
      s.(zoom := zoomTable[i].id, zoomIndex := i)
    case ZoomSpeedDown =>
      var i := ZoomStepDown(s.zoomIndex);
      s.(zoom := zoomTable[i].id, zoomIndex := i)
    case _ => s
  }

  /** Setting the pan/tilt speed to an id the table holds points the index at
      its first entry; an id the table lacks is stored while the index stays,
      so id and index then disagree. The zoom fields are untouched. */
  lemma PtSpeedSetMeaning(speedTable: seq<Choice>, zoomTable: seq<Choice>, id: string, s: Speeds)
    requires SpeedsInRange(speedTable, zoomTable, s)
    ensures var r := SpeedsAfter(speedTable, zoomTable, PtSpeedSet(id), s);
      r.pt == id && r.zoom == s.zoom && r.zoomIndex == s.zoomIndex &&
      ((exists j | 0 <= j < |speedTable| :: speedTable[j].id == id) ==>
         speedTable[r.ptIndex].id == id && forall j | 0 <= j < r.ptIndex :: speedTable[j].id != id) &&
      ((forall j | 0 <= j < |speedTable| :: speedTable[j].id != id) ==>
         r.ptIndex == s.ptIndex && r.pt != speedTable[r.ptIndex].id)
  {
  }

  /** The same for the zoom speed. */
  lemma ZoomSpeedSetMeaning(speedTable: seq<Choice>, zoomTable: seq<Choice>, id: string, s: Speeds)
    requires SpeedsInRange(speedTable, zoomTable, s)
    ensures var r := SpeedsAfter(speedTable, zoomTable, ZoomSpeedSet(id), s);
      r.zoom == id && r.pt == s.pt && r.ptIndex == s.ptIndex &&
      ((exists j | 0 <= j < |zoomTable| :: zoomTable[j].id == id) ==>
         zoomTable[r.zoomIndex].id == id && forall j | 0 <= j < r.zoomIndex :: zoomTable[j].id != id) &&
      ((forall j | 0 <= j < |zoomTable| :: zoomTable[j].id != id) ==>
         r.zoomIndex == s.zoomIndex && r.zoom != zoomTable[r.zoomIndex].id)
  {
  }

  /** A step always brings the stepped id back in line with its index, moves
      the index by at most one, and keeps it in [0, 23] for pan/tilt and in
      [0, 7] for zoom once it is there. */
  lemma StepsResynchronise(speedTable: seq<Choice>, zoomTable: seq<Choice>, a: Action, s: Speeds)
    requires SpeedsInRange(speedTable, zoomTable, s)
    requires a.PtSpeedUp? || a.PtSpeedDown? || a.ZoomSpeedUp? || a.ZoomSpeedDown?
    ensures var r := SpeedsAfter(speedTable, zoomTable, a, s);
      (a.PtSpeedUp? || a.PtSpeedDown? ==>
         r.pt == speedTable[r.ptIndex].id && r.zoom == s.zoom && r.zoomIndex == s.zoomIndex &&
         s.ptIndex - 1 <= r.ptIndex <= s.ptIndex + 1 && (s.ptIndex <= 23 ==> r.ptIndex <= 23)) &&
      (a.ZoomSpeedUp? || a.ZoomSpeedDown? ==>
         r.zoom == zoomTable[r.zoomIndex].id && r.pt == s.pt && r.ptIndex == s.ptIndex &&
         s.zoomIndex - 1 <= r.zoomIndex <= s.zoomIndex + 1 && (s.zoomIndex <= 7 ==> r.zoomIndex <= 7))
  {
    StepsStayInRange(s.ptIndex);
    StepsStayInRange(s.zoomIndex);
  }

  /** Once id and index agree, every speed action except a set to an unknown
      id keeps them in agreement. */
  lemma InStepPreserved(speedTable: seq<Choice>, zoomTable: seq<Choice>, a: Action, s: Speeds)
    requires SpeedsInRange(speedTable, zoomTable, s) && InStep(speedTable, zoomTable, s)
    requires a.PtSpeedSet? ==> exists j | 0 <= j < |speedTable| :: speedTable[j].id == a.speed
    requires a.ZoomSpeedSet? ==> exists j | 0 <= j < |zoomTable| :: zoomTable[j].id == a.speed
    ensures InStep(speedTable, zoomTable, SpeedsAfter(speedTable, zoomTable, a, s))
  {
    match a
    case PtSpeedSet(id) => PtSpeedSetMeaning(speedTable, zoomTable, id, s);
    case ZoomSpeedSet(id) => ZoomSpeedSetMeaning(speedTable, zoomTable, id, s);
    case _ =>
  }

  // ---------------------------------------------------------------------------
  // The instance

  class Instance {
    /** `SPEED`, the pan/tilt speed choices. */
    const speedTable: seq<Choice>
    /** `CHOICE_ZOOMSPEED`, the zoom speed choices. */
    const zoomTable: seq<Choice>

    var config: Config
    /** `this.tcp`: `None` while undefined. */
    var tcp: Option<Transport>
    /** `this.deviceAddress`, the one-byte buffer put in front of every payload. */
    var deviceAddress: Option<byte>
    /** `this.request_state`: the handle of the latest poll interval. */
    var requestState: Option<nat>
    /** The poll intervals still running. */
    var liveTimers: set<nat>
    /** The handle the next `setInterval` returns. */
    var nextTimer: nat

    var ptSpeed: string
    var ptSpeedIndex: nat
    var zoomSpeed: string
    var zoomSpeedIndex: nat

    /** The frames handed to `tcp.send`, oldest first. */
    var sent: seq<seq<byte>>
    /** The incoming data passed to the debug log, oldest first. */
    var logged: seq<seq<byte>>

    ghost predicate Valid()
      reads this`ptSpeed, this`ptSpeedIndex, this`zoomSpeed, this`zoomSpeedIndex
      reads this`tcp, this`deviceAddress, this`liveTimers, this`nextTimer
    {
      SpeedsInRange(speedTable, zoomTable, Speeds(ptSpeed, ptSpeedIndex, zoomSpeed, zoomSpeedIndex)) &&
      (tcp.Some? ==> deviceAddress.Some?) &&
      (forall h | h in liveTimers :: h < nextTimer)
    }

    function CurrentSpeeds(): Speeds
      reads this`ptSpeed, this`ptSpeedIndex, this`zoomSpeed, this`zoomSpeedIndex
    {
      Speeds(ptSpeed, ptSpeedIndex, zoomSpeed, zoomSpeedIndex)
    }

    /** What `sendVISCACommand` hands the transport for these payloads:
        nothing while `this.tcp` is undefined. */
    function Outgoing(ps: seq<Payload>): (fs: seq<seq<byte>>)
      reads this`tcp, this`deviceAddress
      requires tcp.Some? ==> deviceAddress.Some?
      ensures tcp.None? ==> fs == []
    {
      if tcp.None? then [] else FramesSent(deviceAddress.value, ps)
    }

    /** A new instance: empty configuration, no connection, no poll timer,
        pan/tilt speed 0C at index 12 and zoom speed 07 at index 7. */
    constructor(speedTable: seq<Choice>, zoomTable: seq<Choice>)
      requires |speedTable| >= PtSpeedTableMin && |zoomTable| >= ZoomSpeedTableMin
      ensures Valid()
      ensures this.speedTable == speedTable && this.zoomTable == zoomTable
      ensures config == EmptyConfig && tcp == None && deviceAddress == None
      ensures requestState == None && liveTimers == {} && nextTimer == 0
      ensures CurrentSpeeds() == Speeds("0C", 12, "07", 7)
      ensures sent == [] && logged == []
    {
      this.speedTable := speedTable;
      this.zoomTable := zoomTable;
      config := EmptyConfig;
      tcp := None;
      deviceAddress := None;
      requestState := None;
      liveTimers := {};
      nextTimer := 0;
      ptSpeed := "0C";
      ptSpeedIndex := 12;
      zoomSpeed := "07";
      zoomSpeedIndex := 7;
      sent := [];
      logged := [];
    }

    /** `init(config)`: store the configuration and open the connection. */
    method Init(c: Config)
      requires Valid() && AddressFits(c)
      modifies this`config, this`tcp, this`deviceAddress
      ensures Valid()
      ensures config == c && tcp == OpenedFor(c)
      ensures deviceAddress == if c.host.Some? then Some(AddressByte(c.deviceAddress)) else old(deviceAddress)
    {
      config := c;
      InitTcp();
    }

    /** `init_tcp()`: drop any old connection, then, when a host is
        configured, open one to it and compute the address byte. */
    method InitTcp()
      requires Valid() && AddressFits(config)
      modifies this`tcp, this`deviceAddress
      ensures Valid()
      ensures tcp == OpenedFor(config)
      ensures deviceAddress == if config.host.Some? then Some(AddressByte(config.deviceAddress)) else old(deviceAddress)
    {
      if tcp.Some? {
        tcp := None;
      }
      if config.host.None? {
        return;
      }
      tcp := Some(Transport(config.host.value, config.port, false));
      deviceAddress := Some(AddressByte(config.deviceAddress));
    }

    /** `configUpdated(config)`: store the configuration, stop the latest
        poll interval, drop the connection and, when a host is configured,
        open a new one. */
    method ConfigUpdated(c: Config)
      requires Valid() && AddressFits(c)
      modifies this`config, this`tcp, this`deviceAddress, this`liveTimers
      ensures Valid()
      ensures config == c && tcp == OpenedFor(c)
      ensures deviceAddress == if c.host.Some? then Some(AddressByte(c.deviceAddress)) else old(deviceAddress)
      ensures liveTimers == old(liveTimers) - Handles(requestState)
    {
      config := c;
      liveTimers := liveTimers - Handles(requestState);
      if tcp.Some? {
        tcp := None;
      }
      if config.host.Some? {
        InitTcp();
      }
    }

    /** `destroy()`: stop the latest poll interval and destroy the
        connection, which stays assigned. */
    method Destroy()
      requires Valid()
      modifies this`liveTimers, this`tcp
      ensures Valid()
      ensures liveTimers == old(liveTimers) - Handles(requestState)
      ensures tcp == match old(tcp) case Some(t) => Some(t.(destroyed := true)) case None => None
    {
      liveTimers := liveTimers - Handles(requestState);
      if tcp.Some? {
        tcp := Some(tcp.value.(destroyed := true));
      }
    }

    /** The connection's `connect` event: when `config.feedback` is truthy, start a
        new one-second poll interval and remember its handle. */
    method OnConnect()
      requires Valid()
      modifies this`requestState, this`liveTimers, this`nextTimer
      ensures Valid()
      ensures Truthy(config.feedback) ==>
        old(nextTimer) !in old(liveTimers) &&
        requestState == Some(old(nextTimer)) && liveTimers == old(liveTimers) + {old(nextTimer)} &&
        nextTimer == old(nextTimer) + 1
      ensures !Truthy(config.feedback) ==>
        requestState == old(requestState) && liveTimers == old(liveTimers) && nextTimer == old(nextTimer)
    {
      if Truthy(config.feedback) {
        requestState := Some(nextTimer);
        liveTimers := liveTimers + {nextTimer};
        nextTimer := nextTimer + 1;
      }
    }

    /** The connection's `destroy` event: stop the latest poll interval. */
    method OnTransportDestroy()
      modifies this`liveTimers
      ensures liveTimers == old(liveTimers) - Handles(requestState)
    {
      liveTimers := liveTimers - Handles(requestState);
    }

    /** The connection's `data` event: anything but the acknowledgement goes
        to the debug log. */
    method OnData(data: seq<byte>)
      modifies this`logged
      ensures logged == old(logged) + if IsAck(data) then [] else [data]
    {
      if !IsAck(data) {
        logged := logged + [data];
      }
    }

    /** One tick of a running poll interval. */
    method PollTick(handle: nat)
      requires Valid() && handle in liveTimers
      modifies this`sent
      ensures sent == old(sent) + Outgoing([StateRequestPayload])
    {
      RequestState();
    }

    /** `requestState()`: send the state inquiry. */
    method RequestState()
      requires Valid()
      modifies this`sent
      ensures sent == old(sent) + Outgoing([StateRequestPayload])
    {
      SendViscaCommand(StateRequestPayload);
    }

    /** `sendVISCACommand(cmd)`: without a connection, nothing; otherwise the
        address byte and the packet size go in front of the payload and the
        frame is sent. A payload too long for the size field makes
        `prependPacketSize` throw, and nothing is sent. */
    method SendViscaCommand(p: Payload)
      requires Valid()
      modifies this`sent
      ensures Valid()
      ensures sent == old(sent) + Outgoing([p])
    {
      if tcp.None? {
        return;
      }
      assert [p][1..] == [];
      match Frame(deviceAddress.value, p)
      case Success(f) => sent := sent + [f];
      case Failure(_) =>
    }

    /** `sendVISCACommand(cmd)` where `cmd` may have been left undefined: an
        undefined `cmd` is returned from without a connection and throws with
        one; either way nothing is sent. */
    method SendSelected(cmd: Option<Payload>)
      requires Valid()
      modifies this`sent
      ensures Valid()
      ensures sent == old(sent) + Outgoing(OptionalPayload(cmd))
    {
      match cmd
      case Some(p) => SendViscaCommand(p);
      case None =>
    }

    /** `action(action)`: the switch. The speed actions change the speed
        fields as `SpeedsAfter` says; every other action sends the payloads
        `Payloads` gives for the switch, with the pan/tilt bytes taken from the
        current pan/tilt speed. */
    method RunAction(a: Action)
      requires Valid()
      modifies this`ptSpeed, this`ptSpeedIndex, this`zoomSpeed, this`zoomSpeedIndex, this`sent
      ensures Valid()
      ensures CurrentSpeeds() == SpeedsAfter(speedTable, zoomTable, a, old(CurrentSpeeds()))
      ensures sent == old(sent) + Outgoing(Payloads(ActionSwitch, a, PanSpeedByte(old(ptSpeed)), TiltSpeedByte(old(ptSpeed)), old(zoomSpeed)))
    {
      if IsSpeedAction(a) {
        ChangeSpeed(a);
        assert Outgoing([]) == [];
      } else {
        SendForAction(ActionSwitch, a, PanSpeedByte(ptSpeed), TiltSpeedByte(ptSpeed));
      }
    }

    /** The speed cases of the switch. */
    method ChangeSpeed(a: Action)
      requires Valid() && IsSpeedAction(a)
      modifies this`ptSpeed, this`ptSpeedIndex, this`zoomSpeed, this`zoomSpeedIndex
      ensures Valid()
      ensures CurrentSpeeds() == SpeedsAfter(speedTable, zoomTable, a, old(CurrentSpeeds()))
    {
      match a {
        case PtSpeedSet(id) =>
          ptSpeed := id;
          var idx := FindChoice(speedTable, id);
          if idx > -1 {
            ptSpeedIndex := idx;
          }
        case PtSpeedUp =>
          ptSpeedIndex := PtStepUp(ptSpeedIndex);
          ptSpeed := speedTable[ptSpeedIndex].id;
        case PtSpeedDown =>
          ptSpeedIndex := PtStepDown(ptSpeedIndex);
          ptSpeed := speedTable[ptSpeedIndex].id;
        case PtSlow(_) =>
        case ZoomSpeedSet(id) =>
          zoomSpeed := id;
          var idx := FindChoice(zoomTable, id);
          if idx > -1 {
            zoomSpeedIndex := idx;
          }
        case ZoomSpeedUp =>
          zoomSpeedIndex := ZoomStepUp(zoomSpeedIndex);
          zoomSpeed := zoomTable[zoomSpeedIndex].id;
        case ZoomSpeedDown =>
          zoomSpeedIndex := ZoomStepDown(zoomSpeedIndex);
          zoomSpeed := zoomTable[zoomSpeedIndex].id;
      }
    }

    /** The sending cases of the switch, or a sending callback: `disp` says
        how an option picks a table entry, and `pan` and `tilt` are the
        pan/tilt speed bytes in effect. */
    method SendForAction(disp: Dispatcher, a: Action, pan: byte, tilt: byte)
      requires Valid() && !IsSpeedAction(a)
      modifies this`sent
      ensures Valid()
      ensures sent == old(sent) + Outgoing(Payloads(disp, a, pan, tilt, zoomSpeed))
    {
      if IsFixed(a) {
        SendViscaCommand(FixedPayload(a));
      } else if IsTimedZoom(a) {
        SendTimedZoom(a);
      } else if IsSelection(a) {
        SendSelected(SelectedPayload(disp, a));
      } else if a.IrisSet? {
        var cmd := SetNibbles(IrisSetTemplate, a.level);
        SendViscaCommand(cmd);
      } else if a.ShutterSet? {
        var cmd := SetNibbles(ShutterSetTemplate, a.level);
        SendViscaCommand(cmd);
      } else {
        SendViscaCommand(ComputedPayload(a, pan, tilt, zoomSpeed));
      }
    }

    /** Timed zooms send their later commands at once: their delays are not
        modelled. */
    method SendTimedZoom(a: Action)
      requires Valid() && IsTimedZoom(a)
      modifies this`sent
      ensures Valid()
      ensures sent == old(sent) + Outgoing(TimedZoomPayloads(a))
    {
      match a {
        case ZoomInOut(_, _) =>
          SendViscaCommand(TimedZoomInPayload);
          SendThenStop(TimedZoomOutPayload);
          OutgoingAppend([TimedZoomInPayload], [TimedZoomOutPayload, ZoomStopPayload]);
          assert ZoomInOutPayloads == [TimedZoomInPayload] + [TimedZoomOutPayload, ZoomStopPayload];
        case ZoomInFor(_) =>
          SendThenStop(TimedZoomInPayload);
        case ZoomOutFor(_) =>
          SendThenStop(TimedZoomOutPayload);
      }
    }

    /** One zoom command followed by the zoom stop. */
    method SendThenStop(p: Payload)
      requires Valid()
      modifies this`sent
      ensures Valid()
      ensures sent == old(sent) + Outgoing([p, ZoomStopPayload])
    {
      SendViscaCommand(p);
      SendViscaCommand(ZoomStopPayload);
      OutgoingAppend([p], [ZoomStopPayload]);
    }

    lemma OutgoingAppend(ps: seq<Payload>, qs: seq<Payload>)
      requires tcp.Some? ==> deviceAddress.Some?
      ensures Outgoing(ps + qs) == Outgoing(ps) + Outgoing(qs)
    {
      if tcp.Some? {
        FramesSentAppend(deviceAddress.value, ps, qs);
      }
    }

    lemma OutgoingAppend3(ps: seq<Payload>, qs: seq<Payload>, rs: seq<Payload>)
      requires tcp.Some? ==> deviceAddress.Some?
      ensures Outgoing(ps + qs + rs) == Outgoing(ps) + Outgoing(qs) + Outgoing(rs)
    {
      OutgoingAppend(ps, qs);
      OutgoingAppend(ps + qs, rs);
    }
  }

  /** With feedback left at its default '0', a second `connect` event (a
      reconnect) starts a second poll interval, and `configUpdated` then
      stops only the latest: the first keeps polling. */
  method RepeatedConnectLeavesPollRunning(speedTable: seq<Choice>, zoomTable: seq<Choice>) returns (live: set<nat>)
    requires |speedTable| >= PtSpeedTableMin && |zoomTable| >= ZoomSpeedTableMin
    ensures live == {0}
  {
    var camera := new Instance(speedTable, zoomTable);
    camera.Init(Config(Some("camera"), "5002", 1, FeedbackDefault));
    camera.OnConnect();
    camera.OnConnect();
    camera.ConfigUpdated(Config(None, "5002", 1, FeedbackDefault));
    live := camera.liveTimers;
  }

  /** A connect event starts the poll under the default configuration, whose
      feedback is the string '0', and not once the checkbox is cleared. */
  method DefaultFeedbackPolls(speedTable: seq<Choice>, zoomTable: seq<Choice>)
    returns (onDefault: set<nat>, onCleared: set<nat>)
    requires |speedTable| >= PtSpeedTableMin && |zoomTable| >= ZoomSpeedTableMin
    ensures onDefault == {0} && onCleared == {}
  {
    var camera := new Instance(speedTable, zoomTable);
    camera.Init(Config(Some("camera"), "5002", 1, FeedbackDefault));
    FalsySettings(FeedbackDefault);
    camera.OnConnect();
    onDefault := camera.liveTimers;
    var cleared := new Instance(speedTable, zoomTable);
    cleared.Init(Config(Some("camera"), "5002", 1, Flag(false)));
    cleared.OnConnect();
    onCleared := cleared.liveTimers;
  }

  /** A new instance configured for camera 1, asked to pan left, sends one
      frame: 00 0B 81 01 06 01 0C 0C 01 03 FF. Asked before it is configured,
      it sends nothing. */
  method PanLeftScenario(speedTable: seq<Choice>, zoomTable: seq<Choice>) returns (before: seq<seq<byte>>, after: seq<seq<byte>>)
    requires |speedTable| >= PtSpeedTableMin && |zoomTable| >= ZoomSpeedTableMin
    ensures before == []
    ensures after == [[0x00, 0x0B, 0x81, 0x01, 0x06, 0x01, 0x0C, 0x0C, 0x01, 0x03, 0xFF]]
  {
    var camera := new Instance(speedTable, zoomTable);
    camera.RunAction(Move(Left));
    before := camera.sent;
    camera.Init(Config(Some("camera"), "5002", 1, Flag(false)));
    DefaultSpeedBytes();
    camera.RunAction(Move(Left));
    PanLeftFrame(ActionSwitch, 0x0C, 0x0C, camera.zoomSpeed);
    after := camera.sent;
  }
}
