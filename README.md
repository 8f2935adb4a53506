# Datavideo VISCA camera control, modelled in Dafny

This project models the camera command layer of the Companion module for
Datavideo PTZ cameras. The module drives the cameras with Sony VISCA
commands. Each command travels in Datavideo's DVIP TCP framing: a 16-bit
big-endian length that counts the whole frame, then a device-address byte,
then the VISCA payload. The model covers:

- the DVIP frame (`prependPacketSize` and `sendVISCACommand`) and the
  acknowledgement check on incoming data;
- the VISCA payload of every action: pan/tilt in nine directions with the
  tilt-speed cap, home, zoom with a speed byte that wraps modulo 256, timed
  zooms, focus, exposure, iris and shutter, presets, tally, OSD, custom hex
  text, and the state inquiry;
- the pan/tilt and zoom speed selections of the instance: the
  set-by-id search loop and the saturating up and down steps;
- the instance's life cycle: configuration, connection, the poll interval,
  and the frames sent on the connection;
- the two dispatchers that turn an action into payloads: the `action()`
  switch in `index.js` and the callbacks `getActions` builds in
  `actions.js`.

Files and modules (one module per file):

- `wrappers.dfy`: `Option`, `Result`, and the `byte` type with its low-8-bit mask.
- `js_values.dfy`: the JavaScript semantics the code relies on:
  `parseInt(s, 16)`, `toString(16)`, `\s`, loose and strict equality, and
  array property lookup.
- `dvip.dfy`: the frame, its reading back, and the acknowledgement.
- `visca.dfy`: one function or constant per command family.
- `custom_command.dfy`: the custom hex command and its option pattern.
- `speed.dfy`: the choice search (a `while` loop proved against
  `FirstIndexOf`) and the saturating steps.
- `commands.dfy`: the `Action` datatype and the payloads each dispatcher
  sends for it.
- `camera.dfy`: the module instance as a class. Its fields are the ones
  the source updates: configuration, connection, poll handle, the four
  speed fields, and a log of sent frames.
- `action_callbacks.dfy`: the callbacks of `getActions`, which act on the
  same instance.

Both core files update state in place, so the instance is a `class`. Its
methods say in `ensures` what their new state is, in terms of the
pure functions `SpeedsAfter`, `Payloads` and `FramesSent`. Those
functions are pure, and lemmas state their properties.

Points of the code worth knowing when reading the model:

- **Frame length.** The code writes `Buffer.byteLength(address + payload) + 2`:
  the length counts the two length bytes, the address and the payload, so
  it is the payload length plus 3, and `ok_pkt` (`00 08` followed by six
  bytes) follows the same rule. Pan left to camera 1 is therefore
  `00 0B 81 01 06 01 …` (`Camera.PanLeftFrame`).
- **Address byte.** The code computes `deviceAddress + 128`, not `0x80 | address`.
  The two agree for the addresses 1..7.
- **Status polling.** The feedback checkbox defaults to the string '0',
  which JavaScript counts as true. Under the default configuration a
  connect therefore starts the one-second state inquiry
  (`Camera.DefaultFeedbackPolls`).
- **Speed steps.** The steps do not clamp to the table's ends. Pan/tilt
  stops at index 23 whatever the table's length. Zoom stops at 7 going up.
  Going down it holds at 1, and it stays at 0 only when it is already there.
- **Custom commands.** The code does not reject a command that fails to
  start with `8X`. The pattern `^8[0-9a-fA-F]\s*([0-9a-fA-F]\s*)+$` belongs
  to the option field, and neither dispatcher checks it. A text such as
  `"8 1 09 04 3F 02 00 FF"` decodes byte by byte once its white space is
  removed, but fails the option pattern, because the `8` must be followed
  directly by a digit (`CustomCommand.SpaceAfterLeadingDigit`).

## Model

| member | source | states |
|---|---|---|
| Bytes.ToInt32 | index.js:1228 | the operand conversion of JavaScript's bitwise operators gives a signed 32-bit value congruent to the number modulo 2^32 |
| Bytes.AndOnes | index.js:1228 | ANDing with a mask of k one bits keeps exactly the low k binary digits, for every integer |
| Bytes.LowBitsOf8 | index.js:1228 | the low eight binary digits of any integer, negative ones included, are its remainder modulo 256 |
| Bytes.Low8IsJsMask | index.js:1228 | `x & 0xFF`, computed bit by bit after `ToInt32`, is the byte `Low8(x)` for every integer x |
| JsValues.TrimStart | index.js:1228 | `parseInt` skips leading white space: the result is a suffix of the input, what was dropped is all white space, and the result does not start with white space |
| JsValues.RemoveWhitespace | index.js:1561 | `replace(/\s+/g, '')` leaves no white space, never lengthens the text, leaves text without white space unchanged and turns text made only of white space into the empty string |
| JsValues.RemoveWhitespaceAppend | index.js:1561 | removing white space distributes over concatenation |
| JsValues.HexDigit | index.js:9 | `toString(16)` writes a hexadecimal digit whose value is the number written: a decimal digit below 10, and a lower-case letter `a`..`f` from 10 |
| JsValues.LeadingHexDigits | index.js:1228 | `parseInt` reads the longest run of hexadecimal digits: the result is a prefix of all digits, followed by a non-digit or the end |
| JsValues.ParseIntHex | index.js:1228-1229 | `parseInt(s, 16)` is NaN (`None`) exactly when no digit follows the white space, sign and `0x` prefix, and it is non-negative without a minus sign |
| JsValues.ToHexString | index.js:9 | `n.toString(16)` is all hexadecimal digits, one digit below 16 and two below 256 |
| JsValues.HexDigitsValueOfToHexString | index.js:9 | the digits `toString(16)` writes have the value written |
| JsValues.ParseIntHexOfDigits | index.js:1228 | a non-empty run of hexadecimal digits parses as its value |
| JsValues.ParseIntHexOfToHexString | index.js:9 | `parseInt(n.toString(16), 16) == n` for every n |
| JsValues.DecimalString | index.js:1181-1189 | `String(k)` is all decimal digits with no leading zero |
| JsValues.DecimalValueOfDecimalString | index.js:1181-1189 | the decimal name of k reads back as k |
| JsValues.TrimEnd | index.js:1410 | `Number(s)` ignores trailing white space: the result is a prefix that does not end in white space, and everything it drops is white space |
| JsValues.ArrayIndex | actions.js:351 | `commands[val]` picks an element only inside the array; which one is stated by `JsValues.ArrayIndexMeaning` |
| JsValues.ArrayIndexMeaning | actions.js:351 | `commands[val]` picks index k exactly when k is inside the array and the value is the number k or the string "k"; every other value gives `undefined` |
| JsValues.NonIndexNamesPickNothing | actions.js:351 | -1, "01", " 1" and "" pick no element of any array |
| JsValues.CanonicalDecimalIsDecimalString | actions.js:351 | a digit string without a leading zero is `String(k)` of its value k, so it is the only string naming index k |
| JsValues.ArrayIndexOfDecimalString | actions.js:351 | the number k and its string name "k" pick element k of an array longer than k |
| JsValues.LooseEqualsDecimalString | index.js:1410-1415 | `v == j` holds for the number k and for the string "k" exactly when j is k |
| Dvip.WriteUInt16LE | index.js:1209 | `writeUInt16LE` writes two bytes |
| Dvip.Swap16 | index.js:1210 | `swap16` keeps two bytes |
| Dvip.BigEndianSize | index.js:1203-1211 | writing little-endian and then swapping gives the big-endian size, which reads back as the size |
| Dvip.FrameLayout | index.js:1203-1222 | the frame is `[L >> 8, L & 0xFF, address] ++ payload` with L = payload length + 3, and framing fails exactly when L exceeds 0xFFFF |
| Dvip.ParseFrameOfFrame | index.js:1203-1222 | every frame reads back as the address and payload it was built from |
| Dvip.FrameOfParseFrame | index.js:1203-1222 | everything that reads back as a frame is the frame of what it reads as |
| Dvip.AddressByteOfDeviceAddress | index.js:48-49 | addresses 1..7 give the address bytes 0x81..0x87: top bit set, address in the low bits |
| Dvip.AckRejectsEveryMutation | index.js:59-64 | changing any byte of `ok_pkt` makes the data count as something to log |
| Visca.DirectionBytesMeaning | index.js:1232-1284 | the first direction byte is 01 left, 02 right, 03 no pan; the second is 01 up, 02 down, 03 no tilt; only stop has neither |
| Visca.DirectionBytesInjective | index.js:1232-1284 | no two of the nine directions share their bytes |
| Visca.TiltSpeedCapped | index.js:1228-1229 | the tilt byte is the pan byte capped at 0x14: never above 0x14 without a minus sign, equal to the pan byte up to 0x14, exactly 0x14 above; both bytes are 0 when the speed does not parse |
| Visca.DecodePanTiltOfPayload | index.js:1232-1284 | every pan/tilt payload `01 06 01 pan tilt dx dy FF` decodes to its speeds and direction |
| Visca.PayloadOfDecodePanTilt | index.js:1232-1284 | whatever decodes as a pan/tilt payload is the payload of what it decodes to |
| Visca.ZoomSpeedBytes | index.js:1366-1382 | zoom in sends (speed + 0x20) mod 256 and zoom out (speed + 0x30) mod 256; for speeds 0..7 the high nibble is 2 or 3 and the low nibble is the speed; the two payloads always differ |
| Visca.ZoomInWrapsModulo256 | index.js:1366-1373 | speed E5 zooms in with byte 05: the addition wraps |
| Visca.UnparsableZoomSpeedStops | index.js:1366-1382 | a zoom speed that does not parse makes zoom in and zoom out send the stop payload |
| Visca.TimedZoomIsSpeedSeven | index.js:1570-1612 | the timed zooms ignore the zoom speed and send what the variable zoom sends at speed 7 |
| Visca.ZoomForPayloads | index.js:1589-1612 | zoom in or out for a time sends the 27 or 37 zoom, then the stop payload |
| Visca.HighNibble | index.js:1455 | `(parseInt(val, 16) & 0xF0) >> 4` is below 16 |
| Visca.LowNibble | index.js:1456 | `parseInt(val, 16) & 0x0F` is below 16 |
| Visca.NibblePayloadCarriesValue | index.js:1453-1481 | the iris or shutter set payload keeps the template's first six bytes, and its last two bytes put together are `parseInt(val, 16) & 0xFF`; the last byte is at most 0F, so the template's FF is overwritten |
| Visca.NibblePayloadExample | index.js:1453-1459 | iris value 2A gives `01 04 4B 00 00 00 02 0A` |
| Visca.SetNibbles | index.js:1454-1456 | writing the two nibbles into a copy of the template, in place, gives `NibblePayload`, which carries the value |
| Visca.PresetIdReadsBack | index.js:1483-1493 | the id of every preset slot 0..63 is two hexadecimal digits that parse back as the slot number, so saving or recalling slot i sends byte i |
| Visca.PresetPayloadsDistinct | index.js:1483-1499 | save and recall of a slot differ, and neither equals a preset drive-speed payload |
| Visca.SelectionTablesWellFormed | index.js:1408-1558 | the focus-mode, exposure, tally and OSD payload tables each hold distinct commands ending in FF |
| Visca.OsdNavigationIsPanTilt | index.js:1531-1554 | the OSD back, up, down, left, right and release buttons are pan/tilt drive payloads |
| Visca.LooseSelect | index.js:1420-1438 | the `if (opt.val == k)` chains pick entry k exactly when the option loosely equals some k in the table, and nothing otherwise |
| Visca.StrictSelect | index.js:1516-1558 | `switch (opt.val)` picks entry k only when the option is the number k |
| Visca.PropertySelect | actions.js:343-354 | `commands[val]` gives an entry of the table or `undefined` |
| Visca.PropertySelectMeaning | actions.js:343-354 | `commands[val]` picks an entry exactly when the option is k or "k" for an index k of the table, and then entry k; any other option leaves `cmd` undefined |
| Visca.HexDecode | index.js:1560-1567 | `Buffer.from(h, 'hex')` decodes at most half the digits' worth of bytes, and exactly that many when all are digits |
| Visca.HexDecodeReadsPairs | index.js:1562 | byte i of the decoding is the value of digits 2i and 2i + 1 |
| Visca.HexDecodeStopsAtBadPair | index.js:1562 | decoding stops early only at a pair that is not two hexadecimal digits |
| Visca.HexDecodeOfHexEncode | index.js:1562 | decoding two lower-case digits per byte gives the bytes back |
| CustomCommand.CustomPayload | index.js:1560-1567 | the payload has one byte per two digits when the text, white space removed, is an even number of digits |
| CustomCommand.CustomPatternMeaning | index.js:1134 | text matching the option pattern is, white space removed, at least three digits starting with 8; when it decodes fully, the first byte is 0x80..0x8F |
| CustomCommand.CustomPatternDigits | index.js:1134 | text matching the option pattern keeps its leading 8 and at least two more characters once white space is removed, all of them hexadecimal digits |
| CustomCommand.SpaceAfterLeadingDigit | index.js:1134 | a space after the leading 8 is removed before decoding, yet the pattern rejects it |
| CustomCommand.SpacedCustomExample | index.js:1560-1567 | "8 1" sends 81: white space between the digits of a pair is ignored |
| CustomCommand.CompactCustomExample | index.js:1134 | "81 09 04 3F 02 00 FF" matches the pattern |
| CustomCommand.TruncatedCustomExample | index.js:1562 | "810G" sends only 81: decoding stops at the first pair that is not hexadecimal |
| Speed.FirstIndexOf | index.js:1295-1301 | the search result is -1 exactly when no entry has the id; otherwise the entry there has the id and no earlier entry does |
| Speed.FindChoice | index.js:1295-1301 | the `for` loop with `break` returns the first index holding the id, or -1 |
| Speed.StepsStayInRange | index.js:1309-1364 | one step moves at most one place in its own direction, keeps pan/tilt in [0, 23] and zoom in [0, 7], and zoom down never leaves [1, 7] once there |
| Speed.PtStepUpSaturates | index.js:1309-1317 | n pan/tilt speed-ups from an index in [0, 23] land on min(i + n, 23) |
| Speed.PtStepDownSaturates | index.js:1319-1327 | n pan/tilt speed-downs land on max(i - n, 0) |
| Speed.ZoomStepUpSaturates | index.js:1346-1354 | n zoom speed-ups from an index in [0, 7] land on min(i + n, 7) |
| Speed.ZoomStepDownSaturates | index.js:1356-1364 | n zoom speed-downs land on max(i - n, 1) from a positive index and stay at 0 from 0 |
| Commands.Payloads | index.js:1225-1617 | the speed actions send nothing, and no action sends more than three payloads |
| Commands.SelectedPayloadEndsInFF | index.js:1408-1558 | whatever entry an option picks ends in FF |
| Commands.PayloadsTerminated | index.js:1225-1617 | every payload either dispatcher sends ends in FF, except the iris and shutter set payloads, whose last byte is at most 0F, and custom payloads |
| Commands.DispatchersAgree | index.js:1225-1617 | apart from focus mode, exposure, tally and OSD, the switch and the callbacks send the same payloads for the same speed bytes |
| Commands.TableSelectsAgreeOnChoices | index.js:1420-1438 | for exposure and tally (the tally lookup at index.js lines 1501-1514 and the actions.js callbacks have the same shape), both dispatchers pick entry k for choice k, given as the number or as the string id |
| Commands.FocusModeAgreesOnChoices | index.js:1408-1418 | focus mode 0 and 1 send auto and manual focus through both dispatchers |
| Commands.OsdSwitchIgnoresDropdownIds | index.js:1516-1558 | the switch sends nothing for the OSD dropdown ids "0".."8" and sends entry k only for the number k |
| Commands.OsdCallbackSelectsEveryChoice | actions.js:526-542 | the OSD callback sends entry k for every choice k, given as the number or as the string id |
| Commands.FocusModeOutsideChoices | index.js:1408-1418 | for a focus-mode value other than 0 and 1, the switch sends nothing and the callback sends manual focus |
| Camera.OpenedFor | index.js:43-46 | a connection is opened exactly when a host is configured, to that host and port |
| Camera.FrameOrNothing | index.js:1213-1223 | a payload is sent as one frame, or as nothing exactly when framing throws |
| Camera.FramesSent | index.js:1213-1223 | a run of payloads never gives more frames than payloads |
| Camera.FramesSentAppend | index.js:1570-1612 | sending one run of payloads and then another sends their frames one after the other |
| Camera.FramesSentReadBack | index.js:1213-1223 | every payload that fits is sent as one frame, in order, and each frame reads back as the instance's address and that payload |
| Camera.FramedStateRequestIsAck | index.js:1196-1199 | the state inquiry framed for address 1 is `ok_pkt` byte for byte, so the camera's echo of it counts as the acknowledgement |
| Camera.PanLeftFrame | index.js:1232-1236 | pan left to camera 1 with speed bytes pan and tilt is the frame `00 0B 81 01 06 01 pan tilt 01 03 FF`, whichever dispatcher sends it |
| Camera.DefaultSpeedBytes | index.js:15 | the initial pan/tilt speed 0C gives pan and tilt bytes 0C |
| Camera.SpeedsAfter | index.js:1292-1364 | the speed actions keep both indexes inside their tables, and every other action, slow mode included, leaves the speed fields alone |
| Camera.PtSpeedSetMeaning | index.js:1292-1307 | setting the pan/tilt speed always stores the id; the index moves to the id's first entry when there is one and stays otherwise, leaving id and index out of step; zoom is untouched |
| Camera.ZoomSpeedSetMeaning | index.js:1329-1344 | the same for the zoom speed |
| Camera.StepsResynchronise | index.js:1309-1364 | a step puts the stepped id back in line with its index, moves the index by at most one, keeps it in range, and leaves the other speed alone |
| Camera.InStepPreserved | index.js:1292-1364 | once ids and indexes agree, every speed action except a set to an id missing from the table keeps them in agreement |
| Camera.Instance.Outgoing | index.js:1213-1216 | without a connection nothing is sent |
| Camera.Instance.constructor | index.js:12-18 | a new instance has an empty configuration, no connection, no poll timer, pan/tilt speed 0C at index 12 and zoom speed 07 at index 7 |
| Camera.Instance.Init | index.js:24-29 | `init` stores the configuration and opens the connection `OpenedFor` gives |
| Camera.Instance.InitTcp | index.js:37-49 | the old connection is dropped; a new one, with its address byte, is opened only when a host is configured |
| Camera.Instance.ConfigUpdated | index.js:98-113 | the configuration is stored, the latest poll interval is stopped, the connection is dropped, and a new one is opened only when a host is configured |
| Camera.Instance.Destroy | index.js:174-181 | the latest poll interval is stopped and the connection is destroyed but stays assigned |
| Camera.FalsySettings | index.js:71 | `if (this.config.feedback)` treats exactly undefined, `false`, 0 and the empty string as off, so the checkbox default '0' counts as on |
| Camera.Instance.OnConnect | index.js:66-76 | when `config.feedback` is truthy, a connect starts a new poll interval, whose handle becomes the latest; otherwise nothing changes |
| Camera.Instance.OnTransportDestroy | index.js:78-80 | the connection's destroy event stops the latest poll interval |
| Camera.Instance.OnData | index.js:59-64 | incoming data is logged exactly when it is not `ok_pkt` |
| Camera.Instance.PollTick | index.js:72-74 | each tick of a running poll interval sends the state inquiry |
| Camera.Instance.RequestState | index.js:1196-1199 | `requestState` sends `09 7E 7E 70 FF` |
| Camera.Instance.SendViscaCommand | index.js:1213-1223 | without a connection the log is unchanged; otherwise the framed payload is appended, or nothing when framing throws |
| Camera.Instance.SendSelected | index.js:1213-1223 | an undefined `cmd` sends nothing |
| Camera.Instance.RunAction | index.js:1225-1617 | the speed fields become `SpeedsAfter` of the old ones, and the frames of `Payloads` for the switch are appended, with the pan/tilt bytes read from the current speed |
| Camera.Instance.ChangeSpeed | index.js:1292-1364 | the speed cases of the switch, including the search loop, give `SpeedsAfter` and keep the indexes inside the tables |
| Camera.Instance.SendForAction | index.js:1286-1612 | the sending cases append the frames of `Payloads` for the given dispatcher and speed bytes |
| Camera.Instance.SendTimedZoom | index.js:1570-1612 | a timed zoom appends the frames of its zoom and stop payloads, in order |
| Camera.RepeatedConnectLeavesPollRunning | index.js:66-101 | after two connect events with feedback at its default '0', `configUpdated` stops only the second poll interval, and the first keeps polling |
| Camera.DefaultFeedbackPolls | index.js:66-76 | under the default feedback '0' (index.js lines 149-153) a connect starts the poll; with the checkbox cleared it does not |
| Camera.PanLeftScenario | index.js:1213-1236 | before configuration, pan left sends nothing; configured for camera 1, it sends `00 0B 81 01 06 01 0C 0C 01 03 FF` |
| ActionCallbacks.Hex2StrReadsBack | actions.js:17-19 | `hex2str` of a byte written in hexadecimal is that byte |
| ActionCallbacks.GetActions | actions.js:21-23 | the captured pan byte is `parseInt(ptSpeed, 16) & 0xFF`, and the tilt byte is capped at 0x14 as in the switch |
| ActionCallbacks.DefaultActions | actions.js:21-23 | actions built at the initial speed id 0C capture the bytes 0C 0C |
| ActionCallbacks.CallbackSpeeds | actions.js:116-204 | a set callback stores the chosen id; the up and down callbacks store what `nextChoiceId` and `prevChoiceId` give for the current id and keep the other id; every other callback keeps both ids |
| ActionCallbacks.CallbackSpeedsMatchSwitch | actions.js:116-204 | when the helpers step ids as the switch steps indexes, a callback leaves the same speed ids as the switch |
| ActionCallbacks.SetCallbackDesynchronises | actions.js:116-118 | setting an id held at another position leaves the callback's id and index out of step, while the switch keeps them in step |
| ActionCallbacks.Invoke | actions.js:21-543 | a callback assigns speed ids as `CallbackSpeeds` says, never moves an index, and appends the frames of `Payloads` for the callbacks with the captured speed bytes |
| ActionCallbacks.CapturedSpeedScenario | actions.js:21-32 | with actions built at speed 0C, setting speed 18 and then panning left sends `... 0C 0C ...` through the callbacks but `... 18 14 ...` through the switch |
| ActionCallbacks.PanLeftByCallback | actions.js:21-32 | with actions built at speed 0C, the speed callback for 18 stores id 18 and sends nothing, and the pan-left callback then sends `00 0B 81 01 06 01 0C 0C 01 03 FF` |
| ActionCallbacks.PanLeftBySwitch | index.js:1228-1236 | the switch's pan left to camera 1 appends one frame carrying the speed bytes of the current pan/tilt speed id |
| ActionCallbacks.SpeedBytesOf18 | index.js:1228-1229 | speed 18 gives pan byte 18 and, capped, tilt byte 14 |

## Left out

- Timing: the `setTimeout` delays of the timed zooms and the 1000 ms poll period are not modelled. A timed zoom appends all its frames at once, in order, so overlapping timed zooms and their interleavings are not captured.
- TCPHelper internals are a foreign library: the socket connection, reconnection, write success and error events. A connection is modelled as present or absent, plus the log of frames handed to `send`. Its `connect`, `data` and `destroy` events are separate methods that a caller invokes. Whether `destroy()` raises the `destroy` event at once is not modelled.
- `status`, `debug`, `updateStatus`, `updateVariables`, `setVariable`, and the definitions of actions, presets, variables and configuration fields are logging and user-interface data, so they are not modelled.
- presets.js is a static catalogue of buttons, and utils/server.js is a development socket server. They are not part of this model.
- constants.js is not part of this model. `SPEED`, `CHOICE_PTSPEED` and `CHOICE_ZOOMSPEED` are parameters, with the lengths the steps assume: at least 24 and at least 8 entries. `nextChoiceId` and `prevChoiceId` are function parameters whose results are not constrained.
- The instance class that `actions.js` is written for is not part of this model. Its callbacks act on the same instance as `index.js`, and its `sendVISCACommand` is taken to behave like the one in `index.js`.
- JsValues.ParseIntHex: uses unbounded integers, so it does not model the precision loss of numbers above 2^53.
- JsValues.StringToNumber: covers the empty string and decimal digits between white space. It takes every other string (hexadecimal, exponent, sign, `Infinity`) as NaN, so loose equality does not model those forms.
- Camera.Instance.Init, Camera.Instance.InitTcp, Camera.Instance.ConfigUpdated: require the address to fit in a byte when a host is configured (`AddressFits`). Otherwise `writeUInt8` throws inside `init_tcp` (index.js:49), after `this.tcp` has been assigned, and that path is not modelled.
- Camera.Instance.SendSelected: when `cmd` stays undefined, the source still calls `sendVISCACommand(undefined)`. With a connection, `Buffer.from(undefined, 'binary')` (index.js:1217) throws before `send`, and the `setVariable` calls that end `action()` (index.js:1614-1615) are skipped. The model sends nothing and does not model the exception or the skipped variable updates, which are user-interface side effects it leaves out.
- Camera.Truthy: a configuration value is undefined, a boolean, a number or a string. `NaN` and objects are not modelled as values of `config.feedback`.
- Camera.Instance.PollTick: the handle of a running interval is a parameter. Which interval fires when is left to the caller.

## Findings

| source | as written | input that shows it | evidently intended | confidence | as-written member | corrected member |
|---|---|---|---|---|---|---|
| index.js:1516-1558 | the OSD case compares `opt.val` in a `switch` with `===` against the numbers 0..8 | any choice of the OSD dropdown, whose ids are the strings "0".."8" (index.js:1181-1189): `cmd` stays undefined and no command is sent | every OSD choice sends its command, as the other option tables do with `==` and as the `actions.js` callback does with `commands[val]` | not executed | Commands.OsdSwitchIgnoresDropdownIds | Commands.OsdCallbackSelectsEveryChoice |
