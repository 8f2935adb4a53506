/** DVIP framing: every VISCA payload travels behind a one-byte device
    address and a 16-bit big-endian length that counts the whole frame,
    the two length bytes included. */
module Dvip {
  import opened Wrappers
  import opened Bytes

  /** The camera's acknowledgement, `ok_pkt`. */
  const OkPacket: seq<byte> := [0x00, 0x08, 0x81, 0x09, 0x7E, 0x7E, 0x70, 0xFF]

  /** `writeUInt16LE` refuses a value above this. */
  const MaxUInt16: nat := 0xFFFF

  /** `writeUInt16LE` throws a RangeError for a packet size that does not fit. */
  datatype FrameError = PacketTooLarge(size: nat)

  /** The address byte: `deviceAddress + 128` written with `writeUInt8`,
      which accepts 0..255. */
  function AddressByte(deviceAddress: int): byte
    requires 0 <= deviceAddress + 128 < 256
  {
    (deviceAddress + 128) as byte
  }

  /** `buf.writeUInt16LE(n, 0)` on a two-byte buffer. */
  function WriteUInt16LE(n: nat): (b: seq<byte>)
    requires n <= MaxUInt16
    ensures |b| == 2
  {
    [Low8(n), (n / 256) as byte]
  }

  /** `buf.swap16()` on a two-byte buffer. */
  function Swap16(b: seq<byte>): (r: seq<byte>)
    requires |b| == 2
    ensures |r| == 2
  {
    [b[1], b[0]]
  }

  /** The value a big-endian 16-bit field holds. */
  function ReadUInt16BE(hi: byte, lo: byte): nat {
    256 * hi as nat + lo as nat
  }

  /** `prependPacketSize(cmd)`: the size `Buffer.byteLength(cmd) + 2`,
      written little-endian and swapped, in front of `cmd`. */
  function PrependPacketSize(cmd: seq<byte>): Result<seq<byte>, FrameError> {
    var size := |cmd| + 2;
    if size > MaxUInt16 then Failure(PacketTooLarge(size))
    else Success(Swap16(WriteUInt16LE(size)) + cmd)
  }

  /** The frame `sendVISCACommand` hands to the transport: the address byte
      is put in front of the payload, then the packet size. */
  function Frame(address: byte, payload: seq<byte>): Result<seq<byte>, FrameError> {
    PrependPacketSize([address] + payload)
  }

  /** Reads a frame back: its length field must equal the frame's length and
      it must hold at least the address byte. */
  function ParseFrame(f: seq<byte>): Option<(byte, seq<byte>)> {
    if |f| >= 3 && ReadUInt16BE(f[0], f[1]) == |f| then Some((f[2], f[3..])) else None
  }

  /** Incoming data counts as the acknowledgement only when it is `ok_pkt`
      byte for byte (`data.equals(ok_pkt)`). */
  predicate IsAck(data: seq<byte>) {
    data == OkPacket
  }

  /** Writing little-endian and swapping the two bytes gives the big-endian
      encoding of the size, which reads back as the size. */
  lemma BigEndianSize(n: nat)
    requires n <= MaxUInt16
    ensures Swap16(WriteUInt16LE(n)) == [(n / 256) as byte, (n % 256) as byte]
    ensures ReadUInt16BE(Swap16(WriteUInt16LE(n))[0], Swap16(WriteUInt16LE(n))[1]) == n
  {
  }

  /** The frame is `[L >> 8, L & 0xFF, address] ++ payload` with
      L = |payload| + 3; it fails exactly when L does not fit in 16 bits. */
  lemma FrameLayout(address: byte, payload: seq<byte>)
    ensures Frame(address, payload).Failure? <==> |payload| + 3 > MaxUInt16
    ensures Frame(address, payload).Success? ==>
      var size := |payload| + 3;
      Frame(address, payload).value == [(size / 256) as byte, (size % 256) as byte, address] + payload
  {
    if |payload| + 3 <= MaxUInt16 {
      BigEndianSize(|payload| + 3);
    }
  }

  /** A frame reads back as the address and payload it was built from. */
  lemma ParseFrameOfFrame(address: byte, payload: seq<byte>)
    requires Frame(address, payload).Success?
    ensures ParseFrame(Frame(address, payload).value) == Some((address, payload))
  {
    FrameLayout(address, payload);
    var f := Frame(address, payload).value;
    assert f[3..] == payload;
  }

  /** Conversely, whatever parses as a frame is the frame of what it parses to:
      the frames are exactly the byte strings `ParseFrame` accepts. */
  lemma FrameOfParseFrame(f: seq<byte>)
    requires ParseFrame(f).Some?
    ensures Frame(ParseFrame(f).value.0, ParseFrame(f).value.1) == Success(f)
  {
    var (address, payload) := ParseFrame(f).value;
    assert |payload| + 3 == |f| <= MaxUInt16;
    FrameLayout(address, payload);
    assert f == [f[0], f[1], f[2]] + f[3..];
  }

  /** For the configurable addresses 1..7 the address byte is 0x81..0x87:
      the top bit set and the address in the low bits. */
  lemma AddressByteOfDeviceAddress(deviceAddress: int)
    requires 1 <= deviceAddress <= 7
    ensures 0x81 <= AddressByte(deviceAddress) <= 0x87
    ensures AddressByte(deviceAddress) as int / 128 == 1
    ensures AddressByte(deviceAddress) as int % 128 == deviceAddress
  {
  }

  /** Changing any one byte of `ok_pkt` makes it a non-acknowledgement. */
  lemma AckRejectsEveryMutation(i: nat, b: byte)
    requires i < |OkPacket| && b != OkPacket[i]
    ensures !IsAck(OkPacket[i := b])
  {
    assert OkPacket[i := b][i] != OkPacket[i];
  }
}
