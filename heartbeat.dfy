/** Conversions of small integers to bit-vectors that keep the value. */
module Bits {
  lemma ByteValue(x: int)
    requires 0 <= x < 256
    ensures (x as bv8) as int == x
  {
  }

  lemma NibbleValue(x: int)
    requires 0 <= x < 16
    ensures (x as bv4) as int == x
  {
  }
}

/**
 * The 32-bit covert log header of tests/heartbeat_generator.py and its
 * embedding in an ICMP payload of random noise. Building and sending the
 * packet itself is outside the model; the random draws (the block offset,
 * the reserved nibble and the noise bytes) are inputs.
 *
 * Header layout, most significant bits first:
 *   offset pointer 28-31 | activity 24-27 | service 20-23 | reserved 16-19 |
 *   attacker id 8-15 | target id 0-7
 */
module Heartbeat {
  import opened Common
  import opened Bits

  type byte = bv8

  /** Activity type codes. */
  const ActivityTypes: map<string, nat> := map["SCAN" := 1, "CONN_ATTEMPT" := 2, "INTERACTION" := 3]

  /** Service type codes. */
  const ServiceTypes: map<string, nat> := map["SSH" := 1, "HTTP" := 2, "SMB" := 3]

  /** The payload size the script is configured with. */
  const IcmpPayloadSize: int := 48

  /** `ACTIVITY_TYPES.get(activity, 0)`: a 4-bit code, 0 exactly for an unknown name. */
  function ActivityCode(activity: string): (c: nat)
    ensures c < 16
    ensures c == 0 <==> activity !in ActivityTypes
  {
    if activity in ActivityTypes then ActivityTypes[activity] else 0
  }

  /** `SERVICE_TYPES.get(service, 0)`: a 4-bit code, 0 exactly for an unknown name. */
  function ServiceCode(service: string): (c: nat)
    ensures c < 16
    ensures c == 0 <==> service !in ServiceTypes
  {
    if service in ServiceTypes then ServiceTypes[service] else 0
  }

  /** The six fields of a header, each as wide as its bit range. */
  datatype Header = Header(offset: bv4, activity: bv4, service: bv4, reserved: bv4, attacker: bv8, target: bv8)

  /** Reads the fields back out of a header word by shifting and masking. */
  function Unpack(w: bv32): Header
  {
    Header(
      ((w >> 28) & 0xF) as bv4,
      ((w >> 24) & 0xF) as bv4,
      ((w >> 20) & 0xF) as bv4,
      ((w >> 16) & 0xF) as bv4,
      ((w >> 8) & 0xFF) as bv8,
      (w & 0xFF) as bv8)
  }

  /** `log_int`: the fields shifted into their bit ranges and OR-ed together; unpacking gives them back. */
  function Pack(h: Header): (w: bv32)
    ensures Unpack(w) == h
  {
    (h.offset as bv32 << 28) | (h.activity as bv32 << 24) | (h.service as bv32 << 20)
      | (h.reserved as bv32 << 16) | (h.attacker as bv32 << 8) | (h.target as bv32)
  }

  /** Every 32-bit word is the packing of the header it unpacks to. */
  lemma PackUnpack(w: bv32)
    ensures Pack(Unpack(w)) == w
  {
  }

  /** `log_int.to_bytes(4, 'big')`: bits 24-31 first, bits 0-7 last. */
  function ToBytesBig(w: bv32): (bytes: seq<byte>)
    ensures |bytes| == 4
    ensures bytes[0] as bv32 == w >> 24 && bytes[3] as bv32 == w & 0xFF
  {
    [((w >> 24) & 0xFF) as byte, ((w >> 16) & 0xFF) as byte, ((w >> 8) & 0xFF) as byte, (w & 0xFF) as byte]
  }

  /** `int.from_bytes(bytes, 'big')` for four bytes. */
  function FromBytesBig(bytes: seq<byte>): bv32
    requires |bytes| == 4
  {
    (bytes[0] as bv32 << 24) | (bytes[1] as bv32 << 16) | (bytes[2] as bv32 << 8) | (bytes[3] as bv32)
  }

  /** Decoding the big-endian bytes of a word gives the word back. */
  lemma EncodeThenDecode(w: bv32)
    ensures FromBytesBig(ToBytesBig(w)) == w
  {
  }

  /** Encoding the word four bytes decode to gives those bytes back. */
  lemma DecodeThenEncode(bytes: seq<byte>)
    requires |bytes| == 4
    ensures ToBytesBig(FromBytesBig(bytes)) == bytes
  {
  }

  /** `max_offset`, capped at what the 4-bit pointer holds: the largest block offset drawn. */
  function MaxOffset(payloadSize: int): int
  {
    var maxOffset := payloadSize / 4 - 1;
    if maxOffset < 15 then maxOffset else 15
  }

  /** A drawn offset fits the pointer field and leaves room for the 4 header bytes. */
  lemma OffsetFits(payloadSize: int, offsetBlocks: nat)
    requires payloadSize >= 4 && offsetBlocks <= MaxOffset(payloadSize)
    ensures offsetBlocks < 16
    ensures offsetBlocks * 4 + 4 <= payloadSize
  {
    assert (payloadSize / 4) * 4 <= payloadSize;
  }

  /**
   * The configured size passes the size check, and its largest offset is
   * block 11, whose header fills the last four bytes of the payload.
   */
  lemma ConfiguredSize()
    ensures IcmpPayloadSize >= 4
    ensures MaxOffset(IcmpPayloadSize) == 11
    ensures MaxOffset(IcmpPayloadSize) * 4 + 4 == IcmpPayloadSize
  {
  }

  /** A 4-bit field holding `n`. */
  function Nibble(n: nat): (b: bv4)
    requires n < 16
    ensures b as int == n
  {
    NibbleValue(n);
    n as bv4
  }

  /** `n & 0xFF`: the low 8 bits of `n`, also for a negative `n`. */
  function LowOctet(n: int): (b: bv8)
    ensures b as int == n % 256
  {
    var m := n % 256;
    ByteValue(m);
    m as bv8
  }

  /** The header fields `generate_covert_packet` computes from its arguments and draws. */
  function MakeHeader(activity: string, service: string, attackerId: int, targetId: int, offsetBlocks: nat, reserved: nat): Header
    requires offsetBlocks < 16 && reserved < 16
  {
    Header(
      Nibble(offsetBlocks),
      Nibble(ActivityCode(activity)),
      Nibble(ServiceCode(service)),
      Nibble(reserved),
      LowOctet(attackerId),
      LowOctet(targetId))
  }

  /**
   * `covert_header`: the four bytes of the packed header. Decoding them
   * recovers the offset, both codes, the reserved nibble and the two ids
   * reduced to their low 8 bits (`id & 0xFF`).
   */
  function CovertHeader(activity: string, service: string, attackerId: int, targetId: int, offsetBlocks: nat, reserved: nat)
    : (bytes: seq<byte>)
    requires offsetBlocks < 16 && reserved < 16
    ensures |bytes| == 4
    ensures var h := Unpack(FromBytesBig(bytes));
      && h.offset as int == offsetBlocks
      && h.activity as int == ActivityCode(activity)
      && h.service as int == ServiceCode(service)
      && h.reserved as int == reserved
      && h.attacker as int == attackerId % 256
      && h.target as int == targetId % 256
  {
    var h := MakeHeader(activity, service, attackerId, targetId, offsetBlocks, reserved);
    EncodeThenDecode(Pack(h));
    assert Unpack(FromBytesBig(ToBytesBig(Pack(h)))) == h;
    ToBytesBig(Pack(h))
  }

  /** `payload[start:start + 4] = header` on a bytearray: only those four bytes change. */
  method Embed(payload: array<byte>, start: nat, header: seq<byte>)
    requires |header| == 4 && start + 4 <= payload.Length
    modifies payload
    ensures payload[..] == old(payload[..])[..start] + header + old(payload[..])[start + 4..]
  {
    forall k | 0 <= k < 4 {
      payload[start + k] := header[k];
    }
  }

  datatype PayloadError = PayloadTooSmall

  /**
   * Steps A to C of `generate_covert_packet`: reject a payload size below 4,
   * encode the header, fill the payload with the noise bytes and overwrite
   * the 4-byte block at the drawn offset with the header.
   */
  method GenerateCovertPayload(
    payloadSize: int, activity: string, service: string, attackerId: int, targetId: int,
    offsetBlocks: nat, reserved: nat, noise: seq<byte>)
    returns (r: Result<seq<byte>, PayloadError>)
    requires payloadSize >= 4 ==> offsetBlocks <= MaxOffset(payloadSize) && reserved < 16 && |noise| == payloadSize
    ensures r.Failure? <==> payloadSize < 4
    ensures r.Success? ==>
      var start := offsetBlocks * 4;
      && offsetBlocks < 16
      && |r.value| == payloadSize
      && start + 4 <= |r.value|
      && r.value[start..start + 4] == CovertHeader(activity, service, attackerId, targetId, offsetBlocks, reserved)
      && forall k :: 0 <= k < |r.value| && !(start <= k < start + 4) ==> r.value[k] == noise[k]
  {
    if payloadSize < 4 {
      return Failure(PayloadTooSmall);
    }
    OffsetFits(payloadSize, offsetBlocks);
    var covertHeader := CovertHeader(activity, service, attackerId, targetId, offsetBlocks, reserved);
    var randomPayload := new byte[payloadSize](k requires 0 <= k < payloadSize => noise[k]);
    assert randomPayload[..] == noise;
    var startByteOffset := offsetBlocks * 4;
    Embed(randomPayload, startByteOffset, covertHeader);
    assert randomPayload[..] == noise[..startByteOffset] + covertHeader + noise[startByteOffset + 4..];
    r := Success(randomPayload[..]);
  }
}
