/** Bytes, byte order and the Ethernet frame layout shared by the server and the client:
    src/common/protocol.h, the byte swaps of src/server/util_asm.s and the frame builder of
    src/client/network.c. */
module Wire {
  type byte = x: int | 0 <= x < 256
  type word = x: int | 0 <= x < 0x1_0000
  type dword = x: int | 0 <= x < 0x1_0000_0000

  type Mac = s: seq<byte> | |s| == 6 witness [0, 0, 0, 0, 0, 0]

  datatype Option<+T> = None | Some(value: T)

  const ETH_ALEN: nat := 6
  const NULL_MAC: Mac := Zeros(ETH_ALEN)
  const BROADCAST: Mac := [0xff, 0xff, 0xff, 0xff, 0xff, 0xff]

  const PACKET_SIGNATURE: dword := 0x7b6e05b0
  const ETH_FRAME_LEN := 1514
  const HEADER_LEN := 26
  const MAX_PAYLOAD_LENGTH := 1488
  const MIN_ETH_FRAME_SIZE := 60

  const V1_PING: word := 1
  const V1_PONG: word := 2
  const V1_STATUS_REQ: word := 3
  const V1_STATUS_RESP: word := 4
  const V1_SESSION_START: word := 5
  const V1_VGA_TEXT: word := 6
  const V1_INJECT_KEYSTROKE: word := 7

  /** Conversion to `uint16_t`: whole multiples of 65536 are lost. */
  function Word(x: nat): (w: word)
    ensures w % 2 == x % 2
  {
    if x < 0x1_0000 then x else Word(x - 0x1_0000)
  }

  // ----- byte order -----

  /** `xchg al, ah` */
  function Htons(x: word): word {
    (x % 256) * 256 + x / 256
  }

  /** The two halves trade places and each has its bytes exchanged. */
  function Htonl(x: dword): dword {
    Htons(x % 0x1_0000) * 0x1_0000 + Htons(x / 0x1_0000)
  }

  /** How both machines lay a 16-bit register out in memory. */
  function Le16(x: word): (s: seq<byte>)
    ensures |s| == 2
  {
    [x % 256, x / 256]
  }

  function Le32(x: dword): (s: seq<byte>)
    ensures |s| == 4
  {
    Le16(x % 0x1_0000) + Le16(x / 0x1_0000)
  }

  function Load16(f: seq<byte>, at: nat): word
    requires at + 2 <= |f|
  {
    (f[at] as int) + 256 * (f[at + 1] as int)
  }

  function Load32(f: seq<byte>, at: nat): dword
    requires at + 4 <= |f|
  {
    Load16(f, at) + 0x1_0000 * Load16(f, at + 2)
  }

  /** Network order: the most significant byte comes first. */
  function Be16(x: word): (s: seq<byte>)
    ensures |s| == 2
  {
    [x / 256, x % 256]
  }

  function Be32(x: dword): (s: seq<byte>)
    ensures |s| == 4
  {
    Be16(x / 0x1_0000) + Be16(x % 0x1_0000)
  }

  lemma HtonsInvolution(x: word)
    ensures Htons(Htons(x)) == x
    ensures Le16(Htons(x)) == Be16(x)
  {
    assert Htons(x) % 256 == x / 256;
    assert Htons(x) / 256 == x % 256;
  }

  /** The two orders, on numbers. */
  lemma ByteOrders()
    ensures Le16(0x1234) == [0x34, 0x12] && Be16(0x1234) == [0x12, 0x34] && Htons(0x1234) == 0x3412
    ensures Le32(0x7b6e_05b0) == [0xb0, 0x05, 0x6e, 0x7b] && Be32(0x7b6e_05b0) == [0x7b, 0x6e, 0x05, 0xb0]
  {
    assert 0x7b6e_05b0 / 0x1_0000 == 0x7b6e && 0x7b6e_05b0 % 0x1_0000 == 0x05b0;
    assert 0x7b6e / 256 == 0x7b && 0x7b6e % 256 == 0x6e && 0x05b0 / 256 == 0x05 && 0x05b0 % 256 == 0xb0;
  }

  lemma HtonlHalves(x: dword)
    ensures Htonl(x) % 0x1_0000 == Htons(x / 0x1_0000) && Htonl(x) / 0x1_0000 == Htons(x % 0x1_0000)
  {
  }

  lemma HtonlInvolution(x: dword)
    ensures Htonl(Htonl(x)) == x
    ensures Le32(Htonl(x)) == Be32(x)
  {
    HtonlHalves(x);
    HtonlHalves(Htonl(x));
    HtonsInvolution(x / 0x1_0000);
    HtonsInvolution(x % 0x1_0000);
  }

  /** What storing a swapped register leaves in memory. */
  function Stored16(x: word): (s: seq<byte>)
    ensures s == Be16(x)
  {
    HtonsInvolution(x);
    Le16(Htons(x))
  }

  function Stored32(x: dword): (s: seq<byte>)
    ensures s == Be32(x)
  {
    HtonlInvolution(x);
    Le32(Htonl(x))
  }

  /** The value of two bytes in network order. */
  function Net16(f: seq<byte>, at: nat): word
    requires at + 2 <= |f|
  {
    256 * (f[at] as int) + f[at + 1]
  }

  function Net32(f: seq<byte>, at: nat): dword
    requires at + 4 <= |f|
  {
    0x1_0000 * (Net16(f, at) as int) + Net16(f, at + 2)
  }

  /** `ntohs` and `ntohl` of a field in memory give its network value. */
  lemma SwappedLoads(f: seq<byte>, at: nat)
    requires at + 4 <= |f|
    ensures Htons(Load16(f, at)) == Net16(f, at)
    ensures Htonl(Load32(f, at)) == Net32(f, at)
  {
    var lo, hi, m := Load16(f, at), Load16(f, at + 2), Load32(f, at);
    assert lo % 256 == f[at] && lo / 256 == f[at + 1];
    assert hi % 256 == f[at + 2] && hi / 256 == f[at + 3];
    assert m % 0x1_0000 == lo && m / 0x1_0000 == hi;
  }

  /** A field written in network order anywhere in a frame is read back. */
  lemma Field16RoundTrip(f: seq<byte>, at: nat, x: word)
    requires at + 2 <= |f| && f[at..at + 2] == Be16(x)
    ensures Net16(f, at) == x
  {
    assert f[at] == f[at..at + 2][0] && f[at + 1] == f[at..at + 2][1];
  }

  lemma Field32RoundTrip(f: seq<byte>, at: nat, x: dword)
    requires at + 4 <= |f| && f[at..at + 4] == Be32(x)
    ensures Net32(f, at) == x
  {
    var g, hi, lo := f[at..at + 4], Be16(x / 0x1_0000), Be16(x % 0x1_0000);
    assert g == hi + lo && f[at..at + 2] == g[0..2] && f[at + 2..at + 4] == g[2..4];
    Field16RoundTrip(f, at, x / 0x1_0000);
    Field16RoundTrip(f, at + 2, x % 0x1_0000);
  }

  /** Writing back the value of a field changes nothing. */
  lemma FieldRewritten(f: seq<byte>, at: nat)
    requires at + 4 <= |f|
    ensures Be32(Net32(f, at)) == f[at..at + 4]
  {
    NetHalves(f, at);
    NetBytes(f, at);
    NetBytes(f, at + 2);
  }

  lemma NetHalves(f: seq<byte>, at: nat)
    requires at + 4 <= |f|
    ensures Net32(f, at) / 0x1_0000 == Net16(f, at) && Net32(f, at) % 0x1_0000 == Net16(f, at + 2)
  {
  }

  lemma NetBytes(f: seq<byte>, at: nat)
    requires at + 2 <= |f|
    ensures Be16(Net16(f, at)) == f[at..at + 2]
  {
    assert Net16(f, at) / 256 == f[at] && Net16(f, at) % 256 == f[at + 1];
  }

  // ----- frame layout -----

  /** What is on the wire, of any length; the field readers below ask for the headers' 26 bytes. */
  type Frame = seq<byte>

  function Dst(f: Frame): Mac
    requires |f| >= HEADER_LEN
  { f[0..6] }

  function Src(f: Frame): Mac
    requires |f| >= HEADER_LEN
  { f[6..12] }

  function EtherType(f: Frame): word
    requires |f| >= HEADER_LEN
  { Net16(f, 12) }

  function Signature(f: Frame): dword
    requires |f| >= HEADER_LEN
  { Net32(f, 14) }

  function SessionId(f: Frame): dword
    requires |f| >= HEADER_LEN
  { Net32(f, 18) }

  function PayloadLen(f: Frame): word
    requires |f| >= HEADER_LEN
  { Net16(f, 22) }

  function PktType(f: Frame): word
    requires |f| >= HEADER_LEN
  { Net16(f, 24) }

  function Header(dst: Mac, src: Mac, ethertype: word, id: dword, payloadLen: word, pktType: word): (f: Frame)
    ensures |f| == HEADER_LEN
  {
    dst + src + Be16(ethertype) + Be32(PACKET_SIGNATURE) + Be32(id) + Be16(payloadLen) + Be16(pktType)
  }

  lemma HeaderSlices(h: Frame, dst: Mac, src: Mac, ethertype: word, id: dword, payloadLen: word, pktType: word)
    requires h == Header(dst, src, ethertype, id, payloadLen, pktType)
    ensures |h| == HEADER_LEN
    ensures h[0..6] == dst && h[6..12] == src && h[12..14] == Be16(ethertype)
    ensures h[14..18] == Be32(PACKET_SIGNATURE) && h[18..22] == Be32(id)
    ensures h[22..24] == Be16(payloadLen) && h[24..26] == Be16(pktType)
  {
    var a, b, c, d, e := Be16(ethertype), Be32(PACKET_SIGNATURE), Be32(id), Be16(payloadLen), Be16(pktType);
    var g := dst + src;
    assert h == g + a + b + c + d + e;
    assert g[0..6] == dst && g[6..12] == src;
    assert h[0..6] == g[0..6] && h[6..12] == g[6..12];
  }

  /** The layout of a header, byte by byte. */
  lemma HeaderLayout(dst: Mac, src: Mac, ethertype: word, id: dword, payloadLen: word, pktType: word)
    ensures var h := Header(dst, src, ethertype, id, payloadLen, pktType);
            && |h| == 26 && h[0..6] == dst && h[6..12] == src
            && h[12..14] == [ethertype / 256, ethertype % 256] && h[14..18] == [0x7b, 0x6e, 0x05, 0xb0]
            && 0x100_0000 * (h[18] as int) + 0x1_0000 * (h[19] as int) + 256 * (h[20] as int) + h[21] == id
            && h[22..24] == [payloadLen / 256, payloadLen % 256] && h[24..26] == [pktType / 256, pktType % 256]
  {
    var h := Header(dst, src, ethertype, id, payloadLen, pktType);
    HeaderSlices(h, dst, src, ethertype, id, payloadLen, pktType);
    var four := h[18..22];
    assert four == Be16(id / 0x1_0000) + Be16(id % 0x1_0000);
    assert h[18] == four[0] && h[19] == four[1] && h[20] == four[2] && h[21] == four[3];
  }

  /** Every header field is read back from any frame that begins with the header. */
  lemma HeaderParses(f: Frame, dst: Mac, src: Mac, ethertype: word, id: dword, payloadLen: word, pktType: word)
    requires |f| >= HEADER_LEN
    requires f[..HEADER_LEN] == Header(dst, src, ethertype, id, payloadLen, pktType)
    ensures Dst(f) == dst && Src(f) == src && EtherType(f) == ethertype
    ensures Signature(f) == PACKET_SIGNATURE && SessionId(f) == id
    ensures PayloadLen(f) == payloadLen && PktType(f) == pktType
  {
    var h := f[..HEADER_LEN];
    HeaderSlices(h, dst, src, ethertype, id, payloadLen, pktType);
    SameSlice(f, h, 0, 26, 0, 6);
    SameSlice(f, h, 0, 26, 6, 12);
    SameSlice(f, h, 0, 26, 12, 14);
    SameSlice(f, h, 0, 26, 14, 18);
    SameSlice(f, h, 0, 26, 18, 22);
    SameSlice(f, h, 0, 26, 22, 24);
    SameSlice(f, h, 0, 26, 24, 26);
    Field16RoundTrip(f, 12, ethertype);
    Field32RoundTrip(f, 14, PACKET_SIGNATURE);
    Field32RoundTrip(f, 18, id);
    Field16RoundTrip(f, 22, payloadLen);
    Field16RoundTrip(f, 24, pktType);
  }

  /** Where two frames agree they agree in every part. */
  lemma SameSlice(f: Frame, g: Frame, from: nat, to: nat, a: nat, z: nat)
    requires from <= a <= z <= to <= |f| && to <= |g|
    requires f[from..to] == g[from..to]
    ensures f[a..z] == g[a..z]
  {
    forall i | 0 <= i < z - a ensures f[a..z][i] == g[a..z][i] {
      assert f[from..to][a - from + i] == g[from..to][a - from + i];
    }
  }

  /** What a client with this address and session id lets through. */
  predicate Accepts(f: Frame, mac: Mac, id: dword)
    requires |f| >= HEADER_LEN
  {
    Dst(f) == mac && Signature(f) == PACKET_SIGNATURE && SessionId(f) == id
  }

  /** The signature, and the packet types, as they lie in a frame. */
  lemma SignedIff(f: Frame)
    requires |f| >= HEADER_LEN
    ensures Signature(f) == PACKET_SIGNATURE <==> f[14..18] == [0x7b, 0x6e, 0x05, 0xb0]
  {
    FieldRewritten(f, 14);
    assert Be32(PACKET_SIGNATURE) == [0x7b, 0x6e, 0x05, 0xb0];
  }

  lemma TypeIs(f: Frame, t: byte)
    requires |f| >= HEADER_LEN
    ensures PktType(f) == t <==> f[24..26] == [0, t]
  {
    NetBytes(f, 24);
    assert Be16(t) == [0, t];
  }

  /** The padding rule of `pktdrv_send`. */
  function SendLength(length: nat): nat {
    if length > MIN_ETH_FRAME_SIZE then length else MIN_ETH_FRAME_SIZE
  }

  function Zeros(n: nat): (s: seq<byte>)
    ensures |s| == n && forall i :: 0 <= i < n ==> s[i] == 0
  {
    seq(n, _ => 0)
  }

  // ----- memory writes -----

  /** `memcpy(a + at, d, |d|)` */
  method Memcpy(a: array<byte>, at: nat, d: seq<byte>)
    requires at + |d| <= a.Length
    modifies a
    ensures forall i :: 0 <= i < a.Length ==> a[i] == if at <= i < at + |d| then d[i - at] else old(a[i])
  {
    for k := 0 to |d|
      invariant forall i :: 0 <= i < a.Length ==> a[i] == if at <= i < at + k then d[i - at] else old(a[i])
    {
      a[at + k] := d[k];
    }
  }

  /** `memset(a + at, 0, n)` */
  method Memzero(a: array<byte>, at: nat, n: nat)
    requires at + n <= a.Length
    modifies a
    ensures forall i :: 0 <= i < a.Length ==> a[i] == if at <= i < at + n then 0 else old(a[i])
  {
    for k := 0 to n
      invariant forall i :: 0 <= i < a.Length ==> a[i] == if at <= i < at + k then 0 else old(a[i])
    {
      a[at + k] := 0;
    }
  }

  /** A buffer whose header fields sit at their offsets begins with the header. */
  lemma HeaderFromFields(f: Frame, dst: Mac, src: Mac, ethertype: word, id: dword, payloadLen: word, pktType: word)
    requires |f| >= HEADER_LEN
    requires f[0..6] == dst && f[6..12] == src && f[12..14] == Be16(ethertype)
    requires f[14..18] == Be32(PACKET_SIGNATURE) && f[18..22] == Be32(id)
    requires f[22..24] == Be16(payloadLen) && f[24..26] == Be16(pktType)
    ensures f[..HEADER_LEN] == Header(dst, src, ethertype, id, payloadLen, pktType)
  {
    Join(f, 6, 12);
    Join(f, 12, 14);
    Join(f, 14, 18);
    Join(f, 18, 22);
    Join(f, 22, 24);
    Join(f, 24, 26);
    assert f[..6] == f[0..6];
  }

  lemma Join(f: Frame, m: nat, z: nat)
    requires m <= z <= |f|
    ensures f[..m] + f[m..z] == f[..z]
  {
  }

  // ----- client side: src/client/network.c -----

  /** `send_packet`; no destination means broadcast. */
  method SendPacket(mac: Mac, ethertype: word, id: dword, dest: Option<Mac>, pktType: word, payload: seq<byte>)
    returns (buffer: array<byte>)
    requires |payload| <= MAX_PAYLOAD_LENGTH
    ensures fresh(buffer)
    ensures buffer[..] ==
            Header(if dest.Some? then dest.value else BROADCAST, mac, ethertype, id, |payload|, pktType) + payload
    ensures dest.None? ==> buffer[0..6] == [0xff, 0xff, 0xff, 0xff, 0xff, 0xff]
  {
    var d := if dest.Some? then dest.value else BROADCAST;
    buffer := new byte[HEADER_LEN + |payload|];
    WriteEthernet(buffer, d, mac, ethertype);
    WriteProtocol(buffer, id, |payload|, pktType);
    Memcpy(buffer, HEADER_LEN, payload);
    assert buffer[HEADER_LEN..] == payload;
    PacketInBuffer(buffer[..], d, mac, ethertype, id, pktType, payload);
  }

  method WriteEthernet(buffer: array<byte>, dst: Mac, src: Mac, ethertype: word)
    requires buffer.Length >= HEADER_LEN
    modifies buffer
    ensures buffer[0..6] == dst && buffer[6..12] == src && buffer[12..14] == Be16(ethertype)
  {
    Memcpy(buffer, 6, src);
    Memcpy(buffer, 0, dst);
    Memcpy(buffer, 12, Stored16(ethertype));
  }

  method WriteProtocol(buffer: array<byte>, id: dword, payloadLen: word, pktType: word)
    requires buffer.Length >= HEADER_LEN
    modifies buffer
    ensures buffer[14..18] == Be32(PACKET_SIGNATURE) && buffer[18..22] == Be32(id)
    ensures buffer[22..24] == Be16(payloadLen) && buffer[24..26] == Be16(pktType)
    ensures forall i :: 0 <= i < 14 ==> buffer[i] == old(buffer[i])
  {
    Memcpy(buffer, 14, Stored32(PACKET_SIGNATURE));
    Memcpy(buffer, 18, Stored32(id));
    Memcpy(buffer, 22, Stored16(payloadLen));
    Memcpy(buffer, 24, Stored16(pktType));
  }

  lemma PacketInBuffer(b: Frame, dst: Mac, src: Mac, ethertype: word, id: dword, pktType: word, payload: seq<byte>)
    requires |payload| <= MAX_PAYLOAD_LENGTH && |b| == HEADER_LEN + |payload| && b[HEADER_LEN..] == payload
    requires b[0..6] == dst && b[6..12] == src && b[12..14] == Be16(ethertype)
    requires b[14..18] == Be32(PACKET_SIGNATURE) && b[18..22] == Be32(id)
    requires b[22..24] == Be16(|payload|) && b[24..26] == Be16(pktType)
    ensures b == Header(dst, src, ethertype, id, |payload|, pktType) + payload
  {
    HeaderFromFields(b, dst, src, ethertype, id, |payload|, pktType);
    assert b == b[..HEADER_LEN] + b[HEADER_LEN..];
  }

  datatype Keystroke = Keystroke(biosScanCode: byte, asciiValue: byte, flags17: word)

  /** The in-memory image of one `struct Keystroke`; `flags_17` is not byte-swapped. */
  function KeyImage(k: Keystroke): (s: seq<byte>)
    ensures |s| == 4
  {
    [k.biosScanCode, k.asciiValue] + Le16(k.flags17)
  }

  function KeyBytes(keys: seq<Keystroke>): (s: seq<byte>)
    ensures |s| == 4 * |keys|
  {
    if keys == [] then [] else KeyImage(keys[0]) + KeyBytes(keys[1..])
  }

  method SendKeystrokes(mac: Mac, ethertype: word, id: dword, dest: Option<Mac>, keys: seq<Keystroke>)
    returns (buffer: array<byte>)
    requires 4 * |keys| <= MAX_PAYLOAD_LENGTH
    ensures fresh(buffer)
    ensures buffer[..] ==
            Header(if dest.Some? then dest.value else BROADCAST, mac, ethertype, id, 4 * |keys|, V1_INJECT_KEYSTROKE)
            + KeyBytes(keys)
  {
    buffer := SendPacket(mac, ethertype, id, dest, V1_INJECT_KEYSTROKE, KeyBytes(keys));
  }
}
