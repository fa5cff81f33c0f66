/** What the two programs make of each other's packets: src/client/network.c and src/client/main.c on
    one side, src/server/protocol.c and src/server/session.c on the other. */
module Exchange {
  import opened Wire
  import opened Sessions
  import opened Video
  import opened Sweep
  import opened Client
  import opened PoolModel
  import opened PoolRuns
  import opened Server

  /** A received buffer holds this frame: its bytes first, then the padding of the network, then zeros. */
  predicate HoldsFrame(d: seq<byte>, bytes: nat, f: Frame) {
    |d| == BUFFER_MAX_SIZE && |f| <= bytes <= BUFFER_MAX_SIZE && d[..|f|] == f
  }

  // ----- replies -----

  /** A reply reads back as what was put into it, is zero after its payload, and passes the filter of
      the client that asked and of no other. */
  lemma ReplyReachesItsRequester(c: Config, d: seq<byte>, pktType: word, payload: seq<byte>, total: nat, mac: Mac,
                                 id: dword)
    requires |d| >= HEADER_LEN && |payload| < 0x1_0000 && HEADER_LEN + |payload| <= SendLength(total)
    ensures var f := Reply(c, d, pktType, payload, total);
            && |f| == SendLength(total) && Src(f) == c.mac && EtherType(f) == c.ethertype
            && PktType(f) == pktType && PayloadLen(f) == |payload|
            && f[HEADER_LEN..HEADER_LEN + |payload|] == payload
            && (forall i :: HEADER_LEN + |payload| <= i < |f| ==> f[i] == 0)
            && (Accepts(f, mac, id) <==> mac == Src(d) && id == SessionId(d))
  {
    var f := Reply(c, d, pktType, payload, total);
    var h := Header(Src(d), c.mac, c.ethertype, SessionId(d), |payload|, pktType);
    assert f == h + (payload + Zeros(SendLength(total) - HEADER_LEN - |payload|));
    assert f[..HEADER_LEN] == h;
    HeaderParses(f, Src(d), c.mac, c.ethertype, SessionId(d), |payload|, pktType);
  }

  /** A ping comes back to its sender with the bytes it carried. */
  lemma PingIsEchoed(c: Config, d: seq<byte>, bytes: nat, f: Frame, dst: Mac, mac: Mac, id: dword, payload: seq<byte>)
    requires |payload| <= MAX_PAYLOAD_LENGTH && HEADER_LEN + |payload| <= BUFFER_MAX_SIZE
    requires f == Header(dst, mac, c.ethertype, id, |payload|, V1_PING) + payload && HoldsFrame(d, bytes, f)
    ensures GoodRequest(d, bytes) && PayloadLen(d) == |payload| && bytes >= HEADER_LEN + PayloadLen(d)
    ensures Accepts(Pong(c, d, bytes), mac, id) && PktType(Pong(c, d, bytes)) == V1_PONG
    ensures Pong(c, d, bytes)[HEADER_LEN..HEADER_LEN + |payload|] == payload
  {
    FrameInBuffer(d, bytes, f, dst, mac, c.ethertype, id, V1_PING, payload);
    ReplyReachesItsRequester(c, d, V1_PONG, payload, bytes, mac, id);
  }

  lemma FrameInBuffer(d: seq<byte>, bytes: nat, f: Frame, dst: Mac, mac: Mac, ethertype: word, id: dword,
                      pktType: word, payload: seq<byte>)
    requires |payload| <= MAX_PAYLOAD_LENGTH
    requires f == Header(dst, mac, ethertype, id, |payload|, pktType) + payload && HoldsFrame(d, bytes, f)
    ensures Dst(d) == dst && Src(d) == mac && Signature(d) == PACKET_SIGNATURE && SessionId(d) == id
    ensures PktType(d) == pktType && PayloadLen(d) == |payload|
    ensures d[HEADER_LEN..HEADER_LEN + |payload|] == payload
    ensures GoodRequest(d, bytes)
  {
    assert f[..HEADER_LEN] == Header(dst, mac, ethertype, id, |payload|, pktType) && f[HEADER_LEN..] == payload;
    assert d[..HEADER_LEN] == d[..|f|][..HEADER_LEN];
    assert d[HEADER_LEN..|f|] == d[..|f|][HEADER_LEN..];
    HeaderParses(d, dst, mac, ethertype, id, |payload|, pktType);
  }

  lemma StatusReplyReads(c: Config, d: seq<byte>, v: VideoState)
    requires |d| >= HEADER_LEN
    ensures var r := StatusReply(c, d, v);
            && WellFormed(r) && PktType(r) == V1_STATUS_RESP && Src(r) == c.mac && Accepts(r, Src(d), SessionId(d))
            && StatusOf(r) == StatusBytes(v)
  {
    var r := StatusReply(c, d, v);
    ReplyReachesItsRequester(c, d, V1_STATUS_RESP, StatusBytes(v), HEADER_LEN + 6, Src(d), SessionId(d));
    var six := r[26..32];
    assert six == StatusBytes(v);
    assert r[26] == six[0] && r[27] == six[1] && r[28] == six[2];
    assert r[29] == six[3] && r[30] == six[4] && r[31] == six[5];
  }

  /** What the client then knows of a server it knew before: the six parts of its video state, each in its place.
      Screen, size, session and timer stay, and so do all other hosts. */
  lemma StatusOfKnownHost(c: Config, d: seq<byte>, v: VideoState, hosts: Hosts, i: nat)
    requires |d| >= HEADER_LEN && HostsInv(hosts) && i < |hosts| && IsHost(hosts[i], c.mac)
    ensures WellFormed(StatusReply(c, d, v))
    ensures var after := Receive(hosts, Src(d), SessionId(d), StatusReply(c, d, v));
            && |after| == |hosts| && IsHost(after[i], c.mac)
            && (forall j :: 0 <= j < |hosts| && j != i ==> after[j] == hosts[j])
            && var h, h' := hosts[i].value, after[i].value;
               && h'.status[0] == v.videoMode && h'.status[1] == v.activePage
               && h'.status[2] == v.textRows && h'.status[3] == v.textCols
               && h'.status[4] == v.cursorRow && h'.status[5] == v.cursorCol
               && h'.size == h.size && h'.controlled == h.controlled
               && h'.lastStart == h.lastStart && h'.buffer == h.buffer
  {
    StatusReplyReads(c, d, v);
    StatusReplyBytes(c, d, v);
    HostFound(hosts, c.mac, i);
  }

  /** And of one it did not: the same in the first free place, where the rest is blank and no session is wanted. */
  lemma StatusOfNewHost(c: Config, d: seq<byte>, v: VideoState, hosts: Hosts, i: nat)
    requires |d| >= HEADER_LEN && HostsInv(hosts) && !Known(hosts, c.mac)
    requires i < |hosts| && hosts[i].None? && forall j :: 0 <= j < i ==> hosts[j].Some?
    ensures WellFormed(StatusReply(c, d, v))
    ensures var after := Receive(hosts, Src(d), SessionId(d), StatusReply(c, d, v));
            && |after| == |hosts| && IsHost(after[i], c.mac)
            && (forall j :: 0 <= j < |hosts| && j != i ==> after[j] == hosts[j])
            && var h := after[i].value;
               && h.status[0] == v.videoMode && h.status[1] == v.activePage
               && h.status[2] == v.textRows && h.status[3] == v.textCols
               && h.status[4] == v.cursorRow && h.status[5] == v.cursorCol
               && h.size.rows == h.size.cols == 0 && !h.controlled && h.lastStart == 0
               && forall p :: 0 <= p < TEXT_BUFFER_SIZE ==> h.buffer[p] == 0
  {
    StatusReplyReads(c, d, v);
    StatusReplyBytes(c, d, v);
    FreeFound(hosts, i);
  }

  lemma FreeFound(hosts: Hosts, i: nat)
    requires i < |hosts| && hosts[i].None? && forall j :: 0 <= j < i ==> hosts[j].Some?
    ensures FindFree(hosts, 0) == i
  {
    var j := FindFree(hosts, 0);
    assert j < |hosts| ==> hosts[j].None?;
  }

  lemma StatusRequestAnswered(c: Config, st: State, now: dword, v: VideoState, p: Packet)
    requires GoodRequest(p.data, p.bytes) && Signature(p.data) == PACKET_SIGNATURE && PktType(p.data) == V1_STATUS_REQ
    ensures Handle(c, st, true, now, v, p) == st.(sent := st.sent + [StatusReply(c, p.data, v)])
  {
  }

  /** The probe a client broadcasts makes the server known to it, with the video state of the moment. */
  lemma ProbeRegistersServer(c: Config, d: seq<byte>, bytes: nat, f: Frame, mac: Mac, id: dword,
                             st: State, now: dword, v: VideoState, hosts: Hosts)
    requires f == Header(BROADCAST, mac, c.ethertype, id, 0, V1_STATUS_REQ) && HoldsFrame(d, bytes, f)
    requires HostsInv(hosts) && exists j :: 0 <= j < MAX_HOSTS && hosts[j].None?
    ensures GoodRequest(d, bytes)
    ensures Handle(c, st, true, now, v, Packet(bytes, d)).sent == st.sent + [StatusReply(c, d, v)]
    ensures WellFormed(StatusReply(c, d, v))
    ensures Known(Receive(hosts, mac, id, StatusReply(c, d, v)), c.mac)
    ensures StatusOf(StatusReply(c, d, v)) ==
            StatusBytes(v)
  {
    assert f == f + [];
    FrameInBuffer(d, bytes, f, BROADCAST, mac, c.ethertype, id, V1_STATUS_REQ, []);
    StatusRequestAnswered(c, st, now, v, Packet(bytes, d));
    StatusReplyReads(c, d, v);
    StatusRegistersSender(hosts, mac, id, StatusReply(c, d, v));
  }

  // ----- keystrokes -----

  lemma {:induction false} KeyBytesAt(keys: seq<Keystroke>, i: nat)
    requires i < |keys|
    ensures KeyBytes(keys)[4 * i..4 * i + 4] == KeyImage(keys[i])
  {
    var first, rest := KeyImage(keys[0]), KeyBytes(keys[1..]);
    if i > 0 {
      KeyBytesAt(keys[1..], i - 1);
      AfterFirst(first, rest, 4 * (i - 1), 4 * i);
    }
  }

  lemma AfterFirst(first: seq<byte>, rest: seq<byte>, a: nat, z: nat)
    requires |first| == 4 && a <= z <= |rest|
    ensures (first + rest)[a + 4..z + 4] == rest[a..z]
  {
  }

  /** The keystrokes the client packs are the ones the server injects, in the same order. */
  lemma KeystrokesArriveInOrder(d: seq<byte>, bytes: nat, f: Frame, dst: Mac, mac: Mac, ethertype: word, id: dword,
                                keys: seq<Keystroke>)
    requires HEADER_LEN + 4 * |keys| <= BUFFER_MAX_SIZE && 4 * |keys| <= MAX_PAYLOAD_LENGTH
    requires f == Header(dst, mac, ethertype, id, 4 * |keys|, V1_INJECT_KEYSTROKE) + KeyBytes(keys)
    requires HoldsFrame(d, bytes, f)
    ensures GoodRequest(d, bytes)
    ensures Injects(Packet(bytes, d)) && KeysOf(Packet(bytes, d)) == keys
  {
    var b := KeyBytes(keys);
    FrameInBuffer(d, bytes, f, dst, mac, ethertype, id, V1_INJECT_KEYSTROKE, b);
    forall i | 0 <= i < |keys| ensures b[4 * i..4 * i + 4] == KeyImage(keys[i]) {
      KeyBytesAt(keys, i);
    }
    KeysOfPacket(d, bytes, b, keys);
  }

  lemma KeysOfPacket(d: seq<byte>, bytes: nat, b: seq<byte>, keys: seq<Keystroke>)
    requires GoodRequest(d, bytes) && Injects(Packet(bytes, d)) && PayloadLen(d) == |b| == 4 * |keys|
    requires HEADER_LEN + |b| <= |d| && d[HEADER_LEN..HEADER_LEN + |b|] == b
    requires forall i :: 0 <= i < |keys| ==> b[4 * i..4 * i + 4] == KeyImage(keys[i])
    ensures KeysOf(Packet(bytes, d)) == keys
  {
    assert PayloadLen(d) / 4 == |keys|;
    forall i | 0 <= i < |keys| ensures KeyAt(d, i) == keys[i] {
      Inner(d, HEADER_LEN, b, 4 * i, 4 * i + 4);
      KeyFromBytes(d, HEADER_LEN + 4 * i, keys[i]);
    }
  }

  lemma Inner(d: seq<byte>, from: nat, b: seq<byte>, a: nat, z: nat)
    requires from + |b| <= |d| && d[from..from + |b|] == b && a <= z <= |b|
    ensures d[from + a..from + z] == b[a..z]
  {
    forall i | a <= i < z ensures d[from + i] == b[i] {
      assert d[from..from + |b|][i] == b[i];
    }
  }

  lemma KeyFromBytes(d: seq<byte>, at: nat, k: Keystroke)
    requires at + 4 <= |d| && d[at..at + 4] == KeyImage(k)
    ensures Keystroke(d[at], d[at + 1], Load16(d, at + 2)) == k
  {
    var four, w := d[at..at + 4], k.flags17;
    assert four == [k.biosScanCode, k.asciiValue, w % 256, w / 256];
    assert d[at] == four[0] && d[at + 1] == four[1] && d[at + 2] == four[2] && d[at + 3] == four[3];
  }

  /** Four bytes to a key: scan code, character, and the flags low byte first. */
  lemma KeyLayout(keys: seq<Keystroke>, i: nat)
    requires i < |keys|
    ensures KeyBytes(keys)[4 * i] == keys[i].biosScanCode && KeyBytes(keys)[4 * i + 1] == keys[i].asciiValue
    ensures KeyBytes(keys)[4 * i + 2] == keys[i].flags17 % 256 && KeyBytes(keys)[4 * i + 3] == keys[i].flags17 / 256
  {
    KeyBytesAt(keys, i);
    var four := KeyBytes(keys)[4 * i..4 * i + 4];
    assert four == KeyImage(keys[i]);
    assert four[0] == KeyBytes(keys)[4 * i] && four[1] == KeyBytes(keys)[4 * i + 1];
    assert four[2] == KeyBytes(keys)[4 * i + 2] && four[3] == KeyBytes(keys)[4 * i + 3];
  }

  predicate Injects(p: Packet)
    requires |p.data| == BUFFER_MAX_SIZE
  {
    Signature(p.data) == PACKET_SIGNATURE && PktType(p.data) == V1_INJECT_KEYSTROKE
  }

  /** The keystrokes of one packet, if it carries any. */
  function KeysOf(p: Packet): seq<Keystroke>
    requires GoodRequest(p.data, p.bytes)
  {
    if Injects(p) then Keys(p.data, PayloadLen(p.data) / 4) else []
  }

  // ----- screen frames -----

  /** A client reads back from a video frame exactly the rows that were put into it, and its bounds test
      never turns the frame away. */
  lemma VideoFrameReads(f: Frame, c: Config, to: Key, v: VideoState, fb: Segment, k: Chunk, mac: Mac, id: dword)
    requires ChunkInScreen(v, k) && IsVideoFrame(f, c, to, v, fb, k)
    ensures WellFormed(f) && PktType(f) == V1_VGA_TEXT && Src(f) == c.mac
    ensures VideoOffset(f) == ChunkOffset(v, k) && VideoCount(f) == ChunkCount(v, k)
    ensures VideoData(f) == fb[ChunkOffset(v, k)..ChunkOffset(v, k) + ChunkCount(v, k)]
    ensures VideoOffset(f) + VideoCount(f) <= TEXT_BUFFER_SIZE
    ensures Accepts(f, mac, id) <==> mac == to.0 && id == to.1
    ensures f[26] == v.textRows && f[27] == v.textCols && f[28] == v.cursorRow && f[29] == v.cursorCol
  {
    var offset, count := ChunkOffset(v, k), ChunkCount(v, k);
    HeaderParses(f, to.0, c.mac, c.ethertype, to.1, 8 + count, V1_VGA_TEXT);
    VideoHeaderReads(f, v, offset, count);
  }

  /** What the server puts into a frame is what the client shows of that server, text mode and cursor
      included; nothing else it knows of it changes, and no other host. */
  lemma VideoFrameUpdatesHost(f: Frame, c: Config, v: VideoState, fb: Segment, k: Chunk, mac: Mac, id: dword,
                              hosts: Hosts, i: nat)
    requires ChunkInScreen(v, k) && IsVideoFrame(f, c, (mac, id), v, fb, k)
    requires HostsInv(hosts) && i < |hosts| && IsHost(hosts[i], c.mac)
    ensures WellFormed(f)
    ensures var after := Receive(hosts, mac, id, f);
            && |after| == |hosts| && IsHost(after[i], c.mac)
            && (forall j :: 0 <= j < |hosts| && j != i ==> after[j] == hosts[j])
            && var h, h' := hosts[i].value, after[i].value;
               && h'.controlled == h.controlled && h'.lastStart == h.lastStart
               && h'.size.rows == v.textRows && h'.size.cols == v.textCols
               && h'.status[..4] == h.status[..4] && h'.status[4] == v.cursorRow && h'.status[5] == v.cursorCol
               && forall p :: 0 <= p < TEXT_BUFFER_SIZE ==>
                    h'.buffer[p] == if Covers(k, v, p) then fb[p] else h.buffer[p]
  {
    VideoFrameReads(f, c, (mac, id), v, fb, k, mac, id);
    HostFound(hosts, c.mac, i);
    var h' := ShowVideo(hosts[i].value, f);
    forall p | 0 <= p < TEXT_BUFFER_SIZE
      ensures h'.buffer[p] == if Covers(k, v, p) then fb[p] else hosts[i].value.buffer[p]
    {
      assert Covers(k, v, p) ==> VideoData(f)[p - VideoOffset(f)] == fb[p];
    }
  }

  lemma HostFound(hosts: Hosts, mac: Mac, i: nat)
    requires HostsInv(hosts) && i < |hosts| && IsHost(hosts[i], mac)
    ensures FindHost(hosts, mac, 0) == i
  {
    var j := FindHost(hosts, mac, 0);
    assert j < |hosts| ==> IsHost(hosts[j], mac);
  }

  lemma VideoHeaderReads(f: Frame, v: VideoState, offset: word, count: word)
    requires |f| >= 34 && f[HEADER_LEN..34] == VideoHeader(v, offset, count)
    ensures VideoOffset(f) == offset && VideoCount(f) == count
    ensures f[26] == v.textRows && f[27] == v.textCols && f[28] == v.cursorRow && f[29] == v.cursorCol
  {
    var h := f[HEADER_LEN..34];
    VideoHeaderParts(h, v, offset, count);
    Inner(f, HEADER_LEN, h, 4, 6);
    Inner(f, HEADER_LEN, h, 6, 8);
    assert f[26] == h[0] && f[27] == h[1] && f[28] == h[2] && f[29] == h[3];
    Field16RoundTrip(f, 30, offset);
    Field16RoundTrip(f, 32, count);
  }

  lemma VideoHeaderParts(h: seq<byte>, v: VideoState, offset: word, count: word)
    requires h == VideoHeader(v, offset, count)
    ensures h[0] == v.textRows && h[1] == v.textCols && h[2] == v.cursorRow && h[3] == v.cursorCol
    ensures h[4..6] == Be16(offset) && h[6..8] == Be16(count)
  {
    var four: seq<byte> := [v.textRows, v.textCols, v.cursorRow, v.cursorCol];
    assert h == four + (Be16(offset) + Be16(count));
  }

  function UsedSlots(t: Table): seq<Slot> {
    if t == [] then []
    else UsedSlots(t[..|t| - 1]) + if InUse(t[|t| - 1]) then [t[|t| - 1]] else []
  }

  /** The frames of a tick are one for each session in use, and differ only in whom they are for. */
  lemma FanOutIsUniform(fs: seq<Frame>, c: Config, t: Table, v: VideoState, fb: Segment, k: Chunk)
    requires ChunkInScreen(v, k) && OneFrameEach(fs, c, t, v, fb, k) && SamePadding(fs, 34 + ChunkCount(v, k))
    ensures |fs| == |UsedSlots(t)| == ActiveCount(t)
    ensures forall i :: 0 <= i < |fs| ==> IsVideoFrame(fs[i], c, KeyOf(UsedSlots(t)[i]), v, fb, k)
    ensures forall i :: 0 <= i < |fs| ==> |fs[i]| <= ETH_FRAME_LEN
    ensures forall i, j :: 0 <= i < j < |fs| ==> Unaddressed(fs[i]) == Unaddressed(fs[j])
  {
    OnePerSession(fs, c, t, v, fb, k);
    forall i, j | 0 <= i < j < |fs| ensures Unaddressed(fs[i]) == Unaddressed(fs[j]) {
      SharedPart(fs[i], c, KeyOf(UsedSlots(t)[i]), v, fb, k);
      SharedPart(fs[j], c, KeyOf(UsedSlots(t)[j]), v, fb, k);
      assert Tail(fs[i], 34 + ChunkCount(v, k)) == Tail(fs[j], 34 + ChunkCount(v, k));
    }
  }

  /** The i-th frame is for the i-th slot. */
  predicate FramesFollow(fs: seq<Frame>, c: Config, slots: seq<Slot>, v: VideoState, fb: Segment, k: Chunk)
    requires ChunkInScreen(v, k)
  {
    |fs| == |slots| && forall i :: 0 <= i < |fs| ==> IsVideoFrame(fs[i], c, KeyOf(slots[i]), v, fb, k)
  }

  lemma {:induction false} OnePerSession(fs: seq<Frame>, c: Config, t: Table, v: VideoState, fb: Segment, k: Chunk)
    requires ChunkInScreen(v, k) && OneFrameEach(fs, c, t, v, fb, k)
    ensures |UsedSlots(t)| == ActiveCount(t) && FramesFollow(fs, c, UsedSlots(t), v, fb, k)
  {
    if t != [] {
      var n, s := |t| - 1, t[|t| - 1];
      if InUse(s) {
        OnePerSession(fs[..|fs| - 1], c, t[..n], v, fb, k);
        OneFollows(fs, c, UsedSlots(t[..n]), s, v, fb, k);
      } else {
        OnePerSession(fs, c, t[..n], v, fb, k);
        assert UsedSlots(t) == UsedSlots(t[..n]);
      }
    }
  }

  lemma OneFollows(fs: seq<Frame>, c: Config, slots: seq<Slot>, s: Slot, v: VideoState, fb: Segment, k: Chunk)
    requires ChunkInScreen(v, k) && fs != [] && FramesFollow(fs[..|fs| - 1], c, slots, v, fb, k)
    requires IsVideoFrame(fs[|fs| - 1], c, KeyOf(s), v, fb, k)
    ensures FramesFollow(fs, c, slots + [s], v, fb, k)
  {
    forall i | 0 <= i < |fs| ensures IsVideoFrame(fs[i], c, KeyOf((slots + [s])[i]), v, fb, k) {
      assert i < |slots| ==> fs[i] == fs[..|fs| - 1][i];
    }
  }

  /** All of a frame but the receiver's address and session id, padding included. */
  function Unaddressed(f: Frame): (Frame, Frame) {
    if |f| < HEADER_LEN then (f, []) else (f[6..18], f[22..])
  }

  lemma SharedPart(f: Frame, c: Config, to: Key, v: VideoState, fb: Segment, k: Chunk)
    requires ChunkInScreen(v, k) && IsVideoFrame(f, c, to, v, fb, k)
    ensures Unaddressed(f) ==
            (c.mac + Be16(c.ethertype) + Be32(PACKET_SIGNATURE),
             Be16(8 + ChunkCount(v, k)) + Be16(V1_VGA_TEXT) + VideoHeader(v, ChunkOffset(v, k), ChunkCount(v, k))
             + fb[ChunkOffset(v, k)..ChunkOffset(v, k) + ChunkCount(v, k)] + Tail(f, 34 + ChunkCount(v, k)))
  {
    var count := ChunkCount(v, k);
    var h := f[..HEADER_LEN];
    HeaderSlices(h, to.0, c.mac, c.ethertype, to.1, 8 + count, V1_VGA_TEXT);
    assert f[0..HEADER_LEN] == h[0..HEADER_LEN];
    SameSlice(f, h, 0, HEADER_LEN, 6, 18);
    SameSlice(f, h, 0, HEADER_LEN, 22, 24);
    SameSlice(f, h, 0, HEADER_LEN, 24, 26);
    assert h[6..18] == h[6..12] + h[12..14] + h[14..18];
    CutUp(f, count);
  }

  lemma CutUp(f: Frame, count: nat)
    requires |f| >= 34 + count
    ensures f[22..] == f[22..24] + f[24..26] + f[26..34] + f[34..34 + count] + f[34 + count..]
  {
  }
}
