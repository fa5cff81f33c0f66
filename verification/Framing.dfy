/** What the server's frames look like on the wire, in numbers: how long each is, where its bytes lie, and which
    requests are answered (src/server/pktdrv.c, src/server/protocol.c, src/common/protocol.h). */
module Framing {
  import opened Wire
  import opened Sessions
  import opened Video
  import opened Sweep
  import opened PoolModel
  import opened PoolRuns
  import opened Server
  import opened Exchange
  import M = Mirror

  /** The lengths Ethernet allows. */
  predicate AllFit(fs: seq<Frame>) {
    forall i :: 0 <= i < |fs| ==> 60 <= |fs[i]| <= 1514
  }

  // ----- replies -----

  /** A pong has the length of its ping, padded to 60. */
  lemma PongLength(c: Config, d: seq<byte>, bytes: nat)
    requires |d| == BUFFER_MAX_SIZE && HEADER_LEN + PayloadLen(d) <= bytes <= BUFFER_MAX_SIZE
    ensures |Pong(c, d, bytes)| == if bytes < 60 then 60 else bytes
    ensures Pong(c, d, bytes)[0..6] == d[6..12] && Pong(c, d, bytes)[24..26] == [0, 2]
  {
    HeaderLayout(Src(d), c.mac, c.ethertype, SessionId(d), PayloadLen(d), V1_PONG);
  }

  lemma RepliesAre(c: Config, d: seq<byte>, bytes: nat, v: VideoState)
    requires GoodRequest(d, bytes) && Signature(d) == PACKET_SIGNATURE
    ensures PktType(d) == V1_PING ==> IsReply(c, Pong(c, d, bytes))
    ensures PktType(d) == V1_STATUS_REQ ==> IsReply(c, StatusReply(c, d, v))
  {
    if PktType(d) == V1_PING {
      PongLength(c, d, bytes);
      ReplyReachesItsRequester(c, d, V1_PONG, d[HEADER_LEN..HEADER_LEN + PayloadLen(d)], bytes, Src(d), SessionId(d));
    }
    StatusReplyBytes(c, d, v);
    StatusReplyReads(c, d, v);
  }

  /** What is sent in answer to one packet: at most one frame, and only a pong or a status response. */
  predicate SendsReplies(c: Config, was: seq<Frame>, sent: seq<Frame>) {
    was <= sent && forall i :: |was| <= i < |sent| ==> IsReply(c, sent[i])
  }

  lemma HandleSends(c: Config, st: State, attached: bool, now: dword, v: VideoState, p: Packet)
    requires GoodRequest(p.data, p.bytes)
    ensures SendsReplies(c, st.sent, Handle(c, st, attached, now, v, p).sent)
    ensures |Handle(c, st, attached, now, v, p).sent| <= |st.sent| + 1
    ensures !attached ==> Handle(c, st, attached, now, v, p).sent == st.sent
    ensures AllFit(st.sent) ==> AllFit(Handle(c, st, attached, now, v, p).sent)
  {
    if Signature(p.data) == PACKET_SIGNATURE {
      RepliesAre(c, p.data, p.bytes, v);
    }
  }

  /** The same of a whole call of `protocol_process`. */
  lemma {:induction false} HandleAllSends(c: Config, st: State, attached: bool, now: dword, v: VideoState,
                                          ps: seq<Packet>)
    requires AllGood(ps)
    ensures SendsReplies(c, st.sent, HandleAll(c, st, attached, now, v, ps).sent)
    ensures |HandleAll(c, st, attached, now, v, ps).sent| <= |st.sent| + |ps|
    ensures !attached ==> HandleAll(c, st, attached, now, v, ps).sent == st.sent
    ensures AllFit(st.sent) ==> AllFit(HandleAll(c, st, attached, now, v, ps).sent)
    decreases ps
  {
    if ps != [] {
      var mid := Handle(c, st, attached, now, v, ps[0]);
      HandleSends(c, st, attached, now, v, ps[0]);
      HandleAllSends(c, mid, attached, now, v, ps[1..]);
      SendsCompose(c, st.sent, mid.sent, HandleAll(c, mid, attached, now, v, ps[1..]).sent);
    }
  }

  lemma SendsCompose(c: Config, a: seq<Frame>, b: seq<Frame>, z: seq<Frame>)
    requires SendsReplies(c, a, b) && SendsReplies(c, b, z)
    ensures SendsReplies(c, a, z)
  {
  }

  /** What is not signed, or is of another type than 1, 3, 5 and 7, does nothing. */
  lemma OthersIgnored(c: Config, st: State, attached: bool, now: dword, v: VideoState, p: Packet)
    requires GoodRequest(p.data, p.bytes)
    requires var t := p.data[24..26];
             p.data[14..18] != [0x7b, 0x6e, 0x05, 0xb0] || (t != [0, 1] && t != [0, 3] && t != [0, 5] && t != [0, 7])
    ensures Handle(c, st, attached, now, v, p) == st
  {
    SignedIff(p.data);
    TypeIs(p.data, 1);
    TypeIs(p.data, 3);
    TypeIs(p.data, 5);
    TypeIs(p.data, 7);
  }

  predicate IsRequest(p: Packet, t: byte) {
    GoodRequest(p.data, p.bytes) && p.data[14..18] == [0x7b, 0x6e, 0x05, 0xb0] && p.data[24..26] == [0, t]
  }

  lemma RequestType(p: Packet, t: byte)
    requires IsRequest(p, t)
    ensures Signature(p.data) == PACKET_SIGNATURE && PktType(p.data) == t
  {
    SignedIff(p.data);
    TypeIs(p.data, t);
  }

  /** A packet of type 1 is sent back whence it came as one of type 2, with its session id, its length and its
      payload, and with zeros behind. */
  lemma PingAnswered(c: Config, st: State, now: dword, v: VideoState, p: Packet) returns (f: Frame)
    requires IsRequest(p, 1)
    ensures Handle(c, st, true, now, v, p) == st.(sent := st.sent + [f])
    ensures |f| == if p.bytes < 60 then 60 else p.bytes
    ensures f[0..6] == p.data[6..12] && f[6..12] == c.mac && f[14..24] == p.data[14..24] && f[24..26] == [0, 2]
    ensures var end := 26 + Net16(p.data, 22);
            end <= |f| && f[26..end] == p.data[26..end] && forall i :: end <= i < |f| ==> f[i] == 0
  {
    RequestType(p, 1);
    f := Pong(c, p.data, p.bytes);
    var d, n := p.data, PayloadLen(p.data);
    ReplyReachesItsRequester(c, d, V1_PONG, d[26..26 + n], p.bytes, Src(d), SessionId(d));
    HeaderSlices(f[..26], Src(d), c.mac, c.ethertype, SessionId(d), n, V1_PONG);
    FieldRewritten(d, 18);
    NetBytes(d, 22);
    Middle(f, d);
  }

  lemma Middle(f: Frame, d: seq<byte>)
    requires |f| >= 26 && |d| >= 26 && f[..26][14..18] == d[14..18] && f[..26][18..22] == d[18..22]
    requires f[..26][22..24] == d[22..24]
    ensures f[14..24] == d[14..24]
  {
    assert f[14..24] == f[14..18] + f[18..22] + f[22..24] && d[14..24] == d[14..18] + d[18..22] + d[22..24];
  }

  /** One of type 3 is answered with the six parts of the video state, in 60 bytes. */
  lemma StatusAnswered(c: Config, st: State, now: dword, v: VideoState, p: Packet) returns (f: Frame)
    requires IsRequest(p, 3)
    ensures Handle(c, st, true, now, v, p) == st.(sent := st.sent + [f])
    ensures |f| == 60 && f[0..6] == p.data[6..12] && f[24..26] == [0, 4]
    ensures f[26] == v.videoMode && f[27] == v.activePage && f[28] == v.textRows && f[29] == v.textCols
    ensures f[30] == v.cursorRow && f[31] == v.cursorCol && forall i :: 32 <= i < 60 ==> f[i] == 0
  {
    RequestType(p, 3);
    f := StatusReply(c, p.data, v);
    StatusReplyBytes(c, p.data, v);
  }

  /** One of type 5 starts a session for the sender's address and id, and nothing else changes. */
  lemma SessionStarted(c: Config, st: State, attached: bool, now: dword, v: VideoState, p: Packet)
    requires IsRequest(p, 5)
    ensures Handle(c, st, attached, now, v, p)
            == st.(table := StartTable(st.table, (p.data[6..12], Net32(p.data, 18)), now))
  {
    RequestType(p, 5);
  }

  /** One of type 7 injects its keys, four bytes each. */
  lemma KeysInjected(c: Config, st: State, attached: bool, now: dword, v: VideoState, p: Packet)
    returns (ks: seq<Keystroke>)
    requires IsRequest(p, 7)
    ensures Handle(c, st, attached, now, v, p) == st.(injected := st.injected + ks)
    ensures |ks| == Net16(p.data, 22) / 4
    ensures forall i {:trigger ks[i]} :: 0 <= i < |ks| ==>
      var at := 26 + 4 * i;
      ks[i] == Keystroke(p.data[at], p.data[at + 1], (p.data[at + 2] as int) + 256 * (p.data[at + 3] as int))
  {
    RequestType(p, 7);
    ks := Keys(p.data, PayloadLen(p.data) / 4);
  }

  // ----- screen frames -----

  /** A screen frame is as long as its headers and its data, padded to 60, and says where the data goes. */
  lemma VideoFrameLayout(f: Frame, c: Config, to: Key, v: VideoState, fb: Segment, k: Chunk)
    requires ChunkInScreen(v, k) && IsVideoFrame(f, c, to, v, fb, k)
    ensures var offset, count := ChunkOffset(v, k), ChunkCount(v, k);
            && |f| == (if 34 + count < 60 then 60 else 34 + count) && |f| <= 1514
            && f[0..6] == to.0 && f[24..26] == [0, 6] && f[26] == v.textRows && f[27] == v.textCols
            && f[30] == offset / 256 && f[31] == offset % 256 && f[32] == count / 256 && f[33] == count % 256
            && forall p :: offset <= p < offset + count ==> fb[p] == f[34 + p - offset]
  {
    var offset, count := ChunkOffset(v, k), ChunkCount(v, k);
    var h, g := f[..HEADER_LEN], f[HEADER_LEN..34];
    HeaderLayout(to.0, c.mac, c.ethertype, to.1, 8 + count, V1_VGA_TEXT);
    assert f[0..6] == h[0..6] && f[24..26] == h[24..26];
    assert f[26] == g[0] && f[27] == g[1] && f[30] == g[4] && f[31] == g[5] && f[32] == g[6] && f[33] == g[7];
    assert forall p :: offset <= p < offset + count ==> fb[p] == f[34..34 + count][p - offset];
  }

  /** Whatever one tick sends fits. */
  lemma TickFits(c: Config, attached: bool, now: dword, v: VideoState, fb: Segment,
                 t: Table, s: SweepState, t': Table, s': SweepState, fs: seq<Frame>)
    requires TickRelation(c, attached, now, v, fb, t, s, t', s', fs)
    ensures AllFit(fs)
    ensures forall i :: 0 <= i < |fs| ==> LengthIsCount(fs[i])
  {
    var o := SweepTick(s, ActiveCount(t') > 0, v, fb);
    if fs != [] {
      OnePerSession(fs, c, t', v, fb, o.chunk.value);
      forall i | 0 <= i < |fs| ensures 60 <= |fs[i]| <= 1514 && LengthIsCount(fs[i]) {
        VideoFrameLayout(fs[i], c, KeyOf(UsedSlots(t')[i]), v, fb, o.chunk.value);
        VideoFrameReads(fs[i], c, KeyOf(UsedSlots(t')[i]), v, fb, o.chunk.value, c.mac, 0);
      }
    }
  }

  /** A screen update is 34 bytes longer than the count in its bytes 32 and 33, or padded to 60. */
  predicate LengthIsCount(f: Frame) {
    |f| >= 34 && (f[24..26] == [0, 6] ==>
                    var n := 34 + 256 * (f[32] as int) + f[33]; |f| == if n < 60 then 60 else n)
  }

  // ----- over whole runs -----

  /** In every run of the whole system, every frame ever sent has between 60 and 1514 bytes, and every screen update
      has exactly as many as its count says, or 60. */
  lemma {:induction false} EveryFrameFits(u: M.Setup, w: M.World, es: seq<M.Event>)
    requires M.Init(w) && M.RunFrom(u, w, es)
    ensures AllFit(M.Exec(u, w, es).sent)
    ensures forall i :: 0 <= i < |M.Exec(u, w, es).sent| ==> LengthIsCount(M.Exec(u, w, es).sent[i])
  {
    if es != [] {
      var before, e := es[..|es| - 1], es[|es| - 1];
      EveryFrameFits(u, w, before);
      AddedFits(u, M.Exec(u, w, before), e);
    }
  }

  lemma AddedFits(u: M.Setup, x: M.World, e: M.Event)
    requires M.Enabled(u, x, e) && AllFit(x.sent)
    requires forall i :: 0 <= i < |x.sent| ==> LengthIsCount(x.sent[i])
    ensures AllFit(M.Step(u, x, e).sent)
    ensures forall i :: 0 <= i < |M.Step(u, x, e).sent| ==> LengthIsCount(M.Step(u, x, e).sent[i])
  {
    if e.Tick? {
      var t' := PruneTable(x.table, e.now);
      var s' := SweepTick(x.sweep, ActiveCount(t') > 0, x.video, x.screen).state;
      TickFits(u.server, true, e.now, x.video, x.screen, x.table, x.sweep, t', s', e.frames);
    } else if e.Answer? {
      TypeIs(e.reply, 6);
    }
  }
}
