/** The resident server: the request handlers of src/server/protocol.c, the timer tick of
    src/server/session.c, and `pktdrv_send`. */
module Server {
  import opened Wire
  import opened Lists
  import opened Sessions
  import opened Video
  import opened Sweep
  import opened PoolModel
  import opened PoolRuns
  import opened BufMgr

  datatype Config = Config(mac: Mac, ethertype: word)

  // ----- specification: requests -----

  datatype State = State(table: Table, injected: seq<Keystroke>, sent: seq<Frame>)

  /** What a received buffer has to satisfy for the handlers to stay inside the packet. */
  predicate GoodRequest(d: seq<byte>, bytes: nat) {
    && |d| == BUFFER_MAX_SIZE && bytes <= BUFFER_MAX_SIZE
    && (Signature(d) == PACKET_SIGNATURE && PktType(d) in {V1_PING, V1_INJECT_KEYSTROKE}
        ==> HEADER_LEN + PayloadLen(d) <= bytes)
  }

  function Reply(c: Config, d: seq<byte>, pktType: word, payload: seq<byte>, total: nat): Frame
    requires |d| >= HEADER_LEN && |payload| < 0x1_0000 && HEADER_LEN + |payload| <= SendLength(total)
  {
    Header(Src(d), c.mac, c.ethertype, SessionId(d), |payload|, pktType) + payload
    + Zeros(SendLength(total) - HEADER_LEN - |payload|)
  }

  function Pong(c: Config, d: seq<byte>, bytes: nat): Frame
    requires |d| == BUFFER_MAX_SIZE && HEADER_LEN + PayloadLen(d) <= bytes <= BUFFER_MAX_SIZE
  {
    Reply(c, d, V1_PONG, d[HEADER_LEN..HEADER_LEN + PayloadLen(d)], bytes)
  }

  function StatusBytes(v: VideoState): seq<byte> {
    [v.videoMode, v.activePage, v.textRows, v.textCols, v.cursorRow, v.cursorCol]
  }

  function StatusReply(c: Config, d: seq<byte>, v: VideoState): Frame
    requires |d| >= HEADER_LEN
  {
    Reply(c, d, V1_STATUS_RESP, StatusBytes(v), HEADER_LEN + 6)
  }

  /** What the handlers send: a pong or a status response, as long as Ethernet wants it. */
  predicate IsReply(c: Config, f: Frame) {
    60 <= |f| <= 1514 && Src(f) == c.mac && (PktType(f) == V1_PONG || PktType(f) == V1_STATUS_RESP)
  }

  /** The bytes of a status response. */
  lemma StatusReplyBytes(c: Config, d: seq<byte>, v: VideoState)
    requires |d| >= HEADER_LEN
    ensures var r := StatusReply(c, d, v);
            && |r| == 60 && r[0..6] == d[6..12] && r[22..24] == [0, 6] && r[24..26] == [0, 4]
            && r[26] == v.videoMode && r[27] == v.activePage && r[28] == v.textRows && r[29] == v.textCols
            && r[30] == v.cursorRow && r[31] == v.cursorCol && forall i :: 32 <= i < 60 ==> r[i] == 0
  {
    HeaderLayout(Src(d), c.mac, c.ethertype, SessionId(d), 6, V1_STATUS_RESP);
  }

  function KeyAt(d: seq<byte>, i: nat): Keystroke
    requires HEADER_LEN + 4 * i + 4 <= |d|
  {
    Keystroke(d[HEADER_LEN + 4 * i], d[HEADER_LEN + 4 * i + 1], Load16(d, HEADER_LEN + 4 * i + 2))
  }

  function Keys(d: seq<byte>, n: nat): seq<Keystroke>
    requires HEADER_LEN + 4 * n <= |d|
  {
    seq(n, i requires 0 <= i < n => KeyAt(d, i))
  }

  /** What one received packet does; `attached` is whether the packet driver gave us a handle. */
  function Handle(c: Config, st: State, attached: bool, now: dword, v: VideoState, p: Packet): State
    requires GoodRequest(p.data, p.bytes)
  {
    var d := p.data;
    if Signature(d) != PACKET_SIGNATURE then st
    else if PktType(d) == V1_PING then
      if attached then st.(sent := st.sent + [Pong(c, d, p.bytes)]) else st
    else if PktType(d) == V1_STATUS_REQ then
      if attached then st.(sent := st.sent + [StatusReply(c, d, v)]) else st
    else if PktType(d) == V1_SESSION_START then
      st.(table := StartTable(st.table, (Src(d), SessionId(d)), now))
    else if PktType(d) == V1_INJECT_KEYSTROKE then
      st.(injected := st.injected + Keys(d, PayloadLen(d) / 4))
    else st
  }

  predicate AllGood(ps: seq<Packet>) {
    forall i :: 0 <= i < |ps| ==> GoodRequest(ps[i].data, ps[i].bytes)
  }

  function HandleAll(c: Config, st: State, attached: bool, now: dword, v: VideoState, ps: seq<Packet>): State
    requires AllGood(ps)
    decreases ps
  {
    if ps == [] then st else HandleAll(c, Handle(c, st, attached, now, v, ps[0]), attached, now, v, ps[1..])
  }

  /** The first packets, each in turn, take one state of the trace to the next. */
  predicate HandledInTurn(c: Config, trace: seq<State>, attached: bool, now: dword, v: VideoState, ps: seq<Packet>)
    requires AllGood(ps)
  {
    1 <= |trace| <= |ps| + 1 && forall i :: 0 <= i < |trace| - 1 ==> HandledAt(c, trace, attached, now, v, ps, i)
  }

  predicate HandledAt(c: Config, trace: seq<State>, attached: bool, now: dword, v: VideoState, ps: seq<Packet>, i: nat)
    requires AllGood(ps) && i < |ps| && i + 1 < |trace|
  {
    trace[i + 1] == Handle(c, trace[i], attached, now, v, ps[i])
  }

  lemma {:induction false} TraceEnds(c: Config, trace: seq<State>, attached: bool, now: dword, v: VideoState,
                                     ps: seq<Packet>)
    requires AllGood(ps) && HandledInTurn(c, trace, attached, now, v, ps) && |trace| == |ps| + 1
    ensures trace[|ps|] == HandleAll(c, trace[0], attached, now, v, ps)
    decreases ps
  {
    if ps != [] {
      assert HandledAt(c, trace, attached, now, v, ps, 0);
      forall i | 0 <= i < |ps| - 1 ensures HandledAt(c, trace[1..], attached, now, v, ps[1..], i) {
        assert HandledAt(c, trace, attached, now, v, ps, i + 1);
      }
      TraceEnds(c, trace[1..], attached, now, v, ps[1..]);
    }
  }

  // ----- specification: the screen update -----

  function VideoHeader(v: VideoState, offset: word, count: word): (s: seq<byte>)
    ensures |s| == 8
  {
    [v.textRows, v.textCols, v.cursorRow, v.cursorCol] + Be16(offset) + Be16(count)
  }

  function ChunkOffset(v: VideoState, k: Chunk): nat {
    Times(k.first, Stride(v))
  }

  function ChunkCount(v: VideoState, k: Chunk): nat {
    Times(k.rows, Stride(v))
  }

  predicate ChunkInScreen(v: VideoState, k: Chunk) {
    && Admissible(v) && k.rows >= 1 && ChunkCount(v, k) <= VIDEO_ROOM
    && ChunkOffset(v, k) + ChunkCount(v, k) <= ScreenBytes(v)
  }

  /** The frame that shows rows k of the screen to one client. Bytes past the data, if the frame had to
      be padded, are whatever the send buffer held. */
  predicate IsVideoFrame(f: Frame, c: Config, to: Key, v: VideoState, fb: Segment, k: Chunk)
    requires ChunkInScreen(v, k)
  {
    var offset, count := ChunkOffset(v, k), ChunkCount(v, k);
    && |f| == SendLength(34 + count)
    && f[..HEADER_LEN] == Header(to.0, c.mac, c.ethertype, to.1, 8 + count, V1_VGA_TEXT)
    && f[HEADER_LEN..34] == VideoHeader(v, offset, count)
    && f[34..34 + count] == fb[offset..offset + count]
  }

  /** One frame for each session in use, in slot order. */
  predicate OneFrameEach(fs: seq<Frame>, c: Config, t: Table, v: VideoState, fb: Segment, k: Chunk)
    requires ChunkInScreen(v, k)
  {
    if t == [] then fs == []
    else
      var s := t[|t| - 1];
      if InUse(s) then
        fs != [] && IsVideoFrame(fs[|fs| - 1], c, KeyOf(s), v, fb, k)
        && OneFrameEach(fs[..|fs| - 1], c, t[..|t| - 1], v, fb, k)
      else OneFrameEach(fs, c, t[..|t| - 1], v, fb, k)
  }

  /** The frame from byte n on. */
  function Tail(f: Frame, n: nat): Frame {
    if n <= |f| then f[n..] else []
  }

  /** All frames are padded alike. */
  predicate SamePadding(fs: seq<Frame>, n: nat) {
    forall i, j :: 0 <= i < |fs| && 0 <= j < |fs| ==> Tail(fs[i], n) == Tail(fs[j], n)
  }

  /** What one timer tick does, as a relation: the table loses its stale sessions, the sweep moves on,
      and if it has rows to show they go to every session. */
  predicate TickRelation(c: Config, attached: bool, now: dword, v: VideoState, fb: Segment,
                         t: Table, s: SweepState, t': Table, s': SweepState, fs: seq<Frame>)
  {
    && Admissible(v)
    && t' == PruneTable(t, now)
    && var o := SweepTick(s, ActiveCount(t') > 0, v, fb);
    && s' == o.state
    && (o.chunk.None? || !attached ==> fs == [])
    && (o.chunk.Some? && attached ==>
         ChunkInScreen(v, o.chunk.value) && OneFrameEach(fs, c, t', v, fb, o.chunk.value)
         && SamePadding(fs, 34 + ChunkCount(v, o.chunk.value)))
  }

  // ----- the server in memory -----

  class Server {
    const config: Config
    const slots: array<Slot>
    const sendBuffer: array<byte>
    var pktdrvHandle: word
    var nextRow: word
    var chksum: word
    var injected: seq<Keystroke>    // keystrokes given to the BIOS
    var sent: seq<Frame>            // frames given to the packet driver

    ghost predicate Valid()
      reads this
    {
      slots.Length == MAX_SESSIONS && sendBuffer.Length == ETH_FRAME_LEN
    }

    ghost function View(): State
      reads this, slots
    {
      State(slots[..], injected, sent)
    }

    constructor (config: Config, handle: word)
      ensures Valid() && fresh(slots) && fresh(sendBuffer)
      ensures this.config == config && pktdrvHandle == handle && nextRow == chksum == 0
      ensures View() == State([FREE_SLOT, FREE_SLOT, FREE_SLOT, FREE_SLOT], [], [])
    {
      this.config, pktdrvHandle, nextRow, chksum, injected, sent := config, handle, 0, 0, [], [];
      slots := new Slot[MAX_SESSIONS](_ => FREE_SLOT);
      sendBuffer := new byte[ETH_FRAME_LEN](_ => 0);
    }

    /** `pktdrv_send` */
    method PktdrvSend(length: nat)
      requires Valid() && length <= ETH_FRAME_LEN
      modifies this`sent
      ensures sent == if pktdrvHandle == 0 then old(sent)
                      else old(sent) + [sendBuffer[..if length < 60 then 60 else length]]
    {
      if pktdrvHandle != 0 {
        sent := sent + [sendBuffer[..SendLength(length)]];
      }
    }

    /** `prep_for_reply` */
    method PrepForReply(d: seq<byte>)
      requires Valid() && |d| >= HEADER_LEN
      modifies sendBuffer
      ensures sendBuffer[0..6] == Src(d) && sendBuffer[6..12] == config.mac
      ensures sendBuffer[12..14] == Be16(config.ethertype) && sendBuffer[14..18] == Be32(PACKET_SIGNATURE)
      ensures sendBuffer[18..22] == d[18..22]
      ensures forall i :: HEADER_LEN <= i < ETH_FRAME_LEN ==> sendBuffer[i] == 0
    {
      Memcpy(sendBuffer, 0, Src(d));
      Memcpy(sendBuffer, 6, config.mac);
      Memcpy(sendBuffer, 12, Stored16(config.ethertype));
      Memcpy(sendBuffer, 18, d[18..22]);
      Memzero(sendBuffer, HEADER_LEN, MAX_PAYLOAD_LENGTH);
      Memcpy(sendBuffer, 14, Stored32(PACKET_SIGNATURE));
    }

    /** The common end of the two replies: type, length and payload go in, and the frame goes out. */
    method FinishReply(d: seq<byte>, pktType: word, payload: seq<byte>, total: nat)
      requires Valid() && |d| >= HEADER_LEN
      requires HEADER_LEN + |payload| <= SendLength(total) && total <= ETH_FRAME_LEN && |payload| <= MAX_PAYLOAD_LENGTH
      modifies this`sent, sendBuffer
      ensures sent == if pktdrvHandle != 0 then old(sent) + [Reply(config, d, pktType, payload, total)] else old(sent)
    {
      PrepForReply(d);
      IdBytes(d);
      ghost var was := sendBuffer[..];
      WriteReply(pktType, payload);
      KeptAddresses(was, sendBuffer[..]);
      ReplyInBuffer(sendBuffer[..], config, d, pktType, payload, total);
      PktdrvSend(total);
    }

    method WriteReply(pktType: word, payload: seq<byte>)
      requires Valid() && |payload| <= MAX_PAYLOAD_LENGTH
      modifies sendBuffer
      ensures sendBuffer[..22] == old(sendBuffer[..22])
      ensures sendBuffer[22..24] == Be16(|payload|) && sendBuffer[24..26] == Be16(pktType)
      ensures sendBuffer[HEADER_LEN..HEADER_LEN + |payload|] == payload
      ensures forall i :: HEADER_LEN + |payload| <= i < ETH_FRAME_LEN ==> sendBuffer[i] == old(sendBuffer[i])
    {
      Memcpy(sendBuffer, 24, Stored16(pktType));
      Memcpy(sendBuffer, 22, Stored16(|payload|));
      Memcpy(sendBuffer, HEADER_LEN, payload);
    }

    /** `handle_ping` */
    method HandlePing(d: seq<byte>, bytes: nat)
      requires Valid() && |d| == BUFFER_MAX_SIZE && HEADER_LEN + PayloadLen(d) <= bytes <= BUFFER_MAX_SIZE
      modifies this`sent, sendBuffer
      ensures sent == if pktdrvHandle != 0 then old(sent) + [Pong(config, d, bytes)] else old(sent)
      ensures |Pong(config, d, bytes)| == if bytes < 60 then 60 else bytes
    {
      var payloadLen := if MAX_PAYLOAD_LENGTH < PayloadLen(d) then MAX_PAYLOAD_LENGTH else PayloadLen(d);
      FinishReply(d, V1_PONG, d[HEADER_LEN..HEADER_LEN + payloadLen], bytes);
    }

    /** `handle_status_req` */
    method HandleStatusReq(d: seq<byte>, v: VideoState)
      requires Valid() && |d| >= HEADER_LEN
      modifies this`sent, sendBuffer
      ensures sent == if pktdrvHandle != 0 then old(sent) + [StatusReply(config, d, v)] else old(sent)
      ensures var r := StatusReply(config, d, v);
              && |r| == 60 && r[26] == v.videoMode && r[27] == v.activePage && r[28] == v.textRows
              && r[29] == v.textCols && r[30] == v.cursorRow && r[31] == v.cursorCol
    {
      StatusReplyBytes(config, d, v);
      FinishReply(d, V1_STATUS_RESP, StatusBytes(v), HEADER_LEN + 6);
    }

    /** `handle_inject_keystroke` */
    method HandleInjectKeystroke(d: seq<byte>)
      requires Valid() && |d| == BUFFER_MAX_SIZE && HEADER_LEN + PayloadLen(d) <= |d|
      modifies this`injected
      ensures injected == old(injected) + Keys(d, PayloadLen(d) / 4)
      ensures |injected| == |old(injected)| + PayloadLen(d) / 4
      ensures forall i :: 0 <= i < PayloadLen(d) / 4 ==>
        injected[|old(injected)| + i] ==
        Keystroke(d[26 + 4 * i], d[27 + 4 * i], (d[28 + 4 * i] as int) + 256 * (d[29 + 4 * i] as int))
    {
      var n := PayloadLen(d) / 4;
      var inKeys, keyCount := 0, n;
      while keyCount > 0
        invariant 0 <= inKeys <= n && keyCount == n - inKeys
        invariant injected == old(injected) + Keys(d, inKeys)
      {
        injected := injected + [KeyAt(d, inKeys)];
        assert Keys(d, inKeys + 1) == Keys(d, inKeys) + [KeyAt(d, inKeys)];
        inKeys, keyCount := inKeys + 1, keyCount - 1;
      }
    }

    /** The switch of `protocol_process`. */
    method Dispatch(d: seq<byte>, bytes: nat, now: dword, v: VideoState)
      requires Valid() && GoodRequest(d, bytes)
      modifies this`sent, this`injected, slots, sendBuffer
      ensures View() == Handle(config, old(View()), pktdrvHandle != 0, now, v, Packet(bytes, d))
    {
      if PACKET_SIGNATURE == Signature(d) {
        var t := PktType(d);
        if t == V1_PING {
          HandlePing(d, bytes);
        } else if t == V1_STATUS_REQ {
          HandleStatusReq(d, v);
        } else if t == V1_SESSION_START {
          var _ := Start(slots, Src(d), SessionId(d), now);
        } else if t == V1_INJECT_KEYSTROKE {
          HandleInjectKeystroke(d);
        }
      }
    }

    /** The body of the loop in `protocol_process`; `st` and `packet` name what it starts from. */
    method ServeOne(pool: BufferManager, buffer: Buffer, now: dword, v: VideoState,
                    ghost st: State, ghost attached: bool, ghost packet: Packet)
      requires Valid() && pool.Valid() && {this, slots, sendBuffer} !! pool.Objects
      requires HasState(pool.Model, buffer, User) && packet == PacketIn(pool.Model, buffer)
      requires st == View() && (attached <==> pktdrvHandle != 0) && GoodRequest(packet.data, packet.bytes)
      modifies this`sent, this`injected, slots, sendBuffer, pool.Objects
      ensures pool.Valid() && pool.Model == Link(Clear(old(pool.Model), buffer), buffer)
      ensures View() == Handle(config, st, attached, now, v, packet)
    {
      assert pool.Mirrors(buffer);
      Dispatch(buffer.data[..], buffer.bytes, now, v);
      pool.BufferRelease(buffer);
    }

    /** That, and the next buffer. */
    method ServeAndTake(pool: BufferManager, buffer: Buffer, now: dword, v: VideoState,
                        ghost st: State, ghost attached: bool, ghost packet: Packet)
      returns (next: Buffer?, ghost after: Pool<Buffer>)
      requires Valid() && pool.Valid() && {this, slots, sendBuffer} !! pool.Objects
      requires HasState(pool.Model, buffer, User) && packet == PacketIn(pool.Model, buffer)
      requires st == View() && (attached <==> pktdrvHandle != 0) && GoodRequest(packet.data, packet.bytes)
      modifies this`sent, this`injected, slots, sendBuffer, pool.Objects
      ensures after == Link(Clear(old(pool.Model), buffer), buffer)
      ensures after.ready != [] ==> after.ready[0] in after.node
      ensures pool.Valid() && pool.Model == Take(after) && next == if after.ready == [] then null else after.ready[0]
      ensures View() == Handle(config, st, attached, now, v, packet)
    {
      ServeOne(pool, buffer, now, v, st, attached, packet);
      after := pool.Model;
      next := pool.BufferGetReady();
    }

    /** `protocol_process` with no arrivals while it runs: the ready packets are handled from the front
        of the list to its back, each buffer goes back to the free list, and the loop ends. */
    method ProtocolProcess(pool: BufferManager, now: dword, v: VideoState)
      requires Valid() && pool.Valid() && {this, slots, sendBuffer} !! pool.Objects
      requires AllGood(ReadyPackets(pool.Model))
      modifies this`sent, this`injected, slots, sendBuffer, pool.Objects
      ensures pool.Valid() && pool.Model == Drained(old(pool.Model))
      ensures View() == HandleAll(config, old(View()), pktdrvHandle != 0, now, v, ReadyPackets(old(pool.Model)))
    {
      ghost var todo, attached, st := pool.Model, pktdrvHandle != 0, View();
      DrainBegins(config, attached, now, v, st, todo);
      var buffer := pool.BufferGetReady();
      ServeAll(pool, buffer, now, v, st, attached, todo, HandleAll(config, st, attached, now, v, ReadyPackets(todo)),
               Drained(todo));
    }

    /** Its loop. */
    method ServeAll(pool: BufferManager, first: Buffer?, now: dword, v: VideoState, ghost st0: State,
                    ghost attached: bool, ghost todo0: Pool<Buffer>, ghost goal: State, ghost end: Pool<Buffer>)
      requires Valid() && pool.Valid() && {this, slots, sendBuffer} !! pool.Objects
      requires LeadsTo(config, attached, now, v, st0, todo0, goal, end) && st0 == View()
      requires (attached <==> pktdrvHandle != 0) && pool.Model == Take(todo0)
      requires first == if todo0.ready == [] then null else todo0.ready[0]
      modifies this`sent, this`injected, slots, sendBuffer, pool.Objects
      ensures pool.Valid() && pool.Model == end && View() == goal
    {
      var buffer := first;
      ghost var todo, st := todo0, st0;
      while buffer != null
        invariant LeadsTo(config, attached, now, v, st, todo, goal, end) && st == View()
        invariant pool.Valid() && pool.Model == Take(todo)
        invariant buffer == if todo.ready == [] then null else todo.ready[0]
        decreases |todo.ready|
      {
        ghost var packet := FrontPacket(config, attached, now, v, st, todo, goal, end);
        buffer, todo := ServeAndTake(pool, buffer, now, v, st, attached, packet);
        st := View();
      }
    }

    /** Addresses the frame being sent and hands it to the driver. */
    method SendTo(s: Slot, payloadLen: word, ghost v: VideoState, ghost fb: Segment, ghost k: Chunk)
      requires Valid() && ChunkInScreen(v, k) && payloadLen == 8 + ChunkCount(v, k)
      requires Prepared(sendBuffer[..], config, v, fb, k)
      modifies this`sent, sendBuffer
      ensures Prepared(sendBuffer[..], config, v, fb, k) && sendBuffer[22..] == old(sendBuffer[22..])
      ensures pktdrvHandle == 0 ==> sent == old(sent)
      ensures pktdrvHandle != 0 ==> |sent| == |old(sent)| + 1 && sent[..|old(sent)|] == old(sent)
                                    && IsVideoFrame(sent[|old(sent)|], config, KeyOf(s), v, fb, k)
                                    && Tail(sent[|old(sent)|], 22) == sendBuffer[22..SendLength(34 + ChunkCount(v, k))]
    {
      ghost var was := sendBuffer[..];
      Memcpy(sendBuffer, 0, s.key.0);
      Memcpy(sendBuffer, 18, Stored32(s.key.1));
      AddressedFrame(was, sendBuffer[..], config, KeyOf(s), v, fb, k);
      PktdrvSend(HEADER_LEN + payloadLen);
    }

    /** Everything in the frame but the receiver: written once, before the loop over the sessions. */
    method PrepareFrame(video: VideoState, fb: Segment, ghost k: Chunk, offset: word, wordCount: word, payloadLen: word)
      requires Valid() && ChunkInScreen(video, k)
      requires offset == ChunkOffset(video, k) && 2 * wordCount == ChunkCount(video, k)
      requires payloadLen == 8 + 2 * wordCount
      modifies sendBuffer
      ensures Prepared(sendBuffer[..], config, video, fb, k)
    {
      PrepareHeader(payloadLen);
      ghost var was := sendBuffer[..];
      PrepareVideo(video, fb, offset, wordCount);
      KeptHeader(was, sendBuffer[..]);
    }

    method PrepareHeader(payloadLen: word)
      requires Valid()
      modifies sendBuffer
      ensures sendBuffer[6..12] == config.mac && sendBuffer[12..14] == Be16(config.ethertype)
      ensures sendBuffer[14..18] == Be32(PACKET_SIGNATURE)
      ensures sendBuffer[22..24] == Be16(payloadLen) && sendBuffer[24..26] == Be16(V1_VGA_TEXT)
    {
      Memcpy(sendBuffer, 6, config.mac);
      Memcpy(sendBuffer, 12, Stored16(config.ethertype));
      Memcpy(sendBuffer, 14, Stored32(PACKET_SIGNATURE));
      Memcpy(sendBuffer, 22, Stored16(payloadLen));
      Memcpy(sendBuffer, 24, Stored16(V1_VGA_TEXT));
    }

    method PrepareVideo(video: VideoState, fb: Segment, offset: word, wordCount: word)
      requires Valid() && offset + 2 * wordCount <= |fb| && 34 + 2 * wordCount <= ETH_FRAME_LEN
      modifies sendBuffer
      ensures sendBuffer[..HEADER_LEN] == old(sendBuffer[..HEADER_LEN])
      ensures sendBuffer[HEADER_LEN..34] == VideoHeader(video, offset, 2 * wordCount)
      ensures sendBuffer[34..34 + 2 * wordCount] == fb[offset..offset + 2 * wordCount]
    {
      Memcpy(sendBuffer, 26, [video.textRows, video.textCols, video.cursorRow, video.cursorCol]);
      Memcpy(sendBuffer, 30, Stored16(offset));
      Memcpy(sendBuffer, 32, Stored16(2 * wordCount));
      assert sendBuffer[26..34] == sendBuffer[26..30] + sendBuffer[30..32] + sendBuffer[32..34];
      CopyFromFrameBuffer(sendBuffer, 34, fb, offset, wordCount);
    }

    /** The checksum test and the choice of rows; `rows` is zero when nothing is to be sent. */
    method ChooseRows(video: VideoState, fb: Segment) returns (rows: nat)
      requires Admissible(video)
      modifies this`nextRow, this`chksum
      ensures var o := SweepTick(old(SweepState(nextRow, chksum)), true, video, fb);
              && SweepState(nextRow, chksum) == o.state
              && (o.chunk.None? <==> rows == 0)
              && (o.chunk.Some? ==> rows <= nextRow && o.chunk.value == Chunk(nextRow - rows, rows))
    {
      StrideBounds(video);
      if nextRow >= video.textRows {
        nextRow := 0;
      }
      if nextRow == 0 {
        TimesIs(video.textRows, Stride(video));
        var sum := VideoChecksum(fb, 0, Word(video.textRows * (2 * video.textCols)));
        if sum == chksum {
          return 0;
        }
        chksum := sum;
      }
      QuotientIs(VIDEO_ROOM, Stride(video));
      rows := VIDEO_ROOM / (2 * video.textCols);
      if rows + nextRow > video.textRows {
        rows := video.textRows - nextRow;
      }
      nextRow := nextRow + rows;
    }

    /** One frame to each session in use. */
    method FanOut(payloadLen: word, ghost v: VideoState, ghost fb: Segment, ghost k: Chunk)
      returns (ghost fs: seq<Frame>)
      requires Valid() && ChunkInScreen(v, k) && payloadLen == 8 + ChunkCount(v, k)
      requires Prepared(sendBuffer[..], config, v, fb, k)
      modifies this`sent, sendBuffer
      ensures sent == old(sent) + fs
      ensures if pktdrvHandle == 0 then fs == [] else OneFrameEach(fs, config, slots[..], v, fb, k)
      ensures SamePadding(fs, 34 + ChunkCount(v, k))
    {
      fs := [];
      ghost var rest := sendBuffer[22..];
      for i := 0 to slots.Length
        invariant sent == old(sent) + fs
        invariant Prepared(sendBuffer[..], config, v, fb, k)
        invariant if pktdrvHandle == 0 then fs == [] else OneFrameEach(fs, config, slots[..i], v, fb, k)
        invariant sendBuffer[22..] == rest && PaddedFrom(fs, rest, v, k)
      {
        assert slots[..i + 1][..i] == slots[..i];
        if InUse(slots[i]) {
          SendTo(slots[i], payloadLen, v, fb, k);
          if pktdrvHandle != 0 {
            fs := fs + [sent[|sent| - 1]];
            assert fs[..|fs| - 1] == sent[|old(sent)|..|sent| - 1];
            assert sendBuffer[22..][..SendLength(34 + ChunkCount(v, k)) - 22] ==
                   sendBuffer[22..SendLength(34 + ChunkCount(v, k))];
          }
        }
      }
      assert slots[..slots.Length] == slots[..];
      PaddedAlike(fs, rest, v, k);
    }

    /** `session_mgr_update_all` */
    method UpdateAll(now: dword, video: VideoState, fb: Segment) returns (ghost fs: seq<Frame>)
      requires Valid() && Admissible(video)
      modifies this`nextRow, this`chksum, this`sent, slots, sendBuffer
      ensures sent == old(sent) + fs
      ensures (forall i :: 0 <= i < MAX_SESSIONS ==> !InUse(slots[i])) ==>
                nextRow == 0 && chksum == old(chksum) && sent == old(sent)
      ensures TickRelation(config, pktdrvHandle != 0, now, video, fb, old(slots[..]), old(SweepState(nextRow, chksum)),
                           slots[..], SweepState(nextRow, chksum), fs)
    {
      fs := [];
      var active := Prune(slots, now);
      if active == 0 {
        nextRow := 0;
        return;
      }
      fs := SendUpdate(video, fb);
    }

    /** What it does if there are sessions: rows are chosen and, if there are any, sent. */
    method SendUpdate(video: VideoState, fb: Segment) returns (ghost fs: seq<Frame>)
      requires Valid() && Admissible(video)
      modifies this`nextRow, this`chksum, this`sent, sendBuffer
      ensures sent == old(sent) + fs
      ensures var o := SweepTick(old(SweepState(nextRow, chksum)), true, video, fb);
              && SweepState(nextRow, chksum) == o.state
              && (o.chunk.None? || pktdrvHandle == 0 ==> fs == [])
              && (o.chunk.Some? && pktdrvHandle != 0 ==>
                   ChunkInScreen(video, o.chunk.value) && OneFrameEach(fs, config, slots[..], video, fb, o.chunk.value)
                   && SamePadding(fs, 34 + ChunkCount(video, o.chunk.value)))
    {
      fs := [];
      ghost var s := SweepState(nextRow, chksum);
      var rows := ChooseRows(video, fb);
      if rows == 0 {
        return;
      }
      ChunkInScreenSent(s, video, fb);
      fs := SendRows(video, fb, nextRow - rows, rows);
    }

    /** The frame is prepared and goes to everyone. */
    method SendRows(video: VideoState, fb: Segment, first: nat, rows: nat) returns (ghost fs: seq<Frame>)
      requires Valid() && ChunkInScreen(video, Chunk(first, rows))
      modifies this`sent, sendBuffer
      ensures sent == old(sent) + fs
      ensures if pktdrvHandle == 0 then fs == [] else OneFrameEach(fs, config, slots[..], video, fb, Chunk(first, rows))
      ensures SamePadding(fs, 34 + ChunkCount(video, Chunk(first, rows)))
    {
      ghost var k := Chunk(first, rows);
      NoTruncation(video, first, rows);
      var offset: word := Word(first * (2 * video.textCols));
      var wordCount: word := Word(rows * video.textCols);
      var payloadLen: word := Word(8 + 2 * wordCount);
      PrepareFrame(video, fb, k, offset, wordCount, payloadLen);
      fs := FanOut(payloadLen, video, fb, k);
    }
  }

  // ----- lemmas the methods rest on -----

  lemma IdBytes(d: seq<byte>)
    requires |d| >= HEADER_LEN
    ensures Be32(SessionId(d)) == d[18..22]
  {
    FieldRewritten(d, 18);
  }

  lemma ReplyInBuffer(b: seq<byte>, c: Config, d: seq<byte>, pktType: word, payload: seq<byte>, total: nat)
    requires |b| == ETH_FRAME_LEN && |d| >= HEADER_LEN
    requires HEADER_LEN + |payload| <= SendLength(total) && total <= ETH_FRAME_LEN && |payload| <= MAX_PAYLOAD_LENGTH
    requires b[0..6] == Src(d) && b[6..12] == c.mac && b[12..14] == Be16(c.ethertype)
    requires b[14..18] == Be32(PACKET_SIGNATURE) && b[18..22] == Be32(SessionId(d))
    requires b[22..24] == Be16(|payload|) && b[24..26] == Be16(pktType)
    requires b[HEADER_LEN..HEADER_LEN + |payload|] == payload
    requires forall i :: HEADER_LEN + |payload| <= i < |b| ==> b[i] == 0
    ensures b[..SendLength(total)] == Reply(c, d, pktType, payload, total)
  {
    HeaderFromFields(b, Src(d), c.mac, c.ethertype, SessionId(d), |payload|, pktType);
    ThreeParts(b, HEADER_LEN + |payload|, SendLength(total));
  }

  lemma KeptAddresses(was: seq<byte>, b: seq<byte>)
    requires |was| >= 22 && |b| >= 22 && b[..22] == was[..22]
    ensures b[0..6] == was[0..6] && b[6..12] == was[6..12] && b[12..14] == was[12..14]
    ensures b[14..18] == was[14..18] && b[18..22] == was[18..22]
  {
    assert b[0..22] == was[0..22];
    SameSlice(b, was, 0, 22, 0, 6);
    SameSlice(b, was, 0, 22, 6, 12);
    SameSlice(b, was, 0, 22, 12, 14);
    SameSlice(b, was, 0, 22, 14, 18);
    SameSlice(b, was, 0, 22, 18, 22);
  }

  lemma ThreeParts(b: seq<byte>, m: nat, n: nat)
    requires HEADER_LEN <= m <= n <= |b| && forall i :: m <= i < |b| ==> b[i] == 0
    ensures b[..n] == b[..HEADER_LEN] + b[HEADER_LEN..m] + Zeros(n - m)
  {
  }

  lemma ChunkInScreenSent(s: SweepState, v: VideoState, fb: Segment)
    requires Admissible(v) && SweepTick(s, true, v, fb).chunk.Some?
    ensures ChunkInScreen(v, SweepTick(s, true, v, fb).chunk.value)
  {
    ChunkFits(s, true, v, fb);
  }

  /** Nothing is lost to the 16-bit arithmetic that describes a chunk. */
  lemma NoTruncation(v: VideoState, first: nat, rows: nat)
    requires ChunkInScreen(v, Chunk(first, rows))
    ensures Word(first * (2 * v.textCols)) == ChunkOffset(v, Chunk(first, rows))
    ensures 2 * Word(rows * v.textCols) == ChunkCount(v, Chunk(first, rows))
    ensures Word(8 + ChunkCount(v, Chunk(first, rows))) == 8 + ChunkCount(v, Chunk(first, rows))
  {
    TimesIs(first, Stride(v));
    TimesIs(rows, Stride(v));
    assert rows * (2 * v.textCols) == 2 * (rows * v.textCols);
  }

  /** The send buffer is ready but for the receiver's address and session id. */
  predicate Prepared(b: seq<byte>, c: Config, v: VideoState, fb: Segment, k: Chunk)
    requires ChunkInScreen(v, k)
  {
    var offset, count := ChunkOffset(v, k), ChunkCount(v, k);
    && |b| == ETH_FRAME_LEN
    && b[6..12] == c.mac && b[12..14] == Be16(c.ethertype) && b[14..18] == Be32(PACKET_SIGNATURE)
    && b[22..24] == Be16(8 + count) && b[24..26] == Be16(V1_VGA_TEXT)
    && b[HEADER_LEN..34] == VideoHeader(v, offset, count)
    && b[34..34 + count] == fb[offset..offset + count]
  }

  /** The bytes that follow the addresses of each frame are those of the send buffer. */
  predicate PaddedFrom(fs: seq<Frame>, rest: seq<byte>, v: VideoState, k: Chunk)
    requires ChunkInScreen(v, k)
  {
    |rest| == ETH_FRAME_LEN - 22
    && forall i :: 0 <= i < |fs| ==> Tail(fs[i], 22) == rest[..SendLength(34 + ChunkCount(v, k)) - 22]
  }

  lemma PaddedAlike(fs: seq<Frame>, rest: seq<byte>, v: VideoState, k: Chunk)
    requires ChunkInScreen(v, k) && PaddedFrom(fs, rest, v, k)
    ensures SamePadding(fs, 34 + ChunkCount(v, k))
  {
    forall i, j | 0 <= i < |fs| && 0 <= j < |fs|
      ensures Tail(fs[i], 34 + ChunkCount(v, k)) == Tail(fs[j], 34 + ChunkCount(v, k))
    {
      TailOfTail(fs[i], 22, 12 + ChunkCount(v, k));
      TailOfTail(fs[j], 22, 12 + ChunkCount(v, k));
      assert Tail(fs[i], 22) == Tail(fs[j], 22);
    }
  }

  lemma TailOfTail(f: Frame, m: nat, n: nat)
    ensures Tail(f, m + n) == Tail(Tail(f, m), n)
  {
  }

  lemma KeptHeader(was: seq<byte>, b: seq<byte>)
    requires |was| >= HEADER_LEN && |b| >= HEADER_LEN && b[..HEADER_LEN] == was[..HEADER_LEN]
    ensures b[6..12] == was[6..12] && b[12..14] == was[12..14] && b[14..18] == was[14..18]
    ensures b[22..24] == was[22..24] && b[24..26] == was[24..26]
  {
    assert b[0..HEADER_LEN] == was[0..HEADER_LEN];
    SameSlice(b, was, 0, HEADER_LEN, 6, 12);
    SameSlice(b, was, 0, HEADER_LEN, 12, 14);
    SameSlice(b, was, 0, HEADER_LEN, 14, 18);
    SameSlice(b, was, 0, HEADER_LEN, 22, 24);
    SameSlice(b, was, 0, HEADER_LEN, 24, 26);
  }

  lemma AddressedFrame(was: seq<byte>, b: seq<byte>, c: Config, to: Key, v: VideoState, fb: Segment, k: Chunk)
    requires ChunkInScreen(v, k) && Prepared(was, c, v, fb, k) && |b| == |was|
    requires b[0..6] == to.0 && b[18..22] == Be32(to.1)
    requires b[6..18] == was[6..18] && b[22..] == was[22..]
    ensures Prepared(b, c, v, fb, k)
    ensures IsVideoFrame(b[..SendLength(34 + ChunkCount(v, k))], c, to, v, fb, k)
  {
    var count := ChunkCount(v, k);
    var f := b[..SendLength(34 + count)];
    SameSlice(b, was, 6, 18, 6, 12);
    SameSlice(b, was, 6, 18, 12, 14);
    SameSlice(b, was, 6, 18, 14, 18);
    SameSlice(b, was, 22, ETH_FRAME_LEN, 22, 24);
    SameSlice(b, was, 22, ETH_FRAME_LEN, 24, 26);
    SameSlice(b, was, 22, ETH_FRAME_LEN, 26, 34);
    SameSlice(b, was, 22, ETH_FRAME_LEN, 34, 34 + count);
    HeaderFromFields(b, to.0, c.mac, c.ethertype, to.1, 8 + count, V1_VGA_TEXT);
    assert f[0..|f|] == b[0..|f|];
    SameSlice(f, b, 0, |f|, 0, HEADER_LEN);
    SameSlice(f, b, 0, |f|, HEADER_LEN, 34);
    SameSlice(f, b, 0, |f|, 34, 34 + count);
  }

  // ----- draining the pool -----

  function ReadyPackets<T>(p: Pool<T>): (ps: seq<Packet>)
    requires Listed(p, p.ready, Ready)
    ensures |ps| == |p.ready|
  {
    seq(|p.ready|, i requires 0 <= i < |p.ready| => assert HasState(p, p.ready[i], Ready); PacketIn(p, p.ready[i]))
  }

  /** The pool after every ready buffer, front first, was taken and released. */
  function Drained<T>(p: Pool<T>): Pool<T>
    requires Listed(p, p.ready, Ready)
    decreases |p.ready|
  {
    if p.ready == [] then p
    else
      var b := p.ready[0];
      assert HasState(p, b, Ready);
      var p1 := Take(p);
      TurnKeepsListed(p);
      Drained(Link(Clear(p1, b), b))
  }

  lemma TurnKeepsListed<T>(p: Pool<T>)
    requires Listed(p, p.ready, Ready) && p.ready != []
    ensures var b := p.ready[0];
            && HasState(p, b, Ready) && HasState(Take(p), b, User)
            && var q := Link(Clear(Take(p), b), b);
               q.ready == p.ready[1..] && Listed(q, q.ready, Ready)
  {
    var b := p.ready[0];
    assert HasState(p, b, Ready);
    var q := Link(Clear(Take(p), b), b);
    forall i | 0 <= i < |q.ready| ensures HasState(q, q.ready[i], Ready) {
      assert HasState(p, p.ready[i + 1], Ready);
    }
  }

  lemma TurnKeepsInv<T>(p: Pool<T>)
    requires Inv(p) && p.ready != []
    ensures var b := p.ready[0];
            && HasState(p, b, Ready) && HasState(Take(p), b, User)
            && var q := Link(Clear(Take(p), b), b);
               Inv(q) && q.free == [b] + p.free && q.ready == p.ready[1..] && q.node.Keys == p.node.Keys
  {
    TurnKeepsListed(p);
    var b := p.ready[0];
    TakeKeepsInv(p);
    ClearKeepsInv(Take(p), b);
    LinkKeepsInv(Clear(Take(p), b), b);
  }

  /** A drain leaves nothing waiting and every buffer it found waiting free, the last taken in front; by the
      invariant, which it keeps, a free buffer is zero. */
  lemma {:induction false} DrainFreesAll<T>(p: Pool<T>)
    requires Inv(p)
    ensures Inv(Drained(p)) && Drained(p).ready == [] && Drained(p).free == Reverse(p.ready) + p.free
    ensures Drained(p).node.Keys == p.node.Keys
    decreases |p.ready|
  {
    if p.ready != [] {
      var q := OneDrained(p);
      DrainFreesAll(q);
      FrontMoved(p.ready, p.free);
    }
  }

  lemma OneDrained<T>(p: Pool<T>) returns (q: Pool<T>)
    requires Inv(p) && p.ready != []
    ensures Inv(q) && q.free == [p.ready[0]] + p.free && q.ready == p.ready[1..] && q.node.Keys == p.node.Keys
    ensures Drained(p) == Drained(q)
  {
    TurnKeepsInv(p);
    q := Link(Clear(Take(p), p.ready[0]), p.ready[0]);
  }

  lemma FrontMoved<T>(a: seq<T>, b: seq<T>)
    requires a != []
    ensures Reverse(a[1..]) + ([a[0]] + b) == Reverse(a) + b
  {
  }

  lemma ReadyPacketsTail<T>(p: Pool<T>)
    requires Listed(p, p.ready, Ready) && p.ready != []
    ensures var b := p.ready[0];
            && HasState(p, b, Ready) && HasState(Take(p), b, User)
            && ReadyPackets(p)[0] == PacketIn(p, b)
            && var q := Link(Clear(Take(p), b), b);
               Listed(q, q.ready, Ready) && ReadyPackets(q) == ReadyPackets(p)[1..]
  {
    TurnKeepsListed(p);
    var b := p.ready[0];
    var q := Link(Clear(Take(p), b), b);
    forall i | 0 <= i < |q.ready| ensures ReadyPackets(q)[i] == ReadyPackets(p)[1..][i] {
      assert q.ready[i] == p.ready[i + 1];
    }
  }

  /** Handling what waits in p, from this state on, ends in this state and leaves this pool. */
  ghost predicate LeadsTo<T>(c: Config, attached: bool, now: dword, v: VideoState, st: State, p: Pool<T>,
                             goal: State, end: Pool<T>)
  {
    && Listed(p, p.ready, Ready) && (p.ready != [] ==> p.ready[0] in p.node) && AllGood(ReadyPackets(p))
    && HandleAll(c, st, attached, now, v, ReadyPackets(p)) == goal && Drained(p) == end
  }

  lemma DrainBegins<T>(c: Config, attached: bool, now: dword, v: VideoState, st: State, p: Pool<T>)
    requires Listed(p, p.ready, Ready) && AllGood(ReadyPackets(p))
    ensures LeadsTo(c, attached, now, v, st, p, HandleAll(c, st, attached, now, v, ReadyPackets(p)), Drained(p))
  {
    assert p.ready != [] ==> HasState(p, p.ready[0], Ready);
  }

  /** Serving the front buffer leaves the rest to be done. */
  lemma FrontPacket<T>(c: Config, attached: bool, now: dword, v: VideoState, st: State, p: Pool<T>,
                       goal: State, end: Pool<T>) returns (packet: Packet)
    requires LeadsTo(c, attached, now, v, st, p, goal, end) && p.ready != []
    ensures var b := p.ready[0];
            && HasState(Take(p), b, User) && packet == PacketIn(Take(p), b) && GoodRequest(packet.data, packet.bytes)
            && |Link(Clear(Take(p), b), b).ready| < |p.ready|
            && LeadsTo(c, attached, now, v, Handle(c, st, attached, now, v, packet), Link(Clear(Take(p), b), b),
                       goal, end)
  {
    TurnKeepsListed(p);
    ReadyPacketsTail(p);
    packet := ReadyPackets(p)[0];
    var q := Link(Clear(Take(p), p.ready[0]), p.ready[0]);
    assert q.ready != [] ==> HasState(q, q.ready[0], Ready);
  }
}
