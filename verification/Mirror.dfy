/** The whole mirror as one system: a server whose screen anyone may change, a network that loses,
    repeats and reorders frames, other stations, and one client (src/server/session.c,
    src/client/main.c). */
module Mirror {
  import opened Wire
  import opened Sessions
  import opened Video
  import opened Sweep
  import opened Client
  import opened Server
  import opened Exchange

  /** Who the server and the client are. */
  datatype Setup = Setup(server: Config, mac: Mac, id: dword)

  datatype World = World(
    table: Table,
    sweep: SweepState,
    video: VideoState,
    screen: Segment,
    sent: seq<Frame>,         // every frame the server ever sent; the network may deliver any of them, ever
    shown: seq<Segment>,      // the screen at each tick so far
    hosts: Hosts)             // the client's host list

  datatype Event =
    | WriteScreen(screen: Segment)
    | SetVideo(video: VideoState)
    | StartSession(key: Key, now: dword)
    | Tick(now: dword, frames: seq<Frame>)
    | Answer(reply: Frame)    // the server sends a pong or a status response
    | Deliver(frame: Frame)   // the client receives a frame the server sent, perhaps again, perhaps late
    | Foreign(frame: Frame)   // the client receives a frame from another station

  predicate Enabled(u: Setup, w: World, e: Event) {
    match e
    case WriteScreen(_) => true
    case SetVideo(v) => Admissible(v)
    case StartSession(k, _) => k.0 != NULL_MAC
    case Tick(now, fs) =>
      Admissible(w.video) &&
      var t' := PruneTable(w.table, now);
      TickRelation(u.server, true, now, w.video, w.screen, w.table, w.sweep, t',
                   SweepTick(w.sweep, ActiveCount(t') > 0, w.video, w.screen).state, fs)
    case Answer(f) => IsReply(u.server, f)
    case Deliver(f) => f in w.sent && WellFormed(f)
    case Foreign(f) => WellFormed(f) && Src(f) != u.server.mac
  }

  function Step(u: Setup, w: World, e: Event): World
    requires Enabled(u, w, e)
  {
    match e
    case WriteScreen(fb) => w.(screen := fb)
    case SetVideo(v) => w.(video := v)
    case StartSession(k, now) => w.(table := StartTable(w.table, k, now))
    case Tick(now, fs) =>
      var t' := PruneTable(w.table, now);
      w.(table := t', sweep := SweepTick(w.sweep, ActiveCount(t') > 0, w.video, w.screen).state,
         sent := w.sent + fs, shown := w.shown + [w.screen])
    case Answer(f) => w.(sent := w.sent + [f])
    case Deliver(f) => w.(hosts := Receive(w.hosts, u.mac, u.id, f))
    case Foreign(f) => w.(hosts := Receive(w.hosts, u.mac, u.id, f))
  }

  predicate RunFrom(u: Setup, w: World, es: seq<Event>)
    decreases |es|, 0
  {
    es == [] || (RunFrom(u, w, es[..|es| - 1]) && Enabled(u, Exec(u, w, es[..|es| - 1]), es[|es| - 1]))
  }

  function Exec(u: Setup, w: World, es: seq<Event>): World
    requires RunFrom(u, w, es)
    decreases |es|, 1
  {
    if es == [] then w else Step(u, Exec(u, w, es[..|es| - 1]), es[|es| - 1])
  }

  lemma {:induction false} PrefixRuns(u: Setup, w: World, es: seq<Event>, n: nat)
    requires RunFrom(u, w, es) && n <= |es|
    ensures RunFrom(u, w, es[..n])
  {
    if n < |es| {
      PrefixRuns(u, w, es[..|es| - 1], n);
      assert es[..|es| - 1][..n] == es[..n];
    } else {
      assert es[..n] == es;
    }
  }

  predicate Init(w: World) {
    && w.table == [FREE_SLOT, FREE_SLOT, FREE_SLOT, FREE_SLOT]
    && w.sweep == SweepState(0, 0) && Admissible(w.video)
    && w.sent == [] && w.shown == [] && w.hosts == seq(MAX_HOSTS, _ => None)
  }

  // ----- safety -----

  /** The screen showed this byte at this place at some tick. */
  predicate ByteShown(shown: seq<Segment>, p: nat, b: byte)
    requires p < TEXT_BUFFER_SIZE
  {
    exists i :: 0 <= i < |shown| && shown[i][p] == b
  }

  /** All of the frame was on the screen together, at one tick. */
  predicate FromOneScreen(f: Frame, shown: seq<Segment>)
    requires WellFormed(f) && PktType(f) == V1_VGA_TEXT
  {
    VideoOffset(f) + VideoCount(f) <= TEXT_BUFFER_SIZE &&
    exists i :: 0 <= i < |shown| && shown[i][VideoOffset(f)..VideoOffset(f) + VideoCount(f)] == VideoData(f)
  }

  predicate SentByServer(u: Setup, f: Frame, shown: seq<Segment>) {
    WellFormed(f) && Src(f) == u.server.mac && (PktType(f) == V1_VGA_TEXT ==> FromOneScreen(f, shown))
  }

  predicate SentInv(u: Setup, w: World) {
    forall i :: 0 <= i < |w.sent| ==> SentByServer(u, w.sent[i], w.shown)
  }

  predicate BufferShown(b: TextBuffer, shown: seq<Segment>) {
    forall p :: 0 <= p < TEXT_BUFFER_SIZE ==> b[p] == 0 || ByteShown(shown, p, b[p])
  }

  predicate ClientInv(u: Setup, w: World) {
    HostsInv(w.hosts) &&
    forall i :: 0 <= i < |w.hosts| && IsHost(w.hosts[i], u.server.mac) ==> BufferShown(w.hosts[i].value.buffer, w.shown)
  }

  lemma ShownGrows(shown: seq<Segment>, more: seq<Segment>, p: nat, b: byte)
    requires p < TEXT_BUFFER_SIZE && ByteShown(shown, p, b)
    ensures ByteShown(shown + more, p, b)
  {
    var i :| 0 <= i < |shown| && shown[i][p] == b;
    assert (shown + more)[i] == shown[i];
  }

  lemma SentByServerGrows(u: Setup, f: Frame, shown: seq<Segment>, more: seq<Segment>)
    requires SentByServer(u, f, shown)
    ensures SentByServer(u, f, shown + more)
  {
    if PktType(f) == V1_VGA_TEXT {
      var a, z := VideoOffset(f), VideoOffset(f) + VideoCount(f);
      var i :| 0 <= i < |shown| && shown[i][a..z] == VideoData(f);
      assert (shown + more)[i] == shown[i];
    }
  }

  /** A tick's frames carry what is on the screen now. */
  lemma TickFrame(u: Setup, fs: seq<Frame>, t: Table, v: VideoState, fb: Segment, k: Chunk, shown: seq<Segment>, i: nat)
    requires ChunkInScreen(v, k) && OneFrameEach(fs, u.server, t, v, fb, k) && i < |fs|
    ensures SentByServer(u, fs[i], shown + [fb]) && PktType(fs[i]) == V1_VGA_TEXT
    ensures VideoData(fs[i]) == fb[VideoOffset(fs[i])..VideoOffset(fs[i]) + VideoCount(fs[i])]
  {
    OnePerSession(fs, u.server, t, v, fb, k);
    var f := fs[i];
    VideoFrameReads(f, u.server, KeyOf(UsedSlots(t)[i]), v, fb, k, u.mac, u.id);
    assert (shown + [fb])[|shown|] == fb;
  }

  lemma StepKeepsSentInv(u: Setup, w: World, e: Event)
    requires SentInv(u, w) && Enabled(u, w, e)
    ensures SentInv(u, Step(u, w, e))
  {
    var w' := Step(u, w, e);
    forall i | 0 <= i < |w'.sent| ensures SentByServer(u, w'.sent[i], w'.shown) {
      if i < |w.sent| {
        assert SentByServer(u, w.sent[i], w.shown);
        if e.Tick? {
          SentByServerGrows(u, w.sent[i], w.shown, [w.screen]);
        }
      } else if e.Tick? {
        var t' := PruneTable(w.table, e.now);
        var k := SweepTick(w.sweep, ActiveCount(t') > 0, w.video, w.screen).chunk.value;
        TickFrame(u, e.frames, t', w.video, w.screen, k, w.shown, i - |w.sent|);
      }
    }
  }

  lemma ShowKeepsBufferShown(h: Host, f: Frame, shown: seq<Segment>)
    requires WellFormed(f) && PktType(f) == V1_VGA_TEXT && FromOneScreen(f, shown) && BufferShown(h.buffer, shown)
    ensures BufferShown(ShowVideo(h, f).buffer, shown)
  {
    var a, z := VideoOffset(f), VideoOffset(f) + VideoCount(f);
    var i :| 0 <= i < |shown| && shown[i][a..z] == VideoData(f);
    var b := ShowVideo(h, f).buffer;
    forall p | 0 <= p < TEXT_BUFFER_SIZE ensures b[p] == 0 || ByteShown(shown, p, b[p]) {
      if a <= p < z {
        assert b[p] == VideoData(f)[p - a] == shown[i][a..z][p - a] == shown[i][p];
      } else {
        assert b[p] == h.buffer[p];
      }
    }
  }

  /** A host's buffer after a frame has come in. */
  function BufferAfter(h: Host, mac: Mac, id: dword, f: Frame): TextBuffer
    requires WellFormed(f)
  {
    if Accepts(f, mac, id) && PktType(f) == V1_VGA_TEXT && h.mac == Src(f) then ShowVideo(h, f).buffer else h.buffer
  }

  /** What receiving a frame does to the buffer of one known server. */
  lemma ReceivedBuffer(hosts: Hosts, mac: Mac, id: dword, f: Frame, i: nat)
    requires HostsInv(hosts) && WellFormed(f) && i < |hosts|
    ensures |Receive(hosts, mac, id, f)| == |hosts|
    ensures hosts[i].Some? ==> Receive(hosts, mac, id, f)[i].Some?
    ensures hosts[i].Some? ==> Receive(hosts, mac, id, f)[i].value.mac == hosts[i].value.mac
    ensures hosts[i].Some? ==> Receive(hosts, mac, id, f)[i].value.buffer == BufferAfter(hosts[i].value, mac, id, f)
    ensures hosts[i].None? && Receive(hosts, mac, id, f)[i].Some? ==>
            Receive(hosts, mac, id, f)[i].value.buffer == Zeros(TEXT_BUFFER_SIZE)
  {
    ReceiveKeepsHosts(hosts, mac, id, f);
  }

  lemma StepKeepsClientInv(u: Setup, w: World, e: Event)
    requires SentInv(u, w) && ClientInv(u, w) && Enabled(u, w, e)
    ensures ClientInv(u, Step(u, w, e))
  {
    var w' := Step(u, w, e);
    if e.Deliver? || e.Foreign? {
      ReceiveKeepsHosts(w.hosts, u.mac, u.id, e.frame);
    }
    forall i | 0 <= i < |w'.hosts| && IsHost(w'.hosts[i], u.server.mac)
      ensures BufferShown(w'.hosts[i].value.buffer, w'.shown)
    {
      if e.Deliver? || e.Foreign? {
        ReceivedBuffer(w.hosts, u.mac, u.id, e.frame, i);
        if w.hosts[i].Some? && e.Deliver? && PktType(e.frame) == V1_VGA_TEXT {
          ShowKeepsBufferShown(w.hosts[i].value, e.frame, w.shown);
        }
      } else if e.Tick? {
        var b := w.hosts[i].value.buffer;
        forall p | 0 <= p < TEXT_BUFFER_SIZE ensures b[p] == 0 || ByteShown(w'.shown, p, b[p]) {
          if b[p] != 0 {
            ShownGrows(w.shown, [w.screen], p, b[p]);
          }
        }
      }
    }
  }

  /** Through loss, repetition, reordering, other stations' frames, screen and mode changes: whatever
      the client shows of the server is blank or was on the server's screen, there, at some tick. */
  lemma {:induction false} MirrorIsSafe(u: Setup, w: World, es: seq<Event>)
    requires Init(w) && RunFrom(u, w, es)
    ensures SentInv(u, Exec(u, w, es)) && ClientInv(u, Exec(u, w, es))
  {
    if es != [] {
      var before, e := es[..|es| - 1], es[|es| - 1];
      MirrorIsSafe(u, w, before);
      StepKeepsSentInv(u, Exec(u, w, before), e);
      StepKeepsClientInv(u, Exec(u, w, before), e);
    }
  }
}
