/** What the client shows besides the screen's bytes: the size of the text and the place of the cursor. */
module View {
  import opened Wire
  import opened Sweep
  import opened Client
  import opened Exchange
  import opened Mirror
  import opened Sending
  import opened Copying
  import opened Convergence

  /** What the client knows of the server. */
  function ClientHost(u: Setup, w: World): Host
    requires Known(w.hosts, u.server.mac)
  {
    w.hosts[FindHost(w.hosts, u.server.mac, 0)].value
  }

  datatype Part = TextSize | CursorPlace

  /** Rows and columns, or the row and column of the cursor. */
  function PartOf(h: Host, a: Part): (byte, byte) {
    if a.TextSize? then (h.size.rows, h.size.cols) else (h.status[4], h.status[5])
  }

  predicate StatusArrives(u: Setup, e: Event) {
    && e.Deliver? && WellFormed(e.frame) && PktType(e.frame) == V1_STATUS_RESP
    && Accepts(e.frame, u.mac, u.id) && Src(e.frame) == u.server.mac
  }

  /** Updates that pass the bounds test bring both parts; status responses bring the cursor. */
  predicate Brings(u: Setup, e: Event, a: Part) {
    Pastes(u, e) || (a.CursorPlace? && StatusArrives(u, e))
  }

  function PartIn(f: Frame, a: Part): (byte, byte)
    requires |f| >= 32
  {
    if a.TextSize? then (f[26], f[27])
    else if PktType(f) == V1_VGA_TEXT then (f[28], f[29])
    else (f[30], f[31])
  }

  lemma ReceivedPart(hosts: Hosts, mac: Mac, id: dword, f: Frame, i: nat, a: Part)
    requires HostsInv(hosts) && WellFormed(f) && i < |hosts| && hosts[i].Some?
    ensures |Receive(hosts, mac, id, f)| == |hosts| && Receive(hosts, mac, id, f)[i].Some?
    ensures var brought := Accepts(f, mac, id) && Src(f) == hosts[i].value.mac &&
                           ((PktType(f) == V1_VGA_TEXT && VideoOffset(f) + VideoCount(f) <= TEXT_BUFFER_SIZE)
                            || (a.CursorPlace? && PktType(f) == V1_STATUS_RESP));
            PartOf(Receive(hosts, mac, id, f)[i].value, a) ==
            if brought then PartIn(f, a) else PartOf(hosts[i].value, a)
  {
    ReceiveKeepsHosts(hosts, mac, id, f);
    if Src(f) == hosts[i].value.mac {
      HostFound(hosts, Src(f), i);
    }
  }

  lemma StepPart(u: Setup, x: World, e: Event, a: Part)
    requires ClientReady(u, x) && Enabled(u, x, e)
    ensures ClientReady(u, Step(u, x, e))
    ensures PartOf(ClientHost(u, Step(u, x, e)), a) ==
            if Brings(u, e, a) then PartIn(e.frame, a) else PartOf(ClientHost(u, x), a)
  {
    StepKeepsReady(u, x, e);
    if e.Deliver? || e.Foreign? {
      var i := FindHost(x.hosts, u.server.mac, 0);
      ReceiveKeepsHosts(x.hosts, u.mac, u.id, e.frame);
      ReceivedPart(x.hosts, u.mac, u.id, e.frame, i, a);
      SameHostFound(x.hosts, Receive(x.hosts, u.mac, u.id, e.frame), u.server.mac, i);
    }
  }

  function HostAtEnd(u: Setup, w: World, es: seq<Event>): (h: Host)
    requires RunFrom(u, w, es) && ClientReady(u, w)
    ensures ClientReady(u, Exec(u, w, es)) && h == ClientHost(u, Exec(u, w, es))
  {
    StaysReady(u, w, es);
    ClientHost(u, Exec(u, w, es))
  }

  predicate NeverBrought(u: Setup, es: seq<Event>, a: Part) {
    forall i :: 0 <= i < |es| ==> !Brings(u, es[i], a)
  }

  predicate BringsLast(u: Setup, es: seq<Event>, i: nat, a: Part) {
    i < |es| && Brings(u, es[i], a) && forall j :: i < j < |es| ==> !Brings(u, es[j], a)
  }

  lemma {:induction false} NeverBroughtStays(u: Setup, w: World, es: seq<Event>, a: Part)
    requires RunFrom(u, w, es) && ClientReady(u, w) && NeverBrought(u, es, a)
    ensures PartOf(HostAtEnd(u, w, es), a) == PartOf(ClientHost(u, w), a)
  {
    if es != [] {
      NeverBroughtStays(u, w, es[..|es| - 1], a);
      StepPart(u, CopyWorld(u, w, es[..|es| - 1]), es[|es| - 1], a);
    }
  }

  lemma {:induction false} LastBringer(u: Setup, w: World, es: seq<Event>, a: Part, i: nat)
    requires RunFrom(u, w, es) && ClientReady(u, w) && BringsLast(u, es, i, a)
    ensures PartOf(HostAtEnd(u, w, es), a) == PartIn(es[i].frame, a)
  {
    StepPart(u, CopyWorld(u, w, es[..|es| - 1]), es[|es| - 1], a);
    if i < |es| - 1 {
      LastBringer(u, w, es[..|es| - 1], a, i);
    }
  }

  lemma {:induction false} SomeBringsLast(u: Setup, es: seq<Event>, i: nat, a: Part) returns (l: nat)
    requires i < |es| && Brings(u, es[i], a)
    ensures BringsLast(u, es, l, a)
    decreases |es|
  {
    var n := |es| - 1;
    if Brings(u, es[n], a) {
      l := n;
    } else {
      l := SomeBringsLast(u, es[..n], i, a);
      forall j | l < j < |es| ensures !Brings(u, es[j], a) {
        assert j < n ==> es[j] == es[..n][j];
      }
    }
  }

  predicate LastBrings(u: Setup, es: seq<Event>, i: nat, a: Part, x: (byte, byte)) {
    BringsLast(u, es, i, a) && PartIn(es[i].frame, a) == x
  }

  /** In any run, the size or the cursor the client shows is right at the end exactly when the last frame to
      bring it brings the right one, or none does and it was right from the start. */
  lemma PartIsRightIff(u: Setup, w: World, es: seq<Event>, a: Part, x: (byte, byte))
    requires RunFrom(u, w, es) && ClientReady(u, w)
    ensures PartOf(HostAtEnd(u, w, es), a) == x <==>
            || (exists i: nat :: LastBrings(u, es, i, a, x))
            || (NeverBrought(u, es, a) && PartOf(ClientHost(u, w), a) == x)
  {
    if NeverBrought(u, es, a) {
      NeverBroughtStays(u, w, es, a);
    } else {
      var i :| 0 <= i < |es| && Brings(u, es[i], a);
      var l := SomeBringsLast(u, es, i, a);
      LastBringer(u, w, es, a, l);
      assert PartOf(HostAtEnd(u, w, es), a) == x ==> LastBrings(u, es, l, a, x);
      forall k: nat | LastBrings(u, es, k, a, x) ensures k == l {
      }
    }
  }

  // ----- on a still screen -----

  function SizeOf(v: VideoState): (byte, byte) {
    (v.textRows, v.textCols)
  }

  lemma FreshSize(u: Setup, w: World, es: seq<Event>, i: nat)
    requires Still(u, w, es) && OnlyFresh(u, w, es) && i < |es| && Brings(u, es[i], TextSize)
    ensures PartIn(es[i].frame, TextSize) == SizeOf(w.video)
  {
    assert SentSince(u, w, es, i);
    SentSincePrefix(u, w, es, i);
    var cs := Emitted(w.sweep, TickInputs(u, w, es));
    SentFramesAreChunks(u, w, es, w.video, w.screen, es[i].frame);
    var j :| 0 <= j < |cs| && ShowsChunk(u, es[i].frame, w.video, cs[j]);
  }

  /** Some byte is sent, so some frame arrives. */
  lemma SomeFrameArrives(u: Setup, w: World, es: seq<Event>, p: nat) returns (i: nat)
    requires Still(u, w, es) && Served(u, w, es) && TickCount(es) >= 2 * SweepTicks(w.video)
    requires OnlyFresh(u, w, es) && AllDelivered(u, w, es) && p < ScreenBytes(w.video)
    requires w.sweep.chksum != ScreenChecksum(w.video, w.screen) || StillToCome(w, p)
    ensures i < |es| && Brings(u, es[i], TextSize)
  {
    var ins := StillTicks(u, w, es);
    SentBytesIff(w.sweep, ins, w.video, w.screen, p);
    var cs := Emitted(w.sweep, ins);
    var j :| 0 <= j < |cs| && Covers(cs[j], w.video, p);
    EmittedChunkIsSent(u, w, es, ins, j, cs[j]);
    i := ShownFrameArrives(u, w, es, cs[j]);
  }

  lemma ShownFrameArrives(u: Setup, w: World, es: seq<Event>, c: Chunk) returns (i: nat)
    requires Still(u, w, es) && AllDelivered(u, w, es) && SomeShowsChunk(u, NewlySent(u, w, es), w.video, c)
    ensures i < |es| && Pastes(u, es[i])
  {
    var fs := NewlySent(u, w, es);
    var k :| 0 <= k < |fs| && ShowsChunk(u, fs[k], w.video, c);
    assert fs[k] in fs;
    NewFramesAgree(u, w, es, w.video, w.screen);
    i :| 0 <= i < |es| && es[i] == Deliver(fs[k]);
  }

  lemma LowestByte(w: World) returns (p: nat)
    requires Admissible(w.video)
    ensures p < ScreenBytes(w.video) && (StartRow(w.sweep, w.video) > 0 ==> StillToCome(w, p))
  {
    p := ScreenBytes(w.video) - 1;
    MulMonotone(StartRow(w.sweep, w.video) + 1, w.video.textRows, Stride(w.video));
  }

  /** On a still screen, with all it is sent delivered and nothing older, the client comes to show the server's
      text size exactly when the checksum of the screen is not the one on record, or a sweep is under way,
      or it showed that size before. */
  lemma SizeIsRightIff(u: Setup, w: World, es: seq<Event>)
    requires Still(u, w, es) && Served(u, w, es) && TickCount(es) >= 2 * SweepTicks(w.video)
    requires OnlyFresh(u, w, es) && AllDelivered(u, w, es)
    ensures PartOf(HostAtEnd(u, w, es), TextSize) == SizeOf(w.video) <==>
            || w.sweep.chksum != ScreenChecksum(w.video, w.screen)
            || StartRow(w.sweep, w.video) > 0
            || PartOf(ClientHost(u, w), TextSize) == SizeOf(w.video)
  {
    if w.sweep.chksum != ScreenChecksum(w.video, w.screen) || StartRow(w.sweep, w.video) > 0 {
      var p := LowestByte(w);
      var i := SomeFrameArrives(u, w, es, p);
      var l := SomeBringsLast(u, es, i, TextSize);
      LastBringer(u, w, es, TextSize, l);
      FreshSize(u, w, es, l);
    } else {
      NothingArrives(u, w, es);
      NeverBroughtStays(u, w, es, TextSize);
    }
  }

  lemma NothingArrives(u: Setup, w: World, es: seq<Event>)
    requires Still(u, w, es) && OnlyFresh(u, w, es) && Resting(w.sweep, w.video, w.screen)
    ensures forall i :: 0 <= i < |es| ==> !Pastes(u, es[i])
  {
    LateSessionSeesNothing(u, w, es);
    forall i | 0 <= i < |es| && Pastes(u, es[i]) ensures false {
      assert SentSince(u, w, es, i);
      SentSincePrefix(u, w, es, i);
    }
  }

  /** A cursor that moves over a resting screen is not sent: however it moves, the client's cursor stays
      where it was, unless the client asks for the status. */
  lemma CursorIsNotSent(u: Setup, w: World, es: seq<Event>)
    requires Still(u, w, es) && OnlyFresh(u, w, es) && Resting(w.sweep, w.video, w.screen)
    requires forall i :: 0 <= i < |es| ==> !StatusArrives(u, es[i])
    ensures PartOf(HostAtEnd(u, w, es), CursorPlace) == PartOf(ClientHost(u, w), CursorPlace)
  {
    NothingArrives(u, w, es);
    NeverBroughtStays(u, w, es, CursorPlace);
  }
}
