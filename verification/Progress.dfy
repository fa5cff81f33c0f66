/** From wherever it is, the mirror can catch up: the run that the convergence theorem speaks of exists, on a
    clock that advances by one at every timer interrupt. */
module Progress {
  import opened Wire
  import opened Sessions
  import opened Video
  import opened Sweep
  import opened Client
  import opened Server
  import opened Mirror
  import opened Sending
  import opened Copying
  import opened Convergence

  // ----- a tick is always possible -----

  function VideoFrame(c: Config, to: Key, v: VideoState, fb: Segment, k: Chunk): Frame
    requires ChunkInScreen(v, k)
  {
    var offset, count := ChunkOffset(v, k), ChunkCount(v, k);
    Header(to.0, c.mac, c.ethertype, to.1, 8 + count, V1_VGA_TEXT)
    + (VideoHeader(v, offset, count) + (fb[offset..offset + count] + Zeros(SendLength(34 + count) - 34 - count)))
  }

  lemma VideoFrameIs(c: Config, to: Key, v: VideoState, fb: Segment, k: Chunk)
    requires ChunkInScreen(v, k)
    ensures IsVideoFrame(VideoFrame(c, to, v, fb, k), c, to, v, fb, k)
  {
    var offset, count := ChunkOffset(v, k), ChunkCount(v, k);
    FourParts(Header(to.0, c.mac, c.ethertype, to.1, 8 + count, V1_VGA_TEXT), VideoHeader(v, offset, count),
              fb[offset..offset + count], Zeros(SendLength(34 + count) - 34 - count));
  }

  lemma FourParts(a: seq<byte>, b: seq<byte>, c: seq<byte>, d: seq<byte>)
    ensures var f := a + (b + (c + d));
            f[..|a|] == a && f[|a|..|a| + |b|] == b && f[|a| + |b|..|a| + |b| + |c|] == c
  {
    var f, g := a + (b + (c + d)), b + (c + d);
    assert f[|a|..] == g && g[..|b|] == b && g[|b|..] == c + d && (c + d)[..|c|] == c;
    assert f[|a|..|a| + |b|] == g[..|b|];
    assert f[|a| + |b|..|a| + |b| + |c|] == g[|b|..][..|c|];
  }

  function FramesFor(c: Config, t: Table, v: VideoState, fb: Segment, k: Chunk): seq<Frame>
    requires ChunkInScreen(v, k)
  {
    if t == [] then []
    else
      var s := t[|t| - 1];
      FramesFor(c, t[..|t| - 1], v, fb, k) + if InUse(s) then [VideoFrame(c, KeyOf(s), v, fb, k)] else []
  }

  lemma {:induction false} FramesForEach(c: Config, t: Table, v: VideoState, fb: Segment, k: Chunk)
    requires ChunkInScreen(v, k)
    ensures OneFrameEach(FramesFor(c, t, v, fb, k), c, t, v, fb, k)
  {
    if t != [] {
      var s, fs := t[|t| - 1], FramesFor(c, t, v, fb, k);
      FramesForEach(c, t[..|t| - 1], v, fb, k);
      if InUse(s) {
        VideoFrameIs(c, KeyOf(s), v, fb, k);
        assert fs[..|fs| - 1] == FramesFor(c, t[..|t| - 1], v, fb, k);
      } else {
        assert fs == FramesFor(c, t[..|t| - 1], v, fb, k);
      }
    }
  }

  lemma {:induction false} FramesForPadding(c: Config, t: Table, v: VideoState, fb: Segment, k: Chunk)
    requires ChunkInScreen(v, k)
    ensures var n := 34 + ChunkCount(v, k);
            forall i :: 0 <= i < |FramesFor(c, t, v, fb, k)| ==>
              Tail(FramesFor(c, t, v, fb, k)[i], n) == Zeros(SendLength(n) - n)
  {
    if t != [] {
      FramesForPadding(c, t[..|t| - 1], v, fb, k);
      VideoFramePadding(c, KeyOf(t[|t| - 1]), v, fb, k);
    }
  }

  lemma VideoFramePadding(c: Config, to: Key, v: VideoState, fb: Segment, k: Chunk)
    requires ChunkInScreen(v, k)
    ensures var n := 34 + ChunkCount(v, k); Tail(VideoFrame(c, to, v, fb, k), n) == Zeros(SendLength(n) - n)
  {
    var offset, count := ChunkOffset(v, k), ChunkCount(v, k);
    var head := Header(to.0, c.mac, c.ethertype, to.1, 8 + count, V1_VGA_TEXT);
    var pad := Zeros(SendLength(34 + count) - 34 - count);
    EndOfFour(head, VideoHeader(v, offset, count), fb[offset..offset + count], pad);
  }

  lemma EndOfFour(a: seq<byte>, b: seq<byte>, c: seq<byte>, d: seq<byte>)
    ensures (a + (b + (c + d)))[|a| + |b| + |c|..] == d
  {
    assert a + (b + (c + d)) == (a + b + c) + d;
  }

  lemma CanTick(u: Setup, x: World, now: dword) returns (e: Event)
    requires Admissible(x.video)
    ensures e.Tick? && e.now == now && Enabled(u, x, e)
  {
    var t' := PruneTable(x.table, now);
    var active := ActiveCount(t') > 0;
    var o := SweepTick(x.sweep, active, x.video, x.screen);
    if o.chunk.Some? {
      ChunkFits(x.sweep, active, x.video, x.screen);
      FramesForEach(u.server, t', x.video, x.screen, o.chunk.value);
      FramesForPadding(u.server, t', x.video, x.screen, o.chunk.value);
      e := Tick(now, FramesFor(u.server, t', x.video, x.screen, o.chunk.value));
    } else {
      e := Tick(now, []);
    }
  }

  // ----- runs built one event at a time -----

  lemma RunGrows(u: Setup, w: World, es: seq<Event>, e: Event)
    requires RunFrom(u, w, es) && Enabled(u, Exec(u, w, es), e)
    ensures RunFrom(u, w, es + [e]) && Exec(u, w, es + [e]) == Step(u, Exec(u, w, es), e)
  {
    assert (es + [e])[..|es|] == es;
  }

  lemma ServedGrows(u: Setup, w: World, es: seq<Event>, e: Event)
    requires RunFrom(u, w, es) && Served(u, w, es) && Enabled(u, Exec(u, w, es), e)
    requires e.Tick? ==> InTable(PruneTable(Exec(u, w, es).table, e.now), (u.mac, u.id))
    ensures RunFrom(u, w, es + [e]) && Served(u, w, es + [e])
  {
    RunGrows(u, w, es, e);
    var after := es + [e];
    forall i | 0 <= i < |after| && after[i].Tick? ensures ServedAt(u, w, after, i) {
      assert after[..i] == es[..i];
      if i < |es| {
        assert ServedAt(u, w, es, i);
      } else {
        assert es[..i] == es;
      }
    }
  }

  lemma FreshGrows(u: Setup, w: World, es: seq<Event>, e: Event)
    requires RunFrom(u, w, es) && OnlyFresh(u, w, es) && Enabled(u, Exec(u, w, es), e)
    requires e.Deliver? && ForClient(u, e.frame) ==> e.frame in NewlySent(u, w, es)
    ensures RunFrom(u, w, es + [e]) && OnlyFresh(u, w, es + [e])
  {
    RunGrows(u, w, es, e);
    var after := es + [e];
    forall i | 0 <= i < |after| && after[i].Deliver? && ForClient(u, after[i].frame) ensures SentSince(u, w, after, i) {
      assert after[..i] == es[..i];
      if i < |es| {
        assert SentSince(u, w, es, i);
      } else {
        assert es[..i] == es;
      }
    }
  }

  // ----- leases that last -----

  predicate Lasts(s: Slot, last: nat) {
    last <= s.tLastRecv + LIFETIME < 0x1_0000_0000
  }

  /** A slot serves this client up to and including a tick at `last`. */
  predicate LeasedUntil(t: Table, k: Key, last: nat) {
    exists i :: 0 <= i < |t| && Serves(t[i], k) && Lasts(t[i], last)
  }

  lemma LeasedThroughTick(t: Table, k: Key, now: dword, last: nat)
    requires LeasedUntil(t, k, last) && now <= last
    ensures InTable(PruneTable(t, now), k) && LeasedUntil(PruneTable(t, now), k, last)
  {
    var i :| 0 <= i < |t| && Serves(t[i], k) && Lasts(t[i], last);
    assert PruneTable(t, now)[i] == t[i];
  }

  /** Every session of the table lasts that long. */
  predicate AllLast(t: Table, last: nat) {
    forall i :: 0 <= i < |t| && InUse(t[i]) ==> Lasts(t[i], last)
  }

  /** A start request that is not refused gives the client a full lifetime. */
  lemma StartLeases(t: Table, k: Key, now: dword)
    requires TableInv(t) && k.0 != NULL_MAC && (k in Leases(t) || |Leases(t)| < MAX_SESSIONS)
    requires now + LIFETIME < 0x1_0000_0000
    ensures LeasedUntil(StartTable(t, k, now), k, now + LIFETIME)
  {
    StartSetsLease(t, k, now);
    var t' := StartTable(t, k, now);
    LeaseOf(t', k);
    var i :| 0 <= i < |t'| && Serves(t'[i], k);
    assert Lasts(t'[i], now + LIFETIME);
  }

  // ----- calm runs -----

  predicate OnlyTicksAndDeliveries(es: seq<Event>) {
    forall i :: 0 <= i < |es| ==> es[i].Tick? || es[i].Deliver?
  }

  predicate OnlyTicks(es: seq<Event>) {
    forall i :: 0 <= i < |es| ==> es[i].Tick?
  }

  /** The first tick reads `now`, and each later one a clock that is one further on. */
  predicate ClockRuns(es: seq<Event>, now: nat) {
    forall i :: 0 <= i < |es| && es[i].Tick? ==> es[i].now == now + TickCount(es[..i])
  }

  lemma ClockGrows(es: seq<Event>, e: Event, now: nat)
    requires ClockRuns(es, now) && (e.Tick? ==> e.now == now + TickCount(es))
    ensures ClockRuns(es + [e], now) && TickCount(es + [e]) == TickCount(es) + if e.Tick? then 1 else 0
  {
    var after := es + [e];
    assert after[..|es|] == es;
    forall i | 0 <= i < |after| && after[i].Tick? ensures after[i].now == now + TickCount(after[..i]) {
      assert i < |es| ==> after[..i] == es[..i];
    }
  }

  /** Ticks and fresh deliveries only, with our client served at every tick. */
  predicate Calm(u: Setup, w: World, es: seq<Event>, now: nat) {
    && RunFrom(u, w, es) && OnlyTicksAndDeliveries(es) && ClockRuns(es, now)
    && Served(u, w, es) && OnlyFresh(u, w, es)
  }

  lemma {:induction false} CalmKeepsScreen(u: Setup, w: World, es: seq<Event>)
    requires RunFrom(u, w, es) && OnlyTicksAndDeliveries(es)
    ensures Exec(u, w, es).video == w.video && Exec(u, w, es).screen == w.screen
    ensures HoldsStill(es, w.video, w.screen)
  {
    if es != [] {
      CalmKeepsScreen(u, w, es[..|es| - 1]);
    }
  }

  lemma TickOnce(u: Setup, w: World, es: seq<Event>, now: dword, last: dword) returns (e: Event)
    requires Admissible(w.video) && Calm(u, w, es, now) && now + TickCount(es) <= last
    requires LeasedUntil(Exec(u, w, es).table, (u.mac, u.id), last)
    ensures e.Tick? && Calm(u, w, es + [e], now) && TickCount(es + [e]) == TickCount(es) + 1
    ensures AllLast(Exec(u, w, es).table, last) ==> Exec(u, w, es + [e]).table == Exec(u, w, es).table
    ensures LeasedUntil(Exec(u, w, es + [e]).table, (u.mac, u.id), last)
  {
    var x := Exec(u, w, es);
    CalmKeepsScreen(u, w, es);
    e := CanTick(u, x, now + TickCount(es));
    TickKeepsLeases(u, x, e, last);
    RunGrows(u, w, es, e);
    ServedGrows(u, w, es, e);
    FreshGrows(u, w, es, e);
    ClockGrows(es, e, now);
  }

  lemma TickKeepsLeases(u: Setup, x: World, e: Event, last: nat)
    requires e.Tick? && Enabled(u, x, e) && e.now <= last && LeasedUntil(x.table, (u.mac, u.id), last)
    ensures InTable(PruneTable(x.table, e.now), (u.mac, u.id))
    ensures LeasedUntil(Step(u, x, e).table, (u.mac, u.id), last)
    ensures AllLast(x.table, last) ==> Step(u, x, e).table == x.table
  {
    LeasedThroughTick(x.table, (u.mac, u.id), e.now, last);
    if AllLast(x.table, last) {
      AllLastThroughTick(x.table, e.now, last);
    }
  }

  lemma AllLastThroughTick(t: Table, now: dword, last: nat)
    requires AllLast(t, last) && now <= last
    ensures PruneTable(t, now) == t
  {
  }

  /** The server ticks n times while the client's lease lasts. */
  lemma {:induction false} Ticks(u: Setup, w: World, n: nat, now: dword, last: dword) returns (es: seq<Event>)
    requires Admissible(w.video) && LeasedUntil(w.table, (u.mac, u.id), last) && (n > 0 ==> now + n - 1 <= last)
    ensures Calm(u, w, es, now) && TickCount(es) == n && OnlyTicks(es)
    ensures LeasedUntil(Exec(u, w, es).table, (u.mac, u.id), last)
    ensures AllLast(w.table, last) ==> Exec(u, w, es).table == w.table
  {
    if n == 0 {
      es := [];
    } else {
      var before := Ticks(u, w, n - 1, now, last);
      var e := TickOnce(u, w, before, now, last);
      es := before + [e];
    }
  }

  /** The longer run has the same ticks, and the server is where it was. */
  predicate OnlyDelivers(u: Setup, w: World, es: seq<Event>, after: seq<Event>, now: nat) {
    && Calm(u, w, es, now) && Calm(u, w, after, now) && TickCount(after) == TickCount(es)
    && NewlySent(u, w, after) == NewlySent(u, w, es)
    && Exec(u, w, after).table == Exec(u, w, es).table && Exec(u, w, after).sweep == Exec(u, w, es).sweep
  }

  lemma DeliverOnce(u: Setup, w: World, es: seq<Event>, f: Frame, now: nat)
    requires Calm(u, w, es, now) && f in NewlySent(u, w, es) && ForClient(u, f)
    ensures OnlyDelivers(u, w, es, es + [Deliver(f)], now)
  {
    var after := es + [Deliver(f)];
    NewlySentIsSent(u, w, es, f);
    RunGrows(u, w, es, Deliver(f));
    ServedGrows(u, w, es, Deliver(f));
    FreshGrows(u, w, es, Deliver(f));
    ClockGrows(es, Deliver(f), now);
    assert after[..|after| - 1] == es;
    NewlySentStep(u, w, after);
  }

  lemma NewlySentIsSent(u: Setup, w: World, es: seq<Event>, f: Frame)
    requires RunFrom(u, w, es) && f in NewlySent(u, w, es) && WellFormed(f)
    ensures Enabled(u, Exec(u, w, es), Deliver(f))
  {
  }

  predicate AllIn(u: Setup, fs: seq<Frame>, es: seq<Event>) {
    forall f :: f in fs && ForClient(u, f) ==> Deliver(f) in es
  }

  /** Of frames sent so far, those for our client are delivered. */
  lemma {:induction false} Deliveries(u: Setup, w: World, es: seq<Event>, fs: seq<Frame>, now: nat)
    returns (after: seq<Event>)
    requires Calm(u, w, es, now) && fs <= NewlySent(u, w, es)
    ensures OnlyDelivers(u, w, es, after, now) && AllIn(u, fs, after)
    decreases |fs|
  {
    if fs == [] {
      after := es;
    } else {
      var f := fs[|fs| - 1];
      var before := Deliveries(u, w, es, fs[..|fs| - 1], now);
      assert f in NewlySent(u, w, es) && fs == fs[..|fs| - 1] + [f];
      after := DeliverIfOurs(u, w, es, before, f, now);
      AllInGrows(u, fs[..|fs| - 1], f, before, after);
    }
  }

  lemma DeliverIfOurs(u: Setup, w: World, es: seq<Event>, before: seq<Event>, f: Frame, now: nat)
    returns (after: seq<Event>)
    requires OnlyDelivers(u, w, es, before, now) && f in NewlySent(u, w, es)
    ensures OnlyDelivers(u, w, es, after, now) && before <= after && (ForClient(u, f) ==> Deliver(f) in after)
  {
    after := before;
    if ForClient(u, f) {
      DeliverOnce(u, w, before, f, now);
      after := before + [Deliver(f)];
    }
  }

  lemma AllInGrows(u: Setup, rest: seq<Frame>, f: Frame, before: seq<Event>, after: seq<Event>)
    requires AllIn(u, rest, before) && before <= after && (ForClient(u, f) ==> Deliver(f) in after)
    ensures AllIn(u, rest + [f], after)
  {
  }

  /** n ticks, and then all they sent to our client is delivered. */
  lemma TicksAndDeliveries(u: Setup, w: World, n: nat, now: dword, last: dword) returns (es: seq<Event>)
    requires Admissible(w.video) && LeasedUntil(w.table, (u.mac, u.id), last) && (n > 0 ==> now + n - 1 <= last)
    ensures Calm(u, w, es, now) && TickCount(es) == n && AllDelivered(u, w, es)
    ensures LeasedUntil(Exec(u, w, es).table, (u.mac, u.id), last)
    ensures AllLast(w.table, last) ==> Exec(u, w, es).table == w.table
    ensures Exec(u, w, es).video == w.video && Exec(u, w, es).screen == w.screen && HoldsStill(es, w.video, w.screen)
  {
    var ticks := Ticks(u, w, n, now, last);
    es := Deliveries(u, w, ticks, NewlySent(u, w, ticks), now);
    CalmKeepsScreen(u, w, es);
  }

  // ----- catching up -----

  /** Whatever the state of the sweep and of the client's copy, as long as the checksum of the screen is
      not the one on record and the client's lease lasts for the ticks of two sweeps: some run of ticks, on
      a running clock, and deliveries makes the copy equal to the screen. */
  lemma MirrorCanCatchUp(u: Setup, w: World, now: dword, last: dword) returns (es: seq<Event>)
    requires Admissible(w.video) && ClientReady(u, w) && w.sweep.chksum != ScreenChecksum(w.video, w.screen)
    requires LeasedUntil(w.table, (u.mac, u.id), last) && now + 2 * SweepTicks(w.video) - 1 <= last
    ensures Calm(u, w, es, now) && ClientReady(u, Exec(u, w, es)) && CopyIsScreen(u, Exec(u, w, es))
  {
    es := TicksAndDeliveries(u, w, 2 * SweepTicks(w.video), now, last);
    MirrorConvergesIff(u, w, es);
  }

  /** A lease just granted is always enough, in every mode. */
  lemma FreshLeaseSuffices(u: Setup, w: World, now: dword) returns (es: seq<Event>)
    requires Admissible(w.video) && ClientReady(u, w) && w.sweep.chksum != ScreenChecksum(w.video, w.screen)
    requires TableInv(w.table) && u.mac != NULL_MAC && now + LIFETIME < 0x1_0000_0000
    requires (u.mac, u.id) in Leases(w.table) || |Leases(w.table)| < MAX_SESSIONS
    ensures 2 * SweepTicks(w.video) <= LIFETIME
    ensures var x := Step(u, w, StartSession((u.mac, u.id), now));
            Calm(u, x, es, now) && ClientReady(u, Exec(u, x, es)) && CopyIsScreen(u, Exec(u, x, es))
  {
    var x := Step(u, w, StartSession((u.mac, u.id), now));
    SweepsAreShort(w.video);
    StartLeases(w.table, (u.mac, u.id), now);
    es := MirrorCanCatchUp(u, x, now, now + LIFETIME);
  }
}
