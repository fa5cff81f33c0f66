/** Runs from the start of the system after which the client's copy is wrong and stays wrong: a session that
    begins too late, a change taken back during its sweep, a frame that arrives too late. */
module Stale {
  import opened Wire
  import opened Sessions
  import opened Video
  import opened Sweep
  import opened Client
  import opened Server
  import opened Exchange
  import opened Mirror
  import opened Sending
  import opened Copying
  import opened Convergence
  import opened Progress

  /** What is wrong at rest stays wrong: as long as the screen holds still and no older frame turns up, no
      run whatever repairs the copy. */
  lemma StaysStale(u: Setup, w: World, es: seq<Event>)
    requires Still(u, w, es) && OnlyFresh(u, w, es)
    requires Resting(w.sweep, w.video, w.screen) && !CopyIsScreen(u, w)
    ensures ClientReady(u, Exec(u, w, es)) && !CopyIsScreen(u, Exec(u, w, es))
  {
    StillEnds(u, w, es);
    LateSessionSeesNothing(u, w, es);
    var p :| 0 <= p < ScreenBytes(w.video) && ClientBuffer(u, w)[p] != w.screen[p];
    assert !StillToCome(w, p);
    assert CopyAtEnd(u, w, es)[p] != w.screen[p];
  }

  // ----- putting runs together -----

  lemma {:induction false} RunsJoin(u: Setup, w: World, a: seq<Event>, b: seq<Event>)
    requires RunFrom(u, w, a) && RunFrom(u, Exec(u, w, a), b)
    ensures RunFrom(u, w, a + b) && Exec(u, w, a + b) == Exec(u, Exec(u, w, a), b)
  {
    if b == [] {
      assert a + b == a;
    } else {
      RunsJoin(u, w, a, b[..|b| - 1]);
      assert (a + b)[..|a + b| - 1] == a + b[..|b| - 1];
    }
  }

  lemma DeliveriesJoin(u: Setup, w: World, a: seq<Event>, b: seq<Event>)
    requires RunFrom(u, w, a) && RunFrom(u, Exec(u, w, a), b)
    requires AllDelivered(u, w, a) && AllDelivered(u, Exec(u, w, a), b)
    ensures RunFrom(u, w, a + b) && AllDelivered(u, w, a + b)
  {
    RunsJoin(u, w, a, b);
    assert (a + b)[..|a|] == a && (a + b)[|a|..] == b;
    NewlySentSplits(u, w, a + b, |a|);
  }

  lemma OneEvent(u: Setup, w: World, e: Event)
    requires Enabled(u, w, e)
    ensures RunFrom(u, w, [e]) && Exec(u, w, [e]) == Step(u, w, e)
    ensures NewlySent(u, w, [e]) == Added(e)
  {
    assert RunFrom(u, w, []) && [e][..|[e]| - 1] == [];
    assert NewlySent(u, w, []) == [];
    NewlySentStep(u, w, [e]);
  }

  // ----- the start of the system, and a session -----

  function StartWorld(v: VideoState, fb: Segment): World {
    World([FREE_SLOT, FREE_SLOT, FREE_SLOT, FREE_SLOT], SweepState(0, 0), v, fb, [], [], seq(MAX_HOSTS, _ => None))
  }

  predicate NoHosts(hosts: Hosts) {
    |hosts| == MAX_HOSTS && forall i :: 0 <= i < |hosts| ==> hosts[i].None?
  }

  /** An answer of the server's by which this client learns of it. */
  predicate IsHello(u: Setup, hello: Frame) {
    IsReply(u.server, hello) && PktType(hello) == V1_STATUS_RESP && Accepts(hello, u.mac, u.id)
  }

  /** The server's answer to the client's probe is one. */
  lemma Hello(u: Setup, v: VideoState) returns (hello: Frame)
    ensures IsHello(u, hello)
  {
    var d := Header(BROADCAST, u.mac, u.server.ethertype, u.id, 0, V1_STATUS_REQ);
    assert d[..HEADER_LEN] == d;
    HeaderParses(d, BROADCAST, u.mac, u.server.ethertype, u.id, 0, V1_STATUS_REQ);
    StatusReplyReads(u.server, d, v);
    StatusReplyBytes(u.server, d, v);
    hello := StatusReply(u.server, d, v);
  }

  /** The client starts a session and learns of the server; its copy is blank. */
  lemma Greets(u: Setup, w: World, now: dword) returns (es: seq<Event>, x: World)
    requires u.mac != NULL_MAC && NoHosts(w.hosts)
    ensures RunFrom(u, w, es) && AllDelivered(u, w, es) && x == Exec(u, w, es)
    ensures x.table == StartTable(w.table, (u.mac, u.id), now) && x.sweep == w.sweep
    ensures x.video == w.video && x.screen == w.screen
    ensures ClientReady(u, x) && ClientBuffer(u, x) == Zeros(TEXT_BUFFER_SIZE)
  {
    var hello := Hello(u, w.video);
    es, x := GreetingRuns(u, w, hello, now);
    Introduced(u, w.hosts, hello);
    assert !ForClient(u, hello);
  }

  lemma GreetingRuns(u: Setup, w: World, hello: Frame, now: dword) returns (es: seq<Event>, x: World)
    requires u.mac != NULL_MAC && IsHello(u, hello)
    ensures RunFrom(u, w, es) && x == Exec(u, w, es) && NewlySent(u, w, es) == [hello]
    ensures x == w.(table := StartTable(w.table, (u.mac, u.id), now), sent := w.sent + [hello],
                    hosts := Receive(w.hosts, u.mac, u.id, hello))
  {
    var a, b, c := StartSession((u.mac, u.id), now), Answer(hello), Deliver(hello);
    OneEvent(u, w, a);
    OneMoreEvent(u, w, [a], b);
    OneMoreEvent(u, w, [a] + [b], c);
    es := [a] + [b] + [c];
    x := Exec(u, w, es);
  }

  lemma OneMoreEvent(u: Setup, w: World, es: seq<Event>, e: Event)
    requires RunFrom(u, w, es) && Enabled(u, Exec(u, w, es), e)
    ensures RunFrom(u, w, es + [e]) && Exec(u, w, es + [e]) == Step(u, Exec(u, w, es), e)
    ensures NewlySent(u, w, es + [e]) == NewlySent(u, w, es) + Added(e)
  {
    RunGrows(u, w, es, e);
    NewlySentStep(u, w, es + [e]);
    assert (es + [e])[..|es|] == es;
  }

  lemma Introduced(u: Setup, hosts: Hosts, hello: Frame)
    requires NoHosts(hosts) && IsHello(u, hello)
    ensures var after := Receive(hosts, u.mac, u.id, hello);
            && HostsInv(after) && Known(after, u.server.mac)
            && after[FindHost(after, u.server.mac, 0)].value.buffer == Zeros(TEXT_BUFFER_SIZE)
  {
    assert hosts[0].None?;
    ReceiveKeepsHosts(hosts, u.mac, u.id, hello);
    StatusRegistersSender(hosts, u.mac, u.id, hello);
    var after := Receive(hosts, u.mac, u.id, hello);
    ReceivedBuffer(hosts, u.mac, u.id, hello, FindHost(after, u.server.mac, 0));
  }

  lemma FirstLease(k: Key, now: dword)
    requires k.0 != NULL_MAC && now + LIFETIME < 0x1_0000_0000
    ensures var t := StartTable([FREE_SLOT, FREE_SLOT, FREE_SLOT, FREE_SLOT], k, now);
            TableInv(t) && LeasedUntil(t, k, now + LIFETIME) && AllLast(t, now + LIFETIME) && |Leases(t)| <= 1
  {
    var t := [FREE_SLOT, FREE_SLOT, FREE_SLOT, FREE_SLOT];
    assert ActiveCount(t) == 0;
    LeaseCount(t);
    StartSetsLease(t, k, now);
    StartLeases(t, k, now);
  }

  // ----- a screen shown in full -----

  lemma SweepRests(u: Setup, x: World, es: seq<Event>)
    requires SweepHolds(u, x, es)
    ensures Resting(Exec(u, x, es).sweep, x.video, x.screen)
  {
    var ins := StillTicks(u, x, es);
    ReachesLastRow(x.video, 0);
    SweepSendsItsChunks(x.sweep, ins, x.video, x.screen);
  }

  /** From the start of a sweep: its ticks, and all its frames delivered. */
  lemma ShowScreen(u: Setup, x: World, now: dword, last: dword) returns (es: seq<Event>)
    requires Admissible(x.video) && ClientReady(u, x) && StartsSweep(x.sweep, true, x.video, x.screen)
    requires LeasedUntil(x.table, (u.mac, u.id), last) && AllLast(x.table, last)
    requires now + SweepTicks(x.video) - 1 <= last
    ensures Calm(u, x, es, now) && AllDelivered(u, x, es) && SweepHolds(u, x, es)
    ensures Exec(u, x, es).video == x.video && Exec(u, x, es).screen == x.screen && Exec(u, x, es).table == x.table
    ensures Resting(Exec(u, x, es).sweep, x.video, x.screen)
    ensures ClientReady(u, Exec(u, x, es)) && CopyIsScreen(u, Exec(u, x, es))
  {
    es := TicksAndDeliveries(u, x, SweepTicks(x.video), now, last);
    SweepRests(u, x, es);
    FreshIsCurrent(u, x, es, x.video, x.screen);
    assert es[..0] == [] && es[0..] == es;
    forall f | f in SentFrom(u, x, es, 0) && ForClient(u, f) ensures Settled(u, es, f, x.screen) {
      CurrentSettles(u, es, f, x.screen);
    }
    MirrorConverges(u, x, es, 0);
  }

  // ----- a session that begins too late -----

  /** Runs of ticks are the same whoever the client in question is. */
  lemma {:induction false} TicksAreCommon(u: Setup, u': Setup, w: World, es: seq<Event>)
    requires u.server == u'.server && RunFrom(u', w, es) && OnlyTicks(es)
    ensures RunFrom(u, w, es) && Exec(u, w, es) == Exec(u', w, es) && Exec(u, w, es).hosts == w.hosts
  {
    if es != [] {
      TicksAreCommon(u, u', w, es[..|es| - 1]);
    }
  }

  /** The screen was shown to client q in full; from then on it rests, and the server knows only q. */
  lemma ShownToAnother(u: Setup, q: Key, v: VideoState, fb: Segment, now: dword) returns (es: seq<Event>)
    requires Admissible(v) && ScreenChecksum(v, fb) != 0 && q.0 != NULL_MAC && now + 2 * LIFETIME < 0x1_0000_0000
    ensures RunFrom(u, StartWorld(v, fb), es)
    ensures var x := Exec(u, StartWorld(v, fb), es);
            && x.video == v && x.screen == fb && NoHosts(x.hosts) && Resting(x.sweep, v, fb)
            && TableInv(x.table) && |Leases(x.table)| <= 1
  {
    var u', w := Setup(u.server, q.0, q.1), StartWorld(v, fb);
    OneEvent(u', w, StartSession(q, now));
    OneEvent(u, w, StartSession(q, now));
    var x1 := Step(u, w, StartSession(q, now));
    FirstLease(q, now);
    SweepsAreShort(v);
    var ticks := Ticks(u', x1, SweepTicks(v), now, now + LIFETIME);
    CalmKeepsScreen(u', x1, ticks);
    SweepRests(u', x1, ticks);
    TicksAreCommon(u, u', x1, ticks);
    RunsJoin(u, w, [StartSession(q, now)], ticks);
    es := [StartSession(q, now)] + ticks;
  }

  /** A client that starts its session on a screen already shown to another: it is in the table, with a
      lifetime ahead of it, and its copy is not the screen. By `StaysStale` it stays so. */
  lemma LateSessionIsStale(u: Setup, q: Key, v: VideoState, fb: Segment, now: dword)
    returns (w: World, es: seq<Event>, last: nat)
    requires Admissible(v) && ScreenChecksum(v, fb) != 0 && !AgreesOn(Zeros(TEXT_BUFFER_SIZE), fb, 0, ScreenBytes(v))
    requires u.mac != NULL_MAC && q.0 != NULL_MAC && q != (u.mac, u.id) && now + 2 * LIFETIME < 0x1_0000_0000
    ensures Init(w) && RunFrom(u, w, es)
    ensures var x := Exec(u, w, es);
            && ClientReady(u, x) && LeasedUntil(x.table, (u.mac, u.id), last) && last >= now + LIFETIME
            && x.video == v && x.screen == fb && Resting(x.sweep, v, fb) && !CopyIsScreen(u, x)
  {
    w := StartWorld(v, fb);
    var a := ShownToAnother(u, q, v, fb, now);
    var later := now + SweepTicks(v);
    SweepsAreShort(v);
    var b, y := Greets(u, Exec(u, w, a), later);
    StartLeases(Exec(u, w, a).table, (u.mac, u.id), later);
    RunsJoin(u, w, a, b);
    es, last := a + b, later + LIFETIME;
  }

  /** Every mode has such a run. */
  lemma LateSessionInEveryMode(u: Setup, q: Key, v: VideoState, now: dword) returns (w: World, es: seq<Event>)
    requires Admissible(v) && u.mac != NULL_MAC && q.0 != NULL_MAC && q != (u.mac, u.id)
    requires now + 2 * LIFETIME < 0x1_0000_0000
    ensures Init(w) && RunFrom(u, w, es)
    ensures var x := Exec(u, w, es);
            && ClientReady(u, x) && InTable(x.table, (u.mac, u.id)) && x.video == v
            && Resting(x.sweep, x.video, x.screen) && !CopyIsScreen(u, x)
  {
    var fb := LitCell(v);
    LitShows(v, fb);
    var last;
    w, es, last := LateSessionIsStale(u, q, v, fb, now);
    LeasedIsIn(Exec(u, w, es).table, (u.mac, u.id), last);
  }

  lemma LitShows(v: VideoState, fb: Segment)
    requires Admissible(v) && fb[0] == 1
    ensures !AgreesOn(Zeros(TEXT_BUFFER_SIZE), fb, 0, ScreenBytes(v))
  {
    var blank := Zeros(TEXT_BUFFER_SIZE);
    MulMonotone(1, v.textRows, Stride(v));
    assert blank[0] != fb[0];
  }

  lemma LeasedIsIn(t: Table, k: Key, last: nat)
    requires LeasedUntil(t, k, last)
    ensures InTable(t, k)
  {
  }

  // ----- a change taken back during its sweep -----

  /** The place is below the first chunk of a sweep. */
  predicate BelowFirst(v: VideoState, p: nat)
    requires Admissible(v)
  {
    Times(EndRow(v, 1), Stride(v)) <= p < ScreenBytes(v)
  }

  /** The sweep is over, its checksum is this one, and the copy is like this screen at p. */
  predicate Ended(u: Setup, y: World, v: VideoState, fb: Segment, sum: word, p: nat) {
    && y.video == v && y.screen == fb && y.sweep == SweepState(v.textRows, sum)
    && ClientReady(u, y) && p < TEXT_BUFFER_SIZE && ClientBuffer(u, y)[p] == fb[p]
  }

  /** A sweep's first tick, then a change of the screen, then the sweep's other ticks: below the first chunk
      the copy shows the changed screen, and the checksum on record is that of the first. */
  lemma ChangedMidSweep(u: Setup, x: World, fb1: Segment, now: dword, last: dword, p: nat) returns (es: seq<Event>)
    requires Admissible(x.video) && ClientReady(u, x) && SweepTicks(x.video) >= 2 && BelowFirst(x.video, p)
    requires StartsSweep(x.sweep, true, x.video, x.screen)
    requires LeasedUntil(x.table, (u.mac, u.id), last) && AllLast(x.table, last)
    requires now + SweepTicks(x.video) - 1 <= last
    ensures RunFrom(u, x, es) && AllDelivered(u, x, es)
    ensures Ended(u, Exec(u, x, es), x.video, fb1, ScreenChecksum(x.video, x.screen), p)
  {
    var a := FirstTick(u, x, now, last);
    var x1 := Exec(u, x, a);
    OneEvent(u, x1, WriteScreen(fb1));
    RunsJoin(u, x, a, [WriteScreen(fb1)]);
    DeliveriesJoin(u, x, a, [WriteScreen(fb1)]);
    var x2 := Step(u, x1, WriteScreen(fb1));
    var b := OtherTicks(u, x2, ScreenChecksum(x.video, x.screen), now + 1, last, p);
    RunsJoin(u, x, a + [WriteScreen(fb1)], b);
    DeliveriesJoin(u, x, a + [WriteScreen(fb1)], b);
    es := a + [WriteScreen(fb1)] + b;
  }

  lemma FirstTick(u: Setup, x: World, now: dword, last: dword) returns (es: seq<Event>)
    requires Admissible(x.video) && ClientReady(u, x) && StartsSweep(x.sweep, true, x.video, x.screen)
    requires LeasedUntil(x.table, (u.mac, u.id), last) && AllLast(x.table, last) && now <= last
    ensures Calm(u, x, es, now) && AllDelivered(u, x, es)
    ensures var y := Exec(u, x, es);
            && y.video == x.video && y.screen == x.screen && y.table == x.table && ClientReady(u, y)
            && y.sweep == SweepState(EndRow(x.video, 1), ScreenChecksum(x.video, x.screen))
  {
    es := TicksAndDeliveries(u, x, 1, now, last);
    StaysReady(u, x, es);
    var ins := StillTicks(u, x, es);
    ReachesLastRow(x.video, 0);
    SweepUnderWay(x.sweep, ins, x.video);
  }

  lemma OtherTicks(u: Setup, x: World, sum: word, now: dword, last: dword, p: nat) returns (es: seq<Event>)
    requires Admissible(x.video) && ClientReady(u, x) && SweepTicks(x.video) >= 2 && BelowFirst(x.video, p)
    requires x.sweep == SweepState(EndRow(x.video, 1), sum)
    requires LeasedUntil(x.table, (u.mac, u.id), last) && now + SweepTicks(x.video) - 2 <= last
    ensures RunFrom(u, x, es) && AllDelivered(u, x, es) && Ended(u, Exec(u, x, es), x.video, x.screen, sum, p)
  {
    es := TicksAndDeliveries(u, x, SweepTicks(x.video) - 1, now, last);
    StaysReady(u, x, es);
    OtherChunk(u, x, es, sum, p);
  }

  lemma OtherChunk(u: Setup, x: World, es: seq<Event>, sum: word, p: nat)
    requires Still(u, x, es) && Served(u, x, es) && OnlyFresh(u, x, es) && AllDelivered(u, x, es)
    requires x.sweep == SweepState(EndRow(x.video, 1), sum) && BelowFirst(x.video, p)
    requires TickCount(es) == SweepTicks(x.video) - 1
    ensures Exec(u, x, es).sweep == SweepState(x.video.textRows, sum)
    ensures p < ScreenBytes(x.video) && CopyAtEnd(u, x, es)[p] == x.screen[p]
  {
    var ins := StillTicks(u, x, es);
    var j, c := ChunkBelow(x.sweep, ins, x.video, sum, p);
    EmittedChunkIsSent(u, x, es, ins, j, c);
    ShownByteIsRight(u, x, es, c, p);
  }

  /** The other ticks send the byte. */
  lemma ChunkBelow(s: SweepState, ins: seq<TickInput>, v: VideoState, sum: word, p: nat) returns (j: nat, c: Chunk)
    requires Admissible(v) && InMode(ins, v) && |ins| == SweepTicks(v) - 1 && BelowFirst(v, p)
    requires s == SweepState(EndRow(v, 1), sum)
    ensures j < |Emitted(s, ins)| && Emitted(s, ins)[j] == c && Covers(c, v, p)
    ensures StateAfter(s, ins) == SweepState(v.textRows, sum)
  {
    var k := LaterChunkOfByte(v, p);
    RestOfSweep(s, ins, v, sum, k);
    j, c := k - 1, SweepChunk(v, k);
  }

  lemma LaterChunkOfByte(v: VideoState, p: nat) returns (k: nat)
    requires Admissible(v) && BelowFirst(v, p)
    ensures 1 <= k < SweepTicks(v) && Covers(SweepChunk(v, k), v, p)
  {
    k := ChunkOfByte(v, p);
    assert SweepChunk(v, 0) == Chunk(0, EndRow(v, 1));
  }

  /** A screen changes during its sweep and is as before at the end: every frame was delivered, nothing more
      will be sent, and byte p of the copy is the changed one. By `StaysStale` it stays so. */
  lemma RevertedChangeIsStale(u: Setup, v: VideoState, fb0: Segment, fb1: Segment, p: nat, now: dword)
    returns (w: World, es: seq<Event>)
    requires Admissible(v) && ScreenChecksum(v, fb0) != 0 && SweepTicks(v) >= 2
    requires BelowFirst(v, p) && fb0[p] != fb1[p]
    requires u.mac != NULL_MAC && now + LIFETIME < 0x1_0000_0000
    ensures Init(w) && w.screen == fb0 && RunFrom(u, w, es) && AllDelivered(u, w, es)
    ensures var x := Exec(u, w, es);
            && ClientReady(u, x) && x.video == v && x.screen == fb0 && Resting(x.sweep, v, fb0)
            && ClientBuffer(u, x)[p] == fb1[p] && !CopyIsScreen(u, x)
  {
    w := StartWorld(v, fb0);
    var a, x := Greets(u, w, now);
    FirstLease((u.mac, u.id), now);
    SweepsAreShort(v);
    var b := ChangedMidSweep(u, x, fb1, now, now + LIFETIME, p);
    RunsJoin(u, w, a, b);
    DeliveriesJoin(u, w, a, b);
    var y := Exec(u, w, a + b);
    OneEvent(u, y, WriteScreen(fb0));
    RunsJoin(u, w, a + b, [WriteScreen(fb0)]);
    DeliveriesJoin(u, w, a + b, [WriteScreen(fb0)]);
    es := a + b + [WriteScreen(fb0)];
  }

  /** The common mode of 25 rows of 80 columns is such a mode, and 1440 such a place. */
  lemma CommonMode(v: VideoState)
    requires v.textRows == 25 && v.textCols == 80
    ensures Admissible(v) && SweepTicks(v) == 3 && BelowFirst(v, 1440)
  {
    TimesIs(25, 160);
    TimesIs(9, 160);
    QuotientIs(VIDEO_ROOM, 160);
    QuotientIs(33, 9);
    assert RowsPerFrame(v) == 9;
    assert EndRow(v, 0) == 0 && EndRow(v, 1) == 9;
  }

  lemma RevertedInCommonMode(u: Setup, v: VideoState, now: dword) returns (w: World, es: seq<Event>)
    requires v.textRows == 25 && v.textCols == 80 && u.mac != NULL_MAC && now + LIFETIME < 0x1_0000_0000
    ensures Init(w) && RunFrom(u, w, es) && AllDelivered(u, w, es)
    ensures var x := Exec(u, w, es);
            && ClientReady(u, x) && x.video == v && x.screen == w.screen
            && Resting(x.sweep, x.video, x.screen) && !CopyIsScreen(u, x)
  {
    CommonMode(v);
    var fb0 := LitCell(v);
    var fb1: Segment := fb0[1440 := if fb0[1440] == 0 then 1 else 0];
    w, es := RevertedChangeIsStale(u, v, fb0, fb1, 1440, now);
  }

  // ----- a frame that arrives too late -----

  /** The copy is right, then a frame of an earlier screen is delivered once more: byte p is as it was on
      that screen, and by `StaysStale` stays so. */
  lemma LeftoverIsStale(u: Setup, v: VideoState, fb1: Segment, fb2: Segment, p: nat, now: dword)
    returns (w: World, es: seq<Event>, f: Frame)
    requires Admissible(v) && ScreenChecksum(v, fb1) != 0 && ScreenChecksum(v, fb2) != ScreenChecksum(v, fb1)
    requires p < ScreenBytes(v) && fb1[p] != fb2[p] && u.mac != NULL_MAC && now + LIFETIME < 0x1_0000_0000
    ensures Init(w) && RunFrom(u, w, es) && ClientReady(u, Exec(u, w, es)) && CopyIsScreen(u, Exec(u, w, es))
    ensures RunFrom(u, w, es + [Deliver(f)])
    ensures var x := Exec(u, w, es + [Deliver(f)]);
            && ClientReady(u, x) && x.video == v && x.screen == fb2 && Resting(x.sweep, v, fb2)
            && ClientBuffer(u, x)[p] == fb1[p] && !CopyIsScreen(u, x)
  {
    w := StartWorld(v, fb1);
    var a, x := Greets(u, w, now);
    FirstLease((u.mac, u.id), now);
    SweepsAreShort(v);
    var b, g := TwoScreens(u, x, fb2, p, now, now + LIFETIME);
    RunsJoin(u, w, a, b);
    es, f := a + b, g;
    var y := Exec(u, w, es);
    RunGrows(u, w, es, Deliver(f));
    StepByte(u, y, Deliver(f), p);
  }

  /** Every mode has such a run: a lit cell goes out, and the frame that lit it arrives again. */
  lemma LeftoverInEveryMode(u: Setup, v: VideoState, now: dword) returns (w: World, es: seq<Event>, f: Frame)
    requires Admissible(v) && u.mac != NULL_MAC && now + LIFETIME < 0x1_0000_0000
    ensures Init(w) && RunFrom(u, w, es) && ClientReady(u, Exec(u, w, es)) && CopyIsScreen(u, Exec(u, w, es))
    ensures RunFrom(u, w, es + [Deliver(f)])
    ensures var x := Exec(u, w, es + [Deliver(f)]);
            && ClientReady(u, x) && x.video == v && Resting(x.sweep, x.video, x.screen) && !CopyIsScreen(u, x)
  {
    var fb := LitCell(v);
    var blank: Segment := Zeros(0x1_0000);
    ScreenIsNotEmpty(v);
    w, es, f := LeftoverIsStale(u, v, fb, blank, 0, now);
  }

  lemma ScreenIsNotEmpty(v: VideoState)
    requires Admissible(v)
    ensures 0 < ScreenBytes(v)
  {
    MulMonotone(1, v.textRows, Stride(v));
    assert Times(1, Stride(v)) == Stride(v);
  }

  /** One screen shown in full, then another; f is a frame of the first that differs at p. */
  lemma TwoScreens(u: Setup, x: World, fb2: Segment, p: nat, now: dword, last: dword) returns (es: seq<Event>, f: Frame)
    requires Admissible(x.video) && ClientReady(u, x) && StartsSweep(x.sweep, true, x.video, x.screen)
    requires ScreenChecksum(x.video, fb2) != ScreenChecksum(x.video, x.screen) && p < ScreenBytes(x.video)
    requires LeasedUntil(x.table, (u.mac, u.id), last) && AllLast(x.table, last)
    requires now + 2 * SweepTicks(x.video) - 1 <= last
    ensures RunFrom(u, x, es)
    ensures var y := Exec(u, x, es);
            && ClientReady(u, y) && CopyIsScreen(u, y) && y.video == x.video && y.screen == fb2
            && Resting(y.sweep, x.video, fb2) && Enabled(u, y, Deliver(f))
            && Writes(u, Deliver(f), p) && ByteFor(f, p) == x.screen[p]
  {
    var a := ShowScreen(u, x, now, last);
    var x1 := Exec(u, x, a);
    f := FrameOfByte(u, x, a, p);
    OneEvent(u, x1, WriteScreen(fb2));
    RunsJoin(u, x, a, [WriteScreen(fb2)]);
    var x2 := Step(u, x1, WriteScreen(fb2));
    var b := ShowScreen(u, x2, now + SweepTicks(x.video), last);
    RunsJoin(u, x, a + [WriteScreen(fb2)], b);
    SentExtends(u, x2, b);
    es := a + [WriteScreen(fb2)] + b;
    assert f in x1.sent && x1.sent == x2.sent;
  }

  lemma FrameOfByte(u: Setup, x: World, es: seq<Event>, p: nat) returns (f: Frame)
    requires SweepHolds(u, x, es) && p < ScreenBytes(x.video)
    ensures f in Exec(u, x, es).sent && ForClient(u, f) && Writes(u, Deliver(f), p) && ByteFor(f, p) == x.screen[p]
  {
    var k := ChunkOfByte(x.video, p);
    SweepReachesClient(u, x, es, k);
    f := FrameOfChunk(u, x, es, SweepChunk(x.video, k));
    FrameShowsByte(u, f, x.video, SweepChunk(x.video, k), x.screen, p);
  }

  lemma FrameOfChunk(u: Setup, x: World, es: seq<Event>, c: Chunk) returns (f: Frame)
    requires RunFrom(u, x, es) && HoldsStill(es, x.video, x.screen)
    requires SomeShowsChunk(u, NewlySent(u, x, es), x.video, c)
    ensures f in Exec(u, x, es).sent && ShowsChunk(u, f, x.video, c) && Agrees(f, x.screen)
  {
    NewFramesAgree(u, x, es, x.video, x.screen);
    var fs := NewlySent(u, x, es);
    var i :| 0 <= i < |fs| && ShowsChunk(u, fs[i], x.video, c);
    f := fs[i];
    assert f in fs;
  }

  lemma FrameShowsByte(u: Setup, f: Frame, v: VideoState, c: Chunk, fb: Segment, p: nat)
    requires ShowsChunk(u, f, v, c) && Agrees(f, fb) && Covers(c, v, p)
    ensures Writes(u, Deliver(f), p) && ByteFor(f, p) == fb[p]
  {
    AgreedByte(f, fb, p);
  }
}
