/** When the client's copy of the screen is the screen: what a sweep of a screen that holds still comes to,
    and exactly when that is enough. */
module Convergence {
  import opened Wire
  import opened Sessions
  import L = Lease
  import opened Video
  import opened Sweep
  import opened Client
  import opened Mirror
  import opened Sending
  import opened Copying

  // ----- still screens -----

  predicate Still(u: Setup, w: World, es: seq<Event>) {
    RunFrom(u, w, es) && Admissible(w.video) && ClientReady(u, w) && HoldsStill(es, w.video, w.screen)
  }

  predicate CopyIsScreen(u: Setup, w: World)
    requires ClientReady(u, w)
  {
    Admissible(w.video) && AgreesOn(ClientBuffer(u, w), w.screen, 0, ScreenBytes(w.video))
  }

  lemma StillEnds(u: Setup, w: World, es: seq<Event>)
    requires Still(u, w, es)
    ensures ClientReady(u, Exec(u, w, es)) && Admissible(Exec(u, w, es).video) && Exec(u, w, es).screen == w.screen
    ensures CopyIsScreen(u, Exec(u, w, es)) <==> AgreesOn(CopyAtEnd(u, w, es), w.screen, 0, ScreenBytes(w.video))
  {
    StaysReady(u, w, es);
    StillRun(u, w, es, w.video, w.screen);
  }

  // ----- convergence -----

  /** What the server sends from event m on. */
  function SentFrom(u: Setup, w: World, es: seq<Event>, m: nat): seq<Frame>
    requires RunFrom(u, w, es) && m <= |es|
  {
    SuffixRuns(u, w, es, m);
    NewlySent(u, Exec(u, w, es[..m]), es[m..])
  }

  /** Of what it sends to our client from then on, everything settles. Nothing is asked of what it sent
      before, and leftovers may arrive as long as the sweep's frames come after them. */
  predicate SettlesFrom(u: Setup, w: World, es: seq<Event>, m: nat, fb: Segment)
    requires RunFrom(u, w, es) && m <= |es|
  {
    forall f :: f in SentFrom(u, w, es, m) && ForClient(u, f) ==> Settled(u, es, f, fb)
  }

  /** A sweep begins here, and through its ticks the screen holds still and our client is served. */
  predicate SweepHolds(u: Setup, x: World, rest: seq<Event>) {
    && RunFrom(u, x, rest) && Admissible(x.video) && StartsSweep(x.sweep, true, x.video, x.screen)
    && HoldsStill(rest, x.video, x.screen) && Served(u, x, rest) && TickCount(rest) >= SweepTicks(x.video)
  }

  /** Each chunk of the sweep is among the frames sent to our client. */
  lemma SweepReachesClient(u: Setup, x: World, rest: seq<Event>, k: nat)
    requires SweepHolds(u, x, rest) && k < SweepTicks(x.video)
    ensures SomeShowsChunk(u, NewlySent(u, x, rest), x.video, SweepChunk(x.video, k))
  {
    var ins := StillTicks(u, x, rest);
    SweepSendsItsChunks(x.sweep, ins, x.video, x.screen);
    assert Emitted(x.sweep, ins)[k] == SweepChunk(x.video, k);
    EmittedChunkIsSent(u, x, rest, ins, k, SweepChunk(x.video, k));
  }

  /** From an event m at which a sweep begins: if the screen and its mode hold still while the server ticks
      at least ceil(rows / rows per frame) times with our client in its table, and each frame it then
      sends to the client is delivered at least once after the last differing update that overlaps it,
      in any order, any number of times and mixed with anything else, then the copy is the screen. */
  lemma MirrorConverges(u: Setup, w: World, es: seq<Event>, m: nat)
    requires RunFrom(u, w, es) && ClientReady(u, w) && m <= |es| && RunFrom(u, w, es[..m])
    requires SweepHolds(u, Exec(u, w, es[..m]), es[m..])
    requires SettlesFrom(u, w, es, m, Exec(u, w, es[..m]).screen)
    ensures ClientReady(u, Exec(u, w, es)) && CopyIsScreen(u, Exec(u, w, es))
  {
    var x, rest := Exec(u, w, es[..m]), es[m..];
    SuffixRuns(u, w, es, m);
    StaysReady(u, w, es);
    StillRun(u, x, rest, x.video, x.screen);
    forall p | 0 <= p < ScreenBytes(x.video) ensures CopyAtEnd(u, w, es)[p] == x.screen[p] {
      ByteConverges(u, w, es, m, p);
    }
  }

  lemma ByteConverges(u: Setup, w: World, es: seq<Event>, m: nat, p: nat)
    requires RunFrom(u, w, es) && ClientReady(u, w) && m <= |es| && RunFrom(u, w, es[..m])
    requires SweepHolds(u, Exec(u, w, es[..m]), es[m..])
    requires SettlesFrom(u, w, es, m, Exec(u, w, es[..m]).screen) && p < ScreenBytes(Exec(u, w, es[..m]).video)
    ensures CopyAtEnd(u, w, es)[p] == Exec(u, w, es[..m]).screen[p]
  {
    var x, rest := Exec(u, w, es[..m]), es[m..];
    var k := ChunkOfByte(x.video, p);
    SweepReachesClient(u, x, rest, k);
    NewFramesAgree(u, x, rest, x.video, x.screen);
    var fs := NewlySent(u, x, rest);
    var i :| 0 <= i < |fs| && ShowsChunk(u, fs[i], x.video, SweepChunk(x.video, k));
    assert fs[i] in SentFrom(u, w, es, m);
    DeliveredStays(u, w, es, fs[i], x.screen);
  }

  predicate SweepDueAt(u: Setup, w: World, es: seq<Event>, m: nat)
    requires RunFrom(u, w, es) && m <= |es|
  {
    PrefixRuns(u, w, es, m);
    StartsSweep(Exec(u, w, es[..m]).sweep, true, w.video, w.screen)
  }

  /** Any screen whose checksum is not the one on record: the sweep under way is finished, another
      follows, and if what is sent from there on settles, the copy is the screen within the ticks of two
      sweeps. Frames of the unfinished sweep may be lost. */
  lemma MirrorConvergesFromDifference(u: Setup, w: World, es: seq<Event>)
    requires Still(u, w, es) && Served(u, w, es) && TickCount(es) >= 2 * SweepTicks(w.video)
    requires w.sweep.chksum != ScreenChecksum(w.video, w.screen)
    requires forall m :: 0 <= m <= |es| && SweepDueAt(u, w, es, m) ==> SettlesFrom(u, w, es, m, w.screen)
    ensures ClientReady(u, Exec(u, w, es)) && CopyIsScreen(u, Exec(u, w, es))
  {
    var m := SweepComesDue(u, w, es);
    MirrorConverges(u, w, es, m);
  }

  /** The event at which that sweep begins. */
  lemma SweepComesDue(u: Setup, w: World, es: seq<Event>) returns (m: nat)
    requires Still(u, w, es) && Served(u, w, es) && TickCount(es) >= 2 * SweepTicks(w.video)
    requires w.sweep.chksum != ScreenChecksum(w.video, w.screen)
    ensures m <= |es| && RunFrom(u, w, es[..m]) && SweepDueAt(u, w, es, m)
    ensures SweepHolds(u, Exec(u, w, es[..m]), es[m..]) && Exec(u, w, es[..m]).screen == w.screen
  {
    var v, fb := w.video, w.screen;
    m := PrefixToStart(u, w, es);
    StillRun(u, w, es[..m], v, fb);
    ServedSuffix(u, w, es, m);
  }

  lemma PrefixToStart(u: Setup, w: World, es: seq<Event>) returns (m: nat)
    requires Still(u, w, es) && Served(u, w, es) && TickCount(es) >= 2 * SweepTicks(w.video)
    requires w.sweep.chksum != ScreenChecksum(w.video, w.screen)
    ensures m <= |es| && RunFrom(u, w, es[..m]) && TickCount(es[m..]) >= SweepTicks(w.video)
    ensures StartsSweep(Exec(u, w, es[..m]).sweep, true, w.video, w.screen)
  {
    var ins := StillTicks(u, w, es);
    ReachesLastRow(w.video, 0);
    var j := DifferentChecksumRestarts(w.sweep, ins, w.video, w.screen);
    m := PrefixWithTicks(u, w, es, j);
    SweepFollowsTicks(u, w, es[..m]);
  }

  /** If one cell of the screen is not as it was when the last sweep began, the change reaches the
      client, and with it the rest of the screen. */
  lemma OneCellChangeIsMirrored(u: Setup, w: World, es: seq<Event>, fb0: Segment)
    requires Still(u, w, es) && Served(u, w, es) && TickCount(es) >= 2 * SweepTicks(w.video)
    requires w.sweep.chksum == ScreenChecksum(w.video, fb0)
    requires DifferInOneCell(CheckedWords(w.video, fb0), CheckedWords(w.video, w.screen))
    requires forall m :: 0 <= m <= |es| && SweepDueAt(u, w, es, m) ==> SettlesFrom(u, w, es, m, w.screen)
    ensures ClientReady(u, Exec(u, w, es)) && CopyIsScreen(u, Exec(u, w, es))
  {
    OneCellChangesChecksum(CheckedWords(w.video, fb0), CheckedWords(w.video, w.screen));
    MirrorConvergesFromDifference(u, w, es);
  }

  // ----- exactly when -----

  /** The byte is among the rows that are still to be sent. */
  predicate StillToCome(w: World, p: nat) {
    StartRow(w.sweep, w.video) > 0 && Times(StartRow(w.sweep, w.video), Stride(w.video)) <= p
  }

  /** Byte by byte: with the screen still, the client served for the ticks of two sweeps, and all it is
      sent delivered and nothing older, a byte of the copy is right at the end exactly when the checksum
      of the screen is not the one on record, or the sweep under way has yet to come to that byte, or it
      was right before. */
  lemma ByteMirroredIff(u: Setup, w: World, es: seq<Event>, p: nat)
    requires Still(u, w, es) && Served(u, w, es) && TickCount(es) >= 2 * SweepTicks(w.video)
    requires OnlyFresh(u, w, es) && AllDelivered(u, w, es) && p < ScreenBytes(w.video)
    ensures CopyAtEnd(u, w, es)[p] == w.screen[p] <==>
            || w.sweep.chksum != ScreenChecksum(w.video, w.screen)
            || StillToCome(w, p)
            || ClientBuffer(u, w)[p] == w.screen[p]
  {
    var ins := StillTicks(u, w, es);
    SentBytesIff(w.sweep, ins, w.video, w.screen, p);
    if CoveredBy(Emitted(w.sweep, ins), w.video, p) {
      CoveredIsRight(u, w, es, p);
    } else {
      UncoveredIsNeverWritten(u, w, es, p);
      NeverWrittenStays(u, w, es, p);
    }
  }

  lemma CoveredIsRight(u: Setup, w: World, es: seq<Event>, p: nat)
    requires Still(u, w, es) && Served(u, w, es) && OnlyFresh(u, w, es) && AllDelivered(u, w, es)
    requires p < ScreenBytes(w.video) && CoveredBy(Emitted(w.sweep, TickInputs(u, w, es)), w.video, p)
    ensures CopyAtEnd(u, w, es)[p] == w.screen[p]
  {
    var cs := Emitted(w.sweep, TickInputs(u, w, es));
    var j :| 0 <= j < |cs| && Covers(cs[j], w.video, p);
    EmittedChunkIsSent(u, w, es, TickInputs(u, w, es), j, cs[j]);
    ShownByteIsRight(u, w, es, cs[j], p);
  }

  lemma ShownByteIsRight(u: Setup, w: World, es: seq<Event>, c: Chunk, p: nat)
    requires Still(u, w, es) && OnlyFresh(u, w, es) && AllDelivered(u, w, es)
    requires SomeShowsChunk(u, NewlySent(u, w, es), w.video, c)
    requires p < ScreenBytes(w.video) && Covers(c, w.video, p)
    ensures CopyAtEnd(u, w, es)[p] == w.screen[p]
  {
    var fs := NewlySent(u, w, es);
    var i :| 0 <= i < |fs| && ShowsChunk(u, fs[i], w.video, c);
    SentIsRight(u, w, es, fs[i]);
    assert AgreesOn(CopyAtEnd(u, w, es), w.screen, VideoOffset(fs[i]), VideoOffset(fs[i]) + VideoCount(fs[i]));
  }

  lemma SentIsRight(u: Setup, w: World, es: seq<Event>, f: Frame)
    requires Still(u, w, es) && OnlyFresh(u, w, es) && AllDelivered(u, w, es)
    requires f in NewlySent(u, w, es) && ForClient(u, f)
    ensures VideoOffset(f) + VideoCount(f) <= TEXT_BUFFER_SIZE
    ensures AgreesOn(CopyAtEnd(u, w, es), w.screen, VideoOffset(f), VideoOffset(f) + VideoCount(f))
  {
    NewFramesAgree(u, w, es, w.video, w.screen);
    FreshIsCurrent(u, w, es, w.video, w.screen);
    CurrentSettles(u, es, f, w.screen);
    DeliveredStays(u, w, es, f, w.screen);
  }

  lemma UncoveredIsNeverWritten(u: Setup, w: World, es: seq<Event>, p: nat)
    requires Still(u, w, es) && OnlyFresh(u, w, es)
    requires !CoveredBy(Emitted(w.sweep, TickInputs(u, w, es)), w.video, p)
    ensures NeverWritten(u, es, p)
  {
    forall i | 0 <= i < |es| && Pastes(u, es[i]) ensures !Writes(u, es[i], p) {
      assert SentSince(u, w, es, i);
      SentSincePrefix(u, w, es, i);
      FrameMissesByte(u, w, es, es[i].frame, p);
    }
  }

  lemma FrameMissesByte(u: Setup, w: World, es: seq<Event>, f: Frame, p: nat)
    requires Still(u, w, es) && f in NewlySent(u, w, es) && ForClient(u, f)
    requires !CoveredBy(Emitted(w.sweep, TickInputs(u, w, es)), w.video, p)
    ensures !CoversByte(f, p)
  {
    var cs := Emitted(w.sweep, TickInputs(u, w, es));
    SentFramesAreChunks(u, w, es, w.video, w.screen, f);
    var j :| 0 <= j < |cs| && ShowsChunk(u, f, w.video, cs[j]);
    assert !Covers(cs[j], w.video, p);
  }

  /** How much of the screen, from its top, will not be sent again while its checksum is on record. */
  function Unsent(w: World): (n: nat)
    requires Admissible(w.video)
    ensures n <= ScreenBytes(w.video) <= TEXT_BUFFER_SIZE
  {
    MulMonotone(StartRow(w.sweep, w.video), w.video.textRows, Stride(w.video));
    if StartRow(w.sweep, w.video) == 0 then ScreenBytes(w.video) else Times(StartRow(w.sweep, w.video), Stride(w.video))
  }

  /** Exactly when the copy of a still screen comes to be the screen: when the checksum of the screen is not
      the one recorded as the last sweep began, or the part that will not be sent again is right
      already. */
  lemma MirrorConvergesIff(u: Setup, w: World, es: seq<Event>)
    requires Still(u, w, es) && Served(u, w, es) && TickCount(es) >= 2 * SweepTicks(w.video)
    requires OnlyFresh(u, w, es) && AllDelivered(u, w, es)
    ensures ClientReady(u, Exec(u, w, es))
    ensures CopyIsScreen(u, Exec(u, w, es)) <==>
            || w.sweep.chksum != ScreenChecksum(w.video, w.screen)
            || AgreesOn(ClientBuffer(u, w), w.screen, 0, Unsent(w))
  {
    StillEnds(u, w, es);
    forall p | 0 <= p < ScreenBytes(w.video)
      ensures CopyAtEnd(u, w, es)[p] == w.screen[p] <==>
              || w.sweep.chksum != ScreenChecksum(w.video, w.screen)
              || p >= Unsent(w)
              || ClientBuffer(u, w)[p] == w.screen[p]
    {
      ByteMirroredIff(u, w, es, p);
    }
  }

  /** While the checksum on record is that of the screen, no row above the sweep's place leaves the server,
      whoever starts a session meanwhile; and at rest none leaves it at all. */
  lemma LateSessionSeesNothing(u: Setup, w: World, es: seq<Event>)
    requires Still(u, w, es) && OnlyFresh(u, w, es) && w.sweep.chksum == ScreenChecksum(w.video, w.screen)
    ensures Exec(u, w, es).sweep.chksum == w.sweep.chksum
    ensures forall f :: f in NewlySent(u, w, es) && ForClient(u, f) ==> StillToCome(w, VideoOffset(f))
    ensures forall p :: 0 <= p < ScreenBytes(w.video) && !StillToCome(w, p) ==>
              CopyAtEnd(u, w, es)[p] == ClientBuffer(u, w)[p]
  {
    var v, fb, ins := w.video, w.screen, TickInputs(u, w, es);
    StillRun(u, w, es, v, fb);
    OnlyRowsBelow(w.sweep, ins, v, fb);
    SweepFollowsTicks(u, w, es);
    forall f | f in NewlySent(u, w, es) && ForClient(u, f) ensures StillToCome(w, VideoOffset(f)) {
      FrameIsBelow(u, w, es, f);
    }
    forall p | 0 <= p < ScreenBytes(v) && !StillToCome(w, p) ensures CopyAtEnd(u, w, es)[p] == ClientBuffer(u, w)[p] {
      NoByteSent(w.sweep, ins, v, fb, p);
      UncoveredIsNeverWritten(u, w, es, p);
      NeverWrittenStays(u, w, es, p);
    }
  }

  lemma FrameIsBelow(u: Setup, w: World, es: seq<Event>, f: Frame)
    requires Still(u, w, es) && w.sweep.chksum == ScreenChecksum(w.video, w.screen)
    requires f in NewlySent(u, w, es) && ForClient(u, f)
    ensures StillToCome(w, VideoOffset(f))
  {
    var v, fb, ins := w.video, w.screen, TickInputs(u, w, es);
    var cs := Emitted(w.sweep, ins);
    StillRun(u, w, es, v, fb);
    SentFramesAreChunks(u, w, es, v, fb, f);
    var j :| 0 <= j < |cs| && ShowsChunk(u, f, v, cs[j]);
    if StartRow(w.sweep, v) == 0 {
      RestingStaysSilent(w.sweep, ins, v, fb);
      assert false;
    } else {
      OnlyRowsBelow(w.sweep, ins, v, fb);
      MulMonotone(StartRow(w.sweep, v), cs[j].first, Stride(v));
    }
  }

  // ----- with the lease made explicit -----

  /** The event of the session table that an event of the system is, if it is one. */
  function TableEvent(e: Event): seq<L.Event> {
    if e.Tick? then [L.Tick(e.now)] else if e.StartSession? then [L.Refresh(e.key, e.now)] else []
  }

  function TableEvents(es: seq<Event>): seq<L.Event> {
    if es == [] then [] else TableEvents(es[..|es| - 1]) + TableEvent(es[|es| - 1])
  }

  lemma StepTable(u: Setup, x: World, e: Event)
    requires Enabled(u, x, e)
    ensures Step(u, x, e).table == L.Exec(x.table, TableEvent(e))
  {
    assert TableEvent(e) != [] ==> TableEvent(e)[..|TableEvent(e)| - 1] == [];
  }

  lemma {:induction false} TableFollowsLeases(u: Setup, w: World, es: seq<Event>)
    requires RunFrom(u, w, es)
    ensures Exec(u, w, es).table == L.Exec(w.table, TableEvents(es))
  {
    if es != [] {
      var before, e := es[..|es| - 1], es[|es| - 1];
      TableFollowsLeases(u, w, before);
      StepTable(u, Exec(u, w, before), e);
      L.ExecCompose(w.table, TableEvents(before), TableEvent(e));
    }
  }

  lemma {:induction false} TableEventsPrefix(es: seq<Event>, n: nat)
    requires n <= |es|
    ensures TableEvents(es[..n]) <= TableEvents(es)
  {
    if n < |es| {
      TableEventsPrefix(es[..|es| - 1], n);
      assert es[..|es| - 1][..n] == es[..n];
    } else {
      assert es[..n] == es;
    }
  }

  /** A client whose refreshes are timely is served at every tick. */
  lemma TimelyClientIsServed(u: Setup, w: World, es: seq<Event>)
    requires RunFrom(u, w, es) && TableInv(w.table) && L.Admissible(TableEvents(es))
    requires (u.mac, u.id) in Leases(w.table) && Leases(w.table)[(u.mac, u.id)] + LIFETIME < 0x1_0000_0000
    requires L.Timely(TableEvents(es), (u.mac, u.id), Leases(w.table)[(u.mac, u.id)])
    ensures Served(u, w, es)
  {
    L.SurvivesIffTimely(w.table, TableEvents(es), (u.mac, u.id));
    forall i | 0 <= i < |es| && es[i].Tick? ensures ServedAt(u, w, es, i) {
      TimelyServedAt(u, w, es, i);
    }
  }

  lemma TimelyServedAt(u: Setup, w: World, es: seq<Event>, i: nat)
    requires RunFrom(u, w, es) && TableInv(w.table) && L.Admissible(TableEvents(es)) && i < |es| && es[i].Tick?
    requires L.LeasedThroughout(w.table, TableEvents(es), (u.mac, u.id))
    ensures ServedAt(u, w, es, i)
  {
    var ts, upto := TableEvents(es), TableEvents(es[..i + 1]);
    TableEventsPrefix(es, i + 1);
    L.LeasedAt(w.table, ts, (u.mac, u.id), |upto|);
    assert upto == ts[..|upto|];
    TableAfterTick(u, w, es, i);
  }

  lemma TableAfterTick(u: Setup, w: World, es: seq<Event>, i: nat)
    requires RunFrom(u, w, es) && i < |es| && es[i].Tick?
    ensures RunFrom(u, w, es[..i])
    ensures PruneTable(Exec(u, w, es[..i]).table, es[i].now) == L.Exec(w.table, TableEvents(es[..i + 1]))
  {
    var upto := es[..i + 1];
    PrefixRuns(u, w, es, i);
    PrefixRuns(u, w, es, i + 1);
    assert upto[..|upto| - 1] == es[..i] && upto[|upto| - 1] == es[i];
    TableFollowsLeases(u, w, upto);
    assert Exec(u, w, upto) == Step(u, Exec(u, w, es[..i]), es[i]);
  }

  /** Convergence for a client that keeps refreshing its session in time. */
  lemma MirrorConvergesForTimelyClient(u: Setup, w: World, es: seq<Event>)
    requires Still(u, w, es) && TickCount(es) >= 2 * SweepTicks(w.video)
    requires w.sweep.chksum != ScreenChecksum(w.video, w.screen)
    requires TableInv(w.table) && L.Admissible(TableEvents(es))
    requires (u.mac, u.id) in Leases(w.table) && Leases(w.table)[(u.mac, u.id)] + LIFETIME < 0x1_0000_0000
    requires L.Timely(TableEvents(es), (u.mac, u.id), Leases(w.table)[(u.mac, u.id)])
    requires forall m :: 0 <= m <= |es| && SweepDueAt(u, w, es, m) ==> SettlesFrom(u, w, es, m, w.screen)
    ensures ClientReady(u, Exec(u, w, es)) && CopyIsScreen(u, Exec(u, w, es))
  {
    TimelyClientIsServed(u, w, es);
    MirrorConvergesFromDifference(u, w, es);
  }

  /** And for one that just lets its timer run and has at least one start request in three arrive. */
  lemma MirrorConvergesThroughLoss(u: Setup, w: World, es: seq<Event>, polls: seq<nat>, last: nat,
                                   arrives: seq<bool>, at: seq<nat>)
    requires Still(u, w, es) && TickCount(es) >= 2 * SweepTicks(w.video)
    requires w.sweep.chksum != ScreenChecksum(w.video, w.screen)
    requires TableInv(w.table)
    requires L.RefreshedThroughLoss(w.table, (u.mac, u.id), polls, last, arrives, TableEvents(es), at)
    requires forall m :: 0 <= m <= |es| && SweepDueAt(u, w, es, m) ==> SettlesFrom(u, w, es, m, w.screen)
    ensures ClientReady(u, Exec(u, w, es)) && CopyIsScreen(u, Exec(u, w, es))
  {
    L.TwoLossesInThreeTolerated(w.table, (u.mac, u.id), polls, last, arrives, TableEvents(es), at);
    forall i | 0 <= i < |es| && es[i].Tick? ensures ServedAt(u, w, es, i) {
      TimelyServedAt(u, w, es, i);
    }
    MirrorConvergesFromDifference(u, w, es);
  }
}
