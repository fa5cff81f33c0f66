/** Timer ticks that find no session in use (src/server/session.c): they send nothing and take the sweep back to
    the top of the screen, so whoever starts a session later is sent the screen from its first row or, if its
    checksum is on record, not at all. */
module Idle {
  import opened Wire
  import opened Sessions
  import opened Video
  import opened Sweep
  import opened Client
  import opened Exchange
  import opened Mirror
  import opened Sending

  // ----- the sweep alone -----

  /** If anything is sent, the top of the screen is sent first. */
  predicate FromTheTop(cs: seq<Chunk>) {
    cs != [] ==> cs[0].first == 0
  }

  /** A tick that sends nothing, for want of a session or of a change, leaves the sweep at the top and the
      checksum on record as it was. */
  lemma SilentTick(s: SweepState, i: TickInput)
    requires Admissible(i.video)
    ensures !i.active ==> TickChunks(s, i) == []
    ensures TickChunks(s, i) == [] ==>
              SweepTick(s, i.active, i.video, i.fb).state == SweepState(0, s.chksum)
  {
  }

  /** From the top, whatever modes and screens the ticks meet. */
  lemma {:induction false} TopComesFirst(s: SweepState, ins: seq<TickInput>)
    requires AllAdmissible(ins) && s.nextRow == 0
    ensures FromTheTop(Emitted(s, ins))
    ensures Emitted(s, ins) == [] ==> StateAfter(s, ins) == s
  {
    if ins != [] {
      var before, i := ins[..|ins| - 1], ins[|ins| - 1];
      TopComesFirst(s, before);
      SilentTick(StateAfter(s, before), i);
      assert Emitted(s, ins) == Emitted(s, before) + TickChunks(StateAfter(s, before), i);
    }
  }

  /** A tick without a session in the middle of any run: it sends nothing, the sweep is at the top again with the
      checksum on record as it was, and the next chunk any later tick sends begins at row 0. */
  lemma RestartAfterIdle(s: SweepState, ins: seq<TickInput>, n: nat)
    requires AllAdmissible(ins) && n < |ins| && !ins[n].active
    ensures StateAfter(s, ins[..n + 1]) == SweepState(0, StateAfter(s, ins[..n]).chksum)
    ensures Emitted(s, ins[..n + 1]) == Emitted(s, ins[..n])
    ensures Emitted(s, ins) == Emitted(s, ins[..n]) + Emitted(StateAfter(s, ins[..n + 1]), ins[n + 1..])
    ensures FromTheTop(Emitted(StateAfter(s, ins[..n + 1]), ins[n + 1..]))
  {
    assert ins[..n + 1][..n] == ins[..n];
    SilentTick(StateAfter(s, ins[..n]), ins[n]);
    EmittedSplit(s, ins, n + 1);
    TopComesFirst(StateAfter(s, ins[..n + 1]), ins[n + 1..]);
  }

  /** From the top, a screen that holds still is sent to the sessions there are chunk by chunk from the first,
      or not at all if its checksum is on record. */
  lemma ServedFromTheTop(s: SweepState, ins: seq<TickInput>, v: VideoState, fb: Segment)
    requires Admissible(v) && AllAdmissible(ins) && Stable(ins, v, fb) && AllActive(ins) && s.nextRow == 0
    ensures Emitted(s, ins) ==
            if s.chksum == ScreenChecksum(v, fb) then []
            else Chunks(v, if |ins| < SweepTicks(v) then |ins| else SweepTicks(v))
  {
    if s.chksum == ScreenChecksum(v, fb) {
      RestingStaysSilent(s, ins, v, fb);
    } else if ins != [] {
      SweepSendsItsChunks(s, ins, v, fb);
    } else {
      ReachesLastRow(v, 0);
    }
  }

  /** The two together: what a session gets that starts after a tick which found none. */
  lemma ServedAfterIdle(s: SweepState, ins: seq<TickInput>, n: nat, v: VideoState, fb: Segment)
    requires Admissible(v) && AllAdmissible(ins) && n < |ins| && !ins[n].active
    requires Stable(ins[n + 1..], v, fb) && AllActive(ins[n + 1..])
    ensures var m := |ins| - n - 1;
            Emitted(s, ins) == Emitted(s, ins[..n]) +
                               if StateAfter(s, ins[..n]).chksum == ScreenChecksum(v, fb) then []
                               else Chunks(v, if m < SweepTicks(v) then m else SweepTicks(v))
  {
    RestartAfterIdle(s, ins, n);
    ServedFromTheTop(StateAfter(s, ins[..n + 1]), ins[n + 1..], v, fb);
  }

  // ----- the whole system -----

  /** Every slot is free. */
  predicate NobodyThere(t: Table) {
    forall i :: 0 <= i < |t| ==> !InUse(t[i])
  }

  lemma SilentStep(u: Setup, x: World, e: Event)
    requires e.Tick? && Enabled(u, x, e)
    ensures NobodyThere(Step(u, x, e).table) ==> e.frames == []
    ensures e.frames == [] ==> Step(u, x, e).sweep == SweepState(0, x.sweep.chksum)
    ensures e.frames != [] ==> !NobodyThere(Step(u, x, e).table)
  {
    var t' := PruneTable(x.table, e.now);
    SilentTick(x.sweep, TickInputOf(x, e)[0]);
    var o := SweepTick(x.sweep, ActiveCount(t') > 0, x.video, x.screen);
    if o.chunk.Some? {
      OnePerSession(e.frames, u.server, t', x.video, x.screen, o.chunk.value);
    }
  }

  lemma TopStep(u: Setup, x: World, e: Event, f: Frame)
    requires e.Tick? && Enabled(u, x, e) && x.sweep.nextRow == 0 && f in e.frames
    ensures WellFormed(f) && PktType(f) == V1_VGA_TEXT && VideoOffset(f) == 0
  {
    var t' := PruneTable(x.table, e.now);
    var k := SweepTick(x.sweep, ActiveCount(t') > 0, x.video, x.screen).chunk.value;
    OnePerSession(e.frames, u.server, t', x.video, x.screen, k);
    var i :| 0 <= i < |e.frames| && e.frames[i] == f;
    VideoFrameReads(f, u.server, KeyOf(UsedSlots(t')[i]), x.video, x.screen, k, u.mac, u.id);
  }

  /** In a run of the whole system: a tick after which no session is in use sends nothing, leaves the sweep at row
      0, and leaves the checksum on record as it was. */
  lemma IdleTickInRun(u: Setup, w: World, es: seq<Event>, n: nat)
    requires RunFrom(u, w, es) && n < |es| && es[n].Tick?
    ensures RunFrom(u, w, es[..n]) && RunFrom(u, w, es[..n + 1])
    ensures NobodyThere(Exec(u, w, es[..n + 1]).table) ==>
              && Exec(u, w, es[..n + 1]).sent == Exec(u, w, es[..n]).sent
              && Exec(u, w, es[..n + 1]).sweep == SweepState(0, Exec(u, w, es[..n]).sweep.chksum)
  {
    PrefixRuns(u, w, es, n);
    PrefixRuns(u, w, es, n + 1);
    assert es[..n + 1][..n] == es[..n];
    SilentStep(u, Exec(u, w, es[..n]), es[n]);
  }

  /** No tick between these two events sends anything. */
  predicate QuietBetween(es: seq<Event>, n: nat, m: nat)
    requires m <= |es|
  {
    forall i :: n < i < m && es[i].Tick? ==> es[i].frames == []
  }

  lemma {:induction false} StaysAtTheTop(u: Setup, w: World, es: seq<Event>, n: nat, m: nat)
    requires RunFrom(u, w, es) && n < m <= |es| && QuietBetween(es, n, m)
    requires RunFrom(u, w, es[..n + 1]) && Exec(u, w, es[..n + 1]).sweep.nextRow == 0
    ensures RunFrom(u, w, es[..m]) && Exec(u, w, es[..m]).sweep.nextRow == 0
    decreases m
  {
    PrefixRuns(u, w, es, m);
    if m > n + 1 {
      StaysAtTheTop(u, w, es, n, m - 1);
      assert es[..m][..m - 1] == es[..m - 1];
      if es[m - 1].Tick? {
        SilentStep(u, Exec(u, w, es[..m - 1]), es[m - 1]);
      }
    }
  }

  /** After a tick that found no session in use, whatever becomes of screen, mode and sessions in between: the next
      frames any tick sends begin at the first byte of the screen. */
  lemma NextUpdateIsTheTop(u: Setup, w: World, es: seq<Event>, n: nat, m: nat, f: Frame)
    requires RunFrom(u, w, es) && n < m < |es| && es[n].Tick? && es[m].Tick? && QuietBetween(es, n, m)
    requires RunFrom(u, w, es[..n + 1]) && NobodyThere(Exec(u, w, es[..n + 1]).table)
    requires f in es[m].frames
    ensures WellFormed(f) && PktType(f) == V1_VGA_TEXT && VideoOffset(f) == 0
  {
    IdleTickInRun(u, w, es, n);
    StaysAtTheTop(u, w, es, n, m);
    PrefixRuns(u, w, es, m + 1);
    assert es[..m + 1][..m] == es[..m];
    TopStep(u, Exec(u, w, es[..m]), es[m], f);
  }
}
