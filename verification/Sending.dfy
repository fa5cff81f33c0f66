/** What the server sends in a run: the ticks as the sweep sees them, and the frames they put on the wire. */
module Sending {
  import opened Wire
  import opened Sessions
  import opened Video
  import opened Sweep
  import opened Client
  import opened Server
  import opened Exchange
  import opened Mirror

  // ----- the run as the sweep sees it -----

  /** The ticks of a run, as inputs of the sweep. */
  function TickInputs(u: Setup, w: World, es: seq<Event>): (ins: seq<TickInput>)
    requires RunFrom(u, w, es)
    ensures AllAdmissible(ins)
  {
    if es == [] then []
    else
      var before, e := es[..|es| - 1], es[|es| - 1];
      var x := Exec(u, w, before);
      TickInputs(u, w, before) + TickInputOf(x, e)
  }

  function TickInputOf(x: World, e: Event): seq<TickInput> {
    if e.Tick? then [TickInput(ActiveCount(PruneTable(x.table, e.now)) > 0, x.video, x.screen)] else []
  }

  lemma {:induction false} SweepFollowsTicks(u: Setup, w: World, es: seq<Event>)
    requires RunFrom(u, w, es)
    ensures Exec(u, w, es).sweep == StateAfter(w.sweep, TickInputs(u, w, es))
  {
    if es != [] {
      var before, e := es[..|es| - 1], es[|es| - 1];
      SweepFollowsTicks(u, w, before);
      StepSweep(w.sweep, TickInputs(u, w, before), u, Exec(u, w, before), e);
    }
  }

  lemma StepSweep(s: SweepState, ins: seq<TickInput>, u: Setup, x: World, e: Event)
    requires Enabled(u, x, e) && AllAdmissible(ins) && x.sweep == StateAfter(s, ins)
    ensures AllAdmissible(ins + TickInputOf(x, e)) && Step(u, x, e).sweep == StateAfter(s, ins + TickInputOf(x, e))
  {
    if e.Tick? {
      OneMoreTick(s, ins, TickInputOf(x, e)[0]);
    } else {
      assert ins + TickInputOf(x, e) == ins;
    }
  }

  /** Nobody changes the screen or the text mode; the cursor may move. */
  predicate HoldsStill(es: seq<Event>, v: VideoState, fb: Segment) {
    forall i :: 0 <= i < |es| ==>
      && (es[i].WriteScreen? ==> es[i].screen == fb)
      && (es[i].SetVideo? ==> SameMode(es[i].video, v))
  }

  /** Our client has a session at every tick. */
  predicate Served(u: Setup, w: World, es: seq<Event>)
    requires RunFrom(u, w, es)
  {
    forall i :: 0 <= i < |es| && es[i].Tick? ==> ServedAt(u, w, es, i)
  }

  predicate ServedAt(u: Setup, w: World, es: seq<Event>, i: nat)
    requires RunFrom(u, w, es) && i < |es| && es[i].Tick?
  {
    PrefixRuns(u, w, es, i);
    InTable(PruneTable(Exec(u, w, es[..i]).table, es[i].now), (u.mac, u.id))
  }

  lemma {:induction false} InTableIsActive(t: Table, k: Key)
    requires InTable(t, k)
    ensures ActiveCount(t) > 0
  {
    var i :| 0 <= i < |t| && Serves(t[i], k);
    assert InUse(t[i]);
  }

  lemma {:induction false} StillRun(u: Setup, w: World, es: seq<Event>, v: VideoState, fb: Segment)
    requires RunFrom(u, w, es) && HoldsStill(es, v, fb) && w.screen == fb && SameMode(w.video, v)
    ensures Exec(u, w, es).screen == fb && SameMode(Exec(u, w, es).video, v)
    ensures Stable(TickInputs(u, w, es), v, fb)
  {
    if es != [] {
      StillRun(u, w, es[..|es| - 1], v, fb);
      StillStep(u, Exec(u, w, es[..|es| - 1]), es[|es| - 1], v, fb);
    }
  }

  lemma StillStep(u: Setup, x: World, e: Event, v: VideoState, fb: Segment)
    requires Enabled(u, x, e) && x.screen == fb && SameMode(x.video, v)
    requires (e.WriteScreen? ==> e.screen == fb) && (e.SetVideo? ==> SameMode(e.video, v))
    ensures Step(u, x, e).screen == fb && SameMode(Step(u, x, e).video, v) && Stable(TickInputOf(x, e), v, fb)
  {
  }

  lemma {:induction false} ServedTicksAreActive(u: Setup, w: World, es: seq<Event>)
    requires RunFrom(u, w, es) && Served(u, w, es)
    ensures AllActive(TickInputs(u, w, es))
  {
    if es != [] {
      var n := |es| - 1;
      ServedPrefix(u, w, es, n);
      ServedTicksAreActive(u, w, es[..n]);
      if es[n].Tick? {
        assert ServedAt(u, w, es, n);
        InTableIsActive(PruneTable(Exec(u, w, es[..n]).table, es[n].now), (u.mac, u.id));
      }
    }
  }

  lemma ServedPrefix(u: Setup, w: World, es: seq<Event>, n: nat)
    requires RunFrom(u, w, es) && Served(u, w, es) && n <= |es|
    ensures RunFrom(u, w, es[..n]) && Served(u, w, es[..n])
  {
    PrefixRuns(u, w, es, n);
    forall i | 0 <= i < n && es[i].Tick? ensures ServedAt(u, w, es[..n], i) {
      assert ServedAt(u, w, es, i);
      assert es[..n][..i] == es[..i];
    }
  }

  function TickCount(es: seq<Event>): nat {
    if es == [] then 0 else TickCount(es[..|es| - 1]) + if es[|es| - 1].Tick? then 1 else 0
  }

  lemma {:induction false} CountOfTicks(u: Setup, w: World, es: seq<Event>)
    requires RunFrom(u, w, es)
    ensures |TickInputs(u, w, es)| == TickCount(es)
  {
    if es != [] {
      CountOfTicks(u, w, es[..|es| - 1]);
    }
  }

  // ----- the frames of the sweep -----

  /** A screen update for our client. */
  predicate ForClient(u: Setup, f: Frame) {
    WellFormed(f) && Accepts(f, u.mac, u.id) && Src(f) == u.server.mac && PktType(f) == V1_VGA_TEXT
  }

  /** The frame shows what is on this screen. */
  predicate Agrees(f: Frame, fb: Segment)
    requires WellFormed(f) && PktType(f) == V1_VGA_TEXT
  {
    VideoOffset(f) + VideoCount(f) <= TEXT_BUFFER_SIZE
    && VideoData(f) == fb[VideoOffset(f)..VideoOffset(f) + VideoCount(f)]
  }

  predicate ShowsChunk(u: Setup, f: Frame, v: VideoState, k: Chunk) {
    && ForClient(u, f) && VideoOffset(f) == ChunkOffset(v, k) && VideoCount(f) == ChunkCount(v, k)
    && f[26] == v.textRows && f[27] == v.textCols
  }

  predicate SomeShowsChunk(u: Setup, fs: seq<Frame>, v: VideoState, k: Chunk) {
    exists i :: 0 <= i < |fs| && ShowsChunk(u, fs[i], v, k)
  }

  /** What has been sent since the run began. */
  function NewlySent(u: Setup, w: World, es: seq<Event>): seq<Frame>
    requires RunFrom(u, w, es)
  {
    SentGrows(u, w, es);
    Exec(u, w, es).sent[|w.sent|..]
  }

  lemma {:induction false} SentGrows(u: Setup, w: World, es: seq<Event>)
    requires RunFrom(u, w, es)
    ensures |w.sent| <= |Exec(u, w, es).sent|
  {
    if es != [] {
      SentGrows(u, w, es[..|es| - 1]);
    }
  }

  /** The frames an event adds. */
  function Added(e: Event): seq<Frame> {
    if e.Tick? then e.frames else if e.Answer? then [e.reply] else []
  }

  lemma NewlySentStep(u: Setup, w: World, es: seq<Event>)
    requires RunFrom(u, w, es) && es != []
    ensures NewlySent(u, w, es) == NewlySent(u, w, es[..|es| - 1]) + Added(es[|es| - 1])
  {
    SentGrows(u, w, es[..|es| - 1]);
  }

  /** Every screen update among the frames shows this screen. */
  predicate AllAgree(fs: seq<Frame>, fb: Segment) {
    forall i :: 0 <= i < |fs| && WellFormed(fs[i]) && PktType(fs[i]) == V1_VGA_TEXT ==> Agrees(fs[i], fb)
  }

  lemma {:induction false} NewFramesAgree(u: Setup, w: World, es: seq<Event>, v: VideoState, fb: Segment)
    requires RunFrom(u, w, es) && HoldsStill(es, v, fb) && w.screen == fb && SameMode(w.video, v)
    ensures AllAgree(NewlySent(u, w, es), fb)
  {
    if es != [] {
      var before, e := es[..|es| - 1], es[|es| - 1];
      NewFramesAgree(u, w, before, v, fb);
      NewlySentStep(u, w, es);
      StillRun(u, w, before, v, fb);
      if e.Tick? {
        TickFramesAgree(u, Exec(u, w, before), e);
      }
    }
  }

  lemma TickFramesAgree(u: Setup, x: World, e: Event)
    requires e.Tick? && Enabled(u, x, e)
    ensures AllAgree(e.frames, x.screen)
  {
    var t' := PruneTable(x.table, e.now);
    var c := SweepTick(x.sweep, ActiveCount(t') > 0, x.video, x.screen).chunk;
    forall i | 0 <= i < |e.frames|
      ensures WellFormed(e.frames[i]) && PktType(e.frames[i]) == V1_VGA_TEXT && Agrees(e.frames[i], x.screen)
    {
      TickFrame(u, e.frames, t', x.video, x.screen, c.value, x.shown, i);
    }
  }

  lemma {:induction false} FrameForSession(fs: seq<Frame>, c: Config, t: Table, v: VideoState, fb: Segment, k: Chunk,
                                           q: Key)
    requires ChunkInScreen(v, k) && OneFrameEach(fs, c, t, v, fb, k) && InTable(t, q)
    ensures exists i :: 0 <= i < |fs| && IsVideoFrame(fs[i], c, q, v, fb, k)
  {
    var j :| 0 <= j < |t| && Serves(t[j], q);
    var n := |t| - 1;
    if j == n {
      assert IsVideoFrame(fs[|fs| - 1], c, q, v, fb, k);
    } else {
      assert Serves(t[..n][j], q);
      var rest := if InUse(t[n]) then fs[..|fs| - 1] else fs;
      FrameForSession(rest, c, t[..n], v, fb, k, q);
      var i :| 0 <= i < |rest| && IsVideoFrame(rest[i], c, q, v, fb, k);
      assert fs[i] == rest[i];
    }
  }

  /** A tick that serves our client and sends a chunk sends it to our client. */
  lemma TickShowsChunk(u: Setup, x: World, e: Event, v: VideoState)
    requires e.Tick? && Enabled(u, x, e) && SameMode(x.video, v)
    requires InTable(PruneTable(x.table, e.now), (u.mac, u.id))
    requires TickChunk(x, e).Some?
    ensures SomeShowsChunk(u, e.frames, v, TickChunk(x, e).value)
  {
    var t' := PruneTable(x.table, e.now);
    InTableIsActive(t', (u.mac, u.id));
    var k := TickChunk(x, e).value;
    FrameForSession(e.frames, u.server, t', x.video, x.screen, k, (u.mac, u.id));
    var i :| 0 <= i < |e.frames| && IsVideoFrame(e.frames[i], u.server, (u.mac, u.id), x.video, x.screen, k);
    VideoFrameReads(e.frames[i], u.server, (u.mac, u.id), x.video, x.screen, k, u.mac, u.id);
    assert ShowsChunk(u, e.frames[i], v, k);
  }

  lemma ShowsChunkGrows(u: Setup, fs: seq<Frame>, more: seq<Frame>, v: VideoState, k: Chunk)
    requires SomeShowsChunk(u, fs, v, k) || SomeShowsChunk(u, more, v, k)
    ensures SomeShowsChunk(u, fs + more, v, k)
  {
    if SomeShowsChunk(u, fs, v, k) {
      var i :| 0 <= i < |fs| && ShowsChunk(u, fs[i], v, k);
      assert (fs + more)[i] == fs[i];
    } else {
      var i :| 0 <= i < |more| && ShowsChunk(u, more[i], v, k);
      assert (fs + more)[|fs| + i] == more[i];
    }
  }

  /** The rows a tick sends, if any. */
  function TickChunk(x: World, e: Event): Option<Chunk>
    requires e.Tick? && Admissible(x.video)
  {
    SweepTick(x.sweep, ActiveCount(PruneTable(x.table, e.now)) > 0, x.video, x.screen).chunk
  }

  function NewChunk(u: Setup, x: World, e: Event): seq<Chunk>
    requires Enabled(u, x, e)
  {
    if e.Tick? && TickChunk(x, e).Some? then [TickChunk(x, e).value] else []
  }

  lemma EmittedStep(u: Setup, w: World, es: seq<Event>)
    requires RunFrom(u, w, es) && es != []
    ensures Emitted(w.sweep, TickInputs(u, w, es)) ==
            Emitted(w.sweep, TickInputs(u, w, es[..|es| - 1])) + NewChunk(u, Exec(u, w, es[..|es| - 1]), es[|es| - 1])
  {
    var before := es[..|es| - 1];
    SweepFollowsTicks(u, w, before);
    EmittedGrows(w.sweep, TickInputs(u, w, before), u, Exec(u, w, before), es[|es| - 1]);
  }

  lemma EmittedGrows(s: SweepState, ins: seq<TickInput>, u: Setup, x: World, e: Event)
    requires Enabled(u, x, e) && AllAdmissible(ins) && x.sweep == StateAfter(s, ins)
    ensures AllAdmissible(ins + TickInputOf(x, e))
    ensures Emitted(s, ins + TickInputOf(x, e)) == Emitted(s, ins) + NewChunk(u, x, e)
  {
    if e.Tick? {
      OneMoreTick(s, ins, TickInputOf(x, e)[0]);
    } else {
      assert ins + TickInputOf(x, e) == ins;
    }
  }

  /** Every chunk the sweep emits goes out to our client. */
  lemma {:induction false} EmittedChunksAreSent(u: Setup, w: World, es: seq<Event>, v: VideoState, fb: Segment)
    requires RunFrom(u, w, es) && Served(u, w, es)
    requires HoldsStill(es, v, fb) && w.screen == fb && SameMode(w.video, v)
    ensures var cs := Emitted(w.sweep, TickInputs(u, w, es));
            forall j :: 0 <= j < |cs| ==> SomeShowsChunk(u, NewlySent(u, w, es), v, cs[j])
  {
    if es != [] {
      var n := |es| - 1;
      var before, e, x := es[..n], es[n], Exec(u, w, es[..n]);
      ServedPrefix(u, w, es, n);
      EmittedChunksAreSent(u, w, before, v, fb);
      NewlySentStep(u, w, es);
      StillRun(u, w, before, v, fb);
      EmittedStep(u, w, es);
      var old_cs, new_cs := Emitted(w.sweep, TickInputs(u, w, before)), NewChunk(u, x, e);
      if new_cs != [] {
        assert ServedAt(u, w, es, n);
        TickShowsChunk(u, x, e, v);
      }
      var cs := old_cs + new_cs;
      forall j | 0 <= j < |cs| ensures SomeShowsChunk(u, NewlySent(u, w, es), v, cs[j]) {
        assert SomeShowsChunk(u, if j < |old_cs| then NewlySent(u, w, before) else Added(e), v, cs[j]);
        ShowsChunkGrows(u, NewlySent(u, w, before), Added(e), v, cs[j]);
      }
    }
  }

  lemma EmittedChunkIsSent(u: Setup, w: World, es: seq<Event>, ins: seq<TickInput>, j: nat, c: Chunk)
    requires RunFrom(u, w, es) && Served(u, w, es) && HoldsStill(es, w.video, w.screen)
    requires ins == TickInputs(u, w, es) && j < |Emitted(w.sweep, ins)| && Emitted(w.sweep, ins)[j] == c
    ensures SomeShowsChunk(u, NewlySent(u, w, es), w.video, c)
  {
    EmittedChunksAreSent(u, w, es, w.video, w.screen);
  }

  predicate ShowsSome(u: Setup, f: Frame, v: VideoState, cs: seq<Chunk>) {
    exists j :: 0 <= j < |cs| && ShowsChunk(u, f, v, cs[j])
  }

  lemma ShowsSomeGrows(u: Setup, f: Frame, v: VideoState, cs: seq<Chunk>, more: seq<Chunk>)
    requires ShowsSome(u, f, v, cs) || ShowsSome(u, f, v, more)
    ensures ShowsSome(u, f, v, cs + more)
  {
    if ShowsSome(u, f, v, cs) {
      var j :| 0 <= j < |cs| && ShowsChunk(u, f, v, cs[j]);
      assert (cs + more)[j] == cs[j];
    } else {
      var j :| 0 <= j < |more| && ShowsChunk(u, f, v, more[j]);
      assert (cs + more)[|cs| + j] == more[j];
    }
  }

  lemma TickFrameShows(u: Setup, x: World, e: Event, v: VideoState, f: Frame)
    requires e.Tick? && Enabled(u, x, e) && SameMode(x.video, v) && f in e.frames && ForClient(u, f)
    ensures ShowsSome(u, f, v, NewChunk(u, x, e))
  {
    var t', k := PruneTable(x.table, e.now), TickChunk(x, e).value;
    OnePerSession(e.frames, u.server, t', x.video, x.screen, k);
    var i :| 0 <= i < |e.frames| && e.frames[i] == f;
    VideoFrameReads(f, u.server, KeyOf(UsedSlots(t')[i]), x.video, x.screen, k, u.mac, u.id);
    assert ShowsChunk(u, f, v, NewChunk(u, x, e)[0]);
  }

  /** And every update sent to our client is one of those chunks. */
  lemma {:induction false} SentFramesAreChunks(u: Setup, w: World, es: seq<Event>, v: VideoState, fb: Segment, f: Frame)
    requires RunFrom(u, w, es) && HoldsStill(es, v, fb) && w.screen == fb && SameMode(w.video, v)
    requires f in NewlySent(u, w, es) && ForClient(u, f)
    ensures ShowsSome(u, f, v, Emitted(w.sweep, TickInputs(u, w, es)))
  {
    var before, e, x := es[..|es| - 1], es[|es| - 1], Exec(u, w, es[..|es| - 1]);
    NewlySentStep(u, w, es);
    StillRun(u, w, before, v, fb);
    if f in NewlySent(u, w, before) {
      SentFramesAreChunks(u, w, before, v, fb, f);
    } else {
      TickFrameShows(u, x, e, v, f);
    }
    EmittedStep(u, w, es);
    ShowsSomeGrows(u, f, v, Emitted(w.sweep, TickInputs(u, w, before)), NewChunk(u, x, e));
  }

  // ----- parts of runs -----

  /** A run from the middle on. */
  lemma {:induction false} SuffixRuns(u: Setup, w: World, es: seq<Event>, m: nat)
    requires RunFrom(u, w, es) && m <= |es|
    ensures RunFrom(u, w, es[..m]) && RunFrom(u, Exec(u, w, es[..m]), es[m..])
    ensures Exec(u, Exec(u, w, es[..m]), es[m..]) == Exec(u, w, es)
    decreases |es|
  {
    if m == |es| {
      assert es[..m] == es;
    } else {
      var n := |es| - 1;
      SuffixRuns(u, w, es[..n], m);
      assert es[..n][..m] == es[..m] && es[..n][m..] == es[m..][..n - m];
      assert es[m..][n - m] == es[n];
    }
  }

  lemma ServedSuffix(u: Setup, w: World, es: seq<Event>, m: nat)
    requires RunFrom(u, w, es) && Served(u, w, es) && m <= |es|
    ensures RunFrom(u, w, es[..m]) && RunFrom(u, Exec(u, w, es[..m]), es[m..])
    ensures Served(u, Exec(u, w, es[..m]), es[m..])
  {
    SuffixRuns(u, w, es, m);
    var x := Exec(u, w, es[..m]);
    forall i | 0 <= i < |es[m..]| && es[m..][i].Tick? ensures ServedAt(u, x, es[m..], i) {
      ServedLater(u, w, es, m, i);
    }
  }

  lemma ServedLater(u: Setup, w: World, es: seq<Event>, m: nat, i: nat)
    requires RunFrom(u, w, es) && Served(u, w, es) && m + i < |es| && es[m + i].Tick?
    ensures RunFrom(u, w, es[..m]) && RunFrom(u, Exec(u, w, es[..m]), es[m..])
    ensures ServedAt(u, Exec(u, w, es[..m]), es[m..], i)
  {
    SuffixRuns(u, w, es, m);
    SuffixState(u, w, es, m, i);
    assert ServedAt(u, w, es, m + i);
  }

  lemma SuffixState(u: Setup, w: World, es: seq<Event>, m: nat, i: nat)
    requires RunFrom(u, w, es) && m + i <= |es|
    ensures RunFrom(u, w, es[..m]) && RunFrom(u, Exec(u, w, es[..m]), es[m..][..i]) && RunFrom(u, w, es[..m + i])
    ensures Exec(u, Exec(u, w, es[..m]), es[m..][..i]) == Exec(u, w, es[..m + i])
  {
    PrefixRuns(u, w, es, m + i);
    SuffixRuns(u, w, es[..m + i], m);
    assert es[..m + i][..m] == es[..m] && es[..m + i][m..] == es[m..][..i];
  }

  /** What a run sends is what its first part sends and then what the rest does. */
  lemma NewlySentSplits(u: Setup, w: World, es: seq<Event>, m: nat)
    requires RunFrom(u, w, es) && m <= |es| && RunFrom(u, w, es[..m]) && RunFrom(u, Exec(u, w, es[..m]), es[m..])
    ensures NewlySent(u, w, es) == NewlySent(u, w, es[..m]) + NewlySent(u, Exec(u, w, es[..m]), es[m..])
  {
    SuffixRuns(u, w, es, m);
    SentGrows(u, w, es[..m]);
    SentExtends(u, Exec(u, w, es[..m]), es[m..]);
  }

  lemma {:induction false} SentExtends(u: Setup, w: World, es: seq<Event>)
    requires RunFrom(u, w, es)
    ensures w.sent <= Exec(u, w, es).sent
  {
    if es != [] {
      SentExtends(u, w, es[..|es| - 1]);
    }
  }

  /** A prefix with so many ticks. */
  lemma {:induction false} SomePrefix(es: seq<Event>, j: nat) returns (m: nat)
    requires j <= TickCount(es)
    ensures m <= |es| && TickCount(es[..m]) == j
  {
    if j == TickCount(es) {
      m := |es|;
      assert es[..m] == es;
    } else {
      m := SomePrefix(es[..|es| - 1], j);
      assert es[..|es| - 1][..m] == es[..m];
    }
  }

  lemma {:induction false} TicksSplit(es: seq<Event>, m: nat)
    requires m <= |es|
    ensures TickCount(es) == TickCount(es[..m]) + TickCount(es[m..])
  {
    if m == |es| {
      assert es[..m] == es && es[m..] == [];
    } else {
      var n := |es| - 1;
      TicksSplit(es[..n], m);
      assert es[..n][..m] == es[..m] && es[..n][m..] == es[m..][..n - m];
      assert es[m..][n - m] == es[n];
    }
  }

  lemma {:induction false} TickInputsPrefix(u: Setup, w: World, es: seq<Event>, m: nat)
    requires RunFrom(u, w, es) && m <= |es|
    ensures RunFrom(u, w, es[..m]) && TickInputs(u, w, es[..m]) <= TickInputs(u, w, es)
  {
    if m == |es| {
      assert es[..m] == es;
    } else {
      TickInputsPrefix(u, w, es[..|es| - 1], m);
      assert es[..|es| - 1][..m] == es[..m];
    }
  }

  lemma PrefixWithTicks(u: Setup, w: World, es: seq<Event>, j: nat) returns (m: nat)
    requires RunFrom(u, w, es) && j <= TickCount(es)
    ensures m <= |es| && RunFrom(u, w, es[..m]) && j <= |TickInputs(u, w, es)|
    ensures TickInputs(u, w, es[..m]) == TickInputs(u, w, es)[..j]
    ensures TickCount(es[m..]) == TickCount(es) - j
  {
    m := SomePrefix(es, j);
    TicksSplit(es, m);
    TickInputsPrefix(u, w, es, m);
    CountOfTicks(u, w, es[..m]);
  }

  /** The ticks of a run in which the screen holds still and our client is served. */
  lemma StillTicks(u: Setup, w: World, es: seq<Event>) returns (ins: seq<TickInput>)
    requires RunFrom(u, w, es) && HoldsStill(es, w.video, w.screen) && Served(u, w, es)
    ensures ins == TickInputs(u, w, es) && |ins| == TickCount(es)
    ensures Stable(ins, w.video, w.screen) && AllActive(ins) && Exec(u, w, es).sweep == StateAfter(w.sweep, ins)
  {
    ins := TickInputs(u, w, es);
    StillRun(u, w, es, w.video, w.screen);
    ServedTicksAreActive(u, w, es);
    CountOfTicks(u, w, es);
    SweepFollowsTicks(u, w, es);
  }
}
