/** The row-by-row screen sweep of `session_mgr_update_all` (src/server/session.c): which rows each
    timer tick sends, and what the ticks of a whole run send together. */
module Sweep {
  import opened Wire
  import opened Video

  datatype VideoState = VideoState(videoMode: byte, activePage: byte, textRows: byte, textCols: byte,
                                   cursorRow: byte, cursorCol: byte)

  /** A text mode whose cells fit the 32 KiB text buffer. */
  predicate Admissible(v: VideoState) {
    v.textRows >= 1 && v.textCols >= 1 && ScreenBytes(v) <= 32768
  }

  predicate SameMode(v: VideoState, v': VideoState) {
    v.textRows == v'.textRows && v.textCols == v'.textCols
  }

  function Stride(v: VideoState): nat {
    2 * v.textCols
  }

  function ScreenBytes(v: VideoState): nat {
    Times(v.textRows, Stride(v))
  }

  /** Room for screen bytes in a frame, after the Ethernet, protocol and VideoText headers. */
  const VIDEO_ROOM := ETH_FRAME_LEN - HEADER_LEN - 8

  function RowsPerFrame(v: VideoState): nat
    requires Admissible(v)
  {
    Quotient(VIDEO_ROOM, Stride(v))
  }

  /** How often d goes into p: the truncating division of C, by counting. */
  function Quotient(p: nat, d: nat): (q: nat)
    requires d > 0
  {
    if p < d then 0 else 1 + Quotient(p - d, d)
  }

  lemma QuotientIs(p: nat, d: nat)
    requires d > 0
    ensures Quotient(p, d) == p / d
  {
    var q := p / d;
    assert p == d * q + p % d && 0 <= p % d < d;
    TimesIs(q, d);
    AtMostQuotient(p, d, q);
    AtMostQuotient(p, d, q + 1);
  }

  /** The byte count of the screen is passed as a count of words, so twice the screen is read. */
  function ScreenChecksum(v: VideoState, fb: Segment): word {
    Checksum(SegmentWords(fb, 0, LoopCount(Word(ScreenBytes(v)))))
  }

  /** `video_next_row` and the global `video_chksum`. */
  datatype SweepState = SweepState(nextRow: word, chksum: word)

  /** Consecutive rows of the screen. */
  datatype Chunk = Chunk(first: nat, rows: nat)

  datatype Outcome = Outcome(state: SweepState, chunk: Option<Chunk>)

  function StartRow(s: SweepState, v: VideoState): word {
    if s.nextRow >= v.textRows then 0 else s.nextRow
  }

  /** One tick: where the sweep stands afterwards, and the rows it sends, if any. */
  function SweepTick(s: SweepState, active: bool, v: VideoState, fb: Segment): Outcome
    requires Admissible(v)
  {
    var first := StartRow(s, v);
    var sum := if first == 0 then ScreenChecksum(v, fb) else s.chksum;
    if !active then Outcome(s.(nextRow := 0), None)
    else if first == 0 && sum == s.chksum then Outcome(s.(nextRow := 0), None)
    else
      var room := RowsPerFrame(v);
      var rows := if room + first > v.textRows then v.textRows - first else room;
      StrideBounds(v);
      Outcome(SweepState(first + rows, sum), Some(Chunk(first, rows)))
  }

  predicate StartsSweep(s: SweepState, active: bool, v: VideoState, fb: Segment) {
    active && StartRow(s, v) == 0 && ScreenChecksum(v, fb) != s.chksum
  }

  // ----- arithmetic -----

  lemma StrideBounds(v: VideoState)
    requires Admissible(v)
    ensures 2 <= Stride(v) <= 510
    ensures 2 <= RowsPerFrame(v) && Times(RowsPerFrame(v), Stride(v)) <= VIDEO_ROOM
    ensures RowsPerFrame(v) <= 740
  {
    var d := Stride(v);
    AtMostQuotient(VIDEO_ROOM, d, 2);
    AtMostQuotient(VIDEO_ROOM, d, RowsPerFrame(v));
    AtLeastDouble(RowsPerFrame(v), d);
    assert Times(0, d) == 0;
    assert Times(1, d) == Times(0, d) + d;
    assert Times(2, d) == Times(1, d) + d;
  }

  lemma {:induction false} AtLeastDouble(n: nat, d: nat)
    requires d >= 2
    ensures Times(n, d) >= 2 * n
  {
    if n > 0 {
      AtLeastDouble(n - 1, d);
    }
  }

  /** n times d, by adding: the byte at which row n begins, if rows are d bytes long. */
  function Times(n: nat, d: nat): nat {
    if n == 0 then 0 else Times(n - 1, d) + d
  }

  lemma {:induction false} TimesIs(n: nat, d: nat)
    ensures Times(n, d) == n * d
  {
    if n > 0 {
      TimesIs(n - 1, d);
      assert (n - 1) * d + d == n * d;
    }
  }

  lemma {:induction false} MulMonotone(a: nat, b: nat, d: nat)
    requires a <= b
    ensures Times(a, d) <= Times(b, d)
    ensures Times(b - a, d) == Times(b, d) - Times(a, d)
  {
    if a < b {
      MulMonotone(a, b - 1, d);
    }
  }

  lemma {:induction false} AtMostQuotient(p: nat, d: nat, a: nat)
    requires d > 0
    ensures Times(a, d) <= p <==> a <= Quotient(p, d)
    decreases p
  {
    if a == 0 {
    } else if p < d {
      MulMonotone(1, a, d);
    } else {
      AtMostQuotient(p - d, d, a - 1);
    }
  }

  /** Every chunk is nonempty, lies inside the screen, fits a frame, and loses nothing to the 16-bit
      fields it is described with; this holds in whatever mode the previous tick left the sweep. */
  lemma ChunkFits(s: SweepState, active: bool, v: VideoState, fb: Segment)
    requires Admissible(v)
    requires SweepTick(s, active, v, fb).chunk.Some?
    ensures var c := SweepTick(s, active, v, fb).chunk.value;
            && 1 <= c.rows && c.first + c.rows <= v.textRows
            && Times(c.rows, Stride(v)) <= VIDEO_ROOM
            && HEADER_LEN + 8 + Times(c.rows, Stride(v)) <= ETH_FRAME_LEN
            && Times(c.first, Stride(v)) + Times(c.rows, Stride(v)) <= ScreenBytes(v) <= 32768
  {
    var c := SweepTick(s, active, v, fb).chunk.value;
    StrideBounds(v);
    MulMonotone(c.rows, RowsPerFrame(v), Stride(v));
    MulMonotone(c.first + c.rows, v.textRows, Stride(v));
    MulMonotone(c.first, c.first + c.rows, Stride(v));
  }

  /** Two bytes to a cell. */
  lemma ScreenSize(v: VideoState)
    ensures ScreenBytes(v) == 2 * (v.textRows * v.textCols)
  {
    TimesIs(v.textRows, Stride(v));
    assert v.textRows * (2 * v.textCols) == 2 * (v.textRows * v.textCols);
  }

  /** No chunk is smaller than it has to be: it ends the screen, or one more row would not fit the frame. */
  lemma ChunkIsFullest(s: SweepState, active: bool, v: VideoState, fb: Segment)
    requires Admissible(v)
    requires SweepTick(s, active, v, fb).chunk.Some?
    ensures var c := SweepTick(s, active, v, fb).chunk.value;
            && 34 + c.rows * (2 * v.textCols) <= 1514
            && (c.first + c.rows == v.textRows || 34 + (c.rows + 1) * (2 * v.textCols) > 1514)
  {
    var c := SweepTick(s, active, v, fb).chunk.value;
    ChunkFits(s, active, v, fb);
    TimesIs(c.rows, Stride(v));
    TimesIs(c.rows + 1, Stride(v));
    AtMostQuotient(VIDEO_ROOM, Stride(v), c.rows + 1);
  }

  // ----- runs of ticks -----

  datatype TickInput = TickInput(active: bool, video: VideoState, fb: Segment)

  predicate AllAdmissible(ins: seq<TickInput>) {
    forall i :: 0 <= i < |ins| ==> Admissible(ins[i].video)
  }

  function StateAfter(s: SweepState, ins: seq<TickInput>): SweepState
    requires AllAdmissible(ins)
  {
    if ins == [] then s
    else
      var i := ins[|ins| - 1];
      SweepTick(StateAfter(s, ins[..|ins| - 1]), i.active, i.video, i.fb).state
  }

  /** The chunks the ticks send, in order. */
  function Emitted(s: SweepState, ins: seq<TickInput>): seq<Chunk>
    requires AllAdmissible(ins)
  {
    if ins == [] then []
    else
      var i := ins[|ins| - 1];
      var c := SweepTick(StateAfter(s, ins[..|ins| - 1]), i.active, i.video, i.fb).chunk;
      Emitted(s, ins[..|ins| - 1]) + if c.Some? then [c.value] else []
  }

  lemma OneMoreTick(s: SweepState, ins: seq<TickInput>, i: TickInput)
    requires AllAdmissible(ins) && Admissible(i.video)
    ensures AllAdmissible(ins + [i])
    ensures StateAfter(s, ins + [i]) == SweepTick(StateAfter(s, ins), i.active, i.video, i.fb).state
    ensures Emitted(s, ins + [i]) == Emitted(s, ins) + TickChunks(StateAfter(s, ins), i)
  {
    assert (ins + [i])[..|ins|] == ins;
  }

  /** Screen and text mode stay put; the cursor may move. */
  predicate Stable(ins: seq<TickInput>, v: VideoState, fb: Segment) {
    forall i :: 0 <= i < |ins| ==> SameMode(ins[i].video, v) && ins[i].fb == fb
  }

  predicate AllActive(ins: seq<TickInput>) {
    forall i :: 0 <= i < |ins| ==> ins[i].active
  }

  // ----- quiescence -----

  /** The sweep rests: the next tick of an unchanged screen finds its checksum already recorded. */
  predicate Resting(s: SweepState, v: VideoState, fb: Segment) {
    StartRow(s, v) == 0 && s.chksum == ScreenChecksum(v, fb)
  }

  /** While the screen is unchanged a resting sweep sends nothing, to old sessions or to new ones. */
  lemma {:induction false} RestingStaysSilent(s: SweepState, ins: seq<TickInput>, v: VideoState, fb: Segment)
    requires Admissible(v) && AllAdmissible(ins) && Stable(ins, v, fb) && Resting(s, v, fb)
    ensures Emitted(s, ins) == [] && Resting(StateAfter(s, ins), v, fb)
  {
    if ins != [] {
      RestingStaysSilent(s, ins[..|ins| - 1], v, fb);
    }
  }

  // ----- tiling -----

  /** How many ticks a sweep takes: ceil(rows / rows per frame). */
  function SweepTicks(v: VideoState): (n: nat)
    requires Admissible(v)
  {
    StrideBounds(v);
    Quotient(v.textRows + RowsPerFrame(v) - 1, RowsPerFrame(v))
  }

  /** No screen takes more than 34 ticks. */
  lemma SweepsAreShort(v: VideoState)
    requires Admissible(v)
    ensures 1 <= SweepTicks(v) <= 34
  {
    StrideBounds(v);
    ReachesLastRow(v, 0);
    var d, room, n := Stride(v), RowsPerFrame(v), SweepTicks(v);
    AtMostQuotient(VIDEO_ROOM, d, room + 1);
    EnoughFrames(v.textRows, room, n - 1);
    FewFrames(n - 1, room, v.textRows, d);
  }

  lemma FewFrames(n: nat, room: nat, rows: nat, d: nat)
    requires Times(n, room) < rows && Times(rows, d) <= 32768 && Times(room, d) >= 971
    ensures n <= 33
  {
    TimesIs(n, room);
    TimesIs(rows, d);
    TimesIs(room, d);
    Products(n, room, rows, d);
  }

  lemma Products(n: nat, room: nat, rows: nat, d: nat)
    requires n * room < rows && rows * d <= 32768 && room * d >= 971
    ensures n <= 33
  {
    assert (n * room) * d <= rows * d;
    assert (n * room) * d == n * (room * d) >= n * 971;
  }

  /** The row the sweep has reached after `k` ticks. */
  function EndRow(v: VideoState, k: nat): (r: nat)
    requires Admissible(v)
    ensures r <= v.textRows
  {
    if k == 0 then 0
    else if EndRow(v, k - 1) + RowsPerFrame(v) < v.textRows then EndRow(v, k - 1) + RowsPerFrame(v)
    else v.textRows
  }

  /** That is k frames of rows, or all of them. */
  lemma {:induction false} EndRowIs(v: VideoState, k: nat)
    requires Admissible(v)
    ensures EndRow(v, k) == if Times(k, RowsPerFrame(v)) < v.textRows then Times(k, RowsPerFrame(v)) else v.textRows
  {
    if k > 0 {
      EndRowIs(v, k - 1);
      MulMonotone(k - 1, k, RowsPerFrame(v));
    }
  }

  function SweepChunk(v: VideoState, k: nat): Chunk
    requires Admissible(v)
  {
    EndRowGrows(v, k);
    Chunk(EndRow(v, k), EndRow(v, k + 1) - EndRow(v, k))
  }

  function Chunks(v: VideoState, n: nat): seq<Chunk>
    requires Admissible(v)
  {
    seq(n, k requires 0 <= k < n => SweepChunk(v, k))
  }

  lemma EndRowGrows(v: VideoState, k: nat)
    requires Admissible(v)
    ensures EndRow(v, k) <= EndRow(v, k + 1) <= EndRow(v, k) + RowsPerFrame(v)
    ensures EndRow(v, k) < v.textRows ==> EndRow(v, k) < EndRow(v, k + 1)
    ensures EndRow(v, k) < v.textRows ==>
            EndRow(v, k + 1) ==
            if RowsPerFrame(v) + EndRow(v, k) > v.textRows then v.textRows else EndRow(v, k) + RowsPerFrame(v)
  {
    StrideBounds(v);
  }

  lemma {:induction false} EndRowMonotone(v: VideoState, j: nat, k: nat)
    requires Admissible(v) && j <= k
    ensures EndRow(v, j) <= EndRow(v, k)
  {
    if j < k {
      EndRowMonotone(v, j, k - 1);
      EndRowGrows(v, k - 1);
    }
  }

  /** The sweep reaches the last row in the n-th tick and not before. */
  lemma ReachesLastRow(v: VideoState, k: nat)
    requires Admissible(v)
    ensures EndRow(v, k) == v.textRows <==> k >= SweepTicks(v)
    ensures SweepTicks(v) >= 1
  {
    StrideBounds(v);
    EndRowIs(v, k);
    EnoughFrames(v.textRows, RowsPerFrame(v), k);
  }

  lemma EnoughFrames(rows: nat, room: nat, k: nat)
    requires rows > 0 && room > 0
    ensures Times(k, room) >= rows <==> k >= Quotient(rows + room - 1, room)
    ensures Quotient(rows + room - 1, room) >= 1
  {
    if k > 0 {
      AtMostQuotient(rows - 1, room, k - 1);
      AtMostQuotient(rows - 1, room, k);
      MulMonotone(k - 1, k, room);
    }
    AtMostQuotient(rows - 1, room, k);
  }

  lemma RowInChunk(v: VideoState, r: nat, k: nat)
    requires Admissible(v) && r < v.textRows
    ensures RowsPerFrame(v) > 0 && Quotient(r, RowsPerFrame(v)) < SweepTicks(v)
    ensures var c := SweepChunk(v, k); c.first <= r < c.first + c.rows <==> k == Quotient(r, RowsPerFrame(v))
  {
    StrideBounds(v);
    var q := Quotient(r, RowsPerFrame(v));
    ReachesLastRow(v, q);
    EndRowBefore(v, r, q);
    EndRowBefore(v, r, k);
    EndRowBefore(v, r, k + 1);
  }

  lemma EndRowBefore(v: VideoState, r: nat, k: nat)
    requires Admissible(v) && r < v.textRows
    ensures RowsPerFrame(v) > 0 && (EndRow(v, k) <= r <==> k <= Quotient(r, RowsPerFrame(v)))
  {
    StrideBounds(v);
    EndRowIs(v, k);
    AtMostQuotient(r, RowsPerFrame(v), k);
  }

  /** The chunks of a sweep tile the screen: a byte of row r is in chunk k for exactly one k, and that
      one is among the chunks sent. */
  lemma ChunksTileScreen(v: VideoState, r: nat, p: nat, k: nat)
    requires Admissible(v) && r < v.textRows && Times(r, Stride(v)) <= p < Times(r, Stride(v)) + Stride(v)
    ensures RowsPerFrame(v) > 0 && Quotient(r, RowsPerFrame(v)) < SweepTicks(v)
    ensures var c := SweepChunk(v, k);
            Times(c.first, Stride(v)) <= p < Times(c.first, Stride(v)) + Times(c.rows, Stride(v))
            <==> k == Quotient(r, RowsPerFrame(v))
  {
    StrideBounds(v);
    RowInChunk(v, r, k);
    BytesOfRows(p, r, Stride(v), SweepChunk(v, k));
  }

  lemma BytesOfRows(p: nat, r: nat, d: nat, c: Chunk)
    requires Times(r, d) <= p < Times(r, d) + d
    ensures Times(c.first, d) <= p < Times(c.first, d) + Times(c.rows, d) <==> c.first <= r < c.first + c.rows
  {
    MulMonotone(c.first, c.first + c.rows, d);
    RowOrder(p, r, d, c.first);
    RowOrder(p, r, d, c.first + c.rows);
  }

  lemma RowOrder(p: nat, r: nat, d: nat, a: nat)
    requires Times(r, d) <= p < Times(r, d) + d
    ensures Times(a, d) <= p <==> a <= r
  {
    if a <= r {
      MulMonotone(a, r, d);
    } else {
      MulMonotone(r + 1, a, d);
    }
  }

  /** From the tick that starts a sweep to the one that ends it, each tick sends the next chunk, whatever
      happens to the screen meanwhile; the checksum on record is that of the screen it started from. */
  lemma {:induction false} SweepUnderWay(s: SweepState, ins: seq<TickInput>, v: VideoState)
    requires Admissible(v) && AllAdmissible(ins) && AllActive(ins) && 1 <= |ins| <= SweepTicks(v)
    requires forall i :: 0 <= i < |ins| ==> SameMode(ins[i].video, v)
    requires StartsSweep(s, true, v, ins[0].fb)
    ensures Emitted(s, ins) == Chunks(v, |ins|)
    ensures StateAfter(s, ins) == SweepState(EndRow(v, |ins|), ScreenChecksum(v, ins[0].fb))
  {
    var m, n := |ins|, SweepTicks(v);
    var before, i := ins[..m - 1], ins[m - 1];
    ReachesLastRow(v, m - 1);
    assert RowsPerFrame(i.video) == RowsPerFrame(v);
    EndRowGrows(v, m - 1);
    if m == 1 {
      assert before == [];
      assert EndRow(v, 0) == 0;
      assert ScreenChecksum(i.video, i.fb) == ScreenChecksum(v, ins[0].fb);
      assert Emitted(s, ins) == Chunks(v, 1);
    } else {
      SweepUnderWay(s, before, v);
      MidSweepTick(ScreenChecksum(v, ins[0].fb), i, v, m - 1);
      assert Chunks(v, m) == Chunks(v, m - 1) + [SweepChunk(v, m - 1)];
    }
  }

  lemma MidSweepTick(sum: word, i: TickInput, v: VideoState, k: nat)
    requires Admissible(v) && Admissible(i.video) && SameMode(i.video, v) && 1 <= k < SweepTicks(v)
    ensures EndRow(v, k) < 0x1_0000
    ensures SweepTick(SweepState(EndRow(v, k), sum), true, i.video, i.fb)
            == Outcome(SweepState(EndRow(v, k + 1), sum), Some(SweepChunk(v, k)))
  {
    ReachesLastRow(v, k);
    EndRowMonotone(v, 1, k);
    EndRowGrows(v, 0);
    EndRowGrows(v, k);
    assert EndRow(v, 0) == 0;
    assert RowsPerFrame(i.video) == RowsPerFrame(v);
  }

  /** Served ticks in one mode, whatever the screen shows. */
  predicate InMode(ins: seq<TickInput>, v: VideoState) {
    AllAdmissible(ins) && AllActive(ins) && forall i :: 0 <= i < |ins| ==> SameMode(ins[i].video, v)
  }

  /** These are the chunks from the k-th on. */
  predicate ChunksFrom(cs: seq<Chunk>, v: VideoState, k: nat)
    requires Admissible(v)
  {
    forall j :: 0 <= j < |cs| ==> cs[j] == SweepChunk(v, k + j)
  }

  /** A sweep under way goes on with its chunks and keeps its checksum, whatever happens to the screen. */
  lemma {:induction false} SweepGoesOn(s: SweepState, ins: seq<TickInput>, v: VideoState, sum: word, k: nat)
    requires Admissible(v) && InMode(ins, v) && 1 <= k && k + |ins| <= SweepTicks(v)
    requires s == SweepState(EndRow(v, k), sum)
    ensures |Emitted(s, ins)| == |ins| && ChunksFrom(Emitted(s, ins), v, k)
    ensures StateAfter(s, ins) == SweepState(EndRow(v, k + |ins|), sum)
  {
    if ins != [] {
      var before, i := ins[..|ins| - 1], ins[|ins| - 1];
      assert InMode(before, v);
      SweepGoesOn(s, before, v, sum, k);
      OneMoreChunk(Emitted(s, before), i, v, sum, k);
      assert Emitted(s, ins) == Emitted(s, before) + TickChunks(StateAfter(s, before), i);
    }
  }

  lemma OneMoreChunk(cs: seq<Chunk>, i: TickInput, v: VideoState, sum: word, k: nat)
    requires Admissible(v) && ChunksFrom(cs, v, k) && 1 <= k && k + |cs| < SweepTicks(v)
    requires Admissible(i.video) && SameMode(i.video, v) && i.active
    ensures var mid := SweepState(EndRow(v, k + |cs|), sum);
            && SweepTick(mid, i.active, i.video, i.fb).state == SweepState(EndRow(v, k + |cs| + 1), sum)
            && ChunksFrom(cs + TickChunks(mid, i), v, k) && |TickChunks(mid, i)| == 1
  {
    MidSweepTick(sum, i, v, k + |cs|);
  }

  /** From its first tick to its end. */
  lemma RestOfSweep(s: SweepState, ins: seq<TickInput>, v: VideoState, sum: word, k: nat)
    requires Admissible(v) && InMode(ins, v) && |ins| == SweepTicks(v) - 1 && 1 <= k < SweepTicks(v)
    requires s == SweepState(EndRow(v, 1), sum)
    ensures k - 1 < |Emitted(s, ins)| && Emitted(s, ins)[k - 1] == SweepChunk(v, k)
    ensures StateAfter(s, ins) == SweepState(v.textRows, sum)
  {
    SweepGoesOn(s, ins, v, sum, 1);
    LastTick(v);
    PickChunk(Emitted(s, ins), v, 1, k - 1);
  }

  lemma LastTick(v: VideoState)
    requires Admissible(v)
    ensures SweepTicks(v) >= 1 && EndRow(v, SweepTicks(v)) == v.textRows
  {
    ReachesLastRow(v, SweepTicks(v));
  }

  lemma PickChunk(cs: seq<Chunk>, v: VideoState, k: nat, j: nat)
    requires Admissible(v) && ChunksFrom(cs, v, k) && j < |cs|
    ensures cs[j] == SweepChunk(v, k + j)
  {
  }

  lemma {:induction false} EmittedCompose(s: SweepState, a: seq<TickInput>, b: seq<TickInput>)
    requires AllAdmissible(a) && AllAdmissible(b)
    ensures AllAdmissible(a + b) && StateAfter(s, a + b) == StateAfter(StateAfter(s, a), b)
    ensures Emitted(s, a + b) == Emitted(s, a) + Emitted(StateAfter(s, a), b)
  {
    if b == [] {
      assert a + b == a;
    } else {
      var before, i, mid := b[..|b| - 1], b[|b| - 1], StateAfter(s, a);
      EmittedCompose(s, a, before);
      assert (a + b)[..|a + b| - 1] == a + before && (a + b)[|a + b| - 1] == i;
      assert StateAfter(s, a + before) == StateAfter(mid, before);
    }
  }

  /** The same, of the parts of a run. */
  lemma EmittedSplit(s: SweepState, ins: seq<TickInput>, j: nat)
    requires AllAdmissible(ins) && j <= |ins|
    ensures Emitted(s, ins) == Emitted(s, ins[..j]) + Emitted(StateAfter(s, ins[..j]), ins[j..])
  {
    EmittedCompose(s, ins[..j], ins[j..]);
    assert ins[..j] + ins[j..] == ins;
  }

  /** A stable screen is sent as exactly its chunks, in order and one a tick, and nothing follows. */
  lemma SweepSendsItsChunks(s: SweepState, ins: seq<TickInput>, v: VideoState, fb: Segment)
    requires Admissible(v) && AllAdmissible(ins) && Stable(ins, v, fb) && AllActive(ins) && |ins| >= 1
    requires StartsSweep(s, true, v, fb)
    ensures |ins| <= SweepTicks(v) ==>
            && Emitted(s, ins) == Chunks(v, |ins|)
            && StateAfter(s, ins) == SweepState(EndRow(v, |ins|), ScreenChecksum(v, fb))
    ensures |ins| >= SweepTicks(v) ==>
            Emitted(s, ins) == Chunks(v, SweepTicks(v)) && Resting(StateAfter(s, ins), v, fb)
  {
    if |ins| <= SweepTicks(v) {
      SweepUnderWay(s, ins, v);
    }
    if |ins| >= SweepTicks(v) {
      FullSweep(s, ins, v, fb, SweepTicks(v));
    }
  }

  lemma {:induction false} FullSweep(s: SweepState, ins: seq<TickInput>, v: VideoState, fb: Segment, n: nat)
    requires Admissible(v) && AllAdmissible(ins) && Stable(ins, v, fb) && AllActive(ins)
    requires |ins| >= n == SweepTicks(v) && StartsSweep(s, true, v, fb)
    ensures Emitted(s, ins) == Chunks(v, n) && Resting(StateAfter(s, ins), v, fb)
    decreases |ins|
  {
    if |ins| == n {
      ReachesLastRow(v, n);
      SweepUnderWay(s, ins, v);
    } else {
      var before := ins[..|ins| - 1];
      FullSweep(s, before, v, fb, n);
      RestingTick(StateAfter(s, before), ins[|ins| - 1], v, fb);
    }
  }

  lemma RestingTick(s: SweepState, i: TickInput, v: VideoState, fb: Segment)
    requires Admissible(v) && Admissible(i.video) && SameMode(i.video, v) && i.fb == fb && Resting(s, v, fb)
    ensures var o := SweepTick(s, i.active, i.video, i.fb);
            o.chunk.None? && Resting(o.state, v, fb)
  {
  }

  /** Served ticks of a screen that holds still send nothing exactly when the sweep was already at rest. */
  lemma {:induction false} SilentIffResting(s: SweepState, ins: seq<TickInput>, v: VideoState, fb: Segment)
    requires Admissible(v) && AllAdmissible(ins) && Stable(ins, v, fb) && AllActive(ins) && ins != []
    ensures Emitted(s, ins) == [] <==> Resting(s, v, fb)
  {
    if Resting(s, v, fb) {
      RestingStaysSilent(s, ins, v, fb);
    } else {
      var one := ins[..1];
      EmittedCompose(s, one, ins[1..]);
      assert one + ins[1..] == ins && one[..0] == [];
      assert SameMode(ins[0].video, v);
      assert Emitted(s, one) != [];
    }
  }

  /** A screen that changes during its sweep and changes back by the end is never sent again, whatever
      the ticks in between sent of it. */
  lemma RevertedChangeIsNotResent(s: SweepState, ins: seq<TickInput>, later: seq<TickInput>, v: VideoState)
    requires Admissible(v) && AllAdmissible(ins) && AllActive(ins) && |ins| == SweepTicks(v)
    requires forall i :: 0 <= i < |ins| ==> SameMode(ins[i].video, v)
    requires |ins| >= 1 && StartsSweep(s, true, v, ins[0].fb)
    requires AllAdmissible(later) && Stable(later, v, ins[0].fb)
    ensures Emitted(s, ins) == Chunks(v, |ins|)
    ensures Emitted(StateAfter(s, ins), later) == []
  {
    SweepUnderWay(s, ins, v);
    ReachesLastRow(v, |ins|);
    RestingStaysSilent(StateAfter(s, ins), later, v, ins[0].fb);
  }

  // ----- which bytes of a still screen are sent -----

  predicate Covers(c: Chunk, v: VideoState, p: nat) {
    Times(c.first, Stride(v)) <= p < Times(c.first, Stride(v)) + Times(c.rows, Stride(v))
  }

  predicate CoveredBy(cs: seq<Chunk>, v: VideoState, p: nat) {
    exists j :: 0 <= j < |cs| && Covers(cs[j], v, p)
  }

  lemma CoveredGrows(cs: seq<Chunk>, more: seq<Chunk>, v: VideoState, p: nat)
    ensures CoveredBy(cs + more, v, p) <==> CoveredBy(cs, v, p) || CoveredBy(more, v, p)
  {
    forall j | 0 <= j < |cs| ensures (cs + more)[j] == cs[j] {
    }
    forall j | 0 <= j < |more| ensures (cs + more)[|cs| + j] == more[j] {
    }
  }

  lemma RowOfByte(p: nat, d: nat, rows: nat) returns (r: nat)
    requires d > 0 && p < Times(rows, d)
    ensures r < rows && Times(r, d) <= p < Times(r, d) + d
  {
    r := Quotient(p, d);
    AtMostQuotient(p, d, rows);
    AtMostQuotient(p, d, r);
    AtMostQuotient(p, d, r + 1);
  }

  lemma ChunkOfByte(v: VideoState, p: nat) returns (k: nat)
    requires Admissible(v) && p < ScreenBytes(v)
    ensures k < SweepTicks(v) && Covers(SweepChunk(v, k), v, p)
  {
    StrideBounds(v);
    var r := RowOfByte(p, Stride(v), v.textRows);
    k := Quotient(r, RowsPerFrame(v));
    ChunksTileScreen(v, r, p, k);
  }

  /** How far down the screen the sweep has come; the whole way if none is under way. */
  function Reached(s: SweepState, v: VideoState): (r: nat)
    requires v.textRows >= 1
    ensures 1 <= r <= v.textRows
  {
    if StartRow(s, v) == 0 then v.textRows else StartRow(s, v)
  }

  predicate NoneAbove(cs: seq<Chunk>, r: nat) {
    forall j :: 0 <= j < |cs| ==> cs[j].first >= r
  }

  /** What one tick sends, as a sequence. */
  function TickChunks(s: SweepState, i: TickInput): seq<Chunk>
    requires Admissible(i.video)
  {
    var c := SweepTick(s, i.active, i.video, i.fb).chunk;
    if c.Some? then [c.value] else []
  }

  lemma TickBelow(s: SweepState, i: TickInput, v: VideoState, fb: Segment)
    requires Admissible(v) && Admissible(i.video) && SameMode(i.video, v) && i.fb == fb
    requires s.chksum == ScreenChecksum(v, fb)
    ensures var s' := SweepTick(s, i.active, i.video, i.fb).state;
            s'.chksum == s.chksum && Reached(s', v) >= Reached(s, v) && NoneAbove(TickChunks(s, i), Reached(s, v))
  {
  }

  /** With the checksum on record nothing is sent but the rows below those the sweep has reached. */
  lemma {:induction false} OnlyRowsBelow(s: SweepState, ins: seq<TickInput>, v: VideoState, fb: Segment)
    requires Admissible(v) && AllAdmissible(ins) && Stable(ins, v, fb) && s.chksum == ScreenChecksum(v, fb)
    ensures StateAfter(s, ins).chksum == s.chksum && Reached(StateAfter(s, ins), v) >= Reached(s, v)
    ensures NoneAbove(Emitted(s, ins), Reached(s, v))
  {
    if ins != [] {
      var before, i := ins[..|ins| - 1], ins[|ins| - 1];
      OnlyRowsBelow(s, before, v, fb);
      TickBelow(StateAfter(s, before), i, v, fb);
      assert Emitted(s, ins) == Emitted(s, before) + TickChunks(StateAfter(s, before), i);
    }
  }

  /** Served ticks send those rows, all of them before long. */
  lemma {:induction false} RowsBelowAreSent(s: SweepState, ins: seq<TickInput>, v: VideoState, fb: Segment, p: nat)
    requires Admissible(v) && AllAdmissible(ins) && Stable(ins, v, fb) && AllActive(ins)
    requires s.chksum == ScreenChecksum(v, fb)
    requires StartRow(s, v) > 0 && Times(StartRow(s, v), Stride(v)) <= p
    ensures Reached(StateAfter(s, ins), v) >= EndRow(v, |ins|)
    ensures p < Times(Reached(StateAfter(s, ins), v), Stride(v)) ==> CoveredBy(Emitted(s, ins), v, p)
  {
    if ins == [] {
      assert EndRow(v, 0) == 0;
    } else {
      var before, i := ins[..|ins| - 1], ins[|ins| - 1];
      RowsBelowAreSent(s, before, v, fb, p);
      OnlyRowsBelow(s, before, v, fb);
      NextRowsSent(StateAfter(s, before), i, v, fb, p, |before|);
      CoveredGrows(Emitted(s, before), TickChunks(StateAfter(s, before), i), v, p);
    }
  }

  lemma NextRowsSent(s: SweepState, i: TickInput, v: VideoState, fb: Segment, p: nat, n: nat)
    requires Admissible(v) && Admissible(i.video) && SameMode(i.video, v) && i.fb == fb && i.active
    requires s.chksum == ScreenChecksum(v, fb) && Reached(s, v) >= EndRow(v, n)
    ensures var s' := SweepTick(s, true, i.video, fb).state;
            && Reached(s', v) >= EndRow(v, n + 1)
            && (Times(Reached(s, v), Stride(v)) <= p < Times(Reached(s', v), Stride(v)) ==>
                 CoveredBy(TickChunks(s, i), v, p))
  {
    EndRowGrows(v, n);
    StrideBounds(v);
    assert RowsPerFrame(i.video) == RowsPerFrame(v);
    if StartRow(s, v) > 0 {
      TickAdvances(s, i, v, fb);
      CoversRows(TickChunks(s, i), Reached(s, v), Reached(SweepTick(s, true, i.video, fb).state, v), v, p);
    }
  }

  lemma TickAdvances(s: SweepState, i: TickInput, v: VideoState, fb: Segment)
    requires Admissible(v) && Admissible(i.video) && SameMode(i.video, v) && i.fb == fb && i.active
    requires StartRow(s, v) > 0
    requires RowsPerFrame(v) > 0
    ensures var r, r' := Reached(s, v), Reached(SweepTick(s, true, i.video, fb).state, v);
            && r' == (if RowsPerFrame(v) + r > v.textRows then v.textRows else r + RowsPerFrame(v))
            && TickChunks(s, i) == [Chunk(r, r' - r)]
  {
    assert RowsPerFrame(i.video) == RowsPerFrame(v);
  }

  lemma CoversRows(cs: seq<Chunk>, r: nat, r': nat, v: VideoState, p: nat)
    requires r <= r' && cs == [Chunk(r, r' - r)]
    ensures Times(r, Stride(v)) <= p < Times(r', Stride(v)) ==> CoveredBy(cs, v, p)
  {
    MulMonotone(r, r', Stride(v));
    assert Times(r, Stride(v)) <= p < Times(r', Stride(v)) ==> Covers(cs[0], v, p);
  }

  /** Exactly which bytes of a still screen are sent, from whatever state, by ticks enough for two
      sweeps: all of them if the checksum is not the one on record, else those below the row the sweep
      under way has reached, if one is. */
  lemma SentBytesIff(s: SweepState, ins: seq<TickInput>, v: VideoState, fb: Segment, p: nat)
    requires Admissible(v) && AllAdmissible(ins) && Stable(ins, v, fb) && AllActive(ins)
    requires |ins| >= 2 * SweepTicks(v) && p < ScreenBytes(v)
    ensures CoveredBy(Emitted(s, ins), v, p) <==>
            s.chksum != ScreenChecksum(v, fb) || (StartRow(s, v) > 0 && Times(StartRow(s, v), Stride(v)) <= p)
  {
    ReachesLastRow(v, |ins|);
    if s.chksum != ScreenChecksum(v, fb) {
      AllBytesSent(s, ins, v, fb, p);
    } else if StartRow(s, v) > 0 && Times(StartRow(s, v), Stride(v)) <= p {
      RowsBelowAreSent(s, ins, v, fb, p);
    } else {
      NoByteSent(s, ins, v, fb, p);
    }
  }

  lemma AllBytesSent(s: SweepState, ins: seq<TickInput>, v: VideoState, fb: Segment, p: nat)
    requires Admissible(v) && AllAdmissible(ins) && Stable(ins, v, fb) && AllActive(ins)
    requires |ins| >= 2 * SweepTicks(v) && p < ScreenBytes(v) && s.chksum != ScreenChecksum(v, fb)
    ensures CoveredBy(Emitted(s, ins), v, p)
  {
    ReachesLastRow(v, 0);
    var j := DifferentChecksumRestarts(s, ins, v, fb);
    FullSweepCovers(StateAfter(s, ins[..j]), ins[j..], v, fb, p);
    EmittedSplit(s, ins, j);
    CoveredGrows(Emitted(s, ins[..j]), Emitted(StateAfter(s, ins[..j]), ins[j..]), v, p);
  }

  lemma FullSweepCovers(s: SweepState, ins: seq<TickInput>, v: VideoState, fb: Segment, p: nat)
    requires Admissible(v) && AllAdmissible(ins) && Stable(ins, v, fb) && AllActive(ins)
    requires |ins| >= SweepTicks(v) && p < ScreenBytes(v) && StartsSweep(s, true, v, fb)
    ensures CoveredBy(Emitted(s, ins), v, p)
  {
    FullSweep(s, ins, v, fb, SweepTicks(v));
    var k := ChunkOfByte(v, p);
    assert Emitted(s, ins)[k] == SweepChunk(v, k);
  }

  lemma NoByteSent(s: SweepState, ins: seq<TickInput>, v: VideoState, fb: Segment, p: nat)
    requires Admissible(v) && AllAdmissible(ins) && Stable(ins, v, fb)
    requires s.chksum == ScreenChecksum(v, fb) && (StartRow(s, v) > 0 ==> p < Times(StartRow(s, v), Stride(v)))
    ensures !CoveredBy(Emitted(s, ins), v, p)
  {
    if StartRow(s, v) == 0 {
      RestingStaysSilent(s, ins, v, fb);
    } else {
      OnlyRowsBelow(s, ins, v, fb);
      forall j | 0 <= j < |Emitted(s, ins)| ensures !Covers(Emitted(s, ins)[j], v, p) {
        MulMonotone(StartRow(s, v), Emitted(s, ins)[j].first, Stride(v));
      }
    }
  }

  // ----- change detection -----

  /** The 16-bit cells the checksum reads. */
  function CheckedWords(v: VideoState, fb: Segment): seq<word> {
    SegmentWords(fb, 0, LoopCount(Word(ScreenBytes(v))))
  }

  /** Every cell of the visible screen is among them, and as many cells again that lie beyond it. */
  lemma ScreenIsChecked(v: VideoState, fb: Segment, cell: nat)
    requires Admissible(v) && cell < ScreenBytes(v)
    ensures |CheckedWords(v, fb)| == ScreenBytes(v)
    ensures CheckedWords(v, fb)[cell] == WordAt(fb, 2 * cell)
  {
    var n := LoopCount(Word(ScreenBytes(v)));
    assert n == ScreenBytes(v);
    SegmentWordAt(fb, 0, n, cell);
  }

  /** So a change of one cell is seen anywhere in twice the screen, and one that nobody can see makes the server
      send a screen that has not changed. */
  lemma ChangeBeyondScreenIsSeen(v: VideoState, fb: Segment, fb': Segment, cell: nat)
    requires Admissible(v) && cell < ScreenBytes(v) && WordAt(fb, 2 * cell) != WordAt(fb', 2 * cell)
    requires forall i :: 0 <= i < ScreenBytes(v) && i != cell ==> WordAt(fb, 2 * i) == WordAt(fb', 2 * i)
    ensures ScreenChecksum(v, fb) != ScreenChecksum(v, fb')
  {
    var ws, ws' := CheckedWords(v, fb), CheckedWords(v, fb');
    ScreenIsChecked(v, fb, cell);
    ScreenIsChecked(v, fb', cell);
    forall i | 0 <= i < |ws| && i != cell ensures ws[i] == ws'[i] {
      ScreenIsChecked(v, fb, i);
      ScreenIsChecked(v, fb', i);
    }
    assert OnlyDifference(ws, ws', cell);
    OneCellChangesChecksum(ws, ws');
  }

  /** A screen whose checksum is not the one on record: the sweep under way is finished and a new one
      starts at row 0, within the ticks of a sweep. */
  lemma DifferentChecksumRestarts(s: SweepState, ins: seq<TickInput>, v: VideoState, fb: Segment) returns (j: nat)
    requires Admissible(v) && AllAdmissible(ins) && Stable(ins, v, fb) && AllActive(ins)
    requires s.chksum != ScreenChecksum(v, fb) && |ins| > SweepTicks(v)
    ensures j <= SweepTicks(v) && StartsSweep(StateAfter(s, ins[..j]), true, v, fb)
    ensures var o := SweepTick(StateAfter(s, ins[..j]), true, ins[j].video, fb);
            o.chunk.Some? && o.chunk.value.first == 0 && o.state.chksum == ScreenChecksum(v, fb)
  {
    j := 0;
    ReachesLastRow(v, 0);
    while StartRow(StateAfter(s, ins[..j]), v) != 0
      invariant j <= SweepTicks(v)
      invariant StateAfter(s, ins[..j]).chksum == s.chksum
      invariant StartRow(StateAfter(s, ins[..j]), v) == 0 || StartRow(StateAfter(s, ins[..j]), v) >= EndRow(v, j)
      decreases SweepTicks(v) - j
    {
      ReachesLastRow(v, j);
      UnderWayTick(StateAfter(s, ins[..j]), ins[j], v, j);
      assert ins[..j + 1][..j] == ins[..j];
      j := j + 1;
    }
    assert SameMode(ins[j].video, v) && ScreenChecksum(ins[j].video, fb) == ScreenChecksum(v, fb);
  }

  lemma UnderWayTick(s: SweepState, i: TickInput, v: VideoState, k: nat)
    requires Admissible(v) && Admissible(i.video) && SameMode(i.video, v) && i.active
    requires StartRow(s, v) != 0 && StartRow(s, v) >= EndRow(v, k)
    ensures var s' := SweepTick(s, i.active, i.video, i.fb).state;
            s'.chksum == s.chksum && (StartRow(s', v) == 0 || StartRow(s', v) >= EndRow(v, k + 1))
  {
    EndRowGrows(v, k);
    assert RowsPerFrame(i.video) == RowsPerFrame(v);
  }

  /** While the checksum on record is that of the screen, no sweep starts, wherever this one stands. */
  lemma {:induction false} SameChecksumNeverStarts(s: SweepState, ins: seq<TickInput>, v: VideoState, fb: Segment)
    requires AllAdmissible(ins) && Stable(ins, v, fb) && s.chksum == ScreenChecksum(v, fb)
    ensures StateAfter(s, ins).chksum == ScreenChecksum(v, fb)
  {
    if ins != [] {
      SameChecksumNeverStarts(s, ins[..|ins| - 1], v, fb);
    }
  }

  predicate StartsAt(s: SweepState, ins: seq<TickInput>, j: nat, v: VideoState, fb: Segment)
    requires AllAdmissible(ins) && j <= |ins|
  {
    StartsSweep(StateAfter(s, ins[..j]), true, v, fb)
  }

  /** A screen that holds still long enough is sent from its first row, to sessions old or new, exactly
      when its checksum is not the one recorded when the last sweep began. */
  lemma SweepStartsIff(s: SweepState, ins: seq<TickInput>, v: VideoState, fb: Segment)
    requires Admissible(v) && AllAdmissible(ins) && Stable(ins, v, fb) && AllActive(ins) && |ins| > SweepTicks(v)
    ensures (exists j :: 0 <= j < |ins| && StartsAt(s, ins, j, v, fb)) <==> s.chksum != ScreenChecksum(v, fb)
  {
    if s.chksum != ScreenChecksum(v, fb) {
      var j := DifferentChecksumRestarts(s, ins, v, fb);
      assert StartsAt(s, ins, j, v, fb);
    } else {
      forall j | 0 <= j < |ins| ensures !StartsAt(s, ins, j, v, fb) {
        SameChecksumNeverStarts(s, ins[..j], v, fb);
      }
    }
  }

  /** Once one cell differs from what the last sweep started from, a sweep starts again. */
  lemma OneCellChangeRestarts(s: SweepState, ins: seq<TickInput>, v: VideoState, fb0: Segment, fb: Segment)
    requires Admissible(v) && AllAdmissible(ins) && Stable(ins, v, fb) && AllActive(ins)
    requires s.chksum == ScreenChecksum(v, fb0) && DifferInOneCell(CheckedWords(v, fb0), CheckedWords(v, fb))
    requires |ins| > SweepTicks(v)
    ensures s.chksum != ScreenChecksum(v, fb)
    ensures exists j :: 0 <= j < |ins| && StartsAt(s, ins, j, v, fb)
  {
    OneCellChangesChecksum(CheckedWords(v, fb0), CheckedWords(v, fb));
    SweepStartsIff(s, ins, v, fb);
  }

  /** In every mode with at least two cells there are screens that differ in what is to be seen and have
      the same checksum, so a change from one to the other is never sent. */
  lemma UnseenChange(v: VideoState) returns (fb: Segment, fb': Segment)
    requires Admissible(v) && ScreenBytes(v) >= 4
    ensures ScreenChecksum(v, fb) == ScreenChecksum(v, fb') && fb[1] != fb'[1]
  {
    fb := [0, 1, 0, 0] + Zeros(0xfffc);
    fb' := [0, 0, 0, 2] + Zeros(0xfffc);
    var ws, ws' := CheckedWords(v, fb), CheckedWords(v, fb');
    ScreenIsChecked(v, fb, 0);
    ScreenIsChecked(v, fb', 0);
    ScreenIsChecked(v, fb, 1);
    ScreenIsChecked(v, fb', 1);
    assert ws[..2] == [0x0100, 0] && ws'[..2] == [0, 0x0200];
    TwoCellsMayCollide();
    forall i | 2 <= i < |ws| ensures ws[i] == ws'[i] {
      RestIsZero(v, fb, i);
      RestIsZero(v, fb', i);
    }
    ChecksumTail(ws, ws', 2);
  }

  lemma RestIsZero(v: VideoState, fb: Segment, i: nat)
    requires Admissible(v) && 2 <= i < |CheckedWords(v, fb)| && forall j :: 4 <= j < |fb| ==> fb[j] == 0
    ensures CheckedWords(v, fb)[i] == 0
  {
    var n := LoopCount(Word(ScreenBytes(v)));
    assert n == ScreenBytes(v) && i < n;
    SegmentWordAt(fb, 0, n, i);
  }

  /** In every mode some screen shows something and has a checksum other than that of the blank screen,
      which is the one on record to begin with. */
  lemma LitCell(v: VideoState) returns (fb: Segment)
    requires Admissible(v)
    ensures fb[0] == 1 && ScreenChecksum(v, fb) != 0 && ScreenChecksum(v, Zeros(0x1_0000)) == 0
  {
    fb := [1] + Zeros(0xffff);
    var blank: Segment := Zeros(0x1_0000);
    var ws, ws' := CheckedWords(v, fb), CheckedWords(v, blank);
    FirstCellDiffers(v, fb, blank);
    OneCellChangesChecksum(ws, ws');
    BlankChecksum(v, blank);
  }

  lemma BlankChecksum(v: VideoState, blank: Segment)
    requires Admissible(v) && forall i :: 0 <= i < |blank| ==> blank[i] == 0
    ensures ScreenChecksum(v, blank) == 0
  {
    var ws := CheckedWords(v, blank);
    forall i | 0 <= i < |ws| ensures ws[i] == 0 {
      SegmentWordAt(blank, 0, |ws|, i);
    }
    ChecksumOfZeros(ws);
  }

  lemma FirstCellDiffers(v: VideoState, fb: Segment, fb': Segment)
    requires Admissible(v) && fb[0] != fb'[0] && fb[1] == fb'[1] && forall i :: 2 <= i < |fb| ==> fb[i] == fb'[i]
    ensures DifferInOneCell(CheckedWords(v, fb), CheckedWords(v, fb'))
  {
    var ws, ws' := CheckedWords(v, fb), CheckedWords(v, fb');
    ScreenIsChecked(v, fb, 0);
    ScreenIsChecked(v, fb', 0);
    forall i | 0 < i < |ws| ensures ws[i] == ws'[i] {
      LaterWordSame(v, fb, fb', i);
    }
    assert OnlyDifference(ws, ws', 0);
  }

  lemma LaterWordSame(v: VideoState, fb: Segment, fb': Segment, i: nat)
    requires Admissible(v) && 0 < i < |CheckedWords(v, fb)| && forall j :: 2 <= j < |fb| ==> fb[j] == fb'[j]
    ensures |CheckedWords(v, fb')| == |CheckedWords(v, fb)| && CheckedWords(v, fb)[i] == CheckedWords(v, fb')[i]
  {
    var n := LoopCount(Word(ScreenBytes(v)));
    assert n == ScreenBytes(v);
    SegmentWordAt(fb, 0, n, i);
    SegmentWordAt(fb', 0, n, i);
  }
}
