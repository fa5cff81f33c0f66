/** What the client makes of the frames it receives: at any moment each byte of its copy was put there by
    the last frame delivered that covers it. */
module Copying {
  import opened Wire
  import opened Video
  import opened Sweep
  import opened Client
  import opened Mirror
  import opened Sending

  // ----- the client's copy -----

  /** The client's copy of the server's screen. */
  function ClientBuffer(u: Setup, w: World): TextBuffer
    requires Known(w.hosts, u.server.mac)
  {
    w.hosts[FindHost(w.hosts, u.server.mac, 0)].value.buffer
  }

  predicate ClientReady(u: Setup, w: World) {
    HostsInv(w.hosts) && Known(w.hosts, u.server.mac)
  }

  lemma StepKeepsReady(u: Setup, x: World, e: Event)
    requires ClientReady(u, x) && Enabled(u, x, e)
    ensures ClientReady(u, Step(u, x, e))
    ensures ClientBuffer(u, Step(u, x, e)) ==
            if e.Deliver? && ForClient(u, e.frame)
            then ShowVideo(x.hosts[FindHost(x.hosts, u.server.mac, 0)].value, e.frame).buffer
            else ClientBuffer(u, x)
  {
    if e.Deliver? || e.Foreign? {
      var i := FindHost(x.hosts, u.server.mac, 0);
      ReceiveKeepsHosts(x.hosts, u.mac, u.id, e.frame);
      ReceivedBuffer(x.hosts, u.mac, u.id, e.frame, i);
      SameHostFound(x.hosts, Receive(x.hosts, u.mac, u.id, e.frame), u.server.mac, i);
    }
  }

  lemma SameHostFound(hosts: Hosts, after: Hosts, mac: Mac, i: nat)
    requires HostsInv(hosts) && HostsInv(after) && i < |hosts| && i == FindHost(hosts, mac, 0)
    requires after[i].Some? && after[i].value.mac == hosts[i].value.mac
    ensures FindHost(after, mac, 0) == i
  {
    var j := FindHost(after, mac, 0);
    assert IsHost(after[i], mac) && IsHost(hosts[i], mac);
  }

  predicate AgreesOn(b: TextBuffer, fb: Segment, from: nat, to: nat)
    requires to <= TEXT_BUFFER_SIZE
  {
    forall p :: from <= p < to ==> b[p] == fb[p]
  }

  lemma {:induction false} StaysReady(u: Setup, w: World, es: seq<Event>)
    requires RunFrom(u, w, es) && ClientReady(u, w)
    ensures ClientReady(u, Exec(u, w, es))
  {
    if es != [] {
      StaysReady(u, w, es[..|es| - 1]);
      StepKeepsReady(u, Exec(u, w, es[..|es| - 1]), es[|es| - 1]);
    }
  }

  /** At the end of a run that began with the server known. */
  function CopyAtEnd(u: Setup, w: World, es: seq<Event>): (b: TextBuffer)
    requires RunFrom(u, w, es) && ClientReady(u, w)
    ensures ClientReady(u, Exec(u, w, es)) && b == ClientBuffer(u, Exec(u, w, es))
  {
    StaysReady(u, w, es);
    ClientBuffer(u, Exec(u, w, es))
  }

  // ----- who wrote each byte last -----

  /** The event brings in an update that the client's bounds test lets through. */
  predicate Pastes(u: Setup, e: Event) {
    e.Deliver? && ForClient(u, e.frame) && VideoOffset(e.frame) + VideoCount(e.frame) <= TEXT_BUFFER_SIZE
  }

  predicate CoversByte(f: Frame, p: nat)
    requires WellFormed(f) && PktType(f) == V1_VGA_TEXT
  {
    VideoOffset(f) <= p < VideoOffset(f) + VideoCount(f)
  }

  /** The byte a frame carries for place p of the screen. */
  function ByteFor(f: Frame, p: nat): byte
    requires WellFormed(f) && PktType(f) == V1_VGA_TEXT && CoversByte(f, p)
  {
    VideoData(f)[p - VideoOffset(f)]
  }

  predicate Writes(u: Setup, e: Event, p: nat) {
    Pastes(u, e) && CoversByte(e.frame, p)
  }

  predicate WritesLast(u: Setup, es: seq<Event>, i: nat, p: nat) {
    i < |es| && Writes(u, es[i], p) && forall j :: i < j < |es| ==> !Writes(u, es[j], p)
  }

  predicate NeverWritten(u: Setup, es: seq<Event>, p: nat) {
    forall j :: 0 <= j < |es| ==> !Writes(u, es[j], p)
  }

  lemma StepByte(u: Setup, x: World, e: Event, p: nat)
    requires ClientReady(u, x) && Enabled(u, x, e) && p < TEXT_BUFFER_SIZE
    ensures ClientReady(u, Step(u, x, e))
    ensures ClientBuffer(u, Step(u, x, e))[p] == if Writes(u, e, p) then ByteFor(e.frame, p) else ClientBuffer(u, x)[p]
  {
    StepKeepsReady(u, x, e);
  }

  lemma {:induction false} NeverWrittenStays(u: Setup, w: World, es: seq<Event>, p: nat)
    requires RunFrom(u, w, es) && ClientReady(u, w) && p < TEXT_BUFFER_SIZE && NeverWritten(u, es, p)
    ensures CopyAtEnd(u, w, es)[p] == ClientBuffer(u, w)[p]
  {
    if es != [] {
      var before, e := es[..|es| - 1], es[|es| - 1];
      NeverWrittenStays(u, w, before, p);
      StepByte(u, CopyWorld(u, w, before), e, p);
    }
  }

  lemma {:induction false} LastWriter(u: Setup, w: World, es: seq<Event>, p: nat, i: nat)
    requires RunFrom(u, w, es) && ClientReady(u, w) && p < TEXT_BUFFER_SIZE && WritesLast(u, es, i, p)
    ensures CopyAtEnd(u, w, es)[p] == ByteFor(es[i].frame, p)
  {
    var before, e := es[..|es| - 1], es[|es| - 1];
    StepByte(u, CopyWorld(u, w, before), e, p);
    if i < |before| {
      LastWriter(u, w, before, p, i);
    }
  }

  function CopyWorld(u: Setup, w: World, es: seq<Event>): (x: World)
    requires RunFrom(u, w, es) && ClientReady(u, w)
    ensures ClientReady(u, x)
  {
    StaysReady(u, w, es);
    Exec(u, w, es)
  }

  lemma {:induction false} SomeoneWritesLast(u: Setup, es: seq<Event>, i: nat, p: nat) returns (l: nat)
    requires i < |es| && Writes(u, es[i], p)
    ensures i <= l && WritesLast(u, es, l, p)
    decreases |es|
  {
    var n := |es| - 1;
    if Writes(u, es[n], p) {
      l := n;
    } else {
      l := SomeoneWritesLast(u, es[..n], i, p);
      forall j | l < j < |es| ensures !Writes(u, es[j], p) {
        assert j < n ==> es[j] == es[..n][j];
      }
    }
  }

  predicate LastShows(u: Setup, es: seq<Event>, i: nat, p: nat, b: byte) {
    WritesLast(u, es, i, p) && ByteFor(es[i].frame, p) == b
  }

  /** When a byte of the copy is right at the end of a run, whatever was delivered in it, however late and
      however often: exactly when the last frame to cover it carries the right byte, or none covers it
      and it was right from the start. */
  lemma ByteIsRightIff(u: Setup, w: World, es: seq<Event>, fb: Segment, p: nat)
    requires RunFrom(u, w, es) && ClientReady(u, w) && p < TEXT_BUFFER_SIZE
    ensures CopyAtEnd(u, w, es)[p] == fb[p] <==>
            || (exists i: nat :: LastShows(u, es, i, p, fb[p]))
            || (NeverWritten(u, es, p) && ClientBuffer(u, w)[p] == fb[p])
  {
    if NeverWritten(u, es, p) {
      NeverWrittenStays(u, w, es, p);
    } else {
      var i :| 0 <= i < |es| && Writes(u, es[i], p);
      var l := SomeoneWritesLast(u, es, i, p);
      LastWriter(u, w, es, p, l);
      assert CopyAtEnd(u, w, es)[p] == fb[p] ==> LastShows(u, es, l, p, fb[p]);
      forall k: nat | LastShows(u, es, k, p, fb[p]) ensures k == l {
      }
    }
  }

  // ----- frames that have settled -----

  predicate Overlaps(f: Frame, g: Frame)
    requires WellFormed(f) && PktType(f) == V1_VGA_TEXT && WellFormed(g) && PktType(g) == V1_VGA_TEXT
  {
    VideoOffset(f) < VideoOffset(g) + VideoCount(g) && VideoOffset(g) < VideoOffset(f) + VideoCount(f)
  }

  /** Delivered, and no overlapping update delivered after it shows anything else. */
  predicate SettledAt(u: Setup, es: seq<Event>, i: nat, f: Frame, fb: Segment)
    requires ForClient(u, f)
  {
    && i < |es| && es[i] == Deliver(f)
    && forall j :: i < j < |es| && Pastes(u, es[j]) && Overlaps(es[j].frame, f) ==> Agrees(es[j].frame, fb)
  }

  predicate Settled(u: Setup, es: seq<Event>, f: Frame, fb: Segment)
    requires ForClient(u, f)
  {
    exists i :: 0 <= i < |es| && SettledAt(u, es, i, f, fb)
  }

  /** A frame that has settled is on the client's copy at the end. */
  lemma DeliveredStays(u: Setup, w: World, es: seq<Event>, f: Frame, fb: Segment)
    requires RunFrom(u, w, es) && ClientReady(u, w)
    requires ForClient(u, f) && Agrees(f, fb) && Settled(u, es, f, fb)
    ensures AgreesOn(CopyAtEnd(u, w, es), fb, VideoOffset(f), VideoOffset(f) + VideoCount(f))
  {
    var i :| 0 <= i < |es| && SettledAt(u, es, i, f, fb);
    forall p | VideoOffset(f) <= p < VideoOffset(f) + VideoCount(f) ensures CopyAtEnd(u, w, es)[p] == fb[p] {
      assert Writes(u, es[i], p);
      var l := SomeoneWritesLast(u, es, i, p);
      LastWriter(u, w, es, p, l);
      assert Agrees(es[l].frame, fb);
      AgreedByte(es[l].frame, fb, p);
    }
  }

  lemma AgreedByte(f: Frame, fb: Segment, p: nat)
    requires WellFormed(f) && PktType(f) == V1_VGA_TEXT && CoversByte(f, p) && Agrees(f, fb)
    ensures ByteFor(f, p) == fb[p]
  {
  }

  // ----- fresh deliveries -----

  predicate SentSince(u: Setup, w: World, es: seq<Event>, i: nat)
    requires RunFrom(u, w, es) && i < |es| && es[i].Deliver?
  {
    PrefixRuns(u, w, es, i);
    es[i].frame in NewlySent(u, w, es[..i])
  }

  /** No update that arrives was sent before the run began. */
  predicate OnlyFresh(u: Setup, w: World, es: seq<Event>)
    requires RunFrom(u, w, es)
  {
    forall i :: 0 <= i < |es| && es[i].Deliver? && ForClient(u, es[i].frame) ==> SentSince(u, w, es, i)
  }

  /** Every screen update that arrives shows what is on this screen: none is left over from another. */
  predicate OnlyCurrent(u: Setup, es: seq<Event>, fb: Segment) {
    forall i :: 0 <= i < |es| && es[i].Deliver? && ForClient(u, es[i].frame) ==> Agrees(es[i].frame, fb)
  }

  /** Every screen update sent to the client in the run arrives at least once. */
  predicate AllDelivered(u: Setup, w: World, es: seq<Event>)
    requires RunFrom(u, w, es)
  {
    forall f :: f in NewlySent(u, w, es) && ForClient(u, f) ==> Deliver(f) in es
  }

  /** If the screen holds still all that is fresh shows it. */
  lemma FreshIsCurrent(u: Setup, w: World, es: seq<Event>, v: VideoState, fb: Segment)
    requires RunFrom(u, w, es) && HoldsStill(es, v, fb) && w.screen == fb && SameMode(w.video, v) && OnlyFresh(u, w, es)
    ensures OnlyCurrent(u, es, fb)
  {
    forall i | 0 <= i < |es| && es[i].Deliver? && ForClient(u, es[i].frame) ensures Agrees(es[i].frame, fb) {
      PrefixRuns(u, w, es, i);
      assert SentSince(u, w, es, i);
      NewFramesAgree(u, w, es[..i], v, fb);
    }
  }

  /** Where nothing else is delivered, to be delivered is to settle. */
  lemma CurrentSettles(u: Setup, es: seq<Event>, f: Frame, fb: Segment)
    requires OnlyCurrent(u, es, fb) && ForClient(u, f) && Deliver(f) in es
    ensures Settled(u, es, f, fb)
  {
    var i :| 0 <= i < |es| && es[i] == Deliver(f);
    assert SettledAt(u, es, i, f, fb);
  }

  lemma {:induction false} SentSincePrefix(u: Setup, w: World, es: seq<Event>, n: nat)
    requires RunFrom(u, w, es) && n <= |es|
    ensures RunFrom(u, w, es[..n]) && NewlySent(u, w, es[..n]) <= NewlySent(u, w, es)
  {
    PrefixRuns(u, w, es, n);
    if n < |es| {
      SentSincePrefix(u, w, es[..|es| - 1], n);
      assert es[..|es| - 1][..n] == es[..n];
      NewlySentStep(u, w, es);
    } else {
      assert es[..n] == es;
    }
  }
}
