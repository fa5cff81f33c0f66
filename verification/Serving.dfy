/** What serving packets comes to over whole runs: the keystrokes injected and the sessions started, whenever
    and with whatever video state each packet is served. */
module Serving {
  import opened Wire
  import opened Lists
  import L = Lease
  import opened Sweep
  import opened PoolModel
  import opened PoolRuns
  import opened Server
  import opened Exchange

  /** What the server finds when it comes to a packet. */
  datatype Moment = Moment(attached: bool, now: dword, video: VideoState)

  /** Each packet is handled at its own moment. */
  function HandleEach(c: Config, st: State, ms: seq<Moment>, ps: seq<Packet>): State
    requires AllGood(ps) && |ms| == |ps|
    decreases |ps|
  {
    if ps == [] then st
    else
      var n := |ps| - 1;
      Handle(c, HandleEach(c, st, ms[..n], ps[..n]), ms[n].attached, ms[n].now, ms[n].video, ps[n])
  }

  lemma {:induction false} HandleAllAppend(c: Config, st: State, attached: bool, now: dword, v: VideoState,
                                           ps: seq<Packet>)
    requires AllGood(ps) && ps != []
    ensures HandleAll(c, st, attached, now, v, ps)
            == Handle(c, HandleAll(c, st, attached, now, v, ps[..|ps| - 1]), attached, now, v, ps[|ps| - 1])
    decreases ps
  {
    if |ps| > 1 {
      assert ps[..|ps| - 1][1..] == ps[1..][..|ps| - 2] && ps[..|ps| - 1][0] == ps[0];
      HandleAllAppend(c, Handle(c, st, attached, now, v, ps[0]), attached, now, v, ps[1..]);
    } else {
      assert ps[..|ps| - 1] == [] && ps[1..] == [];
    }
  }

  /** One call of `protocol_process` serves all its packets at the same moment. */
  lemma {:induction false} OneCall(c: Config, st: State, m: Moment, ms: seq<Moment>, ps: seq<Packet>)
    requires AllGood(ps) && |ms| == |ps| && forall i :: 0 <= i < |ms| ==> ms[i] == m
    ensures HandleEach(c, st, ms, ps) == HandleAll(c, st, m.attached, m.now, m.video, ps)
    decreases |ps|
  {
    if ps != [] {
      var n := |ps| - 1;
      OneCall(c, st, m, ms[..n], ps[..n]);
      HandleAllAppend(c, st, m.attached, m.now, m.video, ps);
    }
  }

  // ----- keystrokes -----

  /** The keys of these packets, packet after packet. */
  function AllKeys(ps: seq<Packet>): seq<Keystroke>
    requires AllGood(ps)
  {
    if ps == [] then [] else AllKeys(ps[..|ps| - 1]) + KeysOf(ps[|ps| - 1])
  }

  lemma OnePacketInjects(c: Config, st: State, m: Moment, p: Packet)
    requires GoodRequest(p.data, p.bytes)
    ensures Handle(c, st, m.attached, m.now, m.video, p).injected == st.injected + KeysOf(p)
  {
  }

  /** What is injected is what the packets carry, in the order of consumption, whenever each is served. */
  lemma {:induction false} InjectedInConsumptionOrder(c: Config, st: State, ms: seq<Moment>, ps: seq<Packet>)
    requires AllGood(ps) && |ms| == |ps|
    ensures HandleEach(c, st, ms, ps).injected == st.injected + AllKeys(ps)
    decreases |ps|
  {
    if ps != [] {
      var n := |ps| - 1;
      InjectedInConsumptionOrder(c, st, ms[..n], ps[..n]);
      OnePacketInjects(c, HandleEach(c, st, ms[..n], ps[..n]), ms[n], ps[n]);
      Regroup(st.injected, AllKeys(ps[..n]), KeysOf(ps[n]));
    }
  }

  lemma Regroup(a: seq<Keystroke>, b: seq<Keystroke>, c: seq<Keystroke>)
    ensures a + b + c == a + (b + c)
  {
  }

  /** Over every run of driver and consumer: what is injected is the keys of the packets the handler has
      seen, each of which is one the driver handed over. */
  lemma InjectedOverRuns<T>(s: System<T>, es: seq<PoolRuns.Event<T>>, c: Config, st: State, ms: seq<Moment>)
    requires PoolRuns.Init(s) && RunFrom(s, es) && AllGood(Exec(s, es).marks) && |ms| == |Exec(s, es).seen|
    ensures AllGood(Exec(s, es).seen)
    ensures HandleEach(c, st, ms, Exec(s, es).seen).injected == st.injected + AllKeys(Exec(s, es).seen)
  {
    SeenAsLogged(s, es);
    InjectedInConsumptionOrder(c, st, ms, Exec(s, es).seen);
  }

  /** A burst of keystroke packets that arrives while the consumer is idle with nothing waiting is injected
      packet by packet from the last to the first, each packet's own keys in order, however many calls it
      takes and whenever they come. */
  lemma BurstInjectedBackwards<T>(s: System<T>, es: seq<PoolRuns.Event<T>>, n: nat, ds: seq<PoolRuns.Event<T>>,
                                  c: Config, st: State, ms: seq<Moment>)
    returns (ps: seq<Packet>)
    requires PoolRuns.Init(s) && RunFrom(s, es) && n <= |es| && RunFrom(s, es[..n])
    requires Exec(s, es[..n]).consumer.Idle? && Exec(s, es[..n]).queue == []
    requires forall i :: n <= i < |es| ==> !IsConsumerEvent(es[i])
    requires ConsumerGoesOn(es, ds) && RunFrom(s, ds) && Exec(s, ds).queue == [] && Exec(s, ds).consumer.Idle?
    requires AllGood(Exec(s, es).marks) && |ms| + |Exec(s, es[..n]).marks| == |Exec(s, es).marks|
    ensures |ps| == |ms| && AllGood(ps) && Exec(s, ds).seen == Exec(s, es).seen + ps
    ensures |Exec(s, es[..n]).marks| <= |Exec(s, es).marks|
    ensures ps == Reverse(Exec(s, es).marks[|Exec(s, es[..n]).marks|..])
    ensures HandleEach(c, st, ms, ps).injected == st.injected + AllKeys(ps)
  {
    BurstSeenInReverse(s, es, n, ds);
    var burst := Exec(s, es).marks[|Exec(s, es[..n]).marks|..];
    ps := Reverse(burst);
    forall i | 0 <= i < |ps| ensures GoodRequest(ps[i].data, ps[i].bytes) {
      ReverseAt(burst, i);
    }
    InjectedInConsumptionOrder(c, st, ms, ps);
  }

  // ----- session starts -----

  predicate StartsSession(p: Packet)
    requires |p.data| == BUFFER_MAX_SIZE
  {
    Signature(p.data) == PACKET_SIGNATURE && PktType(p.data) == V1_SESSION_START
  }

  function StartEvent(p: Packet, m: Moment): seq<L.Event>
    requires GoodRequest(p.data, p.bytes)
  {
    if StartsSession(p) then [L.Refresh((Src(p.data), SessionId(p.data)), m.now)] else []
  }

  /** The table events among the packets. */
  function StartEvents(ps: seq<Packet>, ms: seq<Moment>): seq<L.Event>
    requires AllGood(ps) && |ms| == |ps|
    decreases |ps|
  {
    if ps == [] then []
    else
      var n := |ps| - 1;
      StartEvents(ps[..n], ms[..n]) + StartEvent(ps[n], ms[n])
  }

  lemma OnePacketStarts(c: Config, st: State, m: Moment, p: Packet)
    requires GoodRequest(p.data, p.bytes)
    ensures Handle(c, st, m.attached, m.now, m.video, p).table == L.Exec(st.table, StartEvent(p, m))
  {
    assert StartEvent(p, m) != [] ==> StartEvent(p, m)[..|StartEvent(p, m)| - 1] == [];
  }

  /** Serving packets moves the session table as the lease events they stand for do, so every property
      of lease runs holds of the running server. */
  lemma {:induction false} ServingIsALeaseRun(c: Config, st: State, ms: seq<Moment>, ps: seq<Packet>)
    requires AllGood(ps) && |ms| == |ps|
    ensures HandleEach(c, st, ms, ps).table == L.Exec(st.table, StartEvents(ps, ms))
    decreases |ps|
  {
    if ps != [] {
      var n := |ps| - 1;
      ServingIsALeaseRun(c, st, ms[..n], ps[..n]);
      OnePacketStarts(c, HandleEach(c, st, ms[..n], ps[..n]), ms[n], ps[n]);
      L.ExecCompose(st.table, StartEvents(ps[..n], ms[..n]), StartEvent(ps[n], ms[n]));
    }
  }
}
