/** Leases over whole runs: what sequences of session starts and timer ticks do to the session table,
    and why the client's refresh timer keeps its session alive through packet loss. */
module Lease {
  import opened Wire
  import opened Sessions

  /** What reaches the table: a start request from a client, or a timer tick. */
  datatype Event =
    | Refresh(key: Key, now: dword)
    | Tick(now: dword)

  function ApplyEvent(t: Table, e: Event): Table {
    match e
    case Refresh(k, now) => StartTable(t, k, now)
    case Tick(now) => PruneTable(t, now)
  }

  function Exec(t: Table, es: seq<Event>): Table {
    if es == [] then t else ApplyEvent(Exec(t, es[..|es| - 1]), es[|es| - 1])
  }

  lemma {:induction false} ExecCompose(t: Table, a: seq<Event>, b: seq<Event>)
    ensures Exec(t, a + b) == Exec(Exec(t, a), b)
  {
    if b == [] {
      assert a + b == a;
    } else {
      ExecCompose(t, a, b[..|b| - 1]);
      assert (a + b)[..|a + b| - 1] == a + b[..|b| - 1];
    }
  }

  /** Real senders have a nonzero address, and the clock stays clear of the 32-bit overflow. */
  predicate Admissible(es: seq<Event>) {
    RealSenders(es) && forall i :: 0 <= i < |es| ==> es[i].now + LIFETIME < 0x1_0000_0000
  }

  predicate RealSenders(es: seq<Event>) {
    forall i :: 0 <= i < |es| && es[i].Refresh? ==> es[i].key.0 != NULL_MAC
  }

  lemma {:induction false} InvariantOverRuns(t: Table, es: seq<Event>)
    requires TableInv(t) && RealSenders(es)
    ensures TableInv(Exec(t, es))
    ensures |Leases(Exec(t, es))| <= 4
  {
    if es != [] {
      var before, e := es[..|es| - 1], es[|es| - 1];
      InvariantOverRuns(t, before);
      match e {
        case Refresh(k, now) => StartSetsLease(Exec(t, before), k, now);
        case Tick(now) => PruneDropsStale(Exec(t, before), now);
      }
    }
    LeaseCount(Exec(t, es));
  }

  /** A slot once taken by a zero address with a nonzero session id is never pruned and never given to
      anyone else, in any run. */
  lemma {:induction false} ZeroAddressSticks(t: Table, es: seq<Event>, i: nat)
    requires i < |t| && t[i].key.0 == NULL_MAC && t[i].key.1 != 0
    ensures |Exec(t, es)| == |t| && KeyOf(Exec(t, es)[i]) == KeyOf(t[i])
  {
    if es != [] {
      ZeroAddressSticks(t, es[..|es| - 1], i);
    }
  }

  /** The wrapped comparison agrees with the intended one exactly when the sum does not overflow. */
  lemma ExpiryTestExact(since: dword, now: dword)
    requires since <= now
    ensures (Expired(since, now) <==> now - since > 182) <==> since + 182 < 0x1_0000_0000
  {
    if since + LIFETIME >= 0x1_0000_0000 {
      assert (since + LIFETIME) % 0x1_0000_0000 == since + LIFETIME - 0x1_0000_0000;
    }
  }

  predicate NoneOverdue(t: Table, now: dword) {
    forall k :: k in Leases(t) ==> now - Leases(t)[k] <= LIFETIME
  }

  /** A tick leaves no overdue lease, and drops no other. */
  lemma NoneOverdueAfterTick(t: Table, now: dword)
    requires TableInv(t)
    requires forall k :: k in Leases(t) ==> Leases(t)[k] <= now && Leases(t)[k] + LIFETIME < 0x1_0000_0000
    ensures NoneOverdue(PruneTable(t, now), now)
    ensures forall k :: k in Leases(t) && now - Leases(t)[k] <= LIFETIME ==> k in Leases(PruneTable(t, now))
  {
    PruneDropsStale(t, now);
  }

  predicate AllBefore(t: Table, now: dword) {
    forall k :: k in Leases(t) ==> Leases(t)[k] <= now
  }

  lemma {:induction false} LeasesArePast(t: Table, es: seq<Event>, now: dword)
    requires TableInv(t) && Admissible(es) && AllBefore(t, now)
    requires forall i :: 0 <= i < |es| ==> es[i].now <= now
    ensures TableInv(Exec(t, es)) && AllBefore(Exec(t, es), now)
  {
    if es != [] {
      var before, e := es[..|es| - 1], es[|es| - 1];
      LeasesArePast(t, before, now);
      match e {
        case Refresh(k, at) => StartSetsLease(Exec(t, before), k, at);
        case Tick(at) => PruneDropsStale(Exec(t, before), at);
      }
    }
  }

  /** After every tick of every run, no lease older than the lifetime is left in the table. */
  lemma NoneOverdueInAnyRun(t: Table, es: seq<Event>, n: nat, now: dword)
    requires TableInv(t) && Admissible(es) && n < |es| && es[n] == Tick(now) && AllBefore(t, now)
    requires forall i :: 0 <= i < n ==> es[i].now <= now
    ensures NoneOverdue(Exec(t, es[..n + 1]), now)
  {
    assert es[..n + 1][..n] == es[..n];
    assert es[n].now + LIFETIME < 0x1_0000_0000;
    LeasesArePast(t, es[..n], now);
    NoneOverdueAfterTick(Exec(t, es[..n]), now);
  }

  /** When the client was last heard from, if the events began with its lease dated `t0`. */
  function LastRefresh(es: seq<Event>, k: Key, t0: dword): dword {
    if es == [] then t0
    else if es[|es| - 1].Refresh? && es[|es| - 1].key == k then es[|es| - 1].now
    else LastRefresh(es[..|es| - 1], k, t0)
  }

  /** No tick comes more than a lifetime after the latest refresh before it. */
  predicate Timely(es: seq<Event>, k: Key, t0: dword) {
    forall i :: 0 <= i < |es| && es[i].Tick? ==> OnTime(es, i, k, t0)
  }

  predicate OnTime(es: seq<Event>, i: nat, k: Key, t0: dword)
    requires i < |es|
  {
    es[i].now - LastRefresh(es[..i], k, t0) <= LIFETIME
  }

  lemma TimelyPrefix(es: seq<Event>, n: nat, k: Key, t0: dword)
    requires n <= |es|
    ensures Timely(es[..n], k, t0) <==> forall i :: 0 <= i < n && es[i].Tick? ==> OnTime(es, i, k, t0)
  {
    forall i | 0 <= i < n ensures es[..n][..i] == es[..i] {
    }
    assert forall i :: 0 <= i < n ==> OnTime(es[..n], i, k, t0) == OnTime(es, i, k, t0);
  }

  lemma {:induction false} LastRefreshBounded(es: seq<Event>, k: Key, t0: dword)
    requires Admissible(es) && t0 + LIFETIME < 0x1_0000_0000
    ensures LastRefresh(es, k, t0) + LIFETIME < 0x1_0000_0000
  {
    if es != [] {
      LastRefreshBounded(es[..|es| - 1], k, t0);
    }
  }

  /** A timely client keeps its lease, dated by its latest refresh, whatever the other clients do. */
  lemma {:induction false} TimelyKeepsLease(t: Table, es: seq<Event>, k: Key)
    requires TableInv(t) && Admissible(es)
    requires k in Leases(t) && Leases(t)[k] + LIFETIME < 0x1_0000_0000
    requires Timely(es, k, Leases(t)[k])
    ensures k in Leases(Exec(t, es)) && Leases(Exec(t, es))[k] == LastRefresh(es, k, Leases(t)[k])
  {
    if es != [] {
      var n, t0 := |es| - 1, Leases(t)[k];
      TimelyPrefix(es, n, k, t0);
      TimelyKeepsLease(t, es[..n], k);
      InvariantOverRuns(t, es[..n]);
      LastRefreshBounded(es[..n], k, t0);
      assert es[n].Tick? ==> OnTime(es, n, k, t0);
      LeaseKept(Exec(t, es[..n]), es[n], k);
    }
  }

  /** One event keeps a lease that is not overdue. */
  lemma LeaseKept(t: Table, e: Event, k: Key)
    requires TableInv(t) && k in Leases(t) && Leases(t)[k] + LIFETIME < 0x1_0000_0000
    requires e.Refresh? ==> e.key.0 != NULL_MAC
    requires e.Tick? ==> e.now - Leases(t)[k] <= LIFETIME
    ensures k in Leases(ApplyEvent(t, e))
    ensures Leases(ApplyEvent(t, e))[k] == if e.Refresh? && e.key == k then e.now else Leases(t)[k]
  {
    match e {
      case Refresh(q, now) => StartSetsLease(t, q, now);
      case Tick(now) => PruneDropsStale(t, now);
    }
  }

  lemma {:induction false} FirstLateTick(es: seq<Event>, k: Key, t0: dword) returns (i: nat)
    requires !Timely(es, k, t0)
    ensures i < |es| && es[i].Tick? && !OnTime(es, i, k, t0) && Timely(es[..i], k, t0)
  {
    i :| 0 <= i < |es| && es[i].Tick? && !OnTime(es, i, k, t0);
    TimelyPrefix(es, i, k, t0);
    if !Timely(es[..i], k, t0) {
      var j := FirstLateTick(es[..i], k, t0);
      assert es[..i][..j] == es[..j];
      i := j;
    }
  }

  lemma LateTickPrunes(t: Table, es: seq<Event>, k: Key, i: nat)
    requires TableInv(t) && Admissible(es) && i < |es|
    requires k in Leases(t) && Leases(t)[k] + LIFETIME < 0x1_0000_0000
    requires Timely(es[..i], k, Leases(t)[k]) && es[i].Tick? && !OnTime(es, i, k, Leases(t)[k])
    ensures k !in Leases(Exec(t, es[..i + 1]))
  {
    TimelyKeepsLease(t, es[..i], k);
    InvariantOverRuns(t, es[..i]);
    LastRefreshBounded(es[..i], k, Leases(t)[k]);
    OverdueIsPruned(Exec(t, es[..i]), k, es[i].now);
    assert es[..i + 1][..i] == es[..i];
  }

  lemma OverdueIsPruned(t: Table, k: Key, now: dword)
    requires TableInv(t) && k in Leases(t) && Leases(t)[k] + LIFETIME < 0x1_0000_0000 && now - Leases(t)[k] > LIFETIME
    ensures k !in Leases(PruneTable(t, now))
  {
    PruneDropsStale(t, now);
  }

  /** The client has its lease at every moment of the run. */
  predicate LeasedThroughout(t: Table, es: seq<Event>, k: Key) {
    forall n :: 0 <= n <= |es| ==> k in Leases(Exec(t, es[..n]))
  }

  lemma LeasedAt(t: Table, es: seq<Event>, k: Key, n: nat)
    requires TableInv(t) && RealSenders(es) && LeasedThroughout(t, es, k) && n <= |es|
    ensures InTable(Exec(t, es[..n]), k)
  {
    InvariantOverRuns(t, es[..n]);
    LeaseOf(Exec(t, es[..n]), k);
  }

  /** A session survives every moment of a run exactly when its refreshes are timely. */
  lemma SurvivesIffTimely(t: Table, es: seq<Event>, k: Key)
    requires TableInv(t) && Admissible(es)
    requires k in Leases(t) && Leases(t)[k] + LIFETIME < 0x1_0000_0000
    ensures LeasedThroughout(t, es, k) <==> Timely(es, k, Leases(t)[k])
  {
    var t0 := Leases(t)[k];
    if Timely(es, k, t0) {
      forall n | 0 <= n <= |es| ensures k in Leases(Exec(t, es[..n])) {
        TimelyPrefix(es, n, k, t0);
        TimelyKeepsLease(t, es[..n], k);
      }
    } else {
      var i := FirstLateTick(es, k, t0);
      LateTickPrunes(t, es, k, i);
    }
  }

  // ----- the client's refresh timer -----

  const POLL_US := 1_000_000
  const SESSION_START_INTERVAL_US := 2_000_000

  /** The comparison of `process_timers`, in microseconds. */
  predicate TimerFires(last: nat, now: nat) {
    now - last > SESSION_START_INTERVAL_US
  }

  /** When start requests leave the client, if it polls at these times and last sent at `last`. */
  function SendTimes(last: nat, polls: seq<nat>): seq<nat>
    decreases polls
  {
    if polls == [] then [last]
    else if TimerFires(last, polls[0]) then [last] + SendTimes(polls[0], polls[1..])
    else SendTimes(last, polls[1..])
  }

  /** Polls come in order and at most a poll timeout apart, the first within one of `from`. */
  predicate PollsFrom(from: nat, polls: seq<nat>) {
    && (polls != [] ==> from <= polls[0] <= from + POLL_US)
    && forall i :: 0 <= i < |polls| - 1 ==> polls[i] <= polls[i + 1] <= polls[i] + POLL_US
  }

  lemma {:induction false} SendsAtMostThreeSecondsApart(last: nat, from: nat, polls: seq<nat>)
    requires PollsFrom(from, polls)
    requires last <= from <= last + SESSION_START_INTERVAL_US
    ensures var s := SendTimes(last, polls);
            && |s| > 0 && s[0] == last && CloseTogether(s)
            && (var end := if polls == [] then from else polls[|polls| - 1];
                s[|s| - 1] <= end <= s[|s| - 1] + SESSION_START_INTERVAL_US)
    decreases polls
  {
    if polls != [] {
      var p := polls[0];
      assert PollsFrom(p, polls[1..]);
      if TimerFires(last, p) {
        SendsAtMostThreeSecondsApart(p, p, polls[1..]);
        Prepend(last, SendTimes(p, polls[1..]));
      } else {
        SendsAtMostThreeSecondsApart(last, p, polls[1..]);
      }
    }
  }

  predicate CloseTogether(s: seq<nat>) {
    forall i :: 0 <= i < |s| - 1 ==> s[i] <= s[i + 1] <= s[i] + 3_000_000
  }

  lemma Prepend(first: nat, t: seq<nat>)
    requires CloseTogether(t) && t != [] && first <= t[0] <= first + 3_000_000
    ensures CloseTogether([first] + t)
  {
    var s := [first] + t;
    forall i | 0 <= i < |s| - 1 ensures s[i] <= s[i + 1] <= s[i] + 3_000_000 {
      assert s[i + 1] == t[i] && (i > 0 ==> s[i] == t[i - 1]);
    }
  }

  /** BIOS ticks, 18.2065 to the second. */
  function BiosTicks(us: nat): nat {
    us * 182065 / 10_000_000_000
  }

  lemma NineSecondsFitTheLifetime(a: nat, b: nat)
    requires a <= b <= a + 9_000_000
    ensures BiosTicks(a) <= BiosTicks(b) <= BiosTicks(a) + 164
  {
  }

  /** Of any three consecutive requests at least one arrives, and the first one does. */
  predicate OneInThreeArrives(arrives: seq<bool>) {
    && (arrives != [] ==> arrives[0])
    && forall i :: 0 <= i < |arrives| - 2 ==> arrives[i] || arrives[i + 1] || arrives[i + 2]
  }

  /** At every moment up to the last poll, some request that arrived is at most nine seconds old. */
  lemma RecentArrival(s: seq<nat>, arrives: seq<bool>, x: nat) returns (j: nat)
    requires |s| == |arrives| > 0 && OneInThreeArrives(arrives)
    requires CloseTogether(s)
    requires s[0] <= x <= s[|s| - 1] + 3_000_000
    ensures j < |s| && arrives[j] && s[j] <= x <= s[j] + 9_000_000
  {
    var i := |s| - 1;
    while s[i] > x
      invariant 0 <= i < |s| && x <= s[i] + 3_000_000
      decreases i
    {
      i := i - 1;
    }
    j := i;
    if !arrives[i] {
      assert s[i - 1] <= s[i] <= s[i - 1] + 3_000_000;
      j := i - 1;
      if !arrives[i - 1] {
        assert s[i - 2] <= s[i - 1] <= s[i - 2] + 3_000_000;
        j := i - 2;
      }
    }
  }

  lemma {:induction false} LastRefreshIsLatest(es: seq<Event>, k: Key, t0: dword, i: nat)
    requires i < |es| && es[i].Refresh? && es[i].key == k
    requires forall a, b :: 0 <= a <= b < |es| ==> es[a].now <= es[b].now
    ensures LastRefresh(es, k, t0) >= es[i].now
  {
    if i < |es| - 1 {
      LastRefreshIsLatest(es[..|es| - 1], k, t0, i);
    }
  }

  /** The client's timer runs, of any three of its start requests one arrives, and every one that arrives
      is an event of the run; `at[i]` is the real time of event i, on a clock of BIOS ticks. */
  predicate RefreshedThroughLoss(t: Table, k: Key, polls: seq<nat>, last: nat, arrives: seq<bool>,
                                 es: seq<Event>, at: seq<nat>)
  {
    && Admissible(es)
    && k in Leases(t) && Leases(t)[k] == BiosTicks(last) && BiosTicks(last) + LIFETIME < 0x1_0000_0000
    && PollsFrom(last, polls) && |arrives| == |SendTimes(last, polls)| && OneInThreeArrives(arrives)
    && |at| == |es| && (forall a, b :: 0 <= a <= b < |at| ==> at[a] <= at[b])
    && (forall i :: 0 <= i < |es| ==>
         es[i].now == BiosTicks(at[i]) && last <= at[i] <= (if polls == [] then last else polls[|polls| - 1]))
    && forall i, j :: (0 <= i < |es| && es[i].Tick? && 0 < j < |arrives| && arrives[j]
                       && SendTimes(last, polls)[j] <= at[i]) ==>
         Arrived(es[..i], k, BiosTicks(SendTimes(last, polls)[j]))
  }

  /** With the client's timer, losing two of any three start requests never costs it its session. */
  lemma TwoLossesInThreeTolerated(t: Table, k: Key, polls: seq<nat>, last: nat, arrives: seq<bool>,
                                  es: seq<Event>, at: seq<nat>)
    requires TableInv(t) && RefreshedThroughLoss(t, k, polls, last, arrives, es, at)
    ensures LeasedThroughout(t, es, k)
  {
    var s, t0 := SendTimes(last, polls), Leases(t)[k];
    SendsAtMostThreeSecondsApart(last, last, polls);
    TicksInOrder(es, at);
    forall i | 0 <= i < |es| && es[i].Tick? ensures OnTime(es, i, k, t0) {
      var j := RecentArrival(s, arrives, at[i]);
      NineSecondsFitTheLifetime(s[j], at[i]);
      if j > 0 {
        assert Arrived(es[..i], k, BiosTicks(s[j]));
        var a :| 0 <= a < i && es[a] == Refresh(k, BiosTicks(s[j]));
        LastRefreshIsLatest(es[..i], k, t0, a);
      } else {
        NoRefreshBefore(es[..i], k, t0);
      }
    }
    SurvivesIffTimely(t, es, k);
  }

  predicate Arrived(es: seq<Event>, k: Key, now: nat) {
    exists i :: 0 <= i < |es| && es[i].Refresh? && es[i].key == k && es[i].now == now
  }

  lemma TicksInOrder(es: seq<Event>, at: seq<nat>)
    requires |at| == |es| && forall a, b :: 0 <= a <= b < |at| ==> at[a] <= at[b]
    requires forall i :: 0 <= i < |es| ==> es[i].now == BiosTicks(at[i])
    ensures forall a, b :: 0 <= a <= b < |es| ==> es[a].now <= es[b].now
  {
    forall a, b | 0 <= a <= b < |es| ensures es[a].now <= es[b].now {
      assert at[a] <= at[b];
    }
  }

  lemma {:induction false} NoRefreshBefore(es: seq<Event>, k: Key, t0: dword)
    requires forall i :: 0 <= i < |es| ==> es[i].now >= t0
    ensures LastRefresh(es, k, t0) >= t0
  {
    if es != [] {
      NoRefreshBefore(es[..|es| - 1], k, t0);
    }
  }
}
