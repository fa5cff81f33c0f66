/** Every interleaving of the packet driver's interrupts with the consumer of src/server/protocol.c:
    who owns each buffer, and what becomes of each packet. */
module PoolRuns {
  import opened Wire
  import opened Lists
  import opened PoolModel

  datatype Packet = Packet(bytes: nat, data: seq<byte>)

  /** Where the consumer stands in its loop. A held packet carries the number of its marking. */
  datatype Consumer<T> =
    | Idle
    | Holding(b: T, mark: nat)
    | Dispatched(b: T)
    | Cleared(b: T)

  /** What the driver did with one buffer: the size it asked for, and what it copied, in order. */
  datatype Work = Work(size: nat, copies: seq<seq<byte>>)

  datatype System<T(==)> = System(
    pool: Pool<T>,
    consumer: Consumer<T>,
    work: map<T, Work>,      // for each buffer the driver was given, its last use of it
    origins: seq<Work>,      // for each packet handed over, how the driver made it
    marks: seq<Packet>,      // every packet the driver has handed over, as it then lay in its buffer
    queue: seq<nat>,         // for each buffer of the ready list, the number of its marking
    log: seq<nat>,           // the markings dispatched so far, in order
    seen: seq<Packet>,       // what the handler was given each time
    released: nat,
    received: nat,           // first calls answered with a buffer
    dropped: nat)            // first calls refused

  datatype Event<T> =
    | FirstCall(n: nat)               // driver asks for a buffer of n bytes
    | Copy(b: T, d: seq<byte>)        // driver writes into a buffer it holds
    | SecondCall(b: T)                // driver hands the buffer over
    | GetReady
    | Dispatch
    | ClearData
    | LinkFree

  predicate Enabled<T>(s: System<T>, e: Event<T>) {
    match e
    case FirstCall(n) => s.pool.free != [] ==> s.pool.free[0] in s.pool.node
    case Copy(b, d) =>
      HasState(s.pool, b, Pending) && b in s.work && |d| <= s.pool.node[b].bytes <= |s.pool.node[b].data|
    case SecondCall(b) => HasState(s.pool, b, Pending) && b in s.work
    case GetReady =>
      && s.consumer.Idle? && |s.queue| == |s.pool.ready|
      && (s.pool.ready != [] ==> s.pool.ready[0] in s.pool.node)
    case Dispatch => s.consumer.Holding? && HasState(s.pool, s.consumer.b, User)
    case ClearData => s.consumer.Dispatched? && HasState(s.pool, s.consumer.b, User)
    case LinkFree => s.consumer.Cleared? && HasState(s.pool, s.consumer.b, User)
  }

  function PacketIn<T>(p: Pool<T>, b: T): Packet
    requires b in p.node
  {
    Packet(p.node[b].bytes, p.node[b].data)
  }

  function Step<T>(s: System<T>, e: Event<T>): System<T>
    requires Enabled(s, e)
  {
    match e
    case FirstCall(n) =>
      if CanAcquire(s.pool, n)
      then s.(pool := Acquire(s.pool, n), received := s.received + 1, work := s.work[s.pool.free[0] := Work(n, [])])
      else s.(dropped := s.dropped + 1)
    case Copy(b, d) =>
      s.(pool := DriverWrite(s.pool, b, d), work := s.work[b := s.work[b].(copies := s.work[b].copies + [d])])
    case SecondCall(b) =>
      s.(pool := MarkReady(s.pool, b), origins := s.origins + [s.work[b]],
         marks := s.marks + [PacketIn(s.pool, b)], queue := [|s.marks|] + s.queue)
    case GetReady =>
      if s.pool.ready == [] then s
      else s.(pool := Take(s.pool), consumer := Holding(s.pool.ready[0], s.queue[0]), queue := s.queue[1..])
    case Dispatch =>
      s.(consumer := Dispatched(s.consumer.b), log := s.log + [s.consumer.mark],
         seen := s.seen + [PacketIn(s.pool, s.consumer.b)])
    case ClearData => s.(pool := Clear(s.pool, s.consumer.b), consumer := Cleared(s.consumer.b))
    case LinkFree => s.(pool := Link(s.pool, s.consumer.b), consumer := Idle, released := s.released + 1)
  }

  predicate Init<T>(s: System<T>) {
    && Inv(s.pool) && s.pool.ready == [] && InState(s.pool, Pending) == {} && InState(s.pool, User) == {}
    && s.consumer.Idle? && s.origins == [] && s.marks == [] && s.queue == [] && s.log == [] && s.seen == []
    && s.released == s.received == s.dropped == 0
  }

  predicate RunFrom<T>(s: System<T>, es: seq<Event<T>>)
    decreases |es|, 0
  {
    es == [] || (RunFrom(s, es[..|es| - 1]) && Enabled(Exec(s, es[..|es| - 1]), es[|es| - 1]))
  }

  function Exec<T>(s: System<T>, es: seq<Event<T>>): System<T>
    requires RunFrom(s, es)
    decreases |es|, 1
  {
    if es == [] then s else Step(Exec(s, es[..|es| - 1]), es[|es| - 1])
  }

  /** First calls that ask for at most 1504 bytes while a buffer is free. */
  function Granted<T>(s: System<T>, es: seq<Event<T>>): nat
    requires RunFrom(s, es)
  {
    if es == [] then 0
    else
      var before, e := es[..|es| - 1], es[|es| - 1];
      Granted(s, before) + if e.FirstCall? && Exec(s, before).pool.free != [] && e.n <= 1504 then 1 else 0
  }

  /** All others. */
  function Refused<T>(s: System<T>, es: seq<Event<T>>): nat
    requires RunFrom(s, es)
  {
    if es == [] then 0
    else
      var before, e := es[..|es| - 1], es[|es| - 1];
      Refused(s, before) + if e.FirstCall? && (Exec(s, before).pool.free == [] || e.n > 1504) then 1 else 0
  }

  /** In every run the driver is given a buffer exactly at the calls that can be met, and both kinds are counted. */
  lemma {:induction false} CallsAreCounted<T>(s: System<T>, es: seq<Event<T>>)
    requires RunFrom(s, es)
    ensures Exec(s, es).received == s.received + Granted(s, es)
    ensures Exec(s, es).dropped == s.dropped + Refused(s, es)
  {
    if es != [] {
      CallsAreCounted(s, es[..|es| - 1]);
    }
  }

  // ----- the invariant -----

  function UpTo(n: nat): multiset<nat> {
    if n == 0 then multiset{} else UpTo(n - 1) + multiset{n - 1}
  }

  function Held<T>(c: Consumer<T>): multiset<nat> {
    if c.Holding? then multiset{c.mark} else multiset{}
  }

  predicate ConsumerOwns<T>(s: System<T>) {
    match s.consumer
    case Idle => InState(s.pool, User) == {}
    case Holding(b, _) => InState(s.pool, User) == {b}
    case Dispatched(b) => InState(s.pool, User) == {b}
    case Cleared(b) => InState(s.pool, User) == {b} && b in s.pool.node && s.pool.node[b].data == Zeros(BUFFER_MAX_SIZE)
  }

  /** The packet of marking m sits in buffer b, byte for byte as the driver left it. */
  predicate Carries<T>(s: System<T>, b: T, m: nat) {
    m < |s.marks| && b in s.pool.node && s.marks[m] == PacketIn(s.pool, b)
  }

  predicate Delivery<T>(s: System<T>) {
    && |s.queue| == |s.pool.ready| && |s.seen| == |s.log|
    && (forall i :: 0 <= i < |s.queue| ==> Carries(s, s.pool.ready[i], s.queue[i]))
    && (s.consumer.Holding? ==> Carries(s, s.consumer.b, s.consumer.mark))
    && (forall i :: 0 <= i < |s.log| ==> s.log[i] < |s.marks| && s.seen[i] == s.marks[s.log[i]])
  }

  predicate Accounting<T>(s: System<T>) {
    && multiset(s.log) + multiset(s.queue) + Held(s.consumer) == UpTo(|s.marks|)
    && s.released + (if s.consumer.Dispatched? || s.consumer.Cleared? then 1 else 0) == |s.log|
    && s.received == |s.marks| + |InState(s.pool, Pending)|
  }

  /** What a zeroed buffer holds after these copies, each to its front. */
  function Written(copies: seq<seq<byte>>): seq<byte> {
    if copies == [] then Zeros(BUFFER_MAX_SIZE)
    else
      var before, d := Written(copies[..|copies| - 1]), copies[|copies| - 1];
      if |d| <= |before| then d + before[|d|..] else d
  }

  /** The packet that the driver's calls and copies amount to. */
  function Made(w: Work): Packet {
    Packet(w.size, Written(w.copies))
  }

  /** Nobody but the driver has a hand in a packet before it is handed over. */
  predicate Provenance<T>(s: System<T>) {
    && |s.origins| == |s.marks| && (forall i :: 0 <= i < |s.marks| ==> s.marks[i] == Made(s.origins[i]))
    && forall b :: b in s.pool.node && s.pool.node[b].state == Pending ==> IsWork(s, b)
  }

  predicate IsWork<T>(s: System<T>, b: T) {
    b in s.pool.node && b in s.work && PacketIn(s.pool, b) == Made(s.work[b])
  }

  predicate SystemInv<T>(s: System<T>) {
    Inv(s.pool) && ConsumerOwns(s) && Delivery(s) && Accounting(s) && Provenance(s)
  }

  /** An event changes the state of at most one buffer. */
  lemma UserAfter<T>(s: System<T>, e: Event<T>)
    requires Inv(s.pool) && ConsumerOwns(s) && Enabled(s, e)
    ensures InState(Step(s, e).pool, User) ==
            if e.GetReady? && s.pool.ready != [] then {s.pool.ready[0]}
            else if e.LinkFree? then {} else InState(s.pool, User)
  {
    var u, u' := InState(s.pool, User), InState(Step(s, e).pool, User);
    if e.GetReady? && s.pool.ready != [] {
      assert s.consumer == Idle;
      assert u == {};
      assert forall b :: b in s.pool.node && s.pool.node[b].state == User ==> b in u;
      assert HasState(s.pool, s.pool.ready[0], Ready);
      assert u' == {s.pool.ready[0]};
    } else if e.LinkFree? {
      assert s.consumer.b in u;
      assert forall c :: c in u' <==> c in u && c != s.consumer.b;
    } else {
      assert e.FirstCall? && s.pool.free != [] ==> HasState(s.pool, s.pool.free[0], Free);
      assert u' == u;
    }
  }

  lemma StepKeepsPool<T>(s: System<T>, e: Event<T>)
    requires Inv(s.pool) && ConsumerOwns(s) && Enabled(s, e)
    ensures Inv(Step(s, e).pool) && ConsumerOwns(Step(s, e))
  {
    UserAfter(s, e);
    match e
    case FirstCall(n) =>
      AcquireKeepsInv(s.pool, n);
      assert s.pool.free != [] ==> HasState(s.pool, s.pool.free[0], Free);
    case Copy(b, d) => DriverWriteKeepsInv(s.pool, b, d);
    case SecondCall(b) => MarkReadyKeepsInv(s.pool, b);
    case GetReady => TakeKeepsInv(s.pool);
    case Dispatch =>
    case ClearData => ClearKeepsInv(s.pool, s.consumer.b);
    case LinkFree => LinkKeepsInv(s.pool, s.consumer.b);
  }

  /** Nothing the event touches holds a packet that is still to be dispatched. */
  predicate Untouched<T>(s: System<T>, s': System<T>, b: T) {
    b in s.pool.node && b in s'.pool.node && PacketIn(s.pool, b) == PacketIn(s'.pool, b) && s.marks <= s'.marks
  }

  lemma PacketsUntouched<T>(s: System<T>, e: Event<T>, b: T)
    requires Inv(s.pool) && Enabled(s, e)
    requires || HasState(s.pool, b, Ready)
             || (HasState(s.pool, b, User) && s.consumer.Holding?)
             || (e.SecondCall? && b == e.b)
    ensures Untouched(s, Step(s, e), b)
  {
    assert s.pool.free != [] ==> HasState(s.pool, s.pool.free[0], Free);
  }

  lemma StepKeepsDelivery<T>(s: System<T>, e: Event<T>)
    requires Inv(s.pool) && ConsumerOwns(s) && Delivery(s) && Enabled(s, e)
    ensures Delivery(Step(s, e))
  {
    var s' := Step(s, e);
    forall i | 0 <= i < |s'.queue| ensures Carries(s', s'.pool.ready[i], s'.queue[i]) {
      var k := if e.SecondCall? then i - 1 else if e.GetReady? && s.pool.ready != [] then i + 1 else i;
      assert k >= 0 ==> s'.pool.ready[i] == s.pool.ready[k] && s'.queue[i] == s.queue[k];
      assert k >= 0 ==> HasState(s.pool, s.pool.ready[k], Ready);
      PacketsUntouched(s, e, s'.pool.ready[i]);
      assert k >= 0 ==> Carries(s, s.pool.ready[k], s.queue[k]);
    }
    if s'.consumer.Holding? {
      assert s.consumer.Holding? ==> s.consumer.b in InState(s.pool, User);
      assert !s.consumer.Holding? ==> HasState(s.pool, s.pool.ready[0], Ready);
      PacketsUntouched(s, e, s'.consumer.b);
      assert !s.consumer.Holding? ==> Carries(s, s.pool.ready[0], s.queue[0]);
    }
  }

  lemma StepKeepsAccounting<T>(s: System<T>, e: Event<T>)
    requires Inv(s.pool) && Delivery(s) && Accounting(s) && Enabled(s, e)
    ensures Accounting(Step(s, e))
  {
    PendingAfter(s, e);
    match e
    case FirstCall(n) =>
    case Copy(b, d) =>
    case SecondCall(b) => MarkAccounted(s, b);
    case GetReady => TakeAccounted(s);
    case Dispatch => DispatchAccounted(s);
    case ClearData =>
    case LinkFree =>
  }

  lemma PendingAfter<T>(s: System<T>, e: Event<T>)
    requires Inv(s.pool) && Enabled(s, e)
    ensures |InState(Step(s, e).pool, Pending)| == |InState(s.pool, Pending)| +
            if e.FirstCall? && CanAcquire(s.pool, e.n) then 1 else if e.SecondCall? then -1 else 0
  {
    if e.FirstCall? {
      PendingAfterFirstCall(s, e.n);
    } else if e.SecondCall? {
      assert InState(Step(s, e).pool, Pending) == InState(s.pool, Pending) - {e.b};
    } else {
      PendingAfterOther(s, e);
    }
  }

  lemma PendingAfterOther<T>(s: System<T>, e: Event<T>)
    requires Inv(s.pool) && Enabled(s, e) && !e.FirstCall? && !e.SecondCall?
    ensures InState(Step(s, e).pool, Pending) == InState(s.pool, Pending)
  {
    assert e.GetReady? && s.pool.ready != [] ==> HasState(s.pool, s.pool.ready[0], Ready);
  }

  lemma PendingAfterFirstCall<T>(s: System<T>, n: nat)
    requires Inv(s.pool) && Enabled(s, FirstCall(n))
    ensures |InState(Step(s, FirstCall(n)).pool, Pending)| == |InState(s.pool, Pending)| +
            if CanAcquire(s.pool, n) then 1 else 0
  {
    if CanAcquire(s.pool, n) {
      assert HasState(s.pool, s.pool.free[0], Free);
      assert InState(Step(s, FirstCall(n)).pool, Pending) == InState(s.pool, Pending) + {s.pool.free[0]};
    }
  }

  lemma MarkAccounted<T>(s: System<T>, b: T)
    requires Accounting(s) && Enabled(s, SecondCall(b))
    requires |InState(Step(s, SecondCall(b)).pool, Pending)| == |InState(s.pool, Pending)| - 1
    ensures Accounting(Step(s, SecondCall(b)))
  {
    var n, s' := |s.marks|, Step(s, SecondCall(b));
    assert multiset(s'.queue) == multiset{n} + multiset(s.queue);
    assert UpTo(|s'.marks|) == UpTo(n) + multiset{n};
  }

  lemma TakeAccounted<T>(s: System<T>)
    requires Accounting(s) && Enabled(s, GetReady)
    requires |InState(Step(s, GetReady).pool, Pending)| == |InState(s.pool, Pending)|
    ensures Accounting(Step(s, GetReady))
  {
    if s.pool.ready != [] {
      assert s.queue == [s.queue[0]] + s.queue[1..];
    }
  }

  lemma DispatchAccounted<T>(s: System<T>)
    requires Accounting(s) && Enabled(s, Dispatch)
    ensures Accounting(Step(s, Dispatch))
  {
    assert multiset(s.log + [s.consumer.mark]) == multiset(s.log) + multiset{s.consumer.mark};
  }

  lemma StepKeepsProvenance<T>(s: System<T>, e: Event<T>)
    requires Inv(s.pool) && Provenance(s) && Enabled(s, e)
    ensures Provenance(Step(s, e))
  {
    var s' := Step(s, e);
    if e.FirstCall? {
      AcquireKeepsInv(s.pool, e.n);
    }
    if e.Copy? {
      CopyIsWork(s, e.b, e.d);
    }
    forall b | b in s'.pool.node && s'.pool.node[b].state == Pending ensures IsWork(s', b) {
      assert s.pool.node[b].state == Pending ==> IsWork(s, b);
      assert e.GetReady? && s.pool.ready != [] ==> HasState(s.pool, s.pool.ready[0], Ready);
    }
  }

  lemma CopyIsWork<T>(s: System<T>, b: T, d: seq<byte>)
    requires Provenance(s) && Enabled(s, Copy(b, d))
    ensures IsWork(Step(s, Copy(b, d)), b)
  {
    assert IsWork(s, b);
    OneMoreCopy(s.work[b], d);
  }

  lemma OneMoreCopy(w: Work, d: seq<byte>)
    requires |d| <= |Written(w.copies)|
    ensures Made(w.(copies := w.copies + [d])) == Packet(w.size, d + Written(w.copies)[|d|..])
  {
    var cs := w.copies;
    assert (cs + [d])[..|cs|] == cs;
  }

  lemma StepKeepsInv<T>(s: System<T>, e: Event<T>)
    requires SystemInv(s) && Enabled(s, e)
    ensures SystemInv(Step(s, e))
  {
    StepKeepsPool(s, e);
    StepKeepsDelivery(s, e);
    StepKeepsAccounting(s, e);
    StepKeepsProvenance(s, e);
  }

  lemma {:induction false} InvariantOverRuns<T>(s: System<T>, es: seq<Event<T>>)
    requires Init(s) && RunFrom(s, es)
    ensures SystemInv(Exec(s, es))
  {
    if es != [] {
      var before, e := es[..|es| - 1], es[|es| - 1];
      InvariantOverRuns(s, before);
      StepKeepsInv(Exec(s, before), e);
    } else {
      InitInv(s);
    }
  }

  lemma InitInv<T>(s: System<T>)
    requires Init(s)
    ensures SystemInv(s)
  {
    assert multiset(s.log) + multiset(s.queue) + Held(s.consumer) == multiset{};
    forall b | b in s.pool.node ensures s.pool.node[b].state != Pending {
      assert b !in InState(s.pool, Pending);
    }
  }

  // ----- what it means -----

  lemma {:induction false} UpToCounts(n: nat, m: nat)
    ensures UpTo(n)[m] == if m < n then 1 else 0
  {
    if n > 0 {
      UpToCounts(n - 1, m);
    }
  }

  /** Under every interleaving each packet handed over is in exactly one place: dispatched once with
      the bytes the driver wrote, held by the consumer, or waiting; and each buffer is free, ready,
      pending or the consumer's, never two of them. */
  lemma ExactlyOnce<T>(s: System<T>, es: seq<Event<T>>, m: nat)
    requires Init(s) && RunFrom(s, es) && m < |Exec(s, es).marks|
    ensures var w := Exec(s, es);
            && |w.seen| == |w.log|
            && multiset(w.log)[m] + multiset(w.queue)[m] + Held(w.consumer)[m] == 1
            && |w.origins| == |w.marks|
            && (forall i :: 0 <= i < |w.log| && w.log[i] == m ==> w.seen[i] == Made(w.origins[m]))
            && (w.consumer.Idle? && w.pool.ready == [] ==> multiset(w.log)[m] == 1 && w.released == |w.marks|)
            && |w.pool.free| + |w.pool.ready| + |InState(w.pool, Pending)| + |InState(w.pool, User)| == |w.pool.node|
            && w.received == |w.marks| + |InState(w.pool, Pending)|
  {
    InvariantOverRuns(s, es);
    var w := Exec(s, es);
    CountsAddUp(w.pool);
    UpToCounts(|w.marks|, m);
    if w.consumer.Idle? && w.pool.ready == [] {
      assert multiset(w.log) == UpTo(|w.marks|);
      SizeOfUpTo(|w.marks|);
      assert |multiset(w.log)| == |w.log|;
    }
  }

  lemma {:induction false} SizeOfUpTo(n: nat)
    ensures |UpTo(n)| == n
  {
    if n > 0 {
      SizeOfUpTo(n - 1);
    }
  }

  /** The driver is only ever given zeroed buffers, whatever was in them before. */
  lemma BuffersHandedOutClean<T>(s: System<T>, es: seq<Event<T>>, n: nat)
    requires Init(s) && RunFrom(s, es) && CanAcquire(Exec(s, es).pool, n)
    ensures Enabled(Exec(s, es), FirstCall(n))
    ensures var w := Exec(s, es);
            var b := w.pool.free[0];
            var w' := Step(w, FirstCall(n));
            HasState(w'.pool, b, Pending) && w'.pool.node[b].data == Zeros(BUFFER_MAX_SIZE)
  {
    InvariantOverRuns(s, es);
    AcquireKeepsInv(Exec(s, es).pool, n);
    assert HasState(Exec(s, es).pool, Exec(s, es).pool.free[0], Free);
  }

  /** A runt packet that reaches the handler is never mistaken for one of ours, whatever its buffer
      held before. */
  lemma RuntsNeverPass<T>(s: System<T>, es: seq<Event<T>>, i: nat)
    requires Init(s) && RunFrom(s, es) && i < |Exec(s, es).seen| && Exec(s, es).seen[i].bytes < 18
    ensures |Exec(s, es).seen[i].data| == BUFFER_MAX_SIZE
    ensures Signature(Exec(s, es).seen[i].data) != PACKET_SIGNATURE
  {
    InvariantOverRuns(s, es);
    MarkedPacketsClean(s, es);
    var p := Exec(s, es).seen[i];
    assert p == Exec(s, es).marks[Exec(s, es).log[i]];
    ShortPacketsRejected(p.data, p.bytes);
  }

  lemma {:induction false} MarkedPacketsClean<T>(s: System<T>, es: seq<Event<T>>)
    requires Init(s) && RunFrom(s, es)
    ensures forall i :: 0 <= i < |Exec(s, es).marks| ==>
      |Exec(s, es).marks[i].data| == BUFFER_MAX_SIZE && ZeroFrom(Exec(s, es).marks[i].data, Exec(s, es).marks[i].bytes)
  {
    if es != [] {
      var before, e := es[..|es| - 1], es[|es| - 1];
      MarkedPacketsClean(s, before);
      InvariantOverRuns(s, before);
      var w := Exec(s, before);
      if e.SecondCall? {
        assert CleanNode(w.pool.node[e.b]);
      }
    }
  }

  // ----- from the driver's copy to the handler -----

  lemma {:induction false} PrefixRuns<T>(s: System<T>, es: seq<Event<T>>, n: nat)
    requires RunFrom(s, es) && n <= |es|
    ensures RunFrom(s, es[..n]) && Exec(s, es[..n]).marks <= Exec(s, es).marks
  {
    if n < |es| {
      PrefixRuns(s, es[..|es| - 1], n);
      assert es[..|es| - 1][..n] == es[..n];
    } else {
      assert es[..n] == es;
    }
  }

  predicate Concerns<T(==)>(e: Event<T>, b: T) {
    (e.Copy? && e.b == b) || (e.SecondCall? && e.b == b)
  }

  /** The driver has this buffer, and this is what it has done with it. */
  predicate AtWork<T>(s: System<T>, b: T, w: Work) {
    HasState(s.pool, b, Pending) && b in s.work && s.work[b] == w
  }

  lemma StepLeavesWork<T>(s: System<T>, e: Event<T>, b: T, w: Work)
    requires Inv(s.pool) && Enabled(s, e) && AtWork(s, b, w) && !Concerns(e, b)
    ensures AtWork(Step(s, e), b, w)
  {
    assert e.FirstCall? && s.pool.free != [] ==> HasState(s.pool, s.pool.free[0], Free);
    assert e.GetReady? && s.pool.ready != [] ==> HasState(s.pool, s.pool.ready[0], Ready);
  }

  lemma {:induction false} WorkStays<T>(s: System<T>, es: seq<Event<T>>, i: nat, j: nat, b: T, w: Work)
    requires Init(s) && RunFrom(s, es) && i <= j <= |es| && RunFrom(s, es[..i]) && AtWork(Exec(s, es[..i]), b, w)
    requires forall l :: i <= l < j ==> !Concerns(es[l], b)
    ensures RunFrom(s, es[..j]) && AtWork(Exec(s, es[..j]), b, w)
    decreases j
  {
    if i < j {
      WorkStays(s, es, i, j - 1, b, w);
      StepAt(s, es, j - 1);
      InvariantOverRuns(s, es[..j - 1]);
      StepLeavesWork(Exec(s, es[..j - 1]), es[j - 1], b, w);
    }
  }

  lemma StepAt<T>(s: System<T>, es: seq<Event<T>>, i: nat)
    requires RunFrom(s, es) && i < |es|
    ensures RunFrom(s, es[..i]) && RunFrom(s, es[..i + 1])
    ensures Enabled(Exec(s, es[..i]), es[i]) && Exec(s, es[..i + 1]) == Step(Exec(s, es[..i]), es[i])
  {
    PrefixRuns(s, es, i + 1);
    assert es[..i + 1][..i] == es[..i];
  }

  lemma WrittenOnce(d: seq<byte>)
    requires |d| <= BUFFER_MAX_SIZE
    ensures Written([d]) == d + Zeros(BUFFER_MAX_SIZE - |d|)
  {
    var cs := [d];
    assert cs[..0] == [];
    assert Zeros(BUFFER_MAX_SIZE)[|d|..] == Zeros(BUFFER_MAX_SIZE - |d|);
  }

  /** A first call that got buffer b, one copy into it and its second call, with anything else in
      between: the packet so handed over has the size asked for, the bytes copied, and zeros behind
      them, and whenever it is dispatched the handler is given just that. */
  lemma CopiedPacketArrives<T>(s: System<T>, es: seq<Event<T>>, i: nat, j: nat, k: nat, b: T, n: nat, d: seq<byte>)
    requires Init(s) && RunFrom(s, es) && i < j < k < |es| && RunFrom(s, es[..i])
    requires es[i] == FirstCall(n) && CanAcquire(Exec(s, es[..i]).pool, n) && Exec(s, es[..i]).pool.free[0] == b
    requires es[j] == Copy(b, d) && es[k] == SecondCall(b)
    requires forall l :: i < l < k && l != j ==> !Concerns(es[l], b)
    ensures RunFrom(s, es[..k]) && |d| <= n <= BUFFER_MAX_SIZE
    ensures |Exec(s, es[..k]).marks| < |Exec(s, es).marks| && |Exec(s, es).seen| == |Exec(s, es).log|
    ensures var w, m, p := Exec(s, es), |Exec(s, es[..k]).marks|, Packet(n, d + Zeros(BUFFER_MAX_SIZE - |d|));
            w.marks[m] == p && forall l :: 0 <= l < |w.log| && w.log[l] == m ==> w.seen[l] == p
  {
    CopiedOnce(s, es, i, j, b, n, d);
    WorkStays(s, es, j + 1, k, b, Work(n, [d]));
    HandedOver(s, es, k, b, Work(n, [d]));
    WrittenOnce(d);
  }

  lemma CopiedOnce<T>(s: System<T>, es: seq<Event<T>>, i: nat, j: nat, b: T, n: nat, d: seq<byte>)
    requires Init(s) && RunFrom(s, es) && i < j < |es| && RunFrom(s, es[..i])
    requires es[i] == FirstCall(n) && CanAcquire(Exec(s, es[..i]).pool, n) && Exec(s, es[..i]).pool.free[0] == b
    requires es[j] == Copy(b, d) && forall l :: i < l < j ==> !Concerns(es[l], b)
    ensures RunFrom(s, es[..j + 1]) && AtWork(Exec(s, es[..j + 1]), b, Work(n, [d])) && |d| <= n <= BUFFER_MAX_SIZE
  {
    GivenIsWork(s, es, i, b, n);
    WorkStays(s, es, i + 1, j, b, Work(n, []));
    StepAt(s, es, j);
    CopiedIsWork(s, es, j, b, n, d);
  }

  lemma GivenIsWork<T>(s: System<T>, es: seq<Event<T>>, i: nat, b: T, n: nat)
    requires Init(s) && RunFrom(s, es) && i < |es| && RunFrom(s, es[..i])
    requires es[i] == FirstCall(n) && CanAcquire(Exec(s, es[..i]).pool, n) && Exec(s, es[..i]).pool.free[0] == b
    ensures RunFrom(s, es[..i + 1]) && AtWork(Exec(s, es[..i + 1]), b, Work(n, []))
  {
    StepAt(s, es, i);
  }

  lemma HandedOver<T>(s: System<T>, es: seq<Event<T>>, k: nat, b: T, o: Work)
    requires Init(s) && RunFrom(s, es) && k < |es| && RunFrom(s, es[..k])
    requires AtWork(Exec(s, es[..k]), b, o) && es[k] == SecondCall(b)
    ensures |Exec(s, es[..k]).marks| < |Exec(s, es).marks| && |Exec(s, es).seen| == |Exec(s, es).log|
    ensures var w, m := Exec(s, es), |Exec(s, es[..k]).marks|;
            w.marks[m] == Made(o) && forall l :: 0 <= l < |w.log| && w.log[l] == m ==> w.seen[l] == Made(o)
  {
    StepAt(s, es, k);
    InvariantOverRuns(s, es[..k]);
    assert IsWork(Exec(s, es[..k]), b);
    PrefixRuns(s, es, k + 1);
    SeenAsLogged(s, es);
  }

  lemma CopiedIsWork<T>(s: System<T>, es: seq<Event<T>>, j: nat, b: T, n: nat, d: seq<byte>)
    requires Init(s) && RunFrom(s, es) && j < |es| && RunFrom(s, es[..j]) && RunFrom(s, es[..j + 1])
    requires AtWork(Exec(s, es[..j]), b, Work(n, [])) && es[j] == Copy(b, d)
    ensures AtWork(Exec(s, es[..j + 1]), b, Work(n, [d])) && |d| <= n <= BUFFER_MAX_SIZE
  {
    StepAt(s, es, j);
    InvariantOverRuns(s, es[..j]);
    var w := Exec(s, es[..j]);
    assert IsWork(w, b) && CleanNode(w.pool.node[b]);
    assert [] + [d] == [d];
  }

  // ----- order of consumption -----

  /** n, n + 1, ..., m - 1 */
  function Numbers(n: nat, m: nat): seq<nat>
    requires n <= m
  {
    seq(m - n, i => n + i)
  }

  lemma StackOneMore(lo: nat, hi: nat, rest: seq<nat>)
    requires lo <= hi
    ensures Reverse(Numbers(lo, hi + 1)) + rest == [hi] + (Reverse(Numbers(lo, hi)) + rest)
  {
    assert Numbers(lo, hi + 1) == Numbers(lo, hi) + [hi];
    ReverseAppend(Numbers(lo, hi), hi);
  }

  /** With no take after event n, later arrivals wait in front of earlier ones. */
  lemma {:induction false} BurstStacksUp<T>(s: System<T>, es: seq<Event<T>>, n: nat)
    requires RunFrom(s, es) && n <= |es| && RunFrom(s, es[..n])
    requires forall i :: n <= i < |es| ==> es[i] != GetReady
    ensures |Exec(s, es[..n]).marks| <= |Exec(s, es).marks|
    ensures Exec(s, es).queue ==
            Reverse(Numbers(|Exec(s, es[..n]).marks|, |Exec(s, es).marks|)) + Exec(s, es[..n]).queue
    decreases |es|
  {
    var start := Exec(s, es[..n]);
    var lo := |start.marks|;
    if n == |es| {
      assert es[..n] == es;
      assert Numbers(lo, lo) == [];
    } else {
      var before, e := es[..|es| - 1], es[|es| - 1];
      assert before[..n] == es[..n];
      BurstStacksUp(s, before, n);
      var w := Exec(s, before);
      if e.SecondCall? {
        StackOneMore(lo, |w.marks|, start.queue);
      }
    }
  }

  predicate IsConsumerEvent<T>(e: Event<T>) {
    e.GetReady? || e.Dispatch? || e.ClearData? || e.LinkFree?
  }

  lemma Append<T>(s: System<T>, es: seq<Event<T>>, e: Event<T>)
    requires RunFrom(s, es) && Enabled(Exec(s, es), e)
    ensures RunFrom(s, es + [e]) && Exec(s, es + [e]) == Step(Exec(s, es), e)
  {
    assert (es + [e])[..|es + [e]| - 1] == es;
  }

  lemma ConsumerFacts<T>(s: System<T>, es: seq<Event<T>>)
    requires Init(s) && RunFrom(s, es)
    ensures var w := Exec(s, es);
            && |w.queue| == |w.pool.ready|
            && (w.pool.ready != [] ==> HasState(w.pool, w.pool.ready[0], Ready))
            && (!w.consumer.Idle? ==> HasState(w.pool, w.consumer.b, User))
  {
    InvariantOverRuns(s, es);
    var w := Exec(s, es);
    assert !w.consumer.Idle? ==> w.consumer.b in InState(w.pool, User);
  }

  /** The run goes on with events of the consumer only. */
  ghost predicate ConsumerGoesOn<T>(es: seq<Event<T>>, ds: seq<Event<T>>) {
    es <= ds && forall i :: |es| <= i < |ds| ==> IsConsumerEvent(ds[i])
  }

  /** One turn of the consumer's loop dispatches and releases the front of the ready list. */
  lemma Turn<T>(s: System<T>, es: seq<Event<T>>) returns (ds: seq<Event<T>>)
    requires Init(s) && RunFrom(s, es) && Exec(s, es).consumer.Idle? && Exec(s, es).queue != []
    ensures ConsumerGoesOn(es, ds) && RunFrom(s, ds) && Exec(s, ds).consumer.Idle?
    ensures Exec(s, ds).queue == Exec(s, es).queue[1..] && Exec(s, ds).log == Exec(s, es).log + [Exec(s, es).queue[0]]
    ensures Exec(s, ds).released == Exec(s, es).released + 1
  {
    ConsumerFacts(s, es);
    ds := GoOn(s, es, es, GetReady);
    ds := GoOn(s, es, ds, Dispatch);
    ds := GoOn(s, es, ds, ClearData);
    ds := GoOn(s, es, ds, LinkFree);
  }

  lemma GoOn<T>(s: System<T>, es: seq<Event<T>>, before: seq<Event<T>>, e: Event<T>) returns (ds: seq<Event<T>>)
    requires Init(s) && ConsumerGoesOn(es, before) && RunFrom(s, before)
    requires IsConsumerEvent(e) && Enabled(Exec(s, before), e)
    ensures ConsumerGoesOn(es, ds) && RunFrom(s, ds) && Exec(s, ds) == Step(Exec(s, before), e)
    ensures !Exec(s, ds).consumer.Idle? ==> HasState(Exec(s, ds).pool, Exec(s, ds).consumer.b, User)
  {
    Append(s, before, e);
    ds := before + [e];
    ConsumerFacts(s, ds);
  }

  /** Left to itself the consumer empties the ready list, front to back, and stops. */
  lemma {:induction false} Drain<T>(s: System<T>, es: seq<Event<T>>) returns (ds: seq<Event<T>>)
    requires Init(s) && RunFrom(s, es) && Exec(s, es).consumer.Idle?
    ensures ConsumerGoesOn(es, ds) && RunFrom(s, ds) && Exec(s, ds).consumer.Idle? && Exec(s, ds).queue == []
    ensures Exec(s, ds).log == Exec(s, es).log + Exec(s, es).queue
    ensures Exec(s, ds).released == Exec(s, es).released + |Exec(s, es).queue|
    decreases |Exec(s, es).queue|
  {
    var w := Exec(s, es);
    if w.queue == [] {
      ds := es;
    } else {
      var turn := Turn(s, es);
      ds := Drain(s, turn);
      assert w.log + ([w.queue[0]] + w.queue[1..]) == w.log + [w.queue[0]] + w.queue[1..];
      assert [w.queue[0]] + w.queue[1..] == w.queue;
    }
  }

  function HeldMark<T>(c: Consumer<T>): seq<nat> {
    if c.Holding? then [c.mark] else []
  }

  /** How many events the consumer needs to empty the ready list and come to rest. */
  function Remaining<T>(s: System<T>): nat {
    4 * |s.queue| +
    match s.consumer
    case Idle => 0
    case Holding(_, _) => 3
    case Dispatched(_) => 2
    case Cleared(_) => 1
  }

  /** However the consumer goes on while nothing arrives, it takes the waiting packets in their order,
      and once it has gone on for long enough it has taken and released them all. */
  lemma {:induction false} AlwaysDrains<T>(s: System<T>, es: seq<Event<T>>, ds: seq<Event<T>>)
    requires Init(s) && ConsumerGoesOn(es, ds) && RunFrom(s, ds)
    ensures RunFrom(s, es)
    ensures var w, x := Exec(s, es), Exec(s, ds);
            && x.log + HeldMark(x.consumer) + x.queue == w.log + HeldMark(w.consumer) + w.queue
            && Remaining(x) == (if Remaining(w) >= |ds| - |es| then Remaining(w) - (|ds| - |es|) else 0)
            && (Remaining(x) == 0 <==> x.queue == [] && x.consumer.Idle?)
    decreases |ds|
  {
    if |es| == |ds| {
      assert es == ds;
    } else {
      var before, e := ds[..|ds| - 1], ds[|ds| - 1];
      AlwaysDrains(s, es, before);
      ConsumerFacts(s, before);
      ConsumerStep(Exec(s, before), e);
    }
  }

  lemma ConsumerStep<T>(s: System<T>, e: Event<T>)
    requires Enabled(s, e) && IsConsumerEvent(e)
    ensures var s' := Step(s, e);
            && s'.log + HeldMark(s'.consumer) + s'.queue == s.log + HeldMark(s.consumer) + s.queue
            && Remaining(s') == if Remaining(s) > 0 then Remaining(s) - 1 else 0
  {
    if e.GetReady? && s.queue != [] {
      assert [s.queue[0]] + s.queue[1..] == s.queue;
    }
  }

  /** A burst that arrives while the consumer is idle is consumed in the reverse of its order of
      arrival, and then whatever waited before it, however the consumer goes on. */
  lemma BurstConsumedInReverse<T>(s: System<T>, es: seq<Event<T>>, n: nat, ds: seq<Event<T>>)
    requires Init(s) && RunFrom(s, es) && n <= |es| && RunFrom(s, es[..n]) && Exec(s, es[..n]).consumer.Idle?
    requires forall i :: n <= i < |es| ==> !IsConsumerEvent(es[i])
    requires ConsumerGoesOn(es, ds) && RunFrom(s, ds) && Exec(s, ds).queue == [] && Exec(s, ds).consumer.Idle?
    ensures |Exec(s, es[..n]).marks| <= |Exec(s, es).marks|
    ensures Exec(s, ds).log == Exec(s, es[..n]).log
            + (Reverse(Numbers(|Exec(s, es[..n]).marks|, |Exec(s, es).marks|)) + Exec(s, es[..n]).queue)
  {
    BurstStacksUp(s, es, n);
    DriverLeavesConsumer(s, es, n);
    AlwaysDrains(s, es, ds);
    var x, w := Exec(s, ds), Exec(s, es);
    assert x.log + [] + [] == x.log && w.log + [] == w.log;
  }

  lemma {:induction false} DriverLeavesConsumer<T>(s: System<T>, es: seq<Event<T>>, n: nat)
    requires RunFrom(s, es) && n <= |es| && RunFrom(s, es[..n])
    requires forall i :: n <= i < |es| ==> !IsConsumerEvent(es[i])
    ensures Exec(s, es).consumer == Exec(s, es[..n]).consumer && Exec(s, es).log == Exec(s, es[..n]).log
    decreases |es|
  {
    if n < |es| {
      assert es[..|es| - 1][..n] == es[..n];
      DriverLeavesConsumer(s, es[..|es| - 1], n);
    } else {
      assert es[..n] == es;
    }
  }

  lemma {:induction false} ConsumerLeavesDriver<T>(s: System<T>, es: seq<Event<T>>, ds: seq<Event<T>>)
    requires ConsumerGoesOn(es, ds) && RunFrom(s, ds)
    ensures RunFrom(s, es)
    ensures Exec(s, ds).marks == Exec(s, es).marks && |Exec(s, es).seen| <= |Exec(s, ds).seen|
    ensures Exec(s, es).seen <= Exec(s, ds).seen
    decreases |ds|
  {
    if |es| < |ds| {
      ConsumerLeavesDriver(s, es, ds[..|ds| - 1]);
    } else {
      assert es == ds;
    }
  }

  /** In terms of what the handler is given: with nothing waiting before, the packets of a burst come
      last one first. */
  lemma BurstSeenInReverse<T>(s: System<T>, es: seq<Event<T>>, n: nat, ds: seq<Event<T>>)
    requires Init(s) && RunFrom(s, es) && n <= |es| && RunFrom(s, es[..n])
    requires Exec(s, es[..n]).consumer.Idle? && Exec(s, es[..n]).queue == []
    requires forall i :: n <= i < |es| ==> !IsConsumerEvent(es[i])
    requires ConsumerGoesOn(es, ds) && RunFrom(s, ds) && Exec(s, ds).queue == [] && Exec(s, ds).consumer.Idle?
    ensures |Exec(s, es[..n]).marks| <= |Exec(s, es).marks|
    ensures Exec(s, ds).seen == Exec(s, es).seen + Reverse(Exec(s, es).marks[|Exec(s, es[..n]).marks|..])
  {
    BurstConsumedInReverse(s, es, n, ds);
    DriverLeavesConsumer(s, es, n);
    ConsumerLeavesDriver(s, es, ds);
    SeenAsLogged(s, es);
    SeenAsLogged(s, ds);
    var w, x := Exec(s, es), Exec(s, ds);
    assert x.log == w.log + Reverse(Numbers(|Exec(s, es[..n]).marks|, |w.marks|));
    PacketsOfNumbers(w.seen, x.seen, x.log, w.marks, |Exec(s, es[..n]).marks|);
  }

  lemma SeenAsLogged<T>(s: System<T>, es: seq<Event<T>>)
    requires Init(s) && RunFrom(s, es)
    ensures var w := Exec(s, es);
            && |w.seen| == |w.log|
            && forall i :: 0 <= i < |w.log| ==> w.log[i] < |w.marks| && w.seen[i] == w.marks[w.log[i]]
  {
    InvariantOverRuns(s, es);
  }

  lemma PacketsOfNumbers(before: seq<Packet>, seen: seq<Packet>, log: seq<nat>, marks: seq<Packet>, lo: nat)
    requires lo <= |marks| && before <= seen && |seen| == |log|
    requires log[|before|..] == Reverse(Numbers(lo, |marks|))
    requires forall i :: 0 <= i < |log| ==> log[i] < |marks| && seen[i] == marks[log[i]]
    ensures seen == before + Reverse(marks[lo..])
  {
    var numbers, burst, late := Numbers(lo, |marks|), marks[lo..], log[|before|..];
    forall i | 0 <= i < |burst| ensures seen[|before| + i] == Reverse(burst)[i] {
      ReverseAt(numbers, i);
      ReverseAt(burst, i);
      assert late[i] == log[|before| + i];
    }
  }

  // ----- when packets are consumed in order of arrival -----

  /** Some take found at least two packets waiting. */
  predicate FoundTwo<T>(s: System<T>, es: seq<Event<T>>)
    requires RunFrom(s, es)
    decreases |es|
  {
    es != [] && (FoundTwo(s, es[..|es| - 1]) || (es[|es| - 1].GetReady? && |Exec(s, es[..|es| - 1]).queue| >= 2))
  }

  predicate InOrder<T>(s: System<T>) {
    s.log == Numbers(0, |s.log|) && (s.consumer.Holding? ==> s.consumer.mark == |s.log|)
  }

  /** What arrived later waits in front. */
  predicate LatestFirst<T>(s: System<T>) {
    forall i :: 0 <= i < |s.queue| ==>
      s.queue[i] < |s.marks| && forall j :: i < j < |s.queue| ==> s.queue[j] < s.queue[i]
  }

  lemma {:induction false} QueueLatestFirst<T>(s: System<T>, es: seq<Event<T>>)
    requires Init(s) && RunFrom(s, es)
    ensures LatestFirst(Exec(s, es))
  {
    if es != [] {
      QueueLatestFirst(s, es[..|es| - 1]);
      StepLatestFirst(Exec(s, es[..|es| - 1]), es[|es| - 1]);
    }
  }

  lemma StepLatestFirst<T>(s: System<T>, e: Event<T>)
    requires LatestFirst(s) && Enabled(s, e)
    ensures LatestFirst(Step(s, e))
  {
  }

  /** With all before it dispatched in order, the front of the list is next exactly when it is alone. */
  lemma FrontIsNext(log: seq<nat>, queue: seq<nat>, n: nat)
    requires queue != [] && log == Numbers(0, |log|) && multiset(log) + multiset(queue) == UpTo(n)
    requires forall j :: 0 < j < |queue| ==> queue[j] < queue[0]
    ensures queue[0] == |log| <==> |queue| < 2
  {
    SizeOfUpTo(n);
    assert |multiset(log) + multiset(queue)| == |log| + |queue|;
    forall j | 0 <= j < |queue| ensures |log| <= queue[j] < n {
      UpToCounts(n, queue[j]);
      assert queue[j] in queue && multiset(log)[queue[j]] + multiset(queue)[queue[j]] <= 1;
      assert queue[j] !in log;
      InNumbers(log, queue[j]);
    }
  }

  lemma InNumbers(log: seq<nat>, m: nat)
    requires log == Numbers(0, |log|)
    ensures m in log <==> m < |log|
  {
    assert m < |log| ==> log[m] == m;
  }

  lemma StepInOrder<T>(s: System<T>, e: Event<T>)
    requires SystemInv(s) && LatestFirst(s) && Enabled(s, e)
    ensures InOrder(Step(s, e)) <==> InOrder(s) && !(e.GetReady? && |s.queue| >= 2)
  {
    if e.GetReady? && s.queue != [] {
      TakeInOrder(s);
    }
    if e.Dispatch? {
      OneMoreNumber(s.log, s.consumer.mark);
    }
  }

  lemma TakeInOrder<T>(s: System<T>)
    requires Accounting(s) && LatestFirst(s) && s.consumer.Idle? && s.queue != []
    ensures s.log == Numbers(0, |s.log|) ==> (s.queue[0] == |s.log| <==> |s.queue| < 2)
  {
    if s.log == Numbers(0, |s.log|) {
      assert multiset(s.log) + multiset(s.queue) == UpTo(|s.marks|);
      FrontIsNext(s.log, s.queue, |s.marks|);
    }
  }

  lemma OneMoreNumber(log: seq<nat>, m: nat)
    ensures log + [m] == Numbers(0, |log| + 1) <==> log == Numbers(0, |log|) && m == |log|
  {
    var after := log + [m];
    if after == Numbers(0, |log| + 1) {
      assert after[|log|] == |log|;
      assert forall i :: 0 <= i < |log| ==> log[i] == after[i];
    }
  }

  lemma {:induction false} InOrderIff<T>(s: System<T>, es: seq<Event<T>>)
    requires Init(s) && RunFrom(s, es)
    ensures InOrder(Exec(s, es)) <==> !FoundTwo(s, es)
  {
    if es != [] {
      var before, e := es[..|es| - 1], es[|es| - 1];
      InOrderIff(s, before);
      InvariantOverRuns(s, before);
      QueueLatestFirst(s, before);
      StepInOrder(Exec(s, before), e);
    }
  }

  /** In a run that ends with everything consumed, the packets were consumed in the order of their
      arrival exactly when no take ever found two of them waiting. */
  lemma ConsumedInOrderIff<T>(s: System<T>, es: seq<Event<T>>)
    requires Init(s) && RunFrom(s, es) && Exec(s, es).consumer.Idle? && Exec(s, es).queue == []
    ensures Exec(s, es).log == Numbers(0, |Exec(s, es).marks|) <==> !FoundTwo(s, es)
  {
    InvariantOverRuns(s, es);
    InOrderIff(s, es);
    var w := Exec(s, es);
    assert multiset(w.log) == UpTo(|w.marks|);
    SizeOfUpTo(|w.marks|);
    assert |multiset(w.log)| == |w.log|;
  }
}
