/** The receive-buffer pool of src/server/bufmgr.c as a value: who holds each buffer, and what every
    critical section does to that. T is whatever identifies a buffer. */
module PoolModel {
  import opened Wire
  import opened Lists

  const BUFFER_MAX_SIZE := 1504

  datatype BufferState = Free | Pending | Ready | User

  /** One buffer's `state`, `bytes` and `data`. */
  datatype Node = Node(state: BufferState, bytes: nat, data: seq<byte>)

  /** All buffers, and the two lists in the order of their `next` pointers. */
  datatype Pool<T(==)> = Pool(node: map<T, Node>, free: seq<T>, ready: seq<T>)

  /** Zero from `n` on. */
  predicate ZeroFrom(d: seq<byte>, n: nat) {
    forall i :: n <= i < |d| ==> d[i] == 0
  }

  predicate HasState<T>(p: Pool<T>, b: T, st: BufferState) {
    b in p.node && p.node[b].state == st
  }

  predicate Listed<T>(p: Pool<T>, list: seq<T>, st: BufferState) {
    NoDuplicates(list) && forall i :: 0 <= i < |list| ==> HasState(p, list[i], st)
  }

  /** A list holds each buffer of its state once, and no other. */
  predicate ListOf<T>(p: Pool<T>, list: seq<T>, st: BufferState) {
    Listed(p, list, st) && forall b :: b in p.node && p.node[b].state == st ==> b in list
  }

  /** Bytes beyond the packet are zero, and a free buffer holds no bytes: it is all zero. */
  predicate CleanNode(n: Node) {
    && |n.data| == BUFFER_MAX_SIZE && n.bytes <= BUFFER_MAX_SIZE
    && ZeroFrom(n.data, n.bytes)
    && (n.state == Free ==> n.bytes == 0)
  }

  predicate Clean<T>(p: Pool<T>) {
    forall b :: b in p.node ==> CleanNode(p.node[b])
  }

  /** The invariant of the pool. */
  predicate Inv<T>(p: Pool<T>) {
    ListOf(p, p.free, Free) && ListOf(p, p.ready, Ready) && Clean(p)
  }

  // ----- the critical sections -----

  predicate CanAcquire<T>(p: Pool<T>, n: nat) {
    p.free != [] && n <= BUFFER_MAX_SIZE
  }

  function Acquire<T>(p: Pool<T>, n: nat): Pool<T>
    requires p.free != [] ==> p.free[0] in p.node
  {
    if !CanAcquire(p, n) then p
    else
      var b := p.free[0];
      Pool(p.node[b := p.node[b].(state := Pending, bytes := n)], p.free[1..], p.ready)
  }

  /** The driver copies a packet of at most the requested size into the buffer it holds. */
  function DriverWrite<T>(p: Pool<T>, b: T, d: seq<byte>): Pool<T>
    requires HasState(p, b, Pending) && |d| <= |p.node[b].data|
  {
    p.(node := p.node[b := p.node[b].(data := d + p.node[b].data[|d|..])])
  }

  /** New arrivals go to the front of the ready list. */
  function MarkReady<T>(p: Pool<T>, b: T): Pool<T>
    requires HasState(p, b, Pending)
  {
    Pool(p.node[b := p.node[b].(state := Ready)], p.free, [b] + p.ready)
  }

  function Take<T>(p: Pool<T>): Pool<T>
    requires p.ready != [] ==> p.ready[0] in p.node
  {
    if p.ready == [] then p
    else
      var b := p.ready[0];
      Pool(p.node[b := p.node[b].(state := User)], p.free, p.ready[1..])
  }

  /** First half of `buffer_release`, with interrupts still on. */
  function Clear<T>(p: Pool<T>, b: T): Pool<T>
    requires HasState(p, b, User)
  {
    p.(node := p.node[b := p.node[b].(data := Zeros(BUFFER_MAX_SIZE))])
  }

  /** Second half of `buffer_release`. */
  function Link<T>(p: Pool<T>, b: T): Pool<T>
    requires HasState(p, b, User)
  {
    Pool(p.node[b := p.node[b].(state := Free, bytes := 0)], [b] + p.free, p.ready)
  }

  // ----- the lists alone -----

  /** Each list holds buffers of its state, none twice. */
  predicate ListsHold<T>(p: Pool<T>) {
    Listed(p, p.free, Free) && Listed(p, p.ready, Ready)
  }

  lemma AcquireKeepsLists<T>(p: Pool<T>, n: nat)
    requires ListsHold(p)
    ensures p.free != [] ==> p.free[0] in p.node
    ensures ListsHold(Acquire(p, n))
  {
    assert p.free != [] ==> HasState(p, p.free[0], Free);
    if CanAcquire(p, n) {
      var p' := Acquire(p, n);
      assert p.free == [p.free[0]] + p'.free;
    }
  }

  lemma OffLists<T>(p: Pool<T>, b: T)
    requires ListsHold(p) && (HasState(p, b, Pending) || HasState(p, b, User))
    ensures b !in p.free && b !in p.ready
  {
    assert forall i :: 0 <= i < |p.free| ==> HasState(p, p.free[i], Free);
    assert forall i :: 0 <= i < |p.ready| ==> HasState(p, p.ready[i], Ready);
  }

  lemma MarkReadyKeepsLists<T>(p: Pool<T>, b: T)
    requires ListsHold(p) && HasState(p, b, Pending)
    ensures ListsHold(MarkReady(p, b))
  {
  }

  lemma TakeKeepsLists<T>(p: Pool<T>)
    requires ListsHold(p)
    ensures p.ready != [] ==> p.ready[0] in p.node
    ensures ListsHold(Take(p))
  {
    assert p.ready != [] ==> HasState(p, p.ready[0], Ready);
    if p.ready != [] {
      assert p.ready == [p.ready[0]] + Take(p).ready;
    }
  }

  lemma LinkKeepsLists<T>(p: Pool<T>, b: T)
    requires ListsHold(p) && HasState(p, b, User)
    ensures ListsHold(Link(p, b))
  {
  }

  lemma AcquireKeepsInv<T>(p: Pool<T>, n: nat)
    requires Inv(p)
    ensures Inv(Acquire(p, n))
    ensures CanAcquire(p, n) ==> Acquire(p, n).node[p.free[0]].data == Zeros(BUFFER_MAX_SIZE)
  {
    AcquireKeepsLists(p, n);
    if CanAcquire(p, n) {
      var b, p' := p.free[0], Acquire(p, n);
      assert CleanNode(p.node[b]);
      assert p.free == [b] + p'.free;
    }
  }

  lemma DriverWriteKeepsInv<T>(p: Pool<T>, b: T, d: seq<byte>)
    requires Inv(p) && HasState(p, b, Pending) && |d| <= p.node[b].bytes <= |p.node[b].data|
    ensures Inv(DriverWrite(p, b, d))
  {
    var p' := DriverWrite(p, b, d);
    assert CleanNode(p.node[b]);
    assert forall c, st :: HasState(p', c, st) <==> HasState(p, c, st);
  }

  lemma MarkReadyKeepsInv<T>(p: Pool<T>, b: T)
    requires Inv(p) && HasState(p, b, Pending)
    ensures Inv(MarkReady(p, b))
  {
    var p' := MarkReady(p, b);
    assert CleanNode(p.node[b]);
    assert forall c :: HasState(p', c, Ready) <==> HasState(p, c, Ready) || c == b;
    assert forall c :: HasState(p', c, Free) <==> HasState(p, c, Free);
  }

  lemma TakeKeepsInv<T>(p: Pool<T>)
    requires Inv(p)
    ensures Inv(Take(p))
  {
    if p.ready != [] {
      var b, p' := p.ready[0], Take(p);
      assert CleanNode(p.node[b]);
      assert p.ready == [b] + p'.ready;
      assert forall c :: HasState(p', c, Ready) <==> HasState(p, c, Ready) && c != b;
      assert forall c :: HasState(p', c, Free) <==> HasState(p, c, Free);
    }
  }

  lemma ClearKeepsInv<T>(p: Pool<T>, b: T)
    requires Inv(p) && HasState(p, b, User)
    ensures Inv(Clear(p, b))
  {
    var p' := Clear(p, b);
    assert CleanNode(p.node[b]);
    assert forall c, st :: HasState(p', c, st) <==> HasState(p, c, st);
  }

  lemma LinkKeepsInv<T>(p: Pool<T>, b: T)
    requires Inv(p) && HasState(p, b, User) && p.node[b].data == Zeros(BUFFER_MAX_SIZE)
    ensures Inv(Link(p, b))
  {
    var p' := Link(p, b);
    assert forall c :: HasState(p', c, Free) <==> HasState(p, c, Free) || c == b;
    assert forall c :: HasState(p', c, Ready) <==> HasState(p, c, Ready);
  }

  // ----- consequences -----

  function InState<T(==)>(p: Pool<T>, st: BufferState): set<T> {
    set b | b in p.node && p.node[b].state == st
  }

  lemma ListSize<T>(p: Pool<T>, list: seq<T>, st: BufferState)
    requires ListOf(p, list, st)
    ensures |InState(p, st)| == |list|
  {
    SizeOfList(list);
    assert forall b :: b in list ==> HasState(p, b, st);
    assert SetOf(list) == InState(p, st);
  }

  /** No buffer is lost and none is counted twice. */
  lemma CountsAddUp<T>(p: Pool<T>)
    requires Inv(p)
    ensures |p.free| + |p.ready| + |InState(p, Pending)| + |InState(p, User)| == |p.node|
  {
    ListSize(p, p.free, Free);
    ListSize(p, p.ready, Ready);
    var f, r, d, u := InState(p, Free), InState(p, Ready), InState(p, Pending), InState(p, User);
    assert p.node.Keys == f + r + d + u;
    assert f !! r !! d !! u;
    assert |f + r| == |f| + |r|;
    assert |f + r + d| == |f| + |r| + |d|;
    assert |f + r + d + u| == |f| + |r| + |d| + |u|;
  }

  /** The last byte of the signature is not zero, so a packet cut short of it is never taken for ours. */
  lemma ShortPacketsRejected(d: seq<byte>, n: nat)
    requires |d| == BUFFER_MAX_SIZE && ZeroFrom(d, n) && n < 18
    ensures Signature(d) != PACKET_SIGNATURE
  {
    assert d[17] == 0;
    assert PACKET_SIGNATURE % 256 == 0xb0;
  }
}
