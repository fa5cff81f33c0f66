/** The receive-buffer pool in memory: src/server/bufmgr.c and the packet driver's two receiver calls
    (src/server/pktdrv.c, section 6.4 of the PC/TCP Packet Driver Specification, access_type()). */
module BufMgr {
  import opened Wire
  import opened Lists
  import opened PoolModel

  class Buffer {
    var state: BufferState
    var bytes: nat
    var next: Buffer?
    const data: array<byte>

    constructor ()
      ensures state == Free && bytes == 0 && next == null
      ensures fresh(data) && data.Length == BUFFER_MAX_SIZE && data[..] == Zeros(BUFFER_MAX_SIZE)
    {
      state, bytes, next := Free, 0, null;
      data := new byte[BUFFER_MAX_SIZE](_ => 0);
      new;
      assert data[..] == Zeros(BUFFER_MAX_SIZE);
    }
  }

  /** `next` pointers lead from h through exactly the buffers of s. */
  ghost predicate Chain(h: Buffer?, s: seq<Buffer>)
    reads s
  {
    if s == [] then h == null else h == s[0] && Chain(s[0].next, s[1..])
  }

  lemma {:induction false} ChainFromLinks(s: seq<Buffer>, i: nat)
    requires i < |s|
    requires s[|s| - 1].next == null && forall j :: 0 <= j < |s| - 1 ==> s[j].next == s[j + 1]
    ensures Chain(s[i], s[i..])
    decreases |s| - i
  {
    assert s[i..][1..] == s[i + 1..];
    if i < |s| - 1 {
      ChainFromLinks(s, i + 1);
    } else {
      assert s[i + 1..] == [];
    }
  }

  ghost function AllFree(bs: seq<Buffer>): Pool<Buffer> {
    Pool(map b | b in bs :: Node(Free, 0, Zeros(BUFFER_MAX_SIZE)), bs, [])
  }

  lemma AllFreeInv(bs: seq<Buffer>)
    requires NoDuplicates(bs)
    ensures Inv(AllFree(bs)) && |AllFree(bs).node| == |bs|
    ensures InState(AllFree(bs), Pending) == {} && InState(AllFree(bs), User) == {}
  {
    SizeOfList(bs);
    assert AllFree(bs).node.Keys == SetOf(bs);
  }

  class BufferManager {
    var freeList: Buffer?
    var readyList: Buffer?
    ghost const Buffers: set<Buffer>
    ghost var Model: Pool<Buffer>

    ghost const Objects: set<object>

    ghost predicate Layout() {
      && this in Objects
      && (forall b :: b in Buffers ==> b in Objects && b.data in Objects && b.data.Length == BUFFER_MAX_SIZE)
      && (forall b, c :: b in Buffers && c in Buffers && b != c ==> b.data != c.data)
    }

    /** The memory of b says what the model says about it. */
    ghost predicate Mirrors(b: Buffer)
      reads this, b, b.data
    {
      && b in Model.node
      && Model.node[b] == Node(b.state, b.bytes, b.data[..])
      && (b.state == Pending || b.state == User ==> b.next == null)
    }

    ghost predicate Mirrored()
      reads Objects
    {
      && Layout()
      && (forall b :: b in Buffers ==> Mirrors(b))
      && Model.node.Keys == Buffers
    }

    ghost predicate Valid()
      reads Objects
    {
      && Mirrored()
      && ListsHold(Model)
      && Chain(freeList, Model.free)
      && Chain(readyList, Model.ready)
    }

    /** The allocation and the linking loop of `buffer_init`. */
    static method MakeFreeList(count: nat) returns (bs: seq<Buffer>, ghost objects: set<object>)
      requires count >= 1
      ensures |bs| == count && NoDuplicates(bs) && Chain(bs[0], bs)
      ensures fresh(objects)
      ensures forall b :: b in bs ==> b in objects && b.data in objects && b.data.Length == BUFFER_MAX_SIZE
      ensures forall b :: b in bs ==> b.state == Free && b.bytes == 0 && b.data[..] == Zeros(BUFFER_MAX_SIZE)
      ensures forall b, c :: b in bs && c in bs && b != c ==> b.data != c.data
    {
      bs, objects := [], {};
      while |bs| < count
        invariant |bs| <= count && NoDuplicates(bs)
        invariant fresh(objects)
        invariant forall b :: b in bs ==> b in objects && b.data in objects && b.data.Length == BUFFER_MAX_SIZE
        invariant forall b :: b in bs ==> b.state == Free && b.bytes == 0 && b.data[..] == Zeros(BUFFER_MAX_SIZE)
        invariant forall b :: b in bs ==> b.next == null
        invariant forall b, c :: b in bs && c in bs && b != c ==> b.data != c.data
      {
        var b := new Buffer();
        bs, objects := bs + [b], objects + {b, b.data};
      }
      for i := 0 to count - 1
        invariant forall j :: 0 <= j < i ==> bs[j].next == bs[j + 1]
        invariant forall j :: i <= j < count ==> bs[j].next == null
        invariant forall b :: b in bs ==> b.state == Free && b.bytes == 0 && b.data[..] == Zeros(BUFFER_MAX_SIZE)
      {
        assert bs[i] in bs;
        bs[i].next := bs[i + 1];
      }
      ChainFromLinks(bs, 0);
      assert bs[0..] == bs;
    }

    /** `buffer_init` */
    constructor (count: nat)
      requires count >= 1
      ensures Valid() && Inv(Model) && fresh(Objects)
      ensures |Model.free| == |Model.node| == count
      ensures Model.ready == [] && InState(Model, Pending) == {} && InState(Model, User) == {}
    {
      var bs, objects := MakeFreeList(count);
      freeList, readyList := bs[0], null;
      Buffers := SetOf(bs);
      Model := AllFree(bs);
      Objects := {this} + objects;
      AllFreeInv(bs);
      new;
      assert forall b :: b in Buffers ==> Mirrors(b);
    }

    /** `buffer_acquire`; the buffer stands for the address of its data. */
    method BufferAcquire(n: nat) returns (node: Buffer?)
      requires Valid()
      modifies Objects
      ensures Valid() && Model == Acquire(old(Model), n)
      ensures node == if CanAcquire(old(Model), n) then old(Model).free[0] else null
      ensures node != null <==> old(Model).free != [] && n <= 1504
    {
      if freeList == null || n > BUFFER_MAX_SIZE {
        return null;
      }
      AcquireKeepsLists(Model, n);
      node := freeList;
      freeList := freeList.next;
      SetNode(node, Pending, n, null);
      Model := Model.(free := Model.free[1..]);
      assert old(Model).free == [node] + Model.free;
    }

    /** The new state, size and link of one buffer. */
    method SetNode(b: Buffer, state: BufferState, bytes: nat, next: Buffer?)
      requires Mirrored() && b in Buffers && (state == Pending || state == User ==> next == null)
      modifies b, this`Model
      ensures Mirrored() && b.next == next
      ensures Model == old(Model).(node := old(Model).node[b := Node(state, bytes, old(Model).node[b].data)])
    {
      assert Mirrors(b);
      b.state, b.bytes, b.next := state, bytes, next;
      Model := Model.(node := Model.node[b := Node(state, bytes, Model.node[b].data)]);
    }

    /** `buffer_mark_ready` */
    method BufferMarkReady(buf: Buffer)
      requires Valid() && HasState(Model, buf, Pending)
      modifies Objects
      ensures Valid() && Model == MarkReady(old(Model), buf)
    {
      OffLists(Model, buf);
      MarkReadyKeepsLists(Model, buf);
      SetNode(buf, Ready, buf.bytes, readyList);
      readyList := buf;
      Model := Model.(ready := [buf] + Model.ready);
      assert Model.ready[1..] == old(Model).ready;
    }

    /** `buffer_get_ready` */
    method BufferGetReady() returns (retval: Buffer?)
      requires Valid()
      modifies Objects
      ensures Valid() && Model == Take(old(Model))
      ensures retval == if old(Model).ready == [] then null else old(Model).ready[0]
    {
      retval := null;
      if readyList != null {
        TakeKeepsLists(Model);
        retval := readyList;
        readyList := readyList.next;
        SetNode(retval, User, retval.bytes, null);
        Model := Model.(ready := Model.ready[1..]);
        assert old(Model).ready == [retval] + Model.ready;
      }
    }

    /** `buffer_release` up to the point where interrupts go off. */
    method ReleaseClear(buffer: Buffer)
      requires Valid() && HasState(Model, buffer, User)
      modifies Objects
      ensures Valid() && Model == Clear(old(Model), buffer)
    {
      OffLists(Model, buffer);
      Memzero(buffer.data, 0, buffer.data.Length);
      Model := Clear(Model, buffer);
      assert buffer.data[..] == Zeros(BUFFER_MAX_SIZE);
    }

    /** `buffer_release` from there on; an interrupt may have come in between. */
    method ReleaseLink(buffer: Buffer)
      requires Valid() && HasState(Model, buffer, User) && Model.node[buffer].data == Zeros(BUFFER_MAX_SIZE)
      modifies Objects
      ensures Valid() && Model == Link(old(Model), buffer)
    {
      OffLists(Model, buffer);
      LinkKeepsLists(Model, buffer);
      SetNode(buffer, Free, 0, freeList);
      freeList := buffer;
      Model := Model.(free := [buffer] + Model.free);
      assert Model.free[1..] == old(Model).free;
    }

    method BufferRelease(buffer: Buffer)
      requires Valid() && HasState(Model, buffer, User)
      modifies Objects
      ensures Valid() && Model == Link(Clear(old(Model), buffer), buffer)
    {
      ReleaseClear(buffer);
      ReleaseLink(buffer);
    }

    /** What the packet driver does with a buffer it was given. */
    method DriverCopies(buf: Buffer, d: seq<byte>)
      requires Valid() && HasState(Model, buf, Pending) && |d| <= Model.node[buf].bytes <= |Model.node[buf].data|
      modifies Objects
      ensures Valid() && Model == DriverWrite(old(Model), buf, d)
    {
      ghost var was := buf.data[..];
      Memcpy(buf.data, 0, d);
      Model := DriverWrite(Model, buf, d);
      assert buf.data[..] == d + was[|d|..];
    }
  }

  function Next(counter: dword): dword {
    (counter + 1) % 0x1_0000_0000
  }

  /** The receiving end of the packet driver, with its `g_pktdrv_stats`. */
  class Receiver {
    const pool: BufferManager
    var packetsRecv: dword
    var packetsDropped: dword

    constructor (pool: BufferManager)
      ensures this.pool == pool && packetsRecv == packetsDropped == 0
    {
      this.pool := pool;
      packetsRecv, packetsDropped := 0, 0;
    }

    /** `pktdrv_receive_func`: AX tells the two calls apart, CX is the length asked for, SI the buffer
        handed over; ES:DI answers with a buffer or with zero. */
    method PktdrvReceiveFunc(ax: word, cx: word, si: Buffer?) returns (esdi: Buffer?)
      requires pool.Valid() && this !in pool.Objects
      requires ax != 0 ==> si != null && HasState(pool.Model, si, Pending)
      modifies this, pool.Objects
      ensures pool.Valid()
      ensures ax != 0 ==> pool.Model == MarkReady(old(pool.Model), si)
      ensures ax != 0 ==> packetsRecv == old(packetsRecv) && packetsDropped == old(packetsDropped)
      ensures ax == 0 ==> pool.Model == Acquire(old(pool.Model), cx)
      ensures ax == 0 && old(pool.Model).free != [] && cx <= 1504 ==>
              esdi == old(pool.Model).free[0]
              && packetsRecv == (old(packetsRecv) + 1) % 0x1_0000_0000 && packetsDropped == old(packetsDropped)
      ensures ax == 0 && (old(pool.Model).free == [] || cx > 1504) ==>
              esdi == null
              && packetsRecv == old(packetsRecv) && packetsDropped == (old(packetsDropped) + 1) % 0x1_0000_0000
    {
      esdi := null;
      if ax != 0 {
        pool.BufferMarkReady(si);
      } else {
        esdi := pool.BufferAcquire(cx);
        if esdi != null {
          packetsRecv := Next(packetsRecv);
        } else {
          packetsDropped := Next(packetsDropped);
        }
      }
    }

    /** A packet arriving while the pool is left alone: both calls with the driver's copy in between.
        A packet that finds no buffer, or is too long for one, is dropped and counted. */
    method ReceivePacket(d: seq<byte>) returns (esdi: Buffer?)
      requires pool.Valid() && this !in pool.Objects && |d| < 0x1_0000 && CopyFits(pool.Model, d)
      modifies this, pool.Objects
      ensures pool.Valid()
      ensures if CanAcquire(old(pool.Model), |d|)
              then pool.Model == Received(old(pool.Model), d) && esdi == old(pool.Model).free[0]
              else pool.Model == old(pool.Model) && esdi == null
      ensures packetsRecv == if esdi != null then Next(old(packetsRecv)) else old(packetsRecv)
      ensures packetsDropped == if esdi != null then old(packetsDropped) else Next(old(packetsDropped))
    {
      esdi := PktdrvReceiveFunc(0, |d|, null);
      if esdi != null {
        pool.DriverCopies(esdi, d);
        var _ := PktdrvReceiveFunc(1, |d|, esdi);
      }
    }
  }

  /** If the driver is given a buffer for d, the buffer can hold it. */
  ghost predicate CopyFits<T>(p: Pool<T>, d: seq<byte>) {
    CanAcquire(p, |d|) ==> p.free[0] in p.node && |p.node[p.free[0]].data| == BUFFER_MAX_SIZE
  }

  ghost function Received<T>(p: Pool<T>, d: seq<byte>): Pool<T>
    requires CanAcquire(p, |d|) && CopyFits(p, d)
  {
    MarkReady(DriverWrite(Acquire(p, |d|), p.free[0], d), p.free[0])
  }

  /** A packet so received waits at the front with its own size and bytes, and zeros behind them. */
  lemma ReceivedWaits<T>(p: Pool<T>, d: seq<byte>)
    requires Inv(p) && CanAcquire(p, |d|)
    ensures CopyFits(p, d) && Inv(Received(p, d))
    ensures Received(p, d).ready == [p.free[0]] + p.ready
    ensures Received(p, d).node == p.node[p.free[0] := Node(Ready, |d|, d + Zeros(BUFFER_MAX_SIZE - |d|))]
  {
    var b := p.free[0];
    assert HasState(p, b, Free) && CleanNode(p.node[b]);
    AcquireKeepsInv(p, |d|);
    DriverWriteKeepsInv(Acquire(p, |d|), b, d);
    MarkReadyKeepsInv(DriverWrite(Acquire(p, |d|), b, d), b);
    assert Zeros(BUFFER_MAX_SIZE)[|d|..] == Zeros(BUFFER_MAX_SIZE - |d|);
  }
}
