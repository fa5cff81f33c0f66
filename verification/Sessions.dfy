/** The session table of src/server/session.c: four slots, the all-zero slot is the free one. */
module Sessions {
  import opened Wire

  const MAX_SESSIONS := 4
  const LIFETIME: dword := 182

  /** What identifies a client: its address and the session id it chose. */
  type Key = (Mac, dword)

  datatype Slot = Slot(key: Key, tLastRecv: dword, videoChksum: word)

  const FREE_SLOT := Slot((NULL_MAC, 0), 0, 0)

  type Table = seq<Slot>

  predicate InUse(s: Slot) {
    s.key.0 != NULL_MAC
  }

  function KeyOf(s: Slot): Key {
    s.key
  }

  /** The timeout test on `uint32_t`: the sum wraps at 32 bits. */
  predicate Expired(since: dword, now: dword) {
    (since + LIFETIME) % 0x1_0000_0000 < now
  }

  /** The invariant of the table. */
  predicate TableInv(t: Table) {
    && |t| == MAX_SESSIONS
    && (forall i :: 0 <= i < |t| && !InUse(t[i]) ==> t[i] == FREE_SLOT)
    && DistinctKeys(t)
  }

  predicate DistinctKeys(t: Table) {
    forall i, j :: 0 <= i < j < |t| && InUse(t[i]) && InUse(t[j]) ==> KeyOf(t[i]) != KeyOf(t[j])
  }

  predicate Serves(s: Slot, k: Key) {
    InUse(s) && KeyOf(s) == k
  }

  predicate InTable(t: Table, k: Key) {
    exists i :: 0 <= i < |t| && Serves(t[i], k)
  }

  // ----- specification functions -----

  /** The first slot from `i` on with this key, or |t|. */
  function FindFrom(t: Table, k: Key, i: nat): (r: nat)
    requires i <= |t|
    ensures i <= r <= |t|
    ensures r < |t| ==> KeyOf(t[r]) == k
    ensures forall j :: i <= j < r ==> KeyOf(t[j]) != k
    decreases |t| - i
  {
    if i == |t| || KeyOf(t[i]) == k then i else FindFrom(t, k, i + 1)
  }

  /** The slot a start request takes: its own if it has one, else the first free one, else none. */
  function SlotFor(t: Table, k: Key): (r: nat)
    ensures r <= |t|
  {
    var own := FindFrom(t, k, 0);
    if own < |t| then own else FindFrom(t, (NULL_MAC, 0), 0)
  }

  function StartTable(t: Table, k: Key, now: dword): Table {
    var i := SlotFor(t, k);
    if i < |t| then t[i := Slot(k, now, 0)] else t
  }

  function PruneSlot(s: Slot, now: dword): Slot {
    if InUse(s) && Expired(s.tLastRecv, now) then FREE_SLOT else s
  }

  function PruneTable(t: Table, now: dword): (t': Table)
    ensures |t'| == |t|
  {
    seq(|t|, i requires 0 <= i < |t| => PruneSlot(t[i], now))
  }

  function ActiveCount(t: Table): (n: nat)
    ensures n <= |t|
    ensures n == 0 <==> forall i :: 0 <= i < |t| ==> !InUse(t[i])
  {
    if t == [] then 0 else ActiveCount(t[..|t| - 1]) + if InUse(t[|t| - 1]) then 1 else 0
  }

  // ----- what the table means: a lease map of at most four keys -----

  /** The leases in force: for each client, when it was last heard from. */
  function Leases(t: Table): map<Key, dword> {
    if t == [] then map[]
    else
      var s := t[|t| - 1];
      if InUse(s) then Leases(t[..|t| - 1])[KeyOf(s) := s.tLastRecv] else Leases(t[..|t| - 1])
  }

  /** A client has a lease exactly when a slot serves it, and the lease is that slot's timestamp. */
  lemma {:induction false} LeaseOf(t: Table, k: Key)
    requires DistinctKeys(t)
    ensures k in Leases(t) <==> InTable(t, k)
    ensures forall i :: 0 <= i < |t| && Serves(t[i], k) ==> k in Leases(t) && Leases(t)[k] == t[i].tLastRecv
  {
    if t != [] {
      var p, s := t[..|t| - 1], t[|t| - 1];
      LeaseOf(p, k);
      if InTable(p, k) {
        var i :| 0 <= i < |p| && Serves(p[i], k);
        assert Serves(t[i], k);
      }
      if Serves(s, k) {
        assert Serves(t[|t| - 1], k);
      }
    }
  }

  lemma {:induction false} LeaseCount(t: Table)
    requires DistinctKeys(t)
    ensures |Leases(t)| == ActiveCount(t)
  {
    if t != [] {
      var p, s := t[..|t| - 1], t[|t| - 1];
      LeaseCount(p);
      LeaseOf(p, KeyOf(s));
    }
  }

  lemma {:induction false} AllInUse(t: Table)
    ensures ActiveCount(t) == |t| <==> forall i :: 0 <= i < |t| ==> InUse(t[i])
  {
    if t != [] {
      AllInUse(t[..|t| - 1]);
      if ActiveCount(t) == |t| {
        forall i | 0 <= i < |t| ensures InUse(t[i]) {
          assert i < |t| - 1 ==> t[i] == t[..|t| - 1][i];
        }
      }
    }
  }

  /** A start request sets the client's lease, and is refused exactly when the client is unknown and
      four leases are in force; it never touches another client's slot. */
  lemma StartSetsLease(t: Table, k: Key, now: dword)
    requires TableInv(t) && k.0 != NULL_MAC
    ensures TableInv(StartTable(t, k, now))
    ensures Leases(StartTable(t, k, now)) ==
            if k in Leases(t) || |Leases(t)| < 4 then Leases(t)[k := now] else Leases(t)
    ensures forall j :: 0 <= j < |t| && InUse(t[j]) && KeyOf(t[j]) != k ==> StartTable(t, k, now)[j] == t[j]
  {
    LeaseCount(t);
    LeaseOf(t, k);
    SlotForMeaning(t, k);
    StartKeepsTable(t, k, now);
    if SlotFor(t, k) < |t| {
      LeasesAfterStart(t, k, now);
    }
  }

  lemma StartKeepsTable(t: Table, k: Key, now: dword)
    requires TableInv(t) && k.0 != NULL_MAC
    ensures TableInv(StartTable(t, k, now))
    ensures forall j :: 0 <= j < |t| && InUse(t[j]) && KeyOf(t[j]) != k ==> StartTable(t, k, now)[j] == t[j]
  {
    SlotForMeaning(t, k);
    assert forall j :: 0 <= j < |t| ==> (Serves(t[j], k) <==> InUse(t[j]) && KeyOf(t[j]) == k);
  }

  lemma LeasesAfterStart(t: Table, k: Key, now: dword)
    requires TableInv(t) && k.0 != NULL_MAC && SlotFor(t, k) < |t| && DistinctKeys(StartTable(t, k, now))
    ensures Leases(StartTable(t, k, now)) == Leases(t)[k := now]
  {
    var m, m' := Leases(t)[k := now], Leases(StartTable(t, k, now));
    forall q ensures q in m' <==> q in m
             ensures q in m ==> m'[q] == m[q]
    {
      LeaseAfterStart(t, k, now, q);
    }
    assert m' == m;
  }

  lemma LeaseAfterStart(t: Table, k: Key, now: dword, q: Key)
    requires TableInv(t) && k.0 != NULL_MAC && SlotFor(t, k) < |t| && DistinctKeys(StartTable(t, k, now))
    ensures var m, m' := Leases(t)[k := now], Leases(StartTable(t, k, now));
            (q in m' <==> q in m) && (q in m ==> m'[q] == m[q])
  {
    var t', i := StartTable(t, k, now), SlotFor(t, k);
    SlotForMeaning(t, k);
    LeaseOf(t, q);
    LeaseOf(t', q);
    if q == k {
      assert Serves(t'[i], q);
    } else {
      assert forall j :: 0 <= j < |t| ==> (Serves(t'[j], q) <==> Serves(t[j], q));
    }
  }

  lemma SlotForMeaning(t: Table, k: Key)
    requires TableInv(t) && k.0 != NULL_MAC
    ensures var i := SlotFor(t, k);
            && (i < |t| ==> t[i] == FREE_SLOT || Serves(t[i], k))
            && (i < |t| ==> forall j :: 0 <= j < |t| && j != i ==> !Serves(t[j], k))
            && (i == |t| <==> !InTable(t, k) && ActiveCount(t) == MAX_SESSIONS)
  {
    AllInUse(t);
    var own, free := FindFrom(t, k, 0), FindFrom(t, (NULL_MAC, 0), 0);
    if own < |t| {
      assert Serves(t[own], k);
    } else if free == |t| {
      forall j | 0 <= j < |t| ensures InUse(t[j]) {
        assert KeyOf(FREE_SLOT) == (NULL_MAC, 0);
      }
    }
  }

  /** Which slot a start request takes: the client's own, else the first free one. */
  lemma StartTakesSlot(t: Table, k: Key, now: dword)
    requires TableInv(t) && k.0 != NULL_MAC
    ensures var i := SlotFor(t, k);
            && StartTable(t, k, now) == (if i == |t| then t else t[i := Slot(k, now, 0)])
            && (InTable(t, k) ==> i < |t| && Serves(t[i], k))
            && (!InTable(t, k) && i < |t| ==> t[i] == FREE_SLOT)
            && (!InTable(t, k) ==> forall j :: 0 <= j < i ==> InUse(t[j]))
  {
    SlotForMeaning(t, k);
    if !InTable(t, k) {
      var own, free := FindFrom(t, k, 0), FindFrom(t, (NULL_MAC, 0), 0);
      assert own < |t| ==> Serves(t[own], k);
      assert forall j :: 0 <= j < free ==> t[j] != FREE_SLOT;
    }
  }

  /** Exactly which start requests keep the table in order: those of a real sender, those that find no
      free slot, and the one that writes a free slot over a free slot. */
  lemma StartKeepsInvIff(t: Table, k: Key, now: dword)
    requires TableInv(t)
    ensures TableInv(StartTable(t, k, now)) <==>
            k.0 != NULL_MAC || ActiveCount(t) == MAX_SESSIONS || (k.1 == 0 && now == 0)
  {
    AllInUse(t);
    var t', i := StartTable(t, k, now), SlotFor(t, k);
    if k.0 != NULL_MAC {
      StartSetsLease(t, k, now);
    } else if i < |t| {
      assert t[i] == FREE_SLOT;
      assert !InUse(t'[i]);
      assert t'[i] == FREE_SLOT <==> k.1 == 0 && now == 0;
      assert t[i] == t'[i] ==> t' == t;
    } else {
      forall j | 0 <= j < |t| ensures InUse(t[j]) {
        assert KeyOf(FREE_SLOT) == (NULL_MAC, 0);
      }
    }
  }

  /** A tick drops exactly the stale leases and leaves the others as they are. */
  lemma PruneDropsStale(t: Table, now: dword)
    requires TableInv(t)
    ensures TableInv(PruneTable(t, now))
    ensures Leases(PruneTable(t, now)) == Unexpired(Leases(t), now)
    ensures forall i :: 0 <= i < |t| ==>
      PruneTable(t, now)[i] ==
      if InUse(t[i]) && (t[i].tLastRecv + 182) % 0x1_0000_0000 < now then FREE_SLOT else t[i]
  {
    var t' := PruneTable(t, now);
    assert DistinctKeys(t');
    forall q ensures q in Leases(t') <==> q in Unexpired(Leases(t), now)
             ensures q in Leases(t') ==> Leases(t')[q] == Leases(t)[q]
    {
      LeaseOf(t, q);
      LeaseOf(t', q);
      forall i | 0 <= i < |t| && Serves(t'[i], q) ensures Serves(t[i], q) && t'[i] == t[i] {
      }
      if q in Unexpired(Leases(t), now) {
        var i :| 0 <= i < |t| && Serves(t[i], q);
        assert Serves(t'[i], q);
      }
    }
    assert Leases(t') == Unexpired(Leases(t), now);
  }

  function Unexpired(m: map<Key, dword>, now: dword): map<Key, dword> {
    map k | k in m && !Expired(m[k], now) :: m[k]
  }

  // ----- the methods -----

  /** `session_mgr_find`; |slots| stands for NULL. */
  method Find(slots: array<Slot>, mac: Mac, id: dword) returns (s: nat)
    ensures s == FindFrom(slots[..], (mac, id), 0)
  {
    s := 0;
    while s < slots.Length
      invariant s <= slots.Length
      invariant FindFrom(slots[..], (mac, id), 0) == FindFrom(slots[..], (mac, id), s)
    {
      if slots[s].key.0 == mac && slots[s].key.1 == id {
        return;
      }
      s := s + 1;
    }
  }

  /** `session_mgr_start`, with the sender and session id already taken from the packet. */
  method Start(slots: array<Slot>, mac: Mac, id: dword, now: dword) returns (s: nat)
    modifies slots
    ensures slots[..] == StartTable(old(slots[..]), (mac, id), now)
    ensures s == SlotFor(old(slots[..]), (mac, id))
  {
    s := Find(slots, mac, id);
    if s == slots.Length {
      s := Find(slots, NULL_MAC, 0);
      if s == slots.Length {
        return;
      }
      slots[s] := slots[s].(key := (mac, id));
    }
    slots[s] := slots[s].(tLastRecv := now, videoChksum := 0);
  }

  lemma CountOneMore(t: Table, i: nat)
    requires i < |t|
    ensures ActiveCount(t[..i + 1]) == ActiveCount(t[..i]) + if InUse(t[i]) then 1 else 0
  {
    assert t[..i + 1][..i] == t[..i];
  }

  /** The pruning loop of `session_mgr_update_all`. */
  method Prune(slots: array<Slot>, now: dword) returns (active: nat)
    modifies slots
    ensures slots[..] == PruneTable(old(slots[..]), now)
    ensures active == ActiveCount(slots[..])
  {
    active := 0;
    for i := 0 to slots.Length
      invariant forall j :: 0 <= j < i ==> slots[j] == PruneSlot(old(slots[j]), now)
      invariant forall j :: i <= j < slots.Length ==> slots[j] == old(slots[j])
      invariant active == ActiveCount(slots[..i])
    {
      if InUse(slots[i]) {
        if (slots[i].tLastRecv + LIFETIME) % 0x1_0000_0000 < now {
          slots[i] := FREE_SLOT;
        } else {
          active := active + 1;
        }
      }
      CountOneMore(slots[..], i);
    }
    assert slots[..] == slots[..slots.Length];
  }
}
