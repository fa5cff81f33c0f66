/** The keymap in memory: the linked list and the hash index of src/client/keymaplib.c. */
module Keymap {
  import opened Wire
  import opened Lists
  import opened KeymapText
  import opened KeymapFile

  const KEYMAP_HASH_SIZE := 256
  const UINT_RANGE := 0x1_0000_0000

  class MapEntry {
    const entry: Entry
    var next: MapEntry?

    constructor (entry: Entry, next: MapEntry?)
      ensures this.entry == entry && this.next == next
    {
      this.entry, this.next := entry, next;
    }
  }

  /** A node of a hash chain; neither field changes once it is filled in. */
  class MapNode {
    const entry: MapEntry
    const next: MapNode?

    constructor (entry: MapEntry, next: MapNode?)
      ensures this.entry == entry && this.next == next
    {
      this.entry, this.next := entry, next;
    }
  }

  // ----- specification -----

  /** The hash before it is reduced, on 32-bit unsigned arithmetic. */
  function HashOf(q: seq<byte>): dword {
    if q == [] then 5381 else (HashOf(q[..|q| - 1]) * 33 + q[|q| - 1]) % UINT_RANGE
  }

  function BucketOf(q: seq<byte>): (h: nat)
    ensures h < KEYMAP_HASH_SIZE
  {
    HashOf(q) % KEYMAP_HASH_SIZE
  }

  /** The entries of one bucket, in the order given. */
  function Bucket(s: seq<MapEntry>, h: nat): seq<MapEntry> {
    if s == [] then []
    else if BucketOf(s[0].entry.sequence) == h then [s[0]] + Bucket(s[1..], h)
    else Bucket(s[1..], h)
  }

  function Values(s: seq<MapEntry>): (v: seq<Entry>)
    ensures |v| == |s|
  {
    seq(|s|, i requires 0 <= i < |s| => s[i].entry)
  }

  /** `next` pointers lead from h through exactly the entries of s. */
  ghost predicate Chain(h: MapEntry?, s: seq<MapEntry>)
    reads s
  {
    if s == [] then h == null else h == s[0] && Chain(s[0].next, s[1..])
  }

  ghost predicate NodeChain(n: MapNode?, s: seq<MapEntry>) {
    if s == [] then n == null else n != null && n.entry == s[0] && NodeChain(n.next, s[1..])
  }

  lemma BucketPush(e: MapEntry, s: seq<MapEntry>, h: nat)
    ensures Bucket([e] + s, h) == if BucketOf(e.entry.sequence) == h then [e] + Bucket(s, h) else Bucket(s, h)
  {
    assert ([e] + s)[1..] == s;
  }

  lemma NodeChainPush(n: MapNode, s: seq<MapEntry>)
    requires NodeChain(n.next, s)
    ensures NodeChain(n, [n.entry] + s)
  {
    assert ([n.entry] + s)[1..] == s;
  }

  predicate Matches(e: MapEntry, q: seq<byte>) {
    e.entry.sequence == q
  }

  /** The first entry of s with this sequence. */
  predicate IsFirstMatch(r: MapEntry?, s: seq<MapEntry>, q: seq<byte>) {
    if r == null then forall i :: 0 <= i < |s| ==> !Matches(s[i], q)
    else exists i :: 0 <= i < |s| && r == s[i] && Matches(s[i], q) && forall j :: 0 <= j < i ==> !Matches(s[j], q)
  }

  /** Looking in the bucket of a sequence finds what looking everywhere would. */
  lemma {:induction false} BucketFindsFirst(r: MapEntry?, s: seq<MapEntry>, q: seq<byte>)
    requires IsFirstMatch(r, Bucket(s, BucketOf(q)), q)
    ensures IsFirstMatch(r, s, q)
  {
    if s != [] {
      var h := BucketOf(q);
      var b, rest := Bucket(s, h), Bucket(s[1..], h);
      if BucketOf(s[0].entry.sequence) != h {
        BucketFindsFirst(r, s[1..], q);
        MatchAfter(r, s, q);
      } else if Matches(s[0], q) {
        assert b[0] == s[0];
        assert r == s[0];
      } else {
        assert b == [s[0]] + rest;
        if r != null {
          var i :| 0 <= i < |b| && r == b[i] && Matches(b[i], q) && forall j :: 0 <= j < i ==> !Matches(b[j], q);
          assert i > 0 && rest[i - 1] == b[i];
          assert forall j :: 0 <= j < i - 1 ==> rest[j] == b[j + 1];
        } else {
          assert forall j :: 0 <= j < |rest| ==> rest[j] == b[j + 1];
        }
        BucketFindsFirst(r, s[1..], q);
        MatchAfter(r, s, q);
      }
    }
  }

  lemma MatchAfter(r: MapEntry?, s: seq<MapEntry>, q: seq<byte>)
    requires s != [] && !Matches(s[0], q) && IsFirstMatch(r, s[1..], q)
    ensures IsFirstMatch(r, s, q)
  {
    if r != null {
      var i :| 0 <= i < |s[1..]| && r == s[1..][i] && Matches(s[1..][i], q)
               && forall j :: 0 <= j < i ==> !Matches(s[1..][j], q);
      assert s[i + 1] == r;
      forall j | 0 <= j < i + 1 ensures !Matches(s[j], q) {
        assert j > 0 ==> s[j] == s[1..][j - 1];
      }
    } else {
      assert forall j :: 0 < j < |s| ==> s[j] == s[1..][j - 1];
    }
  }

  /** What was found stays found when more is loaded. */
  lemma FoundStaysFound(r: MapEntry?, s: seq<MapEntry>, t: seq<MapEntry>, q: seq<byte>)
    requires s <= t && IsFirstMatch(r, s, q) && r != null
    ensures IsFirstMatch(r, t, q)
  {
    var i :| 0 <= i < |s| && r == s[i] && Matches(s[i], q) && forall j :: 0 <= j < i ==> !Matches(s[j], q);
    assert forall j :: 0 <= j <= i ==> t[j] == s[j];
  }

  /** How many entries have this sequence. */
  function Count(s: seq<MapEntry>, q: seq<byte>): nat {
    if s == [] then 0 else Count(s[1..], q) + if Matches(s[0], q) then 1 else 0
  }

  lemma {:induction false} CountPositive(s: seq<MapEntry>, q: seq<byte>)
    ensures Count(s, q) == 0 <==> forall i :: 0 <= i < |s| ==> !Matches(s[i], q)
  {
    if s != [] {
      CountPositive(s[1..], q);
      assert forall i :: 0 < i < |s| ==> s[i] == s[1..][i - 1];
    }
  }

  /** The indexed search (earliest) and the scan (latest) always agree on whether there is an entry, and
      on which one exactly when no two entries share the sequence. */
  lemma {:induction false} SearchesAgree(nodes: seq<MapEntry>, q: seq<byte>, earliest: MapEntry?, latest: MapEntry?)
    requires NoDuplicates(nodes)
    requires IsFirstMatch(earliest, Reverse(nodes), q) && IsFirstMatch(latest, nodes, q)
    ensures earliest == null <==> latest == null
    ensures earliest == latest <==> Count(nodes, q) <= 1
  {
    if latest == null {
      NoneInReverse(nodes, q);
      CountPositive(nodes, q);
    } else {
      var i :| 0 <= i < |nodes| && latest == nodes[i] && Matches(nodes[i], q)
               && forall j :: 0 <= j < i ==> !Matches(nodes[j], q);
      ReverseAt<MapEntry>(nodes, |nodes| - 1 - i);
      var k := LastMatch(nodes, q, earliest);
      CountFrom(nodes, q, i);
      var after := nodes[i + 1..];
      CountPositive(after, q);
      if i != k {
        assert after[k - i - 1] == nodes[k];
      } else {
        assert forall j :: 0 <= j < |after| ==> after[j] == nodes[i + 1 + j];
      }
    }
  }

  lemma NoneInReverse(nodes: seq<MapEntry>, q: seq<byte>)
    requires forall i :: 0 <= i < |nodes| ==> !Matches(nodes[i], q)
    ensures forall i :: 0 <= i < |nodes| ==> !Matches(Reverse(nodes)[i], q)
  {
    forall i | 0 <= i < |nodes| ensures !Matches(Reverse(nodes)[i], q) {
      ReverseAt<MapEntry>(nodes, i);
    }
  }

  lemma LastMatch(nodes: seq<MapEntry>, q: seq<byte>, earliest: MapEntry?) returns (k: nat)
    requires IsFirstMatch(earliest, Reverse(nodes), q) && exists i :: 0 <= i < |nodes| && Matches(nodes[i], q)
    ensures earliest != null && k < |nodes| && nodes[k] == earliest && Matches(nodes[k], q)
    ensures forall j :: k < j < |nodes| ==> !Matches(nodes[j], q)
  {
    var r := Reverse(nodes);
    var some :| 0 <= some < |nodes| && Matches(nodes[some], q);
    ReverseAt<MapEntry>(nodes, |nodes| - 1 - some);
    assert Matches(r[|nodes| - 1 - some], q);
    assert earliest != null;
    var i :| 0 <= i < |r| && earliest == r[i] && Matches(r[i], q) && forall j :: 0 <= j < i ==> !Matches(r[j], q);
    k := |nodes| - 1 - i;
    ReverseAt<MapEntry>(nodes, i);
    forall j | k < j < |nodes| ensures !Matches(nodes[j], q) {
      ReverseAt<MapEntry>(nodes, |nodes| - 1 - j);
      assert !Matches(r[|nodes| - 1 - j], q);
    }
  }

  lemma {:induction false} CountFrom(s: seq<MapEntry>, q: seq<byte>, i: nat)
    requires i < |s| && Matches(s[i], q) && forall j :: 0 <= j < i ==> !Matches(s[j], q)
    ensures Count(s, q) == 1 + Count(s[i + 1..], q)
  {
    if i > 0 {
      assert forall j :: 0 <= j < |s[1..]| ==> s[1..][j] == s[j + 1];
      CountFrom(s[1..], q, i - 1);
      assert s[1..][i..] == s[i + 1..];
    }
  }

  // ----- the hash -----

  lemma HashStep(h: dword, b: byte)
    ensures ((h * 32 % UINT_RANGE + h) % UINT_RANGE + b) % UINT_RANGE == (h * 33 + b) % UINT_RANGE
  {
  }

  /** `_hash_sequence` */
  method HashSequence(q: seq<byte>) returns (r: nat)
    ensures r == BucketOf(q)
  {
    var hash: dword := 5381;
    for i := 0 to |q|
      invariant hash == HashOf(q[..i])
    {
      HashStep(hash, q[i]);
      assert q[..i + 1][..i] == q[..i];
      hash := ((hash * 32 % UINT_RANGE + hash) % UINT_RANGE + q[i]) % UINT_RANGE;
    }
    assert q[..|q|] == q;
    r := hash % KEYMAP_HASH_SIZE;
  }

  /** The hash of an arrow key's first two bytes. */
  lemma HashVector()
    ensures BucketOf([0x1b, 0x5b]) == 27
  {
    var two, one: seq<byte> := [0x1b, 0x5b], [0x1b];
    assert two[..1] == one && one[..0] == [];
    assert HashOf(one) == 177600;
  }

  /** One line of `keymap_load`. */
  method LoadLine(raw: string) returns (r: Option<Entry>)
    ensures r == ParseLine(raw)
  {
    var line := Trim(raw);
    if IsComment(line) || line == [] {
      return None;
    }
    var t := Tokens(line);
    if |t| < 5 {
      return None;
    }
    var flags := CutAt(CutAt(t[4], '#'), '/');
    var desc := Trim(t[0]);
    var hex := Trim(t[1]);
    var scan := Trim(t[2]);
    var ascii := Trim(t[3]);
    flags := Trim(flags);
    var q := ParseHexSequence(hex);
    if q.None? {
      return None;
    }
    var s := ParseByte(scan);
    if s.None? {
      return None;
    }
    var a := ParseByte(ascii);
    if a.None? {
      return None;
    }
    var f := ParseByte(flags);
    if f.None? {
      return None;
    }
    r := Some(Entry(desc, q.value, s.value, a.value, f.value));
  }

  /** The list with its `next` pointers turned around in place. */
  method ReverseInPlace(head: MapEntry?, ghost s: seq<MapEntry>, ghost objects: set<MapEntry>)
    returns (reversed: MapEntry?)
    requires Chain(head, s) && NoDuplicates(s) && forall e :: e in s ==> e in objects
    modifies objects
    ensures Chain(reversed, Reverse(s))
  {
    reversed := null;
    var current := head;
    ghost var i := 0;
    assert s[0..] == s && s[..0] == [];
    while current != null
      invariant i <= |s| && Chain(current, s[i..]) && Chain(reversed, Reverse(s[..i]))
      decreases |s| - i
    {
      var next := current.next;
      ReverseMembers<MapEntry>(s[..i]);
      assert current == s[i] && s[i..][1..] == s[i + 1..];
      assert s[i] !in s[i + 1..] && s[i] !in Reverse(s[..i]);
      current.next := reversed;
      assert s[..i + 1] == s[..i] + [s[i]];
      ReverseAppend<MapEntry>(s[..i], s[i]);
      assert ([s[i]] + Reverse(s[..i]))[1..] == Reverse(s[..i]);
      reversed := current;
      current := next;
      i := i + 1;
    }
    assert s[..i] == s;
  }

  // ----- the keymap -----

  class KeymapTable {
    var head: MapEntry?                 // g_keymap
    const buckets: array<MapNode?>      // _keymap_hash
    ghost var Nodes: seq<MapEntry>      // the list from its head on: the latest entry first
    ghost var Objects: set<MapEntry>

    ghost predicate Linked()
      reads this, Objects
    {
      && (forall e :: e in Nodes ==> e in Objects)
      && NoDuplicates(Nodes) && Chain(head, Nodes)
    }

    ghost function LoadOrder(): seq<MapEntry>
      reads this
    {
      Reverse(Nodes)
    }

    ghost predicate Indexed()
      reads this, buckets
    {
      && buckets.Length == KEYMAP_HASH_SIZE
      && forall h :: 0 <= h < KEYMAP_HASH_SIZE ==> NodeChain(buckets[h], Bucket(LoadOrder(), h))
    }

    ghost predicate Valid()
      reads this, buckets, Objects
    {
      Linked() && Indexed()
    }

    constructor ()
      ensures Valid() && fresh(buckets) && Objects == {} && Nodes == []
    {
      head, Nodes, Objects := null, [], {};
      buckets := new MapNode?[KEYMAP_HASH_SIZE](_ => null);
    }

    /** `_keymap_build_hash` */
    method BuildHash()
      requires Linked() && buckets.Length == KEYMAP_HASH_SIZE
      modifies buckets
      ensures Valid()
    {
      for i := 0 to KEYMAP_HASH_SIZE
        invariant forall h :: 0 <= h < i ==> buckets[h] == null
      {
        buckets[i] := null;
      }
      var current := head;
      ghost var done := 0;
      assert Nodes[..0] == [] && Nodes[0..] == Nodes;
      while current != null
        invariant done <= |Nodes| && Chain(current, Nodes[done..])
        invariant forall h :: 0 <= h < KEYMAP_HASH_SIZE ==> NodeChain(buckets[h], Bucket(Reverse(Nodes[..done]), h))
        decreases |Nodes| - done
      {
        var hash := HashSequence(current.entry.sequence);
        Push(hash, current, Reverse(Nodes[..done]));
        assert Nodes[..done + 1] == Nodes[..done] + [current];
        ReverseAppend<MapEntry>(Nodes[..done], current);
        assert Reverse(Nodes[..done + 1]) == [current] + Reverse(Nodes[..done]);
        assert Nodes[done..][1..] == Nodes[done + 1..];
        current := current.next;
        done := done + 1;
      }
      assert Nodes[..done] == Nodes;
    }

    /** One entry goes to the front of its bucket. */
    method Push(hash: nat, current: MapEntry, ghost before: seq<MapEntry>)
      requires buckets.Length == KEYMAP_HASH_SIZE && hash == BucketOf(current.entry.sequence)
      requires forall h :: 0 <= h < KEYMAP_HASH_SIZE ==> NodeChain(buckets[h], Bucket(before, h))
      modifies buckets
      ensures forall h :: 0 <= h < KEYMAP_HASH_SIZE ==> NodeChain(buckets[h], Bucket([current] + before, h))
    {
      var node := new MapNode(current, buckets[hash]);
      NodeChainPush(node, Bucket(before, hash));
      buckets[hash] := node;
      forall h | 0 <= h < KEYMAP_HASH_SIZE ensures NodeChain(buckets[h], Bucket([current] + before, h)) {
        BucketPush(current, before, h);
      }
    }

    /** The insertion at the head in `keymap_load`. */
    method Insert(e: Entry)
      requires Linked()
      modifies this`head, this`Nodes, this`Objects
      ensures Linked() && fresh(Objects - old(Objects)) && old(Objects) <= Objects
      ensures old(LoadOrder()) <= LoadOrder() && Values(LoadOrder()) == old(Values(LoadOrder())) + [e]
    {
      var kme := new MapEntry(e, head);
      head := kme;
      Nodes := [kme] + Nodes;
      Objects := Objects + {kme};
      assert Nodes[1..] == old(Nodes);
    }

    /** `keymap_load`; what was loaded before stays. */
    method Load(file: string)
      requires Valid()
      modifies this`head, this`Nodes, this`Objects, buckets
      ensures Valid() && fresh(Objects - old(Objects))
      ensures old(LoadOrder()) <= LoadOrder()
      ensures Values(LoadOrder()) == old(Values(LoadOrder())) + ParseFile(file)
    {
      var rest := file;
      ghost var target := Values(LoadOrder()) + ParseFile(file);
      while rest != []
        invariant Linked() && fresh(Objects - old(Objects)) && buckets.Length == KEYMAP_HASH_SIZE
        invariant old(LoadOrder()) <= LoadOrder()
        invariant Values(LoadOrder()) + ParseFile(rest) == target
        decreases |rest|
      {
        var n := ChunkLength(rest);
        var r := LoadLine(rest[..n]);
        FileStep(Values(LoadOrder()), rest);
        AddParsed(r);
        rest := rest[n..];
      }
      assert Values(LoadOrder()) + [] == Values(LoadOrder());
      BuildHash();
    }

    method AddParsed(r: Option<Entry>)
      requires Linked()
      modifies this`head, this`Nodes, this`Objects
      ensures Linked() && fresh(Objects - old(Objects)) && old(Objects) <= Objects
      ensures old(LoadOrder()) <= LoadOrder()
      ensures Values(LoadOrder()) == old(Values(LoadOrder())) + OptionToSeq(r)
    {
      if r.Some? {
        Insert(r.value);
      }
    }

    /** `keymap_find`: the indexed search returns the earliest loaded match. */
    method KeymapFind(q: seq<byte>) returns (r: MapEntry?)
      requires Valid()
      ensures IsFirstMatch(r, LoadOrder(), q)
    {
      var hash := HashSequence(q);
      var node := buckets[hash];
      ghost var b := Bucket(LoadOrder(), hash);
      ghost var i := 0;
      assert b[0..] == b;
      r := null;
      while node != null
        invariant i <= |b| && NodeChain(node, b[i..])
        invariant forall j :: 0 <= j < i ==> !Matches(b[j], q)
        decreases |b| - i
      {
        assert b[i..][1..] == b[i + 1..];
        if node.entry.entry.sequence == q {
          r := node.entry;
          break;
        }
        node := node.next;
        i := i + 1;
      }
      BucketFindsFirst(r, LoadOrder(), q);
    }

    /** `_keymap_find`: the scan returns the latest loaded match. */
    method KeymapScan(q: seq<byte>) returns (r: MapEntry?)
      requires Linked()
      ensures IsFirstMatch(r, Nodes, q)
    {
      var current := head;
      ghost var i := 0;
      assert Nodes[0..] == Nodes;
      while current != null
        invariant i <= |Nodes| && Chain(current, Nodes[i..])
        invariant forall j :: 0 <= j < i ==> !Matches(Nodes[j], q)
        decreases |Nodes| - i
      {
        assert Nodes[i..][1..] == Nodes[i + 1..];
        if current.entry.sequence == q {
          return current;
        }
        current := current.next;
        i := i + 1;
      }
      r := null;
    }

    /** The first loop of `keymap_save`. */
    method DescriptionWidth() returns (w: nat)
      requires Linked()
      ensures w == Width(Values(LoadOrder()))
      ensures w >= 10 && forall i :: 0 <= i < |Nodes| ==> |Nodes[i].entry.description| <= w
      ensures w == 10 || exists i :: 0 <= i < |Nodes| && |Nodes[i].entry.description| == w
    {
      w := 0;
      var current := head;
      ghost var i := 0;
      assert Nodes[0..] == Nodes;
      while current != null
        invariant i <= |Nodes| && Chain(current, Nodes[i..])
        invariant forall j :: 0 <= j < i ==> |Nodes[j].entry.description| <= w
        invariant w == 0 || exists j :: 0 <= j < i && |Nodes[j].entry.description| == w
        decreases |Nodes| - i
      {
        assert Nodes[i..][1..] == Nodes[i + 1..];
        if |current.entry.description| > w {
          w := |current.entry.description|;
        }
        current := current.next;
        i := i + 1;
      }
      WidestOfReverse(Nodes, w);
      if w < 10 {
        w := 10;
      }
    }

    /** `keymap_save`: the list is turned around, written, and turned back. */
    method Save() returns (text: string)
      requires Valid()
      modifies Objects
      ensures Valid() && Nodes == old(Nodes) && head == old(head)
      ensures forall i :: 0 <= i < |Nodes| ==> Nodes[i].next == old(Nodes[i].next)
      ensures text == SaveText(Values(LoadOrder()))
    {
      var width := DescriptionWidth();
      ghost var order := LoadOrder();
      ReverseMembers<MapEntry>(Nodes);
      NoDuplicatesReversed<MapEntry>(Nodes);
      ReverseTwice<MapEntry>(Nodes);
      ghost var objects := Objects;
      ChainLinks(head, Nodes);
      assert forall e :: e in order ==> e in objects;
      var reversed := ReverseInPlace(head, Nodes, objects);
      var body := WriteLines(reversed, order, width);
      var again := ReverseInPlace(reversed, order, objects);
      ChainLinks(again, Nodes);
      text := HEADER_1 + ['\n'] + (HEADER_2 + ['\n'] + (HEADER_3 + ['\n'] + body));
    }
  }

  /** The `fprintf` of `keymap_save`. */
  method FormatLine(e: Entry, width: nat) returns (line: string)
    ensures line == PrintLine(e, width)
  {
    var seqHexBuf := new char[SEQ_HEX_BUF];
    KeymapFormatSequenceHex(e.sequence, seqHexBuf);
    line := Padded(e.description, width) + " | " + Padded(CString(seqHexBuf[..]), 25) + " | "
      + HexByte(e.scan) + " | " + HexByte(e.ascii) + " | " + HexByte(e.flags);
  }

  /** The writing loop of `keymap_save`. */
  method WriteLines(list: MapEntry?, ghost order: seq<MapEntry>, width: nat) returns (body: string)
    requires Chain(list, order)
    ensures Chain(list, order) && body == PrintLines(Values(order), width)
  {
    body := [];
    var current := list;
    ghost var rest := order;
    while current != null
      invariant Chain(current, rest) && Chain(list, order)
      invariant body + PrintLines(Values(rest), width) == PrintLines(Values(order), width)
      decreases |rest|
    {
      var line := FormatLine(current.entry, width);
      OneLinePrinted(body, rest, width);
      body := body + (line + ['\n']);
      current, rest := current.next, rest[1..];
    }
  }

  lemma FileStep(loaded: seq<Entry>, file: string)
    requires file != []
    ensures var n := ChunkLength(file);
            loaded + ParseFile(file) == loaded + OptionToSeq(ParseLine(file[..n])) + ParseFile(file[n..])
  {
    FirstOfFile(file);
  }

  lemma OneLinePrinted(body: string, order: seq<MapEntry>, width: nat)
    requires order != []
    ensures body + PrintLines(Values(order), width)
            == body + (PrintLine(order[0].entry, width) + ['\n']) + PrintLines(Values(order[1..]), width)
  {
    assert Values(order)[1..] == Values(order[1..]);
  }

  function LinkAt(s: seq<MapEntry>, i: nat): MapEntry?
    requires i < |s|
  {
    if i + 1 < |s| then s[i + 1] else null
  }

  /** A list determines its links. */
  lemma {:induction false} ChainLinks(h: MapEntry?, s: seq<MapEntry>)
    requires Chain(h, s)
    ensures h == (if s == [] then null else s[0])
    ensures forall i :: 0 <= i < |s| ==> s[i].next == LinkAt(s, i)
  {
    if s != [] {
      ChainLinks(s[0].next, s[1..]);
      forall i | 0 <= i < |s| ensures s[i].next == LinkAt(s, i) {
        if i > 0 {
          assert s[i] == s[1..][i - 1] && LinkAt(s, i) == LinkAt(s[1..], i - 1);
        }
      }
    }
  }

  lemma WidestOfReverse(nodes: seq<MapEntry>, w: nat)
    requires forall j :: 0 <= j < |nodes| ==> |nodes[j].entry.description| <= w
    requires w == 0 || exists j :: 0 <= j < |nodes| && |nodes[j].entry.description| == w
    ensures w == MaxDescription(Values(Reverse(nodes)))
  {
    var v := Values(Reverse(nodes));
    forall i | 0 <= i < |v| ensures |v[i].description| <= w {
      ReverseAt<MapEntry>(nodes, i);
    }
    if w > 0 {
      var j :| 0 <= j < |nodes| && |nodes[j].entry.description| == w;
      ReverseAt<MapEntry>(nodes, |nodes| - 1 - j);
      assert |v[|nodes| - 1 - j].description| == w;
    }
    WidestIs(v, w);
  }

  lemma {:induction false} WidestIs(es: seq<Entry>, w: nat)
    requires forall i :: 0 <= i < |es| ==> |es[i].description| <= w
    ensures MaxDescription(es) <= w
    ensures (exists i :: 0 <= i < |es| && |es[i].description| == w) ==> MaxDescription(es) == w
  {
    if es != [] {
      WidestIs(es[..|es| - 1], w);
    }
  }
}
