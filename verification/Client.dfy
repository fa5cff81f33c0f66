/** The Linux client's side of the mirror: the list of known servers (src/client/hostlist.c), the
    packet filter, the screen update and the refresh timer (src/client/main.c). */
module Client {
  import opened Wire
  import opened Lists
  import opened Lease

  const MAX_HOSTS := 16
  const TEXT_BUFFER_SIZE := 32768

  /** A server's window buffer always holds the whole 32 KiB text segment. */
  type TextBuffer = s: seq<byte> | |s| == TEXT_BUFFER_SIZE witness Zeros(TEXT_BUFFER_SIZE)

  /** The bytes of a `struct StatusResponse`: mode, page, rows, columns, cursor row and cursor column. */
  type Status = s: seq<byte> | |s| == 6 witness [0, 0, 0, 0, 0, 0]

  datatype Size = Size(rows: byte, cols: byte)

  datatype Host = Host(mac: Mac, status: Status, size: Size,
                       controlled: bool, lastStart: nat, buffer: TextBuffer)

  type Hosts = seq<Option<Host>>

  // ----- frames as the client reads them -----

  function VideoOffset(f: Frame): word
    requires |f| >= 34
  { Net16(f, 30) }

  function VideoCount(f: Frame): word
    requires |f| >= 34
  { Net16(f, 32) }

  /** The frame holds what its type and counts say it holds. */
  predicate WellFormed(f: Frame) {
    && HEADER_LEN <= |f| <= ETH_FRAME_LEN
    && (PktType(f) == V1_STATUS_RESP ==> |f| >= 32)
    && (PktType(f) == V1_VGA_TEXT ==> |f| >= 34 && 34 + VideoCount(f) <= |f|)
  }

  function VideoData(f: Frame): seq<byte>
    requires |f| >= 34 && 34 + VideoCount(f) <= |f|
  { f[34..34 + VideoCount(f)] }

  function StatusOf(f: Frame): Status
    requires |f| >= 32
  { f[26..32] }

  // ----- specification -----

  predicate IsHost(h: Option<Host>, mac: Mac) {
    h.Some? && h.value.mac == mac
  }

  /** The first host with this address, or |hosts|. */
  function FindHost(hosts: Hosts, mac: Mac, i: nat): (r: nat)
    requires i <= |hosts|
    ensures i <= r <= |hosts|
    ensures r < |hosts| ==> IsHost(hosts[r], mac)
    ensures forall j :: i <= j < r ==> !IsHost(hosts[j], mac)
    decreases |hosts| - i
  {
    if i == |hosts| || IsHost(hosts[i], mac) then i else FindHost(hosts, mac, i + 1)
  }

  function FindFree(hosts: Hosts, i: nat): (r: nat)
    requires i <= |hosts|
    ensures i <= r <= |hosts|
    ensures r < |hosts| ==> hosts[r].None?
    ensures forall j :: i <= j < r ==> hosts[j].Some?
    decreases |hosts| - i
  {
    if i == |hosts| || hosts[i].None? then i else FindFree(hosts, i + 1)
  }

  const NO_STATUS: Status := Zeros(6)

  function WithCursor(s: Status, row: byte, col: byte): Status {
    s[4 := row][5 := col]
  }

  function NewHost(mac: Mac): Host {
    Host(mac, NO_STATUS, Size(0, 0), false, 0, Zeros(TEXT_BUFFER_SIZE))
  }

  function Overlay(b: TextBuffer, at: nat, d: seq<byte>): (r: TextBuffer)
    requires at + |d| <= TEXT_BUFFER_SIZE
    ensures forall i :: 0 <= i < TEXT_BUFFER_SIZE ==> r[i] == if at <= i < at + |d| then d[i - at] else b[i]
  {
    b[..at] + d + b[at + |d|..]
  }

  function ShowVideo(h: Host, f: Frame): Host
    requires WellFormed(f) && PktType(f) == V1_VGA_TEXT
  {
    if VideoCount(f) + VideoOffset(f) > TEXT_BUFFER_SIZE then h
    else h.(buffer := Overlay(h.buffer, VideoOffset(f), VideoData(f)),
            size := Size(f[26], f[27]),
            status := WithCursor(h.status, f[28], f[29]))
  }

  /** The host list after a frame the filter let through. */
  function Accept(hosts: Hosts, f: Frame): Hosts
    requires WellFormed(f)
  {
    var i := FindHost(hosts, Src(f), 0);
    if PktType(f) == V1_VGA_TEXT then
      if i < |hosts| then hosts[i := Some(ShowVideo(hosts[i].value, f))] else hosts
    else if PktType(f) == V1_STATUS_RESP then
      if i < |hosts| then hosts[i := Some(hosts[i].value.(status := StatusOf(f)))]
      else
        var j := FindFree(hosts, 0);
        if j < |hosts| then hosts[j := Some(NewHost(Src(f)).(status := StatusOf(f)))] else hosts
    else hosts
  }

  /** The host list after any frame off the wire. */
  function Receive(hosts: Hosts, mac: Mac, id: dword, f: Frame): Hosts
    requires WellFormed(f)
  {
    if Accepts(f, mac, id) then Accept(hosts, f) else hosts
  }

  // ----- the host list in memory -----

  class RemoteHost {
    var ifAddr: Mac
    var status: Status
    var textRows: byte
    var textCols: byte
    var controlled: bool
    var lastStart: nat
    const videoTextBuffer: array<byte>

    constructor ()
      ensures fresh(videoTextBuffer) && videoTextBuffer.Length == TEXT_BUFFER_SIZE
      ensures videoTextBuffer[..] == Zeros(TEXT_BUFFER_SIZE)
      ensures ifAddr == NULL_MAC && status == NO_STATUS && textRows == textCols == 0 && !controlled && lastStart == 0
    {
      ifAddr, status, textRows, textCols := NULL_MAC, NO_STATUS, 0, 0;
      controlled, lastStart := false, 0;
      videoTextBuffer := new byte[TEXT_BUFFER_SIZE](_ => 0);
      new;
      assert videoTextBuffer[..] == Zeros(TEXT_BUFFER_SIZE);
    }
  }

  class HostList {
    const hosts: array<RemoteHost?>
    ghost var Contents: Hosts
    ghost var Repr: set<object>

    ghost predicate Valid()
      reads this, Repr
    {
      && this in Repr && hosts in Repr
      && hosts.Length == MAX_HOSTS == |Contents|
      && (forall i :: 0 <= i < MAX_HOSTS && hosts[i] != null ==>
            hosts[i] in Repr && hosts[i].videoTextBuffer in Repr && hosts[i].videoTextBuffer.Length == TEXT_BUFFER_SIZE)
      && (forall i, j :: 0 <= i < j < MAX_HOSTS && hosts[i] != null && hosts[j] != null ==>
            hosts[i] != hosts[j] && hosts[i].videoTextBuffer != hosts[j].videoTextBuffer)
      && (forall i :: 0 <= i < MAX_HOSTS ==> Contents[i] == HostAt(hosts[i]))
    }

    static ghost function HostAt(h: RemoteHost?): Option<Host>
      reads h, if h != null then {h.videoTextBuffer} else {}
    {
      if h == null || h.videoTextBuffer.Length != TEXT_BUFFER_SIZE then None
      else Some(Host(h.ifAddr, h.status, Size(h.textRows, h.textCols), h.controlled, h.lastStart,
                     h.videoTextBuffer[..]))
    }

    constructor ()
      ensures Valid() && fresh(Repr)
      ensures Contents == seq(MAX_HOSTS, _ => None)
    {
      hosts := new RemoteHost?[MAX_HOSTS](_ => null);
      Contents := seq(MAX_HOSTS, _ => None);
      Repr := {this, hosts};
    }

    /** `hostlist_find_by_mac`, answering with the index. */
    method FindByMac(mac: Mac) returns (i: nat)
      requires Valid()
      ensures i == FindHost(Contents, mac, 0)
    {
      i := 0;
      while i < MAX_HOSTS
        invariant i <= MAX_HOSTS
        invariant FindHost(Contents, mac, 0) == FindHost(Contents, mac, i)
      {
        if hosts[i] != null && hosts[i].ifAddr == mac {
          return;
        }
        i := i + 1;
      }
    }

    /** `hostlist_allocate` */
    method Allocate() returns (i: nat)
      requires Valid()
      modifies Repr
      ensures Valid() && fresh(Repr - old(Repr))
      ensures i == FindFree(old(Contents), 0)
      ensures Contents == if i < MAX_HOSTS then old(Contents)[i := Some(NewHost(NULL_MAC))] else old(Contents)
    {
      i := 0;
      while i < MAX_HOSTS
        invariant i <= MAX_HOSTS && FindFree(Contents, 0) == FindFree(Contents, i)
        invariant Valid() && Repr == old(Repr) && Contents == old(Contents)
      {
        if hosts[i] == null {
          var h := new RemoteHost();
          hosts[i] := h;
          Repr := Repr + {h, h.videoTextBuffer};
          Contents := Contents[i := HostAt(h)];
          return;
        }
        i := i + 1;
      }
    }

    /** `hostlist_register` */
    method Register(f: Frame)
      requires Valid() && WellFormed(f) && PktType(f) == V1_STATUS_RESP
      modifies Repr
      ensures Valid() && fresh(Repr - old(Repr))
      ensures Contents == Accept(old(Contents), f)
    {
      var i := FindByMac(Src(f));
      if i == MAX_HOSTS {
        i := Allocate();
        if i == MAX_HOSTS {
          return;
        }
        SetAddress(i, Src(f));
      }
      SetStatus(i, StatusOf(f));
    }

    method SetAddress(i: nat, mac: Mac)
      requires Valid() && i < MAX_HOSTS && hosts[i] != null
      modifies Repr
      ensures Valid() && Repr == old(Repr)
      ensures old(Contents)[i].Some? && Contents == old(Contents)[i := Some(old(Contents)[i].value.(mac := mac))]
    {
      hosts[i].ifAddr := mac;
      Contents := Contents[i := HostAt(hosts[i])];
    }

    method SetStatus(i: nat, status: Status)
      requires Valid() && i < MAX_HOSTS && hosts[i] != null
      modifies Repr
      ensures Valid() && Repr == old(Repr)
      ensures old(Contents)[i].Some? && Contents == old(Contents)[i := Some(old(Contents)[i].value.(status := status))]
    {
      hosts[i].status := status;
      Contents := Contents[i := HostAt(hosts[i])];
    }

    /** `process_incoming_video_text` */
    method ProcessIncomingVideoText(f: Frame)
      requires Valid() && WellFormed(f) && PktType(f) == V1_VGA_TEXT
      modifies Repr
      ensures Valid() && Repr == old(Repr)
      ensures Contents == Accept(old(Contents), f)
    {
      var i := FindByMac(Src(f));
      if i == MAX_HOSTS {
        return;
      }
      var rh := hosts[i];
      var offset, count := VideoOffset(f), VideoCount(f);
      if count + offset > TEXT_BUFFER_SIZE {
        return;
      }
      ghost var was := rh.videoTextBuffer[..];
      Memcpy(rh.videoTextBuffer, offset, VideoData(f));
      assert rh.videoTextBuffer[..] == Overlay(was, offset, VideoData(f));
      rh.textRows, rh.textCols := f[26], f[27];
      rh.status := WithCursor(rh.status, f[28], f[29]);
      Contents := Contents[i := HostAt(rh)];
    }

    /** `process_socket_io` */
    method ProcessSocketIo(mac: Mac, id: dword, f: Frame)
      requires Valid() && WellFormed(f)
      modifies Repr
      ensures Valid() && fresh(Repr - old(Repr))
      ensures Contents == Receive(old(Contents), mac, id, f)
    {
      if Dst(f) != mac {
        return;
      }
      if PACKET_SIGNATURE != Signature(f) {
        return;
      }
      if id != SessionId(f) {
        return;
      }
      if PktType(f) == V1_STATUS_RESP {
        Register(f);
      } else if PktType(f) == V1_VGA_TEXT {
        ProcessIncomingVideoText(f);
      }
    }

    /** The session refresh of `process_timers`: the servers to send a start request to. */
    method ProcessTimers(now: nat) returns (targets: seq<Mac>)
      requires Valid()
      modifies Repr
      ensures Valid() && Repr == old(Repr)
      ensures targets == DueMacs(old(Contents), now)
      ensures forall m :: m in targets <==>
        (exists i :: 0 <= i < MAX_HOSTS && old(Contents)[i].Some? && old(Contents)[i].value.mac == m &&
                     old(Contents)[i].value.controlled && now - old(Contents)[i].value.lastStart > 2_000_000)
      ensures Contents == Refreshed(old(Contents), now)
      ensures forall i :: 0 <= i < MAX_HOSTS ==>
        var h := old(Contents)[i];
        Contents[i] == (if h.Some? && h.value.controlled && now - h.value.lastStart > 2_000_000
                        then Some(h.value.(lastStart := now)) else h)
    {
      targets := StartDue(now);
      DueMacsIff(old(Contents), now);
    }

    /** Its loop over the hosts. */
    method StartDue(now: nat) returns (targets: seq<Mac>)
      requires Valid()
      modifies Repr
      ensures Valid() && Repr == old(Repr)
      ensures targets == DueMacs(old(Contents), now) && Contents == Refreshed(old(Contents), now)
    {
      targets := [];
      var i := 0;
      while i < MAX_HOSTS
        invariant i <= MAX_HOSTS && Valid() && Repr == old(Repr)
        invariant forall j :: 0 <= j < i ==> Contents[j] == Restarted(old(Contents)[j], now)
        invariant forall j :: i <= j < MAX_HOSTS ==> Contents[j] == old(Contents)[j]
        invariant targets == DueMacs(old(Contents)[..i], now)
      {
        assert old(Contents)[..i + 1][..i] == old(Contents)[..i];
        assert Contents[i] == HostAt(hosts[i]);
        if hosts[i] != null && hosts[i].controlled && TimerFires(hosts[i].lastStart, now) {
          targets := targets + [hosts[i].ifAddr];
          MarkStarted(i, now);
        }
        i := i + 1;
      }
      assert old(Contents)[..i] == old(Contents);
    }

    method MarkStarted(i: nat, now: nat)
      requires Valid() && i < MAX_HOSTS && hosts[i] != null
      modifies Repr
      ensures Valid() && Repr == old(Repr)
      ensures old(Contents)[i].Some? && Contents == old(Contents)[i := Some(old(Contents)[i].value.(lastStart := now))]
    {
      hosts[i].lastStart := now;
      Contents := Contents[i := HostAt(hosts[i])];
    }
  }

  predicate Due(h: Option<Host>, now: nat) {
    h.Some? && h.value.controlled && TimerFires(h.value.lastStart, now)
  }

  function Refreshed(hosts: Hosts, now: nat): (r: Hosts)
    ensures |r| == |hosts|
  {
    seq(|hosts|, i requires 0 <= i < |hosts| => Restarted(hosts[i], now))
  }

  function Restarted(h: Option<Host>, now: nat): Option<Host> {
    if Due(h, now) then Some(h.value.(lastStart := now)) else h
  }

  function DueMacs(hosts: Hosts, now: nat): seq<Mac> {
    if hosts == [] then []
    else
      var h := hosts[|hosts| - 1];
      DueMacs(hosts[..|hosts| - 1], now) + if Due(h, now) then [h.value.mac] else []
  }

  /** The targets are the addresses of the hosts that are controlled and were last sent a start request more
      than two seconds ago: each of these hosts once, in the order of the list. */
  lemma {:induction false} DueInOrder(hosts: Hosts, now: nat) returns (at: seq<nat>)
    ensures forall a, b :: 0 <= a < b < |at| ==> at[a] < at[b]
    ensures forall i: nat :: i in at <==>
      i < |hosts| && hosts[i].Some? && hosts[i].value.controlled && now - hosts[i].value.lastStart > 2_000_000
    ensures |DueMacs(hosts, now)| == |at|
    ensures forall a :: 0 <= a < |at| ==> at[a] < |hosts| && IsHost(hosts[at[a]], DueMacs(hosts, now)[a])
  {
    at := [];
    if hosts != [] {
      var n := |hosts| - 1;
      var before := DueInOrder(hosts[..n], now);
      at := before + if Due(hosts[n], now) then [n] else [];
      forall a, b | 0 <= a < b < |at| ensures at[a] < at[b] {
        assert a < |before| && before[a] in before;
      }
    }
  }

  lemma DueMacIff(hosts: Hosts, now: nat, m: Mac)
    ensures m in DueMacs(hosts, now) <==>
            (exists i :: 0 <= i < |hosts| && hosts[i].Some? && hosts[i].value.mac == m &&
                         hosts[i].value.controlled && now - hosts[i].value.lastStart > 2_000_000)
  {
    var at := DueInOrder(hosts, now);
    if m in DueMacs(hosts, now) {
      var a :| 0 <= a < |at| && DueMacs(hosts, now)[a] == m;
      assert at[a] in at;
    }
    forall i | i in at && hosts[i].value.mac == m ensures m in DueMacs(hosts, now) {
      var a :| 0 <= a < |at| && at[a] == i;
      assert DueMacs(hosts, now)[a] == m;
    }
  }

  lemma DueMacsIff(hosts: Hosts, now: nat)
    ensures forall m :: m in DueMacs(hosts, now) <==>
      (exists i :: 0 <= i < |hosts| && hosts[i].Some? && hosts[i].value.mac == m &&
                   hosts[i].value.controlled && now - hosts[i].value.lastStart > 2_000_000)
  {
    forall m: Mac
      ensures m in DueMacs(hosts, now) <==>
              (exists i :: 0 <= i < |hosts| && hosts[i].Some? && hosts[i].value.mac == m &&
                           hosts[i].value.controlled && now - hosts[i].value.lastStart > 2_000_000)
    {
      DueMacIff(hosts, now, m);
    }
  }

  /** No address is sent two start requests at one poll, and no poll disturbs the list. */
  lemma TargetsDistinct(hosts: Hosts, now: nat)
    requires HostsInv(hosts)
    ensures NoDuplicates(DueMacs(hosts, now)) && HostsInv(Refreshed(hosts, now))
  {
    var at := DueInOrder(hosts, now);
    var targets := DueMacs(hosts, now);
    forall a, b | 0 <= a < b < |targets| ensures targets[a] != targets[b] {
      assert at[a] < at[b];
    }
  }

  /** The polls at which this address is among the targets. */
  function TargetTimes(hosts: Hosts, polls: seq<nat>, m: Mac): seq<nat>
    decreases polls
  {
    if polls == [] then []
    else
      (if m in DueMacs(hosts, polls[0]) then [polls[0]] else [])
      + TargetTimes(Refreshed(hosts, polls[0]), polls[1..], m)
  }

  lemma TargetOfHost(hosts: Hosts, now: nat, i: nat)
    requires HostsInv(hosts) && i < |hosts| && hosts[i].Some?
    ensures hosts[i].value.mac in DueMacs(hosts, now) <==> Due(hosts[i], now)
  {
    DueMacIff(hosts, now, hosts[i].value.mac);
  }

  /** Over any series of polls, whatever the other hosts do, a controlled server is sent start requests at
      exactly the times of the timer the lease argument is about, and any other server never. */
  lemma TargetsOverPolls(hosts: Hosts, polls: seq<nat>, i: nat)
    requires HostsInv(hosts) && i < |hosts| && hosts[i].Some?
    ensures var h := hosts[i].value;
            if h.controlled then [h.lastStart] + TargetTimes(hosts, polls, h.mac) == SendTimes(h.lastStart, polls)
            else TargetTimes(hosts, polls, h.mac) == []
  {
    TargetsAreTimesDue(hosts, polls, i);
    if hosts[i].value.controlled {
      TimerOfHost(hosts[i].value, polls);
    } else {
      NeverDue(hosts[i].value, polls);
    }
  }

  lemma {:induction false} TargetsAreTimesDue(hosts: Hosts, polls: seq<nat>, i: nat)
    requires HostsInv(hosts) && i < |hosts| && hosts[i].Some?
    ensures TargetTimes(hosts, polls, hosts[i].value.mac) == TimesDue(hosts[i].value, polls)
    decreases polls
  {
    if polls != [] {
      TargetOfHost(hosts, polls[0], i);
      TargetsDistinct(hosts, polls[0]);
      TargetsAreTimesDue(Refreshed(hosts, polls[0]), polls[1..], i);
    }
  }

  lemma {:induction false} NeverDue(h: Host, polls: seq<nat>)
    requires !h.controlled
    ensures TimesDue(h, polls) == []
    decreases polls
  {
    if polls != [] {
      NeverDue(h, polls[1..]);
    }
  }

  /** When one server is sent start requests, if its client polls at these times. */
  function TimesDue(h: Host, polls: seq<nat>): seq<nat>
    decreases polls
  {
    if polls == [] then []
    else
      (if Due(Some(h), polls[0]) then [polls[0]] else [])
      + TimesDue(Restarted(Some(h), polls[0]).value, polls[1..])
  }

  /** The field each host carries keeps the timer the lease argument is about. */
  lemma {:induction false} TimerOfHost(h: Host, polls: seq<nat>)
    requires h.controlled
    ensures [h.lastStart] + TimesDue(h, polls) == SendTimes(h.lastStart, polls)
    decreases polls
  {
    if polls != [] {
      TimerOfHost(Restarted(Some(h), polls[0]).value, polls[1..]);
    }
  }

  // ----- what the host list keeps -----

  /** No server appears twice, so a frame lands in the one buffer of its sender. */
  predicate HostsInv(hosts: Hosts) {
    |hosts| == MAX_HOSTS &&
    forall i, j :: 0 <= i < j < |hosts| && hosts[i].Some? && hosts[j].Some? ==> hosts[i].value.mac != hosts[j].value.mac
  }

  lemma ReceiveKeepsHosts(hosts: Hosts, mac: Mac, id: dword, f: Frame)
    requires HostsInv(hosts) && WellFormed(f)
    ensures HostsInv(Receive(hosts, mac, id, f))
    ensures forall i :: 0 <= i < |hosts| && hosts[i].Some? && hosts[i].value.mac != Src(f) ==>
      Receive(hosts, mac, id, f)[i] == hosts[i]
    ensures forall i :: 0 <= i < |hosts| && hosts[i].Some? ==>
      Receive(hosts, mac, id, f)[i].Some? && Receive(hosts, mac, id, f)[i].value.mac == hosts[i].value.mac
  {
    var i := FindHost(hosts, Src(f), 0);
    assert i == |hosts| ==> forall j :: 0 <= j < |hosts| ==> !IsHost(hosts[j], Src(f));
  }

  predicate Known(hosts: Hosts, mac: Mac) {
    FindHost(hosts, mac, 0) < |hosts|
  }

  /** What is not for this client, not signed, or neither a status response nor a screen update leaves the list
      as it is. So does an update that reaches past the 32 KiB of the window's buffer or comes from a stranger, and
      a stranger's status response if the list is full. */
  lemma IgnoredFrames(hosts: Hosts, mac: Mac, id: dword, f: Frame)
    requires WellFormed(f)
    ensures (f[0..6] != mac || f[14..18] != [0x7b, 0x6e, 0x05, 0xb0] || f[18..22] != Be32(id)) ==>
              Receive(hosts, mac, id, f) == hosts
    ensures f[24..26] != [0, 4] && f[24..26] != [0, 6] ==> Receive(hosts, mac, id, f) == hosts
    ensures f[24..26] == [0, 6] && Net16(f, 30) + Net16(f, 32) > 32768 ==> Receive(hosts, mac, id, f) == hosts
    ensures (forall i :: 0 <= i < |hosts| ==> !IsHost(hosts[i], f[6..12])) &&
            (f[24..26] == [0, 6] || forall i :: 0 <= i < |hosts| ==> hosts[i].Some?) ==>
              Receive(hosts, mac, id, f) == hosts
  {
    SignedIff(f);
    FieldRewritten(f, 18);
    TypeIs(f, 4);
    TypeIs(f, 6);
    ReceiveOnly(hosts, mac, id, f);
  }

  lemma ReceiveOnly(hosts: Hosts, mac: Mac, id: dword, f: Frame)
    requires WellFormed(f)
    ensures !Accepts(f, mac, id) ==> Receive(hosts, mac, id, f) == hosts
    ensures PktType(f) != 4 && PktType(f) != 6 ==> Receive(hosts, mac, id, f) == hosts
    ensures PktType(f) == 6 && VideoOffset(f) + VideoCount(f) > 32768 ==> Receive(hosts, mac, id, f) == hosts
    ensures !Known(hosts, Src(f)) && PktType(f) == 6 ==> Receive(hosts, mac, id, f) == hosts
    ensures !Known(hosts, Src(f)) && FindFree(hosts, 0) == |hosts| ==> Receive(hosts, mac, id, f) == hosts
  {
  }

  lemma KnownIff(hosts: Hosts, mac: Mac, i: nat)
    requires i < |hosts| && IsHost(hosts[i], mac)
    ensures Known(hosts, mac)
  {
  }

  /** A status response makes its sender known, unless sixteen other servers already are. */
  lemma StatusRegistersSender(hosts: Hosts, mac: Mac, id: dword, f: Frame)
    requires HostsInv(hosts) && WellFormed(f) && Accepts(f, mac, id) && PktType(f) == V1_STATUS_RESP
    ensures Known(Receive(hosts, mac, id, f), Src(f)) <==>
            Known(hosts, Src(f)) || exists j :: 0 <= j < 16 && hosts[j].None?
  {
    var i := FindHost(hosts, Src(f), 0);
    var j := if i < |hosts| then i else FindFree(hosts, 0);
    var after := Receive(hosts, mac, id, f);
    assert j < |hosts| ==> |after| == |hosts| && IsHost(after[j], Src(f));
    assert j == |hosts| ==> after == hosts;
    KnownAfter(hosts, after, Src(f), j);
  }

  lemma KnownAfter(hosts: Hosts, after: Hosts, mac: Mac, j: nat)
    requires |hosts| == |after| == MAX_HOSTS
    requires j == if Known(hosts, mac) then FindHost(hosts, mac, 0) else FindFree(hosts, 0)
    requires j < |hosts| ==> IsHost(after[j], mac)
    requires j == |hosts| ==> after == hosts
    ensures Known(after, mac) <==> Known(hosts, mac) || exists j :: 0 <= j < MAX_HOSTS && hosts[j].None?
  {
    if j < |hosts| {
      KnownIff(after, mac, j);
    }
  }
}
