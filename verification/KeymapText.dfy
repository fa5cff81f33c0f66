/** The keymap file format of src/client/keymaplib.c: how a line is read, how one is printed, and when
    the two undo each other. A string is the characters before its NUL. */
module KeymapText {
  import opened Wire

  const BAR: char := '|'
  const NUL: char := '\0'

  /** `isspace` in the C locale. */
  predicate IsSpace(c: char) {
    c == ' ' || '\t' <= c <= '\r'
  }

  // ----- _trim -----

  function TrimStart(s: string): string {
    if s != [] && IsSpace(s[0]) then TrimStart(s[1..]) else s
  }

  function TrimEnd(s: string): string {
    if s != [] && IsSpace(s[|s| - 1]) then TrimEnd(s[..|s| - 1]) else s
  }

  function Trimmed(s: string): string {
    TrimEnd(TrimStart(s))
  }

  predicate IsTrimmed(s: string) {
    s != [] ==> !IsSpace(s[0]) && !IsSpace(s[|s| - 1])
  }

  predicate Blank(s: string) {
    forall i :: 0 <= i < |s| ==> IsSpace(s[i])
  }

  /** `_trim` */
  method Trim(str: string) returns (r: string)
    ensures r == Trimmed(str)
  {
    var a := 0;
    while a < |str| && IsSpace(str[a])
      invariant a <= |str| && TrimStart(str) == TrimStart(str[a..])
    {
      a := a + 1;
    }
    if a == |str| {
      return [];
    }
    r := CutEnd(str, a);
  }

  /** The second loop of `_trim`. */
  method CutEnd(str: string, a: nat) returns (r: string)
    requires a < |str| && !IsSpace(str[a])
    ensures r == TrimEnd(str[a..])
  {
    var end := |str| - 1;
    assert str[a..end + 1] == str[a..];
    while end > a && IsSpace(str[end])
      invariant a <= end < |str| && TrimEnd(str[a..]) == TrimEnd(str[a..end + 1])
    {
      TrimEndStep(str, a, end);
      end := end - 1;
    }
    r := str[a..end + 1];
  }

  lemma TrimEndStep(str: string, a: nat, end: nat)
    requires a < end < |str| && IsSpace(str[end])
    ensures TrimEnd(str[a..end + 1]) == TrimEnd(str[a..end])
  {
    var s := str[a..end + 1];
    assert s[|s| - 1] == str[end] && s[..|s| - 1] == str[a..end];
  }

  lemma {:induction false} TrimStartDrops(a: string, s: string)
    requires Blank(a) && (s == [] || !IsSpace(s[0]))
    ensures TrimStart(a + s) == s
  {
    if a == [] {
      assert a + s == s;
    } else {
      assert (a + s)[1..] == a[1..] + s;
      TrimStartDrops(a[1..], s);
    }
  }

  lemma {:induction false} TrimEndDrops(s: string, b: string)
    requires Blank(b) && (s == [] || !IsSpace(s[|s| - 1]))
    ensures TrimEnd(s + b) == s
  {
    if b == [] {
      assert s + b == s;
    } else {
      var n := |b| - 1;
      assert (s + b)[..|s + b| - 1] == s + b[..n] && (s + b)[|s + b| - 1] == b[n];
      TrimEndDrops(s, b[..n]);
    }
  }

  /** Blanks around a trimmed string are what trimming removes. */
  lemma TrimCore(a: string, s: string, b: string)
    requires Blank(a) && Blank(b) && IsTrimmed(s)
    ensures Trimmed(a + s + b) == s
  {
    if s == [] {
      assert a + s + b == (a + b) + [];
      TrimStartDrops(a + b, []);
    } else {
      assert a + s + b == a + (s + b);
      TrimStartDrops(a, s + b);
      TrimEndDrops(s, b);
    }
  }

  /** A blank at the end makes no difference to what trimming leaves, nor does one at the beginning. */
  lemma BlankTrims(s: string, c: char)
    requires c as int == 32 || 9 <= c as int <= 13
    ensures Trimmed(s + [c]) == Trimmed(s) == Trimmed([c] + s)
  {
    StartWithBlank(s, c);
    var t := TrimStart(s);
    if t != [] {
      assert (t + [c])[..|t + [c]| - 1] == t;
    }
    assert ([c] + s)[1..] == s;
  }

  lemma {:induction false} StartWithBlank(s: string, c: char)
    requires IsSpace(c)
    ensures TrimStart(s + [c]) == if TrimStart(s) == [] then [] else TrimStart(s) + [c]
  {
    if s == [] {
      assert s + [c] == [c] && [c][1..] == [];
    } else if IsSpace(s[0]) {
      assert (s + [c])[1..] == s[1..] + [c];
      StartWithBlank(s[1..], c);
    }
  }

  // ----- strtok(..., "|") -----

  predicate NoBar(s: string) {
    forall i :: 0 <= i < |s| ==> s[i] != BAR
  }

  /** Where the first character equal to c is, or the length. */
  function IndexOf(s: string, c: char): (n: nat)
    ensures n <= |s| && (n < |s| ==> s[n] == c)
    ensures forall i :: 0 <= i < n ==> s[i] != c
  {
    if s == [] || s[0] == c then 0 else 1 + IndexOf(s[1..], c)
  }

  /** The tokens successive calls return: the maximal nonempty runs without a bar. */
  function Tokens(s: string): seq<string>
    decreases |s|
  {
    if s == [] then []
    else if s[0] == BAR then Tokens(s[1..])
    else
      var n := IndexOf(s, BAR);
      [s[..n]] + Tokens(s[n..])
  }

  lemma FirstToken(a: string, rest: string)
    requires a != [] && NoBar(a) && (rest != [] ==> rest[0] == BAR)
    ensures Tokens(a + rest) == [a] + Tokens(rest)
  {
    var s := a + rest;
    var n := IndexOf(s, BAR);
    assert forall i :: 0 <= i < |a| ==> s[i] == a[i];
    assert rest != [] ==> s[|a|] == rest[0];
    assert n == |a|;
    assert s[0] == a[0];
    assert s[..n] == a && s[n..] == rest;
  }

  // ----- strtol -----

  function DigitValue(c: char): nat {
    if '0' <= c <= '9' then c as nat - '0' as nat
    else if 'a' <= c <= 'f' then c as nat - 'a' as nat + 10
    else if 'A' <= c <= 'F' then c as nat - 'A' as nat + 10
    else 16
  }

  /** How many leading characters are digits of this base. */
  function DigitRun(s: string, base: nat): (n: nat)
    ensures n <= |s|
  {
    if s == [] || DigitValue(s[0]) >= base then 0 else 1 + DigitRun(s[1..], base)
  }

  function DigitsValue(s: string, base: nat): nat {
    if s == [] then 0 else DigitsValue(s[..|s| - 1], base) * base + DigitValue(s[|s| - 1])
  }

  /** The value, and how many characters were taken (none if there is no number). */
  datatype Number = Number(value: int, taken: nat)

  function SpaceRun(s: string): (n: nat)
    ensures n <= |s|
  {
    if s == [] || !IsSpace(s[0]) then 0 else 1 + SpaceRun(s[1..])
  }

  predicate HexPrefixed(s: string) {
    |s| >= 3 && s[0] == '0' && (s[1] == 'x' || s[1] == 'X') && DigitValue(s[2]) < 16
  }

  /** `strtol` for base 0 or 16, with values that a long cannot hold left exact. */
  function Strtol(s: string, base: nat): (r: Number)
    requires base == 0 || base == 16
    ensures r.taken <= |s|
  {
    var i := SpaceRun(s);
    var signed := i < |s| && (s[i] == '+' || s[i] == '-');
    var negative := i < |s| && s[i] == '-';
    var j := if signed then i + 1 else i;
    var t := s[j..];
    var k := if HexPrefixed(t) then 2 else 0;
    var b := if HexPrefixed(t) || base == 16 then 16 else if t != [] && t[0] == '0' then 8 else 10;
    var n := DigitRun(t[k..], b);
    if n == 0 then Number(0, 0)
    else
      var v: int := DigitsValue(t[k..k + n], b);
      Number(if negative then -v else v, j + k + n)
  }

  /** A field that is a number from 0 to 255 and nothing else; the empty field counts as 0. */
  function ParseByte(s: string): Option<byte> {
    var r := Strtol(s, 0);
    if r.taken == |s| && 0 <= r.value <= 0xff then Some(r.value) else None
  }

  // ----- the hex sequence -----

  /** One `\xHH` group. */
  function ParseGroup(p: string): Option<byte>
    requires |p| == 4
  {
    var r := Strtol(p[2..4], 16);
    if p[0] == '\\' && p[1] == 'x' && r.taken == 2 && 0 <= r.value <= 0xff then Some(r.value) else None
  }

  /** Group after group; what is left over at the end is none. */
  function ParseGroups(s: string): Option<seq<byte>> {
    if s == [] then Some([])
    else if |s| < 4 then None
    else
      var rest, last := ParseGroups(s[..|s| - 4]), ParseGroup(s[|s| - 4..]);
      if rest.Some? && last.Some? then Some(rest.value + [last.value]) else None
  }

  function ParseHex(s: string): Option<seq<byte>> {
    if |s| % 4 != 0 then None else ParseGroups(s)
  }

  /** `_parse_hex_sequence` */
  method ParseHexSequence(hexStr: string) returns (r: Option<seq<byte>>)
    ensures r == ParseHex(hexStr)
  {
    var len := |hexStr|;
    if len == 0 {
      return Some([]);
    }
    if len % 4 != 0 || !(hexStr[0] == '\\' && hexStr[1] == 'x') {
      if len % 4 == 0 {
        FirstGroupBad(hexStr);
      }
      return None;
    }
    r := ParseAll(hexStr, len / 4);
  }

  /** Its loop. */
  method ParseAll(hexStr: string, numBytes: nat) returns (r: Option<seq<byte>>)
    requires |hexStr| == 4 * numBytes
    ensures r == ParseGroups(hexStr)
  {
    var out: seq<byte> := [];
    for i := 0 to numBytes
      invariant ParsedTo(hexStr, i, out)
    {
      var b := ParseAt(hexStr, i, out);
      if b.None? {
        return None;
      }
      out := out + [b.value];
    }
    AllParsed(hexStr, numBytes, out);
    r := Some(out);
  }

  lemma AllParsed(s: string, n: nat, out: seq<byte>)
    requires |s| == 4 * n && ParsedTo(s, n, out)
    ensures ParseGroups(s) == Some(out)
  {
    assert s[..4 * n] == s;
  }

  predicate ParsedTo(s: string, i: nat, out: seq<byte>)
    requires 4 * i <= |s|
  {
    ParseGroups(s[..4 * i]) == Some(out)
  }

  /** The body of that loop. */
  method ParseAt(s: string, i: nat, ghost out: seq<byte>) returns (b: Option<byte>)
    requires |s| % 4 == 0 && 4 * i + 4 <= |s| && ParsedTo(s, i, out)
    ensures b.Some? ==> ParsedTo(s, i + 1, out + [b.value])
    ensures b.None? ==> ParseGroups(s).None?
  {
    b := ParseOne(s[4 * i..4 * i + 4]);
    if b.None? {
      BadGroupIsFatal(s, |s| / 4, i);
    } else {
      ParsedOneMore(s, i, out, b.value);
    }
  }

  lemma ParsedOneMore(s: string, i: nat, out: seq<byte>, b: byte)
    requires 4 * i + 4 <= |s| && ParsedTo(s, i, out) && ParseGroup(s[4 * i..4 * i + 4]) == Some(b)
    ensures ParsedTo(s, i + 1, out + [b])
  {
    GoodGroup(s[..4 * i], s[4 * i..4 * i + 4]);
    JoinGroup(s, i);
  }

  lemma JoinGroup(s: string, i: nat)
    requires 4 * i + 4 <= |s|
    ensures s[..4 * i] + s[4 * i..4 * i + 4] == s[..4 * (i + 1)]
  {
  }

  method ParseOne(p: string) returns (b: Option<byte>)
    requires |p| == 4
    ensures b == ParseGroup(p)
  {
    if p[0] != '\\' || p[1] != 'x' {
      return None;
    }
    var val := Strtol(p[2..4], 16);
    if val.taken != 2 || val.value < 0 || val.value > 0xff {
      return None;
    }
    b := Some(val.value);
  }

  lemma GoodGroup(before: string, p: string)
    requires |p| == 4 && ParseGroups(before).Some? && ParseGroup(p).Some?
    ensures ParseGroups(before + p) == Some(ParseGroups(before).value + [ParseGroup(p).value])
  {
    var t := before + p;
    assert t[..|t| - 4] == before && t[|t| - 4..] == p;
  }

  lemma {:induction false} BadGroupIsFatal(s: string, n: nat, i: nat)
    requires |s| == 4 * n && i < n && ParseGroup(s[4 * i..4 * i + 4]).None?
    ensures ParseGroups(s).None?
    decreases n
  {
    if i < n - 1 {
      assert s[..|s| - 4][4 * i..4 * i + 4] == s[4 * i..4 * i + 4];
      BadGroupIsFatal(s[..|s| - 4], n - 1, i);
    } else {
      assert s[4 * i..4 * i + 4] == s[|s| - 4..];
    }
  }

  lemma FirstGroupBad(s: string)
    requires |s| % 4 == 0 && |s| > 0 && !(s[0] == '\\' && s[1] == 'x')
    ensures ParseGroups(s).None?
  {
    assert s[4 * 0..4 * 0 + 4] == s[..4];
    BadGroupIsFatal(s, |s| / 4, 0);
  }

  function LowerHex(n: nat): (c: char)
    requires n < 16
    ensures DigitValue(c) == n && !IsSpace(c) && c != BAR && c != NUL && c != '\n'
    ensures c != '+' && c != '-' && c != 'x' && c != 'X'
  {
    if n < 10 then ('0' as int + n) as char else ('a' as int + n - 10) as char
  }

  function UpperHex(n: nat): (c: char)
    requires n < 16
    ensures DigitValue(c) == n && !IsSpace(c) && c != BAR && c != NUL && c != '\n' && c != '/' && c != '#'
  {
    if n < 10 then ('0' as int + n) as char else ('A' as int + n - 10) as char
  }

  /** `\x%02x` */
  function HexGroup(b: byte): (s: string)
    ensures |s| == 4
  {
    ['\\', 'x', LowerHex(b / 16), LowerHex(b % 16)]
  }

  function HexText(bs: seq<byte>): (s: string)
    ensures |s| == 4 * |bs|
  {
    if bs == [] then [] else HexText(bs[..|bs| - 1]) + HexGroup(bs[|bs| - 1])
  }

  /** How many bytes `keymap_format_sequence_hex` prints into a buffer of this size. */
  function Shown(len: nat, outSize: nat): (n: nat)
    requires outSize >= 5
    ensures n <= len
  {
    if (outSize - 5 + 3) / 4 <= len then (outSize - 5 + 3) / 4 else len
  }

  function FormatHex(bs: seq<byte>, outSize: nat): string
    requires outSize >= 5
  {
    HexText(bs[..Shown(|bs|, outSize)])
  }

  predicate PlainHex(s: string) {
    forall i :: 0 <= i < |s| ==> !IsSpace(s[i]) && s[i] != BAR && s[i] != NUL && s[i] != '\n'
  }

  lemma {:induction false} HexTextPlain(bs: seq<byte>)
    ensures PlainHex(HexText(bs))
  {
    if bs != [] {
      HexTextPlain(bs[..|bs| - 1]);
    }
  }

  lemma TwoDigits(a: char, b: char)
    requires DigitValue(a) < 16 && DigitValue(b) < 16 && !IsSpace(a) && a != '+' && a != '-' && b != 'x' && b != 'X'
    ensures Strtol([a, b], 16) == Number(16 * DigitValue(a) + DigitValue(b), 2)
  {
    var s := [a, b];
    assert SpaceRun(s) == 0;
    assert s[0..] == s && !HexPrefixed(s);
    RunOfTwo(a, b, []);
    assert s + [] == s;
    assert s[0..][0..2] == s;
  }

  lemma RunOfTwo(a: char, b: char, rest: string)
    requires DigitValue(a) < 16 && DigitValue(b) < 16 && (rest == [] || DigitValue(rest[0]) >= 16)
    ensures DigitRun([a, b] + rest, 16) == 2
    ensures DigitsValue([a, b], 16) == 16 * DigitValue(a) + DigitValue(b)
  {
    var s := [a, b] + rest;
    var t := [b] + rest;
    assert s[1..] == t && t[1..] == rest;
    assert DigitRun(rest, 16) == 0;
    assert DigitRun(t, 16) == 1;
    var two, one: string := [a, b], [a];
    assert two[..|two| - 1] == one && one[..|one| - 1] == [];
    assert DigitsValue(one, 16) == DigitValue(a);
    assert DigitsValue(two, 16) == DigitsValue(one, 16) * 16 + DigitValue(b);
  }

  lemma GroupRoundTrip(b: byte)
    ensures ParseGroup(HexGroup(b)) == Some(b)
  {
    TwoDigits(LowerHex(b / 16), LowerHex(b % 16));
    var p := HexGroup(b);
    assert p[2..4] == [LowerHex(b / 16), LowerHex(b % 16)];
    assert 16 * (b / 16) + b % 16 == b;
    assert Strtol(p[2..4], 16) == Number(b, 2);
  }

  /** Parsing printed hex gives the bytes back. */
  lemma {:induction false} HexRoundTrip(bs: seq<byte>)
    ensures ParseHex(HexText(bs)) == Some(bs)
  {
    if bs != [] {
      var n := |bs| - 1;
      HexRoundTrip(bs[..n]);
      OneMoreGroup(HexText(bs[..n]), bs[..n], bs[n]);
      assert bs == bs[..n] + [bs[n]];
    }
  }

  lemma OneMoreGroup(s: string, bs: seq<byte>, b: byte)
    requires ParseHex(s) == Some(bs)
    ensures ParseHex(s + HexGroup(b)) == Some(bs + [b])
  {
    GroupRoundTrip(b);
    GoodGroup(s, HexGroup(b));
  }

  /** What was formatted into a buffer reads back as exactly the bytes that fitted. */
  lemma FormatRoundTrip(bs: seq<byte>, outSize: nat)
    requires outSize >= 5
    ensures ParseHex(FormatHex(bs, outSize)) == Some(bs[..Shown(|bs|, outSize)])
    ensures |FormatHex(bs, outSize)| < outSize
    ensures Shown(|bs|, outSize) == |bs| <==> 4 * |bs| < outSize - 1
    ensures Shown(|bs|, outSize) < |bs| ==> 4 * Shown(|bs|, outSize) < outSize - 1 <= 4 * Shown(|bs|, outSize) + 4
  {
    HexRoundTrip(bs[..Shown(|bs|, outSize)]);
  }

  /** The string in a buffer. */
  function CString(a: seq<char>): string {
    a[..IndexOf(a, NUL)]
  }

  /** `strlen` */
  method Strlen(a: array<char>) returns (n: nat)
    ensures n == IndexOf(a[..], NUL)
  {
    n := 0;
    while n < a.Length && a[n] != NUL
      invariant n <= a.Length && forall i :: 0 <= i < n ==> a[i] != NUL
    {
      n := n + 1;
    }
    IndexOfIs(a[..], NUL, n);
  }

  lemma {:induction false} IndexOfIs(s: string, c: char, n: nat)
    requires n <= |s| && (n < |s| ==> s[n] == c) && forall i :: 0 <= i < n ==> s[i] != c
    ensures IndexOf(s, c) == n
  {
    var m := IndexOf(s, c);
    assert m < |s| ==> s[m] == c;
  }

  /** The `snprintf` of one byte at offset n, where it fits. */
  method PrintGroup(outBuf: array<char>, n: nat, b: byte)
    requires n + 5 <= outBuf.Length
    modifies outBuf
    ensures outBuf[..n + 4] == old(outBuf[..n]) + HexGroup(b) && outBuf[n + 4] == NUL
  {
    var group := HexGroup(b);
    outBuf[n], outBuf[n + 1], outBuf[n + 2], outBuf[n + 3], outBuf[n + 4] :=
      group[0], group[1], group[2], group[3], NUL;
  }

  /** `keymap_format_sequence_hex` */
  method KeymapFormatSequenceHex(bs: seq<byte>, outBuf: array<char>)
    requires outBuf.Length >= 5
    modifies outBuf
    ensures IndexOf(outBuf[..], NUL) < outBuf.Length
    ensures CString(outBuf[..]) == FormatHex(bs, outBuf.Length)
  {
    outBuf[0] := NUL;
    var i := 0;
    var n := Strlen(outBuf);
    while i < |bs| && n < outBuf.Length - 5
      invariant i <= |bs| && n == 4 * i < outBuf.Length && i <= Shown(|bs|, outBuf.Length)
      invariant outBuf[..n] == HexText(bs[..i]) && outBuf[n] == NUL
    {
      PrintGroup(outBuf, n, bs[i]);
      OneMoreByte(bs, i);
      i := i + 1;
      StringEndsAt(outBuf[..], HexText(bs[..i]), bs[..i]);
      n := Strlen(outBuf);
    }
    StringEndsAt(outBuf[..], HexText(bs[..i]), bs[..i]);
  }

  lemma OneMoreByte(bs: seq<byte>, i: nat)
    requires i < |bs|
    ensures HexText(bs[..i + 1]) == HexText(bs[..i]) + HexGroup(bs[i])
  {
    assert bs[..i + 1][..i] == bs[..i];
  }

  lemma StringEndsAt(a: seq<char>, s: string, bs: seq<byte>)
    requires s == HexText(bs) && |s| < |a| && a[..|s|] == s && a[|s|] == NUL
    ensures IndexOf(a, NUL) == |s|
  {
    HexTextPlain(bs);
    assert forall i :: 0 <= i < |s| ==> a[i] == a[..|s|][i];
    IndexOfIs(a, NUL, |s|);
  }
}
