/** What `keymap_load` makes of any line with five fields, character by character, and of lines as they stand in
    the keymaps of src/tools. */
module KeymapLines {
  import opened Wire
  import opened KeymapText
  import opened KeymapFile

  // ----- any line with five fields -----

  /** A field: not empty, and without a bar. */
  predicate IsField(s: string) {
    s != [] && NoBar(s)
  }

  /** Five fields with bars between them; the last goes as far as the first '#', '/' or bar after it, if any. */
  predicate FiveFields(line: string, d: string, q: string, s: string, a: string, f: string, more: string) {
    && IsField(d) && IsField(q) && IsField(s) && IsField(a) && NoBar(f) && '#' !in f && '/' !in f
    && f + more != [] && (f + more)[0] != '|'
    && (more == [] || more[0] == '#' || more[0] == '/' || more[0] == '|')
    && line == d + (['|'] + (q + (['|'] + (s + (['|'] + (a + (['|'] + (f + more))))))))
  }

  /** The line is skipped if its first two characters are slashes, one slash being no comment. If not, its five
      fields, trimmed, are the entry's description, sequence, scan code, character and flags in this order, or
      there is no entry because one of the last four does not read. */
  lemma LineReads(raw: string, d: string, q: string, s: string, a: string, f: string, more: string)
    requires FiveFields(Trimmed(raw), d, q, s, a, f, more)
    ensures var line := Trimmed(raw);
            var sequence, scan, ascii, flags :=
              ParseHex(Trimmed(q)), ParseByte(Trimmed(s)), ParseByte(Trimmed(a)), ParseByte(Trimmed(f));
            ParseLine(raw) ==
            if |line| >= 2 && line[0] == '/' && line[1] == '/' then None
            else if sequence.None? || scan.None? || ascii.None? || flags.None? then None
            else Some(Entry(Trimmed(d), sequence.value, scan.value, ascii.value, flags.value))
  {
    var n := LastToken(f, more);
    FieldTokens(d, q, s, a, f, more, n);
    TokensRead(raw, d, q, s, a, (f + more)[..n], f);
  }

  /** What the reader makes of a line, once it is in pieces. */
  lemma TokensRead(raw: string, d: string, q: string, s: string, a: string, last: string, f: string)
    requires |Tokens(Trimmed(raw))| >= 5 && Tokens(Trimmed(raw))[..5] == [d, q, s, a, last]
    requires CutAt(CutAt(last, '#'), '/') == f
    ensures ParseLine(raw) ==
            if IsComment(Trimmed(raw)) then None
            else ParseFields(Trimmed(d), Trimmed(q), Trimmed(s), Trimmed(a), Trimmed(f))
  {
    var t := Tokens(Trimmed(raw));
    var five := t[..5];
    assert t[0] == five[0] && t[1] == five[1] && t[2] == five[2] && t[3] == five[3] && t[4] == five[4];
  }

  /** A line of blanks is skipped, and so is one that begins with two slashes, whatever follows. */
  lemma LineSkips(raw: string)
    requires var line := Trimmed(raw); line == [] || (|line| >= 2 && line[0] == '/' && line[1] == '/')
    ensures ParseLine(raw) == None
  {
  }

  lemma LastToken(f: string, more: string) returns (n: nat)
    requires NoBar(f) && '#' !in f && '/' !in f && f + more != [] && (f + more)[0] != BAR
    requires more == [] || more[0] == '#' || more[0] == '/' || more[0] == BAR
    ensures 0 < n <= |f + more| && n == IndexOf(f + more, BAR)
    ensures CutAt(CutAt((f + more)[..n], '#'), '/') == f
  {
    var all := f + more;
    n := IndexOf(all, BAR);
    assert forall i :: 0 <= i < |f| ==> all[i] == f[i];
    assert more != [] ==> all[|f|] == more[0];
    var token := all[..n];
    assert n >= |f|;
    var cut := IndexOf(token, '#');
    assert forall i :: 0 <= i < |f| ==> token[i] == f[i];
    assert cut >= |f|;
    CutsToFlags(token[..cut], f);
  }

  lemma CutsToFlags(t: string, f: string)
    requires '/' !in f && |f| <= |t| && t[..|f|] == f && (|f| < |t| ==> t[|f|] == '/')
    ensures CutAt(t, '/') == f
  {
    assert forall i :: 0 <= i < |f| ==> t[i] == t[..|f|][i];
    IndexOfIs(t, '/', |f|);
  }

  lemma FieldTokens(d: string, q: string, s: string, a: string, f: string, more: string, n: nat)
    requires IsField(d) && IsField(q) && IsField(s) && IsField(a)
    requires 0 < n <= |f + more| && n == IndexOf(f + more, BAR) && f + more != [] && (f + more)[0] != BAR
    ensures var t := Tokens(d + ([BAR] + (q + ([BAR] + (s + ([BAR] + (a + ([BAR] + (f + more)))))))));
            |t| >= 5 && t[..5] == [d, q, s, a, (f + more)[..n]]
  {
    var r4 := [BAR] + (f + more);
    var r3 := [BAR] + (a + r4);
    var r2 := [BAR] + (s + r3);
    var after := LastTokens(f + more, n);
    BarThenToken(a, r4);
    BarThenToken(s, r3);
    BarThenToken(q, r2);
    FirstToken(d, [BAR] + (q + r2));
    FirstFive(d, q, s, a, (f + more)[..n], after);
  }

  lemma LastTokens(all: string, n: nat) returns (after: seq<string>)
    requires all != [] && all[0] != BAR && n == IndexOf(all, BAR)
    ensures Tokens([BAR] + all) == [all[..n]] + after
  {
    assert ([BAR] + all)[1..] == all;
    after := Tokens(all[n..]);
  }

  lemma FirstFive(d: string, q: string, s: string, a: string, f: string, after: seq<string>)
    ensures var t := [d] + ([q] + ([s] + ([a] + ([f] + after)))); |t| >= 5 && t[..5] == [d, q, s, a, f]
  {
  }

  /** A line that ends in CR LF reads like one that ends in LF, or in nothing. */
  lemma LineEnds(s: string)
    ensures ParseLine(s + ['\r', '\n']) == ParseLine(s + ['\n']) == ParseLine(s)
  {
    BlankTrims(s, '\n');
    BlankTrims(s, '\r');
    BlankTrims(s + ['\r'], '\n');
    assert s + ['\r'] + ['\n'] == s + ['\r', '\n'];
  }

  // ----- numbers -----

  /** Three decimal digits, the first not 0: the number, if a byte can hold it. */
  lemma DecimalReads(a: char, b: char, c: char)
    requires '1' <= a <= '9' && '0' <= b <= '9' && '0' <= c <= '9'
    ensures var v := 100 * (a as int - '0' as int) + 10 * (b as int - '0' as int) + (c as int - '0' as int);
            ParseByte([a, b, c]) == if v <= 255 then Some(v) else None
  {
    var s := [a, b, c];
    assert s[0..] == s && SpaceRun(s) == 0;
    RunOfThree(a, b, c, 10);
    assert s[0..0 + 3] == s;
  }

  /** A leading 0 makes the digits octal. */
  lemma OctalReads(b: char, c: char)
    requires '0' <= b <= '7' && '0' <= c <= '7'
    ensures ParseByte(['0', b, c]) == Some(8 * (b as int - '0' as int) + (c as int - '0' as int))
  {
    var s := ['0', b, c];
    assert s[0..] == s && SpaceRun(s) == 0;
    RunOfThree('0', b, c, 8);
    assert s[0..0 + 3] == s;
  }

  /** `0x` or `0X` makes them hexadecimal, in either case. */
  lemma HexReads(x: char, a: char, b: char)
    requires (x == 'x' || x == 'X') && DigitValue(a) < 16 && DigitValue(b) < 16
    ensures ParseByte(['0', x, a, b]) == Some(16 * DigitValue(a) + DigitValue(b))
    ensures DigitValue('9') == 9 && DigitValue('a') == DigitValue('A') == 10 && DigitValue('f') == DigitValue('F') == 15
  {
    var s := ['0', x, a, b];
    assert s[0..] == s && SpaceRun(s) == 0 && HexPrefixed(s);
    assert s[2..] == [a, b] + [];
    RunOfTwo(a, b, []);
    assert s[2..2 + 2] == [a, b];
  }

  /** The empty field is 0; a negative number spoils a field, and so does a character that is no digit. */
  lemma BadNumbers(d: char, x: char)
    requires '1' <= d <= '9' && !('0' <= x <= '9')
    ensures ParseByte([]) == Some(0)
    ensures ParseByte(['-', d]).None? && ParseByte([d, x]).None?
  {
    NegativeReads(d);
    CutShort(d, x);
  }

  lemma NegativeReads(d: char)
    requires '1' <= d <= '9'
    ensures Strtol(['-', d], 0) == Number('0' as int - d as int, 2)
  {
    var s, one: string := ['-', d], [d];
    assert s[1..] == one && one[0..] == one;
    RunStep(d, [], 10);
    assert one == [d] + [];
    assert one[0..0 + 1] == one && one[..0] == [];
    assert DigitsValue(one, 10) == d as int - '0' as int;
  }

  lemma CutShort(d: char, x: char)
    requires '1' <= d <= '9' && !('0' <= x <= '9')
    ensures Strtol([d, x], 0).taken == 1
  {
    var s := [d, x];
    assert s[0..] == s && s == [d] + [x];
    RunStep(d, [x], 10);
    assert DigitRun([x], 10) == 0;
  }

  lemma RunOfThree(a: char, b: char, c: char, base: nat)
    requires DigitValue(a) < base && DigitValue(b) < base && DigitValue(c) < base && base <= 16
    ensures DigitRun([a, b, c], base) == 3
    ensures DigitsValue([a, b, c], base) == (DigitValue(a) * base + DigitValue(b)) * base + DigitValue(c)
  {
    RunStep(c, [], base);
    RunStep(b, [c], base);
    RunStep(a, [b, c], base);
    assert [c] == [c] + [] && [b, c] == [b] + [c] && [a, b, c] == [a] + [b, c];
    var s, two, one: string := [a, b, c], [a, b], [a];
    assert s[..2] == two && two[..1] == one && one[..0] == [];
    assert DigitsValue(one, base) == DigitValue(a);
    assert DigitsValue(two, base) == DigitsValue(one, base) * base + DigitValue(b);
  }

  lemma RunStep(c: char, rest: string, base: nat)
    requires DigitValue(c) < base
    ensures DigitRun([c] + rest, base) == 1 + DigitRun(rest, base)
  {
    assert ([c] + rest)[1..] == rest;
  }

  // ----- the hex sequence -----

  predicate HexDigit(c: char) {
    '0' <= c <= '9' || 'a' <= c <= 'f' || 'A' <= c <= 'F'
  }

  /** Exactly which groups read: a backslash, a small x and two hex digits; and, since `strtol` takes them, a blank, a
      plus or (before 0) a minus in place of the first digit. */
  lemma GroupReads(p: string)
    requires |p| == 4
    ensures ParseGroup(p).Some? <==>
            && p[0] == '\\' && p[1] == 'x' && HexDigit(p[3])
            && (HexDigit(p[2]) || IsSpace(p[2]) || p[2] == '+' || (p[2] == '-' && p[3] == '0'))
    ensures ParseGroup(p).Some? ==>
              ParseGroup(p).value == (if HexDigit(p[2]) then 16 * DigitValue(p[2]) else 0) + DigitValue(p[3])
  {
    var r := NumberOfGroup(p);
    GroupCases(p, r, ParseGroup(p));
  }

  /** What `strtol` makes of two characters. */
  predicate IsNumberOf(r: Number, a: char, b: char) {
    if HexDigit(a) && HexDigit(b) then r == Number(16 * DigitValue(a) + DigitValue(b), 2)
    else if HexDigit(b) && (IsSpace(a) || a == '+') then r == Number(DigitValue(b), 2)
    else if HexDigit(b) && a == '-' then r == Number(0 - (DigitValue(b) as int), 2)
    else r.taken < 2
  }

  lemma NumberOfGroup(p: string) returns (r: Number)
    requires |p| == 4
    ensures IsNumberOf(r, p[2], p[3])
    ensures ParseGroup(p) ==
            if p[0] == '\\' && p[1] == 'x' && r.taken == 2 && 0 <= r.value <= 0xff then Some(r.value) else None
  {
    var two := [p[2], p[3]];
    r := Strtol(two, 16);
    TwoCharacters(p[2], p[3]);
    assert p[2..4] == two;
    GroupOfNumber(p, two, r);
  }

  lemma GroupOfNumber(p: string, two: string, r: Number)
    requires |p| == 4 && p[2..4] == two && r == Strtol(two, 16)
    ensures ParseGroup(p) ==
            if p[0] == '\\' && p[1] == 'x' && r.taken == 2 && 0 <= r.value <= 0xff then Some(r.value) else None
  {
  }

  lemma GroupCases(p: string, r: Number, g: Option<byte>)
    requires |p| == 4 && IsNumberOf(r, p[2], p[3])
    requires g == if p[0] == '\\' && p[1] == 'x' && r.taken == 2 && 0 <= r.value <= 0xff then Some(r.value) else None
    ensures g.Some? <==>
            && p[0] == '\\' && p[1] == 'x' && HexDigit(p[3])
            && (HexDigit(p[2]) || IsSpace(p[2]) || p[2] == '+' || (p[2] == '-' && p[3] == '0'))
    ensures g.Some? ==> g.value == (if HexDigit(p[2]) then 16 * DigitValue(p[2]) else 0) + DigitValue(p[3])
  {
    assert HexDigit(p[3]) ==> DigitValue(p[3]) <= 15 && (DigitValue(p[3]) == 0 <==> p[3] == '0');
    assert HexDigit(p[2]) ==> DigitValue(p[2]) <= 15;
  }

  /** The group for byte i is there and reads as it. */
  predicate GroupIs(s: string, i: nat, b: byte) {
    4 * i + 4 <= |s| && ParseGroup(s[4 * i..4 * i + 4]) == Some(b)
  }

  predicate GroupsAre(s: string, bs: seq<byte>) {
    forall i :: 0 <= i < |bs| ==> GroupIs(s, i, bs[i])
  }

  lemma GroupsSplit(s: string, bs: seq<byte>)
    requires |s| == 4 * |bs| && bs != []
    ensures GroupsAre(s, bs) <==>
            GroupsAre(s[..|s| - 4], bs[..|bs| - 1]) && ParseGroup(s[|s| - 4..]) == Some(bs[|bs| - 1])
  {
    var n, before := |bs| - 1, s[..|s| - 4];
    assert s[4 * n..4 * n + 4] == s[|s| - 4..];
    assert GroupIs(s, n, bs[n]) <==> ParseGroup(s[|s| - 4..]) == Some(bs[n]);
    forall i | 0 <= i < n ensures GroupIs(s, i, bs[i]) <==> GroupIs(before, i, bs[..n][i]) {
      assert before[4 * i..4 * i + 4] == s[4 * i..4 * i + 4];
    }
    assert GroupsAre(before, bs[..n]) <==> forall i :: 0 <= i < n ==> GroupIs(before, i, bs[..n][i]);
  }

  /** A sequence reads as these bytes exactly when it is four characters for each, group by group. */
  lemma {:induction false} SequenceReads(s: string, bs: seq<byte>)
    ensures ParseHex(s) == Some(bs) <==> |s| == 4 * |bs| && GroupsAre(s, bs)
  {
    if |s| == 4 * |bs| && bs != [] {
      var n, before := |bs| - 1, s[..|s| - 4];
      SequenceReads(before, bs[..n]);
      GroupsSplit(s, bs);
      LastGroup(s, bs);
    } else if ParseHex(s).Some? {
      GroupCount(s);
    }
  }

  lemma LastGroup(s: string, bs: seq<byte>)
    requires |s| == 4 * |bs| && bs != []
    ensures ParseHex(s) == Some(bs) <==>
            ParseHex(s[..|s| - 4]) == Some(bs[..|bs| - 1]) && ParseGroup(s[|s| - 4..]) == Some(bs[|bs| - 1])
  {
    assert bs == bs[..|bs| - 1] + [bs[|bs| - 1]];
  }

  lemma {:induction false} GroupCount(s: string)
    requires ParseGroups(s).Some?
    ensures |s| == 4 * |ParseGroups(s).value|
  {
    if s != [] {
      GroupCount(s[..|s| - 4]);
    }
  }

  lemma TwoCharacters(a: char, b: char)
    ensures IsNumberOf(Strtol([a, b], 16), a, b)
  {
    if HexDigit(a) && HexDigit(b) {
      TwoDigits(a, b);
    } else if HexDigit(a) {
      OneDigit(a, b);
    } else {
      LeadAndDigit(a, b);
    }
  }

  lemma OneDigit(a: char, b: char)
    requires HexDigit(a) && !HexDigit(b)
    ensures Strtol([a, b], 16).taken == 1
  {
    var s := [a, b];
    assert SpaceRun(s) == 0 && s[0..] == s && s == [a] + [b];
    RunStep(a, [b], 16);
    assert DigitRun([b], 16) == 0;
  }

  lemma LeadAndDigit(a: char, b: char)
    requires !HexDigit(a)
    ensures IsNumberOf(Strtol([a, b], 16), a, b)
  {
    var s := [a, b];
    OneCharacter(b);
    assert s[1..] == [b] && s[2..] == [] && s[0..] == s && [b][0..] == [b] && [b][0..0 + 1] == [b];
    assert SpaceRun([b]) == if IsSpace(b) then 1 else 0;
    assert SpaceRun(s) == if IsSpace(a) then 1 + SpaceRun([b]) else 0;
    assert DigitRun(s, 16) == 0;
  }

  lemma OneCharacter(b: char)
    ensures DigitRun([b], 16) == if HexDigit(b) then 1 else 0
    ensures DigitsValue([b], 16) == DigitValue(b)
  {
    assert [b][1..] == [] && [b][..0] == [];
  }

  // ----- comments after the flags -----

  /** A comment after the flags of a printed line, as in sample.kmap, is cut off, bars in it and all. */
  lemma CommentIsCut(e: Entry, width: nat, gap: string, comment: string, end: string)
    requires Tidy(e.description) && e.description != []
    requires !(|e.description| >= 2 && e.description[0] == '/' && e.description[1] == '/')
    requires Blank(gap) && Blank(end) && IsTrimmed(comment)
    requires comment != [] && (comment[0] == '#' || comment[0] == '/')
    ensures ParseLine(PrintLine(e, width) + gap + comment + end) == Some(Printed(e))
  {
    var raw, f := PrintLine(e, width) + gap + comment + end, LastField(e.flags) + gap;
    CommentedLine(e, width, gap, comment, end);
    FlagsField(e.flags, gap);
    DescriptionTrims(e, width);
    FieldsArePlain(e, width);
    var n := LastToken(f, comment);
    FieldTokens(DescField(e, width), HexField(e), Field(e.scan), Field(e.ascii), f, comment, n);
    TokensRead(raw, DescField(e, width), HexField(e), Field(e.scan), Field(e.ascii), (f + comment)[..n], f);
    LastFieldRead(e.flags);
    FieldsRead(e, e.description);
  }

  lemma FieldsArePlain(e: Entry, width: nat)
    requires Tidy(e.description)
    ensures IsField(DescField(e, width)) && IsField(HexField(e)) && IsField(Field(e.scan)) && IsField(Field(e.ascii))
  {
    DescriptionTrims(e, width);
    FormattedIsPlain(e.sequence);
    FieldIsToken(e.scan);
    FieldIsToken(e.ascii);
  }

  lemma FlagsField(b: byte, gap: string)
    requires Blank(gap)
    ensures var f := LastField(b) + gap;
            NoBar(f) && '#' !in f && '/' !in f && f != [] && f[0] != BAR && Trimmed(f) == HexByte(b)
  {
    FieldIsToken(b);
    ByteRoundTrip(b);
    assert '#' !in LastField(b) && '/' !in LastField(b);
    assert '#' !in gap && '/' !in gap;
    TrimCore([' '], HexByte(b), gap);
  }

  lemma CommentedLine(e: Entry, width: nat, gap: string, comment: string, end: string)
    requires e.description != [] && !IsComment(e.description) && !IsSpace(e.description[0])
    requires IsTrimmed(comment) && comment != [] && Blank(end)
    ensures var line := DescField(e, width) + ([BAR] + (HexField(e) + ([BAR] + (Field(e.scan) + ([BAR]
                        + (Field(e.ascii) + ([BAR] + ((LastField(e.flags) + gap) + comment))))))));
            Trimmed(PrintLine(e, width) + gap + comment + end) == line && !IsComment(line)
  {
    LineShape(e, width);
    LastParts(DescField(e, width), HexField(e), Field(e.scan), Field(e.ascii), LastField(e.flags), gap, comment);
    CommentSeen(e, width);
    BothEnds(DescField(e, width), Rest(e), gap, comment, end);
  }

  lemma BothEnds(d: string, rest: string, gap: string, comment: string, end: string)
    requires |d| >= 2 && !IsSpace(d[0]) && IsTrimmed(comment) && comment != [] && Blank(end)
    ensures var line := d + rest + gap + comment; Trimmed(line + end) == line && (IsComment(line) <==> IsComment(d))
    ensures IsComment(d + rest) <==> IsComment(d)
  {
    var line := d + rest + gap + comment;
    assert line[0] == d[0] && line[1] == d[1];
    assert line[|line| - 1] == comment[|comment| - 1];
    TrimCore([], line, end);
    assert [] + line + end == line + end;
  }

  lemma LastParts(d: string, q: string, s: string, a: string, f: string, gap: string, comment: string)
    ensures (d + ([BAR] + (q + ([BAR] + (s + ([BAR] + (a + ([BAR] + (f + []))))))))) + gap + comment
            == d + ([BAR] + (q + ([BAR] + (s + ([BAR] + (a + ([BAR] + ((f + gap) + comment))))))))
  {
  }

  // ----- lines of src/tools -----

  /** The slash key of xterm.kmap, whose line begins with one slash: how it is printed, and that it is read. */
  lemma SlashKey()
    ensures var e := Entry("/", [0x2f], 0x35, 0x2f, 0);
            var line := ("/" + Spaces(15)) + " | " + ("\\x2f" + Spaces(21)) + " | "
                        + "0x35" + " | " + "0x2F" + " | " + "0x00";
            PrintLine(e, 16) == line && ParseLine(line + ['\n']) == Some(e)
  {
    var e := Entry("/", [0x2f], 0x35, 0x2f, 0);
    SlashFields(e);
    OneSlashSurvives(e, 16, ['\n']);
  }

  lemma SlashFields(e: Entry)
    requires e == Entry("/", [0x2f], 0x35, 0x2f, 0)
    ensures Padded(e.description, 16) == "/" + Spaces(15)
    ensures Padded(FormatHex(e.sequence, SEQ_HEX_BUF), 25) == "\\x2f" + Spaces(21)
    ensures HexByte(e.scan) == "0x35" && HexByte(e.ascii) == "0x2F" && HexByte(e.flags) == "0x00"
  {
    SlashHex(e.sequence);
    SlashNumbers();
  }

  lemma SlashHex(q: seq<byte>)
    requires q == [0x2f]
    ensures FormatHex(q, SEQ_HEX_BUF) == "\\x2f"
  {
    OneByteShown(q);
    OneByteText(0x2f);
    SlashGroup();
  }

  lemma OneByteShown(q: seq<byte>)
    requires |q| == 1
    ensures FormatHex(q, SEQ_HEX_BUF) == HexText(q)
  {
    assert q[..1] == q;
  }

  lemma SlashGroup()
    ensures HexGroup(0x2f) == "\\x2f"
  {
    assert LowerHex(2) == '2' && LowerHex(15) == 'f';
  }

  lemma SlashNumbers()
    ensures HexByte(0x35) == "0x35" && HexByte(0x2f) == "0x2F" && HexByte(0) == "0x00"
  {
  }

  /** One slash at the beginning of a description is no comment. */
  lemma OneSlashSurvives(e: Entry, width: nat, nl: string)
    requires Tidy(e.description) && e.description != [] && e.description[0] == '/' && |e.sequence| <= 127 && Blank(nl)
    requires |e.description| == 1 || e.description[1] != '/'
    ensures ParseLine(PrintLine(e, width) + nl) == Some(e)
  {
    LineRoundTrip(e, width, nl);
  }

  lemma OneByteText(b: byte)
    ensures HexText([b]) == HexGroup(b)
  {
    var one: seq<byte> := [b];
    assert one[..0] == [];
    assert [] + HexGroup(b) == HexGroup(b);
  }
}
