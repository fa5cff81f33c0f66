/** Whole keymap files: `keymap_load` and `keymap_save` of src/client/keymaplib.c as functions on text,
    and exactly when saving and loading undo each other. */
module KeymapFile {
  import opened Wire
  import opened KeymapText

  datatype Entry = Entry(description: string, sequence: seq<byte>, scan: byte, ascii: byte, flags: byte)

  const LINE_BUFFER := 1024
  const SEQ_HEX_BUF := 512

  // ----- reading -----

  function CutAt(s: string, c: char): string {
    s[..IndexOf(s, c)]
  }

  predicate IsComment(line: string) {
    |line| >= 2 && line[0] == '/' && line[1] == '/'
  }

  /** The fields of an entry, already separated and trimmed. */
  function ParseFields(desc: string, hex: string, scan: string, ascii: string, flags: string): Option<Entry> {
    var q, s, a, f := ParseHex(hex), ParseByte(scan), ParseByte(ascii), ParseByte(flags);
    if q.Some? && s.Some? && a.Some? && f.Some?
    then Some(Entry(desc, q.value, s.value, a.value, f.value)) else None
  }

  /** What one line of the file contributes. */
  function ParseLine(raw: string): Option<Entry> {
    var line := Trimmed(raw);
    if IsComment(line) || line == [] then None
    else
      var t := Tokens(line);
      if |t| < 5 then None
      else ParseFields(Trimmed(t[0]), Trimmed(t[1]), Trimmed(t[2]), Trimmed(t[3]),
                       Trimmed(CutAt(CutAt(t[4], '#'), '/')))
  }

  /** How much one `fgets` takes: through the next newline, or as much as the buffer holds. */
  function ChunkLength(file: string): (n: nat)
    requires file != []
    ensures 1 <= n <= |file| && n < LINE_BUFFER
  {
    var n := IndexOf(file, '\n');
    var wanted := if n < |file| then n + 1 else |file|;
    if wanted < LINE_BUFFER then wanted else LINE_BUFFER - 1
  }

  function Lines(file: string): seq<string>
    decreases |file|
  {
    if file == [] then [] else [file[..ChunkLength(file)]] + Lines(file[ChunkLength(file)..])
  }

  function OptionToSeq(o: Option<Entry>): seq<Entry> {
    if o.Some? then [o.value] else []
  }

  function ParseLines(lines: seq<string>): seq<Entry> {
    if lines == [] then [] else OptionToSeq(ParseLine(lines[0])) + ParseLines(lines[1..])
  }

  /** The entries of a file, in its order. */
  function ParseFile(file: string): seq<Entry> {
    ParseLines(Lines(file))
  }

  // ----- writing -----

  function Spaces(n: nat): (s: string)
    ensures |s| == n && Blank(s) && NoBar(s)
  {
    seq(n, _ => ' ')
  }

  /** `%-*s` */
  function Padded(s: string, width: nat): string {
    if |s| < width then s + Spaces(width - |s|) else s
  }

  /** `0x%02X` */
  function HexByte(b: byte): (s: string)
    ensures |s| == 4
  {
    ['0', 'x', UpperHex(b / 16), UpperHex(b % 16)]
  }

  /** A line without its newline. */
  function PrintLine(e: Entry, width: nat): string {
    Padded(e.description, width) + " | " + Padded(FormatHex(e.sequence, SEQ_HEX_BUF), 25) + " | "
    + HexByte(e.scan) + " | " + HexByte(e.ascii) + " | " + HexByte(e.flags)
  }

  function MaxDescription(es: seq<Entry>): (w: nat)
    ensures forall i :: 0 <= i < |es| ==> |es[i].description| <= w
  {
    if es == [] then 0
    else
      var w := MaxDescription(es[..|es| - 1]);
      if |es[|es| - 1].description| > w then |es[|es| - 1].description| else w
  }

  function Width(es: seq<Entry>): nat {
    if MaxDescription(es) < 10 then 10 else MaxDescription(es)
  }

  function PrintLines(es: seq<Entry>, width: nat): string {
    if es == [] then [] else PrintLine(es[0], width) + ['\n'] + PrintLines(es[1..], width)
  }

  const HEADER_1: string := "// Key Map File"
  const FORMAT_1: string := "// Format: Description | Sequence "
  const FORMAT_2: string := "(Hex) | Scan (Hex) | ASCII "
  const FORMAT_3: string := "(Hex) | Flags (Hex)"
  const HEADER_2: string := FORMAT_1 + (FORMAT_2 + FORMAT_3)
  const HEADER_3: string := "//"

  /** The text of the file that a list of entries is saved to. */
  function SaveText(es: seq<Entry>): string {
    HEADER_1 + ['\n'] + (HEADER_2 + ['\n'] + (HEADER_3 + ['\n'] + PrintLines(es, Width(es))))
  }

  /** Three comment lines, and then one line after another for the entries. */
  lemma SavedText(es: seq<Entry>)
    ensures SaveText(es) ==
            "// Key Map File\n" + ("// Format: Description | Sequence " + ("(Hex) | Scan (Hex) | ASCII "
            + ("(Hex) | Flags (Hex)\n" + ("//\n" + PrintLines(es, Width(es))))))
  {
    WithNewlines();
    FiveStrings(HEADER_1, FORMAT_1, FORMAT_2, FORMAT_3, HEADER_3, PrintLines(es, Width(es)));
  }

  lemma WithNewlines()
    ensures HEADER_1 + ['\n'] == "// Key Map File\n" && FORMAT_3 + ['\n'] == "(Hex) | Flags (Hex)\n"
    ensures HEADER_3 + ['\n'] == "//\n"
  {
  }

  lemma FiveStrings(h: string, a: string, b: string, c: string, z: string, rest: string)
    ensures h + ['\n'] + (a + (b + c) + ['\n'] + (z + ['\n'] + rest))
            == h + ['\n'] + (a + (b + (c + ['\n'] + (z + ['\n'] + rest))))
  {
  }

  // ----- one line -----

  /** A description as loading leaves it, on one line of text. */
  predicate Plain(e: Entry) {
    Tidy(e.description) && forall i :: 0 <= i < |e.description| ==> e.description[i] != '\n'
  }

  predicate Tidy(d: string) {
    IsTrimmed(d) && NoBar(d)
  }

  /** What it takes, besides, for an entry to survive. */
  predicate Survives(e: Entry) {
    && e.description != [] && !(|e.description| >= 2 && e.description[0] == '/' && e.description[1] == '/')
    && |e.sequence| <= 127
  }

  lemma ByteRoundTrip(b: byte)
    ensures ParseByte(HexByte(b)) == Some(b)
    ensures IsTrimmed(HexByte(b)) && NoBar(HexByte(b))
  {
    var s := HexByte(b);
    var hi, lo := UpperHex(b / 16), UpperHex(b % 16);
    assert SpaceRun(s) == 0 && s[0..] == s && HexPrefixed(s);
    assert s[2..] == [hi, lo] + [];
    RunOfTwo(hi, lo, []);
    assert s[2..2 + 2] == [hi, lo];
    assert 16 * (b / 16) + b % 16 == b;
    assert Strtol(s, 0) == Number(b, 4);
  }

  /** A number field between its bars. */
  function Field(b: byte): (s: string)
    ensures |s| == 6
  {
    [' '] + HexByte(b) + [' ']
  }

  function LastField(b: byte): (s: string)
    ensures |s| == 5
  {
    [' '] + HexByte(b)
  }

  function HexField(e: Entry): string {
    [' '] + Padded(FormatHex(e.sequence, SEQ_HEX_BUF), 25) + [' ']
  }

  function DescField(e: Entry, width: nat): string {
    Padded(e.description, width) + [' ']
  }

  /** A line after its description, and after its sequence. */
  function Rest(e: Entry): string {
    [BAR] + (HexField(e) + Tail(e))
  }

  function Tail(e: Entry): string {
    [BAR] + (Field(e.scan) + ([BAR] + (Field(e.ascii) + ([BAR] + (LastField(e.flags) + [])))))
  }

  lemma LineShape(e: Entry, width: nat)
    ensures PrintLine(e, width) == DescField(e, width) + Rest(e)
  {
    var d, h := Padded(e.description, width), Padded(FormatHex(e.sequence, SEQ_HEX_BUF), 25);
    var a, b, c := HexByte(e.scan), HexByte(e.ascii), HexByte(e.flags);
    var sep := [' ', BAR, ' '];
    assert " | " == sep;
    Regroup(d, h, a, b, c, sep);
  }

  lemma Regroup(d: string, h: string, a: string, b: string, c: string, sep: string)
    requires sep == [' ', BAR, ' ']
    ensures d + sep + h + sep + a + sep + b + sep + c
            == (d + [' ']) + ([BAR] + (([' '] + h + [' ']) + ([BAR] + (([' '] + a + [' '])
               + ([BAR] + (([' '] + b + [' ']) + ([BAR] + (([' '] + c) + []))))))))
  {
    assert sep == [' '] + [BAR] + [' '];
  }

  lemma BarThenToken(a: string, rest: string)
    requires a != [] && NoBar(a) && (rest != [] ==> rest[0] == BAR)
    ensures Tokens([BAR] + (a + rest)) == [a] + Tokens(rest)
  {
    assert ([BAR] + (a + rest))[1..] == a + rest;
    FirstToken(a, rest);
  }

  lemma TailTokenizes(e: Entry)
    ensures Tokens(Tail(e)) == [Field(e.scan), Field(e.ascii), LastField(e.flags)]
  {
    FieldIsToken(e.scan);
    FieldIsToken(e.ascii);
    FieldIsToken(e.flags);
    var t3 := [BAR] + (LastField(e.flags) + []);
    var t2 := [BAR] + (Field(e.ascii) + t3);
    BarThenToken(LastField(e.flags), []);
    BarThenToken(Field(e.ascii), t3);
    BarThenToken(Field(e.scan), t2);
  }

  lemma FieldIsToken(b: byte)
    ensures NoBar(Field(b)) && NoBar(LastField(b))
  {
    ByteRoundTrip(b);
  }

  lemma RestTokenizes(e: Entry)
    ensures Tokens(Rest(e)) == [HexField(e), Field(e.scan), Field(e.ascii), LastField(e.flags)]
  {
    FormattedIsPlain(e.sequence);
    TailTokenizes(e);
    BarThenToken(HexField(e), Tail(e));
  }

  /** The entry with as much of its sequence as the print buffer holds. */
  function Printed(e: Entry): Entry {
    e.(sequence := e.sequence[..Shown(|e.sequence|, SEQ_HEX_BUF)])
  }

  lemma FieldsRead(e: Entry, desc: string)
    ensures ParseFields(desc, Trimmed(HexField(e)), Trimmed(Field(e.scan)), Trimmed(Field(e.ascii)),
                        Trimmed(CutAt(CutAt(LastField(e.flags), '#'), '/')))
            == Some(Printed(e).(description := desc))
  {
    ByteRoundTrip(e.scan);
    ByteRoundTrip(e.ascii);
    ByteRoundTrip(e.flags);
    TrimCore([' '], HexByte(e.scan), [' ']);
    TrimCore([' '], HexByte(e.ascii), [' ']);
    LastFieldRead(e.flags);
    FormattedIsPlain(e.sequence);
    PaddedTrims(FormatHex(e.sequence, SEQ_HEX_BUF), 25, [' '], [' ']);
    FormatRoundTrip(e.sequence, SEQ_HEX_BUF);
  }

  lemma LastFieldRead(b: byte)
    ensures Trimmed(CutAt(CutAt(LastField(b), '#'), '/')) == HexByte(b)
  {
    var c := LastField(b);
    ByteRoundTrip(b);
    IndexOfIs(c, '#', |c|);
    IndexOfIs(c, '/', |c|);
    assert c[..|c|] == c;
    TrimCore([' '], HexByte(b), []);
    assert c + [] == c;
  }

  lemma PaddedTrims(s: string, width: nat, a: string, b: string)
    requires IsTrimmed(s) && Blank(a) && Blank(b)
    ensures Trimmed(a + Padded(s, width) + b) == s
  {
    if |s| < width {
      assert a + Padded(s, width) + b == a + s + (Spaces(width - |s|) + b);
      TrimCore(a, s, Spaces(width - |s|) + b);
    } else {
      TrimCore(a, s, b);
    }
  }

  lemma FormattedIsPlain(bs: seq<byte>)
    ensures PlainHex(FormatHex(bs, SEQ_HEX_BUF)) && IsTrimmed(FormatHex(bs, SEQ_HEX_BUF))
  {
    HexTextPlain(bs[..Shown(|bs|, SEQ_HEX_BUF)]);
  }

  /** The end of a printed line is a digit, so trimming takes the newline and nothing else off it. */
  lemma RestEnds(e: Entry)
    ensures Rest(e)[0] == BAR && !IsSpace(Rest(e)[|Rest(e)| - 1])
  {
    var t := Rest(e);
    assert t[|t| - 1] == HexByte(e.flags)[3];
  }

  lemma LineTrims(lead: string, s: string, e: Entry, nl: string)
    requires Blank(lead) && Blank(nl) && (s != [] ==> !IsSpace(s[0]))
    ensures Trimmed(lead + (s + Rest(e)) + nl) == s + Rest(e)
  {
    RestEnds(e);
    var t := s + Rest(e);
    assert t[|t| - 1] == Rest(e)[|Rest(e)| - 1];
    assert t[0] == if s == [] then BAR else s[0];
    TrimCore(lead, t, nl);
  }

  /** What the reader makes of a line that begins with these tokens. */
  lemma LineWithDescription(d: string, e: Entry, raw: string)
    requires Trimmed(raw) == d + Rest(e) && d != [] && !IsComment(d + Rest(e))
    requires Tokens(d + Rest(e)) == [d] + Tokens(Rest(e))
    ensures ParseLine(raw) == Some(Printed(e).(description := Trimmed(d)))
  {
    RestTokenizes(e);
    FieldsRead(e, Trimmed(d));
  }

  /** A printed line whose description is there and is no comment reads back as the entry, but for the
      bytes of the sequence that did not fit the print buffer. */
  lemma GoodLineReads(e: Entry, width: nat, nl: string)
    requires Tidy(e.description) && e.description != [] && !IsComment(e.description) && Blank(nl)
    ensures ParseLine(PrintLine(e, width) + nl) == Some(Printed(e))
  {
    var d := DescField(e, width);
    PrintedTrims(e, width, nl);
    DescriptionToken(e, width);
    LineWithDescription(d, e, PrintLine(e, width) + nl);
  }

  lemma PrintedTrims(e: Entry, width: nat, nl: string)
    requires Tidy(e.description) && e.description != [] && Blank(nl)
    ensures Trimmed(PrintLine(e, width) + nl) == DescField(e, width) + Rest(e)
    ensures IsComment(DescField(e, width) + Rest(e)) <==> IsComment(e.description)
  {
    var d := DescField(e, width);
    LineShape(e, width);
    CommentSeen(e, width);
    LineTrims([], d, e, nl);
    NoLead(d + Rest(e), nl);
  }

  lemma NoLead(s: string, nl: string)
    ensures [] + s + nl == s + nl
  {
  }

  lemma CommentSeen(e: Entry, width: nat)
    requires e.description != []
    ensures DescField(e, width)[0] == e.description[0]
    ensures IsComment(DescField(e, width) + Rest(e)) <==> IsComment(e.description)
  {
    var d := DescField(e, width);
    assert d[0] == e.description[0] && d[1] == if |e.description| >= 2 then e.description[1] else ' ';
    assert (d + Rest(e))[0] == d[0] && (d + Rest(e))[1] == d[1];
  }

  lemma DescriptionToken(e: Entry, width: nat)
    requires Tidy(e.description)
    ensures Tokens(DescField(e, width) + Rest(e)) == [DescField(e, width)] + Tokens(Rest(e))
    ensures Trimmed(DescField(e, width)) == e.description
  {
    var d := DescField(e, width);
    DescriptionTrims(e, width);
    FirstToken(d, Rest(e));
  }

  lemma DescriptionTrims(e: Entry, width: nat)
    requires Tidy(e.description)
    ensures Trimmed(DescField(e, width)) == e.description && NoBar(DescField(e, width))
  {
    PaddedTrims(e.description, width, [], [' ']);
    assert [] + Padded(e.description, width) + [' '] == DescField(e, width);
  }

  /** A description that looks like a comment makes its line one. */
  lemma CommentLineLost(e: Entry, width: nat, nl: string)
    requires Tidy(e.description) && IsComment(e.description) && Blank(nl)
    ensures ParseLine(PrintLine(e, width) + nl) == None
  {
    PrintedTrims(e, width, nl);
  }

  /** With no description the line begins with a bar, and the fields no longer add up to five. */
  lemma EmptyDescriptionLost(e: Entry, width: nat, nl: string)
    requires e.description == [] && Blank(nl)
    ensures ParseLine(PrintLine(e, width) + nl) == None
  {
    BareTrims(e, width, nl);
    RestTokenizes(e);
  }

  lemma BareTrims(e: Entry, width: nat, nl: string)
    requires e.description == [] && Blank(nl)
    ensures Trimmed(PrintLine(e, width) + nl) == Rest(e)
  {
    var d := DescField(e, width);
    LineShape(e, width);
    LineTrims(d, [], e, nl);
    assert [] + Rest(e) == Rest(e);
    assert d + ([] + Rest(e)) + nl == PrintLine(e, width) + nl;
  }

  lemma FitsIff(e: Entry)
    ensures Printed(e) == e <==> |e.sequence| <= 127
  {
    var n := Shown(|e.sequence|, SEQ_HEX_BUF);
    assert n == |e.sequence| <==> |e.sequence| <= 127;
    assert |e.sequence[..n]| == n;
    if n == |e.sequence| {
      assert e.sequence[..n] == e.sequence;
    }
  }

  /** A printed line reads back as its entry exactly when the entry has a trimmed description without
      a bar that is there and is no comment, and a sequence that fits. */
  lemma LineRoundTrip(e: Entry, width: nat, nl: string)
    requires Blank(nl)
    ensures ParseLine(PrintLine(e, width) + nl) == Some(e) <==>
            && Tidy(e.description) && e.description != []
            && !(|e.description| >= 2 && e.description[0] == '/' && e.description[1] == '/')
            && |e.sequence| <= 127
  {
    if !Tidy(e.description) {
      LoadedIsTidy(PrintLine(e, width) + nl);
    } else if e.description == [] {
      EmptyDescriptionLost(e, width, nl);
    } else if IsComment(e.description) {
      CommentLineLost(e, width, nl);
    } else {
      GoodLineReads(e, width, nl);
      FitsIff(e);
    }
  }

  /** Loading can itself produce an entry that saving loses: a line whose first field is blank is read
      as an entry without a description. */
  lemma BlankFieldLoads(e: Entry, nl: string)
    requires Blank(nl)
    ensures ParseLine([BAR, ' '] + Rest(e) + nl) == Some(Printed(e).(description := []))
    ensures !Survives(Printed(e).(description := []))
  {
    BlankLineTrims(e, nl);
    BarThenToken([' '], Rest(e));
    BlankLine(e, [BAR, ' '] + Rest(e) + nl);
  }

  lemma BlankLineTrims(e: Entry, nl: string)
    requires Blank(nl)
    ensures Trimmed([BAR, ' '] + Rest(e) + nl) == [BAR] + ([' '] + Rest(e))
    ensures !IsComment([BAR] + ([' '] + Rest(e)))
  {
    LineTrims([], [BAR, ' '], e, nl);
    BlankLineParts(Rest(e), nl);
    assert ([BAR] + ([' '] + Rest(e)))[0] == BAR;
  }

  lemma BlankLineParts(rest: string, nl: string)
    ensures [] + ([BAR, ' '] + rest) + nl == [BAR, ' '] + rest + nl
    ensures [BAR, ' '] + rest == [BAR] + ([' '] + rest)
  {
  }

  lemma LoneBlank()
    ensures Trimmed([' ']) == []
  {
    TrimCore([' '], [], []);
    assert [' '] + [] + [] == [' '];
  }

  lemma BlankLine(e: Entry, raw: string)
    requires Tokens(Trimmed(raw)) == [[' ']] + Tokens(Rest(e)) && !IsComment(Trimmed(raw)) && Trimmed(raw) != []
    ensures ParseLine(raw) == Some(Printed(e).(description := []))
  {
    RestTokenizes(e);
    FieldsRead(e, []);
    LoneBlank();
  }

  // ----- whole files -----

  predicate OneLine(s: string) {
    |s| < 1024 && forall i :: 0 <= i < |s| ==> s[i] != '\n'
  }

  lemma FirstOfFile(file: string)
    requires file != []
    ensures var n := ChunkLength(file);
            ParseFile(file) == OptionToSeq(ParseLine(file[..n])) + ParseFile(file[n..])
  {
    assert Lines(file)[1..] == Lines(file[ChunkLength(file)..]);
  }

  /** A line that fits the buffer is read as such, with its newline or, if that does not fit, without. */
  lemma FirstLine(s: string, rest: string)
    requires OneLine(s)
    ensures ParseFile(s + ['\n'] + rest) == OptionToSeq(ParseLine(s + ['\n'])) + ParseFile(rest)
  {
    var n := FirstChunk(s, rest);
    FirstOfFile(s + ['\n'] + rest);
    if n == |s| {
      BlankTrims(s, '\n');
      LoneNewline(rest);
    }
  }

  lemma FirstChunk(s: string, rest: string) returns (n: nat)
    requires OneLine(s)
    ensures var file := s + ['\n'] + rest;
            && n == ChunkLength(file) && |s| <= n <= |s| + 1
            && (n == |s| ==> file[..n] == s && file[n..] == ['\n'] + rest)
            && (n == |s| + 1 ==> file[..n] == s + ['\n'] && file[n..] == rest)
  {
    var file := s + ['\n'] + rest;
    assert file[|s|] == '\n' && forall i :: 0 <= i < |s| ==> file[i] == s[i];
    IndexOfIs(file, '\n', |s|);
    n := ChunkLength(file);
  }

  /** A longer line is read in pieces of 1023 characters, each as a line of its own. */
  lemma LongLineInPieces(file: string)
    requires |file| >= 1024 && forall i :: 0 <= i < 1023 ==> file[i] != '\n'
    ensures ParseFile(file) == OptionToSeq(ParseLine(file[..1023])) + ParseFile(file[1023..])
  {
    assert ChunkLength(file) == 1023;
    FirstOfFile(file);
  }

  lemma LoneNewline(rest: string)
    ensures ParseFile(['\n'] + rest) == ParseFile(rest)
  {
    var file := ['\n'] + rest;
    FirstOfFile(file);
    assert file[..1] == ['\n'] && file[1..] == rest;
    BlankTrims([], '\n');
    assert [] + ['\n'] == ['\n'];
  }

  /** Every printed line fits the line buffer. */
  predicate LinesFit(es: seq<Entry>, width: nat) {
    forall i :: 0 <= i < |es| ==> |PrintLine(es[i], width)| < 1024
  }

  predicate AllPlain(es: seq<Entry>) {
    forall i :: 0 <= i < |es| ==> Plain(es[i])
  }

  lemma PrintedIsOneLine(e: Entry, width: nat)
    requires Plain(e) && |PrintLine(e, width)| < 1024
    ensures OneLine(PrintLine(e, width))
  {
    FormattedIsPlain(e.sequence);
    NoNewline(e, width);
  }

  lemma NoNewline(e: Entry, width: nat)
    requires Plain(e) && PlainHex(FormatHex(e.sequence, SEQ_HEX_BUF))
    ensures '\n' !in PrintLine(e, width)
  {
    assert '\n' !in Padded(e.description, width);
    assert '\n' !in Padded(FormatHex(e.sequence, SEQ_HEX_BUF), 25);
    assert '\n' !in HexByte(e.scan) && '\n' !in HexByte(e.ascii) && '\n' !in HexByte(e.flags);
  }

  function LinesOf(es: seq<Entry>, width: nat): seq<string> {
    if es == [] then [] else [PrintLine(es[0], width) + ['\n']] + LinesOf(es[1..], width)
  }

  lemma {:induction false} PrintedLines(es: seq<Entry>, width: nat)
    requires AllPlain(es) && LinesFit(es, width)
    ensures ParseFile(PrintLines(es, width)) == ParseLines(LinesOf(es, width))
  {
    if es != [] {
      PrintedIsOneLine(es[0], width);
      FirstLine(PrintLine(es[0], width), PrintLines(es[1..], width));
      PrintedLines(es[1..], width);
      assert LinesOf(es, width)[1..] == LinesOf(es[1..], width);
    }
  }

  lemma {:induction false} AtMostOneEach(es: seq<Entry>, width: nat)
    ensures |ParseLines(LinesOf(es, width))| <= |es|
  {
    if es != [] {
      AtMostOneEach(es[1..], width);
      assert LinesOf(es, width)[1..] == LinesOf(es[1..], width);
    }
  }

  lemma OneEachOrNone(first: seq<Entry>, others: seq<Entry>, e: Entry, rest: seq<Entry>)
    requires |first| <= 1 && |others| <= |rest|
    ensures first + others == [e] + rest <==> first == [e] && others == rest
  {
    if first + others == [e] + rest {
      assert |first| == 1;
      assert first[0] == (first + others)[0];
      assert others == (first + others)[1..] && rest == ([e] + rest)[1..];
    }
  }

  predicate AllSurvive(es: seq<Entry>) {
    forall i :: 0 <= i < |es| ==> Survives(es[i])
  }

  lemma {:induction false} LinesRoundTrip(es: seq<Entry>, width: nat)
    requires AllPlain(es)
    ensures ParseLines(LinesOf(es, width)) == es <==> AllSurvive(es)
  {
    if es != [] {
      var rest := es[1..];
      LinesRoundTrip(rest, width);
      AtMostOneEach(rest, width);
      LineRoundTrip(es[0], width, ['\n']);
      assert LinesOf(es, width)[1..] == LinesOf(rest, width);
      OneEachOrNone(OptionToSeq(ParseLine(PrintLine(es[0], width) + ['\n'])), ParseLines(LinesOf(rest, width)),
                    es[0], rest);
      assert es == [es[0]] + rest;
      SurviveSplit(es);
    }
  }

  lemma SurviveSplit(es: seq<Entry>)
    requires es != []
    ensures AllSurvive(es) <==> Survives(es[0]) && AllSurvive(es[1..])
  {
    assert forall i :: 0 < i < |es| ==> es[i] == es[1..][i - 1];
  }

  lemma CommentSkipped(s: string)
    requires IsComment(s) && IsTrimmed(s)
    ensures ParseLine(s + ['\n']) == None
  {
    TrimCore([], s, ['\n']);
    assert [] + s + ['\n'] == s + ['\n'];
  }

  lemma HeaderLines()
    ensures IsComment(HEADER_1) && IsTrimmed(HEADER_1) && OneLine(HEADER_1)
    ensures IsComment(HEADER_2) && IsTrimmed(HEADER_2) && OneLine(HEADER_2)
    ensures IsComment(HEADER_3) && IsTrimmed(HEADER_3) && OneLine(HEADER_3)
  {
    FormatLine(FORMAT_1, FORMAT_2, FORMAT_3);
  }

  lemma FormatLine(a: string, b: string, c: string)
    requires a == FORMAT_1 && b == FORMAT_2 && c == FORMAT_3
    ensures OneLine(a + (b + c)) && IsComment(a + (b + c)) && IsTrimmed(a + (b + c))
  {
    assert '\n' !in a && '\n' !in b && '\n' !in c;
    JoinedLines(b, c);
    JoinedLines(a, b + c);
    assert a[0] == '/' && a[1] == '/' && c[|c| - 1] == ')';
    assert (a + (b + c))[|a + (b + c)| - 1] == c[|c| - 1];
  }

  lemma JoinedLines(a: string, b: string)
    requires '\n' !in a && '\n' !in b
    ensures '\n' !in a + b
  {
  }

  /** The three comment lines at the top of a saved file add no entry. */
  lemma HeaderSkipped(rest: string)
    ensures ParseFile(HEADER_1 + ['\n'] + (HEADER_2 + ['\n'] + (HEADER_3 + ['\n'] + rest))) == ParseFile(rest)
  {
    HeaderLines();
    CommentSkipped(HEADER_1);
    CommentSkipped(HEADER_2);
    CommentSkipped(HEADER_3);
    LineSkipped(HEADER_3, rest);
    LineSkipped(HEADER_2, HEADER_3 + ['\n'] + rest);
    LineSkipped(HEADER_1, HEADER_2 + ['\n'] + (HEADER_3 + ['\n'] + rest));
  }

  lemma LineSkipped(s: string, rest: string)
    requires OneLine(s) && ParseLine(s + ['\n']) == None
    ensures ParseFile(s + ['\n'] + rest) == ParseFile(rest)
  {
    FirstLine(s, rest);
  }

  /** Loading what was saved gives the same entries in the same order, exactly when every entry has a
      trimmed description on one line without a bar, not empty and no comment, and a sequence of at most
      127 bytes. */
  lemma SaveLoadRoundTrip(es: seq<Entry>)
    requires LinesFit(es, Width(es))
    ensures ParseFile(SaveText(es)) == es <==>
            && AllPlain(es)
            && forall i :: 0 <= i < |es| ==>
                 var d := es[i].description;
                 d != [] && !(|d| >= 2 && d[0] == '/' && d[1] == '/') && |es[i].sequence| <= 127
  {
    if AllPlain(es) {
      HeaderSkipped(PrintLines(es, Width(es)));
      PrintedLines(es, Width(es));
      LinesRoundTrip(es, Width(es));
    } else {
      ParsedFileIsPlain(SaveText(es));
    }
  }

  // ----- what loading leaves -----

  /** Trimming keeps a stretch of the string. */
  lemma {:induction false} TrimmedStretch(s: string) returns (a: nat, z: nat)
    ensures a <= z <= |s| && Trimmed(s) == s[a..z] && IsTrimmed(Trimmed(s))
  {
    a := StartStretch(s);
    var t := TrimStart(s);
    var n := EndStretch(t);
    z := a + n;
    assert s[a..][..n] == s[a..z];
  }

  lemma {:induction false} StartStretch(s: string) returns (a: nat)
    ensures a <= |s| && TrimStart(s) == s[a..] && (a < |s| ==> !IsSpace(s[a]))
  {
    if s != [] && IsSpace(s[0]) {
      a := StartStretch(s[1..]);
      a := a + 1;
    } else {
      a := 0;
    }
  }

  lemma {:induction false} EndStretch(s: string) returns (n: nat)
    ensures n <= |s| && TrimEnd(s) == s[..n] && (n > 0 ==> !IsSpace(s[n - 1]))
  {
    if s != [] && IsSpace(s[|s| - 1]) {
      n := EndStretch(s[..|s| - 1]);
      assert s[..|s| - 1][..n] == s[..n];
    } else {
      n := |s|;
      assert s[..n] == s;
    }
  }

  lemma {:induction false} TokensArePlain(s: string)
    ensures forall i :: 0 <= i < |Tokens(s)| ==> NoBar(Tokens(s)[i]) && forall c :: c in Tokens(s)[i] ==> c in s
    decreases |s|
  {
    if s != [] {
      if s[0] == BAR {
        TokensArePlain(s[1..]);
      } else {
        var n := IndexOf(s, BAR);
        TokensArePlain(s[n..]);
        assert Tokens(s) == [s[..n]] + Tokens(s[n..]);
        forall i | 0 <= i < |Tokens(s)| ensures NoBar(Tokens(s)[i]) && forall c :: c in Tokens(s)[i] ==> c in s {
          if i > 0 {
            assert Tokens(s)[i] == Tokens(s[n..])[i - 1];
          }
        }
      }
    }
  }

  /** A line as `fgets` hands it over has no newline but at its end. */
  predicate FromFgets(raw: string) {
    forall i :: 0 <= i < |raw| - 1 ==> raw[i] != '\n'
  }

  lemma LoadedIsTidy(raw: string)
    ensures ParseLine(raw).Some? ==> Tidy(ParseLine(raw).value.description)
  {
    if ParseLine(raw).Some? {
      TokensArePlain(Trimmed(raw));
      TrimmedIsTidy(Tokens(Trimmed(raw))[0]);
    }
  }

  lemma TrimmedIsTidy(t: string)
    requires NoBar(t)
    ensures Tidy(Trimmed(t)) && forall i :: 0 <= i < |Trimmed(t)| ==> Trimmed(t)[i] in t
  {
    var b, y := TrimmedStretch(t);
    forall i | 0 <= i < |Trimmed(t)| ensures Trimmed(t)[i] in t && Trimmed(t)[i] != BAR {
      assert Trimmed(t)[i] == t[b + i] && t[b + i] in t;
    }
  }

  /** Every entry that a line gives rise to has a trimmed description without a bar or a newline. */
  lemma LoadedIsPlain(raw: string)
    requires FromFgets(raw) && ParseLine(raw).Some?
    ensures Plain(ParseLine(raw).value)
  {
    var line := Trimmed(raw);
    LineOfFgets(raw);
    TokensArePlain(line);
    TrimmedIsTidy(Tokens(line)[0]);
  }

  lemma LineOfFgets(raw: string)
    requires FromFgets(raw)
    ensures '\n' !in Trimmed(raw)
  {
    var line := Trimmed(raw);
    var a, z := TrimmedStretch(raw);
    forall i | 0 <= i < |line| ensures line[i] != '\n' {
      assert line[i] == raw[a + i];
      assert i == |line| - 1 ==> !IsSpace(line[i]);
    }
  }

  lemma {:induction false} LinesAreFromFgets(file: string)
    ensures forall i :: 0 <= i < |Lines(file)| ==> FromFgets(Lines(file)[i])
    decreases |file|
  {
    if file != [] {
      LinesAreFromFgets(file[ChunkLength(file)..]);
    }
  }

  lemma {:induction false} ParsedLinesArePlain(lines: seq<string>)
    requires forall i :: 0 <= i < |lines| ==> FromFgets(lines[i])
    ensures AllPlain(ParseLines(lines))
  {
    if lines != [] {
      ParsedLinesArePlain(lines[1..]);
      if ParseLine(lines[0]).Some? {
        LoadedIsPlain(lines[0]);
      }
    }
  }

  lemma ParsedFileIsPlain(file: string)
    ensures AllPlain(ParseFile(file))
  {
    LinesAreFromFgets(file);
    ParsedLinesArePlain(Lines(file));
  }

  /** For every keymap that was loaded from a file, whatever the file: saving and loading it again gives
      it back exactly when all its entries have a description that is no comment and a sequence of at
      most 127 bytes (lines fitting the buffer). */
  lemma LoadedKeymapRoundTrip(file: string)
    requires LinesFit(ParseFile(file), Width(ParseFile(file)))
    ensures ParseFile(SaveText(ParseFile(file))) == ParseFile(file) <==> AllSurvive(ParseFile(file))
  {
    ParsedFileIsPlain(file);
    SaveLoadRoundTrip(ParseFile(file));
  }

  // ----- lines that do not fit -----

  /** What a line gives rise to has a description no longer than the line. */
  lemma DescriptionFits(raw: string)
    ensures ParseLine(raw).Some? ==> |ParseLine(raw).value.description| <= |raw|
  {
    if ParseLine(raw).Some? {
      var line := Trimmed(raw);
      var a, z := TrimmedStretch(raw);
      TokensFit(line);
      var b, y := TrimmedStretch(Tokens(line)[0]);
    }
  }

  lemma {:induction false} TokensFit(s: string)
    ensures forall i :: 0 <= i < |Tokens(s)| ==> |Tokens(s)[i]| <= |s|
    decreases |s|
  {
    if s != [] {
      if s[0] == BAR {
        TokensFit(s[1..]);
      } else {
        TokensFit(s[IndexOf(s, BAR)..]);
      }
    }
  }

  lemma {:induction false} LoadedDescriptionsFit(file: string)
    ensures forall i :: 0 <= i < |ParseFile(file)| ==> |ParseFile(file)[i].description| < LINE_BUFFER
    decreases |file|
  {
    if file != [] {
      FirstOfFile(file);
      DescriptionFits(file[..ChunkLength(file)]);
      LoadedDescriptionsFit(file[ChunkLength(file)..]);
    }
  }

  /** A description as long as the line buffer is lost, whatever else its entry holds. */
  lemma LongDescriptionLost(es: seq<Entry>, i: nat)
    requires i < |es| && |es[i].description| >= 1024
    ensures ParseFile(SaveText(es)) != es
  {
    LoadedDescriptionsFit(SaveText(es));
  }
}
