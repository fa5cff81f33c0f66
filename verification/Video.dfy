/** The text frame buffer and its checksum: src/lib16/video.s. */
module Video {
  import opened Wire

  /** One 64 KiB real-mode segment; the text buffer begins at offset 0. */
  type Segment = s: seq<byte> | |s| == 0x1_0000 witness seq(0x1_0000, _ => 0)

  function WordAt(fb: Segment, at: nat): word
    requires at < 0xffff
  {
    Load16(fb, at)
  }

  /** `words` words from `offset` on; the index register wraps at the end of the segment. */
  function SegmentWords(fb: Segment, offset: word, words: nat): (ws: seq<word>)
    requires offset % 2 == 0
    ensures |ws| == words
  {
    if words == 0 then []
    else SegmentWords(fb, offset, words - 1) + [WordAt(fb, Word(offset + 2 * (words - 1)))]
  }

  lemma {:induction false} SegmentWordAt(fb: Segment, offset: word, words: nat, i: nat)
    requires offset % 2 == 0 && i < words
    ensures Word(offset + 2 * i) < 0xffff && SegmentWords(fb, offset, words)[i] == WordAt(fb, Word(offset + 2 * i))
  {
    if i < words - 1 {
      SegmentWordAt(fb, offset, words - 1, i);
    }
  }

  // ----- the checksum -----

  /** `add dx, bx`, the carry lost. */
  function Add16(x: word, y: word): word {
    if x + y < 0x1_0000 then x + y else x + y - 0x1_0000
  }

  /** `rol dx, #1`: the top bit comes back in at the bottom. */
  function Rol1(x: word): word {
    if x < 0x8000 then 2 * x else 2 * x - 0x1_0000 + 1
  }

  function ChecksumStep(dx: word, w: word): word {
    Rol1(Add16(dx, Htons(w)))
  }

  function Checksum(ws: seq<word>): word {
    if ws == [] then 0 else ChecksumStep(Checksum(ws[..|ws| - 1]), ws[|ws| - 1])
  }

  /** `loop` counts CX down before it tests it, so a count of zero runs 65536 times. */
  function LoopCount(cx: word): nat {
    if cx == 0 then 0x1_0000 else cx
  }

  lemma {:induction false} IndexWraps(at: nat)
    requires at % 2 == 0
    ensures Word(at) < 0xffff && Word(at + 2) == Add16(Word(at), 2)
    decreases at
  {
    if at >= 0x1_0000 {
      IndexWraps(at - 0x1_0000);
    }
  }

  /** `video_checksum_frame_buffer` */
  method VideoChecksum(fb: Segment, offset: word, words: word) returns (dx: word)
    requires offset % 2 == 0
    ensures dx == Checksum(SegmentWords(fb, offset, if words == 0 then 65536 else words))
  {
    var cx, si, done := LoopCount(words), offset, 0;
    dx := 0;
    while cx > 0
      invariant done + cx == LoopCount(words)
      invariant si == Word(offset + 2 * done)
      invariant dx == Checksum(SegmentWords(fb, offset, done))
    {
      IndexWraps(offset + 2 * done);
      ghost var ws := SegmentWords(fb, offset, done + 1);
      assert ws[..done] == SegmentWords(fb, offset, done);
      var bx := Htons(WordAt(fb, si));
      dx := Rol1(Add16(dx, bx));
      si, cx, done := Add16(si, 2), cx - 1, done + 1;
    }
  }

  /** `video_copy_from_frame_buffer`, a word at a time. */
  method CopyFromFrameBuffer(dest: array<byte>, at: nat, fb: Segment, offset: word, words: word)
    requires offset + 2 * words <= 0x1_0000 && at + 2 * words <= dest.Length
    modifies dest
    ensures forall i :: 0 <= i < dest.Length ==>
      dest[i] == if at <= i < at + 2 * words then fb[offset + i - at] else old(dest[i])
    ensures dest[at..at + 2 * words] == fb[offset..offset + 2 * words]
  {
    for k := 0 to words
      invariant forall i :: 0 <= i < dest.Length ==>
        dest[i] == if at <= i < at + 2 * k then fb[offset + i - at] else old(dest[i])
    {
      dest[at + 2 * k] := fb[offset + 2 * k];
      dest[at + 2 * k + 1] := fb[offset + 2 * k + 1];
    }
  }

  lemma RolInjective(x: word, y: word)
    requires Rol1(x) == Rol1(y)
    ensures x == y
  {
  }

  lemma AddInjective(x: word, y: word, z: word)
    ensures Add16(x, z) == Add16(y, z) <==> x == y
    ensures Add16(z, x) == Add16(z, y) <==> x == y
  {
  }

  /** A step loses nothing of the accumulator and nothing of the word. */
  lemma StepInjective(dx: word, w: word, dx': word, w': word)
    ensures ChecksumStep(dx, w) == ChecksumStep(dx', w) <==> dx == dx'
    ensures ChecksumStep(dx, w) == ChecksumStep(dx, w') <==> w == w'
  {
    AddInjective(dx, dx', Htons(w));
    AddInjective(Htons(w), Htons(w'), dx);
    if ChecksumStep(dx, w) == ChecksumStep(dx', w) {
      RolInjective(Add16(dx, Htons(w)), Add16(dx', Htons(w)));
    }
    if ChecksumStep(dx, w) == ChecksumStep(dx, w') {
      RolInjective(Add16(dx, Htons(w)), Add16(dx, Htons(w')));
      HtonsInvolution(w);
      HtonsInvolution(w');
    }
  }

  /** The checksum of three given words: bytes swapped, carry lost, top bit back in at the bottom. */
  lemma ChecksumVector()
    ensures Checksum([0x0741, 0x0720]) == 0x442b && Checksum([0x0741, 0x0720, 0xffff]) == 0x8854
  {
    ChecksumOfTwo(0x0741, 0x0720);
    var three: seq<word> := [0x0741, 0x0720, 0xffff];
    assert three[..2] == [0x0741, 0x0720];
    assert ChecksumStep(0, 0x0741) == 0x820e;
    assert ChecksumStep(0x820e, 0x0720) == 0x442b;
    assert ChecksumStep(0x442b, 0xffff) == 0x8854;
  }

  predicate DifferInOneCell(ws: seq<word>, ws': seq<word>) {
    |ws| == |ws'| && exists i :: 0 <= i < |ws| && OnlyDifference(ws, ws', i)
  }

  predicate OnlyDifference(ws: seq<word>, ws': seq<word>, i: nat)
    requires i < |ws| == |ws'|
  {
    ws[i] != ws'[i] && forall j :: 0 <= j < |ws| && j != i ==> ws[j] == ws'[j]
  }

  /** Changing any single cell changes the checksum. */
  lemma {:induction false} OneCellChangesChecksum(ws: seq<word>, ws': seq<word>)
    requires DifferInOneCell(ws, ws')
    ensures Checksum(ws) != Checksum(ws')
  {
    var i :| 0 <= i < |ws| && OnlyDifference(ws, ws', i);
    var n := |ws| - 1;
    if i == n {
      assert ws[..n] == ws'[..n];
    } else {
      assert OnlyDifference(ws[..n], ws'[..n], i);
      OneCellChangesChecksum(ws[..n], ws'[..n]);
    }
    StepInjective(Checksum(ws[..n]), ws[n], Checksum(ws'[..n]), ws'[n]);
  }

  /** Two cells may change behind the checksum's back. */
  lemma TwoCellsMayCollide()
    ensures Checksum([0x0100, 0x0000]) == Checksum([0x0000, 0x0200])
  {
    ChecksumOfTwo(0x0100, 0x0000);
    ChecksumOfTwo(0x0000, 0x0200);
  }

  lemma ChecksumOfTwo(a: word, b: word)
    ensures Checksum([a, b]) == ChecksumStep(ChecksumStep(0, a), b)
  {
    var two, one: seq<word> := [a, b], [a];
    assert two[..1] == one && one[..0] == [];
    assert Checksum(one) == ChecksumStep(0, a);
  }

  /** What follows the same checksum keeps it the same. */
  lemma {:induction false} ChecksumTail(ws: seq<word>, ws': seq<word>, n: nat)
    requires n <= |ws| == |ws'| && Checksum(ws[..n]) == Checksum(ws'[..n])
    requires forall i :: n <= i < |ws| ==> ws[i] == ws'[i]
    ensures Checksum(ws) == Checksum(ws')
  {
    if n == |ws| {
      assert ws[..n] == ws && ws'[..n] == ws';
    } else {
      var m := |ws| - 1;
      assert ws[..m][..n] == ws[..n] && ws'[..m][..n] == ws'[..n];
      ChecksumTail(ws[..m], ws'[..m], n);
    }
  }

  lemma {:induction false} ChecksumOfZeros(ws: seq<word>)
    requires forall i :: 0 <= i < |ws| ==> ws[i] == 0
    ensures Checksum(ws) == 0
  {
    if ws != [] {
      ChecksumOfZeros(ws[..|ws| - 1]);
    }
  }
}
