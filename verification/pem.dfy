/** PEM text as src/lockdown/pairing.rs writes it and src/bin/ios/cmd/pair.rs scans it. */
module Pem {
  import Base64
  import opened Bytes
  import opened Utf8

  const LF := Base64.LF
  const CR := Base64.CR

  /** "-----" */
  const DASHES: seq<byte> := [45, 45, 45, 45, 45]

  /** "BEGIN" */
  const BEGIN: seq<byte> := [66, 69, 71, 73, 78]

  /** "END" */
  const END: seq<byte> := [69, 78, 68]

  const SPACE: byte := 32

  // ---- encoding ----

  /** Lines of at most 64 columns, each ended. */
  function Wrap(text: seq<byte>): (out: seq<byte>)
    decreases |text|
  {
    if text == [] then []
    else
      var n := if |text| < 64 then |text| else 64;
      text[..n] + [LF] + Wrap(text[n..])
  }

  function Boundary(word: seq<byte>, title: seq<byte>): (line: seq<byte>)
    ensures |line| > |word| + |title|
  {
    DASHES + word + [SPACE] + title + DASHES
  }

  function Encode(title: seq<byte>, der: seq<byte>): seq<byte> {
    Boundary(BEGIN, title) + [LF] + (Wrap(Base64.Encode(der)) + (Boundary(END, title) + [LF]))
  }

  method EncodeLoop(title: seq<byte>, der: seq<byte>) returns (out: seq<byte>)
    ensures out == Encode(title, der)
  {
    var b64 := Base64.EncodeLoop(der);
    out := DASHES + BEGIN + [SPACE] + title + DASHES + [LF];
    ghost var head, body := out, Wrap(b64);
    var i := 0;
    while i < |b64|
      invariant i <= |b64|
      invariant out + Wrap(b64[i..]) == head + body
    {
      var end := if i + 64 <= |b64| then i + 64 else |b64|;
      ghost var left := b64[i..];
      assert left[..end - i] == b64[i..end] && left[end - i..] == b64[end..];
      Regroup(out, b64[i..end] + [LF], Wrap(b64[end..]));
      out := out + (b64[i..end] + [LF]);
      i := end;
    }
    Regroup(head, body, Boundary(END, title) + [LF]);
    out := out + (DASHES + END + [SPACE] + title + DASHES + [LF]);
  }

  // ---- scanning ----

  datatype Loaded = Ok(der: seq<byte>) | BadUtf8

  /** Where the first line of `s` ends. */
  function LineEnd(s: seq<byte>): (n: nat)
    ensures n <= |s| && LF !in s[..n]
    ensures n < |s| ==> s[n] == LF
  {
    if s == [] || s[0] == LF then 0
    else
      var n := 1 + LineEnd(s[1..]);
      assert s[..n] == [s[0]] + s[1..][..n - 1];
      n
  }

  /** The bytes before `n`; a carriage return just before a line feed belongs to the ending. */
  function LineBefore(s: seq<byte>, n: nat): seq<byte>
    requires n <= |s|
  {
    if 0 < n < |s| && s[n - 1] == CR then s[..n - 1] else s[..n]
  }

  /** The first line without its ending. */
  function FirstLine(s: seq<byte>): seq<byte> {
    LineBefore(s, LineEnd(s))
  }

  function LinesAfter(s: seq<byte>, n: nat): (rest: seq<byte>)
    requires s != []
    ensures |rest| < |s|
  {
    if n < |s| then s[n + 1..] else []
  }

  function OtherLines(s: seq<byte>): (rest: seq<byte>)
    requires s != []
    ensures |rest| < |s|
  {
    LinesAfter(s, LineEnd(s))
  }

  predicate Begins(line: seq<byte>) {
    DASHES + BEGIN <= line
  }

  predicate Ends(line: seq<byte>) {
    DASHES + END <= line
  }

  /** The lines of the first block, joined; a second BEGIN does not start over. */
  function Scan(s: seq<byte>, inBlock: bool): seq<byte>
    decreases |s|
  {
    if s == [] then []
    else
      var line := FirstLine(s);
      if Begins(line) then Scan(OtherLines(s), true)
      else if Ends(line) then []
      else (if inBlock then line else []) + Scan(OtherLines(s), inBlock)
  }

  predicate DashesAt(s: seq<byte>, i: nat) {
    i + 5 <= |s| && s[i..i + 5] == DASHES
  }

  predicate HasDashes(s: seq<byte>) {
    exists i :: 0 <= i < |s| && DashesAt(s, i)
  }

  function Load(raw: seq<byte>): Loaded {
    if !HasDashes(raw) then Ok(raw)
    else if !ValidUtf8(raw) then BadUtf8
    else Ok(Base64.Decode(Scan(raw, false)))
  }

  method LoadCert(raw: seq<byte>) returns (r: Loaded)
    ensures r == Load(raw)
  {
    hide HasDashes, ValidUtf8, FirstLine, OtherLines, Begins, Ends, Base64.Decode;
    if !HasDashes(raw) {
      return Ok(raw);
    }
    if !ValidUtf8(raw) {
      return BadUtf8;
    }
    var b64: seq<byte> := [];
    var inBlock, left := false, raw;
    while left != []
      invariant b64 + Scan(left, inBlock) == Scan(raw, false)
      decreases |left|
    {
      var line, rest := FirstLine(left), OtherLines(left);
      if Begins(line) {
        inBlock := true;
        left := rest;
        continue;
      }
      if Ends(line) {
        break;
      }
      if inBlock {
        Regroup(b64, line, Scan(rest, inBlock));
        b64 := b64 + line;
      }
      left := rest;
    }
    var der := Base64.DecodeLoop(b64);
    assert b64 + [] == b64;
    return Ok(der);
  }

  /** A file without five dashes in a row is taken as it is; any other must be text. */
  lemma LoadsRaw(raw: seq<byte>)
    ensures var dashed := exists i :: 0 <= i < |raw| && At(raw, i, [45, 45, 45, 45, 45]);
      && (!dashed ==> Load(raw) == Ok(raw))
      && (dashed && !ValidUtf8(raw) ==> Load(raw) == BadUtf8)
      && (dashed && ValidUtf8(raw) ==> Load(raw) == Ok(Base64.Decode(Scan(raw, false))))
  {
    hide ValidUtf8, Scan, Base64.Decode;
    assert forall i | 0 <= i < |raw| :: At(raw, i, [45, 45, 45, 45, 45]) <==> DashesAt(raw, i);
  }

  // ---- the scan recovers what was encoded ----

  lemma {:induction false} LineEndIs(line: seq<byte>, rest: seq<byte>)
    requires LF !in line
    ensures LineEnd(line + [LF] + rest) == |line|
  {
    if line != [] {
      assert (line + [LF] + rest)[1..] == line[1..] + [LF] + rest;
      LineEndIs(line[1..], rest);
    }
  }

  /** One line read off the front. */
  lemma ScanLine(line: seq<byte>, rest: seq<byte>, inBlock: bool)
    requires LF !in line && (line != [] ==> line[|line| - 1] != CR)
    ensures Scan(line + [LF] + rest, inBlock) ==
      if Begins(line) then Scan(rest, true)
      else if Ends(line) then []
      else (if inBlock then line else []) + Scan(rest, inBlock)
  {
    var s := line + [LF] + rest;
    LineEndIs(line, rest);
    assert s[..|line|] == line && s[|line| + 1..] == rest;
    assert FirstLine(s) == line;
    assert OtherLines(s) == rest;
    hide FirstLine, OtherLines, Begins, Ends, LineEnd;
  }

  /** Every line feed with a carriage return before it. */
  function CrLf(s: seq<byte>): seq<byte> {
    if s == [] then [] else (if s[0] == LF then [CR, LF] else [s[0]]) + CrLf(s[1..])
  }

  lemma {:induction false} CrLfLine(line: seq<byte>, rest: seq<byte>)
    requires LF !in line
    ensures CrLf(line) == line && CrLf(line + [LF] + rest) == line + [CR, LF] + CrLf(rest)
  {
    var s := line + [LF] + rest;
    if line == [] {
      assert s[1..] == rest;
    } else {
      assert s[1..] == line[1..] + [LF] + rest;
      CrLfLine(line[1..], rest);
      assert line == [line[0]] + line[1..];
      assert [line[0]] + (line[1..] + [CR, LF] + CrLf(rest)) == line + [CR, LF] + CrLf(rest);
    }
  }

  /** One line with a carriage return before its line feed, read off the front. */
  lemma ScanCrLine(line: seq<byte>, rest: seq<byte>, inBlock: bool)
    requires LF !in line
    ensures Scan(line + [CR, LF] + rest, inBlock) ==
      if Begins(line) then Scan(rest, true)
      else if Ends(line) then []
      else (if inBlock then line else []) + Scan(rest, inBlock)
  {
    var s, n := line + [CR, LF] + rest, |line| + 1;
    assert s == (line + [CR]) + [LF] + rest;
    LineEndIs(line + [CR], rest);
    assert s[..n - 1] == line && s[n + 1..] == rest;
    assert FirstLine(s) == line;
    assert OtherLines(s) == rest;
    hide FirstLine, OtherLines, Begins, Ends, LineEnd;
  }

  /** Which of the two line endings a text has makes no difference. */
  lemma {:induction false} ScanEndings(s: seq<byte>, inBlock: bool)
    requires CR !in s
    ensures Scan(CrLf(s), inBlock) == Scan(s, inBlock)
    decreases |s|
  {
    var n := LineEnd(s);
    var line := s[..n];
    if n == |s| {
      assert line == s;
      CrLfLine(line, []);
    } else {
      var rest := s[n + 1..];
      assert s == line + [LF] + rest;
      CrLfLine(line, rest);
      hide LineEnd, Scan, CrLf, Begins, Ends;
      ScanLine(line, rest, inBlock);
      ScanCrLine(line, CrLf(rest), inBlock);
      ScanEndings(rest, inBlock);
      ScanEndings(rest, true);
    }
  }

  predicate Texts(text: seq<byte>) {
    forall i | 0 <= i < |text| :: text[i] == Base64.PAD || Base64.ValueOf(text[i]) < 64
  }

  lemma NotDash(line: seq<byte>)
    requires Texts(line)
    ensures LF !in line && CR !in line && !Begins(line) && !Ends(line)
  {
    assert (DASHES + BEGIN)[0] == 45 && (DASHES + END)[0] == 45;
    assert line != [] ==> line[0] != 45;
  }

  lemma {:induction false} ScanWrapped(text: seq<byte>, tail: seq<byte>)
    requires Texts(text)
    ensures Scan(Wrap(text) + tail, true) == text + Scan(tail, true)
    decreases |text|
  {
    hide Scan;
    if text == [] {
      assert [] + tail == tail;
    } else {
      var n := if |text| < 64 then |text| else 64;
      var line, more := text[..n], text[n..];
      NotDash(line);
      ScanLine(line, Wrap(more) + tail, true);
      Regroup(line + [LF], Wrap(more), tail);
      ScanWrapped(more, tail);
      Regroup(line, more, Scan(tail, true));
      assert line + more == text;
    }
  }

  lemma EncodingTexts(der: seq<byte>)
    ensures Texts(Base64.Encode(der))
  {
    var text := Base64.Encode(der);
    forall i | 0 <= i < |text| ensures text[i] == Base64.PAD || Base64.ValueOf(text[i]) < 64 {
      Base64.EncodingSymbols(der, i);
    }
  }

  lemma OneMarker(line: seq<byte>)
    requires Ends(line)
    ensures !Begins(line)
  {
    assert (DASHES + END)[5] == 69 && (DASHES + BEGIN)[5] == 66;
  }

  // ---- titles of more than one line ----

  /** Some line of `s` ends a block. */
  predicate Stops(s: seq<byte>)
    decreases |s|
  {
    s != [] && ((!Begins(FirstLine(s)) && Ends(FirstLine(s))) || Stops(OtherLines(s)))
  }

  /** Each line of `s` begins a block, or holds nothing that is decoded and ends no block. */
  predicate Harmless(s: seq<byte>)
    decreases |s|
  {
    s == []
    || (&& (Begins(FirstLine(s)) || (!Ends(FirstLine(s)) && Base64.Clean(FirstLine(s)) == []))
        && Harmless(OtherLines(s)))
  }

  /** What stands in the block before the content: the title after its first line, and the dashes. */
  function TitleRest(title: seq<byte>): seq<byte>
    requires LF in title
  {
    title[FirstBreak(title) + 1..] + DASHES
  }

  function FirstBreak(title: seq<byte>): (n: nat)
    requires LF in title
    ensures n < |title| && title[n] == LF
  {
    BreakWithin(title);
    LineEnd(title)
  }

  lemma {:induction false} BreakWithin(s: seq<byte>)
    requires LF in s
    ensures LineEnd(s) < |s|
  {
    if s[0] != LF {
      assert LF in s[1..];
      BreakWithin(s[1..]);
    }
  }

  /** A title of one line, or one whose further lines are harmless. */
  predicate TitleOk(title: seq<byte>) {
    LF in title ==> Harmless(TitleRest(title))
  }

  lemma {:induction false} HarmlessExactly(s: seq<byte>)
    ensures Harmless(s) <==> !Stops(s) && Base64.Clean(Scan(s, true)) == []
    decreases |s|
  {
    hide FirstLine, OtherLines, Begins, Ends, Base64.Clean;
    if s == [] {
      NothingClean();
    } else {
      HarmlessExactly(OtherLines(s));
      Base64.CleanAppend(FirstLine(s), Scan(OtherLines(s), true));
    }
  }

  lemma NothingClean()
    ensures Base64.Clean([]) == []
  {}

  /** Lines that are followed by a line feed and more. */
  lemma {:induction false} ScanMiddle(mid: seq<byte>, body: seq<byte>)
    requires mid != [] && mid[|mid| - 1] == 45
    ensures Scan(mid + [LF] + body, true) == Scan(mid, true) + if Stops(mid) then [] else Scan(body, true)
    decreases |mid|
  {
    hide Begins, Ends;
    if LineEnd(mid) == |mid| {
      LastLine(mid);
      ScanLine(mid, body, true);
      hide FirstLine, OtherLines, LineEnd;
      assert Scan([], true) == [] && mid + [] == mid;
    } else {
      SameFirstLine(mid, [LF] + body);
      assert mid + [LF] + body == mid + ([LF] + body);
      RestEnds(mid);
      hide FirstLine, OtherLines, LineEnd;
      assert OtherLines(mid) + [LF] + body == OtherLines(mid) + ([LF] + body);
      ScanMiddle(OtherLines(mid), body);
      Regroup(FirstLine(mid), Scan(OtherLines(mid), true), if Stops(mid) then [] else Scan(body, true));
    }
  }

  lemma LastLine(mid: seq<byte>)
    requires mid != [] && LineEnd(mid) == |mid|
    ensures LF !in mid && FirstLine(mid) == mid && OtherLines(mid) == []
  {
    assert mid[..|mid|] == mid;
  }

  lemma RestEnds(mid: seq<byte>)
    requires mid != [] && mid[|mid| - 1] == 45 && LineEnd(mid) < |mid|
    ensures OtherLines(mid) != [] && OtherLines(mid)[|OtherLines(mid)| - 1] == 45
    ensures |OtherLines(mid)| < |mid|
  {}

  /** A marker is recognised whether or not its line ends in a carriage return. */
  lemma MarkerLine(line: seq<byte>, rest: seq<byte>)
    requires LF !in line && (Begins(line) || Ends(line))
    ensures var s := line + [LF] + rest;
      && (Begins(FirstLine(s)) <==> Begins(line)) && (Ends(FirstLine(s)) <==> Ends(line))
      && OtherLines(s) == rest
  {
    var s := line + [LF] + rest;
    LineEndIs(line, rest);
    assert s[..|line|] == line && s[|line| + 1..] == rest;
    assert FirstLine(s) == line || FirstLine(s) == line[..|line| - 1];
    assert (DASHES + BEGIN)[9] == 78 && (DASHES + END)[7] == 68;
  }

  lemma ScanBegin(line: seq<byte>, rest: seq<byte>, inBlock: bool)
    requires LF !in line && Begins(line)
    ensures Scan(line + [LF] + rest, inBlock) == Scan(rest, true)
  {
    MarkerLine(line, rest);
    hide FirstLine, OtherLines, Begins, Ends;
  }

  lemma ScanEnd(line: seq<byte>, rest: seq<byte>, inBlock: bool)
    requires LF !in line && Ends(line)
    ensures Scan(line + [LF] + rest, inBlock) == []
  {
    MarkerLine(line, rest);
    OneMarker(line);
    hide FirstLine, OtherLines, Begins, Ends;
  }

  /** Content and closing boundary, scanned inside the block. */
  lemma ScanContent(text: seq<byte>, last: seq<byte>, after: seq<byte>)
    requires LF !in last && Ends(last) && Texts(text)
    ensures Scan(Wrap(text) + (last + [LF] + after), true) == text
  {
    hide Scan, Wrap, Texts, Ends;
    ScanWrapped(text, last + [LF] + after);
    ScanEnd(last, after, true);
    assert text + [] == text;
  }

  /** A boundary's line up to the title's first line feed, or the whole of it. */
  function FirstPart(word: seq<byte>, title: seq<byte>): (line: seq<byte>)
    ensures DASHES + word <= line
    ensures LF !in word ==> LF !in line
  {
    if LF in title then DASHES + word + [SPACE] + title[..FirstBreak(title)] else Boundary(word, title)
  }

  /** What of a boundary comes after that line, its own line feed included. */
  function RestPart(title: seq<byte>): seq<byte> {
    if LF in title then [LF] + (TitleRest(title) + [LF]) else [LF]
  }

  lemma BoundaryParts(word: seq<byte>, title: seq<byte>)
    ensures Boundary(word, title) + [LF] == FirstPart(word, title) + RestPart(title)
  {
    if LF in title {
      var n := FirstBreak(title);
      assert title == title[..n] + [LF] + title[n + 1..];
      hide FirstBreak;
      Rearrange(DASHES + word + [SPACE], title[..n], [LF], title[n + 1..], DASHES);
    }
  }

  lemma Rearrange(h: seq<byte>, a: seq<byte>, l: seq<byte>, b: seq<byte>, d: seq<byte>)
    ensures h + (a + l + b) + d + l == h + a + (l + (b + d + l))
  {}

  /** What scanning an encoded block finds: the content, after what the title adds. */
  function Found(title: seq<byte>, text: seq<byte>): seq<byte> {
    if LF in title then Scan(TitleRest(title), true) + if Stops(TitleRest(title)) then [] else text
    else text
  }

  lemma ScanEncoded(title: seq<byte>, der: seq<byte>, after: seq<byte>)
    ensures Scan(Encode(title, der) + after, false) == Found(title, Base64.Encode(der))
  {
    var text := Base64.Encode(der);
    EncodingTexts(der);
    BoundaryParts(BEGIN, title);
    BoundaryParts(END, title);
    hide Scan, Base64.Encode, Texts, Wrap, Boundary, FirstPart, TitleRest, Stops;
    var first, last, rest := FirstPart(BEGIN, title), FirstPart(END, title), RestPart(title);
    var end := last + rest + after;
    assert Encode(title, der) + after == first + rest + (Wrap(text) + end);
    if LF in title {
      var mid := TitleRest(title);
      var tail := mid + [LF] + after;
      assert end == last + [LF] + tail;
      assert first + rest + (Wrap(text) + end) == first + [LF] + (mid + [LF] + (Wrap(text) + end));
      ScanBegin(first, mid + [LF] + (Wrap(text) + end), false);
      ScanContent(text, last, tail);
      RestDash(title);
      ScanMiddle(mid, Wrap(text) + end);
    } else {
      assert end == last + [LF] + after;
      ScanBegin(first, Wrap(text) + end, false);
      ScanContent(text, last, after);
    }
  }

  lemma RestDash(title: seq<byte>)
    requires LF in title
    ensures TitleRest(title) != [] && TitleRest(title)[|TitleRest(title)| - 1] == 45
  {}

  /** Whole lines, none of which opens or closes a block. */
  predicate Quiet(before: seq<byte>)
    decreases |before|
  {
    before == []
    || (LineEnd(before) < |before| && !Begins(FirstLine(before)) && !Ends(FirstLine(before))
        && Quiet(OtherLines(before)))
  }

  lemma {:induction false} LineEndWithin(a: seq<byte>, b: seq<byte>)
    requires LineEnd(a) < |a|
    ensures LineEnd(a + b) == LineEnd(a)
  {
    if a[0] != LF {
      assert (a + b)[1..] == a[1..] + b;
      LineEndWithin(a[1..], b);
    }
  }

  lemma SameCut(a: seq<byte>, b: seq<byte>, n: nat)
    requires n < |a|
    ensures LineBefore(a + b, n) == LineBefore(a, n)
    ensures LinesAfter(a + b, n) == LinesAfter(a, n) + b
  {
    assert (a + b)[..n] == a[..n];
    assert n > 0 ==> (a + b)[..n - 1] == a[..n - 1];
    assert (a + b)[n + 1..] == a[n + 1..] + b;
  }

  lemma SameFirstLine(before: seq<byte>, s: seq<byte>)
    requires LineEnd(before) < |before|
    ensures FirstLine(before + s) == FirstLine(before)
    ensures OtherLines(before + s) == OtherLines(before) + s
  {
    hide LineEnd, LineBefore, LinesAfter;
    LineEndWithin(before, s);
    SameCut(before, s, LineEnd(before));
  }

  lemma {:induction false} ScanQuiet(before: seq<byte>, s: seq<byte>)
    requires Quiet(before)
    ensures Scan(before + s, false) == Scan(s, false)
    decreases |before|
  {
    if before == [] {
      assert before + s == s;
    } else {
      var all := before + s;
      SameFirstLine(before, s);
      hide LineEnd, FirstLine, OtherLines, Begins, Ends;
      ScanQuiet(OtherLines(before), s);
    }
  }

  /** The bytes of the first character. */
  function Width(b: byte): (n: nat)
    ensures 1 <= n <= 4
  {
    if b < 0x80 then 1 else if b <= 0xDF then 2 else if b <= 0xEF then 3 else 4
  }

  lemma ValidRest(a: seq<byte>)
    requires a != [] && ValidUtf8(a)
    ensures Width(a[0]) <= |a| && ValidUtf8(a[Width(a[0])..])
  {}

  lemma ValidFirst(a: seq<byte>, b: seq<byte>)
    requires a != [] && ValidUtf8(a) && ValidUtf8((a + b)[Width(a[0])..])
    ensures ValidUtf8(a + b)
  {
    assert forall i | 0 <= i < |a| :: (a + b)[i] == a[i];
  }

  lemma {:induction false} ValidAppend(a: seq<byte>, b: seq<byte>)
    requires ValidUtf8(a) && ValidUtf8(b)
    ensures ValidUtf8(a + b)
  {
    if a == [] {
      assert a + b == b;
    } else {
      var n := Width(a[0]);
      ValidRest(a);
      hide ValidUtf8, Width;
      assert (a + b)[n..] == a[n..] + b;
      ValidAppend(a[n..], b);
      ValidFirst(a, b);
    }
  }

  lemma {:induction false} AsciiValid(s: seq<byte>)
    requires forall i | 0 <= i < |s| :: s[i] < 0x80
    ensures ValidUtf8(s)
  {
    if s != [] {
      AsciiValid(s[1..]);
    }
  }

  lemma {:induction false} WrapAscii(text: seq<byte>)
    requires Texts(text)
    ensures ValidUtf8(Wrap(text))
    decreases |text|
  {
    if text != [] {
      var n := if |text| < 64 then |text| else 64;
      AsciiValid(text[..n] + [LF]);
      WrapAscii(text[n..]);
      ValidAppend(text[..n] + [LF], Wrap(text[n..]));
    }
  }

  lemma MarksValid()
    ensures ValidUtf8(DASHES + BEGIN + [SPACE]) && ValidUtf8(DASHES + END + [SPACE])
    ensures ValidUtf8(DASHES) && ValidUtf8([LF])
  {
    hide ValidUtf8;
    assert DASHES + BEGIN + [SPACE] == [45, 45, 45, 45, 45, 66, 69, 71, 73, 78, 32];
    assert DASHES + END + [SPACE] == [45, 45, 45, 45, 45, 69, 78, 68, 32];
    AsciiValid([45, 45, 45, 45, 45, 66, 69, 71, 73, 78, 32]);
    AsciiValid([45, 45, 45, 45, 45, 69, 78, 68, 32]);
    AsciiValid([45, 45, 45, 45, 45]);
    AsciiValid([10]);
  }

  lemma EncodedValid(title: seq<byte>, der: seq<byte>)
    requires ValidUtf8(title)
    ensures ValidUtf8(Encode(title, der))
  {
    var text := Base64.Encode(der);
    EncodingTexts(der);
    WrapAscii(text);
    MarksValid();
    hide ValidUtf8, Base64.Encode, Wrap;
    ValidAppend(DASHES + BEGIN + [SPACE], title);
    ValidAppend(DASHES + BEGIN + [SPACE] + title, DASHES);
    ValidAppend(Boundary(BEGIN, title), [LF]);
    ValidAppend(DASHES + END + [SPACE], title);
    ValidAppend(DASHES + END + [SPACE] + title, DASHES);
    ValidAppend(Boundary(END, title), [LF]);
    ValidAppend(Wrap(text), Boundary(END, title) + [LF]);
    ValidAppend(Boundary(BEGIN, title) + [LF], Wrap(text) + (Boundary(END, title) + [LF]));
  }

  lemma EncodedHasDashes(before: seq<byte>, title: seq<byte>, der: seq<byte>, after: seq<byte>)
    ensures HasDashes(before + Encode(title, der) + after)
  {
    var raw := before + Encode(title, der) + after;
    assert Encode(title, der)[..5] == DASHES;
    assert raw[|before|..|before| + 5] == Encode(title, der)[..5];
    assert DashesAt(raw, |before|);
  }

  lemma FoundDecodes(title: seq<byte>, der: seq<byte>)
    requires TitleOk(title)
    ensures Base64.Decode(Found(title, Base64.Encode(der))) == der
  {
    Base64.RoundTrip(der);
    hide Harmless, Scan, Base64.Encode, Base64.Clean, Base64.Ungroup, TitleRest, Stops;
    if LF in title {
      var pre := Scan(TitleRest(title), true);
      HarmlessExactly(TitleRest(title));
      Base64.CleanAppend(pre, Base64.Encode(der));
      assert [] + Base64.Clean(Base64.Encode(der)) == Base64.Clean(Base64.Encode(der));
    }
  }

  /** Out of a file with one encoded block among other text, exactly its content is loaded. */
  lemma RoundTrip(before: seq<byte>, title: seq<byte>, der: seq<byte>, after: seq<byte>)
    requires TitleOk(title) && Quiet(before)
    requires ValidUtf8(before) && ValidUtf8(title) && ValidUtf8(after)
    ensures Load(before + Encode(title, der) + after) == Ok(der)
  {
    EncodedHasDashes(before, title, der, after);
    EncodedValid(title, der);
    ScanEncoded(title, der, after);
    FoundDecodes(title, der);
    hide HasDashes, ValidUtf8, Encode, Scan, Base64.Encode, Base64.Decode, TitleOk, Found;
    ValidAppend(before, Encode(title, der));
    ValidAppend(before + Encode(title, der), after);
    Regroup(before, Encode(title, der), after);
    ScanQuiet(before, Encode(title, der) + after);
  }

  lemma LoadFound(title: seq<byte>, der: seq<byte>)
    requires ValidUtf8(title)
    ensures Load(Encode(title, der)) == Ok(Base64.Decode(Found(title, Base64.Encode(der))))
  {
    EncodedHasDashes([], title, der, []);
    EncodedValid(title, der);
    ScanEncoded(title, der, []);
    hide HasDashes, ValidUtf8, Encode, Scan, Base64.Encode, Base64.Decode, Found;
    assert Encode(title, der) + [] == Encode(title, der) && [] + Encode(title, der) == Encode(title, der);
  }

  /** Symbols before the content spoil no content or that of a zero byte. */
  lemma JunkSpoils(pre: seq<byte>)
    requires Base64.Clean(pre) != []
    ensures Base64.Decode(pre + Base64.Encode([])) != [] || Base64.Decode(pre + Base64.Encode([0])) != [0]
  {
    var p := Base64.Clean(pre);
    if |p| > 1 {
      assert pre + Base64.Encode([]) == pre;
    } else {
      Base64.CleanAppend(pre, Base64.Encode([0]));
      Base64.LastSymbols([0]);
      hide Base64.Clean, Base64.Encode, Base64.Quad, Base64.Group, Base64.First, Base64.Second;
      var t := Base64.Clean(pre + Base64.Encode([0]));
      assert |t| == 3;
      Base64.UngroupOne(t);
    }
  }

  /** Every content comes back from a block exactly if the title's further lines, if any, are harmless. */
  lemma TitlesExactly(title: seq<byte>)
    requires ValidUtf8(title)
    ensures (forall der :: Load(Encode(title, der)) == Ok(der)) <==> TitleOk(title)
  {
    forall der ensures Load(Encode(title, der)) == Ok(Base64.Decode(Found(title, Base64.Encode(der)))) {
      LoadFound(title, der);
    }
    if TitleOk(title) {
      forall der ensures Load(Encode(title, der)) == Ok(der) {
        FoundDecodes(title, der);
      }
    } else {
      var rest := TitleRest(title);
      HarmlessExactly(rest);
      hide Load, Encode, Base64.Encode, Base64.Decode, Base64.Clean, Harmless, Scan, Stops, TitleRest;
      var none, zero: seq<byte> := [], [0];
      if !Stops(rest) {
        JunkSpoils(Scan(rest, true));
      }
      assert Load(Encode(title, none)) != Ok(none) || Load(Encode(title, zero)) != Ok(zero);
    }
  }
}
