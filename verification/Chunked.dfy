/** The streaming decoder of aws-chunked bodies (internal/api/s3/objects.go):
    hex-size[;extension]CRLF data CRLF ... 0[;extension]CRLF. */
module Chunked {
  import opened Strings
  import opened Strconv

  // ---------------------------------------------------------------------------
  // One header line
  // ---------------------------------------------------------------------------

  /** One white space rune in UTF-8, as `unicode.IsSpace` has them. */
  predicate IsSpace(r: string) {
    || (|r| == 1 && r[0] in {' ', '\t', '\n', '\U{0b}', '\U{0c}', '\r'})
    || (|r| == 2 && r[0] == '\U{c2}' && r[1] in {'\U{85}', '\U{a0}'})
    || (|r| == 3 && r[..2] == "\U{e1}\U{9a}" && r[2] == '\U{80}')
    || (|r| == 3 && r[..2] == "\U{e2}\U{80}"
        && ('\U{80}' <= r[2] <= '\U{8a}' || r[2] in {'\U{a8}', '\U{a9}', '\U{af}'}))
    || (|r| == 3 && r[..2] == "\U{e2}\U{81}" && r[2] == '\U{9f}')
    || (|r| == 3 && r[..2] == "\U{e3}\U{80}" && r[2] == '\U{80}')
  }

  /** Length of the white space rune at the front, or 0. */
  function LeadingSpace(s: string): (n: nat)
    ensures n <= |s|
  {
    if |s| >= 1 && IsSpace(s[..1]) then 1
    else if |s| >= 2 && IsSpace(s[..2]) then 2
    else if |s| >= 3 && IsSpace(s[..3]) then 3
    else 0
  }

  /** Length of the white space rune at the end, or 0. */
  function TrailingSpace(s: string): (n: nat)
    ensures n <= |s|
  {
    if |s| >= 1 && IsSpace(s[|s| - 1..]) then 1
    else if |s| >= 2 && IsSpace(s[|s| - 2..]) then 2
    else if |s| >= 3 && IsSpace(s[|s| - 3..]) then 3
    else 0
  }

  /** `strings.TrimRight(line, "\r\n")`. */
  function TrimLineEnd(s: string): string {
    if s != "" && s[|s| - 1] in {'\r', '\n'} then TrimLineEnd(s[..|s| - 1]) else s
  }

  function TrimLeft(s: string): string {
    if LeadingSpace(s) > 0 then TrimLeft(s[LeadingSpace(s)..]) else s
  }

  function TrimRight(s: string): string {
    if TrailingSpace(s) > 0 then TrimRight(s[..|s| - TrailingSpace(s)]) else s
  }

  function TrimSpace(s: string): string {
    TrimRight(TrimLeft(s))
  }

  function CutExtension(line: string): string {
    var i := IndexByte(line, ';');
    if i >= 0 then line[..i] else line
  }

  /** The size a header line announces, if it is a hexadecimal int64. */
  function HeaderSize(line: string): (r: Option<int>)
    ensures r.Some? ==> MIN_INT64 <= r.value <= MAX_INT64
  {
    ParseInt(TrimSpace(CutExtension(TrimLineEnd(line))), 16)
  }

  // ---------------------------------------------------------------------------
  // What any byte stream decodes to
  // ---------------------------------------------------------------------------

  /** How a stream ends: its zero-size line was read, a header line is cut short,
      a header is no number, a size is negative, or chunk data is cut short. */
  datatype Ending = Complete | HeaderCut | BadSize | NegativeSize | DataCut

  datatype Decoded = Decoded(payload: Bytes, ending: Ending)

  function Prepend(bytes: Bytes, d: Decoded): Decoded {
    d.(payload := bytes + d.payload)
  }

  /** The bytes after the first newline, or none. */
  function AfterLine(data: Bytes): (rest: Bytes)
    ensures |rest| <= |data|
    ensures data != [] ==> |rest| < |data|
  {
    var i := IndexByte(data, '\n');
    if i >= 0 then data[i + 1..] else []
  }

  /** Decodes a stream that stands at a header line. */
  function Decode(data: Bytes): Decoded
    decreases |data|, 0
  {
    var i := IndexByte(data, '\n');
    if i < 0 then
      Decoded([], HeaderCut)
    else
      match HeaderSize(data[..i + 1])
      case None => Decoded([], BadSize)
      case Some(size) =>
        if size == 0 then Decoded([], Complete)
        else if size < 0 then Decoded([], NegativeSize)
        else DecodeData(size, data[i + 1..])
  }

  /** Decodes a stream with `remaining` bytes of chunk data to come. */
  function DecodeData(remaining: int, data: Bytes): Decoded
    requires remaining > 0
    decreases |data|, 1
  {
    if |data| < remaining then Decoded(data, DataCut)
    else Prepend(data[..remaining], Decode(AfterLine(data[remaining..])))
  }

  /** Reading part of the chunk data first makes no difference. */
  lemma DecodeDataStep(remaining: int, data: Bytes, n: nat)
    requires 0 < n < remaining && n <= |data|
    ensures DecodeData(remaining, data) == Prepend(data[..n], DecodeData(remaining - n, data[n..]))
  {
    hide Decode, AfterLine;
    if |data| < remaining {
      assert data == data[..n] + data[n..];
    } else {
      assert data[n..][remaining - n..] == data[remaining..];
      assert data[..remaining] == data[..n] + data[n..][..remaining - n];
      var rest := Decode(AfterLine(data[remaining..])).payload;
      assert data[..remaining] + rest == data[..n] + (data[n..][..remaining - n] + rest);
    }
  }

  /** One read of chunk data, the line end after it consumed with its last byte. */
  lemma DecodeDataRead(remaining: int, data: Bytes, n: nat)
    requires 0 <= n <= remaining && remaining > 0 && n <= |data|
    ensures DecodeData(remaining, data)
            == Prepend(data[..n], if n == remaining then Decode(AfterLine(data[n..]))
                                  else DecodeData(remaining - n, data[n..]))
    ensures DecodeData(remaining, data).payload == [] ==> data == []
    ensures data == [] ==> DecodeData(remaining, data) == Decoded([], DataCut)
  {
    if n == 0 {
      assert data[..0] + DecodeData(remaining, data).payload == DecodeData(remaining, data).payload;
      assert data[0..] == data;
    } else if n < remaining {
      DecodeDataStep(remaining, data, n);
    }
  }

  /** What the header line at the front of a stream says of its decoding. */
  lemma DecodeByHeader(data: Bytes)
    ensures '\n' !in data ==> Decode(data) == Decoded([], HeaderCut)
    ensures '\n' in data ==>
              match HeaderSize(data[..IndexByte(data, '\n') + 1])
              case None => Decode(data) == Decoded([], BadSize)
              case Some(size) =>
                if size == 0 then Decode(data) == Decoded([], Complete)
                else if size < 0 then Decode(data) == Decoded([], NegativeSize)
                else Decode(data) == DecodeData(size, AfterLine(data))
  {
    var i := IndexByte(data, '\n');
    if i >= 0 { assert data[i] in data; }
  }

  // ---------------------------------------------------------------------------
  // The encoding
  // ---------------------------------------------------------------------------

  /** A chunk as a client frames it: any hexadecimal numeral of its length, and
      an extension that is empty or starts with a semicolon. */
  datatype Chunk = Chunk(size: Bytes, extension: Bytes, data: Bytes)

  ghost predicate HexOf(size: Bytes, n: nat) {
    size != [] && AllDigits(size, 16) && Value(size, 16) == n <= MAX_INT64
  }

  ghost predicate WellFormedExtension(extension: Bytes) {
    '\n' !in extension && (extension == [] || extension[0] == ';')
  }

  ghost predicate WellFormed(c: Chunk) {
    c.data != [] && HexOf(c.size, |c.data|) && WellFormedExtension(c.extension)
  }

  ghost predicate AllWellFormed(chunks: seq<Chunk>) {
    forall c :: c in chunks ==> WellFormed(c)
  }

  function Header(size: Bytes, extension: Bytes): Bytes {
    size + extension + ['\r', '\n']
  }

  function EncodeChunk(c: Chunk): Bytes {
    Header(c.size, c.extension) + (c.data + ['\r', '\n'])
  }

  /** The framed stream up to the end of its zero-size line. */
  function Encode(chunks: seq<Chunk>, last: Chunk): Bytes {
    if chunks == [] then Header(last.size, last.extension)
    else EncodeChunk(chunks[0]) + Encode(chunks[1..], last)
  }

  function Payload(chunks: seq<Chunk>): Bytes {
    if chunks == [] then [] else chunks[0].data + Payload(chunks[1..])
  }

  ghost predicate IsLast(last: Chunk) {
    HexOf(last.size, 0) && WellFormedExtension(last.extension)
  }

  // ---------------------------------------------------------------------------
  // Header lines read back
  // ---------------------------------------------------------------------------

  lemma DigitIsPlain(c: char)
    requires 0 <= DigitValue(c)
    ensures c !in {';', '\r', '\n', '-', '+'}
  {
  }

  /** There is no white space to trim where a digit or a sign stands. */
  lemma NothingToTrim(s: string)
    requires s != "" && (0 <= DigitValue(s[0]) || s[0] == '-') && 0 <= DigitValue(s[|s| - 1])
    ensures TrimSpace(s) == s
  {
    hide IsSpace, TrimLeft, TrimRight;
    BlankInFront("", s);
    BlankBehind(s, "");
    assert "" + s == s && s + "" == s;
  }

  /** Trimming the line end stops at the last byte that is no line end. */
  lemma {:induction false} TrimLineEndKeeps(s: string, k: nat)
    requires 0 < k <= |s| && s[k - 1] !in {'\r', '\n'}
    ensures k <= |TrimLineEnd(s)| && TrimLineEnd(s)[..k] == s[..k]
  {
    if s[|s| - 1] in {'\r', '\n'} {
      TrimLineEndKeeps(s[..|s| - 1], k);
      assert s[..|s| - 1][..k] == s[..k];
    }
  }

  lemma CutAtSemicolon(s: string, size: string)
    requires ';' !in size && size + [';'] <= s
    ensures CutExtension(s) == size
  {
    var i := IndexByte(s, ';');
    assert s[|size|] == ';';
    assert s == size + [';'] + s[|size| + 1..];
    assert s == s[..i] + [';'] + s[i + 1..];
    FirstCutUnique(s[..i], s[i + 1..], size, s[|size| + 1..], ';');
  }

  /** Line end and extension are cut off whatever stands before them. */
  lemma HeaderLineCut(size: string, extension: string)
    requires size != "" && size[|size| - 1] !in {'\r', '\n'} && ';' !in size
    requires extension == "" || extension[0] == ';'
    ensures CutExtension(TrimLineEnd(size + extension + "\r\n")) == size
  {
    var line := size + extension + "\r\n";
    if extension == "" {
      assert line[..|line| - 1] == size + ['\r'];
      assert (size + ['\r'])[..|size|] == size;
      assert TrimLineEnd(line) == TrimLineEnd(size + ['\r']) == TrimLineEnd(size) == size;
    } else {
      var k := |size| + 1;
      assert line[..k] == size + [';'];
      TrimLineEndKeeps(line, k);
      CutAtSemicolon(TrimLineEnd(line), size);
    }
  }

  ghost predicate Blank(s: string) {
    forall i :: 0 <= i < |s| ==> s[i] in {' ', '\t'}
  }

  ghost predicate Visible(c: char) {
    '!' <= c <= '~'
  }

  lemma BlankIsSpace(c: char)
    requires c in {' ', '\t'}
    ensures IsSpace([c])
  {
  }

  lemma VisibleIsNoSpace(r: string)
    requires r != "" && (Visible(r[0]) || Visible(r[|r| - 1]))
    ensures !IsSpace(r)
  {
    if |r| == 3 { assert r[..2][0] == r[0]; }
  }

  lemma TrimLeftStep(c: char, s: string)
    ensures c in {' ', '\t'} ==> TrimLeft([c] + s) == TrimLeft(s)
    ensures Visible(c) ==> TrimLeft([c] + s) == [c] + s
  {
    hide IsSpace;
    var t := [c] + s;
    assert t[..1] == [c] && t[1..] == s;
    if c in {' ', '\t'} { BlankIsSpace(c); }
    if Visible(c) {
      forall k | 1 <= k <= |t| ensures !IsSpace(t[..k]) { VisibleIsNoSpace(t[..k]); }
    }
  }

  lemma TrimRightStep(s: string, c: char)
    ensures c in {' ', '\t'} ==> TrimRight(s + [c]) == TrimRight(s)
    ensures Visible(c) ==> TrimRight(s + [c]) == s + [c]
  {
    hide IsSpace;
    var t := s + [c];
    var n := |s|;
    assert t[n..] == [c] && t[..n] == s;
    if c in {' ', '\t'} { BlankIsSpace(c); }
    if Visible(c) {
      forall k | 0 <= k <= n ensures !IsSpace(t[k..]) { VisibleIsNoSpace(t[k..]); }
    }
  }

  lemma {:induction false} BlankInFront(a: string, s: string)
    requires Blank(a) && s != "" && Visible(s[0])
    ensures TrimLeft(a + s) == s
  {
    hide TrimLeft;
    if a == "" {
      assert a + s == s == [s[0]] + s[1..];
      TrimLeftStep(s[0], s[1..]);
    } else {
      assert a + s == [a[0]] + (a[1..] + s);
      TrimLeftStep(a[0], a[1..] + s);
      BlankInFront(a[1..], s);
    }
  }

  lemma {:induction false} BlankBehind(s: string, b: string)
    requires Blank(b) && s != "" && Visible(s[|s| - 1])
    ensures TrimRight(s + b) == s
  {
    hide TrimRight;
    if b == "" {
      assert s + b == s == s[..|s| - 1] + [s[|s| - 1]];
      TrimRightStep(s[..|s| - 1], s[|s| - 1]);
    } else {
      var n := |b| - 1;
      assert s + b == (s + b[..n]) + [b[n]];
      TrimRightStep(s + b[..n], b[n]);
      BlankBehind(s, b[..n]);
    }
  }

  /** Extension, line end and the white space around it do not count for a size. */
  lemma SizeLine(a: string, size: string, b: string, extension: string)
    requires Blank(a) && Blank(b) && (extension == "" || extension[0] == ';')
    requires size != "" && Visible(size[0]) && Visible(size[|size| - 1]) && ';' !in size
    ensures HeaderSize(a + size + b + extension + "\r\n") == ParseInt(size, 16)
  {
    hide TrimLineEnd, TrimLeft, TrimRight, ParseInt, CutExtension;
    var core := a + size + b;
    assert core[|core| - 1] !in {'\r', '\n'} by { if b != "" { assert core[|core| - 1] == b[|b| - 1]; } }
    forall c | c in core ensures c != ';' {
      var i :| 0 <= i < |core| && core[i] == c;
      assert c == if i < |a| then a[i] else if i < |a + size| then size[i - |a|] else b[i - |a + size|];
    }
    HeaderLineCut(core, extension);
    assert core == a + (size + b) && (size + b)[0] == size[0];
    BlankInFront(a, size + b);
    BlankBehind(size, b);
  }

  /** What has anything but hexadecimal digits behind its sign is no size. */
  lemma NoSizeLine(a: string, size: string, b: string, extension: string, i: nat)
    requires Blank(a) && Blank(b) && (extension == "" || extension[0] == ';')
    requires size != "" && Visible(size[0]) && Visible(size[|size| - 1]) && ';' !in size
    requires i < |size| && size[i] !in "0123456789abcdefABCDEF" && (i == 0 ==> size[0] !in {'+', '-'})
    ensures HeaderSize(a + size + b + extension + "\r\n") == None
  {
    SizeLine(a, size, b, extension);
    DigitsAre(size[i]);
    NoNumeral(size, 16, i);
  }

  /** "1F", " 1f " and "+1f;x" announce 31 bytes. */
  lemma SizeLineExamples()
    ensures HeaderSize("1F\r\n") == HeaderSize(" 1f \r\n") == HeaderSize("+1f;x\r\n") == Some(31)
  {
    hide HeaderSize, ParseInt;
    assert "" + "1F" + "" + "" + "\r\n" == "1F\r\n" && " " + "1f" + " " + "" + "\r\n" == " 1f \r\n";
    assert "" + "+1f" + "" + ";x" + "\r\n" == "+1f;x\r\n";
    SizeLine("", "1F", "", "");
    SizeLine(" ", "1f", " ", "");
    SizeLine("", "+1f", "", ";x");
    ThirtyOne();
  }

  /** "0x1f" and "1 f" are refused. */
  lemma NoSizeExamples()
    ensures HeaderSize("0x1f\r\n") == HeaderSize("1 f\r\n") == None
  {
    hide HeaderSize;
    var hex, spaced := "0x1f", "1 f";
    assert "" + hex + "" + "" + "\r\n" == "0x1f\r\n";
    assert "" + spaced + "" + "" + "\r\n" == "1 f\r\n";
    NoSizeLine("", hex, "", "", 1);
    NoSizeLine("", spaced, "", "", 1);
  }

  lemma ThirtyOne()
    ensures ParseInt("1F", 16) == ParseInt("1f", 16) == ParseInt("+1f", 16) == Some(31)
  {
    assert "1f"[..1] == "1F"[..1] == "1" && "1"[..0] == "";
    assert "+1f"[1..] == "1f";
    assert AllDigits("1f", 16) && AllDigits("1F", 16);
    assert Value("1", 16) == 1;
  }

  /** A header line is read back as the size it announces. */
  lemma HeaderReadBack(size: Bytes, extension: Bytes, n: nat)
    requires HexOf(size, n) && WellFormedExtension(extension)
    ensures HeaderSize(Header(size, extension)) == Some(n)
  {
    forall c | c in size ensures c !in {';', '\r', '\n'} { DigitIsPlain(c); }
    assert size[|size| - 1] in size;
    assert Header(size, extension) == size + extension + "\r\n";
    HeaderLineCut(size, extension);
    NothingToTrim(size);
  }

  lemma HeaderHasOneNewline(size: Bytes, extension: Bytes, rest: Bytes)
    requires AllDigits(size, 16) && WellFormedExtension(extension)
    ensures var line := Header(size, extension);
            IndexByte(line + rest, '\n') == |line| - 1 && '\n' !in line[..|line| - 1]
  {
    var line := Header(size, extension);
    forall c | c in size ensures c != '\n' { DigitIsPlain(c); }
    var before := size + extension + ['\r'];
    assert line == before + ['\n'];
    assert line[..|line| - 1] == before;
    var s := line + rest;
    var i := IndexByte(s, '\n');
    assert s == before + ['\n'] + rest;
    assert s[|before|] == '\n';
    assert s == s[..i] + ['\n'] + s[i + 1..];
    FirstCutUnique(s[..i], s[i + 1..], before, rest, '\n');
  }

  // ---------------------------------------------------------------------------
  // Whole streams read back
  // ---------------------------------------------------------------------------

  lemma DecodeHeader(size: Bytes, extension: Bytes, n: nat, rest: Bytes)
    requires HexOf(size, n) && WellFormedExtension(extension)
    ensures Decode(Header(size, extension) + rest)
            == if n == 0 then Decoded([], Complete) else DecodeData(n, rest)
  {
    var line := Header(size, extension);
    HeaderHasOneNewline(size, extension, rest);
    HeaderReadBack(size, extension, n);
    assert (line + rest)[..|line|] == line && (line + rest)[|line|..] == rest;
  }

  lemma AfterLineEnd(junk: Bytes, rest: Bytes)
    requires '\n' !in junk
    ensures AfterLine(junk + ['\n'] + rest) == rest
  {
    var s := junk + ['\n'] + rest;
    var i := IndexByte(s, '\n');
    assert s[|junk|] == '\n';
    assert s == s[..i] + ['\n'] + s[i + 1..];
    FirstCutUnique(s[..i], s[i + 1..], junk, rest, '\n');
  }

  /** Whatever stands between the data of a chunk and the next newline is skipped. */
  lemma DecodeJunk(c: Chunk, junk: Bytes, rest: Bytes)
    requires WellFormed(c) && '\n' !in junk
    ensures Decode(Header(c.size, c.extension) + (c.data + (junk + ['\n'] + rest))) == Prepend(c.data, Decode(rest))
  {
    hide Decode, HeaderSize, AfterLine, HexOf;
    var body := c.data + (junk + ['\n'] + rest);
    DecodeHeader(c.size, c.extension, |c.data|, body);
    assert body[..|c.data|] == c.data && body[|c.data|..] == junk + ['\n'] + rest;
    AfterLineEnd(junk, rest);
  }

  lemma DecodeChunk(c: Chunk, rest: Bytes)
    requires WellFormed(c)
    ensures Decode(EncodeChunk(c) + rest) == Prepend(c.data, Decode(rest))
  {
    hide Decode, HexOf;
    assert EncodeChunk(c) + rest == Header(c.size, c.extension) + (c.data + (['\r'] + ['\n'] + rest));
    DecodeJunk(c, ['\r'], rest);
  }

  /** The decoder undoes the framing, whatever follows the zero-size line. */
  lemma {:induction false} DecodeUndoesEncode(chunks: seq<Chunk>, last: Chunk, tail: Bytes)
    requires AllWellFormed(chunks) && IsLast(last)
    ensures Decode(Encode(chunks, last) + tail) == Decoded(Payload(chunks), Complete)
  {
    if chunks == [] {
      DecodeHeader(last.size, last.extension, 0, tail);
    } else {
      var rest := Encode(chunks[1..], last) + tail;
      assert Encode(chunks, last) + tail == EncodeChunk(chunks[0]) + rest;
      DecodeChunk(chunks[0], rest);
      DecodeUndoesEncode(chunks[1..], last, tail);
    }
  }

  lemma OneDigit(size: Bytes)
    requires |size| == 1 && 0 <= DigitValue(size[0])
    ensures HexOf(size, DigitValue(size[0]))
  {
    DigitsAre(size[0]);
    assert size[..0] == [];
  }

  /** A whole stream. */
  lemma DecodeExample(stream: Bytes)
    requires stream == "2;x\r\nhi\r\n0\r\n"
    ensures Decode(stream).payload == "hi" && Decode(stream).ending == Complete
  {
    hide Decode, HexOf;
    var c := Chunk(stream[..1], stream[1..3], stream[5..7]);
    OneDigit(c.size);
    OneDigit(stream[9..10]);
    assert c.size == "2" && c.extension == ";x" && c.data == "hi" && stream[9..10] == "0";
    assert EncodeChunk(c) == stream[..9] && Header(stream[9..10], []) == stream[9..];
    assert stream == EncodeChunk(c) + Header(stream[9..10], []);
    assert stream[9..] + [] == stream[9..];
    DecodeChunk(c, stream[9..]);
    DecodeHeader(stream[9..10], [], 0, []);
    assert c.data + [] == "hi";
  }

  /** A header line cut before its newline. */
  lemma DecodeCutHeader(size: Bytes, extension: Bytes, cut: Bytes)
    requires AllDigits(size, 16) && WellFormedExtension(extension)
    requires cut <= Header(size, extension) && cut != Header(size, extension)
    ensures Decode(cut) == Decoded([], HeaderCut)
  {
    var line := Header(size, extension);
    HeaderHasOneNewline(size, extension, []);
    var before := line[..|line| - 1];
    assert cut <= before;
    forall k | 0 <= k < |cut| ensures cut[k] != '\n' {
      assert cut[k] == before[k] && before[k] in before;
    }
  }

  /** Chunk data cut before the end of its line: cut data, or a missing header. */
  lemma DecodeCutData(data: Bytes, body: Bytes)
    requires data != [] && body <= data + ['\r', '\n'] && body != data + ['\r', '\n']
    ensures body <= data || data <= body
    ensures DecodeData(|data|, body) == if |body| < |data| then Decoded(body, DataCut) else Decoded(data, HeaderCut)
  {
    hide HeaderSize;
    if |body| >= |data| {
      assert body[..|data|] == data;
      var rest := body[|data|..];
      assert rest == [] || rest == ['\r'];
      assert AfterLine(rest) == [];
      assert Decode([]) == Decoded([], HeaderCut);
    }
  }

  /** A chunk cut before its end: its data so far, and no end of stream. Data is
      what is cut behind the header line and before the last byte of the data. */
  lemma DecodeCutChunk(c: Chunk, cut: Bytes)
    requires WellFormed(c)
    requires cut <= EncodeChunk(c) && cut != EncodeChunk(c)
    ensures Decode(cut).payload <= c.data
    ensures Decode(cut).ending in {HeaderCut, DataCut}
    ensures var h := |Header(c.size, c.extension)|;
            Decode(cut).ending == DataCut <==> h <= |cut| < h + |c.data|
  {
    hide Decode, DecodeData, HexOf, Header, EncodeChunk;
    var line, rest := Header(c.size, c.extension), c.data + ['\r', '\n'];
    assert EncodeChunk(c) == line + rest by { ChunkParts(c); }
    NumeralHasDigits(c.size, |c.data|);
    CutOfTwo(line, rest, cut);
    if |cut| < |line| {
      DecodeCutHeader(c.size, c.extension, cut);
    } else {
      DecodeHeader(c.size, c.extension, |c.data|, cut[|line|..]);
      DecodeCutData(c.data, cut[|line|..]);
    }
  }

  lemma ChunkParts(c: Chunk)
    ensures EncodeChunk(c) == Header(c.size, c.extension) + (c.data + ['\r', '\n'])
  {
  }

  lemma CutOfTwo(line: Bytes, rest: Bytes, cut: Bytes)
    requires cut <= line + rest && cut != line + rest
    ensures |cut| < |line| ==> cut <= line && cut != line
    ensures |cut| >= |line| ==> cut == line + cut[|line|..] && cut[|line|..] <= rest && cut[|line|..] != rest
  {
  }

  lemma NumeralHasDigits(size: Bytes, n: nat)
    requires HexOf(size, n)
    ensures AllDigits(size, 16)
  {
  }

  /** Cut anywhere, a well-formed stream yields a prefix of its payload, and its
      end is seen if and only if the whole zero-size line arrived. */
  lemma {:induction false} TruncationIsSeen(chunks: seq<Chunk>, last: Chunk, tail: Bytes, cut: Bytes)
    requires AllWellFormed(chunks) && IsLast(last)
    requires cut <= Encode(chunks, last) + tail
    ensures Decode(cut).payload <= Payload(chunks)
    ensures Decode(cut).ending in {Complete, HeaderCut, DataCut}
    ensures Decode(cut).ending == Complete <==> |cut| >= |Encode(chunks, last)|
    ensures Decode(cut).ending == Complete ==> Decode(cut).payload == Payload(chunks)
  {
    var framed := Encode(chunks, last);
    if |cut| >= |framed| {
      assert cut == framed + cut[|framed|..];
      DecodeUndoesEncode(chunks, last, cut[|framed|..]);
    } else if chunks == [] {
      DecodeCutHeader(last.size, last.extension, cut);
    } else {
      var first := EncodeChunk(chunks[0]);
      if |cut| < |first| {
        DecodeCutChunk(chunks[0], cut);
      } else {
        var rest := cut[|first|..];
        assert cut == first + rest;
        assert rest <= Encode(chunks[1..], last) + tail;
        DecodeChunk(chunks[0], rest);
        TruncationIsSeen(chunks[1..], last, tail, rest);
      }
    }
  }

  /** Where the i-th chunk starts in the framed stream. */
  function Offset(chunks: seq<Chunk>, i: nat): nat
    requires i <= |chunks|
  {
    if i == 0 then 0 else |EncodeChunk(chunks[0])| + Offset(chunks[1..], i - 1)
  }

  /** The first `n` bytes of the stream reach behind the i-th chunk's header line
      and not to the last byte of its data. */
  ghost predicate CutInData(chunks: seq<Chunk>, i: nat, n: nat)
    requires i < |chunks|
  {
    var data := Offset(chunks, i) + |Header(chunks[i].size, chunks[i].extension)|;
    data <= n < data + |chunks[i].data|
  }

  ghost predicate CutInSomeData(chunks: seq<Chunk>, n: nat) {
    exists i: nat :: i < |chunks| && CutInData(chunks, i, n)
  }

  lemma CutStep(chunks: seq<Chunk>, n: nat)
    requires chunks != []
    ensures var h, first := |Header(chunks[0].size, chunks[0].extension)|, |EncodeChunk(chunks[0])|;
            && first == h + |chunks[0].data| + 2
            && (CutInSomeData(chunks, n)
                <==> h <= n < h + |chunks[0].data| || (n >= first && CutInSomeData(chunks[1..], n - first)))
  {
    var h, first := |Header(chunks[0].size, chunks[0].extension)|, |EncodeChunk(chunks[0])|;
    if i: nat :| i < |chunks| && CutInData(chunks, i, n) {
      if i > 0 {
        assert chunks[1..][i - 1] == chunks[i];
        assert CutInData(chunks[1..], i - 1, n - first);
      }
    }
    if h <= n < h + |chunks[0].data| { assert CutInData(chunks, 0, n); }
    if n >= first && CutInSomeData(chunks[1..], n - first) {
      var i: nat :| i < |chunks[1..]| && CutInData(chunks[1..], i, n - first);
      assert chunks[1..][i] == chunks[i + 1];
      assert CutInData(chunks, i + 1, n);
    }
  }

  /** Which cuts of a well-formed stream end in the middle of data: those behind
      the header line of a chunk and before the last byte of its data. */
  lemma {:induction false} DataCutIff(chunks: seq<Chunk>, last: Chunk, tail: Bytes, cut: Bytes)
    requires AllWellFormed(chunks) && IsLast(last)
    requires cut <= Encode(chunks, last) + tail
    ensures Decode(cut).ending == DataCut <==> CutInSomeData(chunks, |cut|)
  {
    hide Decode, HexOf, Header, CutInSomeData;
    if chunks == [] {
      TruncationIsSeen(chunks, last, tail, cut);
      NumeralHasDigits(last.size, 0);
      if |cut| < |Encode(chunks, last)| { DecodeCutHeader(last.size, last.extension, cut); }
      NoChunkNoData(|cut|);
    } else {
      var first := EncodeChunk(chunks[0]);
      CutStep(chunks, |cut|);
      if |cut| < |first| {
        DecodeCutChunk(chunks[0], cut);
      } else {
        var rest := cut[|first|..];
        assert cut == first + rest;
        assert rest <= Encode(chunks[1..], last) + tail;
        DecodeChunk(chunks[0], rest);
        DataCutIff(chunks[1..], last, tail, rest);
      }
    }
  }

  lemma NoChunkNoData(n: nat)
    ensures !CutInSomeData([], n)
  {
  }

  /** The stream "5\r\nhel" is cut in its data. */
  lemma CutDataExample()
    ensures Decode(['5', '\r', '\n', 'h', 'e', 'l']) == Decoded(['h', 'e', 'l'], DataCut)
  {
    var cut: Bytes := ['5', '\r', '\n', 'h', 'e', 'l'];
    assert ['5'][..0] == [];
    assert HexOf(['5'], 5);
    assert cut == Header(['5'], []) + ['h', 'e', 'l'];
    DecodeHeader(['5'], [], 5, ['h', 'e', 'l']);
  }

  /** The framing a client writes, `%x` of each length, is well formed. */
  function Hex(n: nat): (s: Bytes)
    ensures s != []
  {
    if n < 16 then ["0123456789abcdef"[n]] else Hex(n / 16) + ["0123456789abcdef"[n % 16]]
  }

  lemma {:induction false} HexIsNumeral(n: nat)
    requires n <= MAX_INT64
    ensures HexOf(Hex(n), n)
  {
    HexDigits(n % 16);
    if n >= 16 {
      HexIsNumeral(n / 16);
      assert Hex(n)[..|Hex(n)| - 1] == Hex(n / 16);
    } else {
      assert Hex(n)[..0] == [];
    }
  }

  lemma HexDigits(d: nat)
    requires d < 16
    ensures DigitValue("0123456789abcdef"[d]) == d
  {
  }

  // ---------------------------------------------------------------------------
  // The reader
  // ---------------------------------------------------------------------------

  datatype ReadError = NoError | EndOfFile | HeaderError | SizeError | SliceError | Upstream

  /** What one `Read` does to a stream that decodes to `before`: it hands out the
      next bytes, or an error that says exactly how the stream stands. */
  ghost predicate Outcome(before: Decoded, got: Bytes, err: ReadError, after: Decoded) {
    && (if err in {NoError, Upstream} then before == Prepend(got, after) else got == [])
    && (err == EndOfFile <==> before == Decoded([], Complete))
    && (err == HeaderError <==> before == Decoded([], HeaderCut))
    && (err == SizeError <==> before == Decoded([], BadSize))
    && (err == SliceError <==> before == Decoded([], NegativeSize))
  }

  /** A sequence of reads, each from where the one before it left the stream. */
  ghost predicate Reads(rests: seq<Decoded>, gots: seq<Bytes>, errs: seq<ReadError>) {
    && |rests| == |gots| + 1 && |errs| == |gots|
    && forall i :: 0 <= i < |gots| ==> Outcome(rests[i], gots[i], errs[i], rests[i + 1])
  }

  function Joined(gots: seq<Bytes>): Bytes {
    if gots == [] then [] else Joined(gots[..|gots| - 1]) + gots[|gots| - 1]
  }

  lemma JoinedStep(gots: seq<Bytes>, got: Bytes)
    ensures Joined([]) == [] && Joined(gots + [got]) == Joined(gots) + got
  {
    assert (gots + [got])[..|gots|] == gots;
  }

  /** Whatever the buffers and short reads, the bytes of successive reads are the
      payload in order. */
  lemma {:induction false} ReadsDeliver(rests: seq<Decoded>, gots: seq<Bytes>, errs: seq<ReadError>)
    requires Reads(rests, gots, errs) && forall i :: 0 <= i < |errs| ==> errs[i] in {NoError, Upstream}
    ensures rests[0] == Prepend(Joined(gots), rests[|gots|])
  {
    if gots != [] {
      var n := |gots| - 1;
      ReadsDeliver(rests[..n + 1], gots[..n], errs[..n]);
      assert Outcome(rests[n], gots[n], errs[n], rests[n + 1]);
      assert rests[0].payload == Joined(gots[..n]) + (gots[n] + rests[n + 1].payload);
    }
  }

  /** Once the data of a chunk is cut short, reads give no byte and no error for
      ever, unless the transport itself reports one. */
  lemma {:induction false} CutDataNeverEnds(rests: seq<Decoded>, gots: seq<Bytes>, errs: seq<ReadError>, i: nat)
    requires Reads(rests, gots, errs) && rests[0] == Decoded([], DataCut)
    requires i < |gots| && forall j :: 0 <= j < i ==> errs[j] in {NoError, Upstream}
    ensures gots[i] == [] && errs[i] in {NoError, Upstream} && rests[i + 1] == rests[0]
  {
    assert Outcome(rests[i], gots[i], errs[i], rests[i + 1]);
    if i > 0 { CutDataNeverEnds(rests, gots, errs, i - 1); }
  }

  /** A stream at a header line makes `Read` panic if and only if the line
      announces a negative size. */
  lemma NegativeIffHeader(data: Bytes)
    ensures Decode(data) == Decoded([], NegativeSize)
            <==> '\n' in data && HeaderSize(data[..IndexByte(data, '\n') + 1]).Some?
                 && HeaderSize(data[..IndexByte(data, '\n') + 1]).value < 0
  {
    hide Decode, DecodeData, HeaderSize;
    DecodeByHeader(data);
    if '\n' in data && HeaderSize(data[..IndexByte(data, '\n') + 1]).Some? {
      var size := HeaderSize(data[..IndexByte(data, '\n') + 1]).value;
      if size > 0 { DecodeDataRead(size, AfterLine(data), 0); }
    }
  }

  /** The line "-1" is such a header. */
  lemma NegativeSizeExample(rest: Bytes)
    ensures Decode(['-', '1', '\r', '\n'] + rest) == Decoded([], NegativeSize)
  {
    var line: Bytes := ['-', '1', '\r', '\n'];
    var data := line + rest;
    assert data[..3] == ['-', '1', '\r'];
    assert data == ['-', '1', '\r'] + ['\n'] + rest;
    var i := IndexByte(data, '\n');
    assert data[3] == '\n';
    assert data == data[..i] + ['\n'] + data[i + 1..];
    FirstCutUnique(data[..i], data[i + 1..], ['-', '1', '\r'], rest, '\n');
    assert data[..4] == line;
    MinusOne(line);
    NegativeIffHeader(data);
  }

  lemma MinusOne(line: Bytes)
    requires line == ['-', '1', '\r', '\n']
    ensures HeaderSize(line) == Some(-1)
  {
    hide TrimSpace;
    assert line[..3] == ['-', '1', '\r'] && line[..3][..2] == ['-', '1'];
    assert TrimLineEnd(line) == TrimLineEnd(line[..3]) == TrimLineEnd(['-', '1']) == ['-', '1'];
    assert CutExtension(['-', '1']) == ['-', '1'];
    NothingToTrim(['-', '1']);
    assert ['-', '1'][1..] == ['1'] && ['1'][..0] == [];
    assert Value(['1'], 16) == 1;
  }

  /** How the bytes handed out stand to the whole decoding. */
  lemma DeliveredSoFar(whole: Decoded, delivered: Bytes, rest: Decoded)
    requires whole == Prepend(delivered, rest)
    ensures delivered <= whole.payload
    ensures forall e :: rest == Decoded([], e) <==> whole.ending == e && delivered == whole.payload
  {
  }

  lemma DeliveredOn(whole: Decoded, delivered: Bytes, rest: Decoded, got: Bytes, after: Decoded)
    requires whole == Prepend(delivered, rest) && rest == Prepend(got, after)
    ensures whole == Prepend(delivered + got, after)
  {
    assert delivered + (got + after.payload) == delivered + got + after.payload;
  }

  lemma NothingDelivered(d: Decoded)
    ensures Prepend([], d) == d
  {
  }

  /** `bufio.Reader` over a request body that ends, at the latest, when `data`
      is used up: with EOF, or with a transport error. */
  class BufferedBody {
    var data: Bytes
    /** Whether the body ends with a transport error. */
    const broken: bool
    /** Reads that returned no byte though some were left. */
    ghost var stalls: nat

    constructor (data: Bytes, broken: bool)
      ensures this.data == data && this.broken == broken && stalls == 0
    {
      this.data := data;
      this.broken := broken;
      stalls := 0;
    }

    function AtEnd(): ReadError {
      if broken then Upstream else EndOfFile
    }

    /** `ReadString('\n')`: through the first newline, or all there is. */
    method ReadString() returns (line: Bytes, err: ReadError)
      modifies this`data
      ensures old(data) == line + data && data == AfterLine(old(data))
      ensures '\n' in old(data) <==> err == NoError
      ensures err == NoError ==> line == old(data)[..IndexByte(old(data), '\n') + 1]
      ensures err != NoError ==> err == AtEnd()
    {
      var i := IndexByte(data, '\n');
      if i >= 0 {
        assert data[i] in data;
        line, err := data[..i + 1], NoError;
        data := data[i + 1..];
      } else {
        line, err := data, AtEnd();
        data := [];
      }
    }

    /** `Read(p[:limit])`: any number of bytes up to `limit`, and the end
        reported with the last of them or after. */
    method Read(p: array<Byte>, limit: nat) returns (n: nat, err: ReadError)
      requires limit <= p.Length
      modifies this`data, this`stalls, p
      ensures n <= limit && n <= |old(data)|
      ensures p[..n] == old(data)[..n] && p[n..] == old(p[n..])
      ensures data == old(data)[n..]
      ensures err == NoError || (err == AtEnd() && data == [])
      ensures n == 0 && limit > 0 && err == NoError ==> stalls > old(stalls)
    {
      n :| 0 <= n <= limit && n <= |data|;
      forall k | 0 <= k < n {
        p[k] := data[k];
      }
      var early: bool := *;
      err := if |data| == n && (early || n == 0) then AtEnd() else NoError;
      if n == 0 && err == NoError {
        stalls := stalls + 1;
      }
      data := data[n..];
    }
  }

  class ChunkedReader {
    const rd: BufferedBody
    var remaining: int
    var done: bool
    /** The decoding of the body, the bytes handed out so far, and whether no
        decoding error has been reported. */
    ghost const whole: Decoded
    ghost var delivered: Bytes
    ghost var intact: bool

    constructor (rd: BufferedBody)
      ensures this.rd == rd && remaining == 0 && !done
      ensures whole == Decode(rd.data) && delivered == [] && intact && InStep()
    {
      hide Decode, DecodeData, AfterLine;
      this.rd := rd;
      remaining := 0;
      done := false;
      whole := Decode(rd.data);
      delivered := [];
      intact := true;
      new;
      NothingDelivered(whole);
    }

    /** What is still to come of the stream's decoding. */
    ghost function Rest(): Decoded
      reads this, rd
    {
      if done then Decoded([], Complete)
      else if remaining == 0 then Decode(rd.data)
      else if remaining < 0 then Decoded([], NegativeSize)
      else DecodeData(remaining, rd.data)
    }

    /** The bytes handed out and those to come make up the whole decoding. */
    ghost predicate InStep()
      reads this, rd
    {
      intact ==> whole == Prepend(delivered, Rest())
    }

    /** Reads header lines until one announces data. */
    method NextHeader() returns (err: ReadError)
      requires !done
      modifies this`remaining, this`done, rd
      ensures err == NoError ==> remaining != 0 && !done && Rest() == old(Rest())
      ensures err == EndOfFile <==> done
      ensures done ==> old(Rest()) == Decoded([], Complete) && Rest() == old(Rest())
      ensures err == HeaderError ==> old(Rest()) == Decoded([], HeaderCut)
      ensures err == SizeError ==> old(Rest()) == Decoded([], BadSize)
      ensures err in {NoError, EndOfFile, HeaderError, SizeError}
      ensures rd.stalls == old(rd.stalls)
    {
      hide Decode, DecodeData, AfterLine, HeaderSize;
      DecodeByHeader(rd.data);
      while remaining == 0
        invariant !done && (remaining == 0 ==> rd.data == old(rd.data))
        invariant rd.stalls == old(rd.stalls)
        invariant Rest() == old(Rest())
        decreases if remaining == 0 then 1 else 0
      {
        var line, lineErr := rd.ReadString();
        if lineErr != NoError {
          return HeaderError;
        }
        match HeaderSize(line)
        case None =>
          return SizeError;
        case Some(size) =>
          if size == 0 {
            done := true;
            return EndOfFile;
          }
          remaining := size;
      }
      err := NoError;
    }

    /** Reads chunk data, and the line end after the last of it. */
    method ReadData(p: array<Byte>) returns (n: nat, err: ReadError)
      requires !done && remaining > 0
      modifies this`remaining, rd, p
      ensures n <= p.Length && p[n..] == old(p[n..])
      ensures old(Rest()) == Prepend(p[..n], Rest())
      ensures err == NoError || (err == Upstream && rd.broken && rd.data == [])
      ensures n == 0 && err == NoError && p.Length > 0
              ==> rd.stalls > old(rd.stalls) || old(Rest()) == Decoded([], DataCut)
      ensures old(Rest()).payload != [] || old(Rest()).ending == DataCut
    {
      hide Decode, DecodeData, AfterLine, Prepend;
      var toRead := p.Length;
      if toRead > remaining {
        toRead := remaining;
      }
      DecodeDataRead(remaining, rd.data, 0);
      var readErr;
      n, readErr := rd.Read(p, toRead);
      DecodeDataRead(remaining, old(rd.data), n);
      remaining := remaining - n;
      if remaining == 0 {
        var _, _ := rd.ReadString();
      }
      err := if readErr == EndOfFile then NoError else readErr;
    }

    /** Fills `p` with the next decoded bytes, on any stream whatever. */
    method Read(p: array<Byte>) returns (n: nat, err: ReadError)
      requires InStep()
      modifies this, rd, p
      ensures InStep() && n <= p.Length && p[n..] == old(p[n..])
      ensures delivered == old(delivered) + p[..n]
      ensures intact == (old(intact) && err in {NoError, Upstream, EndOfFile})
      // The bytes are the next of the decoding; an error tells how the stream stands.
      ensures Outcome(old(Rest()), p[..n], err, Rest())
      ensures err == EndOfFile ==> Rest() == old(Rest())
      ensures err == Upstream ==> rd.broken && rd.data == []
      // Seen from the beginning: a prefix of the payload, its end, or a panic.
      ensures old(intact) ==> delivered <= whole.payload
      ensures old(intact) ==>
                (err == EndOfFile <==> whole.ending == Complete && old(delivered) == whole.payload)
      ensures old(intact) ==>
                (err == SliceError <==> whole.ending == NegativeSize && old(delivered) == whole.payload)
      // A byte is returned unless none is left, none is wanted, or none was ready.
      ensures n == 0 && err == NoError && p.Length > 0
              ==> rd.stalls > old(rd.stalls) || old(Rest()) == Decoded([], DataCut)
    {
      hide Decode, DecodeData, AfterLine, Prepend;
      ghost var before := Rest();
      NothingDelivered(before);
      if intact { DeliveredSoFar(whole, delivered, before); }
      assert delivered + [] == delivered && p[..0] == [];
      if done {
        return 0, EndOfFile;
      }
      err := NextHeader();
      if err != NoError {
        intact := intact && err == EndOfFile;
        return 0, err;
      }
      if remaining < 0 {
        intact := false;
        return 0, SliceError; // p[:toRead] panics
      }
      n, err := ReadData(p);
      if intact {
        DeliveredOn(whole, delivered, before, p[..n], Rest());
        DeliveredSoFar(whole, delivered + p[..n], Rest());
      }
      delivered := delivered + p[..n];
    }
  }
}
