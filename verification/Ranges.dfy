/** HTTP byte ranges in 64-bit arithmetic (internal/backend/gcs.go,
    internal/backend/local.go, internal/backend/azure.go), against sections 14.1.2
    and 14.4 of RFC 9110. */
module Ranges {
  import opened Strings
  import opened Strconv

  /** Two's complement wrap-around of int64. */
  function Wrap(n: int): (r: int)
    ensures MIN_INT64 <= r <= MAX_INT64
    ensures MIN_INT64 <= n <= MAX_INT64 ==> r == n
  {
    (n - MIN_INT64) % 0x1_0000_0000_0000_0000 + MIN_INT64
  }

  /** `strings.SplitN(s, "-", 2)`, when there is a dash. */
  function SplitDash(s: string): Option<(string, string)> {
    var i := IndexByte(s, '-');
    if i < 0 then None else Some((s[..i], s[i + 1..]))
  }

  // ---------------------------------------------------------------------------
  // Parsing
  // ---------------------------------------------------------------------------

  /** "bytes=a-b" or "bytes=a-" as (offset, length), length -1 meaning to the end. */
  function ParseHTTPRange(r: string): Option<(int, int)> {
    match SplitDash(TrimPrefix(r, "bytes="))
    case None => None
    case Some((first, last)) =>
      if first == "" then None
      else
        match ParseInt(first, 10)
        case None => None
        case Some(offset) =>
          if last == "" then Some((offset, -1))
          else
            match ParseInt(last, 10)
            case None => None
            case Some(end) => Some((offset, Wrap(Wrap(end - offset) + 1)))
  }

  /** The same as (offset, count), count 0 meaning to the end. */
  function ParseAzureRange(r: string): Option<(int, int)> {
    var parts := SplitDash(TrimPrefix(r, "bytes="));
    if parts.None? || parts.value.0 == "" then None
    else
      match ParseInt(parts.value.0, 10)
      case None => None
      case Some(offset) =>
        if parts.value.1 == "" then Some((offset, 0))
        else
          match ParseInt(parts.value.1, 10)
          case None => None
          case Some(end) => Some((offset, Wrap(Wrap(end - offset) + 1)))
  }

  /** The bytes a parsed range stands for. */
  datatype Span = ToEnd(offset: int) | Exactly(offset: int, count: int)

  function HttpSpan(p: (int, int)): Span {
    if p.1 < 0 then ToEnd(p.0) else Exactly(p.0, p.1)
  }

  function AzureSpan(p: (int, int)): Span {
    if p.1 == 0 then ToEnd(p.0) else Exactly(p.0, p.1)
  }

  lemma ParseWithoutDash(s: string, n: int)
    requires ParseInt(s, 10) == Some(n) && '-' !in s
    ensures n >= 0
  {
    assert s != "";
    assert s[0] in s;
  }

  /** The first number is never negative: a dash before it would have cut there. */
  lemma OffsetNotNegative(r: string)
    requires ParseHTTPRange(r).Some?
    ensures 0 <= ParseHTTPRange(r).value.0 <= MAX_INT64
  {
    var s := TrimPrefix(r, "bytes=");
    var i := IndexByte(s, '-');
    ParseWithoutDash(s[..i], ParseHTTPRange(r).value.0);
  }

  /** Both parsers accept the same strings, with the same offset, and they stand
      for the same bytes if and only if the range is open-ended or its length is
      positive in 64 bits. */
  lemma ParsersAgree(r: string)
    ensures ParseHTTPRange(r).Some? <==> ParseAzureRange(r).Some?
    ensures ParseHTTPRange(r).Some? ==>
              var h, a := ParseHTTPRange(r).value, ParseAzureRange(r).value;
              var open := SplitDash(TrimPrefix(r, "bytes=")).value.1 == "";
              && h.0 == a.0
              && (HttpSpan(h) == AzureSpan(a) <==> open || h.1 > 0)
  {
  }

  // ---------------------------------------------------------------------------
  // Well-formed headers
  // ---------------------------------------------------------------------------

  /** 1*DIGIT: any number of digits, leading zeros included. */
  ghost predicate IsNumeral(s: string) {
    s != "" && AllDigits(s, 10)
  }

  function Header(first: string, last: string): string {
    "bytes=" + first + "-" + last
  }

  function RangeHeader(first: nat, last: nat): string {
    Header(Itoa(first), Itoa(last))
  }

  lemma ItoaIsNumeral(n: nat)
    ensures IsNumeral(Itoa(n)) && Value(Itoa(n), 10) == n
  {
    ItoaValue(n);
  }

  /** A numeral is parsed unless its value exceeds int64. */
  lemma ParseNumeral(s: string)
    requires IsNumeral(s)
    ensures ParseInt(s, 10) == if Value(s, 10) <= MAX_INT64 then Some(Value(s, 10)) else None
    ensures '-' !in s
  {
    NumeralIsUnsigned(s, 10);
    assert DigitValue('-') == -1;
  }

  lemma FormatOfNat(n: nat)
    ensures FormatInt(n) == Itoa(n)
  {
  }

  lemma DashCut(a: string, b: string)
    requires '-' !in a
    ensures SplitDash(a + ['-'] + b) == Some((a, b))
  {
    var s := a + ['-'] + b;
    var i := IndexByte(s, '-');
    assert s[|a|] == '-';
    assert s == s[..i] + ['-'] + s[i + 1..];
    FirstCutUnique(s[..i], s[i + 1..], a, b, '-');
  }

  lemma HeaderCut(first: string, last: string)
    requires '-' !in first
    ensures SplitDash(TrimPrefix(Header(first, last), "bytes=")) == Some((first, last))
  {
    var s := first + ['-'] + last;
    assert Header(first, last) == "bytes=" + s;
    assert TrimPrefix(Header(first, last), "bytes=") == s;
    DashCut(first, last);
  }

  /** The parsed form of `first-last`, if both numbers are int64. */
  function Parsed(first: nat, last: nat): Option<(int, int)> {
    if first <= MAX_INT64 && last <= MAX_INT64 then Some((first, Wrap(last - first + 1))) else None
  }

  /** Both parsers read any well-formed closed range that way. */
  lemma ParseReadsBack(first: string, last: string)
    requires IsNumeral(first) && IsNumeral(last)
    ensures ParseHTTPRange(Header(first, last)) == Parsed(Value(first, 10), Value(last, 10))
    ensures ParseAzureRange(Header(first, last)) == Parsed(Value(first, 10), Value(last, 10))
  {
    hide IsNumeral, ParseInt, Header, SplitDash;
    ParseNumeral(first);
    ParseNumeral(last);
    NumeralIsSome(first);
    NumeralIsSome(last);
    HeaderCut(first, last);
    var a, b := Value(first, 10), Value(last, 10);
    if a <= MAX_INT64 && b <= MAX_INT64 { assert Wrap(b - a) == b - a; }
  }

  lemma NumeralIsSome(s: string)
    requires IsNumeral(s)
    ensures s != "" && AllDigits(s, 10)
  {
  }

  /** Where the two parsers agree on a well-formed closed range: both refuse
      numbers above int64, and otherwise they stand for the same bytes unless the
      range is reversed or all of int64. */
  lemma ParsersAgreeIff(first: string, last: string)
    requires IsNumeral(first) && IsNumeral(last)
    ensures var r, a, b := Header(first, last), Value(first, 10), Value(last, 10);
            && (ParseHTTPRange(r).Some? <==> a <= MAX_INT64 && b <= MAX_INT64)
            && (ParseAzureRange(r).Some? <==> a <= MAX_INT64 && b <= MAX_INT64)
            && (a <= MAX_INT64 && b <= MAX_INT64 ==>
                  (HttpSpan(ParseHTTPRange(r).value) == AzureSpan(ParseAzureRange(r).value)
                   <==> a <= b && !(a == 0 && b == MAX_INT64)))
  {
    hide Header, ParseHTTPRange, ParseAzureRange, IsNumeral;
    ParseReadsBack(first, last);
    NumeralIsSome(first);
    NumeralIsSome(last);
    assert Wrap(MAX_INT64 + 1) == MIN_INT64;
  }

  // ---------------------------------------------------------------------------
  // Reading from the local backend
  // ---------------------------------------------------------------------------

  datatype Partial = Partial(body: Bytes, contentLength: int, contentRange: string)

  /** The bytes a reader limited to `n` bytes gives from `offset` on. */
  function ReadLimited(data: Bytes, offset: nat, n: int): Bytes
    requires offset <= |data|
  {
    if n <= 0 then [] else if offset + n <= |data| then data[offset..offset + n] else data[offset..]
  }

  function ContentRange(offset: int, length: int, size: int): string {
    "bytes " + FormatInt(offset) + "-" + FormatInt(Wrap(Wrap(offset + length) - 1)) + "/" + FormatInt(size)
  }

  /** The clamp of a parsed range to the object. */
  function RangeAnswer(data: Bytes, offset: nat, parsed: int): Option<Partial> {
    if offset >= |data| then None
    else
      var length := if parsed < 0 || Wrap(offset + parsed) > |data| then |data| - offset else parsed;
      Some(Partial(ReadLimited(data, offset, length), length, ContentRange(offset, length, |data|)))
  }

  /** `GetObject` with a Range header; None is the invalid-range error. */
  function GetRange(data: Bytes, r: string): Option<Partial>
    requires |data| <= MAX_INT64
  {
    match ParseHTTPRange(r)
    case None => None
    case Some((offset, parsed)) =>
      OffsetNotNegative(r);
      RangeAnswer(data, offset, parsed)
  }

  /** RFC 9110: `first-last` selects the bytes from first to last or the end, and
      is invalid when last < first. */
  function Selected(data: Bytes, first: nat, last: nat): Option<Partial> {
    if first > last || first >= |data| then None
    else
      var end := if last < |data| then last + 1 else |data|;
      Some(Partial(data[first..end], end - first,
                   "bytes " + Itoa(first) + "-" + Itoa(end - 1) + "/" + Itoa(|data|)))
  }

  lemma AnswerOf(data: Bytes, first: string, last: string)
    requires |data| <= MAX_INT64 && IsNumeral(first) && IsNumeral(last)
    ensures var parsed := Parsed(Value(first, 10), Value(last, 10));
            GetRange(data, Header(first, last))
            == if parsed.Some? then RangeAnswer(data, Value(first, 10), parsed.value.1) else None
  {
    hide Header, ParseHTTPRange, ParseAzureRange, RangeAnswer, Wrap, IsNumeral;
    NumeralIsSome(first);
    NumeralIsSome(last);
    ParseReadsBack(first, last);
  }

  /** The clamp is the RFC's selection if and only if the range starts behind the
      object, or is not reversed and its arithmetic does not overflow. */
  lemma ClampIsExactIff(data: Bytes, first: nat, last: nat)
    requires |data| <= MAX_INT64 && first <= MAX_INT64 && last <= MAX_INT64
    ensures RangeAnswer(data, first, Wrap(last - first + 1)) == Selected(data, first, last)
            <==> first >= |data| || (first <= last && (last < MAX_INT64 || first == 0))
  {
    hide Itoa;
    assert Wrap(MAX_INT64 + 1) == MIN_INT64;
    if first < |data| && first <= last {
      var end := if last < |data| then last + 1 else |data|;
      if last < MAX_INT64 || first == 0 {
        FormatOfNat(first);
        FormatOfNat(end - 1);
        FormatOfNat(|data|);
      }
    }
  }

  /** The local backend gives the RFC's answer to `first-last` if and only if the
      range starts behind the object, or is not reversed, fits int64 and its
      arithmetic does not overflow. */
  lemma RangeIsExactIff(data: Bytes, first: string, last: string)
    requires |data| <= MAX_INT64 && IsNumeral(first) && IsNumeral(last)
    ensures var a, b := Value(first, 10), Value(last, 10);
            GetRange(data, Header(first, last)) == Selected(data, a, b)
            <==> a >= |data| || (a <= b <= MAX_INT64 && (b < MAX_INT64 || a == 0))
  {
    hide GetRange, Header, RangeAnswer, Selected, IsNumeral;
    NumeralIsSome(first);
    NumeralIsSome(last);
    var a, b := Value(first, 10), Value(last, 10);
    AnswerOf(data, first, last);
    if a <= MAX_INT64 && b <= MAX_INT64 { ClampIsExactIff(data, a, b); }
    SelectedSomeIff(data, a, b);
  }

  lemma SelectedSomeIff(data: Bytes, first: nat, last: nat)
    ensures Selected(data, first, last).Some? <==> first <= last && first < |data|
  {
  }

  /** A range that starts behind the object is refused, whatever its end. */
  lemma RangeBehindEnd(data: Bytes, first: string, last: string)
    requires |data| <= MAX_INT64 && IsNumeral(first) && IsNumeral(last) && Value(first, 10) >= |data|
    ensures GetRange(data, Header(first, last)) == None
  {
    hide GetRange, Header, IsNumeral;
    NumeralIsSome(first);
    NumeralIsSome(last);
    AnswerOf(data, first, last);
  }

  /** A 20-byte object and the range "5-4": a part of no bytes, where the RFC has
      an invalid range. */
  lemma ReversedRangeExample(data: Bytes)
    requires |data| == 20
    ensures GetRange(data, RangeHeader(5, 4)).Some? && GetRange(data, RangeHeader(5, 4)).value.body == []
    ensures Selected(data, 5, 4) == None
  {
    hide GetRange, Header, IsNumeral;
    ItoaIsNumeral(5);
    ItoaIsNumeral(4);
    AnswerOf(data, Itoa(5), Itoa(4));
  }

  /** The range "0-9223372036854775808" is refused, where the RFC selects the whole
      object. */
  lemma TooLargeRangeExample(data: Bytes)
    requires 0 < |data| <= MAX_INT64
    ensures GetRange(data, RangeHeader(0, MAX_INT64 + 1)) == None
    ensures Selected(data, 0, MAX_INT64 + 1).Some? && Selected(data, 0, MAX_INT64 + 1).value.body == data
  {
    hide GetRange, Header, IsNumeral, Itoa;
    ItoaIsNumeral(0);
    ItoaIsNumeral(MAX_INT64 + 1);
    AnswerOf(data, Itoa(0), Itoa(MAX_INT64 + 1));
  }

  // ---------------------------------------------------------------------------
  // Open-ended and suffix ranges
  // ---------------------------------------------------------------------------

  /** The open-ended range `first-` is answered as the RFC's, from `first` to the
      end: for every object and every numeral. */
  lemma OpenRangeIsExact(data: Bytes, first: string)
    requires |data| <= MAX_INT64 && IsNumeral(first)
    ensures GetRange(data, Header(first, "")) == Selected(data, Value(first, 10), |data|)
  {
    hide Header, SplitDash, ParseInt, Itoa, IsNumeral;
    NumeralIsSome(first);
    ParseNumeral(first);
    HeaderCut(first, "");
    var a := Value(first, 10);
    if a < |data| {
      FormatOfNat(a);
      FormatOfNat(|data| - 1);
      FormatOfNat(|data|);
    }
  }

  /** Suffix ranges are refused. */
  lemma SuffixRefused(data: Bytes, last: string)
    requires |data| <= MAX_INT64
    ensures GetRange(data, Header("", last)) == None
  {
    hide Header, SplitDash;
    HeaderCut("", last);
  }

  /** A second range behind the first refuses the header. */
  lemma ListRefused(data: Bytes, first: string, last: string, rest: string)
    requires |data| <= MAX_INT64 && IsNumeral(first)
    ensures GetRange(data, Header(first, last + "," + rest)) == None
  {
    hide Header, SplitDash, ParseInt;
    NumeralIsSome(first);
    ParseNumeral(first);
    var list := last + "," + rest;
    HeaderCut(first, list);
    assert list[|last|] == ',';
    NoNumeral(list, 10, |last|);
  }

  lemma SelectedExamples(data: Bytes)
    requires |data| == 20
    ensures Selected(data, 5, 9) == Some(Partial(data[5..10], 5, "bytes 5-9/20"))
    ensures Selected(data, 15, 20) == Some(Partial(data[15..], 5, "bytes 15-19/20"))
  {
    assert Itoa(5) == "5" && Itoa(9) == "9" && Itoa(15) == "15" && Itoa(19) == "19" && Itoa(20) == "20";
    assert data[15..20] == data[15..];
    assert "bytes " + "5" + "-" + "9" + "/" + "20" == "bytes 5-9/20";
    assert "bytes " + "15" + "-" + "19" + "/" + "20" == "bytes 15-19/20";
  }

  /** Of 20 bytes, "bytes=5-9" gives the sixth to the tenth and "bytes=15-" the
      last five; "bytes=-5" and "bytes=0-4,6-9" are refused. */
  lemma RangeExamples(data: Bytes)
    requires |data| == 20
    ensures GetRange(data, "bytes=5-9") == Some(Partial(data[5..10], 5, "bytes 5-9/20"))
    ensures GetRange(data, "bytes=15-") == Some(Partial(data[15..], 5, "bytes 15-19/20"))
    ensures GetRange(data, "bytes=-5") == None
    ensures GetRange(data, "bytes=0-4,6-9") == None
  {
    hide GetRange, IsNumeral, Selected;
    SelectedExamples(data);
    assert Itoa(5) == "5" && Itoa(9) == "9" && Itoa(0) == "0" && Itoa(15) == "15";
    ItoaIsNumeral(5);
    ItoaIsNumeral(9);
    ItoaIsNumeral(0);
    ItoaIsNumeral(15);
    assert Header("5", "9") == "bytes=5-9" && Header("15", "") == "bytes=15-" && Header("", "5") == "bytes=-5";
    assert Header("0", "4" + "," + "6-9") == "bytes=0-4,6-9";
    hide Itoa, Header;
    RangeIsExactIff(data, "5", "9");
    OpenRangeIsExact(data, "15");
    SuffixRefused(data, "5");
    ListRefused(data, "0", "4", "6-9");
  }

  /** What the two parsers make of the same headers: an open range has length -1
      for the one and 0 for the other. */
  lemma ParserExamples()
    ensures ParseHTTPRange("bytes=5-9") == ParseAzureRange("bytes=5-9") == Some((5, 5))
    ensures ParseHTTPRange("bytes=15-") == Some((15, -1)) && ParseAzureRange("bytes=15-") == Some((15, 0))
  {
    hide IsNumeral, SplitDash, ParseInt;
    assert Itoa(5) == "5" && Itoa(9) == "9" && Itoa(15) == "15";
    ItoaIsNumeral(5);
    ItoaIsNumeral(9);
    ItoaIsNumeral(15);
    assert Header("5", "9") == "bytes=5-9" && Header("15", "") == "bytes=15-";
    hide Itoa, Header;
    ParseReadsBack("5", "9");
    ParseNumeral("15");
    HeaderCut("15", "");
  }

  // ---------------------------------------------------------------------------
  // Reassembly
  // ---------------------------------------------------------------------------

  /** Cuts into an object of `size` bytes, in order. */
  ghost predicate Cuts(cuts: seq<nat>, size: nat) {
    && (forall i :: 0 <= i < |cuts| ==> cuts[i] <= size)
    && (forall i, j :: 0 <= i < j < |cuts| ==> cuts[i] < cuts[j])
  }

  lemma CutsStep(cuts: seq<nat>, size: nat)
    requires Cuts(cuts, size) && |cuts| >= 2
    ensures cuts[0] < cuts[1] <= size && Cuts(cuts[1..], size)
  {
  }

  /** The answer to the request for the bytes from `a` up to `b`. */
  function Part(data: Bytes, a: nat, b: nat): Option<Partial>
    requires |data| <= MAX_INT64 && a < b
  {
    GetRange(data, RangeHeader(a, b - 1))
  }

  function Body(part: Option<Partial>): Bytes {
    if part.Some? then part.value.body else []
  }

  /** The bodies of one request for each step between consecutive cuts. */
  ghost function Bodies(data: Bytes, cuts: seq<nat>): Bytes
    requires |data| <= MAX_INT64 && Cuts(cuts, |data|)
  {
    if |cuts| < 2 then []
    else
      CutsStep(cuts, |data|);
      Body(Part(data, cuts[0], cuts[1])) + Bodies(data, cuts[1..])
  }

  /** The answer is exactly those bytes, with their length and place. */
  ghost predicate PartIsExact(data: Bytes, a: nat, b: nat)
    requires |data| <= MAX_INT64
  {
    && a < b <= |data|
    && Part(data, a, b) == Some(Partial(data[a..b], b - a,
                                        "bytes " + Itoa(a) + "-" + Itoa(b - 1) + "/" + Itoa(|data|)))
  }

  lemma EveryPartIsExact(data: Bytes, a: nat, b: nat)
    requires |data| <= MAX_INT64 && a < b <= |data|
    ensures PartIsExact(data, a, b)
  {
    hide GetRange, Header, Itoa, IsNumeral;
    ItoaIsNumeral(a);
    ItoaIsNumeral(b - 1);
    RangeIsExactIff(data, Itoa(a), Itoa(b - 1));
  }

  lemma ExactBody(data: Bytes, a: nat, b: nat)
    requires |data| <= MAX_INT64 && a < b <= |data| && PartIsExact(data, a, b)
    ensures Body(Part(data, a, b)) == data[a..b]
  {
    hide GetRange, RangeHeader, Itoa;
  }

  lemma BodiesUnfold(data: Bytes, cuts: seq<nat>)
    requires |data| <= MAX_INT64 && Cuts(cuts, |data|) && |cuts| > 0
    ensures cuts[0] <= |data|
    ensures |cuts| == 1 ==> Bodies(data, cuts) == []
    ensures |cuts| >= 2 ==> cuts[0] < cuts[1] <= |data| && Cuts(cuts[1..], |data|)
                            && Bodies(data, cuts) == Body(Part(data, cuts[0], cuts[1])) + Bodies(data, cuts[1..])
  {
    hide Body, Part;
    if |cuts| >= 2 { CutsStep(cuts, |data|); }
  }

  lemma Rejoined(data: Bytes, a: nat, b: nat)
    requires a <= b <= |data|
    ensures data[a..b] + data[b..] == data[a..] && data[|data|..] == []
  {
  }

  /** Ranged reads over any partition of an object put it together again, each with
      its own length and Content-Range. */
  lemma {:induction false} RangesReassemble(data: Bytes, cuts: seq<nat>)
    requires |data| <= MAX_INT64 && Cuts(cuts, |data|) && |cuts| > 0 && cuts[|cuts| - 1] == |data|
    ensures cuts[0] <= |data| && Bodies(data, cuts) == data[cuts[0]..]
    ensures forall i, j :: 0 <= i && j == i + 1 && j < |cuts| ==> PartIsExact(data, cuts[i], cuts[j])
  {
    hide Bodies, Body, Part, Cuts, PartIsExact;
    BodiesUnfold(data, cuts);
    if |cuts| >= 2 {
      EveryPartIsExact(data, cuts[0], cuts[1]);
      ExactBody(data, cuts[0], cuts[1]);
      RangesReassemble(data, cuts[1..]);
      Rejoined(data, cuts[0], cuts[1]);
      forall i, j | 0 <= i && j == i + 1 && j < |cuts|
        ensures PartIsExact(data, cuts[i], cuts[j])
      {
        if i > 0 { assert cuts[1..][i - 1] == cuts[i] && cuts[1..][j - 1] == cuts[j]; }
      }
    } else {
      Rejoined(data, cuts[0], cuts[0]);
    }
  }
}
