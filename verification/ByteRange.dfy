/**
 Serving one immutable file: conditional requests and single byte ranges (RFC 9110
 sections 13.1.2, 14.1.2, 14.4, 15.3.7 and 15.5.17).
 */
module ByteRange {
  import opened Common
  import opened PythonText

  type Bytes = seq<bv8>

  datatype Response = Response(status: nat, headers: map<string, string>, body: Bytes)

  // ---- What a range means, independently of any header text ----

  datatype Range = Closed(first: nat, last: nat) | From(first: nat) | Suffix(length: nat)

  /** The selected bytes of a file, None if the range selects nothing. */
  function Selected(r: Range, content: Bytes): Option<Bytes> {
    match r
    case Closed(a, b) =>
      if a <= b && a < |content| then Some(content[a..if b < |content| then b + 1 else |content|]) else None
    case From(a) => if a < |content| then Some(content[a..]) else None
    case Suffix(n) =>
      if n > 0 && content != [] then Some(content[if n < |content| then |content| - n else 0..]) else None
  }

  /** The texts before and after the dash of the Range header that asks for it. */
  function Parts(r: Range): (p: (string, string))
    ensures AllDigits(p.0) && AllDigits(p.1)
  {
    match r
    case Closed(a, b) => (Decimal(a), Decimal(b))
    case From(a) => (Decimal(a), "")
    case Suffix(n) => ("", Decimal(n))
  }

  /** The Range header that asks for it. */
  function Print(r: Range): string {
    "bytes=" + Parts(r).0 + "-" + Parts(r).1
  }

  /** Can the server's integer parser read the numbers of this range at all? */
  predicate Readable(r: Range) {
    match r
    case Closed(a, b) => |Decimal(a)| <= 4300 && |Decimal(b)| <= 4300
    case From(a) => |Decimal(a)| <= 4300
    case Suffix(n) => |Decimal(n)| <= 4300
  }

  // ---- What the server makes of a header ----

  /** The first and last position that a header asks for, after clipping; None is a ValueError. */
  function Window(header: string, size: nat): (w: Option<(nat, nat)>)
    ensures w.Some? ==> w.value.0 <= w.value.1 < size
  {
    var (unit, separator, raw) := Partition(header, '=');
    var (startText, dash, endText) := Partition(raw, '-');
    if Fold(unit) != "bytes" || !separator || !dash || ',' in raw then None
    else Reading(startText, endText, size)
  }

  /** The texts before and after the dash. */
  function Reading(startText: string, endText: string, size: nat): (w: Option<(nat, nat)>)
    ensures w.Some? ==> w.value.0 <= w.value.1 < size
  {
    if startText == [] then LastBytes(PyInt(endText), size)
    else Interval(PyInt(startText), if endText != [] then PyInt(endText) else Some(size - 1), size)
  }

  function LastBytes(length: Option<int>, size: nat): (w: Option<(nat, nat)>)
    ensures w.Some? ==> w.value.0 <= w.value.1 < size
  {
    if length.None? || length.value <= 0 then None
    else Interval(Some(if length.value < size then size - length.value else 0), Some(size - 1), size)
  }

  function Interval(start: Option<int>, end: Option<int>, size: nat): (w: Option<(nat, nat)>)
    ensures w.Some? ==> w.value.0 <= w.value.1 < size
  {
    if start.None? || end.None? || start.value < 0 || start.value >= size || end.value < start.value then None
    else Some((start.value, if end.value < size then end.value else size - 1))
  }

  function ContentRange(first: nat, last: nat, size: nat): string {
    "bytes " + Decimal(first) + "-" + Decimal(last) + "/" + Decimal(size)
  }

  function BaseHeaders(sha256: string): map<string, string> {
    map["ETag" := "\"" + sha256 + "\"",
        "Cache-Control" := "public, max-age=31536000, immutable",
        "Accept-Ranges" := "bytes"]
  }

  function Serve(content: Bytes, sha256: string, ifNoneMatch: Option<string>, range: Option<string>): Response {
    var headers := BaseHeaders(sha256);
    if ifNoneMatch == Some(headers["ETag"]) then Response(304, headers, [])
    else if range.None? || range.value == "" then Response(200, headers, content)
    else Answer(Window(range.value, |content|), content, headers)
  }

  function Answer(w: Option<(nat, nat)>, content: Bytes, headers: map<string, string>): Response
    requires w.Some? ==> w.value.0 <= w.value.1 < |content|
  {
    match w
    case None => Response(416, headers["Content-Range" := "bytes */" + Decimal(|content|)], [])
    case Some((a, b)) => Response(206, headers["Content-Range" := ContentRange(a, b, |content|)], content[a..b + 1])
  }

  // ---- The two agree ----

  lemma PrintedParts(first: string, last: string, size: nat)
    requires AllDigits(first) && AllDigits(last)
    ensures Window("bytes=" + first + "-" + last, size) == Reading(first, last, size)
  {
    var raw := first + ['-'] + last;
    assert "bytes=" + first + "-" + last == "bytes" + ['='] + raw;
    PartitionAt("bytes", '=', raw);
    PartitionAt(first, '-', last);
    assert Fold("bytes") == "bytes";
  }

  /** The window found for a range, if any, is what the range selects. */
  predicate Finds(w: Option<(nat, nat)>, r: Range, content: Bytes) {
    if w.None? then Selected(r, content).None?
    else
      && w.value.0 <= w.value.1 < |content|
      && Selected(r, content) == Some(content[w.value.0..w.value.1 + 1])
  }

  predicate Recovers(w: Option<(nat, nat)>, r: Range, content: Bytes) {
    if Readable(r) then Finds(w, r, content) else w.None?
  }

  lemma IntervalFinds(r: Range, content: Bytes)
    ensures match r
            case Closed(a, b) => Finds(Interval(Some(a), Some(b), |content|), r, content)
            case From(a) => Finds(Interval(Some(a), Some(|content| - 1), |content|), r, content)
            case Suffix(n) => Finds(LastBytes(Some(n), |content|), r, content)
  {
    match r
    case Closed(a, b) =>
    case From(a) =>
      assert a < |content| ==> content[a..|content|] == content[a..];
    case Suffix(n) =>
      assert n <= |content| ==> content[|content| - n..|content|] == content[|content| - n..];
      assert content[0..|content|] == content[0..];
  }

  lemma ReadingRecovers(r: Range, content: Bytes)
    ensures Recovers(Reading(Parts(r).0, Parts(r).1, |content|), r, content)
  {
    IntervalFinds(r, content);
    match r
    case Closed(a, b) =>
      PyIntOfDecimal(a);
      PyIntOfDecimal(b);
    case From(a) => PyIntOfDecimal(a);
    case Suffix(n) => PyIntOfDecimal(n);
  }

  /**
   Printing a range as a header and reading it back recovers what it selects. A window is
   found exactly when the range selects something and its numbers are within the digit
   limit of the integer parser.
   */
  lemma PrintedWindow(r: Range, content: Bytes)
    ensures Recovers(Window(Print(r), |content|), r, content)
  {
    ReadingRecovers(r, content);
    PrintedParts(Parts(r).0, Parts(r).1, |content|);
  }

  /** Some ranges are lost that way: of every non-empty file, one that selects bytes and gets no window. */
  lemma SomeRangeIsUnreadable(content: Bytes)
    requires content != []
    ensures exists r :: Selected(r, content).Some? && Window(Print(r), |content|).None?
  {
    var n := NumberOfLength(4301);
    var r := Closed(0, n);
    assert !Readable(r);
    PrintedWindow(r, content);
    assert Selected(r, content).Some? && Window(Print(r), |content|).None?;
  }

  /** The unit, in any capitals. */
  predicate IsBytes(unit: string) {
    && |unit| == 5 && unit[0] in {'b', 'B'} && unit[1] in {'y', 'Y'} && unit[2] in {'t', 'T'}
    && unit[3] in {'e', 'E'} && unit[4] in {'s', 'S'}
  }

  /** The header consists of a unit, a first and a last part, and asks for one range. */
  predicate Shaped(header: string, unit: string, first: string, last: string) {
    && header == unit + ['='] + (first + ['-'] + last)
    && IsBytes(unit) && '-' !in first && ',' !in first + ['-'] + last
  }

  /** What a header asks for, in any spelling of its unit and numbers that the parsers read. */
  ghost predicate Denotes(header: string, r: Range) {
    exists unit: string, first: string, last: string ::
      Shaped(header, unit, first, last) && Means(first, last, r)
  }

  predicate Means(first: string, last: string, r: Range) {
    match r
    case Closed(a, b) => first != "" && PyInt(first) == Some(a) && last != "" && PyInt(last) == Some(b)
    case From(a) => first != "" && PyInt(first) == Some(a) && last == ""
    case Suffix(n) => first == "" && PyInt(last) == Some(n)
  }

  lemma MeantIsFound(first: string, last: string, r: Range, content: Bytes)
    requires Means(first, last, r)
    ensures Finds(Reading(first, last, |content|), r, content)
  {
    IntervalFinds(r, content);
  }

  lemma FoundIsMeant(first: string, last: string, size: nat) returns (r: Range)
    requires '-' !in first && Reading(first, last, size).Some?
    ensures Means(first, last, r)
  {
    NoMinusNoNegative(first);
    r := if first == "" then Suffix(PyInt(last).value)
         else if last == "" then From(PyInt(first).value)
         else Closed(PyInt(first).value, PyInt(last).value);
  }

  lemma ShapedIsRead(header: string, unit: string, first: string, last: string, size: nat)
    requires Shaped(header, unit, first, last)
    ensures Window(header, size) == Reading(first, last, size)
  {
    var raw := first + ['-'] + last;
    FoldsToBytes(unit);
    assert '=' !in unit;
    PartitionAt(unit, '=', raw);
    PartitionAt(first, '-', last);
  }

  /** A header that denotes a range gets what that range selects, whatever its spelling. */
  lemma DenotedIsFound(header: string, r: Range, content: Bytes)
    requires Denotes(header, r)
    ensures Finds(Window(header, |content|), r, content)
  {
    var unit: string, first: string, last: string :| Shaped(header, unit, first, last) && Means(first, last, r);
    ShapedIsRead(header, unit, first, last, |content|);
    MeantIsFound(first, last, r, content);
  }

  /** And only such a header gets a window, so every header is settled. */
  lemma FoundIsDenoted(header: string, size: nat) returns (r: Range)
    requires Window(header, size).Some?
    ensures Denotes(header, r)
  {
    var (unit, separator, raw) := Partition(header, '=');
    var (first, dash, last) := Partition(raw, '-');
    r := FoundIsMeant(first, last, size);
    FoldsToBytes(unit);
    assert Shaped(header, unit, first, last);
  }

  /** Are all its numbers of ordinary size, below 10 to the 18? */
  predicate Ordinary(r: Range) {
    match r
    case Closed(a, b) => a < 1_000_000_000_000_000_000 && b < 1_000_000_000_000_000_000
    case From(a) => a < 1_000_000_000_000_000_000
    case Suffix(n) => n < 1_000_000_000_000_000_000
  }

  lemma OrdinaryRangeIsMeant(r: Range)
    requires Ordinary(r)
    ensures Readable(r) && Means(Parts(r).0, Parts(r).1, r)
  {
    match r
    case Closed(a, b) =>
      OrdinaryNumbersAreRead(a);
      OrdinaryNumbersAreRead(b);
    case From(a) => OrdinaryNumbersAreRead(a);
    case Suffix(n) => OrdinaryNumbersAreRead(n);
  }

  lemma PrintedIsShaped(first: string, last: string) returns (unit: string)
    requires AllDigits(first) && AllDigits(last)
    ensures Shaped("bytes=" + first + "-" + last, unit, first, last)
  {
    unit := "bytes";
    assert "bytes=" + first + "-" + last == unit + ['='] + (first + ['-'] + last);
  }

  lemma DenotesBy(header: string, unit: string, first: string, last: string, r: Range)
    requires Shaped(header, unit, first, last) && Means(first, last, r)
    ensures Denotes(header, r)
  {
  }

  /** A printed range of ordinary size denotes itself, so the endpoint serves what it selects. */
  lemma OrdinaryRangeIsDenoted(r: Range)
    requires Ordinary(r)
    ensures Readable(r) && Denotes(Print(r), r)
  {
    OrdinaryRangeIsMeant(r);
    var unit := PrintedIsShaped(Parts(r).0, Parts(r).1);
    DenotesBy(Print(r), unit, Parts(r).0, Parts(r).1, r);
  }

  /** The header asks for this range: in some spelling, and at least as printed if its numbers are ordinary. */
  ghost predicate AsksFor(header: string, r: Range) {
    Denotes(header, r) || (Ordinary(r) && header == Print(r))
  }

  lemma AskedIsDenoted(header: string, r: Range)
    requires AsksFor(header, r)
    ensures Denotes(header, r)
  {
    if header == Print(r) && Ordinary(r) {
      OrdinaryRangeIsDenoted(r);
    }
  }

  lemma ServedWindow(header: string, content: Bytes, sha256: string)
    requires header != ""
    ensures Serve(content, sha256, None, Some(header))
         == Answer(Window(header, |content|), content, BaseHeaders(sha256))
  {
  }

  /** The answer to any printed range: its bytes with 206, or 416 with the file size. */
  lemma PrintedRangeServed(r: Range, content: Bytes, sha256: string)
    ensures var answer := Serve(content, sha256, None, Some(Print(r)));
            if Readable(r) && Selected(r, content).Some?
            then answer.status == 206 && answer.body == Selected(r, content).value
            else answer.status == 416 && answer.body == []
                 && answer.headers == BaseHeaders(sha256)["Content-Range" := "bytes */" + Decimal(|content|)]
  {
    PrintedWindow(r, content);
    ServedWindow(Print(r), content, sha256);
  }

  /** What a client reads from a Content-Range header. */
  function ReadContentRange(header: string): Option<(nat, nat, nat)> {
    var (unit, space, rest) := Partition(header, ' ');
    var (first, dash, rest') := Partition(rest, '-');
    var (last, slash, size) := Partition(rest', '/');
    if unit == "bytes" && space && dash && slash && AllDigits(first) && AllDigits(last) && AllDigits(size)
    then Some((Value(first), Value(last), Value(size))) else None
  }

  lemma ContentRangeReadBack(a: nat, b: nat, size: nat)
    ensures ReadContentRange(ContentRange(a, b, size)) == Some((a, b, size))
  {
    var rest' := Decimal(b) + ['/'] + Decimal(size);
    var rest := Decimal(a) + ['-'] + rest';
    assert ContentRange(a, b, size) == "bytes" + [' '] + rest;
    PartitionAt("bytes", ' ', rest);
    PartitionAt(Decimal(a), '-', rest');
    PartitionAt(Decimal(b), '/', Decimal(size));
    DecimalValue(a);
    DecimalValue(b);
    DecimalValue(size);
  }

  /** The Content-Range of an answer describes its body: these bytes of a file of that size. */
  predicate Described(answer: Response, content: Bytes) {
    && "Content-Range" in answer.headers
    && var read := ReadContentRange(answer.headers["Content-Range"]);
    && read.Some?
    && read.value.0 <= read.value.1 < read.value.2 == |content|
    && answer.body == content[read.value.0..read.value.1 + 1]
  }

  lemma AnswerIsDescribed(w: (nat, nat), content: Bytes, headers: map<string, string>)
    requires w.0 <= w.1 < |content|
    ensures Described(Answer(Some(w), content, headers), content)
  {
    ContentRangeReadBack(w.0, w.1, |content|);
  }

  /** Whatever the request headers say: a 200 is the whole file, a 206 is what its Content-Range says. */
  lemma ServedIsDescribed(content: Bytes, sha256: string, ifNoneMatch: Option<string>, range: Option<string>)
    ensures var answer := Serve(content, sha256, ifNoneMatch, range);
            && answer.status in {200, 206, 304, 416}
            && (answer.status == 200 ==> answer.body == content && (range.None? || range.value == ""))
            && (answer.status == 206 ==> Described(answer, content))
            && (answer.status in {304, 416} ==> answer.body == [])
  {
    if range.Some? {
      var w := Window(range.value, |content|);
      if w.Some? {
        AnswerIsDescribed(w.value, content, BaseHeaders(sha256));
      }
    }
  }

  lemma AnswerHeaders(w: Option<(nat, nat)>, content: Bytes, headers: map<string, string>)
    requires w.Some? ==> w.value.0 <= w.value.1 < |content|
    requires "Content-Range" !in headers
    ensures var answer := Answer(w, content, headers);
            && answer.headers - {"Content-Range"} == headers
            && "Content-Range" in answer.headers
            && (answer.status == 416 ==> answer.headers["Content-Range"] == "bytes */" + Decimal(|content|))
  {
  }

  /** 304 answers the file's own ETag and nothing else; every answer has the base headers; a 416 names the size. */
  lemma ServedHeaders(content: Bytes, sha256: string, ifNoneMatch: Option<string>, range: Option<string>)
    ensures var answer := Serve(content, sha256, ifNoneMatch, range);
            && (answer.status == 304 <==> ifNoneMatch == Some("\"" + sha256 + "\""))
            && answer.headers - {"Content-Range"} == BaseHeaders(sha256)
            && ("Content-Range" in answer.headers <==> answer.status in {206, 416})
            && (answer.status == 416 ==> answer.headers["Content-Range"] == "bytes */" + Decimal(|content|))
  {
    var headers := BaseHeaders(sha256);
    assert headers["ETag"] == "\"" + sha256 + "\"";
    assert headers - {"Content-Range"} == headers;
    if range.Some? && range.value != "" {
      AnswerHeaders(Window(range.value, |content|), content, headers);
    }
  }

  // ---- The endpoint ----

  /** The window is what the range that the header asks for selects, in every file of that size; no range, no window. */
  ghost predicate Parses(header: string, size: nat, w: Option<(nat, nat)>) {
    && (w.Some? ==> exists r :: Denotes(header, r))
    && forall r, content: Bytes :: AsksFor(header, r) && |content| == size ==> Finds(w, r, content)
  }

  lemma WindowParses(header: string, size: nat)
    ensures Parses(header, size, Window(header, size))
  {
    if Window(header, size).Some? {
      var r := FoundIsDenoted(header, size);
    }
    forall r, content: Bytes | AsksFor(header, r) && |content| == size
      ensures Finds(Window(header, size), r, content)
    {
      AskedIsDenoted(header, r);
      DenotedIsFound(header, r, content);
    }
  }

  method ParseRange(header: string, size: nat) returns (w: Option<(nat, nat)>)
    ensures w == Window(header, size) && Parses(header, size, w)
  {
    WindowParses(header, size);
    var (unit, separator, rawRange) := Partition(header, '=');
    var (startText, dash, endText) := Partition(rawRange, '-');
    if Fold(unit) != "bytes" || !separator || !dash || ',' in rawRange { return None; }
    w := ReadRange(startText, endText, size);
  }

  method ReadRange(startText: string, endText: string, size: nat) returns (w: Option<(nat, nat)>)
    ensures w == Reading(startText, endText, size)
  {
    if startText != [] {
      var first := PyInt(startText);
      if first.None? { return None; }
      var last := if endText != [] then PyInt(endText) else Some(size - 1);
      if last.None? { return None; }
      w := Clip(first.value, last.value, size);
    } else {
      var suffixLength := PyInt(endText);
      if suffixLength.None? || suffixLength.value <= 0 { return None; }
      var start := if size - suffixLength.value > 0 then size - suffixLength.value else 0;
      w := Clip(start, size - 1, size);
    }
  }

  method Clip(start: int, last: int, size: nat) returns (w: Option<(nat, nat)>)
    ensures w == Interval(Some(start), Some(last), size)
  {
    var end := last;
    if start < 0 || start >= size || end < start { return None; }
    if size - 1 < end {
      end := size - 1;
    }
    w := Some((start, end));
  }

  /** A Range header that is not there and an empty one are the same to the endpoint. */
  predicate Asks(range: Option<string>) {
    range.Some? && range.value != ""
  }

  /** What a client may rely on in an answer: its status, its body and its headers. */
  predicate Honours(r: Response, content: Bytes, sha256: string, ifNoneMatch: Option<string>, range: Option<string>) {
    && (r.status == 304 <==> ifNoneMatch == Some("\"" + sha256 + "\""))
    && (r.status == 200 <==> r.status != 304 && !Asks(range))
    && (r.status == 200 ==> r.body == content)
    && (r.status == 206 ==> Described(r, content))
    && (r.status == 416 ==> "Content-Range" in r.headers
                            && r.headers["Content-Range"] == "bytes */" + Decimal(|content|))
    && (r.status in {304, 416} ==> r.body == [])
    && r.status in {200, 206, 304, 416}
    && r.headers - {"Content-Range"}
       == map["ETag" := "\"" + sha256 + "\"",
              "Cache-Control" := "public, max-age=31536000, immutable",
              "Accept-Ranges" := "bytes"]
  }

  /** A range that the header asks for is served if it selects bytes; a header that denotes none is refused. */
  ghost predicate HonoursRange(r: Response, content: Bytes, header: string) {
    && (r.status == 206 ==> exists range :: Denotes(header, range))
    && forall range :: AsksFor(header, range) ==>
         if Selected(range, content).Some? then r.status == 206 && r.body == Selected(range, content).value
         else r.status == 416
  }

  lemma ServeHonours(content: Bytes, sha256: string, ifNoneMatch: Option<string>, range: Option<string>)
    ensures Honours(Serve(content, sha256, ifNoneMatch, range), content, sha256, ifNoneMatch, range)
  {
    ServedIsDescribed(content, sha256, ifNoneMatch, range);
    ServedHeaders(content, sha256, ifNoneMatch, range);
    var answer := Serve(content, sha256, ifNoneMatch, range);
    assert answer.status != 304 && Asks(range) ==> answer.status != 200;
  }

  lemma AnswerHonoursRange(content: Bytes, headers: map<string, string>, header: string)
    ensures HonoursRange(Answer(Window(header, |content|), content, headers), content, header)
  {
    WindowParses(header, |content|);
    var w := Window(header, |content|);
    forall range | AsksFor(header, range)
      ensures var r := Answer(w, content, headers);
              if Selected(range, content).Some? then r.status == 206 && r.body == Selected(range, content).value
              else r.status == 416
    {
      assert Finds(w, range, content);
    }
  }

  lemma ServeHonoursRange(content: Bytes, sha256: string, ifNoneMatch: Option<string>, header: string)
    requires ifNoneMatch != Some("\"" + sha256 + "\"") && header != ""
    ensures HonoursRange(Serve(content, sha256, ifNoneMatch, Some(header)), content, header)
  {
    AnswerHonoursRange(content, BaseHeaders(sha256), header);
    assert BaseHeaders(sha256)["ETag"] == "\"" + sha256 + "\"";
  }

  /** Both together: the whole contract of the endpoint, stated without its code. */
  ghost predicate Faithful(r: Response, content: Bytes, sha256: string,
        ifNoneMatch: Option<string>, range: Option<string>)
  {
    && Honours(r, content, sha256, ifNoneMatch, range)
    && (r.status != 304 && Asks(range) ==> HonoursRange(r, content, range.value))
  }

  lemma ServeIsFaithful(content: Bytes, sha256: string, ifNoneMatch: Option<string>, range: Option<string>)
    ensures Faithful(Serve(content, sha256, ifNoneMatch, range), content, sha256, ifNoneMatch, range)
  {
    ServeHonours(content, sha256, ifNoneMatch, range);
    if Asks(range) && ifNoneMatch != Some("\"" + sha256 + "\"") {
      ServeHonoursRange(content, sha256, ifNoneMatch, range.value);
    }
  }

  method WindowResponse(content: Bytes, window: Option<(nat, nat)>, baseHeaders: map<string, string>)
    returns (r: Response)
    requires window.Some? ==> window.value.0 <= window.value.1 < |content|
    ensures r == Answer(window, content, baseHeaders)
  {
    var headers := baseHeaders;
    if window.None? {
      return Response(416, headers["Content-Range" := "bytes */" + Decimal(|content|)], []);
    }
    var (start, end) := window.value;
    headers := headers["Content-Range" := ContentRange(start, end, |content|)];
    r := Response(206, headers, content[start..end + 1]);
  }

  method RangeResponse(content: Bytes, header: string, baseHeaders: map<string, string>) returns (r: Response)
    requires "Content-Range" !in baseHeaders
    ensures r == Answer(Window(header, |content|), content, baseHeaders)
    ensures HonoursRange(r, content, header)
  {
    AnswerHonoursRange(content, baseHeaders, header);
    var window := ParseRange(header, |content|);
    r := WindowResponse(content, window, baseHeaders);
  }

  /** The endpoint. */
  method PublicSceneBinary(content: Bytes, sha256: string, ifNoneMatch: Option<string>, rangeHeader: Option<string>)
    returns (r: Response)
    ensures Faithful(r, content, sha256, ifNoneMatch, rangeHeader)
    ensures r == Serve(content, sha256, ifNoneMatch, rangeHeader)
  {
    ServeIsFaithful(content, sha256, ifNoneMatch, rangeHeader);
    var etag := "\"" + sha256 + "\"";
    var headers := BaseHeaders(sha256);
    if ifNoneMatch == Some(etag) {
      return Response(304, headers, []);
    }
    if rangeHeader.Some? && rangeHeader.value != "" {
      r := RangeResponse(content, rangeHeader.value, headers);
      return;
    }
    r := Response(200, headers, content);
  }

  /** The server of one file, to clients that send a Range header only. */
  function Server(content: Bytes, sha256: string): string -> Response {
    header => Serve(content, sha256, None, Some(header))
  }

  /** A client that asks for `chunk` bytes at a time, from `at` on, at most `n` times, until it is not answered 206. */
  ghost function Download(server: string -> Response, chunk: nat, at: nat, n: nat): Bytes
    requires chunk > 0
    decreases n
  {
    var answer := server(Print(Closed(at, at + chunk - 1)));
    if n == 0 || answer.status != 206 then [] else answer.body + Download(server, chunk, at + chunk, n - 1)
  }

  /** The server answers the request for the chunk at `at` with its bytes, or 416 past the end. */
  ghost predicate ServesChunk(server: string -> Response, content: Bytes, chunk: nat, at: nat)
    requires chunk > 0
  {
    var answer := server(Print(Closed(at, at + chunk - 1)));
    if at >= |content| then answer.status == 416
    else answer.status == 206 && answer.body == content[at..if at + chunk < |content| then at + chunk else |content|]
  }

  lemma {:induction false} ChunksReassemble(server: string -> Response, content: Bytes, chunk: nat, at: nat, n: nat)
    requires chunk > 0 && at + n >= |content|
    requires forall i: nat :: ServesChunk(server, content, chunk, i)
    ensures Download(server, chunk, at, n) == if at < |content| then content[at..] else []
    decreases n
  {
    assert ServesChunk(server, content, chunk, at);
    if at < |content| {
      ChunksReassemble(server, content, chunk, at + chunk, n - 1);
    }
  }

  lemma ChunkSelected(content: Bytes, chunk: nat, at: nat)
    requires chunk > 0 && |Decimal(|content| + chunk)| <= 4300
    ensures var r := Closed(at, at + chunk - 1);
            if at >= |content| then Selected(r, content).None?
            else Readable(r) && Selected(r, content)
                 == Some(content[at..if at + chunk < |content| then at + chunk else |content|])
  {
    if at < |content| {
      LongerDecimal(at, |content| + chunk);
      LongerDecimal(at + chunk - 1, |content| + chunk);
    }
  }

  lemma ChunkServed(content: Bytes, sha256: string, chunk: nat, at: nat)
    requires chunk > 0 && |Decimal(|content| + chunk)| <= 4300
    ensures ServesChunk(Server(content, sha256), content, chunk, at)
  {
    ChunkSelected(content, chunk, at);
    PrintedRangeServed(Closed(at, at + chunk - 1), content, sha256);
  }

  /** Consecutive chunks of any size, fetched until the answer is 416, reassemble to exactly the file. */
  lemma DownloadIsTheFile(content: Bytes, sha256: string, chunk: nat, n: nat)
    requires chunk > 0 && n >= |content| && |Decimal(|content| + chunk)| <= 4300
    ensures Download(Server(content, sha256), chunk, 0, n) == content
  {
    forall at: nat ensures ServesChunk(Server(content, sha256), content, chunk, at) {
      ChunkServed(content, sha256, chunk, at);
    }
    ChunksReassemble(Server(content, sha256), content, chunk, 0, n);
  }

  /** So does every file of ordinary size in chunks of ordinary size. */
  lemma OrdinaryDownloadIsTheFile(content: Bytes, sha256: string, chunk: nat, n: nat)
    requires chunk > 0 && n >= |content| && |content| + chunk < 1_000_000_000_000_000_000
    ensures Download(Server(content, sha256), chunk, 0, n) == content
  {
    OrdinaryNumbersAreRead(|content| + chunk);
    DownloadIsTheFile(content, sha256, chunk, n);
  }
}
