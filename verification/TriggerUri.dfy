/**
 * The frozen trigger:// grammar: `safeParseTriggerUri` and `formatTriggerUri` of
 * internal-packages/dashboard-agent-contracts/src/trigger-uri.ts.
 */
module TriggerUri {
  import opened Wrappers
  import opened PercentCoding
  import opened SplitJoin
  import Decimal
  import JsNumber

  /** Any JavaScript number can be passed as a line. */
  type Line = x: JsNumber.Number | JsNumber.IsDouble(x) witness JsNumber.NotInteger

  datatype Resource =
    | Runs
    | Run(runId: Text)
    | Span(runId: Text, spanId: Text)
    | Error(fingerprint: Text)
    | Queue(name: Text)
    | Deployment(version: Text)
    | Report(key: Text)
    | Investigation(investigationId: Text)
    | Source(sha: Text, path: Text, line: Option<Line>)

  datatype Uri = Uri(projectRef: Text, environmentId: Text, resource: Resource)

  datatype Parsed = Accepted(uri: Uri) | Rejected

  const SCHEME: Text := Ascii("trigger://")
  const SLASH: Unit := 0x2F
  const QUESTION: Unit := 0x3F
  const HASH: Unit := 0x23
  const EQUALS: Unit := 0x3D
  const AMPERSAND: Unit := 0x26
  const PLUS: Unit := 0x2B

  // ---------------------------------------------------------------- format

  /** One encoded segment; None where `segment` throws. */
  function Segment(value: Text): Option<Text> {
    if value == [] then None else Encode(value)
  }

  const SLASHED: Option<Text> := Some([SLASH])

  /** Segments with a slash between two of them. */
  function Joined(raw: Option<seq<Text>>): Option<Text>
    requires raw.Some? ==> raw.value != []
  {
    if raw.None? then None else Some(Join(raw.value, SLASH))
  }

  /** `/{kind}/{id}`. */
  function WithId(kind: string, id: Text): Option<Text> {
    Both(Both(SLASHED, Some(Ascii(kind))), Both(SLASHED, Segment(id)))
  }

  /** A line assertLine lets through. */
  predicate PositiveInteger(line: Line) { line.Integer? && line.n >= 1 }

  function LineQuery(line: Option<Line>): Option<Text> {
    if line.None? then Some([])
    else if !PositiveInteger(line.value) then None
    else Some([QUESTION] + LineText(line.value.n))
  }

  function LineText(line: nat): Text
    requires JsNumber.Exact(line)
  {
    Ascii("line=") + Ascii(JsNumber.ToString(line))
  }

  function FormatResource(r: Resource): Option<Text> {
    match r
    case Runs => Both(SLASHED, Some(Ascii("runs")))
    case Run(id) => WithId("run", id)
    case Span(id, span) => Both(WithId("run", id), WithId("span", span))
    case Error(id) => WithId("error", id)
    case Queue(id) => WithId("queue", id)
    case Deployment(id) => WithId("deployment", id)
    case Report(id) => WithId("report", id)
    case Investigation(id) => WithId("investigation", id)
    case Source(sha, path, line) =>
      Both(Both(WithId("source", sha), Both(SLASHED, Joined(Each(Segment, Split(path, SLASH))))), LineQuery(line))
  }

  /** None where formatTriggerUri throws. */
  function FormatTriggerUri(u: Uri): Option<Text> {
    Both(Both(Some(SCHEME), Both(Segment(u.projectRef), Both(SLASHED, Segment(u.environmentId)))), FormatResource(u.resource))
  }

  // ---------------------------------------------------------------- the line parameter

  /** A search parameter with `+` and escapes resolved; everything outside ASCII becomes U+FFFD. */
  function FormDecode(t: Text): Text {
    if t == [] then []
    else if t[0] == PLUS then [0x20] + FormDecode(t[1..])
    else if Unescape(t).Some? then [if Unescape(t).value < 0x80 then Unescape(t).value else 0xFFFD] + FormDecode(t[3..])
    else [if t[0] < 0x80 then t[0] else 0xFFFD] + FormDecode(t[1..])
  }

  /** What stands before the first `sep`, and what follows it. */
  function CutAt(t: Text, sep: Unit): (r: (Text, Option<Text>))
    ensures sep !in r.0
    ensures r.1.None? ==> r.0 == t
    ensures r.1.Some? ==> t == r.0 + [sep] + r.1.value
  {
    if t == [] then ([], None)
    else if t[0] == sep then ([], Some(t[1..]))
    else var (before, after) := CutAt(t[1..], sep); ([t[0]] + before, after)
  }

  function OrEmpty(t: Option<Text>): Text { if t.None? then [] else t.value }

  function Dequestioned(query: Text): Text { if query != [] && query[0] == QUESTION then query[1..] else query }

  /** The `&`-separated pieces URLSearchParams reads, empty ones included. */
  function Pieces(query: Text): (pieces: seq<Text>) { Split(Dequestioned(query), AMPERSAND) }

  predicate AllDigits(t: Text) { t != [] && forall i | 0 <= i < |t| :: IsDigitUnit(t[i]) }

  /** The integer a digit string spells. */
  function Spelled(t: Text): nat
    requires AllDigits(t)
  {
    Decimal.Read(seq(|t|, i requires 0 <= i < |t| => t[i] as char))
  }

  /** Number of a digit string. */
  function ToNumber(t: Text): Line
    requires AllDigits(t)
  {
    JsNumber.FromIntegerIsDouble(Spelled(t));
    JsNumber.FromInteger(Spelled(t))
  }

  predicate BelowOne(x: Line) { x.Integer? && x.n < 1 }

  /** What the parser can give as a line. */
  predicate ParsedLine(x: Line) { x.Infinity? || PositiveInteger(x) }

  /** The line a piece gives; None where the parser fails on it. */
  function PieceLine(piece: Text): (line: Option<Line>)
    ensures line.Some? ==> ParsedLine(line.value)
  {
    var (key, value) := CutAt(piece, EQUALS);
    var digits := FormDecode(OrEmpty(value));
    if FormDecode(key) != Ascii("line") || !AllDigits(digits) || BelowOne(ToNumber(digits)) then None else Some(ToNumber(digits))
  }

  datatype LineParam = Given(line: Option<Line>) | BadQuery

  /** The last piece wins, and one bad piece fails the query. */
  function LineOf(pieces: seq<Text>): (r: LineParam)
    ensures r.Given? && r.line.Some? ==> ParsedLine(r.line.value)
  {
    if pieces == [] then Given(None)
    else
      var before, last := LineOf(pieces[..|pieces| - 1]), pieces[|pieces| - 1];
      if before.BadQuery? || last == [] then before
      else if PieceLine(last).None? then BadQuery
      else Given(PieceLine(last))
  }

  function LineFromQuery(query: Text): LineParam {
    if query == [] then Given(None) else LineOf(Pieces(query))
  }

  method ParseLineParam(query: Text) returns (r: LineParam)
    ensures r == LineFromQuery(query)
  {
    if query == [] {
      return Given(None);
    }
    var pieces := Pieces(query);
    var line: Option<Line> := None;
    var i := 0;
    while i < |pieces|
      invariant 0 <= i <= |pieces|
      invariant LineOf(pieces[..i]) == Given(line)
    {
      NextPiece(pieces, i);
      if pieces[i] != [] {
        var here := PieceLine(pieces[i]);
        if here.None? {
          BadPieceFails(pieces, i + 1);
          return BadQuery;
        }
        line := here;
      }
      i := i + 1;
    }
    assert pieces[..i] == pieces;
    r := Given(line);
  }

  lemma NextPiece(pieces: seq<Text>, i: nat)
    requires i < |pieces|
    ensures LineOf(pieces[..i + 1]) ==
            if LineOf(pieces[..i]).BadQuery? || pieces[i] == [] then LineOf(pieces[..i])
            else if PieceLine(pieces[i]).None? then BadQuery
            else Given(PieceLine(pieces[i]))
  {
    assert pieces[..i + 1][..i] == pieces[..i];
  }

  lemma {:induction false} BadPieceFails(pieces: seq<Text>, k: nat)
    requires k <= |pieces| && LineOf(pieces[..k]) == BadQuery
    ensures LineOf(pieces) == BadQuery
  {
    if k == |pieces| {
      assert pieces[..k] == pieces;
    } else {
      assert pieces[..|pieces| - 1][..k] == pieces[..k];
      BadPieceFails(pieces[..|pieces| - 1], k);
    }
  }

  // ---------------------------------------------------------------- parse

  /** A decoded segment; None on a malformed escape or an empty result. */
  function DecodeSegment(raw: Text): Option<Text> {
    if Decode(raw).None? || Decode(raw).value == [] then None else Decode(raw)
  }

  function Classify(kind: Text, tail: seq<Text>): Option<Resource> {
    if kind == Ascii("runs") then if tail == [] then Some(Runs) else None
    else if kind == Ascii("run") then
      if |tail| == 1 then Some(Run(tail[0]))
      else if |tail| == 3 && tail[1] == Ascii("span") then Some(Span(tail[0], tail[2]))
      else None
    else if |tail| != 1 then None
    else if kind == Ascii("error") then Some(Error(tail[0]))
    else if kind == Ascii("queue") then Some(Queue(tail[0]))
    else if kind == Ascii("deployment") then Some(Deployment(tail[0]))
    else if kind == Ascii("report") then Some(Report(tail[0]))
    else if kind == Ascii("investigation") then Some(Investigation(tail[0]))
    else None
  }

  /** From decoded segments and the query to the value. */
  function Interpret(segments: seq<Text>, query: Text): Parsed {
    if |segments| < 3 then Rejected
    else
      var kind, tail := segments[2], segments[3..];
      if kind == Ascii("source") then
        var line := LineFromQuery(query);
        if |tail| < 2 || line.BadQuery? then Rejected
        else Accepted(Uri(segments[0], segments[1], Source(tail[0], Join(tail[1..], SLASH), line.line)))
      else
        var resource := Classify(kind, tail);
        if query != [] || resource.None? then Rejected
        else Accepted(Uri(segments[0], segments[1], resource.value))
  }

  function Parse(input: Text): Parsed {
    if input == [] || !(SCHEME <= input) || HASH in input[|SCHEME|..] then Rejected
    else
      var (path, query) := CutAt(input[|SCHEME|..], QUESTION);
      var raw := Split(path, SLASH);
      var segments := Each(DecodeSegment, raw);
      if [] in raw || segments.None? then Rejected else Interpret(segments.value, OrEmpty(query))
  }

  method SafeParseTriggerUri(input: Text) returns (r: Parsed)
    ensures r == Parse(input)
    ensures forall u :: r == Accepted(u) <==> InGrammar(input, u)
  {
    forall u { AcceptedIff(input, u); }
    if input == [] || !(SCHEME <= input) {
      return Rejected;
    }
    var rest := input[|SCHEME|..];
    if HASH in rest {
      return Rejected;
    }
    var (path, queryPart) := CutAt(rest, QUESTION);
    var query := OrEmpty(queryPart);
    var raw := Split(path, SLASH);
    if [] in raw {
      return Rejected;
    }
    var segments: seq<Text> := [];
    var i := 0;
    while i < |raw|
      invariant 0 <= i <= |raw|
      invariant Each(DecodeSegment, raw[..i]) == Some(segments)
    {
      assert raw == raw[..i] + ([raw[i]] + raw[i + 1..]);
      EachConcat(DecodeSegment, raw[..i], [raw[i]] + raw[i + 1..]);
      EachOne(DecodeSegment, raw[i]);
      var decoded := DecodeSegment(raw[i]);
      if decoded.None? {
        return Rejected;
      }
      EachConcat(DecodeSegment, raw[..i], [raw[i]]);
      assert raw[..i + 1] == raw[..i] + [raw[i]];
      segments := segments + [decoded.value];
      i := i + 1;
    }
    assert raw[..i] == raw;
    r := Interpret(segments, query);
  }

  // ---------------------------------------------------------------- what the text of a URI is

  /** The segments of a resource before encoding. */
  function Tail(r: Resource): (segments: seq<Text>)
    ensures segments != []
  {
    match r
    case Runs => [Ascii("runs")]
    case Run(id) => [Ascii("run"), id]
    case Span(id, span) => [Ascii("run"), id, Ascii("span"), span]
    case Error(id) => [Ascii("error"), id]
    case Queue(id) => [Ascii("queue"), id]
    case Deployment(id) => [Ascii("deployment"), id]
    case Report(id) => [Ascii("report"), id]
    case Investigation(id) => [Ascii("investigation"), id]
    case Source(sha, path, _) => [Ascii("source"), sha] + Split(path, SLASH)
  }

  function LineField(r: Resource): Option<Line> { if r.Source? then r.line else None }

  function Segments(u: Uri): seq<Text> { [u.projectRef, u.environmentId] + Tail(u.resource) }

  predicate IsKind(kind: string) {
    kind in ["runs", "run", "span", "error", "queue", "deployment", "report", "investigation", "source"]
  }

  /** A kind name needs no escape. */
  lemma KindSegment(kind: string)
    requires IsKind(kind)
    ensures Segment(Ascii(kind)) == Some(Ascii(kind))
  {
    assert forall i | 0 <= i < |kind| :: 'a' <= kind[i] <= 'z';
    EncodeUnreserved(Ascii(kind));
  }

  lemma JoinedBoth(a: Option<seq<Text>>, b: Option<seq<Text>>)
    requires (a.Some? ==> a.value != []) && (b.Some? ==> b.value != [])
    ensures Joined(Both(a, b)) == Both(Joined(a), Both(SLASHED, Joined(b)))
  {
    if a.Some? && b.Some? {
      JoinTwo(a.value, b.value, SLASH);
      assert Join(a.value, SLASH) + [SLASH] + Join(b.value, SLASH) == Join(a.value, SLASH) + ([SLASH] + Join(b.value, SLASH));
    }
  }

  /** The encoded text of a list of segments. */
  function Encoded(segments: seq<Text>): Option<Text>
    requires segments != []
  {
    Joined(Each(Segment, segments))
  }

  lemma EncodedConcat(a: seq<Text>, b: seq<Text>)
    requires a != [] && b != []
    ensures Encoded(a + b) == Both(Encoded(a), Both(SLASHED, Encoded(b)))
  {
    EachConcat(Segment, a, b);
    JoinedBoth(Each(Segment, a), Each(Segment, b));
  }

  lemma EncodedOne(id: Text)
    ensures Encoded([id]) == Segment(id)
  {
    EachOne(Segment, id);
  }

  lemma WithIdText(kind: string, id: Text)
    requires IsKind(kind)
    ensures WithId(kind, id) == Both(SLASHED, Encoded([Ascii(kind), id]))
  {
    KindSegment(kind);
    EncodedOne(Ascii(kind));
    EncodedOne(id);
    EncodedConcat([Ascii(kind)], [id]);
    assert [Ascii(kind), id] == [Ascii(kind)] + [id];
    BothAssociates(SLASHED, Some(Ascii(kind)), Both(SLASHED, Segment(id)));
  }

  lemma SlashedConcat(a: seq<Text>, b: seq<Text>)
    requires a != [] && b != []
    ensures Both(SLASHED, Encoded(a + b)) == Both(Both(SLASHED, Encoded(a)), Both(SLASHED, Encoded(b)))
  {
    EncodedConcat(a, b);
    BothAssociates(SLASHED, Encoded(a), Both(SLASHED, Encoded(b)));
  }

  /** What formatTriggerUri prints for a resource: its encoded segments, then its query. */
  lemma ResourceText(r: Resource)
    ensures FormatResource(r) == Both(Both(SLASHED, Encoded(Tail(r))), LineQuery(LineField(r)))
  {
    BothUnit(Both(SLASHED, Encoded(Tail(r))));
    match r
    case Runs => KindSegment("runs"); EncodedOne(Ascii("runs"));
    case Run(id) => WithIdText("run", id);
    case Span(id, span) =>
      WithIdText("run", id);
      WithIdText("span", span);
      SlashedConcat([Ascii("run"), id], [Ascii("span"), span]);
      assert Tail(r) == [Ascii("run"), id] + [Ascii("span"), span];
    case Error(id) => WithIdText("error", id);
    case Queue(id) => WithIdText("queue", id);
    case Deployment(id) => WithIdText("deployment", id);
    case Report(id) => WithIdText("report", id);
    case Investigation(id) => WithIdText("investigation", id);
    case Source(sha, path, _) =>
      WithIdText("source", sha);
      SlashedConcat([Ascii("source"), sha], Split(path, SLASH));
  }

  lemma UriText(u: Uri)
    ensures FormatTriggerUri(u) == Both(Both(Some(SCHEME), Encoded(Segments(u))), LineQuery(LineField(u.resource)))
  {
    var p, e, t, q := Segment(u.projectRef), Segment(u.environmentId), Encoded(Tail(u.resource)), LineQuery(LineField(u.resource));
    var front := [u.projectRef, u.environmentId];
    assert Encoded(front) == Both(p, Both(SLASHED, e)) by {
      EncodedOne(u.projectRef);
      EncodedOne(u.environmentId);
      EncodedConcat([u.projectRef], [u.environmentId]);
      assert front == [u.projectRef] + [u.environmentId];
    }
    ResourceText(u.resource);
    EncodedConcat(front, Tail(u.resource));
    BothAssociates(Some(SCHEME), Encoded(front), Both(SLASHED, t));
    BothAssociates(Both(Some(SCHEME), Encoded(front)), Both(SLASHED, t), q);
  }

  // ---------------------------------------------------------------- round trip

  lemma SegmentReadsBack(v: Text)
    requires Segment(v).Some?
    ensures DecodeSegment(Segment(v).value) == Some(v)
    ensures Segment(v).value != [] && forall u | u in Segment(v).value :: Plain(u)
  {
    DecodeEncode(v);
    EncodedIsPlain(v);
  }

  lemma {:induction false} SegmentsReadBack(segments: seq<Text>)
    requires Each(Segment, segments).Some?
    ensures Each(DecodeSegment, Each(Segment, segments).value) == Some(segments)
    ensures forall raw | raw in Each(Segment, segments).value :: raw != [] && forall u | u in raw :: Plain(u)
  {
    if segments != [] {
      SegmentReadsBack(segments[0]);
      SegmentsReadBack(segments[1..]);
      var raw, rest := Each(Segment, segments).value, Each(Segment, segments[1..]).value;
      assert raw == [Segment(segments[0]).value] + rest;
      assert raw[1..] == rest;
      assert [segments[0]] + segments[1..] == segments;
    }
  }

  lemma {:induction false} CutWithout(t: Text, sep: Unit)
    requires sep !in t
    ensures CutAt(t, sep) == (t, None)
  {
    if t != [] {
      CutWithout(t[1..], sep);
      assert [t[0]] + t[1..] == t;
    }
  }

  lemma {:induction false} CutFirst(before: Text, sep: Unit, after: Text)
    requires sep !in before
    ensures CutAt(before + [sep] + after, sep) == (before, Some(after))
  {
    var t := before + [sep] + after;
    if before == [] {
      assert t[1..] == after;
    } else {
      CutFirst(before[1..], sep, after);
      assert t[1..] == before[1..] + [sep] + after;
      assert [before[0]] + before[1..] == before;
    }
  }

  function QueryText(query: Option<Text>): Text { if query.None? then [] else [QUESTION] + query.value }

  lemma CutQuery(path: Text, query: Option<Text>)
    requires QUESTION !in path
    ensures CutAt(path + QueryText(query), QUESTION) == (path, query)
  {
    if query.None? {
      CutWithout(path, QUESTION);
      assert path + [] == path;
    } else {
      CutFirst(path, QUESTION, query.value);
      assert path + ([QUESTION] + query.value) == path + [QUESTION] + query.value;
    }
  }

  /** No delimiter of the grammar stands inside a raw segment. */
  predicate RawSegment(r: Text) { r != [] && SLASH !in r && HASH !in r && QUESTION !in r }

  ghost predicate RawSegments(raw: seq<Text>) { raw != [] && forall r | r in raw :: RawSegment(r) }

  lemma NoDelimiter(raw: seq<Text>)
    requires RawSegments(raw)
    ensures HASH !in Join(raw, SLASH) && QUESTION !in Join(raw, SLASH) && Split(Join(raw, SLASH), SLASH) == raw
  {
    if HASH in Join(raw, SLASH) { JoinHolds(raw, SLASH, HASH); }
    if QUESTION in Join(raw, SLASH) { JoinHolds(raw, SLASH, QUESTION); }
    SplitOfJoin(raw, SLASH);
  }

  /** The parser takes a text apart into the raw segments and the query it was made of. */
  lemma ParseRaw(raw: seq<Text>, query: Option<Text>)
    requires RawSegments(raw) && HASH !in OrEmpty(query)
    ensures var segments := Each(DecodeSegment, raw);
      Parse(SCHEME + Join(raw, SLASH) + QueryText(query)) == if segments.None? then Rejected else Interpret(segments.value, OrEmpty(query))
  {
    var path := Join(raw, SLASH);
    var input, rest := SCHEME + path + QueryText(query), path + QueryText(query);
    assert input[|SCHEME|..] == rest && input[..|SCHEME|] == SCHEME;
    NoDelimiter(raw);
    CutQuery(path, query);
  }

  /** The parser takes a printed text apart into the segments and the query it was made of. */
  lemma ParseText(segments: seq<Text>, query: Option<Text>)
    requires segments != [] && Encoded(segments).Some? && HASH !in OrEmpty(query)
    ensures Parse(SCHEME + Encoded(segments).value + QueryText(query)) == Interpret(segments, OrEmpty(query))
  {
    SegmentsReadBack(segments);
    ParseRaw(Each(Segment, segments).value, query);
  }

  lemma {:induction false} FormDecodePlain(t: Text)
    requires forall u | u in t :: Unreserved(u)
    ensures FormDecode(t) == t
  {
    if t != [] {
      assert Unreserved(t[0]);
      FormDecodePlain(t[1..]);
      assert [t[0]] + t[1..] == t;
    }
  }

  lemma DigitsSpell(n: nat)
    ensures var digits := Ascii(Decimal.Print(n)); AllDigits(digits) && Spelled(digits) == n
  {
    var s := Decimal.Print(n);
    var digits := Ascii(s);
    assert forall i | 0 <= i < |digits| :: Decimal.IsDigit(s[i]) && digits[i] == s[i] as int;
    assert seq(|digits|, i requires 0 <= i < |digits| => digits[i] as char) == s;
    Decimal.ReadPrint(n);
  }

  /** Lines the parser reads back: from 10^21 on they print with an exponent. */
  predicate Readable(line: Option<Line>) { line.Some? && line.value.Integer? ==> line.value.n < JsNumber.TEN_21 }

  lemma LineChars(n: nat)
    requires n >= 1 && JsNumber.Exact(n)
    ensures var digits := Ascii(JsNumber.ToString(n));
      && LineText(n) == Ascii("line") + [EQUALS] + digits
      && PERCENT !in digits && AMPERSAND !in LineText(n) && HASH !in LineText(n) && LineText(n)[0] != QUESTION
      && (n >= JsNumber.TEN_21 ==> PLUS in digits)
  {
    var s := JsNumber.ToString(n);
    JsNumber.ToStringChars(n);
    JsNumber.ExponentIff(n);
    assert forall i | 0 <= i < |s| :: Ascii(s)[i] == s[i] as int;
    assert Ascii("line=") == Ascii("line") + [EQUALS];
    if n >= JsNumber.TEN_21 {
      var i :| 0 <= i < |s| && s[i] == '+';
      assert Ascii(s)[i] == PLUS;
    }
  }

  lemma {:induction false} PlusBecomesSpace(t: Text)
    requires PERCENT !in t && PLUS in t
    ensures 0x20 in FormDecode(t)
  {
    if t[0] != PLUS {
      assert Unescape(t).None?;
      PlusBecomesSpace(t[1..]);
    }
  }

  /** What the parser makes of `line=` and some text. */
  lemma PieceOf(text: Text)
    ensures var digits := FormDecode(text);
      PieceLine(Ascii("line") + [EQUALS] + text) == if !AllDigits(digits) || BelowOne(ToNumber(digits)) then None else Some(ToNumber(digits))
  {
    var key := Ascii("line");
    CutFirst(key, EQUALS, text);
    FormDecodePlain(key);
  }

  /** Digits that spell `m` parse as the number they denote. */
  lemma DigitsPiece(m: nat, line: Line)
    requires line == JsNumber.FromInteger(m) && !BelowOne(line)
    ensures PieceLine(Ascii("line") + [EQUALS] + Ascii(Decimal.Print(m))) == Some(line)
  {
    var digits := Ascii(Decimal.Print(m));
    DigitsSpell(m);
    FormDecodePlain(digits);
    PieceOf(digits);
  }

  lemma ExponentPiece(text: Text)
    requires PERCENT !in text && PLUS in text
    ensures PieceLine(Ascii("line") + [EQUALS] + text) == None
  {
    PlusBecomesSpace(text);
    PieceOf(text);
  }

  lemma PieceReadsBack(n: nat)
    requires n >= 1 && JsNumber.Exact(n)
    ensures PieceLine(LineText(n)) == if n < JsNumber.TEN_21 then Some(JsNumber.Integer(n)) else None
  {
    LineChars(n);
    JsNumber.ExponentIff(n);
    if n < JsNumber.TEN_21 {
      DigitsPiece(JsNumber.Shortest(n), JsNumber.Integer(n));
    } else {
      ExponentPiece(Ascii(JsNumber.ToString(n)));
    }
  }

  /** The printed line parameter parses back to the line, or, from 10^21 on, fails the query. */
  lemma LineReadsBack(n: nat)
    requires n >= 1 && JsNumber.Exact(n)
    ensures LineFromQuery(LineText(n)) == if n < JsNumber.TEN_21 then Given(Some(JsNumber.Integer(n))) else BadQuery
    ensures HASH !in LineText(n)
  {
    var piece := LineText(n);
    LineChars(n);
    PieceReadsBack(n);
    SplitFree(piece, AMPERSAND);
    assert LineOf([piece][..0]) == Given(None);
    assert Pieces(piece) == [piece];
  }

  lemma FirstUnits()
    ensures Ascii("runs")[0] == Ascii("run")[0] == Ascii("report")[0] == 0x72
    ensures Ascii("error")[0] == 0x65 && Ascii("queue")[0] == 0x71 && Ascii("deployment")[0] == 0x64
    ensures Ascii("investigation")[0] == 0x69 && Ascii("source")[0] == 0x73
  {
  }

  predicate LineFits(u: Uri) { LineField(u.resource).Some? ==> PositiveInteger(LineField(u.resource).value) }

  /** The query of a URI whose line fits. */
  function Query(u: Uri): Option<Text>
    requires LineFits(u)
  {
    var line := LineField(u.resource);
    if line.None? then None else Some(LineText(line.value.n))
  }

  lemma InterpretSegments(u: Uri)
    requires LineFits(u)
    ensures Interpret(Segments(u), OrEmpty(Query(u))) == if Readable(LineField(u.resource)) then Accepted(u) else Rejected
  {
    FirstUnits();
    var segments, tail := Segments(u), Tail(u.resource);
    assert segments[2] == tail[0] && segments[3..] == tail[1..];
    if u.resource.Source? {
      var r := u.resource;
      assert tail[1..] == [r.sha] + Split(r.path, SLASH) && tail[1..][1..] == Split(r.path, SLASH);
      JoinSplit(r.path, SLASH);
      if r.line.Some? { LineReadsBack(r.line.value.n); }
    }
  }

  /** A printed URI in its parts. */
  lemma PrintedIs(u: Uri)
    requires FormatTriggerUri(u).Some?
    ensures LineFits(u) && Encoded(Segments(u)).Some? && HASH !in OrEmpty(Query(u))
    ensures FormatTriggerUri(u).value == SCHEME + Encoded(Segments(u)).value + QueryText(Query(u))
  {
    UriText(u);
    var line := LineField(u.resource);
    if line.Some? { LineReadsBack(line.value.n); }
  }

  /**
   * Parsing what formatTriggerUri returned gives the value back, for every kind and exactly
   * unless the line is 10^21 or more; then the parser rejects it.
   */
  lemma ParseFormat(u: Uri)
    requires FormatTriggerUri(u).Some?
    ensures Parse(FormatTriggerUri(u).value) == if Readable(LineField(u.resource)) then Accepted(u) else Rejected
  {
    PrintedIs(u);
    InterpretSegments(u);
    ParseText(Segments(u), Query(u));
  }

  // ---------------------------------------------------------------- different values print differently

  lemma AsciiInjective(a: string, b: string)
    requires Ascii(a) == Ascii(b) && IsAscii(a) && IsAscii(b)
    ensures a == b
  {
    forall i | 0 <= i < |a| ensures a[i] == b[i] {
      assert Ascii(a)[i] == Ascii(b)[i];
    }
  }

  lemma SameSuffix(a: Text, x: Text, y: Text)
    requires a + x == a + y
    ensures x == y
  {
    assert x == (a + x)[|a|..] && y == (a + y)[|a|..];
  }

  lemma LineTextInjective(m: nat, n: nat)
    requires JsNumber.Exact(m) && JsNumber.Exact(n) && LineText(m) == LineText(n)
    ensures m == n
  {
    var x, y := JsNumber.ToString(m), JsNumber.ToString(n);
    SameSuffix(Ascii("line="), Ascii(x), Ascii(y));
    PrintedInjective(m, n);
  }

  predicate IsAscii(s: string) { forall i | 0 <= i < |s| :: s[i] < '\U{0080}' }

  lemma ToStringIsAscii(n: nat)
    requires JsNumber.Exact(n)
    ensures IsAscii(JsNumber.ToString(n))
  {
    JsNumber.ToStringChars(n);
  }

  lemma PrintedInjective(m: nat, n: nat)
    requires JsNumber.Exact(m) && JsNumber.Exact(n) && Ascii(JsNumber.ToString(m)) == Ascii(JsNumber.ToString(n))
    ensures m == n
  {
    ToStringIsAscii(m);
    ToStringIsAscii(n);
    AsciiInjective(JsNumber.ToString(m), JsNumber.ToString(n));
    JsNumber.ToStringInjective(m, n);
  }

  function WithoutLine(u: Uri): Uri {
    if u.resource.Source? then u.(resource := u.resource.(line := None)) else u
  }

  lemma SegmentsInjective(u: Uri, v: Uri)
    requires Segments(u) == Segments(v) && LineField(u.resource) == LineField(v.resource)
    ensures u == v
  {
    InterpretSegments(WithoutLine(u));
    InterpretSegments(WithoutLine(v));
    assert Segments(WithoutLine(u)) == Segments(u) && Segments(WithoutLine(v)) == Segments(v);
  }

  /** The path of a printed text ends at its question mark, and decodes to the segments. */
  lemma PathReadsBack(segments: seq<Text>, query: Option<Text>)
    requires segments != [] && Encoded(segments).Some?
    ensures var path := Encoded(segments).value;
      CutAt(path + QueryText(query), QUESTION) == (path, query) && Each(DecodeSegment, Split(path, SLASH)) == Some(segments)
  {
    SegmentsReadBack(segments);
    NoDelimiter(Each(Segment, segments).value);
    CutQuery(Encoded(segments).value, query);
  }

  lemma SameText(a: seq<Text>, p: Option<Text>, b: seq<Text>, q: Option<Text>)
    requires a != [] && b != [] && Encoded(a).Some? && Encoded(b).Some?
    requires SCHEME + Encoded(a).value + QueryText(p) == SCHEME + Encoded(b).value + QueryText(q)
    ensures a == b && p == q
  {
    SameRest(Encoded(a).value, QueryText(p), Encoded(b).value, QueryText(q));
    PathReadsBack(a, p);
    PathReadsBack(b, q);
  }

  lemma SameRest(x: Text, p: Text, y: Text, q: Text)
    requires SCHEME + x + p == SCHEME + y + q
    ensures x + p == y + q
  {
    assert SCHEME + x + p == SCHEME + (x + p);
    assert SCHEME + y + q == SCHEME + (y + q);
    SameSuffix(SCHEME, x + p, y + q);
  }

  lemma SameQuery(u: Uri, v: Uri)
    requires LineFits(u) && LineFits(v) && Query(u) == Query(v)
    ensures LineField(u.resource) == LineField(v.resource)
  {
    if Query(u).Some? {
      LineTextInjective(LineField(u.resource).value.n, LineField(v.resource).value.n);
    }
  }

  /** Two values with one text are one value, lines of any size included. */
  lemma FormatInjective(u: Uri, v: Uri)
    requires FormatTriggerUri(u).Some? && FormatTriggerUri(u) == FormatTriggerUri(v)
    ensures u == v
  {
    PrintedIs(u);
    PrintedIs(v);
    SameText(Segments(u), Query(u), Segments(v), Query(v));
    SameQuery(u, v);
    SegmentsInjective(u, v);
  }

  // ---------------------------------------------------------------- what the parser accepts

  /** Each raw segment decodes to its non-empty segment. */
  predicate Decodes(raw: seq<Text>, segments: seq<Text>) {
    |raw| == |segments| && forall i | 0 <= i < |raw| :: segments[i] != [] && Decode(raw[i]) == Some(segments[i])
  }

  lemma DecodesIs(raw: seq<Text>, segments: seq<Text>)
    ensures Decodes(raw, segments) <==> Each(DecodeSegment, raw) == Some(segments)
  {
    EachAt(DecodeSegment, raw);
    if Decodes(raw, segments) {
      forall r | r in raw ensures DecodeSegment(r).Some? {
        var i :| 0 <= i < |raw| && raw[i] == r;
        assert segments[i] != [];
      }
      assert Each(DecodeSegment, raw).value == segments;
    }
  }

  /** `key=value` where the key reads `line` and the value as digits for a line of at least 1. */
  ghost predicate IsLineParam(piece: Text, line: Line) {
    exists key, value :: IsParam(piece, key, value, line)
  }

  predicate IsParam(piece: Text, key: Text, value: Text, line: Line) {
    && EQUALS !in key && piece == key + [EQUALS] + value && FormDecode(key) == Ascii("line")
    && AllDigits(FormDecode(value)) && Spelled(FormDecode(value)) >= 1
    && line == JsNumber.FromInteger(Spelled(FormDecode(value)))
  }

  lemma PieceLineIs(piece: Text, line: Line)
    ensures PieceLine(piece) == Some(line) <==> IsLineParam(piece, line)
  {
    if PieceLine(piece) == Some(line) {
      var (key, value) := CutAt(piece, EQUALS);
      JsNumber.FromIntegerIsDouble(Spelled(FormDecode(OrEmpty(value))));
      assert IsParam(piece, key, value.value, line);
    }
    if key, value :| IsParam(piece, key, value, line) {
      CutFirst(key, EQUALS, value);
      JsNumber.FromIntegerIsDouble(Spelled(FormDecode(value)));
    }
  }

  function NonEmpty(pieces: seq<Text>): seq<Text> {
    if pieces == [] then []
    else
      var last := pieces[|pieces| - 1];
      NonEmpty(pieces[..|pieces| - 1]) + if last == [] then [] else [last]
  }

  ghost predicate SomeLine(piece: Text) { exists x :: IsLineParam(piece, x) }

  /** Every parameter is a line, and the last one counts; none leaves the line open. */
  ghost predicate ParamsSay(params: seq<Text>, line: Option<Line>) {
    && (forall piece | piece in params :: SomeLine(piece))
    && (line.None? <==> params == [])
    && (line.Some? && params != [] ==> IsLineParam(params[|params| - 1], line.value))
  }

  lemma {:induction false} LineOfSays(pieces: seq<Text>, line: Option<Line>)
    ensures LineOf(pieces) == Given(line) <==> ParamsSay(NonEmpty(pieces), line)
  {
    if pieces != [] {
      var init, last := pieces[..|pieces| - 1], pieces[|pieces| - 1];
      assert init + [last] == pieces;
      if last == [] {
        LineOfSays(init, line);
      } else {
        LastParam(init, last, line);
      }
    }
  }

  lemma {:induction false} GoodPieces(pieces: seq<Text>)
    ensures LineOf(pieces).Given? <==> forall piece | piece in NonEmpty(pieces) :: SomeLine(piece)
  {
    if pieces != [] {
      var last := pieces[|pieces| - 1];
      GoodPieces(pieces[..|pieces| - 1]);
      PieceGood(last);
    }
  }

  lemma PieceGood(piece: Text)
    ensures PieceLine(piece).Some? <==> SomeLine(piece)
  {
    if PieceLine(piece).Some? { PieceLineIs(piece, PieceLine(piece).value); }
    if x :| IsLineParam(piece, x) { PieceLineIs(piece, x); }
  }

  lemma LineOfStep(init: seq<Text>, last: Text)
    requires last != []
    ensures LineOf(init + [last])
            == if LineOf(init).BadQuery? || PieceLine(last).None? then BadQuery else Given(PieceLine(last))
    ensures NonEmpty(init + [last]) == NonEmpty(init) + [last]
  {
    assert (init + [last])[..|init|] == init;
  }

  lemma ParamsStep(params: seq<Text>, last: Text, line: Option<Line>)
    ensures ParamsSay(params + [last], line)
      <==> (forall piece | piece in params :: SomeLine(piece)) && line.Some? && IsLineParam(last, line.value)
  {
    assert (params + [last])[|params|] == last;
    if line.Some? && IsLineParam(last, line.value) { assert SomeLine(last); }
    assert forall piece :: piece in params + [last] <==> piece in params || piece == last;
  }

  lemma LastParam(init: seq<Text>, last: Text, line: Option<Line>)
    requires last != []
    ensures LineOf(init + [last]) == Given(line) <==> ParamsSay(NonEmpty(init + [last]), line)
  {
    LineOfStep(init, last);
    GoodPieces(init);
    ParamsStep(NonEmpty(init), last, line);
    if line.Some? { PieceLineIs(last, line.value); }
  }

  /** What a query says about the line: `&` separates its parameters, after one `?` it may begin with. */
  ghost predicate QuerySays(query: Text, line: Option<Line>) {
    ParamsSay(NonEmpty(Split(if query != [] && query[0] == QUESTION then query[1..] else query, AMPERSAND)), line)
  }

  lemma QuerySaysIs(query: Text, line: Option<Line>)
    ensures LineFromQuery(query) == Given(line) <==> QuerySays(query, line)
  {
    LineOfSays(Pieces(query), line);
    if query == [] {
      assert NonEmpty([[]][..0]) == [] && Split(query, AMPERSAND) == [[]];
      assert LineOf([[]][..0]) == Given(None);
    }
  }

  /** A source value made of these segments: `source`, the sha, and one or more parts of the path. */
  ghost predicate SourceSegments(segments: seq<Text>, u: Uri) {
    && u.resource.Source? && |segments| >= 5
    && segments[..4] == [u.projectRef, u.environmentId, Ascii("source"), u.resource.sha]
    && u.resource.path == Join(segments[4..], SLASH)
  }

  /** The value these segments and this query stand for. */
  ghost predicate StandFor(segments: seq<Text>, query: Text, u: Uri) {
    if u.resource.Source? then SourceSegments(segments, u) && QuerySays(query, u.resource.line)
    else segments == Segments(u) && query == []
  }

  /** The text in its parts: delimiter-free raw segments, and a query if there is a question mark. */
  ghost predicate Written(t: Text, raw: seq<Text>, query: Option<Text>) {
    RawSegments(raw) && HASH !in OrEmpty(query) && t == SCHEME + Join(raw, SLASH) + QueryText(query)
  }

  ghost predicate Spells(t: Text, raw: seq<Text>, segments: seq<Text>, query: Option<Text>, u: Uri) {
    Written(t, raw, query) && Decodes(raw, segments) && StandFor(segments, OrEmpty(query), u)
  }

  /** Some way of cutting the text up spells the value. */
  ghost predicate InGrammar(t: Text, u: Uri) {
    exists raw, segments, query :: Spells(t, raw, segments, query, u)
  }

  lemma KindsDiffer()
    ensures Ascii("runs") != Ascii("run") && |Ascii("runs")| == 4 && |Ascii("run")| == 3 && |Ascii("report")| == 6
  {
  }

  lemma InterpretSource(segments: seq<Text>, query: Text, u: Uri)
    requires u.resource.Source?
    ensures Interpret(segments, query) == Accepted(u) <==> StandFor(segments, query, u)
  {
    FirstUnits();
    QuerySaysIs(query, u.resource.line);
    if |segments| >= 5 {
      assert segments[3..][1..] == segments[4..];
      assert segments[..4] == [segments[0], segments[1], segments[2], segments[3]];
    }
  }

  lemma InterpretOther(segments: seq<Text>, query: Text, u: Uri)
    requires !u.resource.Source?
    ensures Interpret(segments, query) == Accepted(u) <==> StandFor(segments, query, u)
  {
    FirstUnits();
    KindsDiffer();
    if StandFor(segments, query, u) { InterpretSegments(u); }
    if Interpret(segments, query) == Accepted(u) {
      assert segments == [segments[0], segments[1], segments[2]] + segments[3..];
      assert segments == Segments(u);
    }
  }

  lemma ParseSpelled(t: Text, raw: seq<Text>, segments: seq<Text>, query: Option<Text>, u: Uri)
    requires Spells(t, raw, segments, query, u)
    ensures Parse(t) == Accepted(u)
  {
    DecodesIs(raw, segments);
    ParseRaw(raw, query);
    if u.resource.Source? {
      InterpretSource(segments, OrEmpty(query), u);
    } else {
      InterpretOther(segments, OrEmpty(query), u);
    }
  }

  lemma SpelledFrom(t: Text, u: Uri)
    requires Parse(t) == Accepted(u)
    ensures InGrammar(t, u)
  {
    var rest := t[|SCHEME|..];
    var (path, query) := CutAt(rest, QUESTION);
    var raw := Split(path, SLASH);
    var segments := Each(DecodeSegment, raw).value;
    DecodesIs(raw, segments);
    if u.resource.Source? {
      InterpretSource(segments, OrEmpty(query), u);
    } else {
      InterpretOther(segments, OrEmpty(query), u);
    }
    WrittenFrom(t);
    assert Spells(t, raw, segments, query, u);
  }

  /** The parser's cuts put the text back together. */
  lemma WrittenFrom(t: Text)
    requires SCHEME <= t && HASH !in t[|SCHEME|..]
    requires [] !in Split(CutAt(t[|SCHEME|..], QUESTION).0, SLASH)
    ensures Written(t, Split(CutAt(t[|SCHEME|..], QUESTION).0, SLASH), CutAt(t[|SCHEME|..], QUESTION).1)
  {
    var rest := t[|SCHEME|..];
    var (path, query) := CutAt(rest, QUESTION);
    var raw := Split(path, SLASH);
    SplitIsFree(path, SLASH);
    JoinSplit(path, SLASH);
    assert forall u | u in path :: u in rest;
    assert forall u | u in OrEmpty(query) :: u in rest;
    forall r | r in raw ensures RawSegment(r) { JoinedIn(raw, SLASH, r); }
    assert rest == path + QueryText(query);
    assert t == SCHEME + rest;
    assert SCHEME + (path + QueryText(query)) == SCHEME + path + QueryText(query);
  }

  lemma {:induction false} JoinedIn(parts: seq<Text>, sep: Unit, part: Text)
    requires part in parts
    ensures forall x | x in part :: x in Join(parts, sep)
  {
    if |parts| > 1 && part != parts[0] {
      JoinedIn(parts[1..], sep, part);
    }
  }

  /**
   * The whole grammar, both ways. A text is accepted as a value exactly when it is the scheme,
   * raw segments that decode to the value's own, and for a source a query whose parameters are
   * all lines, the last of them the value's; any other query that is not empty is refused.
   */
  lemma AcceptedIff(t: Text, u: Uri)
    ensures Parse(t) == Accepted(u) <==> InGrammar(t, u)
  {
    if Parse(t) == Accepted(u) { SpelledFrom(t, u); }
    if raw, segments, query :| Spells(t, raw, segments, query, u) { ParseSpelled(t, raw, segments, query, u); }
  }

  // ---------------------------------------------------------------- what can be printed

  /** Every text a caller puts into a URI value. */
  function Fields(u: Uri): seq<Text> {
    [u.projectRef, u.environmentId] +
    match u.resource
    case Runs => []
    case Run(id) => [id]
    case Span(id, span) => [id, span]
    case Error(id) => [id]
    case Queue(id) => [id]
    case Deployment(id) => [id]
    case Report(id) => [id]
    case Investigation(id) => [id]
    case Source(sha, path, _) => [sha, path]
  }

  /** No `/` at either end of a source path, and no two in a row. */
  predicate PathParts(u: Uri) { u.resource.Source? ==> [] !in Split(u.resource.path, SLASH) }

  ghost predicate AllWellFormed(texts: seq<Text>) { forall t | t in texts :: WellFormed(t) }

  lemma WellFormedCut(a: Text, b: Text)
    ensures WellFormed(a + [SLASH] + b) <==> WellFormed(a) && WellFormed(b)
  {
    var t := a + [SLASH] + b;
    forall i: nat | i < |a| ensures Paired(t, i) <==> Paired(a, i) {
      assert t[i] == a[i] && (i > 0 ==> t[i - 1] == a[i - 1]);
      assert i + 1 < |a| ==> t[i + 1] == a[i + 1];
    }
    forall i: nat | i < |b| ensures Paired(t, |a| + 1 + i) <==> Paired(b, i) {
      var j := |a| + 1 + i;
      assert t[j] == b[i] && (i > 0 ==> t[j - 1] == b[i - 1]) && t[|a|] == SLASH;
      assert i + 1 < |b| ==> t[j + 1] == b[i + 1];
    }
    assert t[|a|] == SLASH;
    if WellFormed(t) {
      forall i: nat | i < |b| ensures Paired(b, i) { assert Paired(t, |a| + 1 + i); }
    }
    if WellFormed(a) && WellFormed(b) {
      forall j: nat | j < |t| ensures Paired(t, j) {
        if j > |a| { assert Paired(b, j - |a| - 1); }
      }
    }
  }

  lemma {:induction false} WellFormedJoin(parts: seq<Text>)
    requires parts != []
    ensures WellFormed(Join(parts, SLASH)) <==> AllWellFormed(parts)
  {
    if |parts| > 1 {
      WellFormedJoin(parts[1..]);
      WellFormedCut(parts[0], Join(parts[1..], SLASH));
      assert forall t | t in parts :: t == parts[0] || t in parts[1..];
    }
  }

  ghost predicate Printable(t: Text) { t != [] && WellFormed(t) }

  lemma KindPrintable(kind: string)
    requires IsKind(kind)
    ensures Printable(Ascii(kind))
  {
    KindSegment(kind);
    EncodeIff(Ascii(kind));
  }

  lemma PathPrintable(path: Text)
    ensures (forall v | v in Split(path, SLASH) :: Printable(v)) <==> Printable(path) && [] !in Split(path, SLASH)
  {
    JoinSplit(path, SLASH);
    WellFormedJoin(Split(path, SLASH));
    assert path == [] ==> Split(path, SLASH)[0] == [];
  }

  ghost predicate AllPrintable(texts: seq<Text>) { forall t | t in texts :: Printable(t) }

  lemma TailPrintable(r: Resource, ids: seq<Text>)
    requires Fields(Uri([], [], r)) == [[], []] + ids
    ensures AllPrintable(Tail(r)) <==> AllPrintable(ids) && PathParts(Uri([], [], r))
  {
    assert ids == Fields(Uri([], [], r))[2..];
    match r
    case Runs => KindPrintable("runs");
    case Run(_) => KindPrintable("run");
    case Span(_, _) => KindPrintable("run"); KindPrintable("span");
    case Error(_) => KindPrintable("error");
    case Queue(_) => KindPrintable("queue");
    case Deployment(_) => KindPrintable("deployment");
    case Report(_) => KindPrintable("report");
    case Investigation(_) => KindPrintable("investigation");
    case Source(sha, path, _) =>
      KindPrintable("source");
      PathPrintable(path);
      assert forall v | v in Split(path, SLASH) :: v in Tail(r);
  }

  /**
   * formatTriggerUri returns exactly when every field is non-empty well-formed UTF-16, no part
   * of a source path is empty and a line is a positive integer.
   */
  lemma FormatIff(u: Uri)
    ensures FormatTriggerUri(u).Some? <==> AllPrintable(Fields(u)) && PathParts(u) && LineFits(u)
  {
    UriText(u);
    EachAt(Segment, Segments(u));
    forall v ensures Segment(v).Some? <==> Printable(v) { EncodeIff(v); }
    var ids := Fields(u)[2..];
    TailPrintable(u.resource, ids);
    assert Fields(u) == [u.projectRef, u.environmentId] + ids;
    assert AllPrintable(Segments(u)) <==> Printable(u.projectRef) && Printable(u.environmentId) && AllPrintable(Tail(u.resource));
  }

  /** What the parser gives for a line: a positive integer, or infinity. */
  predicate LineParsed(u: Uri) { LineField(u.resource).Some? ==> ParsedLine(LineField(u.resource).value) }

  /** Everything the parser accepts has non-empty fields and such a line. */
  lemma AcceptedFields(t: Text, u: Uri)
    requires Parse(t) == Accepted(u)
    ensures [] !in Fields(u) && LineParsed(u)
  {
    var (path, query) := CutAt(t[|SCHEME|..], QUESTION);
    var raw := Split(path, SLASH);
    EachAt(DecodeSegment, raw);
    InterpretFields(Each(DecodeSegment, raw).value, OrEmpty(query), u);
  }

  lemma InterpretFields(segments: seq<Text>, query: Text, u: Uri)
    requires [] !in segments && Interpret(segments, query) == Accepted(u)
    ensures [] !in Fields(u) && LineParsed(u)
  {
    var tail := segments[3..];
    assert forall s | s in tail :: s in segments;
    assert u.resource.Source? ==> tail[1] in segments && u.resource.path[0] == tail[1][0] by {
      if u.resource.Source? {
        assert tail[1..][0] == tail[1];
      }
    }
  }

  predicate Finite(line: Option<Line>) { line.Some? ==> !line.value.Infinity? }

  /**
   * A parsed URI can be printed again exactly when it holds no lone surrogate, its path no empty
   * part and its line is finite: the parser decodes a raw lone surrogate and an escaped slash and
   * takes as many digits as there are, the printer throws on the first, on the empty part the
   * second leaves and on infinity.
   */
  lemma AcceptedPrintsIff(t: Text, u: Uri)
    requires Parse(t) == Accepted(u)
    ensures FormatTriggerUri(u).Some? <==> AllWellFormed(Fields(u)) && PathParts(u) && Finite(LineField(u.resource))
  {
    AcceptedFields(t, u);
    FormatIff(u);
  }

  /** It prints and parses back to itself exactly when, besides, its line is below 10^21. */
  lemma AcceptedRoundTripsIff(t: Text, u: Uri)
    requires Parse(t) == Accepted(u)
    ensures (exists c :: FormatTriggerUri(u) == Some(c) && Parse(c) == Accepted(u))
      <==> AllWellFormed(Fields(u)) && PathParts(u) && Finite(LineField(u.resource)) && Readable(LineField(u.resource))
  {
    AcceptedPrintsIff(t, u);
    if FormatTriggerUri(u).Some? {
      ParseFormat(u);
    }
  }

  /** The printed form of what a text parses to. */
  function Canonical(t: Text): Option<Text> {
    if Parse(t).Accepted? then FormatTriggerUri(Parse(t).uri) else None
  }

  /** Canonicalizing keeps the meaning, and doing it again changes nothing, exactly when the line is below 10^21. */
  lemma CanonicalIsStableIff(t: Text)
    requires Canonical(t).Some?
    ensures Parse(Canonical(t).value) == Parse(t) <==> Readable(LineField(Parse(t).uri.resource))
    ensures Canonical(Canonical(t).value) == Canonical(t) <==> Readable(LineField(Parse(t).uri.resource))
  {
    ParseFormat(Parse(t).uri);
  }

  /** Two accepted texts have one canonical form exactly when they mean the same. */
  lemma CanonicalDecidesMeaning(s: Text, t: Text)
    requires Canonical(s).Some? && Canonical(t).Some?
    ensures Canonical(s) == Canonical(t) <==> Parse(s) == Parse(t)
  {
    if Canonical(s) == Canonical(t) {
      FormatInjective(Parse(s).uri, Parse(t).uri);
    }
  }

  lemma {:induction false} RawReadsBack(raw: seq<Text>)
    requires forall r | r in raw :: r != [] && PERCENT !in r
    ensures Each(DecodeSegment, raw) == Some(raw)
  {
    if raw != [] {
      DecodeUnescaped(raw[0]);
      RawReadsBack(raw[1..]);
      assert [raw[0]] + raw[1..] == raw;
    }
  }

  /** `trigger://p/e/task/a`: nothing of an unknown kind is accepted, whatever it is followed by. */
  lemma UnknownKindIsRejected(project: Text, environment: Text, kind: string, rest: seq<Text>, query: Option<Text>)
    requires forall r | r in [project, environment, Ascii(kind)] + rest :: RawSegment(r)
    requires !ResourceKind(kind) && IsAscii(kind) && PERCENT !in Ascii(kind) && HASH !in OrEmpty(query)
    ensures Parse(SCHEME + Join([project, environment, Ascii(kind)] + rest, SLASH) + QueryText(query)) == Rejected
  {
    var raw := [project, environment, Ascii(kind)] + rest;
    ParseRaw(raw, query);
    EachAt(DecodeSegment, raw);
    DecodeUnescaped(Ascii(kind));
    assert raw[2] == Ascii(kind);
    if Each(DecodeSegment, raw).Some? { OtherKind(Each(DecodeSegment, raw).value, OrEmpty(query), kind); }
  }

  predicate ResourceKind(kind: string) { IsKind(kind) && kind != "span" }

  lemma KindDiffers(kind: string, k: string)
    requires IsAscii(kind) && IsKind(k) && kind != k
    ensures Ascii(kind) != Ascii(k)
  {
    assert forall i | 0 <= i < |k| :: 'a' <= k[i] <= 'z';
    if Ascii(kind) == Ascii(k) { AsciiInjective(kind, k); }
  }

  lemma OtherKind(segments: seq<Text>, query: Text, kind: string)
    requires |segments| >= 3 && segments[2] == Ascii(kind) && IsAscii(kind) && !ResourceKind(kind)
    ensures Interpret(segments, query) == Rejected
  {
    KindDiffers(kind, "runs");
    KindDiffers(kind, "run");
    KindDiffers(kind, "error");
    KindDiffers(kind, "queue");
    KindDiffers(kind, "deployment");
    KindDiffers(kind, "report");
    KindDiffers(kind, "investigation");
    KindDiffers(kind, "source");
  }

  /** A fully escaped ASCII key or value of a query reads as it was. */
  lemma {:induction false} FormDecodeEscaped(t: seq<Byte>)
    requires forall i | 0 <= i < |t| :: t[i] < 0x80
    ensures FormDecode(EscapeAll(t)) == t
  {
    if t != [] {
      var rest := EscapeAll(t[1..]);
      UnescapeEscape(t[0], rest);
      FormDecodeEscaped(t[1..]);
      assert EscapeAll(t) == Escape(t[0]) + rest;
      assert [t[0]] + t[1..] == t;
    }
  }

  const P: Text := [0x70]
  const E: Text := [0x65]

  const LONE: Text := [0xD800]

  lemma KindIsRaw(kind: string)
    requires IsKind(kind)
    ensures RawSegment(Ascii(kind)) && PERCENT !in Ascii(kind)
  {
    assert forall i | 0 <= i < |kind| :: 'a' <= kind[i] <= 'z' && Ascii(kind)[i] == kind[i] as int;
  }

  lemma LoneSurrogateRaw(raw: seq<Text>)
    requires raw == [P, E, Ascii("run"), LONE]
    ensures RawSegments(raw) && Each(DecodeSegment, raw) == Some(raw)
  {
    KindIsRaw("run");
    forall r | r in raw ensures RawSegment(r) && PERCENT !in r {
      assert r == P || r == E || r == Ascii("run") || r == LONE;
    }
    RawReadsBack(raw);
  }

  lemma LoneSurrogateParses(raw: seq<Text>, u: Uri)
    requires raw == [P, E, Ascii("run"), LONE] && u == Uri(P, E, Run(LONE))
    ensures Parse(SCHEME + Join(raw, SLASH)) == Accepted(u)
  {
    InterpretSegments(u);
    assert Segments(u) == raw;
    LoneSurrogateRaw(raw);
    ParseRaw(raw, None);
    assert SCHEME + Join(raw, SLASH) + [] == SCHEME + Join(raw, SLASH);
  }

  /** `trigger://p/e/run/` and a raw lone surrogate: accepted, and impossible to print. */
  lemma LoneSurrogateIsAccepted()
    ensures var raw, u := [P, E, Ascii("run"), LONE], Uri(P, E, Run(LONE));
      Parse(SCHEME + Join(raw, SLASH)) == Accepted(u) && FormatTriggerUri(u).None?
  {
    var u := Uri(P, E, Run(LONE));
    LoneSurrogateParses([P, E, Ascii("run"), LONE], u);
    FormatIff(u);
    assert LONE in Fields(u) && !Paired(LONE, 0);
  }

  /** `a%2F`, and what it decodes to. */
  const ESCAPED: Text := [0x61, PERCENT, 0x32, 0x46]
  const SLASHED_PATH: Text := [0x61, SLASH]

  lemma EscapedDecodes()
    ensures DecodeSegment(ESCAPED) == Some(SLASHED_PATH)
  {
    var tail := ESCAPED[1..];
    assert tail == EscapeAll(Utf8(0x2F)) + [];
    DecodeEscapes(0x2F, []);
    assert Utf16(0x2F) + [] == [SLASH];
    assert Decode(tail) == Some([SLASH]);
    assert Decode(ESCAPED) == Some([ESCAPED[0]] + [SLASH]);
    assert [ESCAPED[0]] + [SLASH] == SLASHED_PATH;
  }

  lemma EscapedParses(front: seq<Text>, u: Uri)
    requires front == [P, E, Ascii("source"), [0x73]] && u == Uri(P, E, Source([0x73], SLASHED_PATH, None))
    ensures Parse(SCHEME + Join(front + [ESCAPED], SLASH)) == Accepted(u)
  {
    var raw, segments := front + [ESCAPED], front + [SLASHED_PATH];
    KindIsRaw("source");
    assert Each(DecodeSegment, raw) == Some(segments) by {
      RawReadsBack(front);
      EscapedDecodes();
      EachOne(DecodeSegment, ESCAPED);
      EachConcat(DecodeSegment, front, [ESCAPED]);
    }
    assert Interpret(segments, []) == Accepted(u) by {
      assert segments[3..] == [[0x73], SLASHED_PATH];
    }
    ParseRaw(raw, None);
    assert SCHEME + Join(raw, SLASH) + [] == SCHEME + Join(raw, SLASH);
  }

  /** `trigger://p/e/source/s/a%2F`: accepted with the path `a/`, and impossible to print. */
  lemma EscapedSlashIsAccepted()
    ensures var raw, u := [P, E, Ascii("source"), [0x73], ESCAPED], Uri(P, E, Source([0x73], SLASHED_PATH, None));
      Parse(SCHEME + Join(raw, SLASH)) == Accepted(u) && FormatTriggerUri(u).None?
  {
    var front, u := [P, E, Ascii("source"), [0x73]], Uri(P, E, Source([0x73], SLASHED_PATH, None));
    EscapedParses(front, u);
    assert front + [ESCAPED] == [P, E, Ascii("source"), [0x73], ESCAPED];
    assert Split(SLASHED_PATH, SLASH)[1] == [] by {
      assert SLASHED_PATH == [0x61] + [SLASH] + [];
      SplitAfter([0x61], SLASH, []);
    }
    FormatIff(u);
  }

  /** The text of `trigger://p/e/source/s/a?line=` and these digits. */
  function SourceWithLine(digits: Text): Text {
    SCHEME + Join([P, E, Ascii("source"), [0x73], [0x61]], SLASH) + QueryText(Some(Ascii("line=") + digits))
  }

  lemma DigitsQuery(n: nat)
    ensures var query := Ascii("line=") + Ascii(Decimal.Print(n));
      && query == Ascii("line") + [EQUALS] + Ascii(Decimal.Print(n))
      && HASH !in query && AMPERSAND !in query && query[0] != QUESTION
  {
    assert Ascii("line=") == Ascii("line") + [EQUALS];
    DigitsSpell(n);
  }

  lemma DigitsParse(n: nat, line: Line)
    requires n >= 1 && line == JsNumber.FromInteger(n)
    ensures LineFromQuery(Ascii("line=") + Ascii(Decimal.Print(n))) == Given(Some(line))
  {
    var query := Ascii("line=") + Ascii(Decimal.Print(n));
    DigitsQuery(n);
    JsNumber.FromIntegerIsDouble(n);
    DigitsPiece(n, line);
    SplitFree(query, AMPERSAND);
    assert LineOf([query][..0]) == Given(None);
    assert Pieces(query) == [query];
  }

  lemma SourceLineParses(n: nat, line: Line)
    requires n >= 1 && line == JsNumber.FromInteger(n)
    ensures Parse(SourceWithLine(Ascii(Decimal.Print(n)))) == Accepted(Uri(P, E, Source([0x73], [0x61], Some(line))))
  {
    var raw := [P, E, Ascii("source"), [0x73], [0x61]];
    KindIsRaw("source");
    forall r | r in raw ensures RawSegment(r) && PERCENT !in r {
      assert r == P || r == E || r == Ascii("source") || r == [0x73] || r == [0x61];
    }
    RawReadsBack(raw);
    DigitsParse(n, line);
    DigitsQuery(n);
    ParseRaw(raw, Some(Ascii("line=") + Ascii(Decimal.Print(n))));
    assert raw[3..] == [[0x73], [0x61]] && raw[3..][1..] == [[0x61]];
  }

  function Ten21(): Line {
    JsNumber.Ten21IsExact();
    JsNumber.Integer(JsNumber.TEN_21)
  }

  /** `...?line=1000000000000000000000`: accepted, and printed as a text the parser rejects. */
  lemma ExponentIsRejected()
    ensures var u := Uri(P, E, Source([0x73], [0x61], Some(Ten21())));
      && Parse(SourceWithLine(Ascii(Decimal.Print(JsNumber.TEN_21)))) == Accepted(u)
      && FormatTriggerUri(u).Some? && Parse(FormatTriggerUri(u).value) == Rejected
  {
    JsNumber.Ten21IsExact();
    SourceLineParses(JsNumber.TEN_21, Ten21());
    var u := Uri(P, E, Source([0x73], [0x61], Some(Ten21())));
    PlainSourcePrints(u);
    ParseFormat(u);
  }

  /** `...?line=1` and 340 zeros: accepted with an infinite line, and impossible to print. */
  lemma InfiniteLineIsAccepted()
    ensures var u := Uri(P, E, Source([0x73], [0x61], Some(JsNumber.Infinity)));
      Parse(SourceWithLine(Ascii(Decimal.Print(JsNumber.TenTo(340))))) == Accepted(u) && FormatTriggerUri(u).None?
  {
    JsNumber.TenTo340IsInfinite();
    SourceLineParses(JsNumber.TenTo(340), JsNumber.Infinity);
    FormatIff(Uri(P, E, Source([0x73], [0x61], Some(JsNumber.Infinity))));
  }

  lemma PlainSourcePrints(u: Uri)
    requires u.projectRef == P && u.environmentId == E && u.resource.Source? && u.resource.sha == [0x73] && u.resource.path == [0x61]
    requires LineFits(u)
    ensures FormatTriggerUri(u).Some?
  {
    var path: Text := [0x61];
    SplitFree(path, SLASH);
    FormatIff(u);
  }
}
