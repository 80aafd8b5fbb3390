/**
 * The redaction a judged turn's tool values go through:
 * internal-packages/dashboard-agent/src/eval-policy.ts.
 */
module Redaction {
  import opened Wrappers

  /** A JSON value; an object's entries are in enumeration order. */
  datatype Json =
    | Null
    | Bool(truth: bool)
    | Num(number: real)
    | Str(text: string)
    | Arr(items: seq<Json>)
    | Obj(entries: seq<Entry>)
  {
    predicate IsPrimitive() { !Arr? && !Obj? }
  }

  datatype Entry = Entry(key: string, value: Json)

  const MAX_REDACT_DEPTH := 8

  const CONTAINER_KEYS := {
    "data", "deploys", "environments", "errors", "error", "items", "projects", "queues", "results", "runs", "schedules", "tasks"
  }
  const IDENTITY_KEYS := {
    "batchId", "deployId", "environmentId", "id", "ids", "organizationId", "projectId", "projectRef", "queueId", "runId",
    "scheduleId", "spanId", "taskId", "taskIdentifier", "traceId", "friendlyId"
  }
  const NAME_KEYS := { "environment", "kind", "name", "slug", "type", "queue", "machine", "region", "runtime" }
  const STATE_KEYS := { "isError", "level", "outcome", "state", "status", "statuses", "verdict" }
  const SIZE_KEYS := {
    "attempts", "attemptCount", "count", "cursor", "hasMore", "limit", "page", "rowCount", "total", "totalCount"
  }
  const TIME_KEYS := {
    "completedAt", "createdAt", "durationMs", "expiresAt", "finishedAt", "from", "startedAt", "timestamp", "to",
    "updatedAt", "window"
  }
  const VERSION_KEYS := { "cliVersion", "sdkVersion", "version" }
  const MARKER_KEYS := { "chars", "note", "omitted", "redacted", "truncated" }

  const STRUCTURAL_KEYS := CONTAINER_KEYS + IDENTITY_KEYS + NAME_KEYS + STATE_KEYS + SIZE_KEYS + TIME_KEYS + VERSION_KEYS + MARKER_KEYS

  function ToolKeys(toolName: string): set<string> {
    if toolName == "run_query" then {"columns"}
    else if toolName == "get_query_schema" then {"columns", "tables", "table", "column"}
    else if toolName == "get_report" then {"sections", "section", "title", "metric", "metrics"}
    else if toolName == "get_queue" then {"concurrencyLimit", "paused"}
    else if toolName == "correlate_version" then {"versions", "before", "after"}
    else {}
  }

  function AllowedEvalKeys(toolName: Option<string>): set<string> {
    if toolName.None? then STRUCTURAL_KEYS else STRUCTURAL_KEYS + ToolKeys(toolName.value)
  }

  const CATEGORY := "errorCategory"

  lemma CategoryIsNoContainer()
    ensures CATEGORY !in CONTAINER_KEYS && "error" in CONTAINER_KEYS
  {
    assert forall k | k in CONTAINER_KEYS :: |k| < |CATEGORY|;
  }

  lemma CategoryIsNoIdentity()
    ensures CATEGORY !in IDENTITY_KEYS
  {
    assert forall k | k in IDENTITY_KEYS :: |k| != |CATEGORY| || k[1] != CATEGORY[1];
  }

  lemma CategoryIsNoState()
    ensures CATEGORY !in NAME_KEYS && CATEGORY !in STATE_KEYS && "isError" in STATE_KEYS
  {
    assert forall k | k in NAME_KEYS :: |k| < |CATEGORY|;
    assert forall k | k in STATE_KEYS :: |k| < |CATEGORY|;
  }

  lemma CategoryIsNoMeasure()
    ensures CATEGORY !in SIZE_KEYS && CATEGORY !in TIME_KEYS
  {
    assert forall k | k in SIZE_KEYS :: |k| < |CATEGORY|;
    assert forall k | k in TIME_KEYS :: |k| < |CATEGORY|;
  }

  lemma CategoryIsNoToolKey(toolName: string)
    ensures CATEGORY !in VERSION_KEYS && CATEGORY !in MARKER_KEYS && CATEGORY !in ToolKeys(toolName)
  {
    assert forall k | k in VERSION_KEYS :: |k| < |CATEGORY|;
    assert forall k | k in MARKER_KEYS :: |k| < |CATEGORY|;
    assert forall k | k in ToolKeys(toolName) :: |k| != |CATEGORY|;
  }

  /** An allow-list under which a tool may say that it failed, but not bring an error category of its own. */
  predicate FitsErrors(allowed: set<string>) { "isError" in allowed && "error" in allowed && CATEGORY !in allowed }

  /** Every tool's list is of that kind. */
  lemma Allowed(toolName: Option<string>)
    ensures FitsErrors(AllowedEvalKeys(toolName))
  {
    CategoryIsNoContainer();
    CategoryIsNoIdentity();
    CategoryIsNoState();
    CategoryIsNoMeasure();
    CategoryIsNoToolKey(if toolName.Some? then toolName.value else "");
  }

  // ---------------------------------------------------------------- the walk

  function Length(n: nat): Json { Num(n as real) }

  /** What stands for a field whose name is not allowed. */
  function DescribeShape(key: string, v: Json): Json {
    var name := Entry("redacted", Str(key));
    match v
    case Arr(items) => Obj([name, Entry("items", Length(|items|))])
    case Str(s) => Obj([name, Entry("chars", Length(|s|))])
    case Obj(entries) => Obj([name, Entry("keyCount", Length(|entries|))])
    case _ => Obj([name])
  }

  /** What stands for an object or array at the depth cap. */
  function DescribeTruncated(v: Json): Json
    requires !v.IsPrimitive()
  {
    var mark := Entry("truncated", Bool(true));
    if v.Arr? then Obj([mark, Entry("items", Length(|v.items|))]) else Obj([mark, Entry("keyCount", Length(|v.entries|))])
  }

  function Walk(v: Json, allowed: set<string>, depth: nat): Json
    decreases v
  {
    if v.IsPrimitive() then v
    else if depth >= MAX_REDACT_DEPTH then DescribeTruncated(v)
    else if v.Arr? then Arr(seq(|v.items|, i requires 0 <= i < |v.items| => Walk(v.items[i], allowed, depth + 1)))
    else Obj(seq(|v.entries|, i requires 0 <= i < |v.entries| => WalkEntry(v.entries[i], allowed, depth)))
  }

  function WalkEntry(e: Entry, allowed: set<string>, depth: nat): Entry
    decreases e
  {
    Entry(e.key, if e.key in allowed then Walk(e.value, allowed, depth + 1) else DescribeShape(e.key, e.value))
  }

  // ---------------------------------------------------------------- what a reader of the result finds

  /** One step into a value: an array's item, or an object's field. */
  datatype Hop = Item(index: nat) | Field(key: string)

  function Lookup(entries: seq<Entry>, key: string): Option<Json> {
    if entries == [] then None else if entries[0].key == key then Some(entries[0].value) else Lookup(entries[1..], key)
  }

  /** Where a path leads, if it leads anywhere. */
  function At(v: Json, path: seq<Hop>): Option<Json>
    decreases |path|
  {
    if path == [] then Some(v)
    else
      match path[0]
      case Item(i) => if v.Arr? && i < |v.items| then At(v.items[i], path[1..]) else None
      case Field(k) => if v.Obj? && Lookup(v.entries, k).Some? then At(Lookup(v.entries, k).value, path[1..]) else None
  }

  predicate Through(path: seq<Hop>, allowed: set<string>) {
    forall hop | hop in path :: hop.Field? ==> hop.key in allowed
  }

  /** `s` names the field it stands for and gives its size, if it has one, and nothing else. */
  predicate Withheld(key: string, x: Json, s: Json) {
    s.Obj? && |s.entries| > 0 && s.entries[0] == Entry("redacted", Str(key))
    && match x
       case Str(text) => s.entries[1..] == [Entry("chars", Num(|text| as real))]
       case Arr(items) => s.entries[1..] == [Entry("items", Num(|items| as real))]
       case Obj(entries) => s.entries[1..] == [Entry("keyCount", Num(|entries| as real))]
       case _ => s.entries[1..] == []
  }

  /** An object with its keys in order, and every field that is not allowed withheld. */
  predicate ShownObject(entries: seq<Entry>, shown: seq<Entry>, allowed: set<string>) {
    && |shown| == |entries|
    && forall i | 0 <= i < |entries| ::
         && shown[i].key == entries[i].key
         && (entries[i].key !in allowed ==> Withheld(entries[i].key, entries[i].value, shown[i].value))
  }

  /** What `x` has become: itself, a container of the same length, or at the cap a mark with its size. */
  predicate ShownAs(x: Json, s: Json, allowed: set<string>, capped: bool) {
    match x
    case Arr(items) =>
      if capped then s == Obj([Entry("truncated", Bool(true)), Entry("items", Num(|items| as real))])
      else s.Arr? && |s.items| == |items|
    case Obj(entries) =>
      if capped then s == Obj([Entry("truncated", Bool(true)), Entry("keyCount", Num(|entries| as real))])
      else s.Obj? && ShownObject(entries, s.entries, allowed)
    case _ => s == x
  }

  ghost predicate ShowsAt(v: Json, r: Json, allowed: set<string>, depth: nat, path: seq<Hop>) {
    At(v, path).Some? && Through(path, allowed) && (path == [] || depth + |path| <= MAX_REDACT_DEPTH) ==>
      At(r, path).Some? && ShownAs(At(v, path).value, At(r, path).value, allowed, depth + |path| >= MAX_REDACT_DEPTH)
  }

  /** Every path through items and allowed fields that ends no deeper than the cap. */
  ghost predicate Shows(v: Json, r: Json, allowed: set<string>, depth: nat) {
    forall path :: ShowsAt(v, r, allowed, depth, path)
  }

  lemma {:induction false} LookupAlong(a: seq<Entry>, b: seq<Entry>, key: string)
    requires |a| == |b| && forall i | 0 <= i < |a| :: a[i].key == b[i].key
    ensures Lookup(a, key).Some? ==> Lookup(b, key).Some?
    ensures Lookup(a, key).Some? ==>
      exists i :: 0 <= i < |a| && a[i] == Entry(key, Lookup(a, key).value) && b[i] == Entry(key, Lookup(b, key).value)
  {
    if a != [] && a[0].key != key && Lookup(a, key).Some? {
      LookupAlong(a[1..], b[1..], key);
      var i :| 0 <= i < |a| - 1 && a[1..][i] == Entry(key, Lookup(a, key).value) && b[1..][i] == Entry(key, Lookup(b, key).value);
      assert a[i + 1] == a[1..][i] && b[i + 1] == b[1..][i];
    }
  }

  lemma WithheldIs(key: string, x: Json)
    ensures Withheld(key, x, DescribeShape(key, x))
  {
    var s := DescribeShape(key, x);
    assert s.entries[0] == Entry("redacted", Str(key));
  }

  /** The root of a walked value. */
  lemma ShownRoot(v: Json, allowed: set<string>, depth: nat)
    ensures ShownAs(v, Walk(v, allowed, depth), allowed, depth >= MAX_REDACT_DEPTH)
  {
    if v.Obj? {
      forall i | 0 <= i < |v.entries| { WithheldIs(v.entries[i].key, v.entries[i].value); }
    }
  }

  lemma FieldWalks(v: Json, allowed: set<string>, depth: nat, key: string)
    requires v.Obj? && depth < MAX_REDACT_DEPTH && Lookup(v.entries, key).Some?
    ensures var w := Walk(v, allowed, depth);
      && w.Obj? && Lookup(w.entries, key).Some?
      && (key in allowed ==> Lookup(w.entries, key).value == Walk(Lookup(v.entries, key).value, allowed, depth + 1))
      && (key !in allowed ==> Withheld(key, Lookup(v.entries, key).value, Lookup(w.entries, key).value))
  {
    var w := Walk(v, allowed, depth);
    assert forall i | 0 <= i < |v.entries| :: w.entries[i] == WalkEntry(v.entries[i], allowed, depth);
    LookupAlong(v.entries, w.entries, key);
    var i :| 0 <= i < |v.entries| && v.entries[i] == Entry(key, Lookup(v.entries, key).value)
             && w.entries[i] == Entry(key, Lookup(w.entries, key).value);
    WithheldIs(key, v.entries[i].value);
  }

  lemma {:induction false} WalkShowsAt(v: Json, allowed: set<string>, depth: nat, path: seq<Hop>)
    ensures ShowsAt(v, Walk(v, allowed, depth), allowed, depth, path)
    decreases |path|
  {
    if path == [] {
      ShownRoot(v, allowed, depth);
    } else if At(v, path).Some? && Through(path, allowed) && depth + |path| <= MAX_REDACT_DEPTH {
      assert path[0] in path && forall hop | hop in path[1..] :: hop in path;
      match path[0] {
        case Item(i) => WalkShowsAt(v.items[i], allowed, depth + 1, path[1..]);
        case Field(k) =>
          FieldWalks(v, allowed, depth, k);
          WalkShowsAt(Lookup(v.entries, k).value, allowed, depth + 1, path[1..]);
      }
    }
  }

  /**
   * What is let through arrives as it was: along every path of items and allowed fields above
   * the cap, primitives are equal, arrays keep their length and objects their keys in order.
   */
  lemma WalkKeepsAllowed(v: Json, allowed: set<string>, depth: nat)
    ensures Shows(v, Walk(v, allowed, depth), allowed, depth)
  {
    forall path ensures ShowsAt(v, Walk(v, allowed, depth), allowed, depth, path) {
      WalkShowsAt(v, allowed, depth, path);
    }
  }

  method WalkValue(v: Json, allowed: set<string>, depth: nat) returns (r: Json)
    ensures r == Walk(v, allowed, depth)
    ensures Shows(v, r, allowed, depth)
    decreases v
  {
    WalkKeepsAllowed(v, allowed, depth);
    if v.IsPrimitive() {
      return v;
    }
    if depth >= MAX_REDACT_DEPTH {
      return DescribeTruncated(v);
    }
    if v.Arr? {
      var items: seq<Json> := [];
      while |items| < |v.items|
        invariant |items| <= |v.items|
        invariant forall i | 0 <= i < |items| :: items[i] == Walk(v.items[i], allowed, depth + 1)
      {
        var item := WalkValue(v.items[|items|], allowed, depth + 1);
        items := items + [item];
      }
      return Arr(items);
    }
    var result: seq<Entry> := [];
    while |result| < |v.entries|
      invariant |result| <= |v.entries|
      invariant forall i | 0 <= i < |result| :: result[i] == WalkEntry(v.entries[i], allowed, depth)
    {
      var Entry(key, item) := v.entries[|result|];
      var kept: Json;
      if key in allowed {
        kept := WalkValue(item, allowed, depth + 1);
      } else {
        kept := DescribeShape(key, item);
      }
      result := result + [Entry(key, kept)];
    }
    r := Obj(result);
  }

  // ---------------------------------------------------------------- what the walk lets through

  /** Same type where only the type shows, and the same size where the size shows too. */
  predicate SameShape(v: Json, w: Json) {
    match (v, w)
    case (Arr(a), Arr(b)) => |a| == |b|
    case (Str(a), Str(b)) => |a| == |b|
    case (Obj(a), Obj(b)) => |a| == |b|
    case _ => !v.Arr? && !v.Str? && !v.Obj? && !w.Arr? && !w.Str? && !w.Obj?
  }

  /** Equal on everything reached through allowed keys above the cap, and of one shape elsewhere. */
  predicate Agree(v: Json, w: Json, allowed: set<string>, depth: nat)
    decreases v
  {
    if v.IsPrimitive() || w.IsPrimitive() then v == w
    else if v.Arr? != w.Arr? then false
    else if depth >= MAX_REDACT_DEPTH then SameShape(v, w)
    else if v.Arr? then |v.items| == |w.items| && forall i | 0 <= i < |v.items| :: Agree(v.items[i], w.items[i], allowed, depth + 1)
    else |v.entries| == |w.entries| && forall i | 0 <= i < |v.entries| :: AgreeEntry(v.entries[i], w.entries[i], allowed, depth)
  }

  predicate AgreeEntry(e: Entry, f: Entry, allowed: set<string>, depth: nat)
    decreases e
  {
    e.key == f.key && if e.key in allowed then Agree(e.value, f.value, allowed, depth + 1) else SameShape(e.value, f.value)
  }

  lemma ShapeShows(key: string, v: Json, w: Json)
    ensures DescribeShape(key, v) == DescribeShape(key, w) <==> SameShape(v, w)
  {
    var x, y := DescribeShape(key, v), DescribeShape(key, w);
    assert |x.entries| == |y.entries| == 2 ==> (x == y <==> x.entries[1] == y.entries[1]);
    assert "items" != "chars" && "items"[0] != "keyCount"[0] && "chars"[0] != "keyCount"[0];
  }

  /** Exactly what survives redaction: two values walk to the same result if and only if they agree. */
  lemma {:induction false} WalkShows(v: Json, w: Json, allowed: set<string>, depth: nat)
    ensures Walk(v, allowed, depth) == Walk(w, allowed, depth) <==> Agree(v, w, allowed, depth)
    decreases v
  {
    var x, y := Walk(v, allowed, depth), Walk(w, allowed, depth);
    if v.IsPrimitive() || w.IsPrimitive() {
    } else if depth >= MAX_REDACT_DEPTH {
      TruncatedShows(v, w);
    } else if v.Arr? && w.Arr? {
      forall i | 0 <= i < |v.items| && i < |w.items| ensures x.items[i] == y.items[i] <==> Agree(v.items[i], w.items[i], allowed, depth + 1) {
        WalkShows(v.items[i], w.items[i], allowed, depth + 1);
      }
    } else if v.Obj? && w.Obj? {
      forall i | 0 <= i < |v.entries| && i < |w.entries| ensures x.entries[i] == y.entries[i] <==> AgreeEntry(v.entries[i], w.entries[i], allowed, depth) {
        EntryShows(v.entries[i], w.entries[i], allowed, depth);
      }
    }
  }

  lemma TruncatedShows(v: Json, w: Json)
    requires !v.IsPrimitive() && !w.IsPrimitive()
    ensures DescribeTruncated(v) == DescribeTruncated(w) <==> v.Arr? == w.Arr? && SameShape(v, w)
  {
    var x, y := DescribeTruncated(v), DescribeTruncated(w);
    assert x == y <==> x.entries[1] == y.entries[1];
    assert "items"[0] != "keyCount"[0];
  }

  lemma {:induction false} EntryShows(e: Entry, f: Entry, allowed: set<string>, depth: nat)
    ensures WalkEntry(e, allowed, depth) == WalkEntry(f, allowed, depth) <==> AgreeEntry(e, f, allowed, depth)
    decreases e
  {
    if e.key == f.key {
      if e.key in allowed {
        WalkShows(e.value, f.value, allowed, depth + 1);
      } else {
        ShapeShows(e.key, e.value, f.value);
      }
    }
  }

  // ---------------------------------------------------------------- a tool's own failure

  datatype Category = Timeout | ConnectionReset | Validation | RateLimit | Authentication | ApplicationError | Unknown

  function CategoryName(c: Category): string {
    match c
    case Timeout => "timeout"
    case ConnectionReset => "connection_reset"
    case Validation => "validation"
    case RateLimit => "rate_limit"
    case Authentication => "authentication"
    case ApplicationError => "application_error"
    case Unknown => "unknown"
  }

  /** classifyEvalError: any function of the tool's own value into the closed vocabulary. */
  type Classifier = Json -> Category

  /** The output says it failed, or gave up with a message. */
  ghost predicate EvalOutputErrored(output: Json) {
    output.Obj? && (Entry("isError", Bool(true)) in output.entries || exists s :: Entry("error", Str(s)) in output.entries)
  }

  /** The same question of an output whose message is gone. */
  ghost predicate RedactedEvalOutputErrored(output: Json) {
    output.Obj? && (Entry("isError", Bool(true)) in output.entries || exists c :: Entry(CATEGORY, Str(CategoryName(c))) in output.entries)
  }

  function WithoutCategory(entries: seq<Entry>): seq<Entry> {
    if entries == [] then []
    else if entries[0].key == CATEGORY then WithoutCategory(entries[1..])
    else [entries[0]] + WithoutCategory(entries[1..])
  }

  predicate IsMessage(e: Entry) { e.key == "error" && e.value.Str? }

  /** A message under `error` gives way to its shape. */
  function Muted(e: Entry): Entry {
    if IsMessage(e) then Entry("error", DescribeShape("error", e.value)) else e
  }

  function MutedAll(entries: seq<Entry>): seq<Entry> { seq(|entries|, i requires 0 <= i < |entries| => Muted(entries[i])) }

  ghost function AnnotateEvalErrorCategory(original: Json, redacted: Json, classify: Classifier): Json {
    if !EvalOutputErrored(original) || !redacted.Obj? then redacted
    else Obj([Entry(CATEGORY, Str(CategoryName(classify(original))))] + WithoutCategory(MutedAll(redacted.entries)))
  }

  /** Redaction under any allow-list. */
  ghost function Redact(v: Json, allowed: set<string>, depth: nat, classify: Classifier): Json {
    if depth == 0 then AnnotateEvalErrorCategory(v, Walk(v, allowed, depth), classify) else Walk(v, allowed, depth)
  }

  ghost function RedactEvalToolValue(v: Json, toolName: Option<string>, depth: nat, classify: Classifier): Json {
    Redact(v, AllowedEvalKeys(toolName), depth, classify)
  }

  lemma WalkedError(e: Entry, allowed: set<string>)
    requires FitsErrors(allowed)
    ensures WalkEntry(e, allowed, 0) == Entry("isError", Bool(true)) <==> e == Entry("isError", Bool(true))
    ensures var w := WalkEntry(e, allowed, 0); !(w.key == CATEGORY && w.value.Str?)
  {
  }

  /** Whether a tool call failed reads the same before and after redaction, for every value. */
  lemma ErroredSurvivesRedaction(v: Json, allowed: set<string>, classify: Classifier)
    requires FitsErrors(allowed)
    ensures RedactedEvalOutputErrored(Redact(v, allowed, 0, classify)) <==> EvalOutputErrored(v)
  {
    if v.Obj? {
      var walked := Walk(v, allowed, 0).entries;
      forall i | 0 <= i < |v.entries|
        ensures walked[i] == Entry("isError", Bool(true)) <==> v.entries[i] == Entry("isError", Bool(true))
        ensures !(walked[i].key == CATEGORY && walked[i].value.Str?)
      {
        WalkedError(v.entries[i], allowed);
      }
      if EvalOutputErrored(v) {
        var mark := Entry(CATEGORY, Str(CategoryName(classify(v))));
        assert ([mark] + WithoutCategory(MutedAll(walked)))[0] == mark;
      }
    }
  }

  lemma {:induction false} WithoutCategoryKeeps(entries: seq<Entry>)
    ensures forall e :: e in WithoutCategory(entries) <==> e in entries && e.key != CATEGORY
  {
    if entries != [] {
      WithoutCategoryKeeps(entries[1..]);
    }
  }

  lemma MessageIsError(v: Json, i: nat)
    requires v.Obj? && i < |v.entries|
    ensures IsMessage(v.entries[i]) ==> EvalOutputErrored(v)
  {
    if IsMessage(v.entries[i]) {
      assert v.entries[i] == Entry("error", Str(v.entries[i].value.text));
    }
  }

  lemma MutedSaysNothing(entries: seq<Entry>, s: string)
    ensures Entry("error", Str(s)) !in WithoutCategory(MutedAll(entries))
  {
    WithoutCategoryKeeps(MutedAll(entries));
    forall i | 0 <= i < |entries| ensures MutedAll(entries)[i] != Entry("error", Str(s)) {
    }
  }

  lemma NoErrorSentenceIn(v: Json, allowed: set<string>, s: string)
    requires v.Obj? && !EvalOutputErrored(v)
    ensures Entry("error", Str(s)) !in Walk(v, allowed, 0).entries
  {
    forall i | 0 <= i < |v.entries| ensures WalkEntry(v.entries[i], allowed, 0) != Entry("error", Str(s)) {
      MessageIsError(v, i);
    }
  }

  /** The sentence a tool gave up with never travels: no top-level `error` stays a string. */
  lemma NoErrorSentence(v: Json, allowed: set<string>, classify: Classifier, s: string)
    ensures var r := Redact(v, allowed, 0, classify); r.Obj? ==> Entry("error", Str(s)) !in r.entries
  {
    if v.Obj? {
      if !EvalOutputErrored(v) {
        NoErrorSentenceIn(v, allowed, s);
      }
      MutedSaysNothing(Walk(v, allowed, 0).entries, s);
      assert |CATEGORY| != |"error"|;
    }
  }

  // ---------------------------------------------------------------- noninterference

  /** Two messages of one length count as agreeing where the top level mutes them. */
  predicate AgreeMuted(e: Entry, f: Entry, allowed: set<string>) {
    AgreeEntry(e, f, allowed, 0)
    || (IsMessage(e) && IsMessage(f) && |e.value.text| == |f.value.text|)
  }

  /** Two tool values a judge cannot tell apart, but for the label derived from their failure. */
  predicate Indistinguishable(v: Json, w: Json, allowed: set<string>) {
    if v.Obj? && w.Obj? then
      |v.entries| == |w.entries| && forall i | 0 <= i < |v.entries| :: AgreeMuted(v.entries[i], w.entries[i], allowed)
    else Agree(v, w, allowed, 0)
  }

  lemma MutedAgree(e: Entry, f: Entry, allowed: set<string>)
    requires FitsErrors(allowed) && AgreeMuted(e, f, allowed)
    ensures Muted(WalkEntry(e, allowed, 0)) == Muted(WalkEntry(f, allowed, 0))
    ensures e == Entry("isError", Bool(true)) <==> f == Entry("isError", Bool(true))
    ensures IsMessage(e) <==> IsMessage(f)
    ensures !IsMessage(e) ==> WalkEntry(e, allowed, 0) == WalkEntry(f, allowed, 0)
  {
    if AgreeEntry(e, f, allowed, 0) {
      EntryShows(e, f, allowed, 0);
    }
  }

  /**
   * What the allow-list withholds cannot be read off the result: values that agree on what it
   * lets through redact alike, except that a failure carries one of the seven category names.
   */
  lemma Noninterference(v: Json, w: Json, allowed: set<string>, classify: Classifier)
    requires FitsErrors(allowed) && Indistinguishable(v, w, allowed)
    ensures var x, y := Redact(v, allowed, 0, classify), Redact(w, allowed, 0, classify);
      if EvalOutputErrored(v) then
        && x.Obj? && y.Obj? && |x.entries| == |y.entries| > 0 && x.entries[1..] == y.entries[1..]
        && x.entries[0] == Entry(CATEGORY, Str(CategoryName(classify(v))))
        && y.entries[0] == Entry(CATEGORY, Str(CategoryName(classify(w))))
      else x == y
  {
    if v.Obj? && w.Obj? {
      var x, y := Walk(v, allowed, 0).entries, Walk(w, allowed, 0).entries;
      forall i | 0 <= i < |v.entries| ensures Muted(x[i]) == Muted(y[i]) {
        MutedAgree(v.entries[i], w.entries[i], allowed);
      }
      assert MutedAll(x) == MutedAll(y);
      ErroredAgree(v, w, allowed);
      if !EvalOutputErrored(v) {
        forall i | 0 <= i < |v.entries| ensures x[i] == y[i] {
          MutedAgree(v.entries[i], w.entries[i], allowed);
          MessageIsError(v, i);
        }
      }
    } else {
      WalkShows(v, w, allowed, 0);
    }
  }

  lemma ErroredAgree(v: Json, w: Json, allowed: set<string>)
    requires FitsErrors(allowed) && v.Obj? && w.Obj? && Indistinguishable(v, w, allowed)
    ensures EvalOutputErrored(v) <==> EvalOutputErrored(w)
  {
    forall i | 0 <= i < |v.entries|
      ensures v.entries[i] == Entry("isError", Bool(true)) <==> w.entries[i] == Entry("isError", Bool(true))
      ensures IsMessage(v.entries[i]) <==> IsMessage(w.entries[i])
    {
      MutedAgree(v.entries[i], w.entries[i], allowed);
    }
    forall s | Entry("error", Str(s)) in v.entries ensures EvalOutputErrored(w) {
      var i :| 0 <= i < |v.entries| && v.entries[i] == Entry("error", Str(s));
      assert IsMessage(v.entries[i]);
      MessageIsError(w, i);
    }
    forall s | Entry("error", Str(s)) in w.entries ensures EvalOutputErrored(v) {
      var i :| 0 <= i < |w.entries| && w.entries[i] == Entry("error", Str(s));
      assert IsMessage(w.entries[i]);
      MessageIsError(v, i);
    }
  }

  /** Both results for redactEvalToolValue itself: any tool's allow-list is of the required kind. */
  lemma ToolNoninterference(v: Json, w: Json, toolName: Option<string>, classify: Classifier)
    requires Indistinguishable(v, w, AllowedEvalKeys(toolName))
    ensures var x, y := RedactEvalToolValue(v, toolName, 0, classify), RedactEvalToolValue(w, toolName, 0, classify);
      if EvalOutputErrored(v) then
        && x.Obj? && y.Obj? && |x.entries| == |y.entries| > 0 && x.entries[1..] == y.entries[1..]
        && x.entries[0] == Entry(CATEGORY, Str(CategoryName(classify(v))))
        && y.entries[0] == Entry(CATEGORY, Str(CategoryName(classify(w))))
      else x == y
  {
    Allowed(toolName);
    Noninterference(v, w, AllowedEvalKeys(toolName), classify);
  }

  lemma ToolErroredSurvives(v: Json, toolName: Option<string>, classify: Classifier)
    ensures RedactedEvalOutputErrored(RedactEvalToolValue(v, toolName, 0, classify)) <==> EvalOutputErrored(v)
  {
    Allowed(toolName);
    ErroredSurvivesRedaction(v, AllowedEvalKeys(toolName), classify);
  }

  // ---------------------------------------------------------------- a whole tool value

  lemma {:induction false} LookupWithoutCategory(entries: seq<Entry>, key: string)
    requires key != CATEGORY
    ensures Lookup(WithoutCategory(entries), key) == Lookup(entries, key)
  {
    if entries != [] {
      LookupWithoutCategory(entries[1..], key);
      if entries[0].key != CATEGORY {
        assert WithoutCategory(entries)[1..] == WithoutCategory(entries[1..]);
      }
    }
  }

  lemma {:induction false} LookupMuted(entries: seq<Entry>, key: string)
    ensures Lookup(MutedAll(entries), key).Some? <==> Lookup(entries, key).Some?
    ensures Lookup(entries, key).Some? ==>
      Lookup(MutedAll(entries), key).value == Muted(Entry(key, Lookup(entries, key).value)).value
  {
    if entries != [] {
      assert MutedAll(entries)[1..] == MutedAll(entries[1..]);
      LookupMuted(entries[1..], key);
    }
  }

  /** What annotating does to each field of a walked object. */
  lemma AnnotatedField(v: Json, walked: seq<Entry>, classify: Classifier, key: string)
    requires EvalOutputErrored(v)
    ensures var r := AnnotateEvalErrorCategory(v, Obj(walked), classify);
      && r.Obj? && r.entries != [] && r.entries[0] == Entry(CATEGORY, Str(CategoryName(classify(v))))
      && Lookup(r.entries, CATEGORY) == Some(Str(CategoryName(classify(v))))
      && (key != CATEGORY ==>
            && (Lookup(r.entries, key).Some? <==> Lookup(walked, key).Some?)
            && (Lookup(walked, key).Some? ==>
                  Lookup(r.entries, key).value == Muted(Entry(key, Lookup(walked, key).value)).value))
  {
    var rest := WithoutCategory(MutedAll(walked));
    var all := [Entry(CATEGORY, Str(CategoryName(classify(v))))] + rest;
    assert all[1..] == rest;
    if key != CATEGORY {
      LookupWithoutCategory(MutedAll(walked), key);
      LookupMuted(walked, key);
    }
  }

  lemma MessageFound(v: Json)
    requires v.Obj?
    ensures Lookup(v.entries, "error").Some? && Lookup(v.entries, "error").value.Str? ==> EvalOutputErrored(v)
  {
    LookupAlong(v.entries, v.entries, "error");
    if Lookup(v.entries, "error").Some? && Lookup(v.entries, "error").value.Str? {
      assert Entry("error", Str(Lookup(v.entries, "error").value.text)) in v.entries;
    }
  }

  /**
   * One top-level field of a tool's object in the redacted object. An allowed one is walked,
   * a failure's message and every other field are withheld.
   */
  lemma TopField(v: Json, allowed: set<string>, classify: Classifier, key: string)
    requires FitsErrors(allowed)
    requires v.Obj? && Lookup(v.entries, key).Some? && !(EvalOutputErrored(v) && key == CATEGORY)
    ensures var r := Redact(v, allowed, 0, classify);
      var x := Lookup(v.entries, key).value;
      && r.Obj? && Lookup(r.entries, key).Some?
      && var s := Lookup(r.entries, key).value;
         if key !in allowed || (key == "error" && x.Str?) then Withheld(key, x, s) else s == Walk(x, allowed, 1)
  {
    var x := Lookup(v.entries, key).value;
    FieldWalks(v, allowed, 0, key);
    MessageFound(v);
    if EvalOutputErrored(v) {
      AnnotatedField(v, Walk(v, allowed, 0).entries, classify, key);
      WithheldIs(key, x);
    }
  }

  /**
   * What the judge reads of a tool's value: along every path of items and of allowed fields, at
   * most 8 deep, primitives arrive as they were, arrays with their length and objects with their
   * keys. Of these only the message a tool gave up with is withheld.
   */
  lemma ValueArrives(v: Json, allowed: set<string>, classify: Classifier, path: seq<Hop>)
    requires FitsErrors(allowed)
    requires |path| <= 8 && (path == [] ==> !v.Obj?) && At(v, path).Some? && Through(path, allowed)
    ensures var r, x := Redact(v, allowed, 0, classify), At(v, path).value;
      && At(r, path).Some?
      && if path == [Field("error")] && x.Str? then Withheld("error", x, At(r, path).value)
         else ShownAs(x, At(r, path).value, allowed, |path| == 8)
  {
    if path == [] || path[0].Item? {
      WalkShowsAt(v, allowed, 0, path);
    } else {
      var k := path[0].key;
      assert path[0] in path && forall hop | hop in path[1..] :: hop in path;
      var x := Lookup(v.entries, k).value;
      TopField(v, allowed, classify, k);
      WalkShowsAt(x, allowed, 1, path[1..]);
      if k == "error" && x.Str? { assert path[1..] == []; }
    }
  }

  /** The same for redactEvalToolValue of every tool. */
  lemma ToolValueArrives(v: Json, toolName: Option<string>, classify: Classifier, path: seq<Hop>)
    requires |path| <= 8 && (path == [] ==> !v.Obj?) && At(v, path).Some? && Through(path, AllowedEvalKeys(toolName))
    ensures var r, x := RedactEvalToolValue(v, toolName, 0, classify), At(v, path).value;
      && At(r, path).Some?
      && if path == [Field("error")] && x.Str? then Withheld("error", x, At(r, path).value)
         else ShownAs(x, At(r, path).value, AllowedEvalKeys(toolName), |path| == 8)
  {
    Allowed(toolName);
    ValueArrives(v, AllowedEvalKeys(toolName), classify, path);
  }

  /** A failure carries its category in front, whatever the tool itself put under that name. */
  lemma CategoryComesFirst(v: Json, toolName: Option<string>, classify: Classifier)
    requires EvalOutputErrored(v)
    ensures var r := RedactEvalToolValue(v, toolName, 0, classify);
      && r.Obj? && r.entries != [] && r.entries[0] == Entry("errorCategory", Str(CategoryName(classify(v))))
      && forall i | 1 <= i < |r.entries| :: r.entries[i].key != "errorCategory"
  {
    var walked := Walk(v, AllowedEvalKeys(toolName), 0).entries;
    AnnotatedField(v, walked, classify, "error");
    WithoutCategoryKeeps(MutedAll(walked));
    var rest := WithoutCategory(MutedAll(walked));
    assert forall i | 0 <= i < |rest| :: rest[i] in rest;
  }
}
