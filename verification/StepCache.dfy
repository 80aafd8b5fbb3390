/**
 * The rolling cache breakpoint of internal-packages/dashboard-agent/src/step-cache.ts.
 */
module StepCache {
  import opened Wrappers

  /** A property by its key and the JSON of its value, both as they are escaped. */
  datatype Member = Member(key: string, json: string)

  /** A `cacheControl` value: its `ttl` when that is a string, and its JSON. */
  datatype Control = Control(ttl: Option<string>, json: string)

  /** The `anthropic` provider options: an object, or the JSON of a value that is none. */
  datatype Anthropic = Options(fields: seq<Member>, cacheControl: Option<Control>) | NotAnObject(json: string)

  datatype ProviderOptions = ProviderOptions(anthropic: Option<Anthropic>, rest: seq<Member>)

  /** A model message: role, content and the like, and its provider options. */
  datatype Message = Message(members: seq<Member>, options: Option<ProviderOptions>)

  const STEP_TTL := "5m"
  const STEP_CACHE_CONTROL := Control(Some(STEP_TTL), "{\"type\":\"ephemeral\"," + "\"ttl\":\"5m\"}")
  const MIN_STEP_CACHE_CHARS := 4096

  function CacheControl(m: Message): Option<Control> {
    if m.options.Some? && m.options.value.anthropic.Some? && m.options.value.anthropic.value.Options?
    then m.options.value.anthropic.value.cacheControl else None
  }

  function CacheControlTtl(m: Message): Option<string> {
    if CacheControl(m).Some? then CacheControl(m).value.ttl else None
  }

  predicate StepMarked(m: Message) { CacheControlTtl(m) == Some(STEP_TTL) }

  predicate LongLived(m: Message) { CacheControlTtl(m).Some? && CacheControlTtl(m) != Some(STEP_TTL) }

  function AnthropicFields(m: Message): seq<Member> {
    if m.options.Some? && m.options.value.anthropic.Some? && m.options.value.anthropic.value.Options?
    then m.options.value.anthropic.value.fields else []
  }

  function OtherOptions(m: Message): seq<Member> { if m.options.Some? then m.options.value.rest else [] }

  /** An `anthropic` left without fields is dropped; the options object stays, even empty. */
  function WithoutStepBreakpoint(m: Message): Message {
    if !StepMarked(m) then m
    else
      var fields := AnthropicFields(m);
      m.(options := Some(ProviderOptions(if fields == [] then None else Some(Options(fields, None)), OtherOptions(m))))
  }

  function Marked(m: Message): Message {
    m.(options := Some(ProviderOptions(Some(Options(AnthropicFields(m), Some(STEP_CACHE_CONTROL))), OtherOptions(m))))
  }

  function Stripped(messages: seq<Message>): seq<Message> {
    seq(|messages|, i requires 0 <= i < |messages| => WithoutStepBreakpoint(messages[i]))
  }

  // ---------------------------------------------------------------- the length of JSON

  function Sum(lengths: seq<nat>): nat {
    if lengths == [] then 0 else Sum(lengths[..|lengths| - 1]) + lengths[|lengths| - 1]
  }

  /** An object or array around parts of these lengths: two brackets, and commas between. */
  function Enclosed(lengths: seq<nat>): nat { 2 + Sum(lengths) + if lengths == [] then 0 else |lengths| - 1 }

  /** `"key":value`. */
  function MemberLength(key: string, value: nat): nat { |key| + 3 + value }

  function MemberLengths(members: seq<Member>): seq<nat> {
    seq(|members|, i requires 0 <= i < |members| => MemberLength(members[i].key, |members[i].json|))
  }

  function AnthropicLength(a: Anthropic): nat {
    match a
    case NotAnObject(json) => |json|
    case Options(fields, control) =>
      Enclosed(MemberLengths(fields) + if control.Some? then [MemberLength("cacheControl", |control.value.json|)] else [])
  }

  function OptionsLength(o: ProviderOptions): nat {
    Enclosed(MemberLengths(o.rest) + if o.anthropic.Some? then [MemberLength("anthropic", AnthropicLength(o.anthropic.value))] else [])
  }

  function MessageLength(m: Message): nat {
    Enclosed(MemberLengths(m.members) + if m.options.Some? then [MemberLength("providerOptions", OptionsLength(m.options.value))] else [])
  }

  /** The length of JSON.stringify of the messages. */
  function JsonLength(messages: seq<Message>): nat {
    Enclosed(seq(|messages|, i requires 0 <= i < |messages| => MessageLength(messages[i])))
  }

  // ---------------------------------------------------------------- the JSON itself

  function Commas(parts: seq<string>): string {
    if parts == [] then ""
    else Commas(parts[..|parts| - 1]) + (if |parts| == 1 then "" else ",") + parts[|parts| - 1]
  }

  function Lengths(parts: seq<string>): seq<nat> { seq(|parts|, i requires 0 <= i < |parts| => |parts[i]|) }

  function MemberText(key: string, json: string): string { "\"" + key + "\":" + json }

  function MemberTexts(members: seq<Member>): seq<string> {
    seq(|members|, i requires 0 <= i < |members| => MemberText(members[i].key, members[i].json))
  }

  function AnthropicText(a: Anthropic): string {
    match a
    case NotAnObject(json) => json
    case Options(fields, control) =>
      "{" + Commas(MemberTexts(fields) + if control.Some? then [MemberText("cacheControl", control.value.json)] else []) + "}"
  }

  function OptionsText(o: ProviderOptions): string {
    "{" + Commas(MemberTexts(o.rest) + if o.anthropic.Some? then [MemberText("anthropic", AnthropicText(o.anthropic.value))] else []) + "}"
  }

  function MessageText(m: Message): string {
    "{" + Commas(MemberTexts(m.members) + if m.options.Some? then [MemberText("providerOptions", OptionsText(m.options.value))] else []) + "}"
  }

  /** JSON.stringify of the messages. */
  function JsonText(messages: seq<Message>): string {
    "[" + Commas(seq(|messages|, i requires 0 <= i < |messages| => MessageText(messages[i]))) + "]"
  }

  lemma {:induction false} CommasLength(parts: seq<string>)
    ensures |Commas(parts)| + 2 == Enclosed(Lengths(parts))
  {
    if parts != [] {
      var init := parts[..|parts| - 1];
      CommasLength(init);
      assert Lengths(parts)[..|parts| - 1] == Lengths(init);
    }
  }

  /** Members and at most one more, in brackets. */
  lemma ObjectLength(members: seq<Member>, last: seq<string>)
    ensures |Commas(MemberTexts(members) + last)| + 2 == Enclosed(MemberLengths(members) + Lengths(last))
  {
    CommasLength(MemberTexts(members) + last);
    assert Lengths(MemberTexts(members) + last) == MemberLengths(members) + Lengths(last);
  }

  lemma AnthropicTextLength(a: Anthropic)
    ensures |AnthropicText(a)| == AnthropicLength(a)
  {
    if a.Options? {
      var last := if a.cacheControl.Some? then [MemberText("cacheControl", a.cacheControl.value.json)] else [];
      ObjectLength(a.fields, last);
      assert Lengths(last) == if a.cacheControl.Some? then [MemberLength("cacheControl", |a.cacheControl.value.json|)] else [];
    }
  }

  lemma OptionsTextLength(o: ProviderOptions)
    ensures |OptionsText(o)| == OptionsLength(o)
  {
    var last := if o.anthropic.Some? then [MemberText("anthropic", AnthropicText(o.anthropic.value))] else [];
    ObjectLength(o.rest, last);
    if o.anthropic.Some? { AnthropicTextLength(o.anthropic.value); }
    assert Lengths(last) == if o.anthropic.Some? then [MemberLength("anthropic", AnthropicLength(o.anthropic.value))] else [];
  }

  lemma MessageTextLength(m: Message)
    ensures |MessageText(m)| == MessageLength(m)
  {
    var last := if m.options.Some? then [MemberText("providerOptions", OptionsText(m.options.value))] else [];
    ObjectLength(m.members, last);
    if m.options.Some? { OptionsTextLength(m.options.value); }
    assert Lengths(last) == if m.options.Some? then [MemberLength("providerOptions", OptionsLength(m.options.value))] else [];
  }

  /** The size a step is judged by is the length of the text itself. */
  lemma JsonLengthIs(messages: seq<Message>)
    ensures |JsonText(messages)| == JsonLength(messages)
  {
    var parts := seq(|messages|, i requires 0 <= i < |messages| => MessageText(messages[i]));
    var lengths := seq(|messages|, i requires 0 <= i < |messages| => MessageLength(messages[i]));
    CommasLength(parts);
    forall i | 0 <= i < |messages| { MessageTextLength(messages[i]); }
    assert Lengths(parts) == lengths;
  }

  // ---------------------------------------------------------------- marking

  /** What follows the last long-lived mark. */
  function Tail(messages: seq<Message>): seq<Message> {
    if messages == [] || LongLived(messages[|messages| - 1]) then []
    else Tail(messages[..|messages| - 1]) + [messages[|messages| - 1]]
  }

  /** Too short a tail is not worth a mark. */
  predicate Worth(messages: seq<Message>) { JsonLength(Tail(messages)) >= MIN_STEP_CACHE_CHARS }

  function MarkStep(messages: seq<Message>): seq<Message> {
    if messages == [] then []
    else
      var stripped := Stripped(messages);
      if !Worth(messages) then stripped
      else stripped[..|stripped| - 1] + [Marked(stripped[|stripped| - 1])]
  }

  /** The tail starts right after the last message whose mark has another ttl, or with the first message. */
  lemma {:induction false} TailIs(messages: seq<Message>) returns (start: nat)
    ensures start <= |messages| && Tail(messages) == messages[start..]
    ensures forall i | start <= i < |messages| :: CacheControlTtl(messages[i]) == None || CacheControlTtl(messages[i]) == Some("5m")
    ensures start > 0 ==> CacheControlTtl(messages[start - 1]).Some? && CacheControlTtl(messages[start - 1]) != Some("5m")
  {
    if messages == [] || LongLived(messages[|messages| - 1]) {
      start := |messages|;
    } else {
      var init := messages[..|messages| - 1];
      start := TailIs(init);
      assert messages == init + [messages[|messages| - 1]];
      assert forall i | 0 <= i < |init| :: messages[i] == init[i];
    }
  }

  lemma TailOneMore(front: seq<Message>, last: Message)
    ensures Tail(front + [last]) == if LongLived(last) then [] else Tail(front) + [last]
  {
    assert (front + [last])[..|front|] == front;
  }

  /** `last` is where the last long-lived mark among the first `n` messages stands, or -1. */
  ghost predicate LastLongLived(messages: seq<Message>, n: nat, last: int)
    requires n <= |messages|
  {
    -1 <= last < n && Tail(messages[..n]) == messages[last + 1..n]
  }

  lemma NextLongLived(messages: seq<Message>, n: nat, last: int)
    requires n < |messages| && LastLongLived(messages, n, last)
    ensures LastLongLived(messages, n + 1, if LongLived(messages[n]) then n else last)
  {
    assert messages[..n + 1] == messages[..n] + [messages[n]];
    TailOneMore(messages[..n], messages[n]);
    assert messages[n + 1..n + 1] == [];
    assert messages[last + 1..n] + [messages[n]] == messages[last + 1..n + 1];
  }

  lemma AfterLongLived(messages: seq<Message>, last: int)
    requires LastLongLived(messages, |messages|, last)
    ensures Tail(messages) == messages[last + 1..]
  {
    assert messages[..|messages|] == messages;
  }

  method MarkStepCacheBreakpoint(messages: seq<Message>) returns (r: seq<Message>)
    ensures r == MarkStep(messages)
  {
    if messages == [] {
      return messages;
    }
    var lastLongLived := -1;
    assert LastLongLived(messages, 0, lastLongLived);
    for index := 0 to |messages|
      invariant LastLongLived(messages, index, lastLongLived)
    {
      NextLongLived(messages, index, lastLongLived);
      var ttl := CacheControlTtl(messages[index]);
      if ttl.Some? && ttl.value != STEP_TTL {
        lastLongLived := index;
      }
    }
    AfterLongLived(messages, lastLongLived);
    var tail := messages[lastLongLived + 1..];
    var stripped := Stripped(messages);
    if JsonLength(tail) < MIN_STEP_CACHE_CHARS {
      return stripped;
    }
    r := stripped[..|stripped| - 1] + [Marked(stripped[|stripped| - 1])];
  }

  // ---------------------------------------------------------------- what it leaves

  /** A message without its step mark and without the difference between absent and empty options. */
  datatype Core = Core(members: seq<Member>, options: seq<Member>, fields: seq<Member>, foreign: Option<Anthropic>, control: Option<Control>)

  function CoreOf(m: Message): Core {
    Core(
      m.members,
      OtherOptions(m),
      AnthropicFields(m),
      if m.options.Some? && m.options.value.anthropic.Some? && m.options.value.anthropic.value.NotAnObject? then m.options.value.anthropic else None,
      if StepMarked(m) then None else CacheControl(m)
    )
  }

  /** Anthropic options are an object and its cacheControl, if any, has a string ttl. */
  predicate Tidy(m: Message) {
    && (CacheControl(m).Some? ==> CacheControlTtl(m).Some?)
    && CoreOf(m).foreign.None?
  }

  lemma WorthHasLast(messages: seq<Message>)
    requires messages != [] && Worth(messages)
    ensures !LongLived(messages[|messages| - 1])
  {
    assert JsonLength([]) == 2;
  }

  /**
   * After a step at most one step mark is left, on the last message, exactly when the tail is
   * worth one; messages with a longer-lived mark are untouched.
   */
  lemma OneMarkOnTheLast(messages: seq<Message>, i: nat)
    requires i < |messages|
    ensures |MarkStep(messages)| == |messages|
    ensures StepMarked(MarkStep(messages)[i]) <==> i == |messages| - 1 && JsonLength(Tail(messages)) >= 4096
    ensures StepMarked(MarkStep(messages)[i]) ==> CacheControl(MarkStep(messages)[i]) == Some(STEP_CACHE_CONTROL)
    ensures LongLived(messages[i]) ==> MarkStep(messages)[i] == messages[i]
    ensures LongLived(MarkStep(messages)[i]) <==> LongLived(messages[i])
  {
    if Worth(messages) {
      WorthHasLast(messages);
    }
  }

  /**
   * Nothing but the step mark changes in any message but a marked last one; there, too, exactly
   * unless a cacheControl without a ttl or options that are no object give way to the mark.
   */
  lemma OnlyTheMarkChanges(messages: seq<Message>, i: nat)
    requires i < |messages|
    ensures CoreOf(MarkStep(messages)[i]) == CoreOf(messages[i])
      <==> i < |messages| - 1 || !Worth(messages) || Tidy(messages[i])
  {
    if Worth(messages) {
      WorthHasLast(messages);
    }
  }

  // ---------------------------------------------------------------- the second step

  /** A tail with its old marks stripped and its last message marked. */
  function Remarked(tail: seq<Message>): seq<Message> {
    if tail == [] then [] else Stripped(tail[..|tail| - 1]) + [Marked(tail[|tail| - 1])]
  }

  lemma MarkingTwice(m: Message)
    ensures Marked(WithoutStepBreakpoint(m)) == Marked(m)
    ensures Marked(Marked(m)) == Marked(m)
    ensures WithoutStepBreakpoint(WithoutStepBreakpoint(m)) == WithoutStepBreakpoint(m)
  {
  }

  lemma StrippedConcat(a: seq<Message>, b: seq<Message>)
    ensures Stripped(a + b) == Stripped(a) + Stripped(b)
  {
  }

  lemma StrippedTwice(messages: seq<Message>)
    ensures Stripped(Stripped(messages)) == Stripped(messages)
  {
    forall i | 0 <= i < |messages| { MarkingTwice(messages[i]); }
  }

  /** Marking as a whole: the front stripped, the last message marked. */
  lemma MarkStepIs(messages: seq<Message>)
    requires messages != []
    ensures MarkStep(messages) == if Worth(messages) then Remarked(messages) else Stripped(messages)
  {
    var n := |messages|;
    MarkingTwice(messages[n - 1]);
    assert Stripped(messages)[..n - 1] == Stripped(messages[..n - 1]);
  }

  lemma {:induction false} TailOfStripped(messages: seq<Message>)
    ensures Tail(Stripped(messages)) == Stripped(Tail(messages))
  {
    if messages != [] && !LongLived(messages[|messages| - 1]) {
      var front, last := messages[..|messages| - 1], messages[|messages| - 1];
      TailOfStripped(front);
      assert Stripped(messages)[..|messages| - 1] == Stripped(front);
      assert !LongLived(WithoutStepBreakpoint(last));
      StrippedConcat(Tail(front), [last]);
    }
  }

  lemma RemarkedIs(front: seq<Message>, last: Message)
    ensures Remarked(front + [last]) == Stripped(front) + [Marked(last)]
  {
    assert (front + [last])[..|front|] == front;
  }

  /** The tail a second step measures is the first one's, re-marked. */
  lemma TailOfRemarked(front: seq<Message>, last: Message)
    requires !LongLived(last)
    ensures Tail(Remarked(front + [last])) == Remarked(Tail(front + [last]))
  {
    calc {
      Tail(Remarked(front + [last]));
      { RemarkedIs(front, last); }
      Tail(Stripped(front) + [Marked(last)]);
      { TailOneMore(Stripped(front), Marked(last)); }
      Tail(Stripped(front)) + [Marked(last)];
      { TailOfStripped(front); }
      Stripped(Tail(front)) + [Marked(last)];
      { RemarkedIs(Tail(front), last); }
      Remarked(Tail(front) + [last]);
      { TailOneMore(front, last); }
      Remarked(Tail(front + [last]));
    }
  }

  lemma RemarkedTwice(messages: seq<Message>)
    requires messages != []
    ensures Remarked(Remarked(messages)) == Remarked(messages)
    ensures Stripped(Remarked(messages)) != Remarked(messages)
  {
    var n := |messages|;
    var front, last := messages[..n - 1], messages[n - 1];
    var once := Remarked(messages);
    MarkingTwice(last);
    StrippedTwice(front);
    assert once[..n - 1] == Stripped(front) && once[n - 1] == Marked(last);
    assert !StepMarked(Stripped(once)[n - 1]) && StepMarked(once[n - 1]);
  }

  // ---------------------------------------------------------------- lengths under marking

  lemma EnclosedOneMore(lengths: seq<nat>, n: nat)
    ensures Enclosed(lengths + [n]) == Enclosed(lengths) + n + if lengths == [] then 0 else 1
  {
    assert (lengths + [n])[..|lengths|] == lengths;
  }

  /** Stripping a mark never makes a message longer. */
  lemma StrippingShrinks(m: Message)
    ensures MessageLength(WithoutStepBreakpoint(m)) <= MessageLength(m)
  {
    if StepMarked(m) {
      var o, fields := m.options.value, AnthropicFields(m);
      var bare := WithoutStepBreakpoint(m).options.value;
      EnclosedOneMore(MemberLengths(fields), MemberLength("cacheControl", |o.anthropic.value.cacheControl.value.json|));
      assert MemberLengths(fields) + [] == MemberLengths(fields);
      assert AnthropicLength(Options(fields, None)) <= AnthropicLength(o.anthropic.value);
      EnclosedOneMore(MemberLengths(o.rest), MemberLength("anthropic", AnthropicLength(o.anthropic.value)));
      EnclosedOneMore(MemberLengths(o.rest), MemberLength("anthropic", AnthropicLength(Options(fields, None))));
      assert MemberLengths(o.rest) + [] == MemberLengths(o.rest);
      assert OptionsLength(bare) <= OptionsLength(o);
      EnclosedOneMore(MemberLengths(m.members), MemberLength("providerOptions", OptionsLength(o)));
      EnclosedOneMore(MemberLengths(m.members), MemberLength("providerOptions", OptionsLength(bare)));
    }
  }

  lemma {:induction false} SumBelow(a: seq<nat>, b: seq<nat>)
    requires |a| == |b| && forall i | 0 <= i < |a| :: a[i] <= b[i]
    ensures Sum(a) <= Sum(b)
  {
    if a != [] {
      SumBelow(a[..|a| - 1], b[..|b| - 1]);
    }
  }

  lemma LengthBelow(a: seq<Message>, b: seq<Message>)
    requires |a| == |b| && forall i | 0 <= i < |a| :: MessageLength(a[i]) <= MessageLength(b[i])
    ensures JsonLength(a) <= JsonLength(b)
  {
    SumBelow(seq(|a|, i requires 0 <= i < |a| => MessageLength(a[i])), seq(|b|, i requires 0 <= i < |b| => MessageLength(b[i])));
  }

  lemma StrippedShrinks(messages: seq<Message>)
    ensures JsonLength(Stripped(messages)) <= JsonLength(messages)
  {
    forall i | 0 <= i < |messages| { StrippingShrinks(messages[i]); }
    LengthBelow(Stripped(messages), messages);
  }

  /** A mark where there is no cacheControl yet only adds. */
  lemma MarkingGrows(m: Message)
    requires Tidy(m) && CacheControl(m).None?
    ensures MessageLength(m) <= MessageLength(Marked(m))
  {
    var o, fields := Marked(m).options.value, AnthropicFields(m);
    EnclosedOneMore(MemberLengths(m.members), MemberLength("providerOptions", OptionsLength(o)));
    assert MemberLengths(m.members) + [] == MemberLengths(m.members);
    if m.options.Some? {
      var was := m.options.value;
      EnclosedOneMore(MemberLengths(m.members), MemberLength("providerOptions", OptionsLength(was)));
      EnclosedOneMore(MemberLengths(was.rest), MemberLength("anthropic", AnthropicLength(o.anthropic.value)));
      assert MemberLengths(was.rest) + [] == MemberLengths(was.rest);
      if was.anthropic.Some? {
        EnclosedOneMore(MemberLengths(fields), MemberLength("cacheControl", |STEP_CACHE_CONTROL.json|));
        assert MemberLengths(fields) + [] == MemberLengths(fields);
        EnclosedOneMore(MemberLengths(was.rest), MemberLength("anthropic", AnthropicLength(was.anthropic.value)));
      }
    }
  }

  // ---------------------------------------------------------------- idempotence

  lemma ShortStaysShort(messages: seq<Message>)
    requires messages != [] && !Worth(messages)
    ensures MarkStep(MarkStep(messages)) == MarkStep(messages)
  {
    var stripped := Stripped(messages);
    MarkStepIs(messages);
    TailOfStripped(messages);
    StrippedShrinks(Tail(messages));
    MarkStepIs(stripped);
    StrippedTwice(messages);
  }

  lemma SecondVerdict(messages: seq<Message>)
    requires messages != [] && Worth(messages)
    ensures Worth(Remarked(messages)) <==> JsonLength(Remarked(Tail(messages))) >= MIN_STEP_CACHE_CHARS
  {
    var n := |messages|;
    WorthHasLast(messages);
    TailOfRemarked(messages[..n - 1], messages[n - 1]);
    assert messages[..n - 1] + [messages[n - 1]] == messages;
  }

  /**
   * A second step changes nothing exactly when the first finds the tail too short, or the tail
   * with its old marks stripped and its last message marked is still long enough.
   */
  lemma IdempotentIff(messages: seq<Message>)
    requires messages != []
    ensures MarkStep(MarkStep(messages)) == MarkStep(messages)
      <==> !Worth(messages) || JsonLength(Remarked(Tail(messages))) >= MIN_STEP_CACHE_CHARS
  {
    if Worth(messages) {
      MarkStepIs(messages);
      MarkStepIs(Remarked(messages));
      SecondVerdict(messages);
      RemarkedTwice(messages);
    } else {
      ShortStaysShort(messages);
    }
  }

  lemma {:induction false} TailWithin(messages: seq<Message>, m: Message)
    requires m in Tail(messages)
    ensures m in messages
  {
    if m != messages[|messages| - 1] {
      TailWithin(messages[..|messages| - 1], m);
    }
  }

  /** On a history without step marks whose last message is tidy a second step changes nothing. */
  lemma FreshMarkIsStable(messages: seq<Message>)
    requires messages != [] && Tidy(messages[|messages| - 1])
    requires forall m | m in messages :: !StepMarked(m)
    ensures MarkStep(MarkStep(messages)) == MarkStep(messages)
  {
    if Worth(messages) {
      var tail, last := Tail(messages), messages[|messages| - 1];
      WorthHasLast(messages);
      assert tail[|tail| - 1] == last;
      forall i | 0 <= i < |tail| ensures MessageLength(tail[i]) <= MessageLength(Remarked(tail)[i]) {
        assert tail[i] in tail;
        TailWithin(messages, tail[i]);
        if i == |tail| - 1 { MarkingGrows(last); }
      }
      LengthBelow(tail, Remarked(tail));
    }
    IdempotentIff(messages);
  }

  // ---------------------------------------------------------------- an old step mark

  /** Text of `n` characters. */
  function Text(n: nat): string { seq(n, _ => 'x') }

  /** The message the last step marked, and the tool result that came after it with options of its own. */
  function OldMark(): Message { Marked(Message([Member("content", Text(3945))], None)) }

  function NewLast(): Message {
    Message([Member("role", "\"tool\"")], Some(ProviderOptions(Some(Options([Member("x", "1")], None)), [])))
  }

  lemma OneLength(n: nat)
    ensures Enclosed([n]) == n + 2
  {
    EnclosedOneMore([], n);
    assert [] + [n] == [n];
  }

  lemma TwoLengths(a: nat, b: nat)
    ensures Enclosed([a, b]) == a + b + 3
  {
    OneLength(a);
    EnclosedOneMore([a], b);
    assert [a] + [b] == [a, b];
  }

  lemma OldMarkLength()
    ensures MessageLength(OldMark()) == 4038 && MessageLength(WithoutStepBreakpoint(OldMark())) == 3978
  {
    var content := MemberLength("content", 3945);
    assert MemberLengths(OldMark().members) == [content] && content == 3955;
    var control := MemberLength("cacheControl", |STEP_CACHE_CONTROL.json|);
    assert |STEP_CACHE_CONTROL.json| == 31 && control == 46;
    OneLength(control);
    assert MemberLengths([]) + [control] == [control];
    var anthropic := MemberLength("anthropic", 48);
    OneLength(anthropic);
    assert MemberLengths([]) + [anthropic] == [anthropic];
    assert OptionsLength(OldMark().options.value) == 62;
    TwoLengths(content, MemberLength("providerOptions", 62));
    assert [content] + [MemberLength("providerOptions", 62)] == [content, MemberLength("providerOptions", 62)];
    assert MemberLengths([]) + [] == [];
    assert OptionsLength(WithoutStepBreakpoint(OldMark()).options.value) == 2;
    TwoLengths(content, MemberLength("providerOptions", 2));
    assert [content] + [MemberLength("providerOptions", 2)] == [content, MemberLength("providerOptions", 2)];
  }

  lemma NewLastLength()
    ensures MessageLength(NewLast()) == 55 && MessageLength(Marked(NewLast())) == 102
  {
    var role, field, control := MemberLength("role", 6), MemberLength("x", 1), MemberLength("cacheControl", 31);
    assert |STEP_CACHE_CONTROL.json| == 31 && |"\"tool\""| == 6;
    assert MemberLengths(NewLast().members) == [role];
    assert MemberLengths(AnthropicFields(NewLast())) == [field];
    OneLength(field);
    TwoLengths(field, control);
    assert [field] + [] == [field] && [field] + [control] == [field, control];
    BareOptions(Options(AnthropicFields(NewLast()), None));
    BareOptions(Options(AnthropicFields(NewLast()), Some(STEP_CACHE_CONTROL)));
    TwoLengths(role, MemberLength("providerOptions", 21));
    TwoLengths(role, MemberLength("providerOptions", 68));
    assert [role] + [MemberLength("providerOptions", 21)] == [role, MemberLength("providerOptions", 21)];
    assert [role] + [MemberLength("providerOptions", 68)] == [role, MemberLength("providerOptions", 68)];
  }

  lemma BareOptions(a: Anthropic)
    ensures OptionsLength(ProviderOptions(Some(a), [])) == AnthropicLength(a) + 14
  {
    OneLength(MemberLength("anthropic", AnthropicLength(a)));
    assert MemberLengths([]) + [MemberLength("anthropic", AnthropicLength(a))] == [MemberLength("anthropic", AnthropicLength(a))];
  }

  lemma PairLength(a: Message, b: Message)
    ensures JsonLength([a, b]) == MessageLength(a) + MessageLength(b) + 3
  {
    TwoLengths(MessageLength(a), MessageLength(b));
    assert seq(|[a, b]|, i requires 0 <= i < |[a, b]| => MessageLength([a, b][i])) == [MessageLength(a), MessageLength(b)];
  }

  lemma PairTail(a: Message, b: Message)
    requires !LongLived(a) && !LongLived(b)
    ensures Tail([a, b]) == [a, b] && Remarked([a, b]) == [WithoutStepBreakpoint(a), Marked(b)]
  {
    assert [a, b] == [] + [a] + [b];
    TailOneMore([], a);
    TailOneMore([a], b);
    RemarkedIs([a], b);
    assert Stripped([a]) == [WithoutStepBreakpoint(a)];
  }

  /**
   * The mark of an earlier step counts towards the tail before it is stripped: here it carries
   * the tail to the threshold, and the re-marked tail is below it. A step can have left that
   * mark, on the last of two messages of which the first has since been dropped.
   */
  lemma OldMarkCanFlip()
    ensures var messages := [OldMark(), NewLast()]; MarkStep(MarkStep(messages)) != MarkStep(messages)
    ensures var earlier := [Message([Member("content", Text(200))], None), Message([Member("content", Text(3945))], None)];
      MarkStep(earlier)[1] == OldMark()
  {
    OldMarkLength();
    NewLastLength();
    PairTail(OldMark(), NewLast());
    PairLength(OldMark(), NewLast());
    PairLength(WithoutStepBreakpoint(OldMark()), Marked(NewLast()));
    IdempotentIff([OldMark(), NewLast()]);
    EarlierIsWorth();
  }

  lemma EarlierIsWorth()
    ensures var earlier := [Message([Member("content", Text(200))], None), Message([Member("content", Text(3945))], None)];
      Worth(earlier) && MarkStep(earlier)[1] == OldMark()
  {
    var a, b := Message([Member("content", Text(200))], None), Message([Member("content", Text(3945))], None);
    PlainLength(200);
    PlainLength(3945);
    PairTail(a, b);
    PairLength(a, b);
    MarkStepIs([a, b]);
  }

  lemma PlainLength(n: nat)
    ensures MessageLength(Message([Member("content", Text(n))], None)) == n + 12
  {
    var content := MemberLength("content", n);
    OneLength(content);
    assert MemberLengths([Member("content", Text(n))]) + [] == [content];
  }
}
