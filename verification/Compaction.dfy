/**
 * The tail a compacted conversation keeps: `safeTail` and `buildCompactedModelMessages` of
 * internal-packages/dashboard-agent/src/compaction.ts and `sanitizeReplayedToolInputs` of
 * internal-packages/dashboard-agent/src/agent-runtime.ts.
 */
module Compaction {
  import opened Wrappers

  datatype Role = System | User | Assistant | Tool

  /** A tool call's input: an object, or what the model sometimes emits instead. */
  datatype Input = ObjectInput(json: string) | BadInput(text: string)

  datatype Part = ToolCall(callId: Option<string>, input: Input) | ToolResult(resultOf: string) | OtherPart(text: string)

  datatype Content = Plain(text: string) | Parts(parts: seq<Part>)

  datatype Message = Message(role: Role, content: Content)

  /** The length of a message's JSON. */
  type Size = Message -> nat

  function CallIds(parts: seq<Part>): (ids: set<string>) {
    set p | p in parts && p.ToolCall? && p.callId.Some? :: p.callId.value
  }

  /** toolCallIds: the calls an assistant message makes. */
  function Calls(m: Message): set<string> {
    if m.role.Assistant? && m.content.Parts? then CallIds(m.content.parts) else {}
  }

  /** The calls a tool message answers. */
  function Answers(m: Message): set<string> {
    if m.role.Tool? && m.content.Parts? then set p | p in m.content.parts && p.ToolResult? :: p.resultOf else {}
  }

  function Chars(messages: seq<Message>, size: Size): nat {
    if messages == [] then 0 else size(messages[0]) + Chars(messages[1..], size)
  }

  // ---------------------------------------------------------------- the tail

  /** The first index the message cap allows. */
  function CountStart(n: nat, count: nat): nat { if count < n then n - count else 0 }

  /** `lo` is the earliest start both caps allow, except that the last message always fits. */
  ghost predicate Window(messages: seq<Message>, count: nat, maxChars: nat, size: Size, lo: nat) {
    var n := |messages|;
    && CountStart(n, count) <= lo <= n
    && (Chars(messages[lo..], size) <= maxChars || lo + 1 == n)
    && (lo > CountStart(n, count) ==> lo < n && Chars(messages[lo - 1..], size) > maxChars)
  }

  /** From the window, without leading tool messages and without trailing calls. */
  ghost predicate Trimmed(messages: seq<Message>, lo: nat, start: nat, end: nat) {
    && lo <= start <= end <= |messages|
    && (forall i | lo <= i < start :: messages[i].role.Tool?)
    && (start < |messages| ==> !messages[start].role.Tool?)
    && (forall i | end <= i < |messages| :: Calls(messages[i]) != {})
    && (start < end ==> Calls(messages[end - 1]) == {})
  }

  ghost predicate Cut(messages: seq<Message>, count: nat, maxChars: nat, size: Size, lo: nat, start: nat, end: nat) {
    Window(messages, count, maxChars, size, lo) && Trimmed(messages, lo, start, end)
  }

  ghost predicate IsSafeTail(messages: seq<Message>, count: nat, maxChars: nat, size: Size, tail: seq<Message>) {
    exists lo: nat, start: nat, end: nat | Cut(messages, count, maxChars, size, lo, start, end) :: tail == messages[start..end]
  }

  lemma CharsStep(messages: seq<Message>, i: nat, size: Size)
    requires i < |messages|
    ensures Chars(messages[i..], size) == size(messages[i]) + Chars(messages[i + 1..], size)
  {
    assert messages[i..][1..] == messages[i + 1..];
  }

  /** The character cap's loop, from the last message back. */
  method WindowStart(messages: seq<Message>, count: nat, maxChars: nat, size: Size) returns (lo: nat)
    ensures Window(messages, count, maxChars, size, lo)
  {
    var n := |messages|;
    lo := CountStart(n, count);
    var chars := 0;
    var i := n;
    while i > lo
      invariant CountStart(n, count) == lo <= i <= n
      invariant chars == Chars(messages[i..], size) <= maxChars
    {
      i := i - 1;
      CharsStep(messages, i, size);
      chars := chars + size(messages[i]);
      if chars > maxChars {
        lo := if i + 1 <= n - 1 then i + 1 else n - 1;
        return;
      }
    }
  }

  method SafeTail(messages: seq<Message>, count: nat, maxChars: nat, size: Size) returns (tail: seq<Message>)
    ensures IsSafeTail(messages, count, maxChars, size, tail)
  {
    var n := |messages|;
    var lo := WindowStart(messages, count, maxChars, size);
    var start := lo;
    while start < n && messages[start].role.Tool?
      invariant lo <= start <= n
      invariant forall k | lo <= k < start :: messages[k].role.Tool?
    {
      start := start + 1;
    }
    var end := n;
    while end > start && Calls(messages[end - 1]) != {}
      invariant start <= end <= n
      invariant forall k | end <= k < n :: Calls(messages[k]) != {}
    {
      end := end - 1;
    }
    assert Trimmed(messages, lo, start, end);
    assert Cut(messages, count, maxChars, size, lo, start, end);
    tail := messages[start..end];
  }

  lemma {:induction false} CharsGrow(messages: seq<Message>, i: nat, j: nat, size: Size)
    requires i <= j <= |messages|
    ensures Chars(messages[j..], size) <= Chars(messages[i..], size)
    decreases j - i
  {
    if i < j {
      CharsStep(messages, i, size);
      CharsGrow(messages, i + 1, j, size);
    }
  }

  lemma {:induction false} CharsPrefix(messages: seq<Message>, end: nat, size: Size)
    requires end <= |messages|
    ensures Chars(messages[..end], size) <= Chars(messages, size)
  {
    if end > 0 {
      CharsPrefix(messages[1..], end - 1, size);
      assert messages[..end][1..] == messages[1..][..end - 1];
    } else {
      assert messages[..end] == [];
    }
  }

  lemma WindowUnique(messages: seq<Message>, count: nat, maxChars: nat, size: Size, lo: nat, lo': nat)
    requires Window(messages, count, maxChars, size, lo) && Window(messages, count, maxChars, size, lo')
    ensures lo >= lo'
  {
    if lo < lo' {
      CharsGrow(messages, lo, lo' - 1, size);
    }
  }

  lemma TrimmedUnique(messages: seq<Message>, lo: nat, start: nat, end: nat, start': nat, end': nat)
    requires Trimmed(messages, lo, start, end) && Trimmed(messages, lo, start', end')
    ensures start == start' && end == end'
  {
  }

  /** The caps and the trimming rule leave one possible tail. */
  lemma TailUnique(messages: seq<Message>, count: nat, maxChars: nat, size: Size, s: seq<Message>, t: seq<Message>)
    requires IsSafeTail(messages, count, maxChars, size, s) && IsSafeTail(messages, count, maxChars, size, t)
    ensures s == t
  {
    var lo: nat, start: nat, end: nat :| Cut(messages, count, maxChars, size, lo, start, end) && s == messages[start..end];
    var lo': nat, start': nat, end': nat :| Cut(messages, count, maxChars, size, lo', start', end') && t == messages[start'..end'];
    WindowUnique(messages, count, maxChars, size, lo, lo');
    WindowUnique(messages, count, maxChars, size, lo', lo);
    TrimmedUnique(messages, lo, start, end, start', end');
  }

  lemma CutBounds(messages: seq<Message>, count: nat, maxChars: nat, size: Size, lo: nat, start: nat, end: nat)
    requires Cut(messages, count, maxChars, size, lo, start, end)
    ensures end - start <= count
    ensures Chars(messages[start..end], size) <= maxChars || end - start <= 1
  {
    CharsGrow(messages, lo, start, size);
    CharsPrefix(messages[start..], end - start, size);
    assert messages[start..][..end - start] == messages[start..end];
  }

  /** Never more messages than asked for, never more characters unless one message alone is over. */
  lemma TailBounds(messages: seq<Message>, count: nat, maxChars: nat, size: Size, tail: seq<Message>)
    requires IsSafeTail(messages, count, maxChars, size, tail)
    ensures |tail| <= count
    ensures Chars(tail, size) <= maxChars || |tail| <= 1
  {
    var lo: nat, start: nat, end: nat :| Cut(messages, count, maxChars, size, lo, start, end) && tail == messages[start..end];
    CutBounds(messages, count, maxChars, size, lo, start, end);
  }

  // ---------------------------------------------------------------- calls and their results

  /** Tool messages all the way from the message after `o` to `i`. */
  ghost predicate Follows(messages: seq<Message>, o: nat, i: nat)
    requires o < |messages| && i < |messages|
  {
    o < i && !messages[o].role.Tool? && forall k | o < k <= i :: messages[k].role.Tool?
  }

  ghost predicate HasCall(messages: seq<Message>, i: nat, id: string)
    requires i < |messages|
  {
    exists o: nat | o < |messages| :: Follows(messages, o, i) && id in Calls(messages[o])
  }

  ghost predicate HasResult(messages: seq<Message>, o: nat, id: string)
    requires o < |messages|
  {
    exists i: nat | i < |messages| :: Follows(messages, o, i) && id in Answers(messages[i])
  }

  /** Every result has its call, and every call up to message `n` its result. */
  ghost predicate PairedUpTo(messages: seq<Message>, n: int) { ResultsHaveCalls(messages) && CallsHaveResults(messages, n) }

  ghost predicate ResultsHaveCalls(messages: seq<Message>) {
    forall i: nat, id {:trigger HasCall(messages, i, id)} | i < |messages| && id in Answers(messages[i]) :: HasCall(messages, i, id)
  }

  ghost predicate CallsHaveResults(messages: seq<Message>, n: int) {
    forall o: nat, id {:trigger HasResult(messages, o, id)} | o < |messages| && o < n && id in Calls(messages[o]) :: HasResult(messages, o, id)
  }

  /** A history the provider accepted: only its last message may still wait for results. */
  ghost predicate Paired(messages: seq<Message>) { PairedUpTo(messages, |messages| - 1) }

  ghost predicate Complete(messages: seq<Message>) { PairedUpTo(messages, |messages|) }

  lemma FollowsInSlice(messages: seq<Message>, start: nat, end: nat, o: nat, i: nat)
    requires start <= o < end <= |messages| && start <= i < end
    ensures Follows(messages[start..end], o - start, i - start) <==> Follows(messages, o, i)
  {
    var s := messages[start..end];
    if Follows(s, o - start, i - start) {
      forall k | o < k <= i ensures messages[k].role.Tool? { assert s[k - start] == messages[k]; }
    }
  }

  lemma ResultBeforeEnd(messages: seq<Message>, start: nat, end: nat, i: nat)
    requires start <= end <= |messages| && i < |messages| && messages[i].role.Tool?
    requires forall k | end <= k < |messages| :: Calls(messages[k]) != {}
    ensures i < end
  {
  }

  lemma CutKeepsCall(messages: seq<Message>, lo: nat, start: nat, end: nat, i: nat, id: string)
    requires Trimmed(messages, lo, start, end) && start <= i < end && HasCall(messages, i, id)
    ensures HasCall(messages[start..end], i - start, id)
  {
    var o: nat :| o < |messages| && Follows(messages, o, i) && id in Calls(messages[o]);
    assert start <= o;
    FollowsInSlice(messages, start, end, o, i);
    assert messages[start..end][o - start] == messages[o];
  }

  lemma CutKeepsResult(messages: seq<Message>, lo: nat, start: nat, end: nat, o: nat, id: string)
    requires Trimmed(messages, lo, start, end) && start <= o < end && HasResult(messages, o, id)
    ensures HasResult(messages[start..end], o - start, id)
  {
    var i: nat :| i < |messages| && Follows(messages, o, i) && id in Answers(messages[i]);
    ResultBeforeEnd(messages, start, end, i);
    FollowsInSlice(messages, start, end, o, i);
    assert messages[start..end][i - start] == messages[i];
  }

  lemma CutResultsHaveCalls(messages: seq<Message>, lo: nat, start: nat, end: nat)
    requires ResultsHaveCalls(messages) && Trimmed(messages, lo, start, end)
    ensures ResultsHaveCalls(messages[start..end])
  {
    var tail := messages[start..end];
    forall i: nat, id | i < |tail| && id in Answers(tail[i]) ensures HasCall(tail, i, id) {
      CutKeepsCall(messages, lo, start, end, start + i, id);
    }
  }

  lemma CutCallsHaveResults(messages: seq<Message>, lo: nat, start: nat, end: nat)
    requires CallsHaveResults(messages, |messages| - 1) && Trimmed(messages, lo, start, end)
    ensures CallsHaveResults(messages[start..end], end - start)
  {
    var tail := messages[start..end];
    forall o: nat, id | o < |tail| && id in Calls(tail[o]) ensures HasResult(tail, o, id) {
      assert start + o < end - 1;
      CutKeepsResult(messages, lo, start, end, start + o, id);
    }
  }

  /** Cutting a paired history to its tail leaves no result without its call and no call without its result. */
  lemma TailIsComplete(messages: seq<Message>, count: nat, maxChars: nat, size: Size, tail: seq<Message>)
    requires Paired(messages) && IsSafeTail(messages, count, maxChars, size, tail)
    ensures Complete(tail)
  {
    var lo: nat, start: nat, end: nat :| Cut(messages, count, maxChars, size, lo, start, end) && tail == messages[start..end];
    CutResultsHaveCalls(messages, lo, start, end);
    CutCallsHaveResults(messages, lo, start, end);
  }

  // ---------------------------------------------------------------- the rebuilt history

  predicate IsBadInput(p: Part) { p.ToolCall? && p.input.BadInput? }

  function Sanitized(p: Part): Part { if IsBadInput(p) then p.(input := ObjectInput("{}")) else p }

  function SanitizedParts(parts: seq<Part>): seq<Part> { seq(|parts|, i requires 0 <= i < |parts| => Sanitized(parts[i])) }

  function SanitizedMessage(m: Message): Message {
    if !m.role.Assistant? || !m.content.Parts? || !exists p | p in m.content.parts :: IsBadInput(p) then m
    else m.(content := Parts(SanitizedParts(m.content.parts)))
  }

  function SanitizeReplayedToolInputs(messages: seq<Message>): seq<Message> {
    seq(|messages|, i requires 0 <= i < |messages| => SanitizedMessage(messages[i]))
  }

  lemma SanitizingKeepsIds(m: Message)
    ensures var s := SanitizedMessage(m); s.role == m.role && Calls(s) == Calls(m) && Answers(s) == Answers(m)
    ensures m.role.Assistant? && m.content.Parts? ==> SanitizedMessage(m).content.Parts? && forall p | p in SanitizedMessage(m).content.parts :: !IsBadInput(p)
  {
    if m.role.Assistant? && m.content.Parts? {
      var parts, clean := m.content.parts, SanitizedParts(m.content.parts);
      forall id ensures id in CallIds(clean) <==> id in CallIds(parts) {
        if id in CallIds(parts) {
          var i :| 0 <= i < |parts| && parts[i].ToolCall? && parts[i].callId == Some(id);
          assert clean[i] in clean;
        }
        if id in CallIds(clean) {
          var i :| 0 <= i < |clean| && clean[i].ToolCall? && clean[i].callId == Some(id);
          assert parts[i] in parts;
        }
      }
    }
  }

  /** Only inputs that are no objects are replaced, by `{}`, and only in an assistant's parts. */
  lemma SanitizingChangesInputsOnly(m: Message, i: nat)
    ensures m.role != Assistant || m.content.Plain? ==> SanitizedMessage(m) == m
    ensures m.role == Assistant && m.content.Parts? ==>
      var s := SanitizedMessage(m);
      && s.role == Assistant && s.content.Parts? && |s.content.parts| == |m.content.parts|
      && (i < |m.content.parts| ==>
            s.content.parts[i] == match m.content.parts[i]
                                  case ToolCall(id, BadInput(_)) => ToolCall(id, ObjectInput("{}"))
                                  case p => p)
  {
    if m.role == Assistant && m.content.Parts? && i < |m.content.parts| {
      assert m.content.parts[i] in m.content.parts;
    }
  }

  ghost predicate SameIds(a: seq<Message>, b: seq<Message>) {
    |a| == |b| && forall i | 0 <= i < |a| :: a[i].role == b[i].role && Calls(a[i]) == Calls(b[i]) && Answers(a[i]) == Answers(b[i])
  }

  lemma SameIdsSameCall(a: seq<Message>, b: seq<Message>, i: nat, id: string)
    requires SameIds(a, b) && i < |a| && HasCall(a, i, id)
    ensures HasCall(b, i, id)
  {
    var o: nat :| o < |a| && Follows(a, o, i) && id in Calls(a[o]);
    assert Follows(b, o, i);
  }

  lemma SameIdsSameResult(a: seq<Message>, b: seq<Message>, o: nat, id: string)
    requires SameIds(a, b) && o < |a| && HasResult(a, o, id)
    ensures HasResult(b, o, id)
  {
    var i: nat :| i < |a| && Follows(a, o, i) && id in Answers(a[i]);
    assert Follows(b, o, i);
  }

  lemma SanitizingKeepsPairs(messages: seq<Message>)
    requires Complete(messages)
    ensures Complete(SanitizeReplayedToolInputs(messages))
  {
    var clean := SanitizeReplayedToolInputs(messages);
    assert SameIds(messages, clean) by {
      forall i | 0 <= i < |messages| { SanitizingKeepsIds(messages[i]); }
    }
    forall i: nat, id | i < |clean| && id in Answers(clean[i]) ensures HasCall(clean, i, id) {
      SameIdsSameCall(messages, clean, i, id);
    }
    forall o: nat, id | o < |clean| && id in Calls(clean[o]) ensures HasResult(clean, o, id) {
      SameIdsSameResult(messages, clean, o, id);
    }
  }

  /** The summary, with the note about still-open investigations when there is one. */
  function SummaryMessage(summary: string, note: string): Message {
    var text := "[Conversation summary]\n\n" + summary;
    Message(User, Plain(if note == "" then text else text + "\n\n" + note))
  }

  /** The rebuilt history: the summary with its note about open cards, then the sanitized tail. */
  method BuildCompactedModelMessages(summary: string, note: string, messages: seq<Message>, keptTail: nat, maxChars: nat, size: Size) returns (r: seq<Message>)
    ensures |r| >= 1 && r[0] == SummaryMessage(summary, note)
    ensures exists tail :: IsSafeTail(messages, keptTail, maxChars, size, tail) && r[1..] == SanitizeReplayedToolInputs(tail)
    ensures Paired(messages) ==> Complete(r)
  {
    var tail := SafeTail(messages, keptTail, maxChars, size);
    r := [SummaryMessage(summary, note)] + SanitizeReplayedToolInputs(tail);
    assert r[1..] == SanitizeReplayedToolInputs(tail);
    if Paired(messages) {
      TailIsComplete(messages, keptTail, maxChars, size, tail);
      SanitizingKeepsPairs(tail);
      PrefixedIsComplete(r[0], r[1..]);
      assert [r[0]] + r[1..] == r;
    }
  }

  lemma PrefixedIsComplete(first: Message, rest: seq<Message>)
    requires Complete(rest) && Calls(first) == {} && Answers(first) == {}
    ensures Complete([first] + rest)
  {
    var all := [first] + rest;
    assert all[1..|all|] == rest;
    forall i: nat, id | i < |all| && id in Answers(all[i]) ensures HasCall(all, i, id) {
      assert HasCall(rest, i - 1, id);
      var o: nat :| o < |rest| && Follows(rest, o, i - 1) && id in Calls(rest[o]);
      FollowsInSlice(all, 1, |all|, o + 1, i);
    }
    forall o: nat, id | o < |all| && id in Calls(all[o]) ensures HasResult(all, o, id) {
      assert HasResult(rest, o - 1, id);
      var i: nat :| i < |rest| && Follows(rest, o - 1, i) && id in Answers(rest[i]);
      FollowsInSlice(all, 1, |all|, o, i + 1);
    }
  }
}
