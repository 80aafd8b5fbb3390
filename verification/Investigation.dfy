/**
 * The investigation card: its state, the schema rules that decide whether it can be
 * rendered, the two ways of forcing it closed, and its shape inside a chat message.
 */
module Investigation {
  import opened Wrappers
  import opened Decimal

  datatype Outcome = InProgress | Concluded | Inconclusive
  datatype Confidence = High | Medium | Low

  /** A stored field: absent, of the schema's type, or of another type, as the text SQL reads it for. */
  datatype Field<+T> = Absent | Typed(value: T) | Mistyped(text: string)

  /**
   * A state as stored JSON. Outcome, confidence and title are None when absent or outside the
   * schema's type. `rest` stands for the fields no operation here reads or writes (severity,
   * hypotheses, evidence, ...), `restValid` for the schema's verdict on them.
   */
  datatype State = State(
    outcome: Option<Outcome>,
    confidence: Option<Confidence>,
    title: Option<string>,
    headline: Field<string>,
    remediation: Field<string>,
    checkNext: Field<seq<string>>,
    progress: Field<string>,
    restValid: bool,
    rest: string
  )

  /** The state schema with its two cross-field rules: a state failing it has no card. */
  predicate Renderable(s: State) {
    && s.outcome.Some? && s.confidence.Some? && s.title.Some? && s.headline.Typed? && s.restValid
    && !s.remediation.Mistyped? && !s.checkNext.Mistyped? && !s.progress.Mistyped?
    && (s.remediation.Typed? ==> s.outcome.value == Concluded)
    && (s.checkNext.Typed? && |s.checkNext.value| > 0 ==> s.outcome.value == Inconclusive)
  }

  predicate Open(s: State) { s.outcome == Some(InProgress) }

  predicate Terminal(s: State) { s.outcome == Some(Concluded) || s.outcome == Some(Inconclusive) }

  // ---------------------------------------------------------------- trimming

  /** What String.prototype.trim strips: WhiteSpace and LineTerminator of ECMA-262. */
  predicate IsJsSpace(c: char) {
    || '\U{0009}' <= c <= '\U{000D}' || c == ' ' || c == '\U{00A0}' || c == '\U{FEFF}'
    || c == '\U{1680}' || '\U{2000}' <= c <= '\U{200A}' || c == '\U{2028}' || c == '\U{2029}'
    || c == '\U{202F}' || c == '\U{205F}' || c == '\U{3000}'
  }

  /** What SQL's one-argument btrim strips. */
  predicate IsSqlSpace(c: char) { c == ' ' }

  function TrimLeft(s: string, space: char -> bool): string {
    if |s| > 0 && space(s[0]) then TrimLeft(s[1..], space) else s
  }

  function TrimRight(s: string, space: char -> bool): string {
    if |s| > 0 && space(s[|s| - 1]) then TrimRight(s[..|s| - 1], space) else s
  }

  function Trim(s: string, space: char -> bool): string {
    TrimRight(TrimLeft(s, space), space)
  }

  /** No space at either end. */
  predicate Edged(s: string, space: char -> bool) {
    |s| > 0 ==> !space(s[0]) && !space(s[|s| - 1])
  }

  // ---------------------------------------------------------------- forcing a card closed

  const UNSETTLED_NOTE :=
    "The investigation " + "didn't conclude within this turn, so the cause isn't established. "
    + "What's below is what was checked."

  /** The turn's own settle: keeps everything but the fields only a live or concluded card has. */
  function ForceSettled(s: State): State
    requires Renderable(s)
  {
    s.(outcome := Some(Inconclusive),
       confidence := Some(Low),
       progress := Absent,
       remediation := Absent,
       headline := Typed(Trim(Trim(s.headline.value, IsJsSpace) + " " + UNSETTLED_NOTE, IsJsSpace)))
  }

  /** The sweep's settle: one SQL merge over the stored JSON, whatever it holds. */
  function SqlSettled(s: State, note: string): State {
    var headline := match s.headline case Typed(h) => h case Mistyped(text) => text case Absent => "";
    s.(outcome := Some(Inconclusive),
       confidence := Some(Low),
       progress := Absent,
       remediation := Absent,
       headline := Typed(Trim(headline + " " + note, IsSqlSpace)))
  }

  /** The closing fields are set, and title, next checks and everything no rule reads are kept. */
  ghost predicate SettledFields(was: State, state: State) {
    && state.outcome == Some(Inconclusive) && state.confidence == Some(Low)
    && state.progress == Absent && state.remediation == Absent && state.headline.Typed?
    && state.title == was.title && state.checkNext == was.checkNext
    && state.rest == was.rest && state.restValid == was.restValid
  }

  lemma ForceSettledRenders(s: State)
    requires Renderable(s)
    ensures Renderable(ForceSettled(s)) && Terminal(ForceSettled(s)) && SettledFields(s, ForceSettled(s))
  {
  }

  /** The sweep can close a row exactly when everything the merge leaves alone is valid. */
  lemma SqlSettledRendersIff(s: State, note: string)
    ensures Renderable(SqlSettled(s, note)) <==> s.title.Some? && s.restValid && !s.checkNext.Mistyped?
    ensures Terminal(SqlSettled(s, note))
  {
  }

  lemma {:induction false} TrimLeftThenWord(s: string, word: string, space: char -> bool)
    requires |word| > 0 && !space(word[0])
    ensures TrimLeft(s + word, space) == TrimLeft(s, space) + word
  {
    if s == [] {
      assert s + word == word;
    } else if space(s[0]) {
      assert (s + word)[1..] == s[1..] + word;
      TrimLeftThenWord(s[1..], word, space);
    } else {
      assert (s + word)[0] == s[0];
    }
  }

  lemma {:induction false} TrimLeftEdge(s: string, space: char -> bool)
    ensures TrimLeft(s, space) == [] || !space(TrimLeft(s, space)[0])
    ensures |TrimLeft(s, space)| <= |s|
    ensures |s| > 0 && !space(s[|s| - 1]) ==>
      |TrimLeft(s, space)| > 0 && TrimLeft(s, space)[|TrimLeft(s, space)| - 1] == s[|s| - 1]
  {
    if |s| > 0 && space(s[0]) {
      TrimLeftEdge(s[1..], space);
    }
  }

  lemma {:induction false} TrimRightEdge(s: string, space: char -> bool)
    ensures TrimRight(s, space) <= s
    ensures TrimRight(s, space) == [] || !space(TrimRight(s, space)[|TrimRight(s, space)| - 1])
  {
    if |s| > 0 && space(s[|s| - 1]) {
      TrimRightEdge(s[..|s| - 1], space);
    }
  }

  lemma TrimmedIsEdged(s: string, space: char -> bool)
    ensures Edged(Trim(s, space), space)
  {
    TrimLeftEdge(s, space);
    TrimRightEdge(TrimLeft(s, space), space);
  }

  /** Appending a note to a headline and trimming: the note survives whole. */
  lemma NoteAppended(head: string, note: string, space: char -> bool)
    requires note != [] && Edged(note, space) && space(' ')
    ensures Trim(head + " " + note, space) ==
            if TrimLeft(head + " ", space) == [] then note else TrimLeft(head + " ", space) + note
  {
    TrimLeftThenWord(head + " ", note, space);
    var t := TrimLeft(head + " ", space) + note;
    assert t[|t| - 1] == note[|note| - 1];
  }

  lemma {:induction false} TrimLeftPadded(head: string, space: char -> bool)
    requires space(' ')
    ensures TrimLeft(head + " ", space) ==
            if TrimLeft(head, space) == [] then [] else TrimLeft(head, space) + " "
  {
    if head == [] {
      assert head + " " == " ";
      assert " "[1..] == [];
      assert TrimLeft(" ", space) == TrimLeft(" "[1..], space);
    } else if space(head[0]) {
      assert (head + " ")[1..] == head[1..] + " ";
      TrimLeftPadded(head[1..], space);
    }
  }

  function NotedHeadline(head: string, note: string): string {
    if head == [] then note else head + " " + note
  }

  /** The sweep's headline is the stored one without its leading spaces, then the whole note. */
  lemma SweepKeepsTheNote(s: State, note: string)
    requires note != [] && Edged(note, IsSqlSpace)
    ensures s.headline.Typed? ==> SqlSettled(s, note).headline == Typed(NotedHeadline(TrimLeft(s.headline.value, IsSqlSpace), note))
    ensures s.headline == Absent ==> SqlSettled(s, note).headline == Typed(note)
  {
    var h := match s.headline case Typed(h) => h case Mistyped(text) => text case Absent => "";
    NoteAppended(h, note, IsSqlSpace);
    TrimLeftPadded(h, IsSqlSpace);
  }

  /** The turn's headline is the trimmed one, then the whole note. */
  lemma TurnKeepsTheNote(s: State)
    requires Renderable(s)
    ensures ForceSettled(s).headline == Typed(NotedHeadline(Trim(s.headline.value, IsJsSpace), UNSETTLED_NOTE))
  {
    var js := Trim(s.headline.value, IsJsSpace);
    NoteIsEdged();
    TrimmedIsEdged(s.headline.value, IsJsSpace);
    NoteAppended(js, UNSETTLED_NOTE, IsJsSpace);
    TrimLeftPadded(js, IsJsSpace);
    assert TrimLeft(js, IsJsSpace) == js;
  }

  /**
   * The two settle paths agree exactly on headlines where dropping leading spaces is
   * already a full trim. Neither path loses the note.
   */
  lemma SettlePathsAgreeIff(s: State)
    requires Renderable(s)
    ensures ForceSettled(s) == SqlSettled(s, UNSETTLED_NOTE)
            <==> TrimLeft(s.headline.value, IsSqlSpace) == Trim(s.headline.value, IsJsSpace)
  {
    NoteIsEdged();
    SweepKeepsTheNote(s, UNSETTLED_NOTE);
    TurnKeepsTheNote(s);
    NotedHeadlineInjective(Trim(s.headline.value, IsJsSpace), TrimLeft(s.headline.value, IsSqlSpace), UNSETTLED_NOTE);
  }

  lemma NoteIsEdged()
    ensures UNSETTLED_NOTE != [] && Edged(UNSETTLED_NOTE, IsJsSpace) && Edged(UNSETTLED_NOTE, IsSqlSpace)
  {
    assert UNSETTLED_NOTE[0] == 'T' && UNSETTLED_NOTE[|UNSETTLED_NOTE| - 1] == '.';
  }

  lemma NotedHeadlineInjective(a: string, b: string, note: string)
    ensures NotedHeadline(a, note) == NotedHeadline(b, note) ==> a == b
  {
    if NotedHeadline(a, note) == NotedHeadline(b, note) {
      assert |a| == |b|;
      forall i | 0 <= i < |a| ensures a[i] == b[i] {
        assert NotedHeadline(a, note)[i] == a[i];
        assert NotedHeadline(b, note)[i] == b[i];
      }
    }
  }

  // ---------------------------------------------------------------- cards in messages

  datatype Block =
    | InvestigationBlock(id: Option<string>, revision: Option<int>, state: State)
    | OtherBlock

  /** A part of a UI message. Only two kinds carry blocks the panel reads. */
  datatype Part =
    | RenderViewPart(output: Option<seq<Block>>)
    | DataViewPart(data: Option<seq<Block>>)
    | OtherPart(payload: string)

  /**
   * A UI message as handed to the store. An `id` or `role` that is absent, not a string or
   * empty is "": the store treats the three alike.
   */
  datatype Message = Message(id: string, role: string, parts: seq<Part>)

  datatype Card = Card(id: string, revision: int, state: Option<State>)

  const SETTLEMENT_PREFIX := "investigation-settlement:"

  function SettlementId(investigationId: string, revision: nat): string {
    SETTLEMENT_PREFIX + investigationId + ":" + Print(revision)
  }

  predicate IsSettlementId(id: string) { SETTLEMENT_PREFIX <= id }

  /** The closing card as one more transcript message; None when the state has no card. */
  function SettlementMessage(investigationId: string, revision: nat, state: State, messageId: Option<string>)
    : Option<Message>
  {
    if !Renderable(state) then None
    else
      var id := if messageId.Some? then messageId.value else SettlementId(investigationId, revision);
      Some(Message(id, "assistant",
        [RenderViewPart(Some([InvestigationBlock(Some(investigationId), Some(revision), state)]))]))
  }

  lemma LastColon(a: string, x: string, b: string, y: string)
    requires forall i | 0 <= i < |x| :: IsDigit(x[i])
    requires forall i | 0 <= i < |y| :: IsDigit(y[i])
    requires a + ":" + x == b + ":" + y
    ensures |a| == |b|
  {
    var s := a + ":" + x;
    assert s[|a|] == ':' && forall i | |a| < i < |s| :: s[i] == x[i - |a| - 1];
    assert s[|b|] == ':' && forall i | |b| < i < |s| :: s[i] == y[i - |b| - 1];
  }

  /** Revision-stable ids never collide: the last colon ends the investigation id. */
  lemma SettlementIdInjective(a: string, m: nat, b: string, n: nat)
    requires SettlementId(a, m) == SettlementId(b, n)
    ensures a == b && m == n
  {
    var left, right := a + ":" + Print(m), b + ":" + Print(n);
    assert left == SettlementId(a, m)[|SETTLEMENT_PREFIX|..];
    assert right == SettlementId(b, n)[|SETTLEMENT_PREFIX|..];
    LastColon(a, Print(m), b, Print(n));
    assert a == left[..|a|] && b == right[..|b|];
    assert Print(m) == left[|a| + 1..] && Print(n) == right[|b| + 1..];
    PrintInjective(m, n);
  }
}
