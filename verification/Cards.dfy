/**
 * Reading a transcript the way the panel does: the investigation cards in its messages,
 * the winning card per id, and the cards a history summary must keep pinned.
 */
module Cards {
  import opened Wrappers
  import opened Investigation

  function BlocksInPart(part: Part): seq<Block> {
    match part
    case RenderViewPart(output) => if output.Some? then output.value else []
    case DataViewPart(data) => if data.Some? then data.value else []
    case OtherPart(_) => []
  }

  function CardOf(block: Block): Option<Card> {
    match block
    case InvestigationBlock(Some(id), revision, state) =>
      Some(Card(id, if revision.Some? then revision.value else 0, if Renderable(state) then Some(state) else None))
    case _ => None
  }

  function CardsInBlocks(blocks: seq<Block>): seq<Card> {
    if blocks == [] then []
    else
      var last := CardOf(blocks[|blocks| - 1]);
      CardsInBlocks(blocks[..|blocks| - 1]) + if last.Some? then [last.value] else []
  }

  function CardsInParts(parts: seq<Part>): seq<Card> {
    if parts == [] then []
    else CardsInParts(parts[..|parts| - 1]) + CardsInBlocks(BlocksInPart(parts[|parts| - 1]))
  }

  function CardsIn(messages: seq<Message>): seq<Card> {
    if messages == [] then []
    else CardsIn(messages[..|messages| - 1]) + CardsInParts(messages[|messages| - 1].parts)
  }

  method CardsInMessage(message: Message) returns (found: seq<Card>)
    ensures found == CardsInParts(message.parts)
  {
    found := [];
    for i := 0 to |message.parts|
      invariant found == CardsInParts(message.parts[..i])
    {
      var blocks := BlocksInPart(message.parts[i]);
      for j := 0 to |blocks|
        invariant found == CardsInParts(message.parts[..i]) + CardsInBlocks(blocks[..j])
      {
        assert blocks[..j + 1][..j] == blocks[..j];
        var card := CardOf(blocks[j]);
        if card.Some? { found := found + [card.value]; }
      }
      assert blocks[..|blocks|] == blocks;
      assert message.parts[..i + 1][..i] == message.parts[..i];
    }
    assert message.parts[..|message.parts|] == message.parts;
  }

  /** `block` shows this card: its id, its revision or 0, and its state if the schema accepts it. */
  predicate ShowsCard(block: Block, card: Card) {
    && block.InvestigationBlock? && block.id == Some(card.id)
    && card.revision == (if block.revision.Some? then block.revision.value else 0)
    && card.state == (if Renderable(block.state) then Some(block.state) else None)
  }

  /** `block` is in the output of a view tool or in a view data part. */
  predicate Carries(part: Part, block: Block) {
    || (part.RenderViewPart? && part.output.Some? && block in part.output.value)
    || (part.DataViewPart? && part.data.Some? && block in part.data.value)
  }

  ghost predicate PartShows(part: Part, card: Card) {
    exists block :: Carries(part, block) && ShowsCard(block, card)
  }

  ghost predicate MessageShows(m: Message, card: Card) {
    exists part :: part in m.parts && PartShows(part, card)
  }

  lemma {:induction false} BlocksShow(blocks: seq<Block>, card: Card)
    ensures card in CardsInBlocks(blocks) <==> exists b :: b in blocks && ShowsCard(b, card)
  {
    if blocks != [] {
      var init, last := blocks[..|blocks| - 1], blocks[|blocks| - 1];
      BlocksShow(init, card);
      assert blocks == init + [last];
      assert ShowsCard(last, card) <==> CardOf(last) == Some(card);
    }
  }

  lemma PartCards(part: Part, card: Card)
    ensures card in CardsInBlocks(BlocksInPart(part)) <==> PartShows(part, card)
  {
    BlocksShow(BlocksInPart(part), card);
    assert forall b :: b in BlocksInPart(part) <==> Carries(part, b);
  }

  lemma {:induction false} PartsShow(parts: seq<Part>, card: Card)
    ensures card in CardsInParts(parts) <==> exists p :: p in parts && PartShows(p, card)
  {
    if parts != [] {
      var init, last := parts[..|parts| - 1], parts[|parts| - 1];
      PartsShow(init, card);
      PartCards(last, card);
      assert parts == init + [last];
    }
  }

  /** The cards of a transcript are exactly those some view block in some message shows. */
  lemma {:induction false} CardsAreShown(messages: seq<Message>, card: Card)
    ensures card in CardsIn(messages) <==> exists m :: m in messages && MessageShows(m, card)
  {
    if messages != [] {
      var init, last := messages[..|messages| - 1], messages[|messages| - 1];
      CardsAreShown(init, card);
      PartsShow(last.parts, card);
      assert MessageShows(last, card) <==> card in CardsInParts(last.parts);
      assert messages == init + [last];
    }
  }

  // ---------------------------------------------------------------- the winning card

  /** Card `k` has the highest revision of its id, and is the last card with it. */
  ghost predicate Wins(cards: seq<Card>, k: nat)
    requires k < |cards|
  {
    forall j | 0 <= j < |cards| && cards[j].id == cards[k].id ::
      cards[j].revision <= cards[k].revision && (j > k ==> cards[j].revision < cards[k].revision)
  }

  ghost predicate Winner(cards: seq<Card>, id: string, card: Card) {
    exists k :: 0 <= k < |cards| && Wins(cards, k) && cards[k] == card && card.id == id
  }

  /** The reference meaning of a resolved transcript: every id that occurs, with its winning card. */
  ghost predicate IsLatest(cards: seq<Card>, latest: map<string, Card>) {
    && (forall k | 0 <= k < |cards| :: cards[k].id in latest)
    && (forall id | id in latest :: Winner(cards, id, latest[id]))
  }

  /** The first card of `a` comes before any card of `b`. */
  ghost predicate Precedes(cards: seq<Card>, a: string, b: string) {
    exists k :: 0 <= k < |cards| && cards[k].id == a && forall j | 0 <= j <= k :: cards[j].id != b
  }

  ghost predicate InFirstOrder(cards: seq<Card>, ids: seq<string>) {
    forall i, j | 0 <= i < j < |ids| :: ids[i] != ids[j] && Precedes(cards, ids[i], ids[j])
  }

  /** Ids in the order a JavaScript Map first saw them. */
  ghost predicate IsKeyOrder(cards: seq<Card>, order: seq<string>, keys: set<string>) {
    (forall id :: id in order <==> id in keys) && InFirstOrder(cards, order)
  }

  lemma PrecedesStill(cards: seq<Card>, card: Card, a: string, b: string)
    requires Precedes(cards, a, b)
    ensures Precedes(cards + [card], a, b)
  {
    var k :| 0 <= k < |cards| && cards[k].id == a && forall j | 0 <= j <= k :: cards[j].id != b;
    assert (cards + [card])[k] == cards[k];
  }

  lemma PrecedesNew(cards: seq<Card>, latest: map<string, Card>, card: Card, a: string)
    requires IsLatest(cards, latest) && a in latest && card.id !in latest
    ensures Precedes(cards + [card], a, card.id)
  {
    assert Winner(cards, a, latest[a]);
    var k :| 0 <= k < |cards| && Wins(cards, k) && cards[k] == latest[a] && cards[k].id == a;
    assert (cards + [card])[k] == cards[k];
  }

  lemma Superseded(cards: seq<Card>, k: nat, card: Card)
    requires k < |cards| && Wins(cards, k)
    requires card.id != cards[k].id || card.revision < cards[k].revision
    ensures Wins(cards + [card], k)
  {
    var longer := cards + [card];
    forall j | 0 <= j < |longer| && longer[j].id == longer[k].id
      ensures longer[j].revision <= longer[k].revision && (j > k ==> longer[j].revision < longer[k].revision)
    {
      if j < |cards| { assert longer[j] == cards[j]; }
    }
  }

  /** What the reader does with one more card. */
  function Offer(latest: map<string, Card>, card: Card): map<string, Card> {
    if card.id !in latest || card.revision >= latest[card.id].revision then latest[card.id := card] else latest
  }

  lemma OfferTaken(cards: seq<Card>, latest: map<string, Card>, card: Card)
    requires IsLatest(cards, latest)
    requires card.id in latest ==> card.revision >= latest[card.id].revision
    ensures Winner(cards + [card], card.id, card)
  {
    var longer := cards + [card];
    forall j | 0 <= j < |longer| && longer[j].id == card.id ensures longer[j].revision <= card.revision {
      if j < |cards| {
        assert cards[j].id in latest && Winner(cards, card.id, latest[card.id]);
        var k :| 0 <= k < |cards| && Wins(cards, k) && cards[k] == latest[card.id] && cards[k].id == card.id;
      }
    }
    assert Wins(longer, |cards|);
  }

  /** One card arriving after the others: it wins unless the current winner is newer. */
  lemma OfferKeepsLatest(cards: seq<Card>, latest: map<string, Card>, card: Card)
    requires IsLatest(cards, latest)
    ensures IsLatest(cards + [card], Offer(latest, card))
  {
    var longer, next := cards + [card], Offer(latest, card);
    forall id | id in next ensures Winner(longer, id, next[id]) {
      if id == card.id && next[id] == card {
        OfferTaken(cards, latest, card);
      } else {
        assert Winner(cards, id, latest[id]);
        var k :| 0 <= k < |cards| && Wins(cards, k) && cards[k] == latest[id] && cards[k].id == id;
        Superseded(cards, k, card);
        assert longer[k] == cards[k];
      }
    }
    forall k | 0 <= k < |longer| ensures longer[k].id in next {
      if k < |cards| { assert longer[k] == cards[k]; }
    }
  }

  /** A key a Map meets for the first time goes to the end of its order; the others stay where they are. */
  function OfferOrder(latest: map<string, Card>, order: seq<string>, card: Card): seq<string> {
    if card.id in latest then order else order + [card.id]
  }

  lemma FirstOrderNext(cards: seq<Card>, latest: map<string, Card>, order: seq<string>, card: Card)
    requires IsLatest(cards, latest) && InFirstOrder(cards, order) && forall id :: id in order <==> id in latest
    ensures InFirstOrder(cards + [card], OfferOrder(latest, order, card))
  {
    var next := OfferOrder(latest, order, card);
    forall i, j | 0 <= i < j < |next| ensures next[i] != next[j] && Precedes(cards + [card], next[i], next[j]) {
      if j < |order| {
        PrecedesStill(cards, card, order[i], order[j]);
      } else {
        assert order[i] in order;
        PrecedesNew(cards, latest, card, order[i]);
      }
    }
  }

  lemma OfferKeepsOrder(cards: seq<Card>, latest: map<string, Card>, order: seq<string>, card: Card)
    requires IsLatest(cards, latest) && IsKeyOrder(cards, order, latest.Keys)
    ensures IsKeyOrder(cards + [card], OfferOrder(latest, order, card), Offer(latest, card).Keys)
  {
    FirstOrderNext(cards, latest, order, card);
  }

  method LatestCards(messages: seq<Message>) returns (latest: map<string, Card>, order: seq<string>)
    ensures IsLatest(CardsIn(messages), latest)
    ensures IsKeyOrder(CardsIn(messages), order, latest.Keys)
  {
    latest, order := map[], [];
    for i := 0 to |messages|
      invariant IsLatest(CardsIn(messages[..i]), latest) && IsKeyOrder(CardsIn(messages[..i]), order, latest.Keys)
    {
      var cards := CardsInMessage(messages[i]);
      latest, order := OfferAll(CardsIn(messages[..i]), latest, order, cards);
      assert messages[..i + 1][..i] == messages[..i];
    }
    assert messages[..|messages|] == messages;
  }

  /** The reader's inner loop: the cards of one message, in order. */
  method OfferAll(ghost seen: seq<Card>, latest: map<string, Card>, order: seq<string>, cards: seq<Card>)
    returns (latest': map<string, Card>, order': seq<string>)
    requires IsLatest(seen, latest) && IsKeyOrder(seen, order, latest.Keys)
    ensures IsLatest(seen + cards, latest') && IsKeyOrder(seen + cards, order', latest'.Keys)
  {
    latest', order' := latest, order;
    ghost var sofar := seen;
    for j := 0 to |cards|
      invariant sofar == seen + cards[..j]
      invariant IsLatest(sofar, latest') && IsKeyOrder(sofar, order', latest'.Keys)
    {
      OfferKeepsLatest(sofar, latest', cards[j]);
      OfferKeepsOrder(sofar, latest', order', cards[j]);
      sofar := sofar + [cards[j]];
      latest', order' := Offer(latest', cards[j]), OfferOrder(latest', order', cards[j]);
    }
    assert cards[..|cards|] == cards;
  }

  lemma WinnersMeet(cards: seq<Card>, id: string, a: Card, b: Card)
    requires Winner(cards, id, a) && Winner(cards, id, b)
    ensures a == b
  {
    var i :| 0 <= i < |cards| && Wins(cards, i) && cards[i] == a;
    var j :| 0 <= j < |cards| && Wins(cards, j) && cards[j] == b;
  }

  lemma LatestIncluded(cards: seq<Card>, a: map<string, Card>, b: map<string, Card>)
    requires IsLatest(cards, a) && IsLatest(cards, b)
    ensures forall id | id in a :: id in b && a[id] == b[id]
  {
    forall id | id in a ensures id in b && a[id] == b[id] {
      assert Winner(cards, id, a[id]);
      assert Winner(cards, id, b[id]);
      WinnersMeet(cards, id, a[id], b[id]);
    }
  }

  /** A resolved transcript is determined by its cards. */
  lemma LatestUnique(cards: seq<Card>, a: map<string, Card>, b: map<string, Card>)
    requires IsLatest(cards, a) && IsLatest(cards, b)
    ensures a == b
  {
    LatestIncluded(cards, a, b);
    LatestIncluded(cards, b, a);
  }

  /** No id is shown at one revision in two different ways: re-sends are allowed, forks are not. */
  ghost predicate Unforked(cards: seq<Card>) {
    forall i, j | 0 <= i < |cards| && 0 <= j < |cards| && cards[i].id == cards[j].id && cards[i].revision == cards[j].revision ::
      cards[i] == cards[j]
  }

  /**
   * The order of messages, and re-sent copies of them, do not matter: two unforked
   * transcripts holding the same messages resolve to the same cards.
   */
  lemma LatestIgnoresOrder(a: seq<Message>, b: seq<Message>, la: map<string, Card>, lb: map<string, Card>)
    requires forall m :: m in a <==> m in b
    requires Unforked(CardsIn(a))
    requires IsLatest(CardsIn(a), la) && IsLatest(CardsIn(b), lb)
    ensures la == lb
  {
    CardsInCover(a, b);
    CardsInCover(b, a);
    SameCardsSameWinners(CardsIn(a), CardsIn(b), la, lb);
    assert forall id | id in lb :: id in la;
  }

  lemma SameCardsSameWinners(a: seq<Card>, b: seq<Card>, la: map<string, Card>, lb: map<string, Card>)
    requires forall c :: c in a <==> c in b
    requires Unforked(a) && IsLatest(a, la) && IsLatest(b, lb)
    ensures la == lb
  {
    forall id | id in la ensures id in lb && la[id] == lb[id] {
      assert Winner(a, id, la[id]);
      var i :| 0 <= i < |a| && Wins(a, i) && a[i] == la[id] && a[i].id == id;
      assert a[i] in b;
      assert Winner(b, id, lb[id]);
      var j :| 0 <= j < |b| && Wins(b, j) && b[j] == lb[id] && b[j].id == id;
      assert b[j] in a;
    }
    forall id | id in lb ensures id in la {
      assert Winner(b, id, lb[id]);
      var j :| 0 <= j < |b| && Wins(b, j) && b[j] == lb[id] && b[j].id == id;
      assert b[j] in a;
    }
  }

  lemma {:induction false} CardsInMember(messages: seq<Message>, i: nat, card: Card)
    requires i < |messages| && card in CardsInParts(messages[i].parts)
    ensures card in CardsIn(messages)
  {
    if i < |messages| - 1 {
      CardsInMember(messages[..|messages| - 1], i, card);
    }
  }

  lemma {:induction false} CardsInOrigin(messages: seq<Message>, card: Card) returns (i: nat)
    requires card in CardsIn(messages)
    ensures i < |messages| && card in CardsInParts(messages[i].parts)
  {
    if card in CardsInParts(messages[|messages| - 1].parts) {
      i := |messages| - 1;
    } else {
      i := CardsInOrigin(messages[..|messages| - 1], card);
    }
  }

  lemma CardsInCover(a: seq<Message>, b: seq<Message>)
    requires forall m | m in a :: m in b
    ensures forall c | c in CardsIn(a) :: c in CardsIn(b)
  {
    forall c | c in CardsIn(a) ensures c in CardsIn(b) {
      var i := CardsInOrigin(a, c);
      assert a[i] in b;
      var j :| 0 <= j < |b| && b[j] == a[i];
      CardsInMember(b, j, c);
    }
  }

  // ---------------------------------------------------------------- pinned across a summary

  datatype Pinned = Pinned(id: string, title: string, revision: int)

  function PinnedIds(pinned: seq<Pinned>): seq<string> { seq(|pinned|, i requires 0 <= i < |pinned| => pinned[i].id) }

  /**
   * Exactly the cards of a resolved transcript that are in progress, each once, with their own
   * title and revision, in the order their ids first appeared.
   */
  ghost predicate PinsLive(cards: seq<Card>, latest: map<string, Card>, pinned: seq<Pinned>) {
    && InFirstOrder(cards, PinnedIds(pinned))
    && (forall p | p in pinned ::
          && p.id in latest && latest[p.id].revision == p.revision && latest[p.id].state.Some?
          && latest[p.id].state.value.outcome == Some(InProgress) && latest[p.id].state.value.title == Some(p.title))
    && (forall id | id in latest && latest[id].state.Some? && latest[id].state.value.outcome == Some(InProgress)
                    && latest[id].state.value.title.Some? ::
          Pinned(id, latest[id].state.value.title.value, latest[id].revision) in pinned)
  }

  predicate Live(card: Card) { card.state.Some? && Open(card.state.value) && card.state.value.title.Some? }

  function PinOf(card: Card): Pinned
    requires Live(card)
  {
    Pinned(card.id, card.state.value.title.value, card.revision)
  }

  /** Every parsed state has a title, so a card is live exactly when its parsed outcome is in progress. */
  lemma LiveIsInProgress(block: Block)
    requires CardOf(block).Some?
    ensures Live(CardOf(block).value) <==> Renderable(block.state) && block.state.outcome == Some(InProgress)
  {
  }

  /** The live cards among the first `n` ids of an order. */
  ghost predicate PinsFirst(latest: map<string, Card>, order: seq<string>, n: nat, pinned: seq<Pinned>)
    requires n <= |order|
  {
    && (forall p | p in pinned :: p.id in order[..n] && p.id in latest && Live(latest[p.id]) && p == PinOf(latest[p.id]))
    && (forall k | 0 <= k < n && order[k] in latest && Live(latest[order[k]]) :: PinOf(latest[order[k]]) in pinned)
  }

  lemma PinNext(latest: map<string, Card>, order: seq<string>, n: nat, pinned: seq<Pinned>)
    requires n < |order| && order[n] in latest && latest[order[n]].id == order[n]
    requires PinsFirst(latest, order, n, pinned)
    ensures PinsFirst(latest, order, n + 1, if Live(latest[order[n]]) then pinned + [PinOf(latest[order[n]])] else pinned)
  {
    assert order[..n + 1] == order[..n] + [order[n]];
  }

  lemma PinInOrder(cards: seq<Card>, latest: map<string, Card>, order: seq<string>, n: nat, pinned: seq<Pinned>, pin: Pinned)
    requires n < |order| && pin.id == order[n] && InFirstOrder(cards, order)
    requires PinsFirst(latest, order, n, pinned) && InFirstOrder(cards, PinnedIds(pinned))
    ensures InFirstOrder(cards, PinnedIds(pinned + [pin]))
  {
    forall id | id in PinnedIds(pinned) ensures id in order[..n] {
      var k :| 0 <= k < |pinned| && PinnedIds(pinned)[k] == id;
      assert pinned[k] in pinned;
    }
    FirstOrderGrows(cards, order, n, PinnedIds(pinned));
    assert PinnedIds(pinned + [pin]) == PinnedIds(pinned) + [order[n]];
  }

  lemma FirstOrderGrows(cards: seq<Card>, order: seq<string>, n: nat, ids: seq<string>)
    requires n < |order| && InFirstOrder(cards, order) && InFirstOrder(cards, ids)
    requires forall id | id in ids :: id in order[..n]
    ensures InFirstOrder(cards, ids + [order[n]])
  {
    var longer := ids + [order[n]];
    forall i, j | 0 <= i < j < |longer| ensures longer[i] != longer[j] && Precedes(cards, longer[i], longer[j]) {
      if j == |ids| {
        assert ids[i] in ids;
        var m :| 0 <= m < n && order[m] == ids[i];
      } else {
        assert ids[i] != ids[j] && Precedes(cards, ids[i], ids[j]);
      }
    }
  }

  lemma PinsAll(cards: seq<Card>, latest: map<string, Card>, order: seq<string>, pinned: seq<Pinned>)
    requires PinsFirst(latest, order, |order|, pinned) && InFirstOrder(cards, PinnedIds(pinned))
    requires forall id | id in latest :: id in order && latest[id].id == id
    ensures PinsLive(cards, latest, pinned)
  {
    forall id | id in latest && Live(latest[id]) ensures PinOf(latest[id]) in pinned {
      assert id in order;
    }
  }

  method CollectDurableState(messages: seq<Message>) returns (pinned: seq<Pinned>)
    ensures exists latest :: IsLatest(CardsIn(messages), latest) && PinsLive(CardsIn(messages), latest, pinned)
  {
    var latest, order := LatestCards(messages);
    ghost var cards := CardsIn(messages);
    pinned := [];
    for i := 0 to |order|
      invariant PinsFirst(latest, order, i, pinned) && InFirstOrder(cards, PinnedIds(pinned))
    {
      var card := latest[order[i]];
      assert Winner(cards, order[i], card);
      PinNext(latest, order, i, pinned);
      if Live(card) {
        PinInOrder(cards, latest, order, i, pinned, PinOf(card));
        pinned := pinned + [PinOf(card)];
      }
    }
    assert forall id | id in latest :: Winner(cards, id, latest[id]);
    PinsAll(cards, latest, order, pinned);
  }

  /** A render older than one the transcript already holds changes nothing, wherever it lands. */
  lemma StaleRenderChangesNothing(before: seq<Card>, stale: Card, after: seq<Card>, newer: Card, latest: map<string, Card>)
    requires newer in before || newer in after
    requires newer.id == stale.id && stale.revision < newer.revision
    ensures IsLatest(before + after, latest) <==> IsLatest(before + [stale] + after, latest)
  {
    var short, long := before + after, before + [stale] + after;
    forall id, card ensures Winner(short, id, card) <==> Winner(long, id, card) {
      WinnerUnmoved(before, stale, after, newer, id, card);
    }
    SameIdsSeen(before, stale, after, newer, latest);
  }

  lemma SameIdsSeen(before: seq<Card>, stale: Card, after: seq<Card>, newer: Card, latest: map<string, Card>)
    requires newer in before || newer in after
    requires newer.id == stale.id
    ensures var short, long := before + after, before + [stale] + after;
      (forall k | 0 <= k < |short| :: short[k].id in latest) <==> (forall k | 0 <= k < |long| :: long[k].id in latest)
  {
    var short, long := before + after, before + [stale] + after;
    assert newer in short;
    assert forall card :: card in long <==> card in short || card == stale;
    assert (forall k | 0 <= k < |short| :: short[k].id in latest) <==> (forall card | card in short :: card.id in latest);
    assert (forall k | 0 <= k < |long| :: long[k].id in latest) <==> (forall card | card in long :: card.id in latest);
  }

  lemma WinnerUnmoved(before: seq<Card>, stale: Card, after: seq<Card>, newer: Card, id: string, card: Card)
    requires newer in before || newer in after
    requires newer.id == stale.id && stale.revision < newer.revision
    ensures Winner(before + after, id, card) <==> Winner(before + [stale] + after, id, card)
  {
    if Winner(before + after, id, card) { WinnerStays(before, stale, after, newer, id, card); }
    if Winner(before + [stale] + after, id, card) { WinnerWas(before, stale, after, newer, id, card); }
  }

  lemma WinnerStays(before: seq<Card>, stale: Card, after: seq<Card>, newer: Card, id: string, card: Card)
    requires newer in before || newer in after
    requires newer.id == stale.id && stale.revision < newer.revision
    requires Winner(before + after, id, card)
    ensures Winner(before + [stale] + after, id, card)
  {
    var short, long := before + after, before + [stale] + after;
    var k :| 0 <= k < |short| && Wins(short, k) && short[k] == card && card.id == id;
    WinnerMovesUp(before, stale, after, newer, k);
    assert long[if k < |before| then k else k + 1] == card;
  }

  lemma WinnerWas(before: seq<Card>, stale: Card, after: seq<Card>, newer: Card, id: string, card: Card)
    requires newer in before || newer in after
    requires newer.id == stale.id && stale.revision < newer.revision
    requires Winner(before + [stale] + after, id, card)
    ensures Winner(before + after, id, card)
  {
    var long := before + [stale] + after;
    WinnerNotStale(before, stale, after, newer);
    var l :| 0 <= l < |long| && Wins(long, l) && long[l] == card && card.id == id;
    WinnerMovesDown(before, stale, after, l);
  }

  lemma WinnerNotStale(before: seq<Card>, stale: Card, after: seq<Card>, newer: Card)
    requires newer in before || newer in after
    requires newer.id == stale.id && stale.revision < newer.revision
    ensures !Wins(before + [stale] + after, |before|)
  {
    var long := before + [stale] + after;
    assert newer in long && long[|before|] == stale;
  }

  lemma WinnerMovesUp(before: seq<Card>, stale: Card, after: seq<Card>, newer: Card, k: nat)
    requires newer in before || newer in after
    requires newer.id == stale.id && stale.revision < newer.revision
    requires k < |before + after| && Wins(before + after, k)
    ensures Wins(before + [stale] + after, if k < |before| then k else k + 1)
  {
    var short, long := before + after, before + [stale] + after;
    var l := if k < |before| then k else k + 1;
    assert newer in short;
    var n :| 0 <= n < |short| && short[n] == newer;
    assert long[l] == short[k];
    forall j | 0 <= j < |long| && long[j].id == long[l].id
      ensures long[j].revision <= long[l].revision && (j > l ==> long[j].revision < long[l].revision)
    {
      var i := if j == |before| then n else if j < |before| then j else j - 1;
      assert short[i].id == short[k].id;
    }
  }

  lemma WinnerMovesDown(before: seq<Card>, stale: Card, after: seq<Card>, l: nat)
    requires l < |before + [stale] + after| && l != |before| && Wins(before + [stale] + after, l)
    ensures Winner(before + after, (before + [stale] + after)[l].id, (before + [stale] + after)[l])
  {
    var short, long := before + after, before + [stale] + after;
    var k := if l < |before| then l else l - 1;
    assert long[l] == short[k];
    forall i | 0 <= i < |short| && short[i].id == short[k].id
      ensures short[i].revision <= short[k].revision && (i > k ==> short[i].revision < short[k].revision)
    {
      var j := if i < |before| then i else i + 1;
      assert long[j] == short[i];
    }
    assert Wins(short, k);
  }
}
