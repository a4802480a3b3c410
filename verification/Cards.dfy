/**
 * The administrator's client reading the card list page by page, while the list may change on the
 * server and the session may end between any two steps.
 */
module Cards {
  import opened Options

  datatype Card = Card(id: string, details: string)

  /** What the server holds when a page is read; `revision` is empty on servers that give none. */
  datatype Server = Server(cards: seq<Card>, revision: string)

  datatype Page = Page(cards: seq<Card>, revision: string)

  const LIMIT := 500

  function PageOf(server: Server, offset: nat): Page {
    var from := if offset < |server.cards| then offset else |server.cards|;
    var to := if offset + LIMIT < |server.cards| then offset + LIMIT else |server.cards|;
    Page(server.cards[from..to], server.revision)
  }

  /** A page is the next 500 cards, or what is left of them. */
  lemma PageExactly(server: Server, offset: nat)
    ensures var page, left := PageOf(server, offset), |server.cards| - offset;
            && page.revision == server.revision
            && |page.cards| == (if left < 0 then 0 else if left < 500 then left else 500)
            && forall i | 0 <= i < |page.cards| :: page.cards[i] == server.cards[offset + i]
  {
  }

  /** What else may run at an await: the session is cleared, or a login clears it and starts another. */
  datatype Action = Clear | Login

  datatype Status = Answered | Unauthorized | Failed

  /**
   * One request: what runs before it is sent, until its answer, until its body is read, and before
   * the caller goes on; how it is answered and by which state of the server.
   */
  datatype Turn = Turn(before: seq<Action>, during: seq<Action>, reading: seq<Action>, later: seq<Action>,
    status: Status, server: Server)

  datatype Reply = Received(page: Page) | NotLoggedIn | SessionChanged | Refused

  /** Whether a session is on after these: the last of them decides. */
  predicate TokenAfter(token: bool, actions: seq<Action>) {
    if actions == [] then token else actions[|actions| - 1].Login?
  }

  predicate Quiet(t: Turn) { t.before == [] && t.during == [] && t.reading == [] && t.later == [] }

  datatype Result = Listed(cards: seq<Card>) | Stopped(why: Problem)
  datatype Problem = Request(reply: Reply) | Ended | NoRevision | ListChanged | DuplicateCard

  /** A revision identifies the contents of the list. */
  ghost predicate RevisionsIdentify(turns: nat -> Turn) {
    forall i, j | turns(i).server.revision == turns(j).server.revision :: turns(i).server.cards == turns(j).server.cards
  }

  predicate ValidIds(cards: seq<Card>) {
    forall i | 0 <= i < |cards| :: cards[i].id != "" && forall j | 0 <= j < i :: cards[j].id != cards[i].id
  }

  /** Nothing came between, and the list was as on the first page. */
  predicate Smooth(turns: nat -> Turn, k: nat) {
    Quiet(turns(k)) && turns(k).status.Answered? && turns(k).server.revision == turns(0).server.revision
  }

  /** Every page that a list of this length needs. */
  ghost predicate AllSmooth(turns: nat -> Turn, n: nat) {
    turns(0).server.revision != "" && forall k: nat | k <= n / LIMIT :: Smooth(turns, k)
  }

  class Client {
    var csrfToken: bool
    var sessionVersion: nat
    var requests: set<nat>
    var aborted: set<nat>

    constructor ()
      ensures !csrfToken && sessionVersion == 0 && requests == {} && aborted == {}
    {
      csrfToken, sessionVersion, requests, aborted := false, 0, {}, {};
    }

    method ClearSession()
      modifies this
      ensures !csrfToken && sessionVersion == old(sessionVersion) + 1
      ensures requests == {} && aborted == old(aborted) + old(requests)
    {
      csrfToken, sessionVersion, aborted, requests := false, sessionVersion + 1, aborted + requests, {};
    }

    method Others(actions: seq<Action>)
      modifies this
      ensures sessionVersion == old(sessionVersion) + |actions|
      ensures requests == if actions == [] then old(requests) else {}
      ensures aborted == if actions == [] then old(aborted) else old(aborted) + old(requests)
      ensures csrfToken == TokenAfter(old(csrfToken), actions)
    {
      for i := 0 to |actions|
        invariant sessionVersion == old(sessionVersion) + i && requests == if i == 0 then old(requests) else {}
        invariant aborted == if i == 0 then old(aborted) else old(aborted) + old(requests)
        invariant csrfToken == TokenAfter(old(csrfToken), actions[..i])
      {
        ClearSession();
        if actions[i].Login? { csrfToken := true; }
        assert actions[..i + 1] == actions[..i] + [actions[i]];
      }
      assert actions[..|actions|] == actions;
    }

    /** A page is returned exactly if the session is on and stays the one it was asked in. */
    method Request(turn: Turn, offset: nat, controller: nat) returns (r: Reply)
      modifies this
      ensures sessionVersion >= old(sessionVersion) + |turn.before|
      ensures r.NotLoggedIn? <==> !TokenAfter(old(csrfToken), turn.before)
      ensures r.Received? <==>
          TokenAfter(old(csrfToken), turn.before) && turn.during == [] && turn.reading == [] && turn.status.Answered?
      ensures r.Received? ==>
          csrfToken && sessionVersion == old(sessionVersion) + |turn.before| && r.page == PageOf(turn.server, offset)
      ensures r.SessionChanged? <==>
                && TokenAfter(old(csrfToken), turn.before)
                && (turn.during != [] || (turn.status.Answered? && turn.reading != []))
      // Unauthorized ends the session; whatever else ends it while the request is out aborts the request.
      ensures r.Refused? ==>
                sessionVersion == old(sessionVersion) + |turn.before| + (if turn.status.Unauthorized? then 1 else 0)
                && csrfToken == !turn.status.Unauthorized?
      ensures r.SessionChanged? || (r.Refused? && turn.status.Unauthorized?) ==> controller in aborted
      ensures controller !in old(requests) ==> controller !in requests
    {
      Others(turn.before);
      if !csrfToken { return NotLoggedIn; }
      var version := sessionVersion;
      requests := requests + {controller};
      Others(turn.during);
      if version != sessionVersion {
        r := SessionChanged;
      } else if turn.status.Answered? {
        Others(turn.reading);
        r := if version != sessionVersion then SessionChanged else Received(PageOf(turn.server, offset));
      } else {
        if turn.status.Unauthorized? { ClearSession(); }
        r := Refused;
      }
      requests := requests - {controller};
    }

    /**
     * The list is returned exactly if every page needed came without anything between; it is then
     * the server's list, whole, without duplicates, and the session is the one it was asked in.
     */
    method GetCards(turns: nat -> Turn) returns (r: Result)
      requires RevisionsIdentify(turns)
      modifies this
      ensures r.Listed? ==> r.cards == turns(0).server.cards && ValidIds(r.cards) && AllSmooth(turns, |r.cards|)
      ensures r.Listed? ==> sessionVersion == old(sessionVersion) && csrfToken
      ensures var cards := turns(0).server.cards; old(csrfToken) && ValidIds(cards) && AllSmooth(turns, |cards|) ==>
          r.Listed?
    {
      ghost var all := turns(0).server.cards;
      var cards: seq<Card>, seen: set<string> := [], {};
      var version := sessionVersion;
      var revision := None;
      var k := 0;
      while true
        invariant 0 <= k && IsReadTo(all, k, cards, seen) && revision == RevisionAt(turns, k)
        invariant sessionVersion == version == old(sessionVersion) && csrfToken == (k > 0 || old(csrfToken))
        invariant k > 0 ==> turns(0).server.revision != ""
        invariant forall j | 0 <= j < k :: Smooth(turns, j)
        decreases |all| - LIMIT * k
      {
        var why, last;
        assert AllSmooth(turns, |all|) ==> Smooth(turns, k);
        why, cards, seen, revision, last := ReadPage(turns, k, version, cards, seen, revision);
        if why.Some? { return Stopped(why.value); }
        if last { return Listed(cards); }
        k := k + 1;
      }
    }

    /** One page, asked for, checked and added to those there are; `last`: none follows. */
    method ReadPage(turns: nat -> Turn, k: nat, version: nat, had: seq<Card>, ids: set<string>, first: Option<string>)
      returns (why: Option<Problem>, cards: seq<Card>, seen: set<string>, revision: Option<string>, last: bool)
      requires RevisionsIdentify(turns) && IsReadTo(turns(0).server.cards, k, had, ids) && first == RevisionAt(turns, k)
      requires version == sessionVersion
      modifies this
      ensures why.None? ==> Smooth(turns, k) && turns(0).server.revision != "" && csrfToken && sessionVersion == version
      ensures why.None? && last ==>
          var all := turns(0).server.cards; |all| / LIMIT == k && cards == all && ValidIds(all)
      ensures why.None? && !last ==>
          IsReadTo(turns(0).server.cards, k + 1, cards, seen) && revision == RevisionAt(turns, k + 1)
      ensures old(csrfToken) && Smooth(turns, k) && turns(0).server.revision != ""
              && ValidIds(turns(0).server.cards) ==>
                why.None?
    {
      var turn := turns(k);
      cards, seen, revision, last := had, ids, first, false;
      var reply := Request(turn, LIMIT * k, k);
      if !reply.Received? { why := Some(Problem.Request(reply)); return; }
      Others(turn.later);
      if version != sessionVersion { why := Some(Ended); return; }
      var page := reply.page;
      if page.revision == "" { why := Some(NoRevision); return; }
      if first.Some? && first.value != page.revision { why := Some(ListChanged); return; }
      revision := Some(page.revision);
      ghost var all := turns(0).server.cards;
      assert turn.server.cards == all;
      PageRead(all, k, page.cards);
      Prefix(all, LIMIT * k + |page.cards|);
      var valid;
      cards, seen, valid := Add(had, ids, page.cards);
      why := if valid then None else Some(DuplicateCard);
      last := |page.cards| < LIMIT;
    }
  }

  /** The cards of the first `k` pages, all full. */
  ghost predicate IsReadTo(all: seq<Card>, k: nat, cards: seq<Card>, seen: set<string>) {
    LIMIT * k <= |all| && cards == all[..LIMIT * k] && seen == Ids(cards) && ValidIds(cards)
  }

  /** The revision the first page had, once it is read. */
  function RevisionAt(turns: nat -> Turn, k: nat): Option<string> {
    if k == 0 then None else Some(turns(0).server.revision)
  }

  function Ids(cards: seq<Card>): set<string> { set c | c in cards :: c.id }

  /** Each card of a page, if it is not there already. */
  method Add(had: seq<Card>, ids: set<string>, page: seq<Card>)
    returns (cards: seq<Card>, seen: set<string>, valid: bool)
    requires ids == Ids(had) && ValidIds(had)
    ensures valid <==> ValidIds(had + page)
    ensures valid ==> cards == had + page && seen == Ids(cards)
  {
    cards, seen := had, ids;
    for i := 0 to |page|
      invariant cards == had + page[..i] && seen == Ids(cards) && ValidIds(cards)
    {
      var card := page[i];
      assert had + page[..i + 1] == cards + [card];
      if card.id == "" || card.id in seen {
        Invalid(cards, card);
        Longer(cards + [card], page[i + 1..]);
        assert had + page == cards + [card] + page[i + 1..];
        return cards, seen, false;
      }
      assert forall c | c in cards + [card] :: c in cards || c == card;
      seen := seen + {card.id};
      cards := cards + [card];
    }
    assert page[..|page|] == page;
    valid := true;
  }

  lemma Invalid(cards: seq<Card>, card: Card)
    requires card.id == "" || card.id in Ids(cards)
    ensures !ValidIds(cards + [card])
  {
    var all := cards + [card];
    assert all[|cards|] == card;
    if card.id in Ids(cards) {
      var j :| 0 <= j < |cards| && cards[j].id == card.id;
      assert all[j].id == all[|cards|].id;
    }
  }

  lemma Longer(a: seq<Card>, b: seq<Card>)
    ensures ValidIds(a + b) ==> ValidIds(a)
  {
    assert forall i | 0 <= i < |a| :: (a + b)[i] == a[i];
  }

  lemma Prefix(all: seq<Card>, n: nat)
    requires n <= |all|
    ensures ValidIds(all) ==> ValidIds(all[..n])
  {
    Longer(all[..n], all[n..]);
    assert all == all[..n] + all[n..];
  }

  lemma PageFollows(all: seq<Card>, offset: nat, page: seq<Card>)
    requires offset <= |all| && page == PageOf(Server(all, ""), offset).cards
    ensures offset + |page| <= |all| && all[..offset] + page == all[..offset + |page|]
    ensures |page| == LIMIT || (|page| < LIMIT && offset + |page| == |all|)
  {
  }

  /** After a page, the cards up to the next one, or all of them. */
  lemma PageRead(all: seq<Card>, k: nat, page: seq<Card>)
    requires LIMIT * k <= |all| && page == PageOf(Server(all, ""), LIMIT * k).cards
    ensures |page| <= LIMIT && LIMIT * k + |page| <= |all|
    ensures all[..LIMIT * k] + page == all[..LIMIT * k + |page|]
    ensures |page| < LIMIT ==> all[..LIMIT * k] + page == all && |all| / LIMIT == k
    ensures |page| == LIMIT ==> all[..LIMIT * k] + page == all[..LIMIT * (k + 1)]
  {
    PageFollows(all, LIMIT * k, page);
    assert LIMIT * (k + 1) == LIMIT * k + LIMIT;
  }
}
