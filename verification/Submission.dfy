/** Submitting an order over an unreliable network: the client, its journal, and an exchange that moves
    on its own between the client's calls. */
module Submission {
  import opened Wrappers
  import opened Domain
  import opened Runs

  // ----- The exchange -------------------------------------------------------------------

  datatype Stage = AtRest | Executed | Withdrawn

  /** An order in the exchange's book, stored under its order ID. `remaining` counts the contracts still unfilled,
      also of an order that was withdrawn. */
  datatype ExchangeOrder = ExchangeOrder(clientOrderId: string, stage: Stage, filled: nat, remaining: nat) {
    ghost predicate Valid() {
      && (stage == AtRest ==> remaining > 0)
      && (stage == Executed <==> remaining == 0 && filled > 0)
    }

    /** The order lifecycle: a resting order may move on, a finished one stays as it is. */
    ghost predicate EvolvesTo(later: ExchangeOrder) {
      && later.clientOrderId == clientOrderId
      && later.filled >= filled
      && later.remaining <= remaining
      && (stage != AtRest ==> later.stage == stage)
    }
  }

  type Book = map<string, ExchangeOrder>

  ghost predicate Holds(book: Book, orderId: string, clientOrderId: string) {
    orderId in book && book[orderId].clientOrderId == clientOrderId
  }

  ghost predicate Exists(book: Book, clientOrderId: string) {
    exists orderId :: Holds(book, orderId, clientOrderId)
  }

  // ----- Replies and results ---------------------------------------------------------------

  /** What one HTTP attempt comes back with. A POST that succeeds reports the order as it was when accepted. */
  datatype Reply =
    | TimedOut
    | Refused(code: int)
    | Garbled
    | Accepted(orderId: string, seen: ExchangeOrder)
    | Listed

  const RETRYABLE := {429, 500, 502, 503, 504}

  predicate Retryable(reply: Reply) {
    reply.TimedOut? || (reply.Refused? && reply.code in RETRYABLE)
  }

  datatype Placement = Placement(orderId: string, status: Status)

  function V2Result(orderId: string, seen: ExchangeOrder): Placement {
    Placement(orderId, if seen.remaining == 0 && seen.filled > 0 then Filled else Resting)
  }

  function LegacyResult(orderId: string, stage: Stage): Placement {
    Placement(orderId, match stage case AtRest => Resting case Executed => Filled case Withdrawn => Canceled)
  }

  /** The order in which `find_order` asks for the three kinds of order. */
  const SCAN: seq<Stage> := [AtRest, Executed, Withdrawn]

  // ----- The client -------------------------------------------------------------------------

  datatype Entry = Entry(status: Status, orderId: Option<string>)

  datatype Purpose = Placing | Refreshing

  /** Where the trading process is between two effects on the journal or the network. */
  datatype Client =
    | Dead
    | Idle
    | Journaled(id: string)
    | Posting(id: string, attempt: nat)
    | Scanning(id: string, query: nat, attempt: nat, purpose: Purpose)
    | Recording(id: string, result: Placement)
    | Deleting(orderId: string, attempt: nat)
    | Marking(orderId: string)

  /** `sent` holds the client order IDs of every POST ever put on the network; any of them may still arrive. */
  datatype World = World(book: Book, sent: set<string>, journal: map<string, Entry>, client: Client)

  function Opening(): World {
    World(map[], {}, map[], Idle)
  }

  /** record_intent: the row is durable before anything is sent. */
  ghost predicate Journals(w: World, next: World, id: string) {
    && w.client == Idle
    && id !in w.journal
    && next == w.(journal := w.journal[id := Entry(Pending, None)], client := Journaled(id))
  }

  /** reject_intent, after a failed risk check. */
  ghost predicate Declines(w: World, next: World) {
    && w.client.Journaled? && w.client.id in w.journal
    && next == w.(journal := w.journal[w.client.id := w.journal[w.client.id].(status := Rejected)], client := Idle)
  }

  ghost predicate Posts(w: World, next: World) {
    && w.client.Journaled?
    && next == w.(sent := w.sent + {w.client.id}, client := Posting(w.client.id, 0))
  }

  function GivesUp(w: World, id: string): World {
    w.(journal := w.journal[id := Entry(Unknown, Some(""))], client := Idle)
  }

  /** The reaction of `_request` and `place_order` to one reply to the POST. */
  function AfterPost(maxRetries: nat, w: World, reply: Reply): World
    requires w.client.Posting?
  {
    var id, attempt := w.client.id, w.client.attempt;
    if reply.Accepted? then w.(client := Recording(id, V2Result(reply.orderId, reply.seen)))
    else if reply == Refused(409) then w.(client := Scanning(id, 0, 0, Placing))
    else if Retryable(reply) && attempt < maxRetries then w.(sent := w.sent + {id}, client := Posting(id, attempt + 1))
    else GivesUp(w, id)
  }

  /** What the exchange may truthfully answer: success and 409 only for an order it holds. */
  ghost predicate Truthful(book: Book, id: string, reply: Reply) {
    && (reply.Accepted? ==> Holds(book, reply.orderId, id) && reply.seen.Valid() && reply.seen.EvolvesTo(book[reply.orderId]))
    && (reply == Refused(409) ==> Exists(book, id))
  }

  ghost predicate GetsPostReply(maxRetries: nat, w: World, next: World, reply: Reply) {
    && w.client.Posting?
    && !reply.Listed?
    && Truthful(w.book, w.client.id, reply)
    && next == AfterPost(maxRetries, w, reply)
  }

  /** What a failed scan means: an ambiguous placement, or a refresh that changes nothing. */
  function ScanFails(w: World, id: string, purpose: Purpose): World {
    if purpose.Placing? then GivesUp(w, id) else w.(client := Idle)
  }

  /** What a scan that found the order does with it; a refresh ignores an order that still rests. */
  function ScanFinds(w: World, id: string, purpose: Purpose, result: Placement): World {
    if purpose.Refreshing? && result.status == Resting then w.(client := Idle) else w.(client := Recording(id, result))
  }

  /** One query of the scan finds the order if and only if the exchange holds it at that stage now. */
  ghost predicate QueriesPage(w: World, next: World) {
    && w.client.Scanning? && w.client.query < |SCAN|
    && var id, query, purpose := w.client.id, w.client.query, w.client.purpose;
      if exists orderId :: Holds(w.book, orderId, id) && w.book[orderId].stage == SCAN[query] then
        exists orderId :: Holds(w.book, orderId, id) && w.book[orderId].stage == SCAN[query]
          && next == ScanFinds(w, id, purpose, LegacyResult(orderId, SCAN[query]))
      else next == w.(client := Scanning(id, query + 1, 0, purpose))
  }

  /** All three queries came back without the order. */
  ghost predicate ScanMisses(w: World, next: World) {
    && w.client.Scanning? && w.client.query >= |SCAN|
    && next == ScanFails(w, w.client.id, w.client.purpose)
  }

  ghost predicate QueryFails(maxRetries: nat, w: World, next: World, reply: Reply) {
    && w.client.Scanning? && w.client.query < |SCAN|
    && !reply.Accepted? && !reply.Listed?
    && next ==
      if Retryable(reply) && w.client.attempt < maxRetries then w.(client := Scanning(w.client.id, w.client.query, w.client.attempt + 1, w.client.purpose))
      else ScanFails(w, w.client.id, w.client.purpose)
  }

  /** record_result. */
  ghost predicate Records(w: World, next: World) {
    && w.client.Recording?
    && next == w.(journal := w.journal[w.client.id := Entry(w.client.result.status, Some(w.client.result.orderId))], client := Idle)
  }

  /** reconcile starts a scan for a row that is believed to rest. */
  ghost predicate Refreshes(w: World, next: World, id: string) {
    && w.client == Idle
    && id in w.journal && w.journal[id].status == Resting
    && next == w.(client := Scanning(id, 0, 0, Refreshing))
  }

  /** cancel_managed_orders picks a resting row's order ID. */
  ghost predicate StartsCancel(w: World, next: World, id: string) {
    && w.client == Idle
    && id in w.journal && w.journal[id].status == Resting && w.journal[id].orderId.Some?
    && next == w.(client := Deleting(w.journal[id].orderId.value, 0))
  }

  /** A DELETE succeeds only once the order is withdrawn; any other outcome changes nothing locally. */
  ghost predicate GetsDeleteReply(maxRetries: nat, w: World, next: World, reply: Reply) {
    && w.client.Deleting?
    && (reply.Listed? ==> w.client.orderId in w.book ==> w.book[w.client.orderId].stage == Withdrawn)
    && next ==
      if reply.Listed? then w.(client := Marking(w.client.orderId))
      else if Retryable(reply) && w.client.attempt < maxRetries then w.(client := Deleting(w.client.orderId, w.client.attempt + 1))
      else w.(client := Idle)
  }

  /** mark_canceled updates every row with the order ID. */
  ghost predicate Marks(w: World, next: World) {
    && w.client.Marking?
    && next.book == w.book && next.sent == w.sent && next.client == Idle
    && next.journal == map id | id in w.journal ::
        if w.journal[id].orderId == Some(w.client.orderId) then w.journal[id].(status := Canceled) else w.journal[id]
  }

  ghost predicate Crashes(w: World, next: World) {
    next == w.(client := Dead)
  }

  ghost predicate Restarts(w: World, next: World) {
    w.client == Dead && next == w.(client := Idle)
  }

  // ----- The exchange's own steps -----------------------------------------------------------------

  /** A POST on the network reaches the exchange, late or more than once; a client order ID already in
      the book is not accepted again. */
  ghost predicate Accepts(w: World, next: World, orderId: string, order: ExchangeOrder) {
    && order.clientOrderId in w.sent
    && !Exists(w.book, order.clientOrderId)
    && orderId != "" && orderId !in w.book
    && order.Valid()
    && next == w.(book := w.book[orderId := order])
  }

  /** An order fills or is canceled in the book. */
  ghost predicate Evolves(w: World, next: World, orderId: string, order: ExchangeOrder) {
    && orderId in w.book
    && w.book[orderId].EvolvesTo(order) && order.Valid()
    && next == w.(book := w.book[orderId := order])
  }

  ghost predicate ClientStep(maxRetries: nat, w: World, next: World) {
    || (exists id :: Journals(w, next, id))
    || Declines(w, next)
    || Posts(w, next)
    || (exists reply :: GetsPostReply(maxRetries, w, next, reply))
    || QueriesPage(w, next)
    || ScanMisses(w, next)
    || (exists reply :: QueryFails(maxRetries, w, next, reply))
    || Records(w, next)
    || (exists id :: Refreshes(w, next, id))
    || (exists id :: StartsCancel(w, next, id))
    || (exists reply :: GetsDeleteReply(maxRetries, w, next, reply))
    || Marks(w, next)
    || Crashes(w, next)
    || Restarts(w, next)
  }

  ghost predicate ExchangeStep(w: World, next: World) {
    || (exists orderId, order :: Accepts(w, next, orderId, order))
    || (exists orderId, order :: Evolves(w, next, orderId, order))
  }

  ghost function Moves(maxRetries: nat): (World, World) -> bool {
    (w, next) => ClientStep(maxRetries, w, next) || ExchangeStep(w, next)
  }

  ghost predicate Reachable(maxRetries: nat, w: World) {
    exists n: nat :: Star(Moves(maxRetries), Opening(), w, n)
  }

  // ----- The invariant ---------------------------------------------------------------------------------

  /** One order per client order ID, and only for POSTs that were sent. */
  ghost predicate BookOk(w: World) {
    && (forall o :: o in w.book ==> o != "" && w.book[o].Valid() && w.book[o].clientOrderId in w.sent)
    && (forall o, p :: o in w.book && p in w.book && w.book[o].clientOrderId == w.book[p].clientOrderId ==> o == p)
  }

  /** Every POST has a row written first, and a row's status tells what is known of its order. */
  ghost predicate EntryOk(w: World, id: string)
    requires id in w.journal
  {
    var entry := w.journal[id];
    match entry.status
    case Pending => entry.orderId == None
    case Unknown => entry.orderId == Some("")
    case Rejected => id !in w.sent && entry.orderId == None
    case Resting => entry.orderId.Some? && Holds(w.book, entry.orderId.value, id)
    case Filled => entry.orderId.Some? && Holds(w.book, entry.orderId.value, id) && w.book[entry.orderId.value].stage == Executed
    case Canceled => entry.orderId.Some? && Holds(w.book, entry.orderId.value, id) && w.book[entry.orderId.value].stage == Withdrawn
  }

  ghost predicate JournalOk(w: World) {
    && (forall id :: id in w.sent ==> id in w.journal)
    && (forall id :: id in w.journal ==> EntryOk(w, id))
  }

  /** The scan has ruled out the stages it has asked for: the order has left each of them for good. */
  ghost predicate ScanOk(w: World, id: string, query: nat) {
    && Exists(w.book, id)
    && query < |SCAN|
    && forall o :: Holds(w.book, o, id) ==> w.book[o].stage !in SCAN[..query]
  }

  ghost predicate ClientOk(w: World) {
    match w.client
    case Dead => true
    case Idle => true
    case Journaled(id) => id in w.journal && w.journal[id].status == Pending && id !in w.sent
    case Posting(id, _) => id in w.sent && id in w.journal && w.journal[id].status == Pending
    case Scanning(id, query, _, purpose) =>
      && id in w.sent && id in w.journal
      && w.journal[id].status == (if purpose.Placing? then Pending else Resting)
      && ScanOk(w, id, query)
    case Recording(id, result) =>
      && id in w.sent && id in w.journal && w.journal[id].status in {Pending, Resting}
      && Holds(w.book, result.orderId, id)
      && result.status in {Resting, Filled, Canceled}
      && (result.status == Filled ==> w.book[result.orderId].stage == Executed)
      && (result.status == Canceled ==> w.book[result.orderId].stage == Withdrawn)
    case Deleting(orderId, _) => exists id :: Holds(w.book, orderId, id) && id in w.journal && w.journal[id] == Entry(Resting, Some(orderId))
    case Marking(orderId) =>
      && orderId in w.book && w.book[orderId].stage == Withdrawn
      && exists id :: Holds(w.book, orderId, id) && id in w.journal && w.journal[id] == Entry(Resting, Some(orderId))
  }

  ghost predicate Inv(w: World) {
    BookOk(w) && JournalOk(w) && ClientOk(w)
  }

  // ----- Every step keeps it -----------------------------------------------------------------------------

  /** Changing the client's own state, or its row, touches nothing else. */
  lemma RowUpdateKeepsJournal(w: World, id: string, entry: Entry)
    requires JournalOk(w) && id in w.journal
    requires EntryOk(w.(journal := w.journal[id := entry]), id)
    ensures JournalOk(w.(journal := w.journal[id := entry]))
  {
    var next := w.(journal := w.journal[id := entry]);
    forall other | other in next.journal
      ensures EntryOk(next, other)
    {
      if other != id {
        assert EntryOk(w, other);
      }
    }
  }

  lemma JournalsKeeps(w: World, next: World, id: string)
    requires Inv(w) && Journals(w, next, id)
    ensures Inv(next)
  {
    forall other | other in next.journal
      ensures EntryOk(next, other)
    {
      if other != id {
        assert EntryOk(w, other);
      }
    }
  }

  lemma DeclinesKeeps(w: World, next: World)
    requires Inv(w) && Declines(w, next)
    ensures Inv(next)
  {
    assert EntryOk(w, w.client.id);
    RowUpdateKeepsJournal(w, w.client.id, next.journal[w.client.id]);
  }

  lemma PostsKeeps(w: World, next: World)
    requires Inv(w) && Posts(w, next)
    ensures Inv(next)
  {
    forall other | other in next.journal
      ensures EntryOk(next, other)
    {
      assert EntryOk(w, other);
    }
  }

  lemma GivesUpKeeps(w: World, id: string)
    requires BookOk(w) && JournalOk(w) && id in w.journal
    ensures Inv(GivesUp(w, id))
  {
    RowUpdateKeepsJournal(w, id, Entry(Unknown, Some("")));
    var next := w.(journal := w.journal[id := Entry(Unknown, Some(""))]);
    forall other | other in next.journal
      ensures EntryOk(GivesUp(w, id), other)
    {
      assert EntryOk(next, other);
    }
  }

  lemma ClientChangeKeeps(w: World, client: Client)
    requires BookOk(w) && JournalOk(w) && ClientOk(w.(client := client))
    ensures Inv(w.(client := client))
  {
    forall id | id in w.journal
      ensures EntryOk(w.(client := client), id)
    {
      assert EntryOk(w, id);
    }
  }

  lemma GetsPostReplyKeeps(maxRetries: nat, w: World, next: World, reply: Reply)
    requires Inv(w) && GetsPostReply(maxRetries, w, next, reply)
    ensures Inv(next)
  {
    var id := w.client.id;
    if reply.Accepted? || reply == Refused(409) {
      ClientChangeKeeps(w, next.client);
    } else if Retryable(reply) && w.client.attempt < maxRetries {
      assert next == w.(client := next.client);
      ClientChangeKeeps(w, next.client);
    } else {
      GivesUpKeeps(w, id);
    }
  }

  /** An accepted POST is recorded under the exchange's order ID, as filled exactly if it was executed at once. */
  lemma AcceptedPostRecords(maxRetries: nat, w: World, next: World, reply: Reply)
    requires GetsPostReply(maxRetries, w, next, reply) && reply.Accepted?
    ensures next.client.Recording? && next.client.id == w.client.id && next.client.result.orderId == reply.orderId
    ensures next.client.result.status == if reply.seen.stage == Executed then Filled else Resting
    ensures next.journal == w.journal && next.book == w.book && next.sent == w.sent
  {
  }

  /** A scan that finds the order is recorded as what the exchange holds: executed as filled, withdrawn as
      canceled, at rest as resting, which a refresh ignores. */
  lemma FoundOrderRecords(w: World, next: World)
    requires QueriesPage(w, next) && next.client.Recording?
    ensures next.client.id == w.client.id && Holds(w.book, next.client.result.orderId, w.client.id)
    ensures next.client.result.status == Filled <==> w.book[next.client.result.orderId].stage == Executed
    ensures next.client.result.status == Canceled <==> w.book[next.client.result.orderId].stage == Withdrawn
    ensures next.client.result.status == Resting <==> w.book[next.client.result.orderId].stage == AtRest
    ensures next.client.result.status == Resting ==> w.client.purpose.Placing?
  {
  }

  lemma ScanFailsKeeps(w: World, id: string, purpose: Purpose)
    requires BookOk(w) && JournalOk(w) && id in w.journal
    ensures Inv(ScanFails(w, id, purpose))
  {
    if purpose.Placing? {
      GivesUpKeeps(w, id);
    } else {
      ClientChangeKeeps(w, Idle);
    }
  }

  /** A query that does not find the order rules its stage out for good; the last one must find it. */
  lemma MissedQueryAdvances(w: World, id: string, query: nat)
    requires BookOk(w) && ScanOk(w, id, query)
    requires !exists orderId :: Holds(w.book, orderId, id) && w.book[orderId].stage == SCAN[query]
    ensures ScanOk(w, id, query + 1)
  {
    var held :| Holds(w.book, held, id);
    assert w.book[held].stage != SCAN[query];
    assert SCAN[..query + 1] == SCAN[..query] + [SCAN[query]];
    if query + 1 == |SCAN| {
      assert SCAN[..query + 1] == SCAN;
      assert w.book[held].stage in SCAN by {
        StageInScan(w.book[held].stage);
      }
      assert false;
    }
  }

  lemma StageInScan(stage: Stage)
    ensures stage in SCAN
  {
    assert SCAN[0] == AtRest && SCAN[1] == Executed && SCAN[2] == Withdrawn;
  }

  lemma QueriesPageKeeps(w: World, next: World)
    requires Inv(w) && QueriesPage(w, next)
    ensures Inv(next)
  {
    var id, query := w.client.id, w.client.query;
    if exists orderId :: Holds(w.book, orderId, id) && w.book[orderId].stage == SCAN[query] {
      ClientChangeKeeps(w, next.client);
    } else {
      MissedQueryAdvances(w, id, query);
      ClientChangeKeeps(w, next.client);
    }
  }

  lemma QueryFailsKeeps(maxRetries: nat, w: World, next: World, reply: Reply)
    requires Inv(w) && QueryFails(maxRetries, w, next, reply)
    ensures Inv(next)
  {
    if Retryable(reply) && w.client.attempt < maxRetries {
      ClientChangeKeeps(w, next.client);
    } else {
      ScanFailsKeeps(w, w.client.id, w.client.purpose);
    }
  }

  lemma RecordsKeeps(w: World, next: World)
    requires Inv(w) && Records(w, next)
    ensures Inv(next)
  {
    var id := w.client.id;
    var recorded := w.(journal := next.journal);
    RowUpdateKeepsJournal(w, id, next.journal[id]);
    ClientChangeKeeps(recorded, Idle);
  }

  lemma RefreshesKeeps(w: World, next: World, id: string)
    requires Inv(w) && Refreshes(w, next, id)
    ensures Inv(next)
  {
    assert EntryOk(w, id);
    assert Exists(w.book, id);
    ClientChangeKeeps(w, next.client);
  }

  lemma StartsCancelKeeps(w: World, next: World, id: string)
    requires Inv(w) && StartsCancel(w, next, id)
    ensures Inv(next)
  {
    assert EntryOk(w, id);
    ClientChangeKeeps(w, next.client);
  }

  lemma GetsDeleteReplyKeeps(maxRetries: nat, w: World, next: World, reply: Reply)
    requires Inv(w) && GetsDeleteReply(maxRetries, w, next, reply)
    ensures Inv(next)
  {
    ClientChangeKeeps(w, next.client);
  }

  /** Only one row carries an order ID of the exchange, so cancellation marks only that row. */
  lemma MarksKeeps(w: World, next: World)
    requires Inv(w) && Marks(w, next)
    ensures Inv(next)
  {
    forall id | id in next.journal
      ensures EntryOk(next, id)
    {
      assert EntryOk(w, id);
    }
  }

  /** The update by order ID cancels one row, the one that rested under that ID, and leaves all others. */
  lemma MarksOneRow(w: World, next: World)
    requires Inv(w) && Marks(w, next)
    ensures exists id ::
      && id in w.journal && w.journal[id] == Entry(Resting, Some(w.client.orderId))
      && next.journal == w.journal[id := Entry(Canceled, Some(w.client.orderId))]
  {
    var orderId := w.client.orderId;
    var id :| Holds(w.book, orderId, id) && id in w.journal && w.journal[id] == Entry(Resting, Some(orderId));
    forall other | other in w.journal && other != id
      ensures w.journal[other].orderId != Some(orderId)
    {
      assert EntryOk(w, other);
    }
    assert next.journal == w.journal[id := Entry(Canceled, Some(orderId))];
  }

  lemma AcceptsKeeps(w: World, next: World, orderId: string, order: ExchangeOrder)
    requires Inv(w) && Accepts(w, next, orderId, order)
    ensures Inv(next)
  {
    BookGrows(w, next, orderId);
    forall o | o in w.book
      ensures w.book[o].clientOrderId != order.clientOrderId
    {
      assert !Holds(w.book, o, order.clientOrderId);
    }
  }

  /** The exchange's steps keep every order where it is known to be, and never un-finish one. */
  ghost predicate BookAdvances(book: Book, next: Book) {
    forall o :: o in book ==> o in next && book[o].EvolvesTo(next[o])
  }

  lemma BookGrows(w: World, next: World, orderId: string)
    requires Inv(w) && BookAdvances(w.book, next.book) && next == w.(book := next.book)
    requires next.book.Keys == w.book.Keys + {orderId}
    requires orderId !in w.book ==> orderId in next.book && !Exists(w.book, next.book[orderId].clientOrderId)
    ensures JournalOk(next) && ClientOk(next)
  {
    forall id | id in next.journal
      ensures EntryOk(next, id)
    {
      assert EntryOk(w, id);
    }
    if w.client.Scanning? {
      var id, query := w.client.id, w.client.query;
      var held :| Holds(w.book, held, id);
      assert Holds(next.book, held, id);
      forall o | Holds(next.book, o, id)
        ensures next.book[o].stage !in SCAN[..query]
      {
        assert o in w.book;
        AdvancedStageStaysOut(w.book[o], next.book[o], query);
      }
    }
    if w.client.Deleting? {
      var id :| Holds(w.book, w.client.orderId, id) && id in w.journal && w.journal[id] == Entry(Resting, Some(w.client.orderId));
      assert Holds(next.book, w.client.orderId, id);
    }
    if w.client.Marking? {
      var id :| Holds(w.book, w.client.orderId, id) && id in w.journal && w.journal[id] == Entry(Resting, Some(w.client.orderId));
      assert Holds(next.book, w.client.orderId, id);
    }
  }

  /** The scan follows the lifecycle: an order never moves back to a stage already asked for. */
  lemma AdvancedStageStaysOut(order: ExchangeOrder, later: ExchangeOrder, query: nat)
    requires query < |SCAN| && order.EvolvesTo(later) && order.stage !in SCAN[..query]
    ensures later.stage !in SCAN[..query]
  {
    if query > 0 {
      assert SCAN[..query][0] == AtRest;
    }
  }

  lemma EvolvesKeeps(w: World, next: World, orderId: string, order: ExchangeOrder)
    requires Inv(w) && Evolves(w, next, orderId, order)
    ensures Inv(next)
  {
    BookGrows(w, next, orderId);
  }

  lemma ClientStepKeeps(maxRetries: nat, w: World, next: World)
    requires Inv(w) && ClientStep(maxRetries, w, next)
    ensures Inv(next)
  {
    if id :| Journals(w, next, id) {
      JournalsKeeps(w, next, id);
    } else if Declines(w, next) {
      DeclinesKeeps(w, next);
    } else if Posts(w, next) {
      PostsKeeps(w, next);
    } else if reply :| GetsPostReply(maxRetries, w, next, reply) {
      GetsPostReplyKeeps(maxRetries, w, next, reply);
    } else if QueriesPage(w, next) {
      QueriesPageKeeps(w, next);
    } else if reply :| QueryFails(maxRetries, w, next, reply) {
      QueryFailsKeeps(maxRetries, w, next, reply);
    } else if Records(w, next) {
      RecordsKeeps(w, next);
    } else if id :| Refreshes(w, next, id) {
      RefreshesKeeps(w, next, id);
    } else if id :| StartsCancel(w, next, id) {
      StartsCancelKeeps(w, next, id);
    } else if reply :| GetsDeleteReply(maxRetries, w, next, reply) {
      GetsDeleteReplyKeeps(maxRetries, w, next, reply);
    } else if Marks(w, next) {
      MarksKeeps(w, next);
    } else {
      ClientChangeKeeps(w, next.client);
    }
  }

  lemma ExchangeStepKeeps(w: World, next: World)
    requires Inv(w) && ExchangeStep(w, next)
    ensures Inv(next)
  {
    if orderId, order :| Accepts(w, next, orderId, order) {
      AcceptsKeeps(w, next, orderId, order);
    } else {
      var orderId, order :| Evolves(w, next, orderId, order);
      EvolvesKeeps(w, next, orderId, order);
    }
  }

  lemma MoveKeepsInv(maxRetries: nat, w: World, next: World)
    requires Inv(w) && Moves(maxRetries)(w, next)
    ensures Inv(next)
  {
    if ClientStep(maxRetries, w, next) {
      ClientStepKeeps(maxRetries, w, next);
    } else {
      ExchangeStepKeeps(w, next);
    }
  }

  lemma StarKeepsInv(maxRetries: nat, from: World, w: World, n: nat)
    requires Inv(from) && Star(Moves(maxRetries), from, w, n)
    ensures Inv(w)
  {
    forall s, t | Inv(s) && Moves(maxRetries)(s, t)
      ensures Inv(t)
    {
      MoveKeepsInv(maxRetries, s, t);
    }
    StarKeeps(Moves(maxRetries), Inv, from, w, n);
  }

  lemma ReachableKeepsInv(maxRetries: nat, w: World)
    requires Reachable(maxRetries, w)
    ensures Inv(w)
  {
    var n: nat :| Star(Moves(maxRetries), Opening(), w, n);
    StarKeepsInv(maxRetries, Opening(), w, n);
  }

  // ----- What the journal says about the exchange ----------------------------------------------------------

  /** A filled, resting or canceled row names an order of its own. */
  ghost predicate NamesItsOrder(w: World, id: string)
    requires id in w.journal
  {
    var entry := w.journal[id];
    && entry.orderId.Some? && entry.orderId.value != ""
    && Holds(w.book, entry.orderId.value, id)
    && (entry.status == Filled ==> w.book[entry.orderId.value].stage == Executed)
    && (entry.status == Canceled ==> w.book[entry.orderId.value].stage == Withdrawn)
    && forall other :: other in w.journal && w.journal[other].orderId == entry.orderId ==> other == id
  }

  /** Over every run with lost, late and repeated messages, retries and crashes: at most one order per row;
      every order's row was written first; a rejected row has no order; a filled, resting or canceled row
      names its one order, and that of a filled row is executed, that of a canceled row withdrawn. */
  lemma JournalTellsTheTruth(maxRetries: nat, w: World, id: string)
    requires Reachable(maxRetries, w)
    ensures forall o, p :: Holds(w.book, o, id) && Holds(w.book, p, id) ==> o == p
    ensures Exists(w.book, id) ==> id in w.journal && w.journal[id].status != Rejected
    ensures id in w.journal && w.journal[id].status in {Filled, Resting, Canceled} ==> NamesItsOrder(w, id)
  {
    ReachableKeepsInv(maxRetries, w);
    if id in w.journal {
      assert EntryOk(w, id);
      forall other | other in w.journal && w.journal[other].orderId == w.journal[id].orderId
        && w.journal[id].status in {Filled, Resting, Canceled}
        ensures other == id
      {
        assert EntryOk(w, other);
      }
    }
  }

  predicate Finished(status: Status) {
    status in {Filled, Rejected, Canceled}
  }

  ghost predicate FinishedStay(w: World, next: World) {
    forall id :: id in w.journal && Finished(w.journal[id].status) ==> id in next.journal && next.journal[id] == w.journal[id]
  }

  /** A finished row is final: no step of client or exchange changes it. */
  lemma FinishedRowsStay(maxRetries: nat, w: World, next: World)
    requires Inv(w) && Moves(maxRetries)(w, next)
    ensures FinishedStay(w, next)
  {
    if ClientStep(maxRetries, w, next) {
      ClientFinishesNothing(maxRetries, w, next);
    }
  }

  lemma ClientFinishesNothing(maxRetries: nat, w: World, next: World)
    requires Inv(w) && ClientStep(maxRetries, w, next)
    ensures FinishedStay(w, next)
  {
    if reply :| GetsPostReply(maxRetries, w, next, reply) {
      PostReplyFinishesNothing(maxRetries, w, next, reply);
    } else if QueriesPage(w, next) {
      PageFinishesNothing(w, next);
    } else if reply :| QueryFails(maxRetries, w, next, reply) {
      QueryFailureFinishesNothing(maxRetries, w, next, reply);
    } else if Records(w, next) {
      RecordFinishesNothing(w, next);
    } else if Marks(w, next) {
      MarksOnlyResting(w, next);
    } else if ScanMisses(w, next) {
      assert false;
    } else {
      OtherStepsFinishNothing(maxRetries, w, next);
    }
  }

  lemma PageFinishesNothing(w: World, next: World)
    requires QueriesPage(w, next)
    ensures FinishedStay(w, next)
  {
    assert next.journal == w.journal;
  }

  /** Journaling, declining, posting, refreshing, canceling, dying and restarting. */
  lemma OtherStepsFinishNothing(maxRetries: nat, w: World, next: World)
    requires Inv(w)
    requires (exists id :: Journals(w, next, id)) || Declines(w, next) || Posts(w, next) || (exists id :: Refreshes(w, next, id))
      || (exists id :: StartsCancel(w, next, id)) || (exists reply :: GetsDeleteReply(maxRetries, w, next, reply))
      || Crashes(w, next) || Restarts(w, next)
    ensures FinishedStay(w, next)
  {
  }

  lemma RecordFinishesNothing(w: World, next: World)
    requires Inv(w) && Records(w, next)
    ensures FinishedStay(w, next)
  {
  }

  lemma PostReplyFinishesNothing(maxRetries: nat, w: World, next: World, reply: Reply)
    requires Inv(w) && GetsPostReply(maxRetries, w, next, reply)
    ensures FinishedStay(w, next)
  {
  }

  lemma QueryFailureFinishesNothing(maxRetries: nat, w: World, next: World, reply: Reply)
    requires Inv(w) && QueryFails(maxRetries, w, next, reply)
    ensures FinishedStay(w, next)
  {
  }

  lemma MarksOnlyResting(w: World, next: World)
    requires Inv(w) && Marks(w, next)
    ensures FinishedStay(w, next)
  {
    forall id | id in w.journal && Finished(w.journal[id].status)
      ensures next.journal[id] == w.journal[id]
    {
      assert EntryOk(w, id);
    }
  }

  lemma RejectedHasNoOrder(w: World, id: string)
    requires Inv(w) && id in w.journal && w.journal[id].status == Rejected
    ensures !Exists(w.book, id)
  {
    assert EntryOk(w, id);
  }

  ghost predicate Keeps(w: World, id: string, entry: Entry) {
    Inv(w) && id in w.journal && w.journal[id] == entry
  }

  lemma MoveKeepsFinished(maxRetries: nat, w: World, next: World, id: string, entry: Entry)
    requires Keeps(w, id, entry) && Finished(entry.status) && Moves(maxRetries)(w, next)
    ensures Keeps(next, id, entry)
  {
    MoveKeepsInv(maxRetries, w, next);
    FinishedRowsStay(maxRetries, w, next);
  }

  lemma FinishedRowIsFinal(maxRetries: nat, w: World, later: World, n: nat, id: string)
    requires Star(Moves(maxRetries), w, later, n)
    requires Inv(w) && id in w.journal && Finished(w.journal[id].status)
    ensures Keeps(later, id, w.journal[id])
  {
    var entry := w.journal[id];
    var kept := (v: World) => Keeps(v, id, entry);
    forall s, t | kept(s) && Moves(maxRetries)(s, t)
      ensures kept(t)
    {
      MoveKeepsFinished(maxRetries, s, t, id, entry);
    }
    StarKeeps(Moves(maxRetries), kept, w, later, n);
  }

  /** A rejected intent never trades, however the run goes on. */
  lemma RejectedNeverTrades(maxRetries: nat, w: World, later: World, n: nat, id: string)
    requires Inv(w) && Star(Moves(maxRetries), w, later, n)
    requires id in w.journal && w.journal[id].status == Rejected
    ensures id in later.journal && later.journal[id].status == Rejected && !Exists(later.book, id)
  {
    FinishedRowIsFinal(maxRetries, w, later, n, id);
    RejectedHasNoOrder(later, id);
  }

  /** Reconciliation after a 409, and every refresh, finds the order: the error branch for an order that
      could not be reconciled is never taken. */
  lemma ScanNeverMisses(maxRetries: nat, w: World, next: World)
    requires Reachable(maxRetries, w)
    ensures !ScanMisses(w, next)
  {
    ReachableKeepsInv(maxRetries, w);
  }
}
