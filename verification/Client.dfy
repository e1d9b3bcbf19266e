/** The client's own loops: bounded retries, and the three-query scan for an order. */
module Client {
  import opened Wrappers
  import opened Domain
  import opened Submission
  import opened Runs

  // ----- Retries -------------------------------------------------------------------------

  datatype Failure = Status(code: int) | BadBody | RetriesExhausted(last: Reply)

  function Decisive(reply: Reply): Result<Reply, Failure>
    requires !Retryable(reply)
  {
    match reply
    case Refused(code) => Err(Status(code))
    case Garbled => Err(BadBody)
    case _ => Ok(reply)
  }

  /** A timeout, a throttled call or a failing server; worth another attempt. */
  predicate IsTransient(reply: Reply) {
    match reply
    case TimedOut => true
    case Refused(code) => code == 429 || code == 500 || code == 502 || code == 503 || code == 504
    case _ => false
  }

  /** `_request`, given the reply each attempt would get. */
  method Request(maxRetries: nat, replies: seq<Reply>) returns (outcome: Result<Reply, Failure>, attempts: nat)
    requires |replies| > maxRetries
    ensures 1 <= attempts <= maxRetries + 1
    ensures forall k :: 0 <= k < attempts - 1 ==> IsTransient(replies[k])
    ensures IsTransient(replies[attempts - 1]) ==>
      attempts == maxRetries + 1 && outcome == Err(RetriesExhausted(replies[attempts - 1]))
    ensures !IsTransient(replies[attempts - 1]) ==>
      match replies[attempts - 1]
      case Refused(code) => outcome == Err(Status(code))
      case Garbled => outcome == Err(BadBody)
      case reply => outcome == Ok(reply)
  {
    var lastError := TimedOut;
    attempts := 0;
    while attempts <= maxRetries
      invariant 0 <= attempts <= maxRetries + 1
      invariant forall k :: 0 <= k < attempts ==> Retryable(replies[k])
      invariant attempts > 0 ==> lastError == replies[attempts - 1]
    {
      var reply := replies[attempts];
      attempts := attempts + 1;
      if !Retryable(reply) {
        return Decisive(reply), attempts;
      }
      lastError := reply;
    }
    outcome := Err(RetriesExhausted(lastError));
  }

  /** The protocol's client fed the same replies one by one. */
  function PostAll(maxRetries: nat, w: World, replies: seq<Reply>): World {
    if replies == [] then w
    else
      var before := PostAll(maxRetries, w, replies[..|replies| - 1]);
      if before.client.Posting? then AfterPost(maxRetries, before, replies[|replies| - 1]) else before
  }

  /** While the replies are retryable the protocol keeps posting under the same client order ID. */
  lemma {:induction false} RetriesKeepTheId(maxRetries: nat, w: World, replies: seq<Reply>)
    requires w.client.Posting? && w.client.attempt == 0 && w.client.id in w.sent
    requires |replies| <= maxRetries && forall k :: 0 <= k < |replies| ==> Retryable(replies[k])
    ensures PostAll(maxRetries, w, replies) == w.(client := Posting(w.client.id, |replies|))
  {
    if replies != [] {
      var n := |replies| - 1;
      RetriesKeepTheId(maxRetries, w, replies[..n]);
      assert Retryable(replies[n]);
      assert w.sent + {w.client.id} == w.sent;
    }
  }

  /** The loop and the protocol agree: success is recorded, 409 starts the scan, everything else leaves
      the row unknown, and every attempt carried the same client order ID. */
  lemma RequestIsTheProtocol(maxRetries: nat, w: World, replies: seq<Reply>)
    requires w.client.Posting? && w.client.attempt == 0 && w.client.id in w.sent
    requires 0 < |replies| <= maxRetries + 1
    requires forall k :: 0 <= k < |replies| - 1 ==> Retryable(replies[k])
    requires var last := replies[|replies| - 1]; !last.Listed? && (Retryable(last) ==> |replies| == maxRetries + 1)
    ensures var last, id := replies[|replies| - 1], w.client.id;
      PostAll(maxRetries, w, replies) ==
        if last.Accepted? then w.(client := Recording(id, V2Result(last.orderId, last.seen)))
        else if last == Refused(409) then w.(client := Scanning(id, 0, 0, Placing))
        else GivesUp(w, id)
  {
    RetriesKeepTheId(maxRetries, w, replies[..|replies| - 1]);
  }

  // ----- The scan -----------------------------------------------------------------------------

  /** The book can only have moved forward between the queries. */
  ghost predicate Lifecycle(views: seq<Book>) {
    forall i, j :: 0 <= i < j < |views| ==> BookAdvances(views[i], views[j])
  }

  predicate OnPage(book: Book, orderId: string, clientOrderId: string, stage: Stage) {
    orderId in book && book[orderId].clientOrderId == clientOrderId && book[orderId].stage == stage
  }

  ghost predicate FirstFoundAt(views: seq<Book>, clientOrderId: string, found: Placement, k: nat)
    requires |views| == |SCAN|
  {
    && k < |SCAN|
    && OnPage(views[k], found.orderId, clientOrderId, SCAN[k])
    && (found.status == Filled <==> views[k][found.orderId].stage == Executed)
    && (found.status == Canceled <==> views[k][found.orderId].stage == Withdrawn)
    && (found.status == Resting <==> views[k][found.orderId].stage == AtRest)
    && forall j, o :: 0 <= j < k ==> !OnPage(views[j], o, clientOrderId, SCAN[j])
  }

  /** `find_order`: query k sees the book as it is then. It reports an order where the first query that
      lists it found it, and it reports every order that existed when the scan began. */
  method FindOrder(views: seq<Book>, clientOrderId: string) returns (found: Option<Placement>)
    requires |views| == |SCAN|
    ensures found.None? ==> forall k, o :: 0 <= k < |SCAN| ==> !OnPage(views[k], o, clientOrderId, SCAN[k])
    ensures found.Some? ==> exists k :: FirstFoundAt(views, clientOrderId, found.value, k)
    ensures Lifecycle(views) && Exists(views[0], clientOrderId) ==> found.Some?
  {
    found := None;
    for k := 0 to |SCAN|
      invariant found == None
      invariant forall j, o :: 0 <= j < k ==> !OnPage(views[j], o, clientOrderId, SCAN[j])
    {
      if o :| o in views[k] && OnPage(views[k], o, clientOrderId, SCAN[k]) {
        found := Some(LegacyResult(o, SCAN[k]));
        assert FirstFoundAt(views, clientOrderId, found.value, k);
        return;
      }
    }
    if Lifecycle(views) && Exists(views[0], clientOrderId) {
      NoOrderSlipsThrough(views, clientOrderId);
    }
  }

  lemma NoOrderSlipsThrough(views: seq<Book>, clientOrderId: string)
    requires |views| == |SCAN| && Lifecycle(views) && Exists(views[0], clientOrderId)
    ensures exists k, o :: 0 <= k < |SCAN| && OnPage(views[k], o, clientOrderId, SCAN[k])
  {
    var o :| Holds(views[0], o, clientOrderId);
    assert BookAdvances(views[0], views[1]) && BookAdvances(views[0], views[2]) && BookAdvances(views[1], views[2]);
    match views[0][o].stage
    case AtRest =>
      assert OnPage(views[0], o, clientOrderId, SCAN[0]);
    case Executed =>
      assert OnPage(views[1], o, clientOrderId, SCAN[1]);
    case Withdrawn =>
      assert OnPage(views[2], o, clientOrderId, SCAN[2]);
  }

  /** A possible history of one order, seen at three times. */
  ghost predicate History(stages: seq<Stage>) {
    && |stages| == 3
    && forall i, j :: 0 <= i < j < 3 && stages[i] != AtRest ==> stages[j] == stages[i]
  }

  /** Asking for the stages in this order catches the order whatever it does meanwhile. */
  ghost predicate Catches(order: seq<Stage>) {
    |order| == 3 && forall stages :: History(stages) ==> exists k :: 0 <= k < 3 && stages[k] == order[k]
  }

  /** Of the six orders of asking, exactly those that ask for resting orders first are safe. */
  lemma ScanOrderMatters(order: seq<Stage>)
    requires |order| == 3 && order[0] != order[1] && order[1] != order[2] && order[0] != order[2]
    ensures Catches(order) <==> order[0] == AtRest
  {
    if order[0] == AtRest {
      forall stages | History(stages)
        ensures exists k :: 0 <= k < 3 && stages[k] == order[k]
      {
        CaughtBy(order, stages);
      }
    } else {
      var missed := [AtRest, order[0], order[0]];
      assert History(missed);
      assert forall k :: 0 <= k < 3 ==> missed[k] != order[k];
    }
  }

  lemma CaughtBy(order: seq<Stage>, stages: seq<Stage>)
    requires |order| == 3 && order[0] != order[1] && order[1] != order[2] && order[0] != order[2]
    requires order[0] == AtRest && History(stages)
    ensures stages[0] == order[0] || stages[1] == order[1] || stages[2] == order[2]
  {
  }

  // ----- What stays ambiguous --------------------------------------------------------------------

  lemma Onward(maxRetries: nat, w: World, next: World)
    requires Reachable(maxRetries, w) && (ClientStep(maxRetries, w, next) || ExchangeStep(w, next))
    ensures Reachable(maxRetries, next)
  {
    var n: nat :| Star(Moves(maxRetries), Opening(), w, n);
    StarExtends(Moves(maxRetries), Opening(), w, next, n);
  }

  /** The world after an intent was journaled and posted, before the exchange has seen it. */
  ghost function Posted(id: string): World {
    World(map[], {id}, map[id := Entry(Pending, None)], Posting(id, 0))
  }

  /** The same world once the exchange has accepted the order. */
  ghost function Taken(id: string): World {
    Posted(id).(book := map["1" := ExchangeOrder(id, AtRest, 0, 1)])
  }

  lemma PostedIsReachable(maxRetries: nat, id: string)
    ensures Reachable(maxRetries, Posted(id))
  {
    var journaled := World(map[], {}, map[id := Entry(Pending, None)], Journaled(id));
    assert Star(Moves(maxRetries), Opening(), Opening(), 0);
    assert Journals(Opening(), journaled, id);
    Onward(maxRetries, Opening(), journaled);
    assert Posts(journaled, Posted(id));
    Onward(maxRetries, journaled, Posted(id));
  }

  lemma TakenIsReachable(maxRetries: nat, id: string)
    ensures Reachable(maxRetries, Taken(id))
  {
    PostedIsReachable(maxRetries, id);
    assert Accepts(Posted(id), Taken(id), "1", ExchangeOrder(id, AtRest, 0, 1));
    Onward(maxRetries, Posted(id), Taken(id));
  }

  /** A response that cannot be read says nothing of the order. */
  lemma LostResponseLeavesUnknown(maxRetries: nat, w: World, id: string)
    requires Reachable(maxRetries, w) && w.client == Posting(id, 0)
    ensures Reachable(maxRetries, GivesUp(w, id))
  {
    assert GetsPostReply(maxRetries, w, GivesUp(w, id), Garbled);
    Onward(maxRetries, w, GivesUp(w, id));
  }

  /** Pending and unknown rows are truly ambiguous: each occurs both with and without an order. */
  lemma PendingAndUnknownAreAmbiguous(maxRetries: nat, id: string)
    ensures Reachable(maxRetries, Posted(id)) && Reachable(maxRetries, Taken(id))
    ensures Posted(id).journal == Taken(id).journal == map[id := Entry(Pending, None)]
    ensures !Exists(Posted(id).book, id) && Exists(Taken(id).book, id)
    ensures Reachable(maxRetries, GivesUp(Posted(id), id)) && Reachable(maxRetries, GivesUp(Taken(id), id))
    ensures GivesUp(Posted(id), id).journal == GivesUp(Taken(id), id).journal == map[id := Entry(Unknown, Some(""))]
    ensures !Exists(GivesUp(Posted(id), id).book, id) && Exists(GivesUp(Taken(id), id).book, id)
  {
    PostedIsReachable(maxRetries, id);
    TakenIsReachable(maxRetries, id);
    LostResponseLeavesUnknown(maxRetries, Posted(id), id);
    LostResponseLeavesUnknown(maxRetries, Taken(id), id);
    assert Holds(Taken(id).book, "1", id);
  }
}
