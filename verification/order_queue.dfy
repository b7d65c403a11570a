/** What a poll hands over: the oldest fifty orders of the endpoint's queue,
    oldest first, never an expired one; and how a backlog drains. */
module OrderQueue {
  import opened PyText
  import opened Orders

  // ── sorting ──

  predicate SortedRows(orders: seq<Order>, rows: seq<nat>)
    requires InTable(rows, |orders|)
  {
    forall i, j | 0 <= i < j < |rows| :: orders[rows[i]].createdAt <= orders[rows[j]].createdAt
  }

  lemma {:induction false} InsertSorted(orders: seq<Order>, sorted: seq<nat>, i: nat)
    requires i < |orders| && InTable(sorted, |orders|)
    requires SortedRows(orders, sorted) && DistinctRows(sorted) && i !in sorted
    ensures SortedRows(orders, Insert(orders, sorted, i)) && DistinctRows(Insert(orders, sorted, i))
  {
    if sorted == [] {
    } else if orders[sorted[|sorted| - 1]].createdAt <= orders[i].createdAt {
      AppendSorted(orders, sorted, i);
    } else {
      var n := |sorted| - 1;
      var front := Insert(orders, sorted[..n], i);
      InsertSorted(orders, sorted[..n], i);
      BehindAll(orders, sorted, i, front);
      AppendSorted(orders, front, sorted[n]);
    }
  }

  /** The last row of a sorted list still comes last after an earlier row has
      been inserted before it. */
  lemma BehindAll(orders: seq<Order>, sorted: seq<nat>, i: nat, front: seq<nat>)
    requires i < |orders| && InTable(sorted, |orders|) && InTable(front, |orders|) && sorted != []
    requires SortedRows(orders, sorted) && DistinctRows(sorted) && i !in sorted
    requires orders[sorted[|sorted| - 1]].createdAt > orders[i].createdAt
    requires forall k :: k in front <==> k in sorted[..|sorted| - 1] || k == i
    ensures forall k | 0 <= k < |front| ::
              front[k] != sorted[|sorted| - 1] && orders[front[k]].createdAt <= orders[sorted[|sorted| - 1]].createdAt
  {
    forall k | 0 <= k < |front|
      ensures front[k] != sorted[|sorted| - 1] && orders[front[k]].createdAt <= orders[sorted[|sorted| - 1]].createdAt
    {
      assert front[k] in front;
    }
  }

  lemma AppendSorted(orders: seq<Order>, front: seq<nat>, last: nat)
    requires InTable(front, |orders|) && last < |orders| && SortedRows(orders, front) && DistinctRows(front)
    requires last !in front && (front != [] ==> orders[front[|front| - 1]].createdAt <= orders[last].createdAt)
    ensures SortedRows(orders, front + [last]) && DistinctRows(front + [last])
  {
  }

  lemma {:induction false} SortSorts(orders: seq<Order>, rows: seq<nat>)
    requires InTable(rows, |orders|) && DistinctRows(rows)
    ensures SortedRows(orders, SortByCreation(orders, rows)) && DistinctRows(SortByCreation(orders, rows))
  {
    if rows != [] {
      var n := |rows| - 1;
      SortSorts(orders, rows[..n]);
      InsertSorted(orders, SortByCreation(orders, rows[..n]), rows[n]);
    }
  }

  lemma {:induction false} QueuedDistinct(orders: seq<Order>, endpoint: string, n: nat)
    requires n <= |orders|
    ensures DistinctRows(QueuedRows(orders, endpoint, n))
  {
    if n > 0 {
      QueuedDistinct(orders, endpoint, n - 1);
    }
  }

  lemma PendingDistinct(orders: seq<Order>, endpoint: string)
    ensures DistinctRows(PendingRows(orders, endpoint)) && SortedRows(orders, PendingRows(orders, endpoint))
  {
    hide SortByCreation, QueuedRows, IsQueued;
    QueuedDistinct(orders, endpoint, |orders|);
    SortSorts(orders, QueuedRows(orders, endpoint, |orders|));
    FirstRows(orders, SortByCreation(orders, QueuedRows(orders, endpoint, |orders|)), 50);
    hide SortedRows, DistinctRows;
  }

  lemma FirstRows(orders: seq<Order>, rows: seq<nat>, n: nat)
    requires InTable(rows, |orders|) && SortedRows(orders, rows) && DistinctRows(rows)
    ensures n <= |rows| ==> SortedRows(orders, rows[..n]) && DistinctRows(rows[..n])
  {
  }

  // ── one poll ──

  /** A poll handles the fifty oldest orders of the queue, or all of them. */
  lemma PendingOldest(orders: seq<Order>, endpoint: string, row: nat, waiting: nat)
    requires row in PendingRows(orders, endpoint)
    requires waiting < |orders| && IsQueued(orders[waiting], endpoint) && waiting !in PendingRows(orders, endpoint)
    ensures |PendingRows(orders, endpoint)| == 50
    ensures orders[row].createdAt <= orders[waiting].createdAt
  {
    var queued := QueuedRows(orders, endpoint, |orders|);
    var sorted := SortByCreation(orders, queued);
    QueuedDistinct(orders, endpoint, |orders|);
    SortSorts(orders, queued);
    assert waiting in sorted;
    var i :| 0 <= i < |PendingRows(orders, endpoint)| && PendingRows(orders, endpoint)[i] == row;
    var j :| 0 <= j < |sorted| && sorted[j] == waiting;
    assert |sorted| > BATCH && j >= BATCH;
  }

  predicate SortedItems(items: seq<Item>) {
    forall i, j | 0 <= i < j < |items| :: items[i].issuedAt <= items[j].issuedAt
  }

  /** The item carries the order as it was stored. */
  predicate Carries(p: Item, o: Order) {
    p.id == o.uid && p.action == o.action && p.target == o.target && p.alertId == o.alertId && p.issuedAt == o.createdAt
  }

  predicate InTime(o: Order, now: int) {
    o.expiresAt == None || now <= o.expiresAt.value
  }

  /** The items of a payload are the orders of the rows that are in time, and
      they keep the rows' order. */
  lemma {:induction false} PayloadFacts(orders: seq<Order>, rows: seq<nat>, now: int)
    requires InTable(rows, |orders|) && SortedRows(orders, rows)
    ensures SortedItems(Payload(orders, rows, now))
    ensures forall p :: p in Payload(orders, rows, now) <==>
              exists i | 0 <= i < |rows| :: Carries(p, orders[rows[i]]) && InTime(orders[rows[i]], now)
  {
    if rows != [] {
      var n := |rows| - 1;
      var front := Payload(orders, rows[..n], now);
      PayloadFacts(orders, rows[..n], now);
      forall k | 0 <= k < |front|
        ensures front[k].issuedAt <= orders[rows[n]].createdAt
      {
        assert front[k] in front;
      }
      var last := ItemOf(orders[rows[n]]);
      forall p
        ensures p in Payload(orders, rows, now) <==>
                exists i | 0 <= i < |rows| :: Carries(p, orders[rows[i]]) && InTime(orders[rows[i]], now)
      {
        assert Carries(p, orders[rows[n]]) <==> p == last;
        if p in front {
          var i :| 0 <= i < n && Carries(p, orders[rows[..n][i]]) && InTime(orders[rows[..n][i]], now);
          assert Carries(p, orders[rows[i]]) && InTime(orders[rows[i]], now);
        }
        if i :| 0 <= i < |rows| && Carries(p, orders[rows[i]]) && InTime(orders[rows[i]], now) && i < n {
          assert Carries(p, orders[rows[..n][i]]) && InTime(orders[rows[..n][i]], now);
        }
      }
    }
  }

  lemma HandedRow(orders: seq<Order>, endpoint: string, now: int, p: Item) returns (row: nat)
    requires p in Payload(orders, PendingRows(orders, endpoint), now)
    ensures row < |orders| && Carries(p, orders[row]) && IsQueued(orders[row], endpoint) && InTime(orders[row], now)
    ensures var o := Settled(orders, PendingRows(orders, endpoint), now)[row];
            o.status == Delivered && o.deliveredAt == Some(now)
  {
    var rows := PendingRows(orders, endpoint);
    PendingDistinct(orders, endpoint);
    PayloadFacts(orders, rows, now);
    hide IsQueued, Carries, PendingRows, Payload, SortedRows, DistinctRows;
    var i :| 0 <= i < |rows| && Carries(p, orders[rows[i]]) && InTime(orders[rows[i]], now);
    row := rows[i];
  }

  /** What an agent is handed is in creation order, was queued for it, and
      has not expired; a disabled or unknown agent is handed nothing. */
  lemma CollectedInOrder(db: Db, endpoint: string, ip: Option<string>, now: int)
    ensures var (after, agent, payload) := CollectOrders(db, endpoint, ip, now);
            && SortedItems(payload)
            && (payload != [] ==> exists i :: AgentIndex(db.agents, endpoint) == Some(i) && db.agents[i].enabled)
            && (forall p | p in payload ::
                  exists row | 0 <= row < |db.orders| ::
                    Carries(p, db.orders[row]) && IsQueued(db.orders[row], endpoint) && InTime(db.orders[row], now)
                    && after.orders[row].status == Delivered && after.orders[row].deliveredAt == Some(now))
  {
    hide IsQueued, Carries, InTime, PendingRows, Payload, Settled;
    PendingDistinct(db.orders, endpoint);
    PayloadFacts(db.orders, PendingRows(db.orders, endpoint), now);
    var (after, agent, payload) := CollectOrders(db, endpoint, ip, now);
    forall p | p in payload
      ensures exists row | 0 <= row < |db.orders| ::
                Carries(p, db.orders[row]) && IsQueued(db.orders[row], endpoint) && InTime(db.orders[row], now)
                && after.orders[row].status == Delivered && after.orders[row].deliveredAt == Some(now)
    {
      var row := HandedRow(db.orders, endpoint, now, p);
    }
  }

  predicate Polling(db: Db, endpoint: string) {
    AgentIndex(db.agents, endpoint).Some? && db.agents[AgentIndex(db.agents, endpoint).value].enabled
  }

  lemma PendingHanded(orders: seq<Order>, endpoint: string, now: int, row: nat)
    requires row < |orders| && row in PendingRows(orders, endpoint) && InTime(orders[row], now)
    ensures exists p | p in Payload(orders, PendingRows(orders, endpoint), now) :: Carries(p, orders[row])
  {
    var rows, o := PendingRows(orders, endpoint), orders[row];
    PendingDistinct(orders, endpoint);
    PayloadFacts(orders, rows, now);
    hide Payload, PendingRows, SortedRows;
    var i :| 0 <= i < |rows| && rows[i] == row;
    var p := Item(o.uid, o.action, o.target, o.alertId, o.createdAt);
    assert Carries(p, orders[rows[i]]);
  }

  /** What a poll does to each order: those it handles are handed over while
      they are in time and retired after that; no other one changes. */
  lemma PollExact(db: Db, endpoint: string, ip: Option<string>, now: int, row: nat)
    requires row < |db.orders|
    ensures var (after, agent, payload) := CollectOrders(db, endpoint, ip, now);
            var o, handled := db.orders[row], Polling(db, endpoint) && row in PendingRows(db.orders, endpoint);
            && (!handled ==> after.orders[row] == o)
            && (handled && InTime(o, now) ==>
                  && after.orders[row] == o.(status := Delivered, deliveredAt := Some(now))
                  && exists p | p in payload :: Carries(p, o))
            && (handled && !InTime(o, now) ==>
                  after.orders[row] == o.(status := Expired, completedAt := Some(now),
                                          output := Some("not collected before the order expired")))
            && after.actions == db.actions && |PendingRows(db.orders, endpoint)| <= 50
  {
    var rows := PendingRows(db.orders, endpoint);
    if row in rows && InTime(db.orders[row], now) {
      PendingHanded(db.orders, endpoint, now, row);
    }
    hide Payload, SortByCreation, QueuedRows, Carries, AgentIndex;
  }

  /** And to its agent's row: it was seen now, from there. */
  lemma PollSeen(db: Db, endpoint: string, ip: Option<string>, now: int)
    ensures var (after, agent, payload) := CollectOrders(db, endpoint, ip, now);
            match AgentIndex(db.agents, endpoint)
            case None => after == db && agent == None && payload == []
            case Some(i) =>
              && agent == Some(after.agents[i])
              && after.agents == db.agents[i := if db.agents[i].enabled
                                                then db.agents[i].(lastSeenAt := Some(now), lastSeenIp := ip)
                                                else db.agents[i]]
  {
    hide PendingRows, Payload, Settled;
  }

  // ── draining ──

  function Backlog(orders: seq<Order>, endpoint: string): nat {
    |QueuedRows(orders, endpoint, |orders|)|
  }

  function RowSet(rows: seq<nat>): (r: set<nat>)
    ensures forall k :: k in r <==> k in rows
  {
    set k | k in rows
  }

  lemma {:induction false} RowSetSize(rows: seq<nat>)
    requires DistinctRows(rows)
    ensures |RowSet(rows)| == |rows|
  {
    if rows != [] {
      var n := |rows| - 1;
      RowSetSize(rows[..n]);
      assert rows == rows[..n] + [rows[n]];
      assert rows[n] !in rows[..n];
      assert RowSet(rows) == RowSet(rows[..n]) + {rows[n]};
    }
  }

  /** One poll takes fifty orders off the queue, or what there is. */
  lemma PollShrinks(db: Db, endpoint: string, ip: Option<string>, now: int)
    requires AgentIndex(db.agents, endpoint).Some? && db.agents[AgentIndex(db.agents, endpoint).value].enabled
    ensures var before, after := Backlog(db.orders, endpoint),
                                 Backlog(CollectOrders(db, endpoint, ip, now).0.orders, endpoint);
            after == if before <= 50 then 0 else before - 50
  {
    var orders, rows := db.orders, PendingRows(db.orders, endpoint);
    var settled := Settled(orders, rows, now);
    var before, after := QueuedRows(orders, endpoint, |orders|), QueuedRows(settled, endpoint, |orders|);
    QueuedDistinct(orders, endpoint, |orders|);
    QueuedDistinct(settled, endpoint, |orders|);
    PendingDistinct(orders, endpoint);
    RowSetSize(before);
    RowSetSize(after);
    RowSetSize(rows);
    StillQueued(orders, endpoint, now);
    assert RowSet(after) == RowSet(before) - RowSet(rows);
    assert RowSet(rows) <= RowSet(before);
    assert |RowSet(before) - RowSet(rows)| == |RowSet(before)| - |RowSet(rows)|;
  }

  lemma StillQueued(orders: seq<Order>, endpoint: string, now: int)
    ensures var rows := PendingRows(orders, endpoint);
            forall i: nat :: i in QueuedRows(Settled(orders, rows, now), endpoint, |orders|) <==>
                             i in QueuedRows(orders, endpoint, |orders|) && i !in rows
  {
  }

  lemma PollKeepsAgents(db: Db, endpoint: string, ip: Option<string>, now: int, e: string)
    ensures var after := CollectOrders(db, endpoint, ip, now).0;
            && AgentIndex(after.agents, e) == AgentIndex(db.agents, e)
            && |after.agents| == |db.agents|
            && forall i | 0 <= i < |db.agents| :: after.agents[i].enabled == db.agents[i].enabled
  {
    var i := AgentIndex(db.agents, endpoint);
    if i.Some? {
      IndexUpdate(db.agents, i.value, CollectOrders(db, endpoint, ip, now).0.agents[i.value], e);
    }
  }

  lemma {:induction false} IndexUpdate(agents: seq<AgentRow>, i: nat, row: AgentRow, e: string)
    requires i < |agents| && row.endpointId == agents[i].endpointId
    ensures AgentIndex(agents[i := row], e) == AgentIndex(agents, e)
  {
    if i > 0 {
      assert agents[i := row][1..] == agents[1..][i - 1 := row];
      IndexUpdate(agents[1..], i - 1, row, e);
    } else {
      assert agents[i := row][1..] == agents[1..];
    }
  }

  /** The server after an agent's polls at the given times, nothing else
      happening in between. */
  function Polled(db: Db, endpoint: string, times: seq<int>): Db {
    if times == [] then db
    else CollectOrders(Polled(db, endpoint, times[..|times| - 1]), endpoint, None, times[|times| - 1]).0
  }

  /** What is left of a backlog after so many orders less. */
  function Left(n: int): nat {
    if n < 0 then 0 else n
  }

  /** A backlog of n is gone after n / 50 polls, rounded up. */
  lemma {:induction false} BacklogDrains(db: Db, endpoint: string, times: seq<int>)
    requires AgentIndex(db.agents, endpoint).Some? && db.agents[AgentIndex(db.agents, endpoint).value].enabled
    ensures Backlog(Polled(db, endpoint, times).orders, endpoint)
         == Left(Backlog(db.orders, endpoint) - 50 * |times|)
    ensures var after := Polled(db, endpoint, times);
            AgentIndex(after.agents, endpoint).Some? && after.agents[AgentIndex(after.agents, endpoint).value].enabled
  {
    hide Backlog, CollectOrders, AgentIndex;
    if times != [] {
      var k := |times| - 1;
      var before := Polled(db, endpoint, times[..k]);
      BacklogDrains(db, endpoint, times[..k]);
      PollShrinks(before, endpoint, None, times[k]);
      PollKeepsAgents(before, endpoint, None, times[k], endpoint);
    }
  }
}
