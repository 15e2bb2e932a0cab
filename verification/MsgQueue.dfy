/** The timed message queue of CMsgQueueThread: its methods, and every interleaving of them. */
module MsgQueue {
  import opened Bytes

  /** ticket counts the sends: it tells two messages with equal contents apart. */
  datatype Message = Message(kind: int, delay: int, when: int, ticket: nat)

  // ----- What one operation does to the vector -----

  /** m goes in front of the first message due later, as find_if and insert put it. */
  function Insert(pending: seq<Message>, m: Message): seq<Message> {
    if pending == [] || pending[0].when > m.when then [m] + pending
    else [pending[0]] + Insert(pending[1..], m)
  }

  function Without(pending: seq<Message>, kind: int): (r: seq<Message>) {
    if pending == [] then []
    else Without(pending[..|pending| - 1], kind)
         + if pending[|pending| - 1].kind == kind then [] else [pending[|pending| - 1]]
  }

  lemma {:induction false} InsertAt(pending: seq<Message>, m: Message, k: nat)
    requires k <= |pending|
    requires forall i :: 0 <= i < k ==> pending[i].when <= m.when
    requires k == |pending| || pending[k].when > m.when
    ensures Insert(pending, m) == pending[..k] + [m] + pending[k..]
  {
    if k > 0 {
      InsertAt(pending[1..], m, k - 1);
    }
  }

  class Queue {
    var pending: seq<Message>

    constructor ()
      ensures pending == []
    {
      pending := [];
    }

    /** now is the clock reading taken under the lock. */
    method SendMsg(m: Message, now: int)
      modifies this
      ensures pending == Insert(old(pending), m.(when := now + m.delay))
    {
      var msg := m.(when := now + m.delay);
      var it := 0;
      while it < |pending| && !(pending[it].when > msg.when)
        invariant 0 <= it <= |pending| && pending == old(pending)
        invariant forall i :: 0 <= i < it ==> pending[i].when <= msg.when
      {
        it := it + 1;
      }
      InsertAt(pending, msg, it);
      pending := pending[..it] + [msg] + pending[it..];
    }

    method RemoveMsg(kind: int)
      modifies this
      ensures pending == Without(old(pending), kind)
    {
      var kept: seq<Message> := [];
      for i := 0 to |pending|
        invariant pending == old(pending)
        invariant kept == Without(pending[..i], kind)
      {
        assert pending[..i + 1][..i] == pending[..i];
        if pending[i].kind != kind {
          kept := kept + [pending[i]];
        }
      }
      assert pending[..|pending|] == pending;
      pending := kept;
    }

    method ClearMsg()
      modifies this
      ensures pending == []
    {
      pending := [];
    }

    /** One turn of the delivery loop between lock and unlock. */
    method TakeDue(now: int) returns (m: Option<Message>)
      modifies this
      ensures m.Some? <==> old(pending) != [] && old(pending)[0].when <= now
      ensures pending == if m.Some? then old(pending)[1..] else old(pending)
      ensures m.Some? ==> m.value == old(pending)[0]
    {
      if |pending| > 0 && pending[0].when <= now {
        m := Some(pending[0]);
        pending := pending[1..];
      } else {
        m := None;
      }
    }

    /** A whole round in which no other thread gets the lock: exactly the due messages go, in order. */
    method DeliverRound(now: int) returns (delivered: seq<Message>)
      requires Sorted(pending)
      modifies this
      ensures delivered + pending == old(pending) && Sorted(pending)
      ensures forall i :: 0 <= i < |delivered| ==> delivered[i].when <= now
      ensures forall i :: 0 <= i < |pending| ==> pending[i].when > now
    {
      delivered := [];
      while |pending| > 0 && pending[0].when <= now
        invariant delivered + pending == old(pending) && Sorted(pending)
        invariant forall i :: 0 <= i < |delivered| ==> delivered[i].when <= now
        decreases |pending|
      {
        delivered := delivered + [pending[0]];
        pending := pending[1..];
      }
    }
  }

  // ----- Every interleaving -----

  /** Earlier due time first, and among equals the earlier send. */
  predicate Before(a: Message, b: Message) {
    a.when < b.when || (a.when == b.when && a.ticket < b.ticket)
  }

  ghost predicate Sorted(ms: seq<Message>) {
    forall i, j :: 0 <= i < j < |ms| ==> Before(ms[i], ms[j])
  }

  datatype Delivery = Delivery(m: Message, now: int)

  /** round is the clock reading the delivery thread captured for the round it is in; the rest but
      pending is history, sentAt the clock reading of every send. */
  datatype State = State(
    pending: seq<Message>, round: Option<int>, sent: seq<Message>, delivered: seq<Delivery>, removed: multiset<Message>,
    sentAt: seq<int>)

  /** The atomic steps: what happens between taking and releasing the lock. */
  datatype Step =
    | Send(kind: int, delay: int, now: int)
    | Remove(kind: int)
    | Clear
    | Wake(now: int)
    | Deliver
    | EndRound

  const INITIAL := State([], None, [], [], multiset{}, [])

  ghost predicate Enabled(s: State, step: Step) {
    match step
    case Wake(_) => s.round.None? && s.pending != []
    case Deliver => s.round.Some? && s.pending != [] && s.pending[0].when <= s.round.value
    case EndRound => s.round.Some? && (s.pending == [] || s.pending[0].when > s.round.value)
    case _ => true
  }

  ghost function Next(s: State, step: Step): State
    requires Enabled(s, step)
  {
    match step
    case Send(kind, delay, now) =>
      var m := Message(kind, delay, now + delay, |s.sent|);
      s.(pending := Insert(s.pending, m), sent := s.sent + [m], sentAt := s.sentAt + [now])
    case Remove(kind) =>
      var kept := Without(s.pending, kind);
      s.(pending := kept, removed := s.removed + (multiset(s.pending) - multiset(kept)))
    case Clear => s.(pending := [], removed := s.removed + multiset(s.pending))
    case Wake(now) => s.(round := Some(now))
    case Deliver =>
      s.(pending := s.pending[1..], delivered := s.delivered + [Delivery(s.pending[0], s.round.value)])
    case EndRound => s.(round := None)
  }

  /** steps lead from s to t. */
  ghost predicate Runs(s: State, steps: seq<Step>, t: State)
    decreases |steps|
  {
    if steps == [] then s == t
    else Enabled(s, steps[0]) && Runs(Next(s, steps[0]), steps[1..], t)
  }

  ghost function Messages(ds: seq<Delivery>): (r: seq<Message>)
    ensures |r| == |ds| && forall i :: 0 <= i < |ds| ==> r[i] == ds[i].m
  {
    if ds == [] then [] else Messages(ds[..|ds| - 1]) + [ds[|ds| - 1].m]
  }

  ghost predicate Inv(s: State) {
    && Sorted(s.pending)
    && (forall i :: 0 <= i < |s.sent| ==> s.sent[i].ticket == i)
    && multiset(s.sent) == multiset(s.pending) + multiset(Messages(s.delivered)) + s.removed
    && (forall i :: 0 <= i < |s.delivered| ==> s.delivered[i].m.when <= s.delivered[i].now)
  }

  lemma {:induction false} InsertKeeps(pending: seq<Message>, m: Message)
    requires Sorted(pending)
    requires forall i :: 0 <= i < |pending| ==> pending[i].ticket < m.ticket
    ensures Sorted(Insert(pending, m))
    ensures multiset(Insert(pending, m)) == multiset(pending) + multiset{m}
  {
    if pending == [] || pending[0].when > m.when {
    } else {
      var tail := Insert(pending[1..], m);
      InsertKeeps(pending[1..], m);
      assert pending == [pending[0]] + pending[1..];
      forall j | 0 <= j < |tail| ensures Before(pending[0], tail[j]) {
        assert tail[j] in multiset(tail);
        if tail[j] != m {
          assert tail[j] in multiset(pending[1..]);
        }
      }
    }
  }

  lemma {:induction false} WithoutKeeps(pending: seq<Message>, kind: int)
    requires Sorted(pending)
    ensures Sorted(Without(pending, kind)) && multiset(Without(pending, kind)) <= multiset(pending)
    ensures forall m :: m in Without(pending, kind) <==> m in pending && m.kind != kind
  {
    if pending != [] {
      var front, last := pending[..|pending| - 1], pending[|pending| - 1];
      WithoutKeeps(front, kind);
      assert pending == front + [last];
      forall m | m in Without(front, kind) ensures Before(m, last) {
        assert m in front;
      }
    }
  }

  lemma SentOnce(s: State, m: Message)
    requires Inv(s)
    ensures multiset(s.sent)[m] <= 1
    ensures m in s.sent ==> m.ticket < |s.sent|
  {
    DistinctOnce(s.sent, m);
  }

  lemma {:induction false} DistinctOnce(ms: seq<Message>, m: Message)
    requires forall i, j :: 0 <= i < j < |ms| ==> ms[i] != ms[j]
    ensures multiset(ms)[m] <= 1
  {
    if ms != [] {
      var front, last := ms[..|ms| - 1], ms[|ms| - 1];
      DistinctOnce(front, m);
      assert ms == front + [last];
      if m == last {
        assert m !in front;
      }
    }
  }

  /** A message is in one place only. */
  lemma OnePlace(s: State, m: Message)
    requires Inv(s)
    ensures m in s.pending ==> m !in Messages(s.delivered) && m !in s.removed && m in s.sent
    ensures m in Messages(s.delivered) ==> m !in s.removed
    ensures multiset(s.pending)[m] + multiset(Messages(s.delivered))[m] + s.removed[m] == multiset(s.sent)[m] <= 1
  {
    SentOnce(s, m);
  }

  lemma MessagesNext(ds: seq<Delivery>, d: Delivery)
    ensures Messages(ds + [d]) == Messages(ds) + [d.m]
  {
    assert (ds + [d])[..|ds|] == ds;
  }

  lemma InvSend(s: State, m: Message)
    requires Inv(s) && m.ticket == |s.sent|
    ensures Inv(s.(pending := Insert(s.pending, m), sent := s.sent + [m]))
  {
    hide Insert, Messages;
    forall i | 0 <= i < |s.pending| ensures s.pending[i].ticket < m.ticket {
      OnePlace(s, s.pending[i]);
      SentOnce(s, s.pending[i]);
    }
    InsertKeeps(s.pending, m);
  }

  lemma InvRemove(s: State, kept: seq<Message>)
    requires Inv(s) && Sorted(kept) && multiset(kept) <= multiset(s.pending)
    ensures Inv(s.(pending := kept, removed := s.removed + (multiset(s.pending) - multiset(kept))))
  {
    hide Messages;
  }

  lemma InvDeliver(s: State, now: int)
    requires Inv(s) && s.pending != [] && s.pending[0].when <= now
    ensures Inv(s.(pending := s.pending[1..], delivered := s.delivered + [Delivery(s.pending[0], now)]))
  {
    hide Messages;
    MessagesNext(s.delivered, Delivery(s.pending[0], now));
    assert s.pending == [s.pending[0]] + s.pending[1..];
  }

  /** Every step keeps the invariant: sorted by due time with FIFO on ties, nothing lost or doubled,
      nothing delivered early. */
  lemma InvNext(s: State, step: Step)
    requires Inv(s) && Enabled(s, step)
    ensures Inv(Next(s, step))
  {
    hide Insert, Without, Messages, Inv;
    match step
    case Send(kind, delay, now) =>
      var m := Message(kind, delay, now + delay, |s.sent|);
      InvSend(s, m);
      InvSentAt(s.(pending := Insert(s.pending, m), sent := s.sent + [m]), s.sentAt + [now]);
    case Remove(kind) =>
      InvSorted(s);
      WithoutKeeps(s.pending, kind);
      InvRemove(s, Without(s.pending, kind));
    case Clear =>
      InvRemove(s, []);
      assert multiset(s.pending) - multiset([]) == multiset(s.pending);
    case Wake(now) => InvRound(s, Some(now));
    case Deliver => InvDeliver(s, s.round.value);
    case EndRound => InvRound(s, None);
  }

  lemma InvSorted(s: State)
    requires Inv(s)
    ensures Sorted(s.pending)
  {
  }

  lemma InvSentAt(s: State, sentAt: seq<int>)
    requires Inv(s)
    ensures Inv(s.(sentAt := sentAt))
  {
  }

  lemma InvRound(s: State, round: Option<int>)
    requires Inv(s)
    ensures Inv(s.(round := round))
  {
  }

  /** The invariant over every run. */
  lemma {:induction false} InvRuns(s: State, steps: seq<Step>, t: State)
    requires Inv(s) && Runs(s, steps, t)
    ensures Inv(t)
    decreases |steps|
  {
    hide Inv, Enabled, Next;
    if steps != [] {
      InvNext(s, steps[0]);
      InvRuns(Next(s, steps[0]), steps[1..], t);
    }
  }

  lemma Reachable(steps: seq<Step>, t: State)
    requires Runs(INITIAL, steps, t)
    ensures Inv(t)
  {
    InvRuns(INITIAL, steps, t);
  }

  /** a is delivered before b, unless a was removed. */
  ghost predicate First(s: State, a: Message, b: Message) {
    && (b in s.pending ==> a in s.pending || a in s.removed || a in Messages(s.delivered))
    && (b in Messages(s.delivered) ==> a in s.removed || DeliveredFirst(s.delivered, a, b))
    && b in s.sent && Before(a, b)
  }

  ghost predicate DeliveredFirst(ds: seq<Delivery>, a: Message, b: Message) {
    exists p, q :: 0 <= p < q < |ds| && ds[p].m == a && ds[q].m == b
  }

  lemma FirstNext(s: State, step: Step, a: Message, b: Message)
    requires Inv(s) && First(s, a, b) && Enabled(s, step)
    ensures First(Next(s, step), a, b)
  {
    hide Insert, Without, Messages, Inv, Before, DeliveredFirst;
    match step
    case Send(kind, delay, now) =>
      SentOnce(s, b);
      OnePlace(s, b);
      InsertHolds(s.pending, Message(kind, delay, now + delay, |s.sent|), a);
      InsertHolds(s.pending, Message(kind, delay, now + delay, |s.sent|), b);
    case Remove(kind) =>
      InvSorted(s);
      WithoutKeeps(s.pending, kind);
      Taken(s.pending, Without(s.pending, kind), a);
    case Clear =>
    case Wake(now) =>
    case Deliver => FirstDeliver(s, s.round.value, a, b);
    case EndRound =>
  }

  /** What leaves the vector is counted as removed. */
  lemma Taken(pending: seq<Message>, kept: seq<Message>, a: Message)
    ensures a in pending && a !in kept ==> a in multiset(pending) - multiset(kept)
  {
  }

  lemma FirstDeliver(s: State, now: int, a: Message, b: Message)
    requires Inv(s) && First(s, a, b) && s.pending != []
    ensures First(s.(pending := s.pending[1..], delivered := s.delivered + [Delivery(s.pending[0], now)]), a, b)
  {
    hide Messages, Inv, DeliveredFirst;
    var d := Delivery(s.pending[0], now);
    OnePlace(s, d.m);
    MessagesNext(s.delivered, d);
    InvSorted(s);
    if d.m == b {
      FrontIsFirst(s.pending, a);
      if a !in s.removed {
        NowDelivered(s.delivered, d, a, b);
      }
    } else if b in Messages(s.delivered) && a !in s.removed {
      StillDelivered(s.delivered, d, a, b);
    }
    assert s.pending == [s.pending[0]] + s.pending[1..];
  }

  lemma FrontIsFirst(pending: seq<Message>, a: Message)
    requires Sorted(pending) && pending != [] && Before(a, pending[0])
    ensures a !in pending
  {
  }

  lemma NowDelivered(ds: seq<Delivery>, d: Delivery, a: Message, b: Message)
    requires a in Messages(ds) && d.m == b
    ensures DeliveredFirst(ds + [d], a, b)
  {
    var p :| 0 <= p < |ds| && Messages(ds)[p] == a;
    var es := ds + [d];
    assert es[p].m == a && es[|ds|].m == b;
  }

  lemma StillDelivered(ds: seq<Delivery>, d: Delivery, a: Message, b: Message)
    requires DeliveredFirst(ds, a, b)
    ensures DeliveredFirst(ds + [d], a, b)
  {
    var p, q :| 0 <= p < q < |ds| && ds[p].m == a && ds[q].m == b;
    var es := ds + [d];
    assert es[p].m == a && es[q].m == b;
  }

  lemma {:induction false} InsertHolds(pending: seq<Message>, m: Message, a: Message)
    ensures a in Insert(pending, m) <==> a == m || a in pending
  {
    if pending == [] || pending[0].when > m.when {
    } else {
      InsertHolds(pending[1..], m, a);
    }
  }

  lemma {:induction false} FirstRuns(s: State, steps: seq<Step>, t: State, a: Message, b: Message)
    requires Inv(s) && First(s, a, b) && Runs(s, steps, t)
    ensures First(t, a, b)
    decreases |steps|
  {
    hide Inv, Enabled, Next, First;
    if steps != [] {
      InvNext(s, steps[0]);
      FirstNext(s, steps[0], a, b);
      FirstRuns(Next(s, steps[0]), steps[1..], t, a, b);
    }
  }

  /** A message ahead of another pending one is delivered before it, or removed, on every run from there. */
  lemma AheadIsFirst(before: seq<Step>, s: State, i: nat, j: nat, steps: seq<Step>, t: State)
    requires Runs(INITIAL, before, s) && i < j < |s.pending| && Runs(s, steps, t)
    ensures s.pending[j] in Messages(t.delivered) ==>
      s.pending[i] in t.removed || DeliveredFirst(t.delivered, s.pending[i], s.pending[j])
  {
    hide Messages;
    Reachable(before, s);
    OnePlace(s, s.pending[j]);
    FirstRuns(s, steps, t, s.pending[i], s.pending[j]);
  }

  /** Reachable states in plain words: order, conservation, no early delivery. */
  lemma ReachableStates(steps: seq<Step>, t: State)
    requires Runs(INITIAL, steps, t)
    ensures forall i, j :: 0 <= i < j < |t.pending| ==> Before(t.pending[i], t.pending[j])
    ensures multiset(t.sent) == multiset(t.pending) + multiset(Messages(t.delivered)) + t.removed
    ensures forall i :: 0 <= i < |t.delivered| ==> t.delivered[i].m.when <= t.delivered[i].now
  {
    Reachable(steps, t);
  }

  // ----- Due times and the clock -----

  /** Every message sent is due its delay after the clock reading of its send. */
  ghost predicate Stamped(s: State) {
    |s.sentAt| == |s.sent| && forall i :: 0 <= i < |s.sent| ==> s.sent[i].when == s.sentAt[i] + s.sent[i].delay
  }

  lemma {:induction false} StampedRuns(s: State, steps: seq<Step>, t: State)
    requires Stamped(s) && Runs(s, steps, t)
    ensures Stamped(t)
    decreases |steps|
  {
    hide Insert, Without;
    if steps != [] {
      StampedRuns(Next(s, steps[0]), steps[1..], t);
    }
  }

  /** No message is delivered in a round whose clock reading is less than its send's plus its delay. */
  lemma NotBeforeDelay(steps: seq<Step>, t: State, i: nat)
    requires Runs(INITIAL, steps, t) && i < |t.delivered|
    ensures var d := t.delivered[i];
      d.m.ticket < |t.sentAt| == |t.sent| && t.sent[d.m.ticket] == d.m && t.sentAt[d.m.ticket] + d.m.delay <= d.now
  {
    hide Runs, Messages;
    StampedRuns(INITIAL, steps, t);
    Reachable(steps, t);
    var m := t.delivered[i].m;
    assert m in Messages(t.delivered) by { assert Messages(t.delivered)[i] == m; }
    OnePlace(t, m);
    assert m in multiset(t.sent);
  }

  /** The steps do to the vector what the methods of Queue do to it. */
  lemma StepsOfQueue(s: State, m: Message, now: int)
    requires m.ticket == |s.sent|
    ensures Next(s, Send(m.kind, m.delay, now)).pending == Insert(s.pending, m.(when := now + m.delay))
    ensures Next(s, Remove(m.kind)).pending == Without(s.pending, m.kind) && Next(s, Clear).pending == []
    ensures s.round == Some(now) ==>
      && (Enabled(s, Deliver) <==> s.pending != [] && s.pending[0].when <= now)
      && (Enabled(s, EndRound) <==> !Enabled(s, Deliver))
      && (Enabled(s, Deliver) ==> Next(s, Deliver).pending == s.pending[1..])
      && (Enabled(s, EndRound) ==> Next(s, EndRound).pending == s.pending)
  {
    hide Insert, Without;
  }
}
