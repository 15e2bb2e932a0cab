/** TvService's callback table: a std::map whose operator[] inserts a null entry for a key it misses. */
module CallbackRegistry {
  import opened Bytes

  /** A client handle; None is a null strong pointer. */
  type Table = map<int, Option<nat>>

  predicate IsLive(t: Table, id: int) {
    id in t && t[id].Some?
  }

  /** The clients by id: what the table means. */
  function Live(t: Table): map<int, nat> {
    map id | id in t.Keys && IsLive(t, id) :: t[id].value
  }

  /** operator[] on a missing key. */
  function Touch(t: Table, id: int): Table {
    if id in t then t else t[id := None]
  }

  /** The first id from i on without a client, looking below the table size only. */
  function FreeId(t: Table, i: nat): (id: nat)
    requires i <= |t|
    ensures i <= id <= |t|
    ensures forall k :: i <= k < id ==> IsLive(t, k)
    ensures id < |t| ==> !IsLive(t, id)
    decreases |t| - i
  {
    if i == |t| || !IsLive(t, i) then i else FreeId(t, i + 1)
  }

  function Register(t: Table, client: nat): Table {
    t[FreeId(t, 0) := Some(client)]
  }

  function Unregister(t: Table, id: int): Table {
    if id < 0 then t else t - {id}
  }

  /** The reads of a send loop over ids 0..n; a strict loop returns at the first null entry. */
  function Event(t: Table, i: nat, n: nat, strict: bool): Table
    requires i <= n
    decreases n - i
  {
    if i == n then t
    else
      var u := Touch(t, i);
      if u[i].None? && strict then u else Event(u, i + 1, n, strict)
  }

  /** The ids 0..n. */
  function Range(n: nat): (r: set<int>)
    ensures forall k :: k in r <==> 0 <= k < n
    ensures |r| == n
  {
    if n == 0 then {} else Range(n - 1) + {n - 1}
  }

  /** The pigeonhole: a table with n entries that has one for each of 0..n has no entry at n. */
  lemma Pigeonhole(keys: set<int>, n: nat)
    requires |keys| == n && forall k :: 0 <= k < n ==> k in keys
    ensures keys == Range(n)
  {
    var low := Range(n);
    assert low <= keys;
    assert |keys - low| == |keys| - |low|;
    assert keys - low == {};
  }

  /** The id a registration returns is not the id of a live client, nor of any entry in the append case. */
  lemma FreeIdIsFree(t: Table)
    ensures !IsLive(t, FreeId(t, 0))
    ensures FreeId(t, 0) == |t| ==> |t| !in t
  {
    if FreeId(t, 0) == |t| {
      forall k | 0 <= k < |t| ensures k in t.Keys {
        assert IsLive(t, k);
      }
      Pigeonhole(t.Keys, |t|);
    }
  }

  class Registry {
    var callbacks: Table

    constructor ()
      ensures callbacks == map[]
    {
      callbacks := map[];
    }

    /** sp<IBinder>& operator[](int): the entry may be created by the read. */
    method At(id: int) returns (client: Option<nat>)
      modifies this
      ensures callbacks == Touch(old(callbacks), id) && client == callbacks[id]
    {
      if id !in callbacks {
        callbacks := callbacks[id := None];
      }
      client := callbacks[id];
    }

    method SetTvServiceCallBack(callBack: Option<nat>) returns (ret: int)
      modifies this
      ensures callBack.None? ==> ret == -1 && callbacks == old(callbacks)
      ensures callBack.Some? ==>
        ret == FreeId(old(callbacks), 0) && callbacks == Register(old(callbacks), callBack.value)
    {
      if callBack.None? {
        return -1;
      }
      ghost var t := callbacks;
      var cookie := -1;
      var clientSize := |callbacks|;
      var i := 0;
      while i < clientSize
        invariant 0 <= i <= clientSize == |t|
        invariant callbacks == t && FreeId(t, 0) == FreeId(t, i)
        invariant cookie == -1
      {
        var entry := At(i);
        if entry.None? {
          cookie := i;
          callbacks := callbacks[i := callBack];
          break;
        }
        i := i + 1;
      }
      if cookie < 0 {
        cookie := clientSize;
        callbacks := callbacks[clientSize := callBack];
      }
      return cookie;
    }

    method RemoveTvServiceCallBack(callBackId: int) returns (ret: int)
      modifies this
      ensures ret == 0 && callbacks == Unregister(old(callbacks), callBackId)
    {
      if callBackId >= 0 {
        callbacks := callbacks - {callBackId};
      }
      return 0;
    }

    /** A SendSignalFor... loop: the ids and clients it called, in order. */
    method SendSignal(strict: bool) returns (called: seq<(int, nat)>)
      modifies this
      ensures callbacks == Event(old(callbacks), 0, |old(callbacks)|, strict)
      ensures called == Called(old(callbacks), 0, |old(callbacks)|, strict)
    {
      ghost var t := callbacks;
      called := [];
      var clientSize := |callbacks|;
      var i := 0;
      while i < clientSize
        invariant 0 <= i <= clientSize == |t|
        invariant Event(t, 0, clientSize, strict) == Event(callbacks, i, clientSize, strict)
        invariant Called(t, 0, clientSize, strict) == called + Called(t, i, clientSize, strict)
        invariant Live(callbacks) == Live(t)
      {
        TouchKeepsLive(callbacks, i);
        var entry := At(i);
        SameLive(callbacks, t, i);
        if entry.Some? {
          called := called + [(i, entry.value)];
        } else if strict {
          return;
        }
        i := i + 1;
      }
    }
  }

  /** The live clients among ids i..n in order, up to the first gap if strict. */
  function Called(t: Table, i: nat, n: nat, strict: bool): seq<(int, nat)>
    requires i <= n
    decreases n - i
  {
    if i == n then []
    else if IsLive(t, i) then [(i, t[i].value)] + Called(t, i + 1, n, strict)
    else if strict then []
    else Called(t, i + 1, n, strict)
  }

  lemma SameLive(t: Table, u: Table, id: int)
    requires Live(t) == Live(u)
    ensures IsLive(t, id) == IsLive(u, id) && (IsLive(t, id) ==> t[id] == u[id])
  {
    assert id in Live(t) <==> IsLive(t, id);
    assert id in Live(u) <==> IsLive(u, id);
  }

  lemma {:induction false} CalledRange(t: Table, i: nat, n: nat, id: int, strict: bool)
    requires i <= n && IsLive(t, id)
    ensures (id, t[id].value) in Called(t, i, n, strict)
       <==> i <= id < n && (strict ==> forall k :: i <= k < id ==> IsLive(t, k))
    decreases n - i
  {
    if i < n {
      CalledRange(t, i + 1, n, id, strict);
    }
  }

  /** A call of a live client with an id in the range, with the client the table has for it. */
  predicate IsCall(t: Table, i: int, n: int, call: (int, nat)) {
    i <= call.0 < n && IsLive(t, call.0) && call.1 == t[call.0].value
  }

  predicate Ascending(c: seq<(int, nat)>) {
    forall a, b :: 0 <= a < b < |c| ==> c[a].0 < c[b].0
  }

  /** Clients are called once each, in the order of their ids. */
  lemma {:induction false} CalledInOrder(t: Table, i: nat, n: nat, strict: bool)
    requires i <= n
    ensures forall call :: call in Called(t, i, n, strict) ==> IsCall(t, i, n, call)
    ensures Ascending(Called(t, i, n, strict))
    decreases n - i
  {
    if i < n && (IsLive(t, i) || !strict) {
      var rest := Called(t, i + 1, n, strict);
      CalledInOrder(t, i + 1, n, strict);
      if IsLive(t, i) {
        var c := [(i as int, t[i].value)] + rest;
        forall a, b | 0 <= a < b < |c| ensures c[a].0 < c[b].0 {
          assert c[b] == rest[b - 1] && rest[b - 1] in rest;
        }
      }
    }
  }

  /** A send loop calls a live client if and only if its id is below the table size and, where the loop
      returns at a null entry, every smaller id is live. */
  lemma CalledIff(t: Table, id: int, strict: bool)
    requires IsLive(t, id) && id >= 0
    ensures (id, t[id].value) in Called(t, 0, |t|, strict)
       <==> id < |t| && (strict ==> forall k :: 0 <= k < id ==> IsLive(t, k))
  {
    CalledRange(t, 0, |t|, id, strict);
  }

  /** A send loop calls every live client if and only if no live id is beyond the table size and, where the
      loop returns at a null entry, none has a smaller id that is not live. */
  lemma AllCalledIff(t: Table, strict: bool)
    requires forall id :: id in t ==> id >= 0
    ensures (forall id :: IsLive(t, id) ==> (id, t[id].value) in Called(t, 0, |t|, strict))
       <==> forall id :: IsLive(t, id) ==> id < |t| && (strict ==> forall k :: 0 <= k < id ==> IsLive(t, k))
  {
    hide Called;
    forall id | IsLive(t, id)
      ensures (id, t[id].value) in Called(t, 0, |t|, strict)
         <==> id < |t| && (strict ==> forall k :: 0 <= k < id ==> IsLive(t, k))
    {
      CalledIff(t, id, strict);
    }
  }

  /** So a client can miss an event: two register, the first leaves, the second is not called. */
  lemma RemovalCanHideAClient(first: nat, second: nat)
    ensures var t := Run(map[], [Reg(first), Reg(second), Unreg(0)]);
      Live(t) == map[1 := second] && Called(t, 0, |t|, false) == []
  {
    TwoThenRemove(first, second, []);
    assert [Reg(first), Reg(second), Unreg(0)] + [] == [Reg(first), Reg(second), Unreg(0)];
  }

  lemma TwoThenRemove(first: nat, second: nat, steps: seq<Step>)
    ensures Run(map[], [Reg(first), Reg(second), Unreg(0)] + steps) == Run(map[1 := Some(second)], steps)
  {
    var t1 := Register(map[], first);
    assert t1 == map[0 := Some(first)];
    assert FreeId(t1, 0) == 1;
    var t2 := Register(t1, second);
    assert t2 == map[0 := Some(first), 1 := Some(second)];
    var t3 := Unregister(t2, 0);
    assert t3 == map[1 := Some(second)];
    var s2 := [Unreg(0)] + steps;
    var s1 := [Reg(second)] + s2;
    var s0 := [Reg(first)] + s1;
    assert s0[1..] == s1 && s1[1..] == s2 && s2[1..] == steps;
    assert Run(map[], s0) == Run(t1, s1) == Run(t2, s2) == Run(t3, steps);
    assert s0 == [Reg(first), Reg(second), Unreg(0)] + steps;
  }

  /** An event on that table leaves a null entry for id 0. From then on the loops that skip it call the
      client again, and the loops that return at it still do not. */
  lemma NullEntryHidesAClient(first: nat, second: nat)
    ensures var t := Run(map[], [Reg(first), Reg(second), Unreg(0), Signal(true)]);
      && t == map[0 := None, 1 := Some(second)] && IsLive(t, 1) && 1 < |t|
      && Called(t, 0, |t|, true) == [] && Called(t, 0, |t|, false) == [(1, second)]
  {
    var u := map[1 := Some(second)];
    TwoThenRemove(first, second, [Signal(true)]);
    assert [Reg(first), Reg(second), Unreg(0)] + [Signal(true)] == [Reg(first), Reg(second), Unreg(0), Signal(true)];
    assert [Signal(true)][1..] == [];
    var t := map[0 := None, 1 := Some(second)];
    assert Event(u, 0, |u|, true) == t;
    assert Run(u, [Signal(true)]) == Run(t, []) == t;
    assert !IsLive(t, 0) && Called(t, 0, 2, true) == [];
    assert Called(t, 2, 2, false) == [];
    assert Called(t, 1, 2, false) == [(1, second)];
  }

  lemma TouchKeepsLive(t: Table, id: int)
    ensures Live(Touch(t, id)) == Live(t)
  {
  }

  lemma {:induction false} EventKeepsLive(t: Table, i: nat, n: nat, strict: bool)
    requires i <= n
    ensures Live(Event(t, i, n, strict)) == Live(t)
    decreases n - i
  {
    if i < n {
      TouchKeepsLive(t, i);
      EventKeepsLive(Touch(t, i), i + 1, n, strict);
    }
  }

  /** All ids from i up to id are live. */
  predicate AllLive(t: Table, i: nat, id: int) {
    forall k :: i <= k < id ==> IsLive(t, k)
  }

  /** The entries a send loop leaves: those there were, with their values, and a null one for every id it read
      that had none. It reads all ids below the table size, or, where it returns at a null entry, up to the
      first id that is not live. */
  lemma {:induction false} EventEntries(t: Table, i: nat, n: nat, strict: bool)
    requires i <= n
    ensures var u := Event(t, i, n, strict);
      && (forall id :: id in t ==> id in u && u[id] == t[id])
      && (forall id :: id in u && id !in t ==> u[id] == None)
      && (forall id :: id in u <==> id in t || (i <= id < n && (strict ==> AllLive(t, i, id))))
    decreases n - i
  {
    if i < n {
      var u := Touch(t, i);
      assert forall k :: IsLive(u, k) <==> IsLive(t, k);
      if u[i].None? && strict {
        assert !IsLive(t, i);
      } else {
        var next := i + 1;
        EventEntries(u, next, n, strict);
        assert forall id :: i < id ==> (AllLive(u, next, id) <==> AllLive(t, next, id));
        assert forall id :: i < id ==> (AllLive(t, i, id) <==> IsLive(t, i) && AllLive(t, next, id));
      }
    }
  }

  /** What an event leaves, for both kinds of loop. */
  lemma AfterEvent(t: Table, strict: bool, id: int)
    ensures var u := Event(t, 0, |t|, strict);
      && (id in u <==> id in t || (0 <= id < |t| && (strict ==> AllLive(t, 0, id))))
      && (id in u ==> u[id] == if id in t then t[id] else None)
  {
    hide Event;
    EventEntries(t, 0, |t|, strict);
  }

  /** What a registration and a removal leave: one entry more or other, and one less. */
  lemma AfterCalls(t: Table, client: nat, gone: int, id: int)
    ensures var u := Register(t, client);
      && (id in u <==> id in t || id == FreeId(t, 0))
      && (id in u ==> u[id] == if id == FreeId(t, 0) then Some(client) else t[id])
    ensures var u := Unregister(t, gone);
      && (id in u <==> id in t && !(gone >= 0 && id == gone))
      && (id in u ==> u[id] == t[id])
  {
  }

  // ----- Every run -----

  datatype Step = Reg(client: nat) | Unreg(id: int) | Signal(strict: bool)

  function Next(t: Table, step: Step): Table {
    match step
    case Reg(client) => Register(t, client)
    case Unreg(id) => Unregister(t, id)
    case Signal(strict) => Event(t, 0, |t|, strict)
  }

  function Run(t: Table, steps: seq<Step>): Table
    decreases |steps|
  {
    if steps == [] then t else Run(Next(t, steps[0]), steps[1..])
  }

  /** What a step does to the clients: a registration binds an id that was not live, a removal unbinds its
      id, an event changes nothing, whatever null entries come and go underneath. */
  lemma NextLive(t: Table, step: Step)
    requires forall id :: id in t ==> id >= 0
    ensures forall id :: id in Next(t, step) ==> id >= 0
    ensures step.Reg? ==> FreeId(t, 0) !in Live(t) && Live(Next(t, step)) == Live(t)[FreeId(t, 0) := step.client]
    ensures step.Unreg? ==> Live(Next(t, step)) == Live(t) - {step.id}
    ensures step.Signal? ==> Live(Next(t, step)) == Live(t)
  {
    match step
    case Reg(client) => FreeIdIsFree(t);
    case Unreg(id) =>
    case Signal(strict) =>
      EventKeepsLive(t, 0, |t|, strict);
      EventKeepsSigns(t, 0, |t|, strict);
  }

  lemma {:induction false} EventKeepsSigns(t: Table, i: nat, n: nat, strict: bool)
    requires i <= n && forall id :: id in t ==> id >= 0
    ensures forall id :: id in Event(t, i, n, strict) ==> id >= 0
    decreases n - i
  {
    if i < n {
      EventKeepsSigns(Touch(t, i), i + 1, n, strict);
    }
  }

  /** A client keeps its id through every run that does not remove that id. */
  lemma {:induction false} BoundUntilRemoved(t: Table, steps: seq<Step>, id: int)
    requires (forall k :: k in t ==> k >= 0) && id in Live(t)
    requires forall i :: 0 <= i < |steps| ==> steps[i] != Unreg(id)
    ensures id in Live(Run(t, steps)) && Live(Run(t, steps))[id] == Live(t)[id]
    decreases |steps|
  {
    hide Live, Next;
    if steps != [] {
      StepKeeps(t, steps[0], id);
      BoundUntilRemoved(Next(t, steps[0]), steps[1..], id);
    }
  }

  lemma StepKeeps(t: Table, step: Step, id: int)
    requires (forall k :: k in t ==> k >= 0) && id in Live(t) && step != Unreg(id)
    ensures (forall k :: k in Next(t, step) ==> k >= 0) && id in Live(Next(t, step))
    ensures Live(Next(t, step))[id] == Live(t)[id]
  {
    hide Live, Next;
    NextLive(t, step);
  }

  lemma {:induction false} RunKeepsSigns(t: Table, steps: seq<Step>)
    requires forall k :: k in t ==> k >= 0
    ensures forall k :: k in Run(t, steps) ==> k >= 0
    decreases |steps|
  {
    hide Next;
    if steps != [] {
      NextLive(t, steps[0]);
      RunKeepsSigns(Next(t, steps[0]), steps[1..]);
    }
  }

  /** From an empty table, over every run: the cookie of the next registration collides with no live client,
      and whoever holds it keeps it through every continuation that does not remove it. */
  lemma CookiesNeverCollide(before: seq<Step>, client: nat, after: seq<Step>)
    requires forall i :: 0 <= i < |after| ==> after[i] != Unreg(FreeId(Run(map[], before), 0))
    ensures var t := Run(map[], before);
      var cookie := FreeId(t, 0);
      && cookie !in Live(t)
      && var u := Run(Register(t, client), after); cookie in Live(u) && Live(u)[cookie] == client
  {
    hide Live, Run;
    var t := Run(map[], before);
    RunKeepsSigns(map[], before);
    NextLive(t, Reg(client));
    BoundUntilRemoved(Register(t, client), after, FreeId(t, 0));
  }
}
