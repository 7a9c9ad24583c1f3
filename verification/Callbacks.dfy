/** The Go package's handler tables and the bridges that fan one C callback out to them. */
module Callbacks {
  import opened Wire
  import opened Clients
  import opened Registry

  class GoHandler {
    var client: Option<ClientId>
    const kind: HandlerKind
    const id: nat

    constructor (client: ClientId, kind: HandlerKind, id: nat)
      ensures this.client == Some(client) && this.kind == kind && this.id == id
    {
      this.client, this.kind, this.id := Some(client), kind, id;
    }
  }

  /** The records of handler objects. */
  ghost function Records(hs: seq<GoHandler>): (r: seq<Handle>)
    reads hs
    ensures |r| == |hs| && forall i :: 0 <= i < |hs| ==> r[i] == Handle(hs[i].client, hs[i].kind, hs[i].id)
  {
    if hs == [] then [] else [Handle(hs[0].client, hs[0].kind, hs[0].id)] + Records(hs[1..])
  }

  lemma RecordsLast(hs: seq<GoHandler>, h: GoHandler)
    ensures Records(hs + [h]) == Records(hs) + [Handle(h.client, h.kind, h.id)]
  {
  }

  /** One operation after the history is one step from its state. */
  lemma OneMore(st: State, history: seq<Op>, op: Op)
    requires st == Run(EMPTY_STATE, history) && st.handlers.Keys == st.bridges.Keys
    ensures Run(EMPTY_STATE, history + [op]) == Step(st, op) && Inv(Step(st, op))
  {
    RunLast(EMPTY_STATE, history, op);
    StepKeepsInv(st, op);
  }

  /** What a step does for the handler in a place. */
  lemma OffInPlace(st: State, c: ClientId, n: nat)
    requires n < |st.handles| && st.handlers.Keys == st.bridges.Keys
    ensures var h := st.handles[n];
            Step(st, Off(c, n))
            == if h.client != Some(c) then st
               else DropCallback(st, (h.kind, c), h.id).(handles := st.handles[n := h.(client := None)])
  {
  }

  class CallbackTable {
    var nextHandlerID: nat
    var handlers: map<(HandlerKind, ClientId), map<nat, nat>>
    var bridges: map<(HandlerKind, ClientId), Token>
    var lists: map<(HandlerKind, ClientId), seq<Token>>

    /** Every handler given out, and every operation done, in order. */
    ghost var given: seq<GoHandler>
    ghost var history: seq<Op>

    /** The tables and the handlers given out, as a registry state. */
    ghost function Now(): State
      reads this, given
    {
      State(nextHandlerID, handlers, bridges, lists, Records(given))
    }

    /** The state is what the operations so far make of the empty one. */
    ghost predicate Valid()
      reads this, given
    {
      && Now() == Run(EMPTY_STATE, history) && Inv(Now())
      && Distinct()
    }

    constructor ()
      ensures Valid() && history == [] && given == [] && Now() == EMPTY_STATE
    {
      nextHandlerID, handlers, bridges, lists := 0, map[], map[], map[];
      given, history := [], [];
    }

    method NextID() returns (id: nat)
      modifies this`nextHandlerID
      ensures id == nextHandlerID == old(nextHandlerID) + 1
    {
      nextHandlerID := nextHandlerID + 1;
      id := nextHandlerID;
    }

    /** The C client appends a registration and hands back its token. */
    method RegisterBridge(key: (HandlerKind, ClientId), token: Token)
      modifies this`lists
      ensures lists == old(lists)[key := ListOf(old(Now()), key) + [token]]
    {
      var list := if key in lists then lists[key] else [];
      lists := lists[key := list + [token]];
    }

    method UnregisterBridge(key: (HandlerKind, ClientId), token: Token)
      modifies this`lists
      ensures lists == old(lists)[key := Erase(ListOf(old(Now()), key), token)]
    {
      var list := if key in lists then lists[key] else [];
      lists := lists[key := Erase(list, token)];
    }

    method Add(key: (HandlerKind, ClientId), fn: nat, token: Token) returns (id: nat)
      modifies this`nextHandlerID, this`handlers, this`bridges, this`lists
      ensures id == nextHandlerID
      ensures Now() == AddCallback(old(Now()), key, fn, token).(handles := old(Now()).handles)
    {
      if key !in handlers {
        handlers := handlers[key := map[]];
        RegisterBridge(key, token);
        bridges := bridges[key := token];
      }
      id := NextID();
      var callbacks: map<nat, nat> := handlers[key];
      handlers := handlers[key := callbacks[id := fn]];
    }

    ghost predicate Distinct()
      reads this
    {
      forall i, j :: 0 <= i < j < |given| ==> given[i] != given[j]
    }

    method Give(c: ClientId, kind: HandlerKind, id: nat) returns (h: GoHandler)
      requires Distinct()
      modifies this`given
      ensures fresh(h) && given == old(given) + [h] && Distinct()
      ensures h.client == Some(c) && h.kind == kind && h.id == id
      ensures Records(given) == old(Records(given)) + [Handle(Some(c), kind, id)]
    {
      h := new GoHandler(c, kind, id);
      RecordsLast(given, h);
      given := given + [h];
    }

    method ClientOn(c: ClientId, kind: HandlerKind, fn: nat, token: Token) returns (h: GoHandler)
      requires Valid()
      modifies this
      ensures Valid() && history == old(history) + [On(kind, c, fn, token)]
      ensures Now() == Step(old(Now()), On(kind, c, fn, token))
      ensures fresh(h) && given == old(given) + [h]
      ensures h.client == Some(c) && h.kind == kind && h.id == nextHandlerID
    {
      ghost var op := On(kind, c, fn, token);
      OneMore(Now(), history, op);
      h := PutOn(c, kind, fn, token);
      history := history + [op];
    }

    method PutOn(c: ClientId, kind: HandlerKind, fn: nat, token: Token) returns (h: GoHandler)
      requires Distinct() && handlers.Keys == bridges.Keys
      modifies this`nextHandlerID, this`handlers, this`bridges, this`lists, this`given
      ensures Now() == Step(old(Now()), On(kind, c, fn, token))
      ensures fresh(h) && given == old(given) + [h] && Distinct()
      ensures h.client == Some(c) && h.kind == kind && h.id == nextHandlerID
    {
      var id := Add((kind, c), fn, token);
      h := Give(c, kind, id);
    }

    method Drop(key: (HandlerKind, ClientId), id: nat)
      requires handlers.Keys == bridges.Keys
      modifies this`handlers, this`bridges, this`lists
      ensures Now() == DropCallback(old(Now()), key, id)
    {
      if key !in handlers {
        return;
      }
      var rest := handlers[key] - {id};
      if |rest| == 0 {
        DropBridge(key);
      } else {
        handlers := handlers[key := rest];
      }
    }

    /** The kind's last callback is gone, and its bridge with it. */
    method DropBridge(key: (HandlerKind, ClientId))
      requires key in bridges
      modifies this`handlers, this`bridges, this`lists
      ensures handlers == old(handlers) - {key} && bridges == old(bridges) - {key}
      ensures lists == old(lists)[key := Erase(ListOf(old(Now()), key), old(bridges[key]))]
    {
      UnregisterBridge(key, bridges[key]);
      handlers := handlers - {key};
      bridges := bridges - {key};
    }

    /** n is the place of h among the handlers given out. */
    method ClientOff(c: ClientId, h: GoHandler?, ghost n: nat)
      requires Valid() && (h != null ==> n < |given| && given[n] == h)
      modifies this`handlers, this`bridges, this`lists, this`history, h
      ensures Valid() && given == old(given)
      ensures h == null ==> Now() == old(Now()) && history == old(history)
      ensures h != null ==> Now() == Step(old(Now()), Off(c, n)) && history == old(history) + [Off(c, n)]
    {
      if h == null {
        return;
      }
      OneMore(Now(), history, Off(c, n));
      TakeOff(c, h, n);
      history := history + [Off(c, n)];
    }

    method TakeOff(c: ClientId, h: GoHandler, ghost n: nat)
      requires Distinct() && n < |given| && given[n] == h && handlers.Keys == bridges.Keys
      modifies this`handlers, this`bridges, this`lists, h
      ensures Now() == Step(old(Now()), Off(c, n))
    {
      OffInPlace(Now(), c, n);
      if h.client == Some(c) {
        Drop((h.kind, c), h.id);
        Spend(h, n);
      }
    }

    /** Clears the handler's client. */
    method Spend(h: GoHandler, ghost n: nat)
      requires Distinct() && n < |given| && given[n] == h
      modifies h
      ensures h.client == None && Records(given) == old(Records(given))[n := Handle(None, h.kind, h.id)]
    {
      h.client := None;
    }

    /** Clears the client's tables, then the C library frees the client with its registrations. */
    method ClientDestroy(c: ClientId)
      requires Valid()
      modifies this`handlers, this`bridges, this`lists, this`history
      ensures Valid() && given == old(given) && history == old(history) + [Destroy(c)]
      ensures Now() == Step(old(Now()), Destroy(c))
    {
      OneMore(Now(), history, Destroy(c));
      Forget(c);
      history := history + [Destroy(c)];
    }

    method Forget(c: ClientId)
      requires handlers.Keys == bridges.Keys
      modifies this`handlers, this`bridges, this`lists
      ensures Now() == Step(old(Now()), Destroy(c))
    {
      var keys := set key | key in handlers && key.1 == c;
      handlers, bridges := handlers - keys, bridges - keys;
      lists := lists - set key | key in lists && key.1 == c;
    }

    /** The bridge copies the live callbacks under the lock, in any order, and then calls each. */
    method Bridge(key: (HandlerKind, ClientId)) returns (called: seq<nat>)
      ensures multiset(called) == multiset(if key in handlers then handlers[key].Keys else {})
    {
      called := [];
      var rest := if key in handlers then handlers[key].Keys else {};
      ghost var all := rest;
      while rest != {}
        invariant rest <= all && multiset(called) + multiset(rest) == multiset(all)
        decreases |rest|
      {
        var id :| id in rest;
        called := called + [id];
        rest := rest - {id};
      }
    }

    /** One event of a client: every registration of its C list is called, and each live callback hears it once. */
    method Event(key: (HandlerKind, ClientId)) returns (called: seq<nat>)
      requires Valid()
      ensures forall id: nat :: multiset(called)[id] == if LiveAfter(history, key, id) then 1 else 0
    {
      called := [];
      var list := if key in lists then lists[key] else [];
      ghost var snapshot := if key in handlers then handlers[key].Keys else {};
      for i := 0 to |list|
        invariant multiset(called) + ReachedBy(list[i..], snapshot) == ReachedBy(list, snapshot)
      {
        var more := Bridge(key);
        assert list[i..][1..] == list[i + 1..];
        called := called + more;
      }
      assert list[|list|..] == [];
      assert multiset(called) == Reached(Now(), key);
      forall id: nat ensures multiset(called)[id] == if LiveAfter(history, key, id) then 1 else 0 {
        DispatchIsFlat(history, key.0, key.1, id);
      }
    }
  }
}
