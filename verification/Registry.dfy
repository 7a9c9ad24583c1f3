/** Two levels of handler registration, Go callbacks behind one C bridge each, as one flat set of callbacks. */
module Registry {
  import opened Wire
  import opened Clients

  /** A client's address, and the C library's token for one registration. */
  type ClientId = nat
  type Token = nat

  /** A Go handler's record; its client is cleared once it is off. */
  datatype Handle = Handle(client: Option<ClientId>, kind: HandlerKind, id: nat)

  /** The Go package's maps, the C clients' handler vectors, and every handler given out; callbacks are numbers. */
  datatype State = State(
    lastId: nat,
    handlers: map<(HandlerKind, ClientId), map<nat, nat>>,
    bridges: map<(HandlerKind, ClientId), Token>,
    lists: map<(HandlerKind, ClientId), seq<Token>>,
    handles: seq<Handle>)

  datatype Op =
    | On(kind: HandlerKind, client: ClientId, fn: nat, token: Token)
    | Off(client: ClientId, handle: nat)
    | Destroy(client: ClientId)

  function ListOf(st: State, key: (HandlerKind, ClientId)): seq<Token> {
    if key in st.lists then st.lists[key] else []
  }

  /** The first callback of a kind registers the bridge with the C client. */
  function AddCallback(st: State, key: (HandlerKind, ClientId), fn: nat, token: Token): State {
    var withBridge := if key in st.handlers then st
                   else st.(handlers := st.handlers[key := map[]],
                            bridges := st.bridges[key := token],
                            lists := st.lists[key := ListOf(st, key) + [token]]);
    var id: nat := st.lastId + 1;
    var callbacks: map<nat, nat> := withBridge.handlers[key];
    withBridge.(lastId := id,
             handlers := withBridge.handlers[key := callbacks[id := fn]],
             handles := st.handles + [Handle(Some(key.1), key.0, id)])
  }

  /** The last callback of a kind takes the bridge with it. */
  function DropCallback(st: State, key: (HandlerKind, ClientId), id: nat): State
    requires st.handlers.Keys == st.bridges.Keys
  {
    if key !in st.handlers then st
    else
      var rest := st.handlers[key] - {id};
      if rest == map[] then
        st.(handlers := st.handlers - {key},
            bridges := st.bridges - {key},
            lists := st.lists[key := Erase(ListOf(st, key), st.bridges[key])])
      else st.(handlers := st.handlers[key := rest])
  }

  function Step(st: State, op: Op): State
    requires st.handlers.Keys == st.bridges.Keys
  {
    match op
    case On(kind, client, fn, token) => AddCallback(st, (kind, client), fn, token)
    case Off(client, n) =>
      if n >= |st.handles| || st.handles[n].client != Some(client) then st
      else
        var h := st.handles[n];
        DropCallback(st, (h.kind, client), h.id).(handles := st.handles[n := h.(client := None)])
    case Destroy(client) =>
      var keys := set key | key in st.handlers && key.1 == client;
      var lists := set key | key in st.lists && key.1 == client;
      st.(handlers := st.handlers - keys, bridges := st.bridges - keys, lists := st.lists - lists)
  }

  // ---- The flat specification ----

  /** Every live callback under its own number. */
  datatype Flat = Flat(
    lastId: nat,
    callbacks: map<nat, (HandlerKind, ClientId, nat)>,
    handles: seq<Handle>)

  function FlatStep(flat: Flat, op: Op): Flat {
    match op
    case On(kind, client, fn, _) =>
      var id := flat.lastId + 1;
      Flat(id, flat.callbacks[id := (kind, client, fn)], flat.handles + [Handle(Some(client), kind, id)])
    case Off(client, n) =>
      if n >= |flat.handles| || flat.handles[n].client != Some(client) then flat
      else
        var h := flat.handles[n];
        flat.(callbacks := flat.callbacks - {h.id}, handles := flat.handles[n := h.(client := None)])
    case Destroy(client) =>
      flat.(callbacks := map id | id in flat.callbacks && flat.callbacks[id].1 != client :: flat.callbacks[id])
  }

  // ---- Refinement ----

  /** A handler map exists iff it is non-empty iff its bridge is the single entry of the C list. */
  ghost predicate Inv(st: State) {
    && st.handlers.Keys == st.bridges.Keys
    && (forall key :: key in st.handlers ==> st.handlers[key] != map[] && ListOf(st, key) == [st.bridges[key]])
    && (forall key :: key !in st.handlers ==> ListOf(st, key) == [])
  }

  ghost predicate Live(st: State, kind: HandlerKind, client: ClientId, id: nat, fn: nat) {
    (kind, client) in st.handlers && id in st.handlers[(kind, client)] && st.handlers[(kind, client)][id] == fn
  }

  predicate Holds(flat: Flat, kind: HandlerKind, client: ClientId, id: nat, fn: nat) {
    id in flat.callbacks && flat.callbacks[id] == (kind, client, fn)
  }

  /** The two levels hold exactly the flat set; an unused handle still names its own callback or none. */
  ghost predicate Refines(st: State, flat: Flat) {
    && st.lastId == flat.lastId && st.handles == flat.handles
    && (forall kind, client: ClientId, id: nat, fn: nat ::
          Live(st, kind, client, id, fn) <==> Holds(flat, kind, client, id, fn))
    && (forall id :: id in flat.callbacks ==> id <= flat.lastId)
    && (forall n :: 0 <= n < |flat.handles| ==> flat.handles[n].id <= flat.lastId)
    && (forall n, client | 0 <= n < |flat.handles| && flat.handles[n].client == Some(client)
                           && flat.handles[n].id in flat.callbacks ::
          flat.callbacks[flat.handles[n].id].0 == flat.handles[n].kind
          && flat.callbacks[flat.handles[n].id].1 == client)
  }

  lemma OnKeepsInv(st: State, key: (HandlerKind, ClientId), fn: nat, token: Token)
    requires Inv(st)
    ensures Inv(AddCallback(st, key, fn, token))
  {
    assert [] + [token] == [token];
    assert (st.lastId + 1) in AddCallback(st, key, fn, token).handlers[key];
  }

  lemma OffKeepsInv(st: State, key: (HandlerKind, ClientId), id: nat)
    requires Inv(st)
    ensures Inv(DropCallback(st, key, id))
  {
  }

  lemma StepKeepsInv(st: State, op: Op)
    requires Inv(st)
    ensures Inv(Step(st, op))
  {
    match op
    case On(kind, client, fn, token) => OnKeepsInv(st, (kind, client), fn, token);
    case Off(client, n) =>
      if n < |st.handles| {
        OffKeepsInv(st, (st.handles[n].kind, client), st.handles[n].id);
      }
    case Destroy(client) =>
  }

  lemma OnRefines(st: State, flat: Flat, op: Op)
    requires Inv(st) && Refines(st, flat) && op.On?
    ensures Refines(Step(st, op), FlatStep(flat, op))
  {
    var key, id := (op.kind, op.client), st.lastId + 1;
    var next, flat' := Step(st, op), FlatStep(flat, op);
    forall kind, client: ClientId, i: nat, fn: nat
      ensures Live(next, kind, client, i, fn) <==> Holds(flat', kind, client, i, fn)
    {
      if (kind, client) != key || i != id {
        assert Live(next, kind, client, i, fn) <==> Live(st, kind, client, i, fn);
      }
      if i == id && (kind, client) != key {
        assert Live(st, kind, client, id, fn) ==> id in flat.callbacks;
      }
    }
  }

  lemma OffRefines(st: State, flat: Flat, op: Op)
    requires Inv(st) && Refines(st, flat) && op.Off?
    ensures Refines(Step(st, op), FlatStep(flat, op))
  {
    var n := op.handle;
    if n < |st.handles| && st.handles[n].client == Some(op.client) {
      var h := st.handles[n];
      var next, flat' := Step(st, op), FlatStep(flat, op);
      forall kind, client: ClientId, i: nat, fn: nat
        ensures Live(next, kind, client, i, fn) <==> Holds(flat', kind, client, i, fn)
      {
        assert Live(st, kind, client, i, fn) <==> Holds(flat, kind, client, i, fn);
        var key := (h.kind, op.client);
        if key in st.handlers {
          var rest := st.handlers[key] - {h.id};
          assert i in st.handlers[key] && i != h.id ==> i in rest;
        }
        assert Live(next, kind, client, i, fn)
          <==> Live(st, kind, client, i, fn) && !((kind, client) == (h.kind, op.client) && i == h.id);
      }
    }
  }

  lemma DestroyRefines(st: State, flat: Flat, op: Op)
    requires Inv(st) && Refines(st, flat) && op.Destroy?
    ensures Refines(Step(st, op), FlatStep(flat, op))
  {
    var next, flat' := Step(st, op), FlatStep(flat, op);
    forall kind, client: ClientId, i: nat, fn: nat
      ensures Live(next, kind, client, i, fn) <==> Holds(flat', kind, client, i, fn)
    {
      assert Live(st, kind, client, i, fn) <==> Holds(flat, kind, client, i, fn);
      assert Live(next, kind, client, i, fn) <==> Live(st, kind, client, i, fn) && client != op.client;
    }
  }

  ghost function Run(st: State, ops: seq<Op>): State
    requires Inv(st)
    decreases ops
  {
    if ops == [] then st
    else
      StepKeepsInv(st, ops[0]);
      Run(Step(st, ops[0]), ops[1..])
  }

  const EMPTY_STATE := State(0, map[], map[], map[], [])

  const EMPTY_FLAT := Flat(0, map[], [])

  lemma {:induction false} RunLast(st: State, ops: seq<Op>, op: Op)
    requires Inv(st)
    ensures Inv(Run(st, ops)) && Run(st, ops + [op]) == Step(Run(st, ops), op)
    decreases ops
  {
    if ops == [] {
      assert [] + [op] == [op] && [op][1..] == [];
      StepKeepsInv(st, op);
    } else {
      assert (ops + [op])[1..] == ops[1..] + [op];
      StepKeepsInv(st, ops[0]);
      RunLast(Step(st, ops[0]), ops[1..], op);
    }
  }

  function FlatRun(flat: Flat, ops: seq<Op>): Flat
    decreases ops
  {
    if ops == [] then flat else FlatRun(FlatStep(flat, ops[0]), ops[1..])
  }

  lemma {:induction false} RunRefines(st: State, flat: Flat, ops: seq<Op>)
    requires Inv(st) && Refines(st, flat)
    ensures Inv(Run(st, ops)) && Refines(Run(st, ops), FlatRun(flat, ops))
    decreases ops
  {
    if ops != [] {
      var op := ops[0];
      StepKeepsInv(st, op);
      match op {
        case On(_, _, _, _) => OnRefines(st, flat, op);
        case Off(_, _) => OffRefines(st, flat, op);
        case Destroy(_) => DestroyRefines(st, flat, op);
      }
      RunRefines(Step(st, op), FlatStep(flat, op), ops[1..]);
    }
  }

  // ---- Dispatch ----

  /** The callbacks one event reaches: the bridge's snapshot, once for each entry of the C list. */
  function Reached(st: State, key: (HandlerKind, ClientId)): multiset<nat> {
    ReachedBy(ListOf(st, key), if key in st.handlers then st.handlers[key].Keys else {})
  }

  function ReachedBy(list: seq<Token>, snapshot: set<nat>): multiset<nat> {
    if list == [] then multiset{} else multiset(snapshot) + ReachedBy(list[1..], snapshot)
  }

  /** A callback of the given kind and client is live after the operations. */
  predicate LiveAfter(ops: seq<Op>, key: (HandlerKind, ClientId), id: nat) {
    var callbacks := FlatRun(EMPTY_FLAT, ops).callbacks;
    id in callbacks && callbacks[id].0 == key.0 && callbacks[id].1 == key.1
  }

  /** After any sequence of operations, an event reaches exactly the flat set's callbacks, each once. */
  lemma DispatchIsFlat(ops: seq<Op>, kind: HandlerKind, client: ClientId, id: nat)
    ensures Reached(Run(EMPTY_STATE, ops), (kind, client))[id] == if LiveAfter(ops, (kind, client), id) then 1 else 0
  {
    RunRefines(EMPTY_STATE, EMPTY_FLAT, ops);
    var st, flat, key := Run(EMPTY_STATE, ops), FlatRun(EMPTY_FLAT, ops), (kind, client);
    if key in st.handlers {
      assert ListOf(st, key)[1..] == [];
      assert ReachedBy(ListOf(st, key), st.handlers[key].Keys) == multiset(st.handlers[key].Keys);
      if id in st.handlers[key] {
        assert Live(st, kind, client, id, st.handlers[key][id]);
      }
    }
    if id in flat.callbacks {
      var (k, c, fn) := flat.callbacks[id];
      assert Live(st, k, c, id, fn);
    }
  }
}
