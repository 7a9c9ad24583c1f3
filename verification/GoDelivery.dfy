/** From one event of a C client to the Go callbacks behind its bridge. */
module GoDelivery {
  import opened Clients
  import opened Registry

  /** The Go callbacks that calls of a bridge reach: its snapshot, once for each call. */
  function GoCalls(calls: seq<Call>, snapshot: set<nat>): multiset<nat> {
    if calls == [] then multiset{} else multiset(snapshot) + GoCalls(calls[1..], snapshot)
  }

  lemma {:induction false} GoCallsReach(
    handlers: seq<HandlerToken>, event: Event, list: seq<Token>, snapshot: set<nat>)
    requires |handlers| == |list|
    ensures GoCalls(CallsOf(handlers, event), snapshot) == ReachedBy(list, snapshot)
  {
    if handlers != [] {
      GoCallsReach(handlers[1..], event, list[1..], snapshot);
      assert CallsOf(handlers, event)[1..] == CallsOf(handlers[1..], event);
    }
  }

  function Snapshot(st: State, key: (HandlerKind, ClientId)): set<nat> {
    if key in st.handlers then st.handlers[key].Keys else {}
  }

  /** If the C client's list holds the registrations that the Go package's operations left there, an event handed to
      that list reaches each live Go callback exactly once and no other. */
  lemma EventReachesLive(c: Client, kind: HandlerKind, client: ClientId, ops: seq<Op>, event: Event, id: nat)
    requires |c.ListFor(kind)| == |ListOf(Run(EMPTY_STATE, ops), (kind, client))|
    ensures var snapshot := Snapshot(Run(EMPTY_STATE, ops), (kind, client));
            GoCalls(CallsOf(c.ListFor(kind), event), snapshot)[id]
            == if LiveAfter(ops, (kind, client), id) then 1 else 0
  {
    var st, key := Run(EMPTY_STATE, ops), (kind, client);
    GoCallsReach(c.ListFor(kind), event, ListOf(st, key), Snapshot(st, key));
    DispatchIsFlat(ops, kind, client, id);
  }
}
