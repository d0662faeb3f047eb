/** Web servers and mock endpoints as the objects they are: routes and pending errors on the one,
    side effect, captures and owner on the other. */
module MockServer {

  import opened Options
  import opened Endpoints
  import opened EndpointPatches
  import opened Sequences

  datatype Kind = Http(autoReadBody: bool) | WebSocket

  datatype Route<S, R> = HttpRoute(endpoint: MockEndpoint<S, R>) | WebSocketRoute(endpoint: MockEndpoint<S, R>)

  datatype Protocol = OverHTTP | OverWebSocket

  function ProtocolOf<S, R>(ep: MockEndpoint<S, R>): Protocol {
    if ep.kind.Http? then OverHTTP else OverWebSocket
  }

  /** The route that the methods for one protocol look for. */
  function RouteFor<S, R>(p: Protocol, ep: MockEndpoint<S, R>): Route<S, R> {
    if p.OverHTTP? then HttpRoute(ep) else WebSocketRoute(ep)
  }

  function RouteOf<S, R>(ep: MockEndpoint<S, R>): Route<S, R> {
    RouteFor(ProtocolOf(ep), ep)
  }

  /** `NoAttribute`: an attribute was asked for that only endpoints of the other protocol have. */
  datatype Outcome = Done | PendingError(cause: Exn) | AddedTwice | BadRule | NotAdded | NotFound | NoAttribute

  class MockEndpoint<S, R> {
    const kind: Kind
    var sideEffect: S
    var captures: seq<nat>
    var calls: seq<seq<R>>
    var owner: WebServer?<S, R>

    ghost function State(): Endpoint<S, R>
      reads this, owner
    {
      Endpoint(sideEffect, captures, calls, if owner == null then Unowned else Owned(owner.pendingException),
               kind.WebSocket? || kind.autoReadBody)
    }

    constructor (kind: Kind, sideEffect: S)
      ensures this.kind == kind && owner == null
      ensures State() == Endpoint(sideEffect, [], [], Unowned, kind.WebSocket? || kind.autoReadBody)
    {
      this.kind, this.sideEffect := kind, sideEffect;
      captures, calls, owner := [], [], null;
    }

    /** `self.owner.raise_from_pending()` */
    method RaiseFromPending() returns (r: Result)
      modifies owner
      ensures owner != null ==> owner.routes == old(owner.routes)
      ensures (State(), r) == Endpoints.RaiseFromPending(old(State()))
    {
      if owner == null { return Raised(NotOwned); }
      var pending := owner.RaiseFromPending();
      return if pending.Some? then Raised(HandlerError(pending.value)) else Fine;
    }

    method Patch(bound: Option<S>) returns (r: Result, previous: S)
      modifies this`sideEffect, owner
      ensures owner != null ==> owner.routes == old(owner.routes)
      ensures (State(), r) == EnterPatch(old(State()), bound)
      ensures previous == old(sideEffect)
      ensures r == if old(owner == null) then Raised(NotOwned)
                   else if old(owner != null && owner.pendingException.Some?)
                   then Raised(HandlerError(old(owner.pendingException.value)))
                   else if bound.None? then Raised(BadSideEffect) else Fine
      ensures owner == old(owner) && (owner != null ==> owner.pendingException == None)
      ensures sideEffect == if r == Fine then bound.value else old(sideEffect)
    {
      previous := sideEffect;
      r := RaiseFromPending();
      if r.Raised? { return; }
      if bound.None? { return Raised(BadSideEffect), previous; }
      sideEffect := bound.value;
    }

    method ExitPatch(restore: S) returns (r: Result)
      modifies this`sideEffect, owner
      ensures owner != null ==> owner.routes == old(owner.routes)
      ensures (State(), r) == Endpoints.ExitPatch(old(State()), restore)
      ensures r == if old(owner == null) then Raised(NotOwned)
                   else if old(owner != null && owner.pendingException.Some?)
                   then Raised(HandlerError(old(owner.pendingException.value))) else Fine
      ensures owner == old(owner) && (owner != null ==> owner.pendingException == None)
      ensures sideEffect == restore
    {
      sideEffect := restore;
      r := RaiseFromPending();
    }

    method CaptureCalls() returns (r: Result, capture: nat)
      modifies this`captures, this`calls, owner
      ensures owner != null ==> owner.routes == old(owner.routes)
      ensures (State(), r) == EnterCapture(old(State()))
      ensures capture == |old(calls)|
      ensures r == if old(owner == null) then Raised(NotOwned)
                   else if old(owner != null && owner.pendingException.Some?)
                   then Raised(HandlerError(old(owner.pendingException.value)))
                   else if kind == Http(false) then Raised(CannotCapture) else Fine
      ensures owner == old(owner) && (owner != null ==> owner.pendingException == None)
      ensures captures == if r == Fine then old(captures) + [capture] else old(captures)
      ensures calls == if r == Fine then old(calls) + [[]] else old(calls)
    {
      capture := |calls|;
      r := RaiseFromPending();
      if r.Raised? { return; }
      if kind.Http? && !kind.autoReadBody { return Raised(CannotCapture), capture; }
      calls := calls + [[]];
      captures := captures + [capture];
    }

    method ExitCapture(capture: nat) returns (r: Result)
      modifies this`captures, owner
      ensures owner != null ==> owner.routes == old(owner.routes)
      ensures (State(), r) == Endpoints.ExitCapture(old(State()), capture)
      ensures r == if old(captures) == [] then Raised(EmptyStack)
                   else if old(captures[|captures| - 1]) != capture then Raised(ParallelCaptures)
                   else if old(owner == null) then Raised(NotOwned)
                   else if old(owner != null && owner.pendingException.Some?)
                   then Raised(HandlerError(old(owner.pendingException.value)))
                   else Fine
      ensures if r == Raised(EmptyStack) || r == Raised(ParallelCaptures)
              then captures == old(captures)
                   && (owner != null ==> owner.pendingException == old(owner.pendingException))
              else old(captures) == captures + [capture] && (owner != null ==> owner.pendingException == None)
    {
      if |captures| == 0 { return Raised(EmptyStack); }
      if captures[|captures| - 1] != capture { return Raised(ParallelCaptures); }
      captures := captures[..|captures| - 1];
      r := RaiseFromPending();
    }

    /** The recording of a served request, or of a websocket connection at its start. */
    method Record(r: R)
      requires State().Valid()
      modifies this`calls
      ensures State() == Served(old(State()), r)
    {
      ghost var before := calls;
      for i := 0 to |captures|
        invariant |calls| == |before|
        invariant forall c :: 0 <= c < |calls| ==>
                    calls[c] == if c in captures[..i] then before[c] + [r] else before[c]
      {
        assert captures[..i + 1] == captures[..i] + [captures[i]];
        assert captures[i] !in captures[..i];
        calls := calls[captures[i] := calls[captures[i]] + [r]];
      }
      assert captures[..|captures|] == captures;
    }

    /** A side effect raised: `self.owner.pending_exception = ex`. */
    method Fail(x: Exn)
      modifies owner
      ensures owner != null ==> owner.routes == old(owner.routes)
      ensures State() == Failed(old(State()), x)
    {
      if owner != null { owner.pendingException := Some(x); }
    }
  }

  class WebServer<S, R> {
    var pendingException: Option<Exn>
    var routes: seq<Route<S, R>>

    constructor ()
      ensures pendingException == None && routes == []
    {
      pendingException, routes := None, [];
    }

    /** `raise_from_pending`; the result is what it raises. */
    method RaiseFromPending() returns (raised: Option<Exn>)
      modifies this`pendingException
      ensures raised == old(pendingException) && pendingException == None
    {
      raised := pendingException;
      if pendingException.Some? { pendingException := None; }
    }

    /** `add_http_endpoint` and `add_ws_endpoint`, by protocol; `ruleOk` says whether the endpoint's
        rule makes a route. */
    method AddEndpoint(p: Protocol, ep: MockEndpoint<S, R>, ruleOk: bool) returns (r: Outcome)
      modifies this, ep`owner
      ensures pendingException == None
      ensures r == match old(pendingException)
                   case Some(x) => PendingError(x)
                   case None =>
                     if old(ep.owner) != null then AddedTwice
                     else if p != ProtocolOf(ep) then NoAttribute
                     else if !ruleOk then BadRule
                     else Done
      ensures r == Done ==> routes == old(routes) + [RouteOf(ep)] && ep.owner == this
      ensures r != Done ==> routes == old(routes) && ep.owner == old(ep.owner)
    {
      var raised := RaiseFromPending();
      if raised.Some? { return PendingError(raised.value); }
      if ep.owner != null { return AddedTwice; }
      if p != ProtocolOf(ep) { return NoAttribute; }
      if !ruleOk { return BadRule; }
      routes := routes + [RouteFor(p, ep)];
      ep.owner := this;
      return Done;
    }

    /** `remove_http_endpoint` and `remove_ws_endpoint`, by protocol. Both kinds of endpoints have the
        method `get` that HTTP routes are compared by; only websocket endpoints have the `endpoint`
        that websocket routes are compared by. */
    method RemoveEndpoint(p: Protocol, ep: MockEndpoint<S, R>) returns (r: Outcome)
      modifies this, ep`owner
      ensures pendingException == None
      ensures r == match old(pendingException)
                   case Some(x) => PendingError(x)
                   case None =>
                     if old(ep.owner) != this then NotAdded
                     else if NeedsAttribute(old(routes), p, ep) then NoAttribute
                     else if RouteFor(p, ep) !in old(routes) then NotFound
                     else Done
      ensures r == Done ==> routes == Without(old(routes), RouteFor(p, ep)) && ep.owner == null
      ensures r != Done ==> routes == old(routes) && ep.owner == old(ep.owner)
    {
      var raised := RaiseFromPending();
      if raised.Some? { return PendingError(raised.value); }
      if ep.owner != this { return NotAdded; }
      var i := 0;
      while i < |routes| && routes[i] != RouteFor(p, ep)
        invariant i <= |routes| && forall j :: 0 <= j < i ==> routes[j] != RouteFor(p, ep)
        invariant !NeedsAttribute(routes[..i], p, ep)
      {
        assert routes[..i + 1] == routes[..i] + [routes[i]];
        if routes[i].WebSocketRoute? && p.OverWebSocket? && ep.kind.Http? {
          assert routes[i] in routes;
          return NoAttribute;
        }
        i := i + 1;
      }
      assert routes[..|routes|] == routes;
      if i == |routes| { return NotFound; }
      if p.OverWebSocket? && ep.kind.Http? {
        assert routes[i] in routes;
        return NoAttribute;
      }
      assert FirstIndex(routes, RouteFor(p, ep)) == Some(i);
      routes := RemoveAt(routes, i);
      ep.owner := null;
      return Done;
    }
  }

  /** The search for a websocket route asks an HTTP endpoint for an attribute it does not have, at
      the first websocket route of the server. */
  ghost predicate NeedsAttribute<S, R>(routes: seq<Route<S, R>>, p: Protocol, ep: MockEndpoint<S, R>) {
    p.OverWebSocket? && ep.kind.Http? && exists route :: route in routes && route.WebSocketRoute?
  }

  // -------------------------------------------------------------------------------------------
  // Routes and owners, over several servers
  // -------------------------------------------------------------------------------------------

  /** An endpoint belongs to a server exactly when that server has one route for it; every other
      server has none, and none has one of the other protocol. */
  ghost predicate Consistent<S, R>(servers: set<WebServer<S, R>>, endpoints: set<MockEndpoint<S, R>>)
    reads servers, endpoints
  {
    && (forall ep :: ep in endpoints && ep.owner != null ==> ep.owner in servers)
    && forall s, ep, p :: s in servers && ep in endpoints ==>
         multiset(s.routes)[RouteFor(p, ep)] == if ep.owner == s && p == ProtocolOf(ep) then 1 else 0
  }

  datatype Operation<S, R> =
    | Add(p: Protocol, server: WebServer<S, R>, endpoint: MockEndpoint<S, R>, ruleOk: bool)
    | Remove(p: Protocol, server: WebServer<S, R>, endpoint: MockEndpoint<S, R>)
    | HandlerFails(server: WebServer<S, R>, x: Exn)

  /** Owners and pending errors, by endpoint and by server. */
  datatype Ledger<!S, !R> =
    Ledger(owner: map<MockEndpoint<S, R>, WebServer?<S, R>>, pending: map<WebServer<S, R>, Option<Exn>>)

  ghost function LedgerOf<S, R>(servers: set<WebServer<S, R>>, endpoints: set<MockEndpoint<S, R>>): Ledger<S, R>
    reads servers, endpoints
  {
    Ledger(map ep | ep in endpoints :: ep.owner, map s | s in servers :: s.pendingException)
  }

  predicate Concerns<S, R>(l: Ledger<S, R>, op: Operation<S, R>) {
    op.server in l.pending && (!op.HandlerFails? ==> op.endpoint in l.owner)
  }

  /** What becomes of the books; routes play no part in it. */
  function Booked<S, R>(l: Ledger<S, R>, op: Operation<S, R>): (l': Ledger<S, R>)
    requires Concerns(l, op)
    ensures l'.owner.Keys == l.owner.Keys && l'.pending.Keys == l.pending.Keys
  {
    match op
    case HandlerFails(s, x) => l.(pending := l.pending[s := Some(x)])
    case Add(p, s, ep, ruleOk) =>
      var cleared := l.(pending := l.pending[s := None]);
      if l.pending[s] == None && l.owner[ep] == null && p == ProtocolOf(ep) && ruleOk
      then cleared.(owner := l.owner[ep := s]) else cleared
    case Remove(p, s, ep) =>
      var cleared := l.(pending := l.pending[s := None]);
      if l.pending[s] == None && l.owner[ep] == s && p == ProtocolOf(ep)
      then cleared.(owner := l.owner[ep := null]) else cleared
  }

  /** Whether an outcome is the right one, by the books alone. A removal fails for want of a route
      exactly if it is asked of the owner, with nothing pending, over the other protocol. */
  predicate Fits<S, R>(l: Ledger<S, R>, op: Operation<S, R>, r: Outcome)
    requires Concerns(l, op)
  {
    if op.HandlerFails? then r == Done
    else
      match l.pending[op.server]
      case Some(x) => r == PendingError(x)
      case None =>
        var owner := l.owner[op.endpoint];
        if op.Add? then
          r == if owner != null then AddedTwice
               else if op.p != ProtocolOf(op.endpoint) then NoAttribute
               else if op.ruleOk then Done else BadRule
        else if owner != op.server then r == NotAdded
        else if op.p == ProtocolOf(op.endpoint) then r == Done
        else if op.p.OverHTTP? then r == NotFound
        else r == NotFound || r == NoAttribute
  }

  method AddIn<S, R>(servers: set<WebServer<S, R>>, endpoints: set<MockEndpoint<S, R>>, p: Protocol,
                     s: WebServer<S, R>, ep: MockEndpoint<S, R>, ruleOk: bool) returns (r: Outcome)
    requires Consistent(servers, endpoints) && s in servers && ep in endpoints
    modifies s, ep`owner
    ensures Consistent(servers, endpoints)
    ensures Fits(old(LedgerOf(servers, endpoints)), Add(p, s, ep, ruleOk), r)
    ensures LedgerOf(servers, endpoints) == Booked(old(LedgerOf(servers, endpoints)), Add(p, s, ep, ruleOk))
  {
    ghost var before := s.routes;
    r := s.AddEndpoint(p, ep, ruleOk);
    if r == Done { assert multiset(before + [RouteOf(ep)]) == multiset(before) + multiset{RouteOf(ep)}; }
  }

  method RemoveIn<S, R>(servers: set<WebServer<S, R>>, endpoints: set<MockEndpoint<S, R>>, p: Protocol,
                        s: WebServer<S, R>, ep: MockEndpoint<S, R>) returns (r: Outcome)
    requires Consistent(servers, endpoints) && s in servers && ep in endpoints
    modifies s, ep`owner
    ensures Consistent(servers, endpoints)
    ensures Fits(old(LedgerOf(servers, endpoints)), Remove(p, s, ep), r)
    ensures LedgerOf(servers, endpoints) == Booked(old(LedgerOf(servers, endpoints)), Remove(p, s, ep))
  {
    ghost var before := s.routes;
    assert RouteFor(p, ep) in before <==> ep.owner == s && p == ProtocolOf(ep) by {
      assert multiset(before)[RouteFor(p, ep)] == if ep.owner == s && p == ProtocolOf(ep) then 1 else 0;
      assert RouteFor(p, ep) in multiset(before) <==> RouteFor(p, ep) in before;
    }
    r := s.RemoveEndpoint(p, ep);
    if r == Done {
      forall q, other: MockEndpoint<S, R> {
        CountWithout(before, p, ep, q, other);
      }
    }
  }

  lemma CountWithout<S, R>(routes: seq<Route<S, R>>, p: Protocol, ep: MockEndpoint<S, R>,
                           q: Protocol, other: MockEndpoint<S, R>)
    requires RouteFor(p, ep) in routes
    ensures multiset(Without(routes, RouteFor(p, ep)))[RouteFor(q, other)]
            == multiset(routes)[RouteFor(q, other)] - if q == p && other == ep then 1 else 0
  {
    WithoutCount(routes, RouteFor(p, ep));
  }

  method OperateOnce<S, R>(servers: set<WebServer<S, R>>, endpoints: set<MockEndpoint<S, R>>, op: Operation<S, R>)
      returns (r: Outcome)
    requires Consistent(servers, endpoints) && Concerns(LedgerOf(servers, endpoints), op)
    modifies servers, endpoints`owner
    ensures Consistent(servers, endpoints)
    ensures Fits(old(LedgerOf(servers, endpoints)), op, r)
    ensures LedgerOf(servers, endpoints) == Booked(old(LedgerOf(servers, endpoints)), op)
  {
    match op {
      case Add(p, s, ep, ruleOk) => r := AddIn(servers, endpoints, p, s, ep, ruleOk);
      case Remove(p, s, ep) => r := RemoveIn(servers, endpoints, p, s, ep);
      case HandlerFails(s, x) =>
        s.pendingException := Some(x);
        r := Done;
    }
  }

  /** The books before each of the operations, and after all of them. */
  ghost predicate Kept<S, R>(books: seq<Ledger<S, R>>, ops: seq<Operation<S, R>>) {
    && |books| == |ops| + 1
    && forall i :: 0 <= i < |ops| ==> Concerns(books[i], ops[i]) && books[i + 1] == Booked(books[i], ops[i])
  }

  lemma KeptSnoc<S, R>(books: seq<Ledger<S, R>>, ops: seq<Operation<S, R>>, op: Operation<S, R>)
    requires Kept(books, ops) && Concerns(books[|ops|], op)
    ensures Kept(books + [Booked(books[|ops|], op)], ops + [op])
  {
    var books', ops' := books + [Booked(books[|ops|], op)], ops + [op];
    forall i | 0 <= i < |ops'| ensures Concerns(books'[i], ops'[i]) && books'[i + 1] == Booked(books'[i], ops'[i]) {
      if i < |ops| { assert books'[i] == books[i] && books'[i + 1] == books[i + 1] && ops'[i] == ops[i]; }
    }
  }

  /** Routes and owners stay consistent through any operations on any servers. Owners and pending
      errors are what the books say, and so is every outcome: the search for the route of an endpoint
      fails only, and always, over the other protocol. */
  method Operate<S, R>(servers: set<WebServer<S, R>>, endpoints: set<MockEndpoint<S, R>>, ops: seq<Operation<S, R>>)
      returns (outcomes: seq<Outcome>, ghost books: seq<Ledger<S, R>>)
    requires Consistent(servers, endpoints)
    requires forall op :: op in ops ==> Concerns(LedgerOf(servers, endpoints), op)
    modifies servers, endpoints`owner
    ensures Consistent(servers, endpoints)
    ensures Kept(books, ops) && books[0] == old(LedgerOf(servers, endpoints))
    ensures books[|ops|] == LedgerOf(servers, endpoints)
    ensures |outcomes| == |ops| && forall i :: 0 <= i < |ops| ==> Fits(books[i], ops[i], outcomes[i])
  {
    outcomes := [];
    books := [LedgerOf(servers, endpoints)];
    for i := 0 to |ops|
      invariant Consistent(servers, endpoints)
      invariant |outcomes| == i && Kept(books, ops[..i])
      invariant books[0] == old(LedgerOf(servers, endpoints)) && books[i] == LedgerOf(servers, endpoints)
      invariant forall k :: 0 <= k < i ==> Fits(books[k], ops[k], outcomes[k])
    {
      assert ops[i] in ops;
      var r := OperateOnce(servers, endpoints, ops[i]);
      KeptSnoc(books, ops[..i], ops[i]);
      outcomes, books := outcomes + [r], books + [LedgerOf(servers, endpoints)];
      assert ops[..i + 1] == ops[..i] + [ops[i]];
    }
    assert ops[..|ops|] == ops;
  }

  lemma WithoutCount<E>(s: seq<E>, x: E)
    requires x in s
    ensures multiset(Without(s, x)) == multiset(s) - multiset{x}
  {
    var i := FirstIndex(s, x).value;
    assert s == s[..i] + [x] + s[i + 1..];
  }

  // -------------------------------------------------------------------------------------------
  // Patched endpoints
  // -------------------------------------------------------------------------------------------

  function Routes<S, R>(eps: seq<MockEndpoint<S, R>>): seq<Route<S, R>> {
    seq(|eps|, i requires 0 <= i < |eps| => RouteOf(eps[i]))
  }

  ghost function EndpointsOf<E>(script: seq<PatchEvent<E>>): set<E> {
    set ev | ev in script && !ev.Failure? :: ev.endpoint
  }

  /** Removing a patched endpoint's route removes it from the patched ones. */
  lemma WithoutRoute<S, R>(initial: seq<Route<S, R>>, open: seq<MockEndpoint<S, R>>, ep: MockEndpoint<S, R>)
    requires RouteOf(ep) !in initial && ep in open
    ensures Without(initial + Routes(open), RouteOf(ep)) == initial + Routes(Without(open, ep))
  {
    var i := FirstIndex(open, ep).value;
    var all := initial + Routes(open);
    assert all[|initial| + i] == RouteOf(ep);
    forall j | 0 <= j < |initial| + i ensures all[j] != RouteOf(ep) {
      if j >= |initial| { assert all[j] == RouteOf(open[j - |initial|]); }
    }
    assert FirstIndex(all, RouteOf(ep)) == Some(|initial| + i);
    RemoveAfter(initial, Routes(open), i);
    assert Routes(RemoveAt(open, i)) == RemoveAt(Routes(open), i);
  }

  /** A server whose patches are in the state `p`, on top of its initial routes. */
  ghost predicate Patched<S, R>(server: WebServer<S, R>, initial: seq<Route<S, R>>, eps: set<MockEndpoint<S, R>>,
                                start: Start<MockEndpoint<S, R>>, p: Patches<MockEndpoint<S, R>>)
    reads server, eps
  {
    && server.routes == initial + Routes(p.open) && server.pendingException == p.pending
    && NoRepeats(p.open)
    && forall ep :: ep in eps ==>
         if ep in start.taken then ep !in p.open && ep.owner != null
         else RouteOf(ep) !in initial && ep.owner == if ep in p.open then server else null
  }

  /** The entry of a `patch_http_endpoint` or `patch_ws_endpoint` context. */
  method EnterEndpointPatch<S, R>(server: WebServer<S, R>, ep: MockEndpoint<S, R>,
                                  ghost initial: seq<Route<S, R>>, ghost eps: set<MockEndpoint<S, R>>,
                                  ghost start: Start<MockEndpoint<S, R>>, ghost p: Patches<MockEndpoint<S, R>>)
      returns (r: Outcome)
    requires Patched(server, initial, eps, start, p) && ep in eps
    modifies server, ep`owner
    ensures Patched(server, initial, eps, start, PatchStep(start, p, Enter(ep)))
    ensures ep in start.taken ==> ep.owner == old(ep.owner)
  {
    r := server.AddEndpoint(ProtocolOf(ep), ep, true);
    assert Routes(p.open + [ep]) == Routes(p.open) + [RouteOf(ep)];
    assert initial + Routes(p.open) + [RouteOf(ep)] == initial + (Routes(p.open) + [RouteOf(ep)]);
  }

  /** The exit of such a context. */
  method ExitEndpointPatch<S, R>(server: WebServer<S, R>, ep: MockEndpoint<S, R>,
                                 ghost initial: seq<Route<S, R>>, ghost eps: set<MockEndpoint<S, R>>,
                                 ghost start: Start<MockEndpoint<S, R>>, ghost p: Patches<MockEndpoint<S, R>>)
      returns (r: Outcome)
    requires Patched(server, initial, eps, start, p) && ep in eps && ep in p.open
    modifies server, ep`owner
    ensures Patched(server, initial, eps, start, PatchStep(start, p, Exit(ep)))
    ensures p.pending.None? ==> r == Done
  {
    WithoutRoute(initial, p.open, ep);
    forall x: MockEndpoint<S, R> | x in eps ensures x in Without(p.open, ep) <==> x in p.open && x != ep {
      WithoutMembers(p.open, ep, x);
    }
    WithoutMembers(p.open, ep, ep);
    assert RouteOf(ep) in server.routes by {
      var k :| 0 <= k < |p.open| && p.open[k] == ep;
      assert server.routes[|initial| + k] == RouteOf(ep);
    }
    r := server.RemoveEndpoint(ProtocolOf(ep), ep);
  }

  /** How things stand before a script of patch contexts. */
  ghost function StartOf<S, R>(server: WebServer<S, R>, eps: set<MockEndpoint<S, R>>): Start<MockEndpoint<S, R>>
    reads server, eps
  {
    Start((set ep | ep in eps && ep.owner != null), server.pendingException)
  }

  /** Patch contexts of one server, in any legal order: the routes are always the initial ones
      followed by those of the endpoints still patched in, in the order of their entries. An
      endpoint that belonged to a server at the start stays as it is. */
  method PatchEndpoints<S, R>(server: WebServer<S, R>, script: seq<PatchEvent<MockEndpoint<S, R>>>)
    requires LegalScript(StartOf(server, EndpointsOf(script)), script)
    requires forall ep :: ep in EndpointsOf(script) && ep.owner == null ==> RouteOf(ep) !in server.routes
    modifies server, EndpointsOf(script)
    ensures var start := old(StartOf(server, EndpointsOf(script)));
            var open := PatchRun(start, script).open;
            && server.routes == old(server.routes) + Routes(open)
            && Increasing(open, ep => LastEntry(start, script, ep))
            && forall ep :: ep in EndpointsOf(script) ==>
                 ep.owner == if old(ep.owner) != null then old(ep.owner)
                             else if PatchedIn(start, script, ep) then server else null
  {
    ghost var initial := server.routes;
    ghost var eps := EndpointsOf(script);
    ghost var start := StartOf(server, eps);
    for i := 0 to |script|
      invariant Patched(server, initial, eps, start, PatchRun(start, script[..i]))
      invariant forall ep :: ep in start.taken ==> ep.owner == old(ep.owner)
    {
      ghost var p := PatchRun(start, script[..i]);
      assert script[..i + 1][..i] == script[..i];
      assert script[i] in script;
      match script[i] {
        case Enter(ep) => var _ := EnterEndpointPatch(server, ep, initial, eps, start, p);
        case Exit(ep) =>
          LegalPrefix(start, script, i);
          RunAgrees(start, script[..i], ep);
          var _ := ExitEndpointPatch(server, ep, initial, eps, start, p);
        case Failure(x) => server.pendingException := Some(x);
      }
    }
    assert script[..|script|] == script;
    InEntryOrder(start, script);
    forall ep: MockEndpoint<S, R> | ep in eps ensures Agrees(PatchRun(start, script), start, script, ep) {
      RunAgrees(start, script, ep);
    }
  }

  // -------------------------------------------------------------------------------------------
  // Runs of one endpoint
  // -------------------------------------------------------------------------------------------

  /** `saved` holds, for each patch made by the first `n` events, the side effect it replaced. */
  ghost predicate Remembers<S, R>(start: Endpoint<S, R>, events: seq<Event<S, R>>, saved: map<nat, S>, n: nat)
    requires n <= |events|
  {
    forall k :: 0 <= k < n && MakesPatch(start, events, k) ==>
      k in saved && saved[k] == Run(start, events[..k]).sideEffect
  }

  lemma RemembersExited<S, R>(start: Endpoint<S, R>, events: seq<Event<S, R>>, saved: map<nat, S>, n: nat)
    requires n < |events| && LegalPatches(start, events) && Remembers(start, events, saved, n)
    ensures events[n].Unpatch? ==> events[n].patch in saved && saved[events[n].patch] == events[n].previous
  {
  }

  lemma RemembersStep<S, R>(start: Endpoint<S, R>, events: seq<Event<S, R>>, saved: map<nat, S>, n: nat)
    requires n < |events| && Remembers(start, events, saved, n)
    ensures var now, ev := Run(start, events[..n]), events[n];
            Remembers(start, events,
                      if ev.Replace? && After(now, ev).1 == Fine then saved[n := now.sideEffect] else saved, n + 1)
  {
  }

  /** One step on an endpoint, the `at`-th; `saved` is what the patches made so far restore. */
  method Happen<S, R>(ep: MockEndpoint<S, R>, at: nat, ev: Event<S, R>, saved: map<nat, S>)
      returns (saved': map<nat, S>)
    requires ep.State().Valid()
    requires ev.Unpatch? ==> ev.patch in saved && saved[ev.patch] == ev.previous
    modifies ep, ep.owner
    ensures ep.State() == After(old(ep.State()), ev).0
    ensures ep.owner == old(ep.owner)
    ensures saved' == if ev.Replace? && After(old(ep.State()), ev).1 == Fine
                      then saved[at := old(ep.State()).sideEffect] else saved
  {
    saved' := saved;
    match ev {
      case Open => var _, _ := ep.CaptureCalls();
      case Close(c) => var _ := ep.ExitCapture(c);
      case Serve(r) => ep.Record(r);
      case Fail(x) => ep.Fail(x);
      case Replace(bound) =>
        var r, previous := ep.Patch(bound);
        if r.Fine? { saved' := saved[at := previous]; }
      case Unpatch(patch, _) => var _ := ep.ExitPatch(saved[patch]);
    }
  }

  /** Any steps of a test and its server on one endpoint, captures and patches left in any order. The
      exit of a patch restores what its `patch` has returned. */
  method RunEvents<S, R>(ep: MockEndpoint<S, R>, events: seq<Event<S, R>>)
    requires ep.State().Valid()
    requires LegalPatches(ep.State(), events)
    modifies ep, ep.owner
    ensures ep.State() == Run(old(ep.State()), events)
    ensures ep.owner == old(ep.owner)
  {
    ghost var start := ep.State();
    var saved: map<nat, S> := map[];
    for i := 0 to |events|
      invariant ep.owner == old(ep.owner)
      invariant ep.State() == Run(start, events[..i])
      invariant Remembers(start, events, saved, i)
    {
      ghost var before := saved;
      assert events[..i + 1][..i] == events[..i];
      OpenOnStack(start, events[..i]);
      RemembersExited(start, events, saved, i);
      saved := Happen(ep, i, events[i], saved);
      RemembersStep(start, events, before, i);
    }
    assert events[..|events|] == events;
  }

  /** A well-nested test program, with `with` and `try` as Python runs them. */
  method RunProgram<S, R>(ep: MockEndpoint<S, R>, p: Program<S, R>) returns (result: Result, log: seq<R>)
    requires ep.State().Valid()
    modifies ep, ep.owner
    ensures Effect(ep.State(), result, log) == Exec(p, old(ep.State()))
    ensures ep.owner == null || ep.owner == old(ep.owner) || fresh(ep.owner)
    decreases p, 1
  {
    ProgramRestores(p, ep.State());
    log := [];
    match p {
      case Patch(bound, body) =>
        var previous;
        result, previous := ep.Patch(bound);
        if result.Raised? { return; }
        result, log := RunPrograms(ep, body);
        var exit := ep.ExitPatch(previous);
        result := Leaving(result, exit);
      case Capture(body) =>
        var capture;
        result, capture := ep.CaptureCalls();
        if result.Raised? { return; }
        result, log := RunPrograms(ep, body);
        var exit := ep.ExitCapture(capture);
        result := Leaving(result, exit);
      case Try(catches, body) =>
        result, log := RunPrograms(ep, body);
        if result.Raised? && catches(result.error) { result := Fine; }
      case Request(r) =>
        ep.Record(r);
        return Fine, [r];
      case Failure(x) =>
        ep.Fail(x);
        return Fine, [];
      case Raise =>
        return Raised(UserError), [];
      case Detach =>
        ep.owner := null;
        return Fine, [];
      case Attach(pending) =>
        var server := new WebServer<S, R>();
        server.pendingException := pending;
        ep.owner := server;
        return Fine, [];
    }
  }

  method RunPrograms<S, R>(ep: MockEndpoint<S, R>, ps: seq<Program<S, R>>) returns (result: Result, log: seq<R>)
    requires ep.State().Valid()
    modifies ep, ep.owner
    ensures Effect(ep.State(), result, log) == ExecAll(ps, old(ep.State()))
    ensures ep.owner == null || ep.owner == old(ep.owner) || fresh(ep.owner)
    decreases ps, 0
  {
    if |ps| == 0 { return Fine, []; }
    ghost var start := ep.State();
    ProgramRestores(ps[0], start);
    result, log := RunProgram(ep, ps[0]);
    if result.Raised? { return; }
    var more;
    result, more := RunPrograms(ep, ps[1..]);
    log := log + more;
  }
}
