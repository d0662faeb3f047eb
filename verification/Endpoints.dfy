/** A mock endpoint as its test sees it: a replaceable side effect, a stack of captures, and errors
    of the handlers that surface at the next operation. HTTP and websocket endpoints differ here
    only in whether captures can be refused. */
module Endpoints {

  import opened Options

  type Exn = nat

  datatype Error =
    | HandlerError(cause: Exn)      // a handler's exception, raised in the test
    | NotOwned                      // the endpoint has no server to ask for pending errors
    | BadSideEffect                 // the side effect factory failed
    | CannotCapture                 // auto_read_body is disabled
    | ParallelCaptures              // the capture exited is not the innermost
    | EmptyStack                    // there is no innermost capture
    | UserError                     // raised by the test itself

  datatype Result = Fine | Raised(error: Error)

  /** The server an endpoint belongs to, as far as the endpoint looks at it. */
  datatype Owner = Unowned | Owned(pending: Option<Exn>)

  /** `calls` holds the lists of all captures made so far, `captures` the stack of those in force,
      each by its index in `calls`; later ones are above earlier ones. */
  datatype Endpoint<S, R> =
    Endpoint(sideEffect: S, captures: seq<nat>, calls: seq<seq<R>>, owner: Owner, canCapture: bool)
  {
    ghost predicate Valid() {
      && (forall i :: 0 <= i < |captures| ==> captures[i] < |calls|)
      && (forall i, j :: 0 <= i < j < |captures| ==> captures[i] < captures[j])
    }
  }

  // -------------------------------------------------------------------------------------------
  // Operations
  // -------------------------------------------------------------------------------------------

  function RaiseFromPending<S, R>(e: Endpoint<S, R>): (Endpoint<S, R>, Result) {
    match e.owner
    case Unowned => (e, Raised(NotOwned))
    case Owned(None) => (e, Fine)
    case Owned(Some(x)) => (e.(owner := Owned(None)), Raised(HandlerError(x)))
  }

  /** `patch`; `bound` is the side effect once bound to the endpoint. */
  function EnterPatch<S, R>(e: Endpoint<S, R>, bound: Option<S>): (Endpoint<S, R>, Result) {
    var (e', r) := RaiseFromPending(e);
    if r.Raised? then (e', r)
    else if bound.None? then (e', Raised(BadSideEffect))
    else (e'.(sideEffect := bound.value), Fine)
  }

  /** `EndpointPatch.__exit__` */
  function ExitPatch<S, R>(e: Endpoint<S, R>, previous: S): (Endpoint<S, R>, Result) {
    RaiseFromPending(e.(sideEffect := previous))
  }

  /** The entry of `capture_calls`; the new capture is the last of `calls`. */
  function EnterCapture<S, R>(e: Endpoint<S, R>): (Endpoint<S, R>, Result) {
    var (e', r) := RaiseFromPending(e);
    if r.Raised? then (e', r)
    else if !e'.canCapture then (e', Raised(CannotCapture))
    else (e'.(captures := e'.captures + [|e'.calls|], calls := e'.calls + [[]]), Fine)
  }

  /** The exit of `capture_calls` for the given capture. */
  function ExitCapture<S, R>(e: Endpoint<S, R>, capture: nat): (Endpoint<S, R>, Result) {
    var n := |e.captures|;
    if n == 0 then (e, Raised(EmptyStack))
    else if e.captures[n - 1] != capture then (e, Raised(ParallelCaptures))
    else RaiseFromPending(e.(captures := e.captures[..n - 1]))
  }

  /** A request that was served is appended to every capture in force. */
  function Served<S, R>(e: Endpoint<S, R>, r: R): Endpoint<S, R> {
    e.(calls := seq(|e.calls|, i requires 0 <= i < |e.calls| =>
                      if i in e.captures then e.calls[i] + [r] else e.calls[i]))
  }

  /** A handler failed. */
  function Failed<S, R>(e: Endpoint<S, R>, x: Exn): Endpoint<S, R> {
    if e.owner.Unowned? then e else e.(owner := Owned(Some(x)))
  }

  // -------------------------------------------------------------------------------------------
  // Arbitrary runs: captures entered and exited in any order
  // -------------------------------------------------------------------------------------------

  /** What the test and the server may do to an endpoint, step by step. `Unpatch` is the exit of the
      patch made by the given event, which saved the side effect `previous`. */
  datatype Event<S, R> =
    | Open
    | Close(capture: nat)
    | Serve(r: R)
    | Fail(x: Exn)
    | Replace(bound: Option<S>)
    | Unpatch(patch: nat, previous: S)

  function After<S, R>(e: Endpoint<S, R>, ev: Event<S, R>): (Endpoint<S, R>, Result) {
    match ev
    case Open => EnterCapture(e)
    case Close(c) => ExitCapture(e, c)
    case Serve(r) => (Served(e, r), Fine)
    case Fail(x) => (Failed(e, x), Fine)
    case Replace(bound) => EnterPatch(e, bound)
    case Unpatch(_, previous) => ExitPatch(e, previous)
  }

  function Run<S, R>(e: Endpoint<S, R>, events: seq<Event<S, R>>): Endpoint<S, R> {
    if events == [] then e else After(Run(e, events[..|events| - 1]), events[|events| - 1]).0
  }

  /** Only captures made in the run are exited, and each at most once. */
  ghost predicate Legal<S, R>(e: Endpoint<S, R>, events: seq<Event<S, R>>) {
    && (forall i :: 0 <= i < |events| && events[i].Close? ==>
          |e.calls| <= events[i].capture < |Run(e, events[..i]).calls|)
    && (forall i, j :: 0 <= i < j < |events| && events[i].Close? ==> events[i] != events[j])
  }

  lemma LegalSnoc<S, R>(e: Endpoint<S, R>, events: seq<Event<S, R>>, ev: Event<S, R>)
    requires Legal(e, events + [ev])
    ensures Legal(e, events)
    ensures ev.Close? ==> |e.calls| <= ev.capture < |Run(e, events).calls| && ev !in events
  {
    var all := events + [ev];
    assert all[..|events|] == events && all[|events|] == ev;
    forall i | 0 <= i < |events| ensures all[..i] == events[..i] && all[i] == events[i] {}
    if ev.Close? {
      forall i | 0 <= i < |events| ensures events[i] != ev { assert all[i] != all[|events|]; }
    }
  }

  lemma LegalStart<S, R>(e: Endpoint<S, R>, events: seq<Event<S, R>>, n: nat)
    requires Legal(e, events) && n <= |events|
    ensures Legal(e, events[..n])
  {
    var init := events[..n];
    forall i | 0 <= i < n ensures init[i] == events[i] && init[..i] == events[..i] {}
  }

  ghost predicate HoldsOpen<S, R>(e: Endpoint<S, R>, first: nat, events: seq<Event<S, R>>) {
    && e.Valid() && first <= |e.calls|
    && forall c :: first <= c < |e.calls| && Close(c) !in events ==> c in e.captures
  }

  lemma PopKeeps<S, R>(e: Endpoint<S, R>, c: nat)
    requires e.Valid()
    ensures var e' := ExitCapture(e, c).0;
            && e'.Valid() && e'.calls == e.calls
            && forall d :: d in e.captures && d != c ==> d in e'.captures
  {
    var n := |e.captures|;
    if n > 0 {
      assert e.captures == e.captures[..n - 1] + [e.captures[n - 1]];
    }
  }

  lemma HoldsOpenStep<S, R>(e: Endpoint<S, R>, first: nat, events: seq<Event<S, R>>, ev: Event<S, R>)
    requires HoldsOpen(e, first, events)
    ensures HoldsOpen(After(e, ev).0, first, events + [ev])
  {
    if ev.Close? {
      PopKeeps(e, ev.capture);
      assert ev in events + [ev];
    }
  }

  /** Every capture whose context is still open is on the stack, whatever the order of exits. */
  lemma {:induction false} OpenOnStack<S, R>(e: Endpoint<S, R>, events: seq<Event<S, R>>)
    requires e.Valid()
    ensures HoldsOpen(Run(e, events), |e.calls|, events)
    decreases |events|
  {
    if events != [] {
      var n := |events| - 1;
      assert events == events[..n] + [events[n]];
      OpenOnStack(e, events[..n]);
      HoldsOpenStep(Run(e, events[..n]), |e.calls|, events[..n], events[n]);
    }
  }

  /** So the read of the innermost capture never meets an empty stack; out of order it only finds
      another capture. */
  lemma ExitFindsCapture<S, R>(e: Endpoint<S, R>, events: seq<Event<S, R>>, c: nat)
    requires e.Valid() && Legal(e, events + [Close(c)])
    ensures var before := Run(e, events);
            && c in before.captures
            && ExitCapture(before, c).1 != Raised(EmptyStack)
            && (ExitCapture(before, c).1 == Raised(ParallelCaptures)
                <==> before.captures[|before.captures| - 1] != c)
  {
    LegalSnoc(e, events, Close(c));
    OpenOnStack(e, events);
    ExitOutcome(Run(e, events), c);
  }

  lemma ExitOutcome<S, R>(e: Endpoint<S, R>, c: nat)
    requires c in e.captures
    ensures ExitCapture(e, c).1 != Raised(EmptyStack)
    ensures ExitCapture(e, c).1 == Raised(ParallelCaptures) <==> e.captures[|e.captures| - 1] != c
  {
  }

  /** The requests served in a run. */
  function Requests<S, R>(events: seq<Event<S, R>>): seq<R> {
    if events == [] then []
    else
      var init, ev := Requests(events[..|events| - 1]), events[|events| - 1];
      if ev.Serve? then init + [ev.r] else init
  }

  lemma GrowsStep<S, R>(e: Endpoint<S, R>, ev: Event<S, R>, c: nat)
    requires c < |e.calls|
    ensures var e' := After(e, ev).0;
            && c < |e'.calls|
            && (c in e'.captures ==> c in e.captures)
            && e'.calls[c] == if ev.Serve? && c in e.captures then e.calls[c] + [ev.r] else e.calls[c]
  {
    match ev
    case Close(_) => if e.captures != [] { assert e.captures[..|e.captures| - 1] <= e.captures; }
    case _ =>
  }

  /** A capture holds exactly what was served while it was on the stack: its list grows by every
      request served while it stays there, and does not change once it has left. */
  lemma {:induction false} CaptureGrowsBy<S, R>(e: Endpoint<S, R>, events: seq<Event<S, R>>, c: nat)
    requires c < |e.calls|
    ensures c < |Run(e, events).calls|
    ensures c in Run(e, events).captures ==>
              c in e.captures && Run(e, events).calls[c] == e.calls[c] + Requests(events)
    ensures c !in e.captures ==> Run(e, events).calls[c] == e.calls[c]
    decreases |events|
  {
    if events != [] {
      var n := |events| - 1;
      CaptureGrowsBy(e, events[..n], c);
      GrowsStep(Run(e, events[..n]), events[n], c);
    }
  }

  /** At the end of the run the capture holds `held` and the requests served from the event `from` up
      to the k-th; it is still in force, or the k-th event is its own exit, which removed it. */
  ghost predicate HoldsUntil<S, R>(e: Endpoint<S, R>, events: seq<Event<S, R>>, c: nat, held: seq<R>,
                                   from: nat, k: nat)
  {
    && from <= k <= |events| && c < |Run(e, events).calls|
    && Run(e, events).calls[c] == held + Requests(events[from..k])
    && (c in Run(e, events).captures <==> k == |events|)
    && (k < |events| ==> events[k] == Close(c) && c in Run(e, events[..k]).captures)
  }

  lemma RequestsSnoc<S, R>(events: seq<Event<S, R>>, from: nat, n: nat)
    requires from <= n < |events|
    ensures Requests(events[from..n + 1])
            == Requests(events[from..n]) + if events[n].Serve? then [events[n].r] else []
  {
    assert events[from..n + 1][..n - from] == events[from..n];
  }

  lemma HoldsUntilStep<S, R>(e: Endpoint<S, R>, events: seq<Event<S, R>>, c: nat, held: seq<R>, from: nat, k: nat)
      returns (k': nat)
    requires events != [] && Run(e, events[..|events| - 1]).Valid()
    requires HoldsUntil(e, events[..|events| - 1], c, held, from, k)
    ensures HoldsUntil(e, events, c, held, from, k')
  {
    var n := |events| - 1;
    var before, ev := Run(e, events[..n]), events[n];
    assert events[..n][..k] == events[..k] && events[..n][from..k] == events[from..k];
    GrowsStep(before, ev, c);
    if c in Run(e, events).captures {
      k' := n + 1;
      RequestsSnoc(events, from, n);
    } else {
      k' := k;
      if k == n { LeavesByOwnExit(before, ev, c); }
    }
  }

  /** A capture in force at the start holds, at the end, what it held and the requests served up to
      the exit that removed it, or all of them if it is still in force; that exit is its own. */
  lemma {:induction false} CaptureHoldsUntil<S, R>(e: Endpoint<S, R>, events: seq<Event<S, R>>, c: nat)
      returns (k: nat)
    requires e.Valid() && c in e.captures
    ensures HoldsUntil(e, events, c, e.calls[c], 0, k)
    decreases |events|
  {
    k := 0;
    if events != [] {
      OpenOnStack(e, events[..|events| - 1]);
      k := CaptureHoldsUntil(e, events[..|events| - 1], c);
      k := HoldsUntilStep(e, events, c, e.calls[c], 0, k);
    }
  }

  /** The same for a capture made in the run, by the j-th event: it holds the requests served from
      there on up to its own exit, the k-th event, or up to the end. */
  lemma {:induction false} CaptureMadeHolds<S, R>(e: Endpoint<S, R>, events: seq<Event<S, R>>, j: nat)
      returns (k: nat)
    requires e.Valid() && j < |events| && events[j].Open?
    requires After(Run(e, events[..j]), events[j]).1 == Fine
    ensures HoldsUntil(e, events, |Run(e, events[..j]).calls|, [], j + 1, k)
    decreases |events|
  {
    var n := |events| - 1;
    if n == j {
      k := |events|;
      var c := CaptureMade(e, events, j);
      assert events[..j + 1] == events && events[j + 1..k] == [];
    } else {
      assert events[..n][..j] == events[..j];
      OpenOnStack(e, events[..n]);
      k := CaptureMadeHolds(e, events[..n], j);
      k := HoldsUntilStep(e, events, |Run(e, events[..j]).calls|, [], j + 1, k);
    }
  }

  lemma CaptureMade<S, R>(e: Endpoint<S, R>, events: seq<Event<S, R>>, j: nat) returns (c: nat)
    requires e.Valid() && j < |events| && events[j].Open?
    requires After(Run(e, events[..j]), events[j]).1 == Fine
    ensures c == |Run(e, events[..j]).calls|
    ensures var made := Run(e, events[..j + 1]);
            made.Valid() && c in made.captures && c < |made.calls| && made.calls[c] == []
  {
    var before, made := Run(e, events[..j]), Run(e, events[..j + 1]);
    c := |before.calls|;
    assert events[..j + 1][..j] == events[..j];
    OpenOnStack(e, events[..j + 1]);
    assert made.captures == before.captures + [c] && made.calls == before.calls + [[]];
    assert made.captures[|before.captures|] == c;
  }

  lemma LeavesByOwnExit<S, R>(e: Endpoint<S, R>, ev: Event<S, R>, c: nat)
    requires e.Valid() && c in e.captures && c !in After(e, ev).0.captures
    ensures ev == Close(c) && After(e, ev).0.calls == e.calls
  {
    if ev.Close? { PopKeeps(e, ev.capture); }
  }

  // -------------------------------------------------------------------------------------------
  // What exits out of order leave behind
  // -------------------------------------------------------------------------------------------

  /** The i-th event is an exit refused because another capture is innermost. */
  predicate Refused<S, R>(e: Endpoint<S, R>, events: seq<Event<S, R>>, i: nat)
    requires i < |events|
  {
    After(Run(e, events[..i]), events[i]).1 == Raised(ParallelCaptures)
  }

  ghost predicate ExitRefused<S, R>(e: Endpoint<S, R>, events: seq<Event<S, R>>, c: nat) {
    exists i :: 0 <= i < |events| && events[i] == Close(c) && Refused(e, events, i)
  }

  /** What is on the stack besides what was there at the start are captures made since. */
  ghost predicate Extends<S, R>(e: Endpoint<S, R>, now: Endpoint<S, R>) {
    && now.Valid() && |e.calls| <= |now.calls|
    && e.captures <= now.captures
    && forall i :: |e.captures| <= i < |now.captures| ==> |e.calls| <= now.captures[i]
  }

  lemma ExtendsPop<S, R>(e: Endpoint<S, R>, now: Endpoint<S, R>, next: Endpoint<S, R>, c: nat)
    requires e.Valid() && Extends(e, now) && |e.calls| <= c
    requires next.Valid() && next.calls == now.calls && now.captures == next.captures + [c]
    ensures Extends(e, next)
  {
    assert now.captures[|next.captures|] == c;
    assert forall i :: 0 <= i < |next.captures| ==> next.captures[i] == now.captures[i];
  }

  lemma ExtendsPush<S, R>(e: Endpoint<S, R>, now: Endpoint<S, R>)
    requires Extends(e, now)
    ensures Extends(e, EnterCapture(now).0)
  {
    var next := EnterCapture(now).0;
    assert next.captures == now.captures || next.captures == now.captures + [|now.calls|];
  }

  lemma StackKept<S, R>(e: Endpoint<S, R>, ev: Event<S, R>)
    requires !ev.Open? && !ev.Close?
    ensures After(e, ev).0.captures == e.captures && |After(e, ev).0.calls| == |e.calls|
  {
  }

  lemma ExtendsSame<S, R>(e: Endpoint<S, R>, now: Endpoint<S, R>, next: Endpoint<S, R>)
    requires Extends(e, now) && next.captures == now.captures && |next.calls| == |now.calls|
    ensures Extends(e, next)
  {
  }

  lemma ExtendsStep<S, R>(e: Endpoint<S, R>, now: Endpoint<S, R>, ev: Event<S, R>)
    requires e.Valid() && Extends(e, now)
    requires ev.Close? ==> |e.calls| <= ev.capture && ev.capture in now.captures
    ensures Extends(e, After(now, ev).0)
  {
    match ev
    case Close(c) =>
      var (next, r) := ExitCapture(now, c);
      ExitTakes(now, c);
      if r == Raised(ParallelCaptures) { ExtendsSame(e, now, next); } else { ExtendsPop(e, now, next, c); }
    case Open => ExtendsPush(e, now);
    case _ =>
      StackKept(now, ev);
      ExtendsSame(e, now, After(now, ev).0);
  }

  /** Of the captures made since the start, exactly those are on the stack that are not exited yet or
      whose exit was refused. */
  ghost predicate Leftover<S, R>(e: Endpoint<S, R>, events: seq<Event<S, R>>, now: Endpoint<S, R>) {
    && (forall c: nat :: Close(c) in events ==> c < |now.calls|)
    && forall c: nat :: |e.calls| <= c < |now.calls| ==>
         (c in now.captures <==> Close(c) !in events || ExitRefused(e, events, c))
  }

  lemma ExitRefusedSnoc<S, R>(e: Endpoint<S, R>, events: seq<Event<S, R>>, ev: Event<S, R>, c: nat)
    ensures ExitRefused(e, events + [ev], c)
            <==> ExitRefused(e, events, c)
                 || (ev == Close(c) && After(Run(e, events), ev).1 == Raised(ParallelCaptures))
  {
    var all := events + [ev];
    assert all[..|events|] == events;
    forall i | 0 <= i < |events| ensures Refused(e, all, i) <==> Refused(e, events, i) {
      assert all[..i] == events[..i];
    }
    if ExitRefused(e, events, c) {
      var i :| 0 <= i < |events| && events[i] == Close(c) && Refused(e, events, i);
      assert all[i] == Close(c) && Refused(e, all, i);
    }
    if ev == Close(c) && After(Run(e, events), ev).1 == Raised(ParallelCaptures) {
      assert all[|events|] == Close(c) && Refused(e, all, |events|);
    }
  }

  /** An exit that is not refused takes its own capture, and nothing else, from the stack. */
  lemma ExitTakes<S, R>(e: Endpoint<S, R>, c: nat)
    requires e.Valid() && c in e.captures
    ensures var (e', r) := ExitCapture(e, c);
            && e'.calls == e.calls && e'.Valid()
            && (r == Raised(ParallelCaptures) ==> e' == e)
            && (r != Raised(ParallelCaptures) ==> e.captures == e'.captures + [c] && c !in e'.captures)
  {
    var n := |e.captures|;
    assert e.captures == e.captures[..n - 1] + [e.captures[n - 1]];
  }

  lemma StackKeptOrPushed<S, R>(e: Endpoint<S, R>, ev: Event<S, R>)
    requires !ev.Close?
    ensures var next, n := After(e, ev).0, |e.calls|;
            || (next.captures == e.captures && |next.calls| == n)
            || (next.captures == e.captures + [n] && |next.calls| == n + 1)
  {
  }

  lemma LeftoverOther<S, R>(e: Endpoint<S, R>, events: seq<Event<S, R>>, now: Endpoint<S, R>, ev: Event<S, R>)
    requires now == Run(e, events) && Leftover(e, events, now) && !ev.Close?
    ensures Leftover(e, events + [ev], After(now, ev).0)
  {
    StackKeptOrPushed(now, ev);
    forall c: nat
      ensures ExitRefused(e, events + [ev], c) <==> ExitRefused(e, events, c)
      ensures Close(c) in events + [ev] <==> Close(c) in events
    {
      ExitRefusedSnoc(e, events, ev, c);
    }
  }

  lemma LeftoverClose<S, R>(e: Endpoint<S, R>, events: seq<Event<S, R>>, now: Endpoint<S, R>, x: nat)
    requires now == Run(e, events) && Leftover(e, events, now) && now.Valid()
    requires |e.calls| <= x < |now.calls| && Close(x) !in events
    ensures Leftover(e, events + [Close(x)], ExitCapture(now, x).0)
  {
    ExitTakes(now, x);
    var refused := ExitCapture(now, x).1 == Raised(ParallelCaptures);
    forall c: nat
      ensures ExitRefused(e, events + [Close(x)], c) <==> ExitRefused(e, events, c) || (c == x && refused)
      ensures Close(c) in events + [Close(x)] <==> Close(c) in events || c == x
    {
      ExitRefusedSnoc(e, events, Close(x), c);
    }
    assert !ExitRefused(e, events, x);
  }

  lemma {:induction false} RunLeftover<S, R>(e: Endpoint<S, R>, events: seq<Event<S, R>>)
    requires e.Valid() && Legal(e, events)
    ensures Extends(e, Run(e, events)) && Leftover(e, events, Run(e, events))
    decreases |events|
  {
    if events != [] {
      var n := |events| - 1;
      var init, ev := events[..n], events[n];
      assert events == init + [ev];
      LegalSnoc(e, init, ev);
      RunLeftover(e, init);
      if ev.Close? { assert ev.capture in Run(e, init).captures; }
      ExtendsStep(e, Run(e, init), ev);
      if ev.Close? { LeftoverClose(e, init, Run(e, init), ev.capture); }
      else { LeftoverOther(e, init, Run(e, init), ev); }
    }
  }

  /** The i-th event exits a capture while one made later has not been exited. */
  ghost predicate OutOfOrder<S, R>(e: Endpoint<S, R>, events: seq<Event<S, R>>, i: nat)
    requires i < |events|
  {
    && events[i].Close?
    && exists d: nat :: events[i].capture < d < |Run(e, events[..i]).calls| && Close(d) !in events[..i]
  }

  lemma LaterOnTop<S, R>(e: Endpoint<S, R>, c: nat, d: nat)
    requires e.Valid() && c in e.captures && d in e.captures && c < d
    ensures ExitCapture(e, c).1 == Raised(ParallelCaptures)
  {
    var last := e.captures[|e.captures| - 1];
    assert d <= last;
  }

  lemma OutOfOrderIsRefused<S, R>(e: Endpoint<S, R>, events: seq<Event<S, R>>, i: nat)
    requires e.Valid() && Legal(e, events) && i < |events| && OutOfOrder(e, events, i)
    ensures Refused(e, events, i)
  {
    var c := events[i].capture;
    var d: nat :| c < d < |Run(e, events[..i]).calls| && Close(d) !in events[..i];
    LegalStart(e, events, i + 1);
    assert events[..i + 1] == events[..i] + [events[i]];
    LegalSnoc(e, events[..i], events[i]);
    OpenOnStack(e, events[..i]);
    LaterOnTop(Run(e, events[..i]), c, d);
  }

  /** While no exit has been refused, every capture made since the start that is on the stack is
      open. */
  lemma OnStackIsOpen<S, R>(e: Endpoint<S, R>, events: seq<Event<S, R>>, d: nat)
    requires e.Valid() && Legal(e, events)
    requires forall j :: 0 <= j < |events| ==> !Refused(e, events, j)
    requires |e.calls| <= d && d in Run(e, events).captures
    ensures d < |Run(e, events).calls| && Close(d) !in events
  {
    RunLeftover(e, events);
    assert !ExitRefused(e, events, d);
  }

  /** So what is in the way of the first refused exit is open. */
  lemma FirstRefusedIsOutOfOrder<S, R>(e: Endpoint<S, R>, events: seq<Event<S, R>>, i: nat)
    requires e.Valid() && Legal(e, events) && i < |events| && Refused(e, events, i)
    requires forall j :: 0 <= j < i ==> !Refused(e, events, j)
    ensures OutOfOrder(e, events, i)
  {
    var init, before := events[..i], Run(e, events[..i]);
    OnlyExitsAreRefused(before, events[i]);
    var c := events[i].capture;
    var d := InTheWay(e, init, c) by {
      LegalStart(e, events, i + 1);
      assert events[..i + 1] == init + [Close(c)];
    }
    LegalStart(e, events, i);
    forall j | 0 <= j < i ensures !Refused(e, init, j) {
      assert init[..j] == events[..j] && init[j] == events[j];
      assert Refused(e, init, j) == Refused(e, events, j);
    }
    OnStackIsOpen(e, init, d);
  }

  lemma InTheWay<S, R>(e: Endpoint<S, R>, events: seq<Event<S, R>>, c: nat) returns (d: nat)
    requires e.Valid() && Legal(e, events + [Close(c)])
    requires ExitCapture(Run(e, events), c).1 == Raised(ParallelCaptures)
    ensures |e.calls| <= c < d && d in Run(e, events).captures
  {
    LegalSnoc(e, events, Close(c));
    OpenOnStack(e, events);
    d := LastOnStack(Run(e, events), c);
  }

  lemma LastOnStack<S, R>(e: Endpoint<S, R>, c: nat) returns (d: nat)
    requires e.Valid() && c in e.captures && ExitCapture(e, c).1 == Raised(ParallelCaptures)
    ensures c < d && d in e.captures
  {
    d := e.captures[|e.captures| - 1];
    assert c != d;
  }

  /** In every run some exit is refused if and only if some exit is out of order. */
  lemma RefusedExactlyWhen<S, R>(e: Endpoint<S, R>, events: seq<Event<S, R>>)
    requires e.Valid() && Legal(e, events)
    ensures (exists i :: 0 <= i < |events| && Refused(e, events, i))
            <==> exists i :: 0 <= i < |events| && OutOfOrder(e, events, i)
  {
    if i :| 0 <= i < |events| && OutOfOrder(e, events, i) { OutOfOrderIsRefused(e, events, i); }
    if i :| 0 <= i < |events| && Refused(e, events, i) {
      var first := FirstRefused(e, events, i);
      FirstRefusedIsOutOfOrder(e, events, first);
    }
  }

  lemma {:induction false} FirstRefused<S, R>(e: Endpoint<S, R>, events: seq<Event<S, R>>, i: nat)
      returns (first: nat)
    requires i < |events| && Refused(e, events, i)
    ensures first < |events| && Refused(e, events, first)
    ensures forall j :: 0 <= j < first ==> !Refused(e, events, j)
    decreases i
  {
    if j :| 0 <= j < i && Refused(e, events, j) { first := FirstRefused(e, events, j); }
    else { first := i; }
  }

  /** Once every capture made has been exited, the stack is what it was if and only if each was exited
      when none made after it was open; otherwise the captures left behind, which go on recording,
      are those of the refused exits. */
  lemma AllClosedRestoresStack<S, R>(e: Endpoint<S, R>, events: seq<Event<S, R>>)
    requires e.Valid() && Legal(e, events)
    requires forall c: nat :: |e.calls| <= c < |Run(e, events).calls| ==> Close(c) in events
    ensures Run(e, events).captures == e.captures <==> forall i :: 0 <= i < |events| ==> !OutOfOrder(e, events, i)
    ensures forall c: nat :: |e.calls| <= c < |Run(e, events).calls| ==>
              (c in Run(e, events).captures <==> ExitRefused(e, events, c))
  {
    var now := Run(e, events);
    RunLeftover(e, events);
    RefusedExactlyWhen(e, events);
    if i :| 0 <= i < |events| && Refused(e, events, i) { RefusedStays(e, events, i); }
    if now.captures != e.captures {
      var c := now.captures[|e.captures|];
      assert c in now.captures;
      var i :| 0 <= i < |events| && events[i] == Close(c) && Refused(e, events, i);
    }
  }

  /** Two captures exited in the order of their making: the first stays on the stack for good. */
  lemma OutOfOrderLeavesCapture<S, R>(sideEffect: S)
    ensures var e: Endpoint<S, R> := Endpoint(sideEffect, [], [], Owned(None), true);
            var events := [Open, Open, Close(0), Close(1)];
            && e.Valid() && Legal(e, events)
            && |Run(e, events).calls| == 2 && Run(e, events).captures == [0]
            && OutOfOrder(e, events, 2)
  {
    var e: Endpoint<S, R> := Endpoint(sideEffect, [], [], Owned(None), true);
    var events: seq<Event<S, R>> := [Open, Open, Close(0), Close(1)];
    TwoCaptures(e);
    assert events[..2] == [Open, Open] && events[..3] == [Open, Open, Close(0)];
    assert Run(e, events).captures == [0] && |Run(e, events).calls| == 2 by {
      assert Run(e, events) == After(Run(e, events[..3]), Close(1)).0;
      assert [0, 1][..1] == [0];
    }
    assert Legal(e, events) by {
      forall i | 0 <= i < |events| && events[i].Close? ensures 0 <= events[i].capture < |Run(e, events[..i]).calls| {
        assert i == 2 || i == 3;
      }
    }
    assert 0 < 1 < |Run(e, events[..2]).calls| && Close(1) !in events[..2];
  }

  lemma TwoCaptures<S, R>(e: Endpoint<S, R>)
    requires e.captures == [] && e.calls == [] && e.owner == Owned(None) && e.canCapture
    ensures var two := Run(e, [Open, Open]);
            && two == e.(captures := [0, 1], calls := [[], []])
            && Run(e, [Open, Open, Close(0)]) == two
  {
    var one, two, three: seq<Event<S, R>> := [Open], [Open, Open], [Open, Open, Close(0)];
    assert one[..0] == [] && two[..1] == one && three[..2] == two;
    assert Run(e, one) == e.(captures := [0], calls := [[]]);
    assert Run(e, two) == EnterCapture(Run(e, one)).0;
  }

  lemma RefusedStays<S, R>(e: Endpoint<S, R>, events: seq<Event<S, R>>, i: nat)
    requires e.Valid() && Legal(e, events) && i < |events| && Refused(e, events, i)
    requires Leftover(e, events, Run(e, events))
    ensures events[i].Close? && events[i].capture in Run(e, events).captures
    ensures events[i].capture !in e.captures
  {
    OnlyExitsAreRefused(Run(e, events[..i]), events[i]);
    var c := events[i].capture;
    assert events[i] == Close(c) && ExitRefused(e, events, c);
    assert events[i] in events;
  }

  lemma OnlyExitsAreRefused<S, R>(e: Endpoint<S, R>, ev: Event<S, R>)
    requires After(e, ev).1 == Raised(ParallelCaptures)
    ensures ev.Close?
  {
  }

  // -------------------------------------------------------------------------------------------
  // Patches exited in any order
  // -------------------------------------------------------------------------------------------

  /** The i-th event made a patch. */
  predicate MakesPatch<S, R>(e: Endpoint<S, R>, events: seq<Event<S, R>>, i: nat)
    requires i < |events|
  {
    events[i].Replace? && After(Run(e, events[..i]), events[i]).1 == Fine
  }

  /** Only patches made in the run are exited, any number of times, and each restores what it saved. */
  ghost predicate LegalPatches<S, R>(e: Endpoint<S, R>, events: seq<Event<S, R>>) {
    forall j :: 0 <= j < |events| && events[j].Unpatch? ==>
      && events[j].patch < j && MakesPatch(e, events, events[j].patch)
      && events[j].previous == Run(e, events[..events[j].patch]).sideEffect
  }

  /** The event that bound the side effect in force after `n` events, if it is not the original one.
      Only the order of the calls matters. */
  function InForce<S, R>(e: Endpoint<S, R>, events: seq<Event<S, R>>, n: nat): (r: Option<nat>)
    requires n <= |events|
    ensures r.Some? ==> r.value < n && MakesPatch(e, events, r.value)
  {
    if n == 0 then None
    else if MakesPatch(e, events, n - 1) then Some(n - 1)
    else if events[n - 1].Unpatch? && events[n - 1].patch < n then InForce(e, events, events[n - 1].patch)
    else InForce(e, events, n - 1)
  }

  function BoundBy<S, R>(e: Endpoint<S, R>, events: seq<Event<S, R>>, maker: Option<nat>): S
    requires maker.Some? ==> maker.value < |events| && MakesPatch(e, events, maker.value)
  {
    if maker.None? then e.sideEffect else events[maker.value].bound.value
  }

  lemma SideEffectStep<S, R>(e: Endpoint<S, R>, ev: Event<S, R>)
    ensures var (e', r) := After(e, ev);
            e'.sideEffect == if ev.Unpatch? then ev.previous
                             else if ev.Replace? && r == Fine then ev.bound.value
                             else e.sideEffect
  {
  }

  lemma {:induction false} SideEffectInForce<S, R>(e: Endpoint<S, R>, events: seq<Event<S, R>>, n: nat)
    requires LegalPatches(e, events) && n <= |events|
    ensures Run(e, events[..n]).sideEffect == BoundBy(e, events, InForce(e, events, n))
    decreases n
  {
    if n > 0 {
      assert events[..n][..n - 1] == events[..n - 1];
      SideEffectStep(Run(e, events[..n - 1]), events[n - 1]);
      if events[n - 1].Unpatch? { SideEffectInForce(e, events, events[n - 1].patch); }
      else { SideEffectInForce(e, events, n - 1); }
    }
  }

  /** The original side effect is in force exactly when the chain of exits and patches that leads to
      the one in force ends at the start, or at a patch that happens to bind the same. */
  lemma OriginalReturnsExactlyWhen<S, R>(e: Endpoint<S, R>, events: seq<Event<S, R>>)
    requires LegalPatches(e, events)
    ensures var maker := InForce(e, events, |events|);
            Run(e, events).sideEffect == e.sideEffect
            <==> maker == None || events[maker.value].bound == Some(e.sideEffect)
  {
    assert events[..|events|] == events;
    SideEffectInForce(e, events, |events|);
  }

  function Top(open: seq<nat>): Option<nat> {
    if open == [] then None else Some(open[|open| - 1])
  }

  function NextOpen<S, R>(e: Endpoint<S, R>, events: seq<Event<S, R>>, open: seq<nat>, n: nat): seq<nat>
    requires n < |events|
  {
    if MakesPatch(e, events, n) then open + [n]
    else if events[n].Unpatch? && open != [] then open[..|open| - 1]
    else open
  }

  /** The patches not exited yet, if each exit is of the last of them. */
  function OpenPatches<S, R>(e: Endpoint<S, R>, events: seq<Event<S, R>>, n: nat): seq<nat>
    requires n <= |events|
  {
    if n == 0 then [] else NextOpen(e, events, OpenPatches(e, events, n - 1), n - 1)
  }

  /** Up to the n-th event, each exit is of the last patch that is open. */
  predicate LastInFirstOut<S, R>(e: Endpoint<S, R>, events: seq<Event<S, R>>, n: nat)
    requires n <= |events|
  {
    n == 0 ||
    (&& LastInFirstOut(e, events, n - 1)
     && (events[n - 1].Unpatch? ==> Some(events[n - 1].patch) == Top(OpenPatches(e, events, n - 1))))
  }

  /** The patch in force is the last that is open, and the one that was in force when it was made is
      the one below it, all the way down. */
  ghost predicate Chain<S, R>(e: Endpoint<S, R>, events: seq<Event<S, R>>, open: seq<nat>, n: nat)
    requires n <= |events|
  {
    && InForce(e, events, n) == Top(open)
    && forall i :: 0 <= i < |open| ==> open[i] < n && InForce(e, events, open[i]) == Top(open[..i])
  }

  lemma ChainPush<S, R>(e: Endpoint<S, R>, events: seq<Event<S, R>>, open: seq<nat>, n: nat)
    requires n < |events| && MakesPatch(e, events, n) && Chain(e, events, open, n)
    ensures Chain(e, events, open + [n], n + 1)
  {
    var next := open + [n];
    forall i | 0 <= i < |next| ensures next[i] < n + 1 && InForce(e, events, next[i]) == Top(next[..i]) {
      if i < |open| { assert next[..i] == open[..i] && next[i] == open[i]; } else { assert next[..i] == open; }
    }
  }

  lemma ChainPop<S, R>(e: Endpoint<S, R>, events: seq<Event<S, R>>, open: seq<nat>, n: nat)
    requires n < |events| && events[n].Unpatch? && Chain(e, events, open, n)
    requires open != [] && events[n].patch == open[|open| - 1]
    ensures Chain(e, events, open[..|open| - 1], n + 1)
  {
    var next := open[..|open| - 1];
    assert InForce(e, events, open[|open| - 1]) == Top(next);
    forall i | 0 <= i < |next| ensures next[i] < n + 1 && InForce(e, events, next[i]) == Top(next[..i]) {
      assert next[..i] == open[..i] && next[i] == open[i];
    }
  }

  lemma ChainSame<S, R>(e: Endpoint<S, R>, events: seq<Event<S, R>>, open: seq<nat>, n: nat)
    requires n < |events| && !MakesPatch(e, events, n) && !events[n].Unpatch? && Chain(e, events, open, n)
    ensures Chain(e, events, open, n + 1)
  {
    assert InForce(e, events, n + 1) == InForce(e, events, n);
  }

  lemma ChainStep<S, R>(e: Endpoint<S, R>, events: seq<Event<S, R>>, open: seq<nat>, n: nat)
    requires n < |events| && Chain(e, events, open, n)
    requires events[n].Unpatch? ==> Some(events[n].patch) == Top(open)
    ensures Chain(e, events, NextOpen(e, events, open, n), n + 1)
  {
    if MakesPatch(e, events, n) { ChainPush(e, events, open, n); }
    else if events[n].Unpatch? { ChainPop(e, events, open, n); }
    else { ChainSame(e, events, open, n); }
  }

  lemma {:induction false} OpenPatchesChain<S, R>(e: Endpoint<S, R>, events: seq<Event<S, R>>, n: nat)
    requires n <= |events| && LastInFirstOut(e, events, n)
    ensures Chain(e, events, OpenPatches(e, events, n), n)
    decreases n
  {
    if n > 0 {
      OpenPatchesChain(e, events, n - 1);
      var open, next := OpenPatches(e, events, n - 1), OpenPatches(e, events, n);
      assert next == NextOpen(e, events, open, n - 1);
      ChainStep(e, events, open, n - 1);
    }
  }

  /** So once all patches are exited, last in, first out, the original side effect is back. */
  lemma NestedPatchesRestore<S, R>(e: Endpoint<S, R>, events: seq<Event<S, R>>)
    requires LegalPatches(e, events) && LastInFirstOut(e, events, |events|)
    requires OpenPatches(e, events, |events|) == []
    ensures Run(e, events).sideEffect == e.sideEffect
  {
    assert events[..|events|] == events;
    OpenPatchesChain(e, events, |events|);
    SideEffectInForce(e, events, |events|);
  }

  /** In another order it may not be: of two patches exited in the order of their making, the side
      effect of the first stays. */
  lemma OutOfOrderLeavesPatch<S, R>(o: S, a: S, b: S)
    ensures var e: Endpoint<S, R> := Endpoint(o, [], [], Owned(None), true);
            var events := [Replace(Some(a)), Replace(Some(b)), Unpatch(0, o), Unpatch(1, a)];
            && LegalPatches(e, events)
            && Run(e, events).sideEffect == a
  {
    var e: Endpoint<S, R> := Endpoint(o, [], [], Owned(None), true);
    var events: seq<Event<S, R>> := [Replace(Some(a)), Replace(Some(b)), Unpatch(0, o), Unpatch(1, a)];
    assert Run(e, events[..0]) == e;
    assert events[..1][..0] == events[..0] && Run(e, events[..1]) == e.(sideEffect := a);
    assert MakesPatch(e, events, 0) && MakesPatch(e, events, 1);
    SideEffectStep(Run(e, events[..3]), events[3]);
    assert events[..3] == events[..|events| - 1];
  }

  // -------------------------------------------------------------------------------------------
  // Failures of handlers surface, once
  // -------------------------------------------------------------------------------------------

  /** The i-th event is an operation that asks for a failure: the entry of a capture, either end of a
      patch, or the exit of the innermost capture. */
  predicate Asks<S, R>(e: Endpoint<S, R>, events: seq<Event<S, R>>, i: nat)
    requires i < |events|
  {
    match events[i]
    case Close(c) => var stack := Run(e, events[..i]).captures; stack != [] && stack[|stack| - 1] == c
    case Serve(_) => false
    case Fail(_) => false
    case _ => true
  }

  /** The failure that waits after `n` events: the latest one since an operation last asked, or the
      one that was pending at the start. */
  function Waiting<S, R>(e: Endpoint<S, R>, events: seq<Event<S, R>>, n: nat): Option<Exn>
    requires n <= |events| && e.owner.Owned?
  {
    if n == 0 then e.owner.pending
    else if events[n - 1].Fail? then Some(events[n - 1].x)
    else if Asks(e, events, n - 1) then None
    else Waiting(e, events, n - 1)
  }

  /** What an operation raises if no failure waits. */
  function OwnError<S, R>(e: Endpoint<S, R>, ev: Event<S, R>): Result {
    if ev.Open? && !e.canCapture then Raised(CannotCapture)
    else if ev == Replace(None) then Raised(BadSideEffect)
    else Fine
  }

  lemma AskStep<S, R>(e: Endpoint<S, R>, ev: Event<S, R>)
    requires e.owner.Owned? && !ev.Serve? && !ev.Fail?
    requires ev.Close? ==> e.captures != [] && e.captures[|e.captures| - 1] == ev.capture
    ensures After(e, ev).0.owner == Owned(None)
    ensures After(e, ev).1 == if e.owner.pending.Some? then Raised(HandlerError(e.owner.pending.value))
                              else OwnError(e, ev)
    ensures After(e, ev).0.canCapture == e.canCapture
  {
  }

  lemma OtherStep<S, R>(e: Endpoint<S, R>, ev: Event<S, R>)
    requires e.owner.Owned?
    requires ev.Serve? || ev.Fail?
             || (ev.Close? && (e.captures == [] || e.captures[|e.captures| - 1] != ev.capture))
    ensures After(e, ev).0.owner == if ev.Fail? then Owned(Some(ev.x)) else e.owner
    ensures !ev.Close? ==> After(e, ev).1 == Fine
    ensures ev.Close? ==> After(e, ev).1 == Raised(if e.captures == [] then EmptyStack else ParallelCaptures)
    ensures After(e, ev).0.canCapture == e.canCapture
  {
  }

  lemma {:induction false} WaitingIsPending<S, R>(e: Endpoint<S, R>, events: seq<Event<S, R>>, n: nat)
    requires n <= |events| && e.owner.Owned?
    ensures Run(e, events[..n]).owner == Owned(Waiting(e, events, n))
    ensures Run(e, events[..n]).canCapture == e.canCapture
    decreases n
  {
    if n > 0 {
      WaitingIsPending(e, events, n - 1);
      assert events[..n][..n - 1] == events[..n - 1];
      var before := Run(e, events[..n - 1]);
      if Asks(e, events, n - 1) { AskStep(before, events[n - 1]); } else { OtherStep(before, events[n - 1]); }
    }
  }

  /** In every run, what every step raises. An operation that asks raises the failure that waits; with
      none waiting, a capture is refused exactly if bodies are not read, and a patch fails exactly if
      its side effect cannot be made. */
  lemma RaisedInRun<S, R>(e: Endpoint<S, R>, events: seq<Event<S, R>>, i: nat)
    requires i < |events| && e.owner.Owned?
    ensures var r, waiting, ev := After(Run(e, events[..i]), events[i]).1, Waiting(e, events, i), events[i];
            if !Asks(e, events, i) then
              r == if !ev.Close? then Fine
                   else if Run(e, events[..i]).captures == [] then Raised(EmptyStack) else Raised(ParallelCaptures)
            else if waiting.Some? then r == Raised(HandlerError(waiting.value))
            else if ev.Open? then r == if e.canCapture then Fine else Raised(CannotCapture)
            else if ev.Replace? then r == if ev.bound.None? then Raised(BadSideEffect) else Fine
            else r == Fine
  {
    WaitingIsPending(e, events, i);
    var before := Run(e, events[..i]);
    if Asks(e, events, i) { AskStep(before, events[i]); } else { OtherStep(before, events[i]); }
  }

  /** The j-th event is the first that asks after the failure of the i-th, and no other handler has
      failed in between. */
  predicate RaisedAt<S, R>(e: Endpoint<S, R>, events: seq<Event<S, R>>, i: nat, j: nat)
    requires j < |events|
  {
    && i < j && events[i].Fail? && Asks(e, events, j)
    && forall k :: i < k < j ==> !events[k].Fail? && !Asks(e, events, k)
  }

  lemma {:induction false} WaitsSince<S, R>(e: Endpoint<S, R>, events: seq<Event<S, R>>, i: nat, n: nat)
    requires i < n <= |events| && e.owner.Owned?
    requires forall k :: i < k < n ==> !events[k].Fail? && !Asks(e, events, k)
    ensures events[i].Fail? ==> Waiting(e, events, n) == Some(events[i].x)
    ensures Asks(e, events, i) ==> Waiting(e, events, n) == None
    decreases n
  {
    if i < n - 1 { WaitsSince(e, events, i, n - 1); }
  }

  /** The event that decides what waits: the latest failure or the latest that asked. */
  lemma {:induction false} Decisive<S, R>(e: Endpoint<S, R>, events: seq<Event<S, R>>, n: nat) returns (i: int)
    requires n <= |events| && e.owner.Owned?
    ensures -1 <= i < n && (i >= 0 ==> events[i].Fail? || Asks(e, events, i))
    ensures forall k :: i < k < n ==> !events[k].Fail? && !Asks(e, events, k)
    ensures i == -1 ==> Waiting(e, events, n) == e.owner.pending
    decreases n
  {
    if n == 0 { i := -1; }
    else if events[n - 1].Fail? || Asks(e, events, n - 1) { i := n - 1; }
    else { i := Decisive(e, events, n - 1); }
  }

  /** A failure is raised by the first operation that asks after it, and by no other, unless another
      failure has come in between; and every handler error that is raised is such a failure, or the
      one that was pending at the start. */
  lemma FailureRaisedOnce<S, R>(e: Endpoint<S, R>, events: seq<Event<S, R>>, j: nat)
    requires j < |events| && e.owner.Owned?
    ensures var r := After(Run(e, events[..j]), events[j]).1;
            && (forall i: nat :: i < j && RaisedAt(e, events, i, j) ==> r == Raised(HandlerError(events[i].x)))
            && (r.Raised? && r.error.HandlerError? ==>
                  || (exists i: nat :: i < j && RaisedAt(e, events, i, j) && r.error.cause == events[i].x)
                  || (e.owner.pending == Some(r.error.cause)
                      && forall k :: 0 <= k < j ==> !events[k].Fail? && !Asks(e, events, k)))
    ensures forall i: nat, l: nat :: l < |events| && RaisedAt(e, events, i, j) && RaisedAt(e, events, i, l) ==> l == j
  {
    RaisedInRun(e, events, j);
    forall i: nat | i < j && RaisedAt(e, events, i, j) ensures Waiting(e, events, j) == Some(events[i].x) {
      WaitsSince(e, events, i, j);
    }
    var i := Decisive(e, events, j);
    if i >= 0 { WaitsSince(e, events, i, j); }
  }

  // -------------------------------------------------------------------------------------------
  // Well-nested programs
  // -------------------------------------------------------------------------------------------

  /** A test program: nested blocks, blocks that catch some of the errors raised in them, and
      between them whatever else may happen, handlers failing at any point included. */
  datatype Program<S, R> =
    | Patch(bound: Option<S>, body: seq<Program>)
    | Capture(body: seq<Program>)
    | Try(catches: Error -> bool, body: seq<Program>)
    | Request(r: R)
    | Failure(x: Exn)
    | Raise
    | Detach
    | Attach(pending: Option<Exn>)

  /** What a program does: the endpoint after it, how it ends, and the requests served in it. */
  datatype Effect<S, R> = Effect(endpoint: Endpoint<S, R>, result: Result, log: seq<R>)

  /** An exception raised on leaving a block replaces the one it is left with. */
  function Leaving(inner: Result, exit: Result): Result {
    if exit.Raised? then exit else inner
  }

  function Exec<S, R>(p: Program<S, R>, e: Endpoint<S, R>): Effect<S, R>
    decreases p, 1
  {
    match p
    case Patch(bound, body) =>
      var (e1, r1) := EnterPatch(e, bound);
      if r1.Raised? then Effect(e1, r1, [])
      else
        var inner := ExecAll(body, e1);
        var (e2, r2) := ExitPatch(inner.endpoint, e.sideEffect);
        Effect(e2, Leaving(inner.result, r2), inner.log)
    case Capture(body) =>
      var (e1, r1) := EnterCapture(e);
      if r1.Raised? then Effect(e1, r1, [])
      else
        var inner := ExecAll(body, e1);
        var (e2, r2) := ExitCapture(inner.endpoint, |e.calls|);
        Effect(e2, Leaving(inner.result, r2), inner.log)
    case Try(catches, body) =>
      var inner := ExecAll(body, e);
      if inner.result.Raised? && catches(inner.result.error) then inner.(result := Fine) else inner
    case Request(r) => Effect(Served(e, r), Fine, [r])
    case Failure(x) => Effect(Failed(e, x), Fine, [])
    case Raise => Effect(e, Raised(UserError), [])
    case Detach => Effect(e.(owner := Unowned), Fine, [])
    case Attach(pending) => Effect(e.(owner := Owned(pending)), Fine, [])
  }

  function ExecAll<S, R>(ps: seq<Program<S, R>>, e: Endpoint<S, R>): Effect<S, R>
    decreases ps, 0
  {
    if |ps| == 0 then Effect(e, Fine, [])
    else
      var first := Exec(ps[0], e);
      if first.result.Raised? then first
      else
        var rest := ExecAll(ps[1..], first.endpoint);
        Effect(rest.endpoint, rest.result, first.log + rest.log)
  }

  /** The endpoint is left as it was found, but for what was served to captures in force: their
      lists grow by exactly the requests served, and lists of other captures are not touched. */
  ghost predicate Restored<S, R>(e: Endpoint<S, R>, done: Effect<S, R>) {
    var e' := done.endpoint;
    && e'.sideEffect == e.sideEffect && e'.captures == e.captures && e'.canCapture == e.canCapture
    && |e.calls| <= |e'.calls|
    && (forall c :: 0 <= c < |e.calls| ==> e'.calls[c] == if c in e.captures then e.calls[c] + done.log else e.calls[c])
    && (done.result.Raised? ==> !done.result.error.ParallelCaptures? && !done.result.error.EmptyStack?)
  }

  /** Every well-nested program returns the side effect and the capture stack to their entry
      values, even when errors are raised on entry to or exit from any of its blocks. */
  lemma {:induction false} ProgramRestores<S, R>(p: Program<S, R>, e: Endpoint<S, R>)
    requires e.Valid()
    ensures Restored(e, Exec(p, e))
    decreases p, 1
  {
    match p
    case Patch(bound, body) =>
      var (e1, r1) := EnterPatch(e, bound);
      if r1.Fine? { ProgramsRestore(body, e1); }
    case Capture(body) => CaptureHoldsItsRequests(body, e);
    case Try(_, body) => ProgramsRestore(body, e);
    case _ =>
  }

  lemma {:induction false} ProgramsRestore<S, R>(ps: seq<Program<S, R>>, e: Endpoint<S, R>)
    requires e.Valid()
    ensures Restored(e, ExecAll(ps, e))
    decreases ps, 0
  {
    if |ps| > 0 {
      ProgramRestores(ps[0], e);
      var first := Exec(ps[0], e);
      if first.result.Fine? { ProgramsRestore(ps[1..], first.endpoint); }
    }
  }

  /** The list of a capture is what was served in its block, and each enclosing capture's list
      grows by that same list: it is a contiguous slice of every one of them. */
  lemma {:induction false} CaptureHoldsItsRequests<S, R>(body: seq<Program<S, R>>, e: Endpoint<S, R>)
    requires e.Valid()
    ensures var done := Exec(Capture(body), e);
            && Restored(e, done)
            && (EnterCapture(e).1.Fine? ==>
                  && |e.calls| < |done.endpoint.calls|
                  && var mine := done.endpoint.calls[|e.calls|];
                     && mine == done.log
                     && forall c :: c in e.captures ==> done.endpoint.calls[c] == e.calls[c] + mine)
    decreases body, 2
  {
    var (e1, r1) := EnterCapture(e);
    if r1.Fine? {
      ProgramsRestore(body, e1);
      ExitRestores(e, ExecAll(body, e1));
    }
  }

  /** The exit of the innermost capture changes the stack, and perhaps what is pending. */
  lemma InnermostExit<S, R>(e: Endpoint<S, R>, rest: seq<nat>, c: nat)
    requires e.captures == rest + [c]
    ensures var (e', r) := ExitCapture(e, c);
            && e'.captures == rest && e'.calls == e.calls
            && e'.sideEffect == e.sideEffect && e'.canCapture == e.canCapture
            && (r.Raised? ==> r.error.HandlerError? || r.error.NotOwned?)
  {
    assert (rest + [c])[..|rest|] == rest;
  }

  /** The exit of a capture, after a block that has restored what it found. */
  lemma ExitRestores<S, R>(e: Endpoint<S, R>, inner: Effect<S, R>)
    requires e.Valid() && EnterCapture(e).1.Fine? && Restored(EnterCapture(e).0, inner)
    ensures var (e', r) := ExitCapture(inner.endpoint, |e.calls|);
            && Restored(e, Effect(e', Leaving(inner.result, r), inner.log))
            && |e.calls| < |e'.calls| && e'.calls[|e.calls|] == inner.log
  {
    var e1, n := EnterCapture(e).0, |e.calls|;
    InnermostExit(inner.endpoint, e.captures, n);
    var calls := inner.endpoint.calls;
    assert n in e1.captures && calls[n] == e1.calls[n] + inner.log == [] + inner.log;
    forall c | 0 <= c < n ensures calls[c] == if c in e.captures then e.calls[c] + inner.log else e.calls[c] {
      assert c in e1.captures <==> c in e.captures;
      assert e1.calls[c] == e.calls[c];
    }
  }

  /** Statements run one after another, up to the first that raises. */
  lemma {:induction false} ExecAppend<S, R>(ps: seq<Program<S, R>>, qs: seq<Program<S, R>>, e: Endpoint<S, R>)
    ensures var first := ExecAll(ps, e);
            var rest := ExecAll(qs, first.endpoint);
            ExecAll(ps + qs, e) == if first.result.Raised? then first
                                   else Effect(rest.endpoint, rest.result, first.log + rest.log)
    decreases |ps|
  {
    if ps == [] {
      assert ps + qs == qs;
    } else {
      assert (ps + qs)[1..] == ps[1..] + qs;
      var one := Exec(ps[0], e);
      if one.result.Fine? {
        ExecAppend(ps[1..], qs, one.endpoint);
        assert forall a: seq<R>, b, c :: one.log + (a + b) + c == one.log + (a + (b + c));
      }
    }
  }

  /** A failure that is pending is raised on entry, and the body is not run. */
  lemma EntryRaises<S, R>(bound: Option<S>, body: seq<Program<S, R>>, e: Endpoint<S, R>, x: Exn)
    requires e.owner == Owned(Some(x))
    ensures Exec(Patch(bound, body), e) == Effect(e.(owner := Owned(None)), Raised(HandlerError(x)), [])
    ensures Exec(Capture(body), e) == Effect(e.(owner := Owned(None)), Raised(HandlerError(x)), [])
  {
  }

  /** How a block ends whose body ended as `inner`: with the failure that is pending then, in place of
      whatever the body raised, and otherwise as the body did. */
  ghost predicate EndsBlock<S, R>(inner: Effect<S, R>, done: Effect<S, R>) {
    && done.log == inner.log
    && match inner.endpoint.owner
       case Unowned => done.result == Raised(NotOwned) && done.endpoint.owner == Unowned
       case Owned(None) => done.result == inner.result && done.endpoint.owner == Owned(None)
       case Owned(Some(x)) => done.result == Raised(HandlerError(x)) && done.endpoint.owner == Owned(None)
  }

  lemma BlocksEnd<S, R>(bound: S, body: seq<Program<S, R>>, e: Endpoint<S, R>)
    requires e.Valid() && e.owner == Owned(None)
    ensures EndsBlock(ExecAll(body, e.(sideEffect := bound)), Exec(Patch(Some(bound), body), e))
    ensures e.canCapture ==>
              EndsBlock(ExecAll(body, e.(captures := e.captures + [|e.calls|], calls := e.calls + [[]])),
                        Exec(Capture(body), e))
  {
    var entered := e.(captures := e.captures + [|e.calls|], calls := e.calls + [[]]);
    if e.canCapture {
      assert EnterCapture(e) == (entered, Fine);
      ProgramsRestore(body, entered);
    }
  }

  /** Blocks of an endpoint follow its server: without one they raise, and they raise what is pending
      on a new one. */
  lemma BlocksFollowServer<S, R>(bound: Option<S>, body: seq<Program<S, R>>, e: Endpoint<S, R>, x: Exn)
    ensures ExecAll([Detach, Patch(bound, body)], e).result == Raised(NotOwned)
    ensures ExecAll([Detach, Capture(body)], e).result == Raised(NotOwned)
    ensures ExecAll([Attach(Some(x)), Patch(bound, body)], e).result == Raised(HandlerError(x))
    ensures ExecAll([Attach(Some(x)), Capture(body)], e).result == Raised(HandlerError(x))
  {
    Two(Detach, Patch(bound, body), e);
    Two(Detach, Capture(body), e);
    Two(Attach(Some(x)), Patch(bound, body), e);
    Two(Attach(Some(x)), Capture(body), e);
  }

  lemma Two<S, R>(first: Program<S, R>, second: Program<S, R>, e: Endpoint<S, R>)
    ensures ExecAll([first, second], e).result == if Exec(first, e).result.Raised? then Exec(first, e).result
                                                  else Exec(second, Exec(first, e).endpoint).result
  {
    assert [first, second][1..] == [second];
    One(second, Exec(first, e).endpoint);
  }

  lemma One<S, R>(p: Program<S, R>, e: Endpoint<S, R>)
    ensures ExecAll([p], e).result == Exec(p, e).result
  {
    assert [p][1..] == [];
    var after := Exec(p, e).endpoint;
    assert ExecAll([], after) == Effect(after, Fine, []);
  }

  /** A block that catches errors ends with none of those, and with no other than its body's. */
  lemma TryResult<S, R>(catches: Error -> bool, body: seq<Program<S, R>>, e: Endpoint<S, R>)
    ensures var inner, done := ExecAll(body, e), Exec(Try(catches, body), e);
            && done.endpoint == inner.endpoint && done.log == inner.log
            && (done.result.Raised? <==> inner.result.Raised? && !catches(inner.result.error))
            && (done.result.Raised? ==> done.result == inner.result)
  {
  }

  /** No block catches errors, and the endpoint stays with its server. */
  predicate Uncaught<S, R>(p: Program<S, R>) {
    match p
    case Patch(_, body) => forall i :: 0 <= i < |body| ==> Uncaught(body[i])
    case Capture(body) => forall i :: 0 <= i < |body| ==> Uncaught(body[i])
    case Try(_, _) => false
    case Detach => false
    case Attach(_) => false
    case _ => true
  }

  /** Nothing in the program can go wrong: no handler fails, the test raises nothing, every side
      effect can be made and every capture is allowed. */
  predicate Quiet<S, R>(p: Program<S, R>, canCapture: bool) {
    match p
    case Patch(bound, body) => bound.Some? && forall i :: 0 <= i < |body| ==> Quiet(body[i], canCapture)
    case Capture(body) => canCapture && forall i :: 0 <= i < |body| ==> Quiet(body[i], canCapture)
    case Try(_, body) => forall i :: 0 <= i < |body| ==> Quiet(body[i], canCapture)
    case Failure(_) => false
    case Raise => false
    case _ => true
  }

  /** The program ended without an error, and none is left to be raised later. */
  predicate Clean<S, R>(done: Effect<S, R>) {
    done.result.Fine? && done.endpoint.owner == Owned(None)
  }

  lemma PatchClean<S, R>(bound: Option<S>, body: seq<Program<S, R>>, e: Endpoint<S, R>)
    requires e.owner.Owned?
    requires bound.Some? ==> ExecAll(body, e.(sideEffect := bound.value)).endpoint.owner.Owned?
    ensures var done := Exec(Patch(bound, body), e);
            && done.endpoint.owner.Owned?
            && (Clean(done) <==> && e.owner == Owned(None) && bound.Some?
                                 && Clean(ExecAll(body, e.(sideEffect := bound.value))))
  {
  }

  lemma CaptureClean<S, R>(body: seq<Program<S, R>>, e: Endpoint<S, R>)
    requires e.Valid() && e.owner.Owned?
    requires ExecAll(body, EnterCapture(e).0).endpoint.owner.Owned?
    ensures var done := Exec(Capture(body), e);
            && done.endpoint.owner.Owned?
            && (Clean(done) <==> && e.owner == Owned(None) && e.canCapture
                                 && Clean(ExecAll(body, EnterCapture(e).0)))
  {
    if e.owner == Owned(None) && e.canCapture {
      var inner := ExecAll(body, EnterCapture(e).0);
      ProgramsRestore(body, EnterCapture(e).0);
      assert inner.endpoint.captures == e.captures + [|e.calls|];
    }
  }

  /** A program that catches nothing ends clean exactly if nothing was pending and nothing in it can
      go wrong: whatever goes wrong, a failing handler included, is raised or still pending. */
  lemma {:induction false} CleanExactlyWhenQuiet<S, R>(p: Program<S, R>, e: Endpoint<S, R>)
    requires e.Valid() && e.owner.Owned? && Uncaught(p)
    ensures Exec(p, e).endpoint.owner.Owned?
    ensures Clean(Exec(p, e)) <==> e.owner == Owned(None) && Quiet(p, e.canCapture)
    decreases p, 1
  {
    match p
    case Patch(bound, body) =>
      if bound.Some? { AllCleanExactlyWhenQuiet(body, e.(sideEffect := bound.value)); }
      PatchClean(bound, body, e);
    case Capture(body) =>
      AllCleanExactlyWhenQuiet(body, EnterCapture(e).0);
      CaptureClean(body, e);
    case _ =>
  }

  lemma {:induction false} AllCleanExactlyWhenQuiet<S, R>(ps: seq<Program<S, R>>, e: Endpoint<S, R>)
    requires e.Valid() && e.owner.Owned? && forall i :: 0 <= i < |ps| ==> Uncaught(ps[i])
    ensures ExecAll(ps, e).endpoint.owner.Owned?
    ensures Clean(ExecAll(ps, e))
            <==> e.owner == Owned(None) && forall i :: 0 <= i < |ps| ==> Quiet(ps[i], e.canCapture)
    decreases ps, 0
  {
    if |ps| > 0 {
      CleanExactlyWhenQuiet(ps[0], e);
      ProgramRestores(ps[0], e);
      var first := Exec(ps[0], e);
      if first.result.Fine? {
        AllCleanExactlyWhenQuiet(ps[1..], first.endpoint);
        assert forall i :: 0 < i < |ps| ==> ps[i] == ps[1..][i - 1];
      }
    }
  }
}
