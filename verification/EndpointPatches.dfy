/** Endpoints patched into a server: contexts that add a route and remove it again, entered and
    exited in any order, with errors of handlers raised on the way. */
module EndpointPatches {

  import opened Options
  import opened Endpoints
  import opened Sequences

  datatype PatchEvent<E> = Enter(endpoint: E) | Exit(endpoint: E) | Failure(x: Exn)

  /** How things stand before the first context: the endpoints that belong to a server already, and
      the error that may be pending. */
  datatype Start<E> = Start(taken: set<E>, pending: Option<Exn>)

  /** The endpoints patched in, in the order of their routes; those of them whose context is gone
      all the same; and the pending error. */
  datatype Patches<E> = Patches(open: seq<E>, leaked: set<E>, pending: Option<Exn>)

  /** `s.pop` of the first `x`, if there is one. */
  function Without<E(==)>(s: seq<E>, x: E): seq<E> {
    match FirstIndex(s, x)
    case Some(i) => RemoveAt(s, i)
    case None => s
  }

  /** A pending error is raised in place of the addition or the removal. An endpoint that belongs to
      a server is not added. */
  function PatchStep<E(==)>(start: Start<E>, p: Patches<E>, ev: PatchEvent<E>): Patches<E> {
    match ev
    case Failure(x) => p.(pending := Some(x))
    case Enter(ep) =>
      if p.pending.Some? then p.(pending := None)
      else if ep in start.taken || ep in p.open then p
      else p.(open := p.open + [ep])
    case Exit(ep) =>
      if p.pending.Some? then p.(pending := None, leaked := p.leaked + {ep})
      else p.(open := Without(p.open, ep))
  }

  function PatchRun<E(==)>(start: Start<E>, script: seq<PatchEvent<E>>): Patches<E> {
    if script == [] then Patches([], {}, start.pending)
    else PatchStep(start, PatchRun(start, script[..|script| - 1]), script[|script| - 1])
  }

  // -------------------------------------------------------------------------------------------
  // The script alone
  // -------------------------------------------------------------------------------------------

  /** An error is pending after the script: every entry and exit raises what it finds. */
  predicate ErrorPending<E>(start: Start<E>, script: seq<PatchEvent<E>>) {
    if script == [] then start.pending.Some? else script[|script| - 1].Failure?
  }

  /** The i-th event is an exit that finds an error pending. */
  predicate MeetsError<E>(start: Start<E>, script: seq<PatchEvent<E>>, i: nat)
    requires i < |script|
  {
    script[i].Exit? && ErrorPending(start, script[..i])
  }

  /** Some exit of `ep` found an error pending. */
  ghost predicate MetError<E>(start: Start<E>, script: seq<PatchEvent<E>>, ep: E) {
    exists i :: 0 <= i < |script| && script[i] == Exit(ep) && MeetsError(start, script, i)
  }

  /** The last exit of `ep`, or -1. */
  function LastExit<E(==)>(script: seq<PatchEvent<E>>, ep: E): (r: int)
    ensures -1 <= r < |script|
  {
    if script == [] then -1
    else if script[|script| - 1] == Exit(ep) then |script| - 1
    else LastExit(script[..|script| - 1], ep)
  }

  /** The last entry of `ep` that did not raise, or -1: no error was pending, and the endpoint
      belonged to no server. */
  ghost function LastEntry<E>(start: Start<E>, script: seq<PatchEvent<E>>, ep: E): (r: int)
    ensures -1 <= r < |script|
    decreases |script|, 0
  {
    if script == [] then -1
    else
      var n := |script| - 1;
      var init := script[..n];
      if script[n] == Enter(ep) && !ErrorPending(start, init) && ep !in start.taken && !PatchedIn(start, init, ep)
      then n else LastEntry(start, init, ep)
  }

  /** `ep` was entered after its last exit, or some exit of it met an error. */
  ghost predicate PatchedIn<E>(start: Start<E>, script: seq<PatchEvent<E>>, ep: E)
    decreases |script|, 1
  {
    LastEntry(start, script, ep) > LastExit(script, ep) || MetError(start, script, ep)
  }

  /** Contexts as Python makes them: one is exited only if it was entered, and once. */
  ghost predicate LegalScript<E>(start: Start<E>, script: seq<PatchEvent<E>>) {
    forall i :: 0 <= i < |script| && script[i].Exit? ==> MayExit(start, script[..i], script[i].endpoint)
  }

  ghost predicate MayExit<E>(start: Start<E>, script: seq<PatchEvent<E>>, ep: E) {
    PatchedIn(start, script, ep) && !MetError(start, script, ep)
  }

  lemma LegalPrefix<E>(start: Start<E>, script: seq<PatchEvent<E>>, n: nat)
    requires LegalScript(start, script) && n <= |script|
    ensures LegalScript(start, script[..n])
  {
    forall i | 0 <= i < n && script[i].Exit? ensures MayExit(start, script[..n][..i], script[i].endpoint) {
      assert script[..n][..i] == script[..i];
    }
  }

  lemma MetErrorSnoc<E>(start: Start<E>, script: seq<PatchEvent<E>>, ev: PatchEvent<E>, ep: E)
    ensures MetError(start, script + [ev], ep)
            <==> MetError(start, script, ep) || (ev == Exit(ep) && ErrorPending(start, script))
  {
    var all := script + [ev];
    assert all[..|script|] == script;
    forall i | 0 <= i < |script| ensures MeetsError(start, all, i) <==> MeetsError(start, script, i) {
      assert all[..i] == script[..i];
    }
    if MetError(start, script, ep) {
      var i :| 0 <= i < |script| && script[i] == Exit(ep) && MeetsError(start, script, i);
      assert all[i] == Exit(ep) && MeetsError(start, all, i);
    }
    if ev == Exit(ep) && ErrorPending(start, script) {
      assert all[|script|] == Exit(ep) && MeetsError(start, all, |script|);
    }
  }

  /** How one more event changes the last entry and the last exit. */
  lemma LastSnoc<E>(start: Start<E>, script: seq<PatchEvent<E>>, ev: PatchEvent<E>, ep: E)
    ensures LastExit(script + [ev], ep) == if ev == Exit(ep) then |script| else LastExit(script, ep)
    ensures LastEntry(start, script + [ev], ep)
            == if ev == Enter(ep) && !ErrorPending(start, script) && ep !in start.taken && !PatchedIn(start, script, ep)
               then |script| else LastEntry(start, script, ep)
  {
    assert (script + [ev])[..|script|] == script;
  }

  // -------------------------------------------------------------------------------------------
  // The state follows the script
  // -------------------------------------------------------------------------------------------

  ghost predicate NoRepeats<E>(s: seq<E>) {
    forall i, j :: 0 <= i < j < |s| ==> s[i] != s[j]
  }

  /** `s` is in strictly increasing order of `f`. */
  ghost predicate Increasing<E>(s: seq<E>, f: E -> int) {
    forall i, j :: 0 <= i < j < |s| ==> f(s[i]) < f(s[j])
  }

  lemma WithoutPlaces<E>(s: seq<E>, x: E)
    requires x in s
    ensures var i, w := FirstIndex(s, x), Without(s, x);
            && i.Some? && |w| == |s| - 1
            && forall j :: 0 <= j < |w| ==> w[j] == s[if j < i.value then j else j + 1]
  {
    RemovePlaces(s, FirstIndex(s, x).value);
  }

  lemma WithoutMembers<E>(s: seq<E>, x: E, y: E)
    requires NoRepeats(s)
    ensures NoRepeats(Without(s, x))
    ensures y in Without(s, x) <==> y in s && y != x
  {
    if x in s {
      WithoutPlaces(s, x);
      var i, w := FirstIndex(s, x).value, Without(s, x);
      if y in s && y != x {
        var k :| 0 <= k < |s| && s[k] == y;
        assert w[if k < i then k else k - 1] == y;
      }
      if y in w {
        var j :| 0 <= j < |w| && w[j] == y;
        assert s[if j < i then j else j + 1] == y;
      }
    }
  }

  lemma WithoutKeepsOrder<E>(s: seq<E>, x: E, f: E -> int)
    requires Increasing(s, f)
    ensures Increasing(Without(s, x), f)
  {
    if x in s { WithoutPlaces(s, x); }
  }

  lemma {:induction false} OpenNoRepeats<E>(start: Start<E>, script: seq<PatchEvent<E>>)
    ensures NoRepeats(PatchRun(start, script).open)
    decreases |script|
  {
    if script != [] {
      var init, ev := script[..|script| - 1], script[|script| - 1];
      OpenNoRepeats(start, init);
      if ev.Exit? { WithoutMembers(PatchRun(start, init).open, ev.endpoint, ev.endpoint); }
    }
  }

  /** Of any endpoint, the state says what the script says: whether it is patched in, whether its
      context is gone, and whether an error is pending. */
  ghost predicate Agrees<E>(p: Patches<E>, start: Start<E>, script: seq<PatchEvent<E>>, ep: E) {
    && (p.pending.Some? <==> ErrorPending(start, script))
    && (ep in p.leaked <==> MetError(start, script, ep))
    && (ep in p.open <==> PatchedIn(start, script, ep))
    && (ep in p.open ==> ep !in start.taken)
  }

  lemma {:induction false} RunAgrees<E>(start: Start<E>, script: seq<PatchEvent<E>>, ep: E)
    requires LegalScript(start, script)
    ensures Agrees(PatchRun(start, script), start, script, ep)
    decreases |script|
  {
    if script != [] {
      var n := |script| - 1;
      LegalPrefix(start, script, n);
      RunAgrees(start, script[..n], ep);
      OpenNoRepeats(start, script[..n]);
      assert script == script[..n] + [script[n]];
      AgreesStep(PatchRun(start, script[..n]), start, script[..n], script[n], ep);
    }
  }

  lemma AgreesStep<E>(p: Patches<E>, start: Start<E>, script: seq<PatchEvent<E>>, ev: PatchEvent<E>, ep: E)
    requires Agrees(p, start, script, ep) && NoRepeats(p.open)
    requires ev.Exit? ==> MayExit(start, script, ev.endpoint)
    ensures Agrees(PatchStep(start, p, ev), start, script + [ev], ep)
  {
    LastSnoc(start, script, ev, ep);
    MetErrorSnoc(start, script, ev, ep);
    if ev.Exit? { WithoutMembers(p.open, ev.endpoint, ep); }
  }

  /** The routes of the endpoints patched in are in entry order, whatever errors were met. */
  lemma {:induction false} InEntryOrder<E>(start: Start<E>, script: seq<PatchEvent<E>>)
    requires LegalScript(start, script)
    ensures Increasing(PatchRun(start, script).open, ep => LastEntry(start, script, ep))
    decreases |script|
  {
    if script != [] {
      var n := |script| - 1;
      var init, ev := script[..n], script[n];
      LegalPrefix(start, script, n);
      InEntryOrder(start, init);
      assert script == init + [ev];
      var p := PatchRun(start, init);
      if ev.Enter? { RunAgrees(start, init, ev.endpoint); }
      forall ep | ep in p.open ensures LastEntry(start, script, ep) == LastEntry(start, init, ep) < n {
        RunAgrees(start, init, ep);
        LastSnoc(start, init, ev, ep);
      }
      OrderStep(start, p, ev, ep => LastEntry(start, init, ep), ep => LastEntry(start, script, ep), n);
    }
  }

  lemma OrderStep<E>(start: Start<E>, p: Patches<E>, ev: PatchEvent<E>, entry: E -> int, entry': E -> int, n: nat)
    requires Increasing(p.open, entry)
    requires forall ep :: ep in p.open ==> entry'(ep) == entry(ep) < n
    requires ev.Enter? && p.pending.None? && ev.endpoint !in start.taken && ev.endpoint !in p.open ==>
               entry'(ev.endpoint) == n
    ensures Increasing(PatchStep(start, p, ev).open, entry')
  {
    if ev.Exit? { WithoutKeepsOrder(p.open, ev.endpoint, entry'); }
  }

  // -------------------------------------------------------------------------------------------
  // What a test can rely on
  // -------------------------------------------------------------------------------------------

  /** With no error pending at any exit, an endpoint is patched in exactly while its last entry is
      later than its last exit, and the routes are in entry order. */
  lemma OpenInEntryOrder<E>(start: Start<E>, script: seq<PatchEvent<E>>, ep: E)
    requires LegalScript(start, script) && forall i :: 0 <= i < |script| ==> !MeetsError(start, script, i)
    ensures var open := PatchRun(start, script).open;
            && Increasing(open, x => LastEntry(start, script, x))
            && (ep in open <==> LastEntry(start, script, ep) > LastExit(script, ep))
  {
    RunAgrees(start, script, ep);
    InEntryOrder(start, script);
  }

  /** No context is left open. */
  ghost predicate AllExited<E>(start: Start<E>, script: seq<PatchEvent<E>>) {
    forall i :: 0 <= i < |script| && script[i].Enter? ==>
      LastEntry(start, script, script[i].endpoint) <= LastExit(script, script[i].endpoint)
  }

  /** Once every context has been exited, in whatever order, the routes are back to what they were
      exactly if no exit met a pending error; the endpoints left behind are those of the exits that
      did. */
  lemma AllExitedRestores<E>(start: Start<E>, script: seq<PatchEvent<E>>)
    requires LegalScript(start, script) && AllExited(start, script)
    ensures PatchRun(start, script).open == [] <==> forall i :: 0 <= i < |script| ==> !MeetsError(start, script, i)
    ensures forall ep :: ep in PatchRun(start, script).open ==> MetError(start, script, ep)
    ensures forall i :: 0 <= i < |script| && MeetsError(start, script, i) ==>
              script[i].endpoint in PatchRun(start, script).open
  {
    var open := PatchRun(start, script).open;
    forall ep | ep in open ensures MetError(start, script, ep) {
      RunAgrees(start, script, ep);
      if LastEntry(start, script, ep) > LastExit(script, ep) { EntryOccurs(start, script, ep); }
    }
    forall i | 0 <= i < |script| && MeetsError(start, script, i) ensures script[i].endpoint in open {
      RunAgrees(start, script, script[i].endpoint);
      assert script[i] == Exit(script[i].endpoint);
    }
    if open != [] { assert MetError(start, script, open[0]); }
  }

  lemma {:induction false} EntryOccurs<E>(start: Start<E>, script: seq<PatchEvent<E>>, ep: E)
    requires LastEntry(start, script, ep) >= 0
    ensures exists i :: 0 <= i < |script| && script[i] == Enter(ep)
    decreases |script|
  {
    var n := |script| - 1;
    if script[n] != Enter(ep) {
      EntryOccurs(start, script[..n], ep);
      var i :| 0 <= i < n && script[..n][i] == Enter(ep);
      assert script[i] == Enter(ep);
    }
  }

  /** It does happen: one context, and a handler that fails before its exit. */
  lemma ErrorLeavesRoute(ep: nat, x: Exn) returns (start: Start<nat>, script: seq<PatchEvent<nat>>)
    ensures LegalScript(start, script) && AllExited(start, script)
    ensures PatchRun(start, script).open == [ep]
  {
    start := Start({}, None);
    var s1 := [Enter(ep)];
    var s2 := s1 + [PatchEvent.Failure(x)];
    script := s2 + [Exit(ep)];
    assert [] + [Enter(ep)] == s1;
    RunSnoc(start, [], Enter(ep));
    LastSnoc(start, [], Enter(ep), ep);
    MetErrorSnoc(start, [], Enter(ep), ep);
    RunSnoc(start, s1, PatchEvent.Failure(x));
    LastSnoc(start, s1, PatchEvent.Failure(x), ep);
    MetErrorSnoc(start, s1, PatchEvent.Failure(x), ep);
    RunSnoc(start, s2, Exit(ep));
    LastSnoc(start, s2, Exit(ep), ep);
    assert MayExit(start, s2, ep);
    assert script[..2] == s2;
  }

  lemma RunSnoc<E>(start: Start<E>, script: seq<PatchEvent<E>>, ev: PatchEvent<E>)
    ensures PatchRun(start, script + [ev]) == PatchStep(start, PatchRun(start, script), ev)
  {
    assert (script + [ev])[..|script|] == script;
  }
}
