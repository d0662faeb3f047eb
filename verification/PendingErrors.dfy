/** The one slot through which failures of handlers reach the test. Handlers run on the server's
    single event loop and interleave with each other at their awaits, and with the test thread
    anywhere; the test thread looks, reads, and clears in three separate steps. */
module PendingErrors {

  import opened Options

  type Handler = nat
  /** The k-th exception stored in the slot. */
  type Stored = nat

  type EndpointId = nat

  datatype Kind = Http | WebSocket(allowAbruptDisconnect: bool)

  /** A handler is the run of one endpoint's `get` for one request or connection. */
  datatype Task = Task(endpoint: EndpointId, kind: Kind)

  /** How a side effect ends. */
  datatype Ending = Returns | Fails(abruptDisconnect: bool)

  /** Where the test thread is in `raise_from_pending`. */
  datatype TestThread = Idle | Saw | Holds(exn: Stored)

  /** `attached` are the endpoints the server owns; `looked` is the handler that has found no pending
      exception and still occupies the event loop; `inFlight` are those whose side effect has
      started and not ended. The last three fields are the history of the slot. */
  datatype State = State(
    pending: Option<Stored>,
    attached: set<EndpointId>,
    looked: Option<(Handler, Task)>,
    inFlight: map<Handler, Task>,
    test: TestThread,
    stored: nat,
    delivered: multiset<Stored>,
    lost: multiset<Stored>)

  const START := State(None, {}, None, map[], Idle, 0, multiset{}, multiset{})

  datatype Event =
    | Look(h: Handler, task: Task)      // a new request: look for a pending exception
    | Start(h: Handler)                 // start its side effect, up to the first await
    | End(h: Handler, ending: Ending)   // the side effect ends
    | TestLook                          // `if self.pending_exception`
    | TestRead                          // `pending = self.pending_exception`
    | TestClear                         // `self.pending_exception = None`, then raise
    | Attach(endpoint: EndpointId)      // an endpoint is added to the server
    | Detach(endpoint: EndpointId)      // or removed

  ghost predicate Enabled(s: State, e: Event) {
    match e
    case Look(h, _) => s.looked.None? && h !in s.inFlight
    case Start(h) => s.looked.Some? && s.looked.value.0 == h && h !in s.inFlight
    case End(h, _) => s.looked.None? && h in s.inFlight
    case TestLook => s.test.Idle?
    case TestRead => s.test.Saw?
    case TestClear => s.test.Holds?
    case _ => s.test.Idle?
  }

  /** Whether the end of a side effect puts its exception in the slot. A removed endpoint has no
      server to store it with. */
  function Stores(s: State, e: Event): bool {
    e.End? && e.ending.Fails? && e.h in s.inFlight && s.inFlight[e.h].endpoint in s.attached
    && var kind := s.inFlight[e.h].kind;
       !(kind.WebSocket? && kind.allowAbruptDisconnect && e.ending.abruptDisconnect)
  }

  /** What is gone for good when the slot changes: its content, unless the test holds that. */
  function Dropped(s: State): multiset<Stored> {
    if s.pending.Some? && s.test != Holds(s.pending.value) then multiset{s.pending.value} else multiset{}
  }

  function Step(s: State, e: Event): State {
    match e
    case Look(h, task) => if task.endpoint in s.attached && s.pending.None? then s.(looked := Some((h, task))) else s
    case Start(h) => if s.looked.None? then s else s.(looked := None, inFlight := s.inFlight[h := s.looked.value.1])
    case End(h, _) =>
      var t := s.(inFlight := s.inFlight - {h});
      if Stores(s, e) then t.(pending := Some(s.stored), stored := s.stored + 1, lost := s.lost + Dropped(s)) else t
    case TestLook => if s.pending.Some? then s.(test := Saw) else s
    case TestRead => if s.pending.Some? then s.(test := Holds(s.pending.value)) else s.(test := Idle)
    case TestClear =>
      s.(pending := None, test := Idle, lost := s.lost + Dropped(s),
         delivered := if s.test.Holds? then s.delivered + multiset{s.test.exn} else s.delivered)
    case Attach(ep) => s.(attached := s.attached + {ep})
    case Detach(ep) => s.(attached := s.attached - {ep})
  }

  /** The state after the first `n` events. */
  function After(events: seq<Event>, n: nat): State
    requires n <= |events|
  {
    if n == 0 then START else Step(After(events, n - 1), events[n - 1])
  }

  /** The first `n` events are an interleaving that the event loop and the two threads allow. */
  ghost predicate Possible(events: seq<Event>, n: nat)
    requires n <= |events|
  {
    n > 0 ==> Possible(events, n - 1) && Enabled(After(events, n - 1), events[n - 1])
  }

  // -------------------------------------------------------------------------------------------
  // The state in terms of the history
  // -------------------------------------------------------------------------------------------

  /** The latest addition or removal of the endpoint was an addition. */
  predicate AttachedAt(events: seq<Event>, n: nat, ep: EndpointId)
    requires n <= |events|
  {
    n > 0 && (events[n - 1] == Attach(ep) || (events[n - 1] != Detach(ep) && AttachedAt(events, n - 1, ep)))
  }

  /** The latest start or end of a side effect of the handler was a start. */
  predicate RunsAt(events: seq<Event>, n: nat, h: Handler)
    requires n <= |events|
  {
    && n > 0
    && (events[n - 1] == Start(h) || (!(events[n - 1].End? && events[n - 1].h == h) && RunsAt(events, n - 1, h)))
  }

  /** What the handler last set out to do. */
  function TaskAt(events: seq<Event>, n: nat, h: Handler): Option<Task>
    requires n <= |events|
  {
    if n == 0 then None
    else if events[n - 1].Look? && events[n - 1].h == h then Some(events[n - 1].task)
    else TaskAt(events, n - 1, h)
  }

  /** The i-th event is the failure of a side effect whose endpoint still belongs to the server, and
      not the abrupt disconnect of a websocket that allows these. */
  predicate FailureCounts(events: seq<Event>, i: nat)
    requires i < |events|
  {
    match events[i]
    case End(h, Fails(abrupt)) =>
      var task := TaskAt(events, i, h);
      && task.Some? && AttachedAt(events, i, task.value.endpoint)
      && !(abrupt && task.value.kind == WebSocket(true))
    case _ => false
  }

  function FailuresUpTo(events: seq<Event>, n: nat): nat
    requires n <= |events|
  {
    if n == 0 then 0 else FailuresUpTo(events, n - 1) + if FailureCounts(events, n - 1) then 1 else 0
  }

  /** The number of the failure that is waiting: the latest one that counts, if no clear came after. */
  function WaitingAt(events: seq<Event>, n: nat): Option<Stored>
    requires n <= |events|
  {
    if n == 0 || events[n - 1] == TestClear then None
    else if FailureCounts(events, n - 1) then Some(FailuresUpTo(events, n - 1))
    else WaitingAt(events, n - 1)
  }

  lemma {:induction false} AttachedFromHistory(events: seq<Event>, n: nat, ep: EndpointId)
    requires n <= |events|
    ensures ep in After(events, n).attached <==> AttachedAt(events, n, ep)
    decreases n
  {
    if n > 0 { AttachedFromHistory(events, n - 1, ep); }
  }

  ghost predicate TaskKnown(events: seq<Event>, n: nat, h: Handler)
    requires n <= |events|
  {
    var s := After(events, n);
    && (h in s.inFlight <==> RunsAt(events, n, h))
    && (h in s.inFlight ==> TaskAt(events, n, h) == Some(s.inFlight[h]))
    && (s.looked.Some? && s.looked.value.0 == h ==> TaskAt(events, n, h) == Some(s.looked.value.1))
  }

  lemma {:induction false} RunningFromHistory(events: seq<Event>, n: nat, h: Handler)
    requires n <= |events| && Possible(events, n)
    ensures TaskKnown(events, n, h)
    decreases n
  {
    if n > 0 {
      RunningFromHistory(events, n - 1, h);
      assert Enabled(After(events, n - 1), events[n - 1]);
    }
  }

  /** The i-th event puts an exception in the slot exactly if it is a failure that counts. */
  lemma StoresExactlyWhen(events: seq<Event>, i: nat)
    requires i < |events| && Possible(events, i + 1)
    ensures Stores(After(events, i), events[i]) <==> FailureCounts(events, i)
  {
    if events[i].End? {
      var h := events[i].h;
      RunningFromHistory(events, i, h);
      AttachedFromHistory(events, i, After(events, i).inFlight[h].endpoint);
    }
  }

  /** Over all interleavings the slot holds the latest failure that counts, until the test clears it;
      each one gets a new number. */
  lemma {:induction false} SlotFromHistory(events: seq<Event>, n: nat)
    requires n <= |events| && Possible(events, n)
    ensures After(events, n).stored == FailuresUpTo(events, n)
    ensures After(events, n).pending == WaitingAt(events, n)
    decreases n
  {
    if n > 0 {
      SlotFromHistory(events, n - 1);
      StoresExactlyWhen(events, n - 1);
    }
  }

  /** A request goes on to its side effect exactly if its endpoint belongs to the server and no
      failure is waiting. */
  lemma LookGoesOnExactlyWhen(events: seq<Event>, i: nat)
    requires i < |events| && Possible(events, i + 1) && events[i].Look?
    ensures After(events, i + 1).looked
            == if AttachedAt(events, i, events[i].task.endpoint) && WaitingAt(events, i).None?
               then Some((events[i].h, events[i].task)) else None
  {
    SlotFromHistory(events, i);
    AttachedFromHistory(events, i, events[i].task.endpoint);
  }

  /** What the test finds, reads and raises is what is waiting at that moment; it raises what it has
      read. */
  lemma TestSeesHistory(events: seq<Event>, i: nat)
    requires i < |events| && Possible(events, i + 1)
    ensures events[i] == TestLook ==> (After(events, i + 1).test == Saw <==> WaitingAt(events, i).Some?)
    ensures events[i] == TestRead ==>
              WaitingAt(events, i).Some? && After(events, i + 1).test == Holds(WaitingAt(events, i).value)
    ensures var s, t := After(events, i), After(events, i + 1);
            if events[i] == TestClear then s.test.Holds? && t.delivered == s.delivered + multiset{s.test.exn}
            else t.delivered == s.delivered
  {
    SlotFromHistory(events, i);
    AlwaysSafe(events, i);
  }

  // -------------------------------------------------------------------------------------------
  // No side effect starts while an exception is pending
  // -------------------------------------------------------------------------------------------

  ghost predicate Safe(s: State) {
    && (s.looked.Some? ==> s.pending.None?)
    && (s.test != Idle ==> s.pending.Some?)
  }

  lemma SafeStep(s: State, e: Event)
    requires Enabled(s, e) && Safe(s)
    ensures Safe(Step(s, e))
  {
  }

  lemma {:induction false} AlwaysSafe(events: seq<Event>, n: nat)
    requires n <= |events| && Possible(events, n)
    ensures Safe(After(events, n))
    decreases n
  {
    if n > 0 {
      AlwaysSafe(events, n - 1);
      SafeStep(After(events, n - 1), events[n - 1]);
    }
  }

  /** Over all interleavings, whenever a side effect starts no exception is pending. */
  lemma NoStartWhilePending(events: seq<Event>, i: nat)
    requires i < |events| && Possible(events, i + 1) && events[i].Start?
    ensures After(events, i).pending.None?
  {
    AlwaysSafe(events, i);
  }

  // -------------------------------------------------------------------------------------------
  // Every stored exception is delivered at most once, and accounted for
  // -------------------------------------------------------------------------------------------

  /** An exception on its way to the test: in the slot, or read from it by the test. */
  predicate Live(s: State, x: Stored) {
    s.pending == Some(x) || s.test == Holds(x)
  }

  /** Each exception stored so far is delivered, lost or on its way, and only one of these. */
  ghost predicate Accounted(s: State) {
    forall x: Stored {:trigger s.delivered[x]} :: AccountedFor(s, x)
  }

  predicate AccountedFor(s: State, x: Stored) {
    s.delivered[x] + s.lost[x] + (if Live(s, x) then 1 else 0) == if x < s.stored then 1 else 0
  }

  lemma {:induction false} AlwaysAccounted(events: seq<Event>, n: nat)
    requires n <= |events| && Possible(events, n)
    ensures Accounted(After(events, n))
    decreases n
  {
    if n > 0 {
      AlwaysSafe(events, n - 1);
      AlwaysAccounted(events, n - 1);
      AccountedStep(After(events, n - 1), events[n - 1]);
    }
  }

  lemma AccountedStep(s: State, e: Event)
    requires Enabled(s, e) && Safe(s) && Accounted(s)
    ensures Accounted(Step(s, e))
  {
    assert AccountedFor(s, s.stored);
    forall x: Stored ensures AccountedFor(Step(s, e), x) {
      assert AccountedFor(s, x);
    }
  }

  /** Over all interleavings no stored exception is delivered twice, and none that was not stored
      is delivered. */
  lemma DeliveredOnce(events: seq<Event>, n: nat, x: Stored)
    requires n <= |events| && Possible(events, n)
    ensures After(events, n).delivered[x] <= 1
    ensures x in After(events, n).delivered ==> x < After(events, n).stored
  {
    AlwaysAccounted(events, n);
    assert AccountedFor(After(events, n), x);
  }

  // -------------------------------------------------------------------------------------------
  // How often a pending exception can be overwritten
  // -------------------------------------------------------------------------------------------

  ghost predicate Overwrites(events: seq<Event>, i: nat)
    requires i < |events|
  {
    Stores(After(events, i), events[i]) && After(events, i).pending.Some?
  }

  /** The number of overwrites among the events from `from` up to `upto`. */
  ghost function Overwritten(events: seq<Event>, from: nat, upto: nat): nat
    requires from <= upto <= |events|
    decreases upto
  {
    if from == upto then 0
    else Overwritten(events, from, upto - 1) + if Overwrites(events, upto - 1) then 1 else 0
  }

  /** While an exception is pending no side effect starts, and each overwrite ends one. */
  lemma OverwriteStep(s: State, e: Event)
    requires Enabled(s, e) && s.pending.Some? && s.looked.None? && e != TestClear
    ensures Step(s, e).pending.Some? && Step(s, e).looked.None?
    ensures |Step(s, e).inFlight| + (if Stores(s, e) then 1 else 0) <= |s.inFlight|
  {
    if e.End? { Removed(s.inFlight, e.h); }
  }

  ghost predicate NoClear(events: seq<Event>, from: nat, upto: nat)
    requires upto <= |events|
  {
    forall k :: from <= k < upto ==> events[k] != TestClear
  }

  /** If the i-th event stores an exception in the empty slot, then up to the next clear it is
      overwritten at most as often as there were other handlers in flight when it was stored; what
      is left of those is still in flight. */
  lemma {:induction false} OverwriteBound(events: seq<Event>, i: nat, upto: nat)
    requires i < upto <= |events| && Possible(events, upto)
    requires Stores(After(events, i), events[i]) && After(events, i).pending.None?
    requires NoClear(events, i + 1, upto)
    ensures After(events, upto).pending.Some? && After(events, upto).looked.None?
    ensures Overwritten(events, i + 1, upto) + |After(events, upto).inFlight| <= |After(events, i).inFlight| - 1
    decreases upto
  {
    var s, e := After(events, upto - 1), events[upto - 1];
    if upto == i + 1 {
      Removed(s.inFlight, e.h);
    } else {
      OverwriteBound(events, i, upto - 1);
      OverwriteStep(s, e);
    }
  }

  lemma Removed(m: map<Handler, Task>, h: Handler)
    requires h in m
    ensures |m - {h}| == |m| - 1
  {
    var n := m - {h};
    assert m.Keys == n.Keys + {h};
    assert |m.Keys| == |m| && |n.Keys| == |n|;
  }

  /** In particular the failure of the only handler in flight is not overwritten before it is
      cleared. */
  lemma LoneFailureKept(events: seq<Event>, i: nat, upto: nat)
    requires i < upto <= |events| && Possible(events, upto)
    requires Stores(After(events, i), events[i]) && |After(events, i).inFlight| == 1
    requires After(events, i).pending.None?
    requires NoClear(events, i + 1, upto)
    ensures Overwritten(events, i + 1, upto) == 0
  {
    OverwriteBound(events, i, upto);
  }

  // -------------------------------------------------------------------------------------------
  // When a stored exception is lost
  // -------------------------------------------------------------------------------------------

  /** The test holds an exception that is no longer the one in the slot. */
  predicate HoldsReplaced(s: State) {
    s.test.Holds? && s.pending != Some(s.test.exn)
  }

  lemma LostStep(s: State, e: Event)
    requires Enabled(s, e) && Safe(s) && Accounted(s)
    ensures var t := Step(s, e);
            |t.lost| + (if HoldsReplaced(t) then 1 else 0)
            == |s.lost| + (if HoldsReplaced(s) then 1 else 0) + if Stores(s, e) && s.pending.Some? then 1 else 0
  {
    if s.test.Holds? { assert AccountedFor(s, s.test.exn); }
  }

  /** Each store into the full slot costs one exception: as many are lost as there were overwrites,
      but for the one that the test still holds in place of what has overwritten it. */
  lemma {:induction false} LostAreOverwrites(events: seq<Event>, n: nat)
    requires n <= |events| && Possible(events, n)
    ensures |After(events, n).lost| + (if HoldsReplaced(After(events, n)) then 1 else 0) == Overwritten(events, 0, n)
    decreases n
  {
    if n > 0 {
      AlwaysSafe(events, n - 1);
      AlwaysAccounted(events, n - 1);
      LostAreOverwrites(events, n - 1);
      LostStep(After(events, n - 1), events[n - 1]);
    }
  }

  /** Whenever the test is not in the middle of raising, nothing has been lost if and only if no
      failure was ever stored while the slot was full. */
  lemma NothingLostExactlyWhen(events: seq<Event>, n: nat)
    requires n <= |events| && Possible(events, n) && !After(events, n).test.Holds?
    ensures After(events, n).lost == multiset{}
            <==> forall k :: 0 <= k < n ==> !Overwrites(events, k)
  {
    LostAreOverwrites(events, n);
    if Overwritten(events, 0, n) > 0 { var k := SomeOverwrite(events, n); }
    forall k | 0 <= k < n && Overwrites(events, k) ensures Overwritten(events, 0, n) > 0 {
      OverwriteCounts(events, k, n);
    }
  }

  lemma {:induction false} OverwriteCounts(events: seq<Event>, k: nat, n: nat)
    requires k < n <= |events| && Overwrites(events, k)
    ensures Overwritten(events, 0, n) > 0
    decreases n
  {
    if k < n - 1 {
      OverwriteCounts(events, k, n - 1);
      assert Overwritten(events, 0, n) >= Overwritten(events, 0, n - 1);
    }
  }

  lemma {:induction false} SomeOverwrite(events: seq<Event>, n: nat) returns (k: nat)
    requires n <= |events| && Overwritten(events, 0, n) > 0
    ensures k < n && Overwrites(events, k)
    decreases n
  {
    if Overwrites(events, n - 1) { k := n - 1; } else { k := SomeOverwrite(events, n - 1); }
  }

  /** An exception that cannot reach the test any more: it is lost, or waits in the slot for the
      test to clear it away together with the one it holds. */
  predicate Doomed(s: State, x: Stored) {
    x in s.lost || (s.pending == Some(x) && HoldsReplaced(s))
  }

  lemma DoomedStep(s: State, e: Event, x: Stored)
    requires Enabled(s, e) && Safe(s) && Accounted(s) && Doomed(s, x)
    ensures Doomed(Step(s, e), x)
  {
    if s.test.Holds? { assert AccountedFor(s, s.test.exn); }
  }

  /** An exception stored between the test's read and its clear is never delivered. */
  lemma {:induction false} StoredInWindowIsLost(events: seq<Event>, i: nat, n: nat)
    requires i < n <= |events| && Possible(events, n)
    requires Stores(After(events, i), events[i]) && After(events, i).test.Holds?
    ensures Doomed(After(events, n), After(events, i).stored)
    ensures After(events, n).delivered[After(events, i).stored] == 0
    decreases n
  {
    var x := After(events, i).stored;
    AlwaysSafe(events, n - 1);
    AlwaysAccounted(events, n - 1);
    if n == i + 1 {
      assert AccountedFor(After(events, i), After(events, i).test.exn);
    } else {
      StoredInWindowIsLost(events, i, n - 1);
      DoomedStep(After(events, n - 1), events[n - 1], x);
    }
    AlwaysAccounted(events, n);
    assert AccountedFor(After(events, n), x);
  }

  /** The test holds an exception, or has delivered it. */
  predicate Reached(s: State, x: Stored) {
    s.test == Holds(x) || x in s.delivered
  }

  lemma ReachedStep(s: State, e: Event, x: Stored)
    requires Enabled(s, e)
    requires Reached(s, x) || (e == TestRead && s.pending == Some(x))
    ensures Reached(Step(s, e), x)
  {
  }

  /** And what the test reads it holds until it has delivered it, whatever is stored meanwhile. */
  lemma {:induction false} ReadIsDelivered(events: seq<Event>, i: nat, n: nat, x: Stored)
    requires i < n <= |events| && Possible(events, n)
    requires events[i] == TestRead && After(events, i).pending == Some(x)
    ensures Reached(After(events, n), x)
    decreases n
  {
    var s, e, t := After(events, n - 1), events[n - 1], After(events, n);
    assert Enabled(s, e) && t == Step(s, e);
    if n > i + 1 { ReadIsDelivered(events, i, n - 1, x); }
    ReachedStep(s, e, x);
  }

  ghost predicate Reaches(events: seq<Event>, s: State) {
    Possible(events, |events|) && After(events, |events|) == s
  }

  lemma {:induction false} PossiblePrefix(events: seq<Event>, i: nat, n: nat)
    requires i <= n <= |events| && Possible(events, n)
    ensures Possible(events, i)
    decreases n
  {
    if i < n { PossiblePrefix(events, i, n - 1); }
  }

  lemma {:induction false} AfterPrefix(events: seq<Event>, e: Event, n: nat)
    requires n <= |events|
    ensures After(events + [e], n) == After(events, n)
    ensures Possible(events + [e], n) <==> Possible(events, n)
    decreases n
  {
    if n > 0 { AfterPrefix(events, e, n - 1); }
  }

  lemma Extend(events: seq<Event>, s: State, e: Event) returns (more: seq<Event>)
    requires Reaches(events, s) && Enabled(s, e)
    ensures Reaches(more, Step(s, e))
  {
    more := events + [e];
    AfterPrefix(events, e, |events|);
  }

  /** Two handlers of one endpoint, both with their side effects started. */
  lemma TwoInFlight(task: Task) returns (events: seq<Event>)
    ensures Reaches(events, State(None, {task.endpoint}, None, map[1 := task, 2 := task], Idle, 0,
                                  multiset{}, multiset{}))
  {
    var s := START;
    events := Extend([], s, Attach(task.endpoint)); s := Step(s, Attach(task.endpoint));
    events := Extend(events, s, Look(1, task)); s := Step(s, Look(1, task));
    events := Extend(events, s, Start(1)); s := Step(s, Start(1));
    events := Extend(events, s, Look(2, task)); s := Step(s, Look(2, task));
    events := Extend(events, s, Start(2)); s := Step(s, Start(2));
  }

  /** A run in which the slot does lose an exception, by the smallest race: two handlers fail, the
      second between the test thread's read and its clear. */
  lemma ClearRaces() returns (events: seq<Event>)
    ensures Possible(events, |events|)
    ensures var end := After(events, |events|);
            end.delivered == multiset{0} && end.lost == multiset{1} && end.pending.None? && end.test.Idle?
  {
    var task := Task(0, Http);
    events := TwoInFlight(task);
    var s := After(events, |events|);
    events := Extend(events, s, End(1, Fails(false))); s := Step(s, End(1, Fails(false)));
    events := Extend(events, s, TestLook); s := Step(s, TestLook);
    events := Extend(events, s, TestRead); s := Step(s, TestRead);
    events := Extend(events, s, End(2, Fails(false))); s := Step(s, End(2, Fails(false)));
    events := Extend(events, s, TestClear);
  }

  // -------------------------------------------------------------------------------------------
  // The code
  // -------------------------------------------------------------------------------------------

  /** The handlers' side of `MockHTTPEndpoint.get` and `MockWSEndpoint.get`, and the test's side of
      `raise_from_pending`, each cut at its interleaving points. */
  class PendingSlot {
    var pendingException: Option<Stored>
    var attached: set<EndpointId>
    var running: map<Handler, Task>
    var looked: Option<(Handler, Task)>
    var test: TestThread
    /** Numbers the exceptions as they are stored. */
    var stored: nat
    ghost var delivered: multiset<Stored>
    ghost var lost: multiset<Stored>

    ghost function Now(): State
      reads this
    {
      State(pendingException, attached, looked, running, test, stored, delivered, lost)
    }

    constructor ()
      ensures Now() == START
    {
      pendingException, attached, running, looked, test := None, {}, map[], None, Idle;
      stored, delivered, lost := 0, multiset{}, multiset{};
    }

    /** The first steps of `get`: no owner or a pending exception is answered at once. */
    method LookForPending(h: Handler, task: Task) returns (goOn: bool)
      requires Enabled(Now(), Look(h, task))
      modifies this
      ensures Now() == Step(old(Now()), Look(h, task)) && goOn == looked.Some?
      ensures goOn <==> task.endpoint in attached && pendingException.None?
    {
      if task.endpoint !in attached { return false; }
      if pendingException.Some? { return false; }
      looked := Some((h, task));
      return true;
    }

    method StartSideEffect(h: Handler)
      requires Enabled(Now(), Start(h))
      modifies this
      ensures Now() == Step(old(Now()), Start(h))
    {
      running := running[h := looked.value.1];
      looked := None;
    }

    /** The end of `get`, with the exception the side effect raised if it did. */
    method EndSideEffect(h: Handler, ending: Ending, ex: Stored)
      requires Enabled(Now(), End(h, ending)) && ex == stored
      modifies this
      ensures Now() == Step(old(Now()), End(h, ending))
      ensures var task := old(running)[h];
              if ending.Fails? && task.endpoint in attached
                 && !(ending.abruptDisconnect && task.kind == WebSocket(true))
              then pendingException == Some(ex) && stored == old(stored) + 1
              else pendingException == old(pendingException) && stored == old(stored)
      ensures running == old(running) - {h} && attached == old(attached)
    {
      var endpoint, kind := running[h].endpoint, running[h].kind;
      ghost var dropped := Dropped(Now());
      running := running - {h};
      if ending.Fails? {
        if kind.WebSocket? && kind.allowAbruptDisconnect && ending.abruptDisconnect {
        } else if endpoint in attached {
          lost := lost + dropped;
          stored := stored + 1;
          pendingException := Some(ex);
        }
      }
    }

    method CheckPending()
      requires Enabled(Now(), TestLook)
      modifies this
      ensures Now() == Step(old(Now()), TestLook)
    {
      if pendingException.Some? { test := Saw; }
    }

    method ReadPending()
      requires Enabled(Now(), TestRead)
      modifies this
      ensures Now() == Step(old(Now()), TestRead)
    {
      test := if pendingException.Some? then Holds(pendingException.value) else Idle;
    }

    method ClearAndRaise() returns (raised: Stored)
      requires Enabled(Now(), TestClear)
      modifies this
      ensures Now() == Step(old(Now()), TestClear)
      ensures delivered == old(delivered) + multiset{raised}
      ensures old(test) == Holds(raised) && pendingException.None?
    {
      raised := test.exn;
      lost := lost + Dropped(Now());
      delivered := delivered + multiset{raised};
      pendingException, test := None, Idle;
    }

    /** Any interleaving the event loop and the two threads allow. */
    method Interleave(events: seq<Event>)
      requires Now() == START && Possible(events, |events|)
      modifies this
      ensures Now() == After(events, |events|)
    {
      for i := 0 to |events|
        invariant Now() == After(events, i)
      {
        PossiblePrefix(events, i + 1, |events|);
        match events[i] {
          case Look(h, task) => var _ := LookForPending(h, task);
          case Start(h) => StartSideEffect(h);
          case End(h, ending) =>
            EndSideEffect(h, ending, stored);
          case TestLook => CheckPending();
          case TestRead => ReadPending();
          case TestClear => var _ := ClearAndRaise();
          case Attach(ep) => attached := attached + {ep};
          case Detach(ep) => attached := attached - {ep};
        }
      }
    }
  }
}
