/** The route table of the websocket service: exact paths, and patterns of which the latest comer
    has priority. */
module WebsocketRoutes {

  import opened Options
  import opened Sequences

  // -------------------------------------------------------------------------------------------
  // A dictionary in insertion order
  // -------------------------------------------------------------------------------------------

  type Dict<K, V> = seq<(K, V)>

  ghost predicate DistinctKeys<K, V>(d: Dict<K, V>) {
    forall i, j :: 0 <= i < j < |d| ==> d[i].0 != d[j].0
  }

  function Keys<K, V>(d: Dict<K, V>): seq<K> {
    seq(|d|, i requires 0 <= i < |d| => d[i].0)
  }

  function IndexOf<K(==), V>(d: Dict<K, V>, k: K): (r: Option<nat>)
    ensures r.Some? ==> r.value < |d| && d[r.value].0 == k
    ensures r.None? ==> forall i :: 0 <= i < |d| ==> d[i].0 != k
  {
    var r := FirstIndex(Keys(d), k);
    assert r.None? ==> forall i :: 0 <= i < |d| ==> Keys(d)[i] == d[i].0;
    r
  }

  /** `d[k] = v`: a key that is there keeps its place. */
  function Put<K(==), V>(d: Dict<K, V>, k: K, v: V): Dict<K, V> {
    match IndexOf(d, k)
    case Some(i) => d[i := (k, v)]
    case None => d + [(k, v)]
  }

  /** `del d[k]`, of a key that is there. */
  function Delete<K(==), V>(d: Dict<K, V>, k: K): Dict<K, V> {
    match IndexOf(d, k)
    case Some(i) => RemoveAt(d, i)
    case None => d
  }

  ghost predicate HasKey<K, V>(d: Dict<K, V>, k: K) {
    exists i :: 0 <= i < |d| && d[i].0 == k
  }

  /** The key has the value now, in its place if it had one and otherwise at the end; all else is as
      before. */
  ghost predicate Places<K, V>(before: Dict<K, V>, k: K, v: V, now: Dict<K, V>) {
    if HasKey(before, k) then exists i :: 0 <= i < |before| && before[i].0 == k && now == before[i := (k, v)]
    else now == before + [(k, v)]
  }

  /** One entry of the key is gone; all else is as before. */
  ghost predicate Removes<K, V>(before: Dict<K, V>, k: K, now: Dict<K, V>) {
    exists i :: 0 <= i < |before| && before[i].0 == k && now == before[..i] + before[i + 1..]
  }

  // -------------------------------------------------------------------------------------------
  // Operations on the table
  // -------------------------------------------------------------------------------------------

  datatype Regex<P> = Compiled(pattern: P) | Source(text: string)

  /** What the `path` and `regex` arguments of an operation name together. */
  datatype Target<P> = Path(path: string) | Pattern(pattern: P) | Neither | NotARegex

  function TargetOf<P>(compile: string -> Option<P>, path: Option<string>, regex: Option<Regex<P>>): Target<P> {
    var hasPath := path.Some? && path.value != "";
    var hasRegex := regex.Some? && regex.value != Source("");
    if hasPath == hasRegex then Neither
    else if hasPath then Path(path.value)
    else match regex.value
      case Compiled(p) => Pattern(p)
      case Source(text) =>
        var p := compile(text);
        if p.Some? then Pattern(p.value) else NotARegex
  }

  /** The arguments give the path `s`, and no regex besides; empty ones count as not given. */
  predicate GivesPath<P(==)>(path: Option<string>, regex: Option<Regex<P>>, s: string) {
    path == Some(s) && s != "" && (regex == None || regex == Some(Source("")))
  }

  /** The arguments give a regex, and no path besides. */
  predicate GivesRegex<P(==)>(path: Option<string>, regex: Option<Regex<P>>, given: Regex<P>) {
    regex == Some(given) && given != Source("") && (path == None || path == Some(""))
  }

  /** `re.compile`, which leaves a compiled pattern as it is. */
  predicate CompilesTo<P(==)>(compile: string -> Option<P>, given: Regex<P>, p: P) {
    given == Compiled(p) || (given.Source? && compile(given.text) == Some(p))
  }

  /** What the arguments of an operation name. */
  lemma TargetIsGiven<P>(compile: string -> Option<P>, path: Option<string>, regex: Option<Regex<P>>)
    ensures forall s :: TargetOf(compile, path, regex) == Path(s) <==> GivesPath(path, regex, s)
    ensures forall p :: TargetOf(compile, path, regex) == Pattern(p)
                        <==> exists g :: GivesRegex(path, regex, g) && CompilesTo(compile, g, p)
    ensures TargetOf(compile, path, regex).NotARegex?
            <==> exists g :: GivesRegex(path, regex, g) && forall p :: !CompilesTo(compile, g, p)
    ensures TargetOf(compile, path, regex).Neither?
            <==> (path == None || path == Some("")) == (regex == None || regex == Some(Source("")))
  {
    if regex.Some? && GivesRegex(path, regex, regex.value) {
      var g := regex.value;
      if g.Compiled? { assert CompilesTo(compile, g, g.pattern); }
      else if compile(g.text).Some? { assert CompilesTo(compile, g, compile(g.text).value); }
    }
  }

  datatype Table<P, C> = Table(routes: map<string, C>, reRoutes: Dict<P, C>)

  /** The callback of an operation is absent if the side effect cannot be turned into one. */
  datatype Op<P, C> =
    | Add(target: Target<P>, callback: Option<C>)
    | Set(target: Target<P>, callback: Option<C>)
    | Remove(target: Target<P>)
    | Clear

  datatype Outcome = Ok | ValueError | RegexError | BadSideEffect | RouteExists | KeyError

  function Has<P(==), C>(t: Table<P, C>, target: Target<P>): bool {
    match target
    case Path(s) => s in t.routes
    case Pattern(p) => IndexOf(t.reRoutes, p).Some?
    case _ => false
  }

  function Verdict<P(==), C>(t: Table<P, C>, op: Op<P, C>): Outcome {
    if op.Clear? then Ok
    else if op.target.Neither? then ValueError
    else if op.target.NotARegex? then RegexError
    else match op
      case Add(target, c) => if c.None? then BadSideEffect else if Has(t, target) then RouteExists else Ok
      case Set(_, c) => if c.None? then BadSideEffect else Ok
      case Remove(target) => if Has(t, target) then Ok else KeyError
  }

  function Store<P(==), C>(t: Table<P, C>, target: Target<P>, c: C): Table<P, C> {
    match target
    case Path(s) => t.(routes := t.routes[s := c])
    case Pattern(p) => t.(reRoutes := Put(t.reRoutes, p, c))
    case _ => t
  }

  function Drop<P(==), C>(t: Table<P, C>, target: Target<P>): Table<P, C> {
    match target
    case Path(s) => t.(routes := t.routes - {s})
    case Pattern(p) => t.(reRoutes := Delete(t.reRoutes, p))
    case _ => t
  }

  /** The table after an operation; one that fails changes nothing. */
  function Apply<P(==), C>(t: Table<P, C>, op: Op<P, C>): Table<P, C> {
    if Verdict(t, op) != Ok then t
    else match op
      case Add(target, c) => Store(t, target, c.value)
      case Set(target, c) => Store(t, target, c.value)
      case Remove(target) => Drop(t, target)
      case Clear => Table(map[], [])
  }

  function Run<P(==), C>(t: Table<P, C>, ops: seq<Op<P, C>>): Table<P, C> {
    if ops == [] then t else Apply(Run(t, ops[..|ops| - 1]), ops[|ops| - 1])
  }

  class WebsocketService<P(==), C> {
    const compile: string -> Option<P>
    const fullmatch: (P, string) -> bool
    var routes: map<string, C>
    var reRoutes: Dict<P, C>

    function State(): Table<P, C>
      reads this
    {
      Table(routes, reRoutes)
    }

    constructor (compile: string -> Option<P>, fullmatch: (P, string) -> bool)
      ensures this.compile == compile && this.fullmatch == fullmatch
      ensures State() == Table(map[], [])
    {
      this.compile, this.fullmatch := compile, fullmatch;
      routes, reRoutes := map[], [];
    }

    /** `add`, and `set` if `overwrite`; `gen` is what the side effect is converted to. */
    method Add(gen: Option<C>, path: Option<string>, regex: Option<Regex<P>>, overwrite: bool) returns (r: Outcome)
      modifies this
      ensures var target := TargetOf(compile, path, regex);
              var op := if overwrite then Op.Set(target, gen) else Op.Add(target, gen);
              r == Verdict(old(State()), op) && State() == Apply(old(State()), op)
      ensures r == ValueError
              <==> (path == None || path == Some("")) == (regex == None || regex == Some(Source("")))
      ensures forall s :: GivesPath(path, regex, s) ==>
                && r == (if gen == None then BadSideEffect
                         else if !overwrite && s in old(routes) then RouteExists else Ok)
                && routes == (if r == Ok then old(routes)[s := gen.value] else old(routes))
                && reRoutes == old(reRoutes)
      ensures forall g :: GivesRegex(path, regex, g) ==>
                && routes == old(routes)
                && (r == RegexError <==> forall p :: !CompilesTo(compile, g, p))
                && (r == RegexError ==> reRoutes == old(reRoutes))
                && forall p :: CompilesTo(compile, g, p) ==>
                     && (r == if gen == None then BadSideEffect
                              else if !overwrite && HasKey(old(reRoutes), p) then RouteExists else Ok)
                     && (if r == Ok then Places(old(reRoutes), p, gen.value, reRoutes) else reRoutes == old(reRoutes))
    {
      TargetIsGiven(compile, path, regex);
      var hasPath := path.Some? && path.value != "";
      var hasRegex := regex.Some? && regex.value != Source("");
      if hasPath && hasRegex { return ValueError; }
      if !(hasPath || hasRegex) { return ValueError; }
      var pattern := None;
      if hasRegex {
        pattern := if regex.value.Compiled? then Some(regex.value.pattern) else compile(regex.value.text);
        if pattern.None? { return RegexError; }
      }
      if gen.None? { return BadSideEffect; }
      if !overwrite && ((hasPath && path.value in routes)
                        || (pattern.Some? && IndexOf(reRoutes, pattern.value).Some?)) {
        return RouteExists;
      }
      if hasPath {
        routes := routes[path.value := gen.value];
      } else {
        reRoutes := Put(reRoutes, pattern.value, gen.value);
      }
      return Ok;
    }

    method Remove(path: Option<string>, regex: Option<Regex<P>>) returns (r: Outcome)
      modifies this
      ensures var op := Op.Remove(TargetOf(compile, path, regex));
              r == Verdict(old(State()), op) && State() == Apply(old(State()), op)
      ensures r == ValueError
              <==> (path == None || path == Some("")) == (regex == None || regex == Some(Source("")))
      ensures forall s :: GivesPath(path, regex, s) ==>
                && r == (if s in old(routes) then Ok else KeyError)
                && routes == old(routes) - {s} && reRoutes == old(reRoutes)
      ensures forall g :: GivesRegex(path, regex, g) ==>
                && routes == old(routes)
                && (r == RegexError <==> forall p :: !CompilesTo(compile, g, p))
                && (r == RegexError ==> reRoutes == old(reRoutes))
                && forall p :: CompilesTo(compile, g, p) ==>
                     && r == (if HasKey(old(reRoutes), p) then Ok else KeyError)
                     && (if r == Ok then Removes(old(reRoutes), p, reRoutes) else reRoutes == old(reRoutes))
    {
      TargetIsGiven(compile, path, regex);
      var hasPath := path.Some? && path.value != "";
      var hasRegex := regex.Some? && regex.value != Source("");
      if hasPath && hasRegex { return ValueError; }
      if !(hasPath || hasRegex) { return ValueError; }
      if hasPath {
        if path.value !in routes { return KeyError; }
        routes := routes - {path.value};
      } else {
        var pattern := if regex.value.Compiled? then Some(regex.value.pattern) else compile(regex.value.text);
        if pattern.None? { return RegexError; }
        if IndexOf(reRoutes, pattern.value).None? { return KeyError; }
        reRoutes := Delete(reRoutes, pattern.value);
      }
      return Ok;
    }

    method Clear()
      modifies this
      ensures State() == Apply(old(State()), Op.Clear)
      ensures routes == map[] && reRoutes == []
    {
      routes := map[];
      reRoutes := [];
    }

    /** `_get_generator`: the exact path first, then the last pattern in the table that matches. */
    method GetGenerator(path: string) returns (r: Option<C>)
      ensures Selects(State(), fullmatch, path, r)
      ensures path in routes ==> r == Some(routes[path])
    {
      if path in routes { return Some(routes[path]); }
      var i := |reRoutes|;
      while i > 0
        invariant 0 <= i <= |reRoutes|
        invariant forall j :: i <= j < |reRoutes| ==> !fullmatch(reRoutes[j].0, path)
      {
        i := i - 1;
        if fullmatch(reRoutes[i].0, path) { return Some(reRoutes[i].1); }
      }
      return None;
    }
  }

  ghost predicate Selects<P, C>(t: Table<P, C>, fullmatch: (P, string) -> bool, path: string, r: Option<C>) {
    if path in t.routes then r == Some(t.routes[path])
    else match r
      case None => forall i :: 0 <= i < |t.reRoutes| ==> !fullmatch(t.reRoutes[i].0, path)
      case Some(c) => exists i ::
        && 0 <= i < |t.reRoutes| && fullmatch(t.reRoutes[i].0, path) && t.reRoutes[i].1 == c
        && forall j :: i < j < |t.reRoutes| ==> !fullmatch(t.reRoutes[j].0, path)
  }

  /** A connection to a path in the table finds its callback and no other. */
  lemma AddedPathIsFound<P, C>(t: Table<P, C>, fullmatch: (P, string) -> bool, s: string, c: C, r: Option<C>)
    ensures Selects(t.(routes := t.routes[s := c]), fullmatch, s, r) <==> r == Some(c)
  {
  }

  // -------------------------------------------------------------------------------------------
  // The table as a function of its history
  // -------------------------------------------------------------------------------------------

  /** The callback a target has after the operations, found in the history alone. */
  function Current<P(==), C>(ops: seq<Op<P, C>>, target: Target<P>): Option<C>
  {
    if ops == [] || target.Neither? || target.NotARegex? then None
    else
      var before := Current(ops[..|ops| - 1], target);
      match ops[|ops| - 1]
      case Add(t, c) => if t == target && before.None? then c else before
      case Set(t, c) => if t == target && c.Some? then c else before
      case Remove(t) => if t == target then None else before
      case Clear => None
  }

  /** When a present target's stay in the table began: overwriting it does not begin another. */
  function Since<P(==), C>(ops: seq<Op<P, C>>, target: Target<P>): int
  {
    if ops == [] || Current(ops, target).None? then -1
    else if Current(ops[..|ops| - 1], target).None? then |ops| - 1
    else Since(ops[..|ops| - 1], target)
  }

  /** What a lookup should return, in terms of the history. */
  ghost predicate Promised<P(!new), C>(ops: seq<Op<P, C>>, fullmatch: (P, string) -> bool, path: string, r: Option<C>) {
    var exact := Current(ops, Target.Path(path));
    if exact.Some? then r == exact
    else match r
      case None => forall p :: fullmatch(p, path) ==> Current(ops, Pattern(p)).None?
      case Some(c) => exists p ::
        && fullmatch(p, path) && Current(ops, Pattern(p)) == Some(c)
        && forall q :: q != p && fullmatch(q, path) && Current(ops, Pattern(q)).Some? ==>
             Since(ops, Pattern(q)) < Since(ops, Pattern(p))
  }

  /** A dictionary holds exactly the present patterns, with their callbacks, by age of stay. */
  ghost predicate InOrder<P(!new), C>(d: Dict<P, C>, current: P -> Option<C>, since: P -> int) {
    && DistinctKeys(d)
    && (forall i :: 0 <= i < |d| ==> current(d[i].0) == Some(d[i].1))
    && (forall p :: current(p).Some? ==> IndexOf(d, p).Some?)
    && (forall i, j :: 0 <= i < j < |d| ==> since(d[i].0) < since(d[j].0))
  }

  lemma InOrderPut<P(!new), C>(d: Dict<P, C>, p: P, c: C, now: int, current: P -> Option<C>, since: P -> int,
                               current': P -> Option<C>, since': P -> int)
    requires InOrder(d, current, since) && forall q :: since(q) < now
    requires current'(p) == Some(c) && since'(p) == if current(p).None? then now else since(p)
    requires forall q :: q != p ==> current'(q) == current(q) && since'(q) == since(q)
    ensures InOrder(Put(d, p, c), current', since')
  {
    var e := Put(d, p, c);
    forall q | current'(q).Some? ensures IndexOf(e, q).Some? {
      if q == p && IndexOf(d, p).None? {
        assert e[|d|].0 == p;
      } else {
        var i := IndexOf(d, q).value;
        assert e[i].0 == q;
      }
    }
  }

  lemma DeletePlaces<K, V>(d: Dict<K, V>, k: K)
    requires IndexOf(d, k).Some?
    ensures var i, e := IndexOf(d, k).value, Delete(d, k);
            |e| == |d| - 1 && forall j :: 0 <= j < |e| ==> e[j] == d[if j < i then j else j + 1]
  {
    RemovePlaces(d, IndexOf(d, k).value);
  }

  lemma InOrderDelete<P(!new), C>(d: Dict<P, C>, p: P, current: P -> Option<C>, since: P -> int,
                                  current': P -> Option<C>, since': P -> int)
    requires InOrder(d, current, since) && IndexOf(d, p).Some? && current'(p).None?
    requires forall q :: q != p ==> current'(q) == current(q)
    requires forall q :: q != p && current(q).Some? ==> since'(q) == since(q)
    ensures InOrder(Delete(d, p), current', since')
  {
    var e, i := Delete(d, p), IndexOf(d, p).value;
    DeletePlaces(d, p);
    forall q | current'(q).Some? ensures IndexOf(e, q).Some? {
      var k := IndexOf(d, q).value;
      assert k != i;
      assert e[if k < i then k else k - 1].0 == q;
    }
    forall k | 0 <= k < |e|
      ensures e[k].0 != p && current'(e[k].0) == Some(e[k].1) && since'(e[k].0) == since(e[k].0)
    {
    }
  }

  lemma InOrderSame<P(!new), C>(d: Dict<P, C>, current: P -> Option<C>, since: P -> int,
                                current': P -> Option<C>, since': P -> int)
    requires InOrder(d, current, since)
    requires forall q :: current'(q) == current(q)
    requires forall q :: current(q).Some? ==> since'(q) == since(q)
    ensures InOrder(d, current', since')
  {
    forall k | 0 <= k < |d| ensures since'(d[k].0) == since(d[k].0) { assert current(d[k].0).Some?; }
  }

  ghost predicate HoldsPaths<P, C>(routes: map<string, C>, ops: seq<Op<P, C>>) {
    forall s :: Current(ops, Target.Path(s)) == if s in routes then Some(routes[s]) else None
  }

  ghost predicate Reflects<P(!new), C>(t: Table<P, C>, ops: seq<Op<P, C>>) {
    && HoldsPaths(t.routes, ops)
    && InOrder(t.reRoutes, p => Current(ops, Pattern(p)), p => Since(ops, Pattern(p)))
  }

  lemma SinceBound<P, C>(ops: seq<Op<P, C>>, target: Target<P>)
    ensures -1 <= Since(ops, target) < |ops|
    ensures Current(ops, target).Some? ==> Since(ops, target) >= 0
  {
  }

  lemma {:induction false} RunReflects<P(!new), C>(ops: seq<Op<P, C>>)
    ensures Reflects(Run(Table(map[], []), ops), ops)
    decreases |ops|
  {
    if ops != [] {
      var init := ops[..|ops| - 1];
      RunReflects(init);
      ReflectsStep(Run(Table(map[], []), init), ops);
    }
  }

  lemma ReflectsStep<P(!new), C>(t: Table<P, C>, ops: seq<Op<P, C>>)
    requires ops != [] && Reflects(t, ops[..|ops| - 1])
    ensures Reflects(Apply(t, ops[|ops| - 1]), ops)
  {
    PathsStep(t, ops);
    PatternsStep(t, ops);
  }

  lemma PathsStep<P, C>(t: Table<P, C>, ops: seq<Op<P, C>>)
    requires ops != [] && HoldsPaths(t.routes, ops[..|ops| - 1])
    ensures HoldsPaths(Apply(t, ops[|ops| - 1]).routes, ops)
  {
    var init, op := ops[..|ops| - 1], ops[|ops| - 1];
    var routes := Apply(t, op).routes;
    forall s ensures Current(ops, Target.Path(s)) == if s in routes then Some(routes[s]) else None {
      assert Current(init, Target.Path(s)) == if s in t.routes then Some(t.routes[s]) else None;
      match op {
        case Clear =>
        case Remove(target) => if target == Target.Path(s) { assert s !in routes; }
        case Add(target, c) => if target == Target.Path(s) { assert Has(t, target) <==> s in t.routes; }
        case Set(target, c) =>
      }
    }
  }

  lemma PatternsStep<P(!new), C>(t: Table<P, C>, ops: seq<Op<P, C>>)
    requires ops != [] && Reflects(t, ops[..|ops| - 1])
    ensures InOrder(Apply(t, ops[|ops| - 1]).reRoutes, p => Current(ops, Pattern(p)), p => Since(ops, Pattern(p)))
  {
    var init, op, d := ops[..|ops| - 1], ops[|ops| - 1], t.reRoutes;
    var current, since := p => Current(init, Pattern(p)), p => Since(init, Pattern(p));
    var current', since' := p => Current(ops, Pattern(p)), p => Since(ops, Pattern(p));
    assert InOrder(d, current, since);
    if op.Clear? {
      assert forall p :: current'(p).None?;
    } else if Verdict(t, op) == Ok && op.target.Pattern? {
      var p := op.target.pattern;
      if op.Remove? {
        InOrderDelete(d, p, current, since, current', since');
      } else {
        forall q ensures since(q) < |ops| - 1 { SinceBound(init, Pattern(q)); }
        InOrderPut(d, p, op.callback.value, |ops| - 1, current, since, current', since');
      }
    } else {
      Unchanged(t, ops);
      InOrderSame(d, current, since, current', since');
    }
  }

  lemma Unchanged<P(!new), C>(t: Table<P, C>, ops: seq<Op<P, C>>)
    requires ops != [] && Reflects(t, ops[..|ops| - 1])
    requires var op := ops[|ops| - 1]; !op.Clear? && (Verdict(t, op) != Ok || !op.target.Pattern?)
    ensures var init := ops[..|ops| - 1];
            forall p :: Current(ops, Pattern(p)) == Current(init, Pattern(p))
    ensures var init := ops[..|ops| - 1];
            forall p :: Current(init, Pattern(p)).Some? ==> Since(ops, Pattern(p)) == Since(init, Pattern(p))
  {
    var init, op := ops[..|ops| - 1], ops[|ops| - 1];
    forall p ensures Current(ops, Pattern(p)) == Current(init, Pattern(p)) {
      if op.target == Pattern(p) && IndexOf(t.reRoutes, p).Some? {
        var i := IndexOf(t.reRoutes, p).value;
        assert Current(init, Pattern(t.reRoutes[i].0)) == Some(t.reRoutes[i].1);
      }
    }
  }

  /** After any sequence of operations a lookup returns the exact path's callback if there is one,
      and otherwise the current callback of the matching pattern whose stay began most recently. */
  lemma LookupKeepsPromise<P(!new), C>(ops: seq<Op<P, C>>, fullmatch: (P, string) -> bool, path: string, r: Option<C>)
    ensures Selects(Run(Table(map[], []), ops), fullmatch, path, r) <==> Promised(ops, fullmatch, path, r)
  {
    var t := Run(Table(map[], []), ops);
    RunReflects(ops);
    if path !in t.routes {
      if r.Some? && Selects(t, fullmatch, path, r) { SelectedIsPromised(t, ops, fullmatch, path, r.value); }
      if r.Some? && Promised(ops, fullmatch, path, r) { PromisedIsSelected(t, ops, fullmatch, path, r.value); }
      if r.None? && Promised(ops, fullmatch, path, r) {
        forall i | 0 <= i < |t.reRoutes| ensures !fullmatch(t.reRoutes[i].0, path) {
          assert Current(ops, Pattern(t.reRoutes[i].0)) == Some(t.reRoutes[i].1);
        }
      }
      if r.None? && Selects(t, fullmatch, path, r) {
        forall p | fullmatch(p, path) ensures IndexOf(t.reRoutes, p).None? {}
      }
    }
  }

  lemma SelectedIsPromised<P(!new), C>(t: Table<P, C>, ops: seq<Op<P, C>>,
                                       fullmatch: (P, string) -> bool, path: string, c: C)
    requires Reflects(t, ops) && path !in t.routes && Selects(t, fullmatch, path, Some(c))
    ensures Promised(ops, fullmatch, path, Some(c))
  {
    var d := t.reRoutes;
    var i :| && 0 <= i < |d| && fullmatch(d[i].0, path) && d[i].1 == c
             && forall j :: i < j < |d| ==> !fullmatch(d[j].0, path);
    var p := d[i].0;
    forall q | q != p && fullmatch(q, path) && Current(ops, Pattern(q)).Some?
      ensures Since(ops, Pattern(q)) < Since(ops, Pattern(p))
    {
      var j := IndexOf(d, q).value;
      assert d[j].0 == q && j < i;
    }
    assert Current(ops, Pattern(p)) == Some(c);
  }

  lemma PromisedIsSelected<P(!new), C>(t: Table<P, C>, ops: seq<Op<P, C>>,
                                       fullmatch: (P, string) -> bool, path: string, c: C)
    requires Reflects(t, ops) && path !in t.routes && Promised(ops, fullmatch, path, Some(c))
    ensures Selects(t, fullmatch, path, Some(c))
  {
    var d := t.reRoutes;
    var p :| && fullmatch(p, path) && Current(ops, Pattern(p)) == Some(c)
             && forall q :: q != p && fullmatch(q, path) && Current(ops, Pattern(q)).Some? ==>
                  Since(ops, Pattern(q)) < Since(ops, Pattern(p));
    var i := IndexOf(d, p).value;
    assert Current(ops, Pattern(d[i].0)) == Some(d[i].1);
    forall j | i < j < |d| ensures !fullmatch(d[j].0, path) {
      assert Current(ops, Pattern(d[j].0)) == Some(d[j].1);
      assert Since(ops, Pattern(d[i].0)) < Since(ops, Pattern(d[j].0));
    }
  }

  // -------------------------------------------------------------------------------------------
  // Patched routes
  // -------------------------------------------------------------------------------------------

  lemma IndexIs<K, V>(d: Dict<K, V>, k: K, i: nat)
    requires DistinctKeys(d) && i < |d| && d[i].0 == k
    ensures IndexOf(d, k) == Some(i)
  {
    var j := IndexOf(d, k).value;
    assert !(i < j) && !(j < i);
  }

  lemma DeleteKeys<K, V>(d: Dict<K, V>, k: K)
    requires DistinctKeys(d)
    ensures DistinctKeys(Delete(d, k)) && IndexOf(Delete(d, k), k).None?
  {
    if IndexOf(d, k).Some? { DeletePlaces(d, k); }
  }

  /** Where a key is after another one has been deleted. */
  lemma DeleteIndex<K, V>(d: Dict<K, V>, k: K, other: K)
    requires DistinctKeys(d) && IndexOf(d, k).Some? && other != k
    ensures var i, j, e := IndexOf(d, k).value, IndexOf(d, other), Delete(d, k);
            IndexOf(e, other) == if j.Some? then Some(if j.value < i then j.value else j.value - 1) else None
  {
    var i, j, e := IndexOf(d, k).value, IndexOf(d, other), Delete(d, k);
    DeletePlaces(d, k);
    DeleteKeys(d, k);
    if j.Some? {
      IndexIs(e, other, if j.value < i then j.value else j.value - 1);
    } else {
      forall l | 0 <= l < |e| ensures e[l].0 != other {}
    }
  }

  lemma PutKeys<K, V>(d: Dict<K, V>, k: K, v: V)
    requires DistinctKeys(d)
    ensures DistinctKeys(Put(d, k, v))
    ensures forall i :: 0 <= i < |d| ==> Put(d, k, v)[i].0 == d[i].0
  {
  }

  lemma DeletePut<K, V>(d: Dict<K, V>, k: K, other: K, v: V)
    requires DistinctKeys(d) && IndexOf(d, k).Some? && other != k
    ensures IndexOf(Put(d, other, v), k) == IndexOf(d, k) && DistinctKeys(Put(d, other, v))
    ensures Delete(Put(d, other, v), k) == Put(Delete(d, k), other, v)
  {
    var i, j := IndexOf(d, k).value, IndexOf(d, other);
    PutKeys(d, other, v);
    IndexIs(Put(d, other, v), k, i);
    DeleteIndex(d, k, other);
    if j.Some? { RemoveUpdated(d, i, j.value, (other, v)); } else { RemoveAppended(d, i, (other, v)); }
  }

  lemma DeleteDelete<K, V>(d: Dict<K, V>, k: K, other: K)
    requires DistinctKeys(d) && IndexOf(d, k).Some? && IndexOf(d, other).Some? && other != k
    ensures IndexOf(Delete(d, other), k).Some?
    ensures Delete(Delete(d, other), k) == Delete(Delete(d, k), other)
  {
    var i, j := IndexOf(d, k).value, IndexOf(d, other).value;
    assert i != j;
    assert IndexOf(Delete(d, k), other) == Some(if j < i then j else j - 1) by { DeleteIndex(d, k, other); }
    assert IndexOf(Delete(d, other), k) == Some(if i < j then i else i - 1) by { DeleteIndex(d, other, k); }
    if i < j { DeleteOrdered(d, k, other, i, j); } else { DeleteOrdered(d, other, k, j, i); }
  }

  lemma DeleteOrdered<K, V>(d: Dict<K, V>, k: K, other: K, i: nat, j: nat)
    requires i < j && IndexOf(d, k) == Some(i) && IndexOf(d, other) == Some(j)
    requires IndexOf(Delete(d, k), other) == Some(j - 1) && IndexOf(Delete(d, other), k) == Some(i)
    ensures Delete(Delete(d, other), k) == Delete(Delete(d, k), other)
  {
    RemoveTwo(d, i, j);
  }

  /** `t` is `base` with the target in place besides. */
  ghost predicate With<P, C>(t: Table<P, C>, target: Target<P>, base: Table<P, C>) {
    Has(t, target) && Drop(t, target) == base && DistinctKeys(t.reRoutes)
  }

  ghost predicate Spares<P, C>(op: Op<P, C>, target: Target<P>) {
    !op.Clear? && op.target != target
  }

  lemma SpareStep<P, C>(t: Table<P, C>, target: Target<P>, base: Table<P, C>, op: Op<P, C>)
    requires With(t, target, base) && Spares(op, target)
    ensures With(Apply(t, op), target, Apply(base, op)) && Verdict(t, op) == Verdict(base, op)
  {
    if target.Pattern? && op.target.Pattern? {
      DeleteIndex(t.reRoutes, target.pattern, op.target.pattern);
      if Verdict(t, op) == Ok {
        if op.Remove? {
          DeleteDelete(t.reRoutes, target.pattern, op.target.pattern);
          DeleteKeys(t.reRoutes, op.target.pattern);
        } else {
          DeletePut(t.reRoutes, target.pattern, op.target.pattern, op.callback.value);
        }
      }
    } else if op.target.Pattern? && Verdict(t, op) == Ok && op.Remove? {
      DeleteKeys(t.reRoutes, op.target.pattern);
    }
  }

  lemma {:induction false} SpareRun<P, C>(t: Table<P, C>, target: Target<P>, base: Table<P, C>, body: seq<Op<P, C>>)
    requires With(t, target, base) && forall op :: op in body ==> Spares(op, target)
    ensures With(Run(t, body), target, Run(base, body))
    decreases |body|
  {
    if body != [] {
      var n := |body| - 1;
      SpareRun(t, target, base, body[..n]);
      SpareStep(Run(t, body[..n]), target, Run(base, body[..n]), body[n]);
    }
  }

  /** A `patch` context whose body leaves its target alone ends without an error, and leaves the
      table as if only its body had run: order of patterns included. */
  lemma PatchLeavesNoTrace<P, C>(t: Table<P, C>, target: Target<P>, c: C, body: seq<Op<P, C>>)
    requires DistinctKeys(t.reRoutes) && Verdict(t, Op.Add(target, Some(c))) == Ok
    requires forall op :: op in body ==> Spares(op, target)
    ensures var inside := Run(Apply(t, Op.Add(target, Some(c))), body);
            && Verdict(inside, Op.Remove(target)) == Ok
            && Apply(inside, Op.Remove(target)) == Run(t, body)
  {
    var patched := Apply(t, Op.Add(target, Some(c)));
    if target.Pattern? {
      var d := patched.reRoutes;
      assert d[|t.reRoutes|].0 == target.pattern;
      assert Delete(d, target.pattern) == t.reRoutes;
    } else {
      assert patched.routes - {target.path} == t.routes;
    }
    SpareRun(patched, target, t, body);
  }
}
