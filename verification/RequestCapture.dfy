/** Recorded request scopes and the expectations they are held against: maps, multimaps, and the
    grouping of header and query pairs into multimaps. */
module RequestCapture {

  import opened Options

  // -------------------------------------------------------------------------------------------
  // Submaps and submultimaps
  // -------------------------------------------------------------------------------------------

  /** Every pair of `sub` is in `super`. */
  ghost predicate Submap<K, V>(sub: map<K, V>, super: map<K, V>) {
    forall k :: k in sub ==> k in super && super[k] == sub[k]
  }

  /** Every key of `sub` is in `super`, with at least its values, counted. */
  ghost predicate Submultimap<K, V>(sub: map<K, seq<V>>, super: map<K, seq<V>>) {
    forall k :: k in sub ==> k in super && multiset(sub[k]) <= multiset(super[k])
  }

  method IsSubmapOf<K(==), V(==)>(sub: map<K, V>, super: map<K, V>) returns (r: bool)
    ensures r <==> Submap(sub, super)
  {
    var todo := sub.Keys;
    while todo != {}
      invariant todo <= sub.Keys
      invariant forall k :: k in sub && k !in todo ==> k in super && super[k] == sub[k]
      decreases todo
    {
      var k :| k in todo;
      if k !in super { return false; }
      if super[k] != sub[k] { return false; }
      todo := todo - {k};
    }
    return true;
  }

  /** A `Counter`'s entry, 0 if missing. */
  function Entry<V>(c: map<V, int>, v: V): int {
    if v in c then c[v] else 0
  }

  method Counter<V(==)>(values: seq<V>) returns (c: map<V, int>)
    ensures forall v :: Entry(c, v) == multiset(values)[v]
  {
    c := map[];
    for i := 0 to |values|
      invariant forall v :: Entry(c, v) == multiset(values[..i])[v]
    {
      assert values[..i + 1] == values[..i] + [values[i]];
      c := c[values[i] := Entry(c, values[i]) + 1];
    }
    assert values[..|values|] == values;
  }

  /** `diff = Counter(have); diff.subtract(Counter(want))`, and whether no count is negative. */
  method HasAll<V(==)>(have: seq<V>, want: seq<V>) returns (r: bool)
    ensures r <==> multiset(want) <= multiset(have)
  {
    var diff := Counter(have);
    var wanted := Counter(want);
    var todo := wanted.Keys;
    while todo != {}
      invariant todo <= wanted.Keys
      invariant forall v :: multiset(have)[v] == Entry(diff, v) + if v in todo then 0 else multiset(want)[v]
      decreases todo
    {
      var v :| v in todo;
      diff := diff[v := Entry(diff, v) - wanted[v]];
      todo := todo - {v};
    }
    todo := diff.Keys;
    while todo != {}
      invariant todo <= diff.Keys
      invariant forall v :: v in diff && v !in todo ==> diff[v] >= 0
      decreases todo
    {
      var v :| v in todo;
      if diff[v] < 0 {
        assert multiset(have)[v] == Entry(diff, v) + multiset(want)[v];
        return false;
      }
      todo := todo - {v};
    }
    forall v ensures multiset(want)[v] <= multiset(have)[v] {
      assert Entry(diff, v) >= 0;
    }
    return true;
  }

  method IsSubmultimapOf<K(==), V(==)>(sub: map<K, seq<V>>, super: map<K, seq<V>>) returns (r: bool)
    ensures r <==> Submultimap(sub, super)
  {
    var todo := sub.Keys;
    while todo != {}
      invariant todo <= sub.Keys
      invariant forall k :: k in sub && k !in todo ==> k in super && multiset(sub[k]) <= multiset(super[k])
      decreases todo
    {
      var k :| k in todo;
      if k !in super { return false; }
      var all := HasAll(super[k], sub[k]);
      if !all { return false; }
      todo := todo - {k};
    }
    return true;
  }

  /** The relation is the preorder of expectations: one multimap is included in another exactly
      when, wanted as a submultimap, it accepts everything the other accepts. */
  lemma WeakerMultimap<K(!new), V(!new)>(weak: map<K, seq<V>>, strong: map<K, seq<V>>)
    ensures Submultimap(weak, strong)
            <==> forall m: map<K, seq<V>> :: Submultimap(strong, m) ==> Submultimap(weak, m)
  {
    assert Submultimap(strong, strong);
  }

  lemma WeakerMap<K(!new), V(!new)>(weak: map<K, V>, strong: map<K, V>)
    ensures Submap(weak, strong) <==> forall m: map<K, V> :: Submap(strong, m) ==> Submap(weak, m)
  {
    assert Submap(strong, strong);
  }

  // -------------------------------------------------------------------------------------------
  // Expectations
  // -------------------------------------------------------------------------------------------

  /** What the user gives as the values of a key. Only a list can equal a recorded list. */
  datatype Values<V> = List(items: seq<V>) | NotAList(items: seq<V>)

  function Items<K, V>(m: map<K, Values<V>>): map<K, seq<V>> {
    map k | k in m :: m[k].items
  }

  ghost predicate SameLists<K, V>(m: map<K, Values<V>>, recorded: map<K, seq<V>>) {
    m.Keys == recorded.Keys && forall k :: k in m ==> m[k] == List(recorded[k])
  }

  /** The result of `_to_expected_map`. */
  datatype Expected<+T> = Anything | Exactly(value: T) | AtLeast(value: T)

  /** `_repr_map`: the exact map and the submap that an expectation comes from. */
  function Given<T>(e: Expected<T>): (Option<T>, Option<T>) {
    match e
    case Anything => (None, None)
    case Exactly(m) => (Some(m), None)
    case AtLeast(m) => (None, Some(m))
  }

  /** `_to_expected_map`; giving both forms is a TypeError. */
  function ToExpected<T>(exact: Option<T>, submap: Option<T>): (r: Option<Expected<T>>)
    ensures r.None? <==> exact.Some? && submap.Some?
    ensures r.Some? ==> Given(r.value) == (exact, submap)
  {
    if exact.Some? then if submap.Some? then None else Some(Exactly(exact.value))
    else if submap.Some? then Some(AtLeast(submap.value))
    else Some(Anything)
  }

  ghost predicate MapAccepts<K, V>(e: Expected<map<K, V>>, recorded: map<K, V>) {
    match e
    case Anything => true
    case Exactly(m) => m == recorded
    case AtLeast(m) => Submap(m, recorded)
  }

  ghost predicate MultimapAccepts<K, V>(e: Expected<map<K, Values<V>>>, recorded: map<K, seq<V>>) {
    match e
    case Anything => true
    case Exactly(m) => SameLists(m, recorded)
    case AtLeast(m) => Submultimap(Items(m), recorded)
  }

  method MatchesExpectedMap<K(==), V(==)>(e: Expected<map<K, V>>, recorded: map<K, V>) returns (r: bool)
    ensures r <==> MapAccepts(e, recorded)
  {
    match e
    case Anything => return true;
    case AtLeast(m) => r := IsSubmapOf(m, recorded);
    case Exactly(m) => return m == recorded;
  }

  method MatchesExpectedMultimap<K(==), V(==)>(e: Expected<map<K, Values<V>>>, recorded: map<K, seq<V>>)
      returns (r: bool)
    ensures r <==> MultimapAccepts(e, recorded)
  {
    match e
    case Anything => return true;
    case AtLeast(m) => r := IsSubmultimapOf(Items(m), recorded);
    case Exactly(m) =>
      var asLists := map k | k in recorded :: List(recorded[k]);
      if m == asLists { assert m.Keys == recorded.Keys; }
      return m == asLists;
  }

  /** `lower_keys`: a later key overrides an earlier one of the same spelling, and an empty map
      becomes no expectation at all. */
  function LowerKeys<V>(lower: string -> string, d: Option<seq<(string, V)>>): Option<map<string, V>> {
    if d.None? || d.value == [] then None else Some(Lowered(lower, d.value))
  }

  function Lowered<V>(lower: string -> string, d: seq<(string, V)>): map<string, V> {
    if d == [] then map[]
    else Lowered(lower, d[..|d| - 1])[lower(d[|d| - 1].0) := d[|d| - 1].1]
  }

  // -------------------------------------------------------------------------------------------
  // Scopes
  // -------------------------------------------------------------------------------------------

  type Headers = map<string, Values<string>>

  datatype Recorded<P> = Recorded(headers: map<string, seq<string>>, path: string,
                                  pathParams: map<string, P>, queryParams: map<string, seq<string>>)

  datatype PathExpectation = AnyPath | Literal(path: string) | Pattern(fullmatch: string -> bool) {
    predicate Accepts(p: string) {
      match this
      case AnyPath => true
      case Literal(s) => p == s
      case Pattern(f) => f(p)
    }
  }

  datatype ScopeArgs<P> = ScopeArgs(
    headers: Option<seq<(string, Values<string>)>>, headersSubmap: Option<seq<(string, Values<string>)>>,
    path: PathExpectation,
    pathParams: Option<map<string, P>>, pathParamsSubmap: Option<map<string, P>>,
    queryParams: Option<Headers>, queryParamsSubmap: Option<Headers>)

  datatype Scope<P> = Scope(headers: Expected<Headers>, path: PathExpectation,
                            pathParams: Expected<map<string, P>>, queryParams: Expected<Headers>)

  /** `ScopeExpectation.__init__`; None is a TypeError. */
  function MakeScope<P>(lower: string -> string, a: ScopeArgs<P>): Option<Scope<P>> {
    var headers := ToExpected(LowerKeys(lower, a.headers), LowerKeys(lower, a.headersSubmap));
    var pathParams := ToExpected(a.pathParams, a.pathParamsSubmap);
    var queryParams := ToExpected(a.queryParams, a.queryParamsSubmap);
    if headers.None? || pathParams.None? || queryParams.None? then None
    else Some(Scope(headers.value, a.path, pathParams.value, queryParams.value))
  }

  ghost predicate Accepts<P>(s: Scope<P>, r: Recorded<P>) {
    && MultimapAccepts(s.headers, r.headers)
    && s.path.Accepts(r.path)
    && MapAccepts(s.pathParams, r.pathParams)
    && MultimapAccepts(s.queryParams, r.queryParams)
  }

  /** The i-th pair given is the last of its name, lower-cased; the others are overridden. */
  ghost predicate LastOfName<V>(lower: string -> string, given: seq<(string, V)>, i: nat)
    requires i < |given|
  {
    forall j :: i < j < |given| ==> lower(given[j].0) != lower(given[i].0)
  }

  /** The pair that gives the value expected under `k`, if any. */
  lemma {:induction false} LoweredAt<V>(lower: string -> string, given: seq<(string, V)>, k: string)
      returns (i: Option<nat>)
    ensures k in Lowered(lower, given) <==> i.Some?
    ensures i.None? ==> forall j :: 0 <= j < |given| ==> lower(given[j].0) != k
    ensures i.Some? ==>
              && i.value < |given| && LastOfName(lower, given, i.value) && lower(given[i.value].0) == k
              && Lowered(lower, given)[k] == given[i.value].1
    decreases |given|
  {
    i := None;
    if given != [] {
      var n := |given| - 1;
      i := LoweredAt(lower, given[..n], k);
      assert forall j :: 0 <= j < n ==> given[..n][j] == given[j];
      if lower(given[n].0) == k { i := Some(n); }
    }
  }

  lemma OneLast<V>(lower: string -> string, given: seq<(string, V)>, i: nat, j: nat)
    requires i < |given| && j < |given| && lower(given[i].0) == lower(given[j].0)
    requires LastOfName(lower, given, i) && LastOfName(lower, given, j)
    ensures i == j
  {
    assert !(i < j) && !(j < i);
  }

  /** Recorded headers are exactly the given ones: no other name, and the list given last for each. */
  ghost predicate HeadersEqual(lower: string -> string, given: seq<(string, Values<string>)>,
                               recorded: map<string, seq<string>>)
  {
    && (forall k :: k in recorded ==> exists i :: 0 <= i < |given| && lower(given[i].0) == k)
    && forall i :: 0 <= i < |given| && LastOfName(lower, given, i) ==>
         lower(given[i].0) in recorded && given[i].1 == List(recorded[lower(given[i].0)])
  }

  /** Recorded headers have at least the values given last for each name, counted. */
  ghost predicate HeadersAtLeast(lower: string -> string, given: seq<(string, Values<string>)>,
                                 recorded: map<string, seq<string>>)
  {
    forall i :: 0 <= i < |given| && LastOfName(lower, given, i) ==>
      && lower(given[i].0) in recorded
      && multiset(given[i].1.items) <= multiset(recorded[lower(given[i].0)])
  }

  /** The map holds, under each name given, the value given last for it. */
  ghost predicate HoldsLast<V>(lower: string -> string, given: seq<(string, V)>, m: map<string, V>) {
    && (forall k :: k in m ==>
          exists i :: 0 <= i < |given| && LastOfName(lower, given, i) && lower(given[i].0) == k && m[k] == given[i].1)
    && (forall i :: 0 <= i < |given| ==> lower(given[i].0) in m)
    && forall i :: 0 <= i < |given| && LastOfName(lower, given, i) ==> m[lower(given[i].0)] == given[i].1
  }

  lemma LoweredHoldsLast<V>(lower: string -> string, given: seq<(string, V)>)
    ensures HoldsLast(lower, given, Lowered(lower, given))
  {
    var m := Lowered(lower, given);
    forall k | k in m
      ensures exists i ::
                0 <= i < |given| && LastOfName(lower, given, i) && lower(given[i].0) == k && m[k] == given[i].1
    {
      var i := LoweredAt(lower, given, k);
    }
    forall i | 0 <= i < |given| ensures lower(given[i].0) in m { var j := LoweredAt(lower, given, lower(given[i].0)); }
    forall i | 0 <= i < |given| && LastOfName(lower, given, i) ensures m[lower(given[i].0)] == given[i].1 {
      var j := LoweredAt(lower, given, lower(given[i].0));
      OneLast(lower, given, i, j.value);
    }
  }

  lemma EqualMeans(lower: string -> string, given: seq<(string, Values<string>)>, m: Headers,
                   recorded: map<string, seq<string>>)
    requires HoldsLast(lower, given, m)
    ensures SameLists(m, recorded) <==> HeadersEqual(lower, given, recorded)
  {
    if HeadersEqual(lower, given, recorded) {
      forall k | k in m ensures k in recorded && m[k] == List(recorded[k]) {
        var i :| 0 <= i < |given| && LastOfName(lower, given, i) && lower(given[i].0) == k && m[k] == given[i].1;
      }
    }
  }

  lemma AtLeastMeans(lower: string -> string, given: seq<(string, Values<string>)>, m: Headers,
                     recorded: map<string, seq<string>>)
    requires HoldsLast(lower, given, m)
    ensures Submultimap(Items(m), recorded) <==> HeadersAtLeast(lower, given, recorded)
  {
    if HeadersAtLeast(lower, given, recorded) {
      forall k | k in Items(m) ensures k in recorded && multiset(Items(m)[k]) <= multiset(recorded[k]) {
        var i :| 0 <= i < |given| && LastOfName(lower, given, i) && lower(given[i].0) == k && m[k] == given[i].1;
      }
    }
    if Submultimap(Items(m), recorded) {
      forall i | 0 <= i < |given| && LastOfName(lower, given, i)
        ensures var k := lower(given[i].0); k in recorded && multiset(given[i].1.items) <= multiset(recorded[k])
      {
        assert lower(given[i].0) in Items(m);
      }
    }
  }

  lemma HeadersMean(lower: string -> string, given: seq<(string, Values<string>)>, recorded: map<string, seq<string>>)
    ensures MultimapAccepts(Exactly(Lowered(lower, given)), recorded) <==> HeadersEqual(lower, given, recorded)
    ensures MultimapAccepts(AtLeast(Lowered(lower, given)), recorded) <==> HeadersAtLeast(lower, given, recorded)
  {
    LoweredHoldsLast(lower, given);
    EqualMeans(lower, given, Lowered(lower, given), recorded);
    AtLeastMeans(lower, given, Lowered(lower, given), recorded);
  }

  predicate NotEmpty<T>(given: Option<seq<T>>) { given.Some? && given.value != [] }

  lemma HeadersPart(lower: string -> string, exact: Option<seq<(string, Values<string>)>>,
                    sub: Option<seq<(string, Values<string>)>>, recorded: map<string, seq<string>>)
    ensures var e := ToExpected(LowerKeys(lower, exact), LowerKeys(lower, sub));
            && (e.None? <==> NotEmpty(exact) && NotEmpty(sub))
            && (e.Some? ==> (MultimapAccepts(e.value, recorded)
                             <==> && (NotEmpty(exact) ==> HeadersEqual(lower, exact.value, recorded))
                                  && (NotEmpty(sub) ==> HeadersAtLeast(lower, sub.value, recorded))))
  {
    if exact.Some? { HeadersMean(lower, exact.value, recorded); }
    if sub.Some? { HeadersMean(lower, sub.value, recorded); }
  }

  /** Query parameters keep their names. */
  ghost predicate ParamsEqual(given: Headers, recorded: map<string, seq<string>>) {
    given.Keys == recorded.Keys && forall k :: k in recorded ==> given[k] == List(recorded[k])
  }

  ghost predicate ParamsAtLeast(given: Headers, recorded: map<string, seq<string>>) {
    forall k :: k in given ==> k in recorded && multiset(given[k].items) <= multiset(recorded[k])
  }

  lemma ParamsPart(exact: Option<Headers>, sub: Option<Headers>, recorded: map<string, seq<string>>)
    ensures var e := ToExpected(exact, sub);
            e.Some? ==> (MultimapAccepts(e.value, recorded)
                         <==> && (exact.Some? ==> ParamsEqual(exact.value, recorded))
                              && (sub.Some? ==> ParamsAtLeast(sub.value, recorded)))
  {
  }

  /** What a test has asked for, argument by argument; empty headers ask for nothing. */
  ghost predicate Meets<P>(lower: string -> string, a: ScopeArgs<P>, r: Recorded<P>) {
    && (NotEmpty(a.headers) ==> HeadersEqual(lower, a.headers.value, r.headers))
    && (NotEmpty(a.headersSubmap) ==> HeadersAtLeast(lower, a.headersSubmap.value, r.headers))
    && (a.path.Literal? ==> r.path == a.path.path)
    && (a.path.Pattern? ==> a.path.fullmatch(r.path))
    && (a.pathParams.Some? ==> r.pathParams == a.pathParams.value)
    && (a.pathParamsSubmap.Some? ==> a.pathParamsSubmap.value.Items <= r.pathParams.Items)
    && (a.queryParams.Some? ==> ParamsEqual(a.queryParams.value, r.queryParams))
    && (a.queryParamsSubmap.Some? ==> ParamsAtLeast(a.queryParamsSubmap.value, r.queryParams))
  }

  lemma SubmapItems<K, V>(sub: map<K, V>, super: map<K, V>)
    ensures Submap(sub, super) <==> sub.Items <= super.Items
  {
    if sub.Items <= super.Items {
      forall k | k in sub ensures k in super && super[k] == sub[k] { assert (k, sub[k]) in sub.Items; }
    }
  }

  /** A scope is made unless some part is given in both forms, and it then accepts exactly the
      requests that meet every argument given. */
  lemma ScopeMeansArguments<P>(lower: string -> string, a: ScopeArgs<P>, r: Recorded<P>)
    ensures MakeScope(lower, a).None?
            <==> || (NotEmpty(a.headers) && NotEmpty(a.headersSubmap))
                 || (a.pathParams.Some? && a.pathParamsSubmap.Some?)
                 || (a.queryParams.Some? && a.queryParamsSubmap.Some?)
    ensures MakeScope(lower, a).Some? ==> (Accepts(MakeScope(lower, a).value, r) <==> Meets(lower, a, r))
  {
    HeadersPart(lower, a.headers, a.headersSubmap, r.headers);
    ParamsPart(a.queryParams, a.queryParamsSubmap, r.queryParams);
    if a.pathParamsSubmap.Some? { SubmapItems(a.pathParamsSubmap.value, r.pathParams); }
  }

  datatype Part = InHeaders | InPath | InPathParams | InQueryParams

  /** `scope_mismatch_reasons`, each reason reduced to the part it is about. */
  method ScopeMismatchReasons<P(==)>(s: Scope<P>, r: Recorded<P>) returns (reasons: seq<Part>)
    ensures InHeaders in reasons <==> !MultimapAccepts(s.headers, r.headers)
    ensures InPath in reasons <==> !s.path.Accepts(r.path)
    ensures InPathParams in reasons <==> !MapAccepts(s.pathParams, r.pathParams)
    ensures InQueryParams in reasons <==> !MultimapAccepts(s.queryParams, r.queryParams)
    ensures reasons == [] <==> Accepts(s, r)
  {
    reasons := [];
    var headers := MatchesExpectedMultimap(s.headers, r.headers);
    if !headers { reasons := reasons + [InHeaders]; }
    if !s.path.Accepts(r.path) { reasons := reasons + [InPath]; }
    var pathParams := MatchesExpectedMap(s.pathParams, r.pathParams);
    if !pathParams { reasons := reasons + [InPathParams]; }
    var queryParams := MatchesExpectedMultimap(s.queryParams, r.queryParams);
    if !queryParams { reasons := reasons + [InQueryParams]; }
  }

  /** One expectation asks no more than another. */
  ghost predicate WeakerExpected<K, V>(weak: Expected<map<K, Values<V>>>, strong: Expected<map<K, Values<V>>>) {
    || weak.Anything?
    || (weak.Exactly? && strong == weak)
    || (weak.AtLeast? && !strong.Anything? && Submultimap(Items(weak.value), Items(strong.value)))
  }

  ghost predicate WeakerScope<P>(weak: Scope<P>, strong: Scope<P>) {
    && WeakerExpected(weak.headers, strong.headers)
    && WeakerExpected(weak.queryParams, strong.queryParams)
    && (|| weak.pathParams.Anything?
        || (weak.pathParams.Exactly? && strong.pathParams == weak.pathParams)
        || (weak.pathParams.AtLeast? && !strong.pathParams.Anything?
            && Submap(weak.pathParams.value, strong.pathParams.value)))
    && forall p :: strong.path.Accepts(p) ==> weak.path.Accepts(p)
  }

  lemma WeakerExpectedAccepts<K, V>(weak: Expected<map<K, Values<V>>>, strong: Expected<map<K, Values<V>>>,
                                    recorded: map<K, seq<V>>)
    requires WeakerExpected(weak, strong) && MultimapAccepts(strong, recorded)
    ensures MultimapAccepts(weak, recorded)
  {
    if weak.AtLeast? && strong.Exactly? {
      assert Items(strong.value) == recorded;
    }
  }

  /** A weaker scope never rejects what a stronger one accepts. */
  lemma WeakerScopeAccepts<P>(weak: Scope<P>, strong: Scope<P>, r: Recorded<P>)
    requires WeakerScope(weak, strong) && Accepts(strong, r)
    ensures Accepts(weak, r)
  {
    WeakerExpectedAccepts(weak.headers, strong.headers, r.headers);
    WeakerExpectedAccepts(weak.queryParams, strong.queryParams, r.queryParams);
  }

  /** The same maps, given as submaps. */
  function AsSubmaps<P>(a: ScopeArgs<P>): ScopeArgs<P> {
    ScopeArgs(None, if LowerKeys((k: string) => k, a.headers).Some? then a.headers else a.headersSubmap, a.path,
              None, if a.pathParams.Some? then a.pathParams else a.pathParamsSubmap,
              None, if a.queryParams.Some? then a.queryParams else a.queryParamsSubmap)
  }

  /** Arguments the constructor accepts it also accepts as submaps, and then a recorded scope that
      meets the exact maps meets them too. */
  lemma ExactImpliesSubmap<P>(lower: string -> string, a: ScopeArgs<P>, r: Recorded<P>)
    requires MakeScope(lower, a).Some? && Accepts(MakeScope(lower, a).value, r)
    ensures MakeScope(lower, AsSubmaps(a)).Some? && Accepts(MakeScope(lower, AsSubmaps(a)).value, r)
  {
    var s, t := MakeScope(lower, a).value, MakeScope(lower, AsSubmaps(a)).value;
    assert WeakerExpected(t.headers, s.headers);
    WeakerScopeAccepts(t, s, r);
  }

  // -------------------------------------------------------------------------------------------
  // Grouping pairs into a multimap
  // -------------------------------------------------------------------------------------------

  /** The values paired with `k`, in order. */
  function ValuesOf<K(==), V>(pairs: seq<(K, V)>, k: K): seq<V> {
    if pairs == [] then []
    else ValuesOf(pairs[..|pairs| - 1], k) + if pairs[|pairs| - 1].0 == k then [pairs[|pairs| - 1].1] else []
  }

  /** `m` groups the pairs: each key with exactly its values, in order, and no other key. */
  ghost predicate Groups<K(!new), V>(pairs: seq<(K, V)>, m: map<K, seq<V>>) {
    && (forall k :: k in m <==> ValuesOf(pairs, k) != [])
    && (forall k :: k in m ==> m[k] == ValuesOf(pairs, k))
  }

  lemma GroupsStep<K(!new), V>(pairs: seq<(K, V)>, i: nat, m: map<K, seq<V>>)
    requires i < |pairs| && Groups(pairs[..i], m)
    ensures var (k, v) := pairs[i];
            Groups(pairs[..i + 1], m[k := if k in m then m[k] + [v] else [v]])
  {
    assert pairs[..i + 1][..i] == pairs[..i];
  }

  lemma GroupsUnique<K(!new), V>(pairs: seq<(K, V)>, m1: map<K, seq<V>>, m2: map<K, seq<V>>)
    requires Groups(pairs, m1) && Groups(pairs, m2)
    ensures m1 == m2
  {
  }

  lemma {:induction false} ValuesOfCount<K, V>(pairs: seq<(K, V)>, k: K, v: V)
    ensures multiset(ValuesOf(pairs, k))[v] == multiset(pairs)[(k, v)]
    decreases |pairs|
  {
    if pairs != [] {
      var n := |pairs| - 1;
      assert pairs == pairs[..n] + [pairs[n]];
      ValuesOfCount(pairs[..n], k, v);
    }
  }

  /** The values of a key are those of all its pairs, in the order of the pairs. */
  ghost predicate InPairOrder<K, V>(pairs: seq<(K, V)>, k: K, at: seq<nat>, values: seq<V>) {
    && |at| == |values|
    && (forall i, j :: 0 <= i < j < |at| ==> at[i] < at[j])
    && (forall i :: 0 <= i < |at| ==> at[i] < |pairs| && pairs[at[i]] == (k, values[i]))
    && forall n :: 0 <= n < |pairs| && pairs[n].0 == k ==> n in at
  }

  lemma {:induction false} ValuesInOrder<K, V>(pairs: seq<(K, V)>, k: K) returns (at: seq<nat>)
    ensures InPairOrder(pairs, k, at, ValuesOf(pairs, k))
    decreases |pairs|
  {
    at := [];
    if pairs != [] {
      var n := |pairs| - 1;
      at := ValuesInOrder(pairs[..n], k);
      InPairOrderSnoc(pairs[..n], k, at, ValuesOf(pairs[..n], k), pairs[n]);
      assert pairs == pairs[..n] + [pairs[n]];
      if pairs[n].0 == k { at := at + [n]; }
    }
  }

  lemma InPairOrderSnoc<K, V>(pairs: seq<(K, V)>, k: K, at: seq<nat>, values: seq<V>, pair: (K, V))
    requires InPairOrder(pairs, k, at, values)
    ensures pair.0 == k ==> InPairOrder(pairs + [pair], k, at + [|pairs|], values + [pair.1])
    ensures pair.0 != k ==> InPairOrder(pairs + [pair], k, at, values)
  {
    var all := pairs + [pair];
    forall i | 0 <= i < |at| ensures all[at[i]] == (k, values[i]) { assert all[at[i]] == pairs[at[i]]; }
    forall n | 0 <= n < |pairs| && all[n].0 == k ensures n in at && n in at + [|pairs|] {
      assert all[n] == pairs[n];
    }
    if pair.0 == k { assert (at + [|pairs|])[|at|] == |pairs|; }
  }

  /** The submultimap check against a grouped list of pairs counts the pairs themselves: each
      expected key occurs, and each pair occurs at least as often as it is wanted. */
  lemma SubmultimapOfGrouped<K(!new), V(!new)>(want: map<K, seq<V>>, pairs: seq<(K, V)>, m: map<K, seq<V>>)
    requires Groups(pairs, m)
    ensures Submultimap(want, m)
            <==> forall k :: k in want ==>
                   && (exists i :: 0 <= i < |pairs| && pairs[i].0 == k)
                   && forall v :: multiset(want[k])[v] <= multiset(pairs)[(k, v)]
  {
    forall k | k in want
      ensures k in m <==> exists i :: 0 <= i < |pairs| && pairs[i].0 == k
      ensures k in m ==> (multiset(want[k]) <= multiset(m[k])
                          <==> forall v :: multiset(want[k])[v] <= multiset(pairs)[(k, v)])
    {
      Occurs(pairs, k);
      forall v ensures multiset(ValuesOf(pairs, k))[v] == multiset(pairs)[(k, v)] { ValuesOfCount(pairs, k, v); }
    }
  }

  lemma {:induction false} Occurs<K, V>(pairs: seq<(K, V)>, k: K)
    ensures ValuesOf(pairs, k) != [] <==> exists i :: 0 <= i < |pairs| && pairs[i].0 == k
    decreases |pairs|
  {
    if pairs != [] {
      var n := |pairs| - 1;
      Occurs(pairs[..n], k);
      assert forall i :: 0 <= i < n ==> pairs[i] == pairs[..n][i];
    }
  }

  /** The number of values in a multimap. */
  ghost function Total<K, V>(m: map<K, seq<V>>): nat {
    if m == map[] then 0
    else
      var k :| k in m;
      |m[k]| + Total(m - {k})
  }

  lemma {:induction false} TotalOf<K, V>(m: map<K, seq<V>>, k: K)
    requires k in m
    ensures Total(m) == |m[k]| + Total(m - {k})
    decreases |m|
  {
    var j :| j in m && Total(m) == |m[j]| + Total(m - {j});
    if j != k {
      TotalOf(m - {j}, k);
      TotalOf(m - {k}, j);
      assert m - {j} - {k} == m - {k} - {j};
    }
  }

  /** One more pair adds one value. */
  lemma TotalNext<K(!new), V>(pairs: seq<(K, V)>, before: map<K, seq<V>>, m: map<K, seq<V>>)
    requires pairs != [] && Groups(pairs[..|pairs| - 1], before) && Groups(pairs, m)
    ensures Total(m) == Total(before) + 1
  {
    var k := pairs[|pairs| - 1].0;
    OthersSame(pairs, before, m);
    TotalOf(m, k);
    if k in before { TotalOf(before, k); } else { assert before - {k} == before; }
  }

  lemma OthersSame<K(!new), V>(pairs: seq<(K, V)>, before: map<K, seq<V>>, m: map<K, seq<V>>)
    requires pairs != [] && Groups(pairs[..|pairs| - 1], before) && Groups(pairs, m)
    ensures var k := pairs[|pairs| - 1].0;
            && before - {k} == m - {k}
            && k in m && |m[k]| == 1 + if k in before then |before[k]| else 0
  {
    var n := |pairs| - 1;
    var k := pairs[n].0;
    assert ValuesOf(pairs, k) == ValuesOf(pairs[..n], k) + [pairs[n].1];
    forall j | j != k
      ensures j in before <==> j in m
      ensures j in m ==> before[j] == m[j]
    {
      assert ValuesOf(pairs, j) == ValuesOf(pairs[..n], j);
    }
  }

  /** Grouping conserves the number of pairs. */
  lemma {:induction false} GroupsTotal<K(!new), V>(pairs: seq<(K, V)>, m: map<K, seq<V>>)
    requires Groups(pairs, m)
    ensures Total(m) == |pairs|
    decreases |pairs|
  {
    if pairs == [] {
      assert m == map[];
    } else {
      var n := |pairs| - 1;
      var before := map j | j in m && ValuesOf(pairs[..n], j) != [] :: ValuesOf(pairs[..n], j);
      GroupsTotal(pairs[..n], before);
      TotalNext(pairs, before, m);
    }
  }
}
