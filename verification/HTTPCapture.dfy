/** Recorded HTTP requests, and the ordered matching of expected requests against them. */
module HTTPCapture {

  import opened Options
  import opened Framing
  import opened RequestCapture

  datatype RecordedHTTPRequest<P> = RecordedHTTPRequest(scope: Recorded<P>, verb: string, content: Bytes)

  /** An expected request: its scope, an upper-cased method if any, a body validator if any. On some
      contents a validator may raise an exception; it has no answer there. */
  datatype ExpectedHTTPRequest<!P> =
    ExpectedHTTPRequest(scope: Scope<P>, verb: Option<string>, body: Option<Bytes -> Option<bool>>)

  ghost predicate RequestAccepts<P>(e: ExpectedHTTPRequest<P>, r: RecordedHTTPRequest<P>) {
    && Accepts(e.scope, r.scope)
    && (e.verb.Some? && e.verb.value != "" ==> e.verb.value == r.verb)
    && (e.body.Some? ==> e.body.value(r.content) == Some(true))
  }

  /** The body validator raises, whatever the other parts of the request are. */
  ghost predicate Raises<P>(e: ExpectedHTTPRequest<P>, r: RecordedHTTPRequest<P>) {
    e.body.Some? && e.body.value(r.content) == None
  }

  datatype Reason = InScope(part: Part) | InVerb | InBody

  datatype Match = Matched | Mismatched | ValidatorRaised

  method Matches<P(==)>(e: ExpectedHTTPRequest<P>, r: RecordedHTTPRequest<P>) returns (m: Match)
    ensures m == Matched <==> RequestAccepts(e, r)
    ensures m == ValidatorRaised <==> Raises(e, r)
    ensures m == Matched <==> && Accepts(e.scope, r.scope)
                              && (e.verb == None || e.verb == Some("") || e.verb == Some(r.verb))
                              && (e.body == None || e.body.value(r.content) == Some(true))
    ensures m == ValidatorRaised <==> e.body != None && e.body.value(r.content) == None
  {
    var parts := ScopeMismatchReasons(e.scope, r.scope);
    var reasons := seq(|parts|, i requires 0 <= i < |parts| => InScope(parts[i]));
    if e.verb.Some? && e.verb.value != "" && e.verb.value != r.verb {
      reasons := reasons + [InVerb];
    }
    if e.body.Some? {
      match e.body.value(r.content) {
        case None => return ValidatorRaised;
        case Some(ok) => if !ok { reasons := reasons + [InBody]; }
      }
    }
    return if reasons == [] then Matched else Mismatched;
  }

  /** `from_request`, the grouping of its header and query pairs. */
  method GroupRequest(lower: string -> string, headers: seq<(string, string)>, query: seq<(string, string)>)
      returns (h: map<string, seq<string>>, q: map<string, seq<string>>)
    ensures Groups(seq(|headers|, i requires 0 <= i < |headers| => (lower(headers[i].0), headers[i].1)), h)
    ensures Groups(query, q)
  {
    h := map[];
    ghost var lowered := seq(|headers|, i requires 0 <= i < |headers| => (lower(headers[i].0), headers[i].1));
    for i := 0 to |headers|
      invariant Groups(lowered[..i], h)
    {
      GroupsStep(lowered, i, h);
      var (k, v) := headers[i];
      var kLower := lower(k);
      if kLower !in h { h := h[kLower := [v]]; }
      else { h := h[kLower := h[kLower] + [v]]; }
    }
    assert lowered[..|headers|] == lowered;
    assert lowered == seq(|headers|, i requires 0 <= i < |headers| => (lower(headers[i].0), headers[i].1));
    q := map[];
    for i := 0 to |query|
      invariant Groups(query[..i], q)
    {
      GroupsStep(query, i, q);
      var (k, v) := query[i];
      if k !in q { q := q[k := [v]]; }
      else { q := q[k := q[k] + [v]]; }
    }
    assert query[..|query|] == query;
  }

  // -------------------------------------------------------------------------------------------
  // Ordered matching
  // -------------------------------------------------------------------------------------------

  /** `f` places each expected request at a matching recorded one, in strictly increasing order. */
  ghost predicate Places<P>(expected: seq<ExpectedHTTPRequest<P>>, recorded: seq<RecordedHTTPRequest<P>>, f: seq<nat>) {
    && |f| == |expected|
    && (forall i, j :: 0 <= i < j < |f| ==> f[i] < f[j])
    && forall i :: 0 <= i < |f| ==> f[i] < |recorded| && RequestAccepts(expected[i], recorded[f[i]])
  }

  ghost predicate Embeds<P>(expected: seq<ExpectedHTTPRequest<P>>, recorded: seq<RecordedHTTPRequest<P>>) {
    exists f :: Places(expected, recorded, f)
  }

  /** An embedding of the first `k + 1` expected requests whose last place is beyond `i` is one of
      the first `k` in the first `i` recorded. */
  lemma DropLast<P>(expected: seq<ExpectedHTTPRequest<P>>, recorded: seq<RecordedHTTPRequest<P>>,
                    k: nat, i: nat, f: seq<nat>)
    requires k < |expected| && i <= |recorded|
    requires Places(expected[..k + 1], recorded[..i], f)
    ensures Places(expected[..k], recorded[..f[k]], f[..k])
  {
    forall j | 0 <= j < k ensures RequestAccepts(expected[..k][j], recorded[..f[k]][f[j]]) {
      assert expected[..k + 1][j] == expected[..k][j];
      assert recorded[..i][f[j]] == recorded[..f[k]][f[j]];
    }
  }

  lemma Widen<P>(expected: seq<ExpectedHTTPRequest<P>>, recorded: seq<RecordedHTTPRequest<P>>,
                 i: nat, j: nat, f: seq<nat>)
    requires i <= j <= |recorded| && Places(expected, recorded[..i], f)
    ensures Places(expected, recorded[..j], f)
  {
    forall n | 0 <= n < |f| ensures RequestAccepts(expected[n], recorded[..j][f[n]]) {
      assert recorded[..i][f[n]] == recorded[..j][f[n]];
    }
  }

  /** The greedy loop has matched exactly the longest prefix that embeds: the first `k` expected
      requests embed in the first `i` recorded ones, and no more do. */
  ghost predicate Greedy<P>(expected: seq<ExpectedHTTPRequest<P>>, recorded: seq<RecordedHTTPRequest<P>>,
                            k: nat, i: nat)
  {
    && k <= |expected| && i <= |recorded|
    && Embeds(expected[..k], recorded[..i])
    && (k < |expected| ==> !Embeds(expected[..k + 1], recorded[..i]))
  }

  lemma GreedyTake<P>(expected: seq<ExpectedHTTPRequest<P>>, recorded: seq<RecordedHTTPRequest<P>>, k: nat, i: nat)
    requires Greedy(expected, recorded, k, i) && k < |expected| && i < |recorded|
    requires RequestAccepts(expected[k], recorded[i])
    ensures Greedy(expected, recorded, k + 1, i + 1)
  {
    var f :| Places(expected[..k], recorded[..i], f);
    Widen(expected[..k], recorded, i, i + 1, f);
    assert Places(expected[..k + 1], recorded[..i + 1], f + [i]);
    if k + 1 < |expected| && Embeds(expected[..k + 2], recorded[..i + 1]) {
      var g :| Places(expected[..k + 2], recorded[..i + 1], g);
      DropLast(expected, recorded, k + 1, i + 1, g);
      Widen(expected[..k + 1], recorded, g[k + 1], i, g[..k + 1]);
      assert false;
    }
  }

  lemma Narrow<P>(expected: seq<ExpectedHTTPRequest<P>>, recorded: seq<RecordedHTTPRequest<P>>,
                  k: nat, i: nat, g: seq<nat>)
    requires k < |expected| && i < |recorded| && !RequestAccepts(expected[k], recorded[i])
    requires Places(expected[..k + 1], recorded[..i + 1], g)
    ensures Places(expected[..k + 1], recorded[..i], g)
  {
    assert g[k] != i;
  }

  lemma GreedyStart<P>(expected: seq<ExpectedHTTPRequest<P>>, recorded: seq<RecordedHTTPRequest<P>>)
    requires expected != []
    ensures Greedy(expected, recorded, 0, 0)
  {
    assert Places(expected[..0], recorded[..0], []);
    TooFew(expected[..1], recorded[..0]);
  }

  lemma GreedySkip<P>(expected: seq<ExpectedHTTPRequest<P>>, recorded: seq<RecordedHTTPRequest<P>>, k: nat, i: nat)
    requires Greedy(expected, recorded, k, i) && k < |expected| && i < |recorded|
    requires !RequestAccepts(expected[k], recorded[i])
    ensures Greedy(expected, recorded, k, i + 1)
  {
    var f :| Places(expected[..k], recorded[..i], f);
    Widen(expected[..k], recorded, i, i + 1, f);
    if Embeds(expected[..k + 1], recorded[..i + 1]) {
      var g :| Places(expected[..k + 1], recorded[..i + 1], g);
      Narrow(expected, recorded, k, i, g);
    }
  }

  lemma {:induction false} PlacesGrow(f: seq<nat>, i: nat)
    requires forall a, b :: 0 <= a < b < |f| ==> f[a] < f[b]
    requires i < |f|
    ensures f[i] >= i
    decreases i
  {
    if i > 0 { PlacesGrow(f, i - 1); }
  }

  /** More requests than were recorded cannot all be found. */
  lemma TooFew<P>(expected: seq<ExpectedHTTPRequest<P>>, recorded: seq<RecordedHTTPRequest<P>>)
    requires |recorded| < |expected|
    ensures !Embeds(expected, recorded)
  {
    if f :| Places(expected, recorded, f) {
      PlacesGrow(f, |f| - 1);
    }
  }

  /** A prefix of what embeds embeds. */
  lemma EmbedsPrefix<P>(expected: seq<ExpectedHTTPRequest<P>>, recorded: seq<RecordedHTTPRequest<P>>, k: nat, n: nat)
    requires k <= n <= |expected| && Embeds(expected[..n], recorded)
    ensures Embeds(expected[..k], recorded)
  {
    var f :| Places(expected[..n], recorded, f);
    forall i | 0 <= i < k ensures RequestAccepts(expected[..k][i], recorded[f[i]]) {
      assert expected[..n][i] == expected[..k][i];
    }
    assert Places(expected[..k], recorded, f[..k]);
  }

  /** Only one prefix is the longest that embeds. */
  lemma GreedyUnique<P>(expected: seq<ExpectedHTTPRequest<P>>, recorded: seq<RecordedHTTPRequest<P>>,
                        j: nat, k: nat, i: nat)
    requires Greedy(expected, recorded, j, i) && Greedy(expected, recorded, k, i)
    ensures j == k
  {
    if j < k { EmbedsPrefix(expected, recorded[..i], j + 1, k); }
    if k < j { EmbedsPrefix(expected, recorded[..i], k + 1, j); }
  }

  /** Trying the expected requests in order, each against the recorded ones after the match of the
      one before it, meets a validator that raises on the i-th recorded request. */
  ghost predicate RaisesAt<P>(expected: seq<ExpectedHTTPRequest<P>>, recorded: seq<RecordedHTTPRequest<P>>, i: nat) {
    && i < |recorded|
    && exists k :: 0 <= k < |expected| && Greedy(expected, recorded, k, i) && Raises(expected[k], recorded[i])
  }

  /** Once all are matched, nothing more is tried. */
  lemma DoneTrying<P>(expected: seq<ExpectedHTTPRequest<P>>, recorded: seq<RecordedHTTPRequest<P>>, i: nat, j: nat)
    requires i <= j && i <= |recorded| && Embeds(expected, recorded[..i])
    ensures !RaisesAt(expected, recorded, j)
  {
    if k :| 0 <= k < |expected| && j < |recorded| && Greedy(expected, recorded, k, j) {
      var f :| Places(expected, recorded[..i], f);
      Widen(expected, recorded, i, j, f);
      assert expected[..|expected|] == expected;
      EmbedsPrefix(expected, recorded[..j], k + 1, |expected|);
    }
  }

  lemma NotRaisedAt<P>(expected: seq<ExpectedHTTPRequest<P>>, recorded: seq<RecordedHTTPRequest<P>>, k: nat, i: nat)
    requires Greedy(expected, recorded, k, i) && k < |expected| && i < |recorded| && !Raises(expected[k], recorded[i])
    ensures !RaisesAt(expected, recorded, i)
  {
    if j :| 0 <= j < |expected| && Greedy(expected, recorded, j, i) && Raises(expected[j], recorded[i]) {
      GreedyUnique(expected, recorded, j, k, i);
    }
  }

  lemma FoundAt<P>(expected: seq<ExpectedHTTPRequest<P>>, recorded: seq<RecordedHTTPRequest<P>>, i: nat)
    requires Greedy(expected, recorded, |expected|, i)
    ensures Embeds(expected, recorded)
    ensures forall j :: i <= j < |recorded| ==> !RaisesAt(expected, recorded, j)
  {
    assert expected[..|expected|] == expected && recorded[..|recorded|] == recorded;
    var f :| Places(expected, recorded[..i], f);
    Widen(expected, recorded, i, |recorded|, f);
    forall j | i <= j < |recorded| ensures !RaisesAt(expected, recorded, j) {
      DoneTrying(expected, recorded, i, j);
    }
  }

  datatype Verdict = Found | NothingExpected | NotFound(k: nat) | Raised

  /** The scan is made, and a validator raises in it. */
  ghost predicate ScanRaises<P>(expected: seq<ExpectedHTTPRequest<P>>, recorded: seq<RecordedHTTPRequest<P>>) {
    |expected| <= |recorded| && exists i :: 0 <= i < |recorded| && RaisesAt(expected, recorded, i)
  }

  /** `assert_has_requests`. An exception escapes exactly when the scan meets a validator that raises
      before it is done. Otherwise it succeeds exactly when the expected requests embed in the
      recorded ones; past the length check, the request it names is the first one that no embedding
      reaches. */
  method AssertHasRequests<P(==)>(recorded: seq<RecordedHTTPRequest<P>>, expected: seq<ExpectedHTTPRequest<P>>)
      returns (v: Verdict)
    ensures v == NothingExpected <==> expected == []
    ensures v == Raised <==> ScanRaises(expected, recorded)
    ensures expected != [] ==> (v == Found <==> Embeds(expected, recorded) && !ScanRaises(expected, recorded))
    ensures v.NotFound? ==> v.k < |expected|
    ensures v.NotFound? && |recorded| < |expected| ==> v.k == 0
    ensures v.NotFound? && |recorded| >= |expected| ==>
              && !Embeds(expected[..v.k + 1], recorded)
              && forall k :: 0 <= k <= v.k ==> Embeds(expected[..k], recorded)
  {
    if |expected| == 0 { return NothingExpected; }
    if |recorded| < |expected| {
      TooFew(expected, recorded);
      return NotFound(0);
    }
    var next := 0;
    GreedyStart(expected, recorded);
    for i := 0 to |recorded|
      invariant next < |expected|
      invariant Greedy(expected, recorded, next, i)
      invariant forall j :: 0 <= j < i ==> !RaisesAt(expected, recorded, j)
    {
      var m := Matches(expected[next], recorded[i]);
      if m.ValidatorRaised? {
        assert RaisesAt(expected, recorded, i);
        return Raised;
      }
      NotRaisedAt(expected, recorded, next, i);
      if m.Matched? {
        GreedyTake(expected, recorded, next, i);
        next := next + 1;
        if next == |expected| {
          FoundAt(expected, recorded, i + 1);
          return Found;
        }
      } else {
        GreedySkip(expected, recorded, next, i);
      }
    }
    assert recorded[..|recorded|] == recorded && expected[..|expected|] == expected;
    if Embeds(expected, recorded) { EmbedsPrefix(expected, recorded, next + 1, |expected|); }
    forall k | 0 <= k <= next ensures Embeds(expected[..k], recorded) {
      EmbedsPrefix(expected, recorded, k, next);
    }
    return NotFound(next);
  }

  /** A request that is there is not found if a validator raises on an earlier one: one expected
      request, and a recorded request it cannot read before one it accepts. */
  lemma RaisingHidesMatch<P>(e: ExpectedHTTPRequest<P>, unreadable: RecordedHTTPRequest<P>,
                             good: RecordedHTTPRequest<P>)
    requires Raises(e, unreadable) && RequestAccepts(e, good)
    ensures Embeds([e], [unreadable, good]) && ScanRaises([e], [unreadable, good])
  {
    var recorded := [unreadable, good];
    assert Places([e], recorded, [1]);
    GreedyStart([e], recorded);
    assert RaisesAt([e], recorded, 0);
  }
}
