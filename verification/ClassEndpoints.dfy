/** Endpoint templates declared on server classes, and their collection along inheritance. */
module ClassEndpoints {

  import opened Options

  // -------------------------------------------------------------------------------------------
  // Class hierarchies and inheritance paths
  // -------------------------------------------------------------------------------------------

  /** A class: its bases, by position in the hierarchy, and the templates among its own attributes. */
  datatype Class<T> = Class(bases: seq<nat>, own: map<string, T>)

  /** Classes in order of definition, the first being the web server class itself. */
  type Hierarchy<T> = seq<Class<T>>

  ghost predicate WellFormed<T>(h: Hierarchy<T>) {
    && h != [] && h[0] == Class([], map[])
    && forall c, i :: 0 <= c < |h| && 0 <= i < |h[c].bases| ==> h[c].bases[i] < c
  }

  /** Only classes derived from the web server take part; any other base is a plain mixin. */
  predicate IsServer<T>(h: Hierarchy<T>, c: nat)
    requires c < |h|
    decreases c
  {
    c == 0 || exists i :: 0 <= i < |h[c].bases| && h[c].bases[i] < c && IsServer(h, h[c].bases[i])
  }

  /** An inheritance path, as the position of a base to follow at each step. */
  type Path = seq<nat>

  function Ancestor<T>(h: Hierarchy<T>, c: nat, p: Path): (r: Option<nat>)
    requires c < |h|
    ensures r.Some? ==> r.value < |h|
    decreases |p|
  {
    if p == [] then Some(c)
    else if p[0] < |h[c].bases| && h[c].bases[p[0]] < |h| then Ancestor(h, h[c].bases[p[0]], p[1..])
    else None
  }

  /** A template of the given name is defined at the end of the path. */
  predicate Arrives<T>(h: Hierarchy<T>, c: nat, p: Path, name: string)
    requires c < |h|
  {
    var a := Ancestor(h, c, p);
    a.Some? && IsServer(h, a.value) && name in h[a.value].own
  }

  ghost predicate ArrivesTwice<T>(h: Hierarchy<T>, c: nat)
    requires c < |h|
  {
    exists p, q, name :: p != q && Arrives(h, c, p, name) && Arrives(h, c, q, name)
  }

  /** A table of templates that is what inheritance says: each name has exactly one path to a
      class that defines it, and its template is the one defined there. */
  ghost predicate Inherited<T>(h: Hierarchy<T>, c: nat, m: map<string, T>)
    requires c < |h|
  {
    && !ArrivesTwice(h, c)
    && (forall name :: name in m ==> exists p :: Arrives(h, c, p, name))
    && forall p, name :: Arrives(h, c, p, name) ==> name in m && m[name] == h[Ancestor(h, c, p).value].own[name]
  }

  lemma {:induction false} ServerBelow<T>(h: Hierarchy<T>, c: nat, p: Path)
    requires WellFormed(h) && c < |h|
    requires Ancestor(h, c, p).Some? && IsServer(h, Ancestor(h, c, p).value)
    ensures IsServer(h, c)
    decreases |p|
  {
    if p != [] {
      ServerBelow(h, h[c].bases[p[0]], p[1..]);
    }
  }

  /** Nothing arrives at a plain mixin. */
  lemma PlainHasNone<T>(h: Hierarchy<T>, c: nat)
    requires WellFormed(h) && c < |h| && !IsServer(h, c)
    ensures forall p, name :: !Arrives(h, c, p, name)
  {
    forall p, name ensures !Arrives(h, c, p, name) {
      if Arrives(h, c, p, name) { ServerBelow(h, c, p); }
    }
  }

  // -------------------------------------------------------------------------------------------
  // Collection at class definition
  // -------------------------------------------------------------------------------------------

  predicate Gives<T>(bases: seq<Option<map<string, T>>>, i: nat, k: string) {
    i < |bases| && bases[i].Some? && k in bases[i].value
  }

  /** Two of the collected tables have a name in common, the class's own being one of them. */
  ghost predicate Clash<T>(bases: seq<Option<map<string, T>>>, own: map<string, T>) {
    || (exists i: nat, j: nat, k :: i < j && Gives(bases, i, k) && Gives(bases, j, k))
    || (exists i: nat, k :: Gives(bases, i, k) && k in own)
  }

  ghost predicate Merged<T>(bases: seq<Option<map<string, T>>>, own: map<string, T>, m: map<string, T>) {
    && (forall k :: k in m ==> k in own || exists i: nat :: Gives(bases, i, k))
    && (forall k :: k in own ==> k in m && m[k] == own[k])
    && (forall i: nat, k :: Gives(bases, i, k) ==> k in m && m[k] == bases[i].value[k])
  }

  lemma MergeNext<T>(bases: seq<Option<map<string, T>>>, i: nat, m: map<string, T>)
    requires i < |bases| && !Clash(bases[..i], map[]) && Merged(bases[..i], map[], m)
    ensures var next := if bases[i].Some? then bases[i].value else map[];
            if next.Keys * m.Keys == {} then !Clash(bases[..i + 1], map[]) && Merged(bases[..i + 1], map[], m + next)
            else exists j: nat, k :: j < i && Gives(bases, j, k) && Gives(bases, i, k)
  {
    var b, b' := bases[..i], bases[..i + 1];
    forall j: nat, k ensures Gives(b', j, k) <==> Gives(b, j, k) || (j == i && Gives(bases, i, k)) {}
    var next := if bases[i].Some? then bases[i].value else map[];
    if next.Keys * m.Keys == {} {
      assert forall k :: k in m && k in next ==> k in next.Keys * m.Keys;
      forall j: nat, l: nat, k | j < l && Gives(b', l, k) ensures !Gives(b', j, k) {}
      forall j: nat, k | Gives(b', j, k) ensures k in m + next && (m + next)[k] == b'[j].value[k] {
        assert Gives(b, j, k) || (j == i && k in next);
      }
      forall k | k in m + next ensures exists j: nat :: Gives(b', j, k) {
        if k in next { assert Gives(b', i, k); }
        else { var j: nat :| Gives(b, j, k); assert Gives(b', j, k); }
      }
    } else {
      var k :| k in next.Keys * m.Keys;
      var j: nat :| Gives(b, j, k);
      assert Gives(bases, j, k) && Gives(bases, i, k);
    }
  }

  /** `__init_subclass__`, given the templates of the bases (none for a plain one); None is a
      TypeError. */
  method InitSubclass<T(==)>(bases: seq<Option<map<string, T>>>, own: map<string, T>)
      returns (r: Option<map<string, T>>)
    ensures r.None? <==> Clash(bases, own)
    ensures r.Some? ==> Merged(bases, own, r.value)
  {
    var endpoints: map<string, T> := map[];
    for i := 0 to |bases|
      invariant !Clash(bases[..i], map[])
      invariant Merged(bases[..i], map[], endpoints)
    {
      MergeNext(bases, i, endpoints);
      if bases[i].Some? && bases[i].value != map[] {
        var overlapping := bases[i].value.Keys * endpoints.Keys;
        if overlapping != {} { return None; }
        endpoints := endpoints + bases[i].value;
      } else {
        assert endpoints + map[] == endpoints;
      }
    }
    assert bases[..|bases|] == bases;
    ghost var inherited := endpoints;
    var todo := own.Keys;
    while todo != {}
      invariant todo <= own.Keys
      invariant forall k :: k in own && k !in todo ==> k !in inherited
      invariant forall k :: k in endpoints <==> k in inherited || (k in own && k !in todo)
      invariant forall k :: k in endpoints ==> endpoints[k] == if k in inherited then inherited[k] else own[k]
      decreases todo
    {
      var k :| k in todo;
      if k in endpoints {
        ghost var i: nat :| Gives(bases, i, k);
        return None;
      }
      endpoints := endpoints[k := own[k]];
      todo := todo - {k};
    }
    return Some(endpoints);
  }

  // -------------------------------------------------------------------------------------------
  // Whole hierarchies
  // -------------------------------------------------------------------------------------------

  lemma ArrivesHere<T>(h: Hierarchy<T>, c: nat, name: string)
    requires c < |h|
    ensures Arrives(h, c, [], name) <==> IsServer(h, c) && name in h[c].own
  {
  }

  lemma ArrivesVia<T>(h: Hierarchy<T>, c: nat, i: nat, p: Path, name: string)
    requires WellFormed(h) && c < |h| && i < |h[c].bases|
    ensures Arrives(h, c, [i] + p, name) <==> Arrives(h, h[c].bases[i], p, name)
    ensures Ancestor(h, c, [i] + p) == Ancestor(h, h[c].bases[i], p)
  {
    assert ([i] + p)[1..] == p;
  }

  /** A non-empty path that leads to a template starts at a base. */
  lemma ArrivesFrom<T>(h: Hierarchy<T>, c: nat, p: Path, name: string)
    requires WellFormed(h) && c < |h| && Arrives(h, c, p, name) && p != []
    ensures p[0] < |h[c].bases| && p == [p[0]] + p[1..]
    ensures IsServer(h, h[c].bases[p[0]]) && Arrives(h, h[c].bases[p[0]], p[1..], name)
  {
    ServerBelow(h, h[c].bases[p[0]], p[1..]);
  }

  /** The tables of the bases of `c`, each as inheritance says. */
  ghost predicate BasesKnown<T>(h: Hierarchy<T>, c: nat, bases: seq<Option<map<string, T>>>)
    requires WellFormed(h) && c < |h|
  {
    && |bases| == |h[c].bases|
    && forall i :: 0 <= i < |bases| ==> BaseKnown(h, h[c].bases[i], bases[i])
  }

  ghost predicate BaseKnown<T>(h: Hierarchy<T>, b: nat, table: Option<map<string, T>>)
    requires b < |h|
  {
    && (table.Some? <==> IsServer(h, b))
    && (table.Some? ==> Inherited(h, b, table.value))
  }

  /** A name in a base's table arrives through that base, and conversely. */
  lemma GivesArrives<T>(h: Hierarchy<T>, c: nat, bases: seq<Option<map<string, T>>>, i: nat, k: string)
      returns (p: Path)
    requires WellFormed(h) && c < |h| && BasesKnown(h, c, bases) && Gives(bases, i, k)
    ensures p != [] && p[0] == i && Arrives(h, c, p, k)
  {
    assert BaseKnown(h, h[c].bases[i], bases[i]);
    var q :| Arrives(h, h[c].bases[i], q, k);
    ArrivesVia(h, c, i, q, k);
    p := [i] + q;
  }

  lemma ArrivesGives<T>(h: Hierarchy<T>, c: nat, bases: seq<Option<map<string, T>>>, p: Path, k: string)
    requires WellFormed(h) && c < |h| && BasesKnown(h, c, bases) && Arrives(h, c, p, k) && p != []
    ensures Gives(bases, p[0], k) && bases[p[0]].value[k] == h[Ancestor(h, c, p).value].own[k]
  {
    ArrivesFrom(h, c, p, k);
    assert BaseKnown(h, h[c].bases[p[0]], bases[p[0]]);
  }

  lemma ClashArrivesTwice<T>(h: Hierarchy<T>, c: nat, bases: seq<Option<map<string, T>>>)
    requires WellFormed(h) && c < |h| && IsServer(h, c) && BasesKnown(h, c, bases)
    requires Clash(bases, h[c].own)
    ensures ArrivesTwice(h, c)
  {
    if i: nat, j: nat, k :| i < j && Gives(bases, i, k) && Gives(bases, j, k) {
      var p := GivesArrives(h, c, bases, i, k);
      var q := GivesArrives(h, c, bases, j, k);
    } else {
      var i: nat, k :| Gives(bases, i, k) && k in h[c].own;
      var p := GivesArrives(h, c, bases, i, k);
      ArrivesHere(h, c, k);
    }
  }

  lemma OnePath<T>(h: Hierarchy<T>, c: nat, bases: seq<Option<map<string, T>>>, p: Path, q: Path, name: string)
    requires WellFormed(h) && c < |h| && BasesKnown(h, c, bases) && !Clash(bases, h[c].own)
    requires Arrives(h, c, p, name) && Arrives(h, c, q, name)
    ensures p == q
  {
    if p != [] { ArrivesGives(h, c, bases, p, name); }
    if q != [] { ArrivesGives(h, c, bases, q, name); }
    if p == [] || q == [] {
      ArrivesHere(h, c, name);
    } else {
      assert p[0] == q[0];
      ArrivesFrom(h, c, p, name);
      ArrivesFrom(h, c, q, name);
      assert BaseKnown(h, h[c].bases[p[0]], bases[p[0]]);
      assert p[1..] == q[1..];
    }
  }

  lemma MergedIsInherited<T>(h: Hierarchy<T>, c: nat, bases: seq<Option<map<string, T>>>, m: map<string, T>)
    requires WellFormed(h) && c < |h| && IsServer(h, c) && BasesKnown(h, c, bases)
    requires !Clash(bases, h[c].own) && Merged(bases, h[c].own, m)
    ensures Inherited(h, c, m)
  {
    forall p, name | Arrives(h, c, p, name)
      ensures name in m && m[name] == h[Ancestor(h, c, p).value].own[name]
    {
      if p != [] { ArrivesGives(h, c, bases, p, name); }
    }
    forall p, q, name | Arrives(h, c, p, name) && Arrives(h, c, q, name) ensures p == q {
      OnePath(h, c, bases, p, q, name);
    }
    forall name | name in m ensures exists p :: Arrives(h, c, p, name) {
      if name in h[c].own {
        ArrivesHere(h, c, name);
      } else {
        var i: nat :| Gives(bases, i, name);
        var p := GivesArrives(h, c, bases, i, name);
      }
    }
  }

  ghost predicate Defined<T>(h: Hierarchy<T>, c: nat, table: Option<map<string, T>>)
    requires c < |h|
  {
    BaseKnown(h, c, table) && !ArrivesTwice(h, c)
  }

  /** One class definition: a plain mixin does not run `__init_subclass__`. */
  method DefineClass<T(==)>(h: Hierarchy<T>, c: nat, bases: seq<Option<map<string, T>>>)
      returns (ok: bool, table: Option<map<string, T>>)
    requires WellFormed(h) && 0 < c < |h| && BasesKnown(h, c, bases)
    ensures if ok then Defined(h, c, table) else ArrivesTwice(h, c)
  {
    if exists i :: 0 <= i < |bases| && bases[i].Some? {
      assert IsServer(h, c) by {
        var i :| 0 <= i < |bases| && bases[i].Some?;
        assert BaseKnown(h, h[c].bases[i], bases[i]);
      }
      table := InitSubclass(bases, h[c].own);
      ok := table.Some?;
      if ok { MergedIsInherited(h, c, bases, table.value); } else { ClashArrivesTwice(h, c, bases); }
    } else {
      assert !IsServer(h, c) by {
        forall i | 0 <= i < |bases| ensures !IsServer(h, h[c].bases[i]) {
          assert BaseKnown(h, h[c].bases[i], bases[i]);
        }
      }
      PlainHasNone(h, c);
      return true, None;
    }
  }

  /** Define the classes of a hierarchy one by one, up to the first that is rejected. Every class
      defined has exactly the templates that inheritance gives it, each name by a single path; a
      class is rejected exactly when some name arrives at it by two. */
  method DefineClasses<T(==)>(h: Hierarchy<T>) returns (tables: seq<Option<map<string, T>>>)
    requires WellFormed(h)
    ensures |tables| <= |h|
    ensures forall c :: 0 <= c < |tables| ==> Defined(h, c, tables[c])
    ensures |tables| < |h| ==> ArrivesTwice(h, |tables|)
  {
    RootHasNone(h);
    tables := [Some(map[])];
    for c := 1 to |h|
      invariant |tables| == c
      invariant forall d :: 0 <= d < c ==> Defined(h, d, tables[d])
    {
      var bases := seq(|h[c].bases|, i requires 0 <= i < |h[c].bases| => tables[h[c].bases[i]]);
      var ok, table := DefineClass(h, c, bases);
      if !ok { return; }
      tables := tables + [table];
    }
  }

  lemma RootHasNone<T>(h: Hierarchy<T>)
    requires WellFormed(h)
    ensures Defined(h, 0, Some(map[]))
  {
    forall p, name ensures !Arrives(h, 0, p, name) {
      if Arrives(h, 0, p, name) && p != [] { ArrivesFrom(h, 0, p, name); }
    }
  }

  /** A diamond over a class with templates is always rejected. */
  lemma DiamondArrivesTwice<T>(h: Hierarchy<T>, c: nat, i: nat, p: Path, j: nat, q: Path, name: string)
    requires WellFormed(h) && c < |h| && i < |h[c].bases| && j < |h[c].bases| && i != j
    requires Ancestor(h, h[c].bases[i], p).Some? && Ancestor(h, h[c].bases[i], p) == Ancestor(h, h[c].bases[j], q)
    requires Arrives(h, h[c].bases[i], p, name)
    ensures ArrivesTwice(h, c)
  {
    ArrivesVia(h, c, i, p, name);
    ArrivesVia(h, c, j, q, name);
    assert ([i] + p)[0] != ([j] + q)[0];
  }
}
