/** Erasing every secret below a directory of a Vault key-value store. */
module Vault {

  import opened Options

  // -------------------------------------------------------------------------------------------
  // Paths and listings
  // -------------------------------------------------------------------------------------------

  /** A stored path: relative, and not that of a directory. */
  predicate IsKey(k: string) {
    k != "" && k[0] != '/' && k[|k| - 1] != '/'
  }

  /** The client drops leading slashes. */
  function Relative(path: string): string {
    if path != "" && path[0] == '/' then Relative(path[1..]) else path
  }

  predicate IsDirectory(name: string) {
    name != "" && name[|name| - 1] == '/'
  }

  /** The first component of a path, with its slash if more follows. */
  function FirstName(rest: string): (n: string)
    ensures n <= rest && (rest != "" ==> n != "")
  {
    if rest == "" || rest[0] == '/' then rest[..if rest == "" then 0 else 1]
    else [rest[0]] + FirstName(rest[1..])
  }

  predicate Below(dir: string, k: string) { dir < k }

  function NameIn(dir: string, k: string): string
    requires Below(dir, k)
  {
    FirstName(k[|dir|..])
  }

  /** The immediate children of a directory, directories with a trailing slash. */
  function Children(keys: set<string>, dir: string): set<string> {
    set k | k in keys && Below(dir, k) :: NameIn(dir, k)
  }

  /** A component with no slash but perhaps a last one. */
  predicate IsName(n: string) {
    n != "" && '/' !in n[..|n| - 1]
  }

  lemma {:induction false} FirstNameIs(rest: string, n: string)
    requires rest != "" && IsName(n)
    ensures IsName(FirstName(rest))
    ensures IsDirectory(n) ==> (FirstName(rest) == n <==> n <= rest)
    ensures !IsDirectory(n) ==> (FirstName(rest) == n <==> n == rest)
    decreases |rest|
  {
    if |rest| == 1 {
      assert rest[1..] == "" && FirstName("") == "";
    } else if rest[0] != '/' {
      FirstNameIs(rest[1..], if |n| == 1 then n else n[1..]);
      var f := FirstName(rest[1..]);
      assert FirstName(rest) == [rest[0]] + f;
      assert ([rest[0]] + f)[1..] == f;
      if |n| > 1 {
        assert n == [n[0]] + n[1..] && rest == [rest[0]] + rest[1..];
      }
    }
  }

  /** Which stored paths a listed name accounts for: everything below a directory, or the one
      secret of that very path. */
  lemma NameCovers(dir: string, n: string, k: string)
    requires IsKey(k) && Below(dir, k) && IsName(n)
    ensures IsName(NameIn(dir, k))
    ensures IsDirectory(n) ==> (NameIn(dir, k) == n <==> Below(dir + n, k))
    ensures !IsDirectory(n) ==> (NameIn(dir, k) == n <==> k == dir + n)
  {
    var rest := k[|dir|..];
    assert k == dir + rest;
    FirstNameIs(rest, n);
    if IsDirectory(n) && n <= rest {
      assert k[..|dir + n|] == dir + n;
      assert k != dir + n;
    }
    if IsDirectory(n) && Below(dir + n, k) {
      assert k[|dir|..|dir| + |n|] == n;
    }
  }

  lemma {:induction false} RelativeAppend(path: string, name: string)
    requires Relative(path) != "" || (name != "" && name[0] != '/')
    ensures Relative(path + name) == Relative(path) + name
    decreases |path|
  {
    if path == "" {
      assert path + name == name;
    } else if path[0] == '/' {
      RelativeAppend(path[1..], name);
      assert (path + name)[1..] == path[1..] + name;
    }
  }

  ghost function Longest(keys: set<string>): (n: nat)
    ensures forall k :: k in keys ==> |k| <= n
  {
    if keys == {} then 0
    else
      var k :| k in keys;
      var n := Longest(keys - {k});
      if |k| > n then |k| else n
  }

  // -------------------------------------------------------------------------------------------
  // The service
  // -------------------------------------------------------------------------------------------

  datatype Outcome = Done | PathError | InvalidPath

  class VaultService<Secret> {
    var secrets: map<string, Secret>

    ghost predicate Valid()
      reads this
    {
      forall k :: k in secrets ==> IsKey(k)
    }

    /** The client's `list_secrets`: the names in some order, or an error if there are none. */
    method ListSecrets(path: string) returns (names: Option<seq<string>>)
      requires Valid()
      ensures names.None? <==> Children(secrets.Keys, Relative(path)) == {}
      ensures names.Some? ==>
                && (forall n :: n in names.value <==> n in Children(secrets.Keys, Relative(path)))
                && (forall i, j :: 0 <= i < j < |names.value| ==> names.value[i] != names.value[j])
    {
      var todo := Children(secrets.Keys, Relative(path));
      if todo == {} { return None; }
      var list: seq<string> := [];
      while todo != {}
        invariant forall n :: n in list || n in todo <==> n in Children(secrets.Keys, Relative(path))
        invariant forall n :: !(n in list && n in todo)
        invariant forall i, j :: 0 <= i < j < |list| ==> list[i] != list[j]
        decreases todo
      {
        var n :| n in todo;
        todo := todo - {n};
        list := list + [n];
      }
      return Some(list);
    }

    /** The client's `delete_metadata_and_all_versions`. */
    method Delete(path: string)
      requires Valid()
      modifies this
      ensures Valid() && secrets == old(secrets) - {Relative(path)}
    {
      secrets := secrets - {Relative(path)};
    }

    /** The inner `clear_recursive`. It raises exactly when nothing is below its path at the start,
        so none of the calls it makes itself does. `depth` bounds what is left of any path. */
    method ClearRecursive(path: string, ghost depth: nat) returns (ok: bool)
      requires Valid() && IsDirectory(path)
      requires forall k :: k in secrets ==> |k| <= |Relative(path)| + depth
      modifies this
      ensures Valid()
      ensures ok <==> exists k :: k in old(secrets) && Below(Relative(path), k)
      ensures secrets == map k | k in old(secrets) && !Below(Relative(path), k) :: old(secrets)[k]
      decreases depth
    {
      ghost var dir, start := Relative(path), secrets;
      var listing := ListSecrets(path);
      assert forall k :: k in secrets && Below(dir, k) ==> NameIn(dir, k) in Children(secrets.Keys, dir);
      if listing.None? { return false; }
      var names := listing.value;
      assert names != [] by {
        assert exists n :: n in Children(start.Keys, dir);
      }
      for i := 0 to |names|
        invariant Valid()
        invariant secrets == Remaining(start, dir, names[..i])
      {
        var name := names[i];
        assert name in names && name in Children(start.Keys, dir);
        ghost var k0 :| k0 in start && Below(dir, k0) && NameIn(dir, k0) == name;
        StepRemoves(start, dir, names, i);
        ChildPath(path, k0);
        if IsDirectory(name) {
          assert k0 in secrets;
          ok := ClearRecursive(path + name, depth - |name|);
          if !ok { return; }
        } else {
          Delete(path + name);
        }
      }
      AllRemoved(start, dir, names);
      ok := true;
    }

    /** Everything strictly below the root is removed and nothing else; a secret at the root's own
        path stays. Only an empty root is an error, and then nothing changes. */
    method ClearSecrets(root: string) returns (r: Outcome)
      requires Valid()
      modifies this
      ensures Valid()
      ensures r == PathError <==> !IsDirectory(root)
      ensures r == InvalidPath <==> IsDirectory(root) && forall k :: k in old(secrets) ==> !Below(Relative(root), k)
      ensures r == Done ==> secrets == map k | k in old(secrets) && !Below(Relative(root), k) :: old(secrets)[k]
      ensures r != Done ==> secrets == old(secrets)
    {
      if !IsDirectory(root) { return PathError; }
      var ok := ClearRecursive(root, Longest(secrets.Keys));
      if ok { return Done; }
      assert secrets == old(secrets);
      return InvalidPath;
    }
  }

  // -------------------------------------------------------------------------------------------
  // Progress of one directory's loop
  // -------------------------------------------------------------------------------------------

  /** The store without the children of `dir` with the given names. */
  ghost function Remaining<S>(m: map<string, S>, dir: string, names: seq<string>): map<string, S> {
    map k | k in m && !(Below(dir, k) && NameIn(dir, k) in names) :: m[k]
  }

  ghost predicate Lists<S>(m: map<string, S>, dir: string, names: seq<string>) {
    && (forall k :: k in m ==> IsKey(k))
    && (forall n :: n in names <==> n in Children(m.Keys, dir))
    && (forall i, j :: 0 <= i < j < |names| ==> names[i] != names[j])
  }

  lemma ChildPath(path: string, k: string)
    requires IsDirectory(path) && IsKey(k) && Below(Relative(path), k)
    ensures var n := NameIn(Relative(path), k);
            && IsName(n) && Relative(path + n) == Relative(path) + n
            && (IsDirectory(n) ==> IsDirectory(path + n) && Below(Relative(path) + n, k))
  {
    var dir := Relative(path);
    NameCovers(dir, "x", k);
    NameCovers(dir, NameIn(dir, k), k);
    if dir == "" { assert k[0..] == k; assert NameIn(dir, k)[0] == k[0]; }
    RelativeAppend(path, NameIn(dir, k));
  }

  /** What the i-th name stands for is untouched until its turn, and is what its turn removes. */
  lemma StepRemoves<S>(m: map<string, S>, dir: string, names: seq<string>, i: nat)
    requires Lists(m, dir, names) && i < |names|
    ensures var now, n := Remaining(m, dir, names[..i]), names[i];
            && (forall k :: k in m && Below(dir, k) && NameIn(dir, k) == n ==> k in now)
            && (IsDirectory(n) ==>
                  Remaining(m, dir, names[..i + 1]) == map k | k in now && !Below(dir + n, k) :: now[k])
            && (!IsDirectory(n) ==> Remaining(m, dir, names[..i + 1]) == now - {dir + n})
  {
    var now, n := Remaining(m, dir, names[..i]), names[i];
    assert n in Children(m.Keys, dir);
    var k0 :| k0 in m && Below(dir, k0) && NameIn(dir, k0) == n;
    NameCovers(dir, "x", k0);
    assert names[..i + 1] == names[..i] + [n];
    forall k | k in m && Below(dir, k)
      ensures IsDirectory(n) ==> (NameIn(dir, k) == n <==> Below(dir + n, k))
      ensures !IsDirectory(n) ==> (NameIn(dir, k) == n <==> k == dir + n)
    {
      NameCovers(dir, n, k);
    }
  }

  lemma AllRemoved<S>(m: map<string, S>, dir: string, names: seq<string>)
    requires Lists(m, dir, names)
    ensures Remaining(m, dir, names[..|names|]) == map k | k in m && !Below(dir, k) :: m[k]
  {
    assert names[..|names|] == names;
    forall k | k in m && Below(dir, k) ensures NameIn(dir, k) in names {
      assert NameIn(dir, k) in Children(m.Keys, dir);
    }
  }
}
