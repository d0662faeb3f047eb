/** Byte strings, their splitting on a delimiter as Python's `bytes.split` does it, and the
    facts about it that the log stream decoder rests on. */
module Framing {

  import opened Options

  newtype Byte = b: int | 0 <= b < 256
  type Bytes = seq<Byte>

  // -------------------------------------------------------------------------------------------
  // Occurrences of a delimiter
  // -------------------------------------------------------------------------------------------

  predicate OccursAt(s: Bytes, d: Bytes, i: nat) {
    i + |d| <= |s| && s[i..i + |d|] == d
  }

  /** `d` does not occur anywhere in `s`. */
  ghost predicate Free(s: Bytes, d: Bytes) {
    forall i: nat :: !OccursAt(s, d, i)
  }

  /** The first occurrence of `d`, scanning from `from`. */
  function Find(s: Bytes, d: Bytes, from: nat := 0): (r: Option<nat>)
    requires from <= |s|
    ensures r.Some? ==> from <= r.value && OccursAt(s, d, r.value)
    ensures forall i: nat :: from <= i && (r.Some? ==> i < r.value) ==> !OccursAt(s, d, i)
    decreases |s| - from
  {
    if OccursAt(s, d, from) then Some(from)
    else if from == |s| then None
    else Find(s, d, from + 1)
  }

  // -------------------------------------------------------------------------------------------
  // Splitting and joining
  // -------------------------------------------------------------------------------------------

  /** `s.split(d)`: cut at the leftmost non-overlapping occurrences of a non-empty `d`. */
  function Split(s: Bytes, d: Bytes): (chunks: seq<Bytes>)
    requires d != []
    ensures chunks != []
    decreases |s|
  {
    match Find(s, d)
    case None => [s]
    case Some(i) => [s[..i]] + Split(s[i + |d|..], d)
  }

  function Concat(parts: seq<Bytes>): Bytes {
    if parts == [] then [] else Concat(parts[..|parts| - 1]) + parts[|parts| - 1]
  }

  /** `d.join(chunks)` */
  function Join(chunks: seq<Bytes>, d: Bytes): Bytes
    requires chunks != []
  {
    if |chunks| == 1 then chunks[0] else chunks[0] + d + Join(chunks[1..], d)
  }

  ghost predicate AllFree(chunks: seq<Bytes>, d: Bytes) {
    forall c :: c in chunks ==> Free(c, d)
  }

  lemma FreePrefix(s: Bytes, d: Bytes, i: nat)
    requires i <= |s| && forall j: nat :: j < i ==> !OccursAt(s, d, j)
    requires d != []
    ensures Free(s[..i], d)
  {
    forall j: nat ensures !OccursAt(s[..i], d, j) {
      if OccursAt(s[..i], d, j) {
        assert s[..i][j..j + |d|] == s[j..j + |d|];
        assert OccursAt(s, d, j);
      }
    }
  }

  lemma JoinCons(c: Bytes, chunks: seq<Bytes>, d: Bytes)
    requires chunks != []
    ensures Join([c] + chunks, d) == c + d + Join(chunks, d)
  {
    assert ([c] + chunks)[1..] == chunks;
  }

  lemma AllFreeCons(c: Bytes, chunks: seq<Bytes>, d: Bytes)
    requires Free(c, d) && AllFree(chunks, d)
    ensures AllFree([c] + chunks, d)
  {
  }

  /** The first delimiter after the chunk is the one that ends it. */
  ghost predicate EndsFirst(c: Bytes, d: Bytes) {
    forall i: nat :: i < |c| ==> !OccursAt(c + d, d, i)
  }

  /** Chunks cut at the leftmost delimiters: the first delimiter after each is the one that ends it,
      and there is none in the last. */
  ghost predicate Leftmost(chunks: seq<Bytes>, d: Bytes) {
    && chunks != []
    && Free(chunks[|chunks| - 1], d)
    && forall k :: 0 <= k < |chunks| - 1 ==> EndsFirst(chunks[k], d)
  }

  lemma LeftmostCons(c: Bytes, chunks: seq<Bytes>, d: Bytes)
    requires EndsFirst(c, d) && Leftmost(chunks, d)
    ensures Leftmost([c] + chunks, d)
  {
    var all := [c] + chunks;
    forall k | 0 <= k < |all| - 1 ensures EndsFirst(all[k], d) {
      if k > 0 { assert all[k] == chunks[k - 1]; }
    }
  }

  lemma LeftmostTail(chunks: seq<Bytes>, d: Bytes)
    requires |chunks| > 1 && Leftmost(chunks, d)
    ensures EndsFirst(chunks[0], d) && Leftmost(chunks[1..], d)
  {
    var rest := chunks[1..];
    forall k | 0 <= k < |rest| - 1 ensures EndsFirst(rest[k], d) { assert rest[k] == chunks[k + 1]; }
  }

  lemma OccursBefore(s: Bytes, more: Bytes, d: Bytes, i: nat)
    requires i + |d| <= |s|
    ensures OccursAt(s + more, d, i) <==> OccursAt(s, d, i)
  {
    assert (s + more)[i..i + |d|] == s[i..i + |d|];
  }

  lemma FirstEnds(s: Bytes, d: Bytes, i: nat)
    requires OccursAt(s, d, i) && forall j: nat :: j < i ==> !OccursAt(s, d, j)
    ensures EndsFirst(s[..i], d)
  {
    assert s == s[..i] + d + s[i + |d|..];
    forall j: nat | j < i ensures !OccursAt(s[..i] + d, d, j) { OccursBefore(s[..i] + d, s[i + |d|..], d, j); }
  }

  /** Splitting loses nothing, leaves no delimiter inside a chunk, and cuts at the leftmost
      delimiters. */
  lemma {:induction false} SplitSound(s: Bytes, d: Bytes)
    requires d != []
    ensures Join(Split(s, d), d) == s
    ensures AllFree(Split(s, d), d)
    ensures Leftmost(Split(s, d), d)
    decreases |s|
  {
    match Find(s, d)
    case None => assert Split(s, d) == [s];
    case Some(i) =>
      var rest := s[i + |d|..];
      SplitSound(rest, d);
      FreePrefix(s, d, i);
      FirstEnds(s, d, i);
      JoinCons(s[..i], Split(rest, d), d);
      AllFreeCons(s[..i], Split(rest, d), d);
      LeftmostCons(s[..i], Split(rest, d), d);
      assert s == s[..i] + d + rest;
  }

  lemma FindEnd(c: Bytes, d: Bytes, rest: Bytes)
    requires d != [] && EndsFirst(c, d)
    ensures Find(c + d + rest, d) == Some(|c|)
  {
    var s := c + d + rest;
    assert OccursAt(s, d, |c|);
    forall i: nat | i < |c| ensures !OccursAt(s, d, i) { OccursBefore(c + d, rest, d, i); }
  }

  lemma SplitStep(c: Bytes, d: Bytes, rest: Bytes)
    requires d != [] && Find(c + d + rest, d) == Some(|c|)
    ensures Split(c + d + rest, d) == [c] + Split(rest, d)
  {
    var s := c + d + rest;
    assert s[..|c|] == c && s[|c| + |d|..] == rest;
  }

  /** Splitting is the only way to cut a byte string at its leftmost delimiters. */
  lemma {:induction false} SplitUnique(chunks: seq<Bytes>, d: Bytes)
    requires d != [] && Leftmost(chunks, d)
    ensures Split(Join(chunks, d), d) == chunks
    decreases |chunks|
  {
    var s, c := Join(chunks, d), chunks[0];
    if |chunks| == 1 {
      assert Find(s, d).None?;
    } else {
      var rest := Join(chunks[1..], d);
      LeftmostTail(chunks, d);
      SplitUnique(chunks[1..], d);
      FindEnd(c, d, rest);
      SplitStep(c, d, rest);
      assert chunks == [c] + chunks[1..];
    }
  }

  lemma OneByteFree(s: Bytes, d: Bytes)
    requires |d| == 1
    ensures Free(s, d) <==> d[0] !in s
  {
    if d[0] in s {
      var i :| 0 <= i < |s| && s[i] == d[0];
      assert OccursAt(s, d, i);
    }
    forall i: nat | OccursAt(s, d, i) ensures d[0] in s {
      assert s[i] == s[i..i + 1][0];
    }
  }

  /** For a one-byte delimiter, any delimiter-free chunks are cut at the leftmost ones. */
  lemma OneByteLeftmost(chunks: seq<Bytes>, d: Bytes)
    requires |d| == 1 && chunks != [] && AllFree(chunks, d)
    ensures Leftmost(chunks, d)
  {
    forall k | 0 <= k < |chunks| - 1 ensures EndsFirst(chunks[k], d) {
      var c := chunks[k];
      OneByteFree(c, d);
      forall i: nat | i < |c| ensures !OccursAt(c + d, d, i) { assert (c + d)[i..i + 1][0] == c[i]; }
    }
  }

  lemma OneByteSplitUnique(chunks: seq<Bytes>, d: Bytes)
    requires |d| == 1 && chunks != [] && AllFree(chunks, d)
    ensures Split(Join(chunks, d), d) == chunks
  {
    OneByteLeftmost(chunks, d);
    SplitUnique(chunks, d);
  }

  // -------------------------------------------------------------------------------------------
  // Splitting a stream that arrives in pieces
  // -------------------------------------------------------------------------------------------

  /** Two chunk lists put end to end: the last chunk of one continues in the first of the other. */
  function Glue(x: seq<Bytes>, y: seq<Bytes>): seq<Bytes>
    requires x != [] && y != []
  {
    x[..|x| - 1] + [x[|x| - 1] + y[0]] + y[1..]
  }

  lemma {:induction false} JoinGlue(x: seq<Bytes>, y: seq<Bytes>, d: Bytes)
    requires x != [] && y != []
    ensures Join(Glue(x, y), d) == Join(x, d) + Join(y, d)
    decreases |x|
  {
    var g := Glue(x, y);
    if |x| == 1 {
      assert g == [x[0] + y[0]] + y[1..];
      if |y| > 1 {
        assert g[1..] == y[1..];
        assert Join(g, d) == x[0] + (y[0] + d + Join(y[1..], d));
      }
    } else {
      JoinGlue(x[1..], y, d);
      assert g[1..] == Glue(x[1..], y);
      assert Join(g, d) == x[0] + d + Join(x[1..], d) + Join(y, d);
    }
  }

  /** An occurrence of the delimiter begins in `a` and ends in `b`. */
  ghost predicate Straddles(a: Bytes, b: Bytes, d: Bytes) {
    exists i: nat :: i < |a| < i + |d| && OccursAt(a + b, d, i)
  }

  lemma OneByteUncut(a: Bytes, b: Bytes, d: Bytes)
    requires |d| <= 1
    ensures !Straddles(a, b, d)
  {
  }

  /** The last chunk is the end of what was joined, the first its beginning. */
  lemma {:induction false} JoinEnd(chunks: seq<Bytes>, d: Bytes) returns (before: Bytes)
    requires chunks != []
    ensures Join(chunks, d) == before + chunks[|chunks| - 1]
    decreases |chunks|
  {
    if |chunks| == 1 {
      before := [];
    } else {
      var b := JoinEnd(chunks[1..], d);
      before := chunks[0] + d + b;
      assert chunks[0] + d + (b + chunks[|chunks| - 1]) == before + chunks[|chunks| - 1];
    }
  }

  /** A delimiter where two parts of a stream meet is inside one of them. */
  lemma JointOccurs(before: Bytes, last: Bytes, head: Bytes, rest: Bytes, d: Bytes, i: nat)
    requires !Straddles(before + last, head + rest, d) && OccursAt(last + head, d, i)
    ensures i + |d| <= |last| || i >= |last|
  {
    var a, b := before + last, head + rest;
    assert a + b == before + (last + head) + rest;
    assert (a + b)[|before| + i..|before| + i + |d|] == (last + head)[i..i + |d|];
    assert OccursAt(a + b, d, |before| + i);
  }

  lemma OccursAfter(s: Bytes, more: Bytes, d: Bytes, i: nat)
    requires i >= |s|
    ensures OccursAt(s + more, d, i) <==> OccursAt(more, d, i - |s|)
  {
    if i + |d| <= |s + more| {
      assert (s + more)[i..i + |d|] == more[i - |s|..i - |s| + |d|];
    }
  }

  /** So the joint of two parts has no delimiter before its end. */
  lemma JointFree(before: Bytes, last: Bytes, head: Bytes, rest: Bytes, d: Bytes, i: nat)
    requires !Straddles(before + last, head + rest, d) && Free(last, d)
    requires i >= |last| ==> !OccursAt(head, d, i - |last|)
    ensures !OccursAt(last + head, d, i)
  {
    if i >= |last| { OccursAfter(last, head, d, i); }
    else if i + |d| <= |last| { OccursBefore(last, head, d, i); }
    else if OccursAt(last + head, d, i) { JointOccurs(before, last, head, rest, d, i); }
  }

  lemma GlueOneLeftmost(x: seq<Bytes>, m: Bytes, d: Bytes)
    requires Leftmost(x, d) && Free(x[|x| - 1] + m, d)
    ensures Leftmost(Glue(x, [m]), d)
  {
    var g := Glue(x, [m]);
    assert |g| == |x| && g[|g| - 1] == x[|x| - 1] + m;
    forall k | 0 <= k < |g| - 1 ensures EndsFirst(g[k], d) { assert g[k] == x[k]; }
  }

  lemma GlueMoreLeftmost(x: seq<Bytes>, y: seq<Bytes>, d: Bytes)
    requires Leftmost(x, d) && Leftmost(y, d) && |y| > 1 && EndsFirst(x[|x| - 1] + y[0], d)
    ensures Leftmost(Glue(x, y), d)
  {
    var g := Glue(x, y);
    assert g[|g| - 1] == y[|y| - 1];
    forall k | 0 <= k < |g| - 1 ensures EndsFirst(g[k], d) {
      if k < |x| - 1 { assert g[k] == x[k]; }
      else if k > |x| - 1 { assert g[k] == y[k - |x| + 1]; }
      else { assert g[k] == x[|x| - 1] + y[0]; }
    }
  }

  lemma JointEndsFirst(before: Bytes, last: Bytes, c: Bytes, rest: Bytes, d: Bytes)
    requires !Straddles(before + last, c + d + rest, d) && Free(last, d) && EndsFirst(c, d)
    ensures EndsFirst(last + c, d)
  {
    assert c + d + rest == (c + d) + rest && last + c + d == last + (c + d);
    forall i: nat | i < |last + c| ensures !OccursAt(last + c + d, d, i) {
      JointFree(before, last, c + d, rest, d, i);
    }
  }

  lemma JointLast(before: Bytes, last: Bytes, m: Bytes, d: Bytes)
    requires !Straddles(before + last, m, d) && Free(last, d) && Free(m, d)
    ensures Free(last + m, d)
  {
    assert m + [] == m;
    forall i: nat ensures !OccursAt(last + m, d, i) { JointFree(before, last, m, [], d, i); }
  }

  lemma JoinStep(chunks: seq<Bytes>, d: Bytes)
    requires chunks != []
    ensures |chunks| == 1 ==> Join(chunks, d) == chunks[0] && chunks == [chunks[0]]
    ensures |chunks| > 1 ==> Join(chunks, d) == chunks[0] + d + Join(chunks[1..], d)
  {
  }

  lemma GlueLeftmost(x: seq<Bytes>, y: seq<Bytes>, d: Bytes)
    requires d != [] && Leftmost(x, d) && Leftmost(y, d)
    requires !Straddles(Join(x, d), Join(y, d), d)
    ensures Leftmost(Glue(x, y), d)
  {
    var before := JoinEnd(x, d);
    JoinStep(y, d);
    if |y| == 1 {
      JointLast(before, x[|x| - 1], y[0], d);
      GlueOneLeftmost(x, y[0], d);
    } else {
      LeftmostTail(y, d);
      JointEndsFirst(before, x[|x| - 1], y[0], Join(y[1..], d), d);
      GlueMoreLeftmost(x, y, d);
    }
  }

  /** A stream cut anywhere but inside a delimiter splits as its two parts glued together. */
  lemma SplitConcat(a: Bytes, b: Bytes, d: Bytes)
    requires |d| == 1 || (d != [] && !Straddles(a, b, d))
    ensures Split(a + b, d) == Glue(Split(a, d), Split(b, d))
  {
    var x, y := Split(a, d), Split(b, d);
    SplitSound(a, d);
    SplitSound(b, d);
    JoinGlue(x, y, d);
    GlueLeftmost(x, y, d);
    SplitUnique(Glue(x, y), d);
  }

  /** A delimiter longer than the data is never found. */
  lemma SplitShort(s: Bytes, d: Bytes)
    requires |s| < |d|
    ensures Split(s, d) == [s]
  {
    assert Find(s, d).None?;
  }
}
