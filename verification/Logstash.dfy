/** The fake Logstash service: one background thread multiplexes any number of connections, cuts
    what each of them sends into frames and appends the decoded frames to one shared list. */
module Logstash {

  import opened Framing

  /** What `json.loads(chunk.decode(encoding))` does with a frame: a record, a JSON error (caught
      by the callback) or any other exception (which escapes to the background thread). */
  datatype Decoded<R> = Parsed(record: R) | NotJson | Undecodable

  /** What `sock.recv(1024)` does: yield bytes (none at end of stream) or raise. */
  datatype Recv = Data(bytes: Bytes) | Failed

  const RECV_SIZE := 1024

  // -------------------------------------------------------------------------------------------
  // One read on one connection
  // -------------------------------------------------------------------------------------------

  /** The records of the longest prefix of `frames` that decodes throughout. */
  function GoodRecords<R>(decode: Bytes -> Decoded<R>, frames: seq<Bytes>): (r: seq<R>)
    ensures |r| <= |frames|
    ensures forall i :: 0 <= i < |r| ==> decode(frames[i]) == Parsed(r[i])
    ensures |r| < |frames| ==> !decode(frames[|r|]).Parsed?
  {
    if frames == [] then []
    else match decode(frames[0])
      case Parsed(record) => [record] + GoodRecords(decode, frames[1..])
      case _ => []
  }

  /** The effect of a read: whether the socket stays registered, its partial chunks if so, and
      the records appended. */
  datatype Fed<R> = Fed(open: bool, partial: seq<Bytes>, appended: seq<R>)

  /** The frames a read completes, given the partial chunks before it. */
  function Completed(partial: seq<Bytes>, chunks: seq<Bytes>): seq<Bytes>
    requires |chunks| > 1
  {
    [Concat(partial + [chunks[0]])] + chunks[1..|chunks| - 1]
  }

  function Feed<R>(d: Bytes, decode: Bytes -> Decoded<R>, partial: seq<Bytes>, r: Recv): Fed<R> {
    if r.Failed? || r.bytes == [] || d == [] then Fed(false, partial, [])
    else
      var chunks := Split(r.bytes, d);
      if |chunks| == 1 then Fed(true, partial + chunks, [])
      else
        var frames := Completed(partial, chunks);
        var good := GoodRecords(decode, frames);
        Fed(|good| == |frames|, [chunks[|chunks| - 1]], good)
  }

  // -------------------------------------------------------------------------------------------
  // A connection on its own
  // -------------------------------------------------------------------------------------------

  datatype Conn<R> = Conn(open: bool, partial: seq<Bytes>, records: seq<R>)

  /** A connection after the given reads, in order; a closed one is read no more. */
  function Solo<R>(d: Bytes, decode: Bytes -> Decoded<R>, recvs: seq<Recv>): Conn<R> {
    if recvs == [] then Conn(true, [], [])
    else
      var c := Solo(d, decode, recvs[..|recvs| - 1]);
      if !c.open then c
      else
        var fed := Feed(d, decode, c.partial, recvs[|recvs| - 1]);
        Conn(fed.open, fed.partial, c.records + fed.appended)
  }

  predicate Ends(r: Recv) { r.Failed? || r.bytes == [] }

  predicate Ended(recvs: seq<Recv>) {
    recvs != [] && (Ended(recvs[..|recvs| - 1]) || Ends(recvs[|recvs| - 1]))
  }

  /** The bytes received before the stream ended. */
  function Received(recvs: seq<Recv>): Bytes {
    if recvs == [] then []
    else if Ended(recvs) then Received(recvs[..|recvs| - 1])
    else Received(recvs[..|recvs| - 1]) + recvs[|recvs| - 1].bytes
  }

  /** The delimiter-terminated frames of a byte stream, and what follows the last delimiter. */
  function Frames(s: Bytes, d: Bytes): seq<Bytes> requires d != [] {
    var chunks := Split(s, d);
    chunks[..|chunks| - 1]
  }

  function Tail(s: Bytes, d: Bytes): Bytes requires d != [] {
    var chunks := Split(s, d);
    chunks[|chunks| - 1]
  }

  lemma GlueEnds(x: seq<Bytes>, y: seq<Bytes>)
    requires x != [] && |y| > 1
    ensures var g, joint := Glue(x, y), x[|x| - 1] + y[0];
            && g[|g| - 1] == y[|y| - 1]
            && g[..|g| - 1] == x[..|x| - 1] + ([joint] + y[1..|y| - 1])
  {
  }

  lemma GlueOne(x: seq<Bytes>, m: Bytes)
    requires x != []
    ensures Glue(x, [m]) == x[..|x| - 1] + [x[|x| - 1] + m]
  {
  }

  /** What a read without a delimiter adds to a stream. */
  lemma TailExtends(s: Bytes, more: Bytes, d: Bytes)
    requires d != [] && !Straddles(s, more, d) && |Split(more, d)| == 1
    ensures Frames(s + more, d) == Frames(s, d) && Tail(s + more, d) == Tail(s, d) + more
    ensures Split(more, d) == [more]
  {
    SplitConcat(s, more, d);
    SplitSound(more, d);
    var x, y := Split(s, d), Split(more, d);
    assert y == [more];
    GlueOne(x, more);
  }

  /** What a read with a delimiter adds to a stream. */
  lemma FramesExtend(s: Bytes, more: Bytes, d: Bytes)
    requires d != [] && !Straddles(s, more, d) && |Split(more, d)| > 1
    ensures var chunks := Split(more, d);
            && Frames(s + more, d) == Frames(s, d) + ([Tail(s, d) + chunks[0]] + chunks[1..|chunks| - 1])
            && Tail(s + more, d) == chunks[|chunks| - 1]
  {
    SplitConcat(s, more, d);
    GlueEnds(Split(s, d), Split(more, d));
  }

  lemma GoodRecordsUnique<R>(decode: Bytes -> Decoded<R>, frames: seq<Bytes>, r: seq<R>)
    requires |r| <= |frames|
    requires forall i :: 0 <= i < |r| ==> decode(frames[i]) == Parsed(r[i])
    requires |r| < |frames| ==> !decode(frames[|r|]).Parsed?
    ensures r == GoodRecords(decode, frames)
  {
    var g := GoodRecords(decode, frames);
    assert |r| == |g|;
    forall i | 0 <= i < |r| ensures r[i] == g[i] { assert decode(frames[i]) == Parsed(g[i]); }
  }

  lemma GoodRecordsAppend<R>(decode: Bytes -> Decoded<R>, a: seq<Bytes>, b: seq<Bytes>)
    ensures var g := GoodRecords(decode, a);
            GoodRecords(decode, a + b) == if |g| == |a| then g + GoodRecords(decode, b) else g
  {
    var g, h := GoodRecords(decode, a), GoodRecords(decode, b);
    var r := if |g| == |a| then g + h else g;
    forall i | 0 <= i < |r| ensures decode((a + b)[i]) == Parsed(r[i]) {
      if i >= |a| { assert r[i] == h[i - |a|] && (a + b)[i] == b[i - |a|]; }
    }
    GoodRecordsUnique(decode, a + b, r);
  }

  lemma ReceivedSnoc(recvs: seq<Recv>, r: Recv)
    ensures Ended(recvs + [r]) == (Ended(recvs) || Ends(r))
    ensures Received(recvs + [r]) == if Ended(recvs) || Ends(r) then Received(recvs) else Received(recvs) + r.bytes
  {
    var all := recvs + [r];
    assert all[..|all| - 1] == recvs;
  }

  /** A connection has decoded the stream `s`. */
  ghost predicate HasDecoded<R>(d: Bytes, decode: Bytes -> Decoded<R>, c: Conn<R>, s: Bytes, ended: bool)
    requires d != []
  {
    var frames := Frames(s, d);
    var good := GoodRecords(decode, frames);
    && c.records == good
    && c.open == (!ended && |good| == |frames|)
    && (c.open ==> Concat(c.partial) == Tail(s, d))
  }

  lemma DecodeTail<R>(d: Bytes, decode: Bytes -> Decoded<R>, c: Conn<R>, s: Bytes, more: Bytes)
    requires d != [] && !Straddles(s, more, d) && |Split(more, d)| == 1 && HasDecoded(d, decode, c, s, false)
    ensures HasDecoded(d, decode, Conn(c.open, c.partial + [more], c.records), s + more, false)
  {
    TailExtends(s, more, d);
    ConcatSnoc(c.partial, more);
  }

  lemma DecodeFrames<R>(d: Bytes, decode: Bytes -> Decoded<R>, c: Conn<R>, s: Bytes, more: Bytes)
    requires d != [] && !Straddles(s, more, d) && more != [] && |Split(more, d)| > 1
    requires HasDecoded(d, decode, c, s, false) && c.open
    ensures var fed := Feed(d, decode, c.partial, Data(more));
            HasDecoded(d, decode, Conn(fed.open, fed.partial, c.records + fed.appended), s + more, false)
  {
    var chunks := Split(more, d);
    FramesExtend(s, more, d);
    ConcatSnoc(c.partial, chunks[0]);
    ConcatOne(chunks[|chunks| - 1]);
    GoodRecordsAppend(decode, Frames(s, d), Completed(c.partial, chunks));
  }

  /** Frames after a bad one change nothing. */
  lemma DecodeClosed<R>(d: Bytes, decode: Bytes -> Decoded<R>, c: Conn<R>, s: Bytes, more: Bytes)
    requires d != [] && !Straddles(s, more, d) && HasDecoded(d, decode, c, s, false) && !c.open
    ensures HasDecoded(d, decode, c, s + more, false)
  {
    var chunks := Split(more, d);
    if |chunks| == 1 {
      TailExtends(s, more, d);
    } else {
      FramesExtend(s, more, d);
      GoodRecordsAppend(decode, Frames(s, d), [Tail(s, d) + chunks[0]] + chunks[1..|chunks| - 1]);
    }
  }

  /** No delimiter in the bytes received is cut by the end of a read. */
  ghost predicate Uncut(d: Bytes, recvs: seq<Recv>) {
    recvs == []
    || (var init := recvs[..|recvs| - 1];
        && Uncut(d, init)
        && (Ended(recvs) || !Straddles(Received(init), recvs[|recvs| - 1].bytes, d)))
  }

  lemma {:induction false} OneByteUncutReads(d: Bytes, recvs: seq<Recv>)
    requires |d| == 1
    ensures Uncut(d, recvs)
    decreases |recvs|
  {
    if recvs != [] {
      OneByteUncutReads(d, recvs[..|recvs| - 1]);
      if !Ended(recvs) { OneByteUncut(Received(recvs[..|recvs| - 1]), recvs[|recvs| - 1].bytes, d); }
    }
  }

  /** The decoder of a connection. If no delimiter is cut by the end of a read, and with a one-byte
      delimiter however the bytes are cut into reads, the records are the decodings of the longest
      valid prefix of the frames of the bytes received; the connection is open exactly while neither a
      bad frame nor the end of the stream has been seen; and while it is open the partial chunks hold
      the unterminated tail. */
  lemma {:induction false} StreamDecoding<R>(d: Bytes, decode: Bytes -> Decoded<R>, recvs: seq<Recv>)
    requires |d| == 1 || (d != [] && Uncut(d, recvs))
    ensures HasDecoded(d, decode, Solo(d, decode, recvs), Received(recvs), Ended(recvs))
    ensures Free(Tail(Received(recvs), d), d)
    decreases |recvs|
  {
    SplitSound(Received(recvs), d);
    if |d| == 1 { OneByteUncutReads(d, recvs); }
    if recvs == [] {
      SplitShort([], d);
    } else {
      var init, r := recvs[..|recvs| - 1], recvs[|recvs| - 1];
      StreamDecoding(d, decode, init);
      var c, s := Solo(d, decode, init), Received(init);
      if !Ended(init) && !Ends(r) {
        if !c.open { DecodeClosed(d, decode, c, s, r.bytes); }
        else if |Split(r.bytes, d)| == 1 { DecodeTail(d, decode, c, s, r.bytes); TailExtends(s, r.bytes, d); }
        else { DecodeFrames(d, decode, c, s, r.bytes); }
      }
    }
  }

  lemma ConcatSnoc(parts: seq<Bytes>, p: Bytes)
    ensures Concat(parts + [p]) == Concat(parts) + p
  {
    assert (parts + [p])[..|parts|] == parts;
  }

  lemma ConcatOne(p: Bytes)
    ensures Concat([p]) == p
  {
    assert [p] == [] + [p];
    ConcatSnoc([], p);
  }

  // -------------------------------------------------------------------------------------------
  // When the cutting into reads cannot be observed
  // -------------------------------------------------------------------------------------------

  /** Reads that TCP may deliver on an open stream: not empty, and no longer than the receive
      buffer. */
  predicate Legal(recvs: seq<Recv>) {
    forall r :: r in recvs ==> r.Data? && 1 <= |r.bytes| <= RECV_SIZE
  }

  /** All that a client of the service can see of a connection, now or later. */
  function Observed<R>(c: Conn<R>): (seq<R>, bool, Bytes) {
    (c.records, c.open, if c.open then Concat(c.partial) else [])
  }

  ghost predicate ChunkIndependent<R>(d: Bytes, decode: Bytes -> Decoded<R>) {
    forall a: seq<Recv>, b: seq<Recv> | Legal(a) && Legal(b) && Received(a) == Received(b) ::
      Observed(Solo(d, decode, a)) == Observed(Solo(d, decode, b))
  }

  /** The decoder does not depend on how the bytes are cut exactly when the delimiter has one byte,
      or is degenerate: empty (every connection is dropped at its first byte) or longer than the
      receive buffer (it is never found). For every other delimiter some cut loses a frame. */
  lemma ChunkIndependence<R>(d: Bytes, decode: Bytes -> Decoded<R>)
    ensures ChunkIndependent(d, decode) <==> |d| <= 1 || |d| > RECV_SIZE
  {
    if 1 < |d| <= RECV_SIZE {
      CutDelimiterIsMissed(d, decode);
    } else {
      forall a: seq<Recv>, b: seq<Recv> | Legal(a) && Legal(b) && Received(a) == Received(b)
        ensures Observed(Solo(d, decode, a)) == Observed(Solo(d, decode, b))
      {
        ObservedIs(d, decode, a);
        ObservedIs(d, decode, b);
      }
    }
  }

  /** What is observed of legal reads, in terms of the bytes received alone. */
  function Seen<R>(d: Bytes, decode: Bytes -> Decoded<R>, s: Bytes): (seq<R>, bool, Bytes) {
    if d == [] then ([], s == [], [])
    else if |d| > RECV_SIZE then ([], true, s)
    else
      var good := GoodRecords(decode, Frames(s, d));
      var open := |good| == |Frames(s, d)|;
      (good, open, if open then Tail(s, d) else [])
  }

  lemma ObservedIs<R>(d: Bytes, decode: Bytes -> Decoded<R>, recvs: seq<Recv>)
    requires Legal(recvs) && (|d| <= 1 || |d| > RECV_SIZE)
    ensures Observed(Solo(d, decode, recvs)) == Seen(d, decode, Received(recvs))
  {
    NeverEnds(recvs);
    if |d| == 1 { StreamDecoding(d, decode, recvs); }
    else if d == [] { EmptyDelimiter(d, decode, recvs); }
    else { HugeDelimiter(d, decode, recvs); }
  }

  lemma LegalSnoc(recvs: seq<Recv>)
    requires Legal(recvs) && recvs != []
    ensures var init, r := recvs[..|recvs| - 1], recvs[|recvs| - 1];
            Legal(init) && r.Data? && 1 <= |r.bytes| <= RECV_SIZE && recvs == init + [r]
  {
    assert recvs[|recvs| - 1] in recvs;
  }

  lemma {:induction false} NeverEnds(recvs: seq<Recv>)
    requires Legal(recvs)
    ensures !Ended(recvs)
    decreases |recvs|
  {
    if recvs != [] {
      LegalSnoc(recvs);
      NeverEnds(recvs[..|recvs| - 1]);
    }
  }

  lemma {:induction false} EmptyDelimiter<R>(d: Bytes, decode: Bytes -> Decoded<R>, recvs: seq<Recv>)
    requires d == [] && Legal(recvs)
    ensures Observed(Solo(d, decode, recvs)) == ([], Received(recvs) == [], [])
    decreases |recvs|
  {
    if recvs != [] {
      var init, r := recvs[..|recvs| - 1], recvs[|recvs| - 1];
      LegalSnoc(recvs);
      NeverEnds(init);
      EmptyDelimiter(d, decode, init);
      SoloSnoc(d, decode, init, r);
      ReceivedSnoc(init, r);
      assert |Received(recvs)| > |Received(init)|;
      assert !Solo(d, decode, recvs).open && Solo(d, decode, recvs).records == [];
    } else {
      assert Solo(d, decode, recvs) == Conn(true, [], []);
    }
  }

  /** A read in which the delimiter is not found is kept as a partial chunk. */
  lemma FeedShort<R>(d: Bytes, decode: Bytes -> Decoded<R>, partial: seq<Bytes>, bytes: Bytes)
    requires 0 < |bytes| < |d|
    ensures Feed(d, decode, partial, Data(bytes)) == Fed(true, partial + [bytes], [])
  {
    SplitShort(bytes, d);
  }

  /** One more read in which the delimiter is not found. */
  lemma ReadShort<R>(d: Bytes, decode: Bytes -> Decoded<R>, recvs: seq<Recv>, bytes: Bytes)
    requires 0 < |bytes| < |d| && !Ended(recvs)
    ensures var c, c' := Solo(d, decode, recvs), Solo(d, decode, recvs + [Data(bytes)]);
            c.open ==> c' == Conn(true, c.partial + [bytes], c.records)
    ensures !Ended(recvs + [Data(bytes)]) && Received(recvs + [Data(bytes)]) == Received(recvs) + bytes
  {
    SoloSnoc(d, decode, recvs, Data(bytes));
    ReceivedSnoc(recvs, Data(bytes));
    FeedShort(d, decode, Solo(d, decode, recvs).partial, bytes);
  }

  lemma {:induction false} HugeDelimiter<R>(d: Bytes, decode: Bytes -> Decoded<R>, recvs: seq<Recv>)
    requires |d| > RECV_SIZE && Legal(recvs)
    ensures Observed(Solo(d, decode, recvs)) == ([], true, Received(recvs))
    decreases |recvs|
  {
    if recvs != [] {
      var init, r := recvs[..|recvs| - 1], recvs[|recvs| - 1];
      LegalSnoc(recvs);
      NeverEnds(init);
      HugeDelimiter(d, decode, init);
      ReadShort(d, decode, init, r.bytes);
      ConcatSnoc(Solo(d, decode, init).partial, r.bytes);
    } else {
      assert Solo(d, decode, recvs) == Conn(true, [], []);
    }
  }

  lemma DelimiterAlone(d: Bytes)
    requires d != []
    ensures Split(d, d) == [[], []]
  {
    assert OccursAt(d, d, 0);
    SplitShort([], d);
    assert d[|d|..] == [];
  }

  lemma ReadWhole<R>(d: Bytes, decode: Bytes -> Decoded<R>)
    requires d != []
    ensures var c := Solo(d, decode, [Data(d)]); c.open ==> |c.records| == 1
    ensures Received([Data(d)]) == d
  {
    assert [] + [Data(d)] == [Data(d)];
    SoloSnoc(d, decode, [], Data(d));
    ReceivedSnoc([], Data(d));
    DelimiterAlone(d);
  }

  lemma ReadInTwo<R>(d: Bytes, decode: Bytes -> Decoded<R>, a: Bytes, b: Bytes)
    requires 0 < |a| < |d| && 0 < |b| < |d|
    ensures Solo(d, decode, [Data(a), Data(b)]) == Conn(true, [a, b], [])
    ensures Received([Data(a), Data(b)]) == a + b
  {
    ReadShort(d, decode, [], a);
    assert [] + [Data(a)] == [Data(a)];
    assert Solo(d, decode, [Data(a)]) == Conn(true, [a], []);
    ReadShort(d, decode, [Data(a)], b);
    assert [Data(a)] + [Data(b)] == [Data(a), Data(b)];
  }

  /** A delimiter cut across two reads is missed: read whole it completes a frame (and a record is
      appended or the connection closed), read in two parts it only adds to the partial chunks. */
  lemma CutDelimiterIsMissed<R>(d: Bytes, decode: Bytes -> Decoded<R>)
    requires 1 < |d| <= RECV_SIZE
    ensures var whole, parts := [Data(d)], [Data(d[..1]), Data(d[1..])];
            && Legal(whole) && Legal(parts) && Received(whole) == Received(parts)
            && Observed(Solo(d, decode, whole)) != Observed(Solo(d, decode, parts))
  {
    ReadWhole(d, decode);
    ReadInTwo(d, decode, d[..1], d[1..]);
    assert d[..1] + d[1..] == d;
  }

  // -------------------------------------------------------------------------------------------
  // The event loop
  // -------------------------------------------------------------------------------------------

  type Sock = nat

  /** What the selector reports: a connection to accept, or a connected socket to read. */
  datatype Event = Accept(sock: Sock) | Readable(sock: Sock, recv: Recv) | Shutdown

  datatype Service<R> = Service(records: seq<R>, selector: map<Sock, seq<Bytes>>)

  function Handle<R>(d: Bytes, decode: Bytes -> Decoded<R>, st: Service<R>, e: Event): Service<R> {
    match e
    case Accept(s) => st.(selector := st.selector[s := []])
    case Readable(s, recv) =>
      if s !in st.selector then st  // the selector only reports registered sockets
      else
        var fed := Feed(d, decode, st.selector[s], recv);
        Service(st.records + fed.appended,
                if fed.open then st.selector[s := fed.partial] else st.selector - {s})
    case Shutdown => st
  }

  function RunFrom<R>(d: Bytes, decode: Bytes -> Decoded<R>, st: Service<R>, events: seq<Event>): Service<R> {
    if events == [] then st
    else Handle(d, decode, RunFrom(d, decode, st, events[..|events| - 1]), events[|events| - 1])
  }

  /** The events handled before the closing request. */
  function UntilShutdown(events: seq<Event>): (r: seq<Event>)
    ensures r <= events && Shutdown !in r
    ensures r != events ==> events[|r|] == Shutdown
  {
    if events == [] || events[0] == Shutdown then [] else [events[0]] + UntilShutdown(events[1..])
  }

  class FakeLogstashService<R> {
    const delimiter: Bytes
    const decode: Bytes -> Decoded<R>
    var records: seq<R>
    /** The registered connections, each with the `partial_chunks` its callback holds. */
    var selector: map<Sock, seq<Bytes>>

    function State(): Service<R>
      reads this
    {
      Service(records, selector)
    }

    constructor (delimiter: Bytes, decode: Bytes -> Decoded<R>)
      ensures this.delimiter == delimiter && this.decode == decode
      ensures State() == Service([], map[])
    {
      this.delimiter, this.decode := delimiter, decode;
      records, selector := [], map[];
    }

    /** The callback of a connection. A frame that is not JSON is handled here; any other failure is
        raised with the socket still registered. */
    method ProcessSocketData(sock: Sock, recv: Recv) returns (raised: bool)
      requires sock in selector
      modifies this
      ensures sock in old(selector)
      ensures var fed := Feed(delimiter, decode, old(selector)[sock], recv);
              && records == old(records) + fed.appended
              && (raised ==> !fed.open && sock in selector && selector - {sock} == old(selector) - {sock})
              && (!raised ==> selector == if fed.open then old(selector)[sock := fed.partial]
                                          else old(selector) - {sock})
    {
      if recv.Failed? { return true; }
      var data := recv.bytes;
      if data == [] {
        selector := selector - {sock};
        return false;
      }
      if delimiter == [] { return true; }
      var chunks := Split(data, delimiter);
      if |chunks| == 1 {
        selector := selector[sock := selector[sock] + [chunks[0]]];
        return false;
      }
      ghost var frames := Completed(selector[sock], chunks);
      chunks := chunks[0 := Concat(selector[sock] + [chunks[0]])];
      selector := selector[sock := [chunks[|chunks| - 1]]];
      chunks := chunks[..|chunks| - 1];
      assert chunks == frames;
      ghost var added: seq<R> := [];
      for i := 0 to |chunks|
        invariant |added| == i && records == old(records) + added
        invariant forall k :: 0 <= k < i ==> decode(frames[k]) == Parsed(added[k])
        invariant selector == old(selector)[sock := [Split(data, delimiter)[|chunks|]]]
      {
        match decode(chunks[i])
        case Parsed(record) =>
          records := records + [record];
          added := added + [record];
        case NotJson =>
          GoodRecordsUnique(decode, frames, added);
          selector := selector - {sock};
          return false;
        case Undecodable =>
          GoodRecordsUnique(decode, frames, added);
          return true;
      }
      GoodRecordsUnique(decode, frames, added);
      return false;
    }

    /** The background thread, over everything the selector reports to it. */
    method BackgroundThread(events: seq<Event>)
      modifies this
      ensures State() == RunFrom(delimiter, decode, old(State()), UntilShutdown(events))
    {
      ghost var todo := UntilShutdown(events);
      for i := 0 to |events|
        invariant i <= |todo|
        invariant State() == RunFrom(delimiter, decode, old(State()), todo[..i])
      {
        assert i < |todo| ==> todo[..i + 1][..i] == todo[..i];
        match events[i]
        case Shutdown =>
          assert todo[..i] == todo;
          return;
        case Accept(s) =>
          selector := selector[s := []];
        case Readable(s, recv) =>
          if s in selector {
            var raised := ProcessSocketData(s, recv);
            if raised { selector := selector - {s}; }
          }
      }
      assert todo[..|events|] == todo;
    }
  }

  // -------------------------------------------------------------------------------------------
  // Every run is an interleaving of its connections
  // -------------------------------------------------------------------------------------------

  /** Each accepted connection is a new socket. */
  ghost predicate FreshAccepts(events: seq<Event>) {
    forall i, j :: 0 <= i < j < |events| && events[i].Accept? ==> events[i] != events[j]
  }

  /** What is read on a socket once it is accepted. */
  function ReadsOf(events: seq<Event>, s: Sock): seq<Recv> {
    if events == [] then []
    else
      var init, e := events[..|events| - 1], events[|events| - 1];
      ReadsOf(init, s) + if e.Readable? && e.sock == s && Accept(s) in init then [e.recv] else []
  }

  /** The elements of `xs` that belong to `s`, in order. */
  function Select<R>(xs: seq<R>, owners: seq<Sock>, s: Sock): seq<R>
    requires |xs| == |owners|
  {
    if xs == [] then []
    else Select(xs[..|xs| - 1], owners[..|xs| - 1], s) + if owners[|xs| - 1] == s then [xs[|xs| - 1]] else []
  }

  lemma {:induction false} SelectAppend<R>(xs: seq<R>, owners: seq<Sock>, more: seq<R>, who: Sock, s: Sock)
    requires |xs| == |owners|
    ensures Select(xs + more, owners + seq(|more|, _ => who), s)
            == Select(xs, owners, s) + if who == s then more else []
    decreases |more|
  {
    if more == [] {
      assert xs + more == xs && owners + seq(0, _ => who) == owners;
    } else {
      var n := |more| - 1;
      SelectAppend(xs, owners, more[..n], who, s);
      var all, own := xs + more, owners + seq(|more|, _ => who);
      assert all[..|all| - 1] == xs + more[..n];
      assert own[..|all| - 1] == owners + seq(n, _ => who);
      assert more == more[..n] + [more[n]];
    }
  }

  lemma SoloSnoc<R>(d: Bytes, decode: Bytes -> Decoded<R>, recvs: seq<Recv>, r: Recv)
    ensures var c := Solo(d, decode, recvs);
            var fed := Feed(d, decode, c.partial, r);
            Solo(d, decode, recvs + [r])
            == if c.open then Conn(fed.open, fed.partial, c.records + fed.appended) else c
  {
    assert (recvs + [r])[..|recvs|] == recvs;
  }

  lemma ReadsOfSnoc(events: seq<Event>, e: Event, s: Sock)
    ensures var read := e.Readable? && e.sock == s && Accept(s) in events;
            ReadsOf(events + [e], s) == if read then ReadsOf(events, s) + [e.recv] else ReadsOf(events, s)
  {
    assert (events + [e])[..|events|] == events;
  }

  /** A socket's entry in the selector is that of its connection alone. */
  ghost predicate Tracks<R>(d: Bytes, decode: Bytes -> Decoded<R>, st: Service<R>, events: seq<Event>, s: Sock) {
    var c := Solo(d, decode, ReadsOf(events, s));
    && (s in st.selector <==> Accept(s) in events && c.open)
    && (s in st.selector ==> st.selector[s] == c.partial)
    && (Accept(s) !in events ==> ReadsOf(events, s) == [])
  }

  lemma TracksStep<R>(d: Bytes, decode: Bytes -> Decoded<R>, st: Service<R>, events: seq<Event>, e: Event, s: Sock)
    requires Tracks(d, decode, st, events, s) && e != Shutdown
    requires e.Accept? ==> e !in events
    ensures Tracks(d, decode, Handle(d, decode, st, e), events + [e], s)
  {
    ReadsOfSnoc(events, e, s);
    if e.Readable? { SoloSnoc(d, decode, ReadsOf(events, s), e.recv); }
  }

  /** The state of every connection in a run is the state it would reach alone. */
  lemma {:induction false} Separate<R>(d: Bytes, decode: Bytes -> Decoded<R>, events: seq<Event>, s: Sock)
    requires FreshAccepts(events) && Shutdown !in events
    ensures Tracks(d, decode, RunFrom(d, decode, Service([], map[]), events), events, s)
    decreases |events|
  {
    if events != [] {
      var n := |events| - 1;
      var init, e := events[..n], events[n];
      assert events == init + [e];
      Separate(d, decode, init, s);
      TracksStep(d, decode, RunFrom(d, decode, Service([], map[]), init), init, e, s);
    }
  }

  /** In every run of the event loop the shared list is an order-preserving interleaving of what
      the connections produce, each as if it were alone. */
  lemma {:induction false} Interleaving<R>(d: Bytes, decode: Bytes -> Decoded<R>, events: seq<Event>)
      returns (owners: seq<Sock>)
    requires FreshAccepts(events) && Shutdown !in events
    ensures var records := RunFrom(d, decode, Service([], map[]), events).records;
            && |owners| == |records|
            && forall s :: Select(records, owners, s) == Solo(d, decode, ReadsOf(events, s)).records
    decreases |events|
  {
    owners := [];
    if events != [] {
      var init, e := events[..|events| - 1], events[|events| - 1];
      assert events == init + [e];
      owners := Interleaving(d, decode, init);
      var st := RunFrom(d, decode, Service([], map[]), init);
      var before := owners;
      var more: seq<R> := [];
      if e.Readable? && e.sock in st.selector {
        more := Feed(d, decode, st.selector[e.sock], e.recv).appended;
        owners := owners + seq(|more|, _ => e.sock);
      }
      forall s ensures Select(st.records + more, owners, s) == Solo(d, decode, ReadsOf(events, s)).records {
        Separate(d, decode, init, s);
        ReadsOfSnoc(init, e, s);
        if e.Readable? {
          SoloSnoc(d, decode, ReadsOf(init, s), e.recv);
          if e.sock in st.selector { SelectAppend(st.records, before, more, e.sock, s); }
        }
        if more == [] { assert st.records + more == st.records; }
      }
      assert RunFrom(d, decode, Service([], map[]), events).records == st.records + more;
    }
  }

  /** The service as a whole, with a one-byte delimiter or one that no read cuts: whatever the number of
      connections, the cutting of their bytes and the order of the events up to the closing request, the
      records of each connection appear exactly once and in order, and are those of the longest valid
      prefix of the frames it sent. */
  lemma ServiceDecodesEveryStream<R>(d: Bytes, decode: Bytes -> Decoded<R>, events: seq<Event>)
      returns (owners: seq<Sock>)
    requires FreshAccepts(events)
    requires |d| == 1 || (d != [] && forall s :: Uncut(d, ReadsOf(UntilShutdown(events), s)))
    ensures var handled := UntilShutdown(events);
            var records := RunFrom(d, decode, Service([], map[]), handled).records;
            && |owners| == |records|
            && forall s :: Select(records, owners, s)
                           == GoodRecords(decode, Frames(Received(ReadsOf(handled, s)), d))
  {
    var handled := UntilShutdown(events);
    owners := Interleaving(d, decode, handled);
    forall s ensures Solo(d, decode, ReadsOf(handled, s)).records
                     == GoodRecords(decode, Frames(Received(ReadsOf(handled, s)), d)) {
      assert |d| == 1 || Uncut(d, ReadsOf(UntilShutdown(events), s));
      StreamDecoding(d, decode, ReadsOf(handled, s));
    }
  }
}
