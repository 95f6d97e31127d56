/**
 * The backend's incremental decoder of the TCP byte stream
 * (`StreamDecoder`, backend/app/protocol.py:457-489) and exactly when its answers do not
 * depend on how the stream was cut into chunks.
 */
module StreamDecoding {
  import opened Common
  import opened Crc
  import opened Wire
  import opened Frames

  /** What the decoder holds and has produced so far. */
  datatype State = State(buf: seq<byte>, frames: seq<PyFrame>, bad: nat)

  const INIT := State([], [], 0)

  // ------------------------------------------------------------ searching for the magic

  predicate MagicAt(b: seq<byte>, i: nat) {
    i + 1 < |b| && b[i] == 0x54 && b[i + 1] == 0x45
  }

  /** `bytes.find(b"TE")` */
  function Find(b: seq<byte>): (r: int)
    ensures r == -1 || 0 <= r < |b| - 1
    ensures r == -1 <==> forall i: nat :: !MagicAt(b, i)
    ensures r >= 0 ==> MagicAt(b, r) && forall i: nat :: i < r ==> !MagicAt(b, i)
  {
    if |b| < 2 then -1
    else if MagicAt(b, 0) then 0
    else
      var r := Find(b[1..]);
      MagicShift(b);
      if r == -1 then -1 else assert MagicAt(b, r + 1); r + 1
  }

  lemma MagicShift(b: seq<byte>)
    requires |b| >= 1
    ensures forall i: nat {:trigger MagicAt(b, i)} :: i >= 1 ==> (MagicAt(b, i) <==> MagicAt(b[1..], i - 1))
  {}

  // ------------------------------------------------------------ one iteration of the loop

  predicate BadHeader(b: seq<byte>)
    requires |b| >= HEADER_LEN
  {
    PyUnpackHeader(b[..HEADER_LEN]).Err?
  }

  function Total(b: seq<byte>): (n: nat)
    requires |b| >= HEADER_LEN && !BadHeader(b)
    ensures HEADER_LEN + CRC_LEN <= n <= HEADER_LEN + MAX_PAYLOAD + CRC_LEN
  {
    HEADER_LEN + PyUnpackHeader(b[..HEADER_LEN]).value.payloadLen + CRC_LEN
  }

  predicate CanStep(b: seq<byte>) {
    |b| >= HEADER_LEN && (BadHeader(b) || |b| >= Total(b))
  }

  /** Drops one byte and everything up to the next "TE", or the whole buffer. */
  function Resync(b: seq<byte>): (r: seq<byte>)
    requires |b| >= 1
    ensures |r| < |b|
  {
    var i := Find(b[1..]);
    if i < 0 then [] else b[1..][i..]
  }

  function Emit(s: State, block: seq<byte>, rest: seq<byte>): State {
    var r := PyDecode(block);
    if r.Ok? then State(rest, s.frames + [r.value], s.bad) else State(rest, s.frames, s.bad + 1)
  }

  function Step(s: State): (t: State)
    requires CanStep(s.buf)
    ensures |t.buf| < |s.buf|
  {
    if BadHeader(s.buf) then State(Resync(s.buf), s.frames, s.bad + 1)
    else Emit(s, s.buf[..Total(s.buf)], s.buf[Total(s.buf)..])
  }

  function Run(s: State): (t: State)
    ensures !CanStep(t.buf)
    decreases |s.buf|
  {
    if CanStep(s.buf) then Run(Step(s)) else s
  }

  lemma RunBad(s: State)
    requires |s.buf| >= HEADER_LEN && BadHeader(s.buf)
    ensures Run(s) == Run(State(Resync(s.buf), s.frames, s.bad + 1))
  {
    hide PyUnpackHeader, PyDecode, Resync, BadHeader;
  }

  lemma RunBlock(s: State)
    requires |s.buf| >= HEADER_LEN && !BadHeader(s.buf) && |s.buf| >= Total(s.buf)
    ensures Run(s) == Run(Emit(s, s.buf[..Total(s.buf)], s.buf[Total(s.buf)..]))
  {
    hide PyUnpackHeader, PyDecode, Emit, BadHeader;
  }

  lemma RunStops(s: State)
    requires !CanStep(s.buf)
    ensures Run(s) == s
  {}

  function Extend(s: State, d: seq<byte>): State { s.(buf := s.buf + d) }

  function Feed(s: State, d: seq<byte>): State { Run(Extend(s, d)) }

  /** The decoder object: `feed` appends, then loops in place over its buffer. */
  class StreamDecoder {
    var buf: seq<byte>
    var bad: nat

    constructor ()
      ensures buf == [] && bad == 0
    {
      buf, bad := [], 0;
    }

    /** Refines `Feed`, and after every call fewer than 1064 bytes stay buffered. */
    method FeedChunk(data: seq<byte>) returns (frames: seq<PyFrame>)
      modifies this
      ensures State(buf, frames, bad) == Feed(State(old(buf), [], old(bad)), data)
      ensures |buf| < HEADER_LEN + MAX_PAYLOAD + CRC_LEN
    {
      hide PyUnpackHeader, PyDecode, Run, BadHeader, Total;
      frames := [];
      buf := buf + data;
      while |buf| >= HEADER_LEN
        invariant Run(State(buf, frames, bad)) == Feed(State(old(buf), [], old(bad)), data)
        decreases |buf|
      {
        if BadHeader(buf) {
          RunBad(State(buf, frames, bad));
          bad := bad + 1;
          buf := buf[1..];
          var idx := Find(buf);
          if idx < 0 {
            buf := [];
            break;
          }
          buf := buf[idx..];
        } else {
          var total := Total(buf);
          if |buf| < total {
            break;
          }
          RunBlock(State(buf, frames, bad));
          var chunk := buf[..total];
          buf := buf[total..];
          var r := PyDecode(chunk);
          if r.Ok? {
            frames := frames + [r.value];
          } else {
            bad := bad + 1;
          }
        }
      }
      RunStops(State(buf, frames, bad));
    }
  }

  // ------------------------------------------------------------ independence from chunking

  function FeedAll(s: State, chunks: seq<seq<byte>>): State {
    if chunks == [] then s else Feed(FeedAll(s, chunks[..|chunks| - 1]), chunks[|chunks| - 1])
  }

  /** At every point of the stream, the decoder's state is a function of the bytes so far. */
  ghost predicate ChunkFree(s: seq<byte>) {
    forall chunks :: Concat(chunks) <= s ==> FeedAll(INIT, chunks) == Feed(INIT, Concat(chunks))
  }

  /** A "TE" starts and ends within the 35 bytes after the first. */
  predicate MagicNear(b: seq<byte>)
    requires |b| >= HEADER_LEN
  {
    Find(b[1..HEADER_LEN]) >= 0
  }

  /**
   * Read from its front, every bad header of the stream has the next "TE" inside its own
   * 36 bytes, or is the very last 36 bytes of the stream.
   */
  predicate Resyncable(b: seq<byte>)
    decreases |b|
  {
    if !CanStep(b) then true
    else if BadHeader(b) then (if MagicNear(b) then Resyncable(Resync(b)) else |b| == HEADER_LEN)
    else Resyncable(b[Total(b)..])
  }

  lemma FindLocal(b: seq<byte>, n: nat)
    requires n <= |b| && Find(b[..n]) >= 0
    ensures Find(b) == Find(b[..n])
  {
    var i := Find(b[..n]);
    assert MagicAt(b, i);
    assert forall j: nat :: j < i ==> (MagicAt(b, j) <==> MagicAt(b[..n], j));
  }

  /** A near magic makes the resynchronisation the same however many bytes follow. */
  lemma ResyncLocal(b: seq<byte>, e: seq<byte>)
    requires |b| >= HEADER_LEN && MagicNear(b)
    ensures Resync(b + e) == Resync(b) + e && MagicNear(b + e)
    ensures Resync(b) == b[1 + Find(b[1..HEADER_LEN])..]
  {
    hide Find, PyUnpackHeader, PyDecode;
    var w := b[1..HEADER_LEN];
    assert b[1..][..HEADER_LEN - 1] == w && (b + e)[1..][..HEADER_LEN - 1] == w;
    assert (b + e)[1..HEADER_LEN] == w;
    FindLocal(b[1..], HEADER_LEN - 1);
    FindLocal((b + e)[1..], HEADER_LEN - 1);
    var k := Find(w);
    assert b[1..][k..] == b[1 + k..] && (b + e)[1..][k..] == b[1 + k..] + e;
  }

  lemma HeaderLocal(b: seq<byte>, e: seq<byte>)
    requires |b| >= HEADER_LEN
    ensures BadHeader(b + e) == BadHeader(b)
    ensures !BadHeader(b) ==> Total(b + e) == Total(b)
  {
    assert (b + e)[..HEADER_LEN] == b[..HEADER_LEN];
  }

  /** A step that does not fall off the buffer commutes with appending more bytes. */
  lemma StepLocal(s: State, e: seq<byte>)
    requires CanStep(s.buf) && (BadHeader(s.buf) ==> MagicNear(s.buf))
    ensures CanStep(s.buf + e) && Step(Extend(s, e)) == Extend(Step(s), e)
  {
    hide PyUnpackHeader, PyDecode;
    HeaderLocal(s.buf, e);
    if BadHeader(s.buf) {
      ResyncLocal(s.buf, e);
    } else {
      var n := Total(s.buf);
      assert (s.buf + e)[..n] == s.buf[..n] && (s.buf + e)[n..] == s.buf[n..] + e;
    }
  }

  lemma {:induction false} Merge(s: State, e: seq<byte>)
    requires Resyncable(s.buf + e)
    ensures Feed(Run(s), e) == Run(Extend(s, e))
    decreases |s.buf|
  {
    hide PyUnpackHeader, PyDecode;
    if CanStep(s.buf) {
      HeaderLocal(s.buf, e);
      if BadHeader(s.buf) && !MagicNear(s.buf) {
        assert (s.buf + e)[1..HEADER_LEN] == s.buf[1..HEADER_LEN];
        assert e == [] && Extend(s, e) == s && Extend(Run(s), e) == Run(s);
      } else {
        StepLocal(s, e);
        Merge(Step(s), e);
      }
    }
  }

  lemma {:induction false} ResyncablePrefix(b: seq<byte>, n: nat)
    requires n <= |b| && Resyncable(b)
    ensures Resyncable(b[..n])
    decreases |b|
  {
    hide PyUnpackHeader, PyDecode;
    var p, e := b[..n], b[n..];
    assert b == p + e;
    if CanStep(p) {
      HeaderLocal(p, e);
      assert b[1..HEADER_LEN] == p[1..HEADER_LEN];
      if !BadHeader(p) {
        var k := Total(p);
        assert b[k..][..n - k] == p[k..];
        ResyncablePrefix(b[k..], n - k);
      } else if MagicNear(p) {
        ResyncLocal(p, e);
        var k := |b| - |Resync(b)|;
        assert Resync(b)[..n - k] == Resync(p);
        ResyncablePrefix(Resync(b), n - k);
      }
    }
  }

  lemma {:induction false} ChunksMerge(chunks: seq<seq<byte>>)
    requires Resyncable(Concat(chunks))
    ensures FeedAll(INIT, chunks) == Feed(INIT, Concat(chunks))
    decreases |chunks|
  {
    if chunks == [] {
      assert INIT == Run(INIT);
    } else {
      var front, last := chunks[..|chunks| - 1], chunks[|chunks| - 1];
      var p := Concat(front);
      ConcatLast(chunks);
      assert Concat(chunks)[..|p|] == p;
      ResyncablePrefix(Concat(chunks), |p|);
      ChunksMerge(front);
      assert [] + p == p && [] + Concat(chunks) == Concat(chunks);
      Merge(State(p, [], 0), last);
    }
  }

  /** Where the buffer was thrown away, one more byte tells two chunkings apart. */
  lemma ClearedTooEarly(s: State, b: seq<byte>)
    requires |b| > HEADER_LEN && BadHeader(b) && !MagicNear(b)
    ensures var p := s.(buf := b[..HEADER_LEN]);
            Feed(Run(p), [b[HEADER_LEN]]) != Run(Extend(p, [b[HEADER_LEN]]))
  {
    hide PyUnpackHeader, PyDecode;
    var p := s.(buf := b[..HEADER_LEN]);
    var x := b[HEADER_LEN];
    var whole := p.buf + [x];
    HeaderLocal(p.buf, b[HEADER_LEN..]);
    assert b == p.buf + b[HEADER_LEN..];
    HeaderLocal(p.buf, [x]);
    assert p.buf[1..] == b[1..HEADER_LEN];
    assert Run(p) == State([], s.frames, s.bad + 1) by {
      assert Step(p) == State([], s.frames, s.bad + 1);
    }
    assert Feed(Run(p), [x]).buf == [x] by {
      assert [] + [x] == [x];
    }
    // with one byte more the search finds nothing, or a "TE" in the last two bytes
    var i := Find(whole[1..]);
    assert forall j: nat :: j < HEADER_LEN - 2 ==> (MagicAt(whole[1..], j) <==> MagicAt(b[1..HEADER_LEN], j));
    if i >= 0 {
      assert |Resync(whole)| == 2;
    }
    assert Run(Extend(p, [x])) == Step(Extend(p, [x]));
  }

  /** A stream that is not resyncable has a prefix on which two chunkings disagree. */
  lemma {:induction false} Witness(s: State) returns (n: nat)
    requires !Resyncable(s.buf)
    ensures HEADER_LEN <= n < |s.buf|
    ensures var p := s.(buf := s.buf[..n]); Feed(Run(p), [s.buf[n]]) != Run(Extend(p, [s.buf[n]]))
    decreases |s.buf|
  {
    hide PyUnpackHeader, PyDecode;
    var b := s.buf;
    if BadHeader(b) && !MagicNear(b) {
      n := HEADER_LEN;
      ClearedTooEarly(s, b);
    } else {
      var t := Step(s);
      var m := Witness(t);
      var k := |b| - |t.buf|;
      n := m + k;
      var p := s.(buf := b[..n]);
      assert b == p.buf + b[n..];
      PrefixSteps(s, n);
      assert t.buf[m] == b[n] by {
        StepDrops(s);
      }
      StepLocal(p, [b[n]]);
    }
  }

  lemma StepDrops(s: State)
    requires CanStep(s.buf)
    requires BadHeader(s.buf) ==> MagicNear(s.buf)
    ensures Step(s).buf == s.buf[|s.buf| - |Step(s).buf|..]
    ensures |s.buf| - |Step(s).buf| <= if BadHeader(s.buf) then HEADER_LEN else Total(s.buf)
  {
    hide PyUnpackHeader, PyDecode;
    if BadHeader(s.buf) {
      ResyncLocal(s.buf, []);
    }
  }

  /** A prefix that reaches past the step takes the same step. */
  lemma PrefixSteps(s: State, n: nat)
    requires CanStep(s.buf) && (BadHeader(s.buf) ==> MagicNear(s.buf))
    requires |s.buf| - |Step(s).buf| + HEADER_LEN <= n <= |s.buf|
    ensures var p := s.(buf := s.buf[..n]);
            var k := |s.buf| - |Step(s).buf|;
            CanStep(p.buf) && (BadHeader(p.buf) ==> MagicNear(p.buf)) && Step(p) == Step(s).(buf := Step(s).buf[..n - k])
  {
    hide PyUnpackHeader, PyDecode;
    var p := s.(buf := s.buf[..n]);
    var e := s.buf[n..];
    assert s.buf == p.buf + e;
    HeaderLocal(p.buf, e);
    StepDrops(s);
    assert p.buf[1..HEADER_LEN] == s.buf[1..HEADER_LEN];
    StepLocal(p, e);
    assert Extend(p, e) == s;
    assert Step(s).buf == Step(p).buf + e;
  }

  /** The decoder is independent of chunking on exactly the resyncable streams. */
  lemma ChunkFreeIff(s: seq<byte>)
    ensures ChunkFree(s) <==> Resyncable(s)
  {
    hide Run, Resyncable, FeedAll, CanStep;
    if Resyncable(s) {
      forall chunks | Concat(chunks) <= s ensures FeedAll(INIT, chunks) == Feed(INIT, Concat(chunks)) {
        assert s[..|Concat(chunks)|] == Concat(chunks);
        ResyncablePrefix(s, |Concat(chunks)|);
        ChunksMerge(chunks);
      }
    } else {
      var n := Witness(State(s, [], 0));
      TwoChunks(s[..n], [s[n]]);
      var chunks := [s[..n], [s[n]]];
      assert Concat(chunks) <= s;
    }
  }

  lemma TwoChunks(p: seq<byte>, q: seq<byte>)
    ensures Concat([p, q]) == p + q
    ensures FeedAll(INIT, [p, q]) == Feed(Run(State(p, [], 0)), q)
    ensures Feed(INIT, p + q) == Run(Extend(State(p, [], 0), q))
  {
    hide Run;
    ConcatLast([p, q]);
    ConcatLast([p]);
    assert [p, q][..1] == [p] && [p][..0] == [] && [] + p == p && [] + (p + q) == p + q;
    assert Concat([p]) == p;
    assert FeedAll(INIT, [p]) == Feed(INIT, p);
  }

  /**
   * A "T" at the end of garbage is lost when a chunk ends right after it and kept when the
   * "E" arrives with it: the resynchronisation clears the whole buffer.
   */
  lemma TrailingTLost(g: seq<byte>)
    requires |g| == HEADER_LEN && BadHeader(g) && Find(g[1..]) == -1 && g[35] == 0x54
    ensures Feed(Feed(INIT, g), [0x45]).buf == [0x45] && Feed(INIT, g + [0x45]).buf == [0x54, 0x45]
  {
    assert Resync(g) == [];
    hide PyUnpackHeader, Run, BadHeader, Total, Find, Resync;
    var w := g + [0x45];
    assert Extend(INIT, g) == State(g, [], 0) && Extend(INIT, w) == State(w, [], 0);
    HeaderLocal(g, [0x45]);
    RunBad(State(g, [], 0));
    RunStops(State([], [], 1));
    assert Extend(State([], [], 1), [0x45]) == State([0x45], [], 1);
    RunStops(State([0x45], [], 1));
    RunBad(State(w, [], 0));
    MagicLast(g);
    RunStops(State([0x54, 0x45], [], 1));
  }

  lemma MagicLast(g: seq<byte>)
    requires |g| == HEADER_LEN && Find(g[1..]) == -1 && g[35] == 0x54
    ensures Resync(g + [0x45]) == [0x54, 0x45]
  {
    var w := g + [0x45];
    assert MagicAt(w[1..], 34);
    assert forall i: nat :: i < 34 ==> (MagicAt(w[1..], i) <==> MagicAt(g[1..], i));
    assert Find(w[1..]) == 34;
    assert w[1..][34..] == [0x54, 0x45];
  }

  /** Such garbage exists: 35 zero bytes. */
  lemma ZerosThenT()
    ensures var g := Zeros(35) + [0x54]; BadHeader(g) && Find(g[1..]) == -1
  {
    var g := Zeros(35) + [0x54];
    ZeroHeader(g);
    assert forall i: nat :: !MagicAt(g[1..], i);
  }

  lemma ZeroHeader(g: seq<byte>)
    requires |g| == HEADER_LEN && g[0] == 0 && g[1] == 0
    ensures BadHeader(g)
  {
    assert g[..HEADER_LEN] == g;
    HeaderSize(BLANK);
    ReadAt(HeaderFields(BLANK), g, 0);
    assert g[0..2] == [0, 0] && g[0..2][1..] == [0] && [0][1..] == [];
    assert Value([0]) == 0;
  }

  // ------------------------------------------------------------ well-framed streams

  /** A complete block with a valid header; its CRC or its payload length may still be bad. */
  predicate Block(b: seq<byte>) {
    |b| >= HEADER_LEN && !BadHeader(b) && |b| == Total(b)
  }

  /** The beginning of a block. */
  predicate Partial(b: seq<byte>) {
    |b| < HEADER_LEN || (!BadHeader(b) && |b| < Total(b))
  }

  function Good(blocks: seq<seq<byte>>): seq<PyFrame> {
    if blocks == [] then []
    else (if PyDecode(blocks[0]).Ok? then [PyDecode(blocks[0]).value] else []) + Good(blocks[1..])
  }

  function Bad(blocks: seq<seq<byte>>): nat {
    if blocks == [] then 0 else (if PyDecode(blocks[0]).Ok? then 0 else 1) + Bad(blocks[1..])
  }

  lemma {:induction false} FramedRun(s: State, blocks: seq<seq<byte>>, t: seq<byte>)
    requires (forall i :: 0 <= i < |blocks| ==> Block(blocks[i])) && Partial(t)
    requires s.buf == Concat(blocks) + t
    ensures Run(s) == State(t, s.frames + Good(blocks), s.bad + Bad(blocks))
    decreases |blocks|
  {
    hide PyUnpackHeader, PyDecode, Run, BadHeader, Total;
    if blocks == [] {
      assert s.buf == t;
      RunStops(s);
    } else {
      var b, rest := blocks[0], Concat(blocks[1..]) + t;
      FirstBlock(s.buf, b, rest);
      RunBlock(s);
      var s' := Emit(s, b, rest);
      FramedRun(s', blocks[1..], t);
      hide Concat;
      var good := Good(blocks[1..]);
      if PyDecode(b).Ok? {
        assert s'.frames + good == s.frames + ([PyDecode(b).value] + good);
      } else {
        assert [] + good == good;
      }
    }
  }

  lemma FirstBlock(buf: seq<byte>, b: seq<byte>, rest: seq<byte>)
    requires Block(b) && buf == b + rest
    ensures |buf| >= HEADER_LEN && !BadHeader(buf) && Total(buf) == |b|
    ensures buf[..|b|] == b && buf[|b|..] == rest
  {
    hide PyUnpackHeader;
    HeaderLocal(b, rest);
  }

  lemma {:induction false} FramedResyncable(blocks: seq<seq<byte>>, t: seq<byte>)
    requires (forall i :: 0 <= i < |blocks| ==> Block(blocks[i])) && Partial(t)
    ensures Resyncable(Concat(blocks) + t)
    decreases |blocks|
  {
    hide PyUnpackHeader, BadHeader, Total;
    var buf := Concat(blocks) + t;
    if blocks == [] {
      assert buf == t;
    } else {
      var b, rest := blocks[0], Concat(blocks[1..]) + t;
      assert buf == b + rest;
      FirstBlock(buf, b, rest);
      FramedResyncable(blocks[1..], t);
    }
  }

  /**
   * Cut a well-framed stream into chunks in any way: the decoder yields exactly the good
   * frames in order, counts exactly the bad blocks and keeps only the trailing partial block.
   */
  lemma WellFramed(blocks: seq<seq<byte>>, t: seq<byte>, chunks: seq<seq<byte>>)
    requires (forall i :: 0 <= i < |blocks| ==> Block(blocks[i])) && Partial(t)
    requires Concat(chunks) == Concat(blocks) + t
    ensures FeedAll(INIT, chunks) == State(t, Good(blocks), Bad(blocks))
  {
    hide PyDecode, PyUnpackHeader;
    var s := State(Concat(chunks), [], 0);
    FramedRun(s, blocks, t);
    FramedResyncable(blocks, t);
    ChunksMerge(chunks);
    assert [] + Concat(chunks) == Concat(chunks) && [] + Good(blocks) == Good(blocks);
  }
}
