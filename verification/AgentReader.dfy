/**
 * The agent's reader of the control channel (`tcpRead`, firmware/src/agent.cpp:487-526):
 * what it hands to the message handlers does not depend on how the bytes are cut into
 * calls that end in "would block", exactly as long as none of them overflows the buffer; what
 * a call brings together with the end of the connection is thrown away.
 */
module AgentReading {
  import opened Common
  import opened Crc
  import opened Wire
  import opened Frames

  const RX_LIMIT := 64 * 1024
  const MAX_FRAME := HEADER_LEN + MAX_PAYLOAD + CRC_LEN

  datatype Cause = Framing(e: DecodeError) | Overflow | Handler | PeerClosed | RecvFailed

  /** What the last `recv` of a call says. */
  datatype Ending = Again | Eof | Failed

  datatype Channel = Open | Closed(why: Cause)

  /** Buffered bytes, frames handed to `handleFrame` in order, and whether the channel is up. */
  datatype Reader = Reader(rx: seq<byte>, handled: seq<Frame>, channel: Channel)

  /** Tells, from the frames handled so far, whether the last handler closed the channel. */
  type Handlers = seq<Frame> -> bool

  /** The parse loop: as many complete frames as are buffered. */
  function Parse(r: Reader, closes: Handlers): (t: Reader)
    requires r.channel.Open?
    ensures t.channel.Open? ==> DecodeFrame(t.rx) == Err(TooShort) || t.rx == []
    decreases |r.rx|
  {
    if r.rx == [] then r else
    var d := DecodeFrame(r.rx);
    if d == Err(TooShort) then r
    else if d.Err? then Reader([], r.handled, Closed(Framing(d.error)))
    else
      var handled := r.handled + [d.value.0];
      if closes(handled) then Reader([], handled, Closed(Handler))
      else Parse(Reader(r.rx[d.value.1..], handled, Open), closes)
  }

  function Extend(r: Reader, d: seq<byte>): Reader { r.(rx := r.rx + d) }

  /**
   * One call: everything readable is appended, then parsed; a closed channel reads nothing.  The
   * end of the connection closes the channel before anything of this call is parsed.
   */
  function ReadOnce(r: Reader, d: seq<byte>, end: Ending, closes: Handlers): Reader {
    if r.channel.Closed? then r
    else if |r.rx + d| > RX_LIMIT then Reader([], r.handled, Closed(Overflow))
    else if end != Again then Reader([], r.handled, Closed(if end == Eof then PeerClosed else RecvFailed))
    else Parse(Extend(r, d), closes)
  }

  class AgentChannel {
    var rx: seq<byte>
    var handled: seq<Frame>
    var channel: Channel

    ghost function View(): Reader
      reads this
    {
      Reader(rx, handled, channel)
    }

    /** `recvs` are the buffers that successive `recv` calls return before the one that ends the loop. */
    method TcpRead(recvs: seq<seq<byte>>, end: Ending, closes: Handlers)
      requires channel.Open? && |rx| <= RX_LIMIT
      modifies this
      ensures |rx| <= RX_LIMIT
      ensures View() == ReadOnce(old(View()), Concat(recvs), end, closes)
    {
      hide DecodeFrame, Parse;
      ghost var start := rx;
      for i := 0 to |recvs|
        invariant rx == start + Concat(recvs[..i]) && |rx| <= RX_LIMIT
        invariant handled == old(handled) && channel.Open?
      {
        ConcatPrefix(recvs, i);
        rx := rx + recvs[i];
        if |rx| > RX_LIMIT {
          ConcatGrows(recvs, i + 1);
          rx := [];
          channel := Closed(Overflow);
          return;
        }
      }
      assert recvs[..|recvs|] == recvs;
      assert rx == start + Concat(recvs);
      if end != Again {
        rx := [];
        channel := Closed(if end == Eof then PeerClosed else RecvFailed);
        return;
      }
      ParseBuffer(closes);
    }

    /** As many complete frames as are buffered. */
    method ParseBuffer(closes: Handlers)
      requires channel.Open? && |rx| <= RX_LIMIT
      modifies this
      ensures |rx| <= RX_LIMIT
      ensures View() == Parse(old(View()), closes)
    {
      hide DecodeFrame;
      var off := 0;
      ghost var target := Parse(Reader(rx, handled, Open), closes);
      while off < |rx|
        invariant 0 <= off <= |rx| && channel.Open?
        invariant Parse(Reader(rx[off..], handled, Open), closes) == target
      {
        var d := DecodeFrame(rx[off..]);
        if d == Err(TooShort) {
          break;
        }
        if d.Err? {
          rx := [];
          channel := Closed(Framing(d.error));
          return;
        }
        assert rx[off..][d.value.1..] == rx[off + d.value.1..];
        off := off + d.value.1;
        handled := handled + [d.value.0];
        if closes(handled) {
          rx := [];
          channel := Closed(Handler);
          return;
        }
      }
      rx := rx[off..];
    }
  }

  // ------------------------------------------------------------ independence from recv boundaries

  /** Parsing what is there and then the rest is parsing it all: `decodeFrame` is prefix-stable. */
  lemma {:induction false} Merge(r: Reader, e: seq<byte>, closes: Handlers)
    requires r.channel.Open?
    ensures var p := Parse(r, closes);
            Parse(Extend(r, e), closes) == if p.channel.Open? then Parse(Extend(p, e), closes) else p
    decreases |r.rx|
  {
    hide DecodeFrame;
    if r.rx != [] && DecodeFrame(r.rx) != Err(TooShort) {
      DecodeStable(r.rx, e);
      var d := DecodeFrame(r.rx);
      if d.Ok? && !closes(r.handled + [d.value.0]) {
        var next := Reader(r.rx[d.value.1..], r.handled + [d.value.0], Open);
        assert (r.rx + e)[d.value.1..] == next.rx + e;
        Merge(next, e, closes);
      }
    }
  }

  /** Handlers that never close the channel. */
  const KEEP_OPEN: Handlers := _ => false

  const START := Reader([], [], Open)

  /** Calls that all end in "would block". */
  function ReadAll(chunks: seq<seq<byte>>, closes: Handlers): Reader {
    if chunks == [] then START else ReadOnce(ReadAll(chunks[..|chunks| - 1], closes), chunks[|chunks| - 1], Again, closes)
  }

  /** Less than one maximal frame stays buffered. */
  lemma LeftoverBound(rx: seq<byte>)
    requires DecodeFrame(rx) == Err(TooShort)
    ensures |rx| < MAX_FRAME
  {
    hide Crc32Of;
  }

  /** What a parse of the whole stream at once leaves. */
  function Whole(s: seq<byte>, closes: Handlers): Reader { Parse(Reader(s, [], Open), closes) }

  /** No call overflows the buffer: what is left before it and what it brings are within the limit. */
  ghost predicate Fits(chunks: seq<seq<byte>>, closes: Handlers) {
    forall k :: 0 <= k < |chunks| ==> FitsAt(chunks, closes, k)
  }

  ghost predicate FitsAt(chunks: seq<seq<byte>>, closes: Handlers, k: nat)
    requires k < |chunks|
  {
    var p := Whole(Concat(chunks[..k]), closes);
    p.channel.Open? ==> |p.rx| + |chunks[k]| <= RX_LIMIT
  }

  lemma FitsSnoc(chunks: seq<seq<byte>>, closes: Handlers)
    requires chunks != []
    ensures Fits(chunks, closes) <==> Fits(chunks[..|chunks| - 1], closes) && FitsAt(chunks, closes, |chunks| - 1)
  {
    hide FitsAt;
    var front := chunks[..|chunks| - 1];
    forall k | 0 <= k < |front| ensures FitsAt(front, closes, k) <==> FitsAt(chunks, closes, k) {
      FitsPrefix(front, chunks, closes, k);
    }
  }

  lemma FitsPrefix(front: seq<seq<byte>>, chunks: seq<seq<byte>>, closes: Handlers, k: nat)
    requires k < |front| && front <= chunks
    ensures FitsAt(front, closes, k) <==> FitsAt(chunks, closes, k)
  {
    hide Whole;
    assert front[..k] == chunks[..k];
  }

  lemma {:induction false} ParseNeverOverflows(r: Reader, closes: Handlers)
    requires r.channel.Open?
    ensures Parse(r, closes).channel != Closed(Overflow)
    decreases |r.rx|
  {
    hide DecodeFrame;
    if r.rx != [] && DecodeFrame(r.rx).Ok? {
      var d := DecodeFrame(r.rx).value;
      if !closes(r.handled + [d.0]) {
        ParseNeverOverflows(Reader(r.rx[d.1..], r.handled + [d.0], Open), closes);
      }
    }
  }

  /**
   * For every byte stream, garbage included, and every way of cutting it into calls: the reader
   * ends as if the whole stream had been parsed at once if and only if no call overflows the
   * buffer, and otherwise the channel is closed for overflow.
   */
  lemma {:induction false} ReadsExact(chunks: seq<seq<byte>>, closes: Handlers)
    ensures ReadAll(chunks, closes) == Whole(Concat(chunks), closes) <==> Fits(chunks, closes)
    ensures !Fits(chunks, closes) ==> ReadAll(chunks, closes).channel == Closed(Overflow)
    decreases |chunks|
  {
    hide DecodeFrame, Parse, Fits;
    if chunks == [] {
      NothingRead(closes);
    } else {
      var front, last := chunks[..|chunks| - 1], chunks[|chunks| - 1];
      ReadsExact(front, closes);
      ConcatLast(chunks);
      FitsSnoc(chunks, closes);
      Merge(Reader(Concat(front), [], Open), last, closes);
      ParseNeverOverflows(Reader(Concat(chunks), [], Open), closes);
    }
  }

  lemma NothingRead(closes: Handlers)
    ensures Whole([], closes) == START && Fits([], closes)
  {}

  /** Calls of at most 64473 bytes, or of at most 64 KiB together, always fit. */
  lemma ShortCallsFit(chunks: seq<seq<byte>>, closes: Handlers)
    ensures (forall i :: 0 <= i < |chunks| ==> |chunks[i]| + MAX_FRAME - 1 <= RX_LIMIT) ==> Fits(chunks, closes)
    ensures |Concat(chunks)| <= RX_LIMIT ==> Fits(chunks, closes)
  {
    hide DecodeFrame, Parse;
    forall k | 0 <= k < |chunks|
      ensures |chunks[k]| + MAX_FRAME - 1 <= RX_LIMIT || |Concat(chunks)| <= RX_LIMIT ==> FitsAt(chunks, closes, k)
    {
      var p := Whole(Concat(chunks[..k]), closes);
      if p.channel.Open? && p.rx != [] {
        LeftoverBound(p.rx);
      }
      ParseShortens(Reader(Concat(chunks[..k]), [], Open), closes);
      ConcatPrefix(chunks, k);
      ConcatGrows(chunks, k + 1);
    }
  }

  lemma {:induction false} ParseShortens(r: Reader, closes: Handlers)
    requires r.channel.Open?
    ensures |Parse(r, closes).rx| <= |r.rx|
    decreases |r.rx|
  {
    hide DecodeFrame;
    if r.rx != [] && DecodeFrame(r.rx).Ok? {
      var d := DecodeFrame(r.rx).value;
      if !closes(r.handled + [d.0]) {
        ParseShortens(Reader(r.rx[d.1..], r.handled + [d.0], Open), closes);
      }
    }
  }

  // ------------------------------------------------------------ the end of the connection

  /** The bytes of this call complete at least one frame. */
  predicate Completes(r: Reader, d: seq<byte>) {
    r.channel.Open? && |r.rx + d| <= RX_LIMIT && DecodeFrame(r.rx + d).Ok?
  }

  /**
   * A call that ends the connection handles nothing of what it brings.  Had the same bytes come
   * one call earlier, other frames would have been handled if and only if they complete one.
   */
  lemma ClosingCallLoses(r: Reader, d: seq<byte>, end: Ending, closes: Handlers)
    requires end != Again
    ensures ReadOnce(r, d, end, closes).handled == r.handled
    ensures r.channel.Open? && |r.rx| + |d| <= 65536 ==>
              ReadOnce(r, d, end, closes) == Reader([], r.handled, Closed(if end == Eof then PeerClosed else RecvFailed))
    ensures r.channel.Open? && |r.rx| + |d| > 65536 ==> ReadOnce(r, d, end, closes) == Reader([], r.handled, Closed(Overflow))
    ensures ReadOnce(ReadOnce(r, d, Again, closes), [], end, closes).handled != r.handled <==> Completes(r, d)
  {
    hide DecodeFrame;
    if r.channel.Open? && |r.rx + d| <= RX_LIMIT {
      HandledGrows(Extend(r, d), closes);
      EmptyTooShort();
    }
  }

  lemma {:induction false} HandledGrows(r: Reader, closes: Handlers)
    requires r.channel.Open?
    ensures r.handled <= Parse(r, closes).handled
    ensures Parse(r, closes).handled != r.handled <==> r.rx != [] && DecodeFrame(r.rx).Ok?
    decreases |r.rx|
  {
    hide DecodeFrame;
    if r.rx != [] && DecodeFrame(r.rx).Ok? {
      var d := DecodeFrame(r.rx).value;
      if !closes(r.handled + [d.0]) {
        HandledGrows(Reader(r.rx[d.1..], r.handled + [d.0], Open), closes);
      }
    }
  }

  /** Every frame the firmware can encode is such an input: alone with the end of the stream it is lost. */
  lemma FrameLostWithFin(h: Header, payload: seq<byte>, closes: Handlers)
    requires |payload| <= MAX_PAYLOAD && Sendable(Cpp, h.(payloadLen := |payload|))
    ensures var (b, f) := (EncodeFrame(h, payload), Frame(h.(payloadLen := |payload|), payload));
            && ReadOnce(START, b, Eof, closes).handled == []
            && ReadOnce(ReadOnce(START, b, Again, closes), [], Eof, closes).handled == [f]
  {
    hide DecodeFrame, EncodeFrame;
    var b := EncodeFrame(h, payload);
    CppRoundTrip(h, payload, []);
    assert b + [] == b;
    EncodedSize(h, payload);
    hide ReadOnce, Sendable;
    LostAlone(b, Frame(h.(payloadLen := |payload|), payload), closes);
  }

  lemma LostAlone(b: seq<byte>, f: Frame, closes: Handlers)
    requires DecodeFrame(b) == Ok((f, |b|)) && |b| <= RX_LIMIT
    ensures ReadOnce(START, b, Eof, closes).handled == []
    ensures ReadOnce(ReadOnce(START, b, Again, closes), [], Eof, closes).handled == [f]
  {
    hide DecodeFrame;
    DecodeSome(b);
    var r := Extend(START, b);
    assert r.rx == b && b[|b|..] == [] && START.handled + [f] == [f];
    assert Parse(r, closes).handled == [f];
    hide Parse;
  }

  lemma EncodedSize(h: Header, payload: seq<byte>)
    ensures |EncodeFrame(h, payload)| <= MAX_FRAME
  {
    hide Crc32Of, Write, Le;
  }

  // ------------------------------------------------------------ the frames are the longest valid prefix

  predicate WholeFrame(b: seq<byte>) {
    DecodeFrame(b).Ok? && DecodeFrame(b).value.1 == |b|
  }

  /** `s` is whole valid frames followed by something that does not start with one. */
  ghost predicate Decomposes(s: seq<byte>, parts: seq<seq<byte>>, rest: seq<byte>) {
    && s == Concat(parts) + rest
    && (forall i :: 0 <= i < |parts| ==> WholeFrame(parts[i]))
    && DecodeFrame(rest).Err?
  }

  function FramesOf(parts: seq<seq<byte>>): seq<Frame>
    requires forall i :: 0 <= i < |parts| ==> WholeFrame(parts[i])
  {
    if parts == [] then [] else [FrameOf(parts[0])] + FramesOf(parts[1..])
  }

  function FrameOf(b: seq<byte>): Frame
    requires WholeFrame(b)
  {
    DecodeFrame(b).value.0
  }

  function Rest(rest: seq<byte>, handled: seq<Frame>): Reader
    requires DecodeFrame(rest).Err?
  {
    var e := DecodeFrame(rest).error;
    if e == TooShort then Reader(rest, handled, Open) else Reader([], handled, Closed(Framing(e)))
  }

  /** With handlers that keep the channel open, parsing finds exactly that decomposition. */
  lemma {:induction false} ParseFinds(parts: seq<seq<byte>>, rest: seq<byte>, handled: seq<Frame>)
    requires Decomposes(Concat(parts) + rest, parts, rest)
    ensures Parse(Reader(Concat(parts) + rest, handled, Open), KEEP_OPEN) == Rest(rest, handled + FramesOf(parts))
    decreases |parts|
  {
    hide DecodeFrame;
    var s := Concat(parts) + rest;
    if parts == [] {
      assert s == rest && handled + [] == handled;
      EmptyTooShort();
    } else {
      var b, tail := parts[0], Concat(parts[1..]) + rest;
      assert s == b + tail;
      DecodeStable(b, tail);
      DecodeSome(b);
      assert s[|b|..] == tail;
      var f := DecodeFrame(b).value.0;
      ParseFinds(parts[1..], rest, handled + [f]);
      assert handled + [f] + FramesOf(parts[1..]) == handled + FramesOf(parts);
    }
  }

  lemma EmptyTooShort()
    ensures DecodeFrame([]) == Err(TooShort)
  {}

  lemma DecodeSome(b: seq<byte>)
    requires DecodeFrame(b).Ok?
    ensures |b| > 0
  {}

  lemma {:induction false} Decomposition(s: seq<byte>) returns (parts: seq<seq<byte>>, rest: seq<byte>)
    ensures Decomposes(s, parts, rest)
    decreases |s|
  {
    hide DecodeFrame;
    if DecodeFrame(s).Err? {
      parts, rest := [], s;
      assert [] + s == s;
    } else {
      var n := DecodeFrame(s).value.1;
      Shortened(s);
      parts, rest := Decomposition(s[n..]);
      var all := [s[..n]] + parts;
      assert all[1..] == parts;
      assert s == s[..n] + (Concat(parts) + rest);
      assert s == Concat(all) + rest;
      parts := all;
    }
  }

  /** A frame is decoded from its own bytes alone. */
  lemma Shortened(s: seq<byte>)
    requires DecodeFrame(s).Ok?
    ensures 0 < DecodeFrame(s).value.1 <= |s| && WholeFrame(s[..DecodeFrame(s).value.1])
  {
    hide Crc32Of;
    var n := DecodeFrame(s).value.1;
    var b := s[..n];
    var c := n - CRC_LEN;
    assert b[..HEADER_LEN] == s[..HEADER_LEN] && b[..c] == s[..c] && b[c..c + CRC_LEN] == s[c..c + CRC_LEN];
  }

  /**
   * Whatever the boundaries of the calls, the handled frames are the longest valid-frame prefix
   * of the stream, if and only if no call overflows: some decomposition exists, and every
   * decomposition gives this very result.
   */
  lemma LongestPrefixHandled(chunks: seq<seq<byte>>)
    ensures exists parts, rest :: Decomposes(Concat(chunks), parts, rest)
    ensures forall parts, rest :: Decomposes(Concat(chunks), parts, rest) ==>
              (ReadAll(chunks, KEEP_OPEN) == Rest(rest, FramesOf(parts)) <==> Fits(chunks, KEEP_OPEN))
  {
    hide DecodeFrame, Fits, Decomposes, ReadAll, Whole, Rest, FramesOf;
    var ps, r := Decomposition(Concat(chunks));
    ReadsExact(chunks, KEEP_OPEN);
    forall parts, rest | Decomposes(Concat(chunks), parts, rest)
      ensures DecodeFrame(rest).Err? && (forall i :: 0 <= i < |parts| ==> WholeFrame(parts[i]))
      ensures Whole(Concat(chunks), KEEP_OPEN) == Rest(rest, FramesOf(parts))
    {
      WholeFinds(Concat(chunks), parts, rest);
    }
  }

  lemma WholeFinds(s: seq<byte>, parts: seq<seq<byte>>, rest: seq<byte>)
    requires Decomposes(s, parts, rest)
    ensures DecodeFrame(rest).Err? && (forall i :: 0 <= i < |parts| ==> WholeFrame(parts[i]))
    ensures Whole(s, KEEP_OPEN) == Rest(rest, FramesOf(parts))
  {
    hide DecodeFrame, Parse;
    ParseFinds(parts, rest, []);
    assert [] + FramesOf(parts) == FramesOf(parts);
  }
}
