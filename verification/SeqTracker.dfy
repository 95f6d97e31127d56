/**
 * The sequence-gap loss estimator (`DeviceStats.note_seq` and `loss_pct`,
 * backend/app/ingest.py:17-51), against frames numbered without wrap-around.
 */
module SeqTracker {
  import opened Common

  const MOD := 0x1_0000_0000
  const HALF := 0x8000_0000
  const RESTART_GAP := 10_000
  const LOSS_WINDOW := 200

  /** One window entry: (received, expected). */
  type Entry = (int, int)

  datatype Tracker = Tracker(lastSeq: Option<int>, seqGaps: int, window: seq<Entry>)

  const EMPTY := Tracker(None, 0, [])

  /** A `deque(maxlen=200)` append. */
  function Append(w: seq<Entry>, e: Entry): seq<Entry> {
    var all := w + [e];
    if |all| > LOSS_WINDOW then all[|all| - LOSS_WINDOW..] else all
  }

  /** What a step ahead of `delta` counts as lost; a long jump is taken as a restart. */
  function GapOf(delta: int): int {
    if delta - 1 > RESTART_GAP then 0 else delta - 1
  }

  function Note(t: Tracker, n: int): Tracker {
    if t.lastSeq.None? then Tracker(Some(n), t.seqGaps, Append(t.window, (1, 1)))
    else
      var delta := (n - t.lastSeq.value) % MOD;
      if delta == 0 || delta > 0x7FFF_FFFF then t
      else Tracker(Some(n), t.seqGaps + GapOf(delta), Append(t.window, (1, 1 + GapOf(delta))))
  }

  function Sum(w: seq<Entry>): (int, int) {
    if w == [] then (0, 0) else var s := Sum(w[..|w| - 1]); (s.0 + w[|w| - 1].0, s.1 + w[|w| - 1].1)
  }

  /** `loss_pct`, before rounding. */
  function LossPct(w: seq<Entry>): real {
    var (rx, exp) := Sum(w);
    if w == [] || exp == 0 then 0.0
    else
      var p := 100.0 * (1.0 - rx as real / exp as real);
      if p > 0.0 then p else 0.0
  }

  class DeviceStats {
    var lastSeq: Option<int>
    var seqGaps: int
    var window: seq<Entry>

    ghost function View(): Tracker
      reads this
    {
      Tracker(lastSeq, seqGaps, window)
    }

    constructor ()
      ensures View() == EMPTY
    {
      lastSeq, seqGaps, window := None, 0, [];
    }

    method NoteSeq(n: int)
      modifies this
      ensures View() == Note(old(View()), n)
    {
      if lastSeq.Some? {
        var delta := (n - lastSeq.value) % MOD;
        if delta == 0 || delta > 0x7FFF_FFFF {
          return;
        }
        var gap := delta - 1;
        if gap > RESTART_GAP {
          gap := 0;
        }
        seqGaps := seqGaps + gap;
        window := Append(window, (1, 1 + gap));
      } else {
        window := Append(window, (1, 1));
      }
      lastSeq := Some(n);
    }
  }

  /** The tracker after the frames `xs`, whose wire numbers are their indices modulo 2^32. */
  function Track(xs: seq<int>): Tracker {
    if xs == [] then EMPTY else Note(Track(xs[..|xs| - 1]), xs[|xs| - 1] % MOD)
  }

  // ------------------------------------------------------------ the unbounded reference

  /** The frames that were a new maximum when they arrived. */
  function Records(xs: seq<int>): (r: seq<int>)
    ensures xs != [] ==> r != []
  {
    if xs == [] then []
    else
      var (r, x) := (Records(xs[..|xs| - 1]), xs[|xs| - 1]);
      if r == [] || x > r[|r| - 1] then r + [x] else r
  }

  predicate IsMax(m: int, xs: seq<int>) {
    m in xs && forall i :: 0 <= i < |xs| ==> xs[i] <= m
  }

  /** The last record is the running maximum, the first is the first frame, and records increase. */
  lemma {:induction false} RecordsAreMaxima(xs: seq<int>)
    requires xs != []
    ensures var r := Records(xs); IsMax(r[|r| - 1], xs) && r[0] == xs[0]
    ensures var r := Records(xs); forall i :: 0 < i < |r| ==> r[i - 1] < r[i]
    decreases |xs|
  {
    if |xs| > 1 {
      var f := xs[..|xs| - 1];
      RecordsAreMaxima(f);
      assert forall i :: 0 <= i < |f| ==> xs[i] == f[i];
    } else {
      assert xs[..0] == [] && Records([]) == [];
      assert xs[0] in xs;
    }
  }

  /** Every frame is less than 2^31 ahead of, or at most 2^31 behind, the maximum before it. */
  predicate Near(xs: seq<int>) {
    forall i :: 1 <= i < |xs| ==> NearMax(Records(xs[..i]), xs[i])
  }

  predicate NearMax(r: seq<int>, x: int) {
    r != [] ==> r[|r| - 1] - HALF <= x < r[|r| - 1] + HALF
  }

  /** Entry `i` of the window that the records imply. */
  function EntryOf(r: seq<int>, i: nat): Entry
    requires i < |r|
  {
    if i == 0 then (1, 1) else (1, 1 + GapOf(r[i] - r[i - 1]))
  }

  function Entries(r: seq<int>): (w: seq<Entry>)
    ensures |w| == |r|
    ensures forall i :: 0 <= i < |r| ==> w[i] == EntryOf(r, i)
  {
    seq(|r|, i requires 0 <= i < |r| => EntryOf(r, i))
  }

  function Gaps(r: seq<int>): int {
    if |r| <= 1 then 0 else Gaps(r[..|r| - 1]) + GapOf(r[|r| - 1] - r[|r| - 2])
  }

  function LastN(w: seq<Entry>): seq<Entry> {
    if |w| > LOSS_WINDOW then w[|w| - LOSS_WINDOW..] else w
  }

  lemma WireDelta(m: int, x: int)
    requires m - HALF <= x < m + HALF
    ensures var delta := (x % MOD - m % MOD) % MOD;
            if x > m then delta == x - m && 0 < delta <= 0x7FFF_FFFF else delta == 0 || delta > 0x7FFF_FFFF
  {
    var d := x - m;
    assert x == x / MOD * MOD + x % MOD && m == m / MOD * MOD + m % MOD;
    var k := x / MOD - m / MOD;
    assert x % MOD - m % MOD == d - k * MOD;
    if d >= 0 {
      ModIs(d - k * MOD, -k, d);
    } else {
      ModIs(d - k * MOD, -k - 1, d + MOD);
    }
  }

  lemma ModIs(a: int, q: int, r: int)
    requires a == q * MOD + r && 0 <= r < MOD
    ensures a % MOD == r
  {
    var q' := a / MOD;
    assert a == q' * MOD + a % MOD;
  }

  lemma AppendLast(w: seq<Entry>, e: Entry)
    ensures Append(LastN(w), e) == LastN(w + [e])
  {
    if |w| > LOSS_WINDOW {
      assert (w + [e])[|w| + 1 - LOSS_WINDOW..] == w[|w| + 1 - LOSS_WINDOW..] + [e];
      assert (LastN(w) + [e])[1..] == w[|w| + 1 - LOSS_WINDOW..] + [e];
    } else if |w| == LOSS_WINDOW {
      assert w[0..] == w;
    }
  }

  lemma EntriesSnoc(r: seq<int>, x: int)
    ensures Entries(r + [x]) == Entries(r) + [EntryOf(r + [x], |r|)]
  {
    assert forall i :: 0 <= i < |r| ==> EntryOf(r + [x], i) == EntryOf(r, i);
  }

  /** The tracker that the record frames `r` alone would leave. */
  function Reference(r: seq<int>): Tracker
    requires r != []
  {
    Tracker(Some(r[|r| - 1] % MOD), Gaps(r), LastN(Entries(r)))
  }

  lemma NoteRecord(r: seq<int>, x: int)
    requires r != [] && NearMax(r, x)
    ensures Note(Reference(r), x % MOD) == if x > r[|r| - 1] then Reference(r + [x]) else Reference(r)
  {
    hide Entries, LastN, Append;
    var m := r[|r| - 1];
    WireDelta(m, x);
    if x > m {
      EntriesSnoc(r, x);
      assert (r + [x])[..|r|] == r;
      AppendLast(Entries(r), (1, 1 + GapOf(x - m)));
    }
  }

  /**
   * For any delivery order with loss, duplication, reordering and wrap-around, the 32-bit
   * tracker is the running maximum of the unbounded indices: its last number, its gap count
   * and its window are those of the record frames alone.
   */
  lemma {:induction false} TracksMaximum(xs: seq<int>)
    requires xs != [] && Near(xs)
    ensures Track(xs) == Reference(Records(xs))
    decreases |xs|
  {
    hide Entries, LastN, Note, Gaps;
    var f, x := xs[..|xs| - 1], xs[|xs| - 1];
    if |xs| == 1 {
      FirstNote(x);
      assert f == [];
      assert Records(f) == [] && Track(f) == EMPTY;
      assert Records(xs) == [] + [x] == [x];
    } else {
      assert Near(f) by {
        assert forall i :: 1 <= i < |f| ==> f[..i] == xs[..i] && f[i] == xs[i];
      }
      TracksMaximum(f);
      assert NearMax(Records(f), x);
      NoteRecord(Records(f), x);
    }
  }

  lemma FirstNote(x: int)
    ensures Note(EMPTY, x % MOD) == Reference([x])
  {
    assert Entries([x]) == [(1, 1)];
  }

  // ------------------------------------------------------------ what the gap count means

  predicate NoJump(r: seq<int>) {
    forall i :: 0 < i < |r| ==> r[i] - r[i - 1] <= RESTART_GAP + 1
  }

  predicate Rising(r: seq<int>) {
    forall i :: 0 < i < |r| ==> r[i - 1] < r[i]
  }

  /** Gaps and received maxima never exceed the span, and make it up exactly when nothing jumped. */
  lemma {:induction false} GapsFillSpan(r: seq<int>)
    requires r != [] && Rising(r)
    ensures Gaps(r) + |r| <= r[|r| - 1] - r[0] + 1
    ensures Gaps(r) + |r| == r[|r| - 1] - r[0] + 1 <==> NoJump(r)
    decreases |r|
  {
    if |r| > 1 {
      var f := r[..|r| - 1];
      GapsFillSpan(f);
      assert NoJump(r) <==> NoJump(f) && r[|r| - 1] - r[|r| - 2] <= RESTART_GAP + 1;
    }
  }

  /**
   * seq_gaps is exactly the frames missing between the first and the highest one, if and only
   * if no accepted frame was more than 10001 ahead; otherwise it undercounts.
   */
  lemma GapCountExact(xs: seq<int>)
    requires xs != [] && Near(xs)
    ensures var r := Records(xs);
            var missing := r[|r| - 1] - xs[0] + 1 - |r|;
            && IsMax(r[|r| - 1], xs)
            && Track(xs).seqGaps <= missing
            && (Track(xs).seqGaps == missing <==> NoJump(r))
  {
    TracksMaximum(xs);
    RecordsAreMaxima(xs);
    GapsFillSpan(Records(xs));
  }

  // ------------------------------------------------------------ the window

  lemma SumEmpty()
    ensures Sum([]) == (0, 0)
  {}

  lemma SumSnoc(w: seq<Entry>, e: Entry)
    ensures Sum(w + [e]) == (Sum(w).0 + e.0, Sum(w).1 + e.1)
  {
    assert (w + [e])[..|w|] == w;
  }

  /** The indices that the records `lo..hi` account for when nothing jumped. */
  function Span(r: seq<int>, lo: nat, hi: nat): int
    requires lo < hi <= |r|
  {
    if lo == 0 then r[hi - 1] - r[0] + 1 else r[hi - 1] - r[lo - 1]
  }

  lemma {:induction false} SumSlice(r: seq<int>, lo: nat, hi: nat)
    requires lo <= hi <= |r| && Rising(r)
    ensures var s := Sum(Entries(r)[lo..hi]); s.0 == hi - lo && s.1 >= hi - lo
    ensures NoJump(r) && lo < hi ==> Sum(Entries(r)[lo..hi]).1 == Span(r, lo, hi)
    decreases hi - lo
  {
    hide Entries, Sum;
    var w := Entries(r);
    SumEmpty();
    assert w[lo..lo] == [];
    if lo < hi {
      SumSlice(r, lo, hi - 1);
      assert w[lo..hi] == w[lo..hi - 1] + [w[hi - 1]];
      SumSnoc(w[lo..hi - 1], w[hi - 1]);
    }
  }

  lemma FractionBound(rx: int, exp: int)
    requires 0 < rx <= exp
    ensures 0.0 < rx as real / exp as real <= 1.0
  {
    var q := rx as real / exp as real;
    assert q * exp as real == rx as real;
  }

  lemma LossInRange(w: seq<Entry>)
    requires w != [] && 0 < Sum(w).0 <= Sum(w).1
    ensures 0.0 <= LossPct(w) < 100.0
  {
    FractionBound(Sum(w).0, Sum(w).1);
  }

  /** The window holds the last (at most 200) accepted frames. */
  function WindowStart(r: seq<int>): nat {
    if |r| > LOSS_WINDOW then |r| - LOSS_WINDOW else 0
  }

  /**
   * The window's received count is its length and its expected count telescopes to the index
   * span of the frames it holds (when nothing jumped).
   */
  lemma WindowSpan(xs: seq<int>)
    requires xs != [] && Near(xs)
    ensures var r, w := Records(xs), Track(xs).window;
            && |w| == |r| - WindowStart(r) && Sum(w).0 == |w|
            && (NoJump(r) ==> Sum(w).1 == Span(r, WindowStart(r), |r|))
  {
    hide Sum, LossPct, Entries, Gaps, Records, Track;
    var r := Records(xs);
    TracksMaximum(xs);
    RecordsAreMaxima(xs);
    var lo := WindowStart(r);
    assert LastN(Entries(r)) == Entries(r)[lo..|r|];
    SumSlice(r, lo, |r|);
  }

  /** Every entry is one frame received of at least one expected. */
  predicate Honest(w: seq<Entry>) {
    forall i :: 0 <= i < |w| ==> w[i].0 == 1 && w[i].1 >= 1
  }

  lemma {:induction false} AlwaysHonest(xs: seq<int>)
    ensures Honest(Track(xs).window) && (xs != [] ==> Track(xs).window != [] && Track(xs).lastSeq.Some?)
    decreases |xs|
  {
    if xs != [] {
      AlwaysHonest(xs[..|xs| - 1]);
    }
  }

  lemma {:induction false} HonestSum(w: seq<Entry>)
    requires Honest(w)
    ensures Sum(w).0 == |w| <= Sum(w).1
    decreases |w|
  {
    if w != [] {
      HonestSum(w[..|w| - 1]);
    }
  }

  /** The loss percentage lies in [0, 100) for every sequence of frame numbers whatever. */
  lemma LossAlwaysInRange(xs: seq<int>)
    ensures 0.0 <= LossPct(Track(xs).window) < 100.0
  {
    AlwaysHonest(xs);
    HonestSum(Track(xs).window);
    hide Track, Sum;
    if Track(xs).window != [] {
      LossInRange(Track(xs).window);
    }
  }

  /** The loss is the share of what the window expected that it did not receive. */
  lemma LossFormula(w: seq<Entry>)
    requires Honest(w) && w != []
    ensures LossPct(w) * Sum(w).1 as real == 100.0 * (Sum(w).1 - |w|) as real
  {
    HonestSum(w);
    hide Sum;
    Share(|w|, Sum(w).1);
  }

  lemma Share(rx: int, exp: int)
    requires 0 < rx <= exp
    ensures 100.0 * (1.0 - rx as real / exp as real) >= 0.0
    ensures 100.0 * (1.0 - rx as real / exp as real) * exp as real == 100.0 * (exp - rx) as real
  {
    FractionBound(rx, exp);
    var q := rx as real / exp as real;
    assert q * exp as real == rx as real;
    assert (100.0 * (1.0 - q)) * exp as real == 100.0 * (exp as real - q * exp as real);
  }

  /** Without jumps it is the share of the window's index span that is missing. */
  lemma LossIsMissingShare(xs: seq<int>)
    requires xs != [] && Near(xs) && NoJump(Records(xs))
    ensures var r, w := Records(xs), Track(xs).window;
            var span := Span(r, WindowStart(r), |r|);
            LossPct(w) * span as real == 100.0 * (span - |w|) as real
  {
    hide LossPct, Sum, Track, Records, NoJump;
    AlwaysHonest(xs);
    WindowSpan(xs);
    LossFormula(Track(xs).window);
  }

  /** One frame more than 10,001 ahead is taken as a restart: nothing lost, and counting goes on from it. */
  lemma JumpIsRestart(t: Tracker, n: int)
    requires t.lastSeq.Some? && 10_001 < (n - t.lastSeq.value) % 0x1_0000_0000 < 0x8000_0000
    ensures Note(t, n) == Tracker(Some(n), t.seqGaps, Append(t.window, (1, 1)))
  {}

  /** The window forgets its oldest entry beyond 200. */
  lemma WindowForgets(w: seq<Entry>, e: Entry)
    requires |w| <= 200
    ensures Append(w, e) == if |w| == 200 then w[1..] + [e] else w + [e]
  {}
}
