/**
 * The telemetry store: write buffer, raw table, one-minute rollups and retention
 * (backend/app/db.py:172-222 and 246-270).  Timestamps are non-negative seconds; `rollup_upto`
 * and the 1m view's bounds are kept in whole minutes.
 */
module Rollup {
  import FlagWords

  /** One telemetry row; `metrics` are rpm, temp_c, current_a, voltage_v, vibration_g, speed_kph. */
  datatype Row = Row(dev: string, ts: real, metrics: seq<real>, lat: real, lon: real, flags: nat, state: nat)

  const METRICS := 6

  /** `CAST(ts/60 AS INTEGER)` */
  function Minute(r: Row): int { (r.ts / 60.0).Floor }

  // ------------------------------------------------------------ aggregation

  datatype Agg = Agg(n: nat, avg: seq<real>, min: seq<real>, max: seq<real>, lat: real, lon: real, flags: nat, state: nat)

  function Metric(r: Row, k: nat): real { if k < |r.metrics| then r.metrics[k] else 0.0 }

  function MetricAt(k: nat): Row -> real { (r: Row) => Metric(r, k) }

  function Lat(): Row -> real { (r: Row) => r.lat }

  function Lon(): Row -> real { (r: Row) => r.lon }

  function Flags(): Row -> nat { (r: Row) => r.flags }

  function StateCode(): Row -> nat { (r: Row) => r.state }

  function SumOf(f: Row -> real, rows: seq<Row>): real {
    if rows == [] then 0.0 else f(rows[0]) + SumOf(f, rows[1..])
  }

  function MinOf(f: Row -> real, rows: seq<Row>): real
    requires rows != []
  {
    if |rows| == 1 || f(rows[0]) <= MinOf(f, rows[1..]) then f(rows[0]) else MinOf(f, rows[1..])
  }

  function MaxOf(f: Row -> real, rows: seq<Row>): real
    requires rows != []
  {
    if |rows| == 1 || f(rows[0]) >= MaxOf(f, rows[1..]) then f(rows[0]) else MaxOf(f, rows[1..])
  }

  function MaxNat(f: Row -> nat, rows: seq<Row>): nat {
    if rows == [] then 0 else if f(rows[0]) >= MaxNat(f, rows[1..]) then f(rows[0]) else MaxNat(f, rows[1..])
  }

  function Words(rows: seq<Row>): (ws: seq<nat>)
    ensures |ws| == |rows| && forall i :: 0 <= i < |rows| ==> ws[i] == rows[i].flags
  {
    seq(|rows|, i requires 0 <= i < |rows| => rows[i].flags)
  }

  /** The aggregate row of a group: COUNT, AVG, MIN, MAX; fault flags are the MAX, not the OR. */
  function Aggregate(rows: seq<Row>): (a: Agg)
    requires rows != []
    ensures a.n == |rows|
  {
    Agg(|rows|,
        seq(METRICS, k requires 0 <= k => SumOf(MetricAt(k), rows) / |rows| as real),
        seq(METRICS, k requires 0 <= k => MinOf(MetricAt(k), rows)),
        seq(METRICS, k requires 0 <= k => MaxOf(MetricAt(k), rows)),
        SumOf(Lat(), rows) / |rows| as real, SumOf(Lon(), rows) / |rows| as real,
        MaxNat(Flags(), rows), MaxNat(StateCode(), rows))
  }

  lemma {:induction false} MinIsLeast(f: Row -> real, rows: seq<Row>)
    requires rows != []
    ensures (forall r :: r in rows ==> MinOf(f, rows) <= f(r)) && exists r :: r in rows && f(r) == MinOf(f, rows)
    decreases |rows|
  {
    assert rows == [rows[0]] + rows[1..];
    if |rows| > 1 {
      MinIsLeast(f, rows[1..]);
      var r :| r in rows[1..] && f(r) == MinOf(f, rows[1..]);
      assert r in rows;
    }
  }

  lemma {:induction false} MaxIsGreatest(f: Row -> real, rows: seq<Row>)
    requires rows != []
    ensures (forall r :: r in rows ==> f(r) <= MaxOf(f, rows)) && exists r :: r in rows && f(r) == MaxOf(f, rows)
    decreases |rows|
  {
    assert rows == [rows[0]] + rows[1..];
    if |rows| > 1 {
      MaxIsGreatest(f, rows[1..]);
      var r :| r in rows[1..] && f(r) == MaxOf(f, rows[1..]);
      assert r in rows;
    }
  }

  lemma {:induction false} SumBetween(f: Row -> real, rows: seq<Row>, lo: real, hi: real)
    requires forall r :: r in rows ==> lo <= f(r) <= hi
    ensures |rows| as real * lo <= SumOf(f, rows) <= |rows| as real * hi
    decreases |rows|
  {
    if rows != [] {
      SumBetween(f, rows[1..], lo, hi);
      assert rows[0] in rows;
      OneMore(|rows| - 1, lo);
      OneMore(|rows| - 1, hi);
    }
  }

  lemma OneMore(n: nat, x: real)
    ensures (n + 1) as real * x == n as real * x + x
  {}

  lemma DivideBy(n: real, lo: real, sum: real, hi: real)
    requires n > 0.0 && n * lo <= sum <= n * hi
    ensures lo <= sum / n <= hi
  {
    var q := sum / n;
    assert n * q == sum;
    MulLess(n, q, lo);
    MulLess(n, hi, q);
  }

  lemma MulLess(n: real, a: real, b: real)
    requires n > 0.0
    ensures a < b ==> n * a < n * b
  {}

  lemma {:induction false} MaxNatIsGreatest(f: Row -> nat, rows: seq<Row>)
    requires rows != []
    ensures (forall r :: r in rows ==> f(r) <= MaxNat(f, rows)) && exists r :: r in rows && f(r) == MaxNat(f, rows)
    decreases |rows|
  {
    assert rows == [rows[0]] + rows[1..];
    if |rows| > 1 {
      MaxNatIsGreatest(f, rows[1..]);
      var r :| r in rows[1..] && f(r) == MaxNat(f, rows[1..]);
      assert r in rows;
    }
  }

  lemma MaxOfWords(rows: seq<Row>)
    requires rows != []
    ensures MaxNat(Flags(), rows) in Words(rows) && forall w :: w in Words(rows) ==> w <= MaxNat(Flags(), rows)
  {
    MaxNatIsGreatest(Flags(), rows);
    hide MaxNat;
    var (m, ws) := (MaxNat(Flags(), rows), Words(rows));
    forall w | w in ws ensures w <= m {
      var j :| 0 <= j < |ws| && ws[j] == w;
      assert rows[j] in rows && Flags()(rows[j]) == w;
    }
    var top :| top in rows && Flags()(top) == m;
    var j :| 0 <= j < |rows| && rows[j] == top;
    assert ws[j] == m;
  }

  /**
   * The stored flags are those of one row; they are the flags of all rows together, as their name
   * says, if and only if one row of the minute had them all at once.
   */
  lemma FlagsAnyIff(rows: seq<Row>)
    requires rows != []
    ensures var (ws, a) := (Words(rows), Aggregate(rows));
            && a.flags in ws
            && (a.flags == FlagWords.Any(ws) <==> exists v :: v in ws && forall w :: w in ws ==> FlagWords.Within(w, v))
  {
    hide FlagWords.Any, FlagWords.Within, MinOf, MaxOf, SumOf, MaxNat, Words;
    MaxOfWords(rows);
    FlagWords.MaxIsAnyIff(Words(rows), MaxNat(Flags(), rows));
  }

  /** An average lies between the least and the greatest of what it averages. */
  lemma AverageBetween(f: Row -> real, rows: seq<Row>)
    requires rows != []
    ensures MinOf(f, rows) <= SumOf(f, rows) / |rows| as real <= MaxOf(f, rows)
  {
    MinIsLeast(f, rows);
    MaxIsGreatest(f, rows);
    SumBetween(f, rows, MinOf(f, rows), MaxOf(f, rows));
    DivideBy(|rows| as real, MinOf(f, rows), SumOf(f, rows), MaxOf(f, rows));
  }

  predicate Spans(f: Row -> real, rows: seq<Row>, lo: real, hi: real) {
    && (forall r :: r in rows ==> lo <= f(r) <= hi)
    && (exists r :: r in rows && f(r) == lo) && (exists r :: r in rows && f(r) == hi)
  }

  /** What a stored row says of its minute: attained bounds of each metric, with the average between them. */
  lemma AggregateMeans(rows: seq<Row>, k: nat)
    requires rows != [] && k < METRICS
    ensures var a := Aggregate(rows);
            && a.n == |rows| && |a.avg| == |a.min| == |a.max| == 6
            && Spans(MetricAt(k), rows, a.min[k], a.max[k]) && a.min[k] <= a.avg[k] <= a.max[k]
            && a.avg[k] == SumOf(MetricAt(k), rows) / a.n as real
  {
    var f := MetricAt(k);
    MinIsLeast(f, rows);
    MaxIsGreatest(f, rows);
    hide MinOf, MaxOf, SumOf, MaxNat, MetricAt;
    AverageBetween(f, rows);
  }

  /** The position is an average within the minute's extent; the state is an attained maximum. */
  lemma AggregatePlace(rows: seq<Row>)
    requires rows != []
    ensures var a := Aggregate(rows);
            && MinOf(Lat(), rows) <= a.lat <= MaxOf(Lat(), rows) && MinOf(Lon(), rows) <= a.lon <= MaxOf(Lon(), rows)
            && a.lat == SumOf(Lat(), rows) / a.n as real && a.lon == SumOf(Lon(), rows) / a.n as real
            && Spans(Lat(), rows, MinOf(Lat(), rows), MaxOf(Lat(), rows)) && Spans(Lon(), rows, MinOf(Lon(), rows), MaxOf(Lon(), rows))
            && (forall r :: r in rows ==> r.state <= a.state) && (exists r :: r in rows && r.state == a.state)
  {
    MinIsLeast(Lat(), rows);
    MaxIsGreatest(Lat(), rows);
    MinIsLeast(Lon(), rows);
    MaxIsGreatest(Lon(), rows);
    MaxNatIsGreatest(StateCode(), rows);
    hide MinOf, MaxOf, SumOf, MaxNat, MetricAt;
    AverageBetween(Lat(), rows);
    AverageBetween(Lon(), rows);
    var q :| q in rows && StateCode()(q) == MaxNat(StateCode(), rows);
    assert q.state == MaxNat(StateCode(), rows);
  }

  predicate Belongs(r: Row, dev: string, m: int) { r.dev == dev && Minute(r) == m }

  /** The group of a device and a minute, in insertion order. */
  function Pick(rows: seq<Row>, dev: string, m: int): seq<Row> {
    if rows == [] then [] else (if Belongs(rows[0], dev, m) then [rows[0]] else []) + Pick(rows[1..], dev, m)
  }

  // ------------------------------------------------------------ the store and its operations

  type Key = (string, int)

  /** `hist` is history: every row ever flushed, none pruned. */
  datatype Store = Store(buf: seq<Row>, tel: seq<Row>, roll: map<Key, Agg>, upto: int, hist: seq<Row>)

  const EMPTY := Store([], [], map[], 0, [])

  datatype Op = Buffer(row: Row) | Flush | Roll(now: real) | Prune(cutoff: real)

  function Kept(rows: seq<Row>, cutoff: real): seq<Row> {
    if rows == [] then [] else (if rows[0].ts < cutoff then [] else [rows[0]]) + Kept(rows[1..], cutoff)
  }

  function End(now: real): int { (now / 60.0).Floor }

  /** The groups of the raw rows in the minutes `[lo, hi)`. */
  function Groups(rows: seq<Row>, lo: int, hi: int): set<Key> {
    set r | r in rows && lo <= Minute(r) < hi :: (r.dev, Minute(r))
  }

  lemma {:induction false} PickSome(rows: seq<Row>, dev: string, m: int)
    ensures Pick(rows, dev, m) != [] <==> exists r :: r in rows && Belongs(r, dev, m)
    ensures forall r :: r in Pick(rows, dev, m) <==> r in rows && Belongs(r, dev, m)
    decreases |rows|
  {
    hide Minute;
    if rows != [] {
      PickSome(rows[1..], dev, m);
      assert rows == [rows[0]] + rows[1..];
      assert Belongs(rows[0], dev, m) ==> rows[0] in Pick(rows, dev, m);
    }
  }

  function RolledUp(rows: seq<Row>, lo: int, hi: int): map<Key, Agg> {
    map k | k in Groups(rows, lo, hi) :: (PickSome(rows, k.0, k.1); Aggregate(Pick(rows, k.0, k.1)))
  }

  function Next(s: Store, op: Op): Store {
    match op
    case Buffer(row) => s.(buf := s.buf + [row])
    case Flush => s.(buf := [], tel := s.tel + s.buf, hist := s.hist + s.buf)
    case Roll(now) =>
      if End(now) <= s.upto then s
      else s.(roll := s.roll + RolledUp(s.tel, s.upto, End(now)), upto := End(now))
    case Prune(cutoff) => s.(tel := Kept(s.tel, cutoff))
  }

  // ------------------------------------------------------------ queries

  type Line = (int, Agg)

  /** `GROUP BY` minute `ORDER BY` minute over the raw rows of a device in `[lo, hi)`. */
  function AggSeq(rows: seq<Row>, dev: string, lo: int, hi: int): seq<Line>
    decreases hi - lo
  {
    if lo >= hi then []
    else
      var g := Pick(rows, dev, lo);
      (if g == [] then [] else [(lo, Aggregate(g))]) + AggSeq(rows, dev, lo + 1, hi)
  }

  /** The rollup rows of a device in `[lo, hi)`, by bucket. */
  function RollSeq(roll: map<Key, Agg>, dev: string, lo: int, hi: int): seq<Line>
    decreases hi - lo
  {
    if lo >= hi then []
    else (if (dev, lo) in roll then [(lo, roll[(dev, lo)])] else []) + RollSeq(roll, dev, lo + 1, hi)
  }

  function Newest(lines: seq<Line>, limit: nat): seq<Line> {
    if |lines| > limit then lines[|lines| - limit..] else lines
  }

  function Clamp(limit: int): (n: nat)
    ensures 1 <= n <= 20000 && (1 <= limit <= 20000 ==> n == limit) && (limit < 1 ==> n == 1) && (limit > 20000 ==> n == 20000)
  {
    if limit < 1 then 1 else if limit > 20000 then 20000 else limit
  }

  /** `telemetry(step="1m")`: stored buckets from one before `since`, then the raw tail on the fly. */
  function View1m(s: Store, dev: string, since: int, until: int, limit: int): seq<Line> {
    var n := Clamp(limit);
    var rows := Newest(RollSeq(s.roll, dev, since - 1, until), n);
    var next := if rows == [] then since else rows[|rows| - 1].0 + 1;
    Newest(rows + AggSeq(s.tel, dev, if next > since then next else since, until), n)
  }

  /** The `Database` object: each method is one transaction. */
  class Database {
    var buf: seq<Row>
    var tel: seq<Row>
    var roll: map<Key, Agg>
    var upto: int
    ghost var hist: seq<Row>

    ghost function View(): Store
      reads this
    {
      Store(buf, tel, roll, upto, hist)
    }

    constructor ()
      ensures View() == EMPTY
    {
      buf, tel, roll, upto, hist := [], [], map[], 0, [];
    }

    method BufferTelemetry(row: Row)
      modifies this
      ensures View() == Next(old(View()), Buffer(row))
    {
      buf := buf + [row];
    }

    method FlushBuffer() returns (n: nat)
      modifies this
      ensures View() == Next(old(View()), Flush) && n == |old(buf)|
    {
      var rows := buf;
      buf := [];
      hist := hist + rows;
      if |rows| == 0 {
        assert tel + rows == tel && hist == old(hist);
        return 0;
      }
      tel := tel + rows;
      n := |rows|;
    }

    method RollUp(now: real) returns (n: nat)
      modifies this
      ensures View() == Next(old(View()), Roll(now))
      ensures n == if End(now) <= old(upto) then 0 else |Groups(tel, old(upto), End(now))|
    {
      var end := End(now);
      if end <= upto {
        return 0;
      }
      n := |Groups(tel, upto, end)|;
      roll := roll + RolledUp(tel, upto, end);
      upto := end;
    }

    method PruneOlder(cutoff: real)
      modifies this
      ensures View() == Next(old(View()), Prune(cutoff))
    {
      tel := Kept(tel, cutoff);
    }
  }

  // ------------------------------------------------------------ the invariant and its exact guards

  /** Every bucket below `rollup_upto` aggregates exactly the flushed rows of its minute. */
  ghost predicate RollExact(s: Store) {
    && (forall d: string, m: int :: (d, m) in s.roll ==> m < s.upto)
    && (forall d: string, m: int :: m < s.upto ==> ((d, m) in s.roll <==> Pick(s.hist, d, m) != []))
    && (forall d: string, m: int :: (d, m) in s.roll ==> Pick(s.hist, d, m) != [] && s.roll[(d, m)] == Aggregate(Pick(s.hist, d, m)))
  }

  /** From `rollup_upto` on, the raw table holds exactly the flushed rows. */
  ghost predicate TailExact(s: Store) {
    && (forall d: string, m: int :: m >= s.upto ==> Pick(s.tel, d, m) == Pick(s.hist, d, m))
    && (forall r :: r in s.tel ==> r in s.hist)
  }

  ghost predicate Inv(s: Store) { RollExact(s) && TailExact(s) }

  /** Checked before the operation: no row arrives for a rolled minute, none is cut before its rollup. */
  predicate Safe(s: Store, op: Op) {
    match op
    case Flush => forall r :: r in s.buf ==> Minute(r) >= s.upto
    case Prune(cutoff) => forall r :: r in s.tel && r.ts < cutoff ==> Minute(r) < s.upto
    case _ => true
  }

  lemma PickCons(rows: seq<Row>, d: string, m: int)
    requires rows != []
    ensures Pick(rows, d, m) == (if Belongs(rows[0], d, m) then [rows[0]] else []) + Pick(rows[1..], d, m)
  {
    hide Belongs;
  }

  lemma Associate(a: seq<Row>, b: seq<Row>, c: seq<Row>)
    ensures (a + b) + c == a + (b + c)
  {}

  lemma {:induction false} PickAppend(a: seq<Row>, b: seq<Row>, d: string, m: int)
    ensures Pick(a + b, d, m) == Pick(a, d, m) + Pick(b, d, m)
    decreases |a|
  {
    if a == [] {
      assert a + b == b;
    } else {
      var head := if Belongs(a[0], d, m) then [a[0]] else [];
      PickCons(a, d, m);
      PickCons(a + b, d, m);
      assert (a + b)[1..] == a[1..] + b;
      PickAppend(a[1..], b, d, m);
      hide Pick, Belongs;
      Associate(head, Pick(a[1..], d, m), Pick(b, d, m));
    }
  }

  lemma {:induction false} KeptRows(rows: seq<Row>, cutoff: real)
    ensures forall r :: r in Kept(rows, cutoff) <==> r in rows && r.ts >= cutoff
    decreases |rows|
  {
    if rows != [] {
      KeptRows(rows[1..], cutoff);
      assert rows == [rows[0]] + rows[1..];
    }
  }

  lemma {:induction false} KeptPick(rows: seq<Row>, cutoff: real, d: string, m: int)
    requires forall r :: r in rows && Belongs(r, d, m) ==> r.ts >= cutoff
    ensures Pick(Kept(rows, cutoff), d, m) == Pick(rows, d, m)
    decreases |rows|
  {
    if rows != [] {
      assert rows == [rows[0]] + rows[1..];
      KeptPick(rows[1..], cutoff, d, m);
      PickAppend(if rows[0].ts < cutoff then [] else [rows[0]], Kept(rows[1..], cutoff), d, m);
      assert Pick([rows[0]], d, m) == if Belongs(rows[0], d, m) then [rows[0]] else [];
    }
  }

  lemma FlushIff(s: Store)
    requires Inv(s)
    ensures Inv(Next(s, Flush)) <==> Safe(s, Flush)
  {
    var t := Next(s, Flush);
    forall d, m ensures Pick(t.hist, d, m) == Pick(s.hist, d, m) + Pick(s.buf, d, m)
                     && Pick(t.tel, d, m) == Pick(s.tel, d, m) + Pick(s.buf, d, m) {
      PickAppend(s.hist, s.buf, d, m);
      PickAppend(s.tel, s.buf, d, m);
    }
    if Safe(s, Flush) {
      forall d, m | m < s.upto ensures Pick(t.hist, d, m) == Pick(s.hist, d, m) {
        PickSome(s.buf, d, m);
      }
    } else {
      var r :| r in s.buf && Minute(r) < s.upto;
      PickSome(s.buf, r.dev, Minute(r));
      assert Belongs(r, r.dev, Minute(r));
      assert |Pick(t.hist, r.dev, Minute(r))| > |Pick(s.hist, r.dev, Minute(r))|;
      assert !RollExact(t);
    }
  }

  lemma PruneIff(s: Store, cutoff: real)
    requires Inv(s)
    ensures Inv(Next(s, Prune(cutoff))) <==> Safe(s, Prune(cutoff))
  {
    var t := Next(s, Prune(cutoff));
    KeptRows(s.tel, cutoff);
    if Safe(s, Prune(cutoff)) {
      forall d, m | m >= s.upto ensures Pick(t.tel, d, m) == Pick(s.tel, d, m) {
        KeptPick(s.tel, cutoff, d, m);
      }
    } else {
      var r :| r in s.tel && r.ts < cutoff && Minute(r) >= s.upto;
      PickSome(s.tel, r.dev, Minute(r));
      PickSome(t.tel, r.dev, Minute(r));
      assert Belongs(r, r.dev, Minute(r));
      assert r in Pick(s.tel, r.dev, Minute(r)) && r !in Pick(t.tel, r.dev, Minute(r));
    }
  }

  /** A rollup only adds buckets that were not there: the REPLACE never replaces. */
  lemma RollAddsOnly(s: Store, now: real)
    requires Inv(s)
    ensures Inv(Next(s, Roll(now)))
    ensures RolledUp(s.tel, s.upto, End(now)).Keys !! s.roll.Keys
  {
    var t := Next(s, Roll(now));
    var add := RolledUp(s.tel, s.upto, End(now));
    forall d, m | (d, m) in add ensures s.upto <= m < End(now) && Pick(s.tel, d, m) != [] && add[(d, m)] == Aggregate(Pick(s.tel, d, m)) {
      PickSome(s.tel, d, m);
    }
    forall d, m | s.upto <= m < End(now) ensures (d, m) in add <==> Pick(s.hist, d, m) != [] {
      PickSome(s.tel, d, m);
      if Pick(s.tel, d, m) != [] {
        var r :| r in s.tel && Belongs(r, d, m);
        assert (r.dev, Minute(r)) in Groups(s.tel, s.upto, End(now));
      }
    }
  }

  /** From a good state an operation leads to a good state exactly when its guard holds. */
  lemma StepIff(s: Store, op: Op)
    requires Inv(s)
    ensures Inv(Next(s, op)) <==> Safe(s, op)
  {
    hide Pick, Inv;
    match op
    case Buffer(row) => BufferKeeps(s, row);
    case Flush => FlushIff(s);
    case Roll(now) => RollAddsOnly(s, now);
    case Prune(cutoff) => PruneIff(s, cutoff);
  }

  lemma BufferKeeps(s: Store, row: Row)
    requires Inv(s)
    ensures Inv(Next(s, Buffer(row)))
  {}

  // ------------------------------------------------------------ runs

  function Run(ops: seq<Op>): Store {
    if ops == [] then EMPTY else Next(Run(ops[..|ops| - 1]), ops[|ops| - 1])
  }

  /** Rows arrive in minutes not rolled yet, a flush precedes each boundary, retention stays behind it. */
  predicate Prompt(s: Store, op: Op) {
    match op
    case Buffer(row) => Minute(row) >= s.upto
    case Flush => true
    case Roll(now) => forall r :: r in s.buf ==> Minute(r) >= End(now)
    case Prune(cutoff) => cutoff <= 60.0 * s.upto as real
  }

  predicate PromptRun(ops: seq<Op>) {
    forall i :: 0 <= i < |ops| ==> Prompt(Run(ops[..i]), ops[i])
  }

  lemma PrunedBelow(r: Row, upto: int)
    ensures r.ts < 60.0 * upto as real ==> Minute(r) < upto
  {
    if r.ts < 60.0 * upto as real {
      assert r.ts / 60.0 < upto as real;
    }
  }

  lemma EmptyInv()
    ensures Inv(EMPTY) && Safe(EMPTY, Flush)
  {}

  lemma {:induction false} PromptRunsAreExact(ops: seq<Op>)
    requires PromptRun(ops)
    ensures Inv(Run(ops)) && Safe(Run(ops), Flush)
    decreases |ops|
  {
    hide Inv, Next, Prompt, Safe;
    if ops == [] {
      EmptyInv();
    } else {
      var f, op := ops[..|ops| - 1], ops[|ops| - 1];
      assert PromptRun(f) by {
        assert forall i :: 0 <= i < |f| ==> f[..i] == ops[..i] && f[i] == ops[i];
      }
      PromptRunsAreExact(f);
      PromptStep(Run(f), op);
    }
  }

  lemma PromptStep(s: Store, op: Op)
    requires Inv(s) && Safe(s, Flush) && Prompt(s, op)
    ensures Inv(Next(s, op)) && Safe(Next(s, op), Flush)
  {
    hide Inv, RolledUp, Kept;
    if op.Prune? {
      forall r | r in s.tel && r.ts < op.cutoff ensures Minute(r) < s.upto {
        PrunedBelow(r, s.upto);
      }
    }
    StepIff(s, op);
  }

  // ------------------------------------------------------------ the view

  lemma {:induction false} AggSplit(rows: seq<Row>, dev: string, lo: int, mid: int, hi: int)
    requires lo <= mid <= hi
    ensures AggSeq(rows, dev, lo, hi) == AggSeq(rows, dev, lo, mid) + AggSeq(rows, dev, mid, hi)
    decreases mid - lo
  {
    hide Aggregate, Pick;
    if lo == mid {
      assert AggSeq(rows, dev, lo, mid) == [];
    } else {
      AggSplit(rows, dev, lo + 1, mid, hi);
      var g := Pick(rows, dev, lo);
      var head := if g == [] then [] else [(lo, Aggregate(g))];
      assert head + (AggSeq(rows, dev, lo + 1, mid) + AggSeq(rows, dev, mid, hi))
          == head + AggSeq(rows, dev, lo + 1, mid) + AggSeq(rows, dev, mid, hi);
    }
  }

  lemma {:induction false} RollSplit(roll: map<Key, Agg>, dev: string, lo: int, mid: int, hi: int)
    requires lo <= mid <= hi
    ensures RollSeq(roll, dev, lo, hi) == RollSeq(roll, dev, lo, mid) + RollSeq(roll, dev, mid, hi)
    decreases mid - lo
  {
    if lo < mid {
      RollSplit(roll, dev, lo + 1, mid, hi);
    }
  }

  lemma {:induction false} RollIsHistory(s: Store, dev: string, lo: int, hi: int)
    requires RollExact(s) && hi <= s.upto
    ensures RollSeq(s.roll, dev, lo, hi) == AggSeq(s.hist, dev, lo, hi)
    decreases hi - lo
  {
    hide Pick, Aggregate;
    if lo < hi {
      RollIsHistory(s, dev, lo + 1, hi);
    }
  }

  lemma {:induction false} RollEnds(s: Store, dev: string, lo: int, hi: int)
    requires RollExact(s) && lo >= s.upto
    ensures RollSeq(s.roll, dev, lo, hi) == []
    decreases hi - lo
  {
    hide Pick, Aggregate;
    if lo < hi {
      RollEnds(s, dev, lo + 1, hi);
    }
  }

  /** Where the rolled buckets of a range end, and that nothing is rolled after that. */
  lemma {:induction false} LastRolled(roll: map<Key, Agg>, dev: string, lo: int, hi: int)
    ensures var rows := RollSeq(roll, dev, lo, hi);
            if rows == [] then forall m :: lo <= m < hi ==> (dev, m) !in roll
            else lo <= rows[|rows| - 1].0 < hi && (dev, rows[|rows| - 1].0) in roll && forall m :: rows[|rows| - 1].0 < m < hi ==> (dev, m) !in roll
    decreases hi - lo
  {
    if lo < hi {
      LastRolled(roll, dev, lo + 1, hi);
    }
  }

  /** A good range is rolled buckets up to `mid` and raw rows from there. */
  lemma HistoryIsBoth(s: Store, dev: string, lo: int, mid: int, hi: int)
    requires Inv(s) && lo <= mid <= hi
    requires forall m :: mid <= m < hi ==> (dev, m) !in s.roll
    requires mid <= s.upto || RollSeq(s.roll, dev, lo, mid) == AggSeq(s.hist, dev, lo, mid)
    ensures RollSeq(s.roll, dev, lo, hi) + AggSeq(s.tel, dev, mid, hi) == AggSeq(s.hist, dev, lo, hi)
  {
    hide RollExact, AggSeq, RollSeq, Pick, Aggregate;
    if mid <= s.upto {
      RollIsHistory(s, dev, lo, mid);
    }
    RollSplit(s.roll, dev, lo, mid, hi);
    NothingRolled(s.roll, dev, mid, hi);
    TailRange(s, dev, mid, hi);
    AggSplit(s.hist, dev, lo, mid, hi);
  }

  lemma {:induction false} NothingRolled(roll: map<Key, Agg>, dev: string, lo: int, hi: int)
    requires forall m :: lo <= m < hi ==> (dev, m) !in roll
    ensures RollSeq(roll, dev, lo, hi) == []
    decreases hi - lo
  {
    if lo < hi {
      NothingRolled(roll, dev, lo + 1, hi);
    }
  }

  lemma {:induction false} TailRange(s: Store, dev: string, lo: int, hi: int)
    requires Inv(s)
    requires forall m :: lo <= m < hi ==> (dev, m) !in s.roll
    ensures AggSeq(s.tel, dev, lo, hi) == AggSeq(s.hist, dev, lo, hi)
    decreases hi - lo
  {
    hide Pick, Aggregate;
    if lo < hi {
      if lo < s.upto {
        PickSome(s.tel, dev, lo);
        PickSome(s.hist, dev, lo);
      }
      TailRange(s, dev, lo + 1, hi);
    }
  }

  /**
   * What a minute-aligned range should show: an optional row for the minute before `since`, then
   * exactly the aggregated minutes of `[since, until)` of the full, unpruned history.
   */
  function Expected(s: Store, dev: string, since: int, until: int): seq<Line> {
    if since <= until then RollSeq(s.roll, dev, since - 1, since) + AggSeq(s.hist, dev, since, until) else []
  }

  /**
   * For every good state, every minute-aligned range and every limit, the 1m view is the newest
   * rows of what the range should show, although the code cuts twice: first the stored buckets,
   * then the joined list.
   */
  lemma ViewIsHistory(s: Store, dev: string, since: int, until: int, limit: int)
    requires Inv(s)
    ensures View1m(s, dev, since, until, limit) == Newest(Expected(s, dev, since, until), Clamp(limit))
  {
    hide AggSeq, RollSeq, Inv, Newest, Clamp;
    if since > until {
      NothingInBetween(s, dev, since, until);
      NewestOfNone(Clamp(limit));
    } else {
      Seam(s, dev, since, until);
      var (all, n) := (RollSeq(s.roll, dev, since - 1, until), Clamp(limit));
      NewestLast(all, n);
      var next := if all == [] then since else all[|all| - 1].0 + 1;
      CutTwice(all, AggSeq(s.tel, dev, if next > since then next else since, until), n);
    }
  }

  lemma NewestOfNone(n: nat)
    ensures Newest([], n) == [] && Newest([] + [], n) == []
  {}

  lemma NothingInBetween(s: Store, dev: string, since: int, until: int)
    requires since > until
    ensures RollSeq(s.roll, dev, since - 1, until) == [] && forall m :: m >= since ==> AggSeq(s.tel, dev, m, until) == []
  {}

  lemma NewestLast(a: seq<Line>, n: nat)
    requires n >= 1
    ensures a == [] ==> Newest(a, n) == []
    ensures a != [] ==> Newest(a, n) != [] && Newest(a, n)[|Newest(a, n)| - 1] == a[|a| - 1]
  {}

  lemma CutTwice(a: seq<Line>, b: seq<Line>, n: nat)
    ensures Newest(Newest(a, n) + b, n) == Newest(a + b, n)
  {}

  /** When the limit is not reached the view is all of it. */
  lemma WholeView(s: Store, dev: string, since: int, until: int, limit: int)
    requires Inv(s) && since <= until && |AggSeq(s.hist, dev, since - 1, until)| <= Clamp(limit)
    ensures View1m(s, dev, since, until, limit)
         == RollSeq(s.roll, dev, since - 1, since) + AggSeq(s.hist, dev, since, until)
  {
    hide AggSeq, RollSeq, Inv, View1m;
    ViewIsHistory(s, dev, since, until, limit);
    FrontFits(s, dev, since, until);
  }

  /** The stored buckets and the raw tail from where they end, put together. */
  lemma Seam(s: Store, dev: string, since: int, until: int)
    requires Inv(s) && since <= until
    ensures var all := RollSeq(s.roll, dev, since - 1, until);
            var next := if all == [] then since else all[|all| - 1].0 + 1;
            all + AggSeq(s.tel, dev, if next > since then next else since, until)
              == RollSeq(s.roll, dev, since - 1, since) + AggSeq(s.hist, dev, since, until)
  {
    hide AggSeq, RollSeq, Inv, Pick, Aggregate, RollExact, TailExact;
    var all := RollSeq(s.roll, dev, since - 1, until);
    LastRolled(s.roll, dev, since - 1, until);
    RollSplit(s.roll, dev, since - 1, since, until);
    var next := if all == [] then since else all[|all| - 1].0 + 1;
    var mid := if next > since then next else since;
    InvIsBoth(s);
    RolledBelow(s, dev, since, mid);
    HistoryIsBoth(s, dev, since, mid, until);
    Assemble(RollSeq(s.roll, dev, since - 1, since), RollSeq(s.roll, dev, since, until), AggSeq(s.tel, dev, mid, until));
  }

  lemma Assemble(a: seq<Line>, b: seq<Line>, c: seq<Line>)
    ensures (a + b) + c == a + (b + c)
  {}

  lemma InvIsBoth(s: Store)
    requires Inv(s)
    ensures RollExact(s) && TailExact(s)
  {}

  /** If `mid` is just past a rolled bucket it is at most `rollup_upto`. */
  lemma RolledBelow(s: Store, dev: string, since: int, mid: int)
    requires RollExact(s) && since <= mid && (mid > since ==> (dev, mid - 1) in s.roll)
    ensures mid <= s.upto || RollSeq(s.roll, dev, since, mid) == AggSeq(s.hist, dev, since, mid)
  {}

  lemma FrontFits(s: Store, dev: string, since: int, until: int)
    requires Inv(s) && since <= until
    ensures |RollSeq(s.roll, dev, since - 1, since)| + |AggSeq(s.hist, dev, since, until)|
         <= |AggSeq(s.hist, dev, since - 1, until)|
  {
    AggSplit(s.hist, dev, since - 1, since, until);
    if since <= s.upto {
      RollIsHistory(s, dev, since - 1, since);
    } else {
      RollEnds(s, dev, since - 1, since);
    }
  }

  /** Strictly increasing, hence distinct, buckets within a range. */
  predicate Ascending(a: seq<Line>, lo: int, hi: int) {
    && (forall i :: 0 <= i < |a| ==> lo <= a[i].0 < hi)
    && (forall i, j :: 0 <= i < j < |a| ==> a[i].0 < a[j].0)
  }

  lemma AscendingCons(x: Line, a: seq<Line>, lo: int, hi: int)
    requires Ascending(a, lo + 1, hi) && x.0 == lo < hi
    ensures Ascending([x] + a, lo, hi)
  {}

  lemma {:induction false} AggAscends(rows: seq<Row>, dev: string, lo: int, hi: int)
    ensures Ascending(AggSeq(rows, dev, lo, hi), lo, hi)
    decreases hi - lo
  {
    hide Aggregate, Pick;
    if lo < hi {
      AggAscends(rows, dev, lo + 1, hi);
      var g := Pick(rows, dev, lo);
      if g == [] {
        assert [] + AggSeq(rows, dev, lo + 1, hi) == AggSeq(rows, dev, lo + 1, hi);
      } else {
        AscendingCons((lo, Aggregate(g)), AggSeq(rows, dev, lo + 1, hi), lo, hi);
      }
    }
  }

  lemma {:induction false} RollAscends(roll: map<Key, Agg>, dev: string, lo: int, hi: int)
    ensures Ascending(RollSeq(roll, dev, lo, hi), lo, hi)
    decreases hi - lo
  {
    if lo < hi {
      RollAscends(roll, dev, lo + 1, hi);
      if (dev, lo) in roll {
        AscendingCons((lo, roll[(dev, lo)]), RollSeq(roll, dev, lo + 1, hi), lo, hi);
      } else {
        assert [] + RollSeq(roll, dev, lo + 1, hi) == RollSeq(roll, dev, lo + 1, hi);
      }
    }
  }

  /** Whatever the limit, the view's buckets are strictly increasing and distinct. */
  lemma ViewAscends(s: Store, dev: string, since: int, until: int, limit: int)
    requires Inv(s)
    ensures Ascending(View1m(s, dev, since, until, limit), since - 1, until)
  {
    hide AggSeq, RollSeq, Inv, View1m;
    ViewIsHistory(s, dev, since, until, limit);
    RollAscends(s.roll, dev, since - 1, since);
    AggAscends(s.hist, dev, since, until);
    assert Ascending(Expected(s, dev, since, until), since - 1, until);
  }

  // ------------------------------------------------------------ conservation

  /** The rows of a device in the minutes `[lo, hi)`, counted one by one. */
  function Count(rows: seq<Row>, dev: string, lo: int, hi: int): nat {
    if rows == [] then 0
    else (if rows[0].dev == dev && lo <= Minute(rows[0]) < hi then 1 else 0) + Count(rows[1..], dev, lo, hi)
  }

  function Total(lines: seq<Line>): nat {
    if lines == [] then 0 else lines[0].1.n + Total(lines[1..])
  }

  lemma {:induction false} CountSplit(rows: seq<Row>, dev: string, lo: int, hi: int)
    requires lo < hi
    ensures Count(rows, dev, lo, hi) == |Pick(rows, dev, lo)| + Count(rows, dev, lo + 1, hi)
    decreases |rows|
  {
    if rows != [] {
      CountSplit(rows[1..], dev, lo, hi);
    }
  }

  lemma {:induction false} CountNone(rows: seq<Row>, dev: string, lo: int, hi: int)
    requires lo >= hi
    ensures Count(rows, dev, lo, hi) == 0
    decreases |rows|
  {
    if rows != [] {
      CountNone(rows[1..], dev, lo, hi);
    }
  }

  /** Every row of the range is counted in exactly one bucket. */
  lemma {:induction false} CountedOnce(rows: seq<Row>, dev: string, lo: int, hi: int)
    ensures Total(AggSeq(rows, dev, lo, hi)) == Count(rows, dev, lo, hi)
    decreases hi - lo
  {
    hide Pick;
    if lo >= hi {
      CountNone(rows, dev, lo, hi);
    } else {
      CountedOnce(rows, dev, lo + 1, hi);
      CountSplit(rows, dev, lo, hi);
      var g, rest := Pick(rows, dev, lo), AggSeq(rows, dev, lo + 1, hi);
      if g == [] {
        assert [] + rest == rest;
      } else {
        assert ([(lo, Aggregate(g))] + rest)[1..] == rest;
      }
    }
  }

  // ------------------------------------------------------------ runs, read off their operations alone

  /** Every row handed to the store, in order. */
  function Given(ops: seq<Op>): seq<Row> {
    if ops == [] then []
    else Given(ops[..|ops| - 1]) + match ops[|ops| - 1] case Buffer(row) => [row] case _ => []
  }

  /** Those handed over before the last flush. */
  function Flushed(ops: seq<Op>): seq<Row> {
    if ops == [] then [] else if ops[|ops| - 1].Flush? then Given(ops) else Flushed(ops[..|ops| - 1])
  }

  /** The minute up to which everything has been rolled. */
  function Boundary(ops: seq<Op>): int {
    if ops == [] then 0
    else
      var (b, op) := (Boundary(ops[..|ops| - 1]), ops[|ops| - 1]);
      if op.Roll? && End(op.now) > b then End(op.now) else b
  }

  /** The store loses no row before it is flushed: flushed and buffered rows are those handed over. */
  lemma {:induction false} RunKeepsRows(ops: seq<Op>)
    ensures Run(ops).hist == Flushed(ops) && Run(ops).hist + Run(ops).buf == Given(ops) && Run(ops).upto == Boundary(ops)
    decreases |ops|
  {
    if ops != [] {
      hide RolledUp, Kept, End;
      RunKeepsRows(ops[..|ops| - 1]);
      var (s, op) := (Run(ops[..|ops| - 1]), ops[|ops| - 1]);
      if op.Buffer? {
        assert s.hist + (s.buf + [op.row]) == (s.hist + s.buf) + [op.row];
      } else {
        assert Given(ops) == Given(ops[..|ops| - 1]) + [];
      }
    }
  }

  /** Rows arrive in minutes not rolled yet, a flush precedes each boundary, retention stays behind it. */
  ghost predicate OnTime(ops: seq<Op>) {
    forall i :: 0 <= i < |ops| ==> OnTimeAt(ops[..i], ops[i])
  }

  ghost predicate OnTimeAt(before: seq<Op>, op: Op) {
    match op
    case Buffer(row) => Minute(row) >= Boundary(before)
    case Flush => true
    case Roll(now) => forall i :: |Flushed(before)| <= i < |Given(before)| ==> Minute(Given(before)[i]) >= End(now)
    case Prune(cutoff) => cutoff <= 60.0 * Boundary(before) as real
  }

  lemma OnTimeIsPrompt(ops: seq<Op>)
    requires OnTime(ops)
    ensures PromptRun(ops)
  {
    forall i | 0 <= i < |ops| ensures Prompt(Run(ops[..i]), ops[i]) {
      RunKeepsRows(ops[..i]);
      assert OnTimeAt(ops[..i], ops[i]);
      var s := Run(ops[..i]);
      hide Run, Given, Flushed, Boundary, Minute;
      forall r | r in s.buf && ops[i].Roll? ensures Minute(r) >= End(ops[i].now) {
        var k :| 0 <= k < |s.buf| && s.buf[k] == r;
        assert Given(ops[..i])[|s.hist| + k] == r;
      }
    }
  }

  /** What a minute-aligned range of the flushed rows should show: its minutes, and the one before if it was rolled. */
  function Shown(rows: seq<Row>, boundary: int, dev: string, since: int, until: int): seq<Line> {
    if since > until then []
    else (if since <= boundary then AggSeq(rows, dev, since - 1, since) else []) + AggSeq(rows, dev, since, until)
  }

  /**
   * On every run that flushes before each boundary and prunes behind it, the 1m view of any
   * minute-aligned range is the newest rows of the aggregation of every row handed to the store
   * before the last flush, and its buckets strictly increase.
   */
  lemma PromptViews(ops: seq<Op>, dev: string, since: int, until: int, limit: int)
    requires OnTime(ops)
    ensures View1m(Run(ops), dev, since, until, limit)
         == Newest(Shown(Flushed(ops), Boundary(ops), dev, since, until), Clamp(limit))
    ensures Ascending(View1m(Run(ops), dev, since, until, limit), since - 1, until)
  {
    hide Inv, View1m, Run, PromptRun, OnTime, Flushed, Boundary, Newest, Shown, Expected, Ascending;
    OnTimeIsPrompt(ops);
    RunKeepsRows(ops);
    PromptRunsAreExact(ops);
    ViewIsHistory(Run(ops), dev, since, until, limit);
    ViewAscends(Run(ops), dev, since, until, limit);
    ShownIsExpected(Run(ops), dev, since, until);
  }

  lemma ShownIsExpected(s: Store, dev: string, since: int, until: int)
    requires Inv(s)
    ensures Expected(s, dev, since, until) == Shown(s.hist, s.upto, dev, since, until)
  {
    hide AggSeq, RollSeq, RollExact, TailExact;
    if since <= s.upto {
      RollIsHistory(s, dev, since - 1, since);
    } else {
      RollEnds(s, dev, since - 1, since);
    }
  }

  /** And every row flushed for a minute below the boundary is counted in exactly one stored bucket. */
  lemma RolledOnce(ops: seq<Op>, dev: string, lo: int, hi: int)
    requires OnTime(ops) && hi <= Boundary(ops)
    ensures Total(RollSeq(Run(ops).roll, dev, lo, hi)) == Count(Flushed(ops), dev, lo, hi)
  {
    OnTimeIsPrompt(ops);
    RunKeepsRows(ops);
    hide Run, PromptRun, Flushed, Boundary, RollExact, AggSeq, RollSeq;
    PromptRunsAreExact(ops);
    InvIsBoth(Run(ops));
    RollIsHistory(Run(ops), dev, lo, hi);
    CountedOnce(Run(ops).hist, dev, lo, hi);
  }

  // ------------------------------------------------------------ minutes, sums, and what a prune removes

  /** A row belongs to the minute its time falls in; a rollup ends at the last full minute. */
  lemma MinutesAreMinutes(r: Row, now: real)
    ensures 60.0 * Minute(r) as real <= r.ts < 60.0 * (Minute(r) + 1) as real
    ensures 60.0 * End(now) as real <= now < 60.0 * (End(now) + 1) as real
  {}

  lemma {:induction false} SumOfJoined(f: Row -> real, a: seq<Row>, b: seq<Row>)
    ensures SumOf(f, a + b) == SumOf(f, a) + SumOf(f, b)
    ensures forall r :: SumOf(f, [r]) == f(r)
    decreases |a|
  {
    forall r ensures SumOf(f, [r]) == f(r) {
      assert [r][1..] == [];
    }
    if a == [] {
      assert a + b == b;
    } else {
      assert (a + b)[1..] == a[1..] + b;
      SumOfJoined(f, a[1..], b);
    }
  }

  /** A prune removes exactly the raw rows before the cutoff, keeps all others as often as they were, and touches nothing else. */
  lemma PruneExact(s: Store, cutoff: real, r: Row)
    ensures var t := Next(s, Prune(cutoff));
            && multiset(t.tel)[r] == (if r.ts >= cutoff then multiset(s.tel)[r] else 0)
            && t == s.(tel := t.tel)
  {
    KeptCounts(s.tel, cutoff, r);
  }

  lemma {:induction false} KeptCounts(rows: seq<Row>, cutoff: real, r: Row)
    ensures multiset(Kept(rows, cutoff))[r] == if r.ts >= cutoff then multiset(rows)[r] else 0
    decreases |rows|
  {
    if rows != [] {
      KeptCounts(rows[1..], cutoff, r);
      assert rows == [rows[0]] + rows[1..];
      var head := if rows[0].ts < cutoff then [] else [rows[0]];
      assert multiset(head + Kept(rows[1..], cutoff)) == multiset(head) + multiset(Kept(rows[1..], cutoff));
      assert multiset(rows) == multiset([rows[0]]) + multiset(rows[1..]);
    }
  }

  /** A flush moves everything, once; a rollup adds buckets and moves the boundary, and leaves the raw rows. */
  lemma FlushExact(s: Store, now: real)
    ensures Next(s, Flush).tel == s.tel + s.buf && Next(s, Flush).buf == [] && Next(s, Flush).roll == s.roll
    ensures var t := Next(s, Roll(now)); t.tel == s.tel && t.buf == s.buf && s.roll.Keys <= t.roll.Keys
  {
    hide RolledUp;
  }
}
