/**
 * Whole runs of the backend's alerting: telemetry rules, ticks, acknowledgements, frames that
 * show a device alive, the offline sweep, statistics saved to disk, and backend restarts.
 */
module AlertRuns {
  import opened Common
  import opened Alerts

  /** `DeviceStats.online` and `last_seen` in memory. */
  datatype Stat = Stat(online: bool, lastSeen: Option<real>)

  /** The device row in the database. */
  datatype Row = Row(online: bool, lastSeen: real)

  datatype State = State(engine: Engine, stats: map<string, Stat>, rows: map<string, Row>, saved: map<string, Option<real>>)

  datatype Event =
    | Mark(key: Key, cond: bool, now: real)
    | Tick(now: real)
    | Ack(id: nat, now: real)
    | SetRules(hold: real, offlineRule: bool)
    | Seen(device: string, now: real, upserts: bool)
    | Upsert(device: string, now: real)
    | Touch(device: string)            // statistics made on first use: a bad frame, or a listing of the devices
    | Sweep(device: string, now: real)
    | Persist
    | Restart

  /** `st`: the statistics of a device, made on first use. */
  function StatOf(s: State, device: string): Stat {
    if device in s.stats then s.stats[device] else Stat(false, None)
  }

  function Upserted(s: State, device: string, now: real): State {
    s.(rows := s.rows[device := Row(device in s.rows && s.rows[device].online, now)])
  }

  /** `_set_online`; a device without a row has no flag to write. */
  function SetOnline(s: State, device: string, online: bool, now: real): State {
    s.(stats := s.stats[device := StatOf(s, device).(online := online)],
       rows := if device in s.rows then s.rows[device := s.rows[device].(online := online)] else s.rows,
       engine := if online then OnOnline(s.engine, device, now) else OnOffline(s.engine, device, now))
  }

  /** A frame that proves the device alive; LOG frames do not touch the device row. */
  function AfterSeen(s: State, device: string, now: real, upserts: bool): State {
    var r := if upserts then Upserted(s, device, now) else s;
    var t := r.(stats := r.stats[device := StatOf(r, device).(lastSeen := Some(now))]);
    if StatOf(s, device).online then t else SetOnline(t, device, true, now)
  }

  /** The offline loop's test, in memory or, for a device unknown to this process, in the database. */
  predicate Silent(s: State, device: string, now: real) {
    if device in s.stats then
      s.stats[device].online && s.stats[device].lastSeen.Some? && now - s.stats[device].lastSeen.value > OFFLINE_AFTER
    else
      device in s.rows && s.rows[device].online && now - s.rows[device].lastSeen > OFFLINE_AFTER
  }

  function Step(s: State, e: Event): State {
    match e
    case Mark(key, cond, now) => s.(engine := Marked(s.engine, key, cond, now))
    case Tick(now) => s.(engine := Ticked(s.engine, now))
    case Ack(id, now) => s.(engine := Acknowledged(s.engine, id, now))
    case SetRules(hold, off) => s.(engine := s.engine.(hold := hold, offlineRule := off))
    case Seen(d, now, upserts) => AfterSeen(s, d, now, upserts)
    case Upsert(d, now) => Upserted(s, d, now)
    case Touch(d) => s.(stats := s.stats[d := StatOf(s, d)])
    case Sweep(d, now) => if Silent(s, d, now) then SetOnline(s, d, false, now) else s
    case Persist => s.(saved := s.saved + map d | d in s.stats :: s.stats[d].lastSeen)
    case Restart => s.(engine := s.engine.(active := map[]), stats := map d | d in s.saved :: Stat(false, s.saved[d]))
  }

  /** A fresh database. */
  const INIT := State(Engine([], map[], 10.0, true), map[], map[], map[])

  function Exec(es: seq<Event>): State {
    if es == [] then INIT else Step(Exec(es[..|es| - 1]), es[|es| - 1])
  }

  // ------------------------------------------------------------ the object

  /** The sweeps of the devices `order`, one after the other. */
  function Sweeps(s: State, order: seq<string>, now: real): State {
    if order == [] then s else Step(Sweeps(s, order[..|order| - 1], now), Sweep(order[|order| - 1], now))
  }

  lemma SweepsMore(s: State, order: seq<string>, d: string, now: real)
    ensures Sweeps(s, order + [d], now) == Step(Sweeps(s, order, now), Sweep(d, now))
  {
    assert (order + [d])[..|order|] == order;
  }

  /** A sweep silences its own device's alarm and leaves the others' test as it was. */
  lemma SweepSettles(s: State, d: string, other: string, now: real)
    ensures !Silent(Step(s, Sweep(d, now)), d, now)
    ensures other != d ==> (Silent(Step(s, Sweep(d, now)), other, now) <==> Silent(s, other, now))
  {
    hide OnOnline, OnOffline;
  }

  class Ingest {
    const engine: AnomalyEngine
    var stats: map<string, Stat>
    var rows: map<string, Row>
    var saved: map<string, Option<real>>

    ghost function View(): State
      reads this, engine
    {
      State(engine.View(), stats, rows, saved)
    }

    constructor (engine: AnomalyEngine)
      ensures this.engine == engine && stats == map[] && rows == map[] && saved == map[]
    {
      this.engine, stats, rows, saved := engine, map[], map[], map[];
    }

    method MarkOnline(device: string, online: bool, now: real)
      requires engine.Valid()
      modifies this, engine
      ensures View() == SetOnline(old(View()), device, online, now) && engine.Valid()
    {
      hide Unique, OnOnline, OnOffline, Newest;
      if device !in stats {
        stats := stats[device := Stat(false, None)];
      }
      stats := stats[device := stats[device].(online := online)];
      if device in rows {
        rows := rows[device := rows[device].(online := online)];
      }
      if online {
        engine.BackOnline(device, now);
      } else {
        engine.GoneOffline(device, now);
      }
    }

    method OnFrame(device: string, now: real, upserts: bool)
      requires engine.Valid()
      modifies this, engine
      ensures View() == AfterSeen(old(View()), device, now, upserts) && engine.Valid()
    {
      hide Unique, SetOnline;
      if upserts {
        rows := rows[device := Row(device in rows && rows[device].online, now)];
      }
      if device !in stats {
        stats := stats[device := Stat(false, None)];
      }
      stats := stats[device := stats[device].(lastSeen := Some(now))];
      if !stats[device].online {
        ghost var r := if upserts then Upserted(old(View()), device, now) else old(View());
        assert View() == r.(stats := r.stats[device := StatOf(r, device).(lastSeen := Some(now))]);
        MarkOnline(device, true, now);
      }
    }

    /** One round of the offline loop; afterwards no device is silent and still marked online. */
    method OfflineRound(now: real) returns (order: seq<string>)
      requires engine.Valid()
      modifies this, engine
      ensures View() == Sweeps(old(View()), order, now) && engine.Valid()
      ensures forall d :: !Silent(View(), d, now)
    {
      hide Step, Silent;
      order := [];
      ghost var s := View();
      var todo := stats.Keys;
      while todo != {}
        invariant engine.Valid() && View() == Sweeps(s, order, now)
        invariant stats.Keys == s.stats.Keys && rows.Keys == s.rows.Keys && todo <= stats.Keys
        invariant forall d :: d in stats && d !in todo ==> !Silent(View(), d, now)
        decreases todo
      {
        var d :| d in todo;
        todo := todo - {d};
        Round(s, order, d, now);
        SweepAt(d, now);
        order := order + [d];
      }
      todo := rows.Keys - stats.Keys;
      while todo != {}
        invariant engine.Valid() && View() == Sweeps(s, order, now)
        invariant rows.Keys == s.rows.Keys && todo <= rows.Keys
        invariant forall d :: (d in stats || d in rows) && d !in todo ==> !Silent(View(), d, now)
        decreases todo
      {
        var d :| d in todo;
        todo := todo - {d};
        Round(s, order, d, now);
        SweepAt(d, now);
        order := order + [d];
      }
      Unknown(View(), now);
    }

    /** The body of both loops: memory for a known device, its row for an unknown one. */
    method SweepAt(device: string, now: real)
      requires engine.Valid()
      modifies this, engine
      ensures View() == Step(old(View()), Sweep(device, now)) && engine.Valid()
      ensures rows.Keys == old(rows.Keys) && old(stats.Keys) <= stats.Keys <= old(stats.Keys) + {device}
    {
      hide OnOnline, OnOffline;
      if device in stats {
        var s := stats[device];
        if s.online && s.lastSeen.Some? && now - s.lastSeen.value > OFFLINE_AFTER {
          MarkOnline(device, false, now);
        }
      } else if device in rows {
        var r := rows[device];
        if r.online && now - r.lastSeen > OFFLINE_AFTER {
          MarkOnline(device, false, now);
        }
      }
    }
  }

  lemma Round(s: State, order: seq<string>, d: string, now: real)
    ensures Sweeps(s, order + [d], now) == Step(Sweeps(s, order, now), Sweep(d, now))
    ensures var t := Sweeps(s, order, now); var u := Step(t, Sweep(d, now));
            !Silent(u, d, now) && forall o :: o != d ==> (Silent(u, o, now) <==> Silent(t, o, now))
  {
    hide Step, Silent;
    SweepsMore(s, order, d, now);
    forall o | o != d
      ensures Silent(Step(Sweeps(s, order, now), Sweep(d, now)), o, now) <==> Silent(Sweeps(s, order, now), o, now)
    {
      SweepSettles(Sweeps(s, order, now), d, o, now);
    }
    SweepSettles(Sweeps(s, order, now), d, d, now);
  }

  lemma Unknown(s: State, now: real)
    ensures forall d :: d !in s.stats && d !in s.rows ==> !Silent(s, d, now)
  {}

  // ------------------------------------------------------------ histories, read off the events alone

  /** When the condition `key` was last reported true, since the last restart. */
  function LastTrue(es: seq<Event>, key: Key): Option<real> {
    if es == [] then None
    else
      var e := es[|es| - 1];
      if e.Restart? then None
      else if e.Mark? && e.cond && e.key == key then Some(e.now)
      else LastTrue(es[..|es| - 1], key)
  }

  /** When the device last sent a frame that proves it alive. */
  function LastSeen(es: seq<Event>, device: string): Option<real> {
    if es == [] then None
    else Spot(es[|es| - 1], device, LastSeen(es[..|es| - 1], device))
  }

  function Spot(e: Event, device: string, seen: Option<real>): Option<real> {
    if e.Seen? && e.device == device then Some(e.now) else seen
  }

  // ------------------------------------------------------------ what a run has said of a device

  /** What an event in state `s` tells about a device: `_set_online` with true, with false, or no call. */
  function Call(s: State, e: Event, device: string): Option<bool> {
    if e.Seen? && e.device == device && !StatOf(s, device).online then Some(true)
    else if e.Sweep? && e.device == device && Silent(s, device, e.now) then Some(false)
    else None
  }

  datatype Said = Nothing | WentOnline | WentOffline(announced: bool)

  /** The last word on a device once `e` has happened in `s`. */
  function Say(s: State, e: Event, d: string, said: Said): Said {
    match Call(s, e, d)
    case Some(true) => WentOnline
    case Some(false) => WentOffline(s.engine.offlineRule)
    case None => said
  }

  /** The last word on a device, and whether the offline rule was on when it was said. */
  function LastWord(es: seq<Event>, device: string): Said {
    if es == [] then Nothing
    else Say(Exec(es[..|es| - 1]), es[|es| - 1], device, LastWord(es[..|es| - 1], device))
  }

  /** Whether a telemetry rule that is also named "offline" was true since the device came online. */
  function Borrow(s: State, e: Event, d: string, borrowed: bool): bool {
    if Call(s, e, d) == Some(true) then false
    else borrowed || (e.Mark? && e.cond && e.key == Key(d, OFFLINE))
  }

  function Borrowed(es: seq<Event>, device: string): bool {
    if es == [] then false
    else Borrow(Exec(es[..|es| - 1]), es[|es| - 1], device, Borrowed(es[..|es| - 1], device))
  }

  // ------------------------------------------------------------ one live alert per condition

  lemma MarkUnique(en: Engine, key: Key, now: real)
    requires Unique(en.alerts)
    ensures Unique(Marked(en, key, true, now).alerts)
  {}

  lemma AckUnique(en: Engine, id: nat, now: real)
    requires Unique(en.alerts)
    ensures Unique(Acknowledged(en, id, now).alerts)
  {
    FewerLive(en.alerts, Acknowledged(en, id, now).alerts);
  }

  lemma TickUnique(en: Engine, now: real)
    requires Unique(en.alerts)
    ensures Unique(Ticked(en, now).alerts)
  {
    hide Unique;
    FewerLive(en.alerts, FirstPass(en, now).alerts);
    FewerLive(FirstPass(en, now).alerts, Ticked(en, now).alerts);
  }

  lemma OnlineUnique(en: Engine, device: string, now: real)
    requires Unique(en.alerts)
    ensures Unique(OnOffline(en, device, now).alerts) && Unique(OnOnline(en, device, now).alerts)
  {
    hide Unique, Marked, Resolve;
    MarkUnique(en, Key(device, OFFLINE), now);
    ResolvePointwise(en, Key(device, OFFLINE), now);
  }

  lemma StepUnique(s: State, e: Event)
    requires Unique(s.engine.alerts)
    ensures Unique(Step(s, e).engine.alerts)
  {
    hide Unique, Marked, Acknowledged, Ticked, OnOffline, OnOnline;
    match e
    case Mark(key, cond, now) => MarkUnique(s.engine, key, now); NotMarked(s.engine, key, now);
    case Tick(now) => TickUnique(s.engine, now);
    case Ack(id, now) => AckUnique(s.engine, id, now);
    case Seen(d, now, _) => OnlineUnique(s.engine, d, now);
    case Sweep(d, now) => OnlineUnique(s.engine, d, now);
    case _ =>
  }

  lemma NotMarked(en: Engine, key: Key, now: real)
    ensures Marked(en, key, false, now) == en
  {}

  /** On every run each (device, rule) has at most one open or acknowledged alert. */
  lemma {:induction false} OneLiveAlert(es: seq<Event>)
    ensures Unique(Exec(es).engine.alerts)
    decreases |es|
  {
    hide Step, Unique;
    if es == [] {
      assert Unique([]) by { NoneAtAll(); }
    } else {
      OneLiveAlert(es[..|es| - 1]);
      StepUnique(Exec(es[..|es| - 1]), es[|es| - 1]);
    }
  }

  lemma NoneAtAll()
    ensures Unique([])
  {}

  // ------------------------------------------------------------ statuses only move forward

  function Rank(st: Status): nat {
    match st case Open => 0 case Acked => 1 case Resolved => 2
  }

  /** Rows are never removed, never change their key, and only move open, acked, resolved. */
  ghost predicate Forward(a: seq<Alert>, b: seq<Alert>) {
    && |a| <= |b|
    && forall i :: 0 <= i < |a| ==> a[i].key == b[i].key && Rank(a[i].status) <= Rank(b[i].status)
  }

  lemma EngineForward(en: Engine, key: Key, cond: bool, id: nat, now: real)
    ensures Forward(en.alerts, Marked(en, key, cond, now).alerts) && Forward(en.alerts, Resolve(en, key, now).alerts)
    ensures Forward(en.alerts, Acknowledged(en, id, now).alerts) && Forward(en.alerts, en.alerts)
  {
    hide Newest;
  }

  lemma TickForward(en: Engine, now: real)
    ensures Forward(en.alerts, Ticked(en, now).alerts)
  {
    var p := FirstPass(en, now);
    assert Forward(en.alerts, p.alerts);
    assert Forward(p.alerts, SecondPass(p, now).alerts);
    hide FirstPass, SecondPass;
  }

  lemma StepForward(s: State, e: Event)
    ensures Forward(s.engine.alerts, Step(s, e).engine.alerts)
  {
    hide Forward, Marked, Acknowledged, Ticked, Resolve;
    EngineForward(s.engine, Key("", ""), false, 0, 0.0);
    match e
    case Mark(key, cond, now) => EngineForward(s.engine, key, cond, 0, now);
    case Tick(now) => TickForward(s.engine, now);
    case Ack(id, now) => EngineForward(s.engine, Key("", ""), false, id, now);
    case Seen(d, now, _) => EngineForward(s.engine, Key(d, OFFLINE), true, 0, now);
    case Sweep(d, now) => EngineForward(s.engine, Key(d, OFFLINE), true, 0, now);
    case _ =>
  }

  lemma {:induction false} StatusOnlyAdvances(es: seq<Event>, k: nat)
    requires k <= |es|
    ensures Forward(Exec(es[..k]).engine.alerts, Exec(es).engine.alerts)
    decreases |es| - k
  {
    hide Step, Exec;
    if k == |es| {
      assert es[..k] == es;
    } else {
      StatusOnlyAdvances(es, k + 1);
      var p := es[..k + 1];
      assert p[..k] == es[..k] && p[k] == es[k];
      ExecStep(p);
      StepForward(Exec(es[..k]), es[k]);
    }
  }

  lemma ExecStep(es: seq<Event>)
    requires es != []
    ensures Exec(es) == Step(Exec(es[..|es| - 1]), es[|es| - 1])
  {}

  // ------------------------------------------------------------ what a tick resolves

  /** A live alert of a condition seen true since the restart is remembered with that very time. */
  ghost predicate Remembers(en: Engine, last: Option<real>, key: Key) {
    && (key in en.active ==> last == Some(en.active[key]))
    && (IsLive(en, key) && last.Some? ==> key in en.active)
  }

  /** How a row changes when another condition is marked, resolved or acknowledged. */
  lemma NewestAfterResolve(en: Engine, key: Key, other: Key, now: real)
    requires Unique(en.alerts)
    ensures IsLive(Resolve(en, key, now), other) <==> IsLive(en, other) && other != key
  {
    ResolvePointwise(en, key, now);
    var r := Resolve(en, key, now);
    SameLive(en.alerts, r.alerts, other, other != key);
  }

  /** Liveness of a key from the rows: `keep` false means the key was closed throughout. */
  lemma SameLive(a: seq<Alert>, b: seq<Alert>, key: Key, keep: bool)
    requires |a| == |b| && forall i :: 0 <= i < |a| ==> b[i].key == a[i].key
    requires forall i :: 0 <= i < |a| && a[i].key == key ==> (Live(b[i]) <==> Live(a[i]) && keep)
    ensures Newest(b, key).Some? <==> Newest(a, key).Some? && keep
  {
    var (m, n) := (Newest(a, key), Newest(b, key));
    if m.Some? && keep {
      assert Live(b[m.value]);
    }
    if n.Some? {
      assert Live(a[n.value]);
    }
  }

  lemma NewestAfterMark(en: Engine, key: Key, other: Key, now: real)
    ensures IsLive(Marked(en, key, true, now), other) <==> IsLive(en, other) || other == key
  {
    var m := Marked(en, key, true, now);
    if !IsLive(en, key) {
      assert m.alerts[..|en.alerts|] == en.alerts;
    }
  }

  lemma NewestAfterAck(en: Engine, id: nat, other: Key, now: real)
    ensures IsLive(Acknowledged(en, id, now), other) <==> IsLive(en, other)
  {
    SameLive(en.alerts, Acknowledged(en, id, now).alerts, other, true);
  }

  lemma NewestAfterFirstPass(en: Engine, other: Key, now: real)
    ensures IsLive(FirstPass(en, now), other) <==> IsLive(en, other) && !Due(en, other, now)
  {
    SameLive(en.alerts, FirstPass(en, now).alerts, other, !Due(en, other, now));
  }

  lemma NewestAfterSecondPass(en: Engine, other: Key, now: real)
    ensures IsLive(SecondPass(en, now), other) ==> IsLive(en, other)
    ensures other in en.active || other.rule == OFFLINE ==> (IsLive(SecondPass(en, now), other) <==> IsLive(en, other))
  {
    var t := SecondPass(en, now);
    if other in en.active || other.rule == OFFLINE {
      SameLive(en.alerts, t.alerts, other, true);
    } else if IsLive(t, other) {
      assert Live(en.alerts[Newest(t.alerts, other).value]);
    }
  }

  lemma TickRemembers(en: Engine, last: Option<real>, key: Key, now: real)
    requires Remembers(en, last, key) && key.rule != OFFLINE
    ensures Remembers(Ticked(en, now), last, key)
  {
    NewestAfterFirstPass(en, key, now);
    NewestAfterSecondPass(FirstPass(en, now), key, now);
  }

  lemma SetOnlineRemembers(s: State, device: string, online: bool, last: Option<real>, key: Key, now: real)
    requires Unique(s.engine.alerts) && Remembers(s.engine, last, key) && key.rule != OFFLINE
    ensures Remembers(SetOnline(s, device, online, now).engine, last, key)
  {
    NewestAfterResolve(s.engine, Key(device, OFFLINE), key, now);
    NewestAfterMark(s.engine, Key(device, OFFLINE), key, now);
    hide Newest;
  }

  lemma {:induction false} AlwaysRemembers(es: seq<Event>, key: Key)
    requires key.rule != OFFLINE
    ensures Remembers(Exec(es).engine, LastTrue(es, key), key)
    decreases |es|
  {
    if es != [] {
      var before, e := es[..|es| - 1], es[|es| - 1];
      var s := Exec(before);
      AlwaysRemembers(before, key);
      OneLiveAlert(before);
      hide Newest, Unique, Exec, SetOnline, Ticked, Acknowledged, Silent;
      ExecStep(es);
      match e
      case Mark(k, cond, now) => NewestAfterMark(s.engine, k, key, now);
      case Tick(now) => TickRemembers(s.engine, LastTrue(before, key), key, now);
      case Ack(id, now) => AckRemembers(s.engine, id, LastTrue(before, key), key, now);
      case Seen(d, now, upserts) =>
        var r := if upserts then Upserted(s, d, now) else s;
        SetOnlineRemembers(r.(stats := r.stats[d := StatOf(r, d).(lastSeen := Some(now))]), d, true, LastTrue(before, key), key, now);
      case Sweep(d, now) => SetOnlineRemembers(s, d, false, LastTrue(before, key), key, now);
      case _ =>
    }
  }

  lemma AckRemembers(en: Engine, id: nat, last: Option<real>, key: Key, now: real)
    requires Remembers(en, last, key)
    ensures Remembers(Acknowledged(en, id, now), last, key)
  {
    NewestAfterAck(en, id, key, now);
  }

  /** Whether a tick at `now` after the run `es` must close row `i`. */
  ghost predicate MustClose(es: seq<Event>, i: nat, now: real)
    requires i < |Exec(es).engine.alerts|
  {
    var en := Exec(es).engine;
    var key := en.alerts[i].key;
    && key.rule != OFFLINE
    && match LastTrue(es, key)
       case Some(t) => now - t >= en.hold
       case None => now - en.alerts[i].updatedAt >= en.hold && LiveCount(FirstPass(en, now).alerts, i + 1, |en.alerts|) < 1000
  }

  /**
   * A tick closes a live alert exactly when its condition, last reported true at t, has been
   * clear for the hold time; or, never reported since the restart, when its row has not been
   * touched for that long and is among the newest thousand left.  It never closes an offline
   * alert, and changes no other row.
   */
  lemma TickExact(es: seq<Event>, now: real, i: nat)
    requires i < |Exec(es).engine.alerts|
    ensures Exec(es + [Tick(now)]).engine.alerts[i] == ClosedIf(Exec(es).engine.alerts[i], MustClose(es, i, now), now)
  {
    var en := Exec(es).engine;
    var a := en.alerts[i];
    assert (es + [Tick(now)])[..|es|] == es;
    if Live(a) && a.key.rule != OFFLINE {
      AlwaysRemembers(es, a.key);
      assert IsLive(en, a.key);
    }
    hide LastTrue, Newest, LiveCount;
  }

  /** Once the condition has been clear for the hold time, a tick leaves no live alert for it. */
  lemma TickLeavesNone(es: seq<Event>, now: real, key: Key)
    requires key.rule != OFFLINE && LastTrue(es, key).Some? && now - LastTrue(es, key).value >= Exec(es).engine.hold
    ensures !IsLive(Exec(es + [Tick(now)]).engine, key)
  {
    assert (es + [Tick(now)])[..|es|] == es;
    var en := Exec(es).engine;
    AlwaysRemembers(es, key);
    NewestAfterFirstPass(en, key, now);
    NewestAfterSecondPass(FirstPass(en, now), key, now);
  }

  // ------------------------------------------------------------ the offline alert

  /** Telemetry rules leave the name "offline" to the offline rule. */
  ghost predicate NoOtherOffline(es: seq<Event>) {
    forall i :: 0 <= i < |es| && es[i].Mark? ==> es[i].key.rule != OFFLINE
  }

  ghost predicate OfflineRuleOn(es: seq<Event>) {
    forall i :: 0 <= i < |es| && es[i].SetRules? ==> es[i].offlineRule
  }

  ghost predicate NoRestart(es: seq<Event>) {
    forall i :: 0 <= i < |es| ==> !es[i].Restart?
  }

  /** The flags in memory and in the database, against what was last said of the device. */
  ghost predicate Flags(s: State, said: Said, seen: Option<real>, d: string) {
    && (d in s.stats && s.stats[d].online ==> said == WentOnline && seen.Some? && s.stats[d].lastSeen == seen)
    && (d in s.rows && s.rows[d].online ==> said == WentOnline && seen.Some?)
    && (said != Nothing ==> seen.Some?)
  }

  lemma FlagsStep(s: State, e: Event, said: Said, seen: Option<real>, d: string)
    requires Flags(s, said, seen, d)
    ensures Flags(Step(s, e), Say(s, e, d, said), Spot(e, d, seen), d)
  {
    hide Ticked, Acknowledged, Marked, OnOnline, OnOffline;
    match e
    case Seen(_, _, _) =>
    case Sweep(_, _) =>
    case _ =>
  }

  lemma {:induction false} AlwaysFlags(es: seq<Event>, d: string)
    ensures Flags(Exec(es), LastWord(es, d), LastSeen(es, d), d)
    decreases |es|
  {
    hide Step, Say, Spot, Flags;
    if es == [] {
      NoFlags(d);
    } else {
      AlwaysFlags(es[..|es| - 1], d);
      FlagsStep(Exec(es[..|es| - 1]), es[|es| - 1], LastWord(es[..|es| - 1], d), LastSeen(es[..|es| - 1], d), d);
    }
  }

  lemma NoFlags(d: string)
    ensures Flags(INIT, Nothing, None, d)
  {}

  lemma TickKeepsOffline(en: Engine, d: string, now: real)
    ensures IsLive(Ticked(en, now), Key(d, OFFLINE)) <==> IsLive(en, Key(d, OFFLINE))
  {
    NewestAfterFirstPass(en, Key(d, OFFLINE), now);
    NewestAfterSecondPass(FirstPass(en, now), Key(d, OFFLINE), now);
  }

  lemma SetOnlineAlert(s: State, device: string, online: bool, d: string, now: real)
    requires Unique(s.engine.alerts)
    ensures IsLive(SetOnline(s, device, online, now).engine, Key(d, OFFLINE)) <==>
              if device != d then IsLive(s.engine, Key(d, OFFLINE))
              else !online && (s.engine.offlineRule || IsLive(s.engine, Key(d, OFFLINE)))
  {
    NewestAfterResolve(s.engine, Key(device, OFFLINE), Key(d, OFFLINE), now);
    NewestAfterMark(s.engine, Key(device, OFFLINE), Key(d, OFFLINE), now);
    hide IsLive, Marked, Resolve;
  }

  lemma OfflineAlertStep(s: State, e: Event, said: Said, borrowed: bool, seen: Option<real>, d: string)
    requires Unique(s.engine.alerts) && Flags(s, said, seen, d)
    requires IsLive(s.engine, Key(d, OFFLINE)) <==> said == WentOffline(true) || borrowed
    ensures IsLive(Step(s, e).engine, Key(d, OFFLINE)) <==> Say(s, e, d, said) == WentOffline(true) || Borrow(s, e, d, borrowed)
  {
    hide IsLive, Unique, SetOnline, Ticked, Acknowledged, Marked;
    match e
    case Mark(k, cond, now) => NewestAfterMark(s.engine, k, Key(d, OFFLINE), now); NotMarked(s.engine, k, now);
    case Tick(now) => TickKeepsOffline(s.engine, d, now);
    case Ack(id, now) => NewestAfterAck(s.engine, id, Key(d, OFFLINE), now);
    case Seen(dev, now, upserts) =>
      var r := if upserts then Upserted(s, dev, now) else s;
      SetOnlineAlert(r.(stats := r.stats[dev := StatOf(r, dev).(lastSeen := Some(now))]), dev, true, d, now);
    case Sweep(dev, now) => SetOnlineAlert(s, dev, false, d, now);
    case SetRules(_, _) => SameAlerts(s.engine, Step(s, e).engine, d);
    case Restart => SameAlerts(s.engine, Step(s, e).engine, d);
    case _ =>
  }

  /**
   * On every run, restarts and any rule names included: a device has a live offline alert exactly
   * when the last thing said of it was that it went offline, with the offline rule on at that
   * moment, or a telemetry rule of the same name was true since it came online.
   */
  lemma {:induction false} OfflineAlertExact(es: seq<Event>, d: string)
    ensures IsLive(Exec(es).engine, Key(d, OFFLINE)) <==> LastWord(es, d) == WentOffline(true) || Borrowed(es, d)
    decreases |es|
  {
    hide Step, Say, Spot, Flags, Unique, Borrow;
    if es != [] {
      var before := es[..|es| - 1];
      OfflineAlertExact(before, d);
      OneLiveAlert(before);
      AlwaysFlags(before, d);
      hide IsLive;
      OfflineAlertStep(Exec(before), es[|es| - 1], LastWord(before, d), Borrowed(before, d), LastSeen(before, d), d);
    }
  }

  lemma {:induction false} NothingBorrowed(es: seq<Event>, d: string)
    requires NoOtherOffline(es)
    ensures !Borrowed(es, d)
    decreases |es|
  {
    hide Exec, Call;
    if es != [] {
      NothingBorrowed(es[..|es| - 1], d);
    }
  }

  lemma SameAlerts(a: Engine, b: Engine, d: string)
    requires a.alerts == b.alerts
    ensures IsLive(a, Key(d, OFFLINE)) <==> IsLive(b, Key(d, OFFLINE))
  {}

  /** Within one process, what was last said of a seen device is what its statistics say. */
  ghost predicate Tracked(s: State, said: Said, seen: Option<real>, d: string) {
    && (seen.Some? ==> d in s.stats && said != Nothing && (s.stats[d].online <==> said == WentOnline))
    && (d in s.rows && s.rows[d].online ==> d in s.stats)
  }

  lemma TrackedStep(s: State, e: Event, said: Said, seen: Option<real>, d: string)
    requires Flags(s, said, seen, d) && Tracked(s, said, seen, d) && !e.Restart?
    ensures Tracked(Step(s, e), Say(s, e, d, said), Spot(e, d, seen), d)
  {
    hide Ticked, Acknowledged, Marked, OnOnline, OnOffline;
    match e
    case Seen(_, _, _) =>
    case Sweep(_, _) =>
    case _ =>
  }

  lemma {:induction false} AlwaysTracked(es: seq<Event>, d: string)
    requires NoRestart(es)
    ensures Tracked(Exec(es), LastWord(es, d), LastSeen(es, d), d)
    decreases |es|
  {
    hide Step, Say, Spot, Flags;
    if es != [] {
      var before := es[..|es| - 1];
      AlwaysTracked(before, d);
      AlwaysFlags(before, d);
      hide Tracked;
      TrackedStep(Exec(before), es[|es| - 1], LastWord(before, d), LastSeen(before, d), d);
    }
  }

  lemma RuleStep(s: State, e: Event, said: Said, d: string)
    requires s.engine.offlineRule && said != WentOffline(false) && (e.SetRules? ==> e.offlineRule)
    ensures Step(s, e).engine.offlineRule && Say(s, e, d, said) != WentOffline(false)
  {
    hide Newest, Silent, Due;
  }

  lemma {:induction false} AlwaysAnnounced(es: seq<Event>, d: string)
    requires OfflineRuleOn(es)
    ensures Exec(es).engine.offlineRule && LastWord(es, d) != WentOffline(false)
    decreases |es|
  {
    hide Step, Say;
    if es != [] {
      AlwaysAnnounced(es[..|es| - 1], d);
      RuleStep(Exec(es[..|es| - 1]), es[|es| - 1], LastWord(es[..|es| - 1], d), d);
    }
  }

  /**
   * From a fresh database, with the offline rule on and no restart, a device has an open or
   * acknowledged offline alert exactly when it has been online and is now marked offline, or a
   * telemetry rule borrowed the name since it came online.
   */
  lemma OfflineAlertIff(es: seq<Event>, d: string)
    requires OfflineRuleOn(es) && NoRestart(es)
    ensures IsLive(Exec(es).engine, Key(d, OFFLINE)) <==>
              (LastSeen(es, d).Some? && !StatOf(Exec(es), d).online) || Borrowed(es, d)
    ensures NoOtherOffline(es) ==> !Borrowed(es, d)
  {
    OfflineAlertExact(es, d);
    if NoOtherOffline(es) {
      NothingBorrowed(es, d);
    }
    AlwaysTracked(es, d);
    AlwaysAnnounced(es, d);
    AlwaysFlags(es, d);
    hide IsLive, Exec, LastWord, LastSeen, Borrowed;
  }

  /** Whether the event marks the device offline. */
  predicate GoesOffline(s: State, e: Event, d: string) { Call(s, e, d) == Some(false) }

  /**
   * A device goes offline only more than 15 s after the last frame that proved it alive, unless
   * this process has no statistics of it and its row is older than that frame.
   */
  lemma OfflineOnlyWhenSilent(es: seq<Event>, d: string, now: real)
    requires GoesOffline(Exec(es), Sweep(d, now), d)
    ensures LastSeen(es, d).Some?
    ensures now - LastSeen(es, d).value > OFFLINE_AFTER ||
            (d !in Exec(es).stats && Exec(es).rows[d].lastSeen < LastSeen(es, d).value)
    ensures NoRestart(es) ==> now - LastSeen(es, d).value > OFFLINE_AFTER
  {
    AlwaysFlags(es, d);
    if NoRestart(es) {
      AlwaysTracked(es, d);
    }
    hide Exec, LastWord, LastSeen;
  }

  /** The sweep marks the device offline although it was seen within the last 15 s. */
  ghost predicate Early(es: seq<Event>, d: string, now: real) {
    && GoesOffline(Exec(es), Sweep(d, now), d)
    && LastSeen(es, d).Some? && now - LastSeen(es, d).value <= OFFLINE_AFTER
  }

  /** Its row says online, is older than its last frame, and is all this process knows of it. */
  ghost predicate RowBehind(es: seq<Event>, d: string) {
    var s := Exec(es);
    && d !in s.stats && d in s.rows && s.rows[d].online
    && LastSeen(es, d).Some? && s.rows[d].lastSeen < LastSeen(es, d).value
  }

  /** A device can be marked offline within 15 s of its last frame if and only if its row is behind. */
  lemma EarlyIff(es: seq<Event>, d: string)
    ensures (exists now :: Early(es, d, now)) <==> RowBehind(es, d)
  {
    AlwaysFlags(es, d);
    hide Exec, LastWord, LastSeen;
    if RowBehind(es, d) {
      var now := LastSeen(es, d).value + OFFLINE_AFTER;
      assert Early(es, d, now);
    }
  }

  /**
   * This happens: a LOG frame does not refresh the row, so when the backend crashes before it
   * first saves the statistics, four seconds in, the device is marked offline 11.5 s after its
   * last frame.
   */
  lemma MarkedOfflineEarly(d: string) returns (es: seq<Event>)
    ensures es == [Seen(d, 100.0, true), Seen(d, 104.0, false), Restart]
    ensures GoesOffline(Exec(es), Sweep(d, 115.5), d) && LastSeen(es, d) == Some(104.0)
  {
    var a, b := [Seen(d, 100.0, true)], [Seen(d, 100.0, true), Seen(d, 104.0, false)];
    es := [Seen(d, 100.0, true), Seen(d, 104.0, false), Restart];
    assert es[..2] == b && b[..1] == a && a[..0] == [];
    assert Exec([]) == INIT;
    ExecStep(a);
    ExecStep(b);
    ExecStep(es);
    hide Exec, OnOnline;
    var s := Step(INIT, a[0]);
    assert s.stats[d].online && s.rows[d] == Row(true, 100.0) && s.saved == map[];
    var t := Step(s, b[1]);
    assert t.rows[d] == Row(true, 100.0) && t.saved == map[];
    assert Step(t, Restart).rows == t.rows && Step(t, Restart).stats == map[];
  }

  // ------------------------------------------------------------ single rows

  /** A true condition opens a row for it at the end of the table, dated now, unless one is live, and is remembered. */
  lemma MarkOpens(en: Engine, key: Key, now: real)
    ensures var t := Marked(en, key, true, now);
            && t.active == en.active[key := now]
            && ((exists i :: 0 <= i < |en.alerts| && en.alerts[i].key == key && en.alerts[i].status != Resolved) ==> t.alerts == en.alerts)
            && ((forall i :: 0 <= i < |en.alerts| && en.alerts[i].key == key ==> en.alerts[i].status == Resolved) ==>
                  t.alerts == en.alerts + [Alert(key, Open, now)])
  {}

  /** An acknowledgement dates and marks one open row and nothing else. */
  lemma AckMarks(en: Engine, id: nat, now: real)
    ensures var t := Acknowledged(en, id, now);
            && |t.alerts| == |en.alerts| && t.active == en.active
            && forall i :: 0 <= i < |en.alerts| ==>
                 t.alerts[i] == if i == id && en.alerts[i].status == Open then Alert(en.alerts[i].key, Acked, now) else en.alerts[i]
  {}

  /** Closing a row keeps its key and dates it. */
  lemma CloseMarks(a: Alert, now: real)
    ensures Close(a, now) == Alert(a.key, Resolved, now)
  {}

  /** An acknowledgement of row `i` came while the row existed. */
  ghost predicate WasAcked(es: seq<Event>, i: nat) {
    exists k :: 0 <= k < |es| && es[k].Ack? && es[k].id == i && i < |Exec(es[..k]).engine.alerts|
  }

  lemma WasAckedMore(es: seq<Event>, i: nat)
    requires es != []
    ensures var (p, e) := (es[..|es| - 1], es[|es| - 1]);
            WasAcked(es, i) <==> WasAcked(p, i) || (e.Ack? && e.id == i && i < |Exec(p).engine.alerts|)
  {
    hide Exec;
    var p := es[..|es| - 1];
    forall k | 0 <= k < |p| ensures p[k] == es[k] && p[..k] == es[..k] {}
    if WasAcked(p, i) {
      var k :| 0 <= k < |p| && p[k].Ack? && p[k].id == i && i < |Exec(p[..k]).engine.alerts|;
      assert es[k].Ack? && es[..k] == p[..k];
    }
  }

  /** A row is closed, or acknowledged, or open; a step opens rows and acknowledges them as the event says. */
  lemma RowStep(s: State, e: Event, i: nat)
    requires i < |Step(s, e).engine.alerts|
    ensures var a := Step(s, e).engine.alerts[i];
            if i < |s.engine.alerts| then
              var b := s.engine.alerts[i];
              && a.key == b.key && (b.status == Resolved ==> a.status == Resolved)
              && (e.Ack? ==> a.status == if e.id == i && b.status == Open then Acked else b.status)
              && (!e.Ack? ==> a.status == b.status || a.status == Resolved)
            else a.status == Open && !e.Ack?
  {
    hide Newest, LiveCount, Silent;
  }

  /** On every run a row that is not closed is acknowledged if and only if someone acknowledged it. */
  lemma {:induction false} AckedIff(es: seq<Event>, i: nat)
    requires i < |Exec(es).engine.alerts| && Exec(es).engine.alerts[i].status != Resolved
    ensures Exec(es).engine.alerts[i].status == Acked <==> WasAcked(es, i)
    decreases |es|
  {
    hide Step, WasAcked;
    if es != [] {
      var p := es[..|es| - 1];
      RowStep(Exec(p), es[|es| - 1], i);
      WasAckedMore(es, i);
      if i < |Exec(p).engine.alerts| {
        AckedIff(p, i);
      } else {
        NotYet(p, i);
      }
    }
  }

  lemma NotYet(es: seq<Event>, i: nat)
    requires i >= |Exec(es).engine.alerts|
    ensures !WasAcked(es, i)
  {
    hide Exec;
    forall k | 0 <= k < |es| ensures |Exec(es[..k]).engine.alerts| <= |Exec(es).engine.alerts| {
      StatusOnlyAdvances(es, k);
    }
  }

  // ------------------------------------------------------------ rules, saving and restarting

  /** The hold time and the offline switch are those last set, or the defaults. */
  function LastRules(es: seq<Event>): (real, bool) {
    if es == [] then (10.0, true)
    else if es[|es| - 1].SetRules? then (es[|es| - 1].hold, es[|es| - 1].offlineRule)
    else LastRules(es[..|es| - 1])
  }

  lemma {:induction false} RulesExact(es: seq<Event>)
    ensures (Exec(es).engine.hold, Exec(es).engine.offlineRule) == LastRules(es)
    decreases |es|
  {
    if es != [] {
      RulesExact(es[..|es| - 1]);
      RulesStep(Exec(es[..|es| - 1]), es[|es| - 1]);
      hide Step;
    }
  }

  lemma RulesStep(s: State, e: Event)
    ensures var en := Step(s, e).engine;
            (en.hold, en.offlineRule) == if e.SetRules? then (e.hold, e.offlineRule) else (s.engine.hold, s.engine.offlineRule)
  {
    hide Newest, LiveCount, Silent;
  }

  /** Saving writes when each known device was last seen; a restart reads exactly that back, all offline, and forgets the conditions. */
  lemma SaveAndRestart(s: State, d: string)
    ensures var t := Step(s, Persist);
            && t == s.(saved := t.saved) && t.saved.Keys == s.saved.Keys + s.stats.Keys
            && (d in s.stats ==> t.saved[d] == s.stats[d].lastSeen) && (d in s.saved && d !in s.stats ==> t.saved[d] == s.saved[d])
    ensures var t := Step(s, Restart);
            && t.rows == s.rows && t.saved == s.saved && t.engine.alerts == s.engine.alerts && t.engine.active == map[]
            && t.stats.Keys == s.saved.Keys && (d in s.saved ==> t.stats[d] == Stat(false, s.saved[d]))
  {}

  /** A frame that proves a device alive: seen now, online, its row refreshed unless it is a LOG. */
  lemma SeenEffect(s: State, d: string, now: real, upserts: bool)
    ensures var t := Step(s, Seen(d, now, upserts));
            && d in t.stats && t.stats[d] == Stat(true, Some(now)) && t.saved == s.saved
            && (upserts ==> d in t.rows && t.rows[d].lastSeen == now)
            && (!upserts && d in s.rows ==> d in t.rows && t.rows[d].lastSeen == s.rows[d].lastSeen)
            && (!StatOf(s, d).online && d in t.rows ==> t.rows[d].online)
  {
    hide OnOnline;
  }

  /** The sweep looks at memory first, at the row only without it, and waits for more than 15 seconds. */
  lemma SilentIs(s: State, d: string, now: real)
    ensures d in s.stats && s.stats[d].online && s.stats[d].lastSeen.Some? ==>
              (Silent(s, d, now) <==> now > s.stats[d].lastSeen.value + 15.0)
    ensures d in s.stats && (!s.stats[d].online || s.stats[d].lastSeen.None?) ==> !Silent(s, d, now)
    ensures d !in s.stats && d in s.rows && s.rows[d].online ==> (Silent(s, d, now) <==> now > s.rows[d].lastSeen + 15.0)
    ensures d !in s.stats && (d !in s.rows || !s.rows[d].online) ==> !Silent(s, d, now)
  {}
}
