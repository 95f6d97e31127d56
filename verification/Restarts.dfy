/**
 * What a backend restart does to a device that was online and is not heard again: its row still
 * says online, its statistics, if any, say offline, and only the sweep of rows without statistics
 * can mark it (backend/app/ingest.py:73-83 and 122-132).  Statistics are made by any use of `st`,
 * such as a listing of the devices (backend/app/api.py:31-33) or a frame with a bad CRC
 * (backend/app/ingest.py:159).
 */
module Restarts {
  import opened Common
  import opened Alerts
  import opened AlertRuns

  /** Events that neither show the device alive nor restart the backend. */
  ghost predicate Quiet(es: seq<Event>, d: string) {
    forall i :: 0 <= i < |es| ==> QuietEvent(es[i], d)
  }

  predicate QuietEvent(e: Event, d: string) { !e.Restart? && !(e.Seen? && e.device == d) }

  function Onward(s: State, es: seq<Event>): State {
    if es == [] then s else Step(Onward(s, es[..|es| - 1]), es[|es| - 1])
  }

  // ------------------------------------------------------------ read off the events alone

  ghost predicate Touched(es: seq<Event>, d: string) { Touch(d) in es }

  /** A telemetry rule named "offline" was true of the device. */
  ghost predicate Raised(es: seq<Event>, d: string) {
    exists i :: 0 <= i < |es| && Raises(es[i], d)
  }

  predicate Raises(e: Event, d: string) { e.Mark? && e.cond && e.key == Key(d, OFFLINE) }

  /** When the row was last written, `start` before the first event. */
  function RowTime(es: seq<Event>, d: string, start: real): real {
    if es == [] then start
    else
      var e := es[|es| - 1];
      if e.Upsert? && e.device == d then e.now else RowTime(es[..|es| - 1], d, start)
  }

  /** Event `j` is a sweep that finds the device silent, so that it is marked offline. */
  ghost predicate Found(s: State, es: seq<Event>, j: nat, d: string)
    requires j < |es|
  {
    es[j].Sweep? && es[j].device == d && Silent(Onward(s, es[..j]), d, es[j].now)
  }

  ghost predicate Marked(s: State, es: seq<Event>, d: string) {
    exists j: nat :: j < |es| && Found(s, es, j, d)
  }

  // ------------------------------------------------------------ until a sweep finds it

  /** The row says online, and the statistics, if there are any, say offline. */
  predicate Overlooked(s: State, d: string) {
    d in s.rows && s.rows[d].online && (d in s.stats ==> !s.stats[d].online)
  }

  lemma OverlookedStep(s: State, e: Event, d: string)
    requires Overlooked(s, d) && QuietEvent(e, d) && !(e.Sweep? && e.device == d && Silent(s, d, e.now))
    ensures var t := Step(s, e);
            && Overlooked(t, d) && (d in t.stats <==> d in s.stats || e == Touch(d))
            && t.rows[d].lastSeen == if e.Upsert? && e.device == d then e.now else s.rows[d].lastSeen
  {
    hide Ticked, Acknowledged, Alerts.Marked, OnOnline, OnOffline;
    match e
    case Seen(_, _, _) =>
    case Sweep(_, _) =>
    case _ =>
  }

  /** Nothing but a telemetry rule of that name opens the offline alert, and nothing closes it. */
  lemma AlertStep(s: State, e: Event, d: string)
    requires Overlooked(s, d) && Unique(s.engine.alerts) && QuietEvent(e, d)
    requires !(e.Sweep? && e.device == d && Silent(s, d, e.now))
    ensures IsLive(Step(s, e).engine, Key(d, OFFLINE)) <==> IsLive(s.engine, Key(d, OFFLINE)) || Raises(e, d)
  {
    hide IsLive, Unique, SetOnline, Ticked, Acknowledged, Alerts.Marked, Silent;
    match e
    case Mark(k, cond, now) => NewestAfterMark(s.engine, k, Key(d, OFFLINE), now); NotMarked(s.engine, k, now);
    case Tick(now) => TickKeepsOffline(s.engine, d, now);
    case Ack(id, now) => NewestAfterAck(s.engine, id, Key(d, OFFLINE), now);
    case Seen(dev, now, upserts) =>
      var r := if upserts then Upserted(s, dev, now) else s;
      SetOnlineAlert(r.(stats := r.stats[dev := StatOf(r, dev).(lastSeen := Some(now))]), dev, true, d, now);
    case Sweep(dev, now) => SetOnlineAlert(s, dev, false, d, now);
    case SetRules(_, _) => SameAlerts(s.engine, Step(s, e).engine, d);
    case _ =>
  }

  /** The state after quiet events of which none found the device. */
  ghost predicate Left(s: State, es: seq<Event>, d: string) {
    var t := Onward(s, es);
    && Overlooked(s, d) && Overlooked(t, d) && Unique(t.engine.alerts)
    && (d in t.stats <==> d in s.stats || Touched(es, d))
    && t.rows[d].lastSeen == RowTime(es, d, s.rows[d].lastSeen)
    && (IsLive(t.engine, Key(d, OFFLINE)) <==> IsLive(s.engine, Key(d, OFFLINE)) || Raised(es, d))
  }

  lemma Shorter(s: State, es: seq<Event>, d: string)
    requires es != [] && Quiet(es, d) && !Marked(s, es, d)
    ensures var (p, e, n) := (es[..|es| - 1], es[|es| - 1], |es| - 1);
            && Quiet(p, d) && !Marked(s, p, d) && QuietEvent(e, d)
            && !(e.Sweep? && e.device == d && Silent(Onward(s, p), d, e.now))
            && (Touched(es, d) <==> Touched(p, d) || e == Touch(d)) && (Raised(es, d) <==> Raised(p, d) || Raises(e, d))
  {
    hide Silent, Onward, Raises;
    var p, e := es[..|es| - 1], es[|es| - 1];
    assert es == p + [e];
    assert !Found(s, es, |es| - 1, d);
    forall j: nat | j < |p| ensures !Found(s, p, j, d) {
      assert !Found(s, es, j, d) && p[..j] == es[..j];
    }
    if Raised(p, d) {
      var i :| 0 <= i < |p| && Raises(p[i], d);
      assert Raises(es[i], d);
    }
  }

  lemma {:induction false} LeftAlone(s: State, es: seq<Event>, d: string)
    requires Overlooked(s, d) && Unique(s.engine.alerts) && Quiet(es, d) && !Marked(s, es, d)
    ensures Left(s, es, d)
    decreases |es|
  {
    hide Step, Unique, IsLive, Silent;
    if es != [] {
      Shorter(s, es, d);
      var p, e := es[..|es| - 1], es[|es| - 1];
      LeftAlone(s, p, d);
      hide Quiet, Marked, Touched, Raised, Raises;
      OverlookedStep(Onward(s, p), e, d);
      AlertStep(Onward(s, p), e, d);
      StepUnique(Onward(s, p), e);
    }
  }

  // ------------------------------------------------------------ after a restart

  lemma RestartOverlooks(s: State, d: string)
    requires d in s.rows && s.rows[d].online
    ensures var t := Step(s, Restart);
            Overlooked(t, d) && (d in t.stats <==> d in s.saved) && t.rows == s.rows && t.engine.alerts == s.engine.alerts
  {}

  ghost predicate NoSweep(es: seq<Event>, d: string) {
    forall i :: 0 <= i < |es| ==> !(es[i].Sweep? && es[i].device == d)
  }

  /**
   * Before the first sweep of the device after a restart: some later sweep can mark it offline if
   * and only if its statistics were not saved and nothing made new ones.
   */
  lemma ReachableIff(s: State, es: seq<Event>, d: string)
    requires d in s.rows && s.rows[d].online && Unique(s.engine.alerts) && Quiet(es, d) && NoSweep(es, d)
    ensures (exists now :: Silent(Onward(Step(s, Restart), es), d, now)) <==> d !in s.saved && !Touched(es, d)
  {
    RestartOverlooks(s, d);
    var r := Step(s, Restart);
    hide Step, Unique;
    LeftAlone(r, es, d);
    var t := Onward(r, es);
    hide Onward;
    if d !in t.stats {
      assert d !in s.saved && !Touched(es, d);
      var now := t.rows[d].lastSeen + OFFLINE_AFTER + 1.0;
      assert Silent(Onward(Step(s, Restart), es), d, now);
    }
  }

  /** Event `j` sweeps the device 15 s after its row was written, with no statistics made before. */
  ghost predicate InTime(s: State, es: seq<Event>, j: nat, d: string)
    requires j < |es| && d in s.rows
  {
    && es[j].Sweep? && es[j].device == d && !Touched(es[..j], d)
    && es[j].now - RowTime(es[..j], d, s.rows[d].lastSeen) > OFFLINE_AFTER
  }

  lemma FirstFound(s: State, es: seq<Event>, d: string) returns (j: nat)
    requires Marked(s, es, d)
    ensures j < |es| && Found(s, es, j, d) && !Marked(s, es[..j], d)
  {
    hide Silent, Onward;
    j :| j < |es| && Found(s, es, j, d);
    while Marked(s, es[..j], d)
      invariant j < |es| && Found(s, es, j, d)
      decreases j
    {
      var k: nat :| k < j && Found(s, es[..j], k, d);
      assert es[..j][..k] == es[..k];
      j := k;
    }
  }

  lemma QuietPrefix(es: seq<Event>, j: nat, d: string)
    requires Quiet(es, d) && j <= |es|
    ensures Quiet(es[..j], d)
  {}

  /**
   * A device that was online at the restart and is not heard again is marked offline if and only
   * if its statistics were not saved and a sweep more than 15 s after its row was written comes
   * before anything makes new ones.
   */
  lemma MarkedIff(s: State, es: seq<Event>, d: string)
    requires d in s.rows && s.rows[d].online && Unique(s.engine.alerts) && Quiet(es, d)
    ensures Marked(Step(s, Restart), es, d) <==> d !in s.saved && exists j: nat :: j < |es| && InTime(s, es, j, d)
  {
    RestartOverlooks(s, d);
    var r := Step(s, Restart);
    hide Step, Unique, Quiet, Onward;
    if Marked(r, es, d) {
      var j := FirstFound(r, es, d);
      QuietPrefix(es, j, d);
      LeftAlone(r, es[..j], d);
      assert InTime(s, es, j, d);
    }
    if d !in s.saved {
      forall j: nat | j < |es| && InTime(s, es, j, d) ensures Marked(r, es, d) {
        FoundInTime(r, s, es, j, d);
      }
    }
  }

  lemma FoundInTime(r: State, s: State, es: seq<Event>, j: nat, d: string)
    requires Overlooked(r, d) && d !in r.stats && d in s.rows && r.rows == s.rows && Unique(r.engine.alerts)
    requires Quiet(es, d) && j < |es| && InTime(s, es, j, d)
    ensures Marked(r, es, d)
  {
    hide Step, Unique, Quiet, Onward;
    if Marked(r, es[..j], d) {
      var k: nat :| k < j && Found(r, es[..j], k, d);
      assert es[..j][..k] == es[..k];
      assert Found(r, es, k, d);
    } else {
      QuietPrefix(es, j, d);
      LeftAlone(r, es[..j], d);
      assert Found(r, es, j, d);
    }
  }

  /**
   * Otherwise, with statistics saved or made before such a sweep, it keeps its database flag
   * "online" for good, memory says offline, and no offline alert is opened for it, unless a
   * telemetry rule has that name.
   */
  lemma SilentAfterRestart(s: State, es: seq<Event>, d: string)
    requires d in s.rows && s.rows[d].online && Unique(s.engine.alerts) && Quiet(es, d)
    requires d in s.saved || !exists j: nat :: j < |es| && InTime(s, es, j, d)
    ensures var t := Onward(Step(s, Restart), es);
            && d in t.rows && t.rows[d].online && (d in t.stats ==> !t.stats[d].online)
            && (d in t.stats <==> d in s.saved || Touched(es, d))
            && (IsLive(t.engine, Key(d, OFFLINE)) <==> IsLive(s.engine, Key(d, OFFLINE)) || Raised(es, d))
  {
    MarkedIff(s, es, d);
    RestartOverlooks(s, d);
    SameAlerts(s.engine, Step(s, Restart).engine, d);
    hide Step, Unique, Quiet, InTime, IsLive;
    LeftAlone(Step(s, Restart), es, d);
  }

  /** Listing the devices right after the restart is enough: no quiet run marks the device any more. */
  lemma ListingForgets(s: State, es: seq<Event>, d: string)
    requires d in s.rows && s.rows[d].online && Unique(s.engine.alerts) && Quiet(es, d)
    ensures !Marked(Step(s, Restart), [Touch(d)] + es, d)
  {
    var all := [Touch(d)] + es;
    assert Quiet(all, d) by {
      forall i | 0 <= i < |all| ensures QuietEvent(all[i], d) {
        if i > 0 { assert all[i] == es[i - 1]; }
      }
    }
    forall j: nat | j < |all| ensures !InTime(s, all, j, d) {
      if j > 0 { assert all[..j][0] == Touch(d); }
    }
    hide InTime, Step, Quiet;
    MarkedIff(s, all, d);
  }
}
