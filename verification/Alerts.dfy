/**
 * The alert lifecycle: the engine that opens, deduplicates and resolves alerts
 * (backend/app/anomaly.py:165-214), the alert rows (backend/app/db.py:286-299), the operator's
 * acknowledgement (backend/app/api.py:277-287) and the online/offline marking that drives the
 * offline alert (backend/app/ingest.py:122-149), over every sequence of events.
 */
module Alerts {
  import opened Common

  const OFFLINE := "offline"
  const OFFLINE_AFTER := 15.0
  const SWEEP_LIMIT := 1000

  datatype Key = Key(device: string, rule: string)

  datatype Status = Open | Acked | Resolved

  /** A row of the alert table; its id is its position. */
  datatype Alert = Alert(key: Key, status: Status, updatedAt: real)

  /** The alert table, the times conditions were last true, and the rules that matter here. */
  datatype Engine = Engine(alerts: seq<Alert>, active: map<Key, real>, hold: real, offlineRule: bool)

  predicate Live(a: Alert) { a.status != Resolved }

  function Close(a: Alert, now: real): Alert { a.(status := Resolved, updatedAt := now) }

  // ------------------------------------------------------------ the engine's operations

  /** `open_alert`: the newest open or acknowledged row for a key. */
  function Newest(alerts: seq<Alert>, key: Key): (o: Option<nat>)
    ensures o.Some? ==> o.value < |alerts| && Live(alerts[o.value]) && alerts[o.value].key == key
    ensures forall i :: (if o.Some? then o.value < i else 0 <= i) && i < |alerts| ==> !(Live(alerts[i]) && alerts[i].key == key)
  {
    if alerts == [] then None
    else
      var n := |alerts| - 1;
      if Live(alerts[n]) && alerts[n].key == key then Some(n) else Newest(alerts[..n], key)
  }

  predicate IsLive(en: Engine, key: Key) { Newest(en.alerts, key).Some? }

  /** `_mark`. */
  function Marked(en: Engine, key: Key, cond: bool, now: real): Engine {
    if !cond then en
    else en.(active := en.active[key := now],
             alerts := if IsLive(en, key) then en.alerts else en.alerts + [Alert(key, Open, now)])
  }

  /** `resolve`. */
  function Resolve(en: Engine, key: Key, now: real): Engine {
    var o := Newest(en.alerts, key);
    en.(active := en.active - {key},
        alerts := if o.None? then en.alerts else en.alerts[o.value := Close(en.alerts[o.value], now)])
  }

  function OnOffline(en: Engine, device: string, now: real): Engine {
    if en.offlineRule then Marked(en, Key(device, OFFLINE), true, now) else en
  }

  function OnOnline(en: Engine, device: string, now: real): Engine {
    if IsLive(en, Key(device, OFFLINE)) then Resolve(en, Key(device, OFFLINE), now) else en
  }

  /** `ack_alert`; an unknown id is refused and changes nothing. */
  function Acknowledged(en: Engine, id: nat, now: real): Engine {
    if id < |en.alerts| && en.alerts[id].status == Open then
      en.(alerts := en.alerts[id := en.alerts[id].(status := Acked, updatedAt := now)])
    else en
  }

  /** At most one open or acknowledged alert per key. */
  ghost predicate Unique(alerts: seq<Alert>) {
    forall i, j :: 0 <= i < j < |alerts| && Live(alerts[i]) && Live(alerts[j]) ==> alerts[i].key != alerts[j].key
  }

  /** How many of the rows `[lo, hi)` are live. */
  function LiveCount(alerts: seq<Alert>, lo: nat, hi: nat): nat
    requires hi <= |alerts|
    decreases hi
  {
    if hi <= lo then 0 else LiveCount(alerts, lo, hi - 1) + (if Live(alerts[hi - 1]) then 1 else 0)
  }

  /** The ids of the newest `limit` live rows, newest first. */
  function OpenIds(alerts: seq<Alert>, n: nat, limit: nat): (ids: seq<nat>)
    requires n <= |alerts|
    ensures forall k :: 0 <= k < |ids| ==> ids[k] < n && Live(alerts[ids[k]])
    ensures forall j, k :: 0 <= j < k < |ids| ==> ids[k] < ids[j]
  {
    if n == 0 || limit == 0 then []
    else if Live(alerts[n - 1]) then [n - 1] + OpenIds(alerts, n - 1, limit - 1)
    else OpenIds(alerts, n - 1, limit)
  }

  lemma {:induction false} OpenIdsExact(alerts: seq<Alert>, n: nat, limit: nat, i: nat)
    requires n <= |alerts|
    ensures i in OpenIds(alerts, n, limit) <==> i < n && Live(alerts[i]) && LiveCount(alerts, i + 1, n) < limit
    decreases n
  {
    if n > 0 && limit > 0 {
      if Live(alerts[n - 1]) {
        OpenIdsExact(alerts, n - 1, limit - 1, i);
      } else {
        OpenIdsExact(alerts, n - 1, limit, i);
      }
    }
  }

  // ------------------------------------------------------------ what a tick does, row by row

  predicate Due(en: Engine, key: Key, now: real) {
    key in en.active && key.rule != OFFLINE && now - en.active[key] >= en.hold
  }

  function FirstPass(en: Engine, now: real): Engine {
    en.(active := map k | k in en.active && !Due(en, k, now) :: en.active[k],
        alerts := seq(|en.alerts|, i requires 0 <= i < |en.alerts| => ClosedIf(en.alerts[i], Due(en, en.alerts[i].key, now), now)))
  }

  function ClosedIf(a: Alert, cond: bool, now: real): Alert {
    if Live(a) && cond then Close(a, now) else a
  }

  /** A row without in-memory state, among the newest thousand, not touched for the hold time. */
  predicate Orphaned(en: Engine, i: nat, now: real)
    requires i < |en.alerts|
  {
    var a := en.alerts[i];
    && a.key.rule != OFFLINE && a.key !in en.active
    && LiveCount(en.alerts, i + 1, |en.alerts|) < SWEEP_LIMIT
    && now - a.updatedAt >= en.hold
  }

  function SecondPass(en: Engine, now: real): Engine {
    en.(alerts := seq(|en.alerts|, i requires 0 <= i < |en.alerts| => ClosedIf(en.alerts[i], Orphaned(en, i, now), now)))
  }

  function Ticked(en: Engine, now: real): Engine { SecondPass(FirstPass(en, now), now) }

  /** Closing some rows keeps the table free of duplicates. */
  lemma FewerLive(olds: seq<Alert>, news: seq<Alert>)
    requires Unique(olds) && |olds| == |news|
    requires forall i :: 0 <= i < |olds| ==> news[i].key == olds[i].key && (Live(news[i]) ==> Live(olds[i]))
    ensures Unique(news)
  {}

  /** Without duplicates, `resolve` closes every live row of its key and no other. */
  lemma ResolvePointwise(en: Engine, key: Key, now: real)
    requires Unique(en.alerts)
    ensures var r := Resolve(en, key, now);
            && |r.alerts| == |en.alerts|
            && (forall i :: 0 <= i < |en.alerts| ==> r.alerts[i] == ClosedIf(en.alerts[i], en.alerts[i].key == key, now))
            && Unique(r.alerts) && !IsLive(r, key)
  {
    FewerLive(en.alerts, Resolve(en, key, now).alerts);
  }

  class AnomalyEngine {
    var alerts: seq<Alert>
    var active: map<Key, real>
    var hold: real
    var offlineRule: bool

    ghost function View(): Engine
      reads this
    {
      Engine(alerts, active, hold, offlineRule)
    }

    ghost predicate Valid()
      reads this
    {
      Unique(alerts)
    }

    method OpenAlert(key: Key) returns (o: Option<nat>)
      ensures o == Newest(alerts, key)
    {
      var n: nat := |alerts|;
      assert alerts[..n] == alerts;
      while n > 0
        invariant n <= |alerts|
        invariant Newest(alerts, key) == Newest(alerts[..n], key)
      {
        assert alerts[..n][..n - 1] == alerts[..n - 1];
        n := n - 1;
        if Live(alerts[n]) && alerts[n].key == key {
          return Some(n);
        }
      }
      o := None;
    }

    method Mark(key: Key, cond: bool, now: real)
      requires Valid()
      modifies this
      ensures View() == Marked(old(View()), key, cond, now) && Valid()
    {
      if cond {
        active := active[key := now];
        var o := OpenAlert(key);
        if o.None? {
          alerts := alerts + [Alert(key, Open, now)];
        }
      }
    }

    method ResolveRule(key: Key, now: real)
      requires Valid()
      modifies this
      ensures View() == Resolve(old(View()), key, now) && Valid()
    {
      ResolvePointwise(View(), key, now);
      var o := OpenAlert(key);
      active := active - {key};
      if o.Some? {
        alerts := alerts[o.value := alerts[o.value].(status := Resolved, updatedAt := now)];
      }
    }

    method Ack(id: nat, now: real) returns (found: bool)
      requires Valid()
      modifies this
      ensures View() == Acknowledged(old(View()), id, now) && Valid()
      ensures found <==> id < |old(alerts)|
    {
      found := id < |alerts|;
      if found && alerts[id].status == Open {
        alerts := alerts[id := alerts[id].(status := Acked, updatedAt := now)];
      }
    }

    method GoneOffline(device: string, now: real)
      requires Valid()
      modifies this
      ensures View() == OnOffline(old(View()), device, now) && Valid()
    {
      if offlineRule {
        Mark(Key(device, OFFLINE), true, now);
      }
    }

    method BackOnline(device: string, now: real)
      requires Valid()
      modifies this
      ensures View() == OnOnline(old(View()), device, now) && Valid()
    {
      var o := OpenAlert(Key(device, OFFLINE));
      if o.Some? {
        ResolveRule(Key(device, OFFLINE), now);
      }
    }

    /** First the remembered conditions, in whatever order the dictionary gives them. */
    method TickActive(now: real)
      requires Valid()
      modifies this
      ensures View() == FirstPass(old(View()), now) && Valid()
    {
      hide Newest, Unique;
      ghost var en := View();
      var todo := active.Keys;
      while todo != {}
        invariant Valid() && hold == en.hold && offlineRule == en.offlineRule && todo <= en.active.Keys
        invariant |alerts| == |en.alerts|
        invariant active == map k | k in en.active && (k in todo || !Due(en, k, now)) :: en.active[k]
        invariant forall i :: 0 <= i < |alerts| ==>
          alerts[i] == ClosedIf(en.alerts[i], en.alerts[i].key !in todo && Due(en, en.alerts[i].key, now), now)
        decreases todo
      {
        var key :| key in todo;
        todo := todo - {key};
        if key.rule != OFFLINE && now - active[key] >= hold {
          ResolvePointwise(View(), key, now);
          ResolveRule(key, now);
        }
      }
      assert alerts == FirstPass(en, now).alerts;
    }

    /** Then the rows that no remembered condition covers. */
    method TickTable(now: real)
      requires Valid()
      modifies this
      ensures View() == SecondPass(old(View()), now) && Valid()
    {
      hide Newest, OpenIds, LiveCount, Unique;
      ghost var en := View();
      var rows := alerts;
      var ids := OpenIds(rows, |rows|, SWEEP_LIMIT);
      var k: nat := 0;
      while k < |ids|
        invariant k <= |ids|
        invariant Valid() && hold == en.hold && offlineRule == en.offlineRule && active == en.active
        invariant Swept(en, alerts, ids[..k], now)
      {
        var id := ids[k];
        var a := rows[id];
        SweepOne(en, View(), ids[..k], id, now);
        assert ids[..k + 1] == ids[..k] + [id];
        if a.key.rule != OFFLINE && a.key !in active && now - a.updatedAt >= hold {
          ResolveRule(a.key, now);
        }
        k := k + 1;
      }
      assert ids[..k] == ids;
      SweptAll(en, alerts, now);
    }

    method Tick(now: real)
      requires Valid()
      modifies this
      ensures View() == Ticked(old(View()), now) && Valid()
    {
      TickActive(now);
      TickTable(now);
    }
  }

  /** `Orphaned` without the limit on the number of rows. */
  predicate Sweepable(en: Engine, i: nat, now: real)
    requires i < |en.alerts|
  {
    var a := en.alerts[i];
    a.key.rule != OFFLINE && a.key !in en.active && now - a.updatedAt >= en.hold
  }

  /** The table once the rows `done` have been looked at. */
  ghost predicate Swept(en: Engine, alerts: seq<Alert>, done: seq<nat>, now: real) {
    && |alerts| == |en.alerts|
    && forall i :: 0 <= i < |alerts| ==> alerts[i] == ClosedIf(en.alerts[i], i in done && Sweepable(en, i, now), now)
  }

  lemma SweepOne(en: Engine, cur: Engine, done: seq<nat>, id: nat, now: real)
    requires Unique(en.alerts) && Unique(cur.alerts) && cur == en.(alerts := cur.alerts)
    requires Swept(en, cur.alerts, done, now) && id < |en.alerts| && Live(en.alerts[id])
    ensures Sweepable(en, id, now) ==> Swept(en, Resolve(cur, en.alerts[id].key, now).alerts, done + [id], now)
    ensures Sweepable(en, id, now) ==> Resolve(cur, en.alerts[id].key, now).active == en.active
    ensures !Sweepable(en, id, now) ==> Swept(en, cur.alerts, done + [id], now)
  {
    ResolvePointwise(cur, en.alerts[id].key, now);
    OnlyRow(en.alerts, id);
    hide Unique, Newest, Resolve;
    if Sweepable(en, id, now) {
      assert Resolve(cur, en.alerts[id].key, now).active == en.active by { NotActive(cur, en.alerts[id].key, now); }
    }
  }

  lemma NotActive(en: Engine, key: Key, now: real)
    requires key !in en.active
    ensures Resolve(en, key, now).active == en.active
  {}

  lemma SweptAll(en: Engine, alerts: seq<Alert>, now: real)
    requires Swept(en, alerts, OpenIds(en.alerts, |en.alerts|, SWEEP_LIMIT), now)
    ensures alerts == SecondPass(en, now).alerts
  {
    forall i | 0 <= i < |alerts| ensures alerts[i] == SecondPass(en, now).alerts[i] {
      OpenIdsExact(en.alerts, |en.alerts|, SWEEP_LIMIT, i);
    }
  }

  lemma OnlyRow(rows: seq<Alert>, id: nat)
    requires Unique(rows) && id < |rows| && Live(rows[id])
    ensures forall i :: 0 <= i < |rows| && Live(rows[i]) && rows[i].key == rows[id].key ==> i == id
  {}
}
