/**
 * Configuration over the control channel: one device, the backend's rows for it, and any
 * number of TCP connections with a FIFO queue each way
 * (firmware/src/agent.cpp:595-634, backend/app/ingest.py:189-314, backend/app/db.py:329-348).
 *
 * The device applies every valid CONFIG_SET without looking at its version.  What the rows say
 * and what the device holds are tied together here over all runs, new device processes of any
 * version included; module ConfigVersion adds when the version cannot go back.
 *
 * A step is one uninterrupted stretch of the event loop or of the agent's loop.  The
 * `ack_status` that `push_config` writes after its await is a step of its own.
 */
module ConfigSync {
  import opened Common

  type Conn = nat

  const MAX_U32 := 0x1_0000_0000

  /** Numbers from here on round to more than the largest f32: 2^128 - 2^103. */
  const F32_OVER := 340282356779733661637539395458142568448.0

  /** A stored number and the f32 it packs to, whatever rounding makes of it; or an infinity or NaN. */
  datatype Limit = Finite(r: real, single: real) | NotFinite

  datatype Values = Values(hz: nat, logLevel: nat, rpm: Limit, temp: Limit, current: Limit)

  datatype Config = Config(version: nat, values: Values)

  /** The agent's validation of a CONFIG_SET. */
  predicate Acceptable(v: Values) {
    && 1 <= v.hz <= 1000 && v.logLevel <= 3
    && v.rpm.Finite? && v.rpm.single > 0.0 && v.temp.Finite? && v.current.Finite? && v.current.single > 0.0
  }

  predicate LimitPacks(l: Limit) { l.Finite? ==> -F32_OVER < l.r < F32_OVER }

  /** `struct.pack("<IHBBfff", ...)` succeeds. */
  predicate Packable(c: Config) {
    && c.version < MAX_U32 && c.values.hz < 0x1_0000 && c.values.logLevel < 0x100
    && LimitPacks(c.values.rpm) && LimitPacks(c.values.temp) && LimitPacks(c.values.current)
  }

  /** `handleConfigSet`: an acceptable configuration replaces the old one, whatever its version. */
  function Applied(old_: Config, c: Config): Config {
    if Acceptable(c.values) then c else old_
  }

  datatype Ack = Pending | Queued | Sent | AppliedAck | RejectedAck

  datatype Row = Row(config: Config, ack: Ack)

  datatype Up = Hello(v: nat) | Heartbeat(v: nat) | ConfigAck(v: nat, applied: bool)

  datatype Down = ConfigSet(c: Config) | RequestHello

  /**
   * One TCP connection.  `hello` is the version announced in its first frame, `greeted` that
   * the backend has handled that frame, `live` that the backend's handler still runs, and
   * `writable` that its transport still takes writes.
   */
  datatype Link = Link(up: seq<Up>, down: seq<Down>, hello: nat, greeted: bool, live: bool, writable: bool)

  /**
   * `pushes` are the versions whose `push_config` has an `ack_status` write outstanding.
   * `applied`, `rejected` and `floor` (the lowest version any process booted with) are history.
   */
  datatype State = State(cfg: Config, link: Option<Conn>,
                         rows: seq<Row>, reported: nat, writer: Option<Conn>, pushes: set<nat>,
                         links: map<Conn, Link>,
                         applied: set<Config>, rejected: set<Config>, floor: nat)

  // ------------------------------------------------------------ the backend's table

  /** `current_config`: the row with the highest version. */
  function Current(rows: seq<Row>): Option<Row> {
    if rows == [] then None
    else
      var last := rows[|rows| - 1];
      var best := Current(rows[..|rows| - 1]);
      if best.Some? && best.value.config.version > last.config.version then best else Some(last)
  }

  function Highest(rows: seq<Row>): nat {
    var r := Current(rows);
    if r.Some? then r.value.config.version else 0
  }

  /** `UPDATE device_config SET ack_status=? WHERE version=?` */
  function SetAck(rows: seq<Row>, v: nat, a: Ack): (r: seq<Row>)
    ensures |r| == |rows|
    ensures forall i :: 0 <= i < |rows| ==> r[i] == if rows[i].config.version == v then rows[i].(ack := a) else rows[i]
  {
    seq(|rows|, i requires 0 <= i < |rows| => if rows[i].config.version == v then rows[i].(ack := a) else rows[i])
  }

  /** The `device_config` rows of one device and the version it last reported. */
  class ConfigTable {
    var rows: seq<Row>
    var reported: nat

    method CurrentConfig() returns (best: Option<Row>)
      ensures best == Current(rows)
    {
      best := None;
      for i := 0 to |rows|
        invariant best == Current(rows[..i])
      {
        assert rows[..i + 1][..i] == rows[..i];
        if best.None? || best.value.config.version <= rows[i].config.version {
          best := Some(rows[i]);
        }
      }
      assert rows[..|rows|] == rows;
    }

    /** The new row is newer than every stored one and than the reported version. */
    method NewConfig(values: Values) returns (c: Config)
      modifies this
      ensures reported == old(reported) && rows == old(rows) + [Row(c, Pending)]
      ensures c == Config(NextVersion(old(rows), reported), values)
      ensures c.version > reported && forall i :: 0 <= i < |old(rows)| ==> old(rows)[i].config.version < c.version
    {
      HighestIsMax(rows);
      hide Current;
      var best := CurrentConfig();
      var stored := if best.Some? then best.value.config.version else 0;
      c := Config((if stored > reported then stored else reported) + 1, values);
      rows := rows + [Row(c, Pending)];
    }

    method AckConfig(v: nat, a: Ack)
      modifies this
      ensures reported == old(reported) && rows == SetAck(old(rows), v, a)
    {
      for i := 0 to |rows|
        invariant reported == old(reported) && |rows| == |old(rows)|
        invariant forall k :: 0 <= k < i ==> rows[k] == SetAck(old(rows), v, a)[k]
        invariant forall k :: i <= k < |rows| ==> rows[k] == old(rows)[k]
      {
        if rows[i].config.version == v {
          rows := rows[i := rows[i].(ack := a)];
        }
      }
    }
  }

  lemma {:induction false} HighestIsMax(rows: seq<Row>)
    ensures forall i :: 0 <= i < |rows| ==> rows[i].config.version <= Highest(rows)
    decreases |rows|
  {
    if rows != [] {
      HighestIsMax(rows[..|rows| - 1]);
    }
  }

  // ------------------------------------------------------------ steps

  datatype Step =
    | Put(values: Values)                 // PUT /config: new row, pushed if a writer takes it
    | FinishPush(v: nat, ok: bool)        // the ack_status write after the await
    | AskHello                            // CMD request_hello
    | Connect(c: Conn)                    // the agent connects and sends HELLO
    | Disconnect                          // tcpFail, or a simulated reboot
    | Beat                                // HEARTBEAT
    | DeviceRecv(sendOk: bool)            // the agent handles one frame; its reply may fail
    | BackendRecv(c: Conn)                // a connection's handler dispatches one frame
    | Teardown(c: Conn)                   // that handler ends
    | Break(c: Conn)                      // the backend's transport starts closing
    | Restart(boot: Config)               // a new device process

  /** A registered writer takes writes. */
  predicate Takes(s: State) {
    s.writer.Some? && s.writer.value in s.links && s.links[s.writer.value].writable
  }

  /** Writes `m` to the registered writer, if it takes it. */
  function Send(s: State, m: Down): State {
    if Takes(s) then
      var l := s.links[s.writer.value];
      s.(links := s.links[s.writer.value := l.(down := l.down + [m])])
    else s
  }

  /** `push_config` raises: there is a writer, and the frame cannot be packed for it. */
  predicate Raises(s: State, c: Config) { Takes(s) && !Packable(c) }

  /** `push_config`; when it raises nothing is sent and no status is written. */
  function Push(s: State, c: Config): State {
    if Raises(s, c) then s else Send(s.(pushes := s.pushes + {c.version}), ConfigSet(c))
  }

  /** The `finally` block of a connection's handler. */
  function EndHandler(s: State, c: Conn): State
    requires c in s.links
  {
    s.(links := s.links[c := s.links[c].(live := false, writable := false)],
       writer := if s.writer == Some(c) then None else s.writer)
  }

  /** `new_config`: one above both the highest stored and the last reported version. */
  function NextVersion(rows: seq<Row>, reported: nat): nat {
    (if Highest(rows) > reported then Highest(rows) else reported) + 1
  }

  function DeviceSend(s: State, m: Up): State {
    if s.link.Some? && s.link.value in s.links then
      var l := s.links[s.link.value];
      s.(links := s.links[s.link.value := l.(up := l.up + [m])])
    else s
  }

  /** A reply that cannot be sent drops the connection. */
  function Reply(s: State, m: Up, ok: bool): State {
    if ok then DeviceSend(s, m) else s.(link := None)
  }

  /** `handleFrame` on the device. */
  function DeviceHandle(s: State, m: Down, ok: bool): State {
    match m
    case RequestHello => Reply(s, Hello(s.cfg.version), ok)
    case ConfigSet(c) => Reply(Absorb(s, c), ConfigAck(c.version, Acceptable(c.values)), ok)
  }

  function Absorb(s: State, c: Config): State {
    if Acceptable(c.values) then s.(cfg := Applied(s.cfg, c), applied := s.applied + {c})
    else s.(rejected := s.rejected + {c})
  }

  /** `_register`: the newest connection becomes the writer and the one before it is closed. */
  function Register(s: State, c: Conn): State
    requires c in s.links
  {
    var links := if s.writer.Some? && s.writer.value != c && s.writer.value in s.links
                 then s.links[s.writer.value := s.links[s.writer.value].(writable := false)] else s.links;
    s.(writer := Some(c), links := links[c := links[c].(greeted := true)])
  }

  /** `_dispatch` in the handler of connection `c`, with `_after_hello`; an exception ends the handler. */
  function Dispatch(s: State, c: Conn, m: Up): State
    requires c in s.links
  {
    match m
    case Hello(v) =>
      var t := s.(reported := v);
      var cur := Current(t.rows);
      if cur.None? || cur.value.config.version <= v then t
      else if Raises(t, cur.value.config) then EndHandler(t, c)
      else Push(t, cur.value.config)
    case Heartbeat(v) => s.(reported := v)
    case ConfigAck(v, ok) =>
      var t := s.(rows := SetAck(s.rows, v, if ok then AppliedAck else RejectedAck));
      if ok then t.(reported := v) else t
  }

  function PopUp(s: State, c: Conn): State
    requires c in s.links && s.links[c].up != []
  {
    s.(links := s.links[c := s.links[c].(up := s.links[c].up[1..])])
  }

  function PopDown(s: State, c: Conn): State
    requires c in s.links && s.links[c].down != []
  {
    s.(links := s.links[c := s.links[c].(down := s.links[c].down[1..])])
  }

  predicate Enabled(s: State, st: Step) {
    match st
    case FinishPush(v, _) => v in s.pushes
    case Connect(c) => s.link.None? && c !in s.links
    case Beat => s.link.Some?
    case DeviceRecv(_) => s.link.Some? && s.link.value in s.links && s.links[s.link.value].down != []
    case BackendRecv(c) => c in s.links && s.links[c].live && s.links[c].up != []
    case Teardown(c) => c in s.links
    case Break(c) => c in s.links
    case _ => true
  }

  function Next(s: State, st: Step): State
    requires Enabled(s, st)
  {
    match st
    case Put(values) =>
      var c := Config(NextVersion(s.rows, s.reported), values);
      Push(s.(rows := s.rows + [Row(c, Pending)]), c)
    case FinishPush(v, ok) => s.(rows := SetAck(s.rows, v, if ok then Sent else Queued))
    case AskHello => Send(s, RequestHello)
    case Connect(c) =>
      s.(link := Some(c), links := s.links[c := Link([Hello(s.cfg.version)], [], s.cfg.version, false, true, true)])
    case Disconnect => s.(link := None)
    case Beat => DeviceSend(s, Heartbeat(s.cfg.version))
    case DeviceRecv(ok) => DeviceHandle(PopDown(s, s.link.value), s.links[s.link.value].down[0], ok)
    case BackendRecv(c) =>
      var t := PopUp(s, c);
      Dispatch(if s.links[c].greeted then t else Register(t, c), c, s.links[c].up[0])
    case Teardown(c) => EndHandler(s, c)
    case Break(c) => s.(links := s.links[c := s.links[c].(writable := false)])
    case Restart(boot) =>
      s.(cfg := boot, link := None, floor := if boot.version < s.floor then boot.version else s.floor)
  }

  /** Any database, no connection yet, a device that just booted. */
  ghost predicate Init(s: State) {
    && s.link.None? && s.links == map[] && s.writer.None? && s.floor == s.cfg.version
    && Increasing(s.rows) && s.rejected == {}
    && forall i :: 0 <= i < |s.rows| ==> s.rows[i].ack.AppliedAck? ==> s.rows[i].config in s.applied
  }

  // ------------------------------------------------------------ the invariant

  predicate Increasing(rows: seq<Row>) {
    forall i, j :: 0 <= i < j < |rows| ==> rows[i].config.version < rows[j].config.version
  }

  predicate HasRow(rows: seq<Row>, c: Config) {
    exists i :: 0 <= i < |rows| && rows[i].config == c
  }

  /** An acknowledgement of success names a row that was applied. */
  predicate UpOk(s: State, m: Up) {
    m.ConfigAck? && m.applied ==> AppliedRow(s, m.v)
  }

  /** The device applied exactly the row with version `v`. */
  predicate AppliedRow(s: State, v: nat) {
    exists i :: 0 <= i < |s.rows| && s.rows[i].config.version == v && s.rows[i].config in s.applied
  }

  predicate UpsOk(s: State, up: seq<Up>) {
    forall i :: 0 <= i < |up| ==> UpOk(s, up[i])
  }

  predicate DownsOk(rows: seq<Row>, down: seq<Down>) {
    forall i :: 0 <= i < |down| && down[i].ConfigSet? ==> HasRow(rows, down[i].c)
  }

  /** In-flight versions never go down along a queue. */
  predicate Ordered(down: seq<Down>) {
    forall i, j :: 0 <= i < j < |down| && down[i].ConfigSet? && down[j].ConfigSet? ==> down[i].c.version <= down[j].c.version
  }

  predicate AtLeast(down: seq<Down>, v: nat) {
    forall i :: 0 <= i < |down| && down[i].ConfigSet? ==> v <= down[i].c.version
  }

  predicate LinkOk(s: State, l: Link) {
    && UpsOk(s, l.up) && DownsOk(s.rows, l.down) && Ordered(l.down)
    && (!l.greeted ==> l.up != [] && l.up[0] == Hello(l.hello) && l.down == [])
  }

  /** The last CONFIG_SET in the queue is `c`. */
  predicate EndsWith(down: seq<Down>, c: Config) {
    exists i :: 0 <= i < |down| && down[i] == ConfigSet(c) && forall j :: i < j < |down| ==> down[j].RequestHello?
  }

  /** The current row is on its way to the device, held by it, or was refused by it. */
  predicate Settling(s: State, down: seq<Down>, c: Config) {
    EndsWith(down, c) || s.cfg == c || c in s.rejected
  }

  /** The device still runs what it announced, or a row that nothing in its queue is older than. */
  predicate Fresher(s: State, l: Link) {
    s.cfg.version == l.hello || (AtLeast(l.down, s.cfg.version) && s.cfg.version <= Highest(s.rows))
  }

  ghost predicate Core(s: State) {
    && Increasing(s.rows)
    && (forall c :: c in s.links ==> LinkOk(s, s.links[c]))
    && (s.writer.Some? ==> s.writer.value in s.links && s.links[s.writer.value].greeted)
    && (s.link.Some? ==> s.link.value in s.links && Fresher(s, s.links[s.link.value]))
    && (forall i :: 0 <= i < |s.rows| && s.rows[i].ack.AppliedAck? ==> s.rows[i].config in s.applied)
    && (forall c :: c in s.rejected ==> !Acceptable(c.values))
  }

  ghost predicate Inv(s: State) {
    Core(s) && SettleInv(s)
  }

  /** While the agent's connection is the writer and takes writes, anything newer than its HELLO settles. */
  predicate SettleInv(s: State) {
    s.link.Some? && s.link == s.writer && s.link.value in s.links && s.links[s.link.value].writable ==>
      var l := s.links[s.link.value];
      var cur := Current(s.rows);
      cur.Some? && cur.value.config.version > l.hello && Packable(cur.value.config) ==> Settling(s, l.down, cur.value.config)
  }

  // ------------------------------------------------------------ the invariant is inductive

  lemma {:induction false} CurrentIsLast(rows: seq<Row>)
    requires Increasing(rows) && rows != []
    ensures Current(rows) == Some(rows[|rows| - 1])
    ensures forall i :: 0 <= i < |rows| ==> rows[i].config.version <= Highest(rows)
  {
    if |rows| > 1 {
      CurrentIsLast(rows[..|rows| - 1]);
    }
  }

  lemma RowBelow(rows: seq<Row>, c: Config)
    requires Increasing(rows) && HasRow(rows, c)
    ensures c.version <= Highest(rows)
  {
    CurrentIsLast(rows);
  }

  lemma SetAckKeeps(rows: seq<Row>, v: nat, a: Ack)
    requires Increasing(rows)
    ensures Increasing(SetAck(rows, v, a)) && Highest(SetAck(rows, v, a)) == Highest(rows)
    ensures Current(rows).Some? <==> Current(SetAck(rows, v, a)).Some?
    ensures Current(rows).Some? ==> Current(SetAck(rows, v, a)).value.config == Current(rows).value.config
  {
    var r := SetAck(rows, v, a);
    assert forall i :: 0 <= i < |rows| ==> r[i].config == rows[i].config;
    if rows != [] {
      CurrentIsLast(rows);
      CurrentIsLast(r);
    }
  }

  /** Rows only gain and applications only accumulate. */
  predicate Later(s: State, t: State) {
    && |s.rows| <= |t.rows| && (forall i :: 0 <= i < |s.rows| ==> t.rows[i].config == s.rows[i].config)
    && s.applied <= t.applied
  }

  lemma LinkLater(s: State, t: State, l: Link)
    requires Later(s, t) && LinkOk(s, l)
    ensures LinkOk(t, l)
  {
    forall i | 0 <= i < |l.up| ensures UpOk(t, l.up[i]) {
      assert UpOk(s, l.up[i]);
      if l.up[i].ConfigAck? && l.up[i].applied {
        var k :| 0 <= k < |s.rows| && s.rows[k].config.version == l.up[i].v && s.rows[k].config in s.applied;
        assert t.rows[k].config == s.rows[k].config;
      }
    }
    forall i | 0 <= i < |l.down| && l.down[i].ConfigSet? ensures HasRow(t.rows, l.down[i].c) {
      var k :| 0 <= k < |s.rows| && s.rows[k].config == l.down[i].c;
      assert t.rows[k].config == s.rows[k].config;
    }
  }

  lemma LinksLater(s: State, t: State)
    requires Later(s, t) && t.links == s.links && forall c :: c in s.links ==> LinkOk(s, s.links[c])
    ensures forall c :: c in t.links ==> LinkOk(t, t.links[c])
  {
    forall c | c in t.links ensures LinkOk(t, t.links[c]) {
      LinkLater(s, t, s.links[c]);
    }
  }

  /** A message appended to the writer's queue. */
  lemma SendKeeps(s: State, m: Down)
    requires Core(s)
    requires m.ConfigSet? ==> HasRow(s.rows, m.c) && m.c.version == Highest(s.rows)
    ensures Core(Send(s, m))
  {
    hide Current, Highest, Increasing, Acceptable, AppliedRow, HasRow;
    var t := Send(s, m);
    if t != s {
      var w := s.writer.value;
      var l := s.links[w];
      assert t.links[w] == l.(down := l.down + [m]);
      forall c | c in t.links ensures LinkOk(t, t.links[c]) {
        LinkLater(s, t, s.links[c]);
        if c == w {
          forall i | 0 <= i < |l.down| && l.down[i].ConfigSet? ensures l.down[i].c.version <= Highest(s.rows) {
            RowBelow(s.rows, l.down[i].c);
          }
          assert DownsOk(t.rows, t.links[w].down);
          assert Ordered(t.links[w].down);
        }
      }
    }
  }

  lemma PushKeeps(s: State, c: Config)
    requires Core(s) && Current(s.rows).Some? && Current(s.rows).value.config == c
    ensures Inv(Push(s, c))
  {
    CurrentIsLast(s.rows);
    var s1 := s.(pushes := s.pushes + {c.version});
    LinksLater(s, s1);
    assert HasRow(s.rows, c);
    SendKeeps(s1, ConfigSet(c));
    var t := Push(s, c);
    if !Raises(s, c) && t.link.Some? && t.link == t.writer && t.links[t.link.value].writable {
      var l := t.links[t.link.value];
      assert l.down[|l.down| - 1] == ConfigSet(c);
      assert EndsWith(l.down, c);
    }
  }

  lemma AppendRow(rows: seq<Row>, r: Row)
    requires Increasing(rows) && r.config.version > Highest(rows)
    ensures Increasing(rows + [r]) && Current(rows + [r]) == Some(r) && Highest(rows + [r]) == r.config.version
  {
    var all := rows + [r];
    if rows != [] {
      CurrentIsLast(rows);
    }
    assert forall i :: 0 <= i < |rows| ==> all[i] == rows[i] && rows[i].config.version < r.config.version;
    CurrentIsLast(all);
    hide Current;
  }

  lemma PutKeeps(s: State, values: Values)
    requires Inv(s)
    ensures Inv(Next(s, Put(values)))
  {
    hide LinkOk, SettleInv, Current, Increasing, Highest;
    var c := Config(NextVersion(s.rows, s.reported), values);
    var s1 := s.(rows := s.rows + [Row(c, Pending)]);
    AppendRow(s.rows, Row(c, Pending));
    LinksLater(s, s1);
    PushKeeps(s1, c);
  }

  lemma AckKeeps(s: State, v: nat, a: Ack, reported: nat)
    requires Inv(s)
    requires a.AppliedAck? ==> AppliedRow(s, v)
    ensures Inv(s.(rows := SetAck(s.rows, v, a), reported := reported))
  {
    var t := s.(rows := SetAck(s.rows, v, a), reported := reported);
    SetAckKeeps(s.rows, v, a);
    LinksLater(s, t);
    forall i | 0 <= i < |t.rows| && t.rows[i].ack.AppliedAck? ensures t.rows[i].config in t.applied {
      if s.rows[i].config.version == v {
        var k :| 0 <= k < |s.rows| && s.rows[k].config.version == v && s.rows[k].config in s.applied;
        assert i == k;
      }
    }
  }

  lemma AskHelloKeeps(s: State)
    requires Inv(s)
    ensures Inv(Next(s, AskHello))
  {
    hide Current, Highest, Increasing, Acceptable, LinkOk;
    SendKeeps(s, RequestHello);
    var t := Next(s, AskHello);
    if t.link.Some? && t.link == t.writer && t.links[t.link.value].writable {
      var (l, l') := (s.links[s.link.value], t.links[s.link.value]);
      var cur := Current(s.rows);
      if cur.Some? && EndsWith(l.down, cur.value.config) {
        var i :| 0 <= i < |l.down| && l.down[i] == ConfigSet(cur.value.config) && forall j :: i < j < |l.down| ==> l.down[j].RequestHello?;
        assert l'.down[i] == ConfigSet(cur.value.config);
        assert EndsWith(l'.down, cur.value.config);
      }
    }
  }

  lemma ConnectKeeps(s: State, c: Conn)
    requires Inv(s) && Enabled(s, Connect(c))
    ensures Inv(Next(s, Connect(c)))
  {
    hide Current, Highest, Increasing, Acceptable, HasRow, AppliedRow;
    var t := Next(s, Connect(c));
    forall d | d in t.links ensures LinkOk(t, t.links[d]) {
      if d != c {
        LinkLater(s, t, s.links[d]);
      }
    }
  }

  lemma DeviceSendKeeps(s: State, m: Up)
    requires Inv(s) && UpOk(s, m)
    ensures Inv(DeviceSend(s, m))
  {
    hide Current, Highest, Increasing, Acceptable, HasRow;
    var t := DeviceSend(s, m);
    forall d | d in t.links ensures LinkOk(t, t.links[d]) {
      LinkLater(s, t, s.links[d]);
    }
  }

  lemma DeviceRecvKeeps(s: State, ok: bool)
    requires Inv(s) && Enabled(s, DeviceRecv(ok))
    ensures Inv(Next(s, DeviceRecv(ok)))
  {
    hide Current, Highest, Increasing, Acceptable, HasRow, AppliedRow;
    var c := s.link.value;
    var l := s.links[c];
    var m := l.down[0];
    var t := PopDown(s, c);
    forall d | d in t.links ensures LinkOk(t, t.links[d]) {
      LinkLater(s, t, s.links[d]);
    }
    assert Core(t);
    if m.RequestHello? {
      TailSettles(s, l.down);
      assert Inv(t);
      hide Core, SettleInv;
      HelloReplyKeeps(t, ok);
    } else {
      DeviceConfigKeeps(s, t, m.c, ok);
    }
  }

  lemma HelloReplyKeeps(t: State, ok: bool)
    requires Inv(t)
    ensures Inv(Reply(t, Hello(t.cfg.version), ok))
  {
    hide SettleInv, LinkOk, Current, Highest;
    if ok {
      DeviceSendKeeps(t, Hello(t.cfg.version));
    } else {
      DisconnectKeeps(t);
    }
  }

  lemma TailSettles(s: State, down: seq<Down>)
    requires down != [] && down[0].RequestHello?
    ensures forall c :: Settling(s, down, c) ==> Settling(s, down[1..], c)
  {
    forall c | EndsWith(down, c) ensures EndsWith(down[1..], c) {
      var i :| 0 <= i < |down| && down[i] == ConfigSet(c) && forall j :: i < j < |down| ==> down[j].RequestHello?;
      assert down[1..][i - 1] == ConfigSet(c);
    }
  }

  predicate HeadIs(s: State, c: Config) {
    s.link.Some? && s.link.value in s.links && s.links[s.link.value].down != [] && s.links[s.link.value].down[0] == ConfigSet(c)
  }

  lemma AbsorbCore(s: State, t: State, c: Config)
    requires Core(s) && Core(t) && HeadIs(s, c) && t == PopDown(s, s.link.value)
    ensures Core(Absorb(t, c))
  {
    var down := s.links[s.link.value].down;
    assert DownsOk(s.rows, down) && Ordered(down);
    RowBelow(s.rows, c);
    var u := Absorb(t, c);
    LinksLater(t, u);
    assert AtLeast(down[1..], c.version);
  }

  lemma AbsorbSettles(s: State, t: State, c: Config)
    requires Inv(s) && HeadIs(s, c) && t == PopDown(s, s.link.value)
    ensures SettleInv(Absorb(t, c))
  {
    var l := s.links[s.link.value];
    assert DownsOk(s.rows, l.down);
    var cur := Current(s.rows);
    if s.link == s.writer && l.writable && cur.Some? && cur.value.config.version > l.hello && Packable(cur.value.config) {
      HeadSettles(s, Absorb(t, c), l.down, c, cur.value.config);
    }
  }

  lemma HeadHasRow(s: State, c: Config)
    requires Core(s) && HeadIs(s, c)
    ensures HasRow(s.rows, c)
  {
    assert DownsOk(s.rows, s.links[s.link.value].down);
  }

  lemma DeviceConfigKeeps(s: State, t: State, c: Config, ok: bool)
    requires Inv(s) && Core(t) && HeadIs(s, c) && t == PopDown(s, s.link.value)
    ensures Inv(DeviceHandle(t, ConfigSet(c), ok))
  {
    hide LinkOk, SettleInv, Current, Highest, Increasing;
    AbsorbCore(s, t, c);
    AbsorbSettles(s, t, c);
    var u := Absorb(t, c);
    HeadHasRow(s, c);
    if Acceptable(c.values) {
      var i :| 0 <= i < |s.rows| && s.rows[i].config == c;
      assert AppliedRow(u, c.version);
    }
    var m := ConfigAck(c.version, Acceptable(c.values));
    assert UpOk(u, m);
    if ok {
      DeviceSendKeeps(u, m);
    } else {
      DisconnectKeeps(u);
    }
  }

  /** Handling the head of the queue keeps the current row settling. */
  lemma HeadSettles(s: State, u: State, down: seq<Down>, c: Config, cur: Config)
    requires Increasing(s.rows) && down != [] && down[0] == ConfigSet(c) && Settling(s, down, cur)
    requires Current(s.rows).Some? && Current(s.rows).value.config == cur && HasRow(s.rows, c)
    requires s.cfg == cur ==> AtLeast(down, s.cfg.version)
    requires if Acceptable(c.values) then u.cfg == c && u.rejected == s.rejected
             else u.cfg == s.cfg && u.rejected == s.rejected + {c}
    ensures Settling(u, down[1..], cur)
  {
    if EndsWith(down, cur) {
      var i :| 0 <= i < |down| && down[i] == ConfigSet(cur) && forall j :: i < j < |down| ==> down[j].RequestHello?;
      if i > 0 {
        assert down[1..][i - 1] == ConfigSet(cur);
        assert EndsWith(down[1..], cur);
      }
    } else if s.cfg == cur {
      // c is a row at least as new as the newest one
      RowBelow(s.rows, c);
      SameRow(s.rows, c, cur);
    }
  }

  lemma SameRow(rows: seq<Row>, c: Config, d: Config)
    requires Increasing(rows) && HasRow(rows, c) && Current(rows).Some? && Current(rows).value.config == d
    ensures c.version == d.version ==> c == d
  {
    CurrentIsLast(rows);
    assert HasRow(rows, d);
  }

  lemma RegisterKeeps(s: State, c: Conn)
    requires c in s.links && !s.links[c].greeted
    requires Core(s.(links := s.links[c := s.links[c].(up := [Hello(s.links[c].hello)] + s.links[c].up)]))
    ensures Core(Register(s, c))
  {
    hide Current, Highest, Increasing, Acceptable, HasRow, AppliedRow;
    var s0 := s.(links := s.links[c := s.links[c].(up := [Hello(s.links[c].hello)] + s.links[c].up)]);
    var t := Register(s, c);
    forall d | d in t.links ensures LinkOk(t, t.links[d]) {
      LinkLater(s0, t, s0.links[d]);
      if d == c {
        assert forall i :: 0 <= i < |s.links[c].up| ==> s.links[c].up[i] == s0.links[c].up[i + 1];
      }
    }
  }

  lemma BackendRecvKeeps(s: State, c: Conn)
    requires Inv(s) && Enabled(s, BackendRecv(c))
    ensures Inv(Next(s, BackendRecv(c)))
  {
    hide Current, Highest, Increasing, Acceptable, HasRow;
    var l := s.links[c];
    var m := l.up[0];
    assert UpOk(s, m);
    var t := PopUp(s, c);
    if l.greeted {
      forall d | d in t.links ensures LinkOk(t, t.links[d]) {
        LinkLater(s, t, s.links[d]);
      }
      assert Inv(t) && UpOk(t, m);
      GreetedKeeps(t, c, m);
    } else {
      FirstFrameKeeps(s, c);
    }
  }

  lemma GreetedKeeps(t: State, c: Conn, m: Up)
    requires Inv(t) && UpOk(t, m) && c in t.links
    ensures Inv(Dispatch(t, c, m))
  {
    hide Current, Highest, Increasing, Acceptable, HasRow;
    match m
    case Hello(v) => HelloKeeps(t, c, v);
    case Heartbeat(v) => LinksLater(t, t.(reported := v));
    case ConfigAck(v, ok) => AckKeeps(t, v, if ok then AppliedAck else RejectedAck, if ok then v else t.reported);
  }

  lemma HelloKeeps(t: State, c: Conn, v: nat)
    requires Inv(t) && c in t.links
    ensures Inv(Dispatch(t, c, Hello(v)))
  {
    var u := t.(reported := v);
    LinksLater(t, u);
    HelloPush(u, c, v);
  }

  lemma HelloPush(u: State, c: Conn, v: nat)
    requires Core(u) && c in u.links
    requires (Current(u.rows).Some? && Current(u.rows).value.config.version > v) || SettleInv(u)
    ensures u.reported == v ==> Inv(Dispatch(u, c, Hello(v)))
  {
    var cur := Current(u.rows);
    if cur.Some? && cur.value.config.version > v && u.reported == v {
      assert u.(reported := v) == u;
      PushKeeps(u, cur.value.config);
      EndCore(u, c);
      hide Core, Current;
    }
  }

  /** The end of a handler changes no queue. */
  lemma EndCore(s: State, c: Conn)
    requires Core(s) && c in s.links
    ensures Core(EndHandler(s, c))
  {
    hide Current, Highest, Increasing, Acceptable, HasRow, AppliedRow;
    var t := EndHandler(s, c);
    forall d | d in t.links ensures LinkOk(t, t.links[d]) {
      LinkLater(s, t, s.links[d]);
    }
  }

  lemma FirstFrameKeeps(s: State, c: Conn)
    requires Inv(s) && Enabled(s, BackendRecv(c)) && !s.links[c].greeted
    ensures Inv(Next(s, BackendRecv(c)))
  {
    hide Current, Highest, Increasing, Acceptable, HasRow, AppliedRow;
    var h := s.links[c].hello;
    var t := PopUp(s, c);
    FirstFrameCore(s, c);
    var u := Register(t.(reported := h), c);
    hide Core, SettleInv;
    HelloPush(u, c, h);
    assert u == Register(t, c).(reported := h);
    assert Dispatch(Register(t, c), c, Hello(h)) == Dispatch(u, c, Hello(h));
  }

  /** The first frame of a connection is its HELLO; registering it keeps the core. */
  lemma FirstFrameCore(s: State, c: Conn)
    requires Inv(s) && Enabled(s, BackendRecv(c)) && !s.links[c].greeted
    ensures var (h, u) := (s.links[c].hello, Register(PopUp(s, c).(reported := s.links[c].hello), c));
            && s.links[c].up[0] == Hello(h) && u.rows == s.rows
            && Core(u) && ((Current(u.rows).Some? && Current(u.rows).value.config.version > h) || SettleInv(u))
  {
    hide Current, Highest, Increasing, Acceptable, HasRow;
    var l := s.links[c];
    var h := l.hello;
    assert l.up[0] == Hello(h) && UpOk(s, l.up[0]);
    var s1 := s.(reported := h);
    LinksLater(s, s1);
    var t1 := PopUp(s, c).(reported := h);
    assert [Hello(h)] + l.up[1..] == l.up;
    assert t1.(links := t1.links[c := t1.links[c].(up := [Hello(h)] + t1.links[c].up)]) == s1 by {
      assert t1.links[c := t1.links[c].(up := [Hello(h)] + t1.links[c].up)] == s.links;
    }
    assert Core(s1);
    hide LinkOk;
    RegisterKeeps(t1, c);
  }

  lemma RestartKeeps(s: State, boot: Config)
    requires Inv(s)
    ensures Inv(Next(s, Restart(boot)))
  {
    var t := Next(s, Restart(boot));
    LinksLater(s, t);
  }

  lemma LinkChangeKeeps(s: State, c: Conn, live: bool)
    requires Inv(s) && c in s.links
    ensures Inv(Next(s, if live then Break(c) else Teardown(c)))
  {
    hide Current, Highest, Increasing, Acceptable, HasRow, AppliedRow;
    var t := Next(s, if live then Break(c) else Teardown(c));
    forall d | d in t.links ensures LinkOk(t, t.links[d]) {
      LinkLater(s, t, s.links[d]);
    }
  }

  /** Every step, new processes of any version included, keeps the invariant. */
  lemma StepKeeps(s: State, st: Step)
    requires Inv(s) && Enabled(s, st)
    ensures Inv(Next(s, st))
  {
    hide Inv, Core;
    match st
    case Put(values) => PutKeeps(s, values);
    case FinishPush(v, ok) =>
      AckKeeps(s, v, if ok then Sent else Queued, s.reported);
    case AskHello => AskHelloKeeps(s);
    case Connect(c) => ConnectKeeps(s, c);
    case Disconnect => DisconnectKeeps(s);
    case Beat => BeatKeeps(s);
    case DeviceRecv(ok) => DeviceRecvKeeps(s, ok);
    case BackendRecv(c) => BackendRecvKeeps(s, c);
    case Teardown(c) => LinkChangeKeeps(s, c, false);
    case Break(c) => LinkChangeKeeps(s, c, true);
    case Restart(boot) => RestartKeeps(s, boot);
  }

  lemma DisconnectKeeps(s: State)
    requires Inv(s)
    ensures Inv(Next(s, Disconnect))
  {
    LinksLater(s, Next(s, Disconnect));
  }

  lemma BeatKeeps(s: State)
    requires Inv(s)
    ensures Inv(DeviceSend(s, Heartbeat(s.cfg.version)))
  {
    DeviceSendKeeps(s, Heartbeat(s.cfg.version));
  }

  // ------------------------------------------------------------ runs

  /** The states `ss` are those visited by the steps `sts`. */
  predicate Follows(ss: seq<State>, sts: seq<Step>) {
    |ss| == |sts| + 1 && forall i :: 0 <= i < |sts| ==> Enabled(ss[i], sts[i]) && ss[i + 1] == Next(ss[i], sts[i])
  }

  ghost predicate IsRun(ss: seq<State>, sts: seq<Step>) {
    Follows(ss, sts) && Init(ss[0])
  }

  lemma InitInv(s: State)
    requires Init(s)
    ensures Inv(s)
  {}

  lemma {:induction false} Always(ss: seq<State>, sts: seq<Step>, k: nat)
    requires IsRun(ss, sts) && k < |ss|
    ensures Inv(ss[k])
    decreases k
  {
    hide Inv, Init, Next, Enabled;
    if k == 0 {
      InitInv(ss[0]);
    } else {
      Always(ss, sts, k - 1);
      StepKeeps(ss[k - 1], sts[k - 1]);
    }
  }

  /** The device took over `c` at some earlier step of the run. */
  ghost predicate TookOver(ss: seq<State>, sts: seq<Step>, k: nat, c: Config)
    requires |ss| == |sts| + 1 && k < |ss|
  {
    exists n :: 0 <= n < k && sts[n].DeviceRecv? && ss[n + 1].cfg == c
  }

  lemma AppliedGrows(s: State, st: Step, c: Config)
    requires Enabled(s, st) && c in Next(s, st).applied
    ensures c in s.applied || (st.DeviceRecv? && Next(s, st).cfg == c)
  {}

  lemma {:induction false} AppliedHistory(ss: seq<State>, sts: seq<Step>, k: nat, c: Config)
    requires IsRun(ss, sts) && k < |ss| && c in ss[k].applied
    ensures c in ss[0].applied || TookOver(ss, sts, k, c)
    decreases k
  {
    hide Next, Enabled, Init;
    if k > 0 {
      AppliedGrows(ss[k - 1], sts[k - 1], c);
      if c in ss[k - 1].applied {
        AppliedHistory(ss, sts, k - 1, c);
      }
    }
  }

  /**
   * In every run, a row marked "applied" is one whose exact version and values the device
   * took over, in this run or before it.
   */
  lemma AppliedMeansApplied(ss: seq<State>, sts: seq<Step>, k: nat, i: nat)
    requires IsRun(ss, sts) && k < |ss|
    requires i < |ss[k].rows| && ss[k].rows[i].ack.AppliedAck?
    ensures ss[k].rows[i].config in ss[0].applied || TookOver(ss, sts, k, ss[k].rows[i].config)
  {
    Always(ss, sts, k);
    AppliedHistory(ss, sts, k, ss[k].rows[i].config);
  }

  /** Connected, HELLO handled, writes possible, and nothing in flight either way. */
  ghost predicate Quiescent(s: State) {
    && s.link.Some? && s.link == s.writer && s.link.value in s.links
    && var l := s.links[s.link.value]; l.writable && l.up == [] && l.down == []
  }

  /**
   * In every quiescent state of every run the backend's current configuration is held by the
   * device, version and values, or the device refused its values, or it cannot be packed into a
   * frame, or it is no newer than what the device announced when it connected.
   */
  lemma QuiescentAgreement(ss: seq<State>, sts: seq<Step>, k: nat)
    requires IsRun(ss, sts) && k < |ss| && Quiescent(ss[k])
    ensures var s := ss[k];
            var cur := Current(s.rows);
            cur.Some? ==>
              || s.cfg == cur.value.config
              || (cur.value.config in s.rejected && !Acceptable(cur.value.config.values))
              || !Packable(cur.value.config)
              || cur.value.config.version <= s.links[s.link.value].hello
  {
    Always(ss, sts, k);
  }

  // ------------------------------------------------------------ where the promise stops

  function Fresh(boot: Config): State {
    State(boot, None, [], 0, None, {}, map[], {}, {}, boot.version)
  }

  /**
   * A configuration stored before any HELLO gets version 1.  The first HELLO then has it pushed if
   * and only if the device announces version 0 and it can be packed.  A device on its default
   * version 1, or any other, is never sent it: both channels drain and the values may still differ.
   */
  lemma NeverPushed(boot: Config, values: Values) returns (ss: seq<State>, sts: seq<Step>)
    ensures IsRun(ss, sts) && sts == [Put(values), Connect(0), BackendRecv(0)]
    ensures Current(ss[3].rows) == Some(Row(Config(1, values), Pending)) && ss[3].cfg == boot
    ensures Quiescent(ss[3]) <==> boot.version >= 1
    ensures var c := Config(1, values);
            0 in ss[3].links && ss[3].links[0].down == if boot.version == 0 && Packable(c) then [ConfigSet(c)] else []
  {
    hide Next, Current, Packable;
    var row := Row(Config(1, values), Pending);
    var s0 := Fresh(boot);
    var s1 := Next(s0, Put(values));
    PutUnconnected(s0, values);
    OnlyRow(row);
    var s2 := Next(s1, Connect(0));
    PlainSteps(s1, 0, boot);
    var s3 := Next(s2, BackendRecv(0));
    if boot.version >= 1 {
      FirstHello(s2, 0);
    } else {
      FirstHelloPushes(s2, 0, row);
    }
    ss, sts := [s0, s1, s2, s3], [Put(values), Connect(0), BackendRecv(0)];
  }

  /**
   * A first HELLO is handled while a newer row is stored: the row is pushed, or, if it cannot be
   * packed, the connection is ended.  Until a newer row is stored no device below that version
   * stays connected.
   */
  lemma FirstHelloPushes(s: State, c: Conn, row: Row)
    requires c in s.links && s.links[c].live && s.links[c].writable && !s.links[c].greeted
    requires s.links[c].up != [] && s.links[c].up[0].Hello? && s.links[c].down == []
    requires Current(s.rows) == Some(row) && row.config.version > s.links[c].up[0].v
    ensures var t := Next(s, BackendRecv(c));
            && t.cfg == s.cfg && t.link == s.link && t.rows == s.rows && c in t.links
            && (if Packable(row.config) then t.writer == Some(c) && t.links[c].live && t.links[c].down == [ConfigSet(row.config)]
                else t.writer == None && !t.links[c].live && t.links[c].down == [])
  {
    hide Current, Packable;
  }

  // ------------------------------------------------------------ rows that cannot be sent

  /** Quiescent, yet the current row `c` is newer than the HELLO, not held and not refused. */
  ghost predicate Stranded(ss: seq<State>, sts: seq<Step>, k: nat, c: Config) {
    && IsRun(ss, sts) && k < |ss| && Quiescent(ss[k])
    && var s := ss[k];
       && Current(s.rows).Some? && Current(s.rows).value.config == c
       && c.version > s.links[s.link.value].hello && s.cfg != c && c !in s.rejected
  }

  /** A PUT that cannot be packed while the device is connected: stored, and nothing else happens. */
  lemma StrandedBy(c: Config) returns (ss: seq<State>, sts: seq<Step>)
    requires c.version >= 1 && !Packable(c)
    ensures Stranded(ss, sts, 3, c) && sts == [Connect(0), BackendRecv(0), Put(c.values)]
  {
    var boot := Config(c.version - 1, c.values);
    OnlyRow(Row(c, Pending));
    hide Next, Current, Packable;
    var s0 := Fresh(boot);
    PlainSteps(s0, 0, boot);
    var s1 := Next(s0, Connect(0));
    FirstHello(s1, 0);
    var s2 := Next(s1, BackendRecv(0));
    PutRaises(s2, c);
    ss, sts := [s0, s1, s2, Next(s2, Put(c.values))], [Connect(0), BackendRecv(0), Put(c.values)];
  }

  lemma PutRaises(s: State, c: Config)
    requires s.rows == [] && c.version == s.reported + 1 && Raises(s, c)
    ensures Next(s, Put(c.values)) == s.(rows := [Row(c, Pending)])
  {
    assert Current([]) == None;
    assert s.rows + [Row(c, Pending)] == [Row(c, Pending)] && Config(NextVersion(s.rows, s.reported), c.values) == c;
    hide Packable, Current;
  }

  /** Quiescent disagreement on a row newer than the HELLO is possible if and only if that row cannot be packed. */
  lemma StrandedIff(c: Config)
    ensures (exists ss, sts, k: nat :: Stranded(ss, sts, k, c)) <==> c.version >= 1 && !Packable(c)
  {
    hide Packable, IsRun, Current, Acceptable;
    forall ss, sts, k: nat | Stranded(ss, sts, k, c) ensures c.version >= 1 && !Packable(c) {
      QuiescentAgreement(ss, sts, k);
    }
    if c.version >= 1 && !Packable(c) {
      var ss, sts := StrandedBy(c);
    }
  }

  lemma OnlyRow(row: Row)
    ensures Current([]) == None && Current([row]) == Some(row)
  {
    assert [row][..0] == [];
  }

  lemma PutUnconnected(s: State, values: Values)
    requires s.rows == [] && s.reported == 0 && s.writer.None?
    ensures var row := Row(Config(1, values), Pending); Next(s, Put(values)) == s.(rows := [row], pushes := s.pushes + {1})
  {
    assert Current([]) == None;
    assert s.rows + [Row(Config(1, values), Pending)] == [Row(Config(1, values), Pending)];
  }

  lemma PlainSteps(s: State, c: Conn, boot: Config)
    ensures var l := Link([Hello(s.cfg.version)], [], s.cfg.version, false, true, true);
            Enabled(s, Connect(c)) ==> Next(s, Connect(c)) == s.(link := Some(c), links := s.links[c := l])
    ensures Next(s, Restart(boot)) == s.(cfg := boot, link := None, floor := if boot.version < s.floor then boot.version else s.floor)
    ensures s.link == Some(c) && c in s.links ==>
              var l := s.links[c].(up := s.links[c].up + [Heartbeat(s.cfg.version)]);
              Enabled(s, Beat) && Next(s, Beat) == s.(links := s.links[c := l])
  {}

  /** A first HELLO is handled while no newer row is stored. */
  lemma FirstHello(s: State, c: Conn)
    requires c in s.links && s.links[c].live && !s.links[c].greeted && s.links[c].up != [] && s.links[c].up[0].Hello?
    requires Current(s.rows).Some? ==> Current(s.rows).value.config.version <= s.links[c].up[0].v
    ensures var t := Next(s, BackendRecv(c));
            && t == s.(links := t.links, writer := Some(c), reported := s.links[c].up[0].v)
            && t.links.Keys == s.links.Keys
            && t.links[c] == s.links[c].(up := s.links[c].up[1..], greeted := true)
            && forall d :: d in s.links && d != c ==>
                 t.links[d] == if s.writer == Some(d) then s.links[d].(writable := false) else s.links[d]
  {
    hide Current;
  }
}
