/**
 * What the configuration rows say, read off the steps: which status each row carries, which
 * version counts as reported, and that a PUT to a connected device comes all the way back.
 */
module ConfigStatus {
  import opened Common
  import opened ConfigSync

  /** The status that a step writes for version `v`, if it writes one. */
  function Writes(s: State, st: Step, v: nat): Option<Ack>
    requires Enabled(s, st)
  {
    match st
    case Put(_) => if v == NextVersion(s.rows, s.reported) then Some(Pending) else None
    case FinishPush(u, ok) => if u == v then Some(if ok then Sent else Queued) else None
    case BackendRecv(c) =>
      var m := s.links[c].up[0];
      if m == ConfigAck(v, true) then Some(AppliedAck)
      else if m == ConfigAck(v, false) then Some(RejectedAck)
      else None
    case _ => None
  }

  /** The last status written for version `v` in the first `k` steps. */
  function LastWrite(ss: seq<State>, sts: seq<Step>, k: nat, v: nat): Option<Ack>
    requires Follows(ss, sts) && k <= |sts|
  {
    if k == 0 then None
    else
      var w := Writes(ss[k - 1], sts[k - 1], v);
      if w.Some? then w else LastWrite(ss, sts, k - 1, v)
  }

  lemma SetAckStep(rows: seq<Row>, v: nat, a: Ack, i: nat)
    requires i < |rows|
    ensures SetAck(rows, v, a)[i].config == rows[i].config
    ensures SetAck(rows, v, a)[i].ack == if rows[i].config.version == v then a else rows[i].ack
  {}

  lemma SendKeepsRows(s: State, c: Config, m: Down)
    ensures Send(s, m).rows == s.rows && Push(s, c).rows == s.rows
    ensures Send(s, m).reported == s.reported && Push(s, c).reported == s.reported
  {}

  /** How one step changes the rows. */
  ghost predicate RowStep(s: State, st: Step)
    requires Enabled(s, st)
  {
    var t := Next(s, st);
    && |s.rows| <= |t.rows| <= |s.rows| + 1 && (|t.rows| > |s.rows| <==> st.Put?)
    && forall i :: 0 <= i < |t.rows| ==>
         var w := Writes(s, st, t.rows[i].config.version);
         && (i < |s.rows| ==> t.rows[i].config == s.rows[i].config && t.rows[i].ack == if w.Some? then w.value else s.rows[i].ack)
         && (i == |s.rows| ==> w == Some(t.rows[i].ack))
  }

  lemma PutRow(s: State, values: Values)
    requires Increasing(s.rows)
    ensures RowStep(s, Put(values))
  {
    var c := Config(NextVersion(s.rows, s.reported), values);
    HighestIsMax(s.rows);
    hide Highest, Current, Packable;
    SendKeepsRows(s.(rows := s.rows + [Row(c, Pending)]), c, RequestHello);
    var t := Next(s, Put(values));
    assert t.rows == s.rows + [Row(c, Pending)];
  }

  lemma RecvRow(s: State, c: Conn)
    requires Enabled(s, BackendRecv(c))
    ensures RowStep(s, BackendRecv(c))
  {
    hide Current, Packable;
    var m := s.links[c].up[0];
    var t := if s.links[c].greeted then PopUp(s, c) else Register(PopUp(s, c), c);
    if m.Hello? {
      var cur := Current(s.rows);
      if cur.Some? {
        SendKeepsRows(t.(reported := m.v), cur.value.config, RequestHello);
      }
      hide Push;
    }
    assert t.rows == s.rows;
  }

  lemma EveryRow(s: State, st: Step)
    requires Inv(s) && Enabled(s, st)
    ensures RowStep(s, st)
  {
    match st
    case Put(values) => PutRow(s, values);
    case BackendRecv(c) => RecvRow(s, c);
    case AskHello => SendKeepsRows(s, s.cfg, RequestHello);
    case _ => hide Inv, Acceptable;
  }

  /**
   * On every run, a row carries the status that the last step wrote for its version: pending from
   * its PUT, sent or queued from the write after the await, applied or rejected from the
   * device's answer, whichever came last; or what the database held at the start.
   */
  lemma {:induction false} StatusExact(ss: seq<State>, sts: seq<Step>, k: nat, i: nat)
    requires IsRun(ss, sts) && k < |ss| && i < |ss[k].rows|
    ensures var w := LastWrite(ss, sts, k, ss[k].rows[i].config.version);
            if w.Some? then ss[k].rows[i].ack == w.value
            else i < |ss[0].rows| && ss[k].rows[i].ack == ss[0].rows[i].ack
    decreases k
  {
    hide Inv, Init, Next, Enabled, Writes;
    if k > 0 {
      Always(ss, sts, k - 1);
      EveryRow(ss[k - 1], sts[k - 1]);
      if i < |ss[k - 1].rows| {
        StatusExact(ss, sts, k - 1, i);
      }
    }
  }

  // ------------------------------------------------------------ the reported version

  /** The version that a step reports: a HELLO, a HEARTBEAT or a successful acknowledgement. */
  function Reports(s: State, st: Step): Option<nat>
    requires Enabled(s, st)
  {
    if !st.BackendRecv? then None
    else
      match s.links[st.c].up[0]
      case Hello(v) => Some(v)
      case Heartbeat(v) => Some(v)
      case ConfigAck(v, ok) => if ok then Some(v) else None
  }

  lemma ReportStep(s: State, st: Step)
    requires Enabled(s, st)
    ensures Next(s, st).reported == if Reports(s, st).Some? then Reports(s, st).value else s.reported
  {
    hide Current, Packable, Acceptable, Highest;
  }

  function LastReport(ss: seq<State>, sts: seq<Step>, k: nat): Option<nat>
    requires Follows(ss, sts) && k <= |sts|
  {
    if k == 0 then None
    else
      var w := Reports(ss[k - 1], sts[k - 1]);
      if w.Some? then w else LastReport(ss, sts, k - 1)
  }

  /** On every run the reported version is the last one any connection reported, stale ones included. */
  lemma {:induction false} ReportedExact(ss: seq<State>, sts: seq<Step>, k: nat)
    requires IsRun(ss, sts) && k < |ss|
    ensures var w := LastReport(ss, sts, k); ss[k].reported == if w.Some? then w.value else ss[0].reported
    decreases k
  {
    hide Init, Next, Enabled, Reports;
    if k > 0 {
      ReportedExact(ss, sts, k - 1);
      ReportStep(ss[k - 1], sts[k - 1]);
    }
  }

  // ------------------------------------------------------------ the edges of both validations

  /** The device takes rates from 1 to 1000, levels up to 3, any finite temperature and positive limits. */
  lemma DeviceEdges(v: Values, r: real, x: real)
    requires Acceptable(v)
    ensures Acceptable(v.(hz := 1)) && Acceptable(v.(hz := 1000)) && !Acceptable(v.(hz := 0)) && !Acceptable(v.(hz := 1001))
    ensures Acceptable(v.(logLevel := 0)) && Acceptable(v.(logLevel := 3)) && !Acceptable(v.(logLevel := 4))
    ensures Acceptable(v.(temp := Finite(r, x))) && !Acceptable(v.(temp := NotFinite))
    ensures Acceptable(v.(rpm := Finite(r, x))) <==> x > 0.0
    ensures Acceptable(v.(current := Finite(r, x))) <==> x > 0.0
    ensures !Acceptable(v.(rpm := NotFinite)) && !Acceptable(v.(current := NotFinite))
  {}

  /** A frame holds 32-bit versions, 16-bit rates, 8-bit levels, and limits within the f32 range or not finite. */
  lemma FrameEdges(c: Config, r: real, x: real)
    requires Packable(c)
    ensures var v := c.values;
            && Packable(c.(version := 0xFFFF_FFFF)) && !Packable(c.(version := 0x1_0000_0000))
            && Packable(c.(values := v.(hz := 65535))) && !Packable(c.(values := v.(hz := 65536)))
            && Packable(c.(values := v.(logLevel := 255))) && !Packable(c.(values := v.(logLevel := 256)))
            && (Packable(c.(values := v.(rpm := Finite(r, x)))) <==> -F32_OVER < r < F32_OVER)
            && (Packable(c.(values := v.(temp := Finite(r, x)))) <==> -F32_OVER < r < F32_OVER)
            && (Packable(c.(values := v.(current := Finite(r, x)))) <==> -F32_OVER < r < F32_OVER)
            && Packable(c.(values := v.(rpm := NotFinite, temp := NotFinite, current := NotFinite)))
  {}

  // ------------------------------------------------------------ single steps

  /** What the device does with the frame at the head of its queue. */
  lemma DeviceStep(s: State, ok: bool)
    requires Enabled(s, DeviceRecv(ok))
    ensures var (c, l, t) := (s.link.value, s.links[s.link.value], Next(s, DeviceRecv(ok)));
            var m := l.down[0];
            && t.cfg == (if m.ConfigSet? && Acceptable(m.c.values) then m.c else s.cfg)
            && t.link == (if ok then s.link else None) && t.rows == s.rows && t.writer == s.writer && t.reported == s.reported
            && t.applied == s.applied + (if m.ConfigSet? && Acceptable(m.c.values) then {m.c} else {})
            && t.rejected == s.rejected + (if m.ConfigSet? && !Acceptable(m.c.values) then {m.c} else {})
            && t.links == s.links[c := l.(down := l.down[1..], up := l.up + if ok then [Answer(s.cfg.version, m)] else [])]
  {
    hide Acceptable;
    var (c, l, t) := (s.link.value, s.links[s.link.value], Next(s, DeviceRecv(ok)));
    var l' := l.(down := l.down[1..], up := l.up + if ok then [Answer(s.cfg.version, l.down[0])] else []);
    assert l.up + [] == l.up;
    assert t.links == s.links[c := l'] by {
      assert t.links[c] == l';
    }
  }

  /** The device's answer to a frame. */
  function Answer(version: nat, m: Down): Up {
    match m
    case RequestHello => Hello(version)
    case ConfigSet(c) => ConfigAck(c.version, Acceptable(c.values))
  }

  /** Losing a connection: the device forgets it, the backend stops writing, or its handler ends. */
  lemma LinkSteps(s: State, c: Conn)
    requires c in s.links
    ensures Next(s, Disconnect) == s.(link := None)
    ensures Next(s, Break(c)) == s.(links := s.links[c := s.links[c].(writable := false)])
    ensures var t := Next(s, Teardown(c));
            && t.links == s.links[c := s.links[c].(live := false, writable := false)]
            && t.writer == (if s.writer == Some(c) then None else s.writer) && t.cfg == s.cfg && t.rows == s.rows
  {}

  // ------------------------------------------------------------ all the way and back

  /** Connected, registered, answered, and nothing in flight. */
  ghost predicate Idle(s: State, c: Conn) {
    && Quiescent(s) && s.link == Some(c) && s.links[c].greeted && s.links[c].live
  }

  lemma PutOnIdle(s: State, c: Conn, values: Values)
    requires Idle(s, c)
    ensures var k := Config(NextVersion(s.rows, s.reported), values);
            var t := Next(s, Put(values));
            Packable(k) ==> t.cfg == s.cfg && t.link == s.link && t.writer == s.writer && t.rows == s.rows + [Row(k, Pending)]
                            && c in t.links && t.links[c] == s.links[c].(down := [ConfigSet(k)])
  {
    hide Highest, Packable;
  }

  lemma AckOnLink(s: State, c: Conn, v: nat, ok: bool)
    requires c in s.links && s.links[c].live && s.links[c].greeted && s.links[c].up == [ConfigAck(v, ok)]
    ensures var t := Next(s, BackendRecv(c));
            && t.rows == SetAck(s.rows, v, if ok then AppliedAck else RejectedAck) && t.reported == (if ok then v else s.reported)
            && t.cfg == s.cfg && t.link == s.link && t.writer == s.writer && c in t.links && t.links[c] == s.links[c].(up := [])
  {
    assert s.links[c].up[1..] == [];
  }

  /**
   * From every idle state a PUT that can be packed, the device's turn and the backend's turn lead
   * to an idle state again.  The new row is the current one; if the device accepts the values it
   * holds them and the row is marked applied and reported, otherwise it holds what it held and
   * the row is marked rejected.
   */
  lemma PutRoundTrip(s: State, c: Conn, values: Values)
    requires Inv(s) && Idle(s, c) && Packable(Config(NextVersion(s.rows, s.reported), values))
    ensures var k := Config(NextVersion(s.rows, s.reported), values);
            var s1 := Next(s, Put(values));
            Enabled(s1, DeviceRecv(true)) && var s2 := Next(s1, DeviceRecv(true));
            Enabled(s2, BackendRecv(c)) && var s3 := Next(s2, BackendRecv(c));
            && Idle(s3, c) && Current(s3.rows) == Some(Row(k, if Acceptable(values) then AppliedAck else RejectedAck))
            && s3.cfg == (if Acceptable(values) then k else s.cfg)
            && s3.reported == (if Acceptable(values) then k.version else s.reported)
  {
    hide Highest, Packable, Acceptable;
    var k := Config(NextVersion(s.rows, s.reported), values);
    var s1 := Next(s, Put(values));
    PutOnIdle(s, c, values);
    DeviceStep(s1, true);
    var s2 := Next(s1, DeviceRecv(true));
    assert s2.links[c].up == [ConfigAck(k.version, Acceptable(values))] && s2.links[c].down == [];
    AckOnLink(s2, c, k.version, Acceptable(values));
    LastRowAcked(s.rows, s.reported, k, if Acceptable(values) then AppliedAck else RejectedAck);
    hide Next;
  }

  lemma LastRowAcked(rows: seq<Row>, reported: nat, k: Config, a: Ack)
    requires Increasing(rows) && k.version == NextVersion(rows, reported)
    ensures Current(SetAck(rows + [Row(k, Pending)], k.version, a)) == Some(Row(k, a))
  {
    AppendRow(rows, Row(k, Pending));
    var all := rows + [Row(k, Pending)];
    SetAckKeeps(all, k.version, a);
    var r := SetAck(all, k.version, a);
    CurrentIsLast(r);
    assert r[|rows|] == Row(k, a);
  }
}
