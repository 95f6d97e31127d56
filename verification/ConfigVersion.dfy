/**
 * The device's configuration version over whole runs of ConfigSync.  The device checks no
 * version; that it does not go back within one process rests on what the backend has heard.
 * Whether a new process is safe depends on three numbers alone: the lowest version any process
 * booted with, the highest stored row, and the version it boots with.
 */
module ConfigVersion {
  import opened Common
  import opened ConfigSync

  // ------------------------------------------------------------ what every run keeps

  /** No report in flight is below the floor; a refusal is not a report. */
  predicate UpAbove(floor: nat, m: Up) {
    (m.ConfigAck? && !m.applied) || m.v >= floor
  }

  predicate LinkAbove(floor: nat, reported: nat, l: Link) {
    && (forall i :: 0 <= i < |l.up| ==> UpAbove(floor, l.up[i]))
    && (forall i :: 0 <= i < |l.down| && l.down[i].ConfigSet? ==> l.down[i].c.version > floor)
    && (l.greeted ==> reported >= floor)
  }

  /** Nothing the device runs, reports or is sent is below the floor. */
  ghost predicate Reports(s: State) {
    && s.cfg.version >= s.floor
    && forall c :: c in s.links ==> LinkAbove(s.floor, s.reported, s.links[c])
  }

  lemma WriterHeard(s: State)
    requires Inv(s) && Reports(s) && s.writer.Some?
    ensures s.reported >= s.floor
  {
    hide LinkOk, SettleInv;
    assert LinkAbove(s.floor, s.reported, s.links[s.writer.value]);
  }

  lemma SendReports(s: State, m: Down)
    requires Reports(s) && (m.ConfigSet? && s.writer.Some? ==> m.c.version > s.floor)
    ensures Reports(Send(s, m))
  {
    var t := Send(s, m);
    forall c | c in t.links ensures LinkAbove(t.floor, t.reported, t.links[c]) {
      assert LinkAbove(s.floor, s.reported, s.links[c]);
    }
  }

  lemma DispatchReports(s: State, c: Conn, m: Up)
    requires Reports(s) && UpAbove(s.floor, m) && c in s.links
    ensures Reports(Dispatch(s, c, m))
  {
    hide Current, Packable;
    if m.Hello? {
      var u := s.(reported := m.v);
      assert Reports(u);
      var cur := Current(u.rows);
      if cur.Some? && cur.value.config.version > m.v {
        SendReports(u.(pushes := u.pushes + {cur.value.config.version}), ConfigSet(cur.value.config));
      }
    }
  }

  lemma ReplyReports(s: State, m: Up, ok: bool)
    requires Reports(s) && UpAbove(s.floor, m)
    ensures Reports(Reply(s, m, ok))
  {
    var t := Reply(s, m, ok);
    forall c | c in t.links ensures LinkAbove(t.floor, t.reported, t.links[c]) {
      assert LinkAbove(s.floor, s.reported, s.links[c]);
    }
  }

  lemma DeviceHandleReports(s: State, m: Down, ok: bool)
    requires Reports(s) && (m.ConfigSet? ==> m.c.version > s.floor)
    ensures Reports(DeviceHandle(s, m, ok))
  {
    hide Acceptable, LinkAbove, Reply;
    match m
    case RequestHello => ReplyReports(s, Hello(s.cfg.version), ok);
    case ConfigSet(c) => ReplyReports(Absorb(s, c), ConfigAck(c.version, Acceptable(c.values)), ok);
  }

  lemma BackendRecvReports(s: State, c: Conn)
    requires Inv(s) && Reports(s) && Enabled(s, BackendRecv(c))
    ensures Reports(Next(s, BackendRecv(c)))
  {
    hide Current, Highest, Increasing, Acceptable, SettleInv;
    var (l, m, t) := (s.links[c], s.links[c].up[0], PopUp(s, c));
    assert LinkAbove(s.floor, s.reported, l) && LinkOk(s, l);
    assert UpAbove(s.floor, m);
    assert Reports(t);
    if l.greeted {
      DispatchReports(t, c, m);
    } else {
      var u := Register(t.(reported := m.v), c);
      assert Reports(u);
      DispatchReports(u, c, m);
      assert u == Register(t, c).(reported := m.v);
      assert Dispatch(Register(t, c), c, m) == Dispatch(u, c, m);
    }
  }

  lemma PutReports(s: State, values: Values)
    requires Inv(s) && Reports(s)
    ensures Reports(Next(s, Put(values)))
  {
    hide Inv, Highest;
    var c := Config(NextVersion(s.rows, s.reported), values);
    if s.writer.Some? {
      WriterHeard(s);
    }
    SendReports(s.(rows := s.rows + [Row(c, Pending)], pushes := s.pushes + {c.version}), ConfigSet(c));
  }

  /** A restart of any version keeps it too: the floor goes down with the boot version. */
  lemma ReportsStep(s: State, st: Step)
    requires Inv(s) && Reports(s) && Enabled(s, st)
    ensures Reports(Next(s, st))
  {
    match st
    case Put(values) => PutReports(s, values);
    case AskHello => SendReports(s, RequestHello);
    case BackendRecv(c) => BackendRecvReports(s, c);
    case DeviceRecv(ok) =>
      var l := s.links[s.link.value];
      assert LinkAbove(s.floor, s.reported, l);
      DeviceHandleReports(PopDown(s, s.link.value), l.down[0], ok);
    case _ => PlainReports(s, st);
  }

  lemma PlainReports(s: State, st: Step)
    requires Reports(s) && Enabled(s, st) && !(st.Put? || st.AskHello? || st.BackendRecv? || st.DeviceRecv?)
    ensures Reports(Next(s, st))
  {
    hide Inv, Acceptable, Current;
    var t := Next(s, st);
    forall c | c in t.links ensures LinkAbove(t.floor, t.reported, t.links[c]) {
      assert c in s.links ==> LinkAbove(s.floor, s.reported, s.links[c]);
    }
  }

  // ------------------------------------------------------------ what a safe process keeps

  /** A version no higher than the next one after the lowest report, or than a stored row. */
  predicate Safe(floor: nat, highest: nat, version: nat) {
    version <= floor + 1 || version <= highest
  }

  predicate SafeBoot(s: State, boot: Config) { Safe(s.floor, Highest(s.rows), boot.version) }

  /** The device's version is safe, and nothing in its queue is older. */
  ghost predicate Anchored(s: State) {
    && Safe(s.floor, Highest(s.rows), s.cfg.version)
    && (s.link.Some? && s.link.value in s.links ==> AtLeast(s.links[s.link.value].down, s.cfg.version))
  }

  lemma SendAnchored(s: State, m: Down)
    requires Anchored(s) && (m.ConfigSet? && s.writer.Some? ==> m.c.version >= s.cfg.version)
    ensures Anchored(Send(s, m)) && Send(s, m).cfg == s.cfg
  {
    hide Highest;
  }

  lemma PutAnchored(s: State, values: Values)
    requires Inv(s) && Reports(s) && Anchored(s)
    ensures Anchored(Next(s, Put(values))) && Next(s, Put(values)).cfg == s.cfg
  {
    var c := Config(NextVersion(s.rows, s.reported), values);
    AppendRow(s.rows, Row(c, Pending));
    if s.writer.Some? {
      WriterHeard(s);
    }
    hide Highest, Current, Inv, Reports;
    SendAnchored(s.(rows := s.rows + [Row(c, Pending)], pushes := s.pushes + {c.version}), ConfigSet(c));
  }

  lemma DispatchAnchored(s: State, c: Conn, m: Up)
    requires Increasing(s.rows) && Anchored(s) && UpAbove(s.floor, m) && c in s.links
    ensures Anchored(Dispatch(s, c, m)) && Dispatch(s, c, m).cfg == s.cfg
  {
    hide Packable;
    match m
    case Hello(v) =>
      var u := s.(reported := v);
      var cur := Current(u.rows);
      if cur.Some? && cur.value.config.version > v {
        hide Current;
        SendAnchored(u.(pushes := u.pushes + {cur.value.config.version}), ConfigSet(cur.value.config));
      }
    case Heartbeat(_) =>
    case ConfigAck(v, ok) => SetAckKeeps(s.rows, v, if ok then AppliedAck else RejectedAck);
  }

  lemma DeviceRecvAnchored(s: State, ok: bool)
    requires Inv(s) && Anchored(s) && Enabled(s, DeviceRecv(ok))
    ensures Anchored(Next(s, DeviceRecv(ok))) && Next(s, DeviceRecv(ok)).cfg.version >= s.cfg.version
  {
    var l := s.links[s.link.value];
    assert LinkOk(s, l) && AtLeast(l.down, s.cfg.version);
    if l.down[0].ConfigSet? {
      RowBelow(s.rows, l.down[0].c);
      assert AtLeast(l.down[1..], l.down[0].c.version);
    }
    assert AtLeast(l.down[1..], s.cfg.version);
    hide Inv, LinkOk, Highest, Acceptable;
  }

  /** Every step within the process keeps it anchored, and its version does not fall. */
  lemma AnchoredStep(s: State, st: Step)
    requires Inv(s) && Reports(s) && Anchored(s) && Enabled(s, st) && !st.Restart?
    ensures Anchored(Next(s, st)) && Next(s, st).cfg.version >= s.cfg.version
  {
    match st
    case Put(values) => PutAnchored(s, values);
    case FinishPush(v, ok) => SetAckKeeps(s.rows, v, if ok then Sent else Queued);
    case AskHello => SendAnchored(s, RequestHello);
    case DeviceRecv(ok) => DeviceRecvAnchored(s, ok);
    case BackendRecv(c) =>
      assert LinkAbove(s.floor, s.reported, s.links[c]);
      hide Highest, Current;
      var t := PopUp(s, c);
      DispatchAnchored(if s.links[c].greeted then t else Register(t, c), c, s.links[c].up[0]);
    case _ =>
      hide Highest, Inv, Reports;
  }

  lemma BootAnchored(s: State, boot: Config)
    requires SafeBoot(s, boot)
    ensures Anchored(Next(s, Restart(boot)))
  {
    hide Highest;
  }

  // ------------------------------------------------------------ runs

  lemma {:induction false} AlwaysReports(ss: seq<State>, sts: seq<Step>, k: nat)
    requires IsRun(ss, sts) && k < |ss|
    ensures Reports(ss[k])
    decreases k
  {
    hide Inv, Next, Enabled, Reports;
    if k == 0 {
      InitReports(ss[0]);
    } else {
      AlwaysReports(ss, sts, k - 1);
      Always(ss, sts, k - 1);
      ReportsStep(ss[k - 1], sts[k - 1]);
    }
  }

  lemma InitReports(s: State)
    requires Init(s)
    ensures Reports(s) && Anchored(s)
  {}

  /** State `p` is the first of a device process: the first of the run, or one that booted safely. */
  ghost predicate Begins(ss: seq<State>, sts: seq<Step>, p: nat)
    requires |ss| == |sts| + 1
  {
    p == 0 || (p <= |sts| && sts[p - 1].Restart? && SafeBoot(ss[p - 1], sts[p - 1].boot))
  }

  predicate OneProcess(sts: seq<Step>, p: nat, j: nat) {
    forall k :: p <= k < j && k < |sts| ==> !sts[k].Restart?
  }

  lemma {:induction false} AnchoredThroughout(ss: seq<State>, sts: seq<Step>, p: nat, k: nat)
    requires IsRun(ss, sts) && p <= k < |ss| && Begins(ss, sts, p) && OneProcess(sts, p, k)
    ensures Anchored(ss[k])
    decreases k
  {
    hide Inv, Enabled, Reports, Anchored, Next, SafeBoot;
    if k == p {
      if p == 0 {
        InitReports(ss[0]);
      } else {
        BootAnchored(ss[p - 1], sts[p - 1].boot);
      }
    } else {
      AnchoredThroughout(ss, sts, p, k - 1);
      Always(ss, sts, k - 1);
      AlwaysReports(ss, sts, k - 1);
      AnchoredStep(ss[k - 1], sts[k - 1]);
    }
  }

  /**
   * In every run, whatever other processes did, the version of a process that booted safely
   * never decreases, although the device checks no version.
   */
  lemma {:induction false} VersionNeverDecreases(ss: seq<State>, sts: seq<Step>, p: nat, i: nat, j: nat)
    requires IsRun(ss, sts) && p <= i <= j < |ss| && Begins(ss, sts, p) && OneProcess(sts, p, j)
    ensures ss[i].cfg.version <= ss[j].cfg.version
    decreases j
  {
    hide Inv, Enabled, Reports, Anchored, Next, SafeBoot;
    if i < j {
      VersionNeverDecreases(ss, sts, p, i, j - 1);
      AnchoredThroughout(ss, sts, p, j - 1);
      Always(ss, sts, j - 1);
      AlwaysReports(ss, sts, j - 1);
      AnchoredStep(ss[j - 1], sts[j - 1]);
    }
  }

  // ------------------------------------------------------------ single steps of a run, as facts

  function Start(boot: Config, rows: seq<Row>): State { Fresh(boot).(rows := rows) }

  lemma AskFacts(s: State, c: Conn)
    requires s.writer == Some(c) && c in s.links && s.links[c].writable
    ensures Next(s, AskHello) == s.(links := s.links[c := s.links[c].(down := s.links[c].down + [RequestHello])])
  {}

  lemma AnswerFacts(s: State, c: Conn)
    requires s.link == Some(c) && c in s.links && s.links[c].down == [RequestHello]
    ensures var l := s.links[c];
            Next(s, DeviceRecv(true)) == s.(links := s.links[c := l.(down := [], up := l.up + [Hello(s.cfg.version)])])
  {
    var l := s.links[c];
    assert l.down[1..] == [];
    var t := PopDown(s, c);
    assert t.links[c := l.(down := [], up := l.up + [Hello(s.cfg.version)])]
        == s.links[c := l.(down := [], up := l.up + [Hello(s.cfg.version)])];
  }

  lemma ApplyFacts(s: State, c: Conn, k: Config)
    requires s.link == Some(c) && c in s.links && s.links[c].down == [ConfigSet(k)] && Acceptable(k.values)
    ensures Next(s, DeviceRecv(true)).cfg == k
  {
    hide Acceptable;
  }

  lemma PutFacts(s: State, c: Conn, values: Values)
    requires s.writer == Some(c) && c in s.links && s.links[c].writable
    requires Packable(Config(NextVersion(s.rows, s.reported), values))
    ensures var k := Config(NextVersion(s.rows, s.reported), values);
            var l := s.links[c].(down := s.links[c].down + [ConfigSet(k)]);
            Next(s, Put(values)) == s.(rows := s.rows + [Row(k, Pending)], pushes := s.pushes + {k.version}, links := s.links[c := l])
  {
    hide Highest, Packable;
  }

  lemma BeatHeard(s: State, c: Conn)
    requires c in s.links && s.links[c].live && s.links[c].greeted && s.links[c].up != [] && s.links[c].up[0].Heartbeat?
    ensures Next(s, BackendRecv(c)) == PopUp(s, c).(reported := s.links[c].up[0].v)
  {}

  /** A HELLO that is not the first of its connection has the current row pushed to the writer, whoever that is. */
  lemma LateHello(s: State, c: Conn, w: Conn, k: Row)
    requires c in s.links && s.links[c].live && s.links[c].greeted && s.links[c].up != [] && s.links[c].up[0].Hello?
    requires s.writer == Some(w) && w in s.links && w != c && s.links[w].writable
    requires Current(s.rows) == Some(k) && k.config.version > s.links[c].up[0].v && Packable(k.config)
    ensures var t := Next(s, BackendRecv(c));
            t.cfg == s.cfg && t.link == s.link && w in t.links && t.links[w].down == s.links[w].down + [ConfigSet(k.config)]
  {
    hide Current, Packable;
  }

  lemma Joined(ss: seq<State>, sts: seq<Step>, ss': seq<State>, sts': seq<Step>)
    requires Follows(ss, sts) && Follows(ss', sts') && ss[|sts|] == ss'[0]
    ensures Follows(ss + ss'[1..], sts + sts')
  {
    hide Next, Enabled;
    var (all, steps, n) := (ss + ss'[1..], sts + sts', |sts|);
    forall i | 0 <= i < |steps| ensures Enabled(all[i], steps[i]) && all[i + 1] == Next(all[i], steps[i]) {
      if i < n {
        assert all[i] == ss[i] && all[i + 1] == ss[i + 1] && steps[i] == sts[i];
      } else {
        assert all[i] == ss'[i - n] && all[i + 1] == ss'[i - n + 1] && steps[i] == sts'[i - n];
      }
    }
  }

  /** Three stretches of a run put together. */
  lemma Stitched(ss1: seq<State>, sts1: seq<Step>, ss2: seq<State>, sts2: seq<Step>, ss3: seq<State>, sts3: seq<Step>)
    returns (ss: seq<State>, sts: seq<Step>)
    requires Follows(ss1, sts1) && Follows(ss2, sts2) && Follows(ss3, sts3)
    requires ss1[|sts1|] == ss2[0] && ss2[|sts2|] == ss3[0]
    ensures Follows(ss, sts) && sts == sts1 + sts2 + sts3 && |ss| == |sts| + 1
    ensures forall i :: 0 <= i <= |sts1| ==> ss[i] == ss1[i]
    ensures forall i :: 0 <= i <= |sts3| ==> ss[|sts1| + |sts2| + i] == ss3[i]
  {
    hide Next, Enabled;
    Joined(ss1, sts1, ss2, sts2);
    Joined(ss1 + ss2[1..], sts1 + sts2, ss3, sts3);
    ss, sts := (ss1 + ss2[1..]) + ss3[1..], sts1 + sts2 + sts3;
  }

  lemma Lengths(ss: seq<State>, sts: seq<Step>)
    requires Follows(ss, sts)
    ensures |ss| == |sts| + 1
  {}

  // ------------------------------------------------------------ going back by a late heartbeat

  /** The old process leaves a HELLO and a heartbeat behind; the new one connects. */
  lemma TwoProcesses(low: Config, rows: seq<Row>, high: Config) returns (ss: seq<State>, sts: seq<Step>)
    ensures Follows(ss, sts) && sts == [Connect(0), Beat, Restart(high), Connect(1)]
    ensures ss[0] == Start(low, rows) && ss[2].floor == low.version && ss[2].rows == rows
    ensures var s := ss[4];
            && s.cfg == high && s.link == Some(1) && s.writer == None && s.rows == rows && s.links.Keys == {0, 1}
            && s.links[0] == Link([Hello(low.version), Heartbeat(low.version)], [], low.version, false, true, true)
            && s.links[1] == Link([Hello(high.version)], [], high.version, false, true, true)
  {
    hide Next;
    var s0 := Start(low, rows);
    PlainSteps(s0, 0, high);
    var s1 := Next(s0, Connect(0));
    PlainSteps(s1, 0, high);
    var s2 := Next(s1, Beat);
    PlainSteps(s2, 0, high);
    var s3 := Next(s2, Restart(high));
    PlainSteps(s3, 1, high);
    ss, sts := [s0, s1, s2, s3, Next(s3, Connect(1))], [Connect(0), Beat, Restart(high), Connect(1)];
  }

  /** Both HELLOs are handled; the old connection's handler still has a heartbeat to read. */
  lemma BothHellos(s: State, v: nat) returns (ss: seq<State>, sts: seq<Step>)
    requires s.link == Some(1) && s.writer == None && s.links.Keys == {0, 1}
    requires s.links[0] == Link([Hello(v), Heartbeat(v)], [], v, false, true, true)
    requires s.links[1] == Link([Hello(s.cfg.version)], [], s.cfg.version, false, true, true)
    requires Highest(s.rows) <= v <= s.cfg.version
    ensures Follows(ss, sts) && sts == [BackendRecv(0), BackendRecv(1)] && ss[0] == s
    ensures var t := ss[2];
            && t.cfg == s.cfg && t.link == Some(1) && t.writer == Some(1) && t.rows == s.rows
            && t.links.Keys == {0, 1} && t.links[1].writable && t.links[1].down == []
            && t.links[0].live && t.links[0].greeted && t.links[0].up == [Heartbeat(v)]
  {
    hide Next, Current;
    FirstHello(s, 0);
    var t := Next(s, BackendRecv(0));
    FirstHello(t, 1);
    ss, sts := [s, t, Next(t, BackendRecv(1))], [BackendRecv(0), BackendRecv(1)];
  }

  /** The late heartbeat is handled and the next PUT is numbered just above it. */
  lemma LateHeartbeat(s: State, v: nat, values: Values) returns (ss: seq<State>, sts: seq<Step>)
    requires s.link == Some(1) && s.writer == Some(1) && Highest(s.rows) <= v && Acceptable(values)
    requires Packable(Config(v + 1, values))
    requires s.links.Keys == {0, 1} && s.links[1].writable && s.links[1].down == []
    requires s.links[0].live && s.links[0].greeted && s.links[0].up == [Heartbeat(v)]
    ensures Follows(ss, sts) && sts == [BackendRecv(0), Put(values), DeviceRecv(true)]
    ensures ss[0] == s && ss[3].cfg == Config(v + 1, values)
  {
    hide Next, Highest, Acceptable, Packable;
    BeatHeard(s, 0);
    var s1 := Next(s, BackendRecv(0));
    PutFacts(s1, 1, values);
    var s2 := Next(s1, Put(values));
    assert s2.links[1].down == [ConfigSet(Config(v + 1, values))];
    ApplyFacts(s2, 1, Config(v + 1, values));
    ss, sts := [s, s1, s2, Next(s2, DeviceRecv(true))], [BackendRecv(0), Put(values), DeviceRecv(true)];
  }

  // ------------------------------------------------------------ going back by a late answer to request_hello

  /** The old process answers a request_hello that nobody reads yet. */
  lemma LeavesAnswer(low: Config) returns (ss: seq<State>, sts: seq<Step>)
    ensures Follows(ss, sts) && sts == [Connect(0), BackendRecv(0), AskHello, DeviceRecv(true)] && ss[0] == Start(low, [])
    ensures var s := ss[4];
            && s.rows == [] && s.floor == low.version && s.links.Keys == {0}
            && s.links[0].live && s.links[0].greeted && s.links[0].up == [Hello(low.version)]
  {
    OnlyRow(Row(low, Pending));
    hide Next, Current;
    var s0 := Start(low, []);
    PlainSteps(s0, 0, low);
    var s1 := Next(s0, Connect(0));
    FirstHello(s1, 0);
    var s2 := Next(s1, BackendRecv(0));
    AskFacts(s2, 0);
    var s3 := Next(s2, AskHello);
    assert s3.links[0].down == [RequestHello];
    AnswerFacts(s3, 0);
    ss, sts := [s0, s1, s2, s3, Next(s3, DeviceRecv(true))], [Connect(0), BackendRecv(0), AskHello, DeviceRecv(true)];
  }

  /** What the later processes need to know of the first one. */
  predicate Answered(s: State, v: nat) {
    0 in s.links && s.links[0].live && s.links[0].greeted && s.links[0].up == [Hello(v)]
  }

  /** A new process boots, connects on `c` and is registered, no newer row being stored; nothing else changes. */
  lemma Arrives(s: State, v: nat, boot: Config, c: Conn)
    requires Answered(s, v) && c !in s.links && c != 0 && Highest(s.rows) <= boot.version
    ensures var s1 := Next(s, Restart(boot));
            Enabled(s1, Connect(c)) && var s2 := Next(s1, Connect(c));
            Enabled(s2, BackendRecv(c)) && var s3 := Next(s2, BackendRecv(c));
            && s1.cfg == boot && s3.cfg == boot && s3.link == Some(c) && s3.writer == Some(c) && s3.reported == boot.version
            && s3.rows == s.rows && s3.floor == (if boot.version < s.floor then boot.version else s.floor)
            && s3.links.Keys == s.links.Keys + {c} && s3.links[c] == Link([], [], boot.version, true, true, true) && Answered(s3, v)
  {
    hide Next, Current;
    PlainSteps(s, c, boot);
    var s1 := Next(s, Restart(boot));
    PlainSteps(s1, c, boot);
    var s2 := Next(s1, Connect(c));
    assert [Hello(boot.version)][1..] == [];
    FirstHello(s2, c);
  }

  /** A second process makes the backend store a row one above its own version. */
  lemma RaisesRow(s: State, v: nat, mid: Config, values: Values) returns (ss: seq<State>, sts: seq<Step>)
    requires s.rows == [] && s.floor == v <= mid.version && s.links.Keys == {0} && Answered(s, v)
    requires Packable(Config(mid.version + 1, values))
    ensures Follows(ss, sts) && sts == [Restart(mid), Connect(1), BackendRecv(1), Put(values)] && ss[0] == s
    ensures var t := ss[4];
            && t.rows == [Row(Config(mid.version + 1, values), Pending)] && t.floor == v
            && t.links.Keys == {0, 1} && Answered(t, v)
  {
    assert Highest([]) == 0;
    hide Next, Current, Highest, Packable;
    Arrives(s, v, mid, 1);
    var s1 := Next(s, Restart(mid));
    var s2 := Next(s1, Connect(1));
    var s3 := Next(s2, BackendRecv(1));
    PutFacts(s3, 1, values);
    ss, sts := [s, s1, s2, s3, Next(s3, Put(values))], [Restart(mid), Connect(1), BackendRecv(1), Put(values)];
  }

  /** A third process is sent that row when the old answer is read. */
  lemma SentBack(s: State, v: nat, row: Row, boot: Config) returns (ss: seq<State>, sts: seq<Step>)
    requires s.rows == [row] && v < row.config.version < boot.version && Acceptable(row.config.values) && Packable(row.config)
    requires s.links.Keys == {0, 1} && Answered(s, v)
    ensures Follows(ss, sts) && sts == [Restart(boot), Connect(2), BackendRecv(2), BackendRecv(0), DeviceRecv(true)]
    ensures ss[0] == s && ss[1].cfg == boot && ss[5].cfg == row.config
  {
    OnlyRow(row);
    assert Highest([row]) == row.config.version;
    hide Next, Current, Acceptable, Packable, Highest;
    Arrives(s, v, boot, 2);
    var s1 := Next(s, Restart(boot));
    var s2 := Next(s1, Connect(2));
    var s3 := Next(s2, BackendRecv(2));
    LateHello(s3, 0, 2, row);
    var s4 := Next(s3, BackendRecv(0));
    ApplyFacts(s4, 2, row.config);
    ss, sts := [s, s1, s2, s3, s4, Next(s4, DeviceRecv(true))],
               [Restart(boot), Connect(2), BackendRecv(2), BackendRecv(0), DeviceRecv(true)];
  }

  // ------------------------------------------------------------ the exact condition

  /**
   * Step `k` of a run boots version `b` where the lowest boot so far was `floor` and the highest
   * stored row is `highest`, and the version of that process falls between states `i` and `j`.
   */
  ghost predicate GoesBack(ss: seq<State>, sts: seq<Step>, k: nat, i: nat, j: nat, floor: nat, highest: nat, b: nat) {
    && IsRun(ss, sts) && k < |sts| && k < i <= j < |ss|
    && sts[k].Restart? && sts[k].boot.version == b && ss[k].floor == floor && Highest(ss[k].rows) == highest
    && OneProcess(sts, k + 1, j) && ss[j].cfg.version < ss[i].cfg.version
  }

  ghost predicate CanGoBack(floor: nat, highest: nat, b: nat) {
    exists ss, sts, k: nat, i: nat, j: nat :: GoesBack(ss, sts, k, i, j, floor, highest, b)
  }

  const SOME_VALUES := Values(10, 1, Finite(6000.0, 6000.0), Finite(90.0, 90.0), Finite(120.0, 120.0))

  /** No row is above the floor: a heartbeat of an older process, read late, lowers the next number. */
  lemma BackByHeartbeat(floor: nat, highest: nat, b: nat)
    requires highest <= floor && floor + 1 < b < MAX_U32
    ensures CanGoBack(floor, highest, b)
  {
    var (low, high) := (Config(floor, SOME_VALUES), Config(b, SOME_VALUES));
    var row := Row(Config(highest, SOME_VALUES), Pending);
    var rows := if highest == 0 then [] else [row];
    OnlyRow(row);
    assert Highest(rows) == highest && Init(Start(low, rows)) && Packable(Config(floor + 1, SOME_VALUES)) && Acceptable(SOME_VALUES);
    hide Packable, Acceptable, Next, Enabled, Follows, Init, Highest, Current;
    var ss1, sts1 := TwoProcesses(low, rows, high);
    Lengths(ss1, sts1);
    var ss2, sts2 := BothHellos(ss1[4], floor);
    Lengths(ss2, sts2);
    var ss3, sts3 := LateHeartbeat(ss2[2], floor, SOME_VALUES);
    Lengths(ss3, sts3);
    var ss, sts := Stitched(ss1, sts1, ss2, sts2, ss3, sts3);
    assert ss[9] == ss[6 + 3] == ss3[3] && sts[2] == Restart(high);
    assert OneProcess(sts, 3, 9) by {
      assert sts == [Connect(0), Beat, Restart(high), Connect(1), BackendRecv(0), BackendRecv(1), BackendRecv(0), Put(SOME_VALUES), DeviceRecv(true)];
    }
    assert GoesBack(ss, sts, 2, 4, 9, floor, highest, b);
  }

  /** Some row is above the floor: an old answer to request_hello, read late, has that row pushed. */
  lemma BackByAnswer(floor: nat, highest: nat, b: nat)
    requires floor < highest < b < MAX_U32
    ensures CanGoBack(floor, highest, b)
  {
    var (low, mid, boot) := (Config(floor, SOME_VALUES), Config(highest - 1, SOME_VALUES), Config(b, SOME_VALUES));
    var row := Row(Config(highest, SOME_VALUES), Pending);
    OnlyRow(row);
    assert Highest([row]) == highest && Init(Start(low, [])) && Packable(row.config) && Acceptable(SOME_VALUES);
    hide Packable, Acceptable, Next, Enabled, Follows, Init, Highest, Current;
    var ss1, sts1 := LeavesAnswer(low);
    Lengths(ss1, sts1);
    var ss2, sts2 := RaisesRow(ss1[4], floor, mid, SOME_VALUES);
    Lengths(ss2, sts2);
    var ss3, sts3 := SentBack(ss2[4], floor, row, boot);
    Lengths(ss3, sts3);
    var ss, sts := Stitched(ss1, sts1, ss2, sts2, ss3, sts3);
    assert ss[8] == ss[8 + 0] == ss3[0] && ss[9] == ss[8 + 1] == ss3[1] && ss[13] == ss[8 + 5] == ss3[5];
    assert sts == (sts1 + sts2) + [Restart(boot), Connect(2), BackendRecv(2), BackendRecv(0), DeviceRecv(true)];
    assert sts[8] == Restart(boot) && OneProcess(sts, 9, 13);
    assert GoesBack(ss, sts, 8, 9, 13, floor, highest, b);
  }

  /**
   * For every lowest boot version, highest stored row and new boot version, a u32: some run goes back
   * within the new process if and only if it boots more than one above the lowest boot version
   * and above every row.
   */
  lemma BootSafetyExact(floor: nat, highest: nat, b: nat)
    requires b < MAX_U32
    ensures CanGoBack(floor, highest, b) <==> !Safe(floor, highest, b)
  {
    if !Safe(floor, highest, b) {
      if highest <= floor {
        BackByHeartbeat(floor, highest, b);
      } else {
        BackByAnswer(floor, highest, b);
      }
    } else {
      forall ss, sts, k: nat, i: nat, j: nat ensures !GoesBack(ss, sts, k, i, j, floor, highest, b) {
        SafeStays(ss, sts, k, i, j, floor, highest, b);
      }
    }
  }

  lemma SafeStays(ss: seq<State>, sts: seq<Step>, k: nat, i: nat, j: nat, floor: nat, highest: nat, b: nat)
    requires Safe(floor, highest, b)
    ensures !GoesBack(ss, sts, k, i, j, floor, highest, b)
  {
    hide Next, Enabled, Init, Highest;
    if GoesBack(ss, sts, k, i, j, floor, highest, b) {
      VersionNeverDecreases(ss, sts, k + 1, i, j);
    }
  }
}
