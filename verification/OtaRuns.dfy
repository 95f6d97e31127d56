/**
 * What firmware updates achieve, read off the steps of Ota: when an update starts, that an
 * installed one is run and announced, and which status each job carries.
 */
module OtaRuns {
  import opened Common
  import opened FwVersion
  import opened Ota

  // ------------------------------------------------------------ FW_UPDATE

  /** The target can be read, is no older than the running version, and no update is running. */
  predicate Startable(d: Device, target: string) {
    ParseFw(target).Some? && ParseFw(target).value >= d.fw && d.ota.None?
  }

  /**
   * Without a send failure FW_UPDATE starts the update and answers accepted and downloading, or
   * changes nothing and answers rejected.  A failure before the handler runs drops the channel
   * and any running update, and the new one starts all the same if the target is good; a later
   * one drops the channel and leaves no update running.
   */
  lemma UpdateStep(s: State, f: Fault)
    requires Enabled(s, DeviceRecv(f)) && s.links[s.dev.link.value].down[0].FwUpdate?
    ensures var (c, l, t) := (s.dev.link.value, s.links[s.dev.link.value], Next(s, DeviceRecv(f)));
            var target := l.down[0].target;
            var good := Startable(s.dev, target);
            && t.dev.fw == s.dev.fw && t.dev.pending == s.dev.pending && t.dev.rebooting == s.dev.rebooting
            && t.jobs == s.jobs && t.heard == s.heard && t.links.Keys == s.links.Keys && t.links[c].down == l.down[1..]
            && (f == NoFault ==>
                  && t.dev.link == s.dev.link && t.dev.ota == (if good then Some(target) else s.dev.ota)
                  && t.links[c].up == l.up + if good then [FwAck(Accepted), FwAck(Downloading)] else [FwAck(Rejected)])
            && (f != NoFault ==> t.dev.link == None)
            && (f == Early ==> t.links[c].up == l.up && t.dev.ota == if Startable(s.dev.(ota := None), target) then Some(target) else None)
            && (f.Late? ==> t.dev.ota == None && |t.links[c].up| <= |l.up| + f.acks && l.up <= t.links[c].up)
  {
    hide ParseFw;
  }

  /** The other frames: a reboot closes the channel and forgets the update; request_hello is answered. */
  lemma CommandStep(s: State, f: Fault)
    requires Enabled(s, DeviceRecv(f)) && !s.links[s.dev.link.value].down[0].FwUpdate?
    ensures var (c, l, t) := (s.dev.link.value, s.links[s.dev.link.value], Next(s, DeviceRecv(f)));
            && t.dev.fw == s.dev.fw && t.dev.pending == s.dev.pending && c in t.links && t.links[c].down == l.down[1..]
            && (l.down[0].Reboot? ==> t.dev.rebooting && t.dev.link == None && t.dev.ota == None && t.links[c].up == l.up)
            && (l.down[0].RequestHello? && f == NoFault ==> t.dev == s.dev && t.links[c].up == l.up + [Hello(PrintFw(s.dev.fw))])
            && (l.down[0].RequestHello? && f != NoFault ==> t.dev.link == None && t.dev.ota == None && t.links[c].up == l.up)
  {
    hide PrintFw;
  }

  /** Progress reports, and the report that ends the download, go out or drop the channel. */
  lemma ProgressStep(s: State, ok: bool)
    requires Enabled(s, Progress(ok)) && s.dev.link.value in s.links
    ensures var (c, t, u) := (s.dev.link.value, Next(s, Progress(ok)), Next(s, Finish(ok)));
            && t.dev == (if ok then s.dev else s.dev.(link := None, ota := None))
            && t.links[c].up == s.links[c].up + (if ok then [FwAck(Downloading)] else [])
            && u.links[c].up == s.links[c].up + (if ok then [FwAck(AppliedFw)] else [])
  {}

  /** A lost channel ends a running update; a command waits its turn in the queue. */
  lemma ChannelSteps(s: State, cmd: Down, c: Conn)
    ensures Next(s, Drop) == s.(dev := s.dev.(link := None, ota := None))
    ensures c in s.links ==>
              Next(s, Command(cmd, Some(c))) == s.(links := s.links[c := s.links[c].(down := s.links[c].down + [cmd])])
  {}

  // ------------------------------------------------------------ an installed update is run

  /** Once the download is done the target waits for the boot, whatever else happens. */
  lemma WaitStep(s: State, st: Step, t: string)
    requires Inv(s) && Enabled(s, st) && s.dev.rebooting && s.dev.pending == Some(t) && !st.Booted?
    ensures Next(s, st).dev.rebooting && Next(s, st).dev.pending == Some(t)
  {
    hide ParseFw, PrintFw;
  }

  lemma {:induction false} Waits(ss: seq<State>, sts: seq<Step>, i: nat, j: nat, t: string)
    requires IsRun(ss, sts) && i < j < |ss| && sts[i].Finish? && ss[i].dev.ota == Some(t)
    requires forall k :: i < k < j ==> !sts[k].Booted?
    ensures ss[j].dev.rebooting && ss[j].dev.pending == Some(t)
    decreases j
  {
    hide Inv, Init;
    if j > i + 1 {
      Waits(ss, sts, i, j - 1, t);
      Always(ss, sts, j - 1);
      hide Next, Enabled;
      WaitStep(ss[j - 1], sts[j - 1], t);
    }
  }

  /**
   * On every run, when a download ends (step `i`) with target `t`, the next boot (step `j`) leaves
   * the device running exactly `t`, whatever failed in between.
   */
  lemma InstalledRuns(ss: seq<State>, sts: seq<Step>, i: nat, j: nat, t: string)
    requires IsRun(ss, sts) && i < j < |sts| && sts[i].Finish? && ss[i].dev.ota == Some(t)
    requires sts[j].Booted? && forall k :: i < k < j ==> !sts[k].Booted?
    ensures ParseFw(t).Some? && ss[j + 1].dev.fw == ParseFw(t).value
  {
    Waits(ss, sts, i, j, t);
    Always(ss, sts, j);
    hide ParseFw, PrintFw, Init;
  }

  /** Nothing but a boot changes the running version, and a device without a channel that is not rebooting stays so. */
  lemma CalmStep(s: State, st: Step)
    requires Enabled(s, st) && !st.Booted? && !st.Connect? && s.dev.link.None? && !s.dev.rebooting
    ensures var t := Next(s, st); t.dev.fw == s.dev.fw && t.dev.link.None? && !t.dev.rebooting
  {
    hide ParseFw, PrintFw;
  }

  lemma {:induction false} Calm(ss: seq<State>, sts: seq<Step>, j: nat, k: nat)
    requires IsRun(ss, sts) && j < k < |ss| && sts[j].Booted?
    requires forall n :: j < n < k ==> !sts[n].Connect?
    ensures ss[k].dev.fw == ss[j + 1].dev.fw && ss[k].dev.link.None? && !ss[k].dev.rebooting
    decreases k
  {
    hide Init, Inv;
    if k == j + 1 {
      Always(ss, sts, j);
      BootStep(ss[j]);
    } else {
      Calm(ss, sts, j, k - 1);
      assert !sts[k - 1].Booted?;
      hide Next;
      CalmStep(ss[k - 1], sts[k - 1]);
    }
  }

  lemma BootStep(s: State)
    requires Inv(s) && Enabled(s, Booted)
    ensures var t := Next(s, Booted);
            && t.dev.link.None? && !t.dev.rebooting && t.dev.pending == None && t.links == s.links
            && (s.dev.pending.None? ==> t.dev.fw == s.dev.fw)
  {
    hide ParseFw, PrintFw;
  }

  /** And the next connection (step `k`) announces it. */
  lemma InstalledAnnounced(ss: seq<State>, sts: seq<Step>, i: nat, j: nat, k: nat, t: string)
    requires IsRun(ss, sts) && i < j < k < |sts| && sts[i].Finish? && ss[i].dev.ota == Some(t)
    requires sts[j].Booted? && forall n :: i < n < j ==> !sts[n].Booted?
    requires sts[k].Connect? && forall n :: j < n < k ==> !sts[n].Connect?
    ensures ParseFw(t).Some? && ss[k + 1].links[sts[k].c].up == [Hello(PrintFw(ParseFw(t).value))]
  {
    InstalledRuns(ss, sts, i, j, t);
    Calm(ss, sts, j, k);
    hide ParseFw, PrintFw, Init;
  }

  // ------------------------------------------------------------ jobs

  predicate Closed(st: JobStatus) { st == Complete || st == Failed || st == Reported(Rejected) }

  /** The status a step writes to job `n`, if it writes one. */
  function JobWrite(s: State, st: Step, n: nat): Option<JobStatus>
    requires Enabled(s, st)
  {
    var open := n + 1 == |s.jobs| && !Closed(s.jobs[n].status);
    match st
    case Deploy(_, _) => if n == |s.jobs| then Some(Pending) else None
    case FinishDeploy(j, ok) => if j == n then Some(if ok then Sent else Queued) else None
    case BackendRecv(c) => if open && s.links[c].up[0].FwAck? then Some(Reported(s.links[c].up[0].a)) else None
    case AfterHello(fw, _) => if open && fw == s.jobs[n].target then Some(Complete) else None
    case _ => None
  }

  lemma JobStep(s: State, st: Step)
    requires Enabled(s, st)
    ensures var t := Next(s, st);
            && |s.jobs| <= |t.jobs| <= |s.jobs| + 1 && (|t.jobs| > |s.jobs| <==> st.Deploy?)
            && (st.Deploy? ==> t.jobs[|s.jobs|].target == st.version)
            && forall n :: 0 <= n < |t.jobs| ==>
                 var w := JobWrite(s, st, n);
                 && (n < |s.jobs| ==> t.jobs[n].target == s.jobs[n].target && t.jobs[n].status == if w.Some? then w.value else s.jobs[n].status)
                 && (n == |s.jobs| ==> w == Some(t.jobs[n].status))
  {
    hide ParseFw, PrintFw;
  }

  function LastJobWrite(ss: seq<State>, sts: seq<Step>, k: nat, n: nat): Option<JobStatus>
    requires IsRun(ss, sts) && k <= |sts|
  {
    if k == 0 then None
    else
      var w := JobWrite(ss[k - 1], sts[k - 1], n);
      if w.Some? then w else LastJobWrite(ss, sts, k - 1, n)
  }

  /**
   * On every run a job carries the last status written to it: pending from its deployment, sent or
   * queued from the write after the await, and while it is the latest and open, what the device
   * reported, or complete from a handled HELLO that names its target.
   */
  lemma {:induction false} JobStatusExact(ss: seq<State>, sts: seq<Step>, k: nat, n: nat)
    requires IsRun(ss, sts) && k < |ss| && n < |ss[k].jobs|
    ensures LastJobWrite(ss, sts, k, n) == Some(ss[k].jobs[n].status)
    decreases k
  {
    hide Next, Enabled, JobWrite;
    if k > 0 {
      JobStep(ss[k - 1], sts[k - 1]);
      if n < |ss[k - 1].jobs| {
        JobStatusExact(ss, sts, k - 1, n);
      }
    }
  }

  /** A handled HELLO that names the target of the latest open job completes it, and sends nothing. */
  lemma HelloCompletes(s: State, fw: string, to: Option<Conn>)
    requires Enabled(s, AfterHello(fw, to)) && s.jobs != [] && !Closed(s.jobs[|s.jobs| - 1].status)
    requires fw == s.jobs[|s.jobs| - 1].target
    ensures var t := Next(s, AfterHello(fw, to)); t.jobs[|s.jobs| - 1] == Job(fw, Complete) && t.links == s.links
  {}

  /** Any other HELLO has the update sent again, cut to the field, while the job is pending, accepted or downloading. */
  lemma HelloResends(s: State, fw: string, c: Conn)
    requires Enabled(s, AfterHello(fw, Some(c))) && s.jobs != [] && c in s.links && fw != s.jobs[|s.jobs| - 1].target
    ensures var (job, t) := (s.jobs[|s.jobs| - 1], Next(s, AfterHello(fw, Some(c))));
            && t.jobs == s.jobs && c in t.links
            && t.links[c].down == s.links[c].down +
                 if (job.status == Pending || job.status == Reported(Accepted) || job.status == Reported(Downloading)) && job.target in s.registry
                 then [FwUpdate(if |job.target| > 15 then job.target[..15] else job.target)] else []
  {}

  /** A deployment makes a pending job and sends its target, cut to the field. */
  lemma DeployStep(s: State, v: string, c: Conn)
    requires v in s.registry && c in s.links
    ensures var t := Next(s, Deploy(v, Some(c)));
            && t.jobs == s.jobs + [Job(v, Pending)] && c in t.links && t.dev == s.dev
            && t.links[c].down == s.links[c].down + [FwUpdate(if |v| > 15 then v[..15] else v)]
  {}

  // ------------------------------------------------------------ which jobs can complete

  ghost predicate Completes(ss: seq<State>, sts: seq<Step>, k: nat, n: nat, target: string) {
    IsRun(ss, sts) && k < |ss| && n < |ss[k].jobs| && ss[k].jobs[n] == Job(target, Complete)
  }

  /** The device prints versions in one way, so a job whose target is written otherwise never completes. */
  predicate Canonical(target: string) {
    ParseFw(target).Some? && target == PrintFw(ParseFw(target).value)
  }

  function Blank(fw: nat): State { State(Device(fw, None, None, false, None), [], {}, map[], {}, {fw}) }

  lemma BackendFacts(s: State, v: string, c: Conn, fw: string)
    ensures Next(s, AddFirmware(v)) == s.(registry := s.registry + {v})
    ensures v in s.registry ==> Next(s, Deploy(v, None)) == s.(jobs := s.jobs + [Job(v, Pending)])
    ensures Enabled(s, Connect(c)) ==>
              Next(s, Connect(c)) == s.(dev := s.dev.(link := Some(c)), links := s.links[c := Link([Hello(PrintFw(s.dev.fw))], [])])
    ensures c in s.links && s.links[c].up == [Hello(fw)] ==>
              Next(s, BackendRecv(c)) == s.(heard := s.heard + {fw}, links := s.links[c := s.links[c].(up := [])])
  {
    hide PrintFw;
    if c in s.links && s.links[c].up == [Hello(fw)] {
      assert s.links[c].up[1..] == [];
    }
  }

  lemma CompletedRun(v: nat) returns (ss: seq<State>, sts: seq<Step>)
    requires v < MAX_U32
    ensures Completes(ss, sts, 5, 0, PrintFw(v))
  {
    hide PrintFw, ParseFw, Next;
    var t := PrintFw(v);
    var s0 := Blank(v);
    BackendFacts(s0, t, 0, t);
    var s1 := Next(s0, AddFirmware(t));
    BackendFacts(s1, t, 0, t);
    var s2 := Next(s1, Deploy(t, None));
    BackendFacts(s2, t, 0, t);
    var s3 := Next(s2, Connect(0));
    BackendFacts(s3, t, 0, t);
    var s4 := Next(s3, BackendRecv(0));
    HelloCompletes(s4, t, None);
    JobStep(s4, AfterHello(t, None));
    ss := [s0, s1, s2, s3, s4, Next(s4, AfterHello(t, None))];
    sts := [AddFirmware(t), Deploy(t, None), Connect(0), BackendRecv(0), AfterHello(t, None)];
  }

  /** Some run completes a job if and only if its target is written the way the device prints it. */
  lemma CompletableIff(target: string)
    ensures (exists ss, sts, k: nat, n: nat :: Completes(ss, sts, k, n, target)) <==> Canonical(target)
  {
    hide PrintFw, ParseFw;
    forall ss, sts, k: nat, n: nat | Completes(ss, sts, k, n, target) ensures Canonical(target) {
      CompleteMeansRan(ss, sts, k, n);
    }
    if Canonical(target) {
      ParseBelow(target);
      var ss, sts := CompletedRun(ParseFw(target).value);
    }
  }

  // ------------------------------------------------------------ all the way

  /** Connected on `c` with nothing to read, and no update running. */
  predicate Ready(s: State, c: Conn) {
    s.dev.link == Some(c) && c in s.links && s.links[c].down == [] && s.dev.ota.None? && !s.dev.rebooting && s.dev.pending.None?
  }

  /** Deployed, accepted, downloaded and rebooting into the target. */
  lemma Downloaded(s: State, c: Conn, v: string)
    requires Ready(s, c) && v in s.registry && |v| <= 15 && Startable(s.dev, v)
    ensures var s1 := Next(s, Deploy(v, Some(c)));
            Enabled(s1, DeviceRecv(NoFault)) && var s2 := Next(s1, DeviceRecv(NoFault));
            Enabled(s2, Finish(true)) && var s3 := Next(s2, Finish(true));
            && s3.dev == Device(s.dev.fw, None, Some(v), true, None) && s3.links.Keys == s.links.Keys
            && s3.jobs == s.jobs + [Job(v, Pending)]
  {
    hide ParseFw, PrintFw;
    var s1 := Next(s, Deploy(v, Some(c)));
    DeployStep(s, v, c);
    UpdateStep(s1, NoFault);
    var s2 := Next(s1, DeviceRecv(NoFault));
    FinishStep(s2, v);
    hide Next;
  }

  lemma FinishStep(s: State, v: string)
    requires Enabled(s, Finish(true)) && s.dev.ota == Some(v)
    ensures var t := Next(s, Finish(true));
            t.dev == Device(s.dev.fw, None, Some(v), true, None) && t.links.Keys == s.links.Keys && t.jobs == s.jobs
  {}

  /** Booted, connected again on `d`, announced and recorded. */
  lemma BootsAndCompletes(s: State, v: string, d: Conn)
    requires s.dev == Device(s.dev.fw, None, Some(v), true, None) && d !in s.links && Canonical(v)
    requires s.jobs != [] && s.jobs[|s.jobs| - 1] == Job(v, Pending)
    ensures var s1 := Next(s, Booted);
            Enabled(s1, Connect(d)) && var s2 := Next(s1, Connect(d));
            Enabled(s2, BackendRecv(d)) && var s3 := Next(s2, BackendRecv(d));
            Enabled(s3, AfterHello(v, None)) && var s4 := Next(s3, AfterHello(v, None));
            s4.dev == Device(ParseFw(v).value, None, None, false, Some(d)) && s4.jobs == s.jobs[|s.jobs| - 1 := Job(v, Complete)]
  {
    hide ParseFw, PrintFw;
    var s1 := Next(s, Booted);
    assert s1.dev == Device(ParseFw(v).value, None, None, false, None) && s1.links == s.links && s1.jobs == s.jobs;
    BackendFacts(s1, v, d, v);
    var s2 := Next(s1, Connect(d));
    BackendFacts(s2, v, d, v);
    var s3 := Next(s2, BackendRecv(d));
    HelloCompletes(s3, v, None);
    JobStep(s3, AfterHello(v, None));
    assert Next(s3, AfterHello(v, None)).dev == s3.dev;
    hide Next;
  }

  /**
   * From every state in which the device is ready on `c`, a registered version that it can start,
   * written the way it prints versions and short enough for the field, can be deployed and taken
   * all the way: seven steps later the device runs it and the job is complete.
   */
  lemma UpdateRoundTrip(s: State, c: Conn, d: Conn, v: string) returns (ss: seq<State>, sts: seq<Step>)
    requires Ready(s, c) && d !in s.links && v in s.registry && |v| <= 15 && Startable(s.dev, v) && Canonical(v)
    ensures sts == [Deploy(v, Some(c)), DeviceRecv(NoFault), Finish(true), Booted, Connect(d), BackendRecv(d), AfterHello(v, None)]
    ensures |ss| == 8 && ss[0] == s && forall i :: 0 <= i < 7 ==> Enabled(ss[i], sts[i]) && ss[i + 1] == Next(ss[i], sts[i])
    ensures ss[7].dev.fw == ParseFw(v).value && ss[7].jobs == s.jobs + [Job(v, Complete)]
  {
    hide ParseFw, PrintFw, Next, Canonical;
    Downloaded(s, c, v);
    var s1 := Next(s, Deploy(v, Some(c)));
    var s2 := Next(s1, DeviceRecv(NoFault));
    var s3 := Next(s2, Finish(true));
    BootsAndCompletes(s3, v, d);
    var s4 := Next(s3, Booted);
    var s5 := Next(s4, Connect(d));
    var s6 := Next(s5, BackendRecv(d));
    var s7 := Next(s6, AfterHello(v, None));
    ss := [s, s1, s2, s3, s4, s5, s6, s7];
    sts := [Deploy(v, Some(c)), DeviceRecv(NoFault), Finish(true), Booted, Connect(d), BackendRecv(d), AfterHello(v, None)];
  }
}
