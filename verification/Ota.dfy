/**
 * Firmware updates over the control channel
 * (firmware/src/agent.cpp:196-207, 636-690, 715-760, backend/app/ingest.py:260-286,
 * backend/app/api.py:206-218, backend/app/db.py:364-386).
 *
 * Send failures may strike anywhere, also in the middle of a handler, so an OTA may be
 * active on a device that has lost its channel.  Which connection a backend frame goes to is
 * left open (any of them, or none), and so is how long the handler of a HELLO sleeps before
 * it looks at the job; every interleaving of the code is among the runs below.
 */
module Ota {
  import opened Common
  import opened FwVersion

  type Conn = nat

  datatype AckStatus = Accepted | Downloading | AppliedFw | Rejected

  datatype JobStatus = Pending | Sent | Queued | Complete | Failed | Reported(a: AckStatus)

  datatype Job = Job(target: string, status: JobStatus)

  datatype Up = Hello(fw: string) | FwAck(a: AckStatus)

  datatype Down = FwUpdate(target: string) | Reboot | RequestHello

  datatype Link = Link(up: seq<Up>, down: seq<Down>)

  // ------------------------------------------------------------ the device

  datatype Device = Device(fw: nat, ota: Option<string>, pending: Option<string>, rebooting: bool, link: Option<Conn>)

  /** Where a send failure interrupts a handler. */
  datatype Fault = NoFault | Early | Late(acks: nat)

  /** `tcpFail`: the channel is gone and a running OTA with it. */
  function TcpFail(d: Device): Device { d.(link := None, ota := None) }

  /** What `handleFwUpdate` decides about a target. */
  function Verdict(d: Device, target: string): AckStatus {
    var t := ParseFw(target);
    if t.None? || t.value < d.fw || d.ota.Some? then Rejected else Accepted
  }

  /**
   * `handleFrame` on FW_UPDATE.  An early failure (the LOG shipment) drops the channel and
   * the handler still goes on; a late one undoes the OTA it has just started.
   */
  function OnFwUpdate(d: Device, target: string, f: Fault): Device {
    var d1 := if f == Early then TcpFail(d) else d;
    var d2 := if Verdict(d1, target) == Accepted then d1.(ota := Some(target)) else d1;
    if f.Late? then TcpFail(d2) else d2
  }

  /** The acknowledgements that get out. */
  function FwAcks(d: Device, target: string, f: Fault): seq<Up> {
    var all := if Verdict(d, target) == Accepted then [FwAck(Accepted), FwAck(Downloading)] else [FwAck(Rejected)];
    match f
    case NoFault => all
    case Early => []
    case Late(n) => if n < |all| then all[..n] else all
  }

  /** `startReboot` */
  function StartReboot(d: Device): Device { d.(link := None, ota := None, rebooting := true) }

  /** `serviceOta` at the end of the download; a failed send does not stop it. */
  function Install(d: Device): Device
    requires d.ota.Some?
  {
    StartReboot(d.(pending := d.ota))
  }

  /** The reboot step of `run`. */
  function BootDone(d: Device): Device {
    var fw := if d.pending.Some? && ParseFw(d.pending.value).Some? then ParseFw(d.pending.value).value else d.fw;
    d.(rebooting := false, fw := fw, pending := None)
  }

  // ------------------------------------------------------------ the system

  /** `ran` is history: every version the device has run. */
  datatype State = State(dev: Device, jobs: seq<Job>, registry: set<string>, links: map<Conn, Link>,
                         heard: set<string>, ran: set<nat>)

  datatype Step =
    | AddFirmware(version: string)
    | Deploy(version: string, to: Option<Conn>)        // POST /firmware: new job, pushed
    | FinishDeploy(j: nat, ok: bool)                   // the status write after the await
    | Command(cmd: Down, to: Option<Conn>)             // CMD reboot, CMD request_hello
    | Connect(c: Conn)
    | Drop                                             // tcpFail
    | DeviceRecv(f: Fault)
    | Progress(ok: bool)                               // a periodic "downloading"
    | Finish(ok: bool)                                 // download done: applied, reboot
    | Booted
    | BackendRecv(c: Conn)
    | AfterHello(fw: string, to: Option<Conn>)         // the job part of a handled HELLO

  function SendTo(s: State, to: Option<Conn>, m: Down): State {
    if to.Some? && to.value in s.links then
      s.(links := s.links[to.value := s.links[to.value].(down := s.links[to.value].down + [m])])
    else s
  }

  function DeviceSends(s: State, c: Conn, ms: seq<Up>): State {
    if c in s.links then s.(links := s.links[c := s.links[c].(up := s.links[c].up + ms)]) else s
  }

  predicate Final(st: JobStatus) {
    st == Complete || st == Failed || st == Reported(Rejected)
  }

  /** Replaces the status of the latest job, unless that is final. */
  function UpdateLatest(jobs: seq<Job>, st: JobStatus): seq<Job> {
    if jobs == [] || Final(jobs[|jobs| - 1].status) then jobs
    else jobs[|jobs| - 1 := jobs[|jobs| - 1].(status := st)]
  }

  /** `_after_hello`, firmware part. */
  function JobAfterHello(s: State, fw: string, to: Option<Conn>): State {
    if s.jobs == [] || Final(s.jobs[|s.jobs| - 1].status) then s
    else
      var job := s.jobs[|s.jobs| - 1];
      if fw == job.target then s.(jobs := UpdateLatest(s.jobs, Complete))
      else if job.status in {Pending, Reported(Accepted), Reported(Downloading)} && job.target in s.registry then
        SendTo(s, to, FwUpdate(OnWire(job.target)))
      else s
  }

  predicate Enabled(s: State, st: Step) {
    match st
    case Deploy(v, _) => v in s.registry
    case FinishDeploy(j, _) => j < |s.jobs|
    case Connect(c) => s.dev.link.None? && !s.dev.rebooting && c !in s.links
    case DeviceRecv(_) => s.dev.link.Some? && s.dev.link.value in s.links && s.links[s.dev.link.value].down != []
    case Progress(_) => s.dev.link.Some? && s.dev.ota.Some? && !s.dev.rebooting
    case Finish(_) => s.dev.link.Some? && s.dev.ota.Some? && !s.dev.rebooting
    case Booted => s.dev.rebooting
    case BackendRecv(c) => c in s.links && s.links[c].up != []
    case AfterHello(fw, _) => fw in s.heard
    case _ => true
  }

  function DeviceHandle(s: State, c: Conn, m: Down, f: Fault): State {
    match m
    case FwUpdate(target) =>
      DeviceSends(s, c, FwAcks(s.dev, target, f)).(dev := OnFwUpdate(s.dev, target, f))
    case Reboot => s.(dev := StartReboot(s.dev))
    case RequestHello =>
      if f == NoFault then DeviceSends(s, c, [Hello(PrintFw(s.dev.fw))]) else s.(dev := TcpFail(s.dev))
  }

  function BackendHandle(s: State, m: Up): State {
    match m
    case Hello(fw) => s.(heard := s.heard + {fw})
    case FwAck(a) => s.(jobs := UpdateLatest(s.jobs, Reported(a)))
  }

  function Next(s: State, st: Step): State
    requires Enabled(s, st)
  {
    match st
    case AddFirmware(v) => s.(registry := s.registry + {v})
    case Deploy(v, to) => SendTo(s.(jobs := s.jobs + [Job(v, Pending)]), to, FwUpdate(OnWire(v)))
    case FinishDeploy(j, ok) => s.(jobs := s.jobs[j := s.jobs[j].(status := if ok then Sent else Queued)])
    case Command(cmd, to) => SendTo(s, to, cmd)
    case Connect(c) => s.(dev := s.dev.(link := Some(c)), links := s.links[c := Link([Hello(PrintFw(s.dev.fw))], [])])
    case Drop => s.(dev := TcpFail(s.dev))
    case DeviceRecv(f) =>
      var c := s.dev.link.value;
      var l := s.links[c];
      DeviceHandle(s.(links := s.links[c := l.(down := l.down[1..])]), c, l.down[0], f)
    case Progress(ok) =>
      if ok then DeviceSends(s, s.dev.link.value, [FwAck(Downloading)]) else s.(dev := TcpFail(s.dev))
    case Finish(ok) =>
      (if ok then DeviceSends(s, s.dev.link.value, [FwAck(AppliedFw)]) else s).(dev := Install(s.dev))
    case Booted => s.(dev := BootDone(s.dev), ran := s.ran + {BootDone(s.dev).fw})
    case BackendRecv(c) =>
      BackendHandle(s.(links := s.links[c := s.links[c].(up := s.links[c].up[1..])]), s.links[c].up[0])
    case AfterHello(fw, to) => JobAfterHello(s, fw, to)
  }

  ghost predicate Init(s: State) {
    && s.dev == Device(s.dev.fw, None, None, false, None) && s.dev.fw < MAX_U32
    && s.jobs == [] && s.links == map[] && s.heard == {} && s.ran == {s.dev.fw}
  }

  // ------------------------------------------------------------ the invariant

  /** A version string the device can have announced. */
  ghost predicate Announced(s: State, fw: string) {
    exists v :: v in s.ran && fw == PrintFw(v)
  }

  /** The next firmware, wherever it is held, is no older than the running one. */
  predicate NotOlder(d: Device, t: Option<string>) {
    t.Some? ==> ParseFw(t.value).Some? && ParseFw(t.value).value >= d.fw
  }

  predicate DeviceOk(d: Device) {
    && d.fw < MAX_U32 && NotOlder(d, d.ota) && NotOlder(d, d.pending)
    && (d.rebooting ==> d.link.None? && d.ota.None?) && (d.pending.Some? ==> d.rebooting)
  }

  ghost predicate UpsOk(s: State, up: seq<Up>) {
    forall i :: 0 <= i < |up| && up[i].Hello? ==> Announced(s, up[i].fw)
  }

  ghost predicate Inv(s: State) {
    && DeviceOk(s.dev) && s.dev.fw in s.ran && (forall v :: v in s.ran ==> v <= s.dev.fw)
    && (forall c :: c in s.links ==> UpsOk(s, s.links[c].up))
    && (forall fw :: fw in s.heard ==> Announced(s, fw))
    && (forall i :: 0 <= i < |s.jobs| && s.jobs[i].status.Complete? ==> s.jobs[i].target in s.heard)
  }

  /** The handlers of the device keep its own part, faults anywhere. */
  lemma HandlersKeep(d: Device, target: string, f: Fault)
    requires DeviceOk(d) && d.link.Some?
    ensures DeviceOk(OnFwUpdate(d, target, f)) && OnFwUpdate(d, target, f).fw == d.fw
  {}

  lemma BootKeeps(d: Device)
    requires DeviceOk(d) && d.rebooting
    ensures DeviceOk(BootDone(d)) && BootDone(d).fw >= d.fw
  {
    if d.pending.Some? {
      ParseBelow(d.pending.value);
    }
  }

  lemma UpsLater(s: State, t: State, up: seq<Up>)
    requires s.ran <= t.ran && UpsOk(s, up)
    ensures UpsOk(t, up)
  {
    forall i | 0 <= i < |up| && up[i].Hello? ensures Announced(t, up[i].fw) {
      var v :| v in s.ran && up[i].fw == PrintFw(v);
    }
  }

  /** Queues may grow by frames that announce only versions that ran, and shrink from the front. */
  lemma Framed(s: State, t: State)
    requires Inv(s) && DeviceOk(t.dev) && t.dev.fw == s.dev.fw && t.ran == s.ran
    requires forall c :: c in t.links ==> UpsOk(s, t.links[c].up)
    requires s.heard <= t.heard && forall fw :: fw in t.heard ==> fw in s.heard || Announced(s, fw)
    requires forall i :: 0 <= i < |t.jobs| && t.jobs[i].status.Complete? ==> t.jobs[i].target in t.heard
    ensures Inv(t)
  {
    forall c | c in t.links ensures UpsOk(t, t.links[c].up) {
      UpsLater(s, t, t.links[c].up);
    }
    forall fw | fw in t.heard ensures Announced(t, fw) {
      var v :| v in s.ran && fw == PrintFw(v);
    }
  }

  lemma StepKeeps(s: State, st: Step)
    requires Inv(s) && Enabled(s, st)
    ensures Inv(Next(s, st)) && Next(s, st).dev.fw >= s.dev.fw
  {
    match st
    case Booted => BootedKeeps(s);
    case Connect(c) => ConnectKeeps(s, c);
    case DeviceRecv(f) => DeviceRecvKeeps(s, f);
    case Progress(_) => OtaKeeps(s, st);
    case Finish(_) => OtaKeeps(s, st);
    case BackendRecv(c) => BackendRecvKeeps(s, c);
    case _ => BackendStepKeeps(s, st);
  }

  lemma BootedKeeps(s: State)
    requires Inv(s) && Enabled(s, Booted)
    ensures Inv(Next(s, Booted)) && Next(s, Booted).dev.fw >= s.dev.fw
  {
    hide ParseFw, PrintFw;
    var t := Next(s, Booted);
    BootKeeps(s.dev);
    forall c | c in t.links ensures UpsOk(t, t.links[c].up) {
      UpsLater(s, t, t.links[c].up);
    }
    forall fw | Announced(s, fw) ensures Announced(t, fw) {
      var v :| v in s.ran && fw == PrintFw(v);
    }
  }

  lemma ConnectKeeps(s: State, c: Conn)
    requires Inv(s) && Enabled(s, Connect(c))
    ensures Inv(Next(s, Connect(c))) && Next(s, Connect(c)).dev.fw == s.dev.fw
  {
    hide ParseFw, PrintFw;
    assert Announced(s, PrintFw(s.dev.fw));
    Framed(s, Next(s, Connect(c)));
  }

  lemma OtaKeeps(s: State, st: Step)
    requires Inv(s) && Enabled(s, st) && (st.Progress? || st.Finish?)
    ensures Inv(Next(s, st)) && Next(s, st).dev.fw == s.dev.fw
  {
    hide ParseFw, PrintFw;
    Framed(s, Next(s, st));
  }

  lemma BackendRecvKeeps(s: State, c: Conn)
    requires Inv(s) && Enabled(s, BackendRecv(c))
    ensures Inv(Next(s, BackendRecv(c))) && Next(s, BackendRecv(c)).dev == s.dev
  {
    hide ParseFw, PrintFw;
    assert UpsOk(s, s.links[c].up);
    Framed(s, Next(s, BackendRecv(c)));
  }

  lemma BackendStepKeeps(s: State, st: Step)
    requires Inv(s) && Enabled(s, st)
    requires st.AddFirmware? || st.Deploy? || st.FinishDeploy? || st.Command? || st.Drop? || st.AfterHello?
    ensures Inv(Next(s, st)) && Next(s, st).dev.fw == s.dev.fw
  {
    hide ParseFw, PrintFw;
    Framed(s, Next(s, st));
  }

  lemma DeviceRecvKeeps(s: State, f: Fault)
    requires Inv(s) && Enabled(s, DeviceRecv(f))
    ensures Inv(Next(s, DeviceRecv(f))) && Next(s, DeviceRecv(f)).dev.fw == s.dev.fw
  {
    hide ParseFw, PrintFw;
    var t := Next(s, DeviceRecv(f));
    var m := s.links[s.dev.link.value].down[0];
    if m.FwUpdate? {
      HandlersKeep(s.dev, m.target, f);
    }
    assert Announced(s, PrintFw(s.dev.fw));
    Framed(s, t);
  }

  // ------------------------------------------------------------ runs

  ghost predicate IsRun(ss: seq<State>, sts: seq<Step>) {
    && |ss| == |sts| + 1 && Init(ss[0])
    && forall i :: 0 <= i < |sts| ==> Enabled(ss[i], sts[i]) && ss[i + 1] == Next(ss[i], sts[i])
  }

  lemma InitInv(s: State)
    requires Init(s)
    ensures Inv(s)
  {}

  lemma {:induction false} Always(ss: seq<State>, sts: seq<Step>, k: nat)
    requires IsRun(ss, sts) && k < |ss|
    ensures Inv(ss[k])
    decreases k
  {
    hide Inv, Init, Next, Enabled;
    if k == 0 {
      InitInv(ss[0]);
    } else {
      Always(ss, sts, k - 1);
      StepKeeps(ss[k - 1], sts[k - 1]);
    }
  }

  /** Reboots, failures and stale frames anywhere: the running version never goes back. */
  lemma {:induction false} FirmwareNeverDecreases(ss: seq<State>, sts: seq<Step>, i: nat, j: nat)
    requires IsRun(ss, sts) && i <= j < |ss|
    ensures ss[i].dev.fw <= ss[j].dev.fw
    decreases j
  {
    hide Inv, Init, Next, Enabled;
    if i < j {
      FirmwareNeverDecreases(ss, sts, i, j - 1);
      Always(ss, sts, j - 1);
      StepKeeps(ss[j - 1], sts[j - 1]);
    }
  }

  lemma {:induction false} RanBefore(ss: seq<State>, sts: seq<Step>, k: nat, v: nat)
    requires IsRun(ss, sts) && k < |ss| && v in ss[k].ran
    ensures exists i :: 0 <= i <= k && ss[i].dev.fw == v
    decreases k
  {
    if k > 0 && v in ss[k - 1].ran {
      RanBefore(ss, sts, k - 1, v);
    } else if k == 0 {
      assert ss[0].dev.fw == v;
    } else {
      assert sts[k - 1].Booted? && ss[k].dev.fw == v;
    }
  }

  /**
   * A job is "complete" only after a HELLO carrying its exact target was handled; the device
   * was running that target at some earlier point and stays at or above it ever after.
   */
  lemma CompleteMeansRan(ss: seq<State>, sts: seq<Step>, k: nat, n: nat)
    requires IsRun(ss, sts) && k < |ss| && n < |ss[k].jobs| && ss[k].jobs[n].status.Complete?
    ensures var t := ParseFw(ss[k].jobs[n].target);
            && ss[k].jobs[n].target in ss[k].heard
            && t.Some? && ss[k].jobs[n].target == PrintFw(t.value)
            && (exists i :: 0 <= i <= k && ss[i].dev.fw == t.value)
            && (forall j :: k <= j < |ss| ==> ss[j].dev.fw >= t.value)
  {
    Always(ss, sts, k);
    hide PrintFw, ParseFw;
    assert Announced(ss[k], ss[k].jobs[n].target);
    var v :| v in ss[k].ran && ss[k].jobs[n].target == PrintFw(v);
    PrintParse(v);
    RanBefore(ss, sts, k, v);
    forall j | k <= j < |ss| ensures ss[j].dev.fw >= v {
      FirmwareNeverDecreases(ss, sts, k, j);
    }
  }
}
