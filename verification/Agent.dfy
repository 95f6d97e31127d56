/**
 * The agent's message handlers as they run (firmware/src/agent.cpp:196-207, 455-485, 540-690,
 * 743-760): they change the agent's fields step by step, and any frame they send, LOG lines
 * included, may find the channel gone.  Each handler is proved to do what the device part of the
 * ConfigSync and Ota systems does, with every pattern of failed sends among the modelled faults.
 */
module Agent {
  import opened Common
  import FwVersion
  import Ota
  import ConfigSync

  /** The frames the agent sent, in order. */
  datatype Sent = OfConfig(c: ConfigSync.Up) | OfOta(o: Ota.Up)

  function Ups(us: seq<Ota.Up>): seq<Sent> {
    seq(|us|, i requires 0 <= i < |us| => OfOta(us[i]))
  }

  /** The acknowledgement of a CONFIG_SET. */
  function AckFor(decoded: Option<ConfigSync.Config>): ConfigSync.Up {
    if decoded.None? then ConfigSync.ConfigAck(0, false)
    else ConfigSync.ConfigAck(decoded.value.version, ConfigSync.Acceptable(decoded.value.values))
  }

  class Agent {
    var cfg: ConfigSync.Config
    var fw: nat
    var otaActive: bool
    var otaTarget: string
    var doneAt: real
    var nextProgressAt: real
    var pendingFw: string
    var rebooting: bool
    var link: Option<nat>
    var sent: seq<Sent>

    ghost function Dev(): Ota.Device
      reads this
    {
      Ota.Device(fw, if otaActive then Some(otaTarget) else None,
                 if pendingFw == "" then None else Some(pendingFw), rebooting, link)
    }

    /** An update in progress has a target with a readable version. */
    ghost predicate Valid()
      reads this
    {
      otaActive ==> otaTarget != ""
    }

    /** `tcpFail` */
    method TcpFail()
      requires Valid()
      modifies this
      ensures Valid() && Dev() == Ota.TcpFail(old(Dev())) && sent == old(sent) && cfg == old(cfg)
      ensures otaTarget == old(otaTarget) && nextProgressAt == old(nextProgressAt) && doneAt == old(doneAt)
    {
      link := None;
      otaActive := false;
    }

    /** `sendFrame`, or the shipment of a LOG line when `m` is nothing of interest. */
    method SendFrame(m: Option<Sent>, ok: bool)
      requires Valid()
      modifies this
      ensures Valid() && cfg == old(cfg) && otaTarget == old(otaTarget) && nextProgressAt == old(nextProgressAt) && doneAt == old(doneAt)
      ensures Dev() == if old(link).Some? && !ok then Ota.TcpFail(old(Dev())) else old(Dev())
      ensures sent == old(sent) + if old(link).Some? && ok && m.Some? then [m.value] else []
    {
      if link.None? {
        return;
      }
      if !ok {
        TcpFail();
        return;
      }
      if m.Some? {
        sent := sent + [m.value];
      }
    }

    /**
     * `handleConfigSet` on a payload that decodes to `decoded`, or does not; `ok0` and `ok1` tell
     * whether the LOG line and the CONFIG_ACK get out.  A malformed payload is refused as version 0.
     */
    method HandleConfigSet(decoded: Option<ConfigSync.Config>, ok0: bool, ok1: bool, ghost s: ConfigSync.State)
      requires Valid() && link.Some?
      requires s.cfg == cfg && s.link == Some(link.value)
      modifies this
      ensures Valid() && link == if ok0 && ok1 then old(link) else None
      ensures decoded.Some? ==> var t := ConfigSync.DeviceHandle(s, ConfigSync.ConfigSet(decoded.value), ok0 && ok1);
                                cfg == t.cfg && (link.Some? <==> t.link.Some?)
      ensures decoded.None? ==> cfg == old(cfg)
      ensures sent == old(sent) + if link.None? then [] else [OfConfig(AckFor(decoded))]
      ensures fw == old(fw) && pendingFw == old(pendingFw) && rebooting == old(rebooting)
    {
      hide ConfigSync.Acceptable;
      if decoded.None? {
        SendFrame(None, ok0);
        SendFrame(Some(OfConfig(ConfigSync.ConfigAck(0, false))), ok1);
        return;
      }
      var c := decoded.value;
      if !ConfigSync.Acceptable(c.values) {
        SendFrame(None, ok0);
        SendFrame(Some(OfConfig(ConfigSync.ConfigAck(c.version, false))), ok1);
        return;
      }
      cfg := c;
      SendFrame(None, ok0);
      SendFrame(Some(OfConfig(ConfigSync.ConfigAck(c.version, true))), ok1);
    }

    /**
     * `handleFrame` and `handleFwUpdate` on FW_UPDATE.  `ok0` is the debug line before the
     * handler, `ok1` the line inside it, `ok2` and `ok3` the acknowledgements.
     */
    method HandleFwUpdate(target: string, imageSize: nat, now: real, ok0: bool, ok1: bool, ok2: bool, ok3: bool)
      returns (ghost f: Ota.Fault)
      requires Valid() && link.Some?
      modifies this
      ensures Valid() && cfg == old(cfg)
      ensures Dev() == Ota.OnFwUpdate(old(Dev()), target, f)
      ensures sent == old(sent) + Ups(Ota.FwAcks(old(Dev()), target, f))
      ensures old(Dev()).ota.None? && Dev().ota.Some? ==>
                && nextProgressAt == now + 1.0 && doneAt >= now + 1.0 && (doneAt - now) * 500000.0 >= imageSize as real
                && (doneAt == now + 1.0 || (doneAt - now) * 500000.0 == imageSize as real)
    {
      hide FwVersion.ParseFw, Ups;
      SendFrame(None, ok0);
      var version := FwVersion.ParseFwVersion(target);
      if version.None? || version.value < fw || otaActive {
        Refuse(ok1, ok2);
        f := if !ok0 then Ota.Early else if !ok1 || !ok2 then Ota.Late(0) else Ota.NoFault;
      } else {
        EmptyIsNoVersion();
        Accept(target, imageSize, now, ok1, ok2, ok3);
        f := if !ok0 then Ota.Early else if !ok1 || !ok2 then Ota.Late(0) else if !ok3 then Ota.Late(1) else Ota.NoFault;
      }
      FewAcks(Ota.Rejected, Ota.Downloading);
      FewAcks(Ota.Accepted, Ota.Downloading);
    }

    method Refuse(ok1: bool, ok2: bool)
      requires Valid()
      modifies this
      ensures Valid() && cfg == old(cfg)
      ensures Dev() == if old(link).Some? && !(ok1 && ok2) then Ota.TcpFail(old(Dev())) else old(Dev())
      ensures sent == old(sent) + if old(link).Some? && ok1 && ok2 then [OfOta(Ota.FwAck(Ota.Rejected))] else []
    {
      SendFrame(None, ok1);
      SendFrame(Some(OfOta(Ota.FwAck(Ota.Rejected))), ok2);
    }

    method Accept(target: string, imageSize: nat, now: real, ok1: bool, ok2: bool, ok3: bool)
      requires Valid() && !otaActive && target != ""
      modifies this
      ensures Valid() && cfg == old(cfg) && nextProgressAt == now + 1.0
      ensures doneAt >= now + 1.0 && (doneAt - now) * 500000.0 >= imageSize as real
      ensures doneAt == now + 1.0 || (doneAt - now) * 500000.0 == imageSize as real
      ensures var d := old(Dev()).(ota := Some(target));
              Dev() == if old(link).Some? && !(ok1 && ok2 && ok3) then Ota.TcpFail(d) else d
      ensures sent == old(sent) + if old(link).None? || !ok1 || !ok2 then []
                                  else if !ok3 then [OfOta(Ota.FwAck(Ota.Accepted))]
                                  else [OfOta(Ota.FwAck(Ota.Accepted)), OfOta(Ota.FwAck(Ota.Downloading))]
    {
      otaActive, otaTarget := true, target;
      var seconds := imageSize as real / 500000.0;
      doneAt := now + if seconds < 1.0 then 1.0 else seconds;
      nextProgressAt := now + 1.0;
      SendFrame(None, ok1);
      SendFrame(Some(OfOta(Ota.FwAck(Ota.Accepted))), ok2);
      SendFrame(Some(OfOta(Ota.FwAck(Ota.Downloading))), ok3);
    }

    /** `startReboot`, the part that concerns the control channel. */
    method StartReboot()
      requires Valid()
      modifies this
      ensures Valid() && Dev() == Ota.StartReboot(old(Dev())) && sent == old(sent) && cfg == old(cfg)
    {
      link := None;
      otaActive := false;
      rebooting := true;
    }

    /** `serviceOta` at time `t`. */
    method ServiceOta(t: real, ok: bool)
      requires Valid()
      modifies this
      ensures Valid() && cfg == old(cfg)
      ensures var (d, run) := (old(Dev()), old(otaActive && link.Some?));
              && (!run || (t < old(doneAt) && t < old(nextProgressAt)) ==> Dev() == d && sent == old(sent))
              && (run && t >= old(doneAt) ==>
                    Dev() == Ota.Install(d) && sent == old(sent) + if ok then [OfOta(Ota.FwAck(Ota.AppliedFw))] else [])
              && (run && t < old(doneAt) && t >= old(nextProgressAt) ==>
                    && Dev() == (if ok then d else Ota.TcpFail(d)) && nextProgressAt == t + 1.0
                    && sent == old(sent) + if ok then [OfOta(Ota.FwAck(Ota.Downloading))] else [])
    {
      if !otaActive || link.None? {
        return;
      }
      if t >= doneAt {
        SendFrame(Some(OfOta(Ota.FwAck(Ota.AppliedFw))), ok);
        otaActive := false;
        pendingFw := otaTarget;
        StartReboot();
      } else if t >= nextProgressAt {
        SendFrame(Some(OfOta(Ota.FwAck(Ota.Downloading))), ok);
        nextProgressAt := t + 1.0;
      }
    }

    /** The reboot step of `run`. */
    method BootStep()
      requires Valid() && rebooting
      modifies this
      ensures Valid() && Dev() == Ota.BootDone(old(Dev())) && sent == old(sent) && cfg == old(cfg)
    {
      hide FwVersion.ParseFw;
      rebooting := false;
      if pendingFw != "" {
        var version := FwVersion.ParseFwVersion(pendingFw);
        if version.Some? {
          fw := version.value;
        }
        pendingFw := "";
      }
    }

    /** `tcpOnConnected`: HELLO is the first frame on a new channel. */
    method OnConnected(c: nat, ok: bool)
      requires Valid() && link.None? && !rebooting
      modifies this
      ensures Valid() && cfg == old(cfg)
      ensures ok ==> Dev() == old(Dev()).(link := Some(c)) && sent == old(sent) + [OfOta(Ota.Hello(FwVersion.PrintFw(fw)))]
      ensures !ok ==> Dev() == Ota.TcpFail(old(Dev())) && sent == old(sent)
    {
      hide FwVersion.PrintFw;
      link := Some(c);
      SendFrame(Some(OfOta(Ota.Hello(FwVersion.PrintFw(fw)))), ok);
    }
  }

  lemma FewAcks(a: Ota.AckStatus, b: Ota.AckStatus)
    ensures var us := [Ota.FwAck(a), Ota.FwAck(b)];
            && Ups([]) == [] && Ups([us[0]]) == [OfOta(us[0])] && Ups(us) == [OfOta(us[0]), OfOta(us[1])]
            && us[..0] == [] && us[..1] == [us[0]] && [us[0]][..0] == []
  {}

  lemma EmptyIsNoVersion()
    ensures FwVersion.ParseFw("").None?
  {
    assert FwVersion.ScanAll("") == FwVersion.Scan([0, 0, 0], 0, false);
  }
}
