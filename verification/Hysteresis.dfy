/**
 * Device-side threshold bits with hysteresis (firmware/src/agent.cpp:283-312), over the reals:
 * how much the readings must move for a bit to chatter.
 */
module Hysteresis {

  datatype Reading = Reading(ok: bool, temp: real, voltage: real, current: real, rpm: real)

  datatype Limits = Limits(temp: real, current: real, rpm: real, undervoltage: real)

  datatype Detected = Detected(overtemp: bool, overcurrent: bool, undervoltage: bool, encoder: bool)

  /** A bit sets above the limit and clears only at or below the limit less the margin. */
  predicate Over(was: bool, x: real, limit: real, margin: real) {
    if was then x > limit - margin else x > limit
  }

  predicate Under(was: bool, v: real, uv: real) {
    uv > 0.0 && v > 0.0 && if was then v < uv + 0.1 else v < uv
  }

  /** A failed read leaves the bits as they were. */
  function Detect(was: Detected, r: Reading, l: Limits): Detected {
    if !r.ok then was
    else Detected(Over(was.overtemp, r.temp, l.temp, 1.0),
                  Over(was.overcurrent, r.current, l.current, 0.05 * l.current),
                  Under(was.undervoltage, r.voltage, l.undervoltage),
                  Over(was.encoder, r.rpm, l.rpm, 0.02 * l.rpm))
  }

  class SensorBits {
    var live: Detected

    constructor ()
      ensures live == Detected(false, false, false, false)
    {
      live := Detected(false, false, false, false);
    }

    method ReadSensors(r: Reading, l: Limits)
      modifies this
      ensures live == Detect(old(live), r, l)
    {
      if !r.ok {
        return;
      }
      var was := live;
      var det := Detected(false, false, false, false);
      if Over(was.overtemp, r.temp, l.temp, 1.0) {
        det := det.(overtemp := true);
      }
      if Over(was.overcurrent, r.current, l.current, 0.05 * l.current) {
        det := det.(overcurrent := true);
      }
      if l.undervoltage > 0.0 && r.voltage > 0.0 {
        if (if was.undervoltage then r.voltage < l.undervoltage + 0.1 else r.voltage < l.undervoltage) {
          det := det.(undervoltage := true);
        }
      }
      if Over(was.encoder, r.rpm, l.rpm, 0.02 * l.rpm) {
        det := det.(encoder := true);
      }
      live := det;
    }
  }

  // ------------------------------------------------------------ one bit over a run of readings

  /** The bit after the readings `xs`, from `was`. */
  function BitAfter(was: bool, xs: seq<real>, limit: real, margin: real): bool {
    if xs == [] then was else Over(BitAfter(was, xs[..|xs| - 1], limit, margin), xs[|xs| - 1], limit, margin)
  }

  /** How often the bit changed. */
  function Edges(was: bool, xs: seq<real>, limit: real, margin: real): nat {
    if xs == [] then 0
    else
      var p := xs[..|xs| - 1];
      Edges(was, p, limit, margin) + (if BitAfter(was, xs, limit, margin) != BitAfter(was, p, limit, margin) then 1 else 0)
  }

  function Distance(x: real, y: real): real { if x < y then y - x else x - y }

  /** The total variation of the readings. */
  function Variation(xs: seq<real>): real {
    if |xs| < 2 then 0.0 else Variation(xs[..|xs| - 1]) + Distance(xs[|xs| - 2], xs[|xs| - 1])
  }

  /** `e - 1` margins. */
  function Swings(e: nat, margin: real): real
    requires e >= 1
  {
    (e - 1) as real * margin
  }

  lemma SwingsMore(e: nat, margin: real)
    requires e >= 1
    ensures Swings(e + 1, margin) == Swings(e, margin) + margin && Swings(1, margin) == 0.0
  {}

  /** What the readings have spent, given which side of the band the last edge left them on. */
  ghost predicate Spent(v: real, e: nat, bit: bool, x: real, limit: real, margin: real)
    requires e >= 1
  {
    && (if e == 1 then v >= 0.0 else v > Swings(e, margin))
    && (bit ==> v > Swings(e, margin) + (limit - x))
    && (!bit ==> v >= Swings(e, margin) + (x - (limit - margin)))
  }

  lemma {:induction false} AlwaysSpent(was: bool, xs: seq<real>, limit: real, margin: real)
    ensures Variation(xs) >= 0.0
    ensures Edges(was, xs, limit, margin) >= 1 ==>
              Spent(Variation(xs), Edges(was, xs, limit, margin), BitAfter(was, xs, limit, margin), xs[|xs| - 1], limit, margin)
    ensures Edges(was, xs, limit, margin) == 0 ==> BitAfter(was, xs, limit, margin) == was
    decreases |xs|
  {
    if xs != [] {
      var p := xs[..|xs| - 1];
      AlwaysSpent(was, p, limit, margin);
      var e := Edges(was, p, limit, margin);
      SwingsMore(if e == 0 then 1 else e, margin);
      hide Swings;
    }
  }

  /** `e` changes of one bit need readings that vary by more than `e - 1` margins. */
  lemma ChatterBound(was: bool, xs: seq<real>, limit: real, margin: real)
    ensures var e := Edges(was, xs, limit, margin); e >= 2 ==> Variation(xs) > Swings(e, margin)
  {
    AlwaysSpent(was, xs, limit, margin);
  }

  /** A bit keeps its value through a run exactly while the readings stay on its side of the band. */
  lemma {:induction false} QuietIff(was: bool, xs: seq<real>, limit: real, margin: real)
    ensures Edges(was, xs, limit, margin) == 0 <==>
              forall i :: 0 <= i < |xs| ==> if was then xs[i] > limit - margin else xs[i] <= limit
    decreases |xs|
  {
    if xs != [] {
      var p := xs[..|xs| - 1];
      QuietIff(was, p, limit, margin);
      AlwaysSpent(was, p, limit, margin);
      assert forall i :: 0 <= i < |p| ==> p[i] == xs[i];
      hide Variation, Spent;
    }
  }

  /** Readings within (limit - margin, limit] never change the bit, whichever way it stands. */
  lemma BandIsQuiet(was: bool, xs: seq<real>, limit: real, margin: real)
    requires forall i :: 0 <= i < |xs| ==> limit - margin < xs[i] <= limit
    ensures Edges(was, xs, limit, margin) == 0 && BitAfter(was, xs, limit, margin) == was
  {
    QuietIff(was, xs, limit, margin);
    AlwaysSpent(was, xs, limit, margin);
  }

  // ------------------------------------------------------------ undervoltage, the mirror image

  function Mirrored(vs: seq<real>): (xs: seq<real>)
    ensures |xs| == |vs| && forall i :: 0 <= i < |vs| ==> xs[i] == -vs[i]
  {
    seq(|vs|, i requires 0 <= i < |vs| => -vs[i])
  }

  function LowAfter(was: bool, vs: seq<real>, uv: real): bool {
    if vs == [] then was else Under(LowAfter(was, vs[..|vs| - 1], uv), vs[|vs| - 1], uv)
  }

  function LowEdges(was: bool, vs: seq<real>, uv: real): nat {
    if vs == [] then 0
    else
      var p := vs[..|vs| - 1];
      LowEdges(was, p, uv) + (if LowAfter(was, vs, uv) != LowAfter(was, p, uv) then 1 else 0)
  }

  /** For positive voltages the undervoltage bit is the overlimit bit of the mirrored readings. */
  lemma {:induction false} MirrorImage(was: bool, vs: seq<real>, uv: real)
    requires uv > 0.0 && forall i :: 0 <= i < |vs| ==> vs[i] > 0.0
    ensures LowAfter(was, vs, uv) == BitAfter(was, Mirrored(vs), -uv, 0.1)
    ensures LowEdges(was, vs, uv) == Edges(was, Mirrored(vs), -uv, 0.1)
    ensures Variation(vs) == Variation(Mirrored(vs))
    decreases |vs|
  {
    if vs != [] {
      var p := vs[..|vs| - 1];
      assert Mirrored(vs)[..|vs| - 1] == Mirrored(p);
      MirrorImage(was, p, uv);
    }
  }

  lemma LowChatterBound(was: bool, vs: seq<real>, uv: real)
    requires uv > 0.0 && forall i :: 0 <= i < |vs| ==> vs[i] > 0.0
    ensures var e := LowEdges(was, vs, uv); e >= 2 ==> Variation(vs) > Swings(e, 0.1)
    ensures (forall i :: 0 <= i < |vs| ==> uv <= vs[i] < uv + 0.1) ==> LowEdges(was, vs, uv) == 0
  {
    MirrorImage(was, vs, uv);
    ChatterBound(was, Mirrored(vs), -uv, 0.1);
    if forall i :: 0 <= i < |vs| ==> uv <= vs[i] < uv + 0.1 {
      BandIsQuiet(was, Mirrored(vs), -uv, 0.1);
    }
  }

  /** More changes than the variation pays for. */
  predicate Breaks(was: bool, vs: seq<real>, uv: real) {
    var e := LowEdges(was, vs, uv);
    e >= 2 && Variation(vs) <= Swings(e, 0.1)
  }

  /** A reading of zero volts clears the bit at once: four changes for next to nothing. */
  lemma ZeroVoltsChatters(uv: real, v: real)
    requires 0.0 < v < uv && v <= 0.1
    ensures LowEdges(false, [v, 0.0, v, 0.0], uv) == 4 && Breaks(false, [v, 0.0, v, 0.0], uv)
  {
    var vs := [v, 0.0, v, 0.0];
    var (a, b, c) := ([v], [v, 0.0], [v, 0.0, v]);
    assert vs[..3] == c && c[..2] == b && b[..1] == a && a[..0] == [];
    assert LowAfter(false, a, uv) && !LowAfter(false, b, uv) && LowAfter(false, c, uv) && !LowAfter(false, vs, uv);
    assert LowEdges(false, a, uv) == 1 && LowEdges(false, b, uv) == 2 && LowEdges(false, c, uv) == 3;
    assert Variation(a) == 0.0 && Variation(b) == v && Variation(c) == v + v;
  }

  lemma {:induction false} OffWithoutThreshold(was: bool, vs: seq<real>, uv: real)
    requires uv <= 0.0
    ensures LowEdges(was, vs, uv) <= if LowAfter(was, vs, uv) == was then 0 else 1
    ensures vs != [] ==> !LowAfter(was, vs, uv)
    decreases |vs|
  {
    if vs != [] {
      OffWithoutThreshold(was, vs[..|vs| - 1], uv);
    }
  }

  /** Over all voltages the bound can be broken if and only if a threshold is set, and then only by readings that are not positive. */
  lemma BreaksIff(uv: real)
    ensures (exists was, vs :: Breaks(was, vs, uv)) <==> uv > 0.0
    ensures forall was, vs :: Breaks(was, vs, uv) ==> exists i :: 0 <= i < |vs| && vs[i] <= 0.0
  {
    forall was, vs | Breaks(was, vs, uv) ensures uv > 0.0 && exists i :: 0 <= i < |vs| && vs[i] <= 0.0 {
      if uv <= 0.0 {
        OffWithoutThreshold(was, vs, uv);
      } else if forall i :: 0 <= i < |vs| ==> vs[i] > 0.0 {
        LowChatterBound(was, vs, uv);
      }
    }
    if uv > 0.0 {
      var v := if uv <= 0.1 then uv / 2.0 else 0.05;
      ZeroVoltsChatters(uv, v);
    }
  }

  // ------------------------------------------------------------ the device's four bits

  function DetectAll(was: Detected, rs: seq<Reading>, l: Limits): Detected {
    if rs == [] then was else Detect(DetectAll(was, rs[..|rs| - 1], l), rs[|rs| - 1], l)
  }

  datatype Sensor = Temp | Voltage | Current | Rpm

  function Pick(s: Sensor, r: Reading): real {
    match s case Temp => r.temp case Voltage => r.voltage case Current => r.current case Rpm => r.rpm
  }

  /** The readings of one sensor, failed reads left out. */
  function Values(rs: seq<Reading>, s: Sensor): seq<real> {
    if rs == [] then []
    else Values(rs[..|rs| - 1], s) + (if rs[|rs| - 1].ok then [Pick(s, rs[|rs| - 1])] else [])
  }

  /** Every bit of the device is its own hysteresis over the reads of its sensor that succeeded. */
  lemma {:induction false} BitsAreIndependent(was: Detected, rs: seq<Reading>, l: Limits)
    ensures var d := DetectAll(was, rs, l);
            && d.overtemp == BitAfter(was.overtemp, Values(rs, Temp), l.temp, 1.0)
            && d.overcurrent == BitAfter(was.overcurrent, Values(rs, Current), l.current, 0.05 * l.current)
            && d.encoder == BitAfter(was.encoder, Values(rs, Rpm), l.rpm, 0.02 * l.rpm)
            && d.undervoltage == LowAfter(was.undervoltage, Values(rs, Voltage), l.undervoltage)
    decreases |rs|
  {
    hide Over, Under, BitAfter, LowAfter, Values;
    if rs == [] {
      NothingRead();
    } else {
      BitsAreIndependent(was, rs[..|rs| - 1], l);
      BitMore(was.overtemp, rs, Temp, l.temp, 1.0);
      BitMore(was.overcurrent, rs, Current, l.current, 0.05 * l.current);
      BitMore(was.encoder, rs, Rpm, l.rpm, 0.02 * l.rpm);
      LowMore(was.undervoltage, rs, l.undervoltage);
    }
  }

  lemma NothingRead()
    ensures forall s :: Values([], s) == []
    ensures forall b: bool, limit: real, margin: real :: BitAfter(b, [], limit, margin) == b
    ensures forall b: bool, uv: real :: LowAfter(b, [], uv) == b
  {}

  lemma BitMore(was: bool, rs: seq<Reading>, s: Sensor, limit: real, margin: real)
    requires rs != []
    ensures var (r, b) := (rs[|rs| - 1], BitAfter(was, Values(rs[..|rs| - 1], s), limit, margin));
            BitAfter(was, Values(rs, s), limit, margin) == if r.ok then Over(b, Pick(s, r), limit, margin) else b
  {
    var (p, v) := (Values(rs[..|rs| - 1], s), Values(rs, s));
    assert if rs[|rs| - 1].ok then v[..|v| - 1] == p else v == p;
  }

  lemma LowMore(was: bool, rs: seq<Reading>, uv: real)
    requires rs != []
    ensures var (r, b) := (rs[|rs| - 1], LowAfter(was, Values(rs[..|rs| - 1], Voltage), uv));
            LowAfter(was, Values(rs, Voltage), uv) == if r.ok then Under(b, r.voltage, uv) else b
  {
    var (p, v) := (Values(rs[..|rs| - 1], Voltage), Values(rs, Voltage));
    assert if rs[|rs| - 1].ok then v[..|v| - 1] == p else v == p;
  }
}
