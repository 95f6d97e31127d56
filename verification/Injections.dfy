/**
 * Injected faults on the device (firmware/src/agent.cpp:253-278, 692-713, 725-729, 754-755):
 * command-line faults fired by the tick, remote ones set and cleared by FAULT_INJECT, all of
 * them dropped by clear_faults and by a reboot.  The list the device keeps is measured against
 * the events alone.
 */
module Injections {

  /** A flag word, as the set of the positions of its one bits. */
  type Mask = set<nat>

  /** The eight defined flags, 0xFF. */
  const F_ALL: Mask := set b: nat | b < 8

  /** `expiresAt` 0 means never. */
  datatype Injection = Injection(flags: Mask, expiresAt: real)

  /** A command-line fault. */
  datatype FaultSpec = FaultSpec(flag: Mask, startS: real, durS: real)

  datatype Setup = Setup(faults: seq<FaultSpec>, startAt: real)

  /** `log` holds the command-line faults announced as injected, in order. */
  datatype Device = Device(injections: seq<Injection>, injected: Mask, fired: seq<bool>, log: seq<nat>)

  datatype Event =
    | Tick(t: real)
    | Inject(set_: Mask, clear: Mask, durationMs: nat, t: real)
    | ClearFaults
    | Reboot

  // ------------------------------------------------------------ the operations

  predicate Reached(u: Setup, i: nat, t: real)
    requires i < |u.faults|
  {
    t - u.startAt >= u.faults[i].startS
  }

  function CliInjection(f: FaultSpec, t: real): Injection {
    Injection(f.flag, if f.durS > 0.0 then t + f.durS else 0.0)
  }

  /** The first `n` command-line faults have been considered at time `t`. */
  function Fire(u: Setup, d: Device, t: real, n: nat): (r: Device)
    requires n <= |u.faults| == |d.fired|
    ensures |r.fired| == |d.fired| && r.injected == d.injected
  {
    if n == 0 then d
    else
      var p := Fire(u, d, t, n - 1);
      if p.fired[n - 1] || !Reached(u, n - 1, t) then p
      else p.(fired := p.fired[n - 1 := true], log := p.log + [n - 1], injections := p.injections + [CliInjection(u.faults[n - 1], t)])
  }

  predicate Expired(x: real, t: real) { x > 0.0 && t >= x }

  function Unexpired(l: seq<Injection>, t: real): seq<Injection> {
    if l == [] then []
    else Unexpired(l[..|l| - 1], t) + (if Expired(l[|l| - 1].expiresAt, t) then [] else [l[|l| - 1]])
  }

  /** The combined mask. */
  function Union(l: seq<Injection>): Mask {
    if l == [] then {} else Union(l[..|l| - 1]) + l[|l| - 1].flags
  }

  function Cleared(l: seq<Injection>, c: Mask): seq<Injection> {
    if l == [] then []
    else
      var f := l[|l| - 1].flags - c;
      Cleared(l[..|l| - 1], c) + (if f == {} then [] else [Injection(f, l[|l| - 1].expiresAt)])
  }

  function Remote(e: Event): Injection
    requires e.Inject?
  {
    Injection(e.set_ * F_ALL, if e.durationMs == 0 then 0.0 else e.t + e.durationMs as real / 1000.0)
  }

  function Injected(l: seq<Injection>, e: Event): seq<Injection>
    requires e.Inject?
  {
    (if e.clear != {} then Cleared(l, e.clear) else l) + (if e.set_ != {} then [Remote(e)] else [])
  }

  function Step(u: Setup, d: Device, e: Event): (r: Device)
    requires |u.faults| == |d.fired|
    ensures |r.fired| == |d.fired|
  {
    match e
    case Tick(t) =>
      var f := Fire(u, d, t, |u.faults|);
      var l := Unexpired(f.injections, t);
      f.(injections := l, injected := Union(l) * F_ALL)
    case Inject(_, _, _, _) =>
      var l := Injected(d.injections, e);
      d.(injections := l, injected := Union(l) * F_ALL)
    case ClearFaults => d.(injections := [], injected := {})
    case Reboot => d.(injections := [], injected := {})
  }

  function Boot(u: Setup): Device { Device([], {}, seq(|u.faults|, _ => false), []) }

  function Exec(u: Setup, es: seq<Event>): (d: Device)
    ensures |d.fired| == |u.faults|
  {
    if es == [] then Boot(u) else Step(u, Exec(u, es[..|es| - 1]), es[|es| - 1])
  }

  // ------------------------------------------------------------ the object

  class Injector {
    const setup: Setup
    var injections: seq<Injection>
    var injected: Mask
    var fired: seq<bool>
    var log: seq<nat>

    ghost function View(): Device
      reads this
    {
      Device(injections, injected, fired, log)
    }

    ghost predicate Valid()
      reads this
    {
      |fired| == |setup.faults|
    }

    constructor (u: Setup)
      ensures setup == u && Valid() && View() == Boot(u)
    {
      setup, injections, injected, fired, log := u, [], {}, seq(|u.faults|, _ => false), [];
    }

    method FireCli(t: real)
      requires Valid()
      modifies this
      ensures View() == Fire(setup, old(View()), t, |setup.faults|) && Valid()
    {
      var n := 0;
      while n < |setup.faults|
        invariant n <= |setup.faults| && Valid()
        invariant View() == Fire(setup, old(View()), t, n)
      {
        if !(fired[n] || t - setup.startAt < setup.faults[n].startS) {
          var f := setup.faults[n];
          fired := fired[n := true];
          injections := injections + [Injection(f.flag, if f.durS > 0.0 then t + f.durS else 0.0)];
          log := log + [n];
        }
        n := n + 1;
      }
    }

    method UpdateInjections(t: real)
      requires Valid()
      modifies this
      ensures View() == Step(setup, old(View()), Tick(t)) && Valid()
    {
      hide Fire, Unexpired, Union;
      FireCli(t);
      var mask;
      injections, mask := Expire(injections, t);
      injected := mask * F_ALL;
    }

    method HandleFaultInject(set_: Mask, clear: Mask, durationMs: nat, t: real)
      requires Valid()
      modifies this
      ensures View() == Step(setup, old(View()), Inject(set_, clear, durationMs, t)) && Valid()
    {
      hide Union, Cleared;
      if clear != {} {
        injections := Erase(injections, clear);
      }
      if set_ != {} {
        injections := injections + [Injection(set_ * F_ALL, if durationMs == 0 then 0.0 else t + durationMs as real / 1000.0)];
      }
      assert injections == Injected(old(injections), Inject(set_, clear, durationMs, t));
      var mask := Combine(injections);
      injected := mask * F_ALL;
    }

    method ClearAll()
      requires Valid()
      modifies this
      ensures View() == Step(setup, old(View()), ClearFaults) == Step(setup, old(View()), Reboot) && Valid()
    {
      injections, injected := [], {};
    }
  }

  /** Erases the expired entries one by one and combines the others. */
  method Expire(l: seq<Injection>, t: real) returns (r: seq<Injection>, mask: Mask)
    ensures r == Unexpired(l, t) && mask == Union(r)
  {
    hide Unexpired, Union;
    r, mask := l, {};
    var k: nat := 0;
    ghost var looked: nat := 0;
    NoneLooked(l, t);
    while k < |r|
      invariant looked <= |l| && k == |Unexpired(l[..looked], t)|
      invariant r == Unexpired(l[..looked], t) + l[looked..] && mask == Union(r[..k])
      decreases |l| - looked
    {
      LookAt(l, t, looked);
      assert r[k] == l[looked] && r[..k] == Unexpired(l[..looked], t) && r[k + 1..] == l[looked + 1..];
      if r[k].expiresAt > 0.0 && t >= r[k].expiresAt {
        r := r[..k] + r[k + 1..];
      } else {
        UnionMore(r, k);
        mask := mask + r[k].flags;
        k := k + 1;
      }
      looked := looked + 1;
    }
    assert l[..looked] == l && r[..k] == r;
  }

  lemma NoneLooked(l: seq<Injection>, t: real)
    ensures Unexpired(l[..0], t) == [] && Union(l[..0]) == {}
  {}

  lemma LookAt(l: seq<Injection>, t: real, k: nat)
    requires k < |l|
    ensures Unexpired(l[..k + 1], t) == Unexpired(l[..k], t) + (if Expired(l[k].expiresAt, t) then [] else [l[k]])
  {
    assert l[..k + 1][..k] == l[..k];
  }

  /** Masks every entry, then drops the empty ones. */
  method Erase(l: seq<Injection>, c: Mask) returns (r: seq<Injection>)
    ensures r == Cleared(l, c)
  {
    r := [];
    var k := 0;
    while k < |l|
      invariant k <= |l| && r == Cleared(l[..k], c)
    {
      assert l[..k + 1][..k] == l[..k];
      var f := l[k].flags - c;
      if f != {} {
        r := r + [Injection(f, l[k].expiresAt)];
      }
      k := k + 1;
    }
    assert l[..k] == l;
  }

  method Combine(l: seq<Injection>) returns (mask: Mask)
    ensures mask == Union(l)
  {
    mask := {};
    var k := 0;
    while k < |l|
      invariant k <= |l| && mask == Union(l[..k])
    {
      UnionMore(l, k);
      mask := mask + l[k].flags;
      k := k + 1;
    }
    assert l[..k] == l;
  }

  lemma UnionMore(l: seq<Injection>, k: nat)
    requires k < |l|
    ensures Union(l[..k + 1]) == Union(l[..k]) + l[k].flags
  {
    assert l[..k + 1][..k] == l[..k];
  }

  // ------------------------------------------------------------ the specification, from the events alone

  datatype Source = Remotely | Cli(i: nat)

  /** Event `j` is the first tick at or after the start of command-line fault `i`. */
  ghost predicate FirstTick(u: Setup, es: seq<Event>, j: nat, i: nat)
    requires j < |es| && i < |u.faults|
  {
    && es[j].Tick? && Reached(u, i, es[j].t)
    && forall k :: 0 <= k < j && es[k].Tick? ==> !Reached(u, i, es[k].t)
  }

  /** Event `j` issues an injection. */
  ghost predicate Issues(u: Setup, es: seq<Event>, j: nat, src: Source)
    requires j < |es|
  {
    match src
    case Remotely => es[j].Inject? && es[j].set_ != {}
    case Cli(i) => i < |u.faults| && FirstTick(u, es, j, i)
  }

  function Issued(u: Setup, e: Event, src: Source): Injection {
    match src
    case Remotely => if e.Inject? then Remote(e) else Injection({}, 0.0)
    case Cli(i) => if e.Tick? && i < |u.faults| then CliInjection(u.faults[i], e.t) else Injection({}, 0.0)
  }

  /** The events that take flag `b` away from the injections issued before them. */
  predicate Covers(e: Event, b: nat) {
    e.ClearFaults? || e.Reboot? || (e.Inject? && b in e.clear)
  }

  /** An injection of flag `b`, expiring at `x`, issued by event `j` and covered by no later event. */
  ghost predicate Stands(u: Setup, es: seq<Event>, b: nat, x: real, j: nat, src: Source)
    requires j < |es|
  {
    && Issues(u, es, j, src) && b in Issued(u, es[j], src).flags && Issued(u, es[j], src).expiresAt == x
    && forall k :: j < k < |es| ==> !Covers(es[k], b)
  }

  ghost predicate Standing(u: Setup, es: seq<Event>, b: nat, x: real) {
    exists j: nat, src :: j < |es| && Stands(u, es, b, x, j, src)
  }

  /** Some tick has come at or after `x`. */
  ghost predicate Outlived(es: seq<Event>, x: real) {
    x > 0.0 && exists k :: 0 <= k < |es| && es[k].Tick? && es[k].t >= x
  }

  /** The list holds an injection of `b` that expires at `x`. */
  ghost predicate Holds(l: seq<Injection>, b: nat, x: real) {
    exists m :: 0 <= m < |l| && b in l[m].flags && l[m].expiresAt == x
  }

  // ------------------------------------------------------------ the list, flag by flag

  lemma HoldsMore(l: seq<Injection>, i: Injection, b: nat, x: real)
    ensures Holds(l + [i], b, x) <==> Holds(l, b, x) || (b in i.flags && i.expiresAt == x)
  {
    var r := l + [i];
    if Holds(l, b, x) {
      var m :| 0 <= m < |l| && b in l[m].flags && l[m].expiresAt == x;
      assert r[m] == l[m];
    }
    assert r[|l|] == i;
  }

  lemma {:induction false} UnexpiredHolds(l: seq<Injection>, t: real, b: nat, x: real)
    ensures Holds(Unexpired(l, t), b, x) <==> Holds(l, b, x) && !Expired(x, t)
    decreases |l|
  {
    hide Holds;
    if l == [] {
      assert Unexpired(l, t) == [];
      NothingHeld(b, x);
    } else {
      var p, i := l[..|l| - 1], l[|l| - 1];
      UnexpiredHolds(p, t, b, x);
      assert l == p + [i];
      HoldsMore(p, i, b, x);
      HoldsMore(Unexpired(p, t), i, b, x);
      if Expired(i.expiresAt, t) {
        assert Unexpired(l, t) == Unexpired(p, t);
      }
    }
  }

  lemma NothingHeld(b: nat, x: real)
    ensures !Holds([], b, x)
  {}

  lemma {:induction false} ClearedHolds(l: seq<Injection>, c: Mask, b: nat, x: real)
    ensures Holds(Cleared(l, c), b, x) <==> Holds(l, b, x) && b !in c
    decreases |l|
  {
    hide Holds;
    if l == [] {
      assert Cleared(l, c) == [];
      NothingHeld(b, x);
    } else {
      var p, i := l[..|l| - 1], l[|l| - 1];
      ClearedHolds(p, c, b, x);
      assert l == p + [i];
      HoldsMore(p, i, b, x);
      var r := Injection(i.flags - c, i.expiresAt);
      HoldsMore(Cleared(p, c), r, b, x);
      if r.flags == {} {
        assert b !in r.flags && Cleared(l, c) == Cleared(p, c);
      }
    }
  }

  lemma {:induction false} UnionHas(l: seq<Injection>, b: nat)
    ensures b in Union(l) <==> exists x :: Holds(l, b, x)
    decreases |l|
  {
    hide Holds;
    if l == [] {
      forall x ensures !Holds(l, b, x) { NothingHeld(b, x); }
    } else {
      var p, i := l[..|l| - 1], l[|l| - 1];
      UnionHas(p, b);
      assert l == p + [i];
      forall x ensures Holds(l, b, x) <==> Holds(p, b, x) || (b in i.flags && i.expiresAt == x) { HoldsMore(p, i, b, x); }
      if b in i.flags {
        assert Holds(l, b, i.expiresAt);
      }
    }
  }

  /** What the first `n` command-line faults add at time `t`. */
  ghost predicate FiresNow(u: Setup, d: Device, t: real, n: nat, b: nat, x: real)
    requires n <= |u.faults| == |d.fired|
  {
    exists i :: 0 <= i < n && Fires(u, d, t, i) && b in u.faults[i].flag && CliInjection(u.faults[i], t).expiresAt == x
  }

  predicate Fires(u: Setup, d: Device, t: real, i: nat)
    requires i < |u.faults| == |d.fired|
  {
    !d.fired[i] && Reached(u, i, t)
  }

  lemma {:induction false} FireExact(u: Setup, d: Device, t: real, n: nat)
    requires n <= |u.faults| == |d.fired|
    ensures var r := Fire(u, d, t, n);
            && (forall i :: n <= i < |d.fired| ==> r.fired[i] == d.fired[i])
            && (forall i :: 0 <= i < n ==> r.fired[i] == (d.fired[i] || Reached(u, i, t)))
    decreases n
  {
    if n > 0 {
      FireExact(u, d, t, n - 1);
    }
  }

  lemma {:induction false} FireHolds(u: Setup, d: Device, t: real, n: nat, b: nat, x: real)
    requires n <= |u.faults| == |d.fired|
    ensures Holds(Fire(u, d, t, n).injections, b, x) <==> Holds(d.injections, b, x) || FiresNow(u, d, t, n, b, x)
    decreases n
  {
    hide Holds, Reached;
    if n > 0 {
      FireHolds(u, d, t, n - 1, b, x);
      FireExact(u, d, t, n - 1);
      var p := Fire(u, d, t, n - 1);
      HoldsMore(p.injections, CliInjection(u.faults[n - 1], t), b, x);
    }
  }

  // ------------------------------------------------------------ the refinement

  /** A clock that does not run backwards; it starts at zero or later. */
  ghost predicate Clocked(es: seq<Event>) {
    && (forall k :: 0 <= k < |es| && Timed(es[k]) ==> es[k].t >= 0.0)
    && (forall j, k :: 0 <= j < k < |es| && Timed(es[j]) && Timed(es[k]) ==> es[j].t <= es[k].t)
  }

  predicate Timed(e: Event) { e.Tick? || e.Inject? }

  ghost predicate Came(u: Setup, es: seq<Event>, i: nat)
    requires i < |u.faults|
  {
    exists k :: 0 <= k < |es| && es[k].Tick? && Reached(u, i, es[k].t)
  }

  lemma CameMore(u: Setup, es: seq<Event>, e: Event, i: nat)
    requires i < |u.faults|
    ensures Came(u, es + [e], i) <==> Came(u, es, i) || (e.Tick? && Reached(u, i, e.t))
  {
    var all := es + [e];
    hide Reached;
    if Came(u, es, i) {
      var k :| 0 <= k < |es| && es[k].Tick? && Reached(u, i, es[k].t);
      assert all[k] == es[k];
    }
    assert all[|es|] == e;
  }

  lemma ExecMore(u: Setup, es: seq<Event>, e: Event)
    ensures Exec(u, es + [e]) == Step(u, Exec(u, es), e)
  {
    assert (es + [e])[..|es|] == es;
  }

  /** A command-line fault counts as fired from the first tick that reached it. */
  lemma {:induction false} FiredWhenReached(u: Setup, es: seq<Event>, i: nat)
    requires i < |u.faults|
    ensures Exec(u, es).fired[i] <==> Came(u, es, i)
    decreases |es|
  {
    if es != [] {
      var p, e := es[..|es| - 1], es[|es| - 1];
      FiredWhenReached(u, p, i);
      assert es == p + [e];
      CameMore(u, p, e, i);
      if e.Tick? {
        FireExact(u, Exec(u, p), e.t, |u.faults|);
      }
      hide Came, Reached;
    }
  }

  /** How often the log names fault `i`. */
  function Times(log: seq<nat>, i: nat): nat { multiset(log)[i] }

  lemma LogMore(log: seq<nat>, k: nat, i: nat)
    ensures Times(log + [k], i) == Times(log, i) + (if i == k then 1 else 0)
  {}

  lemma {:induction false} FireLog(u: Setup, d: Device, t: real, n: nat, i: nat)
    requires n <= |u.faults| == |d.fired| && i < |u.faults|
    ensures Times(Fire(u, d, t, n).log, i) == Times(d.log, i) + (if i < n && Fires(u, d, t, i) then 1 else 0)
    decreases n
  {
    hide Reached, CliInjection, Times;
    if n > 0 {
      FireLog(u, d, t, n - 1, i);
      FireExact(u, d, t, n - 1);
      var p := Fire(u, d, t, n - 1);
      LogMore(p.log, n - 1, i);
    }
  }

  /** Each command-line fault fires exactly once: never before the first tick that reaches it, and not again. */
  lemma {:induction false} CliFiresOnce(u: Setup, es: seq<Event>, i: nat)
    requires i < |u.faults|
    ensures Times(Exec(u, es).log, i) == if Came(u, es, i) then 1 else 0
    decreases |es|
  {
    if es != [] {
      var p, e := es[..|es| - 1], es[|es| - 1];
      CliFiresOnce(u, p, i);
      assert es == p + [e];
      CameMore(u, p, e, i);
      FiredWhenReached(u, p, i);
      if e.Tick? {
        FireLog(u, Exec(u, p), e.t, |u.faults|, i);
      }
      hide Came, Reached, Fire;
    }
  }

  /** Whether the event issues an injection of `b` expiring at `x`. */
  ghost predicate IssuesNow(u: Setup, es: seq<Event>, e: Event, b: nat, x: real) {
    exists src :: Issues(u, es + [e], |es|, src) && b in Issued(u, e, src).flags && Issued(u, e, src).expiresAt == x
  }

  lemma IssuesSame(u: Setup, es: seq<Event>, e: Event, j: nat, src: Source)
    requires j < |es|
    ensures Issues(u, es + [e], j, src) <==> Issues(u, es, j, src)
  {
    var all := es + [e];
    assert forall k :: 0 <= k <= j ==> all[k] == es[k];
    hide Reached;
    if src.Cli? && src.i < |u.faults| {
      FirstTickSame(u, es, all, j, src.i);
    }
  }

  lemma FirstTickSame(u: Setup, a: seq<Event>, b: seq<Event>, j: nat, i: nat)
    requires j < |a| && j < |b| && i < |u.faults| && forall k :: 0 <= k <= j ==> a[k] == b[k]
    ensures FirstTick(u, a, j, i) <==> FirstTick(u, b, j, i)
  {
    hide Reached;
    assert forall k :: 0 <= k < j ==> (a[k].Tick? <==> b[k].Tick?);
  }

  lemma StandsMore(u: Setup, es: seq<Event>, e: Event, b: nat, x: real, j: nat, src: Source)
    requires j < |es|
    ensures Stands(u, es + [e], b, x, j, src) <==> Stands(u, es, b, x, j, src) && !Covers(e, b)
  {
    var all := es + [e];
    IssuesSame(u, es, e, j, src);
    assert all[j] == es[j] && all[|es|] == e;
    assert forall k :: 0 <= k < |es| ==> all[k] == es[k];
    hide Issues, Issued, Covers;
  }

  lemma StandingMore(u: Setup, es: seq<Event>, e: Event, b: nat, x: real)
    ensures Standing(u, es + [e], b, x) <==> (Standing(u, es, b, x) && !Covers(e, b)) || IssuesNow(u, es, e, b, x)
  {
    var all := es + [e];
    assert all[|es|] == e;
    forall j: nat, src | j < |es|
      ensures Stands(u, all, b, x, j, src) <==> Stands(u, es, b, x, j, src) && !Covers(e, b)
    {
      StandsMore(u, es, e, b, x, j, src);
    }
    forall src
      ensures Stands(u, all, b, x, |es|, src) <==>
                Issues(u, all, |es|, src) && b in Issued(u, e, src).flags && Issued(u, e, src).expiresAt == x
    {
    }
    hide Stands, Issues, Issued, Covers;
    if Standing(u, all, b, x) {
      var j: nat, src :| j < |all| && Stands(u, all, b, x, j, src);
      if j < |es| {
        assert Stands(u, es, b, x, j, src);
      }
    }
    if Standing(u, es, b, x) && !Covers(e, b) {
      var j: nat, src :| j < |es| && Stands(u, es, b, x, j, src);
      assert Stands(u, all, b, x, j, src);
    }
    if IssuesNow(u, es, e, b, x) {
      var src :| Issues(u, es + [e], |es|, src) && b in Issued(u, e, src).flags && Issued(u, e, src).expiresAt == x;
      assert Stands(u, all, b, x, |es|, src);
    }
  }

  lemma OutlivedMore(es: seq<Event>, e: Event, x: real)
    ensures Outlived(es + [e], x) <==> Outlived(es, x) || (e.Tick? && Expired(x, e.t))
  {
    var all := es + [e];
    assert all[|es|] == e;
    if Outlived(es, x) {
      var k :| 0 <= k < |es| && es[k].Tick? && es[k].t >= x;
      assert all[k] == es[k];
    }
  }

  /** What is issued now cannot have been outlived by an earlier tick. */
  lemma FreshNotOutlived(u: Setup, es: seq<Event>, e: Event, b: nat, x: real)
    requires Clocked(es + [e]) && IssuesNow(u, es, e, b, x)
    ensures !Outlived(es, x) && !(e.Tick? && Expired(x, e.t))
  {
    var all := es + [e];
    var src :| Issues(u, all, |es|, src) && b in Issued(u, e, src).flags && Issued(u, e, src).expiresAt == x;
    assert all[|es|] == e && Timed(e);
    hide Issues;
    assert x == 0.0 || x > e.t >= 0.0;
    forall k | 0 <= k < |es| && es[k].Tick? ensures es[k].t <= e.t {
      assert all[k] == es[k] && Timed(all[k]);
    }
  }

  /** At a tick the command line issues exactly what `Fire` adds. */
  lemma TickIssues(u: Setup, es: seq<Event>, t: real, b: nat, x: real)
    ensures IssuesNow(u, es, Tick(t), b, x) <==> FiresNow(u, Exec(u, es), t, |u.faults|, b, x)
  {
    var all, e, d := es + [Tick(t)], Tick(t), Exec(u, es);
    assert all[|es|] == e && forall k :: 0 <= k < |es| ==> all[k] == es[k];
    forall i: nat | i < |u.faults| ensures Issues(u, all, |es|, Cli(i)) <==> Fires(u, d, t, i) {
      FiredWhenReached(u, es, i);
      hide Reached, Exec;
    }
    assert !Issues(u, all, |es|, Remotely);
    assert forall i: nat :: Issues(u, all, |es|, Cli(i)) ==> i < |u.faults|;
    hide Fires, Issues, Exec;
    if FiresNow(u, d, t, |u.faults|, b, x) {
      var i :| 0 <= i < |u.faults| && Fires(u, d, t, i) && b in u.faults[i].flag && CliInjection(u.faults[i], t).expiresAt == x;
      assert Issues(u, all, |es|, Cli(i)) && Issued(u, e, Cli(i)) == CliInjection(u.faults[i], t);
    }
    if IssuesNow(u, es, e, b, x) {
      var src :| Issues(u, all, |es|, src) && b in Issued(u, e, src).flags && Issued(u, e, src).expiresAt == x;
      assert src.Cli? && src.i < |u.faults|;
    }
  }

  /** The device's list, flag by flag, is what stands and has not been outlived by a tick. */
  lemma {:induction false} ListIsHistory(u: Setup, es: seq<Event>, b: nat, x: real)
    requires Clocked(es)
    ensures Holds(Exec(u, es).injections, b, x) <==> Standing(u, es, b, x) && !Outlived(es, x)
    decreases |es|
  {
    if es == [] {
      NothingHeld(b, x);
    } else {
      var p, e := es[..|es| - 1], es[|es| - 1];
      assert es == p + [e];
      ListIsHistory(u, p, b, x);
      ExecMore(u, p, e);
      StandingMore(u, p, e, b, x);
      OutlivedMore(p, e, x);
      hide Holds, Standing, Outlived, Exec;
      if IssuesNow(u, p, e, b, x) {
        FreshNotOutlived(u, p, e, b, x);
      }
      match e
      case Tick(t) =>
        TickIssues(u, p, t, b, x);
        FireHolds(u, Exec(u, p), t, |u.faults|, b, x);
        UnexpiredHolds(Fire(u, Exec(u, p), t, |u.faults|).injections, t, b, x);
      case Inject(_, _, _, _) =>
        InjectHolds(Exec(u, p).injections, e, b, x);
        InjectIssues(u, p, e, b, x);
      case ClearFaults => NothingHeld(b, x); DropIssues(u, p, e, b, x);
      case Reboot => NothingHeld(b, x); DropIssues(u, p, e, b, x);
    }
  }

  lemma InjectHolds(l: seq<Injection>, e: Event, b: nat, x: real)
    requires e.Inject?
    ensures Holds(Injected(l, e), b, x) <==>
              (Holds(l, b, x) && b !in e.clear) || (e.set_ != {} && b in Remote(e).flags && Remote(e).expiresAt == x)
  {
    ClearedHolds(l, e.clear, b, x);
    var k := if e.clear != {} then Cleared(l, e.clear) else l;
    HoldsMore(k, Remote(e), b, x);
    hide Holds, Cleared;
    if e.set_ == {} {
      assert Injected(l, e) == k;
    }
  }

  lemma InjectIssues(u: Setup, es: seq<Event>, e: Event, b: nat, x: real)
    requires e.Inject?
    ensures IssuesNow(u, es, e, b, x) <==> e.set_ != {} && b in Remote(e).flags && Remote(e).expiresAt == x
  {
    var all := es + [e];
    assert all[|es|] == e;
    assert Issues(u, all, |es|, Remotely) <==> e.set_ != {};
    assert Issued(u, e, Remotely) == Remote(e);
  }

  lemma DropIssues(u: Setup, es: seq<Event>, e: Event, b: nat, x: real)
    requires e.ClearFaults? || e.Reboot?
    ensures !IssuesNow(u, es, e, b, x)
  {
    assert (es + [e])[|es|] == e;
  }

  lemma MaskOfList(u: Setup, es: seq<Event>)
    ensures Exec(u, es).injected == Union(Exec(u, es).injections) * F_ALL
  {}

  /** After any run a flag is injected exactly when a standing injection of it was not outlived by a tick. */
  lemma InjectedExactly(u: Setup, es: seq<Event>, b: nat)
    requires Clocked(es)
    ensures b in Exec(u, es).injected <==> b < 8 && exists x :: Standing(u, es, b, x) && !Outlived(es, x)
  {
    var l := Exec(u, es).injections;
    MaskOfList(u, es);
    UnionHas(l, b);
    forall x ensures Holds(l, b, x) <==> Standing(u, es, b, x) && !Outlived(es, x) {
      ListIsHistory(u, es, b, x);
    }
    hide Holds, Standing, Outlived, Exec, Union;
    if b in Union(l) {
      var x :| Holds(l, b, x);
      assert Standing(u, es, b, x) && !Outlived(es, x);
    }
  }

  lemma StandingAfterTick(u: Setup, es: seq<Event>, t: real, b: nat)
    requires Clocked(es + [Tick(t)])
    ensures b in Exec(u, es + [Tick(t)]).injected <==>
              b < 8 && exists x :: Standing(u, es + [Tick(t)], b, x) && !Expired(x, t)
  {
    var all := es + [Tick(t)];
    InjectedExactly(u, all, b);
    forall x ensures Outlived(all, x) <==> Expired(x, t) {
      OutlivedMore(es, Tick(t), x);
      if Outlived(es, x) {
        var k :| 0 <= k < |es| && es[k].Tick? && es[k].t >= x;
        assert all[k] == es[k] && all[|es|] == Tick(t) && Timed(all[k]) && Timed(all[|es|]);
      }
    }
    hide Standing, Outlived, Exec, Expired;
  }

  // ------------------------------------------------------------ in the events' own numbers

  /** No later event takes the flag away. */
  ghost predicate Uncovered(es: seq<Event>, j: nat, b: nat) {
    forall k :: j < k < |es| ==> es[k] != ClearFaults && es[k] != Reboot && !(es[k].Inject? && b in es[k].clear)
  }

  /** Event `j` is a FAULT_INJECT of the flag, untimed or not `durationMs` milliseconds old at `t`. */
  ghost predicate RemoteLasts(es: seq<Event>, t: real, j: nat, b: nat) {
    && j < |es| && es[j].Inject? && b in es[j].set_ && Uncovered(es, j, b)
    && (es[j].durationMs == 0 || 1000.0 * (t - es[j].t) < es[j].durationMs as real)
  }

  /** Event `j` is the first tick at or after the start of command-line fault `i`, which is untimed or not `durS` seconds old at `t`. */
  ghost predicate CliLasts(u: Setup, es: seq<Event>, t: real, j: nat, i: nat, b: nat) {
    && j < |es| && i < |u.faults| && es[j].Tick? && b in u.faults[i].flag && Uncovered(es, j, b)
    && es[j].t >= u.startAt + u.faults[i].startS
    && (forall k :: 0 <= k < j && es[k].Tick? ==> es[k].t < u.startAt + u.faults[i].startS)
    && (u.faults[i].durS <= 0.0 || t - es[j].t < u.faults[i].durS)
  }

  lemma RemoteStands(u: Setup, es: seq<Event>, t: real, j: nat, b: nat)
    requires b < 8 && j < |es| && Clocked(es)
    ensures RemoteLasts(es, t, j, b) <==> exists x :: Stands(u, es, b, x, j, Remotely) && !Expired(x, t)
  {
    var e := es[j];
    if e.Inject? {
      assert Timed(e);
      var x := Remote(e).expiresAt;
      assert e.durationMs > 0 ==> x == e.t + e.durationMs as real / 1000.0 > 0.0;
      assert RemoteLasts(es, t, j, b) <==> Stands(u, es, b, x, j, Remotely) && !Expired(x, t);
    }
  }

  lemma CliStands(u: Setup, es: seq<Event>, t: real, j: nat, i: nat, b: nat)
    requires j < |es| && Clocked(es)
    ensures CliLasts(u, es, t, j, i, b) <==> exists x :: Stands(u, es, b, x, j, Cli(i)) && !Expired(x, t)
  {
    var e := es[j];
    if e.Tick? && i < |u.faults| {
      assert Timed(e);
      var x := CliInjection(u.faults[i], e.t).expiresAt;
      assert FirstTick(u, es, j, i) <==> e.t >= u.startAt + u.faults[i].startS
                                         && forall k :: 0 <= k < j && es[k].Tick? ==> es[k].t < u.startAt + u.faults[i].startS;
      assert CliLasts(u, es, t, j, i, b) <==> Stands(u, es, b, x, j, Cli(i)) && !Expired(x, t);
    }
  }

  /**
   * After each tick at `t`, a flag is injected if and only if it is one of the eight and some
   * FAULT_INJECT of it, or some command-line fault with it, stands: issued since the last clear,
   * clear_faults or reboot that covered it, and untimed or not yet as old as its duration.
   */
  lemma InjectedAfterTick(u: Setup, es: seq<Event>, t: real, b: nat)
    requires Clocked(es + [Tick(t)])
    ensures var all := es + [Tick(t)];
            b in Exec(u, all).injected <==>
              b < 8 && ((exists j: nat :: RemoteLasts(all, t, j, b)) || exists j: nat, i: nat :: CliLasts(u, all, t, j, i, b))
  {
    var all := es + [Tick(t)];
    StandingAfterTick(u, es, t, b);
    if b < 8 {
      forall j: nat | j < |all| ensures RemoteLasts(all, t, j, b) <==> exists x :: Stands(u, all, b, x, j, Remotely) && !Expired(x, t) {
        RemoteStands(u, all, t, j, b);
      }
      forall j: nat, i: nat | j < |all| ensures CliLasts(u, all, t, j, i, b) <==> exists x :: Stands(u, all, b, x, j, Cli(i)) && !Expired(x, t) {
        CliStands(u, all, t, j, i, b);
      }
      EitherWay(u, all, t, b);
    }
  }

  lemma EitherWay(u: Setup, es: seq<Event>, t: real, b: nat)
    requires forall j: nat :: j < |es| ==> (RemoteLasts(es, t, j, b) <==> exists x :: Stands(u, es, b, x, j, Remotely) && !Expired(x, t))
    requires forall j: nat, i: nat :: j < |es| ==> (CliLasts(u, es, t, j, i, b) <==> exists x :: Stands(u, es, b, x, j, Cli(i)) && !Expired(x, t))
    ensures (exists x :: Standing(u, es, b, x) && !Expired(x, t)) <==>
              (exists j: nat :: RemoteLasts(es, t, j, b)) || exists j: nat, i: nat :: CliLasts(u, es, t, j, i, b)
  {
    hide Stands, Expired;
    if x :| Standing(u, es, b, x) && !Expired(x, t) {
      var j: nat, src :| j < |es| && Stands(u, es, b, x, j, src);
      match src
      case Remotely => assert RemoteLasts(es, t, j, b);
      case Cli(i) => assert CliLasts(u, es, t, j, i, b);
    }
    if j: nat :| RemoteLasts(es, t, j, b) {
      var x :| Stands(u, es, b, x, j, Remotely) && !Expired(x, t);
      assert Standing(u, es, b, x);
    }
    if j: nat, i: nat :| CliLasts(u, es, t, j, i, b) {
      var x :| Stands(u, es, b, x, j, Cli(i)) && !Expired(x, t);
      assert Standing(u, es, b, x);
    }
  }
}
