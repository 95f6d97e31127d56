/**
 * The table of control connections (backend/app/ingest.py:189-228): each connection is bound to
 * a device by its first frame, a newer connection takes over from an older one, and the end of a
 * connection unregisters it only if it is still the registered one.
 */
module Registry {

  type Conn = nat

  /** `owner` is each handler's `device_id`; `ended` the connections whose handler has finished. */
  datatype Table = Table(owner: map<Conn, string>, ended: set<Conn>, writers: map<string, Conn>, connected: map<string, bool>)

  datatype Event = Frame(conn: Conn, device: string) | Teardown(conn: Conn)

  const EMPTY := Table(map[], {}, map[], map[])

  /** A connection's first frame registers it; later ones leave the table alone. */
  predicate Registers(t: Table, e: Event) {
    e.Frame? && e.conn !in t.ended && e.conn !in t.owner
  }

  /** The `finally` block tests the device id for truth, so the empty id is never unregistered. */
  predicate Unregisters(t: Table, c: Conn) {
    c !in t.ended && c in t.owner && t.owner[c] != "" && t.owner[c] in t.writers && t.writers[t.owner[c]] == c
  }

  function Step(t: Table, e: Event): Table {
    match e
    case Frame(c, d) =>
      if Registers(t, e) then t.(owner := t.owner[c := d], writers := t.writers[d := c], connected := t.connected[d := true])
      else t
    case Teardown(c) =>
      var u := t.(ended := t.ended + {c});
      if Unregisters(t, c) then u.(writers := t.writers - {t.owner[c]}, connected := t.connected[t.owner[c] := false])
      else u
  }

  function Exec(es: seq<Event>): Table {
    if es == [] then EMPTY else Step(Exec(es[..|es| - 1]), es[|es| - 1])
  }

  class Connections {
    var owner: map<Conn, string>
    var ended: set<Conn>
    var writers: map<string, Conn>
    var connected: map<string, bool>

    ghost function View(): Table
      reads this
    {
      Table(owner, ended, writers, connected)
    }

    constructor ()
      ensures View() == EMPTY
    {
      owner, ended, writers, connected := map[], {}, map[], map[];
    }

    /** One frame in a running handler; tells whether it is dispatched. */
    method OnFrame(c: Conn, d: string) returns (dispatched: bool)
      requires c !in ended
      modifies this
      ensures View() == Step(old(View()), Frame(c, d))
      ensures dispatched <==> owner[c] == d
    {
      if c !in owner {
        owner := owner[c := d];
        writers := writers[d := c];
        connected := connected[d := true];
      }
      dispatched := owner[c] == d;
    }

    method Finish(c: Conn)
      requires c !in ended
      modifies this
      ensures View() == Step(old(View()), Teardown(c))
    {
      ended := ended + {c};
      if c in owner && owner[c] != "" {
        var d := owner[c];
        if d in writers && writers[d] == c {
          writers := writers - {d};
          connected := connected[d := false];
        }
      }
    }
  }

  // ------------------------------------------------------------ read off the events alone

  /** The handler of `c` has finished. */
  ghost predicate Over(es: seq<Event>, c: Conn) {
    exists k :: 0 <= k < |es| && es[k] == Teardown(c)
  }

  /** The connection has sent a frame. */
  ghost predicate Spoke(es: seq<Event>, c: Conn) {
    exists k :: 0 <= k < |es| && es[k].Frame? && es[k].conn == c
  }

  /** Event `j` is the first frame of a connection still open, and names `d`. */
  ghost predicate Registration(es: seq<Event>, j: nat, d: string)
    requires j < |es|
  {
    es[j].Frame? && es[j].device == d && !Over(es[..j], es[j].conn) && !Spoke(es[..j], es[j].conn)
  }

  /** `c` made the last registration of `d`. */
  ghost predicate Latest(es: seq<Event>, d: string, c: Conn) {
    exists j: nat :: j < |es| && Registration(es, j, d) && es[j].conn == c && forall k: nat :: j < k < |es| ==> !Registration(es, k, d)
  }

  // ------------------------------------------------------------ the table against the events

  lemma Snoc(es: seq<Event>, e: Event)
    ensures Exec(es + [e]) == Step(Exec(es), e)
    ensures forall c :: Over(es + [e], c) <==> Over(es, c) || e == Teardown(c)
    ensures forall c :: Spoke(es + [e], c) <==> Spoke(es, c) || (e.Frame? && e.conn == c)
  {
    var all := es + [e];
    assert all[..|es|] == es && all[|es|] == e;
    forall c ensures Over(all, c) <==> Over(es, c) || e == Teardown(c) {
      if Over(es, c) {
        var k :| 0 <= k < |es| && es[k] == Teardown(c);
        assert all[k] == es[k];
      }
    }
    forall c ensures Spoke(all, c) <==> Spoke(es, c) || (e.Frame? && e.conn == c) {
      if Spoke(es, c) {
        var k :| 0 <= k < |es| && es[k].Frame? && es[k].conn == c;
        assert all[k] == es[k];
      }
    }
  }

  /** Over and spoken-for connections are the ended ones and, unless they spoke too late, the owners. */
  lemma {:induction false} HandlersKnown(es: seq<Event>, c: Conn)
    ensures c in Exec(es).ended <==> Over(es, c)
    ensures !Over(es, c) ==> (c in Exec(es).owner <==> Spoke(es, c))
    decreases |es|
  {
    if es != [] {
      var p, e := es[..|es| - 1], es[|es| - 1];
      assert es == p + [e];
      HandlersKnown(p, c);
      Snoc(p, e);
      hide Over, Spoke, Exec;
    }
  }

  lemma RegistrationMore(es: seq<Event>, e: Event, d: string)
    ensures forall j: nat :: j < |es| ==> (Registration(es + [e], j, d) <==> Registration(es, j, d))
    ensures Registration(es + [e], |es|, d) <==> Registers(Exec(es), e) && e.device == d
  {
    var all := es + [e];
    forall j: nat | j < |es| ensures Registration(all, j, d) <==> Registration(es, j, d) {
      assert all[..j] == es[..j] && all[j] == es[j];
    }
    assert all[..|es|] == es && all[|es|] == e;
    HandlersKnown(es, e.conn);
  }

  lemma LatestMore(es: seq<Event>, e: Event, d: string, c: Conn)
    ensures Latest(es + [e], d, c) <==> if Registers(Exec(es), e) && e.device == d then e.conn == c else Latest(es, d, c)
  {
    RegistrationMore(es, e, d);
    var all := es + [e];
    assert all[|es|] == e && forall j :: 0 <= j < |es| ==> all[j] == es[j];
    hide Registration, Registers, Exec;
    if Latest(es, d, c) && !Registration(all, |es|, d) {
      var j: nat :| j < |es| && Registration(es, j, d) && es[j].conn == c && forall k: nat :: j < k < |es| ==> !Registration(es, k, d);
      assert Registration(all, j, d);
    }
    if Latest(all, d, c) && !Registration(all, |es|, d) {
      var j: nat :| j < |all| && Registration(all, j, d) && all[j].conn == c && forall k: nat :: j < k < |all| ==> !Registration(all, k, d);
      assert Registration(es, j, d) && forall k: nat :: j < k < |es| ==> !Registration(es, k, d);
    }
  }

  /** A connection that was last to register a device is bound to it. */
  ghost predicate Bound(t: Table, latest: bool, over: bool, d: string, c: Conn) {
    && (latest ==> c in t.owner && t.owner[c] == d)
    && (d in t.writers && t.writers[d] == c <==> latest && (!over || d == ""))
    && (d in t.connected && t.connected[d] <==> d in t.writers)
    && (over <==> c in t.ended)
  }

  lemma BoundStep(t: Table, e: Event, latest: bool, over: bool, d: string, c: Conn)
    requires Bound(t, latest, over, d, c)
    ensures Bound(Step(t, e), if Registers(t, e) && e.device == d then e.conn == c else latest, over || e == Teardown(c), d, c)
  {}

  /**
   * After any interleaving of connects, frames and teardowns, `c` is the registered writer of `d`
   * exactly when it made the most recent registration of `d` and its handler has not finished
   * (for the empty id: whether or not it has), and the device counts as connected exactly when
   * it has a writer.
   */
  lemma {:induction false} WriterExactly(es: seq<Event>, d: string, c: Conn)
    ensures var t := Exec(es); d in t.writers && t.writers[d] == c <==> Latest(es, d, c) && (!Over(es, c) || d == "")
    ensures var t := Exec(es); d in t.connected && t.connected[d] <==> d in t.writers
    ensures Bound(Exec(es), Latest(es, d, c), Over(es, c), d, c)
    decreases |es|
  {
    if es != [] {
      var p, e := es[..|es| - 1], es[|es| - 1];
      assert es == p + [e];
      WriterExactly(p, d, c);
      Snoc(p, e);
      LatestMore(p, e, d, c);
      BoundStep(Exec(p), e, Latest(p, d, c), Over(p, c), d, c);
      hide Latest, Over, Exec, Step, Registers;
    }
  }

  /** The end of a stale connection never unregisters a newer one. */
  lemma StaleTeardown(es: seq<Event>, old_: Conn, new_: Conn, d: string)
    requires old_ != new_ && Latest(es, d, new_)
    ensures Latest(es + [Teardown(old_)], d, new_)
    ensures !Over(es, new_) ==> d in Exec(es + [Teardown(old_)]).writers && Exec(es + [Teardown(old_)]).writers[d] == new_
  {
    LatestMore(es, Teardown(old_), d, new_);
    Snoc(es, Teardown(old_));
    WriterExactly(es + [Teardown(old_)], d, new_);
    hide Latest, Over, Exec;
  }

  /** A device that announces the empty id stays connected after its only connection ended. */
  lemma EmptyIdStays(c: Conn)
    ensures var es := [Frame(c, ""), Teardown(c)]; Over(es, c) && Exec(es).connected == map["" := true] && Exec(es).writers == map["" := c]
  {
    var es := [Frame(c, ""), Teardown(c)];
    assert es[..1] == [Frame(c, "")] && es[..1][..0] == [] && es[1] == Teardown(c);
    assert Exec(es[..1]) == Step(EMPTY, Frame(c, ""));
  }
}
