/**
 * Fault flag words, as numbers, and what a maximum keeps of several of them
 * (`MAX(fault_flags)` under the name `fault_flags_any`, backend/app/db.py:254-260).
 */
module FlagWords {

  /** Bitwise or. */
  function Or(a: nat, b: nat): nat {
    if a == 0 then b else if b == 0 then a
    else 2 * Or(a / 2, b / 2) + if a % 2 == 1 || b % 2 == 1 then 1 else 0
  }

  /** Every flag of `a` is set in `b`. */
  predicate Within(a: nat, b: nat) {
    a == 0 || (a % 2 <= b % 2 && Within(a / 2, b / 2))
  }

  lemma {:induction false} WithinItself(a: nat)
    ensures Within(a, a)
  {
    if a > 0 {
      WithinItself(a / 2);
    }
  }

  lemma {:induction false} WithinAtMost(a: nat, b: nat)
    requires Within(a, b)
    ensures a <= b
  {
    if a > 0 {
      WithinAtMost(a / 2, b / 2);
    }
  }

  /** The union holds exactly what both hold. */
  lemma {:induction false} OrBoth(a: nat, b: nat, c: nat)
    ensures Within(Or(a, b), c) <==> Within(a, c) && Within(b, c)
    decreases a
  {
    if a > 0 && b > 0 {
      OrBoth(a / 2, b / 2, c / 2);
      var h := Or(a / 2, b / 2);
      Halved(h, if a % 2 == 1 || b % 2 == 1 then 1 else 0);
      hide Or;
      if Or(a, b) == 0 {
        assert h == 0;
      }
    }
  }

  lemma Halved(h: nat, bit: nat)
    requires bit <= 1
    ensures (2 * h + bit) / 2 == h && (2 * h + bit) % 2 == bit
  {}

  function Any(ws: seq<nat>): nat {
    if ws == [] then 0 else Or(ws[0], Any(ws[1..]))
  }

  /** The flags of all words together are the least word that holds them all. */
  lemma {:induction false} AnyIsLeast(ws: seq<nat>, c: nat)
    ensures Within(Any(ws), c) <==> forall w :: w in ws ==> Within(w, c)
    decreases |ws|
  {
    if ws != [] {
      hide Or, Within;
      assert ws == [ws[0]] + ws[1..];
      AnyIsLeast(ws[1..], c);
      OrBoth(ws[0], Any(ws[1..]), c);
    }
  }

  /**
   * A maximum is the union if and only if one word has the flags of all of them; otherwise the
   * maximum misses some.
   */
  lemma MaxIsAnyIff(ws: seq<nat>, max: nat)
    requires max in ws && forall w :: w in ws ==> w <= max
    ensures max == Any(ws) <==> exists v :: v in ws && forall w :: w in ws ==> Within(w, v)
  {
    hide Within, Any;
    var all := Any(ws);
    WithinItself(all);
    AnyIsLeast(ws, all);
    if v :| v in ws && forall w :: w in ws ==> Within(w, v) {
      AnyIsLeast(ws, v);
      WithinAtMost(all, v);
      WithinAtMost(v, all);
      WithinAtMost(max, v);
    }
  }
}
