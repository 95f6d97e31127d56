/**
 * The C++ end's cursor objects (`ByteWriter` and `ByteReader`, firmware/src/protocol.cpp:161-250),
 * proved against the record format.  A float is written and read as its word.
 */
module ByteIO {
  import Crc
  import opened Wire

  class ByteWriter {
    var buf: seq<Crc.byte>

    constructor ()
      ensures buf == []
    {
      buf := [];
    }

    /** `u8` to `u64`: low byte first. */
    method PutNumber(v: nat, n: nat)
      modifies this
      ensures buf == old(buf) + Le(v, n)
    {
      hide ToByte;
      var x := v;
      ghost var done: seq<Crc.byte> := [];
      for i := 0 to n
        invariant buf == old(buf) + done && Le(v, n) == done + Le(x, n - i)
      {
        var b := ToByte(x);
        assert Le(x, n - i) == [b] + Le(x / 256, n - i - 1);
        buf := buf + [b];
        done := done + [b];
        x := x / 256;
      }
    }

    /** `fixedStr` */
    method PutText(s: seq<Crc.byte>, n: nat)
      requires n >= 1
      modifies this
      ensures buf == old(buf) + Fixed(Cpp, s, n)
    {
      for i := 0 to n
        invariant buf == old(buf) + Fixed(Cpp, s, n)[..i]
      {
        var b := if i < |s| then s[i] else 0;
        assert Fixed(Cpp, s, n)[i] == b;
        assert Fixed(Cpp, s, n)[..i + 1] == Fixed(Cpp, s, n)[..i] + [b];
        buf := buf + [b];
      }
      assert Fixed(Cpp, s, n)[..n] == Fixed(Cpp, s, n);
    }

    method PutField(f: Field)
      requires f.Text? ==> f.n >= 1
      modifies this
      ensures buf == old(buf) + Bytes(Cpp, f)
    {
      match f {
        case Num(n, v) => PutNumber(v, n);
        case Text(n, s) => PutText(s, n);
        case Gap(n) =>
          for i := 0 to n
            invariant buf == old(buf) + Zeros(i)
          {
            assert Zeros(i + 1) == Zeros(i) + [0];
            buf := buf + [0];
          }
      }
    }

    /** The calls of an encoder, one after the other. */
    method PutRecord(r: Record)
      requires Proper(r)
      modifies this
      ensures buf == old(buf) + Write(Cpp, r)
    {
      hide Bytes;
      for i := 0 to |r|
        invariant buf + Write(Cpp, r[i..]) == old(buf) + Write(Cpp, r)
      {
        assert r[i..][0] == r[i] && r[i..][1..] == r[i + 1..];
        ghost var before := buf;
        PutField(r[i]);
        assert buf + Write(Cpp, r[i + 1..]) == before + (Bytes(Cpp, r[i]) + Write(Cpp, r[i + 1..]));
      }
    }
  }

  /** A cursor over `p` whose failure is sticky. */
  class ByteReader {
    const p: seq<Crc.byte>
    var pos: nat
    var ok: bool

    ghost predicate Valid()
      reads this
    {
      pos <= |p|
    }

    /** What has not been read yet. */
    ghost function Rest(): seq<Crc.byte>
      requires Valid()
      reads this
    {
      p[pos..]
    }

    constructor (p: seq<Crc.byte>)
      ensures this.p == p && pos == 0 && ok && Valid()
    {
      this.p, pos, ok := p, 0, true;
    }

    method Need(n: nat) returns (enough: bool)
      requires Valid()
      modifies this
      ensures pos == old(pos) && Valid()
      ensures enough == ok == (old(ok) && n <= |Rest()|)
    {
      if !ok || pos + n > |p| {
        ok := false;
      }
      enough := ok;
    }

    method GetNumber(n: nat) returns (v: nat)
      requires Valid()
      modifies this
      ensures Valid() && ok == (old(ok) && n <= old(|Rest()|))
      ensures if ok then v == Value(old(Rest())[..n]) && Rest() == old(Rest())[n..] else v == 0 && pos == old(pos)
    {
      v := 0;
      var enough := Need(n);
      if !enough {
        return;
      }
      ghost var field := p[pos..pos + n];
      assert field[n..] == [];
      var i := n;
      while i > 0
        invariant 0 <= i <= n && pos == old(pos) && ok
        invariant v == Value(field[i..])
      {
        i := i - 1;
        assert field[i..][0] == p[pos + i] && field[i..][1..] == field[i + 1..];
        v := v * 256 + p[pos + i] as int;
      }
      assert field[0..] == field == Rest()[..n];
      pos := pos + n;
    }

    method GetText(n: nat) returns (s: seq<Crc.byte>)
      requires Valid()
      modifies this
      ensures Valid() && ok == (old(ok) && n <= old(|Rest()|))
      ensures if ok then s == CStr(old(Rest())[..n]) && Rest() == old(Rest())[n..] else s == [] && pos == old(pos)
    {
      hide CStr;
      s := [];
      var enough := Need(n);
      if !enough {
        return;
      }
      ghost var field := p[pos..pos + n];
      assert field == Rest()[..n] && field[0..] == field;
      var i := 0;
      while i < n && p[pos + i] != 0
        invariant 0 <= i <= n && pos == old(pos) && ok
        invariant s + CStr(field[i..]) == CStr(field)
      {
        CStrStep(field, i);
        s := s + [p[pos + i]];
        i := i + 1;
      }
      CStrStep(field, i);
      pos := pos + n;
    }

    method Skip(n: nat)
      requires Valid()
      modifies this
      ensures Valid() && ok == (old(ok) && n <= old(|Rest()|))
      ensures if ok then Rest() == old(Rest())[n..] else pos == old(pos)
    {
      var enough := Need(n);
      if enough {
        pos := pos + n;
      }
    }

    method GetField(shape: Field) returns (f: Field)
      requires Valid()
      modifies this
      ensures Valid() && ok == (old(ok) && shape.n <= old(|Rest()|))
      ensures ok ==> f == Filled(shape, old(Rest())[..shape.n]) && Rest() == old(Rest())[shape.n..]
    {
      match shape {
        case Num(n, _) =>
          var v := GetNumber(n);
          f := Num(n, v);
        case Text(n, _) =>
          var s := GetText(n);
          f := Text(n, s);
        case Gap(n) =>
          Skip(n);
          f := Gap(n);
      }
    }

    /**
     * The calls of a decoder, one after the other: they all succeed exactly when the input is
     * long enough, and then they return the record that the bytes spell.
     */
    method GetRecord(shape: Record) returns (r: Record)
      requires Valid()
      modifies this
      ensures Valid() && ok == (old(ok) && Size(shape) <= old(|Rest()|))
      ensures ok ==> r == Read(shape, old(Rest())[..Size(shape)]) && Rest() == old(Rest())[Size(shape)..]
      decreases |shape|
    {
      hide Filled;
      if shape == [] {
        r := [];
      } else {
        ghost var b := Rest();
        var f := GetField(shape[0]);
        var more := GetRecord(shape[1..]);
        r := [f] + more;
        if ok {
          ReadStep(shape, b);
        }
      }
    }
  }

  lemma CStrStep(b: seq<Crc.byte>, i: nat)
    requires i <= |b|
    ensures CStr(b[i..]) == if i < |b| && b[i] != 0 then [b[i]] + CStr(b[i + 1..]) else []
  {
    if i < |b| {
      assert b[i..][0] == b[i] && b[i..][1..] == b[i + 1..];
    }
  }

  lemma ReadStep(shape: Record, b: seq<Crc.byte>)
    requires shape != [] && Size(shape) <= |b|
    ensures var n := shape[0].n;
            && n + Size(shape[1..]) == Size(shape)
            && Read(shape, b[..Size(shape)]) == [Filled(shape[0], b[..n])] + Read(shape[1..], b[n..][..Size(shape[1..])])
  {
    hide Filled, Read;
    var n := shape[0].n;
    var c := b[..Size(shape)];
    ReadCons(shape, c);
    assert c[..n] == b[..n] && c[n..] == b[n..][..Size(shape[1..])];
  }

  /** What a writer put, a reader gets back, exactly when every value was in range of its field. */
  method WriteThenRead(r: Record) returns (q: Record)
    requires Proper(r)
    ensures q == r <==> Exact(Cpp, r)
  {
    var w := new ByteWriter();
    w.PutRecord(r);
    assert w.buf == Write(Cpp, r);
    var rd := new ByteReader(w.buf);
    assert rd.Rest() == w.buf && w.buf[..Size(r)] == w.buf;
    RecordRoundTrip(Cpp, r, r);
    q := rd.GetRecord(r);
  }
}
