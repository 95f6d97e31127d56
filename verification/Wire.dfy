/**
 * The wire format of both ends: firmware/src/protocol.cpp (C++) and
 * backend/app/protocol.py (Python).  Every message is a `Record`: the sequence of
 * writer calls of the C++ encoder.  That the Python `struct` formats lay the bytes out alike is
 * proved in module PyStruct; the ends differ only in how they fit a text into a fixed field.
 *
 * Floats on the wire are opaque words, so a field is a number of `n` bytes; numbers are
 * unbounded here and `Write` keeps the low `n` bytes, as the casts and masks of both ends do.
 */
module Wire {
  import opened Crc
  import Bits

  const MAGIC := 0x4554
  const VERSION := 1
  const HEADER_LEN := 36
  const CRC_LEN := 4
  const MAX_PAYLOAD := 1024
  const ID_LEN := 12

  datatype Result<+T, +E> = Ok(value: T) | Err(error: E)

  // ------------------------------------------------------------ numbers

  function Pow256(n: nat): (r: nat)
    ensures r >= 1
  {
    if n == 0 then 1 else 256 * Pow256(n - 1)
  }

  function ToByte(v: nat): byte { Bits.Byte(v % 256) }

  function Le(v: nat, n: nat): (b: seq<byte>)
    ensures |b| == n
  {
    if n == 0 then [] else [ToByte(v)] + Le(v / 256, n - 1)
  }

  function Value(b: seq<byte>): nat {
    if b == [] then 0 else (b[0] as int) + 256 * Value(b[1..])
  }

  lemma ByteRoundTrip(v: nat)
    ensures ToByte(v) as int == v % 256
  {
    var x := v % 256;
    Bits.ByteValue(x);
  }

  /** Reading a little-endian field gives the number back, reduced to the field's width. */
  lemma {:induction false} LeRoundTrip(v: nat, n: nat)
    ensures Value(Le(v, n)) == v % Pow256(n)
    decreases n
  {
    if n != 0 {
      var b := Le(v, n);
      assert b[0] == ToByte(v) && b[1..] == Le(v / 256, n - 1);
      ByteRoundTrip(v);
      LeRoundTrip(v / 256, n - 1);
      ModSplit(v, Pow256(n - 1));
    }
  }

  lemma ModSplit(v: nat, p: nat)
    requires p >= 1
    ensures v % 256 + 256 * ((v / 256) % p) == v % (256 * p)
  {
    var q, r := v / 256, v % 256;
    var k := q / p;
    assert q == p * k + q % p;
    assert v == 256 * (p * k + q % p) + r == (256 * p) * k + (256 * (q % p) + r);
    assert 0 <= 256 * (q % p) + r < 256 * p;
    ModUnique(v, 256 * p, k, 256 * (q % p) + r);
  }

  lemma ModUnique(v: nat, m: nat, k: nat, r: nat)
    requires v == m * k + r && r < m
    ensures v % m == r
  {
    var k' := v / m;
    MulApart(m, k', k);
    MulApart(m, k, k');
  }

  lemma MulApart(m: nat, a: nat, b: nat)
    ensures a < b ==> m * a + m <= m * b
  {
    if a < b {
      assert m * b == m * (a + 1) + m * (b - a - 1);
    }
  }

  // ------------------------------------------------------------ fixed text fields

  datatype Side = Cpp | Py

  function Zeros(n: nat): (z: seq<byte>)
    ensures |z| == n
  {
    seq(n, _ => 0)
  }

  /**
   * Fits a text into a NUL-padded field.  The C++ end truncates to `n` bytes; the Python
   * end (`_pad`) cuts a text of `n` bytes or more to `n - 1`, so that a NUL always follows.
   */
  function Fixed(side: Side, s: seq<byte>, n: nat): (b: seq<byte>)
    requires n >= 1
    ensures |b| == n
  {
    var keep := if |s| < n then s else if side == Cpp then s[..n] else s[..n - 1];
    keep + Zeros(n - |keep|)
  }

  /** The bytes before the first NUL. */
  function CStr(b: seq<byte>): seq<byte> {
    if b == [] || b[0] == 0 then [] else [b[0]] + CStr(b[1..])
  }

  lemma {:induction false} CStrPadded(s: seq<byte>, k: nat)
    requires 0 !in s
    ensures CStr(s + Zeros(k)) == s
    decreases |s|
  {
    if s == [] {
      assert s + Zeros(k) == Zeros(k);
    } else {
      assert (s + Zeros(k))[1..] == s[1..] + Zeros(k);
      CStrPadded(s[1..], k);
    }
  }

  lemma {:induction false} CStrHasNoNul(b: seq<byte>)
    ensures 0 !in CStr(b) && |CStr(b)| <= |b|
    ensures 0 in b ==> |CStr(b)| < |b|
    decreases |b|
  {
    if b != [] && b[0] != 0 {
      CStrHasNoNul(b[1..]);
    }
  }

  predicate TextFits(side: Side, s: seq<byte>, n: nat) {
    0 !in s && |s| <= (if side == Cpp then n else n - 1)
  }

  /** A text survives its field exactly when it is NUL-free and short enough for that end. */
  lemma TextRoundTrip(side: Side, s: seq<byte>, n: nat)
    requires n >= 1
    ensures CStr(Fixed(side, s, n)) == s <==> TextFits(side, s, n)
  {
    var b := Fixed(side, s, n);
    CStrHasNoNul(b);
    if TextFits(side, s, n) {
      assert s[..|s|] == s;
      CStrPadded(s, n - |s|);
    } else if 0 !in s && side == Py {
      assert b[n - 1] == 0;
    }
  }

  /** The two ends lay a NUL-free text out alike exactly when it is shorter than the field. */
  lemma TextAgree(s: seq<byte>, n: nat)
    requires n >= 1 && 0 !in s
    ensures Fixed(Cpp, s, n) == Fixed(Py, s, n) <==> |s| < n
  {
    if |s| >= n {
      assert Fixed(Cpp, s, n)[n - 1] == s[n - 1] != 0;
      assert Fixed(Py, s, n)[n - 1] == 0;
    }
  }

  // ------------------------------------------------------------ records

  datatype Field =
    | Num(n: nat, v: nat)
    | Text(n: nat, s: seq<byte>)
    | Gap(n: nat)

  type Record = seq<Field>

  predicate Proper(r: Record) {
    forall i :: 0 <= i < |r| ==> r[i].Text? ==> r[i].n >= 1
  }

  function Size(r: Record): nat {
    if r == [] then 0 else r[0].n + Size(r[1..])
  }

  function Bytes(side: Side, f: Field): (b: seq<byte>)
    requires f.Text? ==> f.n >= 1
    ensures |b| == f.n
  {
    match f
    case Num(n, v) => Le(v, n)
    case Text(n, s) => Fixed(side, s, n)
    case Gap(n) => Zeros(n)
  }

  function Write(side: Side, r: Record): (b: seq<byte>)
    requires Proper(r)
    ensures |b| == Size(r)
  {
    if r == [] then [] else Bytes(side, r[0]) + Write(side, r[1..])
  }

  /** The field like `f` that the bytes `b` hold; both ends read alike. */
  function Filled(f: Field, b: seq<byte>): (g: Field)
    ensures SameField(f, g)
  {
    match f
    case Num(n, _) => Num(n, Value(b))
    case Text(n, _) => Text(n, CStr(b))
    case Gap(n) => Gap(n)
  }

  /** Fills the shape of `r` with the values found in `b`. */
  function Read(r: Record, b: seq<byte>): (q: Record)
    requires |b| == Size(r)
    ensures SameShape(r, q)
  {
    if r == [] then [] else [Filled(r[0], b[..r[0].n])] + Read(r[1..], b[r[0].n..])
  }

  predicate SameField(f: Field, g: Field) {
    f.n == g.n && f.Num? == g.Num? && f.Text? == g.Text?
  }

  predicate SameShape(r: Record, q: Record) {
    |r| == |q| && forall i :: 0 <= i < |r| ==> SameField(r[i], q[i])
  }

  predicate ExactField(side: Side, f: Field) {
    match f
    case Num(n, v) => v < Pow256(n)
    case Text(n, s) => TextFits(side, s, n)
    case Gap(_) => true
  }

  /** Every number is in range of its field and every text fits its field. */
  predicate Exact(side: Side, r: Record) {
    forall i :: 0 <= i < |r| ==> ExactField(side, r[i])
  }

  lemma FieldRoundTrip(side: Side, shape: Field, f: Field)
    requires SameField(shape, f) && (f.Text? ==> f.n >= 1)
    ensures Filled(shape, Bytes(side, f)) == f <==> ExactField(side, f)
  {
    match f
    case Num(n, v) =>
      LeRoundTrip(v, n);
      ModSmall(v, Pow256(n));
    case Text(n, s) =>
      TextRoundTrip(side, s, n);
    case Gap(_) =>
  }

  /**
   * Reading back what was written gives the same record exactly when every value was in
   * range: the shape alone never loses or reorders a field.
   */
  lemma {:induction false} RecordRoundTrip(side: Side, shape: Record, r: Record)
    requires Proper(r) && SameShape(shape, r)
    ensures Size(shape) == Size(r)
    ensures Read(shape, Write(side, r)) == r <==> Exact(side, r)
    decreases |r|
  {
    hide Bytes, Filled, ExactField, Exact, Write, Read;
    if r == [] {
      EmptyRecord(side);
    } else {
      var n := r[0].n;
      RecordRoundTrip(side, shape[1..], r[1..]);
      FieldRoundTrip(side, shape[0], r[0]);
      WriteCons(side, r);
      ReadCons(shape, Write(side, r));
      assert r == [r[0]] + r[1..];
      ExactCons(side, r);
    }
  }

  lemma EmptyRecord(side: Side)
    ensures Write(side, []) == [] && Read([], []) == [] && Exact(side, [])
  {}

  lemma WriteCons(side: Side, r: Record)
    requires Proper(r) && r != []
    ensures var b := Write(side, r); b[..r[0].n] == Bytes(side, r[0]) && b[r[0].n..] == Write(side, r[1..])
  {
    hide Bytes;
  }

  lemma ReadCons(r: Record, b: seq<byte>)
    requires |b| == Size(r) && r != []
    ensures Read(r, b) == [Filled(r[0], b[..r[0].n])] + Read(r[1..], b[r[0].n..])
    ensures Read(r, b)[1..] == Read(r[1..], b[r[0].n..])
  {
    hide Filled;
  }

  lemma ExactCons(side: Side, r: Record)
    requires r != []
    ensures Exact(side, r) <==> ExactField(side, r[0]) && Exact(side, r[1..])
  {
    if ExactField(side, r[0]) && Exact(side, r[1..]) {
      forall i | 0 <= i < |r| ensures ExactField(side, r[i]) {
        if i > 0 { assert r[i] == r[1..][i - 1]; }
      }
    }
  }

  lemma ModSmall(v: nat, m: nat)
    requires m >= 1
    ensures v % m == v <==> v < m
  {
    if v < m {
      ModUnique(v, m, 0, v);
    }
  }

  /** Where field `i` starts. */
  function Offset(r: Record, i: nat): nat
    requires i <= |r|
  {
    if i == 0 then 0 else Offset(r, i - 1) + r[i - 1].n
  }

  lemma OffsetZero(r: Record)
    ensures Offset(r, 0) == 0
  {}

  lemma {:induction false} OffsetCons(r: Record, i: nat)
    requires 1 <= i <= |r|
    ensures Offset(r, i) == r[0].n + Offset(r[1..], i - 1)
    decreases i
  {
    if i > 1 {
      OffsetCons(r, i - 1);
    }
  }

  lemma {:induction false} SizeIsOffset(r: Record)
    ensures Size(r) == Offset(r, |r|)
    decreases |r|
  {
    if r != [] {
      SizeIsOffset(r[1..]);
      OffsetCons(r, |r|);
    }
  }

  /** Field `i` is read from the bytes at its offset, whatever the other fields hold. */
  lemma {:induction false} ReadAt(r: Record, b: seq<byte>, i: nat)
    requires |b| == Size(r) && i < |r|
    ensures Offset(r, i) + r[i].n <= |b|
    ensures Read(r, b)[i] == Filled(r[i], b[Offset(r, i)..Offset(r, i) + r[i].n])
    decreases i
  {
    hide Filled, Read, Offset;
    var n := r[0].n;
    ReadCons(r, b);
    OffsetZero(r);
    if i > 0 {
      OffsetCons(r, i);
      ReadAt(r[1..], b[n..], i - 1);
      var o := Offset(r[1..], i - 1);
      assert b[n..][o..o + r[i].n] == b[n + o..n + o + r[i].n];
    }
  }

  /** Every text is NUL-free and leaves room for a NUL. */
  predicate Plain(r: Record) {
    forall i :: 0 <= i < |r| ==> r[i].Text? ==> 0 !in r[i].s && |r[i].s| < r[i].n
  }

  /** The two encoders give the same bytes for plain texts, whatever the numbers. */
  lemma {:induction false} RecordAgree(r: Record)
    requires Proper(r) && Plain(r)
    ensures Write(Cpp, r) == Write(Py, r)
    decreases |r|
  {
    if r != [] {
      if r[0].Text? {
        TextAgree(r[0].s, r[0].n);
      }
      RecordAgree(r[1..]);
    }
  }

  // ------------------------------------------------------------ payloads

  /** The eleven message payloads; floats are their 32- or 64-bit words. */
  datatype Payload =
    | Telemetry(rpm: nat, tempC: nat, currentA: nat, voltageV: nat, vibrationG: nat, speedKph: nat,
                lat: nat, lon: nat, faultFlags: nat, state: nat)
    | Hello(fwString: seq<byte>, hwModel: seq<byte>, configVersion: nat, telemetryHz: nat)
    | Heartbeat(uptimeS: nat, framesSent: nat, configVersion: nat, reconnects: nat)
    | Log(level: nat, message: seq<byte>)
    | ConfigSet(configVersion: nat, telemetryHz: nat, logLevel: nat, rpmLimit: nat, tempLimitC: nat, currentLimitA: nat)
    | ConfigAck(configVersion: nat, status: nat)
    | FwUpdate(target: seq<byte>, imageSize: nat, imageCrc: nat)
    | FwAck(status: nat, version: seq<byte>)
    | FaultInject(setFlags: nat, clearFlags: nat, durationMs: nat)
    | FaultAck(activeFlags: nat)
    | Cmd(cmd: nat)

  function TypeOf(p: Payload): nat {
    match p
    case Telemetry(_, _, _, _, _, _, _, _, _, _) => 0x01
    case Hello(_, _, _, _) => 0x02
    case Heartbeat(_, _, _, _) => 0x03
    case Log(_, _) => 0x04
    case ConfigSet(_, _, _, _, _, _) => 0x10
    case ConfigAck(_, _) => 0x11
    case FwUpdate(_, _, _) => 0x12
    case FwAck(_, _) => 0x13
    case FaultInject(_, _, _) => 0x14
    case FaultAck(_) => 0x15
    case Cmd(_) => 0x20
  }

  /** The writer calls for a payload, in order; for LOG only its fixed head. */
  function Fields(p: Payload): (r: Record)
    ensures Proper(r)
  {
    match p
    case Telemetry(rpm, temp, cur, volt, vib, speed, lat, lon, flags, state) =>
      [Num(4, rpm), Num(4, temp), Num(4, cur), Num(4, volt), Num(4, vib), Num(4, speed),
       Num(8, lat), Num(8, lon), Num(4, flags), Num(1, state), Gap(3)]
    case Hello(fw, hw, cv, hz) => [Text(16, fw), Text(16, hw), Num(4, cv), Num(2, hz), Gap(2)]
    case Heartbeat(up, sent, cv, rec) => [Num(4, up), Num(4, sent), Num(4, cv), Num(4, rec)]
    case Log(level, _) => [Num(1, level), Gap(3)]
    case ConfigSet(cv, hz, ll, rpm, temp, cur) =>
      [Num(4, cv), Num(2, hz), Num(1, ll), Gap(1), Num(4, rpm), Num(4, temp), Num(4, cur)]
    case ConfigAck(cv, st) => [Num(4, cv), Num(1, st), Gap(3)]
    case FwUpdate(target, size, crc) => [Text(16, target), Num(4, size), Num(4, crc)]
    case FwAck(st, version) => [Num(1, st), Gap(3), Text(16, version)]
    case FaultInject(on, off, dur) => [Num(4, on), Num(4, off), Num(4, dur)]
    case FaultAck(flags) => [Num(4, flags)]
    case Cmd(cmd) => [Num(1, cmd), Gap(3)]
  }

  /** LOG truncates its message so that the payload fits a frame. */
  function Tail(p: Payload): seq<byte> {
    if p.Log? then (if |p.message| > MAX_PAYLOAD - 4 then p.message[..MAX_PAYLOAD - 4] else p.message) else []
  }

  function Encode(side: Side, p: Payload): seq<byte> {
    Write(side, Fields(p)) + Tail(p)
  }

  /** Rebuilds a payload like `p` from a record of the same shape. */
  function FromFields(p: Payload, r: Record, tail: seq<byte>): (q: Payload)
    requires SameShape(Fields(p), r)
    ensures TypeOf(q) == TypeOf(p)
  {
    match p
    case Telemetry(_, _, _, _, _, _, _, _, _, _) =>
      Telemetry(r[0].v, r[1].v, r[2].v, r[3].v, r[4].v, r[5].v, r[6].v, r[7].v, r[8].v, r[9].v)
    case Hello(_, _, _, _) => Hello(r[0].s, r[1].s, r[2].v, r[3].v)
    case Heartbeat(_, _, _, _) => Heartbeat(r[0].v, r[1].v, r[2].v, r[3].v)
    case Log(_, _) => Log(r[0].v, tail)
    case ConfigSet(_, _, _, _, _, _) => ConfigSet(r[0].v, r[1].v, r[2].v, r[4].v, r[5].v, r[6].v)
    case ConfigAck(_, _) => ConfigAck(r[0].v, r[1].v)
    case FwUpdate(_, _, _) => FwUpdate(r[0].s, r[1].v, r[2].v)
    case FwAck(_, _) => FwAck(r[0].v, r[2].s)
    case FaultInject(_, _, _) => FaultInject(r[0].v, r[1].v, r[2].v)
    case FaultAck(_) => FaultAck(r[0].v)
    case Cmd(_) => Cmd(r[0].v)
  }

  /** An arbitrary payload of each known message type; only its shape matters. */
  function Template(msgType: nat): (p: Payload)
    requires Known(msgType)
    ensures TypeOf(p) == msgType
  {
    if msgType == 0x01 then Telemetry(0, 0, 0, 0, 0, 0, 0, 0, 0, 0)
    else if msgType == 0x02 then Hello([], [], 0, 0)
    else if msgType == 0x03 then Heartbeat(0, 0, 0, 0)
    else if msgType == 0x04 then Log(0, [])
    else if msgType == 0x10 then ConfigSet(0, 0, 0, 0, 0, 0)
    else if msgType == 0x11 then ConfigAck(0, 0)
    else if msgType == 0x12 then FwUpdate([], 0, 0)
    else if msgType == 0x13 then FwAck(0, [])
    else if msgType == 0x14 then FaultInject(0, 0, 0)
    else if msgType == 0x15 then FaultAck(0)
    else Cmd(0)
  }

  predicate Known(msgType: nat) {
    msgType in {0x01, 0x02, 0x03, 0x04, 0x10, 0x11, 0x12, 0x13, 0x14, 0x15, 0x20}
  }

  /** The wire size of a payload: fixed, except that LOG only has a minimum. */
  predicate GoodLength(msgType: nat, n: nat)
    requires Known(msgType)
  {
    var size := Size(Fields(Template(msgType)));
    if msgType == 0x04 then n >= size else n == size
  }

  /** The size of every payload on the wire. */
  function WireSize(msgType: nat): nat {
    if msgType == 0x01 then 48 else if msgType == 0x02 then 40 else if msgType == 0x03 then 16
    else if msgType == 0x10 then 20 else if msgType == 0x11 then 8 else if msgType == 0x12 then 24
    else if msgType == 0x13 then 20 else if msgType == 0x14 then 12 else 4
  }

  lemma {:induction false} SizeSplit(a: Record, b: Record)
    ensures Size(a + b) == Size(a) + Size(b)
    decreases |a|
  {
    if a == [] {
      assert a + b == b;
    } else {
      SizeSplit(a[1..], b);
      assert (a + b)[1..] == a[1..] + b;
    }
  }

  function Part(r: Record, i: nat): nat { if i < |r| then r[i].n else 0 }

  lemma ShortSize(r: Record)
    requires |r| <= 4
    ensures Size(r) == Part(r, 0) + Part(r, 1) + Part(r, 2) + Part(r, 3)
  {}

  lemma LongSize(r: Record)
    requires 4 < |r| <= 12
    ensures Size(r) == Part(r, 0) + Part(r, 1) + Part(r, 2) + Part(r, 3) + Part(r, 4) + Part(r, 5)
                     + Part(r, 6) + Part(r, 7) + Part(r, 8) + Part(r, 9) + Part(r, 10) + Part(r, 11)
  {
    var a, b := r[..4], r[4..];
    var c, d := if |b| > 4 then b[..4] else b, if |b| > 4 then b[4..] else [];
    hide Size;
    assert r == a + b && b == c + d;
    SizeSplit(a, b);
    SizeSplit(c, d);
    ShortSize(a);
    ShortSize(c);
    ShortSize(d);
  }

  /** The layouts have the sizes that both ends declare. */
  lemma PayloadSizes(p: Payload)
    ensures Size(Fields(p)) == WireSize(TypeOf(p))
  {
    hide Size;
    var f := Fields(p);
    if |f| <= 4 {
      ShortSize(f);
    } else {
      LongSize(f);
    }
    match p
    case Telemetry(_, _, _, _, _, _, _, _, _, _) =>
    case _ =>
  }

  /** Decodes a payload of a known type; a wrong length is the only error. */
  function Decode(msgType: nat, b: seq<byte>): (r: Result<Payload, nat>)
    requires Known(msgType)
    ensures r.Ok? <==> GoodLength(msgType, |b|)
    ensures r.Ok? ==> TypeOf(r.value) == msgType
  {
    var t := Template(msgType);
    var size := Size(Fields(t));
    if !GoodLength(msgType, |b|) then Err(|b|)
    else Ok(FromFields(t, Read(Fields(t), b[..size]), b[size..]))
  }

  predicate PayloadExact(side: Side, p: Payload) {
    Exact(side, Fields(p)) && (p.Log? ==> |p.message| <= MAX_PAYLOAD - 4)
  }

  lemma FieldsAgain(p: Payload, r: Record, tail: seq<byte>)
    requires SameShape(Fields(p), r)
    ensures Fields(FromFields(p, r, tail)) == r
  {}

  lemma SameType(p: Payload, q: Payload)
    requires TypeOf(p) == TypeOf(q)
    ensures SameShape(Fields(p), Fields(q))
  {
    ShapeByType(p);
    ShapeByType(q);
    hide Fields, TypeOf;
  }

  lemma ShapeByType(p: Payload)
    ensures Known(TypeOf(p)) && SameShape(Fields(Template(TypeOf(p))), Fields(p))
  {}

  lemma Rebuild(p: Payload, q: Payload)
    requires TypeOf(p) == TypeOf(q)
    ensures SameShape(Fields(p), Fields(q)) && FromFields(p, Fields(q), if q.Log? then q.message else []) == q
  {
    SameType(p, q);
  }

  lemma LogTail(p: Payload, q: Payload, tail: seq<byte>)
    requires TypeOf(p) == TypeOf(q) && SameShape(Fields(p), Fields(q)) && q.Log?
    ensures FromFields(p, Fields(q), tail) == q <==> tail == q.message
  {}

  /**
   * Every payload of every type round-trips through each end's codec exactly when its
   * numbers are in range, its texts fit and its log message is at most 1020 bytes.
   */
  lemma PayloadRoundTrip(side: Side, p: Payload)
    ensures Known(TypeOf(p)) && Decode(TypeOf(p), Encode(side, p)).Ok?
    ensures Decode(TypeOf(p), Encode(side, p)) == Ok(p) <==> PayloadExact(side, p)
  {
    hide Fields, Template, FromFields, Read, Write, Size, Exact;
    ShapeByType(p);
    var t := Template(TypeOf(p));
    var b := Encode(side, p);
    RecordRoundTrip(side, Fields(t), Fields(p));
    var size := Size(Fields(t));
    assert b[..size] == Write(side, Fields(p)) && b[size..] == Tail(p);
    var r := Read(Fields(t), b[..size]);
    Rebuild(t, p);
    if p.Log? {
      LogTail(t, p, b[size..]);
    }
    if r != Fields(p) {
      FieldsAgain(t, r, b[size..]);
    }
  }

  /** Both encoders give identical bytes for NUL-free texts shorter than their field. */
  lemma PayloadAgree(p: Payload)
    requires Plain(Fields(p))
    ensures Encode(Cpp, p) == Encode(Py, p)
  {
    RecordAgree(Fields(p));
  }
}
