/**
 * The backend's codec as it is written, with `struct` formats and argument lists
 * (backend/app/protocol.py:18 and 122-395), against the writer and reader calls of the C++ end.
 * Floats are words; an `x` code takes a `Skip` in the argument list.
 */
module PyStruct {
  import Crc
  import opened Wire
  import opened Frames

  /** The codes B, H, I, Q (and f, d as words), `ns` and `nx`, little-endian without alignment. */
  datatype Code = Uint(n: nat) | Str(n: nat) | Pad(n: nat)

  datatype Arg = Int(v: nat) | Bin(b: seq<Crc.byte>) | Skip

  datatype StructError = StructError

  predicate Formed(f: seq<Code>) {
    forall i :: 0 <= i < |f| && f[i].Str? ==> f[i].n >= 1
  }

  function Calcsize(f: seq<Code>): nat {
    if f == [] then 0 else f[0].n + Calcsize(f[1..])
  }

  /** `struct.pack`: a number that does not fit its code is an error, not truncated. */
  function PackOne(c: Code, a: Arg): Result<seq<Crc.byte>, StructError>
    requires c.Str? ==> c.n >= 1
  {
    match c
    case Uint(n) => if a.Int? && a.v < Pow256(n) then Ok(Le(a.v, n)) else Err(StructError)
    case Str(n) => if a.Bin? then Ok(Fixed(Cpp, a.b, n)) else Err(StructError)
    case Pad(n) => Ok(Zeros(n))
  }

  function Pack(f: seq<Code>, a: seq<Arg>): Result<seq<Crc.byte>, StructError>
    requires |f| == |a| && Formed(f)
  {
    if f == [] then Ok([])
    else
      var (one, rest) := (PackOne(f[0], a[0]), Pack(f[1..], a[1..]));
      if one.Ok? && rest.Ok? then Ok(one.value + rest.value) else Err(StructError)
  }

  function UnpackOne(c: Code, b: seq<Crc.byte>): Arg {
    match c
    case Uint(_) => Int(Value(b))
    case Str(_) => Bin(b)
    case Pad(_) => Skip
  }

  /** `struct.unpack` of a buffer of the right size. */
  function Unpack(f: seq<Code>, b: seq<Crc.byte>): (a: seq<Arg>)
    requires |b| == Calcsize(f)
    ensures |a| == |f|
  {
    if f == [] then [] else [UnpackOne(f[0], b[..f[0].n])] + Unpack(f[1..], b[f[0].n..])
  }

  // ------------------------------------------------------------ the payload classes

  /** Each class's format. */
  function Format(p: Payload): (f: seq<Code>)
    ensures Formed(f)
  {
    match p
    case Telemetry(_, _, _, _, _, _, _, _, _, _) =>
      [Uint(4), Uint(4), Uint(4), Uint(4), Uint(4), Uint(4), Uint(8), Uint(8), Uint(4), Uint(1), Pad(3)]
    case Hello(_, _, _, _) => [Str(16), Str(16), Uint(4), Uint(2), Uint(2)]
    case Heartbeat(_, _, _, _) => [Uint(4), Uint(4), Uint(4), Uint(4)]
    case Log(_, _) => [Uint(1), Pad(3)]
    case ConfigSet(_, _, _, _, _, _) => [Uint(4), Uint(2), Uint(1), Uint(1), Uint(4), Uint(4), Uint(4)]
    case ConfigAck(_, _) => [Uint(4), Uint(1), Pad(3)]
    case FwUpdate(_, _, _) => [Str(16), Uint(4), Uint(4)]
    case FwAck(_, _) => [Uint(1), Pad(3), Str(16)]
    case FaultInject(_, _, _) => [Uint(4), Uint(4), Uint(4)]
    case FaultAck(_) => [Uint(4)]
    case Cmd(_) => [Uint(1), Pad(3)]
  }

  /** The arguments each `pack` passes; only TELEMETRY masks its flags and its state. */
  function Args(p: Payload): (a: seq<Arg>)
    ensures |a| == |Format(p)|
  {
    match p
    case Telemetry(rpm, temp, cur, volt, vib, speed, lat, lon, flags, state) =>
      [Int(rpm), Int(temp), Int(cur), Int(volt), Int(vib), Int(speed), Int(lat), Int(lon),
       Int(flags % Pow256(4)), Int(state % Pow256(1)), Skip]
    case Hello(fw, hw, cv, hz) => [Bin(Fixed(Py, fw, 16)), Bin(Fixed(Py, hw, 16)), Int(cv), Int(hz), Int(0)]
    case Heartbeat(up, sent, cv, rec) => [Int(up), Int(sent), Int(cv), Int(rec)]
    case Log(level, _) => [Int(level), Skip]
    case ConfigSet(cv, hz, ll, rpm, temp, cur) => [Int(cv), Int(hz), Int(ll), Int(0), Int(rpm), Int(temp), Int(cur)]
    case ConfigAck(cv, st) => [Int(cv), Int(st), Skip]
    case FwUpdate(target, size, crc) => [Bin(Fixed(Py, target, 16)), Int(size), Int(crc)]
    case FwAck(st, version) => [Int(st), Skip, Bin(Fixed(Py, version, 16))]
    case FaultInject(on, off, dur) => [Int(on), Int(off), Int(dur)]
    case FaultAck(flags) => [Int(flags)]
    case Cmd(cmd) => [Int(cmd), Skip]
  }

  function PyPack(p: Payload): Result<seq<Crc.byte>, StructError> {
    var r := Pack(Format(p), Args(p));
    if r.Ok? then Ok(r.value + Tail(p)) else r
  }

  function IntOf(a: Arg): nat { if a.Int? then a.v else 0 }

  /** `_cstr` of a bytes argument. */
  function TextOf(a: Arg): seq<Crc.byte> { if a.Bin? then CStr(a.b) else [] }

  /** The constructor calls of the `unpack` methods. */
  function Construct(p: Payload, a: seq<Arg>, tail: seq<Crc.byte>): Payload
    requires |a| == |Format(p)|
  {
    match p
    case Telemetry(_, _, _, _, _, _, _, _, _, _) =>
      Telemetry(IntOf(a[0]), IntOf(a[1]), IntOf(a[2]), IntOf(a[3]), IntOf(a[4]), IntOf(a[5]),
                IntOf(a[6]), IntOf(a[7]), IntOf(a[8]), IntOf(a[9]))
    case Hello(_, _, _, _) => Hello(TextOf(a[0]), TextOf(a[1]), IntOf(a[2]), IntOf(a[3]))
    case Heartbeat(_, _, _, _) => Heartbeat(IntOf(a[0]), IntOf(a[1]), IntOf(a[2]), IntOf(a[3]))
    case Log(_, _) => Log(IntOf(a[0]), tail)
    case ConfigSet(_, _, _, _, _, _) =>
      ConfigSet(IntOf(a[0]), IntOf(a[1]), IntOf(a[2]), IntOf(a[4]), IntOf(a[5]), IntOf(a[6]))
    case ConfigAck(_, _) => ConfigAck(IntOf(a[0]), IntOf(a[1]))
    case FwUpdate(_, _, _) => FwUpdate(TextOf(a[0]), IntOf(a[1]), IntOf(a[2]))
    case FwAck(_, _) => FwAck(IntOf(a[0]), TextOf(a[2]))
    case FaultInject(_, _, _) => FaultInject(IntOf(a[0]), IntOf(a[1]), IntOf(a[2]))
    case FaultAck(_) => FaultAck(IntOf(a[0]))
    case Cmd(_) => Cmd(IntOf(a[0]))
  }

  /** `unpack` of the class for `msgType`: a length test against a constant, then the format. */
  function PyUnpack(msgType: nat, b: seq<Crc.byte>): Result<Payload, nat>
    requires Known(msgType)
  {
    var p := Template(msgType);
    var size := Calcsize(Format(p));
    if (if msgType == 0x04 then |b| < 4 else |b| != WireSize(msgType)) || size > |b| then Err(|b|)
    else Ok(Construct(p, Unpack(Format(p), b[..size]), b[size..]))
  }

  // ------------------------------------------------------------ formats against records

  /** A code and its argument put out the bytes of a field. */
  predicate Spells(c: Code, a: Arg, f: Field) {
    match f
    case Num(n, v) => c == Uint(n) && (a == Int(v) || a == Int(v % Pow256(n)))
    case Text(n, s) => c == Str(n) && n >= 1 && a == Bin(Fixed(Py, s, n))
    case Gap(n) => (c == Pad(n) && a == Skip) || (c == Uint(n) && a == Int(0))
  }

  predicate InRange(c: Code, a: Arg) { a.Int? ==> a.v < Pow256(c.n) }

  lemma {:induction false} LeZero(n: nat)
    ensures Le(0, n) == Zeros(n)
    decreases n
  {
    if n > 0 {
      LeZero(n - 1);
      NoBits();
      assert Zeros(n) == [0] + Zeros(n - 1);
    }
  }

  lemma NoBits()
    ensures ToByte(0) == 0
  {}

  /** The low bytes do not depend on what is cut off above them. */
  lemma LeReduced(v: nat, n: nat)
    ensures Le(v % Pow256(n), n) == Le(v, n)
  {
    LeRoundTrip(v, n);
    LeRoundTrip(v % Pow256(n), n);
    ModSmall(v % Pow256(n), Pow256(n));
    ValueInjective(Le(v % Pow256(n), n), Le(v, n));
  }

  lemma {:induction false} ValueInjective(a: seq<Crc.byte>, b: seq<Crc.byte>)
    requires |a| == |b| && Value(a) == Value(b)
    ensures a == b
    decreases |a|
  {
    hide Value;
    if a != [] {
      HeadByte(a);
      HeadByte(b);
      SameByte(a[0], b[0]);
      ValueInjective(a[1..], b[1..]);
      assert a == [a[0]] + a[1..] && b == [b[0]] + b[1..];
    }
  }

  /** The first byte is the remainder, the others are the quotient. */
  lemma HeadByte(a: seq<Crc.byte>)
    requires a != []
    ensures Value(a) / 256 == Value(a[1..]) && Value(a) % 256 == a[0] as int
  {
    ByteRange(a[0]);
    Remainder(a[0] as int, Value(a[1..]));
  }

  lemma Remainder(x: nat, q: nat)
    requires x < 256
    ensures (x + 256 * q) % 256 == x && (x + 256 * q) / 256 == q
  {}

  lemma ByteRange(x: Crc.byte)
    ensures 0 <= x as int < 256
  {}

  lemma SameByte(x: Crc.byte, y: Crc.byte)
    requires x as int == y as int
    ensures x == y
  {
    ByteBack(x);
    ByteBack(y);
  }

  lemma ByteBack(x: Crc.byte)
    ensures ((x as int) as bv8) == x
  {}

  lemma PackOneIsBytes(c: Code, a: Arg, f: Field)
    requires Spells(c, a, f)
    ensures f.Text? ==> f.n >= 1
    ensures PackOne(c, a) == if InRange(c, a) then Ok(Bytes(Py, f)) else Err(StructError)
  {
    match f
    case Num(n, v) => LeReduced(v, n);
    case Text(n, s) =>
      var x := Fixed(Py, s, n);
      assert x[..n] == x && x + Zeros(0) == x;
    case Gap(n) => LeZero(n);
  }

  /** Packing arguments that spell a record writes the record, or fails if a number does not fit. */
  lemma {:induction false} PackIsWrite(f: seq<Code>, a: seq<Arg>, r: Record)
    requires |f| == |a| == |r| && Formed(f) && Proper(r)
    requires forall i :: 0 <= i < |f| ==> Spells(f[i], a[i], r[i])
    ensures Pack(f, a) == if forall i :: 0 <= i < |f| ==> InRange(f[i], a[i]) then Ok(Write(Py, r)) else Err(StructError)
    decreases |f|
  {
    hide Spells, InRange, PackOne, Bytes;
    if f != [] {
      PackOneIsBytes(f[0], a[0], r[0]);
      PackIsWrite(f[1..], a[1..], r[1..]);
      assert (forall i :: 0 <= i < |f| ==> InRange(f[i], a[i])) <==>
             InRange(f[0], a[0]) && forall i :: 0 <= i < |f[1..]| ==> InRange(f[1..][i], a[1..][i]) by {
        AllCons(f, a);
      }
    }
  }

  lemma AllCons(f: seq<Code>, a: seq<Arg>)
    requires |f| == |a| > 0
    ensures (forall i :: 0 <= i < |f| ==> InRange(f[i], a[i])) <==>
            InRange(f[0], a[0]) && forall i :: 0 <= i < |f[1..]| ==> InRange(f[1..][i], a[1..][i])
  {
    hide InRange;
    if InRange(f[0], a[0]) && forall i :: 0 <= i < |f[1..]| ==> InRange(f[1..][i], a[1..][i]) {
      forall i | 0 <= i < |f| ensures InRange(f[i], a[i]) {
        if i > 0 {
          assert f[1..][i - 1] == f[i] && a[1..][i - 1] == a[i];
        }
      }
    }
    if forall i :: 0 <= i < |f| ==> InRange(f[i], a[i]) {
      forall i | 0 <= i < |f[1..]| ensures InRange(f[1..][i], a[1..][i]) {
        assert f[1..][i] == f[i + 1] && a[1..][i] == a[i + 1];
      }
    }
  }

  /** Every class's format and arguments spell the writer calls of the C++ end. */
  lemma ArgsSpell(p: Payload)
    ensures |Format(p)| == |Fields(p)|
    ensures forall i :: 0 <= i < |Format(p)| ==> Spells(Format(p)[i], Args(p)[i], Fields(p)[i])
  {
    hide Pow256, Fixed;
    match p
    case Telemetry(_, _, _, _, _, _, _, _, _, _) =>
    case _ =>
  }

  /** The numbers that Python refuses to pack. */
  predicate Packable(p: Payload) {
    forall i :: 0 <= i < |Format(p)| ==> InRange(Format(p)[i], Args(p)[i])
  }

  /**
   * Every payload class packs to the bytes of the C++ layout (with the backend's own cut of
   * long texts), or fails exactly when an unmasked number does not fit its field.
   */
  lemma PyPackIsEncode(p: Payload)
    ensures PyPack(p) == if Packable(p) then Ok(Encode(Py, p)) else Err(StructError)
  {
    hide Fields, Format, Args, Pack, Write, Spells, InRange;
    ArgsSpell(p);
    PackIsWrite(Format(p), Args(p), Fields(p));
  }

  // ------------------------------------------------------------ reading

  predicate SameWidths(f: seq<Code>, r: Record) {
    |f| == |r| && forall i :: 0 <= i < |f| ==> f[i].n == r[i].n
  }

  /** An unpacked argument and a field read by the C++ end say the same. */
  predicate Says(c: Code, a: Arg, g: Field) {
    && (c.Uint? && g.Num? ==> a == Int(g.v))
    && (c.Str? && g.Text? ==> a.Bin? && CStr(a.b) == g.s)
  }

  lemma {:induction false} SizesMatch(f: seq<Code>, r: Record)
    requires SameWidths(f, r)
    ensures Calcsize(f) == Size(r)
    decreases |f|
  {
    if f != [] {
      SizesMatch(f[1..], r[1..]);
    }
  }

  lemma {:induction false} UnpackIsRead(f: seq<Code>, r: Record, b: seq<Crc.byte>, i: nat)
    requires SameWidths(f, r) && |b| == Size(r) == Calcsize(f) && i < |f|
    ensures Says(f[i], Unpack(f, b)[i], Read(r, b)[i])
    decreases i
  {
    hide Value, CStr;
    SizesMatch(f[1..], r[1..]);
    if i > 0 {
      UnpackIsRead(f[1..], r[1..], b[f[0].n..], i - 1);
    }
  }

  lemma WidthsMatch(p: Payload)
    ensures SameWidths(Format(p), Fields(p))
  {}

  lemma ConstructIsFromFields(p: Payload, a: seq<Arg>, r: Record, tail: seq<Crc.byte>)
    requires |a| == |Format(p)| && SameShape(Fields(p), r)
    requires forall i :: 0 <= i < |a| ==> Says(Format(p)[i], a[i], r[i])
    ensures Construct(p, a, tail) == FromFields(p, r, tail)
  {
    match p
    case Telemetry(_, _, _, _, _, _, _, _, _, _) =>
    case _ =>
  }

  /** Both ends decode every payload alike: the same bytes are refused, the same value comes out. */
  lemma PyUnpackIsDecode(msgType: nat, b: seq<Crc.byte>)
    requires Known(msgType)
    ensures PyUnpack(msgType, b) == Decode(msgType, b)
  {
    var p := Template(msgType);
    WidthsMatch(p);
    PayloadSizes(p);
    hide Fields, Format, Template, FromFields, Construct, Unpack, Read, Size, Calcsize, Says;
    SizesMatch(Format(p), Fields(p));
    var size := Size(Fields(p));
    if size <= |b| {
      forall i | 0 <= i < |Format(p)| ensures Says(Format(p)[i], Unpack(Format(p), b[..size])[i], Read(Fields(p), b[..size])[i]) {
        UnpackIsRead(Format(p), Fields(p), b[..size], i);
      }
      ConstructIsFromFields(p, Unpack(Format(p), b[..size]), Read(Fields(p), b[..size]), b[size..]);
    }
  }

  // ------------------------------------------------------------ whole frames

  function HeaderFormat(): (f: seq<Code>)
    ensures Formed(f)
  {
    [Uint(2), Uint(1), Uint(1), Str(12), Uint(4), Uint(8), Uint(4), Uint(2), Uint(2)]
  }

  /** `Header.pack` masks the sequence number, the time and the version, not type and length. */
  function HeaderArgs(msgType: nat, id: seq<Crc.byte>, seqNo: nat, ts: nat, fw: nat, n: nat): (a: seq<Arg>)
    ensures |a| == 9
  {
    [Int(MAGIC), Int(VERSION), Int(msgType), Bin(Fixed(Py, id, ID_LEN)),
     Int(seqNo % Pow256(4)), Int(ts % Pow256(8)), Int(fw % Pow256(4)), Int(n), Int(0)]
  }

  lemma HeaderPacks(msgType: nat, id: seq<Crc.byte>, seqNo: nat, ts: nat, fw: nat, n: nat)
    requires msgType < 256 && n <= MAX_PAYLOAD
    ensures Pack(HeaderFormat(), HeaderArgs(msgType, id, seqNo, ts, fw, n))
         == Ok(WriteHeader(Py, PyHeader(msgType, id, seqNo, ts, fw, n)))
  {
    var (f, a) := (HeaderFormat(), HeaderArgs(msgType, id, seqNo, ts, fw, n));
    var r := HeaderFields(PyHeader(msgType, id, seqNo, ts, fw, n));
    HeaderInRange(msgType, id, seqNo, ts, fw, n);
    assert forall i :: 0 <= i < |f| ==> Spells(f[i], a[i], r[i]) by {
      hide Pow256, Fixed;
    }
    hide Spells, InRange, Pack, Write, Fixed, Pow256;
    PackIsWrite(f, a, r);
  }

  lemma HeaderInRange(msgType: nat, id: seq<Crc.byte>, seqNo: nat, ts: nat, fw: nat, n: nat)
    requires msgType < 256 && n <= MAX_PAYLOAD
    ensures var (f, a) := (HeaderFormat(), HeaderArgs(msgType, id, seqNo, ts, fw, n));
            forall i :: 0 <= i < |f| ==> InRange(f[i], a[i])
  {
    assert Pow256(1) == 256;
    assert Pow256(2) == 65536;
    hide Pow256, Fixed;
  }

  /** `encode` from the formats: payload, header, CRC. */
  function PyEncodeStruct(id: seq<Crc.byte>, seqNo: nat, ts: nat, fw: nat, p: Payload): Result<seq<Crc.byte>, StructError> {
    var body := PyPack(p);
    if body.Err? || |body.value| > MAX_PAYLOAD then Err(StructError)
    else
      var h := Pack(HeaderFormat(), HeaderArgs(TypeOf(p), id, seqNo, ts, fw, |body.value|));
      if h.Ok? then Ok(Seal(h.value + body.value)) else Err(StructError)
  }

  /**
   * For every payload whose numbers fit and whose texts are NUL-free and shorter than their
   * field, and every NUL-free id of at most 11 bytes, the frame that the backend builds from its
   * formats is byte for byte the frame that the firmware's writer calls build.
   */
  lemma SameFrame(id: seq<Crc.byte>, seqNo: nat, ts: nat, fw: nat, p: Payload)
    requires 0 !in id && |id| < ID_LEN && Plain(Fields(p)) && Packable(p) && |Encode(Py, p)| <= MAX_PAYLOAD
    ensures PyEncodeStruct(id, seqNo, ts, fw, p) == Ok(EncodeFrame(PyHeader(TypeOf(p), id, seqNo, ts, fw, 0), Encode(Cpp, p)))
  {
    hide Fields, Packable, Plain, Encode, EncodeFrame, Seal, Pack, HeaderFormat, HeaderArgs, WriteHeader, PyPack, TypeOf;
    PyPackIsEncode(p);
    EncodersAgree(id, seqNo, ts, fw, p);
    TypeIsByte(p);
    HeaderPacks(TypeOf(p), id, seqNo, ts, fw, |Encode(Py, p)|);
  }

  lemma TypeIsByte(p: Payload)
    ensures TypeOf(p) < 256
  {}
}
