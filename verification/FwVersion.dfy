/**
 * Firmware versions: "MAJOR.MINOR.PATCH" and the packed 32-bit word
 * (firmware/src/protocol.cpp:89-117, backend/app/protocol.py:93-107).
 */
module FwVersion {
  import opened Common

  const MAX_U32 := 0x1_0000_0000

  predicate IsDigit(c: char) { '0' <= c <= '9' }

  function DigitValue(c: char): nat
    requires IsDigit(c)
  {
    (c - '0') as nat
  }

  predicate Digits(s: string) {
    forall i :: 0 <= i < |s| ==> IsDigit(s[i])
  }

  /** The number a string of decimal digits denotes. */
  function Val(s: string): nat
    requires Digits(s)
  {
    if s == [] then 0 else 10 * Val(s[..|s| - 1]) + DigitValue(s[|s| - 1])
  }

  function Pack(major: nat, minor: nat, patch: nat): nat {
    major * 65536 + minor * 256 + patch
  }

  predicate InRange(major: nat, minor: nat, patch: nat) {
    major < 65536 && minor < 256 && patch < 256
  }

  // ------------------------------------------------------------ the backend's reading: split on dots

  /** `s.split(".")` */
  function Split(s: string): (parts: seq<string>)
    ensures |parts| >= 1
  {
    if s == [] then [""]
    else
      var parts, c := Split(s[..|s| - 1]), s[|s| - 1];
      if c == '.' then parts + [""] else parts[..|parts| - 1] + [parts[|parts| - 1] + [c]]
  }

  predicate Numeral(s: string) { s != [] && Digits(s) }

  /** The split reading on plain decimal numerals. */
  function SplitEncode(s: string): Option<nat> {
    var p := Split(s);
    if |p| != 3 || !Numeral(p[0]) || !Numeral(p[1]) || !Numeral(p[2]) then None
    else if !InRange(Val(p[0]), Val(p[1]), Val(p[2])) then None
    else Some(Pack(Val(p[0]), Val(p[1]), Val(p[2])))
  }

  // ------------------------------------------------------------ the backend's reading as Python has it

  /** The digits CPython 3.13 converts at most, unless told otherwise. */
  const MAX_DIGITS := 4300

  /** White space outside ASCII. */
  predicate WideSpace(c: char) {
    var n := c as int;
    n in {0x85, 0xA0, 0x1680, 0x2028, 0x2029, 0x202F, 0x205F, 0x3000} || 0x2000 <= n <= 0x200A
  }

  /** `strip` removes the ASCII separators 1C to 1F as well, `int` does not. */
  predicate Blank(c: char, strip: bool) {
    var n := c as int;
    9 <= n <= 13 || n == 32 || WideSpace(c) || (strip && 0x1C <= n <= 0x1F)
  }

  function Trim(s: string, strip: bool): string
    decreases |s|
  {
    if s != [] && Blank(s[0], strip) then Trim(s[1..], strip)
    else if s != [] && Blank(s[|s| - 1], strip) then Trim(s[..|s| - 1], strip)
    else s
  }

  /** The decimal digits outside ASCII, with their values: whatever table the interpreter has. */
  type WideDigits = map<char, nat>

  predicate IsTable(w: WideDigits) {
    forall c :: c in w ==> c as int >= 128 && w[c] < 10 && !WideSpace(c)
  }

  predicate Figure(w: WideDigits, c: char) { IsDigit(c) || c in w }

  /** Digits with single underscores between them. */
  predicate Grouped(w: WideDigits, s: string) {
    && s != [] && Figure(w, s[0]) && Figure(w, s[|s| - 1])
    && (forall i :: 0 <= i < |s| ==> Figure(w, s[i]) || s[i] == '_')
    && (forall i :: 0 <= i < |s| - 1 ==> Figure(w, s[i]) || Figure(w, s[i + 1]))
  }

  /** The same number in ASCII digits alone. */
  function Figures(w: WideDigits, s: string): (d: string)
    requires IsTable(w)
    ensures Digits(d)
  {
    if s == [] then []
    else
      var f, c := Figures(w, s[..|s| - 1]), s[|s| - 1];
      if IsDigit(c) then f + [c] else if c in w then f + ['0' + w[c] as char] else f
  }

  function Unsigned(s: string): string {
    if s != [] && (s[0] == '+' || s[0] == '-') then s[1..] else s
  }

  /** `int(s)`, or none for a ValueError. */
  function PyInt(w: WideDigits, s: string): Option<int>
    requires IsTable(w)
  {
    var t := Trim(s, false);
    var u := Unsigned(t);
    if !Grouped(w, u) || |Figures(w, u)| > MAX_DIGITS then None
    else if t[0] == '-' then Some(0 - Val(Figures(w, u)))
    else Some(Val(Figures(w, u)))
  }

  predicate Ranged(major: int, minor: int, patch: int) {
    0 <= major < 65536 && 0 <= minor < 256 && 0 <= patch < 256
  }

  /** What the backend's grammar takes for a version. */
  predicate Accepts(w: WideDigits, s: string)
    requires IsTable(w)
  {
    var p := Split(Trim(s, true));
    && |p| == 3 && PyInt(w, p[0]).Some? && PyInt(w, p[1]).Some? && PyInt(w, p[2]).Some?
    && Ranged(PyInt(w, p[0]).value, PyInt(w, p[1]).value, PyInt(w, p[2]).value)
  }

  /** `fw_encode` */
  function FwEncode(w: WideDigits, s: string): Option<nat>
    requires IsTable(w)
  {
    if !Accepts(w, s) then None
    else
      var p := Split(Trim(s, true));
      Some(Pack(PyInt(w, p[0]).value, PyInt(w, p[1]).value, PyInt(w, p[2]).value))
  }

  // ------------------------------------------------------------ the firmware's reading: one pass

  datatype Scan = Fail | Scan(parts: seq<nat>, idx: nat, haveDigit: bool)

  function ScanChar(t: Scan, c: char): (u: Scan)
    requires t.Scan? ==> |t.parts| == 3 && t.idx < 3
    ensures u.Scan? ==> |u.parts| == 3 && u.idx < 3
  {
    if t.Fail? then Fail
    else if IsDigit(c) then
      var v := t.parts[t.idx] * 10 + DigitValue(c);
      if v > 65535 then Fail else Scan(t.parts[t.idx := v], t.idx, true)
    else if c == '.' then
      if !t.haveDigit || t.idx == 2 then Fail else Scan(t.parts, t.idx + 1, false)
    else Fail
  }

  function ScanAll(s: string): (t: Scan)
    ensures t.Scan? ==> |t.parts| == 3 && t.idx < 3
  {
    if s == [] then Scan([0, 0, 0], 0, false) else ScanChar(ScanAll(s[..|s| - 1]), s[|s| - 1])
  }

  function ParseFw(s: string): Option<nat> {
    var t := ScanAll(s);
    if t.Fail? || t.idx != 2 || !t.haveDigit then None
    else if !InRange(t.parts[0], t.parts[1], t.parts[2]) then None
    else Some(Pack(t.parts[0], t.parts[1], t.parts[2]))
  }

  lemma {:induction false} ScanStuck(s: string, n: nat)
    requires n <= |s| && ScanAll(s[..n]).Fail?
    ensures ScanAll(s).Fail?
    decreases |s|
  {
    if n < |s| {
      assert s[..|s| - 1][..n] == s[..n];
      ScanStuck(s[..|s| - 1], n);
    } else {
      assert s[..n] == s;
    }
  }

  /** `parseFwVersion`: the character loop with its early exits. */
  method ParseFwVersion(s: string) returns (r: Option<nat>)
    ensures r == ParseFw(s)
  {
    var parts: seq<nat>, idx, haveDigit := [0, 0, 0], 0, false;
    for i := 0 to |s|
      invariant |parts| == 3 && 0 <= idx < 3
      invariant ScanAll(s[..i]) == Scan(parts, idx, haveDigit)
    {
      assert s[..i + 1][..i] == s[..i] && s[..i + 1][i] == s[i];
      ghost var next := ScanChar(Scan(parts, idx, haveDigit), s[i]);
      if next.Fail? {
        ScanStuck(s, i + 1);
      }
      var c := s[i];
      if '0' <= c <= '9' {
        parts := parts[idx := parts[idx] * 10 + (c - '0') as nat];
        if parts[idx] > 65535 { return None; }
        haveDigit := true;
      } else if c == '.' {
        if !haveDigit || idx == 2 { return None; }
        idx := idx + 1;
        haveDigit := false;
      } else {
        return None;
      }
    }
    assert s[..|s|] == s;
    if idx != 2 || !haveDigit { return None; }
    if parts[0] > 0xFFFF || parts[1] > 0xFF || parts[2] > 0xFF { return None; }
    return Some(parts[0] * 65536 + parts[1] * 256 + parts[2]);
  }

  // ------------------------------------------------------------ both readings agree

  /** Something no continuation can repair. */
  predicate Spoilt(p: seq<string>) {
    || |p| > 3
    || (exists i :: 0 <= i < |p| && !Digits(p[i]))
    || (exists i :: 0 <= i < |p| - 1 && p[i] == "")
    || (exists i :: 0 <= i < |p| && Digits(p[i]) && Val(p[i]) > 65535)
  }

  /** The scanner's state is the split so far. */
  predicate Tracks(t: Scan, p: seq<string>) {
    if t.Fail? then Spoilt(p)
    else
      && !Spoilt(p) && |t.parts| == 3 && t.idx == |p| - 1 && t.idx < 3
      && (forall i :: 0 <= i < |p| ==> t.parts[i] == Val(p[i]))
      && (forall i :: |p| <= i < 3 ==> t.parts[i] == 0)
      && (t.haveDigit <==> p[|p| - 1] != "")
  }

  lemma ValSnoc(s: string, c: char)
    requires Digits(s) && IsDigit(c)
    ensures Digits(s + [c]) && Val(s + [c]) == 10 * Val(s) + DigitValue(c)
  {
    assert (s + [c])[..|s|] == s;
  }

  lemma TrackDot(t: Scan, p: seq<string>)
    requires Tracks(t, p) && |p| >= 1
    ensures Tracks(ScanChar(t, '.'), p + [""])
  {
    var q := p + [""];
    assert forall i :: 0 <= i < |p| ==> q[i] == p[i];
    if t.Scan? && t.haveDigit && t.idx != 2 {
      assert forall i :: 0 <= i < |q| ==> Digits(q[i]);
      assert Val("") == 0;
    } else if t.Scan? && !t.haveDigit {
      assert q[|p| - 1] == "";
    }
  }

  lemma TrackOther(t: Scan, p: seq<string>, c: char)
    requires Tracks(t, p) && |p| >= 1 && c != '.'
    ensures Tracks(ScanChar(t, c), p[..|p| - 1] + [p[|p| - 1] + [c]])
  {
    var n := |p| - 1;
    var q := p[..n] + [p[n] + [c]];
    assert forall i :: 0 <= i < n ==> q[i] == p[i];
    if t.Fail? {
      SpoiltGrows(p, c);
    } else if !IsDigit(c) {
      assert !IsDigit(q[n][|p[n]|]);
    } else {
      TrackDigit(t, p, c);
    }
  }

  lemma TrackDigit(t: Scan, p: seq<string>, c: char)
    requires Tracks(t, p) && |p| >= 1 && t.Scan? && IsDigit(c)
    ensures Tracks(ScanChar(t, c), p[..|p| - 1] + [p[|p| - 1] + [c]])
  {
    var n := |p| - 1;
    var q := p[..n] + [p[n] + [c]];
    assert q[n] == p[n] + [c];
    ValSnoc(p[n], c);
    hide Val;
    if Val(q[n]) <= 65535 {
      forall i | 0 <= i < |q| ensures Digits(q[i]) && Val(q[i]) <= 65535 && (i < n ==> q[i] == p[i] != "") {
      }
    }
  }

  lemma SpoiltGrows(p: seq<string>, c: char)
    requires Spoilt(p) && |p| >= 1
    ensures Spoilt(p[..|p| - 1] + [p[|p| - 1] + [c]])
  {
    var n := |p| - 1;
    var q := p[..n] + [p[n] + [c]];
    if |p| <= 3 {
      if k :| 0 <= k < |p| && !Digits(p[k]) {
        var j :| 0 <= j < |p[k]| && !IsDigit(p[k][j]);
        assert !IsDigit(q[k][j]);
      } else if k :| 0 <= k < |p| - 1 && p[k] == "" {
        assert q[k] == "";
      } else {
        var k :| 0 <= k < |p| && Digits(p[k]) && Val(p[k]) > 65535;
        if k == n && IsDigit(c) {
          ValSnoc(p[n], c);
          assert Val(q[n]) > 65535;
        } else if k == n {
          assert !IsDigit(q[n][|p[n]|]);
        } else {
          assert q[k] == p[k];
        }
      }
    }
  }

  lemma NothingScanned()
    ensures Tracks(Scan([0, 0, 0], 0, false), [""])
  {
    assert Val("") == 0;
  }

  lemma {:induction false} ScanTracks(s: string)
    ensures Tracks(ScanAll(s), Split(s))
    decreases |s|
  {
    hide Tracks, ScanChar;
    if s == [] {
      NothingScanned();
    } else {
      var f, c := s[..|s| - 1], s[|s| - 1];
      ScanTracks(f);
      if c == '.' {
        TrackDot(ScanAll(f), Split(f));
      } else {
        TrackOther(ScanAll(f), Split(f), c);
      }
    }
  }

  /** For every string, the firmware's scanner accepts and yields exactly what the split reading does. */
  lemma ScannerSplits(s: string)
    ensures ParseFw(s) == SplitEncode(s)
  {
    hide ScanAll, Split, Val, Digits;
    ScanTracks(s);
    var p := Split(s);
    if ScanAll(s).Scan? && |p| == 3 {
      assert Digits(p[0]) && Digits(p[1]) && Digits(p[2]);
      assert p[0] != "" && p[1] != "";
    }
  }

  // ------------------------------------------------------------ where Python reads more, or less

  /** Nothing but ASCII digits and dots. */
  predicate Plain(s: string) {
    forall i :: 0 <= i < |s| ==> IsDigit(s[i]) || s[i] == '.'
  }

  predicate AllDigits(p: seq<string>) {
    forall i :: 0 <= i < |p| ==> Digits(p[i])
  }

  lemma {:induction false} SplitIsPlain(s: string)
    ensures Plain(s) <==> AllDigits(Split(s))
    decreases |s|
  {
    hide Plain, AllDigits;
    if s == [] {
      EmptyIsPlain();
    } else {
      var f, c := s[..|s| - 1], s[|s| - 1];
      SplitIsPlain(f);
      PlainSnoc(f, c);
      assert s == f + [c];
      DotAdds(Split(f));
      CharAdds(Split(f), c);
    }
  }

  lemma EmptyIsPlain()
    ensures Plain("") && AllDigits([""])
  {}

  lemma DotAdds(p: seq<string>)
    ensures AllDigits(p + [""]) <==> AllDigits(p)
  {
    var q := p + [""];
    assert forall i :: 0 <= i < |p| ==> q[i] == p[i];
  }

  lemma CharAdds(p: seq<string>, c: char)
    requires p != []
    ensures AllDigits(p[..|p| - 1] + [p[|p| - 1] + [c]]) <==> AllDigits(p) && IsDigit(c)
  {
    hide Digits;
    var n := |p| - 1;
    var q := p[..n] + [p[n] + [c]];
    assert q[n] == p[n] + [c] && forall i :: 0 <= i < n ==> q[i] == p[i];
    DigitsSnoc(p[n], c);
    if AllDigits(p) && IsDigit(c) {
      assert forall i :: 0 <= i < n ==> Digits(q[i]);
    }
    if AllDigits(q) {
      assert forall i :: 0 <= i < n ==> Digits(q[i]);
      assert Digits(q[n]);
    }
  }

  lemma PlainSnoc(f: string, c: char)
    ensures Plain(f + [c]) <==> Plain(f) && (IsDigit(c) || c == '.')
  {
    var s := f + [c];
    assert s[|f|] == c && forall i :: 0 <= i < |f| ==> s[i] == f[i];
  }

  lemma DigitsSnoc(f: string, c: char)
    ensures Digits(f + [c]) <==> Digits(f) && IsDigit(c)
  {
    var s := f + [c];
    assert s[|f|] == c && forall i :: 0 <= i < |f| ==> s[i] == f[i];
  }

  lemma PlainTrims(s: string, strip: bool)
    requires Plain(s)
    ensures Trim(s, strip) == s
  {}

  lemma {:induction false} FiguresOfDigits(w: WideDigits, s: string)
    requires IsTable(w) && Digits(s)
    ensures Figures(w, s) == s
    decreases |s|
  {
    if s != [] {
      FiguresOfDigits(w, s[..|s| - 1]);
    }
  }

  /** On ASCII digits `int` is the plain value, up to its limit on the number of digits. */
  lemma IntOfDigits(w: WideDigits, s: string)
    requires IsTable(w) && Digits(s)
    ensures PyInt(w, s) == if s == [] || |s| > MAX_DIGITS then None else Some(Val(s))
  {
    PlainTrims(s, false);
    FiguresOfDigits(w, s);
  }

  /** A version that the device takes with a number too long for the backend. */
  predicate TooLong(s: string) {
    ParseFw(s).Some? && exists i :: 0 <= i < |Split(s)| && |Split(s)[i]| > MAX_DIGITS
  }

  /** On digits and dots the two readings differ only by that limit. */
  lemma PlainDiffers(w: WideDigits, s: string)
    requires IsTable(w) && Plain(s)
    ensures FwEncode(w, s) != ParseFw(s) <==> TooLong(s)
    ensures FwEncode(w, s).Some? ==> FwEncode(w, s) == ParseFw(s)
  {
    hide Trim, Split, PyInt, Val, ParseFw;
    ScannerSplits(s);
    PlainTrims(s, true);
    SplitIsPlain(s);
    var p := Split(s);
    assert AllDigits(p);
    if |p| == 3 {
      assert Digits(p[0]) && Digits(p[1]) && Digits(p[2]);
      ThreeParts(w, p);
      assert TooLong(s) <==> ParseFw(s).Some? && (|p[0]| > MAX_DIGITS || |p[1]| > MAX_DIGITS || |p[2]| > MAX_DIGITS);
    }
  }

  lemma ThreeParts(w: WideDigits, p: seq<string>)
    requires IsTable(w) && |p| == 3 && forall i :: 0 <= i < 3 ==> Digits(p[i])
    ensures forall i :: 0 <= i < 3 ==> PyInt(w, p[i]) == if p[i] == [] || |p[i]| > MAX_DIGITS then None else Some(Val(p[i]))
  {
    hide PyInt, Val, Digits;
    forall i | 0 <= i < 3 ensures PyInt(w, p[i]) == if p[i] == [] || |p[i]| > MAX_DIGITS then None else Some(Val(p[i])) {
      IntOfDigits(w, p[i]);
    }
  }

  /**
   * For every string and every table of digits: the two readings differ if and only if the
   * backend's grammar takes the string and it has a character other than ASCII digits and dots,
   * or the device takes it and a number has more than 4300 digits.
   */
  lemma ParsersDiffer(w: WideDigits, s: string)
    requires IsTable(w)
    ensures ParseFw(s) != FwEncode(w, s) <==> (Accepts(w, s) && !Plain(s)) || TooLong(s)
    ensures ParseFw(s).Some? ==> Plain(s)
  {
    ScannerSplits(s);
    SplitIsPlain(s);
    if Plain(s) {
      PlainDiffers(w, s);
    }
    hide ParseFw, Accepts, Plain, Split;
  }

  // ------------------------------------------------------------ printing

  function Dec(n: nat): (s: string)
    ensures Numeral(s)
  {
    var last := ['0' + (n % 10) as char];
    if n < 10 then last else Dec(n / 10) + last
  }

  lemma {:induction false} DecRoundTrip(n: nat)
    ensures Val(Dec(n)) == n
    decreases n
  {
    var c := '0' + (n % 10) as char;
    assert IsDigit(c) && DigitValue(c) == n % 10;
    if n < 10 {
      assert [c][..0] == [] && Val([c]) == DigitValue(c);
    } else {
      DecRoundTrip(n / 10);
      ValSnoc(Dec(n / 10), c);
    }
  }

  function Major(v: nat): nat { v / 65536 % 65536 }

  function Minor(v: nat): nat { v / 256 % 256 }

  function Patch(v: nat): nat { v % 256 }

  /** `fwVersionToString`, and `fw_decode` of the backend. */
  function PrintFw(v: nat): string {
    Dec(Major(v)) + "." + Dec(Minor(v)) + "." + Dec(Patch(v))
  }

  lemma {:induction false} SplitDigits(s: string, d: string)
    requires Digits(d)
    ensures Split(s + "." + d) == Split(s) + [d]
    decreases |d|
  {
    var w := s + "." + d;
    if d == [] {
      assert w[..|w| - 1] == s;
    } else {
      var d' := d[..|d| - 1];
      assert w[..|w| - 1] == s + "." + d';
      SplitDigits(s, d');
      assert d == d' + [d[|d| - 1]];
      assert (Split(s) + [d'])[..|Split(s)|] == Split(s);
    }
  }

  lemma {:induction false} SplitWhole(d: string)
    requires '.' !in d
    ensures Split(d) == [d]
    decreases |d|
  {
    if d != [] {
      SplitWhole(d[..|d| - 1]);
      assert d == d[..|d| - 1] + [d[|d| - 1]];
    }
  }

  /** What a printed version splits into, whatever stands before its first number. */
  lemma PrintSplits(lead: string, v: nat)
    requires '.' !in lead
    ensures Split(lead + PrintFw(v)) == [lead + Dec(Major(v)), Dec(Minor(v)), Dec(Patch(v))]
  {
    hide Dec, Split, Major, Minor, Patch;
    var (a, b, c) := (Dec(Major(v)), Dec(Minor(v)), Dec(Patch(v)));
    SplitWhole(lead + a);
    SplitDigits(lead + a, b);
    SplitDigits(lead + a + "." + b, c);
    InFront(lead, a, b, c);
  }

  lemma InFront(lead: string, a: string, b: string, c: string)
    ensures lead + (a + "." + b + "." + c) == lead + a + "." + b + "." + c
  {}

  lemma Unpacks(v: nat)
    requires v < MAX_U32
    ensures InRange(Major(v), Minor(v), Patch(v)) && Pack(Major(v), Minor(v), Patch(v)) == v
  {
    var q := v / 256;
    assert v == q * 256 + v % 256 && q == q / 256 * 256 + q % 256;
    assert q / 256 == v / 65536;
  }

  /** Both ends read back every 32-bit version they print. */
  lemma PrintParse(v: nat)
    requires v < MAX_U32
    ensures ParseFw(PrintFw(v)) == Some(v)
    ensures forall w :: IsTable(w) ==> FwEncode(w, PrintFw(v)) == Some(v)
  {
    hide PrintFw, Dec, Split, ParseFw, Val, Pack, Digits, Major, Minor, Patch, FwEncode, Plain;
    PrintedParts(v);
    ScannerSplits(PrintFw(v));
    forall w | IsTable(w) ensures FwEncode(w, PrintFw(v)) == Some(v) {
      PlainDiffers(w, PrintFw(v));
    }
  }

  /** The numbers of a printed version: short, plain and packing to the version. */
  lemma PrintedParts(v: nat)
    requires v < MAX_U32
    ensures var (s, a, b, c) := (PrintFw(v), Dec(Major(v)), Dec(Minor(v)), Dec(Patch(v)));
            && s != [] && Plain(s) && Split(s) == [a, b, c] && |a| <= 5 && |b| <= 5 && |c| <= 5
            && InRange(Val(a), Val(b), Val(c)) && Pack(Val(a), Val(b), Val(c)) == v
  {
    hide Dec, Split, Val, Digits, Plain;
    assert PrintFw(v) != [];
    hide PrintFw;
    assert "" + PrintFw(v) == PrintFw(v) && "" + Dec(Major(v)) == Dec(Major(v));
    PrintSplits("", v);
    DecRoundTrip(Major(v));
    DecRoundTrip(Minor(v));
    DecRoundTrip(Patch(v));
    Unpacks(v);
    hide Pack, Major, Minor, Patch;
    SplitIsPlain(PrintFw(v));
    DecShort(Major(v));
    DecShort(Minor(v));
    DecShort(Patch(v));
  }

  lemma DecShort(n: nat)
    requires n < 100_000
    ensures |Dec(n)| <= 5
  {
    assert |Dec(n / 10000)| <= 1;
    assert |Dec(n / 1000)| <= 2 by { assert n / 1000 / 10 == n / 10000; }
    assert |Dec(n / 100)| <= 3 by { assert n / 100 / 10 == n / 1000; }
    assert |Dec(n / 10)| <= 4 by { assert n / 10 / 10 == n / 100; }
  }

  /**
   * The backend takes every version with a sign or a blank in front, and the device refuses it:
   * such a version passes into the registry and can never be installed.
   */
  lemma SignedOrBlankDiffers(w: WideDigits, v: nat, lead: string)
    requires IsTable(w) && v < MAX_U32 && (lead == "+" || lead == " ")
    ensures FwEncode(w, lead + PrintFw(v)) == Some(v) && ParseFw(lead + PrintFw(v)) == None
  {
    hide PrintFw, Dec, Split, ParseFw, Val, Trim, PyInt, Pack, Major, Minor, Patch;
    var s := lead + PrintFw(v);
    var (a, b, c) := (Dec(Major(v)), Dec(Minor(v)), Dec(Patch(v)));
    PrintedParts(v);
    assert s[0] == lead[0];
    ParsersDiffer(w, s);
    IntOfDigits(w, a);
    IntOfDigits(w, b);
    IntOfDigits(w, c);
    if lead == "+" {
      PrintSplits("+", v);
      PlusTrims(PrintFw(v), true);
      PlusIsNothing(w, a);
      assert Split(Trim(s, true)) == ["+" + a, b, c];
    } else {
      BlankTrims(PrintFw(v));
      assert Split(Trim(s, true)) == [a, b, c];
    }
  }

  lemma PlusTrims(s: string, strip: bool)
    requires Plain(s) && s != []
    ensures Trim("+" + s, strip) == "+" + s
  {
    var t := "+" + s;
    assert t[0] == '+' && t[|t| - 1] == s[|s| - 1];
  }

  lemma PlusIsNothing(w: WideDigits, s: string)
    requires Digits(s) && s != [] && IsTable(w)
    ensures PyInt(w, "+" + s) == PyInt(w, s)
  {
    hide Trim, Figures, Grouped, Val;
    PlusTrims(s, false);
    PlainTrims(s, false);
    assert ("+" + s)[1..] == s;
  }

  lemma BlankTrims(s: string)
    requires Plain(s)
    ensures Trim(" " + s, true) == s
  {
    assert (" " + s)[1..] == s;
    PlainTrims(s, true);
  }

  lemma PrintInjective(v: nat, w: nat)
    requires v < MAX_U32 && w < MAX_U32 && PrintFw(v) == PrintFw(w)
    ensures v == w
  {
    PrintParse(v);
    PrintParse(w);
  }

  /** Packed order is lexicographic order on (major, minor, patch). */
  lemma PackedOrder(v: nat, w: nat)
    requires v < MAX_U32 && w < MAX_U32
    ensures v < w <==> (Major(v) < Major(w) || (Major(v) == Major(w) &&
                          (Minor(v) < Minor(w) || (Minor(v) == Minor(w) && Patch(v) < Patch(w)))))
  {
    Unpacks(v);
    Unpacks(w);
  }

  lemma {:induction false} ParseBelow(s: string)
    ensures ParseFw(s).Some? ==> ParseFw(s).value < MAX_U32
  {}

  // ------------------------------------------------------------ long versions on the wire

  const WIRE_LEN := 15

  /** `_pad` of the backend on a 16-byte field. */
  function OnWire(version: string): string {
    if |version| > WIRE_LEN then version[..WIRE_LEN] else version
  }

  function Dots(s: string): nat {
    if s == [] then 0 else Dots(s[..|s| - 1]) + if s[|s| - 1] == '.' then 1 else 0
  }

  lemma {:induction false} DotsCount(s: string)
    ensures |Split(s)| == Dots(s) + 1
    decreases |s|
  {
    if s != [] {
      DotsCount(s[..|s| - 1]);
    }
  }

  lemma {:induction false} FewerDots(s: string, n: nat)
    requires n <= |s|
    ensures Dots(s[..n]) <= Dots(s)
    decreases |s|
  {
    if n < |s| {
      FewerDots(s[..|s| - 1], n);
      assert s[..|s| - 1][..n] == s[..n];
    } else {
      assert s[..n] == s;
    }
  }

  /** Splitting undone. */
  function Rejoined(p: seq<string>): string
    requires p != []
  {
    if |p| == 1 then p[0] else Rejoined(p[..|p| - 1]) + "." + p[|p| - 1]
  }

  lemma {:induction false} SplitRejoins(s: string)
    ensures Rejoined(Split(s)) == s
    decreases |s|
  {
    if s != [] {
      var f, c := s[..|s| - 1], s[|s| - 1];
      SplitRejoins(f);
      var (p, q) := (Split(f), Split(s));
      assert s == f + [c];
      if c == '.' {
        assert q[..|q| - 1] == p;
      } else {
        LastGrows(p, c);
      }
    }
  }

  lemma LastGrows(p: seq<string>, c: char)
    requires p != []
    ensures Rejoined(p[..|p| - 1] + [p[|p| - 1] + [c]]) == Rejoined(p) + [c]
  {
    var n := |p| - 1;
    var q := p[..n] + [p[n] + [c]];
    assert q[..n] == p[..n] && q[n] == p[n] + [c];
  }

  /** A version the device reads is its three numbers with dots between them. */
  lemma ThreeNumbers(s: string)
    requires ParseFw(s).Some?
    ensures var p := Split(s);
            && |p| == 3 && s == p[0] + "." + p[1] + "." + p[2] && AllDigits(p)
            && p[0] != [] && p[1] != [] && p[2] != []
  {
    hide Split, Val, ParseFw, Digits;
    ScannerSplits(s);
    SplitRejoins(s);
    var p := Split(s);
    assert p[..2][..1] == [p[0]] && p[..2] == [p[0], p[1]];
    assert Rejoined(p[..2]) == p[0] + "." + p[1];
  }

  function Pow10(k: nat): (r: nat)
    ensures r >= 1
  {
    if k == 0 then 1 else 10 * Pow10(k - 1)
  }

  lemma {:induction false} ValJoin(a: string, b: string)
    requires Digits(a) && Digits(b)
    ensures Digits(a + b) && Val(a + b) == Val(a) * Pow10(|b|) + Val(b)
    decreases |b|
  {
    if b == [] {
      assert a + b == a;
    } else {
      hide Val;
      var f, c := b[..|b| - 1], b[|b| - 1];
      ValJoin(a, f);
      assert a + b == (a + f) + [c];
      ValSnoc(a + f, c);
      assert b == f + [c];
      ValSnoc(f, c);
      Shifted(Val(a), Pow10(|f|), Val(f));
    }
  }

  lemma Shifted(a: nat, t: nat, v: nat)
    ensures 10 * (a * t + v) == a * (10 * t) + 10 * v
  {}

  /** Cutting digits off a number keeps its value if and only if it is zero. */
  lemma CutValue(a: string, b: string)
    requires Digits(a) && Digits(b) && b != []
    ensures Val(a) == Val(a + b) <==> Val(a + b) == 0
  {
    ValJoin(a, b);
    assert Pow10(|b|) >= 10;
    Grows(Val(a), Pow10(|b|), Val(b));
    hide Val;
  }

  lemma Grows(a: nat, t: nat, v: nat)
    requires t >= 10
    ensures a == a * t + v <==> a * t + v == 0
  {
    if a > 0 {
      assert a * t >= a * 10;
    }
  }

  /** The cut falls inside the last number and leaves at least one digit of it. */
  predicate CutInPatch(s: string) {
    var p := Split(s);
    |p| == 3 && |p[0]| + |p[1]| + 2 < WIRE_LEN
  }

  lemma LowByte(major: nat, minor: nat, patch: nat)
    requires patch < 256
    ensures Patch(Pack(major, minor, patch)) == patch
  {}

  /**
   * A version that the device would read in full is what it reads from the wire if and only if it
   * has at most 15 characters, or the cut falls within a patch number of zero.
   */
  lemma WireKeepsIff(s: string)
    requires ParseFw(s).Some?
    ensures ParseFw(OnWire(s)) == ParseFw(s) <==> |s| <= WIRE_LEN || (CutInPatch(s) && Patch(ParseFw(s).value) == 0)
  {
    ThreeNumbers(s);
    var (p, t) := (Split(s), OnWire(s));
    var n := |p[0]| + |p[1]| + 2;
    hide Split, Val, ParseFw, Digits;
    ScannerSplits(s);
    LowByte(Val(p[0]), Val(p[1]), Val(p[2]));
    if |s| > WIRE_LEN {
      if n < WIRE_LEN {
        var (c, d) := (p[2][..WIRE_LEN - n], p[2][WIRE_LEN - n..]);
        CutParts(p, t, c, d);
        ScannerSplits(t);
        CutValue(c, d);
      } else {
        CutTooEarly(p[0], p[1], p[2]);
      }
    }
  }

  lemma CutParts(p: seq<string>, t: string, c: string, d: string)
    requires |p| == 3 && AllDigits(p) && p[2] == c + d && d != [] && c != []
    requires t == p[0] + "." + p[1] + "." + c
    ensures Digits(c) && Digits(d) && Split(t) == [p[0], p[1], c]
    ensures p[2] == c + d
  {
    assert Digits(p[0]) && Digits(p[1]) && Digits(p[2]);
    assert forall i :: 0 <= i < |c| ==> c[i] == p[2][i];
    assert forall i :: 0 <= i < |d| ==> d[i] == p[2][|c| + i];
    SplitWhole(p[0]);
    SplitDigits(p[0], p[1]);
    SplitDigits(p[0] + "." + p[1], c);
  }

  /** A cut before the first digit of the patch number leaves nothing to read. */
  lemma CutTooEarly(a: string, b: string, c: string)
    requires Digits(a) && Digits(b) && |a| + |b| + 2 >= WIRE_LEN
    ensures ParseFw((a + "." + b + "." + c)[..WIRE_LEN]).None?
  {
    var s := a + "." + b + "." + c;
    var t := s[..WIRE_LEN];
    SplitWhole(a);
    SplitDigits(a, b);
    SplitDigits(a + "." + b, "");
    hide Split, ParseFw;
    ScannerSplits(t);
    if |a| + |b| + 2 == WIRE_LEN {
      assert t == a + "." + b + "." + "";
    } else {
      assert t == (a + "." + b)[..WIRE_LEN];
      DotsCount(a + "." + b);
      FewerDots(a + "." + b, WIRE_LEN);
      DotsCount(t);
    }
  }
}
