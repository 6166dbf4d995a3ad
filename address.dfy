/** The two small pieces shared by the CellServDB file search and the
    registry search: the `" %u.%u.%u.%u"` dotted-quad fall-back parse used
    when name resolution fails, and the clamp of a registry rank to an
    unsigned short. */
module Address {
  import opened CString
  import opened Options

  const Two32: nat := 0x1_0000_0000

  type Octet = x: int | 0 <= x < 256

  /** An IPv4 address as the four bytes the parse stores, in order. */
  datatype Addr = Addr(b0: Octet, b1: Octet, b2: Octet, b3: Octet)

  function DigitValue(c: char): (d: nat)
    requires IsDigit(c)
    ensures d < 10
  {
    c as int - '0' as int
  }

  function DigitChar(d: nat): (c: char)
    requires d < 10
    ensures IsDigit(c) && DigitValue(c) == d
  {
    ('0' as int + d) as char
  }

  /** Length of the run of decimal digits at the start of `s`. */
  function DigitRun(s: Str): (n: nat)
    ensures n <= |s|
    ensures forall i :: 0 <= i < n ==> IsDigit(s[i])
    ensures n < |s| ==> !IsDigit(s[n])
  {
    if s != [] && IsDigit(s[0]) then 1 + DigitRun(s[1..]) else 0
  }

  predicate AllDigits(s: Str) {
    forall i :: 0 <= i < |s| ==> IsDigit(s[i])
  }

  /** The number a run of decimal digits denotes, most significant first. */
  function DigitsValue(s: Str): (v: nat)
    requires AllDigits(s)
  {
    if s == [] then 0 else DigitsValue(s[..|s| - 1]) * 10 + DigitValue(s[|s| - 1])
  }

  /** `s` after its leading C-locale white space. */
  function SkipSpaces(s: Str): (r: Str)
    ensures |r| <= |s| && r == s[|s| - |r|..]
    ensures r != [] ==> !IsSpace(r[0])
  {
    if s != [] && IsSpace(s[0]) then SkipSpaces(s[1..]) else s
  }

  /** One `%u` conversion: optional white space, an optional sign and a
      non-empty digit run, taken modulo 2^32 and negated (modulo 2^32)
      after a minus sign. Gives the value and the unread rest, or None on a
      matching failure. */
  function ScanUnsigned(s: Str): (r: Option<(nat, Str)>)
    ensures r.Some? ==> r.value.0 < Two32 && |r.value.1| < |s|
  {
    var t := SkipSpaces(s);
    if t != [] && t[0] == '-' then
      match ScanDigits(t[1..])
      case None => None
      case Some((m, rest)) => Some(((Two32 - m) % Two32, rest))
    else if t != [] && t[0] == '+' then ScanDigits(t[1..])
    else ScanDigits(t)
  }

  /** The digit run at the start of `u`, modulo 2^32, and what follows it. */
  function ScanDigits(u: Str): (r: Option<(nat, Str)>)
    ensures r.Some? ==> r.value.0 < Two32 && |r.value.1| < |u|
  {
    var n := DigitRun(u);
    if n == 0 then None else Some((DigitsValue(u[..n]) % Two32, u[n..]))
  }

  /** `sscanf(s, " %u.%u.%u.%u", ...) == 4` with every value below 256: the
      address, or None when fewer than four values convert or one of them is
      256 or more. Text after the fourth value is ignored. */
  function ParseDottedQuad(s: Str): (r: Option<Addr>)
  {
    match ScanUnsigned(s)
    case None => None
    case Some((c1, t1)) => ParseLastThree(c1, t1)
  }

  /** A `.` followed by one `%u` conversion. */
  function ScanDotted(t: Str): (r: Option<(nat, Str)>)
    ensures r.Some? ==> r.value.0 < Two32
  {
    if t != [] && t[0] == '.' then ScanUnsigned(t[1..]) else None
  }

  function ParseLastThree(c1: nat, t1: Str): (r: Option<Addr>)
  {
    match ScanDotted(t1)
    case None => None
    case Some((c2, t2)) =>
      match ScanDotted(t2)
      case None => None
      case Some((c3, t3)) =>
        match ScanDotted(t3)
        case None => None
        case Some((c4, _)) =>
          if c1 < 256 && c2 < 256 && c3 < 256 && c4 < 256 then Some(Addr(c1, c2, c3, c4))
          else None
  }

  /** Decimal text of `n` without leading zeros. */
  function Dec(n: nat): (s: Str)
    ensures s != [] && AllDigits(s)
  {
    if n < 10 then [DigitChar(n)] else Dec(n / 10) + [DigitChar(n % 10)]
  }

  lemma {:induction false} DecValue(n: nat)
    ensures DigitsValue(Dec(n)) == n
  {
    if n >= 10 {
      var s := Dec(n);
      assert s[..|s| - 1] == Dec(n / 10);
      DecValue(n / 10);
    }
  }

  /** The dotted-quad text of an address. */
  function Format(a: Addr): (s: Str)
  {
    Dec(a.b0) + "." + Dec(a.b1) + "." + Dec(a.b2) + "." + Dec(a.b3)
  }

  lemma DigitRunStopsAt(d: Str, rest: Str)
    requires AllDigits(d)
    requires rest == [] || !IsDigit(rest[0])
    ensures DigitRun(d + rest) == |d|
    decreases |d|
  {
    if d == [] {
      assert d + rest == rest;
    } else {
      assert (d + rest)[1..] == d[1..] + rest;
      DigitRunStopsAt(d[1..], rest);
    }
  }

  /** A conversion reads a whole digit run that is not followed by a digit. */
  lemma ScanDigitRun(d: Str, rest: Str)
    requires d != [] && AllDigits(d)
    requires rest == [] || !IsDigit(rest[0])
    ensures ScanUnsigned(d + rest) == Some((DigitsValue(d) % Two32, rest))
  {
    var s := d + rest;
    assert s[0] == d[0] && IsDigit(s[0]);
    assert !IsSpace(s[0]) && s[0] != '-' && s[0] != '+';
    assert SkipSpaces(s) == s;
    assert ScanUnsigned(s) == ScanDigits(s);
    DigitRunStopsAt(d, rest);
    assert s[..|d|] == d;
    assert s[|d|..] == rest;
  }

  /** `d` is decimal text for `n`. */
  predicate Denotes(d: Str, n: nat) {
    d != [] && AllDigits(d) && DigitsValue(d) == n
  }

  lemma ScanDecText(n: nat, rest: Str, d: Str)
    requires n < Two32 && Denotes(d, n)
    requires rest == [] || !IsDigit(rest[0])
    ensures ScanUnsigned(d + rest) == Some((n, rest))
  {
    ScanDigitRun(d, rest);
  }

  /** One conversion reads back the decimal text of any value below 2^32. */
  lemma ScanDec(n: nat, rest: Str)
    requires n < Two32
    requires rest == [] || !IsDigit(rest[0])
    ensures ScanUnsigned(Dec(n) + rest) == Some((n, rest))
  {
    DecValue(n);
    ScanDecText(n, rest, Dec(n));
  }

  lemma DottedDecText(n: nat, rest: Str, d: Str)
    requires n < Two32 && Denotes(d, n)
    requires rest == [] || !IsDigit(rest[0])
    ensures ScanDotted("." + d + rest) == Some((n, rest))
  {
    assert ("." + d + rest)[1..] == d + rest;
    ScanDecText(n, rest, d);
  }

  lemma QuadText(a: Addr, rest: Str, d0: Str, d1: Str, d2: Str, d3: Str)
    requires Denotes(d0, a.b0) && Denotes(d1, a.b1) && Denotes(d2, a.b2) && Denotes(d3, a.b3)
    requires rest == [] || !IsDigit(rest[0])
    ensures ParseDottedQuad(d0 + "." + d1 + "." + d2 + "." + d3 + rest) == Some(a)
  {
    var r2 := "." + d3 + rest;
    var r1 := "." + d2 + r2;
    var r0 := "." + d1 + r1;
    assert d0 + "." + d1 + "." + d2 + "." + d3 + rest == d0 + r0;
    ScanDecText(a.b0, r0, d0);
    DottedDecText(a.b1, r1, d1);
    DottedDecText(a.b2, r2, d2);
    DottedDecText(a.b3, rest, d3);
  }

  /** Round trip: the fall-back parse reads back the dotted-quad text of
      every address, whatever non-digit text follows it. */
  lemma ParseFormat(a: Addr, rest: Str)
    requires rest == [] || !IsDigit(rest[0])
    ensures ParseDottedQuad(Format(a) + rest) == Some(a)
  {
    DecValue(a.b0);
    DecValue(a.b1);
    DecValue(a.b2);
    DecValue(a.b3);
    QuadText(a, rest, Dec(a.b0), Dec(a.b1), Dec(a.b2), Dec(a.b3));
  }

  lemma TripleText(a: Octet, b: Octet, c: Octet, da: Str, db: Str, dc: Str)
    requires Denotes(da, a) && Denotes(db, b) && Denotes(dc, c)
    ensures ParseDottedQuad(da + "." + db + "." + dc) == None
  {
    var r1 := "." + dc;
    var r0 := "." + db + r1;
    assert da + "." + db + "." + dc == da + r0;
    ScanDecText(a, r0, da);
    DottedDecText(b, r1, db);
    assert r1 == "." + dc + [];
    DottedDecText(c, [], dc);
  }

  /** Three components are not enough. */
  lemma ThreeComponentsRejected(a: Octet, b: Octet, c: Octet)
    ensures ParseDottedQuad(Dec(a) + "." + Dec(b) + "." + Dec(c)) == None
  {
    DecValue(a);
    DecValue(b);
    DecValue(c);
    TripleText(a, b, c, Dec(a), Dec(b), Dec(c));
  }

  /** A component of 256 or more makes the whole parse fail, even when four
      values convert. */
  lemma LargeComponentRejected(n: nat, rest: Str)
    requires 256 <= n < Two32
    requires rest == [] || !IsDigit(rest[0])
    ensures ParseDottedQuad(Dec(n) + rest) == None
  {
    ScanDec(n, rest);
  }

  // ---------------------------------------------------------------------
  // Registry rank

  type Dword = x: int | 0 <= x < 0x1_0000_0000

  /** What the query of a server's `Rank` value returns: no value, a
      REG_DWORD, or a value of some other type. */
  datatype RegValue = Absent | DwordValue(v: Dword) | OtherType

  /** The rank handed to the server callback: a REG_DWORD value clamped to
      the unsigned-short range, and 0 when the value is absent or of another
      type. */
  function Rank(q: RegValue): (r: nat)
    ensures r <= 65535
    ensures q.DwordValue? ==> r <= q.v && (q.v <= 65535 ==> r == q.v)
    ensures q.DwordValue? && q.v > 65535 ==> r == 65535
    ensures !q.DwordValue? ==> r == 0
  {
    if q.DwordValue? then (if q.v <= 65535 then q.v else 65535) else 0
  }

  /** The clamp never lowers a larger stored rank below a smaller one. */
  lemma RankMonotone(v: Dword, w: Dword)
    requires v <= w
    ensures Rank(DwordValue(v)) <= Rank(DwordValue(w))
  {
  }
}
