/** The small text-format pieces of the CellServDB configuration code:
    the `key = value` tokenizer, the Windows-module name filter, the
    dotted-quad address fall-back, the registry rank clamp, the CellServDB
    path builder and the registry's unique-prefix cell lookup. */
module CellConfig {
  import opened CString
  import opened Options

  /** CELL_MAXNAMELEN: cell-name buffers hold 255 characters and a NUL. */
  const CellMaxNameLen: nat := 256

  /** A name as copied into a cell-name buffer (a header's names, or a
      registry key name as it is compared): cut to CELL_MAXNAMELEN-1
      characters and folded to lower case. */
  function BufferName(s: Str): (r: Str)
    ensures |r| <= CellMaxNameLen - 1 && IsLowerCase(r)
  {
    LowerIsLowerCase(Take(s, CellMaxNameLen - 1));
    Lower(Take(s, CellMaxNameLen - 1))
  }

  // ---------------------------------------------------------------------
  // cm_ParsePair

  /** What remains of `s` for the tokenizer once it is `sawEquals` and
      `sawBracket` deep: the characters it puts into the left bucket and
      those it puts into the right bucket. */
  function PairScan(s: Str, sawEquals: bool, sawBracket: bool): (lr: (Str, Str))
    decreases |s|
  {
    if s == [] || s[0] == '\0' then ([], [])
    else if sawBracket then PairScan(s[1..], sawEquals, s[0] != ']')
    else if s[0] == '#' || s[0] == '\r' || s[0] == '\n' then ([], [])
    else if s[0] == '[' then PairScan(s[1..], sawEquals, true)
    else if IsBlank(s[0]) then PairScan(s[1..], sawEquals, false)
    else if s[0] == '=' then PairScan(s[1..], true, false)
    else
      var lr := PairScan(s[1..], sawEquals, false);
      if sawEquals then (lr.0, [s[0]] + lr.1) else ([s[0]] + lr.0, lr.1)
  }

  /** One character of the tokenizer outside a stop: the flags it leaves
      and what it adds to the left and the right part. */
  function PairStep(c: char, sawEquals: bool, sawBracket: bool): (bool, bool, Str, Str) {
    if sawBracket then (sawEquals, c != ']', [], [])
    else if c == '[' then (sawEquals, true, [], [])
    else if IsBlank(c) then (sawEquals, false, [], [])
    else if c == '=' then (true, false, [], [])
    else if sawEquals then (true, false, [], [c])
    else (false, false, [c], [])
  }

  /** The scan unfolded by one character outside a stop. */
  lemma PairScanStep(s: Str, sawEquals: bool, sawBracket: bool)
    requires s != [] && s[0] != '\0' && (sawBracket || !(s[0] == '#' || s[0] == '\r' || s[0] == '\n'))
    ensures var st := PairStep(s[0], sawEquals, sawBracket);
            var lr := PairScan(s[1..], st.0, st.1);
            PairScan(s, sawEquals, sawBracket) == (st.2 + lr.0, st.3 + lr.1)
  {
    var c := s[0];
    var st := PairStep(c, sawEquals, sawBracket);
    var lr := PairScan(s[1..], st.0, st.1);
    if st.2 == [] {
      assert st.2 + lr.0 == lr.0;
    }
    if st.3 == [] {
      assert st.3 + lr.1 == lr.1;
    }
    if sawBracket {
      assert PairScan(s, sawEquals, sawBracket) == PairScan(s[1..], sawEquals, c != ']');
    } else if c == '[' {
      assert PairScan(s, sawEquals, sawBracket) == PairScan(s[1..], sawEquals, true);
    } else if IsBlank(c) {
      assert PairScan(s, sawEquals, sawBracket) == PairScan(s[1..], sawEquals, false);
    } else if c == '=' {
      assert PairScan(s, sawEquals, sawBracket) == PairScan(s[1..], true, false);
    }
  }

  lemma AppendAssoc(a: Str, b: Str, c: Str)
    ensures a + (b + c) == (a + b) + c
  {
  }

  /** One step of the scan, with the parts written so far in front. */
  lemma PairAdvance(s: Str, sawEquals: bool, sawBracket: bool, left: Str, right: Str)
    requires s != [] && s[0] != '\0' && (sawBracket || !(s[0] == '#' || s[0] == '\r' || s[0] == '\n'))
    ensures var st := PairStep(s[0], sawEquals, sawBracket);
            var lr := PairScan(s[1..], st.0, st.1);
            left + PairScan(s, sawEquals, sawBracket).0 == (left + st.2) + lr.0 &&
            right + PairScan(s, sawEquals, sawBracket).1 == (right + st.3) + lr.1
  {
    var st := PairStep(s[0], sawEquals, sawBracket);
    var lr := PairScan(s[1..], st.0, st.1);
    PairScanStep(s, sawEquals, sawBracket);
    AppendAssoc(left, st.2, lr.0);
    AppendAssoc(right, st.3, lr.1);
  }

  /** The character-level `key = value` tokenizer. It writes through its two
      output buffers one accepted character at a time and always returns 0. */
  method ParsePair(line: Str) returns (code: int, left: Str, right: Str)
    ensures code == 0
    ensures (left, right) == PairScan(line, false, false)
  {
    var sawEquals, sawBracket := false, false;
    left, right := [], [];
    var i := 0;
    ghost var whole := PairScan(line, false, false);
    assert line[0..] == line;
    while i < |line| && line[i] != '\0'
      invariant 0 <= i <= |line|
      invariant left + PairScan(line[i..], sawEquals, sawBracket).0 == whole.0
      invariant right + PairScan(line[i..], sawEquals, sawBracket).1 == whole.1
    {
      ghost var l0, r0, e0, b0 := left, right, sawEquals, sawBracket;
      var stop;
      sawEquals, sawBracket, left, right, stop := PairChar(line[i], sawEquals, sawBracket, left, right);
      if stop {
        assert PairScan(line[i..], e0, b0) == ([], []);
        break;
      }
      PairAdvance(line[i..], e0, b0, l0, r0);
      assert line[i..][1..] == line[i + 1..];
      i := i + 1;
    }
    assert PairScan(line[i..], sawEquals, sawBracket) == ([], []) by {
      if i == |line| {
        assert line[i..] == [];
      } else {
        assert line[i..][0] == line[i];
      }
    }
    assert left + [] == left && right + [] == right;
    code := 0;
  }

  /** One pass of the tokenizer's loop over the character `tc`: skip it
      inside brackets, stop at a comment or line end, open a bracket, drop
      blanks, note the `=`, and append anything else to the part the `=`
      selects. */
  method PairChar(tc: char, sawEquals: bool, sawBracket: bool, left: Str, right: Str)
    returns (sawEquals': bool, sawBracket': bool, left': Str, right': Str, stop: bool)
    ensures stop <==> !sawBracket && (tc == '#' || tc == '\r' || tc == '\n')
    ensures stop ==> sawEquals' == sawEquals && sawBracket' == sawBracket && left' == left && right' == right
    ensures !stop ==> var st := PairStep(tc, sawEquals, sawBracket);
                      sawEquals' == st.0 && sawBracket' == st.1 && left' == left + st.2 && right' == right + st.3
  {
    sawEquals', sawBracket', left', right', stop := sawEquals, sawBracket, left, right, false;
    if sawBracket {
      if tc == ']' {
        sawBracket' := false;
      }
      return;
    }
    if tc == '#' || tc == '\r' || tc == '\n' {
      stop := true;
      return;
    }
    if tc == '[' {
      sawBracket' := true;
      return;
    }
    if tc == ' ' || tc == '\t' {
      return;
    }
    if tc == '=' {
      sawEquals' := true;
      return;
    }
    if !sawEquals {
      left' := left + [tc];
    } else {
      right' := right + [tc];
    }
  }

  /** `a` is a subsequence of `b`. */
  predicate IsSubseq(a: Str, b: Str)
    decreases |b|
  {
    a == [] || (b != [] && (IsSubseq(a, b[1..]) || (a[0] == b[0] && IsSubseq(a[1..], b[1..]))))
  }

  lemma {:induction false} PairRightOnlyAfterEquals(s: Str, sawBracket: bool)
    ensures PairScan(s, true, sawBracket).0 == []
    decreases |s|
  {
    if s != [] && s[0] != '\0' {
      if sawBracket {
        PairRightOnlyAfterEquals(s[1..], s[0] != ']');
      } else if !(s[0] == '#' || s[0] == '\r' || s[0] == '\n') {
        PairRightOnlyAfterEquals(s[1..], s[0] == '[');
      }
    }
  }

  /** Left followed by right is a subsequence of the line: the tokenizer
      only drops characters and never reorders them. */
  lemma {:induction false} PairIsSubsequence(s: Str, sawEquals: bool, sawBracket: bool)
    ensures IsSubseq(PairScan(s, sawEquals, sawBracket).0 + PairScan(s, sawEquals, sawBracket).1, s)
    decreases |s|
  {
    var lr := PairScan(s, sawEquals, sawBracket);
    if s == [] || s[0] == '\0' {
    } else if sawBracket {
      PairIsSubsequence(s[1..], sawEquals, s[0] != ']');
    } else if s[0] == '#' || s[0] == '\r' || s[0] == '\n' {
    } else if s[0] == '[' {
      PairIsSubsequence(s[1..], sawEquals, true);
    } else if IsBlank(s[0]) {
      PairIsSubsequence(s[1..], sawEquals, false);
    } else if s[0] == '=' {
      PairIsSubsequence(s[1..], true, false);
    } else {
      var rest := PairScan(s[1..], sawEquals, false);
      PairIsSubsequence(s[1..], sawEquals, false);
      if sawEquals {
        PairRightOnlyAfterEquals(s[1..], false);
        assert lr.0 + lr.1 == [s[0]] + (rest.0 + rest.1);
      } else {
        assert lr.0 + lr.1 == [s[0]] + (rest.0 + rest.1);
      }
    }
  }

  /** Characters the tokenizer never keeps. */
  predicate IsPairSeparator(c: char) {
    c == ' ' || c == '\t' || c == '=' || c == '[' || c == '#' || c == '\r' || c == '\n' || c == '\0'
  }

  predicate NoSeparator(s: Str) {
    forall i :: 0 <= i < |s| ==> !IsPairSeparator(s[i])
  }

  /** Neither bucket ever holds a blank, a `=`, an opening bracket, a comment
      mark or a line end. */
  lemma {:induction false} PairDropsSeparators(s: Str, sawEquals: bool, sawBracket: bool)
    ensures NoSeparator(PairScan(s, sawEquals, sawBracket).0)
    ensures NoSeparator(PairScan(s, sawEquals, sawBracket).1)
    decreases |s|
  {
    if s == [] || s[0] == '\0' {
    } else if sawBracket {
      PairDropsSeparators(s[1..], sawEquals, s[0] != ']');
    } else if s[0] == '#' || s[0] == '\r' || s[0] == '\n' {
    } else if s[0] == '[' {
      PairDropsSeparators(s[1..], sawEquals, true);
    } else if IsBlank(s[0]) {
      PairDropsSeparators(s[1..], sawEquals, false);
    } else if s[0] == '=' {
      PairDropsSeparators(s[1..], true, false);
    } else {
      PairDropsSeparators(s[1..], sawEquals, false);
    }
  }

  /** Without an `=` sign everything goes to the left bucket. */
  lemma {:induction false} PairWithoutEquals(s: Str, sawBracket: bool)
    requires '=' !in s
    ensures PairScan(s, false, sawBracket).1 == []
    decreases |s|
  {
    if s != [] && s[0] != '\0' {
      if sawBracket {
        PairWithoutEquals(s[1..], s[0] != ']');
      } else if !(s[0] == '#' || s[0] == '\r' || s[0] == '\n') {
        PairWithoutEquals(s[1..], s[0] == '[');
      }
    }
  }

  /** A `#` outside brackets ends the line: what follows it is ignored. */
  lemma {:induction false} PairStopsAtComment(a: Str, b: Str, sawEquals: bool)
    requires '[' !in a
    ensures PairScan(a + ['#'] + b, sawEquals, false) == PairScan(a, sawEquals, false)
    decreases |a|
  {
    if a == [] {
    } else {
      assert (a + ['#'] + b)[1..] == a[1..] + ['#'] + b;
      if a[0] != '\0' && !(a[0] == '#' || a[0] == '\r' || a[0] == '\n') {
        PairStopsAtComment(a[1..], b, sawEquals || a[0] == '=');
      }
    }
  }

  lemma {:induction false} PairSkipsBracketBody(b: Str, c: Str, sawEquals: bool)
    requires ']' !in b && '\0' !in b
    ensures PairScan(b + [']'] + c, sawEquals, true) == PairScan(c, sawEquals, false)
    decreases |b|
  {
    if b == [] {
      assert ([']'] + c)[1..] == c;
    } else {
      assert (b + [']'] + c)[1..] == b[1..] + [']'] + c;
      PairSkipsBracketBody(b[1..], c, sawEquals);
    }
  }

  /** Text between `[` and `]` is a comment: removing it changes nothing. */
  lemma {:induction false} PairDropsBracketText(a: Str, b: Str, c: Str, sawEquals: bool)
    requires '[' !in a
    requires ']' !in b && '\0' !in b
    ensures PairScan(a + ['['] + b + [']'] + c, sawEquals, false) == PairScan(a + c, sawEquals, false)
    decreases |a|
  {
    if a == [] {
      assert a + ['['] + b + [']'] + c == ['['] + (b + [']'] + c);
      assert a + c == c;
      PairSkipsBracketBody(b, c, sawEquals);
    } else {
      assert (a + ['['] + b + [']'] + c)[1..] == a[1..] + ['['] + b + [']'] + c;
      assert (a + c)[1..] == a[1..] + c;
      if a[0] != '\0' && !(a[0] == '#' || a[0] == '\r' || a[0] == '\n') {
        PairDropsBracketText(a[1..], b, c, sawEquals || a[0] == '=');
      }
    }
  }

  /** `s` with its blanks and `=` signs removed. */
  function Squeeze(s: Str): (r: Str)
  {
    if s == [] then []
    else if IsBlank(s[0]) || s[0] == '=' then Squeeze(s[1..])
    else [s[0]] + Squeeze(s[1..])
  }

  /** Characters that end the scan or open a bracket comment. */
  predicate NoStopOrBracket(s: Str) {
    forall i :: 0 <= i < |s| ==> !(s[i] == '#' || s[i] == '\r' || s[i] == '\n' || s[i] == '\0' || s[i] == '[')
  }

  lemma {:induction false} PairSqueezes(s: Str, sawEquals: bool)
    requires NoStopOrBracket(s)
    requires !sawEquals ==> '=' !in s
    ensures PairScan(s, sawEquals, false) == if sawEquals then ([], Squeeze(s)) else (Squeeze(s), [])
    decreases |s|
  {
    if s != [] {
      PairSqueezes(s[1..], sawEquals);
    }
  }

  /** Reference behaviour on a plain assignment: the key is everything before
      the first `=` and the value everything after it, blanks (and further
      `=` signs) removed. */
  lemma {:induction false} PairSplitsAtEquals(a: Str, b: Str)
    requires NoStopOrBracket(a) && '=' !in a
    requires NoStopOrBracket(b)
    ensures PairScan(a + ['='] + b, false, false) == (Squeeze(a), Squeeze(b))
    decreases |a|
  {
    if a == [] {
      assert (['='] + b)[1..] == b;
      PairSqueezes(b, true);
    } else {
      assert (a + ['='] + b)[1..] == a[1..] + ['='] + b;
      PairSplitsAtEquals(a[1..], b);
    }
  }

  // ---------------------------------------------------------------------
  // IsWindowsModule

  /** File-name suffixes of probable Windows modules, which are never looked
      up as cells. */
  const ModuleSuffixes: set<Str> := {".dll", ".exe", ".ini", ".db", ".drv"}

  lemma {:induction false} CountConcat(a: Str, b: Str, c: char)
    ensures Count(a + b, c) == Count(a, c) + Count(b, c)
    decreases |a|
  {
    if a == [] {
      assert a + b == b;
    } else {
      assert (a + b)[1..] == a[1..] + b;
      CountConcat(a[1..], b, c);
    }
  }

  /** With `c` at index k, `c` occurs once exactly when it occurs neither
      before nor after k. */
  lemma CountOnceAt(s: Str, c: char, k: nat)
    requires k < |s| && s[k] == c
    ensures Count(s, c) == 1 <==> c !in s[..k] && c !in s[k+1..]
  {
    assert s == s[..k] + ([s[k]] + s[k+1..]);
    CountConcat(s[..k], [s[k]] + s[k+1..], c);
    CountConcat([s[k]], s[k+1..], c);
  }

  /** The probable-Windows-module filter applied to a cell name before any
      search: exactly one dot, and the text from that dot on is one of the
      module suffixes when A-Z are folded to lower case. */
  function IsWindowsModule(name: Str): (b: bool)
    requires NoNul(name)
    ensures b <==> exists k :: 0 <= k < |name| && name[k] == '.' && '.' !in name[..k] && '.' !in name[k+1..]
                                && Lower(name[k..]) in ModuleSuffixes
  {
    var k := LastIndexOf(name, '.');
    if k < |name| then
      CountOnceAt(name, '.', k);
      Count(name, '.') == 1 && Lower(name[k..]) in ModuleSuffixes
    else
      false
  }

  /** A name with two dots is never a module name, whatever its suffix. */
  lemma TwoDotsNotModule(a: Str, b: Str, c: Str)
    requires NoNul(a + ['.'] + b + ['.'] + c)
    ensures !IsWindowsModule(a + ['.'] + b + ['.'] + c)
  {
    var s := a + ['.'] + b + ['.'] + c;
    assert s == (a + ['.'] + b) + (['.'] + c);
    CountConcat(a + ['.'] + b, ['.'] + c, '.');
    CountConcat(a + ['.'], b, '.');
    CountConcat(a, ['.'], '.');
    CountConcat(['.'], c, '.');
    assert Count(['.'], '.') == 1;
    assert Count(s, '.') >= 2;
  }
}
