/** The split of a `>cell [linked] #description` header line. The search
    scans the 257-character line buffer for white space with a loop whose
    only other stop test is that the scan position is not NULL, so the scan does not end
    at the line's terminating NUL: it goes on through whatever an earlier
    line left in the buffer, and past the buffer when that holds no white
    space. `ScanHeaderAsWritten` models that scan over the whole buffer;
    `CellSearch.ParseHeader`, which the search uses, stops at the end of
    the line. */
module HeaderScan {
  import opened CString
  import opened Options
  import opened CellSearch

  const LineBufferLen: nat := 257

  /** The header split as written, over the line buffer: None when a scan
      runs past the end of the buffer. The name is the C string from index
      1 to the first white space (where a NUL is stored); after more white
      space a word not starting with `#` is the linked name, again as the C
      string it starts. */
  function ScanHeaderAsWritten(buf: Str): (r: Option<Header>)
    requires |buf| == LineBufferLen && buf[0] == '>'
  {
    var k := 1 + SpanNonSpace(buf[1..]);
    if k == |buf| then None
    else
      match LinkAsWritten(buf, k + 1)
      case None => None
      case Some(link) => Some(Header(CStr(buf[1..k]), link))
  }

  /** The linked-name part of the scan, from just after the NUL stored in
      place of the first white space. */
  function LinkAsWritten(buf: Str, from: nat): (r: Option<Str>)
    requires from <= |buf|
  {
    var m := from + SpanSpace(buf[from..]);
    if m == |buf| then None
    else if buf[m] == '#' then Some([])
    else
      var e := m + SpanNonSpace(buf[m..]);
      if e == |buf| then None else Some(CStr(buf[m..e]))
  }

  /** The buffer after a line is read and stripped: the line, its NUL, and
      what earlier lines left behind. */
  predicate HoldsLine(buf: Str, l: Str) {
    |buf| == LineBufferLen && NoNul(l) && |l| < |buf| && buf[..|l|] == l && buf[|l|] == '\0'
  }

  /** A one-word header `>w` read into a buffer that still holds, after
      the line's NUL, text `d` without white space (NULs included), a space
      and a word `o` that a longer earlier line left there. For `>abc` read
      after `1.2.23.4 other #h`, `d` is `3.4` when the header has no line
      end, and a NUL and `.4` when its line end was cut; `o` is `other`. The
      scan runs on past the end of the line and reports `o` as the linked
      cell, where the line names none. */
  lemma StaleLinkedName(w: Str, d: Str, o: Str, rest: Str)
    requires Word(w) && Word(o) && o[0] != '#'
    requires forall i :: 0 <= i < |d| ==> !IsSpace(d[i])
    requires |w| + |d| + |o| + |rest| + 3 == LineBufferLen
    requires rest != [] && IsSpace(rest[0])
    ensures var buf := StaleBuffer(w, d, o, rest);
            HoldsLine(buf, ">" + w) &&
            ScanHeaderAsWritten(buf) == Some(Header(w, o)) &&
            ParseHeader(w) == Header(w, [])
  {
    var buf := StaleBuffer(w, d, o, rest);
    var k := 2 + |w| + |d|;
    Layout(w, d, o, rest);
    assert SpanNonSpace(buf[1..]) == k - 1 by {
      var t := buf[1..];
      assert forall i :: 0 <= i < k - 1 ==> !IsSpace(t[i]) by {
        forall i | 0 <= i < k - 1
          ensures !IsSpace(t[i])
        {
          if i < |w| {
            assert t[i] == w[i];
          } else if i > |w| {
            assert t[i] == d[i - |w| - 1];
          }
        }
      }
      SpanNonSpaceStops(t, k - 1);
    }
    assert SpanNonSpace(buf[k + 1..]) == |o| by {
      var v := buf[k + 1..];
      assert forall i :: 0 <= i < |o| ==> v[i] == o[i];
      SpanNonSpaceStops(v, |o|);
    }
    ScanAt(buf, k, k + 1, k + 1 + |o|);
    CStrStops(w, "\0" + d);
    CStrOfNoNul(o);
    HeaderNameOnly(w);
  }

  /** `>abc`, with no line end, read over `1.2.23.4 other #h`: the server line's `3.4 other`
      is still in the buffer after the header's NUL. */
  lemma StaleLinkedNameExample()
    ensures var buf := StaleBuffer("abc", "3.4", "other", " #h" + seq(240, i => '\0'));
            HoldsLine(buf, ">abc") && ScanHeaderAsWritten(buf) == Some(Header("abc", "other"))
  {
    StaleLinkedName("abc", "3.4", "other", " #h" + seq(240, i => '\0'));
  }

  /** `>abc` followed by a line end, read over the same server line: the
      line end is cut to a second NUL, and the scan runs over both NULs into
      `.4 other`. */
  lemma StaleLinkedNameAfterLineEnd()
    ensures var buf := StaleBuffer("abc", "\0.4", "other", " #h" + seq(240, i => '\0'));
            HoldsLine(buf, ">abc") && ScanHeaderAsWritten(buf) == Some(Header("abc", "other"))
  {
    StaleLinkedName("abc", "\0.4", "other", " #h" + seq(240, i => '\0'));
  }

  /** The header line `>w` with its NUL, followed by what an earlier line
      left: `d`, a space, `o` and the rest. */
  function StaleBuffer(w: Str, d: Str, o: Str, rest: Str): Str {
    ">" + w + "\0" + d + " " + o + rest
  }

  lemma Layout(w: Str, d: Str, o: Str, rest: Str)
    ensures var buf, k := StaleBuffer(w, d, o, rest), 2 + |w| + |d|;
            |buf| == k + 1 + |o| + |rest| &&
            buf[..|w| + 1] == ">" + w && buf[|w| + 1] == '\0' &&
            buf[1..k] == w + ("\0" + d) && buf[k] == ' ' &&
            buf[k + 1..] == o + rest && buf[k + 1..k + 1 + |o|] == o &&
            (forall i :: 0 <= i < |w| ==> buf[1..][i] == w[i]) &&
            (forall i :: |w| < i < k - 1 ==> buf[1..][i] == d[i - |w| - 1]) &&
            buf[1..][|w|] == '\0' && buf[1..][k - 1] == ' '
  {
    var buf, k := StaleBuffer(w, d, o, rest), 2 + |w| + |d|;
    assert buf[1..k] == w + ("\0" + d);
    assert buf[k + 1..] == o + rest;
  }

  /** The scan as written, given where its three loops stop. */
  lemma ScanAt(buf: Str, k: nat, m: nat, e: nat)
    requires |buf| == LineBufferLen && buf[0] == '>'
    requires 1 <= k < m <= e < |buf|
    requires SpanNonSpace(buf[1..]) == k - 1
    requires SpanSpace(buf[k + 1..]) == m - k - 1
    requires buf[m] != '#'
    requires SpanNonSpace(buf[m..]) == e - m
    ensures ScanHeaderAsWritten(buf) == Some(Header(CStr(buf[1..k]), CStr(buf[m..e])))
  {
    LinkAt(buf, k + 1, m, e);
  }

  /** The linked-name part of the scan, given where its two loops stop. */
  lemma LinkAt(buf: Str, from: nat, m: nat, e: nat)
    requires from <= m <= e < |buf|
    requires SpanSpace(buf[from..]) == m - from
    requires buf[m] != '#'
    requires SpanNonSpace(buf[m..]) == e - m
    ensures LinkAsWritten(buf, from) == Some(CStr(buf[m..e]))
  {
  }

  /** A scan of white space that finds none in the rest of the buffer reads
      past its end. */
  lemma ScanLeavesBuffer(buf: Str)
    requires |buf| == LineBufferLen && buf[0] == '>'
    requires forall i :: 1 <= i < |buf| ==> !IsSpace(buf[i])
    ensures ScanHeaderAsWritten(buf) == None
  {
    SpanNonSpaceAll(buf[1..]);
  }

  /** The cell name itself comes out as the line gives it: it is only the
      linked name that the scan takes from beyond the line. */
  lemma NameAgrees(buf: Str, l: Str)
    requires HoldsLine(buf, l) && IsHeader(l)
    ensures ScanHeaderAsWritten(buf).Some? ==> ScanHeaderAsWritten(buf).value.name == ParseHeader(l[1..]).name
  {
    LineAfterMark(buf, l);
    NameOfScan(buf[1..], l[1..]);
    ScanName(buf);
  }

  /** After its `>`, the buffer holds the rest of the line and its NUL. */
  lemma LineAfterMark(buf: Str, l: Str)
    requires HoldsLine(buf, l) && IsHeader(l)
    ensures buf[0] == '>' && buf[1..][..|l| - 1] == l[1..] && buf[1..][|l| - 1] == '\0'
  {
    assert buf[0] == l[0];
  }

  /** The name the scan as written reports is the C string up to the
      first white space after the `>`. */
  lemma ScanName(buf: Str)
    requires |buf| == LineBufferLen && buf[0] == '>'
    ensures ScanHeaderAsWritten(buf).Some? ==>
              ScanHeaderAsWritten(buf).value.name == CStr(buf[1..][..SpanNonSpace(buf[1..])])
  {
    var k := 1 + SpanNonSpace(buf[1..]);
    assert buf[1..k] == buf[1..][..k - 1];
  }

  /** The name the scan of `t` leaves, where `t` holds the line `h` and
      its NUL. */
  lemma NameOfScan(t: Str, h: Str)
    requires NoNul(h) && |h| < |t| && t[..|h|] == h && t[|h|] == '\0'
    ensures CStr(t[..SpanNonSpace(t)]) == ParseHeader(h).name
  {
    var k0 := SpanNonSpace(h);
    ParseHeaderName(h);
    if k0 < |h| {
      SpanNonSpacePrefix(t, h, k0);
      assert t[..k0] == h[..k0];
      CStrOfNoNul(h[..k0]);
    } else {
      NulEndsName(t, h);
    }
  }

  /** A line with no white space: the scan of the buffer runs past its NUL,
      and the C string stops there. */
  lemma NulEndsName(t: Str, h: Str)
    requires NoNul(h) && |h| < |t| && t[..|h|] == h && t[|h|] == '\0'
    requires SpanNonSpace(h) == |h|
    ensures CStr(t[..SpanNonSpace(t)]) == h[..|h|]
  {
    assert forall i :: 0 <= i < |h| ==> t[i] == h[i];
    SpanNonSpaceAtLeast(t, |h| + 1);
    var k := SpanNonSpace(t);
    assert t[..k] == h + t[|h|..k];
    CStrStops(h, t[|h|..k]);
    assert h[..|h|] == h;
  }

  /** The name `ParseHeader` gives is the text up to the first white space. */
  lemma ParseHeaderName(h: Str)
    ensures ParseHeader(h).name == h[..SpanNonSpace(h)]
  {
    if SpanNonSpace(h) == |h| {
      assert h[..|h|] == h;
    }
  }

  // ---------------------------------------------------------------------
  // The intended split, on well-formed header lines

  predicate Word(w: Str) {
    w != [] && forall i :: 0 <= i < |w| ==> !IsSpace(w[i]) && w[i] != '\0'
  }

  /** `>cell`: the name and no linked cell. */
  lemma HeaderNameOnly(name: Str)
    requires Word(name)
    ensures ParseHeader(name) == Header(name, [])
  {
    SpanNonSpaceAll(name);
  }

  /** `>cell #description`: the name and no linked cell. */
  lemma HeaderWithComment(name: Str, sp: Str, comment: Str)
    requires Word(name) && sp != [] && forall i :: 0 <= i < |sp| ==> IsSpace(sp[i])
    ensures ParseHeader(name + sp + "#" + comment) == Header(name, [])
  {
    var tail := sp[1..] + ("#" + comment);
    assert name + sp + "#" + comment == name + [sp[0]] + tail;
    NameThenSpace(name, sp[0], tail);
    SpacesThenWord(sp[1..], "#" + comment);
  }

  /** `>cell linked [#description]`: the name and the linked cell. */
  lemma HeaderWithLink(name: Str, sp: Str, link: Str, rest: Str)
    requires Word(name) && Word(link) && link[0] != '#'
    requires sp != [] && forall i :: 0 <= i < |sp| ==> IsSpace(sp[i])
    requires rest == [] || IsSpace(rest[0])
    ensures ParseHeader(name + sp + link + rest) == Header(name, link)
  {
    var tail := sp[1..] + (link + rest);
    assert name + sp + link + rest == name + [sp[0]] + tail;
    NameThenSpace(name, sp[0], tail);
    SpacesThenWord(sp[1..], link + rest);
    WordThenEnd(link, rest);
  }

  /** A word and one white-space character: the name scan stops between
      them. */
  lemma NameThenSpace(name: Str, c: char, tail: Str)
    requires Word(name) && IsSpace(c)
    ensures var h := name + [c] + tail;
            SpanNonSpace(h) == |name| < |h| && h[..|name|] == name && h[|name| + 1..] == tail
  {
    var h := name + [c] + tail;
    assert h[..|name|] == name && h[|name|] == c;
    SpanNonSpaceStops(h, |name|);
    assert h[|name| + 1..] == tail;
  }

  /** White space and then text that starts with something else: the
      white-space scan stops at the text. */
  lemma SpacesThenWord(sp: Str, w: Str)
    requires forall i :: 0 <= i < |sp| ==> IsSpace(sp[i])
    requires w != [] && !IsSpace(w[0])
    ensures (sp + w)[SpanSpace(sp + w)..] == w
  {
    var u := sp + w;
    assert u[|sp|] == w[0];
    SpanSpaceStops(u, |sp|);
    assert u[|sp|..] == w;
  }

  /** A word followed by nothing or by white space: the scan takes exactly
      the word. */
  lemma WordThenEnd(w: Str, rest: Str)
    requires Word(w)
    requires rest == [] || IsSpace(rest[0])
    ensures (w + rest)[..SpanNonSpace(w + rest)] == w
  {
    var v := w + rest;
    assert v[..|w|] == w;
    if rest == [] {
      assert v == w;
      SpanNonSpaceAll(v);
    } else {
      assert v[|w|] == rest[0];
      SpanNonSpaceStops(v, |w|);
    }
  }

  // ---------------------------------------------------------------------
  // Scans

  lemma SpanNonSpaceStops(s: Str, k: nat)
    requires k < |s| && IsSpace(s[k]) && forall i :: 0 <= i < k ==> !IsSpace(s[i])
    ensures SpanNonSpace(s) == k
  {
  }

  lemma SpanNonSpaceAll(s: Str)
    requires forall i :: 0 <= i < |s| ==> !IsSpace(s[i])
    ensures SpanNonSpace(s) == |s|
  {
  }

  lemma SpanNonSpaceAtLeast(s: Str, n: nat)
    requires n <= |s| && forall i :: 0 <= i < n ==> !IsSpace(s[i])
    ensures SpanNonSpace(s) >= n
  {
  }

  /** A prefix of `s` that stops at white space decides the scan of `s`. */
  lemma SpanNonSpacePrefix(s: Str, h: Str, k: nat)
    requires |h| <= |s| && s[..|h|] == h && k == SpanNonSpace(h) && k < |h|
    ensures SpanNonSpace(s) == k
  {
    assert s[k] == h[k];
    SpanNonSpaceStops(s, k);
  }

  lemma SpanSpaceStops(s: Str, k: nat)
    requires k < |s| && !IsSpace(s[k]) && forall i :: 0 <= i < k ==> IsSpace(s[i])
    ensures SpanSpace(s) == k
  {
  }

  lemma CStrStops(s: Str, rest: Str)
    requires NoNul(s) && rest != [] && rest[0] == '\0'
    ensures CStr(s + rest) == s
  {
    if s == [] {
      assert (s + rest)[0] == '\0';
    } else {
      assert (s + rest)[1..] == s[1..] + rest;
      CStrStops(s[1..], rest);
    }
  }
}
