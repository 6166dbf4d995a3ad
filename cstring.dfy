/** C string conventions shared by the CellServDB code: a string is the
    characters before the first NUL, `strlwr` folds only A-Z, `isspace` is
    the C-locale set, and `strncpy(d, s, n); d[n-1] = 0` keeps the first
    n-1 characters. */
module CString {

  type Str = seq<char>

  /** A C string never holds its own terminator. */
  predicate NoNul(s: Str) {
    '\0' !in s
  }

  /** The C string held by a raw buffer: everything before the first NUL. */
  function CStr(raw: Str): (s: Str)
    ensures NoNul(s)
    ensures s <= raw
    ensures |s| < |raw| ==> raw[|s|] == '\0'
  {
    if raw == [] || raw[0] == '\0' then [] else [raw[0]] + CStr(raw[1..])
  }

  /** `isspace` in the C locale. */
  predicate IsSpace(c: char) {
    c == ' ' || c == '\t' || c == '\n' || c == '\r' || c == '\U{0B}' || c == '\U{0C}'
  }

  predicate IsBlank(c: char) {
    c == ' ' || c == '\t'
  }

  predicate IsDigit(c: char) {
    '0' <= c <= '9'
  }

  /** What `strlwr` does to one character. */
  function ToLower(c: char): (d: char)
    ensures 'A' <= c <= 'Z' ==> d as int == c as int + 32
    ensures !('A' <= c <= 'Z') ==> d == c
  {
    if 'A' <= c <= 'Z' then (c as int + 32) as char else c
  }

  function Lower(s: Str): (r: Str)
    ensures |r| == |s|
    ensures forall i :: 0 <= i < |s| ==> r[i] == ToLower(s[i])
  {
    if s == [] then [] else [ToLower(s[0])] + Lower(s[1..])
  }

  predicate IsLowerCase(s: Str) {
    forall i :: 0 <= i < |s| ==> !('A' <= s[i] <= 'Z')
  }

  lemma LowerIsLowerCase(s: Str)
    ensures IsLowerCase(Lower(s))
  {
  }

  lemma LowerKeepsNoNul(s: Str)
    requires NoNul(s)
    ensures NoNul(Lower(s))
  {
  }

  /** A string with no NUL is its own C string. */
  lemma CStrOfNoNul(s: Str)
    requires NoNul(s)
    ensures CStr(s) == s
  {
    if s != [] {
      CStrOfNoNul(s[1..]);
    }
  }

  /** `strncpy(d, s, n); d[n-1] = '\0'` for a buffer of n characters. */
  function Take(s: Str, n: nat): (r: Str)
    ensures r <= s
    ensures |r| == if |s| <= n then |s| else n
  {
    if |s| <= n then s else s[..n]
  }

  /** Index of the first `c` in `s`, or |s| when there is none (`strchr`). */
  function IndexOf(s: Str, c: char): (k: nat)
    ensures k <= |s|
    ensures c !in s[..k]
    ensures k < |s| ==> s[k] == c
  {
    if s == [] then 0 else if s[0] == c then 0 else 1 + IndexOf(s[1..], c)
  }

  /** `tp = strchr(s, c); if (tp) *tp = 0;` */
  function CutAtFirst(s: Str, c: char): (r: Str)
    ensures r <= s
    ensures c !in r
    ensures c !in s ==> r == s
  {
    s[..IndexOf(s, c)]
  }

  /** Index of the last `c` in `s`, or |s| when there is none (`strrchr`). */
  function LastIndexOf(s: Str, c: char): (k: nat)
    ensures k <= |s|
    ensures k < |s| ==> s[k] == c && c !in s[k+1..]
    ensures k == |s| ==> c !in s
  {
    if s == [] then 0
    else if s[|s|-1] == c then |s| - 1
    else
      var k := LastIndexOf(s[..|s|-1], c);
      if k == |s| - 1 then |s| else k
  }

  /** `tp = strrchr(s, c); if (tp) *tp = 0;` */
  function CutAtLast(s: Str, c: char): (r: Str)
    ensures r <= s
    ensures c !in s ==> r == s
  {
    s[..LastIndexOf(s, c)]
  }

  /** Number of occurrences of `c`. */
  function Count(s: Str, c: char): (n: nat)
    ensures n <= |s|
    ensures n == 0 <==> c !in s
  {
    if s == [] then 0 else (if s[0] == c then 1 else 0) + Count(s[1..], c)
  }

  /** Characters of `s` after any leading spaces and tabs (`s + strspn(s, " \t")`). */
  function SkipBlanks(s: Str): (r: Str)
    ensures |r| <= |s| && r == s[|s| - |r|..]
    ensures r != [] ==> !IsBlank(r[0])
  {
    if s != [] && IsBlank(s[0]) then SkipBlanks(s[1..]) else s
  }

  /** `s` without its trailing spaces and tabs. */
  function TrimTrailingBlanks(s: Str): (r: Str)
    ensures r <= s
    ensures r != [] ==> !IsBlank(r[|r| - 1])
  {
    if s != [] && IsBlank(s[|s| - 1]) then TrimTrailingBlanks(s[..|s| - 1]) else s
  }

  /** Is `p` a prefix of `s`: what `strncmp(p, s, strlen(p)) == 0` decides. */
  predicate IsPrefix(p: Str, s: Str) {
    |p| <= |s| && s[..|p|] == p
  }
}
