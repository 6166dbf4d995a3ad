/** The full name of the CellServDB file: the client's configuration
    directory, a backslash when the directory does not end in one, and the
    file name, all inside a caller buffer of `len` characters (NUL
    included). Each step is modelled with the buffer text it leaves and the
    highest index it writes, so that staying inside the buffer is a
    property of the model. */
module CellServDBPath {
  import opened CString
  import opened Options

  const CellServDBName: Str := "CellServDB"

  /** The file name the client is configured with. */
  function Intended(dir: Str): (p: Str)
  {
    if dir == [] then []
    else if dir[|dir| - 1] == '\\' then dir + CellServDBName
    else dir + "\\" + CellServDBName
  }

  /** A buffer's text and the highest index written into it so far. */
  datatype Buffer = Buffer(text: Str, high: nat)

  /** The configuration directory copied into the buffer with
      `strncpy(dir, dirp, len); dir[len-1] = '\0'`, or the empty string when
      the registry holds no directory. */
  function GetConfigDir(dirp: Option<Str>, len: nat): (b: Buffer)
    requires len >= 1
    ensures |b.text| <= len - 1 && b.high <= len - 1
    ensures NoNul(b.text)
    ensures dirp.None? ==> b.text == []
    ensures dirp.Some? ==> b.text == Take(CStr(dirp.value), len - 1)
  {
    match dirp
    case None => Buffer([], 0)
    case Some(d) => Buffer(Take(CStr(d), len - 1), len - 1)
  }

  /** `strncat(dst, src, len); dst[len-1] = '\0'` as the source writes it:
      strncat copies up to `len` characters after the existing text and then
      a NUL, so the bound is the whole buffer, not the room left in it. */
  function CatAsWritten(b: Buffer, src: Str, len: nat): (r: Buffer)
    requires len >= 1 && |b.text| <= len - 1
  {
    var t := Take(src, len);
    Buffer(Take(b.text + t, len - 1), Max(Max(b.high, |b.text| + |t|), len - 1))
  }

  /** `strncat(dst, src, len - 1 - strlen(dst))`: the bounded append the
      buffer size calls for. */
  function Cat(b: Buffer, src: Str, len: nat): (r: Buffer)
    requires len >= 1 && |b.text| <= len - 1 && b.high <= len - 1
    ensures r.high <= len - 1 && |r.text| <= len - 1
    ensures r.text == Take(b.text + src, len - 1)
  {
    var t := Take(src, len - 1 - |b.text|);
    Buffer(b.text + t, Max(b.high, |b.text| + |t|))
  }

  function Max(a: nat, b: nat): nat {
    if a < b then b else a
  }

  /** The path builder as written. */
  function GetCellServDBAsWritten(dirp: Option<Str>, len: nat): (b: Buffer)
    requires len >= 1
  {
    JoinAsWritten(GetConfigDir(dirp, len), len)
  }

  function JoinAsWritten(d: Buffer, len: nat): (b: Buffer)
    requires len >= 1 && |d.text| <= len - 1
  {
    if d.text == [] then d
    else
      var d1 := if d.text[|d.text| - 1] != '\\' then CatAsWritten(d, "\\", len) else d;
      CatAsWritten(d1, CellServDBName, len)
  }

  /** The path builder with the append bounded by the room left. */
  function GetCellServDB(dirp: Option<Str>, len: nat): (b: Buffer)
    requires len >= 1
    ensures b.high <= len - 1
    ensures b.text == Take(Intended(GetConfigDir(dirp, len).text), len - 1)
  {
    Join(GetConfigDir(dirp, len), len)
  }

  /** The separator and file-name appends on a directory already in the
      buffer. */
  function Join(d: Buffer, len: nat): (b: Buffer)
    requires len >= 1 && |d.text| <= len - 1 && d.high <= len - 1
    ensures b.high <= len - 1
    ensures b.text == Take(Intended(d.text), len - 1)
  {
    if d.text == [] then d
    else if d.text[|d.text| - 1] != '\\' then
      var d1 := Cat(d, "\\", len);
      TakeAppend(d.text + "\\", CellServDBName, len - 1);
      assert d.text + "\\" + CellServDBName == d.text + ("\\" + CellServDBName);
      Cat(d1, CellServDBName, len)
    else
      Cat(d, CellServDBName, len)
  }

  lemma TakeAppend(a: Str, b: Str, n: nat)
    ensures Take(Take(a, n) + b, n) == Take(a + b, n)
  {
    if |a| > n {
      assert (a + b)[..n] == a[..n];
    }
  }

  /** The path fits the buffer and is the configured name whenever that
      fits; an empty directory gives an empty path. */
  lemma CellServDBPathShape(dirp: Option<Str>, len: nat)
    requires len >= 1
    ensures |GetCellServDB(dirp, len).text| <= len - 1
    ensures GetConfigDir(dirp, len).text == [] ==> GetCellServDB(dirp, len).text == []
    ensures |Intended(GetConfigDir(dirp, len).text)| <= len - 1 ==>
              GetCellServDB(dirp, len).text == Intended(GetConfigDir(dirp, len).text)
  {
  }

  /** The bounded builder leaves the same text as the one written, so the
      only difference is where the written one stores its NULs. */
  lemma SameTextAsWritten(dirp: Option<Str>, len: nat)
    requires len >= 1
    ensures GetCellServDBAsWritten(dirp, len).text == GetCellServDB(dirp, len).text
  {
    JoinSameText(GetConfigDir(dirp, len), len);
  }

  lemma JoinSameText(d: Buffer, len: nat)
    requires len >= 1 && |d.text| <= len - 1 && d.high <= len - 1
    ensures JoinAsWritten(d, len).text == Join(d, len).text
  {
    if d.text != [] {
      if d.text[|d.text| - 1] != '\\' {
        var d1 := CatAsWritten(d, "\\", len);
        CatAsWrittenText(d, "\\", len);
        CatAsWrittenText(d1, CellServDBName, len);
        TakeAppend(d.text + "\\", CellServDBName, len - 1);
      } else {
        CatAsWrittenText(d, CellServDBName, len);
      }
    }
  }

  /** The bound as written cuts the source at the whole buffer, which is
      never less than the room the final cut leaves, so the text is the
      same as with the bounded append. */
  lemma CatAsWrittenText(b: Buffer, src: Str, len: nat)
    requires len >= 1 && |b.text| <= len - 1
    ensures CatAsWritten(b, src, len).text == Take(b.text + src, len - 1)
  {
    if |src| > len {
      assert (b.text + src[..len])[..len - 1] == (b.text + src)[..len - 1];
    }
  }

  /** The builder as written stays inside the buffer exactly when the
      configured name fits: every truncation is also a write past the end. */
  lemma AsWrittenInBoundsOnlyWhenItFits(d: Buffer, len: nat)
    requires len >= 1 && |d.text| <= len - 1 && d.high <= len - 1
    ensures JoinAsWritten(d, len).high <= len - 1 <==> |Intended(d.text)| <= len - 1
  {
  }

  /** With the default MAX_PATH buffer of 260 characters and a configured
      directory of 259 characters, the builder as written stores a NUL at
      index 269, nine characters past the end of the buffer. */
  lemma AsWrittenOverrunsBuffer()
    ensures var dir := seq(259, i => 'a');
            GetCellServDBAsWritten(Some(dir), 260).high == 269
  {
    var dir := seq(259, i => 'a');
    assert CStr(dir) == dir by {
      assert NoNul(dir);
      CStrOfNoNul(dir);
    }
  }
}
