/** The CellServDB file search: a line-at-a-time state machine over the
    file's lines that finds the block of a named cell (by exact match, or
    by a looser match it goes back to at end of file), reports the block's
    servers and the cell's real and linked names, and gives a distinct code
    for each way it can fail.

    The two file handles on the same file are indices into the sequence of
    lines; each line is one `fgets` result. Host-name resolution and the
    looser (UTF-8 case-insensitive) name comparison are oracles; the exact
    comparison folds A-Z. The server callback is the list of servers
    reported.

    Each line read is stripped and classified once (`Classify`); the state
    machine runs over the classified lines. It sees the server lookup as a
    function from a server line to the server it yields, which
    `ServerLookup` builds from host-name resolution and the dotted-quad
    fall-back. */
module CellSearch {
  import opened CString
  import opened Options
  import opened Address
  import opened CellConfig

  datatype Server = Server(addr: Addr, name: Str)

  /** What the search does not compute itself: the requested name, the
      file's lines, the looser name comparison and the server a server line
      yields. */
  datatype Ctx = Ctx(cellName: Str, lines: seq<Line>, loose: Str -> bool, lookup: Str -> Option<Server>)

  /** Positions of the two handles and the search flags, with what has been
      written to the caller's name buffers and reported so far. */
  datatype State = State(t: nat, b: nat, tracking: bool, inRightCell: bool, foundCell: bool, partial: bool,
                         newName: Option<Str>, linked: Option<Str>, servers: seq<Server>)

  datatype Result = Result(code: int, newName: Option<Str>, linked: Option<Str>, servers: seq<Server>)

  // ---------------------------------------------------------------------
  // One line

  /** The line buffer after the trailing CR and LF are cut at their last
      occurrence. */
  function TrimLine(raw: Str): (l: Str)
    ensures NoNul(l)
  {
    CutAtLast(CutAtLast(CStr(raw), '\r'), '\n')
  }

  /** Length of the leading run of non-white-space characters. */
  function SpanNonSpace(s: Str): (k: nat)
    ensures k <= |s|
    ensures forall i :: 0 <= i < k ==> !IsSpace(s[i])
    ensures k < |s| ==> IsSpace(s[k])
  {
    if s != [] && !IsSpace(s[0]) then 1 + SpanNonSpace(s[1..]) else 0
  }

  /** Length of the leading run of white space. */
  function SpanSpace(s: Str): (k: nat)
    ensures k <= |s|
    ensures forall i :: 0 <= i < k ==> IsSpace(s[i])
    ensures k < |s| ==> !IsSpace(s[k])
  {
    if s != [] && IsSpace(s[0]) then 1 + SpanSpace(s[1..]) else 0
  }

  /** A `>cell [linked] #description` line, split after its `>`. */
  datatype Header = Header(name: Str, link: Str)

  /** The cell name runs to the first white space; after more white space a
      word that does not start with `#` is the linked cell. Both stop at the
      end of the line. */
  function ParseHeader(h: Str): (r: Header)
    ensures r.name <= h && (|r.name| < |h| ==> IsSpace(h[|r.name|]))
    ensures forall i :: 0 <= i < |r.name| ==> !IsSpace(r.name[i])
    ensures forall i :: 0 <= i < |r.link| ==> !IsSpace(r.link[i])
    ensures r.link != [] ==> r.link[0] != '#'
  {
    var k := SpanNonSpace(h);
    if k == |h| then Header(h, [])
    else
      var u := h[k + 1..];
      var v := u[SpanSpace(u)..];
      if v != [] && v[0] != '#' then Header(h[..k], v[..SpanNonSpace(v)]) else Header(h[..k], [])
  }

  predicate IsHeader(l: Str) {
    l != [] && l[0] == '>'
  }

  /** A server line: anything else that is not blank and has a `#`. */
  predicate IsServerLine(l: Str) {
    l != [] && l[0] != '>' && '#' in l
  }

  /** The host name of a server line: after the first `#`, without leading
      or trailing spaces and tabs. */
  function ServerValue(l: Str): (v: Str)
    requires '#' in l
  {
    TrimTrailingBlanks(SkipBlanks(l[IndexOf(l, '#') + 1..]))
  }

  /** The server a server line yields: its host name resolved, or failing
      that, the dotted quad at the start of the line; nothing if neither
      works. */
  function LookupServer(resolve: Str -> Option<Addr>, l: Str): (r: Option<Server>)
    requires '#' in l
    ensures r.Some? ==> r.value.name == ServerValue(l)
  {
    var v := ServerValue(l);
    match resolve(v)
    case Some(a) => Some(Server(a, v))
    case None =>
      match ParseDottedQuad(l)
      case Some(a) => Some(Server(a, v))
      case None => None
  }

  /** The lookup the search is given: LookupServer on lines with a `#`. */
  function ServerLookup(resolve: Str -> Option<Addr>): (f: Str -> Option<Server>)
    ensures forall l :: '#' in l ==> f(l) == LookupServer(resolve, l)
  {
    l => if '#' in l then LookupServer(resolve, l) else None
  }

  /** `stricmp(name, cellName) == 0`. */
  predicate Exact(cellName: Str, name: Str) {
    Lower(name) == Lower(cellName)
  }

  /** A line once its CR and LF are cut: blank, a cell header with its
      names, a server line (kept whole: the host name follows its `#` and the
      dotted-quad fall-back reads its start), or a line with neither `>` nor
      `#`. */
  datatype Line = Blank | Hdr(h: Header) | Srv(text: Str) | Malformed

  function Classify(raw: Str): (k: Line)
    ensures k.Srv? ==> '#' in k.text
  {
    var l := TrimLine(raw);
    if l == [] then Blank
    else if l[0] == '>' then Hdr(ParseHeader(l[1..]))
    else if '#' in l then Srv(l)
    else Malformed
  }

  /** The classified lines of a file. */
  function Lines(raws: seq<Str>): (ls: seq<Line>)
    ensures |ls| == |raws| && forall i :: 0 <= i < |raws| ==> ls[i] == Classify(raws[i])
  {
    seq(|raws|, i requires 0 <= i < |raws| => Classify(raws[i]))
  }

  lemma LineAt(raws: seq<Str>, i: nat)
    requires i < |raws|
    ensures Lines(raws)[i] == Classify(raws[i])
  {
  }

  // ---------------------------------------------------------------------
  // The whole search

  predicate Bounded(c: Ctx, s: State) {
    s.t <= |c.lines| && s.b <= |c.lines|
  }

  /** 0 once the search is in the block it will finish with, 1 before. */
  function Phase(s: State): nat {
    if s.inRightCell && !s.partial then 0 else 1
  }

  function Finish(s: State, code: int): Result {
    Result(code, s.newName, s.linked, s.servers)
  }

  /** What one pass of the loop does: finish with a result, or go on from a
      new state. */
  datatype Step = Done(r: Result) | Next(s: State)

  /** The loop's progress measure decreases from `s` to `s'`. */
  predicate Progress(c: Ctx, s': State, s: State) {
    Phase(s') < Phase(s) || (Phase(s') == Phase(s) && |c.lines| - s'.t < |c.lines| - s.t)
  }

  /** One pass of the search loop: read a line from each handle (the second
      only while tracking), go back to the looser match at end of file, and
      otherwise classify the line as blank, header or server line. */
  function StepOf(c: Ctx, s: State): (st: Step)
    requires Bounded(c, s)
    ensures st.Next? ==> Bounded(c, st.s) && Progress(c, st.s, s)
    ensures st.Next? && (s.partial ==> !s.tracking) ==> (st.s.partial ==> !st.s.tracking)
  {
    if s.t == |c.lines| then
      if s.partial then Next(s.(t := s.b, b := s.t, inRightCell := true, partial := false))
      else Done(Finish(s, if s.foundCell then 0 else -3))
    else
      var s1 := Advance(c, s);
      match c.lines[s.t]
      case Blank => Next(s1)
      case Hdr(h) => HeaderStep(c.cellName, c.loose, s1, h)
      case Srv(l) => ServerStep(c.lookup, s1, l)
      case Malformed => Done(Finish(s1, -4))
  }

  /** Both handles read a line: the first always, the second while
      tracking. */
  function Advance(c: Ctx, s: State): (s1: State)
    requires s.t < |c.lines| && s.b <= |c.lines|
    ensures Bounded(c, s1) && s1.t == s.t + 1
    ensures s1.inRightCell == s.inRightCell && s1.partial == s.partial
  {
    s.(t := s.t + 1, b := if s.tracking && s.b < |c.lines| then s.b + 1 else s.b)
  }

  /** A header line, `s` being the state once both handles have read. */
  function HeaderStep(cellName: Str, loose: Str -> bool, s: State, h: Header): (st: Step)
    ensures st.Next? ==> st.s.t == s.t && st.s.b == s.b
    ensures st.Next? && (s.partial ==> !s.tracking) ==> (st.s.partial ==> !st.s.tracking)
  {
    if s.inRightCell then Done(Finish(s, if s.foundCell then 0 else -6))
    else
      if Exact(cellName, h.name) then
        Next(s.(newName := Some(BufferName(h.name)), linked := Some(BufferName(h.link)),
                 inRightCell := true, tracking := false))
      else if loose(h.name) then
        if s.partial then Done(Finish(s, -5))
        else Next(s.(newName := Some(BufferName(h.name)), linked := Some(BufferName(h.link)),
                      inRightCell := false, tracking := false, partial := true))
      else Next(s.(inRightCell := false))
  }

  /** A server line, `s` being the state once both handles have read. */
  function ServerStep(lookup: Str -> Option<Server>, s: State, l: Str): (st: Step)
    ensures st.Next?
    ensures st.s.t == s.t && st.s.b == s.b
    ensures st.s.inRightCell == s.inRightCell && st.s.partial == s.partial
    ensures st.s.tracking == s.tracking
  {
    if s.inRightCell then
      match lookup(l)
      case None => Next(s)
      case Some(sv) => Next(s.(servers := s.servers + [sv], foundCell := true))
    else Next(s)
  }

  /** The search from state `s` on. */
  function Run(c: Ctx, s: State): (r: Result)
    requires Bounded(c, s)
    decreases Phase(s), |c.lines| - s.t
  {
    match StepOf(c, s)
    case Done(r) => r
    case Next(s') => Run(c, s')
  }

  const Start := State(0, 0, true, false, false, false, None, None, [])

  /** The search once a file is open. */
  function SearchLines(c: Ctx): Result {
    Run(c, Start)
  }

  /** The whole file search: a probable Windows module name gives -3 and a
      path that is empty or does not open gives -2, before any line is
      read. `file` is the file's lines when it opens. */
  function SearchCellFile(cellName: Str, path: Str, file: Option<seq<Str>>,
                          loose: Str -> bool, resolve: Str -> Option<Addr>): (r: Result)
    requires NoNul(cellName)
    ensures IsWindowsModule(cellName) ==> r == Result(-3, None, None, [])
    ensures !IsWindowsModule(cellName) && (path == [] || file.None?) ==> r == Result(-2, None, None, [])
    ensures !IsWindowsModule(cellName) && path != [] && file.Some? ==>
              r == SearchLines(Ctx(cellName, Lines(file.value), loose, ServerLookup(resolve)))
  {
    if IsWindowsModule(cellName) then Result(-3, None, None, [])
    else if path == [] || file.None? then Result(-2, None, None, [])
    else SearchLines(Ctx(cellName, Lines(file.value), loose, ServerLookup(resolve)))
  }

  // ---------------------------------------------------------------------
  // The loop

  /** The search loop, with the two handles as line indices. */
  method SearchCellFileEx(cellName: Str, path: Str, file: Option<seq<Str>>,
                          loose: Str -> bool, resolve: Str -> Option<Addr>) returns (r: Result)
    requires NoNul(cellName)
    ensures r == SearchCellFile(cellName, path, file, loose, resolve)
  {
    if IsWindowsModule(cellName) {
      return Result(-3, None, None, []);
    }
    if path == [] || file.None? {
      return Result(-2, None, None, []);
    }
    r := SearchFile(cellName, file.value, loose, ServerLookup(resolve));
  }

  /** The loop over the lines of the open file: `s` holds the two handle
      positions, the four flags and what has been written and reported. */
  method SearchFile(cellName: Str, raws: seq<Str>, loose: Str -> bool, lookup: Str -> Option<Server>)
    returns (r: Result)
    ensures r == SearchLines(Ctx(cellName, Lines(raws), loose, lookup))
  {
    ghost var c := Ctx(cellName, Lines(raws), loose, lookup);
    var s := Start;
    while true
      invariant Bounded(c, s)
      invariant s.partial ==> !s.tracking
      invariant Run(c, s) == SearchLines(c)
      decreases Phase(s), |raws| - s.t
    {
      var done;
      done, r, s := SearchPass(c, cellName, raws, loose, lookup, s);
      if done {
        return;
      }
    }
  }

  /** One pass of the loop: both handles read, then the line is handled. */
  method SearchPass(ghost c: Ctx, cellName: Str, raws: seq<Str>, loose: Str -> bool,
                    lookup: Str -> Option<Server>, s: State)
    returns (done: bool, r: Result, s': State)
    requires c == Ctx(cellName, Lines(raws), loose, lookup)
    requires Bounded(c, s) && (s.partial ==> !s.tracking)
    ensures StepOf(c, s) == if done then Done(r) else Next(s')
  {
    s' := s;
    if s.t == |raws| {
      // The first handle is at the end of the file; the second still
      // reads while it tracks.
      if s'.tracking && s'.b < |raws| {
        s' := s'.(b := s'.b + 1);
      }
      if s'.partial {
        s' := s'.(t := s'.b, b := s'.t, inRightCell := true, partial := false);
        return false, Finish(s', 0), s';
      }
      return true, Finish(s', if s'.foundCell then 0 else -3), s';
    }
    var raw := raws[s.t];
    s' := s'.(t := s'.t + 1);
    if s'.tracking && s'.b < |raws| {
      s' := s'.(b := s'.b + 1);
    }
    assert s' == Advance(c, s);
    LineAt(raws, s.t);
    var line := Classify(raw);
    match line
    case Blank =>
      done, r := false, Finish(s', 0);
    case Malformed =>
      done, r := true, Finish(s', -4);
    case Hdr(h) =>
      done, r, s' := HeaderLine(cellName, loose, s', h);
    case Srv(l) =>
      done, r := false, Finish(s', 0);
      s' := ServerLine(lookup, s', l);
  }

  /** A header line, `s` being the state once both handles have read. */
  method HeaderLine(cellName: Str, loose: Str -> bool, s: State, h: Header) returns (done: bool, r: Result, s': State)
    ensures HeaderStep(cellName, loose, s, h) == if done then Done(r) else Next(s')
  {
    done, r, s' := false, Finish(s, 0), s;
    if s.inRightCell {
      done, r := true, Finish(s, if s.foundCell then 0 else -6);
      return;
    }
    if Exact(cellName, h.name) {
      s' := s'.(newName := Some(BufferName(h.name)), linked := Some(BufferName(h.link)),
                inRightCell := true, tracking := false);
    } else if loose(h.name) {
      if s.partial {
        done, r := true, Finish(s, -5);
        return;
      }
      s' := s'.(newName := Some(BufferName(h.name)), linked := Some(BufferName(h.link)),
                inRightCell := false, tracking := false, partial := true);
    } else {
      s' := s'.(inRightCell := false);
    }
  }

  /** A server line: in the right cell, the server it yields is reported. */
  method ServerLine(lookup: Str -> Option<Server>, s: State, l: Str) returns (s': State)
    ensures ServerStep(lookup, s, l) == Next(s')
  {
    s' := s;
    if s.inRightCell {
      var sv := lookup(l);
      if sv.Some? {
        s' := s'.(servers := s.servers + [sv.value], foundCell := true);
      }
    }
  }
}
