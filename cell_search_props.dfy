/** What the CellServDB file search promises: the codes it can return and
    what each implies, the names it hands back, and its result on the
    shapes of file it is written for (no match, an exact block, two looser
    matches, the rewind to a looser match at end of file). */
module CellSearchProps {
  import opened CString
  import opened Options
  import opened Address
  import opened CellConfig
  import opened CellSearch

  // ---------------------------------------------------------------------
  // Outcome codes and names

  predicate NameOk(n: Str) {
    |n| <= CellMaxNameLen - 1 && IsLowerCase(n)
  }

  /** What holds of the flags and of what has been written and reported,
      between passes. */
  predicate Sound(s: State) {
    && (s.partial ==> !s.tracking && s.newName.Some?)
    && (s.foundCell <==> s.servers != [])
    && (s.servers != [] ==> s.inRightCell)
    && (s.newName.Some? <==> s.linked.Some?)
    && (s.newName.Some? ==> NameOk(s.newName.value) && NameOk(s.linked.value))
  }

  /** The codes the search can give, and what they say about the servers. */
  predicate ResultOk(r: Result) {
    && r.code in {0, -3, -4, -5, -6}
    && (r.code == 0 ==> r.servers != [])
    && (r.code in {-3, -5, -6} ==> r.servers == [])
    && (r.newName.Some? <==> r.linked.Some?)
    && (r.newName.Some? ==> NameOk(r.newName.value) && NameOk(r.linked.value))
  }

  lemma HeaderStepSound(cellName: Str, loose: Str -> bool, s: State, h: Header)
    requires Sound(s)
    ensures var st := HeaderStep(cellName, loose, s, h);
            (st.Next? ==> Sound(st.s)) && (st.Done? ==> ResultOk(st.r))
  {
    if !s.inRightCell {
      var n, k := BufferName(h.name), BufferName(h.link);
      assert NameOk(n) && NameOk(k);
    }
  }

  lemma ServerStepSound(lookup: Str -> Option<Server>, s: State, l: Str)
    requires Sound(s)
    ensures var st := ServerStep(lookup, s, l);
            (st.Next? ==> Sound(st.s)) && (st.Done? ==> ResultOk(st.r))
  {
  }

  lemma StepSound(c: Ctx, s: State)
    requires Bounded(c, s) && Sound(s)
    ensures StepOf(c, s).Next? ==> Sound(StepOf(c, s).s)
    ensures StepOf(c, s).Done? ==> ResultOk(StepOf(c, s).r)
  {
    if s.t < |c.lines| {
      match c.lines[s.t]
      case Blank =>
      case Hdr(h) => HeaderStepSound(c.cellName, c.loose, Advance(c, s), h);
      case Srv(l) => ServerStepSound(c.lookup, Advance(c, s), l);
      case Malformed =>
    }
  }

  lemma {:induction false} RunOk(c: Ctx, s: State)
    requires Bounded(c, s) && Sound(s)
    ensures ResultOk(Run(c, s))
    decreases Phase(s), |c.lines| - s.t
  {
    StepSound(c, s);
    if StepOf(c, s).Next? {
      RunOk(c, StepOf(c, s).s);
    }
  }

  /** The file search returns -2 or -3 before reading, and after reading
      0, -3, -4, -5 or -6. The -11 at the end of the C function is
      unreachable because its `while (1)` loop is left only by `return`; the
      model has no path to it, and the last clause only records that. Success means at least one server was reported; -3,
      -5 and -6 mean none was; the cell and linked names are written
      together, lowered and at most CELL_MAXNAMELEN-1 characters long. */
  lemma SearchOutcome(cellName: Str, path: Str, file: Option<seq<Str>>,
                      loose: Str -> bool, resolve: Str -> Option<Addr>)
    requires NoNul(cellName)
    ensures var r := SearchCellFile(cellName, path, file, loose, resolve);
            (r.code == -2 || ResultOk(r)) && r.code != -11
  {
    if !IsWindowsModule(cellName) && path != [] && file.Some? {
      RunOk(Ctx(cellName, Lines(file.value), loose, ServerLookup(resolve)), Start);
    }
  }

  // ---------------------------------------------------------------------
  // Kinds of line

  /** A line the search passes over while it is outside the right cell: a
      blank line, a server line, or a header that matches neither way. */
  predicate Quiet(c: Ctx, i: nat)
    requires i < |c.lines|
  {
    match c.lines[i]
    case Blank => true
    case Srv(_) => true
    case Hdr(h) => !Exact(c.cellName, h.name) && !c.loose(h.name)
    case Malformed => false
  }

  /** A line of a cell's block: blank or a server line. */
  predicate InBlock(c: Ctx, i: nat)
    requires i < |c.lines|
  {
    c.lines[i].Blank? || c.lines[i].Srv?
  }

  /** The server line i reports when it is read in the right cell. */
  function Added(c: Ctx, i: nat): (r: seq<Server>)
    requires i < |c.lines|
    ensures |r| <= 1
  {
    if c.lines[i].Srv? && c.lookup(c.lines[i].text).Some? then [c.lookup(c.lines[i].text).value] else []
  }

  /** The servers lines lo to hi-1 report as block lines, in order. */
  function BlockServers(c: Ctx, lo: nat, hi: nat): (r: seq<Server>)
    requires lo <= hi <= |c.lines|
    ensures |r| <= hi - lo
    decreases hi - lo
  {
    if lo == hi then [] else BlockServers(c, lo, hi - 1) + Added(c, hi - 1)
  }

  predicate HeaderAt(c: Ctx, k: nat) {
    k < |c.lines| && c.lines[k].Hdr?
  }

  /** Line k is a header whose name matches exactly. */
  predicate ExactAt(c: Ctx, k: nat) {
    HeaderAt(c, k) && Exact(c.cellName, c.lines[k].h.name)
  }

  /** Line k is a header whose name is only a looser match. */
  predicate LooseAt(c: Ctx, k: nat) {
    HeaderAt(c, k) && !Exact(c.cellName, c.lines[k].h.name) && c.loose(c.lines[k].h.name)
  }

  // ---------------------------------------------------------------------
  // Runs of lines

  /** One pass that goes on. */
  lemma RunNext(c: Ctx, s: State, s': State)
    requires Bounded(c, s) && StepOf(c, s) == Next(s')
    ensures Run(c, s) == Run(c, s')
  {
  }

  lemma QuietStep(c: Ctx, s: State)
    requires Bounded(c, s) && s.t < |c.lines| && !s.inRightCell && (s.tracking ==> s.b == s.t) && Quiet(c, s.t)
    ensures StepOf(c, s) == Next(s.(t := s.t + 1, b := if s.tracking then s.t + 1 else s.b))
  {
    var s1 := Advance(c, s);
    match c.lines[s.t]
    case Blank =>
    case Srv(l) =>
    case Hdr(h) =>
      assert s1.(inRightCell := false) == s1;
  }

  lemma BlockStep(c: Ctx, s: State)
    requires Bounded(c, s) && s.t < |c.lines| && s.inRightCell && !s.tracking && InBlock(c, s.t)
    ensures var a := Added(c, s.t);
            StepOf(c, s) == Next(s.(t := s.t + 1, servers := s.servers + a, foundCell := s.foundCell || a != []))
  {
    var s1 := Advance(c, s);
    assert s1 == s.(t := s.t + 1);
    if c.lines[s.t].Blank? || c.lookup(c.lines[s.t].text).None? {
      assert s.servers + [] == s.servers;
      assert s1.(servers := s.servers, foundCell := s.foundCell) == s1;
    }
  }

  /** Outside the right cell, quiet lines change nothing but the handles. */
  lemma {:induction false} SkipQuiet(c: Ctx, s: State, k: nat)
    requires Bounded(c, s) && !s.inRightCell && s.t <= k <= |c.lines|
    requires s.tracking ==> s.b == s.t
    requires forall i :: s.t <= i < k ==> Quiet(c, i)
    ensures Run(c, s) == Run(c, s.(t := k, b := if s.tracking then k else s.b))
    decreases k - s.t
  {
    if s.t < k {
      var s1 := s.(t := s.t + 1, b := if s.tracking then s.t + 1 else s.b);
      QuietStep(c, s);
      SkipQuiet(c, s1, k);
      assert s1.(t := k, b := if s1.tracking then k else s1.b) == s.(t := k, b := if s.tracking then k else s.b);
    }
  }

  /** In the right cell, block lines add their servers. */
  lemma {:induction false} ReadBlock(c: Ctx, s: State, k: nat)
    requires Bounded(c, s) && s.inRightCell && !s.tracking && s.t <= k <= |c.lines|
    requires forall i :: s.t <= i < k ==> InBlock(c, i)
    ensures var bs := BlockServers(c, s.t, k);
            Run(c, s) == Run(c, s.(t := k, servers := s.servers + bs, foundCell := s.foundCell || bs != []))
    decreases k - s.t
  {
    if s.t == k {
      assert BlockServers(c, s.t, k) == [];
      assert s.servers + [] == s.servers;
      assert s.(t := k, servers := s.servers, foundCell := s.foundCell) == s;
    } else {
      ReadBlock(c, s, k - 1);
      var bs := BlockServers(c, s.t, k - 1);
      var a := Added(c, k - 1);
      var s' := s.(t := k - 1, servers := s.servers + bs, foundCell := s.foundCell || bs != []);
      BlockStep(c, s');
      var all := BlockServers(c, s.t, k);
      assert all == bs + a;
      assert s.servers + all == s.servers + bs + a;
      var target := s.(t := k, servers := s.servers + all, foundCell := s.foundCell || all != []);
      assert StepOf(c, s') == Next(target);
      RunNext(c, s', target);
      assert Run(c, s) == Run(c, s');
    }
  }

  /** The next header ends the right cell's block. */
  lemma EndAt(c: Ctx, s: State)
    requires Bounded(c, s) && HeaderAt(c, s.t) && s.inRightCell
    ensures Run(c, s) == Result(if s.foundCell then 0 else -6, s.newName, s.linked, s.servers)
  {
  }

  // ---------------------------------------------------------------------
  // Whole files

  /** A file with no matching header and no malformed line gives -3 and
      reports nothing. */
  lemma SearchNoMatch(c: Ctx)
    requires forall i :: 0 <= i < |c.lines| ==> Quiet(c, i)
    ensures SearchLines(c) == Result(-3, None, None, [])
  {
    SkipQuiet(c, Start, |c.lines|);
  }

  /** A malformed line (neither a header nor a `#`) after quiet lines gives
      -4 with nothing reported. */
  lemma SearchMalformed(c: Ctx, k: nat)
    requires k < |c.lines| && c.lines[k].Malformed?
    requires forall i :: 0 <= i < k ==> Quiet(c, i)
    ensures SearchLines(c) == Result(-4, None, None, [])
  {
    SkipQuiet(c, Start, k);
  }

  /** An exact header after quiet lines, then block lines up to the next
      header: the block's servers, the header's names, and 0 when the block
      gave a server, else -6. */
  lemma SearchExactBlock(c: Ctx, j: nat, k: nat)
    requires j < k && ExactAt(c, j) && HeaderAt(c, k)
    requires forall i :: 0 <= i < j ==> Quiet(c, i)
    requires forall i :: j < i < k ==> InBlock(c, i)
    ensures var h := c.lines[j].h;
            var bs := BlockServers(c, j + 1, k);
            SearchLines(c) == Result(if bs != [] then 0 else -6, Some(BufferName(h.name)), Some(BufferName(h.link)), bs)
  {
    var h := c.lines[j].h;
    SkipQuiet(c, Start, j);
    var s := Start.(t := j, b := j);
    var s1 := s.(t := j + 1, b := j + 1, newName := Some(BufferName(h.name)), linked := Some(BufferName(h.link)),
                 inRightCell := true, tracking := false);
    RunNext(c, s, s1);
    ReadBlock(c, s1, k);
    var bs := BlockServers(c, j + 1, k);
    assert [] + bs == bs;
    EndAt(c, s1.(t := k, servers := bs, foundCell := bs != []));
  }

  /** Two looser matches with no exact one before the second: -5,
      ambiguous, with nothing reported. */
  lemma SearchAmbiguous(c: Ctx, j: nat, k: nat)
    requires j < k && LooseAt(c, j) && LooseAt(c, k)
    requires forall i :: 0 <= i < k && i != j ==> Quiet(c, i)
    ensures SearchLines(c).code == -5 && SearchLines(c).servers == []
  {
    SkipQuiet(c, Start, j);
    var h := c.lines[j].h;
    var s := Start.(t := j, b := j);
    var s1 := s.(t := j + 1, b := j + 1, newName := Some(BufferName(h.name)), linked := Some(BufferName(h.link)),
                 tracking := false, partial := true);
    RunNext(c, s, s1);
    SkipQuiet(c, s1, k);
  }

  /** A looser match and no better one in the rest of the file: at end of
      file the search goes back to the line after that header and reads its
      block as the right cell's. */
  lemma SearchRewind(c: Ctx, j: nat, k: nat)
    requires j < k && LooseAt(c, j) && HeaderAt(c, k)
    requires forall i :: 0 <= i < |c.lines| && i != j ==> Quiet(c, i)
    requires forall i :: j < i < k ==> InBlock(c, i)
    ensures var h := c.lines[j].h;
            var bs := BlockServers(c, j + 1, k);
            SearchLines(c) == Result(if bs != [] then 0 else -6, Some(BufferName(h.name)), Some(BufferName(h.link)), bs)
  {
    SkipQuiet(c, Start, j);
    var h := c.lines[j].h;
    var s := Start.(t := j, b := j);
    var s1 := s.(t := j + 1, b := j + 1, newName := Some(BufferName(h.name)), linked := Some(BufferName(h.link)),
                 tracking := false, partial := true);
    RunNext(c, s, s1);
    SkipQuiet(c, s1, |c.lines|);
    var s2 := s1.(t := |c.lines|);
    var s3 := s2.(t := j + 1, b := |c.lines|, inRightCell := true, partial := false);
    RunNext(c, s2, s3);
    ReadBlock(c, s3, k);
    var bs := BlockServers(c, j + 1, k);
    assert [] + bs == bs;
    EndAt(c, s3.(t := k, servers := bs, foundCell := bs != []));
  }

  /** An exact match in the last block after a looser match earlier: the
      search reads the exact block to end of file, then still goes back to
      the looser match and adds that block's servers too, keeping the exact
      header's names. */
  lemma SearchExactLastAfterLooser(c: Ctx, j1: nat, k1: nat, j2: nat)
    requires j1 < k1 < j2 && LooseAt(c, j1) && HeaderAt(c, k1) && ExactAt(c, j2)
    requires forall i :: 0 <= i < j2 && i != j1 ==> Quiet(c, i)
    requires forall i :: j1 < i < k1 ==> InBlock(c, i)
    requires forall i :: j2 < i < |c.lines| ==> InBlock(c, i)
    ensures var h := c.lines[j2].h;
            var bs := BlockServers(c, j2 + 1, |c.lines|) + BlockServers(c, j1 + 1, k1);
            SearchLines(c) == Result(if bs != [] then 0 else -6, Some(BufferName(h.name)), Some(BufferName(h.link)), bs)
  {
    ToPending(c, j1);
    PendingToExact(c, j1, j2);
    ExactToEnd(c, ExactOverPending(c, j1, j2), j1, k1);
  }

  /** The state once the looser header at line j is read from the start. */
  function Pending(c: Ctx, j: nat): (p: State)
    requires LooseAt(c, j)
  {
    var h := c.lines[j].h;
    State(j + 1, j + 1, false, false, false, true, Some(BufferName(h.name)), Some(BufferName(h.link)), [])
  }

  /** The state once, with a looser match pending at line j1, the exact
      header at line j2 is read. */
  function ExactOverPending(c: Ctx, j1: nat, j2: nat): (p: State)
    requires LooseAt(c, j1) && ExactAt(c, j2)
    ensures p.t == j2 + 1 && p.b == j1 + 1 && p.inRightCell && !p.tracking && p.partial
    ensures p.servers == [] && !p.foundCell
    ensures p.newName == Some(BufferName(c.lines[j2].h.name)) && p.linked == Some(BufferName(c.lines[j2].h.link))
  {
    var h := c.lines[j2].h;
    Pending(c, j1).(t := j2 + 1, newName := Some(BufferName(h.name)), linked := Some(BufferName(h.link)), inRightCell := true)
  }

  /** Quiet lines and then a looser header: the match is pending. */
  lemma ToPending(c: Ctx, j: nat)
    requires LooseAt(c, j) && forall i :: 0 <= i < j ==> Quiet(c, i)
    ensures SearchLines(c) == Run(c, Pending(c, j))
  {
    SkipQuiet(c, Start, j);
    RunNext(c, Start.(t := j, b := j), Pending(c, j));
  }

  /** With a looser match pending, quiet lines and then an exact header. */
  lemma PendingToExact(c: Ctx, j1: nat, j2: nat)
    requires j1 < j2 && LooseAt(c, j1) && ExactAt(c, j2) && forall i :: j1 < i < j2 ==> Quiet(c, i)
    ensures Run(c, Pending(c, j1)) == Run(c, ExactOverPending(c, j1, j2))
  {
    var p := Pending(c, j1);
    SkipQuiet(c, p, j2);
    RunNext(c, p.(t := j2), ExactOverPending(c, j1, j2));
  }

  /** In the exact block with a looser match pending at line j1: read to
      end of file, go back, and read the looser block up to its end. */
  lemma ExactToEnd(c: Ctx, p: State, j1: nat, k1: nat)
    requires Bounded(c, p) && p.inRightCell && !p.tracking && p.partial && p.servers == [] && !p.foundCell
    requires p.b == j1 + 1 && j1 < k1 < p.t && HeaderAt(c, k1)
    requires forall i :: j1 < i < k1 ==> InBlock(c, i)
    requires forall i :: p.t <= i < |c.lines| ==> InBlock(c, i)
    ensures var bs := BlockServers(c, p.t, |c.lines|) + BlockServers(c, j1 + 1, k1);
            Run(c, p) == Result(if bs != [] then 0 else -6, p.newName, p.linked, bs)
  {
    ReadBlock(c, p, |c.lines|);
    var bs2 := BlockServers(c, p.t, |c.lines|);
    assert [] + bs2 == bs2;
    var s4 := p.(t := |c.lines|, servers := bs2, foundCell := bs2 != []);
    var s5 := s4.(t := j1 + 1, b := |c.lines|, inRightCell := true, partial := false);
    RunNext(c, s4, s5);
    ReadBlock(c, s5, k1);
    var bs1 := BlockServers(c, j1 + 1, k1);
    EndAt(c, s5.(t := k1, servers := bs2 + bs1, foundCell := bs2 != [] || bs1 != []));
  }
}
