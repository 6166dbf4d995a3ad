/** Copying CellServDB to a new file without one cell's entry. Every line
    is cut at its first carriage return and then its first line feed; blank
    lines are copied; a `>` line is cut at its first space, first tab and
    first `#`, and is dropped (and starts the dropped block) when what
    follows the `>` is exactly the cell's name; any other line must hold a
    `#` and is copied unless it belongs to the dropped block. The input file
    is its lines (None when it cannot be opened); what is written to the
    output file is returned. Each line is classified once, by `Kind`. */
module CellPrune {
  import opened CString
  import opened Options

  /** A line as `fgets` reads it, cut at the first CR and the first LF. */
  function StripLine(raw: Str): (l: Str)
    ensures NoNul(l) && '\r' !in l && '\n' !in l
  {
    var a := CutAtFirst(CStr(raw), '\r');
    var b := CutAtFirst(a, '\n');
    assert forall i :: 0 <= i < |b| ==> b[i] == a[i] && a[i] == CStr(raw)[i];
    b
  }

  /** A header line cut at its first space, first tab and first `#`. */
  function CutHeader(l: Str): (h: Str)
    requires l != [] && l[0] == '>'
    ensures h != [] && h[0] == '>' && h <= l
    ensures ' ' !in h && '\t' !in h && '#' !in h
    ensures ' ' !in l && '\t' !in l && '#' !in l ==> h == l
  {
    var a := CutAtFirst(l, ' ');
    assert a[0] == '>';
    var b := CutAtFirst(a, '\t');
    assert b[0] == '>';
    var c := CutAtFirst(b, '#');
    assert c[0] == '>';
    c
  }

  /** The name a `>` line carries: its cut text after the `>`. Every
      character of it is a character of the line. */
  function HeaderName(l: Str): (n: Str)
    requires l != [] && l[0] == '>'
    ensures ' ' !in n && '\t' !in n && '#' !in n
    ensures forall c :: c in n ==> c in l
    ensures ' ' !in l && '\t' !in l && '#' !in l ==> n == l[1..]
  {
    var h := CutHeader(l);
    assert forall i :: 1 <= i < |h| ==> h[1..][i - 1] == l[i];
    h[1..]
  }

  /** What a line is to the copy; a header carries the name its cut text
      holds after the `>`. */
  datatype Line = Blank | Header(name: Str) | Server(text: Str) | Malformed

  /** The text a line has when its class says so. */
  predicate Shaped(k: Line) {
    match k
    case Blank => true
    case Header(n) => ' ' !in n && '\t' !in n && '#' !in n && NoNul(n) && '\r' !in n && '\n' !in n
    case Server(t) => t != [] && t[0] != '>' && '#' in t && NoNul(t) && '\r' !in t && '\n' !in t
    case Malformed => true
  }

  function Kind(raw: Str): (k: Line)
  {
    var l := StripLine(raw);
    if l == [] then Blank
    else if l[0] == '>' then
      Header(HeaderName(l))
    else if '#' in l then Server(l)
    else Malformed
  }

  /** Every class comes with the text it says it has. */
  lemma KindShaped(raw: Str)
    ensures Shaped(Kind(raw))
  {
  }

  lemma LinesShaped(raws: seq<Str>)
    ensures forall i :: 0 <= i < |raws| ==> Shaped(Lines(raws)[i])
  {
    forall i | 0 <= i < |raws| {
      KindShaped(raws[i]);
    }
  }

  function Lines(raws: seq<Str>): (ls: seq<Line>)
    ensures |ls| == |raws| && forall i :: 0 <= i < |raws| ==> ls[i] == Kind(raws[i])
  {
    seq(|raws|, i requires 0 <= i < |raws| => Kind(raws[i]))
  }

  /** The text the copy writes for a line it keeps. */
  function Text(k: Line): (w: Str)
    requires !k.Malformed?
  {
    match k
    case Blank => []
    case Header(n) => ">" + n
    case Server(t) => t
  }

  /** The texts written for lines that are all kept. */
  function Texts(ls: seq<Line>): (ws: seq<Str>)
    requires forall i :: 0 <= i < |ls| ==> !ls[i].Malformed?
    ensures |ws| == |ls|
  {
    seq(|ls|, i requires 0 <= i < |ls| => Text(ls[i]))
  }

  /** The `>` line of the cell being removed. */
  predicate NamesCell(cellName: Str, k: Line) {
    k.Header? && k.name == cellName
  }

  datatype Pruned = Pruned(code: int, written: seq<Str>)

  /** The copy of the lines `ls` when `inRight` says whether the last header
      named the removed cell. */
  function PruneLines(cellName: Str, ls: seq<Line>, inRight: bool): (r: Pruned)
    decreases |ls|
  {
    if ls == [] then Pruned(0, [])
    else
      match ls[0]
      case Blank => Emit([], PruneLines(cellName, ls[1..], inRight))
      case Header(n) =>
        if n == cellName then PruneLines(cellName, ls[1..], true)
        else Emit(">" + n, PruneLines(cellName, ls[1..], false))
      case Malformed => Pruned(-2, [])
      case Server(t) =>
        if inRight then PruneLines(cellName, ls[1..], inRight)
        else Emit(t, PruneLines(cellName, ls[1..], inRight))
  }

  function Emit(w: Str, r: Pruned): (r': Pruned)
  {
    Pruned(r.code, [w] + r.written)
  }

  function Prepend(ws: seq<Str>, r: Pruned): (r': Pruned)
  {
    Pruned(r.code, ws + r.written)
  }

  lemma PrependEmit(ws: seq<Str>, w: Str, r: Pruned)
    ensures Prepend(ws, Emit(w, r)) == Prepend(ws + [w], r)
  {
    assert ws + ([w] + r.written) == ws + [w] + r.written;
  }

  /** The copy from line `i` on, one step unfolded. */
  lemma PruneAt(cellName: Str, ls: seq<Line>, i: nat, inRight: bool)
    requires i < |ls|
    ensures var now, next := PruneLines(cellName, ls[i..], inRight), ls[i + 1..];
            match ls[i]
            case Blank => now == Emit([], PruneLines(cellName, next, inRight))
            case Header(n) =>
              now == if n == cellName then PruneLines(cellName, next, true)
                     else Emit(">" + n, PruneLines(cellName, next, false))
            case Malformed => now == Pruned(-2, [])
            case Server(t) =>
              now == if inRight then PruneLines(cellName, next, true)
                     else Emit(t, PruneLines(cellName, next, false))
  {
    assert ls[i..][0] == ls[i] && ls[i..][1..] == ls[i + 1..];
  }

  /** The whole copy: -1 when the file does not open. */
  function AppendPrunedCells(cellName: Str, file: Option<seq<Str>>): (r: Pruned)
  {
    match file
    case None => Pruned(-1, [])
    case Some(raws) => PruneLines(cellName, Lines(raws), false)
  }

  /** The copy loop. */
  method AppendPrunedCellList(cellName: Str, file: Option<seq<Str>>)
    returns (code: int, written: seq<Str>)
    ensures Pruned(code, written) == AppendPrunedCells(cellName, file)
  {
    if file.None? {
      return -1, [];
    }
    var raws := file.value;
    ghost var ls := Lines(raws);
    ghost var whole := PruneLines(cellName, ls, false);
    written := [];
    var inRight := false;
    var i := 0;
    assert ls[0..] == ls && [] + whole.written == whole.written;
    while true
      invariant 0 <= i <= |raws|
      invariant Prepend(written, PruneLines(cellName, ls[i..], inRight)) == whole
      decreases |raws| - i
    {
      if i == |raws| {
        return 0, written;
      }
      var line := Kind(raws[i]);
      assert line == ls[i];
      PruneAt(cellName, ls, i, inRight);
      match line {
        case Blank =>
          PrependEmit(written, [], PruneLines(cellName, ls[i + 1..], inRight));
          written := written + [[]];
        case Header(n) =>
          if n == cellName {
            inRight := true;
          } else {
            PrependEmit(written, ">" + n, PruneLines(cellName, ls[i + 1..], false));
            inRight := false;
            written := written + [">" + n];
          }
        case Malformed =>
          return -2, written;
        case Server(t) =>
          if !inRight {
            PrependEmit(written, t, PruneLines(cellName, ls[i + 1..], false));
            written := written + [t];
          }
      }
      i := i + 1;
    }
  }

  // ---------------------------------------------------------------------
  // Properties of the copy

  /** The copy fails exactly when some line is malformed. */
  lemma {:induction false} PruneCode(cellName: Str, ls: seq<Line>, inRight: bool)
    ensures var r := PruneLines(cellName, ls, inRight);
            (r.code == -2 <==> Malformed in ls) && (r.code == 0 || r.code == -2)
    decreases |ls|
  {
    if ls != [] {
      assert ls == [ls[0]] + ls[1..];
      PruneCode(cellName, ls[1..], false);
      PruneCode(cellName, ls[1..], true);
    }
  }

  /** A line the copy keeps, with the text its class says it has. */
  predicate Kept(cellName: Str, k: Line) {
    Shaped(k) && !k.Malformed? && !NamesCell(cellName, k)
  }

  /** A written line: the text of a line the copy keeps. */
  ghost predicate Clean(cellName: Str, w: Str) {
    exists k :: Kept(cellName, k) && Text(k) == w
  }

  /** A shaped line reads back as itself. */
  lemma KindOfText(k: Line)
    requires Shaped(k) && !k.Malformed?
    ensures Kind(Text(k)) == k
  {
    var w := Text(k);
    CStrOfNoNul(w);
    assert CutAtFirst(w, '\r') == w && CutAtFirst(w, '\n') == w;
    assert StripLine(w) == w;
  }

  /** Every written line is clean; in particular the removed cell's header
      is never written. */
  lemma {:induction false} PruneWritesClean(cellName: Str, ls: seq<Line>, inRight: bool)
    requires forall i :: 0 <= i < |ls| ==> Shaped(ls[i])
    ensures forall j :: 0 <= j < |PruneLines(cellName, ls, inRight).written| ==>
              Clean(cellName, PruneLines(cellName, ls, inRight).written[j])
    decreases |ls|
  {
    if ls != [] {
      assert forall i :: 0 <= i < |ls[1..]| ==> ls[1..][i] == ls[i + 1];
      var k := ls[0];
      var next := if k.Header? then k.name == cellName else inRight;
      PruneWritesClean(cellName, ls[1..], next);
      var w, tail := PruneLines(cellName, ls, inRight).written, PruneLines(cellName, ls[1..], next).written;
      if !k.Malformed? && !NamesCell(cellName, k) && !(k.Server? && inRight) {
        assert w == [Text(k)] + tail;
        forall j | 0 <= j < |w|
          ensures Clean(cellName, w[j])
        {
          if j == 0 {
            assert Kept(cellName, k) && Text(k) == w[0];
          } else {
            assert w[j] == tail[j - 1];
          }
        }
      } else if !k.Malformed? {
        assert w == tail;
      }
    }
  }

  /** Clean lines go through the copy unchanged. */
  lemma {:induction false} CleanLinesKept(cellName: Str, ws: seq<Str>)
    requires forall j :: 0 <= j < |ws| ==> Clean(cellName, ws[j])
    ensures PruneLines(cellName, Lines(ws), false) == Pruned(0, ws)
    decreases |ws|
  {
    if ws != [] {
      CleanLinesKept(cellName, ws[1..]);
      var k :| Kept(cellName, k) && Text(k) == ws[0];
      KindOfText(k);
      assert Lines(ws)[0] == k;
      assert Lines(ws)[1..] == Lines(ws[1..]);
      assert [ws[0]] + ws[1..] == ws;
    }
  }

  /** Pruning the output of a successful prune again changes nothing. */
  lemma PruneIdempotent(cellName: Str, raws: seq<Str>)
    requires AppendPrunedCells(cellName, Some(raws)).code == 0
    ensures var w := AppendPrunedCells(cellName, Some(raws)).written;
            AppendPrunedCells(cellName, Some(w)) == Pruned(0, w)
  {
    var ls := Lines(raws);
    LinesShaped(raws);
    PruneWritesClean(cellName, ls, false);
    CleanLinesKept(cellName, PruneLines(cellName, ls, false).written);
  }

  /** On a whole file: the copy fails exactly when a line is malformed. */
  lemma PruneFailsOnMalformed(cellName: Str, raws: seq<Str>)
    ensures var r := AppendPrunedCells(cellName, Some(raws));
            (r.code == -2 <==> exists i :: 0 <= i < |raws| && Kind(raws[i]).Malformed?) &&
            (r.code == 0 || r.code == -2)
  {
    var ls := Lines(raws);
    PruneCode(cellName, ls, false);
    if Malformed in ls {
      var i :| 0 <= i < |ls| && ls[i] == Malformed;
      assert Kind(raws[i]).Malformed?;
    }
  }

  /** No line the copy writes is the removed cell's `>name` header. */
  lemma PruneRemovesHeader(cellName: Str, raws: seq<Str>)
    ensures var w := AppendPrunedCells(cellName, Some(raws)).written;
            forall j :: 0 <= j < |w| ==> w[j] != ">" + cellName
  {
    var ls := Lines(raws);
    LinesShaped(raws);
    PruneWritesClean(cellName, ls, false);
    var w := PruneLines(cellName, ls, false).written;
    forall j | 0 <= j < |w|
      ensures w[j] != ">" + cellName
    {
      assert Clean(cellName, w[j]);
      var k :| Kept(cellName, k) && Text(k) == w[j];
      assert (">" + cellName)[1..] == cellName;
      if k.Header? {
        assert (">" + k.name)[1..] == k.name;
      }
    }
  }

  /** When no header names the cell and no line is malformed, every line is
      written, headers cut, in order; nothing else changes. */
  lemma {:induction false} PruneOtherCells(cellName: Str, ls: seq<Line>)
    requires forall i :: 0 <= i < |ls| ==> !NamesCell(cellName, ls[i]) && !ls[i].Malformed?
    ensures PruneLines(cellName, ls, false) == Pruned(0, Texts(ls))
    decreases |ls|
  {
    if ls != [] {
      PruneOtherCells(cellName, ls[1..]);
      assert !NamesCell(cellName, ls[0]) && !ls[0].Malformed?;
      assert [Text(ls[0])] + Texts(ls[1..]) == Texts(ls);
    }
  }

  /** A run of other cells' lines in front is written line for line, and
      the copy then goes on outside the removed cell. */
  lemma {:induction false} PruneOtherPrefix(cellName: Str, before: seq<Line>, rest: seq<Line>)
    requires forall i :: 0 <= i < |before| ==> !NamesCell(cellName, before[i]) && !before[i].Malformed?
    ensures PruneLines(cellName, before + rest, false) ==
              Prepend(Texts(before), PruneLines(cellName, rest, false))
    decreases |before|
  {
    if before == [] {
      assert before + rest == rest;
    } else {
      assert (before + rest)[0] == before[0];
      assert (before + rest)[1..] == before[1..] + rest;
      PruneOtherPrefix(cellName, before[1..], rest);
      var r := PruneLines(cellName, rest, false);
      assert [Text(before[0])] + Texts(before[1..]) == Texts(before);
      assert [Text(before[0])] + (Texts(before[1..]) + r.written) == Texts(before) + r.written;
    }
  }

  /** The copy writes at most one line per line read. */
  lemma {:induction false} PruneNeverGrows(cellName: Str, ls: seq<Line>, inRight: bool)
    ensures |PruneLines(cellName, ls, inRight).written| <= |ls|
    decreases |ls|
  {
    if ls != [] {
      PruneNeverGrows(cellName, ls[1..], false);
      PruneNeverGrows(cellName, ls[1..], true);
    }
  }

  /** The number of blank lines in `block`. */
  function BlankCount(block: seq<Line>): (n: nat)
    ensures n <= |block|
  {
    if block == [] then 0
    else (if block[0].Blank? then 1 else 0) + BlankCount(block[1..])
  }

  /** `n` empty lines. */
  function EmptyLines(n: nat): (ls: seq<Str>)
  {
    seq(n, i => [])
  }

  /** Inside the removed cell's block of blank and server lines only the
      blank lines are written, each as an empty line; the copy then goes on
      with what follows in the same state. */
  lemma {:induction false} PruneDropsBlock(cellName: Str, block: seq<Line>, after: seq<Line>)
    requires forall i :: 0 <= i < |block| ==> block[i].Blank? || block[i].Server?
    ensures PruneLines(cellName, block + after, true) ==
              Prepend(EmptyLines(BlankCount(block)), PruneLines(cellName, after, true))
    decreases |block|
  {
    if block == [] {
      assert block + after == after;
    } else {
      assert (block + after)[0] == block[0];
      assert (block + after)[1..] == block[1..] + after;
      assert forall i :: 0 <= i < |block[1..]| ==> block[1..][i] == block[i + 1];
      PruneDropsBlock(cellName, block[1..], after);
      var rest := PruneLines(cellName, after, true);
      if block[0].Blank? {
        assert [[]] + (EmptyLines(BlankCount(block[1..])) + rest.written) == EmptyLines(BlankCount(block)) + rest.written;
      }
    }
  }

  /** Removing a cell whose header starts the file: its block leaves only
      its blank lines, and the scan of the rest goes on inside the removed
      cell, so server lines ahead of the next header are dropped too. */
  lemma PruneLeadingCell(cellName: Str, hdr: Line, block: seq<Line>, after: seq<Line>)
    requires NamesCell(cellName, hdr)
    requires forall i :: 0 <= i < |block| ==> block[i].Blank? || block[i].Server?
    ensures PruneLines(cellName, [hdr] + block + after, false) ==
              Prepend(EmptyLines(BlankCount(block)), PruneLines(cellName, after, true))
  {
    assert ([hdr] + block + after)[1..] == block + after;
    PruneDropsBlock(cellName, block, after);
  }

  /** Removing a cell that comes after other cells: the lines before it
      are written as they are, its header and server lines are dropped and
      its blank lines are written empty, and the scan of the rest goes on
      inside the removed cell. */
  lemma PruneMiddleCell(cellName: Str, before: seq<Line>, hdr: Line, block: seq<Line>, after: seq<Line>)
    requires forall i :: 0 <= i < |before| ==> !NamesCell(cellName, before[i]) && !before[i].Malformed?
    requires NamesCell(cellName, hdr)
    requires forall i :: 0 <= i < |block| ==> block[i].Blank? || block[i].Server?
    ensures PruneLines(cellName, before + [hdr] + block + after, false) ==
              Prepend(Texts(before) + EmptyLines(BlankCount(block)), PruneLines(cellName, after, true))
  {
    assert before + [hdr] + block + after == before + ([hdr] + block + after);
    PruneOtherPrefix(cellName, before, [hdr] + block + after);
    PruneLeadingCell(cellName, hdr, block, after);
    var r := PruneLines(cellName, after, true);
    assert Texts(before) + (EmptyLines(BlankCount(block)) + r.written)
           == (Texts(before) + EmptyLines(BlankCount(block))) + r.written;
  }
}
