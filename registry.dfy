/** The registry search's cell lookup: when no registry key carries the
    cell's exact name, every key under the CellServDB key is enumerated and
    a cell is chosen only if exactly one key, from the first one that opens
    on, has the requested name as a prefix. Key enumeration and opening are
    oracles: `keys[i]` is the i-th enumerated name (None when enumeration of
    that index fails) and `canOpen` says whether a named key opens. */
module RegistryLookup {
  import opened CString
  import opened Options
  import opened CellConfig

  /** Key i is a prefix match: the requested name, as given, starts it. */
  predicate Matches(cellName: Str, keys: seq<Option<Str>>, i: nat)
    requires i < |keys|
  {
    keys[i].Some? && IsPrefix(cellName, BufferName(keys[i].value))
  }

  /** Key i is a prefix match that also opens. */
  predicate Opens(cellName: Str, keys: seq<Option<Str>>, canOpen: Str -> bool, i: nat)
    requires i < |keys|
  {
    Matches(cellName, keys, i) && canOpen(BufferName(keys[i].value))
  }

  /** The enumeration loop from key 0 on, `isOpen` saying whether a
      matching key is already open and `newName` what the name buffer holds:
      whether a cell was found, and the name buffer at the end. */
  function PrefixScan(cellName: Str, keys: seq<Option<Str>>, canOpen: Str -> bool,
                      isOpen: bool, newName: Option<Str>): (r: (bool, Option<Str>))
    decreases |keys|
  {
    if keys == [] then (isOpen, newName)
    else if keys[0].None? || !IsPrefix(cellName, BufferName(keys[0].value)) then
      PrefixScan(cellName, keys[1..], canOpen, isOpen, newName)
    else if isOpen then (false, newName)
    else if !canOpen(BufferName(keys[0].value)) then
      PrefixScan(cellName, keys[1..], canOpen, isOpen, newName)
    else
      PrefixScan(cellName, keys[1..], canOpen, true, Some(BufferName(keys[0].value)))
  }

  /** Index of the first key that matches and opens, or |keys|. */
  function FirstOpen(cellName: Str, keys: seq<Option<Str>>, canOpen: Str -> bool): (j: nat)
    ensures j <= |keys|
    ensures j < |keys| ==> Opens(cellName, keys, canOpen, j)
    ensures forall i :: 0 <= i < j ==> !Opens(cellName, keys, canOpen, i)
    decreases |keys|
  {
    if keys == [] then 0
    else if Opens(cellName, keys, canOpen, 0) then 0
    else
      var j := FirstOpen(cellName, keys[1..], canOpen);
      assert forall i :: 1 <= i < |keys| ==>
        (Opens(cellName, keys, canOpen, i) <==> Opens(cellName, keys[1..], canOpen, i - 1));
      1 + j
  }

  /** Some key at index `from` or later is a prefix match. */
  predicate MatchFrom(cellName: Str, keys: seq<Option<Str>>, from: nat) {
    exists i :: from <= i < |keys| && Matches(cellName, keys, i)
  }

  lemma MatchFromTail(cellName: Str, keys: seq<Option<Str>>, from: nat)
    requires keys != [] && from >= 1
    ensures MatchFrom(cellName, keys, from) <==> MatchFrom(cellName, keys[1..], from - 1)
  {
    if MatchFrom(cellName, keys, from) {
      var i :| from <= i < |keys| && Matches(cellName, keys, i);
      assert Matches(cellName, keys[1..], i - 1);
    }
    if MatchFrom(cellName, keys[1..], from - 1) {
      var i :| from - 1 <= i < |keys[1..]| && Matches(cellName, keys[1..], i);
      assert Matches(cellName, keys, i + 1);
    }
  }

  /** Once a key is open, the scan fails exactly when another key matches. */
  lemma {:induction false} ScanWhileOpen(cellName: Str, keys: seq<Option<Str>>, canOpen: Str -> bool, newName: Option<Str>)
    ensures PrefixScan(cellName, keys, canOpen, true, newName) == (!MatchFrom(cellName, keys, 0), newName)
    decreases |keys|
  {
    if keys != [] {
      if keys[0].None? || !IsPrefix(cellName, BufferName(keys[0].value)) {
        ScanWhileOpen(cellName, keys[1..], canOpen, newName);
        MatchFromTail(cellName, keys, 1);
        assert MatchFrom(cellName, keys, 0) <==> MatchFrom(cellName, keys, 1) by {
          assert !Matches(cellName, keys, 0);
        }
      } else {
        assert Matches(cellName, keys, 0);
      }
    }
  }

  /** Reference behaviour of the enumeration from the start: a cell is found
      exactly when some key matches and opens and no later key matches; the
      name buffer then holds the first such key's name, and it is written
      (even when the lookup then fails as ambiguous) exactly when some key
      matches and opens. */
  lemma {:induction false} PrefixScanMeaning(cellName: Str, keys: seq<Option<Str>>, canOpen: Str -> bool, newName: Option<Str>)
    ensures var j := FirstOpen(cellName, keys, canOpen);
            PrefixScan(cellName, keys, canOpen, false, newName) ==
              if j < |keys| then (!MatchFrom(cellName, keys, j + 1), Some(BufferName(keys[j].value)))
              else (false, newName)
    decreases |keys|
  {
    if keys != [] {
      var j := FirstOpen(cellName, keys, canOpen);
      if Opens(cellName, keys, canOpen, 0) {
        assert j == 0;
        var n0 := BufferName(keys[0].value);
        assert PrefixScan(cellName, keys, canOpen, false, newName)
               == PrefixScan(cellName, keys[1..], canOpen, true, Some(n0));
        ScanWhileOpen(cellName, keys[1..], canOpen, Some(n0));
        MatchFromTail(cellName, keys, 1);
        assert PrefixScan(cellName, keys, canOpen, false, newName) == (!MatchFrom(cellName, keys, 1), Some(n0));
      } else {
        assert PrefixScan(cellName, keys, canOpen, false, newName)
               == PrefixScan(cellName, keys[1..], canOpen, false, newName);
        PrefixScanMeaning(cellName, keys[1..], canOpen, newName);
        var j' := FirstOpen(cellName, keys[1..], canOpen);
        assert j == j' + 1;
        if j < |keys| {
          assert keys[1..][j'] == keys[j];
          MatchFromTail(cellName, keys, j + 1);
          assert PrefixScan(cellName, keys, canOpen, false, newName)
                 == (!MatchFrom(cellName, keys, j + 1), Some(BufferName(keys[j].value)));
        } else {
          assert PrefixScan(cellName, keys, canOpen, false, newName) == (false, newName);
        }
      }
    }
  }

  /** The enumeration loop of the registry search. */
  method FindPrefixCell(cellName: Str, keys: seq<Option<Str>>, canOpen: Str -> bool)
    returns (found: bool, newName: Option<Str>)
    ensures (found, newName) == PrefixScan(cellName, keys, canOpen, false, None)
  {
    found, newName := false, None;
    var isOpen := false;
    var i := 0;
    assert keys[0..] == keys;
    while i < |keys|
      invariant 0 <= i <= |keys|
      invariant found == isOpen
      invariant PrefixScan(cellName, keys[i..], canOpen, isOpen, newName)
                == PrefixScan(cellName, keys, canOpen, false, None)
    {
      assert keys[i..][1..] == keys[i + 1..];
      if keys[i].None? {
        i := i + 1;
        continue;
      }
      var name := BufferName(keys[i].value);
      if !IsPrefix(cellName, name) {
        i := i + 1;
        continue;
      }
      if isOpen {
        found := false;
        return;
      }
      if !canOpen(name) {
        i := i + 1;
        continue;
      }
      isOpen := true;
      newName := Some(Take(name, CellMaxNameLen - 1));
      found := true;
      i := i + 1;
    }
  }

  /** The whole cell-name step of the registry search: an exact key name
      wins outright and the name buffer gets the requested name cut to the
      buffer and folded to lower case; otherwise the prefix enumeration
      decides. */
  function LookupCell(cellName: Str, exactOpens: bool, keys: seq<Option<Str>>, canOpen: Str -> bool)
    : (r: (bool, Option<Str>))
    ensures exactOpens ==> r == (true, Some(Lower(Take(cellName, CellMaxNameLen - 1))))
    ensures r.1.Some? ==> |r.1.value| <= CellMaxNameLen - 1 && IsLowerCase(r.1.value)
  {
    if exactOpens then
      LowerIsLowerCase(Take(cellName, CellMaxNameLen - 1));
      (true, Some(Lower(Take(cellName, CellMaxNameLen - 1))))
    else
      PrefixScanMeaning(cellName, keys, canOpen, None);
      PrefixScan(cellName, keys, canOpen, false, None)
  }
}
