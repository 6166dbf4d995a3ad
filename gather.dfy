/** The gather block of a non-cached read: one count shared by the issuer
    and by every sub-request sent to the cache file. Each sub-request adds
    one when it is issued and takes one away when it completes; the issuer
    starts the count at 1 and takes that one away itself once it has issued
    everything. Whoever brings the count to zero completes the master
    request. The body of `AFSCompleteIo` is not part of this model: it is
    taken to keep the gather status at success until a failing status
    arrives and then at the latest failure. */
module Gather {
  import opened NtStatus
  import opened ReadTypes
  import opened ReadState

  // ---------------------------------------------------------------------
  // The protocol on event sequences

  /** Issued minus completed sub-requests. */
  function Net(evs: seq<IoEvent>): (n: int)
    ensures -|evs| <= n <= |evs|
  {
    if evs == [] then 0
    else Net(evs[..|evs| - 1]) + (if evs[|evs| - 1].Issue? then 1 else -1)
  }

  /** No sub-request completes before it has been issued. */
  ghost predicate Balanced(evs: seq<IoEvent>) {
    forall k :: 0 <= k <= |evs| ==> Net(evs[..k]) >= 0
  }

  /** The statuses of the completions among the events, in order. */
  function Statuses(evs: seq<IoEvent>): (ss: seq<Status>)
    ensures |ss| <= |evs|
  {
    if evs == [] then []
    else
      var last := evs[|evs| - 1];
      Statuses(evs[..|evs| - 1]) + (if last.Done? then [last.status] else [])
  }

  /** How a completion's status folds into the gather status. */
  function Fold(g: Status, s: Status): Status {
    if NtSuccess(s) then g else s
  }

  function FoldAll(g: Status, ss: seq<Status>): Status {
    if ss == [] then g else Fold(FoldAll(g, ss[..|ss| - 1]), ss[|ss| - 1])
  }

  /** The whole life of a gather: the events while the sub-requests are
      started, the issuer's own completion with the start status, and the
      completions of the sub-requests still in flight. */
  function Timeline(during: seq<IoEvent>, start: Status, after: seq<Status>): seq<IoEvent> {
    during + [Done(start)] + seq(|after|, i requires 0 <= i < |after| => Done(after[i]))
  }

  /** The count after the events, from `c`. */
  function CountFrom(c: int, evs: seq<IoEvent>): int {
    c + Net(evs)
  }

  /** How many completions bring the count to zero, from `c`. */
  function ZeroHits(c: int, evs: seq<IoEvent>): nat {
    if evs == [] then 0
    else
      var init := evs[..|evs| - 1];
      ZeroHits(c, init) + (if evs[|evs| - 1].Done? && CountFrom(c, evs) == 0 then 1 else 0)
  }

  /** The status the gather ends with. */
  function GatherStatus(during: seq<IoEvent>, start: Status, after: seq<Status>): Status {
    FoldAll(Success, Statuses(during) + [start] + after)
  }

  lemma NetSnoc(evs: seq<IoEvent>, e: IoEvent)
    ensures Net(evs + [e]) == Net(evs) + (if e.Issue? then 1 else -1)
    ensures Statuses(evs + [e]) == Statuses(evs) + (if e.Done? then [e.status] else [])
  {
    assert (evs + [e])[..|evs|] == evs;
  }

  lemma FoldSnoc(g: Status, ss: seq<Status>, s: Status)
    ensures FoldAll(g, ss + [s]) == Fold(FoldAll(g, ss), s)
  {
    assert (ss + [s])[..|ss|] == ss;
  }

  /** Folding two runs of statuses one after the other is folding the
      second from where the first left the gather status. */
  lemma {:induction false} FoldAppend(g: Status, a: seq<Status>, b: seq<Status>)
    ensures FoldAll(g, a + b) == FoldAll(FoldAll(g, a), b)
    decreases |b|
  {
    if b == [] {
      assert a + b == a;
    } else {
      var init, last := b[..|b| - 1], b[|b| - 1];
      assert a + b == (a + init) + [last];
      FoldSnoc(g, a + init, last);
      FoldAppend(g, a, init);
    }
  }

  /** Started at 1, the count never reaches zero while sub-requests are
      still being started, reaches it exactly once over the whole life of
      the gather, and does so on its very last event. */
  lemma CountOneCompletesOnce(during: seq<IoEvent>, start: Status, after: seq<Status>)
    requires Balanced(during) && |after| == Net(during)
    ensures var t := Timeline(during, start, after);
            ZeroHits(1, t[..|t| - 1]) == 0 && ZeroHits(1, t) == 1
  {
    var t := Timeline(during, start, after);
    var p := t[..|t| - 1];
    forall k | 0 <= k <= |p|
      ensures CountFrom(1, p[..k]) >= 1 || k == 0
    {
      assert p[..k] == t[..k];
      PrefixCount(during, start, after, k);
    }
    NoZeroHits(1, p);
    assert t[|t| - 1].Done?;
    NetTimeline(during, start, after);
  }

  /** The count on a prefix of the timeline that stops before its last
      event. */
  lemma PrefixCount(during: seq<IoEvent>, start: Status, after: seq<Status>, k: nat)
    requires Balanced(during) && |after| == Net(during)
    requires k <= |during| + |after|
    ensures var t := Timeline(during, start, after);
            k > 0 ==> CountFrom(1, t[..k]) >= 1
  {
    var t := Timeline(during, start, after);
    if k > 0 {
      if k <= |during| {
        assert t[..k] == during[..k];
      } else {
        var tail := seq(|after|, i requires 0 <= i < |after| => Done(after[i]));
        var j := k - |during| - 1;
        assert t[..k] == during + [Done(start)] + tail[..j];
        assert during[..|during|] == during;
        NetDones(during + [Done(start)], tail[..j]);
        NetSnoc(during, Done(start));
      }
    }
  }

  /** Completions only lower the count, one each. */
  lemma {:induction false} NetDones(a: seq<IoEvent>, ds: seq<IoEvent>)
    requires forall i :: 0 <= i < |ds| ==> ds[i].Done?
    ensures Net(a + ds) == Net(a) - |ds|
    decreases |ds|
  {
    if ds != [] {
      var init, last := ds[..|ds| - 1], ds[|ds| - 1];
      assert ds == init + [last];
      assert a + ds == (a + init) + [last];
      assert last.Done?;
      NetSnoc(a + init, last);
      NetDones(a, init);
    } else {
      assert a + ds == a;
    }
  }

  /** The whole timeline brings the count from 1 to 0. */
  lemma NetTimeline(during: seq<IoEvent>, start: Status, after: seq<Status>)
    requires |after| == Net(during)
    ensures CountFrom(1, Timeline(during, start, after)) == 0
  {
    var tail := seq(|after|, i requires 0 <= i < |after| => Done(after[i]));
    NetSnoc(during, Done(start));
    NetDones(during + [Done(start)], tail);
  }

  /** A count that stays positive after every non-empty prefix is never
      brought to zero. */
  lemma {:induction false} NoZeroHits(c: int, p: seq<IoEvent>)
    requires forall k :: 0 <= k <= |p| ==> CountFrom(c, p[..k]) >= 1 || k == 0
    ensures ZeroHits(c, p) == 0
    decreases |p|
  {
    if p != [] {
      var init := p[..|p| - 1];
      assert p[..|p|] == p;
      forall k | 0 <= k <= |init|
        ensures CountFrom(c, init[..k]) >= 1 || k == 0
      {
        assert init[..k] == p[..k];
      }
      NoZeroHits(c, init);
    }
  }

  /** Started at 0 instead, a sub-request that completes before the next
      one is issued completes the master request early, and the next one
      completes it a second time. */
  lemma CountZeroCompletesEarly(s: Status)
    ensures var t := Timeline([Issue, Done(s), Issue, Done(s)], s, []);
            Balanced(t[..4]) && ZeroHits(0, t[..2]) == 1 && ZeroHits(0, t) == 2
  {
    var t := Timeline([Issue, Done(s), Issue, Done(s)], s, []);
    var e0: seq<IoEvent> := [];
    var e1, e2, e3, e4, e5 := e0 + [Issue], e0 + [Issue, Done(s)], e0 + [Issue, Done(s), Issue],
      e0 + [Issue, Done(s), Issue, Done(s)], e0 + [Issue, Done(s), Issue, Done(s), Done(s)];
    assert t == e5;
    assert e1[..0] == e0 && e2[..1] == e1 && e3[..2] == e2 && e4[..3] == e3 && e5[..4] == e4;
    assert Net(e1) == 1 && Net(e2) == 0 && Net(e3) == 1 && Net(e4) == 0 && Net(e5) == -1;
    assert ZeroHits(0, e1) == 0;
    assert ZeroHits(0, e2) == 1;
    assert ZeroHits(0, e3) == 1;
    assert ZeroHits(0, e4) == 2;
    assert ZeroHits(0, e5) == 2;
    assert t[..4] == e4 && t[..2] == e2;
    forall k | 0 <= k <= 4
      ensures Net(e4[..k]) >= 0
    {
      if k == 0 { assert e4[..k] == e0; }
      else if k == 1 { assert e4[..k] == e1; }
      else if k == 2 { assert e4[..k] == e2; }
      else if k == 3 { assert e4[..k] == e3; }
      else { assert e4[..k] == e4; }
    }
  }

  /** The gather status is a success exactly when every status folded into
      it is one, and otherwise it is the latest failure. */
  lemma {:induction false} FoldAllSuccess(ss: seq<Status>)
    ensures NtSuccess(FoldAll(Success, ss)) <==> forall i :: 0 <= i < |ss| ==> NtSuccess(ss[i])
    ensures FoldAll(Success, ss) == Success || exists i :: 0 <= i < |ss| && FoldAll(Success, ss) == ss[i] && !NtSuccess(ss[i])
  {
    if ss != [] {
      var init := ss[..|ss| - 1];
      FoldAllSuccess(init);
      assert forall i :: 0 <= i < |init| ==> init[i] == ss[i];
    }
  }

  // ---------------------------------------------------------------------
  // The gather block

  /** `AFSGatherIo`: the count, the status, and whether the issuer waits. */
  class GatherIo {
    const master: Irp
    const pool: Pool
    const synchronous: bool
    var count: int
    var status: Status
    ghost var signalled: bool

    /** The block as the issuer sets it up: count 1, status success. */
    constructor (master: Irp, pool: Pool, synchronous: bool)
      ensures this.master == master && this.pool == pool && this.synchronous == synchronous
      ensures count == 1 && status == Success && !signalled
    {
      this.master := master;
      this.pool := pool;
      this.synchronous := synchronous;
      count := 1;
      status := Success;
      signalled := false;
    }

    /** A sub-request is issued. */
    method Issue()
      modifies this`count
      ensures count == old(count) + 1
    {
      count := count + 1;
    }

    /** `AFSCompleteIo`: one completion. The one that brings the count to
        zero completes the master request, sets the event when the issuer
        waits on it, and otherwise frees the block itself. */
    method CompleteIo(s: Status)
      requires count > 0 && pool.gatherBlocks > 0
      modifies this`count, this`status, this`signalled, master`completions
      modifies pool`gatherBlocks, pool`gatherFreedByCompletion
      ensures count == old(count) - 1 && status == Fold(old(status), s)
      ensures master.completions == old(master.completions) + (if count == 0 then [Completion(ByGather, status)] else [])
      ensures signalled == (old(signalled) || (count == 0 && synchronous))
      ensures pool.gatherBlocks == old(pool.gatherBlocks) - (if count == 0 && !synchronous then 1 else 0)
      ensures pool.gatherFreedByCompletion == old(pool.gatherFreedByCompletion) + (if count == 0 && !synchronous then 1 else 0)
    {
      count := count - 1;
      status := Fold(status, s);
      if count == 0 {
        master.Complete(ByGather, status);
        if synchronous {
          signalled := true;
        } else {
          pool.gatherBlocks := pool.gatherBlocks - 1;
          pool.gatherFreedByCompletion := pool.gatherFreedByCompletion + 1;
        }
      }
    }
  }
}
