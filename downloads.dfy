/** `CloneMultiple`: one clone per source, all reporting to one display,
    and the error it returns (internal/config/download.go). The clones run
    concurrently; the display sees their messages merged in some order,
    each clone's own messages in the order it sent them. That merged order
    is the parameter `msgs`. */
module Downloads {

  import opened Wrappers
  import opened Sources
  import opened Events
  import opened ProgressUi

  /** The messages about repository `i`, in delivery order. */
  function OfIndex(msgs: seq<Msg>, i: int): seq<Msg>
    decreases |msgs|
  {
    if msgs == [] then []
    else (if IsCloneMsg(msgs[0]) && msgs[0].index == i then [msgs[0]] else []) + OfIndex(msgs[1..], i)
  }

  predicate NoDone(t: seq<Msg>) { forall k :: 0 <= k < |t| ==> !t[k].Done? }

  /** A clone's stream: it ends with its one `Done`, carrying `e`. */
  predicate StreamOk(t: seq<Msg>, i: int, e: Option<string>) {
    t != [] && t[|t| - 1] == Done(i, e) && NoDone(t[..|t| - 1])
  }

  /** Every stream `cloneRepository` sends has that shape. */
  lemma CloneStreamOk(i: int, destExists: bool, writes: seq<string>, cloneErr: Option<string>)
    ensures StreamOk(CloneEvents(i, destExists, writes, cloneErr), i, if destExists then None else cloneErr)
  {
    CloneEventsShape(i, destExists, writes, cloneErr);
  }

  lemma OfIndexCons(msgs: seq<Msg>, i: int)
    requires msgs != []
    ensures OfIndex(msgs, i) ==
      (if IsCloneMsg(msgs[0]) && msgs[0].index == i then [msgs[0]] else []) + OfIndex(msgs[1..], i)
  {
  }

  /** A stream starts with its `Done` exactly when that is all of it. */
  lemma StreamHead(m: Msg, t: seq<Msg>, i: int, e: Option<string>)
    requires StreamOk([m] + t, i, e)
    ensures m.Done? <==> t == []
    ensures t == [] ==> m == Done(i, e)
  {
    var u := [m] + t;
    assert u[0] == m;
    if |u| > 1 { assert u[..|u| - 1][0] == u[0]; }
  }

  lemma StreamTail(m: Msg, t: seq<Msg>, i: int, e: Option<string>)
    requires !m.Done? && StreamOk([m] + t, i, e)
    ensures StreamOk(t, i, e)
  {
    var u := [m] + t;
    assert |u| > 1;
    var front, front' := t[..|t| - 1], u[..|u| - 1];
    assert forall k :: 0 <= k < |front| ==> front[k] == front'[k + 1];
  }

  lemma NoDoneTail(m: Msg, t: seq<Msg>)
    requires NoDone([m] + t)
    ensures NoDone(t) && !m.Done?
  {
    assert forall k :: 0 <= k < |t| ==> t[k] == ([m] + t)[k + 1];
    assert ([m] + t)[0] == m;
  }

  /** Merging clone streams (and runtime messages that are not quit keys)
      delivers each pending repository's `Done` exactly once. */
  lemma {:induction false} InterleavingDelivers(msgs: seq<Msg>, n: nat, pending: set<int>, errs: seq<Option<string>>)
    requires |errs| == n
    requires forall k :: 0 <= k < |msgs| && IsCloneMsg(msgs[k]) ==> 0 <= msgs[k].index < n
    requires forall k :: 0 <= k < |msgs| ==> !IsQuitKey(msgs[k])
    requires forall i :: i in pending ==> 0 <= i < n && StreamOk(OfIndex(msgs, i), i, errs[i])
    requires forall i :: 0 <= i < n && i !in pending ==> NoDone(OfIndex(msgs, i))
    ensures Delivers(msgs, pending, errs)
    decreases |msgs|
  {
    if msgs == [] {
      assert forall i, e :: !StreamOk(OfIndex(msgs, i), i, e);
      assert forall i :: i !in pending;
      assert pending == {};
    } else {
      var m := msgs[0];
      var rest := msgs[1..];
      assert forall k :: 0 <= k < |rest| ==> rest[k] == msgs[k + 1];
      assert IsCloneMsg(m) ==> 0 <= m.index < n;
      var pending' := if m.Done? then pending - {m.index} else pending;
      if m.Done? {
        OfIndexCons(msgs, m.index);
        if m.index !in pending {
          NoDoneTail(m, OfIndex(rest, m.index));
        }
        StreamHead(m, OfIndex(rest, m.index), m.index, errs[m.index]);
      }
      forall i | i in pending'
        ensures StreamOk(OfIndex(rest, i), i, errs[i])
      {
        OfIndexCons(msgs, i);
        assert i in pending;
        if IsCloneMsg(m) && m.index == i {
          assert OfIndex(msgs, i) == [m] + OfIndex(rest, i);
          StreamHead(m, OfIndex(rest, i), i, errs[i]);
          StreamTail(m, OfIndex(rest, i), i, errs[i]);
        } else {
          assert OfIndex(msgs, i) == OfIndex(rest, i);
        }
      }
      forall i | 0 <= i < n && i !in pending'
        ensures NoDone(OfIndex(rest, i))
      {
        OfIndexCons(msgs, i);
        if IsCloneMsg(m) && m.index == i {
          assert OfIndex(msgs, i) == [m] + OfIndex(rest, i);
          if i in pending {
            StreamHead(m, OfIndex(rest, i), i, errs[i]);
          } else {
            NoDoneTail(m, OfIndex(rest, i));
          }
        } else {
          assert OfIndex(msgs, i) == OfIndex(rest, i);
        }
      }
      InterleavingDelivers(rest, n, pending', errs);
    }
  }

  /** What `CloneMultiple` returns, or that it is still waiting because the
      display never quit. */
  datatype CloneOutcome = Finished(err: Option<string>) | StillRunning

  /** The result of `CloneMultiple` for the messages the display handles;
      `uiErr` is the error the display program itself fails with. */
  function CloneResult(sources: seq<Source>, msgs: seq<Msg>, uiErr: Option<string>): CloneOutcome {
    if |sources| == 0 then Finished(None)
    else if uiErr.Some? then Finished(uiErr)
    else
      var (st, quit) := Run(InitialUi(sources), msgs);
      if quit then Finished(FirstError(st.repos)) else StillRunning
  }

  /** From a display where nothing is done yet, complete clone streams
      make the program quit with every repository done and carrying its
      stream's error. */
  lemma StreamsFinish(st: UiState, msgs: seq<Msg>, errs: seq<Option<string>>)
    requires |st.repos| >= 1 && |errs| == |st.repos|
    requires forall k :: 0 <= k < |st.repos| ==> !st.repos[k].done
    requires forall k :: 0 <= k < |msgs| && IsCloneMsg(msgs[k]) ==> 0 <= msgs[k].index < |st.repos|
    requires forall k :: 0 <= k < |msgs| ==> !IsQuitKey(msgs[k])
    requires forall i :: 0 <= i < |st.repos| ==> StreamOk(OfIndex(msgs, i), i, errs[i])
    ensures Run(st, msgs).1
    ensures |Run(st, msgs).0.repos| == |st.repos| && AllDone(Run(st, msgs).0.repos)
    ensures forall k :: 0 <= k < |st.repos| ==> Run(st, msgs).0.repos[k].err == errs[k]
  {
    var n := |st.repos|;
    assert 0 in Pending(st.repos);
    forall i | i in Pending(st.repos)
      ensures 0 <= i < n && StreamOk(OfIndex(msgs, i), i, errs[i])
    {
    }
    forall i | 0 <= i < n
      ensures i in Pending(st.repos)
    {
    }
    InterleavingDelivers(msgs, n, Pending(st.repos), errs);
    RunFinishes(st, msgs, errs);
  }

  /** The main property of concurrent cloning: when every clone has sent
      its stream and nobody pressed a quit key, the display quits by
      itself and `CloneMultiple` returns the error of the first failing
      source in list order, or none when all succeeded. */
  lemma ClonesFinishWithFirstError(sources: seq<Source>, msgs: seq<Msg>, errs: seq<Option<string>>)
    requires |sources| >= 1 && |errs| == |sources|
    requires forall k :: 0 <= k < |msgs| && IsCloneMsg(msgs[k]) ==> 0 <= msgs[k].index < |sources|
    requires forall k :: 0 <= k < |msgs| ==> !IsQuitKey(msgs[k])
    requires forall i :: 0 <= i < |sources| ==> StreamOk(OfIndex(msgs, i), i, errs[i])
    ensures var r := CloneResult(sources, msgs, None);
      r.Finished? &&
      (r.err.None? <==> forall k :: 0 <= k < |errs| ==> errs[k].None?) &&
      (r.err.Some? ==> exists k :: 0 <= k < |errs| && errs[k] == r.err &&
                                   forall j :: 0 <= j < k ==> errs[j].None?)
  {
    var st := InitialUi(sources);
    StreamsFinish(st, msgs, errs);
    var (fin, quit) := Run(st, msgs);
    FirstErrorOfErrs(fin.repos, errs);
    assert CloneResult(sources, msgs, None) == Finished(FirstError(fin.repos));
  }

  /** `FirstError` read off the errors themselves. */
  lemma FirstErrorOfErrs(repos: seq<RepoProgress>, errs: seq<Option<string>>)
    requires |repos| == |errs| && forall k :: 0 <= k < |repos| ==> repos[k].err == errs[k]
    ensures var fe := FirstError(repos);
      (fe.None? <==> forall k :: 0 <= k < |errs| ==> errs[k].None?) &&
      (fe.Some? ==> exists k :: 0 <= k < |errs| && errs[k] == fe &&
                                forall j :: 0 <= j < k ==> errs[j].None?)
  {
  }

  /** The same for the streams `cloneRepository` sends: a source whose
      destination exists counts as succeeded, any other carries git's
      result. */
  lemma ClonesOfRepositories(sources: seq<Source>, msgs: seq<Msg>, destExists: seq<bool>,
                             writes: seq<seq<string>>, cloneErrs: seq<Option<string>>)
    requires |sources| >= 1
    requires |destExists| == |writes| == |cloneErrs| == |sources|
    requires forall k :: 0 <= k < |msgs| && IsCloneMsg(msgs[k]) ==> 0 <= msgs[k].index < |sources|
    requires forall k :: 0 <= k < |msgs| ==> !IsQuitKey(msgs[k])
    requires forall i :: 0 <= i < |sources| ==>
      OfIndex(msgs, i) == CloneEvents(i, destExists[i], writes[i], cloneErrs[i])
    ensures var r := CloneResult(sources, msgs, None);
      r.Finished? &&
      (r.err.None? <==> forall k :: 0 <= k < |sources| ==> destExists[k] || cloneErrs[k].None?) &&
      (r.err.Some? ==> exists k :: 0 <= k < |sources| && !destExists[k] && cloneErrs[k] == r.err &&
                                   forall j :: 0 <= j < k ==> destExists[j] || cloneErrs[j].None?)
  {
    var errs := CloneErrs(destExists, cloneErrs);
    forall i | 0 <= i < |sources|
      ensures StreamOk(OfIndex(msgs, i), i, errs[i])
    {
      CloneStreamOk(i, destExists[i], writes[i], cloneErrs[i]);
    }
    ClonesFinishWithFirstError(sources, msgs, errs);
  }

  /** The error each clone's `Done` carries. */
  function CloneErrs(destExists: seq<bool>, cloneErrs: seq<Option<string>>): (errs: seq<Option<string>>)
    requires |destExists| == |cloneErrs|
    ensures |errs| == |cloneErrs|
    ensures forall k :: 0 <= k < |errs| ==> errs[k] == if destExists[k] then None else cloneErrs[k]
  {
    seq(|cloneErrs|, k requires 0 <= k < |cloneErrs| => if destExists[k] then None else cloneErrs[k])
  }

  /** `CloneMultiple`. The screen array is shared by the display model and
      this method, so the errors the display records are the ones read
      back at the end. */
  method CloneMultiple(sources: seq<Source>, msgs: seq<Msg>, uiErr: Option<string>) returns (r: CloneOutcome)
    ensures r == CloneResult(sources, msgs, uiErr)
    ensures |sources| == 0 ==> r == Finished(None)
  {
    if |sources| == 0 {
      return Finished(None);
    }
    var repos := new RepoProgress[|sources|](k requires 0 <= k < |sources| => InitialRepo(sources[k]));
    var m := new ProgressModel(repos);
    assert m.State() == InitialUi(sources);
    var quit := m.RunProgram(msgs);
    if uiErr.Some? {
      return Finished(uiErr);
    }
    if !quit {
      return StillRunning;
    }
    var k := 0;
    while k < repos.Length
      invariant 0 <= k <= repos.Length
      invariant forall j :: 0 <= j < k ==> repos[j].err.None?
      invariant FirstError(repos[..]) == FirstError(repos[k..])
    {
      assert repos[k..][1..] == repos[k + 1..];
      if repos[k].err.Some? {
        return Finished(repos[k].err);
      }
      k := k + 1;
    }
    return Finished(None);
  }
}
