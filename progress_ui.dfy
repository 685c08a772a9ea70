/** The terminal display of concurrent clones: its state, how each message
    changes it, and how it is drawn (internal/config/download.go). */
module ProgressUi {

  import opened Wrappers
  import opened Text
  import opened Sources
  import opened Events

  /** Width of a fresh progress bar (the default of the progress bar
      library). */
  const DefaultWidth := 40

  /** `repoProgress`, without the progress bar's animation state. The bar's
      fill colour that `View` assigns is not kept: `View` sets it on a copy. */
  datatype RepoProgress = RepoProgress(
    source: Source,
    width: int,
    percent: real,
    done: bool,
    err: Option<string>,
    downloadingSubmodules: bool,
    statusMessage: string)

  /** `model`: one entry per repository, and whether the user quit. */
  datatype UiState = UiState(repos: seq<RepoProgress>, quitting: bool)

  /** What `Update` hands back to the runtime: nothing, the quit command,
      or a command of the progress bars (their animation). */
  datatype Cmd = NoCmd | QuitCmd | BarCmd

  function InitialRepo(source: Source): RepoProgress {
    RepoProgress(source, DefaultWidth, 0.0, false, None, false, "")
  }

  /** The model `CloneMultiple` starts the program with. */
  function InitialUi(sources: seq<Source>): (st: UiState)
    ensures |st.repos| == |sources| && !st.quitting
    ensures forall k :: 0 <= k < |sources| ==> st.repos[k] == InitialRepo(sources[k])
  {
    UiState(seq(|sources|, k requires 0 <= k < |sources| => InitialRepo(sources[k])), false)
  }

  function Min(a: int, b: int): int { if a <= b then a else b }

  predicate IsQuitKey(m: Msg) { m.KeyPress? && (m.key == "q" || m.key == "ctrl+c") }

  predicate AllDone(repos: seq<RepoProgress>) {
    forall k :: 0 <= k < |repos| ==> repos[k].done
  }

  /** The fields a `doneMsg` sets. */
  function Finished(r: RepoProgress, e: Option<string>): RepoProgress {
    r.(done := true, err := e, percent := 1.0, downloadingSubmodules := false, statusMessage := "")
  }

  function Resized(repos: seq<RepoProgress>, width: int): (rs: seq<RepoProgress>)
    ensures |rs| == |repos|
  {
    seq(|repos|, k requires 0 <= k < |repos| => repos[k].(width := Min(width - 4, 80)))
  }

  /** `model.Update`: the new model and the command for one message. */
  function Step(st: UiState, msg: Msg): (r: (UiState, Cmd))
    ensures |r.0.repos| == |st.repos|
    ensures r.0.quitting <==> st.quitting || IsQuitKey(msg)
  {
    var rs := st.repos;
    match msg
    case KeyPress(key) =>
      if key == "q" || key == "ctrl+c" then (st.(quitting := true), QuitCmd) else (st, NoCmd)
    case WindowSize(w) => (st.(repos := Resized(rs, w)), NoCmd)
    case Progress(i, p) =>
      if 0 <= i < |rs| && !rs[i].done then (st.(repos := rs[i := rs[i].(percent := p)]), BarCmd)
      else (st, NoCmd)
    case Submodule(i, text) =>
      if 0 <= i < |rs| && !rs[i].done then
        (st.(repos := rs[i := rs[i].(downloadingSubmodules := true, statusMessage := text)]), NoCmd)
      else (st, NoCmd)
    case Done(i, e) =>
      if 0 <= i < |rs| then
        var rs' := rs[i := Finished(rs[i], e)];
        (st.(repos := rs'), if AllDone(rs') then QuitCmd else NoCmd)
      else (st, NoCmd)
    case Frame => (st, BarCmd)
    case Other => (st, NoCmd)
  }

  /** The program runs messages through `Step` until a step answers with
      the quit command; the flag says whether that happened. */
  function Run(st: UiState, msgs: seq<Msg>): (r: (UiState, bool))
    ensures |r.0.repos| == |st.repos|
    ensures !r.1 ==> r.0.quitting == st.quitting
    decreases |msgs|
  {
    if msgs == [] then (st, false)
    else
      var (st', cmd) := Step(st, msgs[0]);
      if cmd == QuitCmd then (st', true) else Run(st', msgs[1..])
  }

  /** The program quits on `q` or `ctrl+c`, and on a `Done` for a known
      repository once every other repository is done too; on nothing else. */
  lemma QuitExactly(st: UiState, msg: Msg)
    ensures Step(st, msg).1 == QuitCmd <==>
      IsQuitKey(msg) ||
      (msg.Done? && 0 <= msg.index < |st.repos| &&
       forall k :: 0 <= k < |st.repos| && k != msg.index ==> st.repos[k].done)
  {
    if msg.Done? && 0 <= msg.index < |st.repos| {
      var rs' := st.repos[msg.index := Finished(st.repos[msg.index], msg.error)];
      if AllDone(rs') {
        forall k | 0 <= k < |st.repos| && k != msg.index ensures st.repos[k].done {
          assert rs'[k] == st.repos[k];
        }
      }
    }
  }

  /** Only a quit key sets `quitting`, and nothing clears it. */
  lemma QuittingOnlyByKey(st: UiState, msg: Msg)
    ensures Step(st, msg).0.quitting <==> st.quitting || IsQuitKey(msg)
  {
  }

  /** A message about repository `i` changes no other repository; only a
      window resize touches them all, and then just their width. */
  lemma StepFrame(st: UiState, msg: Msg, k: int)
    requires 0 <= k < |st.repos|
    requires IsCloneMsg(msg) ==> msg.index != k
    ensures |Step(st, msg).0.repos| == |st.repos|
    ensures !msg.WindowSize? ==> Step(st, msg).0.repos[k] == st.repos[k]
    ensures msg.WindowSize? ==> Step(st, msg).0.repos[k] == st.repos[k].(width := Min(msg.width - 4, 80))
  {
  }

  /** A finished repository stays finished, and only another `Done` for it
      can change its error. */
  lemma DoneIsAbsorbing(st: UiState, msg: Msg, k: int)
    requires 0 <= k < |st.repos| && st.repos[k].done
    ensures Step(st, msg).0.repos[k].done
    ensures !(msg.Done? && msg.index == k) ==> Step(st, msg).0.repos[k].err == st.repos[k].err
  {
  }

  /** A finished repository shows a full bar and no submodule status. */
  predicate Tidy(st: UiState) {
    forall k :: 0 <= k < |st.repos| && st.repos[k].done ==>
      st.repos[k].percent == 1.0 && !st.repos[k].downloadingSubmodules && st.repos[k].statusMessage == ""
  }

  lemma TidyInitially(sources: seq<Source>)
    ensures Tidy(InitialUi(sources)) && forall k :: 0 <= k < |sources| ==> !InitialUi(sources).repos[k].done
  {
  }

  /** Progress and submodule messages for a finished repository are
      ignored, so every step keeps the display tidy. */
  lemma StepKeepsTidy(st: UiState, msg: Msg)
    requires Tidy(st)
    ensures Tidy(Step(st, msg).0)
  {
    var st' := Step(st, msg).0;
    forall k | 0 <= k < |st'.repos| && st'.repos[k].done
      ensures st'.repos[k].percent == 1.0 && !st'.repos[k].downloadingSubmodules && st'.repos[k].statusMessage == ""
    {
      if !(IsCloneMsg(msg) && msg.index == k) && !msg.WindowSize? {
        StepFrame(st, msg, k);
      }
    }
  }

  lemma {:induction false} RunKeepsTidy(st: UiState, msgs: seq<Msg>)
    requires Tidy(st)
    ensures Tidy(Run(st, msgs).0)
    decreases |msgs|
  {
    if msgs != [] {
      StepKeepsTidy(st, msgs[0]);
      if Step(st, msgs[0]).1 != QuitCmd { RunKeepsTidy(Step(st, msgs[0]).0, msgs[1..]); }
    }
  }

  /** The per-repository messages `msgs` delivers, each repository's `Done`
      once and with error `errs[i]`, for the repositories in `pending`;
      no quit key among them. */
  predicate Delivers(msgs: seq<Msg>, pending: set<int>, errs: seq<Option<string>>)
    decreases |msgs|
  {
    if msgs == [] then pending == {}
    else
      var m := msgs[0];
      !IsQuitKey(m) &&
      if m.Done? then
        m.index in pending && 0 <= m.index < |errs| && m.error == errs[m.index] &&
        Delivers(msgs[1..], pending - {m.index}, errs)
      else Delivers(msgs[1..], pending, errs)
  }

  function Pending(repos: seq<RepoProgress>): set<int> {
    set k | 0 <= k < |repos| && !repos[k].done
  }

  /** If every repository not yet done gets exactly one `Done` and nobody
      presses a quit key, the program quits, with every repository done
      and carrying the error of its `Done`. */
  lemma {:induction false} RunFinishes(st: UiState, msgs: seq<Msg>, errs: seq<Option<string>>)
    requires |errs| == |st.repos|
    requires Pending(st.repos) != {}
    requires forall k :: 0 <= k < |st.repos| && st.repos[k].done ==> st.repos[k].err == errs[k]
    requires Delivers(msgs, Pending(st.repos), errs)
    ensures Run(st, msgs).1
    ensures |Run(st, msgs).0.repos| == |st.repos| && AllDone(Run(st, msgs).0.repos)
    ensures forall k :: 0 <= k < |st.repos| ==> Run(st, msgs).0.repos[k].err == errs[k]
    decreases |msgs|
  {
    var m := msgs[0];
    var (st', cmd) := Step(st, m);
    forall k | 0 <= k < |st.repos| && !(IsCloneMsg(m) && m.index == k)
      ensures st'.repos[k].done == st.repos[k].done && st'.repos[k].err == st.repos[k].err
    {
      StepFrame(st, m, k);
    }
    if m.Done? {
      var i := m.index;
      assert st'.repos[i].done && st'.repos[i].err == errs[i];
      assert Pending(st'.repos) == Pending(st.repos) - {i};
      if cmd != QuitCmd {
        QuitExactly(st, m);
        assert Pending(st'.repos) != {} by {
          var k :| 0 <= k < |st.repos| && k != i && !st.repos[k].done;
          assert k in Pending(st'.repos);
        }
        RunFinishes(st', msgs[1..], errs);
      }
    } else {
      assert Pending(st'.repos) == Pending(st.repos);
      assert cmd != QuitCmd;
      RunFinishes(st', msgs[1..], errs);
    }
  }

  /** The first error in repository order, as `CloneMultiple` reports it. */
  function FirstError(repos: seq<RepoProgress>): (r: Option<string>)
    ensures r.None? <==> forall k :: 0 <= k < |repos| ==> repos[k].err.None?
    ensures r.Some? ==> exists k :: 0 <= k < |repos| && repos[k].err == r &&
                                    forall j :: 0 <= j < k ==> repos[j].err.None?
    decreases |repos|
  {
    if repos == [] then None
    else if repos[0].err.Some? then repos[0].err
    else
      var r := FirstError(repos[1..]);
      assert forall k :: 1 <= k < |repos| ==> repos[k] == repos[1..][k - 1];
      if r.Some? then
        var k :| 0 <= k < |repos[1..]| && repos[1..][k].err == r &&
                 forall j :: 0 <= j < k ==> repos[1..][j].err.None?;
        assert repos[k + 1].err == r;
        r
      else r
  }

  /** The label after a repository's address: an error beats done, done
      beats submodules, submodules beat finishing. */
  function StatusLabel(r: RepoProgress): string {
    if r.done then
      if r.err.Some? then " [ERROR: " + r.err.value + "]" else " [DONE]"
    else if r.downloadingSubmodules then " [SUBMODULES]"
    else if r.percent >= 0.99 then " [FINISHING]"
    else ""
  }

  /** The bar's fill colour: red for an error, green when done, blue while
      busy with submodules or finishing, yellow otherwise. */
  function BarColor(r: RepoProgress): string {
    if r.done then (if r.err.Some? then "9" else "10")
    else if r.downloadingSubmodules || r.percent >= 0.99 then "12"
    else "11"
  }

  /** Each state of a repository has its own label. */
  lemma StatusLabelMeaning(r: RepoProgress)
    ensures StatusLabel(r) == " [DONE]" <==> r.done && r.err.None?
    ensures StartsWith(StatusLabel(r), " [ERROR: ") <==> r.done && r.err.Some?
    ensures StatusLabel(r) == " [SUBMODULES]" <==> !r.done && r.downloadingSubmodules
    ensures StatusLabel(r) == " [FINISHING]" <==> !r.done && !r.downloadingSubmodules && r.percent >= 0.99
    ensures StatusLabel(r) == "" <==> !r.done && !r.downloadingSubmodules && r.percent < 0.99
  {
    var l := StatusLabel(r);
    if r.done && r.err.Some? {
      assert l[..9] == " [ERROR: ";
      assert l[2] == 'E';
    } else {
      assert l != [] ==> l[2] != 'E';
      assert |l| >= 9 ==> l[..9] != " [ERROR: " by {
        if |l| >= 9 { assert l[..9][2] == l[2]; }
      }
    }
  }

  /** One repository's lines: number and address with the label, the bar,
      the submodule status while there is one, and a blank line. `bar`
      draws a bar of the given width and colour at the given fraction. */
  function Block(i: nat, r: RepoProgress, bar: (int, string, real) -> string): string {
    HeaderLine(i, r) + BarLine(r, bar) + StatusLine(r) + "\n"
  }

  function HeaderLine(i: nat, r: RepoProgress): string {
    NatToString(i + 1) + ". " + r.source.url + StatusLabel(r) + "\n"
  }

  function BarLine(r: RepoProgress, bar: (int, string, real) -> string): string {
    "   " + bar(r.width, BarColor(r), r.percent) + "\n"
  }

  /** The submodule status line, shown only while there is one. */
  function StatusLine(r: RepoProgress): string {
    if r.downloadingSubmodules && r.statusMessage != "" then "   " + r.statusMessage + "\n" else ""
  }

  /** The blocks of the first `n` repositories. */
  function Blocks(repos: seq<RepoProgress>, n: nat, bar: (int, string, real) -> string): string
    requires n <= |repos|
  {
    if n == 0 then "" else Blocks(repos, n - 1, bar) + Block(n - 1, repos[n - 1], bar)
  }

  /** `model.View`. */
  function Screen(st: UiState, bar: (int, string, real) -> string): string {
    if st.quitting then "Quitting...\n"
    else Blocks(st.repos, |st.repos|, bar) + "Press q to quit.\n"
  }

  lemma OccursAtEnd(a: string, x: string)
    ensures OccursAt(a + x, x, |a|)
  {
  }

  lemma OccursInLonger(a: string, b: string, x: string, off: int)
    requires OccursAt(a, x, off)
    ensures OccursAt(a + b, x, off)
  {
    assert (a + b)[off..off + |x|] == a[off..off + |x|];
  }

  /** Unless the user quit, the screen shows every repository's block, in
      order, and ends with the hint. */
  lemma {:induction false} BlocksShowEach(repos: seq<RepoProgress>, n: nat, bar: (int, string, real) -> string, i: nat)
    requires i < n <= |repos|
    ensures exists off :: OccursAt(Blocks(repos, n, bar), Block(i, repos[i], bar), off)
    decreases n
  {
    var all, prev := Blocks(repos, n, bar), Blocks(repos, n - 1, bar);
    var last, x := Block(n - 1, repos[n - 1], bar), Block(i, repos[i], bar);
    assert all == prev + last;
    if i == n - 1 {
      OccursAtEnd(prev, last);
      assert OccursAt(all, x, |prev|);
    } else {
      BlocksShowEach(repos, n - 1, bar, i);
      var off :| OccursAt(prev, x, off);
      OccursInLonger(prev, last, x, off);
      assert OccursAt(all, x, off);
    }
  }

  lemma ScreenShowsEveryRepository(st: UiState, bar: (int, string, real) -> string, i: nat)
    requires !st.quitting && i < |st.repos|
    ensures exists off :: OccursAt(Screen(st, bar), Block(i, st.repos[i], bar), off)
    ensures EndsWith(Screen(st, bar), "Press q to quit.\n")
  {
    BlocksShowEach(st.repos, |st.repos|, bar, i);
    var b := Blocks(st.repos, |st.repos|, bar);
    var off :| OccursAt(b, Block(i, st.repos[i], bar), off);
    OccursInLonger(b, "Press q to quit.\n", Block(i, st.repos[i], bar), off);
    assert Screen(st, bar) == b + "Press q to quit.\n";
  }

  /** A tidy finished repository never shows a submodule status line. */
  lemma FinishedBlockHasNoStatusLine(st: UiState, k: int, bar: (int, string, real) -> string)
    requires Tidy(st) && 0 <= k < |st.repos| && st.repos[k].done
    ensures Block(k, st.repos[k], bar) ==
      NatToString(k + 1) + ". " + st.repos[k].source.url + StatusLabel(st.repos[k]) + "\n" +
      "   " + bar(st.repos[k].width, BarColor(st.repos[k]), 1.0) + "\n" + "\n"
  {
  }

  lemma BlockAppend(before: string, header: string, line: string, note: string)
    ensures before + header + line + note + "\n" == before + (header + line + note + "\n")
  {
  }

  /** The bubbletea model, holding the same array of repositories that
      `CloneMultiple` keeps: what `Update` records there is what
      `CloneMultiple` reads back. */
  class ProgressModel {
    const repos: array<RepoProgress>
    var quitting: bool

    constructor (repos: array<RepoProgress>)
      ensures this.repos == repos && !quitting
    {
      this.repos := repos;
      quitting := false;
    }

    function State(): UiState
      reads this, repos
    {
      UiState(repos[..], quitting)
    }

    /** The loop of `Update` that decides whether every repository is done. */
    method ScanAllDone() returns (allDone: bool)
      ensures allDone <==> forall k :: 0 <= k < repos.Length ==> repos[k].done
    {
      allDone := true;
      var k := 0;
      while k < repos.Length
        invariant 0 <= k <= repos.Length
        invariant forall j :: 0 <= j < k ==> repos[j].done
      {
        if !repos[k].done {
          allDone := false;
          break;
        }
        k := k + 1;
      }
    }

    /** `model.Update`. The progress bars' own updates (animation frames)
        leave no trace in the modelled state. */
    method Update(msg: Msg) returns (cmd: Cmd)
      modifies this, repos
      ensures State() == Step(old(State()), msg).0 && cmd == Step(old(State()), msg).1
    {
      match msg
      case KeyPress(key) =>
        if key == "q" || key == "ctrl+c" {
          quitting := true;
          return QuitCmd;
        }
        return NoCmd;
      case WindowSize(w) =>
        var k := 0;
        while k < repos.Length
          invariant 0 <= k <= repos.Length
          invariant forall j :: 0 <= j < k ==> repos[j] == old(repos[j]).(width := Min(w - 4, 80))
          invariant forall j :: k <= j < repos.Length ==> repos[j] == old(repos[j])
          invariant quitting == old(quitting)
        {
          repos[k] := repos[k].(width := Min(w - 4, 80));
          k := k + 1;
        }
        assert repos[..] == Resized(old(repos[..]), w);
        return NoCmd;
      case Progress(i, p) =>
        if 0 <= i < repos.Length && !repos[i].done {
          repos[i] := repos[i].(percent := p);
          return BarCmd;
        }
        return NoCmd;
      case Submodule(i, text) =>
        if 0 <= i < repos.Length && !repos[i].done {
          repos[i] := repos[i].(downloadingSubmodules := true, statusMessage := text);
          return NoCmd;
        }
        return NoCmd;
      case Done(i, e) =>
        if 0 <= i < repos.Length {
          repos[i] := Finished(repos[i], e);
          var allDone := ScanAllDone();
          if allDone {
            return QuitCmd;
          }
        }
        return NoCmd;
      case Frame =>
        return BarCmd;
      case Other =>
        return NoCmd;
    }

    /** The program's event loop over the delivered messages, until a quit
        command. */
    method RunProgram(msgs: seq<Msg>) returns (quit: bool)
      modifies this, repos
      ensures (State(), quit) == Run(old(State()), msgs)
    {
      var k := 0;
      quit := false;
      while k < |msgs|
        invariant 0 <= k <= |msgs|
        invariant Run(State(), msgs[k..]) == Run(old(State()), msgs)
        decreases |msgs| - k
      {
        assert msgs[k..][1..] == msgs[k + 1..];
        var cmd := Update(msgs[k]);
        if cmd == QuitCmd {
          return true;
        }
        k := k + 1;
      }
    }

    /** `model.View`, drawing bars with `bar`. */
    method View(bar: (int, string, real) -> string) returns (s: string)
      ensures s == Screen(State(), bar)
    {
      if quitting {
        return "Quitting...\n";
      }
      s := "";
      var k := 0;
      while k < repos.Length
        invariant 0 <= k <= repos.Length
        invariant s == Blocks(repos[..], k, bar)
      {
        var r := repos[k];
        ghost var before := s;
        var header := HeaderLine(k, r);
        var line := BarLine(r, bar);
        var note := StatusLine(r);
        s := s + header;
        s := s + line;
        s := s + note;
        s := s + "\n";
        assert Blocks(repos[..], k + 1, bar) == before + Block(k, r, bar);
        BlockAppend(before, header, line, note);
        k := k + 1;
      }
      s := s + "Press q to quit.\n";
    }
  }
}
