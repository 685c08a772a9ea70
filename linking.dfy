/** Creating the links from a project's `vendored/` directory into the
    cache: the plain loop used on Unix (internal/sudo/sudo_unix.go), the
    Windows variant that either links directly as administrator or
    relaunches itself elevated (internal/sudo/sudo_windows.go), and the
    elevated process's `link` command (main.go). */
module Linking {

  import opened Wrappers
  import opened Text
  import opened FileSystems

  /** `sudo.LinkData`: a link at `newname` that should point at `oldname`. */
  datatype LinkData = LinkData(oldname: string, newname: string)

  /** The errors the link code returns. */
  datatype LinkError =
    | InvalidLinkData(data: LinkData)   // "invalid link data: …"
    | LinkFailed(data: LinkData)        // the symlink call failed
    | ExecutableUnknown                 // "error getting executable path"
    | NulInArguments                    // "error converting arguments to UTF16"
    | NulInExecutablePath               // "error converting executable path to UTF16"
    | ElevationFailed                   // "error executing with admin privileges"

  /** Which of the three loops: `link` in main.go skips a pair whose two
      paths are equal and rejects an empty path; the Unix `Link` checks
      nothing; the Windows administrator loop stops (successfully) at the
      first pair whose paths are equal, rejects an empty path, and calls
      the symlink function with the two paths swapped. */
  datatype Policy = Elevated | Unix | WindowsAdmin

  function LinkTarget(p: Policy, d: LinkData): string { if p == WindowsAdmin then d.newname else d.oldname }
  function LinkName(p: Policy, d: LinkData): string { if p == WindowsAdmin then d.oldname else d.newname }

  predicate Skipped(p: Policy, d: LinkData) { p == Elevated && d.oldname == d.newname }
  predicate StopsHere(p: Policy, d: LinkData) { p == WindowsAdmin && d.oldname == d.newname }
  predicate Rejected(p: Policy, d: LinkData) { p != Unix && d.oldname != d.newname && (d.oldname == "" || d.newname == "") }

  /** The result of one of the loops, from pair `i` on, over the file
      system `nodes`: the file system afterwards and the error. */
  function LinkLoop(p: Policy, nodes: map<string, Node>, faulty: set<string>, batch: seq<LinkData>, i: nat)
    : (map<string, Node>, Option<LinkError>)
    requires i <= |batch|
    decreases |batch| - i
  {
    if i == |batch| then (nodes, None)
    else
      var d := batch[i];
      if StopsHere(p, d) then (nodes, None)
      else if Skipped(p, d) then LinkLoop(p, nodes, faulty, batch, i + 1)
      else if Rejected(p, d) then (nodes, Some(InvalidLinkData(d)))
      else if CanSymlink(nodes, faulty, LinkTarget(p, d), LinkName(p, d)) then
        LinkLoop(p, nodes[LinkName(p, d) := Link(LinkTarget(p, d))], faulty, batch, i + 1)
      else (nodes, Some(LinkFailed(d)))
  }

  /** After the pairs `i..j-1`: every pair not skipped is linked, nothing
      else was added, and nothing that existed changed. */
  predicate Reached(p: Policy, nodes: map<string, Node>, r: map<string, Node>, batch: seq<LinkData>, i: nat, j: nat)
    requires i <= j <= |batch|
  {
    (forall k :: i <= k < j && !Skipped(p, batch[k]) ==>
       LinkName(p, batch[k]) in r && r[LinkName(p, batch[k])] == Link(LinkTarget(p, batch[k]))) &&
    (forall q :: q in r && q !in nodes ==>
       exists k :: i <= k < j && !Skipped(p, batch[k]) && q == LinkName(p, batch[k])) &&
    (forall q :: q in nodes ==> q in r && r[q] == nodes[q])
  }

  /** Why a loop stopped with error `e` at pair `d`, `r` being the file
      system at that point. */
  predicate Blocked(p: Policy, r: map<string, Node>, faulty: set<string>, d: LinkData, e: LinkError) {
    (e == InvalidLinkData(d) && Rejected(p, d)) ||
    (e == LinkFailed(d) && !Rejected(p, d) && !CanSymlink(r, faulty, LinkTarget(p, d), LinkName(p, d)))
  }

  /** The pair at which a loop started at pair `i` stops: the end of the
      batch, a pair of equal paths on the administrator path, or the pair
      it fails at. */
  function StopAt(p: Policy, nodes: map<string, Node>, faulty: set<string>, batch: seq<LinkData>, i: nat): (j: nat)
    requires i <= |batch|
    ensures i <= j <= |batch|
    decreases |batch| - i
  {
    if i == |batch| then i
    else
      var d := batch[i];
      if StopsHere(p, d) then i
      else if Skipped(p, d) then StopAt(p, nodes, faulty, batch, i + 1)
      else if Rejected(p, d) then i
      else if CanSymlink(nodes, faulty, LinkTarget(p, d), LinkName(p, d)) then
        StopAt(p, nodes[LinkName(p, d) := Link(LinkTarget(p, d))], faulty, batch, i + 1)
      else i
  }

  /** What every loop does: it works through a prefix `i..j-1` of the
      batch, `j` being `StopAt`, linking each pair it does not skip, adding
      nothing else and changing nothing that existed. It succeeds only by
      reaching the end, or, on the Windows administrator path, at a pair of
      equal paths. It fails exactly at pair `j`, naming it, because the
      pair is invalid or its link cannot be created. */
  lemma {:induction false} LinkLoopOutcome(p: Policy, nodes: map<string, Node>, faulty: set<string>, batch: seq<LinkData>, i: nat)
    requires i <= |batch|
    ensures var (r, err) := LinkLoop(p, nodes, faulty, batch, i);
      var j := StopAt(p, nodes, faulty, batch, i);
      Reached(p, nodes, r, batch, i, j) &&
      (err.None? ==> j == |batch| || StopsHere(p, batch[j])) &&
      (err.Some? ==> j < |batch| && Blocked(p, r, faulty, batch[j], err.value))
    decreases |batch| - i
  {
    var (r, err) := LinkLoop(p, nodes, faulty, batch, i);
    if i == |batch| || StopsHere(p, batch[i]) || Rejected(p, batch[i]) {
      ReachedNothing(p, nodes, batch, i);
    } else if Skipped(p, batch[i]) {
      LinkLoopOutcome(p, nodes, faulty, batch, i + 1);
      ReachedAfterSkip(p, nodes, r, batch, i, StopAt(p, nodes, faulty, batch, i + 1));
    } else if CanSymlink(nodes, faulty, LinkTarget(p, batch[i]), LinkName(p, batch[i])) {
      var d := batch[i];
      var nodes' := nodes[LinkName(p, d) := Link(LinkTarget(p, d))];
      LinkLoopOutcome(p, nodes', faulty, batch, i + 1);
      ReachedAfterLink(p, nodes, r, batch, i, StopAt(p, nodes', faulty, batch, i + 1));
    } else {
      ReachedNothing(p, nodes, batch, i);
    }
  }

  lemma ReachedNothing(p: Policy, nodes: map<string, Node>, batch: seq<LinkData>, i: nat)
    requires i <= |batch|
    ensures Reached(p, nodes, nodes, batch, i, i)
  {
  }

  lemma ReachedAfterSkip(p: Policy, nodes: map<string, Node>, r: map<string, Node>, batch: seq<LinkData>, i: nat, j: nat)
    requires i < j <= |batch| && Skipped(p, batch[i])
    requires Reached(p, nodes, r, batch, i + 1, j)
    ensures Reached(p, nodes, r, batch, i, j)
  {
  }

  lemma ReachedAfterLink(p: Policy, nodes: map<string, Node>, r: map<string, Node>, batch: seq<LinkData>, i: nat, j: nat)
    requires i < j <= |batch| && !Skipped(p, batch[i])
    requires LinkName(p, batch[i]) !in nodes
    requires Reached(p, nodes[LinkName(p, batch[i]) := Link(LinkTarget(p, batch[i]))], r, batch, i + 1, j)
    ensures Reached(p, nodes, r, batch, i, j)
  {
    var d := batch[i];
    var nodes' := nodes[LinkName(p, d) := Link(LinkTarget(p, d))];
    assert LinkName(p, d) in nodes';
    forall q | q in r && q !in nodes
      ensures exists k :: i <= k < j && !Skipped(p, batch[k]) && q == LinkName(p, batch[k])
    {
      if q != LinkName(p, d) {
        assert q !in nodes';
      }
    }
  }

  /** A successful `link` (main.go) or Unix `Link` leaves behind every
      link of the batch, except the pairs `link` skips. */
  lemma SuccessLinksEverything(p: Policy, nodes: map<string, Node>, faulty: set<string>, batch: seq<LinkData>)
    requires p != WindowsAdmin
    requires LinkLoop(p, nodes, faulty, batch, 0).1.None?
    ensures var r := LinkLoop(p, nodes, faulty, batch, 0).0;
      forall k :: 0 <= k < |batch| && !Skipped(p, batch[k]) ==>
        batch[k].newname in r && r[batch[k].newname] == Link(batch[k].oldname)
  {
    LinkLoopOutcome(p, nodes, faulty, batch, 0);
  }

  /** On Unix, a batch whose links all have targets and go to distinct
      places where nothing is and nothing fails links completely. */
  lemma {:induction false} FreshLinksSucceed(nodes: map<string, Node>, faulty: set<string>, batch: seq<LinkData>, i: nat)
    requires i <= |batch|
    requires forall k :: i <= k < |batch| ==>
      batch[k].oldname != "" && batch[k].newname != "" && batch[k].newname !in nodes && batch[k].newname !in faulty
    requires forall j, k :: i <= j < k < |batch| ==> batch[j].newname != batch[k].newname
    ensures LinkLoop(Unix, nodes, faulty, batch, i).1.None?
    decreases |batch| - i
  {
    if i < |batch| {
      var d := batch[i];
      FreshLinksSucceed(nodes[d.newname := Link(d.oldname)], faulty, batch, i + 1);
    }
  }

  /** On Unix, a link name that is already taken makes the loop fail when
      it reaches a pair with that name. */
  lemma {:induction false} TakenNameFails(nodes: map<string, Node>, faulty: set<string>, batch: seq<LinkData>, i: nat, k: nat)
    requires i <= k < |batch|
    requires batch[k].newname in nodes
    ensures LinkLoop(Unix, nodes, faulty, batch, i).1.Some?
    decreases k - i
  {
    var d := batch[i];
    if i < k && CanSymlink(nodes, faulty, d.oldname, d.newname) {
      TakenNameFails(nodes[d.newname := Link(d.oldname)], faulty, batch, i + 1, k);
    }
  }

  /** On Unix, two pairs with one link name make the loop fail: nothing is
      skipped, so the second finds the first's link in its way. */
  lemma {:induction false} RepeatedNameFails(nodes: map<string, Node>, faulty: set<string>, batch: seq<LinkData>, i: nat, j: nat, k: nat)
    requires i <= j < k < |batch|
    requires batch[j].newname == batch[k].newname
    ensures LinkLoop(Unix, nodes, faulty, batch, i).1.Some?
    decreases j - i
  {
    var d := batch[i];
    if CanSymlink(nodes, faulty, d.oldname, d.newname) {
      var next := nodes[d.newname := Link(d.oldname)];
      if i < j {
        RepeatedNameFails(next, faulty, batch, i + 1, j, k);
      } else {
        TakenNameFails(next, faulty, batch, i + 1, k);
      }
    }
  }

  /** The Unix loop and main.go's loop agree on any batch without equal
      or empty paths. */
  lemma {:induction false} UnixMatchesElevated(nodes: map<string, Node>, faulty: set<string>, batch: seq<LinkData>, i: nat)
    requires i <= |batch|
    requires forall k :: i <= k < |batch| ==> batch[k].oldname != batch[k].newname && batch[k].oldname != "" && batch[k].newname != ""
    ensures LinkLoop(Unix, nodes, faulty, batch, i) == LinkLoop(Elevated, nodes, faulty, batch, i)
    decreases |batch| - i
  {
    if i < |batch| {
      var d := batch[i];
      if CanSymlink(nodes, faulty, d.oldname, d.newname) {
        UnixMatchesElevated(nodes[d.newname := Link(d.oldname)], faulty, batch, i + 1);
      }
    }
  }

  /** `link` in main.go. */
  method ElevatedLink(fs: FileSystem, batch: seq<LinkData>) returns (err: Option<LinkError>)
    modifies fs
    ensures (fs.nodes, err) == LinkLoop(Elevated, old(fs.nodes), fs.faulty, batch, 0)
  {
    var i := 0;
    while i < |batch|
      invariant 0 <= i <= |batch|
      invariant LinkLoop(Elevated, fs.nodes, fs.faulty, batch, i) == LinkLoop(Elevated, old(fs.nodes), fs.faulty, batch, 0)
    {
      var data := batch[i];
      if data.oldname == data.newname {
        i := i + 1;
        continue;
      }
      if data.newname == "" || data.oldname == "" {
        return Some(InvalidLinkData(data));
      }
      var ok := fs.Symlink(data.oldname, data.newname);
      if !ok {
        return Some(LinkFailed(data));
      }
      i := i + 1;
    }
    return None;
  }

  /** `Link` on Unix. */
  method UnixLink(fs: FileSystem, batch: seq<LinkData>) returns (err: Option<LinkError>)
    modifies fs
    ensures (fs.nodes, err) == LinkLoop(Unix, old(fs.nodes), fs.faulty, batch, 0)
  {
    var i := 0;
    while i < |batch|
      invariant 0 <= i <= |batch|
      invariant LinkLoop(Unix, fs.nodes, fs.faulty, batch, i) == LinkLoop(Unix, old(fs.nodes), fs.faulty, batch, 0)
    {
      var link := batch[i];
      var ok := fs.Symlink(link.oldname, link.newname);
      if !ok {
        return Some(LinkFailed(link));
      }
      i := i + 1;
    }
    return None;
  }

  /** The administrator branch of `Link` on Windows. */
  method AdminLink(fs: FileSystem, linkData: array<LinkData>) returns (err: Option<LinkError>)
    modifies fs
    ensures (fs.nodes, err) == LinkLoop(WindowsAdmin, old(fs.nodes), fs.faulty, linkData[..], 0)
  {
    var i := 0;
    while i < linkData.Length
      invariant 0 <= i <= linkData.Length
      invariant LinkLoop(WindowsAdmin, fs.nodes, fs.faulty, linkData[..], i) ==
                LinkLoop(WindowsAdmin, old(fs.nodes), fs.faulty, linkData[..], 0)
    {
      var ld := linkData[i];
      if ld.newname == ld.oldname {
        return None;
      }
      if ld.newname == "" || ld.oldname == "" {
        return Some(InvalidLinkData(ld));
      }
      var ok := fs.Symlink(ld.newname, ld.oldname);
      if !ok {
        return Some(LinkFailed(ld));
      }
      i := i + 1;
    }
    return None;
  }

  /** The administrator loop links each pair the wrong way round: given a
      cache directory and a free project path, it tries to create the link
      at the cache path, which already exists, and fails, where main.go's
      loop links the project path to the cache. */
  lemma AdminLinksBackwards(cache: string, vendored: string)
    requires cache != "" && vendored != "" && cache != vendored
    ensures var batch := [LinkData(cache, vendored)];
            var nodes := map[cache := Directory];
      LinkLoop(WindowsAdmin, nodes, {}, batch, 0) == (nodes, Some(LinkFailed(batch[0]))) &&
      LinkLoop(Elevated, nodes, {}, batch, 0).1 == None &&
      vendored in LinkLoop(Elevated, nodes, {}, batch, 0).0 &&
      LinkLoop(Elevated, nodes, {}, batch, 0).0[vendored] == Link(cache)
  {
    var batch := [LinkData(cache, vendored)];
    var nodes := map[cache := Directory];
    assert !CanSymlink(nodes, {}, vendored, cache);
    assert CanSymlink(nodes, {}, cache, vendored);
    assert LinkLoop(Elevated, nodes[vendored := Link(cache)], {}, batch, 1) == (nodes[vendored := Link(cache)], None);
  }

  /** The administrator loop ends the whole batch, reporting success, at
      the first pair of equal paths; main.go's loop skips that pair and
      links the rest. */
  lemma AdminStopsAtEqualPair(same: string, later: LinkData)
    requires later.oldname != "" && later.newname != "" && later.oldname != later.newname
    ensures var batch := [LinkData(same, same), later];
      LinkLoop(WindowsAdmin, map[], {}, batch, 0) == (map[], None) &&
      LinkLoop(Elevated, map[], {}, batch, 0) == (map[later.newname := Link(later.oldname)], None)
  {
    var batch := [LinkData(same, same), later];
    assert LinkLoop(Elevated, map[], {}, batch, 0) == LinkLoop(Elevated, map[], {}, batch, 1);
    assert CanSymlink(map[], {}, later.oldname, later.newname);
    assert LinkLoop(Elevated, map[later.newname := Link(later.oldname)], {}, batch, 2) == (map[later.newname := Link(later.oldname)], None);
  }

  /** The intended administrator loop: that of main.go. On a batch without
      equal or empty paths it does what the Unix loop does. */
  lemma IntendedAdminMatchesUnix(nodes: map<string, Node>, faulty: set<string>, batch: seq<LinkData>)
    requires forall k :: 0 <= k < |batch| ==> batch[k].oldname != batch[k].newname && batch[k].oldname != "" && batch[k].newname != ""
    ensures LinkLoop(Elevated, nodes, faulty, batch, 0) == LinkLoop(Unix, nodes, faulty, batch, 0)
    ensures LinkLoop(Elevated, nodes, faulty, batch, 0).1.None? ==>
      forall k :: 0 <= k < |batch| ==>
        batch[k].newname in LinkLoop(Elevated, nodes, faulty, batch, 0).0 &&
        LinkLoop(Elevated, nodes, faulty, batch, 0).0[batch[k].newname] == Link(batch[k].oldname)
  {
    UnixMatchesElevated(nodes, faulty, batch, 0);
    if LinkLoop(Elevated, nodes, faulty, batch, 0).1.None? {
      SuccessLinksEverything(Elevated, nodes, faulty, batch);
    }
  }

  predicate IsSeparator(c: char) { c == '\\' || c == '/' }

  /** `filepath.IsAbs` on Windows, for the two common forms: a drive letter
      with a colon and a separator, or a path starting with two separators
      (a network share). */
  predicate IsAbsWindows(p: string) {
    (|p| >= 3 && (('a' <= p[0] <= 'z') || ('A' <= p[0] <= 'Z')) && p[1] == ':' && IsSeparator(p[2])) ||
    (|p| >= 2 && IsSeparator(p[0]) && IsSeparator(p[1]))
  }

  /** A path as the non-administrator branch leaves it: absolute paths
      stay; others become what `filepath.Abs` returns, which is the empty
      string when it fails (its error is ignored). `abs` stands for
      `filepath.Abs`, which depends on the working directory. */
  function Absolute(p: string, abs: string -> Option<string>): string {
    if IsAbsWindows(p) then p else match abs(p) case Some(a) => a case None => ""
  }

  function Absolutised(batch: seq<LinkData>, abs: string -> Option<string>): (r: seq<LinkData>)
    ensures |r| == |batch|
    ensures forall k :: 0 <= k < |batch| ==> r[k] == LinkData(Absolute(batch[k].oldname, abs), Absolute(batch[k].newname, abs))
  {
    seq(|batch|, k requires 0 <= k < |batch| => LinkData(Absolute(batch[k].oldname, abs), Absolute(batch[k].newname, abs)))
  }

  /** If `filepath.Abs` yields absolute paths, every path of the batch is
      absolute or empty afterwards; a pair already absolute is kept. */
  lemma AbsolutisedIsAbsolute(batch: seq<LinkData>, abs: string -> Option<string>)
    requires forall p :: abs(p).Some? ==> IsAbsWindows(abs(p).value)
    ensures forall k :: 0 <= k < |batch| ==>
      (IsAbsWindows(Absolutised(batch, abs)[k].oldname) || Absolutised(batch, abs)[k].oldname == "") &&
      (IsAbsWindows(Absolutised(batch, abs)[k].newname) || Absolutised(batch, abs)[k].newname == "")
    ensures forall k :: 0 <= k < |batch| && IsAbsWindows(batch[k].oldname) && IsAbsWindows(batch[k].newname) ==>
      Absolutised(batch, abs)[k] == batch[k]
  {
  }

  /** When `filepath.Abs` never fails, rewriting a second time changes
      nothing. (A failure leaves an empty path, which a second pass would
      replace by the working directory.) */
  lemma AbsolutisedIdempotent(batch: seq<LinkData>, abs: string -> Option<string>)
    requires forall p :: abs(p).Some? && IsAbsWindows(abs(p).value)
    ensures Absolutised(Absolutised(batch, abs), abs) == Absolutised(batch, abs)
  {
    var once := Absolutised(batch, abs);
    forall k | 0 <= k < |batch|
      ensures Absolutised(once, abs)[k] == once[k]
    {
      assert IsAbsWindows(abs(batch[k].oldname).value) && IsAbsWindows(abs(batch[k].newname).value);
    }
  }

  /** The loop of the non-administrator branch, rewriting the caller's
      slice in place. */
  method Absolutise(linkData: array<LinkData>, abs: string -> Option<string>)
    modifies linkData
    ensures linkData[..] == Absolutised(old(linkData[..]), abs)
  {
    var i := 0;
    while i < linkData.Length
      invariant 0 <= i <= linkData.Length
      invariant forall k :: 0 <= k < i ==>
        linkData[k] == LinkData(Absolute(old(linkData[k]).oldname, abs), Absolute(old(linkData[k]).newname, abs))
      invariant forall k :: i <= k < linkData.Length ==> linkData[k] == old(linkData[k])
    {
      var ld := linkData[i];
      var changed := false;
      if !IsAbsWindows(ld.newname) {
        var a := abs(ld.newname);
        ld := ld.(newname := if a.Some? then a.value else "");
        changed := true;
      }
      if !IsAbsWindows(ld.oldname) {
        var a := abs(ld.oldname);
        ld := ld.(oldname := if a.Some? then a.value else "");
        changed := true;
      }
      if changed {
        linkData[i] := ld;
      }
      i := i + 1;
    }
  }

  /** The elevated relaunch: verb, program and its parameters, which are
      `link` and the encoded batch. */
  datatype Launch = Launch(verb: string, file: string, parameters: string)

  /** `Link` on Windows. Whether the process is an administrator, the
      executable's path (`os.Executable`), `filepath.Abs`, the batch's
      encoding (JSON in URL-safe base64) and whether the relaunch starts
      are parameters. It returns the error and the relaunch it asked for. */
  method WindowsLink(fs: FileSystem, linkData: array<LinkData>, admin: bool, exe: Option<string>,
                     abs: string -> Option<string>, encode: seq<LinkData> -> string, launchOk: bool)
    returns (err: Option<LinkError>, launched: Option<Launch>)
    modifies fs, linkData
    ensures admin ==> (fs.nodes, err) == LinkLoop(WindowsAdmin, old(fs.nodes), fs.faulty, old(linkData[..]), 0)
    ensures admin ==> launched.None? && linkData[..] == old(linkData[..])
    ensures !admin ==> fs.nodes == old(fs.nodes) && linkData[..] == Absolutised(old(linkData[..]), abs)
    ensures !admin ==> var parameters := "link " + encode(linkData[..]);
      if exe.None? then err == Some(ExecutableUnknown) && launched.None?
      else if '\0' in parameters then err == Some(NulInArguments) && launched.None?
      else if '\0' in exe.value then err == Some(NulInExecutablePath) && launched.None?
      else launched == Some(Launch("runas", exe.value, parameters)) &&
           err == (if launchOk then None else Some(ElevationFailed))
  {
    if admin {
      err := AdminLink(fs, linkData);
      return err, None;
    }
    Absolutise(linkData, abs);
    if exe.None? {
      return Some(ExecutableUnknown), None;
    }
    var parameters := "link " + encode(linkData[..]);
    if '\0' in parameters {
      return Some(NulInArguments), None;
    }
    if '\0' in exe.value {
      return Some(NulInExecutablePath), None;
    }
    launched := Some(Launch("runas", exe.value, parameters));
    if !launchOk {
      return Some(ElevationFailed), launched;
    }
    return None, launched;
  }

  /** What `main` does with its arguments. */
  datatype Invocation = LinkCommand(encoded: string) | Cli

  /** Exactly three arguments with `link` as the first after the program
      name select the link command; anything else goes to the command
      line interface. */
  function Dispatch(args: seq<string>): (r: Invocation)
    ensures r.LinkCommand? <==> |args| == 3 && args[1] == "link"
    ensures r.LinkCommand? ==> r.encoded == args[2]
  {
    if |args| == 3 && args[1] == "link" then LinkCommand(args[2]) else Cli
  }

  datatype MainOutcome = Exited(code: int) | RanCli

  /** `main`: the link command decodes its batch (a decoding error is
      ignored and leaves the batch empty), links it, and exits with 1 on
      an error. `decode` stands for the URL-safe base64 and JSON decoding. */
  method RunMain(fs: FileSystem, args: seq<string>, decode: string -> Option<seq<LinkData>>)
    returns (outcome: MainOutcome)
    modifies fs
    ensures Dispatch(args).Cli? ==> outcome == RanCli && fs.nodes == old(fs.nodes)
    ensures Dispatch(args).LinkCommand? ==>
      var r := LinkLoop(Elevated, old(fs.nodes), fs.faulty, DecodedBatch(args, decode), 0);
      fs.nodes == r.0 && outcome == Exited(if r.1.Some? then 1 else 0)
  {
    match Dispatch(args)
    case Cli =>
      return RanCli;
    case LinkCommand(encoded) =>
      var batch := match decode(encoded) case Some(b) => b case None => [];
      var err := ElevatedLink(fs, batch);
      if err.Some? {
        return Exited(1);
      }
      return Exited(0);
  }

  /** The batch the link command links: the decoded one, or none at all
      when decoding fails. */
  function DecodedBatch(args: seq<string>, decode: string -> Option<seq<LinkData>>): seq<LinkData>
    requires |args| == 3
  {
    match decode(args[2]) case Some(b) => b case None => []
  }

  /** A link command whose batch cannot be decoded changes nothing and
      exits with 0: the state and exit code `RunMain` ends in are those of
      the unchanged file system. */
  lemma UndecodableBatchDoesNothing(nodes: map<string, Node>, faulty: set<string>, args: seq<string>,
                                    decode: string -> Option<seq<LinkData>>)
    requires Dispatch(args).LinkCommand? && decode(args[2]).None?
    ensures var r := LinkLoop(Elevated, nodes, faulty, DecodedBatch(args, decode), 0);
      r.0 == nodes && (if r.1.Some? then 1 else 0) == 0
  {
  }
}
