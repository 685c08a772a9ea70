/** The project's list of pinned sources and the commands on it: adding,
    removing, finding the configuration file, and syncing the `vendored`
    directory (internal/config/config.go). */
module Registry {

  import opened Wrappers
  import opened Text
  import opened Paths
  import opened User
  import opened Sources
  import opened FileSystems
  import opened Linking
  import opened Events
  import opened Downloads

  const ConfigFileName := "vend.yaml"
  const VendoredDir := "vendored"

  datatype ConfigError =
    | InvalidSourceFormat          // "invalid source format, expected '<url>@<tag>'"
    | SourceExists(source: string) // "source … exists already"
    | SourceNotFound(source: string)

  predicate HasUrl(sources: seq<Source>, url: string) {
    exists k :: 0 <= k < |sources| && sources[k].url == url
  }

  predicate UniqueUrls(sources: seq<Source>) {
    forall i, j :: 0 <= i < j < |sources| ==> sources[i].url != sources[j].url
  }

  /** `Config.Add` on the list of sources. */
  function AddSources(sources: seq<Source>, source: string): Result<seq<Source>, ConfigError> {
    match ParseSource(source)
    case None => Err(InvalidSourceFormat)
    case Some(s) => if HasUrl(sources, s.url) then Err(SourceExists(source)) else Ok(sources + [s])
  }

  /** Adding `u@r` appends `Source(u, r)` unless the URL is pinned
      already; the URL is everything before the last `@`. */
  lemma AddAppendsSource(sources: seq<Source>, u: string, r: string)
    requires u != "" && r != "" && '@' !in r && '\n' !in u
    ensures AddSources(sources, u + "@" + r) ==
      if HasUrl(sources, u) then Err(SourceExists(u + "@" + r)) else Ok(sources + [Source(u, r)])
  {
    ParseSourceMatches(u + "@" + r, u, r);
  }

  /** A string that is not `<url>@<ref>` is refused. */
  lemma AddRejectsMalformed(sources: seq<Source>, source: string)
    requires forall u, r :: source == u + "@" + r ==> u == "" || r == "" || '@' in r || '\n' in u
    ensures AddSources(sources, source) == Err(InvalidSourceFormat)
  {
    if ParseSource(source).Some? {
      var s := ParseSource(source).value;
      ParseSourceMatches(source, s.url, s.referenceName);
    }
  }

  /** Adding never pins one URL twice. */
  lemma AddKeepsUrlsUnique(sources: seq<Source>, source: string)
    requires UniqueUrls(sources) && AddSources(sources, source).Ok?
    ensures UniqueUrls(AddSources(sources, source).value)
    ensures |AddSources(sources, source).value| == |sources| + 1
  {
  }

  /** Is `s` what the bare argument `id` of `remove` names? */
  predicate Identifies(s: Source, id: string) {
    s.url == id || Name(s) == id || ShortName(s) == id
  }

  function FirstIdentified(sources: seq<Source>, id: string): (r: Option<nat>)
    ensures r.Some? ==> r.value < |sources| && Identifies(sources[r.value], id)
    ensures forall k :: 0 <= k < |sources| && (r.Some? ==> k < r.value) ==> !Identifies(sources[k], id)
    decreases |sources|
  {
    if sources == [] then None
    else if Identifies(sources[0], id) then Some(0)
    else
      var t := FirstIdentified(sources[1..], id);
      assert forall k :: 1 <= k < |sources| ==> sources[k] == sources[1..][k - 1];
      if t.None? then None else Some(t.value + 1)
  }

  /** The first designated source is the one before which none is. */
  lemma FirstIdentifiedIs(sources: seq<Source>, id: string, found: Option<nat>)
    requires found.Some? ==> found.value < |sources| && Identifies(sources[found.value], id)
    requires forall k :: 0 <= k < |sources| && (found.Some? ==> k < found.value) ==> !Identifies(sources[k], id)
    ensures FirstIdentified(sources, id) == found
  {
    var r := FirstIdentified(sources, id);
    if found.Some? {
      assert r.Some? && !(r.value < found.value) && !(found.value < r.value);
    }
  }

  function FirstWithUrl(sources: seq<Source>, url: string): (r: Option<nat>)
    ensures r.Some? ==> r.value < |sources| && sources[r.value].url == url
    ensures forall k :: 0 <= k < |sources| && (r.Some? ==> k < r.value) ==> sources[k].url != url
    decreases |sources|
  {
    if sources == [] then None
    else if sources[0].url == url then Some(0)
    else match FirstWithUrl(sources[1..], url) case None => None case Some(k) => Some(k + 1)
  }

  function Delete(sources: seq<Source>, i: nat): seq<Source>
    requires i < |sources|
  {
    sources[..i] + sources[i + 1..]
  }

  datatype RemoveOutcome = Removed(rest: seq<Source>) | NotFound | IndexPanic

  /** `Config.Remove` as written: a bare argument that names no source
      falls through to the loop over `match[1]`, whose match is nil, so
      any non-empty list makes it index out of range. */
  function RemoveAsWritten(sources: seq<Source>, source: string): RemoveOutcome {
    match ParseSource(source)
    case None =>
      (match FirstIdentified(sources, source)
       case Some(i) => Removed(Delete(sources, i))
       case None => if sources != [] then IndexPanic else NotFound)
    case Some(m) =>
      match FirstWithUrl(sources, m.url)
      case Some(i) => Removed(Delete(sources, i))
      case None => NotFound
  }

  /** `remove name` for a name no source answers to panics whenever some
      source is configured. */
  lemma RemoveUnknownNamePanics(sources: seq<Source>, name: string)
    requires sources != [] && '@' !in name
    requires forall k :: 0 <= k < |sources| ==> !Identifies(sources[k], name)
    ensures RemoveAsWritten(sources, name) == IndexPanic
  {
    assert ParseSource(name).None?;
  }

  /** The panic happens exactly there. */
  lemma RemovePanicsExactly(sources: seq<Source>, source: string)
    ensures RemoveAsWritten(sources, source) == IndexPanic <==>
      ParseSource(source).None? && sources != [] &&
      forall k :: 0 <= k < |sources| ==> !Identifies(sources[k], source)
  {
  }

  /** `Remove` as evidently intended: an unknown source is reported as not
      found. */
  function RemoveIntended(sources: seq<Source>, source: string): RemoveOutcome {
    match ParseSource(source)
    case None =>
      (match FirstIdentified(sources, source)
       case Some(i) => Removed(Delete(sources, i))
       case None => NotFound)
    case Some(m) =>
      match FirstWithUrl(sources, m.url)
      case Some(i) => Removed(Delete(sources, i))
      case None => NotFound
  }

  /** The intended removal never panics, agrees with the written one
      wherever that does not panic, and removes exactly the first source
      the argument designates. With unique URLs, removing `url@ref`
      leaves no source with that URL. */
  lemma RemoveIntendedMeaning(sources: seq<Source>, source: string)
    ensures RemoveIntended(sources, source) != IndexPanic
    ensures RemoveAsWritten(sources, source) != IndexPanic ==>
      RemoveAsWritten(sources, source) == RemoveIntended(sources, source)
    ensures RemoveIntended(sources, source).Removed? ==>
      exists i :: 0 <= i < |sources| && RemoveIntended(sources, source).rest == Delete(sources, i) &&
        (ParseSource(source).None? ==>
           Identifies(sources[i], source) && forall k :: 0 <= k < i ==> !Identifies(sources[k], source)) &&
        (ParseSource(source).Some? ==>
           sources[i].url == ParseSource(source).value.url &&
           forall k :: 0 <= k < i ==> sources[k].url != ParseSource(source).value.url)
    ensures RemoveIntended(sources, source) == NotFound <==>
      (ParseSource(source).None? && forall k :: 0 <= k < |sources| ==> !Identifies(sources[k], source)) ||
      (ParseSource(source).Some? && !HasUrl(sources, ParseSource(source).value.url))
    ensures UniqueUrls(sources) && ParseSource(source).Some? && RemoveIntended(sources, source).Removed? ==>
      !HasUrl(RemoveIntended(sources, source).rest, ParseSource(source).value.url)
  {
    if UniqueUrls(sources) && ParseSource(source).Some? && RemoveIntended(sources, source).Removed? {
      var url := ParseSource(source).value.url;
      var i := FirstWithUrl(sources, url).value;
      var rest := Delete(sources, i);
      forall k | 0 <= k < |rest| ensures rest[k].url != url {
        if k < i { assert rest[k] == sources[k]; } else { assert rest[k] == sources[k + 1]; }
      }
    }
  }

  /** What `Load` finds in a directory: a readable configuration with its
      sources, or one that cannot be opened or decoded. */
  datatype ConfigFile = Readable(sources: seq<Source>) | Unopenable | Undecodable

  datatype LoadError = WorkingDirUnknown | OpenFailed | DecodeFailed | ConfigNotFound

  /** The directory whose names from the root are `dirs`. */
  function DirPath(dirs: seq<string>): string { Render(dirs, true) }

  function ConfigPathIn(dirs: seq<string>): string { Join([DirPath(dirs), ConfigFileName]) }

  /** The deepest of the first `k` ancestors of `dirs` (the directory
      itself counting as its own) that holds a configuration file. */
  function NearestConfig(dirs: seq<string>, files: map<string, ConfigFile>, k: nat): (r: Option<nat>)
    requires k <= |dirs|
    ensures r.Some? ==> r.value <= k && ConfigPathIn(dirs[..r.value]) in files
    ensures forall j :: (if r.Some? then r.value < j else 0 <= j) && j <= k ==> ConfigPathIn(dirs[..j]) !in files
    decreases k
  {
    if ConfigPathIn(dirs[..k]) in files then Some(k)
    else if k == 0 then None
    else NearestConfig(dirs, files, k - 1)
  }

  /** What `Load` returns and leaves in the configuration: the error, the
      sources and the location (unchanged unless a file was read). */
  function LoadOutcome(dirs: Option<seq<string>>, files: map<string, ConfigFile>)
    : (Option<LoadError>, seq<Source>, string)
  {
    match dirs
    case None => (Some(WorkingDirUnknown), [], "")
    case Some(wd) =>
      match NearestConfig(wd, files, |wd|)
      case None => (Some(ConfigNotFound), [], "")
      case Some(k) =>
        var path := ConfigPathIn(wd[..k]);
        match files[path]
        case Readable(s) => (None, s, path)
        case Unopenable => (Some(OpenFailed), [], "")
        case Undecodable => (Some(DecodeFailed), [], "")
  }

  /** `Load` succeeds exactly when the nearest configuration file above the
      working directory is readable, and then takes its sources and its
      path; it reports "not found" exactly when no ancestor has one. On
      every error the configuration is the fresh one `Load` starts from:
      no sources and no location. */
  lemma LoadReadsNearest(wd: seq<string>, files: map<string, ConfigFile>)
    ensures var (err, s, loc) := LoadOutcome(Some(wd), files);
      (err.None? <==> exists k :: 0 <= k <= |wd| && ConfigPathIn(wd[..k]) in files &&
                        files[ConfigPathIn(wd[..k])].Readable? &&
                        forall j :: k < j <= |wd| ==> ConfigPathIn(wd[..j]) !in files) &&
      (err.None? ==> loc in files && files[loc] == Readable(s) &&
                     exists k :: 0 <= k <= |wd| && loc == ConfigPathIn(wd[..k])) &&
      (err == Some(ConfigNotFound) <==> forall j :: 0 <= j <= |wd| ==> ConfigPathIn(wd[..j]) !in files) &&
      (err.Some? ==> s == [] && loc == "")
  {
    var n := NearestConfig(wd, files, |wd|);
    if n.Some? {
      var k := n.value;
      forall k' | 0 <= k' <= |wd| && ConfigPathIn(wd[..k']) in files &&
                  forall j :: k' < j <= |wd| ==> ConfigPathIn(wd[..j]) !in files
        ensures k' == k
      {
      }
    }
  }

  class Config {
    var location: string
    var sources: seq<Source>

    constructor (location: string, sources: seq<Source>)
      ensures this.location == location && this.sources == sources
    {
      this.location := location;
      this.sources := sources;
    }

    /** `Config.Add`. */
    method Add(source: string) returns (err: Option<ConfigError>)
      modifies this
      ensures location == old(location)
      ensures match AddSources(old(sources), source)
        case Ok(s) => err.None? && sources == s
        case Err(e) => err == Some(e) && sources == old(sources)
    {
      var m := ParseSource(source);
      if m.None? {
        return Some(InvalidSourceFormat);
      }
      var k := 0;
      while k < |sources|
        invariant 0 <= k <= |sources|
        invariant forall j :: 0 <= j < k ==> sources[j].url != m.value.url
      {
        if sources[k].url == m.value.url {
          return Some(SourceExists(source));
        }
        k := k + 1;
      }
      sources := sources + [m.value];
      return None;
    }

    /** The first loop of `Remove`: the first source a bare argument
        designates. */
    method FindIdentified(id: string) returns (found: Option<nat>)
      ensures found == FirstIdentified(sources, id)
    {
      var i := 0;
      while i < |sources|
        invariant 0 <= i <= |sources|
        invariant forall j :: 0 <= j < i ==> !Identifies(sources[j], id)
      {
        if Identifies(sources[i], id) {
          FirstIdentifiedIs(sources, id, Some(i));
          return Some(i);
        }
        i := i + 1;
      }
      FirstIdentifiedIs(sources, id, None);
      return None;
    }

    /** The second loop of `Remove`, comparing each URL with `match[1]`;
        with no match the very first comparison panics. */
    method FindUrl(m: Option<Source>) returns (found: Option<nat>, panics: bool)
      ensures panics <==> m.None? && sources != []
      ensures !panics ==> found == if m.None? then None else FirstWithUrl(sources, m.value.url)
    {
      var i := 0;
      while i < |sources|
        invariant 0 <= i <= |sources|
        invariant m.None? ==> i == 0
        invariant forall j :: 0 <= j < i ==> m.Some? && sources[j].url != m.value.url
      {
        if m.None? {
          return None, true;
        }
        if sources[i].url == m.value.url {
          return Some(i), false;
        }
        i := i + 1;
      }
      return None, false;
    }

    /** `Config.Remove`, as written, including its index panic. */
    method Remove(source: string) returns (outcome: RemoveOutcome)
      modifies this
      ensures location == old(location)
      ensures outcome == RemoveAsWritten(old(sources), source)
      ensures sources == if outcome.Removed? then outcome.rest else old(sources)
    {
      var m := ParseSource(source);
      if m.None? {
        var i := FindIdentified(source);
        if i.Some? {
          sources := Delete(sources, i.value);
          return Removed(sources);
        }
      }
      var i, panics := FindUrl(m);
      if panics {
        return IndexPanic;
      }
      if i.Some? {
        sources := Delete(sources, i.value);
        return Removed(sources);
      }
      return NotFound;
    }

    /** `Load`: from the working directory (`dirs`, its names from the
        root; none when it cannot be determined) up to the root, the first
        directory holding `vend.yaml`. `files` says what each existing
        configuration path holds. The configuration starts out fresh, with
        no sources and no location, as the one `Load` allocates. */
    method Load(dirs: Option<seq<string>>, files: map<string, ConfigFile>) returns (err: Option<LoadError>)
      modifies this
      ensures (err, sources, location) == LoadOutcome(dirs, files)
    {
      sources := [];
      location := "";
      if dirs.None? {
        return Some(WorkingDirUnknown);
      }
      var wd := dirs.value;
      var k := |wd|;
      while true
        invariant 0 <= k <= |wd| && sources == [] && location == ""
        invariant NearestConfig(wd, files, |wd|) == NearestConfig(wd, files, k)
        decreases k
      {
        var configPath := ConfigPathIn(wd[..k]);
        if configPath in files {
          match files[configPath]
          case Unopenable =>
            return Some(OpenFailed);
          case Undecodable =>
            return Some(DecodeFailed);
          case Readable(s) =>
            sources := s;
            location := configPath;
            return None;
        }
        // the parent directory; at the root it is the directory itself
        if k == 0 {
          return Some(ConfigNotFound);
        }
        k := k - 1;
      }
    }

    /** The pairs `Sync` hands to the linker, built by appending. */
    method BuildLinkPairs(wd: string, env: Env) returns (linkData: seq<LinkData>)
      ensures linkData == LinkPairs(sources, wd, env)
    {
      linkData := AppendPairs(sources, s => PairFor(s, wd, env));
    }

    /** `Config.Sync`, run in the working directory `cwd`. `listing` is
        what reading `vendored` returns: its entries, or none on an error.
        `wd` is what `os.Getwd` returns (empty when it fails); `msgs` and
        `uiErr` are what the clone display receives and fails with. A
        display that never quits keeps `Sync` waiting, so it links nothing;
        once it quits, its error and every removal and link error are
        discarded, as in the source. */
    method Sync(fs: FileSystem, cwd: string, listing: Option<seq<DirEntry>>, wd: string, env: Env,
                msgs: seq<Msg>, uiErr: Option<string>)
      requires listing.Some? ==> ReadableDir(fs.nodes, fs.faulty, VendoredKey(cwd))
      requires listing.Some? ==> ListsChildren(fs.nodes, VendoredKey(cwd), listing.value)
      modifies fs
      ensures fs.nodes == SyncResult(old(fs.nodes), fs.faulty, cwd, listing, sources, msgs, uiErr, wd, env)
    {
      var made := fs.MkdirAll(VendoredKey(cwd));
      if listing.None? {
        return;
      }
      Reconcile(fs, cwd, listing.value);
      var outcome := CloneMultiple(sources, msgs, uiErr);
      if outcome.StillRunning? {
        return;
      }
      var linkData := BuildLinkPairs(wd, env);
      var _ := UnixLink(fs, InWorkingDir(cwd, linkData));
    }
  }

  /** Where a name the program passes lands: the operating system resolves
      a relative name against the working directory `cwd` and takes an
      absolute one as it is. */
  function InDir(cwd: string, p: string): string {
    if StartsWith(p, "/") then p else Join([cwd, p])
  }

  /** The pairs as the file system receives them: each link name resolved
      against the working directory, each target stored as written. */
  function InWorkingDir(cwd: string, batch: seq<LinkData>): (r: seq<LinkData>)
    ensures |r| == |batch|
    ensures forall k :: 0 <= k < |batch| ==> r[k].oldname == batch[k].oldname && r[k].newname == InDir(cwd, batch[k].newname)
  {
    seq(|batch|, k requires 0 <= k < |batch| => LinkData(batch[k].oldname, InDir(cwd, batch[k].newname)))
  }

  /** The `vendored` directory of the working directory `cwd`. */
  function VendoredKey(cwd: string): string { InDir(cwd, VendoredDir) }

  /** The entry `name` of directory `dir`. */
  function ChildKey(dir: string, name: string): string { dir + "/" + name }

  /** An entry of `vendored`, as `os.ReadDir` lists it; `infoOk` is false
      when its file information cannot be read. */
  datatype DirEntry = DirEntry(name: string, infoOk: bool)

  /** `os.ReadDir(dir)` can succeed after `os.MkdirAll(dir)`: the path does
      not fail, and nothing but a file's contents could stand in its way
      (a missing `dir` is made, a file is neither made into a directory
      nor listed). */
  predicate ReadableDir(nodes: map<string, Node>, faulty: set<string>, dir: string) {
    dir !in faulty && (dir in nodes ==> nodes[dir] != File)
  }

  /** `entries` is what `os.ReadDir(dir)` lists: exactly the plain names
      with something at `dir/name`. */
  ghost predicate ListsChildren(nodes: map<string, Node>, dir: string, entries: seq<DirEntry>) {
    (forall k :: 0 <= k < |entries| ==> IsPlainName(entries[k].name) && ChildKey(dir, entries[k].name) in nodes) &&
    (forall n :: IsPlainName(n) && ChildKey(dir, n) in nodes ==> exists k :: 0 <= k < |entries| && entries[k].name == n)
  }

  /** The name `Sync` removes an entry by, relative to the working
      directory. */
  function EntryPath(e: DirEntry): string { Join([VendoredDir, e.name]) }

  /** Where that removal lands. */
  function EntryKey(cwd: string, e: DirEntry): string { InDir(cwd, EntryPath(e)) }

  /** The removal of the entry `name` lands on `name` in `vendored`. */
  lemma EntryKeyIsChild(cwd: string, e: DirEntry)
    requires IsPlainName(e.name)
    ensures EntryKey(cwd, e) == ChildKey(VendoredKey(cwd), e.name)
  {
    JoinTwoPlain(VendoredDir, e.name);
    JoinUnder(cwd, VendoredDir, e.name);
  }

  /** The link `Sync` creates for a short name lands on that name in
      `vendored`, whether `os.Getwd` gave the (absolute) working directory
      or failed and gave "". */
  lemma LinkKeyIsChild(cwd: string, wd: string, name: string)
    requires IsPlainName(name)
    requires StartsWith(cwd, "/") && (wd == cwd || wd == "")
    ensures InDir(cwd, Join([wd, VendoredDir, name])) == ChildKey(VendoredKey(cwd), name)
  {
    JoinThree(wd, VendoredDir, name);
    JoinUnder(cwd, VendoredDir, name);
    if wd != "" {
      JoinUnderRoot(cwd, VendoredDir + "/" + name);
    }
  }

  lemma ChildKeyNames(dir: string, a: string, b: string)
    requires ChildKey(dir, a) == ChildKey(dir, b)
    ensures a == b
  {
    assert ChildKey(dir, a)[|dir| + 1..] == a && ChildKey(dir, b)[|dir| + 1..] == b;
  }

  lemma ChildKeysApart(dir: string, a: string, b: string)
    requires a != b
    ensures ChildKey(dir, a) != ChildKey(dir, b)
  {
    assert ChildKey(dir, a)[|dir| + 1..] == a && ChildKey(dir, b)[|dir| + 1..] == b;
  }

  /** A directory is neither its own entry nor inside one. */
  lemma ChildKeyBelow(dir: string, a: string)
    ensures dir != ChildKey(dir, a) && !Inside(dir, ChildKey(dir, a))
  {
    assert |ChildKey(dir, a)| > |dir|;
  }

  /** The loop of `Sync` over the entries of `vendored`. */
  method Reconcile(fs: FileSystem, cwd: string, entries: seq<DirEntry>)
    modifies fs
    ensures fs.nodes == ReconcileFrom(old(fs.nodes), fs.faulty, cwd, entries, 0)
  {
    var k := 0;
    while k < |entries|
      invariant 0 <= k <= |entries|
      invariant ReconcileFrom(fs.nodes, fs.faulty, cwd, entries, k) == ReconcileFrom(old(fs.nodes), fs.faulty, cwd, entries, 0)
    {
      var entry := entries[k];
      var entryName := EntryKey(cwd, entry);
      if !entry.infoOk {
        k := k + 1;
        continue;
      }
      if entryName in fs.nodes && fs.nodes[entryName].Link? {
        var _ := fs.Remove(entryName);
      } else if entryName in fs.nodes && fs.nodes[entryName] == Directory {
        var _ := fs.RemoveAll(entryName);
      } else {
        var _ := fs.Remove(entryName);
      }
      k := k + 1;
    }
  }

  /** One entry's removal: a directory with `RemoveAll`, anything else
      with `Remove`; failures leave it in place. */
  function RemoveEntry(nodes: map<string, Node>, faulty: set<string>, path: string): map<string, Node> {
    if path in nodes && nodes[path] == Directory then
      if CanRemoveAll(nodes, faulty, path) then WithoutTree(nodes, path) else nodes
    else if CanRemove(nodes, faulty, path) then nodes - {path}
    else nodes
  }

  /** The loop over the listing from entry `i` on. */
  function ReconcileFrom(nodes: map<string, Node>, faulty: set<string>, cwd: string, entries: seq<DirEntry>, i: nat)
    : map<string, Node>
    requires i <= |entries|
    decreases |entries| - i
  {
    if i == |entries| then nodes
    else if !entries[i].infoOk then ReconcileFrom(nodes, faulty, cwd, entries, i + 1)
    else ReconcileFrom(RemoveEntry(nodes, faulty, EntryKey(cwd, entries[i])), faulty, cwd, entries, i + 1)
  }

  /** Nothing on the way blocks removing `path`. */
  predicate Removable(nodes: map<string, Node>, faulty: set<string>, path: string) {
    forall q :: q in faulty && InTree(q, path) ==> q !in nodes && q != path
  }

  /** The loop removes EVERY listed entry whose information can be read
      and whose removal nothing blocks, links and checkouts alike; it only
      deletes, and it keeps whatever lies outside the listed entries. */
  lemma {:induction false} ReconcileRemovesEverything(nodes: map<string, Node>, faulty: set<string>, cwd: string,
                                                      entries: seq<DirEntry>, i: nat)
    requires i <= |entries|
    ensures var r := ReconcileFrom(nodes, faulty, cwd, entries, i);
      (forall q :: q in r ==> q in nodes && r[q] == nodes[q]) &&
      (forall q :: q in nodes && (forall k :: i <= k < |entries| && entries[k].infoOk ==> !InTree(q, EntryKey(cwd, entries[k]))) ==> q in r) &&
      (forall k :: i <= k < |entries| && entries[k].infoOk && Removable(nodes, faulty, EntryKey(cwd, entries[k])) ==>
         EntryKey(cwd, entries[k]) !in r)
    decreases |entries| - i
  {
    if i < |entries| {
      var next := if entries[i].infoOk then RemoveEntry(nodes, faulty, EntryKey(cwd, entries[i])) else nodes;
      ReconcileRemovesEverything(next, faulty, cwd, entries, i + 1);
      if entries[i].infoOk {
        var p := EntryKey(cwd, entries[i]);
        assert Removable(nodes, faulty, p) ==> p !in next;
        forall k | i + 1 <= k < |entries| && entries[k].infoOk && Removable(nodes, faulty, EntryKey(cwd, entries[k]))
          ensures Removable(next, faulty, EntryKey(cwd, entries[k]))
        {
        }
      }
    }
  }

  /** With nothing failing and every entry readable, reconciling a full
      listing empties `vendored` and keeps the directory itself. */
  lemma ReconcileEmptiesVendored(nodes: map<string, Node>, cwd: string, entries: seq<DirEntry>)
    requires ListsChildren(nodes, VendoredKey(cwd), entries)
    requires forall k :: 0 <= k < |entries| ==> entries[k].infoOk
    ensures var r := ReconcileFrom(nodes, {}, cwd, entries, 0);
      var v := VendoredKey(cwd);
      (forall q :: q in r ==> q in nodes && r[q] == nodes[q]) &&
      (v in nodes ==> v in r) &&
      (forall n :: IsPlainName(n) ==> ChildKey(v, n) !in r)
  {
    var v := VendoredKey(cwd);
    var r := ReconcileFrom(nodes, {}, cwd, entries, 0);
    ReconcileRemovesEverything(nodes, {}, cwd, entries, 0);
    forall k | 0 <= k < |entries|
      ensures EntryKey(cwd, entries[k]) == ChildKey(v, entries[k].name)
      ensures !InTree(v, EntryKey(cwd, entries[k]))
      ensures Removable(nodes, {}, EntryKey(cwd, entries[k]))
    {
      EntryKeyIsChild(cwd, entries[k]);
      ChildKeyBelow(v, entries[k].name);
    }
  }

  /** The pair `Sync` links for one source: `vendored/<short name>` under
      the working directory, pointing at the source's cache path. */
  function PairFor(s: Source, wd: string, env: Env): LinkData {
    LinkData(DestPath(s, env), Join([wd, VendoredDir, ShortName(s)]))
  }

  /** The append loop of `Sync` over the sources, with the pair of one
      source given as `pairOf`: one pair per source, in order. */
  method AppendPairs(sources: seq<Source>, pairOf: Source -> LinkData) returns (linkData: seq<LinkData>)
    ensures |linkData| == |sources|
    ensures forall k :: 0 <= k < |sources| ==> linkData[k] == pairOf(sources[k])
  {
    linkData := [];
    var i := 0;
    while i < |sources|
      invariant 0 <= i <= |sources| && |linkData| == i
      invariant forall k :: 0 <= k < i ==> linkData[k] == pairOf(sources[k])
    {
      linkData := linkData + [pairOf(sources[i])];
      i := i + 1;
    }
  }

  /** The pairs `Sync` links, one per source, in order. */
  function LinkPairs(sources: seq<Source>, wd: string, env: Env): (r: seq<LinkData>)
    ensures |r| == |sources|
    ensures forall k :: 0 <= k < |sources| ==> r[k] == PairFor(sources[k], wd, env)
  {
    seq(|sources|, k requires 0 <= k < |sources| => PairFor(sources[k], wd, env))
  }

  /** The file system once `os.MkdirAll` has made `vendored`, or as it was
      when that fails. */
  function Prepared(nodes: map<string, Node>, faulty: set<string>, cwd: string): map<string, Node> {
    var v := VendoredKey(cwd);
    if v !in faulty && (v in nodes ==> nodes[v] == Directory) then nodes[v := Directory] else nodes
  }

  /** What `Sync` leaves in the file system. */
  function SyncResult(nodes: map<string, Node>, faulty: set<string>, cwd: string, listing: Option<seq<DirEntry>>,
                      sources: seq<Source>, msgs: seq<Msg>, uiErr: Option<string>, wd: string, env: Env)
    : map<string, Node> {
    var start := Prepared(nodes, faulty, cwd);
    match listing
    case None => start
    case Some(entries) =>
      var reconciled := ReconcileFrom(start, faulty, cwd, entries, 0);
      if CloneResult(sources, msgs, uiErr).StillRunning? then reconciled
      else LinkLoop(Unix, reconciled, faulty, InWorkingDir(cwd, LinkPairs(sources, wd, env)), 0).0
  }

  /** Each link is named by the source's short name in `vendored` and
      points at the source's cache path, which ends in the reference
      whenever that is a plain relative path. */
  lemma LinkPairNames(sources: seq<Source>, cwd: string, wd: string, env: Env, k: int)
    requires 0 <= k < |sources|
    requires IsPlainName(ShortName(sources[k])) && IsPlainPath(sources[k].referenceName)
    ensures Base(LinkPairs(sources, wd, env)[k].newname) == ShortName(sources[k])
    ensures StartsWith(cwd, "/") && (wd == cwd || wd == "") ==>
      InDir(cwd, LinkPairs(sources, wd, env)[k].newname) == ChildKey(VendoredKey(cwd), ShortName(sources[k]))
    ensures LinkPairs(sources, wd, env)[k].oldname == CachePrefix(sources[k].url, env) + sources[k].referenceName
  {
    BaseOfJoin([wd, VendoredDir], ShortName(sources[k]));
    assert [wd, VendoredDir] + [ShortName(sources[k])] == [wd, VendoredDir, ShortName(sources[k])];
    CachePathEndsWithReference(sources[k], env);
    if StartsWith(cwd, "/") && (wd == cwd || wd == "") {
      LinkKeyIsChild(cwd, wd, ShortName(sources[k]));
    }
  }

  /** Two sources with one short name (two pins of one repository, or two
      repositories of one name) cannot both be linked: the link step of
      `Sync` fails, whatever their cache paths. */
  lemma SharedShortNameBlocksLinking(nodes: map<string, Node>, faulty: set<string>, cwd: string,
                                     sources: seq<Source>, wd: string, env: Env, a: int, b: int)
    requires 0 <= a < b < |sources|
    requires ShortName(sources[a]) == ShortName(sources[b])
    ensures LinkLoop(Unix, nodes, faulty, InWorkingDir(cwd, LinkPairs(sources, wd, env)), 0).1.Some?
  {
    RepeatedNameFails(nodes, faulty, InWorkingDir(cwd, LinkPairs(sources, wd, env)), 0, a, b);
  }

  /** When `Sync` reads the listing and its link step succeeds, every
      source's `vendored` link points at its cache path. */
  lemma SyncLinksEverySource(nodes: map<string, Node>, faulty: set<string>, cwd: string, entries: seq<DirEntry>,
                             sources: seq<Source>, msgs: seq<Msg>, uiErr: Option<string>, wd: string, env: Env)
    requires CloneResult(sources, msgs, uiErr).Finished?
    requires LinkLoop(Unix, ReconcileFrom(Prepared(nodes, faulty, cwd), faulty, cwd, entries, 0), faulty,
                      InWorkingDir(cwd, LinkPairs(sources, wd, env)), 0).1.None?
    ensures forall k :: 0 <= k < |sources| ==>
      var name := InDir(cwd, Join([wd, VendoredDir, ShortName(sources[k])]));
      var r := SyncResult(nodes, faulty, cwd, Some(entries), sources, msgs, uiErr, wd, env);
      name in r && r[name] == Link(DestPath(sources[k], env))
  {
    SuccessLinksEverything(Unix, ReconcileFrom(Prepared(nodes, faulty, cwd), faulty, cwd, entries, 0), faulty,
                           InWorkingDir(cwd, LinkPairs(sources, wd, env)));
    SyncResultLinks(nodes, faulty, cwd, entries, sources, msgs, uiErr, wd, env);
  }

  /** The sources' short names are plain names, no two alike. */
  predicate DistinctShortNames(sources: seq<Source>) {
    (forall k :: 0 <= k < |sources| ==> IsPlainName(ShortName(sources[k]))) &&
    (forall j, k :: 0 <= j < k < |sources| ==> ShortName(sources[j]) != ShortName(sources[k]))
  }

  /** `v` is a directory whose plain-named entries are exactly the
      sources' links, each named by its short name and pointing at its
      source's cache path. */
  ghost predicate LinksExactly(r: map<string, Node>, v: string, sources: seq<Source>, env: Env) {
    v in r && r[v] == Directory &&
    (forall k :: 0 <= k < |sources| ==>
       ChildKey(v, ShortName(sources[k])) in r && r[ChildKey(v, ShortName(sources[k]))] == Link(DestPath(sources[k], env))) &&
    (forall n :: IsPlainName(n) && ChildKey(v, n) in r ==> exists k :: 0 <= k < |sources| && ShortName(sources[k]) == n)
  }

  /** The link step of a `Sync` where nothing fails, every entry of
      `vendored` can be read and the short names are distinct plain names
      leaves `vendored` holding exactly the sources' links. */
  lemma LinkStepLeavesExactlyTheLinks(nodes: map<string, Node>, cwd: string, entries: seq<DirEntry>,
                                      sources: seq<Source>, wd: string, env: Env)
    requires StartsWith(cwd, "/") && (wd == cwd || wd == "")
    requires VendoredKey(cwd) in nodes ==> nodes[VendoredKey(cwd)] == Directory
    requires ListsChildren(nodes, VendoredKey(cwd), entries)
    requires forall k :: 0 <= k < |entries| ==> entries[k].infoOk
    requires DistinctShortNames(sources)
    ensures LinksExactly(LinkLoop(Unix, ReconcileFrom(Prepared(nodes, {}, cwd), {}, cwd, entries, 0), {},
                                  InWorkingDir(cwd, LinkPairs(sources, wd, env)), 0).0, VendoredKey(cwd), sources, env)
  {
    var v := VendoredKey(cwd);
    var rec := ReconcileFrom(Prepared(nodes, {}, cwd), {}, cwd, entries, 0);
    SyncEmptiesVendored(nodes, cwd, entries);
    var batch := InWorkingDir(cwd, LinkPairs(sources, wd, env));
    LinkBatchFresh(rec, cwd, sources, wd, env);
    LinkStepFillsVendored(rec, v, batch);
    NewChildrenAreShortNames(rec, LinkLoop(Unix, rec, {}, batch, 0).0, v, batch, sources);
  }

  /** The plain-named entries a link step adds to a `vendored` that had
      none are the sources' short names. */
  lemma NewChildrenAreShortNames(rec: map<string, Node>, r: map<string, Node>, v: string,
                                 batch: seq<LinkData>, sources: seq<Source>)
    requires forall n :: IsPlainName(n) ==> ChildKey(v, n) !in rec
    requires forall q :: q in r && q !in rec ==> exists k :: 0 <= k < |batch| && q == batch[k].newname
    requires |batch| == |sources|
    requires forall k :: 0 <= k < |batch| ==> batch[k].newname == ChildKey(v, ShortName(sources[k]))
    ensures forall n :: IsPlainName(n) && ChildKey(v, n) in r ==> exists k :: 0 <= k < |sources| && ShortName(sources[k]) == n
  {
    forall n | IsPlainName(n) && ChildKey(v, n) in r
      ensures exists k :: 0 <= k < |sources| && ShortName(sources[k]) == n
    {
      var k :| 0 <= k < |batch| && ChildKey(v, n) == batch[k].newname;
      ChildKeyNames(v, n, ShortName(sources[k]));
    }
  }

  /** When nothing fails, every entry of `vendored` can be read, and the
      sources have distinct plain short names, `Sync` leaves `vendored` a
      directory whose entries are exactly the sources' links, each named
      by its short name and pointing at its source's cache path, whatever
      `vendored` held before, once the clone display has quit (which
      complete clone streams ensure, by `ClonesFinishWithFirstError`). */
  lemma SyncLeavesExactlyTheLinks(nodes: map<string, Node>, cwd: string, entries: seq<DirEntry>,
                                  sources: seq<Source>, msgs: seq<Msg>, uiErr: Option<string>, wd: string, env: Env)
    requires CloneResult(sources, msgs, uiErr).Finished?
    requires StartsWith(cwd, "/") && (wd == cwd || wd == "")
    requires VendoredKey(cwd) in nodes ==> nodes[VendoredKey(cwd)] == Directory
    requires ListsChildren(nodes, VendoredKey(cwd), entries)
    requires forall k :: 0 <= k < |entries| ==> entries[k].infoOk
    requires DistinctShortNames(sources)
    ensures LinksExactly(SyncResult(nodes, {}, cwd, Some(entries), sources, msgs, uiErr, wd, env), VendoredKey(cwd), sources, env)
  {
    LinkStepLeavesExactlyTheLinks(nodes, cwd, entries, sources, wd, env);
    SyncResultLinks(nodes, {}, cwd, entries, sources, msgs, uiErr, wd, env);
  }

  /** Once the display has quit, what `Sync` leaves is what its link step
      leaves. */
  lemma SyncResultLinks(nodes: map<string, Node>, faulty: set<string>, cwd: string, entries: seq<DirEntry>,
                        sources: seq<Source>, msgs: seq<Msg>, uiErr: Option<string>, wd: string, env: Env)
    requires CloneResult(sources, msgs, uiErr).Finished?
    ensures SyncResult(nodes, faulty, cwd, Some(entries), sources, msgs, uiErr, wd, env) ==
            LinkLoop(Unix, ReconcileFrom(Prepared(nodes, faulty, cwd), faulty, cwd, entries, 0), faulty,
                     InWorkingDir(cwd, LinkPairs(sources, wd, env)), 0).0
  {
  }

  /** While the clone display has not quit, `Sync` is still waiting for
      it: `vendored` has been emptied and nothing is linked yet. */
  lemma BlockedSyncLinksNothing(nodes: map<string, Node>, cwd: string, entries: seq<DirEntry>,
                                sources: seq<Source>, msgs: seq<Msg>, uiErr: Option<string>, wd: string, env: Env)
    requires CloneResult(sources, msgs, uiErr).StillRunning?
    requires VendoredKey(cwd) in nodes ==> nodes[VendoredKey(cwd)] == Directory
    requires ListsChildren(nodes, VendoredKey(cwd), entries)
    requires forall k :: 0 <= k < |entries| ==> entries[k].infoOk
    ensures var r := SyncResult(nodes, {}, cwd, Some(entries), sources, msgs, uiErr, wd, env);
      var v := VendoredKey(cwd);
      v in r && r[v] == Directory && forall n :: IsPlainName(n) ==> ChildKey(v, n) !in r
  {
    SyncEmptiesVendored(nodes, cwd, entries);
  }

  /** Making `vendored` and reconciling a full listing, with nothing
      failing and every entry readable, leaves `vendored` an empty
      directory. */
  lemma SyncEmptiesVendored(nodes: map<string, Node>, cwd: string, entries: seq<DirEntry>)
    requires VendoredKey(cwd) in nodes ==> nodes[VendoredKey(cwd)] == Directory
    requires ListsChildren(nodes, VendoredKey(cwd), entries)
    requires forall k :: 0 <= k < |entries| ==> entries[k].infoOk
    ensures var rec := ReconcileFrom(Prepared(nodes, {}, cwd), {}, cwd, entries, 0);
      var v := VendoredKey(cwd);
      v in rec && rec[v] == Directory && forall n :: IsPlainName(n) ==> ChildKey(v, n) !in rec
  {
    var v := VendoredKey(cwd);
    var start := Prepared(nodes, {}, cwd);
    assert start == nodes[v := Directory];
    PreparedKeepsChildren(nodes, v, entries);
    ReconcileEmptiesVendored(start, cwd, entries);
  }

  /** The Unix link step over distinct fresh names into an empty
      directory `v` keeps `v` and adds exactly the batch's links. */
  lemma LinkStepFillsVendored(rec: map<string, Node>, v: string, batch: seq<LinkData>)
    requires v in rec && rec[v] == Directory
    requires forall k :: 0 <= k < |batch| ==>
      batch[k].oldname != "" && batch[k].newname != "" && batch[k].newname !in rec && batch[k].newname !in {}
    requires forall j, k :: 0 <= j < k < |batch| ==> batch[j].newname != batch[k].newname
    ensures var r := LinkLoop(Unix, rec, {}, batch, 0).0;
      v in r && r[v] == Directory &&
      (forall k :: 0 <= k < |batch| ==> batch[k].newname in r && r[batch[k].newname] == Link(batch[k].oldname)) &&
      (forall q :: q in r && q !in rec ==> exists k :: 0 <= k < |batch| && q == batch[k].newname)
  {
    FreshLinksSucceed(rec, {}, batch, 0);
    LinkLoopOutcome(Unix, rec, {}, batch, 0);
  }

  lemma PreparedKeepsChildren(nodes: map<string, Node>, v: string, entries: seq<DirEntry>)
    requires ListsChildren(nodes, v, entries)
    ensures ListsChildren(nodes[v := Directory], v, entries)
  {
    forall n | IsPlainName(n) ensures ChildKey(v, n) != v {
      ChildKeyBelow(v, n);
    }
  }

  /** The link step of a fault-free sync into an emptied `vendored`: every
      pair has a target and a name in `vendored`, the names are distinct,
      and nothing is there yet. */
  lemma LinkBatchFresh(rec: map<string, Node>, cwd: string, sources: seq<Source>, wd: string, env: Env)
    requires StartsWith(cwd, "/") && (wd == cwd || wd == "")
    requires DistinctShortNames(sources)
    requires forall n :: IsPlainName(n) ==> ChildKey(VendoredKey(cwd), n) !in rec
    ensures var batch := InWorkingDir(cwd, LinkPairs(sources, wd, env));
      (forall k :: 0 <= k < |batch| ==>
         batch[k].newname == ChildKey(VendoredKey(cwd), ShortName(sources[k])) &&
         batch[k].oldname == DestPath(sources[k], env) &&
         batch[k].oldname != "" && batch[k].newname != "" && batch[k].newname !in rec && batch[k].newname !in {}) &&
      (forall j, k :: 0 <= j < k < |batch| ==> batch[j].newname != batch[k].newname)
  {
    var v := VendoredKey(cwd);
    var batch := InWorkingDir(cwd, LinkPairs(sources, wd, env));
    forall k | 0 <= k < |batch|
      ensures batch[k].newname == ChildKey(v, ShortName(sources[k]))
      ensures batch[k].oldname == DestPath(sources[k], env) && batch[k].oldname != ""
    {
      LinkKeyIsChild(cwd, wd, ShortName(sources[k]));
    }
    forall j, k | 0 <= j < k < |batch| ensures batch[j].newname != batch[k].newname {
      ChildKeysApart(v, ShortName(sources[j]), ShortName(sources[k]));
    }
  }
}
