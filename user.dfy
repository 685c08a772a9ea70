/** `user.Location`: the per-user data root under which every source's
    checkout is cached. */
module User {

  import opened Wrappers
  import opened Paths

  /** What `Location` reads from its surroundings: `XDG_DATA_HOME` as
      `os.LookupEnv` sees it (present, possibly empty, or absent),
      `runtime.GOOS`, the current user's home directory, and `APPDATA` as
      `os.Getenv` returns it ("" when unset). */
  datatype Env = Env(xdgDataHome: Option<string>, goos: string, home: string, appData: string)

  const AppDir := "vend"

  /** `Location`: the data root, which always ends in the application's
      own directory: `.vend` on an unknown system without
      `XDG_DATA_HOME`, `vend` everywhere else. */
  function Location(env: Env): (r: string)
    ensures Base(r) == if env.xdgDataHome.None? && env.goos !in {"darwin", "linux", "windows"} then ".vend" else AppDir
  {
    if env.xdgDataHome.Some? then
      assert [env.xdgDataHome.value] + [AppDir] == [env.xdgDataHome.value, AppDir];
      BaseOfJoin([env.xdgDataHome.value], AppDir);
      Join([env.xdgDataHome.value, AppDir])
    else if env.goos == "darwin" then
      assert [env.home, "Library", "Application Support"] + [AppDir] == [env.home, "Library", "Application Support", AppDir];
      BaseOfJoin([env.home, "Library", "Application Support"], AppDir);
      Join([env.home, "Library", "Application Support", AppDir])
    else if env.goos == "linux" then
      assert [env.home, ".local", "share"] + [AppDir] == [env.home, ".local", "share", AppDir];
      BaseOfJoin([env.home, ".local", "share"], AppDir);
      Join([env.home, ".local", "share", AppDir])
    else if env.goos == "windows" then
      assert [env.appData] + [AppDir] == [env.appData, AppDir];
      BaseOfJoin([env.appData], AppDir);
      Join([env.appData, AppDir])
    else
      assert [env.home] + [".vend"] == [env.home, ".vend"];
      BaseOfJoin([env.home], ".vend");
      Join([env.home, ".vend"])
  }

  /** A present `XDG_DATA_HOME` decides alone: the system, the home
      directory and `APPDATA` do not matter. */
  lemma XdgOverridesSystem(a: Env, b: Env)
    requires a.xdgDataHome.Some? && a.xdgDataHome == b.xdgDataHome
    ensures Location(a) == Location(b)
  {
  }

  /** An `XDG_DATA_HOME` that is set but empty, and a Windows without
      `APPDATA`, both give the relative path `vend`. */
  lemma EmptyBaseIsRelative(env: Env)
    requires env.xdgDataHome == Some("") || (env.xdgDataHome.None? && env.goos == "windows" && env.appData == "")
    ensures Location(env) == AppDir
  {
    var e := [if env.xdgDataHome.Some? then env.xdgDataHome.value else env.appData, AppDir];
    assert FirstNonEmpty(e) == 1;
    assert e[1..] == [AppDir];
    SplitPlain(AppDir);
    assert Resolve([AppDir], false) == [AppDir];
  }
}
