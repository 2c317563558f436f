/**
 * Choosing the directory that holds the wallflow palette: an ordered list of
 * candidate directories, probed for existence, first existing one wins,
 * otherwise the first candidate. Paths are sequences of segments; the home
 * directory and an environment variable's value are one segment each, and
 * joining is concatenation.
 */
module CachePath {
  import opened Wrappers

  type Path = seq<string>

  /** The two environment variables the resolver reads. */
  datatype Env = Env(xdgCacheHome: Option<string>, localAppData: Option<string>)

  /** JavaScript truthiness of an environment variable: set and not empty. */
  predicate IsSet(v: Option<string>) {
    v.Some? && v.value != ""
  }

  function XdgPath(xdgCacheHome: string): Path {
    [xdgCacheHome, "mksg", "wallflow"]
  }

  function DarwinCachesPath(home: string): Path {
    [home, "Library", "Caches", "mksg", "wallflow"]
  }

  function DarwinAppSupportPath(home: string): Path {
    [home, "Library", "Application Support", "wallflow"]
  }

  /** `LOCALAPPDATA` when set, otherwise `home/AppData/Local`, then `mksg/wallflow`. */
  function WindowsPath(home: string, env: Env): Path {
    var localAppData := if IsSet(env.localAppData) then [env.localAppData.value] else [home, "AppData", "Local"];
    localAppData + ["mksg", "wallflow"]
  }

  function LinuxPath(home: string): Path {
    [home, ".cache", "mksg", "wallflow"]
  }

  /** The cache of pywal, used by the free command-line wallflow. */
  function PywalPath(home: string): Path {
    [home, ".cache", "wal"]
  }

  /** Entries for the platform as reported by `os.platform()`. */
  function PlatformPaths(home: string, platform: string, env: Env): seq<Path> {
    if platform == "darwin" then [DarwinCachesPath(home), DarwinAppSupportPath(home)]
    else if platform == "win32" then [WindowsPath(home, env)]
    else [LinuxPath(home)]
  }

  /** The candidate list, in order of preference. */
  function Candidates(home: string, platform: string, env: Env): (c: seq<Path>)
    ensures 2 <= |c| <= 4
    ensures c[|c| - 1] == PywalPath(home)
    ensures IsSet(env.xdgCacheHome) <==> |c| == |PlatformPaths(home, platform, env)| + 2
    ensures IsSet(env.xdgCacheHome) ==> c[0] == XdgPath(env.xdgCacheHome.value)
  {
    (if IsSet(env.xdgCacheHome) then [XdgPath(env.xdgCacheHome.value)] else [])
    + PlatformPaths(home, platform, env) + [PywalPath(home)]
  }

  /** The candidate lists of each platform, written out. */
  lemma {:induction false} CandidatesByPlatform(home: string, platform: string, env: Env)
    ensures var c := Candidates(home, platform, env);
      var rest := if IsSet(env.xdgCacheHome) then c[1..] else c;
      && (platform == "darwin" ==> rest == [DarwinCachesPath(home), DarwinAppSupportPath(home), PywalPath(home)])
      && (platform == "win32" ==> rest == [WindowsPath(home, env), PywalPath(home)])
      && (platform != "darwin" && platform != "win32" ==> rest == [LinuxPath(home), PywalPath(home)])
  {
  }

  /** Every candidate other than the last one is a wallflow directory and
      differs from the pywal directory. */
  lemma {:induction false} OnlyLastIsPywal(home: string, platform: string, env: Env)
    ensures var c := Candidates(home, platform, env);
      forall j :: 0 <= j < |c| - 1 ==> c[j] != PywalPath(home) && c[j][|c[j]| - 1] == "wallflow"
  {
    var c := Candidates(home, platform, env);
    var x := if IsSet(env.xdgCacheHome) then [XdgPath(env.xdgCacheHome.value)] else [];
    var p := PlatformPaths(home, platform, env);
    assert c == x + p + [PywalPath(home)];
    forall j | 0 <= j < |c| - 1
      ensures c[j] != PywalPath(home) && c[j][|c[j]| - 1] == "wallflow"
    {
      if j < |x| {
        assert c[j] == XdgPath(env.xdgCacheHome.value);
      } else {
        assert c[j] == p[j - |x|];
      }
      assert PywalPath(home)[|PywalPath(home)| - 1] == "wal";
    }
  }

  /** Index of the first path that exists, if any. */
  function FirstExisting(paths: seq<Path>, pathExists: Path -> bool): (r: Option<nat>)
    ensures r.Some? ==> r.value < |paths| && pathExists(paths[r.value])
    ensures r.Some? ==> forall j :: 0 <= j < r.value ==> !pathExists(paths[j])
    ensures r.None? <==> forall j :: 0 <= j < |paths| ==> !pathExists(paths[j])
  {
    if paths == [] then None
    else if pathExists(paths[0]) then Some(0)
    else match FirstExisting(paths[1..], pathExists)
      case None => None
      case Some(i) => Some(i + 1)
  }

  /** First existing path, or the first path when none exists. */
  function Resolve(paths: seq<Path>, pathExists: Path -> bool): (p: Path)
    requires |paths| >= 1
    ensures p in paths
  {
    match FirstExisting(paths, pathExists)
    case Some(i) => paths[i]
    case None => paths[0]
  }

  /** The earliest existing candidate is chosen. */
  lemma {:induction false} ResolvePicksEarliest(paths: seq<Path>, pathExists: Path -> bool, i: nat)
    requires i < |paths| && pathExists(paths[i])
    requires forall j :: 0 <= j < i ==> !pathExists(paths[j])
    ensures Resolve(paths, pathExists) == paths[i]
  {
    var r := FirstExisting(paths, pathExists);
    assert r.Some?;
    assert !(r.value < i) && !(i < r.value);
  }

  /** The result exists on disk exactly when some candidate does; when none
      does, the first candidate is assumed. */
  lemma {:induction false} ResolveExistsIff(paths: seq<Path>, pathExists: Path -> bool)
    requires |paths| >= 1
    ensures pathExists(Resolve(paths, pathExists)) <==> exists j :: 0 <= j < |paths| && pathExists(paths[j])
    ensures (forall j :: 0 <= j < |paths| ==> !pathExists(paths[j])) ==> Resolve(paths, pathExists) == paths[0]
  {
    if FirstExisting(paths, pathExists).None? {
      assert !pathExists(paths[0]);
    }
  }

  /** An existing `XDG_CACHE_HOME/mksg/wallflow` wins on every platform. */
  lemma {:induction false} XdgWins(home: string, platform: string, env: Env, pathExists: Path -> bool)
    requires IsSet(env.xdgCacheHome) && pathExists(XdgPath(env.xdgCacheHome.value))
    ensures Resolve(Candidates(home, platform, env), pathExists) == XdgPath(env.xdgCacheHome.value)
  {
    ResolvePicksEarliest(Candidates(home, platform, env), pathExists, 0);
  }

  /** The pywal directory is chosen only when it exists and no wallflow
      candidate does. */
  lemma {:induction false} PywalOnlyAsLastResort(home: string, platform: string, env: Env, pathExists: Path -> bool)
    ensures var c := Candidates(home, platform, env);
      Resolve(c, pathExists) == PywalPath(home) <==>
        pathExists(PywalPath(home)) && forall j :: 0 <= j < |c| - 1 ==> !pathExists(c[j])
  {
    var c := Candidates(home, platform, env);
    OnlyLastIsPywal(home, platform, env);
    var r := FirstExisting(c, pathExists);
    if pathExists(PywalPath(home)) && forall j :: 0 <= j < |c| - 1 ==> !pathExists(c[j]) {
      ResolvePicksEarliest(c, pathExists, |c| - 1);
    } else if r.Some? {
      assert r.value < |c| - 1 || !pathExists(PywalPath(home));
      assert Resolve(c, pathExists) == c[r.value];
    } else {
      assert Resolve(c, pathExists) == c[0];
    }
  }

  /**
   * `getWallflowCachePath`: pushes the candidates in order of preference,
   * then probes them in a loop and returns the first that exists, or the
   * first candidate.
   */
  method GetWallflowCachePath(home: string, platform: string, env: Env, pathExists: Path -> bool)
    returns (cachePath: Path)
    ensures cachePath == Resolve(Candidates(home, platform, env), pathExists)
  {
    var pathsToTry: seq<Path> := [];
    if IsSet(env.xdgCacheHome) {
      pathsToTry := pathsToTry + [XdgPath(env.xdgCacheHome.value)];
    }
    ghost var preferred := pathsToTry;
    if platform == "darwin" {
      pathsToTry := pathsToTry + [DarwinCachesPath(home)];
      pathsToTry := pathsToTry + [DarwinAppSupportPath(home)];
    } else if platform == "win32" {
      pathsToTry := pathsToTry + [WindowsPath(home, env)];
    } else {
      pathsToTry := pathsToTry + [LinuxPath(home)];
    }
    assert pathsToTry == preferred + PlatformPaths(home, platform, env);
    var pywalPath := PywalPath(home);
    pathsToTry := pathsToTry + [pywalPath];
    assert pathsToTry == Candidates(home, platform, env);

    cachePath := Probe(pathsToTry, pathExists);
  }

  /** The probing loop of `getWallflowCachePath`: the first path that
      exists, returned early, or the first path when none exists. */
  method Probe(pathsToTry: seq<Path>, pathExists: Path -> bool) returns (cachePath: Path)
    requires |pathsToTry| >= 1
    ensures cachePath == Resolve(pathsToTry, pathExists)
  {
    for i := 0 to |pathsToTry|
      invariant forall j :: 0 <= j < i ==> !pathExists(pathsToTry[j])
    {
      if pathExists(pathsToTry[i]) {
        ResolvePicksEarliest(pathsToTry, pathExists, i);
        return pathsToTry[i];
      }
    }
    ResolveExistsIff(pathsToTry, pathExists);
    return pathsToTry[0];
  }
}
