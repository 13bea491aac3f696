/**
 * The decision logic of the Karma debug runner
 * (js-karma/src/com/intellij/javascript/karma/debug/KarmaDebugProgramRunner.java):
 * whether the runner applies, which JavaScript debug engine serves the
 * browsers captured by the Karma server, and the URL-to-directory mappings
 * that let the debugger find the served files.
 *
 * The registered engines, the captured browser names, the Karma server's
 * configuration and port, the virtual file system lookups and the local
 * file system root are all parameters.
 */
module KarmaDebugRunner {
  import opened Wrappers
  import opened Decimal

  // ---------------------------------------------------------------------
  // canRun
  // ---------------------------------------------------------------------

  /** The id of the platform's debug executor (DefaultDebugExecutor.EXECUTOR_ID). */
  const DebugExecutorId: string := "Debug"

  /** A run profile: a Karma run configuration or any other. */
  datatype RunProfile = KarmaRunConfiguration | OtherRunProfile

  /** `canRun`: this runner handles debugging of Karma run configurations only. */
  function CanRun(executorId: string, profile: RunProfile): (r: bool)
    ensures r ==> executorId == DebugExecutorId
    ensures r ==> profile == KarmaRunConfiguration
    ensures executorId == DebugExecutorId && profile == KarmaRunConfiguration ==> r
  {
    DebugExecutorId == executorId && profile.KarmaRunConfiguration?
  }

  // ---------------------------------------------------------------------
  // getDebugEngine
  // ---------------------------------------------------------------------

  /** `t` occurs in `s` starting at position `i`. */
  predicate OccursAt(s: string, t: string, i: int)
  {
    0 <= i && i + |t| <= |s| && s[i..i + |t|] == t
  }

  /** An occurrence in the tail of `s` is an occurrence in `s`, one position on. */
  lemma OccursShift(s: string, t: string, i: int)
    requires s != [] && 0 <= i
    ensures OccursAt(s[1..], t, i) <==> OccursAt(s, t, i + 1)
  {
    if 0 <= i && i + |t| <= |s| - 1 {
      assert s[1..][i..i + |t|] == s[i + 1..i + 1 + |t|];
    }
  }

  /** Java's `s.contains(t)`; the empty string occurs in every string. */
  function Contains(s: string, t: string): (r: bool)
    ensures r <==> exists i :: OccursAt(s, t, i)
  {
    if |t| <= |s| && s[..|t|] == t then
      assert OccursAt(s, t, 0);
      true
    else if s == [] then
      false
    else
      var r := Contains(s[1..], t);
      assert !OccursAt(s, t, 0);
      assert r <==> exists i :: OccursAt(s, t, i) by {
        if r {
          var j :| OccursAt(s[1..], t, j);
          OccursShift(s, t, j);
        }
        if exists i :: OccursAt(s, t, i) {
          var i :| OccursAt(s, t, i);
          OccursShift(s, t, i - 1);
        }
      }
      r
  }

  /** A browser name contains every part of it: "Chrome 28.0 (Mac)" contains "Chrome". */
  lemma ContainsInfix(before: string, t: string, after: string)
    ensures Contains(before + t + after, t)
  {
    assert (before + t + after)[|before|..|before| + |t|] == t;
    assert OccursAt(before + t + after, t, |before|);
  }

  /** A registered JavaScript debug engine and the name of its browser family. */
  datatype DebugEngine = DebugEngine(id: string, browserFamilyName: string)

  /** The engine's browser family name occurs in the name of some captured browser. */
  predicate Qualifies(engine: DebugEngine, capturedBrowsers: set<string>)
  {
    exists name :: name in capturedBrowsers && Contains(name, engine.browserFamilyName)
  }

  /**
   * The engines the loop adds to the candidate set, in the order it adds
   * them: each registered engine that qualifies, once per position in the
   * engine array.
   */
  function QualifyingEngines(engines: seq<DebugEngine>, capturedBrowsers: set<string>): (added: seq<DebugEngine>)
    ensures forall e :: e in added <==> e in engines && Qualifies(e, capturedBrowsers)
    ensures multiset(added) <= multiset(engines)
  {
    if engines == [] then []
    else
      var init := engines[..|engines| - 1];
      var last := engines[|engines| - 1];
      assert engines == init + [last];
      QualifyingEngines(init, capturedBrowsers) + if Qualifies(last, capturedBrowsers) then [last] else []
  }

  /** With no captured browser no engine qualifies. */
  lemma {:induction false} NoEngineWithoutBrowsers(engines: seq<DebugEngine>)
    ensures QualifyingEngines(engines, {}) == []
  {
    if engines != [] {
      NoEngineWithoutBrowsers(engines[..|engines| - 1]);
    }
  }

  /**
   * The inner loop of `getDebugEngine`: scan the captured browser names,
   * in the set's iteration order, and stop at the first one that contains
   * the engine's browser family name.
   */
  method MatchesCapturedBrowser(engine: DebugEngine, capturedBrowsers: set<string>) returns (found: bool)
    ensures found <==> Qualifies(engine, capturedBrowsers)
  {
    var remaining := capturedBrowsers;
    while remaining != {}
      invariant remaining <= capturedBrowsers
      invariant forall name :: name in capturedBrowsers - remaining ==> !Contains(name, engine.browserFamilyName)
      decreases remaining
    {
      var capturedBrowserName :| capturedBrowserName in remaining;
      if Contains(capturedBrowserName, engine.browserFamilyName) {
        return true;
      }
      remaining := remaining - {capturedBrowserName};
    }
    return false;
  }

  /**
   * `getDebugEngine`: add each registered engine that matches a captured
   * browser to a hash set; return some element of that set (the hash
   * set's iteration order picks which), or null (`None`) when it is
   * empty. `added` records the additions to the set.
   */
  method GetDebugEngine(engines: seq<DebugEngine>, capturedBrowsers: set<string>)
    returns (engine: Option<DebugEngine>, ghost added: seq<DebugEngine>)
    ensures added == QualifyingEngines(engines, capturedBrowsers)
    ensures engine.None? <==> forall e :: e in engines ==> !Qualifies(e, capturedBrowsers)
    ensures engine.Some? ==> engine.value in engines && Qualifies(engine.value, capturedBrowsers)
  {
    var capturedEngines: set<DebugEngine> := {};
    added := [];
    for i := 0 to |engines|
      invariant added == QualifyingEngines(engines[..i], capturedBrowsers)
      invariant forall e :: e in capturedEngines <==> e in added
    {
      var candidate := engines[i];
      assert engines[..i + 1] == engines[..i] + [candidate];
      var found := MatchesCapturedBrowser(candidate, capturedBrowsers);
      if found {
        capturedEngines := capturedEngines + {candidate};
        added := added + [candidate];
      }
    }
    assert engines[..|engines|] == engines;
    if capturedEngines == {} {
      return None, added;
    }
    var chosen :| chosen in capturedEngines;
    engine := Some(chosen);
  }

  // ---------------------------------------------------------------------
  // getDebuggableFileFinder
  // ---------------------------------------------------------------------

  /** A virtual file of the IDE: its path and whether it is still valid. */
  datatype VirtualFile = VirtualFile(path: string, isValid: bool)

  /** The parsed Karma configuration file: its `basePath`. */
  datatype KarmaConfig = KarmaConfig(basePath: string)

  /** What the runner reads from the running Karma server. */
  datatype KarmaServer = KarmaServer(config: Option<KarmaConfig>, webServerPort: int)

  /** `HashBiMap.put` throws when the value is already bound to another key. */
  datatype FinderError = ValueAlreadyPresent(key: string, value: VirtualFile)

  /** No two keys are bound to the same value. */
  ghost predicate Injective(m: map<string, VirtualFile>)
  {
    forall k1, k2 :: k1 in m && k2 in m && m[k1] == m[k2] ==> k1 == k2
  }

  /** The Guava `HashBiMap<String, VirtualFile>` the mappings are collected in. */
  class UrlFileBiMap {
    var entries: map<string, VirtualFile>

    ghost predicate Valid()
      reads this
    {
      Injective(entries)
    }

    constructor ()
      ensures Valid() && entries == map[]
    {
      entries := map[];
    }

    /**
     * `put(key, value)`: binds `key` to `value`, unless `value` is already
     * bound to a different key, in which case it throws and changes nothing.
     */
    method Put(key: string, value: VirtualFile) returns (ok: bool)
      requires Valid()
      modifies this
      ensures Valid()
      ensures ok <==> forall k :: k in old(entries) && old(entries)[k] == value ==> k == key
      ensures entries == if ok then old(entries)[key := value] else old(entries)
    {
      ok := forall k :: k in entries && entries[k] == value ==> k == key;
      if ok {
        entries := entries[key := value];
      }
    }
  }

  /** The address of the Karma web server: `http://localhost:<port>`. */
  function ServerUrl(port: int): (url: string)
    ensures |url| > 17 && url[..17] == "http://localhost:" && url[17..] == IntToDecimal(port)
    ensures url[17] == '-' <==> port < 0
    ensures forall k :: 17 < k < |url| ==> IsDigit(url[k])
  {
    "http://localhost:" + IntToDecimal(port)
  }

  /** The URL the base directory is served under: the server address, then `/base`. */
  function BaseUrl(port: int): (url: string)
    ensures |url| == |ServerUrl(port)| + 5
    ensures url[..|ServerUrl(port)|] == ServerUrl(port) && url[|ServerUrl(port)|..] == "/base"
  {
    ServerUrl(port) + "/base"
  }

  /** The URL the whole file system is served under: the server address, then `/absolute`. */
  function AbsoluteUrl(port: int): (url: string)
    ensures |url| == |ServerUrl(port)| + 9
    ensures url[..|ServerUrl(port)|] == ServerUrl(port) && url[|ServerUrl(port)|..] == "/absolute"
  {
    ServerUrl(port) + "/absolute"
  }

  /**
   * The directory served under `/base`: the Karma configuration's base
   * path, when there is a configuration and the path resolves to a valid
   * virtual file (`vfs` stands for `VfsUtil.findFileByIoFile`).
   */
  function BaseDirectory(server: KarmaServer, vfs: map<string, VirtualFile>): (dir: Option<VirtualFile>)
    ensures dir.Some? <==>
      server.config.Some? && server.config.value.basePath in vfs && vfs[server.config.value.basePath].isValid
    ensures dir.Some? ==> dir.value == vfs[server.config.value.basePath] && dir.value.isValid
  {
    match server.config
    case None => None
    case Some(config) =>
      if config.basePath in vfs && vfs[config.basePath].isValid then Some(vfs[config.basePath]) else None
  }

  /**
   * The mappings of `getDebuggableFileFinder`: `/base` to the base
   * directory when there is one, then `/absolute` to the file system root.
   * The second put throws when the base directory is the root itself.
   */
  method GetDebuggableFileFinder(server: KarmaServer, vfs: map<string, VirtualFile>, fsRoot: VirtualFile)
    returns (r: Result<map<string, VirtualFile>, FinderError>)
    ensures r.Err? <==> BaseDirectory(server, vfs) == Some(fsRoot)
    ensures r.Ok? ==> AbsoluteUrl(server.webServerPort) in r.value
                      && r.value[AbsoluteUrl(server.webServerPort)] == fsRoot
    ensures r.Ok? ==> (BaseUrl(server.webServerPort) in r.value <==> BaseDirectory(server, vfs).Some?)
    ensures r.Ok? && BaseDirectory(server, vfs).Some? ==>
              r.value[BaseUrl(server.webServerPort)] == BaseDirectory(server, vfs).value
    ensures r.Ok? ==> r.value.Keys <= {BaseUrl(server.webServerPort), AbsoluteUrl(server.webServerPort)}
  {
    var port := server.webServerPort;
    MappingUrlsDistinct(port, port);
    var mappings := new UrlFileBiMap();
    if server.config.Some? {
      var basePath := server.config.value.basePath;
      if basePath in vfs && vfs[basePath].isValid {
        var _ := mappings.Put(BaseUrl(port), vfs[basePath]);
      }
    }
    var ok := mappings.Put(AbsoluteUrl(port), fsRoot);
    if !ok {
      return Err(ValueAlreadyPresent(AbsoluteUrl(port), fsRoot));
    }
    return Ok(mappings.entries);
  }

  /**
   * The two mapping keys never collide, whatever the ports, and each
   * determines its port: both keys of one finder name the same server.
   */
  lemma MappingUrlsDistinct(p: int, q: int)
    ensures BaseUrl(p) != AbsoluteUrl(q)
    ensures BaseUrl(p) == BaseUrl(q) ==> p == q
    ensures AbsoluteUrl(p) == AbsoluteUrl(q) ==> p == q
  {
    var prefix := "http://localhost:";
    var dp, dq := IntToDecimal(p), IntToDecimal(q);
    if |BaseUrl(p)| == |AbsoluteUrl(q)| {
      assert BaseUrl(p)[|BaseUrl(p)| - 5] == '/';
      assert AbsoluteUrl(q)[|AbsoluteUrl(q)| - 5] == 'o';
    }
    if BaseUrl(p) == BaseUrl(q) {
      assert dp == BaseUrl(p)[|prefix|..|BaseUrl(p)| - 5];
      assert dq == BaseUrl(q)[|prefix|..|BaseUrl(q)| - 5];
      IntToDecimalInjective(p, q);
    }
    if AbsoluteUrl(p) == AbsoluteUrl(q) {
      assert dp == AbsoluteUrl(p)[|prefix|..|AbsoluteUrl(p)| - 9];
      assert dq == AbsoluteUrl(q)[|prefix|..|AbsoluteUrl(q)| - 9];
      IntToDecimalInjective(p, q);
    }
  }
}
