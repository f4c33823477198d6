/**
 * `AnnoyingDownload`: downloads a batch of dependencies, each through its
 * own cascade of platforms, and counts finished dependencies down to the
 * single "all processed" notice.
 */
module Download {
  import opened Platforms
  import opened JavaStrings
  import opened Urls
  import opened Resolution

  /** A dependency to download: the fields of `AnnoyingDependency` the download uses. */
  class Dependency {
    const name: string
    const enableAfterDownload: bool
    var platforms: map<Platform, string>

    constructor (name: string, platforms: map<Platform, string>, enableAfterDownload: bool)
      ensures this.name == name && this.platforms == platforms
      ensures this.enableAfterDownload == enableAfterDownload
    {
      this.name := name;
      this.platforms := platforms;
      this.enableAfterDownload := enableAfterDownload;
    }
  }

  /** What the download writes to the plugin's log, without text or colours. */
  datatype Notice =
    | InstallManually(name: string, url: string)
    | OutOfPlatforms(name: string)
    | DownloadSucceeded(name: string, platform: Platform)
    | ActivationRequested(name: string)   // load, enable and register commands
    | AllProcessed(count: nat)

  /** The notice that closes one dependency's cascade. */
  function EndNotice(name: string, e: Ending): Notice
  {
    match e
    case Fetched(p, _) => DownloadSucceeded(name, p)
    case ManualOnly(url) => InstallManually(name, url)
    case RanOut => OutOfPlatforms(name)
  }

  /** The guard of `finish`: only a download, only if wanted, only if not loaded yet. */
  predicate ShouldActivate(enable: bool, enableAfterDownload: bool, alreadyLoaded: bool)
  {
    enable && enableAfterDownload && !alreadyLoaded
  }

  /** The notices `finish` adds: the activation request, then the batch notice when the counter hits zero. */
  function FinishNotices(name: string, activate: bool, last: bool, count: nat): seq<Notice>
  {
    (if activate then [ActivationRequested(name)] else []) + (if last then [AllProcessed(count)] else [])
  }

  /** Everything one dependency's cascade logs: its closing notice, then what `finish` adds. */
  function CascadeNotices(name: string, e: Ending, activate: bool, last: bool, count: nat): seq<Notice>
  {
    [EndNotice(name, e)] + FinishNotices(name, activate, last, count)
  }

  /** How many batch-completion notices a log holds. */
  function Completions(log: seq<Notice>): nat
  {
    if log == [] then 0
    else Completions(log[..|log| - 1]) + (if log[|log| - 1].AllProcessed? then 1 else 0)
  }

  lemma {:induction false} CompletionsAppend(a: seq<Notice>, b: seq<Notice>)
    ensures Completions(a + b) == Completions(a) + Completions(b)
    decreases |b|
  {
    if b != [] {
      assert (a + b)[..|a + b| - 1] == a + b[..|b| - 1];
      CompletionsAppend(a, b[..|b| - 1]);
    } else {
      assert a + b == a;
    }
  }

  /** One cascade's notices hold a completion notice exactly when its `finish` was the last. */
  lemma CascadeCompletions(name: string, e: Ending, activate: bool, last: bool, count: nat)
    ensures Completions(CascadeNotices(name, e, activate, last, count)) == if last then 1 else 0
    ensures last ==> CascadeNotices(name, e, activate, last, count)[|CascadeNotices(name, e, activate, last, count)| - 1]
                     == AllProcessed(count)
  {
    var a := if activate then [ActivationRequested(name)] else [];
    var b := if last then [AllProcessed(count)] else [];
    CompletionsAppend([EndNotice(name, e)], a + b);
    CompletionsAppend(a, b);
  }

  /**
   * What a batch logs when its first `k` cascades run one after another,
   * the i-th ending as `endings[i]`: each cascade's notices, where the
   * `finish` of the last dependency of the batch also announces it.
   */
  function BatchNotices(deps: seq<Dependency>, endings: seq<Ending>, k: nat, loaded: set<string>): seq<Notice>
    requires k <= |endings| <= |deps|
  {
    if k == 0 then []
    else
      BatchNotices(deps, endings, k - 1, loaded) +
      CascadeNotices(deps[k - 1].name, endings[k - 1],
                     ShouldActivate(endings[k - 1].Fetched?, deps[k - 1].enableAfterDownload, deps[k - 1].name in loaded),
                     k == |deps|, |deps|)
  }

  /** One more cascade appends its notices to what the batch has logged so far. */
  lemma BatchNoticesGrow(logged: seq<Notice>, deps: seq<Dependency>, endings: seq<Ending>, i: nat, loaded: set<string>)
    requires i < |endings| <= |deps|
    ensures logged + BatchNotices(deps, endings, i, loaded) +
      CascadeNotices(deps[i].name, endings[i],
                     ShouldActivate(endings[i].Fetched?, deps[i].enableAfterDownload, deps[i].name in loaded),
                     i + 1 == |deps|, |deps|)
      == logged + BatchNotices(deps, endings, i + 1, loaded)
  {
  }

  /**
   * A batch is announced exactly once, by its last cascade, and only when it
   * has one: no prefix of the batch holds a completion notice.
   */
  lemma {:induction false} BatchCompletions(deps: seq<Dependency>, endings: seq<Ending>, k: nat, loaded: set<string>)
    requires k <= |endings| <= |deps|
    ensures Completions(BatchNotices(deps, endings, k, loaded)) == if k == |deps| > 0 then 1 else 0
    ensures k == |deps| > 0 ==>
      var b := BatchNotices(deps, endings, k, loaded); b[|b| - 1] == AllProcessed(|deps|)
  {
    if k > 0 {
      var activate := ShouldActivate(endings[k - 1].Fetched?, deps[k - 1].enableAfterDownload, deps[k - 1].name in loaded);
      BatchCompletions(deps, endings, k - 1, loaded);
      CascadeCompletions(deps[k - 1].name, endings[k - 1], activate, k == |deps|, |deps|);
      CompletionsAppend(BatchNotices(deps, endings, k - 1, loaded),
                        CascadeNotices(deps[k - 1].name, endings[k - 1], activate, k == |deps|, |deps|));
    }
  }

  /** The download driver: the batch, its outstanding counter and its log. */
  class Downloader {
    const dependencies: seq<Dependency>
    var remaining: int
    var log: seq<Notice>

    constructor (dependencies: seq<Dependency>)
      ensures this.dependencies == dependencies && remaining == 0 && log == []
    {
      this.dependencies := dependencies;
      remaining := 0;
      log := [];
    }

    /** The single-dependency constructor. */
    constructor Single(dependency: Dependency)
      ensures dependencies == [dependency] && remaining == 0 && log == []
    {
      dependencies := [dependency];
      remaining := 0;
      log := [];
    }

    /**
     * `downloadPlugins`: set the counter to the batch size, then run every
     * dependency's cascade; here one after another. Returns the cascades'
     * endings in batch order.
     */
    method DownloadPlugins(env: Environment, loaded: set<string>) returns (ghost endings: seq<Ending>)
      requires forall d :: d in dependencies ==> Resolvable(d.platforms, env)
      modifies this, dependencies
      ensures remaining == 0
      ensures |endings| == |dependencies|
      ensures forall j :: 0 <= j < |dependencies| ==>
        && endings[j] == Run(old(dependencies[j].platforms), env).ending
        && dependencies[j].platforms == Run(old(dependencies[j].platforms), env).final
      ensures log == old(log) + BatchNotices(dependencies, endings, |dependencies|, loaded)
      ensures Completions(log[|old(log)|..]) == if |dependencies| == 0 then 0 else 1
      ensures |dependencies| > 0 ==> log[|log| - 1] == AllProcessed(|dependencies|)
    {
      var n := |dependencies|;
      // The maps the cascades start from, and where each cascade leads.
      ghost var starts := seq(n, j requires 0 <= j < n reads dependencies => dependencies[j].platforms);
      forall j | 0 <= j < n ensures Resolvable(starts[j], env) {
        assert dependencies[j] in dependencies;
      }
      ghost var outcomes := seq(n, j requires 0 <= j < n && Resolvable(starts[j], env) => Run(starts[j], env));
      forall j | 0 <= j < n
        ensures LeadsTo(starts[j], outcomes[j], env) && LeadsTo(outcomes[j].final, outcomes[j], env)
      {
        RunSettles(starts[j], env);
      }
      forall j, k | 0 <= j < n && 0 <= k < n && dependencies[j] == dependencies[k]
        ensures outcomes[j] == outcomes[k]
      {
        assert starts[j] == starts[k];
      }
      endings := seq(n, j requires 0 <= j < n => outcomes[j].ending);
      remaining := n;
      RunBatch(env, loaded, starts, outcomes, endings);
      BatchCompletions(dependencies, endings, |dependencies|, loaded);
      assert log[|old(log)|..] == BatchNotices(dependencies, endings, |dependencies|, loaded);
    }

    /**
     * The `forEach` of `downloadPlugins`: every dependency's cascade in
     * turn. Cascade `j` starts from `starts[j]` and leads to `outcomes[j]`;
     * a dependency listed twice finds its map already settled the second time.
     */
    method RunBatch(env: Environment, loaded: set<string>, ghost starts: seq<map<Platform, string>>,
                    ghost outcomes: seq<Outcome>, ghost endings: seq<Ending>)
      requires |starts| == |outcomes| == |endings| == |dependencies| == remaining
      requires forall j :: 0 <= j < |dependencies| ==> dependencies[j].platforms == starts[j]
      requires forall j :: 0 <= j < |dependencies| ==> endings[j] == outcomes[j].ending
      requires forall j, k :: 0 <= j < |dependencies| && 0 <= k < |dependencies| && dependencies[j] == dependencies[k] ==>
        outcomes[j] == outcomes[k]
      requires forall j {:trigger LeadsTo(starts[j], outcomes[j], env)} ::
        0 <= j < |dependencies| ==> LeadsTo(starts[j], outcomes[j], env)
      requires forall j {:trigger LeadsTo(outcomes[j].final, outcomes[j], env)} ::
        0 <= j < |dependencies| ==> LeadsTo(outcomes[j].final, outcomes[j], env)
      modifies this`remaining, this`log, dependencies
      ensures remaining == 0
      ensures forall j :: 0 <= j < |dependencies| ==> dependencies[j].platforms == outcomes[j].final
      ensures log == old(log) + BatchNotices(dependencies, endings, |dependencies|, loaded)
    {
      var n := |dependencies|;
      var i := 0;
      while i < n
        invariant 0 <= i <= n && remaining == n - i
        invariant log == old(log) + BatchNotices(dependencies, endings, i, loaded)
        invariant forall j :: 0 <= j < n ==>
          dependencies[j].platforms == starts[j] || dependencies[j].platforms == outcomes[j].final
        invariant forall j :: 0 <= j < i ==> dependencies[j].platforms == outcomes[j].final
      {
        var dependency := dependencies[i];
        ghost var e := RunTowards(dependency, env, loaded, starts[i], outcomes[i]);
        BatchNoticesGrow(old(log), dependencies, endings, i, loaded);
        forall j | 0 <= j < n && dependencies[j] == dependency
          ensures dependencies[j].platforms == outcomes[j].final
        {
          assert outcomes[j] == outcomes[i];
        }
        i := i + 1;
      }
    }

    /**
     * Proof device with no counterpart in the source: `RunThread` on a map
     * that leads to `o`, either the map the cascade starts from or the map it
     * has already settled on. It keeps `Run` out of the proof of `RunBatch`.
     */
    method RunTowards(dependency: Dependency, env: Environment, loaded: set<string>,
                      ghost start: map<Platform, string>, ghost o: Outcome)
      returns (ghost ending: Ending)
      requires dependency.platforms == start || dependency.platforms == o.final
      requires LeadsTo(start, o, env) && LeadsTo(o.final, o, env)
      modifies this`remaining, this`log, dependency`platforms
      ensures ending == o.ending && dependency.platforms == o.final
      ensures remaining == old(remaining) - 1
      ensures log == old(log) + CascadeNotices(dependency.name, ending,
        ShouldActivate(ending.Fetched?, dependency.enableAfterDownload, dependency.name in loaded),
        remaining == 0, |dependencies|)
    {
      ending := RunThread(dependency, env, loaded);
    }

    /**
     * The work of one download thread: a dependency's cascade, whose ending
     * it returns.
     */
    method RunThread(dependency: Dependency, env: Environment, loaded: set<string>) returns (ghost ending: Ending)
      requires Resolvable(dependency.platforms, env)
      modifies this`remaining, this`log, dependency`platforms
      ensures ending == Run(old(dependency.platforms), env).ending
      ensures dependency.platforms == Run(old(dependency.platforms), env).final
      ensures remaining == old(remaining) - 1
      ensures log == old(log) + CascadeNotices(dependency.name, ending,
        ShouldActivate(ending.Fetched?, dependency.enableAfterDownload, dependency.name in loaded),
        remaining == 0, |dependencies|)
    {
      ending := Run(dependency.platforms, env).ending;
      AttemptDownload(dependency, env, loaded);
    }

    /**
     * `attemptDownload` with the resolvers it calls: the self-recursive
     * retry is a loop whose measure is the weighted count of platforms
     * left. Every way out of the loop reaches the single `finish` call.
     */
    method AttemptDownload(dependency: Dependency, env: Environment, loaded: set<string>)
      requires Resolvable(dependency.platforms, env)
      modifies this`remaining, this`log, dependency`platforms
      ensures var o := Run(old(dependency.platforms), env);
        && dependency.platforms == o.final
        && remaining == old(remaining) - 1
        && log == old(log) + CascadeNotices(dependency.name, o.ending,
             ShouldActivate(o.ending.Fetched?, dependency.enableAfterDownload, dependency.name in loaded),
             remaining == 0, |dependencies|)
      ensures Resolvable(dependency.platforms, env)
    {
      ghost var start := dependency.platforms;
      var ending := RanOut;
      while true
        invariant Resolvable(dependency.platforms, env)
        invariant Run(dependency.platforms, env).ending == Run(start, env).ending
        invariant Run(dependency.platforms, env).final == Run(start, env).final
        invariant remaining == old(remaining) && log == old(log)
        decreases Weight(dependency.platforms)
      {
        var step := AttemptRound(dependency, env);
        if step.Done? {
          ending := step.ending;
          break;
        }
      }
      log := log + [EndNotice(dependency.name, ending)];
      Finish(dependency, ending.Fetched?, dependency.name in loaded);
      FinalResolvable(start, env);
    }

    /**
     * One pass through `attemptDownload`: act on the first platform present
     * in priority order, up to the point where the source retries or
     * finishes. Returns what that pass decided.
     */
    method AttemptRound(dependency: Dependency, env: Environment) returns (step: Step)
      requires Resolvable(dependency.platforms, env)
      modifies dependency`platforms
      ensures step == Attempt(old(dependency.platforms), env)
      ensures dependency.platforms == if step.Done? then old(dependency.platforms)
                                      else Apply(old(dependency.platforms), step)
    {
      var platforms := dependency.platforms;
      if Modrinth in platforms {
        step := TryModrinth(dependency, env);
      } else if Spigot in platforms {
        step := TrySpigot(dependency, env);
      } else if Bukkit in platforms {
        step := DownloadFile(dependency, Bukkit, BukkitUrl(platforms[Bukkit]), env);
      } else if External in platforms {
        step := DownloadFile(dependency, External, platforms[External], env);
      } else if Manual in platforms {
        step := Done(ManualOnly(platforms[Manual]));
      } else {
        step := Done(RanOut);
      }
    }

    /**
     * `modrinth`: query Modrinth for versions matching the host. A failed
     * query removes Modrinth; otherwise the first file of the first version
     * is downloaded.
     */
    method TryModrinth(dependency: Dependency, env: Environment) returns (step: Step)
      requires Modrinth in dependency.platforms && Resolvable(dependency.platforms, env)
      modifies dependency`platforms
      ensures var reply := env.modrinth(ModrinthRequest(old(dependency.platforms), env));
        step == (if reply.ModrinthFailed? then Disqualify(Modrinth) else Fetch(env, Modrinth, reply.versions[0][0]))
      ensures dependency.platforms == if step.Done? then old(dependency.platforms)
                                      else old(dependency.platforms) - {Modrinth}
    {
      var request := ModrinthUrl(dependency.platforms[Modrinth], GameVersion(env.bukkitVersion));
      var reply := env.modrinth(request);
      if reply.ModrinthFailed? {
        dependency.platforms := dependency.platforms - {Modrinth};
        return Disqualify(Modrinth);
      }
      step := DownloadFile(dependency, Modrinth, reply.versions[0][0], env);
    }

    /**
     * `spigot`: query Spiget for the resource. A failed query or a premium
     * resource removes Spigot; an external resource removes Spigot and puts
     * its link under External (a `.jar`) or Manual, unless one is already
     * there; otherwise the resource's download endpoint is downloaded.
     */
    method TrySpigot(dependency: Dependency, env: Environment) returns (step: Step)
      requires Spigot in dependency.platforms
      modifies dependency`platforms
      ensures var id := old(dependency.platforms)[Spigot];
        var reply := env.spiget(SpigetUrl(id));
        if reply.SpigetFailed? || reply.premium then
          step == Disqualify(Spigot) && dependency.platforms == old(dependency.platforms) - {Spigot}
        else if reply.external then
          step == Reclassify(reply.externalUrl) &&
          dependency.platforms == Reclassified(old(dependency.platforms) - {Spigot}, reply.externalUrl)
        else
          step == Fetch(env, Spigot, SpigetDownloadUrl(id)) &&
          dependency.platforms == if step.Done? then old(dependency.platforms)
                                  else old(dependency.platforms) - {Spigot}
    {
      var resource := SpigetUrl(dependency.platforms[Spigot]);
      var reply := env.spiget(resource);
      if reply.SpigetFailed? {
        dependency.platforms := dependency.platforms - {Spigot};
        return Disqualify(Spigot);
      }
      if reply.premium {
        dependency.platforms := dependency.platforms - {Spigot};
        return Disqualify(Spigot);
      }
      if reply.external {
        dependency.platforms := dependency.platforms - {Spigot};
        var externalUrl := reply.externalUrl;
        if EndsWith(externalUrl, ".jar") {
          if External !in dependency.platforms {
            dependency.platforms := dependency.platforms[External := externalUrl];
          }
        } else {
          if Manual !in dependency.platforms {
            dependency.platforms := dependency.platforms[Manual := externalUrl];
          }
        }
        return Reclassify(externalUrl);
      }
      step := DownloadFile(dependency, Spigot, resource + SpigetDownload, env);
    }

    /**
     * `downloadFile`, without the byte copy: a URL for which no connection
     * object can be made removes the platform that produced it. Otherwise
     * the download counts as a success, even when the request sent while
     * copying fails (an unreachable host, a 404).
     */
    method DownloadFile(dependency: Dependency, platform: Platform, url: string, env: Environment)
      returns (step: Step)
      modifies dependency`platforms
      ensures step == Fetch(env, platform, url)
      ensures dependency.platforms == if env.accepts(url) then old(dependency.platforms)
                                      else old(dependency.platforms) - {platform}
    {
      if !env.accepts(url) {
        dependency.platforms := dependency.platforms - {platform};
        return Disqualify(platform);
      }
      return Done(Fetched(platform, url));
    }

    /**
     * `finish`: request activation when the download succeeded, the
     * dependency asks for it and the host has no plugin of that name; then
     * count the dependency off and announce the batch when none remain.
     */
    method Finish(dependency: Dependency, enable: bool, alreadyLoaded: bool)
      modifies this`remaining, this`log
      ensures remaining == old(remaining) - 1
      ensures log == old(log) +
        FinishNotices(dependency.name, ShouldActivate(enable, dependency.enableAfterDownload, alreadyLoaded),
                      remaining == 0, |dependencies|)
    {
      if enable && dependency.enableAfterDownload && !alreadyLoaded {
        log := log + [ActivationRequested(dependency.name)];
      }
      remaining := remaining - 1;
      if remaining == 0 {
        log := log + [AllProcessed(|dependencies|)];
      }
    }
  }
}
