/**
 * The download cascade of one dependency as a pure state machine over its
 * platform map. The network is an `Environment`: what each request URL
 * answers, and whether Java accepts each download URL.
 */
module Resolution {
  import opened Wrappers
  import opened Platforms
  import opened JavaStrings
  import opened Urls

  /** Modrinth's versions query: failure (I/O error or 404), or the versions with their file URLs. */
  datatype ModrinthReply = ModrinthFailed | Versions(versions: seq<seq<string>>)

  /** Spiget's resource query: failure (I/O error or 404), or the resource's flags and external URL. */
  datatype SpigetReply = SpigetFailed | Resource(premium: bool, external: bool, externalUrl: string)

  /**
   * The host's Bukkit version and the answers of the network, keyed by URL.
   * `accepts(url)` is whether `new URL(url).openConnection()` succeeds in
   * `downloadFile`. That call sends no request; it fails only for a URL
   * Java cannot parse or whose protocol it has no handler for.
   */
  datatype Environment = Environment(
    bukkitVersion: string,
    modrinth: string -> ModrinthReply,
    spiget: string -> SpigetReply,
    accepts: string -> bool)

  /** How one dependency's cascade ends. */
  datatype Ending =
    | Fetched(platform: Platform, url: string)  // downloaded, reported as a success
    | ManualOnly(url: string)                   // the user is told to install by hand
    | RanOut                                    // no platform left

  /** What one round of the cascade decides. */
  datatype Step =
    | Disqualify(platform: Platform)  // remove this platform and start over
    | Reclassify(externalUrl: string) // Spigot resource hosted elsewhere: remove Spigot, add the URL
    | Done(ending: Ending)

  /** A finished cascade: how it ended, the platform map left behind, the platforms attempted in turn. */
  datatype Outcome = Outcome(ending: Ending, final: map<Platform, string>, trace: seq<Platform>)

  /** The Modrinth request for the project named in `m`. */
  function ModrinthRequest(m: map<Platform, string>, env: Environment): string
    requires Modrinth in m
  {
    ModrinthUrl(m[Modrinth], GameVersion(env.bukkitVersion))
  }

  /** A successful Modrinth answer has a first version with a first file. */
  predicate WellFormed(reply: ModrinthReply)
  {
    reply.Versions? ==> |reply.versions| > 0 && |reply.versions[0]| > 0
  }

  /**
   * The answers the cascade will read are well formed: the source indexes
   * the first version's first file without checking that they exist.
   */
  predicate Resolvable(m: map<Platform, string>, env: Environment)
  {
    Modrinth in m ==> WellFormed(env.modrinth(ModrinthRequest(m, env)))
  }

  /** Where a Spigot resource hosted elsewhere goes: a `.jar` link is fetched, anything else is manual. */
  function ExternalTarget(url: string): Platform
  {
    if EndsWith(url, ".jar") then External else Manual
  }

  /** `Map.putIfAbsent`. */
  function PutIfAbsent(m: map<Platform, string>, p: Platform, v: string): map<Platform, string>
  {
    if p in m then m else m[p := v]
  }

  /**
   * The map after a Spigot resource turned out to be external: its URL is
   * added under External or Manual, never over an entry already there.
   */
  function Reclassified(m: map<Platform, string>, url: string): (r: map<Platform, string>)
    ensures r.Keys == m.Keys + {ExternalTarget(url)}
    ensures forall p :: p in m ==> r[p] == m[p]
    ensures ExternalTarget(url) !in m ==> r[ExternalTarget(url)] == url
  {
    PutIfAbsent(m, ExternalTarget(url), url)
  }

  /** The map the next round starts from. */
  function Apply(m: map<Platform, string>, s: Step): map<Platform, string>
    requires !s.Done?
  {
    match s
    case Disqualify(p) => m - {p}
    case Reclassify(url) => Reclassified(m - {Spigot}, url)
  }

  /** The platform a step acted on; none when the map was already empty. */
  function Attempted(s: Step): Option<Platform>
  {
    match s
    case Disqualify(p) => Some(p)
    case Reclassify(_) => Some(Spigot)
    case Done(Fetched(p, _)) => Some(p)
    case Done(ManualOnly(_)) => Some(Manual)
    case Done(RanOut) => None
  }

  /**
   * `downloadFile`: a URL Java refuses disqualifies the platform. Once the
   * connection object exists the dependency counts as downloaded: the
   * request itself is sent while copying, whose failures are ignored.
   */
  function Fetch(env: Environment, p: Platform, url: string): (s: Step)
    ensures Attempted(s) == Some(p)
    ensures s.Done? <==> env.accepts(url)
    ensures s.Done? ==> s.ending == Fetched(p, url)
    ensures !s.Done? ==> s == Disqualify(p)
  {
    if env.accepts(url) then Done(Fetched(p, url)) else Disqualify(p)
  }

  /**
   * `modrinth`: a failed versions query disqualifies Modrinth; otherwise the
   * first file of the first version is downloaded.
   */
  function ModrinthRound(m: map<Platform, string>, env: Environment): (s: Step)
    requires Modrinth in m && Resolvable(m, env)
    ensures Attempted(s) == Some(Modrinth)
    ensures !s.Done? ==> s == Disqualify(Modrinth) && Weight(Apply(m, s)) < Weight(m)
    ensures s.Done? ==> s.ending.Fetched? && env.accepts(s.ending.url)
  {
    var reply := env.modrinth(ModrinthRequest(m, env));
    RemoveLowersWeight(m, Modrinth);
    if reply.ModrinthFailed? then Disqualify(Modrinth)
    else Fetch(env, Modrinth, reply.versions[0][0])
  }

  /**
   * `spigot`: a failed resource query or a premium resource disqualifies
   * Spigot; a resource hosted elsewhere is reclassified; otherwise the
   * Spiget download endpoint is downloaded.
   */
  function SpigotRound(m: map<Platform, string>, env: Environment): (s: Step)
    requires Spigot in m
    ensures Attempted(s) == Some(Spigot)
    ensures !s.Done? ==> Weight(Apply(m, s)) < Weight(m) && Apply(m, s).Keys <= m.Keys + {External, Manual}
    ensures s.Done? ==> s.ending.Fetched? && env.accepts(s.ending.url)
  {
    var reply := env.spiget(SpigetUrl(m[Spigot]));
    RemoveLowersWeight(m, Spigot);
    if reply.SpigetFailed? || reply.premium then Disqualify(Spigot)
    else if reply.external then Reclassify(reply.externalUrl)
    else Fetch(env, Spigot, SpigetDownloadUrl(m[Spigot]))
  }

  /** A map without Modrinth reads no Modrinth answer. */
  lemma NoModrinthResolvable(m: map<Platform, string>, env: Environment)
    requires Modrinth !in m
    ensures Resolvable(m, env)
  {
  }

  /**
   * One round of `attemptDownload` with the resolver it dispatches to,
   * up to the next retry or the end.
   */
  function Attempt(m: map<Platform, string>, env: Environment): (s: Step)
    requires Resolvable(m, env)
    ensures Attempted(s).None? <==> m == map[]
    ensures Attempted(s).Some? ==> IsFirstPresent(m, Attempted(s).value)
    ensures !s.Done? ==> Weight(Apply(m, s)) < Weight(m) && Resolvable(Apply(m, s), env)
    ensures s.Done? && s.ending.Fetched? ==> env.accepts(s.ending.url) && s.ending.platform != Manual
    ensures s.Done? && s.ending.ManualOnly? ==> s.ending.url == m[Manual]
  {
    match Chosen(m)
    case None => Done(RanOut)
    case Some(Modrinth) =>
      var s := ModrinthRound(m, env);
      if s.Done? then s else NoModrinthResolvable(Apply(m, s), env); s
    case Some(Spigot) =>
      var s := SpigotRound(m, env);
      if s.Done? then s else NoModrinthResolvable(Apply(m, s), env); s
    case Some(Bukkit) =>
      RemoveLowersWeight(m, Bukkit);
      var s := Fetch(env, Bukkit, BukkitUrl(m[Bukkit]));
      if s.Done? then s else NoModrinthResolvable(Apply(m, s), env); s
    case Some(External) =>
      RemoveLowersWeight(m, External);
      var s := Fetch(env, External, m[External]);
      if s.Done? then s else NoModrinthResolvable(Apply(m, s), env); s
    case Some(Manual) => Done(ManualOnly(m[Manual]))
  }

  /** The platform a step adds to the trace of attempts. */
  function TraceEntry(s: Step): seq<Platform>
  {
    match Attempted(s)
    case None => []
    case Some(p) => [p]
  }

  /**
   * The whole cascade: rounds of `Attempt` until one ends it. Terminates
   * because every retry lowers `Weight`.
   */
  function Run(m: map<Platform, string>, env: Environment): (o: Outcome)
    requires Resolvable(m, env)
    ensures o.ending.RanOut? <==> o.final == map[]
    ensures o.ending.Fetched? ==> IsFirstPresent(o.final, o.ending.platform) && env.accepts(o.ending.url)
    ensures o.ending.ManualOnly? ==> o.final.Keys == {Manual} && o.final[Manual] == o.ending.url
    ensures o.trace == [] <==> m == map[]
    decreases Weight(m)
  {
    var s := Attempt(m, env);
    if s.Done? then Outcome(s.ending, m, TraceEntry(s))
    else
      var rest := Run(Apply(m, s), env);
      Outcome(rest.ending, rest.final, TraceEntry(s) + rest.trace)
  }

  /** Platforms of strictly increasing priority rank. */
  predicate Ascending(t: seq<Platform>)
  {
    forall i, j :: 0 <= i < j < |t| ==> Rank(t[i]) < Rank(t[j])
  }

  /** After a retry, everything left in the map ranks below the platform just attempted. */
  lemma RetryMovesDown(m: map<Platform, string>, env: Environment)
    requires Resolvable(m, env) && !Attempt(m, env).Done?
    ensures var s := Attempt(m, env);
      forall q :: q in Apply(m, s) ==> Rank(Attempted(s).value) < Rank(q)
  {
  }

  /** A cascade never attempts a platform ranked above everything its map starts with. */
  lemma {:induction false} TraceAtLeast(m: map<Platform, string>, env: Environment, k: nat)
    requires Resolvable(m, env)
    requires forall q :: q in m ==> k <= Rank(q)
    ensures forall i :: 0 <= i < |Run(m, env).trace| ==> k <= Rank(Run(m, env).trace[i])
    decreases Weight(m)
  {
    var s := Attempt(m, env);
    if !s.Done? {
      var next := Apply(m, s);
      RetryMovesDown(m, env);
      TraceAtLeast(next, env, k);
    }
  }

  /**
   * The cascade tries platforms in priority order and never the same one
   * twice: every retry rescans from the top, but only lower-ranked
   * platforms can be left or added.
   */
  lemma {:induction false} TraceAscending(m: map<Platform, string>, env: Environment)
    requires Resolvable(m, env)
    ensures Ascending(Run(m, env).trace)
    decreases Weight(m)
  {
    var s := Attempt(m, env);
    if !s.Done? {
      var next := Apply(m, s);
      var p := Attempted(s).value;
      RetryMovesDown(m, env);
      TraceAtLeast(next, env, Rank(p) + 1);
      TraceAscending(next, env);
      assert Run(m, env).trace == [p] + Run(next, env).trace;
      AscendingCons(p, Run(next, env).trace);
    }
  }

  /** Putting a platform ranked above everything in an ascending trace in front keeps it ascending. */
  lemma AscendingCons(p: Platform, t: seq<Platform>)
    requires Ascending(t)
    requires forall i :: 0 <= i < |t| ==> Rank(p) + 1 <= Rank(t[i])
    ensures Ascending([p] + t)
  {
    var u := [p] + t;
    forall i, j | 0 <= i < j < |u| ensures Rank(u[i]) < Rank(u[j]) {
      if i > 0 {
        assert u[i] == t[i - 1];
      }
      assert u[j] == t[j - 1];
    }
  }

  /**
   * No value is ever overwritten: an entry that survives the cascade keeps
   * its value, and the only entries that can appear are External or Manual,
   * and only when the map held Spigot.
   */
  lemma {:induction false} KeepsValues(m: map<Platform, string>, env: Environment)
    requires Resolvable(m, env)
    ensures forall p :: p in Run(m, env).final && p in m ==> Run(m, env).final[p] == m[p]
    ensures forall p :: p in Run(m, env).final && p !in m ==> (p == External || p == Manual) && Spigot in m
    decreases Weight(m)
  {
    var s := Attempt(m, env);
    if !s.Done? {
      var next := Apply(m, s);
      var p := Attempted(s).value;
      KeepsValues(next, env);
      RetryMovesDown(m, env);
      var f := Run(m, env).final;
      assert f == Run(next, env).final;
      forall q | q in f && q in m ensures f[q] == m[q] {
      }
      forall q | q in f && q !in m ensures (q == External || q == Manual) && Spigot in m {
        if q !in next {
          assert Spigot in next;
        } else {
          assert s.Reclassify?;
        }
      }
    }
  }

  /** The map left behind is as well formed as the one the cascade started from. */
  lemma FinalResolvable(m: map<Platform, string>, env: Environment)
    requires Resolvable(m, env)
    ensures Resolvable(Run(m, env).final, env)
  {
    KeepsValues(m, env);
  }

  /**
   * The map a cascade leaves is settled: running the cascade again on it
   * ends the same way and changes nothing more.
   */
  lemma {:induction false} RunSettles(m: map<Platform, string>, env: Environment)
    requires Resolvable(m, env)
    ensures Resolvable(Run(m, env).final, env)
    ensures Run(Run(m, env).final, env).ending == Run(m, env).ending
    ensures Run(Run(m, env).final, env).final == Run(m, env).final
    decreases Weight(m)
  {
    FinalResolvable(m, env);
    var s := Attempt(m, env);
    if !s.Done? {
      RunSettles(Apply(m, s), env);
    }
  }

  /** Starting from `m`, the cascade ends as `o` says and leaves `o`'s final map. */
  ghost predicate LeadsTo(m: map<Platform, string>, o: Outcome, env: Environment)
  {
    Resolvable(m, env) && Run(m, env).ending == o.ending && Run(m, env).final == o.final
  }

  /** The Modrinth query names the dependency's Modrinth project and the host's game version. */
  lemma ModrinthRequestNames(m: map<Platform, string>, env: Environment)
    requires Modrinth in m
    ensures var url := ModrinthRequest(m, env);
      && Between(url, ModrinthProjects, ModrinthQuery + GameVersion(env.bukkitVersion) + ModrinthQueryEnd)
         == Some(m[Modrinth])
      && Between(url, ModrinthProjects + m[Modrinth] + ModrinthQuery, ModrinthQueryEnd)
         == Some(GameVersion(env.bukkitVersion))
  {
    ModrinthRoundTrip(m[Modrinth], GameVersion(env.bukkitVersion));
  }

  /** The platform a retry gave up on is not in the map the rest of the cascade leaves. */
  lemma RetriedIsGone(m: map<Platform, string>, env: Environment)
    requires Resolvable(m, env) && !Attempt(m, env).Done?
    ensures var s := Attempt(m, env);
      Attempted(s).value !in Run(Apply(m, s), env).final
  {
    var s := Attempt(m, env);
    var next := Apply(m, s);
    var p := Attempted(s).value;
    RetryMovesDown(m, env);
    KeepsValues(next, env);
    assert p !in next;
  }

  /**
   * Every platform the cascade gave up on is gone from the final map: all
   * attempts but the one that ended the cascade were removed for good.
   */
  lemma {:induction false} GivenUpStayRemoved(m: map<Platform, string>, env: Environment)
    requires Resolvable(m, env)
    ensures var o := Run(m, env);
      forall i :: 0 <= i < |o.trace| && (o.ending.RanOut? || i < |o.trace| - 1) ==> o.trace[i] !in o.final
    decreases Weight(m)
  {
    var s := Attempt(m, env);
    if !s.Done? {
      var next := Apply(m, s);
      GivenUpStayRemoved(next, env);
      RetriedIsGone(m, env);
      var o := Run(m, env);
      var r := Run(next, env);
      assert o.trace == [Attempted(s).value] + r.trace;
      forall i | 0 < i < |o.trace| && (o.ending.RanOut? || i < |o.trace| - 1)
        ensures o.trace[i] !in o.final
      {
        assert o.trace[i] == r.trace[i - 1];
      }
    }
  }

  /**
   * The URL that was downloaded is the one the winning platform's resolver
   * builds from its entry in the final map.
   */
  lemma {:induction false} FetchedFrom(m: map<Platform, string>, env: Environment)
    requires Resolvable(m, env)
    ensures var o := Run(m, env);
      o.ending.Fetched? ==>
        && o.ending.platform in o.final
        && env.accepts(o.ending.url)
        && (o.ending.platform == Modrinth ==>
              var reply := env.modrinth(ModrinthRequest(o.final, env));
              reply.Versions? && WellFormed(reply) && o.ending.url == reply.versions[0][0])
        && (o.ending.platform == Spigot ==> o.ending.url == SpigetDownloadUrl(o.final[Spigot]))
        && (o.ending.platform == Bukkit ==> o.ending.url == BukkitUrl(o.final[Bukkit]))
        && (o.ending.platform == External ==> o.ending.url == o.final[External])
    decreases Weight(m)
  {
    var s := Attempt(m, env);
    if !s.Done? {
      FetchedFrom(Apply(m, s), env);
    }
  }

  /** A map whose first platform is Manual ends at once: nothing fetched, nothing removed. */
  lemma ManualEndsAtOnce(m: map<Platform, string>, env: Environment)
    requires Resolvable(m, env) && IsFirstPresent(m, Manual)
    ensures Run(m, env) == Outcome(ManualOnly(m[Manual]), m, [Manual])
  {
  }

  /** An empty map ends the cascade with "ran out of platforms" and attempts nothing. */
  lemma EmptyRunsOut(env: Environment)
    ensures Run(map[], env) == Outcome(RanOut, map[], [])
  {
  }

  /** A lone Modrinth entry whose query fails: the platforms run out after one attempt, nothing fetched. */
  lemma ModrinthFailureRunsOut(project: string, env: Environment)
    requires env.modrinth(ModrinthUrl(project, GameVersion(env.bukkitVersion))).ModrinthFailed?
    ensures Run(map[Modrinth := project], env) == Outcome(RanOut, map[], [Modrinth])
  {
    var m := map[Modrinth := project];
    assert m - {Modrinth} == map[];
  }

  /** A premium Spigot resource is dropped and never fetched, whatever its other flags. */
  lemma PremiumDropped(m: map<Platform, string>, env: Environment)
    requires Resolvable(m, env) && IsFirstPresent(m, Spigot)
    requires var reply := env.spiget(SpigetUrl(m[Spigot])); reply.Resource? && reply.premium
    ensures Attempt(m, env) == Disqualify(Spigot)
  {
  }

  /**
   * A lone Spigot entry for a resource hosted at a `.jar` link: the link
   * becomes the External entry and is what gets downloaded.
   */
  lemma SpigotExternalJarFetched(id: string, url: string, env: Environment)
    requires EndsWith(url, ".jar")
    requires env.spiget(SpigetUrl(id)) == Resource(false, true, url)
    requires env.accepts(url)
    ensures Run(map[Spigot := id], env) == Outcome(Fetched(External, url), map[External := url], [Spigot, External])
  {
    var m := map[Spigot := id];
    assert m - {Spigot} == map[];
    var next := Reclassified(map[], url);
    assert next == map[External := url];
  }
}
