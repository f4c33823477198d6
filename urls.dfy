/**
 * The request and download URLs the cascade builds, and the game version
 * it asks Modrinth for, derived from the host's Bukkit version string.
 */
module Urls {
  import opened Wrappers
  import opened JavaStrings

  const BukkitProjects: string := "https://dev.bukkit.org/projects/"
  const BukkitLatest: string := "/files/latest"
  const SpigetResources: string := "https://api.spiget.org/v2/resources/"
  const SpigetDownload: string := "/download"
  const ModrinthProjects: string := "https://api.modrinth.com/v2/project/"
  const ModrinthQuery: string :=
    "/version?loaders=%5B%22spigot%22,%22paper%22,%22purpur%22%5D&game_versions=%5B%22"
  const ModrinthQueryEnd: string := "%22%5D"

  /** Direct download of the latest file of a BukkitDev project. */
  function BukkitUrl(slug: string): string
  {
    BukkitProjects + slug + BukkitLatest
  }

  /** The project a BukkitDev download URL points at. */
  function BukkitSlug(url: string): Option<string>
  {
    Between(url, BukkitProjects, BukkitLatest)
  }

  /** The Spiget resource-information endpoint of a Spigot resource id. */
  function SpigetUrl(id: string): string
  {
    SpigetResources + id
  }

  /** The Spiget download URL: the resource endpoint followed by `/download`. */
  function SpigetDownloadUrl(id: string): string
  {
    SpigetUrl(id) + SpigetDownload
  }

  /** The Modrinth versions query for a project, filtered to the server loaders and one game version. */
  function ModrinthUrl(project: string, gameVersion: string): string
  {
    ModrinthProjects + project + ModrinthQuery + gameVersion + ModrinthQueryEnd
  }

  /** The slug is recovered from the BukkitDev URL built for it. */
  lemma BukkitRoundTrip(slug: string)
    ensures BukkitSlug(BukkitUrl(slug)) == Some(slug)
  {
    BetweenAffixes(BukkitProjects, slug, BukkitLatest);
  }

  /** The resource id is recovered from the Spiget download URL built for it. */
  lemma SpigetRoundTrip(id: string)
    ensures Between(SpigetDownloadUrl(id), SpigetResources, SpigetDownload) == Some(id)
  {
    BetweenAffixes(SpigetResources, id, SpigetDownload);
  }

  /** The Modrinth query names exactly the project and the game version it was built from. */
  lemma ModrinthRoundTrip(project: string, gameVersion: string)
    ensures Between(ModrinthUrl(project, gameVersion), ModrinthProjects,
                    ModrinthQuery + gameVersion + ModrinthQueryEnd) == Some(project)
    ensures Between(ModrinthUrl(project, gameVersion), ModrinthProjects + project + ModrinthQuery,
                    ModrinthQueryEnd) == Some(gameVersion)
  {
    var url := ModrinthUrl(project, gameVersion);
    assert url == ModrinthProjects + project + (ModrinthQuery + gameVersion + ModrinthQueryEnd);
    BetweenAffixes(ModrinthProjects, project, ModrinthQuery + gameVersion + ModrinthQueryEnd);
    assert url == (ModrinthProjects + project + ModrinthQuery) + gameVersion + ModrinthQueryEnd;
    BetweenAffixes(ModrinthProjects + project + ModrinthQuery, gameVersion, ModrinthQueryEnd);
  }

  /**
   * The game version as the source derives it: split the Bukkit version on
   * '.', keep the first two parts and the third up to its first '-'.
   * None where the source throws (fewer than three parts, or a third part
   * made only of dashes).
   */
  function GameVersionAsWritten(bukkitVersion: string): Option<string>
  {
    var v := JavaSplit(bukkitVersion, '.');
    if |v| < 3 then None
    else
      var patch := JavaSplit(v[2], '-');
      if |patch| == 0 then None
      else Some(v[0] + "." + v[1] + "." + patch[0])
  }

  /**
   * `a.b.t`: when the first two parts hold no '.', the third part of the
   * split is `t` up to its next '.', and the result is that part cut at '-'.
   */
  lemma {:induction false} GameVersionAsWrittenOn(a: string, b: string, t: string)
    requires '.' !in a && '.' !in b
    requires TakeUntil(TakeUntil(t, '.'), '-') != []
    ensures GameVersionAsWritten(a + "." + b + "." + t) ==
            Some(a + "." + b + "." + TakeUntil(TakeUntil(t, '.'), '-'))
  {
    SplitOfThreeParts(a, b, t);
    var v := JavaSplit(a + "." + b + "." + t, '.');
    var patch := JavaSplit(v[2], '-');
    assert |patch| > 0 by {
      if '-' in v[2] {
        PiecesHead(v[2], '-');
      }
    }
    JavaSplitHead(v[2], '-');
  }

  /** Split at '.', `a.b.t` starts with `a`, `b` and `t` up to its next '.'. */
  lemma SplitOfThreeParts(a: string, b: string, t: string)
    requires '.' !in a && '.' !in b
    requires TakeUntil(t, '.') != []
    ensures var v := JavaSplit(a + "." + b + "." + t, '.');
      |v| >= 3 && v[0] == a && v[1] == b && v[2] == TakeUntil(t, '.')
  {
    var s := a + "." + b + "." + t;
    assert s == a + ['.'] + (b + ['.'] + t);
    PiecesCons(a, b + ['.'] + t, '.');
    PiecesCons(b, t, '.');
    var p := Pieces(s, '.');
    assert p == [a] + ([b] + Pieces(t, '.'));
    PiecesHead(t, '.');
    assert p[2] == TakeUntil(t, '.');
    assert JavaSplit(s, '.') == DropTrailingEmpty(p);
  }

  /**
   * The Modrinth game version of a Bukkit version: its text before the
   * first '-', so that "1.20.1-R0.1-SNAPSHOT" gives "1.20.1" and
   * "1.20-R0.1-SNAPSHOT" gives "1.20".
   */
  function GameVersion(bukkitVersion: string): (r: string)
    ensures '-' !in r && StartsWith(bukkitVersion, r)
    ensures |r| < |bukkitVersion| ==> bukkitVersion[|r|] == '-'
  {
    TakeUntil(bukkitVersion, '-')
  }

  /**
   * On a three-part version "major.minor.patch", with or without a
   * pre-release suffix, the game version agrees with the source's.
   */
  lemma {:induction false} GameVersionAgrees(major: string, minor: string, patch: string, suffix: string)
    requires '.' !in major && '-' !in major && '.' !in minor && '-' !in minor
    requires '.' !in patch && '-' !in patch && patch != []
    requires suffix == [] || suffix[0] == '-'
    ensures GameVersionAsWritten(major + "." + minor + "." + patch + suffix) ==
            Some(GameVersion(major + "." + minor + "." + patch + suffix))
  {
    var t := patch + suffix;
    PatchCut(patch, suffix);
    assert major + "." + minor + "." + patch + suffix == major + "." + minor + "." + t;
    GameVersionAsWrittenOn(major, minor, t);
    var whole := major + "." + minor + "." + patch;
    assert '-' !in whole;
    SuffixCut(whole, suffix);
  }

  /** The third part `patch` followed by a '-' suffix is cut back to `patch`. */
  lemma PatchCut(patch: string, suffix: string)
    requires '.' !in patch && '-' !in patch
    requires suffix == [] || suffix[0] == '-'
    ensures TakeUntil(TakeUntil(patch + suffix, '.'), '-') == patch
  {
    TakeUntilAppend(patch, suffix, '.');
    var tail := TakeUntil(suffix, '.');
    TakeUntilAppend(patch, tail, '-');
    if suffix != [] {
      assert tail != [] && tail[0] == '-';
    }
  }

  /** Text without '-' followed by a '-' suffix is cut back to that text. */
  lemma SuffixCut(whole: string, suffix: string)
    requires '-' !in whole
    requires suffix == [] || suffix[0] == '-'
    ensures TakeUntil(whole + suffix, '-') == whole
  {
    TakeUntilAppend(whole, suffix, '-');
  }

  /**
   * The source keeps the pre-release suffix of a two-part version: for
   * "1.20-R0.1-SNAPSHOT" (major "1", minor "20", pre "R0", rest
   * "1-SNAPSHOT") it asks for "1.20-R0.1", where "1.20" is meant.
   */
  lemma GameVersionKeepsTwoPartSuffix(major: string, minor: string, pre: string, rest: string)
    requires '.' !in major && '-' !in major && '.' !in minor && '-' !in minor && '.' !in pre
    requires TakeUntil(TakeUntil(rest, '.'), '-') != []
    ensures var bukkitVersion := major + "." + minor + "-" + pre + "." + rest;
      && GameVersionAsWritten(bukkitVersion) ==
         Some(major + "." + minor + "-" + pre + "." + TakeUntil(TakeUntil(rest, '.'), '-'))
      && '-' in GameVersionAsWritten(bukkitVersion).value
      && GameVersion(bukkitVersion) == major + "." + minor
  {
    TwoPartAsWritten(major, minor, pre, rest);
    var r := major + "." + minor + "-" + pre + "." + TakeUntil(TakeUntil(rest, '.'), '-');
    assert r[|major| + 1 + |minor|] == '-';
    TwoPartStripped(major, minor, pre, rest);
  }

  lemma TwoPartAsWritten(major: string, minor: string, pre: string, rest: string)
    requires '.' !in major && '.' !in minor && '.' !in pre
    requires TakeUntil(TakeUntil(rest, '.'), '-') != []
    ensures GameVersionAsWritten(major + "." + minor + "-" + pre + "." + rest) ==
            Some(major + "." + minor + "-" + pre + "." + TakeUntil(TakeUntil(rest, '.'), '-'))
  {
    var head := major + ".";
    var middle := minor + "-" + pre;
    assert head + minor + "-" + pre == head + middle;
    GameVersionAsWrittenOn(major, middle, rest);
  }

  lemma TwoPartStripped(major: string, minor: string, pre: string, rest: string)
    requires '-' !in major && '-' !in minor
    ensures GameVersion(major + "." + minor + "-" + pre + "." + rest) == major + "." + minor
  {
    var release := major + "." + minor;
    var tail := "-" + pre + "." + rest;
    assert major + "." + minor + "-" + pre + "." + rest == release + tail;
    TakeUntilAppend(release, tail, '-');
  }
}
