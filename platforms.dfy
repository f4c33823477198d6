/**
 * The platforms a dependency can be downloaded from, and the fixed
 * priority order in which the download cascade tries them.
 */
module Platforms {
  import opened Wrappers

  /** Modrinth project, Spigot resource, BukkitDev project, direct link, manual-install link. */
  datatype Platform = Modrinth | Spigot | Bukkit | External | Manual

  /** Position of a platform in the priority order; 0 is tried first. */
  function Rank(p: Platform): nat
  {
    match p
    case Modrinth => 0
    case Spigot => 1
    case Bukkit => 2
    case External => 3
    case Manual => 4
  }

  /** `p` is present in `m` and no platform of higher priority is. */
  ghost predicate IsFirstPresent(m: map<Platform, string>, p: Platform)
  {
    p in m && forall q :: q in m ==> Rank(p) <= Rank(q)
  }

  /**
   * The platform the cascade acts on next: the chain of `containsKey`
   * tests at the top of `attemptDownload`.
   */
  function Chosen(m: map<Platform, string>): (r: Option<Platform>)
    ensures r.None? <==> m == map[]
    ensures r.Some? ==> IsFirstPresent(m, r.value)
  {
    if Modrinth in m then Some(Modrinth)
    else if Spigot in m then Some(Spigot)
    else if Bukkit in m then Some(Bukkit)
    else if External in m then Some(External)
    else if Manual in m then Some(Manual)
    else
      NoneLeft(m);
      None
  }

  /** A map that holds none of the five platforms is empty. */
  lemma NoneLeft(m: map<Platform, string>)
    requires Modrinth !in m && Spigot !in m && Bukkit !in m && External !in m && Manual !in m
    ensures m == map[]
  {
    forall q | q in m ensures false {
      match q
      case Modrinth =>
      case Spigot =>
      case Bukkit =>
      case External =>
      case Manual =>
    }
    assert m.Keys == {};
  }

  /** What a present platform contributes to the termination measure of the cascade. */
  function Cost(p: Platform): nat
  {
    if p == Spigot then 2 else 1
  }

  /**
   * Weighted count of the platforms present in `m`. Spigot weighs two,
   * because resolving it may put one External or Manual entry back.
   */
  function Weight(m: map<Platform, string>): nat
  {
    (if Modrinth in m then Cost(Modrinth) else 0) +
    (if Spigot in m then Cost(Spigot) else 0) +
    (if Bukkit in m then Cost(Bukkit) else 0) +
    (if External in m then Cost(External) else 0) +
    (if Manual in m then Cost(Manual) else 0)
  }

  /** Removing a present platform lowers the weight by exactly its cost. */
  lemma RemoveLowersWeight(m: map<Platform, string>, p: Platform)
    requires p in m
    ensures Weight(m - {p}) + Cost(p) == Weight(m)
  {
  }
}
