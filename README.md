# Dependency download cascade of AnnoyingAPI

AnnoyingAPI is a library for Bukkit/Spigot server plugins. Before a plugin
starts, `AnnoyingDownload` fetches the plugins it depends on. Each
dependency has a map from a download platform to a platform-specific
identifier. For each dependency, the downloader tries the platforms in a
fixed order of priority:

- Modrinth
- Spigot, through the Spiget API
- BukkitDev
- an external direct-download URL
- a manual-install URL

A platform that fails is removed from the map, and the cascade starts over
from the top. A Spigot resource hosted elsewhere is reclassified: Spigot is
removed and its external link is added under External (a `.jar` link) or
Manual, unless that entry already exists. Every dependency's cascade ends with one
`finish`. That call may ask the host to activate the plugin. Unless
activation throws an exception `finish` does not catch, it then counts the
dependency off the batch and announces the batch once nothing remains.

The project has these parts:

- `platforms.dfy` covers the platforms, their priority and the termination measure of the cascade.
- `java_strings.dfy` covers the Java string operations the resolvers use (`split`, `endsWith`).
- `urls.dfy` covers the request URLs and the derivation of the game version.
- `resolution.dfy` covers the cascade as a pure state machine (`Attempt`, `Run`) over an `Environment`. The environment says how each request URL answers and which download URLs Java accepts. A URL is accepted when `new URL(url).openConnection()` succeeds, which needs no network: it fails only for a malformed URL or a protocol Java has no handler for.
- `download.dfy` covers the downloader as a class with a counter and a log. Its methods change a `Dependency`'s platform map in place, as the source does. They are proved against `Run`.

The source's `attemptDownload` calls itself again after every removal or
reclassification. In the model this retry is a loop. Its measure is the
platform map's weight: Spigot counts 2 and every other platform counts 1,
because a reclassification removes Spigot but may add one platform.

Two behaviours of the code shape the model:

- An empty batch is never announced. `downloadPlugins` sets the counter to 0 and starts no thread, so `finish` never runs (lines 67-68). `DownloadPlugins` states that case.
- The counter is a plain `int` that every download thread decrements without synchronisation (line 271). The model runs the cascades one after another (see "Left out").

## Model

| member | source | states |
|---|---|---|
| Platforms.Chosen | src/main/java/xyz/srnyx/annoyingapi/AnnoyingDownload.java:78-111 | A platform is chosen exactly when the map is non-empty. It is the present platform first in the order Modrinth, Spigot, Bukkit, External, Manual (the order of the enum at lines 314-340). |
| Resolution.Reclassified | src/main/java/xyz/srnyx/annoyingapi/AnnoyingDownload.java:163-178 | The key set gains External (for a `.jar` link) or Manual. No existing entry changes. The link is stored only when that platform was absent (`putIfAbsent`). |
| Resolution.Fetch | src/main/java/xyz/srnyx/annoyingapi/AnnoyingDownload.java:216-243 | A download attempt succeeds exactly when Java accepts the URL (lines 219-222), as a download of that URL from that platform. Otherwise it disqualifies that platform. A request that fails later, while copying (line 231), still counts as success. |
| Resolution.ModrinthRound | src/main/java/xyz/srnyx/annoyingapi/AnnoyingDownload.java:118-136 | Modrinth is the platform attempted. A retry disqualifies Modrinth and lowers the map's weight. A download is of a URL Java accepts. |
| Resolution.SpigotRound | src/main/java/xyz/srnyx/annoyingapi/AnnoyingDownload.java:142-183 | Spigot is the platform attempted. A retry lowers the map's weight and can add only External or Manual. A download is of a URL Java accepts. |
| Resolution.Attempt | src/main/java/xyz/srnyx/annoyingapi/AnnoyingDownload.java:74-183 | One round acts on the first present platform, and on none exactly when the map is empty. A retry lowers the map's weight and keeps the remaining answers well formed. A download is only of a URL Java accepts, and never from Manual. A manual ending carries the Manual entry. |
| Resolution.Run | src/main/java/xyz/srnyx/annoyingapi/AnnoyingDownload.java:74-243 | The cascade terminates. It runs out exactly when the final map is empty. A download comes from the first platform present in the final map, of a URL Java accepts. A manual ending leaves only the Manual entry, with that URL. Nothing is attempted exactly when the map starts empty. |
| Resolution.RunSettles | src/main/java/xyz/srnyx/annoyingapi/AnnoyingDownload.java:74-112 | A map the cascade has finished with is settled: running the cascade again on it ends the same way and changes nothing. So, with the environment answering each URL the same way for the whole batch, a dependency listed twice ends as it did the first time. |
| Resolution.ModrinthRequestNames | src/main/java/xyz/srnyx/annoyingapi/AnnoyingDownload.java:120-122 | The Modrinth query names the dependency's Modrinth project and the corrected game version `Urls.GameVersion` of the Bukkit version, not the source's derivation (see "Findings"). Both can be read back from it. |
| Resolution.RetryMovesDown | src/main/java/xyz/srnyx/annoyingapi/AnnoyingDownload.java:126-129 | After a retry, every platform left ranks strictly below the one just attempted. |
| Resolution.TraceAscending | src/main/java/xyz/srnyx/annoyingapi/AnnoyingDownload.java:74-112 | The platforms attempted in one cascade are strictly ascending in priority rank, so no platform is tried twice. |
| Resolution.KeepsValues | src/main/java/xyz/srnyx/annoyingapi/AnnoyingDownload.java:164-174 | No entry of the starting map is overwritten. An entry the map gains is External or Manual, and only when Spigot was present at the start. |
| Resolution.GivenUpStayRemoved | src/main/java/xyz/srnyx/annoyingapi/AnnoyingDownload.java:148-159 | Every platform the cascade gave up on is absent from the final map. These are all attempts except the last, or every attempt when it ran out. |
| Resolution.FetchedFrom | src/main/java/xyz/srnyx/annoyingapi/AnnoyingDownload.java:92-98 | The downloaded URL is the one the winning platform builds from its final entry. For Modrinth that is the first file of the first version. For Spigot it is the Spiget download endpoint. For Bukkit it is the latest-file page. For External it is the entry itself. |
| Resolution.ManualEndsAtOnce | src/main/java/xyz/srnyx/annoyingapi/AnnoyingDownload.java:103-106 | When Manual is the first platform present, the cascade ends at once with its URL and leaves the map unchanged. |
| Resolution.EmptyRunsOut | src/main/java/xyz/srnyx/annoyingapi/AnnoyingDownload.java:109-111 | An empty map runs out of platforms without attempting anything. |
| Resolution.ModrinthFailureRunsOut | src/main/java/xyz/srnyx/annoyingapi/AnnoyingDownload.java:125-130 | A Modrinth-only dependency whose query fails ends with an empty map, having tried Modrinth once. |
| Resolution.PremiumDropped | src/main/java/xyz/srnyx/annoyingapi/AnnoyingDownload.java:155-160 | A premium Spigot resource disqualifies Spigot. |
| Resolution.SpigotExternalJarFetched | src/main/java/xyz/srnyx/annoyingapi/AnnoyingDownload.java:163-177 | A Spigot resource hosted at a `.jar` link is fetched from that link as External. The final map holds just that link, and the attempts are Spigot and then External. |
| Urls.BukkitRoundTrip | src/main/java/xyz/srnyx/annoyingapi/AnnoyingDownload.java:92 | The project slug can be read back from the BukkitDev URL built for it. |
| Urls.SpigetRoundTrip | src/main/java/xyz/srnyx/annoyingapi/AnnoyingDownload.java:144 | The resource id can be read back from the Spiget download URL. That URL is the resource URL plus `/download` (line 182). |
| Urls.ModrinthRoundTrip | src/main/java/xyz/srnyx/annoyingapi/AnnoyingDownload.java:120-122 | The project and the game version can both be read back from the Modrinth versions query. |
| Urls.GameVersionAsWrittenOn | src/main/java/xyz/srnyx/annoyingapi/AnnoyingDownload.java:119-122 | On `a.b.t`, where `a` and `b` hold no '.' and `t` cut at its next '.' and then at its first '-' is not empty, the source's game version is `a.b.` followed by that cut of `t`. |
| Urls.GameVersion | src/main/java/xyz/srnyx/annoyingapi/AnnoyingDownload.java:119-122 | The game version is the longest prefix of the Bukkit version without a '-'. It ends where the version ends or just before its first '-'. |
| Urls.GameVersionAgrees | src/main/java/xyz/srnyx/annoyingapi/AnnoyingDownload.java:119-122 | On `major.minor.patch` with or without a `-suffix`, the corrected game version equals the source's. |
| Urls.GameVersionKeepsTwoPartSuffix | src/main/java/xyz/srnyx/annoyingapi/AnnoyingDownload.java:119-122 | On `major.minor-pre.rest`, the source's game version still contains '-', while the corrected one is `major.minor`. |
| JavaStrings.JoinPieces | src/main/java/xyz/srnyx/annoyingapi/AnnoyingDownload.java:119 | Joining the pieces of a string split at every separator gives the string back. This is the basis of the model of `String.split`. |
| JavaStrings.JavaSplitHead | src/main/java/xyz/srnyx/annoyingapi/AnnoyingDownload.java:122 | The first element of `split("-")` is the text before the first '-'. |
| Download.BatchCompletions | src/main/java/xyz/srnyx/annoyingapi/AnnoyingDownload.java:67-68 | When the cascades of a batch run in turn, their notices hold exactly one completion notice once all of them have run, and it is the last notice. A batch that has not finished, or an empty one, holds none. |
| Download.CascadeCompletions | src/main/java/xyz/srnyx/annoyingapi/AnnoyingDownload.java:271-274 | One cascade's notices hold a completion notice exactly when its `finish` brought the counter to zero, and then it is the last of them. |
| Download.Downloader.constructor | src/main/java/xyz/srnyx/annoyingapi/AnnoyingDownload.java:47-51 | The downloader keeps the given dependencies and starts with an empty log. |
| Download.Downloader.Single | src/main/java/xyz/srnyx/annoyingapi/AnnoyingDownload.java:59-61 | A single dependency is a batch of one. |
| Download.Downloader.DownloadPlugins | src/main/java/xyz/srnyx/annoyingapi/AnnoyingDownload.java:66-69 | The counter ends at zero. Each dependency's cascade ends as `Run` of its starting map says, and its map ends as `Run`'s final map. With the environment answering each URL the same way for the whole batch, this holds even when the dependency is listed twice. The log gains each cascade's notices in batch order. A non-empty batch adds exactly one completion notice, for the whole batch, as its last notice. An empty batch adds none. |
| Download.Downloader.RunThread | src/main/java/xyz/srnyx/annoyingapi/AnnoyingDownload.java:68 | The work of one download thread. It ends as `Run` of the dependency's map says, and leaves `Run`'s final map. The counter drops by one, and the log gains exactly that cascade's notices. |
| Download.Downloader.RunBatch | src/main/java/xyz/srnyx/annoyingapi/AnnoyingDownload.java:68 | The `forEach` runs every dependency's cascade. Each map ends at its cascade's final map, and the log gains the cascades' notices in batch order. |
| Download.Downloader.AttemptDownload | src/main/java/xyz/srnyx/annoyingapi/AnnoyingDownload.java:74-112 | The dependency's platform map ends as `Run`'s final map. The counter drops by exactly one. The log gains the cascade's ending notice followed by one `finish`'s notices. Activation is requested only after a download. |
| Download.Downloader.AttemptRound | src/main/java/xyz/srnyx/annoyingapi/AnnoyingDownload.java:78-107 | One dispatch to the resolver of the first present platform does what `Attempt` decides, and changes the map as that step says. |
| Download.Downloader.TryModrinth | src/main/java/xyz/srnyx/annoyingapi/AnnoyingDownload.java:118-136 | A failed query removes Modrinth. Otherwise the first file of the first version is downloaded. |
| Download.Downloader.TrySpigot | src/main/java/xyz/srnyx/annoyingapi/AnnoyingDownload.java:142-183 | A failed query or a premium resource removes Spigot. An external resource removes Spigot and stores its link as `Reclassified` says. Otherwise the Spiget download endpoint is downloaded. |
| Download.Downloader.DownloadFile | src/main/java/xyz/srnyx/annoyingapi/AnnoyingDownload.java:216-243 | A URL Java refuses (lines 219-222) removes exactly that platform. Any other URL is a success and leaves the map unchanged, even when the request made while copying fails (line 231). |
| Download.Downloader.Finish | src/main/java/xyz/srnyx/annoyingapi/AnnoyingDownload.java:248-275 | Activation is requested exactly when the download succeeded, the dependency asks for it and no plugin of that name is loaded. The counter drops by one, and the batch is announced exactly when it reaches zero. |

## Left out

- HTTP and JSON (`getJson`, `openConnection`, the JSON parser, the User-Agent header, `disconnect`) are not modelled. `Environment` gives each request URL's answer and which download URLs Java accepts. A failed query (an I/O error or 404) is `ModrinthFailed` or `SpigetFailed`.
- Download.Downloader.AttemptDownload requires the Modrinth answer it will read to have a first version with a first file (`Resolvable`). The source indexes them unchecked and throws otherwise. That thread exception is not modelled.
- Spiget answers without the `premium`, `external` or `file.externalUrl` fields are not modelled. In the source they throw; `SpigetReply` always carries all three.
- The byte copy in `downloadFile` and the file it writes are not modelled. The download request is only sent when the copy starts (line 231), and the source ignores its failures. An unreachable host or a 404 is therefore still reported as a success, and the model does the same.
- A download URL whose protocol is not HTTP, such as `ftp://host/x.jar`, is not modelled. Java accepts it, but the `(HttpURLConnection)` cast at line 220 then throws an uncaught `ClassCastException`. That thread ends without `finish`, so the batch is never announced.
- Download.Downloader.DownloadPlugins runs the cascades one after another. The source starts one thread per dependency and decrements the shared counter without synchronisation. Interleavings, and the lost updates they allow, are not modelled.
- Loading and enabling a plugin and `registerCommands` are not modelled. The model logs an `ActivationRequested` notice where the source loads the plugin, and load failures are not modelled. `finish` catches only `InvalidPluginException` and `InvalidDescriptionException` (line 258). Other exceptions during activation end the thread before `remaining--` (line 271), so the batch is never announced. Examples are a `null` from `loadPlugin` (line 256), an exception from the plugin's own `onLoad` or enable code (lines 256-257), and a failed cast in `registerCommands` (lines 292-300). The model always reaches the decrement.
- Which plugins the host already has loaded is a fixed `loaded` set for the whole batch. Plugins activated during the batch are not added to it.
- Log texts, colour codes and stack traces are not modelled. The log holds one notice per message kind.
- Urls.GameVersion is the corrected derivation (see "Findings"). On a version with four or more '.'-parts and no '-', such as "1.2.3.4", it keeps all the parts, where the source keeps three. Bukkit versions do not have that form.
- Resolution.RunSettles and Download.Downloader.DownloadPlugins rely on the environment answering each URL the same way for the whole batch. In the source, a dependency listed twice gets a second thread (line 68). That thread sends its Modrinth or Spiget request again (lines 123, 145) and builds its download connection again (line 220), concurrently with the first. A request that succeeded once can fail the second time and end that cascade differently. The model cannot express that.
- Resolution.ModrinthRound queries Modrinth with the corrected game version `Urls.GameVersion` (see "Findings"). The source queries with `Urls.GameVersionAsWritten`. The two agree on three-part versions (`Urls.GameVersionAgrees`). On a two-part version such as "1.20-R0.1-SNAPSHOT" the model asks for "1.20" where the source asks for "1.20-R0.1".
- Resolution.ModrinthRequestNames is about that corrected query: it reads back "1.20" where the source's query holds "1.20-R0.1".
- Download.Downloader.TryModrinth builds the same corrected query as `Resolution.ModrinthRound`. The source throws on a Bukkit version with fewer than three '.'-parts; the model does not.
- `GameVersionAsWritten` returns `None` on a Bukkit version with fewer than three '.'-parts, where the source throws.

## Findings

| source | as written | input that shows it | evidently intended | confidence | as-written member | corrected member |
|---|---|---|---|---|---|---|
| src/main/java/xyz/srnyx/annoyingapi/AnnoyingDownload.java:119-122 | The Bukkit version is split on '.' first, and only the third part is cut at '-'. A two-part game version therefore keeps its pre-release suffix in the Modrinth query. | Bukkit version "1.20-R0.1-SNAPSHOT" gives game version "1.20-R0.1", which matches no Modrinth version. The reply is then an empty array, which line 133 indexes. | "1.20": the Bukkit version without its "-R…" suffix | medium; not executed | Urls.GameVersionKeepsTwoPartSuffix (about Urls.GameVersionAsWritten) | Urls.GameVersion (agreeing with the source on three-part versions: Urls.GameVersionAgrees) |
