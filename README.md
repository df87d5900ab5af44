# LibWatcher update checker, modelled in Dafny

LibWatcher is a small Laravel backend. It asks public registries (npm,
Packagist, PyPI, GitHub Releases, endoflife.date) for the latest versions of
languages and packages. It normalises each upstream JSON document into a
record with default values, caches the records, and serves them over a few
HTTP endpoints behind a per-IP rate limiter.

This project models three parts of it:

- `UpdateController`: the language, library, package and GitHub endpoints,
  their normalisers and their cache-aside wrapping;
- `UpdateService`: the per-package and per-language checks, the dispatch on
  the package type, and the four registry normalisers;
- `RateLimitApi`: the per-IP request counter.

Modules:

- `Json` (json.dfy): decoded JSON values, as PHP arrays see them. Also
  `isset`/`??` chains with constant offsets, which never fail and treat
  null as absent, and PHP truthiness. A computed offset inside `??` can
  throw a TypeError; that step is `Php.DimBy`.
- `Php` (php.dfy): how PHP 8 fails under Laravel's error handler.
  - A plain read of a missing key, or an offset on null, bool or int, raises
    a warning. The handler turns it into an `ErrorException`, which
    `catch (\Exception)` catches.
  - These throw a `TypeError`, which the catch blocks do not catch: an
    illegal offset type, `array_keys` of a non-array, and a plain read of a
    string.
  - Also here: `array_keys`, the case-insensitive regex token tests,
    ordered PHP arrays built by `$a[$k] = $v`, and the outcome of one HTTP
    GET.
- `Cache` (cache.dfy): the Laravel cache store as a map from key to (value,
  expiry), on an explicit clock `now`.
  - It is given as pure functions (`Lookup`, `Write`, `Remembered`).
  - It is also given as a class `Store` holding that map. `Get` reads it;
    `Put` and `Remember` update it in place.
- `EndOfLife` (eol.dfy): the endoflife.date projection that the controller
  and the service share.
- `Controller`, `Service` and `RateLimit` (controller.dfy, service.dfy,
  ratelimit.dfy): the three source files.
  - Each upstream call is an input value of type `Fetch`.
  - The service's loops and the endpoints that touch the cache are methods
    on a `Store`. Each is proved equal to a fold or function over the old
    store. The properties are lemmas about those functions.

Behaviour of the code that the model makes explicit:

- The limiter's expiry slides: each accepted request rewrites the counter
  with a fresh 60-second TTL (`RateLimit.SlidingExpiry`).
- The package endpoint fetches PyPI but leaves the PyPI record out of its
  reply. A TypeError raised while fetching PyPI still fails the request
  (`Controller.PackageReply`).
- An unsupported package type yields
  `{error: "Tipo de pacote não suportado"}` (`Service.GetPackageUpdate`).
- The controller filters Packagist versions with `dev-|alpha|beta|rc` and
  indexes the filtered array at key 0, which exists only when raw key 0
  survived the filter. The service filters with `(dev|alpha|beta|rc)` and
  takes the first survivor. So the two selections differ
  (`Controller.ControllerLatest`, `Service.BranchAliasDiverges`).
- The service's Packagist fallback also applies when the first stable
  version is falsy, such as "0" (`Service.ServiceLatest`).
- A package name need not be a string. A null name is the empty name. A
  false name is cached as the empty name but stored under key "0"
  (`Service.NullName`, `Service.FalseNameSharesEmptyName`).

## Model

| member | source | states |
|---|---|---|
| `Json.Path` | app/Http/Controllers/UpdateController.php:250 | The definition of a `??` chain: absent as soon as one step is absent. A value it gives is never null, and any chain on null is absent. |
| `Json.Truthy` | app/Http/Controllers/UpdateController.php:121 | The definition of PHP truthiness: null, false, 0, "", "0" and the empty array are falsy, everything else truthy. |
| `Json.Coalesce` | app/Http/Controllers/UpdateController.php:250 | The definition of `lhs ?? fallback`: the value of the chain when present, else the fallback. |
| `Json.Dim` | app/Http/Controllers/UpdateController.php:119 | A step of an `isset`/`??` chain never yields null. On an object it is the member named by the offset when set and not null. On null, a bool or a number it is absent. |
| `Json.PathTwoNames` | app/Http/Controllers/UpdateController.php:250 | A two-step `??` chain `$x['a']['b']` reads member b of member a, and is absent when either step is. |
| `Php.Read` | app/Http/Controllers/UpdateController.php:88-93 | A plain read `$x['k']` succeeds exactly when $x is an object holding k, null values included. On an array a missing key throws the "Undefined array key" ErrorException. Only a string container raises a TypeError. |
| `Php.ReadAll` | app/Http/Controllers/UpdateController.php:88-93 | The reads of an array literal succeed exactly when every key is present, and then give the members in order. A failure throws what some read throws. |
| `Php.ReadAllFirstFailure` | app/Http/Controllers/UpdateController.php:88-93 | When reads of an array literal fail, what is thrown is the exception of the first read that fails. |
| `Php.DimBy` | app/Http/Controllers/UpdateController.php:252 | A computed offset inside `??` throws a TypeError exactly when a list or object is used as the offset into an array or string. Otherwise it reads like `Dim`, with a null offset reading position 0 of a string. |
| `Php.Successful` | app/Services/UpdateService.php:68 | The definition of `$response->successful()`: a response, not a transport failure, with a 2xx status. |
| `Php.Interpolate` | app/Services/UpdateService.php:22 | String conversion of a decoded value: null and false give "", true gives "1", a string itself, a number its decimal form. A list or object throws the "Array to string conversion" ErrorException. |
| `Php.ArrayKey` | app/Services/UpdateService.php:24 | The definition of the key a decoded value becomes as the offset of an array write, through the same offset conversion as `Php.DimBy`. |
| `Php.ArrayKeyIsInterpolation` | app/Services/UpdateService.php:22-24 | The array key of a value is its string conversion, except for false, which is key "0" but converts to "". A list or object has neither. |
| `Php.ArrayKeys` | app/Http/Controllers/UpdateController.php:305 | `array_keys` gives an object's member names in order, or a list's positions. It is a TypeError on anything else. |
| `Php.ContainsCI` | app/Services/UpdateService.php:93 | The definition of a `preg_match('/t/i')` scan for a lower-case literal token, position by position from the left. |
| `Php.ContainsCIIffMatch` | app/Http/Controllers/UpdateController.php:309 | The left-to-right case-insensitive token search succeeds exactly when the token occurs at some position. |
| `Php.ContainsPrefixToken` | app/Services/UpdateService.php:93 | Where a token occurs, each of its prefixes occurs too. |
| `Php.Assign` | app/Http/Controllers/UpdateController.php:41 | `$a[$k] = $v` keeps the keys distinct. A new key goes last. An existing key keeps its place and takes the new value. All other entries are untouched. |
| `Cache.Lookup` | app/Http/Middleware/RateLimitApi.php:14 | `Cache::get` gives the stored value while now is before its expiry, and the default otherwise. |
| `Cache.Write` | app/Http/Middleware/RateLimitApi.php:23 | `Cache::put` with a positive TTL stores the value live until now + ttl. A TTL of 0 or less removes the key. Every other key is unchanged. |
| `Cache.Remembered` | app/Services/UpdateService.php:24-26 | The definition of `Cache::remember`: a live entry is returned as it is; otherwise the producer runs, its value is stored until now + ttl, and a throw stores nothing. Its properties are the four `Cache.Remember...` lemmas. |
| `Cache.RememberHit` | app/Http/Controllers/UpdateController.php:13 | `Cache::remember` on a live key returns the cached value, does not run the producer and leaves the store unchanged. |
| `Cache.RememberMiss` | app/Services/UpdateService.php:24-26 | On a miss the producer runs and its result is returned. A value is stored until now + ttl. A throw stores nothing. |
| `Cache.RememberTwice` | app/Http/Controllers/UpdateController.php:54 | After a miss, a second call with the same key within the TTL returns the first result, whatever its own producer would give, and does not run it. |
| `Cache.RememberAfterExpiry` | app/Http/Controllers/UpdateController.php:54 | Once the TTL has passed, the next call runs its producer again. |
| `Cache.PrefixedKeyInjective` | app/Http/Middleware/RateLimitApi.php:13 | Keys built as a fixed prefix plus a name are equal only for equal names. |
| `Cache.Store.Get` | app/Http/Middleware/RateLimitApi.php:14 | The result is `Lookup` of the store: the stored value while live, the default otherwise. |
| `Cache.Store.Put` | app/Http/Middleware/RateLimitApi.php:23 | The new store is `Write` of the old one. |
| `Cache.Store.Remember` | app/Http/Controllers/UpdateController.php:13-25 | The result, the new store and whether the producer ran are exactly `Remembered` of the old store. |
| `EndOfLife.LatestCycle` | app/Http/Controllers/UpdateController.php:117-121 | The cycle projected is element 0 of the reply. It exists exactly when the call returned 2xx and element 0 is set and truthy. |
| `EndOfLife.Project` | app/Http/Controllers/UpdateController.php:122-132 | The definition of the seven-field projection of a cycle, each field the member `??` its default. Its properties are `EndOfLife.ProjectObject` and `EndOfLife.ProjectNonObject`. |
| `EndOfLife.ProjectObject` | app/Http/Controllers/UpdateController.php:122-132 | Each of the seven fields is the upstream member when set and not null, else "N/A" (false for extended support). Source and status are fixed. |
| `EndOfLife.ProjectNonObject` | app/Http/Controllers/UpdateController.php:121-132 | A truthy element 0 that is not an object gives a success record with every field defaulted. |
| `Controller.ErrorRecord` | app/Http/Controllers/UpdateController.php:139-150 | The definition of the fully defaulted error record: every field "N/A", extended support false, status error and the language's own message. |
| `Controller.LanguageInfo` | app/Http/Controllers/UpdateController.php:112-236 | A language record has status success exactly when a cycle was found, and then has no error. Otherwise it is the fully defaulted error record carrying the language's own message. |
| `Controller.LanguageInfoFromFirstCycle` | app/Http/Controllers/UpdateController.php:117-133 | For a 2xx list whose element 0 is a non-empty object, every field comes from that object's members, with its default. |
| `Controller.LanguageInfoFailures` | app/Http/Controllers/UpdateController.php:114-150 | A transport failure, a non-2xx status, an empty list or a falsy element 0 each give the error record. |
| `Controller.OrNull` | app/Http/Controllers/UpdateController.php:257-261 | The catch block turns an Exception into null. A TypeError passes through it. |
| `Controller.NpmRecord` | app/Http/Controllers/UpdateController.php:247-255 | The definition of the npm try block's record. Its properties are `Controller.NpmInfoFields` and `Controller.NpmInfoIllegalOffset`. |
| `Controller.NpmInfo` | app/Http/Controllers/UpdateController.php:239-262 | Null without a 2xx reply. A record it returns is tagged npmjs.org / success. |
| `Controller.NpmInfoFields` | app/Http/Controllers/UpdateController.php:246-255 | version is dist-tags.latest or "N/A". name and description default to the requested name and "Sem descrição". updated_at is the `time` member for the latest version, looked up under "" when there is none. |
| `Controller.NpmInfoIllegalOffset` | app/Http/Controllers/UpdateController.php:252-258 | A dist-tag that is a list or object, used as an offset into `time`, raises a TypeError that escapes the catch. |
| `Controller.PypiRecord` | app/Http/Controllers/UpdateController.php:272-287 | The definition of the PyPI try block's record. Its property is `Controller.PypiInfoUploadTime`. |
| `Controller.PypiInfo` | app/Http/Controllers/UpdateController.php:264-294 | Null without a 2xx reply. A record it returns is tagged pypi.org / success. |
| `Controller.PypiInfoUploadTime` | app/Http/Controllers/UpdateController.php:271-287 | version is info.version or "N/A". updated_at is `releases[version][0].upload_time` exactly when that path is set, and "N/A" otherwise. |
| `Controller.UnstableTag` | app/Http/Controllers/UpdateController.php:309 | The definition of the controller's filter regex as a case-insensitive search for any of dev-, alpha, beta or rc. |
| `Controller.ControllerLatest` | app/Http/Controllers/UpdateController.php:305-312 | The Packagist version is raw key 0 or "N/A". The selection throws "Undefined array key 0" exactly when some key is stable but key 0 is not. When any key is stable, the result is stable. |
| `Controller.PackagistRecord` | app/Http/Controllers/UpdateController.php:304-321 | The definition of the Packagist try block's record. Its properties are `Controller.ControllerLatest` and `Controller.PackagistInfoVersion`. |
| `Controller.PackagistInfo` | app/Http/Controllers/UpdateController.php:296-328 | Null without a 2xx reply. A record it returns is tagged packagist.org / success. |
| `Controller.PackagistInfoVersion` | app/Http/Controllers/UpdateController.php:303-321 | For a versions object: the version is key 0 when stable, key 0 or "N/A" when nothing is stable, and null when a later key is stable but key 0 is not. |
| `Controller.LibraryInfoOf` | app/Http/Controllers/UpdateController.php:330-337 | The placeholder names the library and has status not_implemented. |
| `Controller.LibraryData` | app/Http/Controllers/UpdateController.php:39-42 | The data holds one entry per distinct library name, each that library's placeholder, with well-formed keys. |
| `Controller.GetLibraryUpdates` | app/Http/Controllers/UpdateController.php:28-48 | No libraries gives 400 "Nenhuma biblioteca especificada". Otherwise it is a 200 whose data is `LibraryData` of the list, built by the loop. |
| `Controller.GitHubKey` | app/Http/Controllers/UpdateController.php:73 | The definition of the GitHub cache key `github_<owner>_<repo>`. |
| `Controller.GitHubKeyCollision` | app/Http/Controllers/UpdateController.php:73 | ("a_b", "c") and ("a", "b_c") share the cache key `github_a_b_c`. |
| `Controller.GitHubKeyInjective` | app/Http/Controllers/UpdateController.php:73 | For owners without an underscore, equal GitHub cache keys mean equal owner and repo. |
| `Controller.LanguagesReply` | app/Http/Controllers/UpdateController.php:14-24 | The definition of the languages reply: 200, success true, the PHP, JavaScript and Java records. |
| `Controller.GetLanguageUpdates` | app/Http/Controllers/UpdateController.php:11-26 | The reply and new store are `Cache::remember` under "language_updates" for 3600 s of the three language records. |
| `Controller.PackageReply` | app/Http/Controllers/UpdateController.php:54-68 | The reply is a 200 holding the npm and Packagist results, PyPI dropped. It throws exactly when one of the three lookups raises a TypeError. |
| `Controller.PackageKey` | app/Http/Controllers/UpdateController.php:52 | The definition of the package cache key `package_<name>`. |
| `Controller.GetPackageUpdates` | app/Http/Controllers/UpdateController.php:50-69 | The reply and new store are `Cache::remember` under "package_<name>" for 1800 s of `PackageReply`. |
| `Controller.GitHubReply` | app/Http/Controllers/UpdateController.php:75-109 | Results by case: a non-2xx reply is a 404 carrying the upstream status; a transport failure is a 500 with the prefixed message; success implies 200 and a 2xx reply; every failure is a 404 or a 500. |
| `Controller.GitHubReplyRelease` | app/Http/Controllers/UpdateController.php:82-95 | A release holding all six fields is copied field by field, nulls included. download_url comes from zipball_url. |
| `Controller.GitHubReplyMissingField` | app/Http/Controllers/UpdateController.php:88-107 | A release lacking a field is a 500 whose message names the first missing field. |
| `Controller.GetGitHubUpdates` | app/Http/Controllers/UpdateController.php:71-110 | The reply and new store are `Cache::remember` under the GitHub key for 1800 s, 404 and 500 replies included. |
| `Controller.GitHubNotFoundIsCached` | app/Http/Controllers/UpdateController.php:73-101 | A cached 404 is served again within 30 minutes, whatever GitHub now answers, even to a different owner/repo whose key collides. |
| `Service.OrFailure` | app/Services/UpdateService.php:78-82 | The catch block turns an Exception into the registry's error record. A TypeError passes through it. |
| `Service.NpmBlock` | app/Services/UpdateService.php:69-76 | The definition of the npm try block's record. Its properties are `Service.GetNpmUpdateFields` and `Service.GetNpmUpdateNoLatest`. |
| `Service.GetNpmUpdate` | app/Services/UpdateService.php:64-83 | Without a 2xx reply the result is the npm error record. Only a TypeError escapes. A value is an npm record or that error record. |
| `Service.GetNpmUpdateFields` | app/Services/UpdateService.php:68-76 | For a string dist-tags.latest and a versions object: the current version is latest; the versions are the member names in upstream order; last_updated is `time[latest]` or "N/A". |
| `Service.GetNpmUpdateNoLatest` | app/Services/UpdateService.php:71-82 | When versions is absent, null, an object or a list, a missing dist-tags.latest throws in the plain read, and the npm error record comes back. |
| `Service.UnstableTag` | app/Services/UpdateService.php:93 | The definition of the case-insensitive search for any of dev, alpha, beta or rc. |
| `Service.FirstStable` | app/Services/UpdateService.php:93-94 | The position found is the first whose version contains none of dev, alpha, beta and rc, ignoring case. None is found only when every version matches. |
| `Service.FirstStableAt` | app/Services/UpdateService.php:93-94 | A stable version preceded only by unstable ones is the one `reset` returns. |
| `Service.ServiceLatest` | app/Services/UpdateService.php:94 | The first stable version is taken when truthy. Otherwise the result is version 0, or "N/A" for no versions. |
| `Service.ServiceLatestIsFirstStable` | app/Services/UpdateService.php:92-94 | A truthy stable version preceded only by unstable ones is the one reported. |
| `Service.ServiceLatestFalsyStable` | app/Services/UpdateService.php:94 | A first stable version "0" is falsy, so version 0 ("1.0-beta") is reported instead. |
| `Service.PackagistBlock` | app/Services/UpdateService.php:91-101 | The definition of the Packagist try block's record. Its property is `Service.GetPackagistUpdateFields`. |
| `Service.GetPackagistUpdate` | app/Services/UpdateService.php:85-108 | Without a 2xx reply the result is the Packagist error record. Only a TypeError escapes. |
| `Service.GetPackagistUpdateFields` | app/Services/UpdateService.php:90-101 | For a versions object, the version is `ServiceLatest` of its member names. last_updated is that version's time or "N/A". |
| `Service.ControllerFilterIsWeaker` | app/Services/UpdateService.php:93 | Every version the controller's filter (dev-, alpha, beta, rc) rejects is rejected by the service's filter too. |
| `Service.BranchAliasDiverges` | app/Services/UpdateService.php:93-94 | For versions ["2.x-dev", "1.0.0"] the controller reports "2.x-dev" and the service "1.0.0". |
| `Service.ControllerTakesBranchAlias` | app/Http/Controllers/UpdateController.php:308-312 | The controller selects the branch alias "2.x-dev" as its stable version. |
| `Service.ServiceSkipsBranchAlias` | app/Services/UpdateService.php:93-94 | The service skips "2.x-dev" and reports "1.0.0". |
| `Service.BranchAliasTags` | app/Services/UpdateService.php:93 | "2.x-dev" passes the controller's filter and fails the service's. |
| `Service.BranchAliasNoDash` | app/Http/Controllers/UpdateController.php:309 | "dev-" does not occur in "2.x-dev". |
| `Service.BranchAliasNoPreRelease` | app/Http/Controllers/UpdateController.php:309 | None of alpha, beta and rc occurs in "2.x-dev". |
| `Service.UpstreamOrderNotGreatest` | app/Services/UpdateService.php:93-94 | Both selectors report "1.0.0" for ["1.0.0", "2.0.0"]: upstream order, not the greatest version. |
| `Service.ReleaseTags` | app/Services/UpdateService.php:93 | "1.0.0" passes both filters. |
| `Service.NoMatchWithoutFirstChar` | app/Services/UpdateService.php:93 | A token cannot match where no character folds to its first letter. |
| `Service.GetGitHubUpdate` | app/Services/UpdateService.php:110-135 | Without a 2xx reply the result is the GitHub error record. With one, each field of an object reply is the member or its default ("N/A", null for url). |
| `Service.GetLanguageUpdate` | app/Services/UpdateService.php:137-166 | The result is the endoflife error record exactly when no cycle is found. Otherwise it is a success record. |
| `Service.LanguageAgreesWithController` | app/Services/UpdateService.php:144-158 | On success the service's language record equals the controller's. |
| `Service.GetPackageUpdate` | app/Services/UpdateService.php:47-62 | Types npm, packagist and github go to their normalisers. Any other type gives "Tipo de pacote não suportado". |
| `Service.PackageType` | app/Services/UpdateService.php:49 | The definition of `$package['type'] ?? 'npm'` for a string or absent type. |
| `Service.MissingTypeIsNpm` | app/Services/UpdateService.php:49 | A package without a type is checked on npm. |
| `Service.GetPackageUpdateOnlyTypeErrorsEscape` | app/Services/UpdateService.php:47-62 | Only a TypeError escapes a package check. Every other failure is an error record. |
| `Service.UpdateCheckKey` | app/Services/UpdateService.php:22 | The definition of the package cache key `update_check_<name>`. |
| `Service.LanguageUpdateKey` | app/Services/UpdateService.php:37 | The definition of the language cache key `language_update_<language>`. |
| `Service.Resolve` | app/Services/UpdateService.php:22-24 | A package name is unusable (an ErrorException) exactly when it is missing or a list or object. Otherwise its string conversion is the name cached and checked, and its array key is the key stored. The two agree unless the name is false. |
| `Service.NamedTail` | app/Services/UpdateService.php:21-24 | Peeling off the first package: the keys are its key plus the rest's. Other keys keep their first type, and a list without false names stays so. |
| `Service.PackageResultAfter` | app/Services/UpdateService.php:24-26 | A successful cached check of one name leaves it live with its result and leaves every other name's result unchanged. |
| `Service.CheckFrom` | app/Services/UpdateService.php:21-27 | The definition of the loop as a fold: each package's name is resolved, checked through the cache and assigned. The first unusable name or escaping TypeError ends it. |
| `Service.CheckForUpdates` | app/Services/UpdateService.php:17-30 | The result and new store are the fold `CheckFrom` over the packages, from the old store. |
| `Service.CheckFromKeys` | app/Services/UpdateService.php:21-29 | A completed check means every package had a usable name. The result has one entry per distinct key. |
| `Service.CheckFromValues` | app/Services/UpdateService.php:21-26 | When no name is false, each name's entry is the live cached record, or a fresh check of the type given at the name's first occurrence. Later types are ignored. |
| `Service.ValuesStep` | app/Services/UpdateService.php:22-24 | The inductive step of `CheckFromValues`. |
| `Service.SameNameOtherType` | app/Services/UpdateService.php:22-26 | The same name asked with a second type gets the first type's result, one entry in all. |
| `Service.NullName` | app/Services/UpdateService.php:22-26 | A null name is checked and cached under "update_check_" and stored under key "". |
| `Service.FalseNameSharesEmptyName` | app/Services/UpdateService.php:22-26 | After a package named "", a package named false gets the same record, whatever its type, stored under key "0". |
| `Service.LanguagesFrom` | app/Services/UpdateService.php:36-42 | The definition of the language loop as a fold: each language is checked through the cache and assigned. Nothing in it throws. |
| `Service.CheckForLanguageUpdates` | app/Services/UpdateService.php:32-45 | The result and new store are the fold `LanguagesFrom` over the languages, from the old store. |
| `Service.LanguageResultAfter` | app/Services/UpdateService.php:39-41 | A language check yields the cached or fresh record, and leaves every other language's result unchanged. |
| `Service.LanguagesFromKeys` | app/Services/UpdateService.php:36-42 | The result has one entry per distinct language. |
| `Service.LanguagesFromValues` | app/Services/UpdateService.php:36-42 | Each language's entry is the live cached record or a fresh endoflife check. |
| `RateLimit.CounterKey` | app/Http/Middleware/RateLimitApi.php:13 | The definition of the counter key `rate_limit:<ip>`. |
| `RateLimit.Decide` | app/Http/Middleware/RateLimitApi.php:11-25 | A request gets 429 with success false exactly when the live count (absent reads 0) is at least the limit. A rejection leaves the store unchanged. |
| `RateLimit.Handle` | app/Http/Middleware/RateLimitApi.php:11-26 | The outcome and new store are `Decide` of the old store. |
| `RateLimit.Replay` | app/Http/Middleware/RateLimitApi.php:11-25 | A run of requests from one IP, each `Decide` on the store the previous one left. There is one outcome per request. |
| `RateLimit.AcceptIncrements` | app/Http/Middleware/RateLimitApi.php:23-25 | An accepted request stores the count it saw plus one, live for the next 60 s. |
| `RateLimit.DecideIsolation` | app/Http/Middleware/RateLimitApi.php:13 | A request never changes another IP's counter. |
| `RateLimit.BurstFrom` | app/Http/Middleware/RateLimitApi.php:14-23 | From a live count c, with gaps under 60 s, the next limit - c requests are accepted and the one after is rejected. |
| `RateLimit.BurstFromIdle` | app/Http/Middleware/RateLimitApi.php:14-23 | With no live counter, exactly `maxRequests` requests in quick succession are accepted and the next gets 429. |
| `RateLimit.DefaultLimitBurst` | app/Http/Middleware/RateLimitApi.php:11-23 | With the default limit of 60, from an idle IP, 60 requests in quick succession are accepted and the 61st gets 429. |
| `RateLimit.SlidingExpiry` | app/Http/Middleware/RateLimitApi.php:23 | Requests at 0 s, 59 s and 100 s are counted together. With a limit of 2 the third is rejected. |
| `RateLimit.RestartAfterQuietMinute` | app/Http/Middleware/RateLimitApi.php:14-23 | After 60 s with no accepted request, the next request is counted from zero. |

## Left out

- HTTP itself is not modelled: URLs, headers, timeouts and the decoding of a body. Each upstream call is the input `Fetch`: a status with a decoded body, or a transport failure.
- Logging (`\Log::error`) is not modelled. Neither is the `cached_at` timestamp of the language reply, which reads the clock.
- Floating-point JSON numbers are not modelled. Neither is PHP's normalisation of numeric-string keys to integers on lists and strings: a numeric member name like "0" reads as a name, not a position.
- Controller.GetLibraryUpdates: takes `libraries` as a list of strings. A scalar, or non-string elements, are not modelled.
- Service.CheckForUpdates: each loop (also `Service.CheckForLanguageUpdates`) is modelled at one instant `now`, so no cache entry expires while the loop runs. In the code each `Cache::remember` reads the clock again, and an entry live at the start can expire before a later item reaches it, after slow upstream calls. `Service.CheckFromValues` and `Service.LanguagesFromValues` therefore speak of the entries live at the start.
- Service.CheckForLanguageUpdates: languages are modelled as strings. A list or object language would throw the "Array to string conversion" ErrorException out of the loop, and a null and a false language would share the cache key "language_update_" while being stored under keys "" and "0". So `Service.LanguagesFrom` never throws and `Service.LanguagesFromKeys` gives one entry per distinct language only for string languages.
- Service.CheckFromValues: stated for lists in which no package is named false. A false name is cached as "" but stored under key "0", so its entry can be another package's record. `Service.FalseNameSharesEmptyName` shows that case.
- The exact PHP message text of a TypeError is not modelled, only that one was raised.
- The regex tests fold ASCII case only, not full PCRE case folding.
- The real application has one cache store. The model gives the controller, the service and the limiter each a typed `Store`. Their key prefixes are disjoint, so no behaviour is lost.
- Laravel treats a cached null as a miss. This never arises, because every producer returns a non-null array or reply.
- Service.GetPackageUpdate: the type is a string or absent. A non-string type, compared loosely by `switch`, is not modelled. Nor is a package entry that is not an array.
- Concurrency is not modelled: two requests racing on the same cache or counter key.
- The routes, the dashboard page, the console command, the migration and the Eloquent model are not modelled.
- The fold lemmas about `CheckFrom` and `LanguagesFrom` are proved for any per-package or per-language check function. The methods pass `PackageCheck` and `LanguageCheck`, so the lemmas apply to them.
