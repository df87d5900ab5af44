/** The update service: per-package and per-language checks behind a
    one-hour cache, a dispatch on the package type, and one normaliser per
    registry. The registry client is the parameter `registry`, which gives
    the outcome of the GET a normaliser makes for a registry and a name. */
module Service {
  import opened Json
  import opened Php
  import opened Cache
  import opened EndOfLife
  import Controller

  datatype Registry = Npm | Packagist | GitHub | EndOfLifeApi

  /** One entry of `$packages`: its `name` (absent, or any decoded value,
      null included) and optional `type`. */
  datatype PackageSpec = PackageSpec(name: Option<Json>, kind: Option<string>)

  /** The arrays the service returns and caches. */
  datatype ServiceRecord =
    | NpmUpdate(currentVersion: Json, versions: seq<string>, lastUpdated: Json, source: string, status: string)
    | PackagistUpdate(version: string, lastUpdated: Json, source: string, status: string)
    | GitHubUpdate(currentVersion: Json, releaseName: Json, releaseDate: Json, url: Json, source: string, status: string)
    | LanguageUpdate(record: EolRecord)
    | Failure(status: string, message: string)
    | Unsupported(error: string)

  const NpmError: string := "Erro ao buscar atualizações npm"
  const PackagistError: string := "Erro ao buscar atualizações packagist"
  const GitHubError: string := "Erro ao buscar atualizações GitHub"
  const LanguageError: string := "Erro ao buscar linguagem no endoflife"
  const UnsupportedType: string := "Tipo de pacote não suportado"
  const CheckTtl: int := 3600

  /** `try { ... } catch (\Exception $e) { ... } return [error record];`
      around a successful response's block. */
  function OrFailure(e: Eval<ServiceRecord>, message: string): (r: Eval<ServiceRecord>)
    ensures e.Val? ==> r == e
    ensures e.Throw? && IsException(e.thrown) ==> r == Val(Failure("error", message))
    ensures e.Throw? && !IsException(e.thrown) ==> r == e
  {
    match e
    case Val(_) => e
    case Throw(t) => if IsException(t) then Val(Failure("error", message)) else e
  }

  // ---------------------------------------------------------------------
  // npm

  function NpmBlock(data: Json): Eval<ServiceRecord> {
    var current := Coalesce(Path(data, [Name("dist-tags"), Name("latest")]), NA);
    match ArrayKeys(Coalesce(Dim(data, Name("versions")), JArr([])))
    case Throw(t) => Throw(t)
    case Val(versions) =>
      match Read(data, "dist-tags")
      case Throw(t) => Throw(t)
      case Val(tags) =>
        match Read(tags, "latest")
        case Throw(t) => Throw(t)
        case Val(latest) =>
          match DimBy(Dim(data, Name("time")), latest)
          case Throw(t) => Throw(t)
          case Val(updated) => Val(NpmUpdate(current, versions, Coalesce(updated, NA), "npmjs.org", "success"))
  }

  /** `getNpmUpdate`. */
  function GetNpmUpdate(f: Fetch): (r: Eval<ServiceRecord>)
    ensures !Successful(f) ==> r == Val(Failure("error", NpmError))
    ensures r.Throw? ==> r.thrown == TypeError
    ensures r.Val? ==> r.value.NpmUpdate? || r.value == Failure("error", NpmError)
  {
    if Successful(f) then OrFailure(NpmBlock(f.body), NpmError) else Val(Failure("error", NpmError))
  }

  /** The npm fields for a registry document with a string `dist-tags.latest`
      and a `versions` object: the current version, the version names in
      their upstream order, and the `time` member of the current version. */
  lemma GetNpmUpdateFields(status: int, data: Json, tags: map<string, Json>, tagKeys: seq<string>,
                           latest: string, vkeys: seq<string>, vfields: map<string, Json>)
    requires 200 <= status < 300 && data.JObj?
    requires "dist-tags" in data.fields && data.fields["dist-tags"] == JObj(tagKeys, tags)
    requires "latest" in tags && tags["latest"] == JStr(latest)
    requires "versions" in data.fields && data.fields["versions"] == JObj(vkeys, vfields)
    ensures var r := GetNpmUpdate(Response(status, data));
      && r.Val? && r.value.NpmUpdate?
      && r.value.currentVersion == JStr(latest)
      && r.value.versions == vkeys
      && r.value.lastUpdated == Coalesce(Path(data, [Name("time"), Name(latest)]), NA)
      && r.value.source == "npmjs.org" && r.value.status == "success"
  {
    PathTwoNames(data, "dist-tags", "latest");
    PathTwoNames(data, "time", latest);
  }

  /** Without a `dist-tags.latest` member the unguarded read throws and the
      npm error record comes back. `versions` may be absent, null, an object
      or a list (anything else makes `array_keys` a TypeError first). */
  lemma GetNpmUpdateNoLatest(status: int, data: Json, tags: map<string, Json>, tagKeys: seq<string>)
    requires 200 <= status < 300 && data.JObj?
    requires ArrayKeys(Coalesce(Dim(data, Name("versions")), JArr([]))).Val?
    requires "dist-tags" in data.fields && data.fields["dist-tags"] == JObj(tagKeys, tags)
    requires "latest" !in tags
    ensures GetNpmUpdate(Response(status, data)) == Val(Failure("error", NpmError))
  {
  }

  // ---------------------------------------------------------------------
  // Packagist

  /** `/(dev|alpha|beta|rc)/i`. */
  predicate UnstableTag(v: string) {
    ContainsCI(v, "dev") || ContainsCI(v, "alpha") || ContainsCI(v, "beta") || ContainsCI(v, "rc")
  }

  /** The position of the first version that survives the filter. */
  function FirstStable(versions: seq<string>): (r: Option<nat>)
    ensures r.Some? ==> r.value < |versions| && !UnstableTag(versions[r.value])
    ensures r.Some? ==> forall j :: 0 <= j < r.value ==> UnstableTag(versions[j])
    ensures r.None? ==> forall j :: 0 <= j < |versions| ==> UnstableTag(versions[j])
  {
    if versions == [] then None
    else if !UnstableTag(versions[0]) then Some(0)
    else
      match FirstStable(versions[1..])
      case None => None
      case Some(i) => Some(i + 1)
  }

  /** `reset($stable) ?: ($versions[0] ?? 'N/A')`. */
  function ServiceLatest(versions: seq<string>): (r: string)
    ensures FirstStable(versions).Some? && StringTruthy(versions[FirstStable(versions).value])
            ==> r == versions[FirstStable(versions).value]
    ensures (FirstStable(versions).None? || !StringTruthy(versions[FirstStable(versions).value]))
            ==> r == (if |versions| > 0 then versions[0] else "N/A")
  {
    var fallback := if |versions| > 0 then versions[0] else "N/A";
    match FirstStable(versions)
    case Some(i) => if StringTruthy(versions[i]) then versions[i] else fallback
    case None => fallback
  }

  /** A stable version preceded only by unstable ones is the one found. */
  lemma {:induction false} FirstStableAt(versions: seq<string>, i: nat)
    requires i < |versions| && !UnstableTag(versions[i])
    requires forall j :: 0 <= j < i ==> UnstableTag(versions[j])
    ensures FirstStable(versions) == Some(i)
    decreases i
  {
    if i > 0 {
      assert UnstableTag(versions[0]);
      assert forall j :: 0 <= j < i - 1 ==> versions[1..][j] == versions[j + 1];
      FirstStableAt(versions[1..], i - 1);
    }
  }

  /** The version chosen is the first in upstream order that the filter
      keeps, unless it is falsy; with no survivor it is key 0 or "N/A". */
  lemma ServiceLatestIsFirstStable(versions: seq<string>, i: nat)
    requires i < |versions| && !UnstableTag(versions[i]) && StringTruthy(versions[i])
    requires forall j :: 0 <= j < i ==> UnstableTag(versions[j])
    ensures ServiceLatest(versions) == versions[i]
  {
    FirstStableAt(versions, i);
  }

  /** A falsy first survivor such as "0" falls through to key 0. */
  lemma ServiceLatestFalsyStable()
    ensures ServiceLatest(["1.0-beta", "0"]) == "1.0-beta"
  {
    assert MatchesAt("1.0-beta", "beta", 4);
    ContainsCIIffMatch("1.0-beta", "beta");
    var s := ["1.0-beta", "0"];
    assert !UnstableTag("0") by {
      ContainsCIIffMatch("0", "dev");
      ContainsCIIffMatch("0", "alpha");
      ContainsCIIffMatch("0", "beta");
      ContainsCIIffMatch("0", "rc");
    }
    assert FirstStable(s[1..]) == Some(0);
  }

  function PackagistBlock(data: Json): Eval<ServiceRecord> {
    match ArrayKeys(Coalesce(Path(data, [Name("package"), Name("versions")]), JArr([])))
    case Throw(t) => Throw(t)
    case Val(versions) =>
      var latest := ServiceLatest(versions);
      Val(PackagistUpdate(
        latest,
        Coalesce(Path(data, [Name("package"), Name("versions"), Name(latest), Name("time")]), NA),
        "packagist.org",
        "success"))
  }

  /** `getPackagistUpdate`. */
  function GetPackagistUpdate(f: Fetch): (r: Eval<ServiceRecord>)
    ensures !Successful(f) ==> r == Val(Failure("error", PackagistError))
    ensures r.Throw? ==> r.thrown == TypeError
  {
    if Successful(f) then OrFailure(PackagistBlock(f.body), PackagistError) else Val(Failure("error", PackagistError))
  }

  /** With a `versions` object: the version is ServiceLatest of its member
      names and `last_updated` is that version's `time`, or "N/A". */
  lemma GetPackagistUpdateFields(status: int, data: Json, keys: seq<string>, vs: map<string, Json>)
    requires 200 <= status < 300
    requires Path(data, [Name("package"), Name("versions")]) == Some(JObj(keys, vs))
    ensures var r := GetPackagistUpdate(Response(status, data));
      var latest := ServiceLatest(keys);
      && r == Val(PackagistUpdate(latest,
                    Coalesce(Path(data, [Name("package"), Name("versions"), Name(latest), Name("time")]), NA),
                    "packagist.org", "success"))
  {
  }

  /** The service's filter `/(dev|alpha|beta|rc)/i` rejects everything the
      controller's `/dev-|alpha|beta|rc/i` rejects... */
  lemma ControllerFilterIsWeaker(v: string)
    requires Controller.UnstableTag(v)
    ensures UnstableTag(v)
  {
    if ContainsCI(v, "dev-") {
      ContainsPrefixToken(v, "dev-", "dev");
    }
  }

  /** ...but not conversely: a branch alias such as "2.x-dev" passes the
      controller's filter, so for versions ["2.x-dev", "1.0.0"] the
      controller reports "2.x-dev" and the service "1.0.0". */
  lemma BranchAliasDiverges()
    ensures Controller.ControllerLatest(["2.x-dev", "1.0.0"]) == Val("2.x-dev")
    ensures ServiceLatest(["2.x-dev", "1.0.0"]) == "1.0.0"
  {
    ControllerTakesBranchAlias();
    ServiceSkipsBranchAlias();
  }

  lemma ControllerTakesBranchAlias()
    ensures Controller.ControllerLatest(["2.x-dev", "1.0.0"]) == Val("2.x-dev")
  {
    var s := ["2.x-dev", "1.0.0"];
    BranchAliasTags();
    assert !Controller.UnstableTag(s[0]);
    assert Controller.HasStable(s);
  }

  lemma ServiceSkipsBranchAlias()
    ensures ServiceLatest(["2.x-dev", "1.0.0"]) == "1.0.0"
  {
    var s := ["2.x-dev", "1.0.0"];
    BranchAliasTags();
    ReleaseTags();
    ServiceLatestIsFirstStable(s, 1);
  }

  /** "2.x-dev" is stable to the controller and unstable to the service. */
  lemma BranchAliasTags()
    ensures !Controller.UnstableTag("2.x-dev") && UnstableTag("2.x-dev")
  {
    var a := "2.x-dev";
    assert MatchesAt(a, "dev", 4);
    ContainsCIIffMatch(a, "dev");
    BranchAliasNoDash();
    BranchAliasNoPreRelease();
  }

  lemma BranchAliasNoDash()
    ensures !ContainsCI("2.x-dev", "dev-")
  {
    var s := "2.x-dev";
    forall i | 0 <= i < 4 ensures LowerChar(s[i]) != 'd' {
      assert i == 0 || i == 1 || i == 2 || i == 3;
    }
    NoMatchWithoutFirstChar(s, "dev-");
  }

  lemma BranchAliasNoPreRelease()
    ensures !ContainsCI("2.x-dev", "alpha") && !ContainsCI("2.x-dev", "beta") && !ContainsCI("2.x-dev", "rc")
  {
    var s := "2.x-dev";
    forall i | 0 <= i < |s| ensures LowerChar(s[i]) !in {'a', 'b', 'r'} {
      assert i == 0 || i == 1 || i == 2 || i == 3 || i == 4 || i == 5 || i == 6;
    }
    NoMatchWithoutFirstChar(s, "alpha");
    NoMatchWithoutFirstChar(s, "beta");
    NoMatchWithoutFirstChar(s, "rc");
  }

  /** Neither selector compares versions: the first stable key in upstream
      order wins even when a later one is greater. */
  lemma UpstreamOrderNotGreatest()
    ensures ServiceLatest(["1.0.0", "2.0.0"]) == "1.0.0"
    ensures Controller.ControllerLatest(["1.0.0", "2.0.0"]) == Val("1.0.0")
  {
    var s := ["1.0.0", "2.0.0"];
    ReleaseTags();
    ServiceLatestIsFirstStable(s, 0);
    assert !Controller.UnstableTag(s[0]);
    assert Controller.HasStable(s);
  }

  /** "1.0.0" is stable to both filters. */
  lemma ReleaseTags()
    ensures !Controller.UnstableTag("1.0.0") && !UnstableTag("1.0.0")
  {
    var b := "1.0.0";
    forall i | 0 <= i < |b| ensures LowerChar(b[i]) !in {'a', 'b', 'd', 'r'} {
      assert i == 0 || i == 1 || i == 2 || i == 3 || i == 4;
    }
    NoMatchWithoutFirstChar(b, "dev");
    NoMatchWithoutFirstChar(b, "dev-");
    NoMatchWithoutFirstChar(b, "alpha");
    NoMatchWithoutFirstChar(b, "beta");
    NoMatchWithoutFirstChar(b, "rc");
  }

  /** A token cannot occur where no character folds to its first letter
      early enough. */
  lemma NoMatchWithoutFirstChar(s: string, t: string)
    requires |t| > 0
    requires forall i :: 0 <= i && i + |t| <= |s| ==> LowerChar(s[i]) != t[0]
    ensures !ContainsCI(s, t)
  {
    ContainsCIIffMatch(s, t);
    forall i | 0 <= i && i + |t| <= |s|
      ensures !MatchesAt(s, t, i)
    {
      assert Lower(s[i..i + |t|])[0] == LowerChar(s[i]) != t[0];
    }
  }

  // ---------------------------------------------------------------------
  // GitHub and endoflife.date

  /** `getGitHubUpdate`: every field is read with `??`, so nothing throws. */
  function GetGitHubUpdate(f: Fetch): (r: ServiceRecord)
    ensures !Successful(f) ==> r == Failure("error", GitHubError)
    ensures Successful(f) ==> r.GitHubUpdate? && r.source == "github.com" && r.status == "success"
    ensures Successful(f) && f.body.JObj? ==>
      && r.currentVersion == MemberOr(f.body.fields, "tag_name", NA)
      && r.releaseName == MemberOr(f.body.fields, "name", NA)
      && r.releaseDate == MemberOr(f.body.fields, "published_at", NA)
      && r.url == MemberOr(f.body.fields, "html_url", JNull)
  {
    if Successful(f) then
      var data := f.body;
      GitHubUpdate(
        Coalesce(Dim(data, Name("tag_name")), NA),
        Coalesce(Dim(data, Name("name")), NA),
        Coalesce(Dim(data, Name("published_at")), NA),
        Coalesce(Dim(data, Name("html_url")), JNull),
        "github.com",
        "success")
    else Failure("error", GitHubError)
  }

  /** `getLanguageUpdate`: the controller's projection on success, and only
      a status and a message on failure. */
  function GetLanguageUpdate(f: Fetch): (r: ServiceRecord)
    ensures LatestCycle(f).None? <==> r == Failure("error", LanguageError)
    ensures LatestCycle(f).Some? ==> r.LanguageUpdate? && r.record.status == "success"
  {
    match LatestCycle(f)
    case Some(latest) => LanguageUpdate(Project(latest))
    case None => Failure("error", LanguageError)
  }

  /** On success the service's language record is the controller's. */
  lemma LanguageAgreesWithController(f: Fetch, lang: Controller.Language)
    requires LatestCycle(f).Some?
    ensures GetLanguageUpdate(f) == LanguageUpdate(Controller.LanguageInfo(lang, f))
  {
  }

  // ---------------------------------------------------------------------
  // Dispatch and the cached loops

  /** `$package['type'] ?? 'npm'`. */
  function PackageType(kind: Option<string>): string {
    match kind
    case Some(k) => k
    case None => "npm"
  }

  /** `getPackageUpdate`: the switch on the package type. */
  function GetPackageUpdate(name: string, kind: Option<string>, registry: (Registry, string) -> Fetch): (r: Eval<ServiceRecord>)
    ensures PackageType(kind) == "npm" ==> r == GetNpmUpdate(registry(Npm, name))
    ensures PackageType(kind) == "packagist" ==> r == GetPackagistUpdate(registry(Packagist, name))
    ensures PackageType(kind) == "github" ==> r == Val(GetGitHubUpdate(registry(GitHub, name)))
    ensures PackageType(kind) !in {"npm", "packagist", "github"} ==> r == Val(Unsupported(UnsupportedType))
  {
    match PackageType(kind)
    case "npm" => GetNpmUpdate(registry(Npm, name))
    case "packagist" => GetPackagistUpdate(registry(Packagist, name))
    case "github" => Val(GetGitHubUpdate(registry(GitHub, name)))
    case _ => Val(Unsupported(UnsupportedType))
  }

  /** A missing type is npm. */
  lemma MissingTypeIsNpm(name: string, registry: (Registry, string) -> Fetch)
    ensures GetPackageUpdate(name, None, registry) == GetNpmUpdate(registry(Npm, name))
  {
  }

  /** Every failure inside a normaliser comes back as a value; only a
      TypeError, which the catch blocks do not catch, escapes. */
  lemma GetPackageUpdateOnlyTypeErrorsEscape(name: string, kind: Option<string>, registry: (Registry, string) -> Fetch)
    ensures GetPackageUpdate(name, kind, registry).Throw? ==> GetPackageUpdate(name, kind, registry).thrown == TypeError
  {
  }
  function UpdateCheckKey(name: string): string {
    "update_check_" + name
  }

  function LanguageUpdateKey(language: string): string {
    "language_update_" + language
  }

  /** How `checkForUpdates` uses `$package['name']`: its string conversion
      `name` goes into the cache key and to the check, and it is the offset
      `key` of `$updates`. */
  datatype Resolved = Resolved(name: string, key: string)

  /** A missing name is an "Undefined array key" warning and a list or
      object name an "Array to string conversion" warning, both thrown as
      ErrorExceptions when the cache key is built. A null name is the
      empty name. */
  function Resolve(p: PackageSpec): (r: Eval<Resolved>)
    ensures r.Throw? <==> p.name.None? || p.name.value.JArr? || p.name.value.JObj?
    ensures r.Throw? ==> r.thrown.ErrorException?
    ensures r.Val? ==> Interpolate(p.name.value) == Val(r.value.name) && ArrayKey(p.name.value) == Some(r.value.key)
    ensures r.Val? && p.name.value != JBool(false) ==> r.value.key == r.value.name
  {
    match p.name
    case None => Throw(ErrorException(UndefinedKey("name")))
    case Some(j) =>
      ArrayKeyIsInterpolation(j);
      match Interpolate(j)
      case Throw(t) => Throw(t)
      case Val(n) => Val(Resolved(n, ArrayKey(j).value))
  }

  /** Every package in the list has a usable name. */
  predicate AllNamed(packages: seq<PackageSpec>) {
    forall i :: 0 <= i < |packages| ==> Resolve(packages[i]).Val?
  }

  /** Some package of the list is stored under key `k`. */
  predicate Named(packages: seq<PackageSpec>, k: string) {
    exists i :: 0 <= i < |packages| && Resolve(packages[i]).Val? && Resolve(packages[i]).value.key == k
  }

  /** Every package's key is its name: no package is named false. */
  predicate KeysAreNames(packages: seq<PackageSpec>) {
    forall i :: 0 <= i < |packages| && Resolve(packages[i]).Val? ==>
      Resolve(packages[i]).value.key == Resolve(packages[i]).value.name
  }

  /** The type given with the first package stored under key `k`. */
  function FirstKind(packages: seq<PackageSpec>, k: string): Option<string>
    requires Named(packages, k)
    decreases |packages|
  {
    if Resolve(packages[0]).Val? && Resolve(packages[0]).value.key == k then packages[0].kind
    else
      assert Named(packages[1..], k) by {
        var i :| 0 <= i < |packages| && Resolve(packages[i]).Val? && Resolve(packages[i]).value.key == k;
        assert packages[1..][i - 1] == packages[i];
      }
      FirstKind(packages[1..], k)
  }

  /** What one package check yields from store `m` at `now`: the live cached
      record, or a fresh check of the given type. */
  function PackageResult(m: Entries<ServiceRecord>, now: int, check: (string, Option<string>) -> Eval<ServiceRecord>,
                         n: string, kind: Option<string>): Eval<ServiceRecord> {
    var key := UpdateCheckKey(n);
    if Live(m, key, now) then Val(m[key].value) else check(n, kind)
  }

  datatype Checked = Checked(updates: Eval<Assoc<ServiceRecord>>, entries: Entries<ServiceRecord>)

  /** The rest of `checkForUpdates`' loop from store `m` and partial result
      `acc`. A package without a usable name throws out of the loop. */
  function CheckFrom(m: Entries<ServiceRecord>, now: int, packages: seq<PackageSpec>,
                     check: (string, Option<string>) -> Eval<ServiceRecord>, acc: Assoc<ServiceRecord>): Checked
    requires WellFormed(acc)
    decreases |packages|
  {
    if packages == [] then Checked(Val(acc), m)
    else
      match Resolve(packages[0])
      case Throw(t) => Checked(Throw(t), m)
      case Val(rn) =>
        var c := Remembered(m, UpdateCheckKey(rn.name), CheckTtl, now, check(rn.name, packages[0].kind));
        match c.result
        case Throw(t) => Checked(Throw(t), c.entries)
        case Val(v) => CheckFrom(c.entries, now, packages[1..], check, Assign(acc, rn.key, v))
  }

  /** `getPackageUpdate` as the closure `checkForUpdates` caches. */
  function PackageCheck(registry: (Registry, string) -> Fetch): (string, Option<string>) -> Eval<ServiceRecord> {
    (n: string, kind: Option<string>) => GetPackageUpdate(n, kind, registry)
  }

  /** `checkForUpdates`: one cached check per package, keyed by name. */
  method CheckForUpdates(cache: Store<ServiceRecord>, now: int, packages: seq<PackageSpec>,
                         registry: (Registry, string) -> Fetch)
    returns (r: Eval<Assoc<ServiceRecord>>)
    modifies cache
    ensures Checked(r, cache.entries) == CheckFrom(old(cache.entries), now, packages, PackageCheck(registry), EmptyAssoc())
  {
    var check := PackageCheck(registry);
    var updates := EmptyAssoc();
    var i := 0;
    while i < |packages|
      invariant 0 <= i <= |packages| && WellFormed(updates)
      invariant CheckFrom(old(cache.entries), now, packages, check, EmptyAssoc())
             == CheckFrom(cache.entries, now, packages[i..], check, updates)
    {
      var p := packages[i];
      assert packages[i..][0] == p && packages[i..][1..] == packages[i + 1..];
      var rn := Resolve(p);
      if rn.Throw? {
        return Throw(rn.thrown);
      }
      var name := rn.value.name;
      var e, _ := cache.Remember(UpdateCheckKey(name), CheckTtl, now, () => check(name, p.kind));
      if e.Throw? {
        return Throw(e.thrown);
      }
      updates := Assign(updates, rn.value.key, e.value);
      i := i + 1;
    }
    r := Val(updates);
  }

  /** Peeling a package with a usable name off the front of the list. */
  lemma NamedTail(packages: seq<PackageSpec>, key: string)
    requires |packages| > 0 && Resolve(packages[0]).Val? && Resolve(packages[0]).value.key == key
    ensures forall k :: Named(packages, k) <==> k == key || Named(packages[1..], k)
    ensures AllNamed(packages[1..]) ==> AllNamed(packages)
    ensures KeysAreNames(packages) ==> KeysAreNames(packages[1..])
    ensures forall k :: k != key && Named(packages, k) ==> FirstKind(packages, k) == FirstKind(packages[1..], k)
  {
    NamedTailKeys(packages, key);
    NamedTailAll(packages);
    forall k | k != key && Named(packages, k) ensures FirstKind(packages, k) == FirstKind(packages[1..], k) {
      assert Named(packages[1..], k);
    }
  }

  lemma NamedTailKeys(packages: seq<PackageSpec>, key: string)
    requires |packages| > 0 && Resolve(packages[0]).Val? && Resolve(packages[0]).value.key == key
    ensures forall k :: Named(packages, k) <==> k == key || Named(packages[1..], k)
  {
    var rest := packages[1..];
    forall k ensures Named(packages, k) <==> k == key || Named(rest, k) {
      if Named(packages, k) && k != key {
        var i :| 0 <= i < |packages| && Resolve(packages[i]).Val? && Resolve(packages[i]).value.key == k;
        assert rest[i - 1] == packages[i];
      }
      if Named(rest, k) {
        var i :| 0 <= i < |rest| && Resolve(rest[i]).Val? && Resolve(rest[i]).value.key == k;
        assert packages[i + 1] == rest[i];
      }
    }
  }

  lemma NamedTailAll(packages: seq<PackageSpec>)
    requires |packages| > 0 && Resolve(packages[0]).Val?
    ensures AllNamed(packages[1..]) ==> AllNamed(packages)
    ensures KeysAreNames(packages) ==> KeysAreNames(packages[1..])
  {
    var rest := packages[1..];
    if AllNamed(rest) {
      forall i | 0 <= i < |packages| ensures Resolve(packages[i]).Val? {
        if i > 0 { assert packages[i] == rest[i - 1]; }
      }
    }
    if KeysAreNames(packages) {
      forall i | 0 <= i < |rest| && Resolve(rest[i]).Val?
        ensures Resolve(rest[i]).value.key == Resolve(rest[i]).value.name
      {
        assert rest[i] == packages[i + 1];
      }
    }
  }

  /** A successful check of `n` yields PackageResult, leaves `n` live with
      that value, and leaves every other name's result as it was. */
  lemma PackageResultAfter(m: Entries<ServiceRecord>, now: int, check: (string, Option<string>) -> Eval<ServiceRecord>,
                           n: string, kind: Option<string>)
    requires Remembered(m, UpdateCheckKey(n), CheckTtl, now, check(n, kind)).result.Val?
    ensures var c := Remembered(m, UpdateCheckKey(n), CheckTtl, now, check(n, kind));
      && c.result == PackageResult(m, now, check, n, kind)
      && Live(c.entries, UpdateCheckKey(n), now) && c.entries[UpdateCheckKey(n)].value == c.result.value
      && forall k, kk :: k != n ==> PackageResult(c.entries, now, check, k, kk) == PackageResult(m, now, check, k, kk)
  {
    forall k, kk | k != n
      ensures PackageResult(Remembered(m, UpdateCheckKey(n), CheckTtl, now, check(n, kind)).entries,
                            now, check, k, kk)
           == PackageResult(m, now, check, k, kk)
    {
      if UpdateCheckKey(k) == UpdateCheckKey(n) {
        PrefixedKeyInjective("update_check_", k, n);
      }
    }
  }

  /** A completed check has one entry per distinct key, after what `acc`
      held, and every package had a usable name. */
  lemma {:induction false} CheckFromKeys(m: Entries<ServiceRecord>, now: int, packages: seq<PackageSpec>,
                                         check: (string, Option<string>) -> Eval<ServiceRecord>, acc: Assoc<ServiceRecord>)
    requires WellFormed(acc)
    ensures var r := CheckFrom(m, now, packages, check, acc).updates;
      r.Val? ==>
        && AllNamed(packages)
        && WellFormed(r.value)
        && (forall k :: k in r.value.vals <==> k in acc.vals || Named(packages, k))
    decreases |packages|
  {
    if packages != [] && Resolve(packages[0]).Val? {
      var rn := Resolve(packages[0]).value;
      var c := Remembered(m, UpdateCheckKey(rn.name), CheckTtl, now, check(rn.name, packages[0].kind));
      if c.result.Val? {
        CheckFromKeys(c.entries, now, packages[1..], check, Assign(acc, rn.key, c.result.value));
        NamedTail(packages, rn.key);
      }
    }
  }

  /** When every key is its name (no package is named false), each name's
      entry is what its first occurrence yields: the cached record while
      live, else a fresh check of that occurrence's type. Later
      occurrences' types are ignored; names already in `acc` and not in
      the list keep their value. */
  lemma {:induction false} CheckFromValues(m: Entries<ServiceRecord>, now: int, packages: seq<PackageSpec>,
                                           check: (string, Option<string>) -> Eval<ServiceRecord>, acc: Assoc<ServiceRecord>)
    requires WellFormed(acc) && KeysAreNames(packages)
    ensures var r := CheckFrom(m, now, packages, check, acc).updates;
      r.Val? ==>
        && (forall k :: Named(packages, k) ==>
              k in r.value.vals && Val(r.value.vals[k]) == PackageResult(m, now, check, k, FirstKind(packages, k)))
        && (forall k :: k in acc.vals && !Named(packages, k) ==> k in r.value.vals && r.value.vals[k] == acc.vals[k])
    decreases |packages|
  {
    if packages != [] && Resolve(packages[0]).Val? {
      var n := Resolve(packages[0]).value.name;
      assert Resolve(packages[0]).value.key == n;
      var c := Remembered(m, UpdateCheckKey(n), CheckTtl, now, check(n, packages[0].kind));
      if c.result.Val? {
        var acc' := Assign(acc, n, c.result.value);
        NamedTail(packages, n);
        CheckFromValues(c.entries, now, packages[1..], check, acc');
        PackageResultAfter(m, now, check, n, packages[0].kind);
        var r := CheckFrom(c.entries, now, packages[1..], check, acc').updates;
        if r.Val? {
          ValuesStep(m, c.entries, now, check, packages, n, c.result.value, acc, r.value);
        }
      }
    }
  }

  /** The inductive step of CheckFromValues, on the store before and after
      the first package's check. */
  lemma ValuesStep(m: Entries<ServiceRecord>, m': Entries<ServiceRecord>, now: int,
                   check: (string, Option<string>) -> Eval<ServiceRecord>, packages: seq<PackageSpec>,
                   n: string, v: ServiceRecord, acc: Assoc<ServiceRecord>, r: Assoc<ServiceRecord>)
    requires WellFormed(acc) && |packages| > 0 && Resolve(packages[0]) == Val(Resolved(n, n))
    requires PackageResult(m, now, check, n, packages[0].kind) == Val(v)
    requires Live(m', UpdateCheckKey(n), now) && m'[UpdateCheckKey(n)].value == v
    requires forall k, kk :: k != n ==> PackageResult(m', now, check, k, kk) == PackageResult(m, now, check, k, kk)
    requires var acc' := Assign(acc, n, v);
      && (forall k :: Named(packages[1..], k) ==>
            k in r.vals && Val(r.vals[k]) == PackageResult(m', now, check, k, FirstKind(packages[1..], k)))
      && (forall k :: k in acc'.vals && !Named(packages[1..], k) ==> k in r.vals && r.vals[k] == acc'.vals[k])
    ensures forall k :: Named(packages, k) ==>
              k in r.vals && Val(r.vals[k]) == PackageResult(m, now, check, k, FirstKind(packages, k))
    ensures forall k :: k in acc.vals && !Named(packages, k) ==> k in r.vals && r.vals[k] == acc.vals[k]
  {
    var rest := packages[1..];
    var acc' := Assign(acc, n, v);
    NamedTail(packages, n);
    forall k | Named(packages, k)
      ensures k in r.vals && Val(r.vals[k]) == PackageResult(m, now, check, k, FirstKind(packages, k))
    {
      if k == n {
        assert FirstKind(packages, n) == packages[0].kind;
        if Named(rest, n) {
          assert PackageResult(m', now, check, n, FirstKind(rest, n)) == Val(v);
        } else {
          assert n in acc'.vals && acc'.vals[n] == v;
        }
      } else {
        assert Named(rest, k);
      }
    }
    forall k | k in acc.vals && !Named(packages, k) ensures k in r.vals && r.vals[k] == acc.vals[k] {
      assert k != n && !Named(rest, k);
      assert k in acc'.vals && acc'.vals[k] == acc.vals[k];
    }
  }

  /** The cache key ignores the type: within the hour, the same name asked
      for with another type (here in the same call, as a later duplicate)
      gets the first type's result, and the producer runs once. */
  lemma SameNameOtherType(m: Entries<ServiceRecord>, now: int, n: string, k1: Option<string>, k2: Option<string>,
                          check: (string, Option<string>) -> Eval<ServiceRecord>)
    requires !Live(m, UpdateCheckKey(n), now)
    requires check(n, k1).Val?
    ensures var v := check(n, k1).value;
      CheckFrom(m, now, [PackageSpec(Some(JStr(n)), k1), PackageSpec(Some(JStr(n)), k2)], check, EmptyAssoc()).updates
        == Val(Assoc([n], map[n := v]))
  {
    var ps := [PackageSpec(Some(JStr(n)), k1), PackageSpec(Some(JStr(n)), k2)];
    var v := check(n, k1).value;
    var key := UpdateCheckKey(n);
    assert Resolve(ps[0]) == Val(Resolved(n, n)) && Resolve(ps[1]) == Val(Resolved(n, n));
    var c1 := Remembered(m, key, CheckTtl, now, check(n, k1));
    RememberTwice(m, key, CheckTtl, now, now, check(n, k1), check(n, k2));
    var a1 := Assign(EmptyAssoc(), n, v);
    assert a1 == Assoc([n], map[n := v]);
    assert ps[1..] == [PackageSpec(Some(JStr(n)), k2)];
    assert CheckFrom(m, now, ps, check, EmptyAssoc()) == CheckFrom(c1.entries, now, ps[1..], check, a1);
    var c2 := Remembered(c1.entries, key, CheckTtl, now, check(n, k2));
    assert c2.result == Val(v);
    assert ps[1..][1..] == [];
    assert Assign(a1, n, v) == a1;
    assert CheckFrom(c1.entries, now, ps[1..], check, a1)
        == CheckFrom(c2.entries, now, ps[1..][1..], check, Assign(a1, n, v));
    assert CheckFrom(c2.entries, now, [], check, a1).updates == Val(a1);
  }

  /** A package whose name is null is checked and cached as the empty name
      and stored under key "". */
  lemma NullName(m: Entries<ServiceRecord>, now: int, kind: Option<string>,
                 check: (string, Option<string>) -> Eval<ServiceRecord>)
    requires !Live(m, UpdateCheckKey(""), now)
    requires check("", kind).Val?
    ensures var v := check("", kind).value;
      CheckFrom(m, now, [PackageSpec(Some(JNull), kind)], check, EmptyAssoc())
        == Checked(Val(Assoc([""], map["" := v])), Write(m, "update_check_", v, CheckTtl, now))
  {
    var ps := [PackageSpec(Some(JNull), kind)];
    var v := check("", kind).value;
    assert Resolve(ps[0]) == Val(Resolved("", ""));
    assert ps[1..] == [];
    assert Assign(EmptyAssoc(), "", v) == Assoc([""], map["" := v]);
  }

  /** A package named false is checked and cached as the empty name but
      stored under key "0". After a package named "" in the same call it
      gets that package's record, whatever its own type: the one case where
      an entry is not what its own first occurrence would yield. */
  lemma FalseNameSharesEmptyName(m: Entries<ServiceRecord>, now: int, k1: Option<string>, k2: Option<string>,
                                 check: (string, Option<string>) -> Eval<ServiceRecord>)
    requires !Live(m, UpdateCheckKey(""), now)
    requires check("", k1).Val?
    ensures var v := check("", k1).value;
      CheckFrom(m, now, [PackageSpec(Some(JStr("")), k1), PackageSpec(Some(JBool(false)), k2)], check, EmptyAssoc()).updates
        == Val(Assoc(["", "0"], map["" := v, "0" := v]))
  {
    var ps := [PackageSpec(Some(JStr("")), k1), PackageSpec(Some(JBool(false)), k2)];
    var v := check("", k1).value;
    var key := UpdateCheckKey("");
    assert Resolve(ps[0]) == Val(Resolved("", ""));
    assert Resolve(ps[1]) == Val(Resolved("", "0"));
    var c1 := Remembered(m, key, CheckTtl, now, check("", k1));
    RememberTwice(m, key, CheckTtl, now, now, check("", k1), check("", k2));
    var a1 := Assign(EmptyAssoc(), "", v);
    assert a1 == Assoc([""], map["" := v]);
    assert ps[1..] == [PackageSpec(Some(JBool(false)), k2)];
    assert CheckFrom(m, now, ps, check, EmptyAssoc()) == CheckFrom(c1.entries, now, ps[1..], check, a1);
    var c2 := Remembered(c1.entries, key, CheckTtl, now, check("", k2));
    assert c2.result == Val(v);
    assert ps[1..][1..] == [];
    var a2 := Assign(a1, "0", v);
    assert a2 == Assoc(["", "0"], map["" := v, "0" := v]);
    assert CheckFrom(c1.entries, now, ps[1..], check, a1)
        == CheckFrom(c2.entries, now, ps[1..][1..], check, a2);
    assert CheckFrom(c2.entries, now, [], check, a2).updates == Val(a2);
  }

  /** The rest of `checkForLanguageUpdates`' loop; nothing in it throws. */
  function LanguagesFrom(m: Entries<ServiceRecord>, now: int, languages: seq<string>,
                         check: string -> ServiceRecord, acc: Assoc<ServiceRecord>)
    : (Assoc<ServiceRecord>, Entries<ServiceRecord>)
    requires WellFormed(acc)
    decreases |languages|
  {
    if languages == [] then (acc, m)
    else
      var l := languages[0];
      var c := Remembered(m, LanguageUpdateKey(l), CheckTtl, now, Val(check(l)));
      var v := c.result.value;
      LanguagesFrom(c.entries, now, languages[1..], check, Assign(acc, l, v))
  }

  /** `getLanguageUpdate` as the closure `checkForLanguageUpdates` caches. */
  function LanguageCheck(registry: (Registry, string) -> Fetch): string -> ServiceRecord {
    (l: string) => GetLanguageUpdate(registry(EndOfLifeApi, l))
  }

  /** `checkForLanguageUpdates`: one cached endoflife check per language. */
  method CheckForLanguageUpdates(cache: Store<ServiceRecord>, now: int, languages: seq<string>,
                                 registry: (Registry, string) -> Fetch)
    returns (r: Assoc<ServiceRecord>)
    modifies cache
    ensures (r, cache.entries) == LanguagesFrom(old(cache.entries), now, languages, LanguageCheck(registry), EmptyAssoc())
  {
    var check := LanguageCheck(registry);
    var updates := EmptyAssoc();
    for i := 0 to |languages|
      invariant WellFormed(updates)
      invariant LanguagesFrom(old(cache.entries), now, languages, check, EmptyAssoc())
             == LanguagesFrom(cache.entries, now, languages[i..], check, updates)
    {
      var l := languages[i];
      assert languages[i..][0] == l && languages[i..][1..] == languages[i + 1..];
      var e, _ := cache.Remember(LanguageUpdateKey(l), CheckTtl, now, () => Val(check(l)));
      var v := e.value;
      updates := Assign(updates, l, v);
    }
    assert languages[|languages|..] == [];
    r := updates;
  }

  /** What one language check yields from store `m` at `now`: the live
      cached record, or a fresh endoflife check. */
  function LanguageResult(m: Entries<ServiceRecord>, now: int, check: string -> ServiceRecord,
                          l: string): ServiceRecord {
    var key := LanguageUpdateKey(l);
    if Live(m, key, now) then m[key].value else check(l)
  }

  /** A language check yields LanguageResult, leaves that language live
      with that value, and leaves every other language's result as it
      was. */
  lemma LanguageResultAfter(m: Entries<ServiceRecord>, now: int, check: string -> ServiceRecord, l: string)
    ensures var c := Remembered(m, LanguageUpdateKey(l), CheckTtl, now, Val(check(l)));
      && c.result == Val(LanguageResult(m, now, check, l))
      && forall k :: LanguageResult(c.entries, now, check, k) == LanguageResult(m, now, check, k)
  {
    var c := Remembered(m, LanguageUpdateKey(l), CheckTtl, now, Val(check(l)));
    forall k ensures LanguageResult(c.entries, now, check, k) == LanguageResult(m, now, check, k) {
      if k != l && LanguageUpdateKey(k) == LanguageUpdateKey(l) {
        PrefixedKeyInjective("language_update_", k, l);
      }
    }
  }

  /** One entry per distinct language, after what `acc` held. */
  lemma {:induction false} LanguagesFromKeys(m: Entries<ServiceRecord>, now: int, languages: seq<string>,
                                             check: string -> ServiceRecord, acc: Assoc<ServiceRecord>)
    requires WellFormed(acc)
    ensures var r := LanguagesFrom(m, now, languages, check, acc).0;
      WellFormed(r) && forall k :: k in r.vals <==> k in acc.vals || k in languages
    decreases |languages|
  {
    if languages != [] {
      var l := languages[0];
      var c := Remembered(m, LanguageUpdateKey(l), CheckTtl, now, Val(check(l)));
      var v := c.result.value;
      LanguagesFromKeys(c.entries, now, languages[1..], check, Assign(acc, l, v));
      assert forall k :: k in languages <==> k == l || k in languages[1..];
    }
  }

  /** Each language's entry is the cached record while live, else a fresh
      endoflife check; entries of `acc` for other languages are kept. */
  lemma {:induction false} LanguagesFromValues(m: Entries<ServiceRecord>, now: int, languages: seq<string>,
                                               check: string -> ServiceRecord, acc: Assoc<ServiceRecord>)
    requires WellFormed(acc)
    ensures var r := LanguagesFrom(m, now, languages, check, acc).0;
      && (forall k :: k in languages ==> k in r.vals && r.vals[k] == LanguageResult(m, now, check, k))
      && (forall k :: k in acc.vals && k !in languages ==> k in r.vals && r.vals[k] == acc.vals[k])
    decreases |languages|
  {
    if languages != [] {
      var l := languages[0];
      var c := Remembered(m, LanguageUpdateKey(l), CheckTtl, now, Val(check(l)));
      LanguageResultAfter(m, now, check, l);
      var acc' := Assign(acc, l, c.result.value);
      LanguagesFromValues(c.entries, now, languages[1..], check, acc');
      assert forall k :: k in languages <==> k == l || k in languages[1..];
    }
  }
}
