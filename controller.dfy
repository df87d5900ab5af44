/** The HTTP controller of the update checker: the language, library, package
    and GitHub endpoints, the normalisers behind them and their cache-aside
    wrapping. Each upstream call is an input `Fetch`; a reply is reduced to
    its HTTP status and JSON payload. */
module Controller {
  import opened Json
  import opened Php
  import opened Cache
  import opened EndOfLife

  // ---------------------------------------------------------------------
  // Language records (endoflife.date)

  datatype Language = PHP | NodeJS | Java

  function LanguageError(lang: Language): string {
    match lang
    case PHP => "Erro ao buscar atualizações do PHP"
    case NodeJS => "Erro ao buscar atualizações do Node.js"
    case Java => "Erro ao buscar atualizações do Java"
  }

  /** The fully defaulted record returned on every failure. */
  function ErrorRecord(lang: Language): EolRecord {
    EolRecord(NA, NA, NA, NA, NA, NA, JBool(false), Source, "error", Some(LanguageError(lang)))
  }

  /** `getPhpUpdates`, `getJavaScriptUpdates` and `getJavaUpdates`, which
      differ only in the URL they fetch and their error message. */
  function LanguageInfo(lang: Language, f: Fetch): (r: EolRecord)
    ensures r.status == "success" <==> LatestCycle(f).Some?
    ensures r.status == "success" ==> r.source == "endoflife.date" && r.error.None?
    ensures r.status != "success" ==> r == ErrorRecord(lang)
  {
    match LatestCycle(f)
    case Some(latest) => Project(latest)
    case None => ErrorRecord(lang)
  }

  /** A 2xx reply whose element 0 is a non-empty object: the record's fields
      are that object's members, defaulted where unset or null. */
  lemma LanguageInfoFromFirstCycle(lang: Language, status: int, items: seq<Json>,
                                   keys: seq<string>, fields: map<string, Json>)
    requires 200 <= status < 300 && |items| > 0 && items[0] == JObj(keys, fields) && |fields| > 0
    ensures var r := LanguageInfo(lang, Response(status, JArr(items)));
      && r.cycle == MemberOr(fields, "cycle", NA)
      && r.releaseDate == MemberOr(fields, "releaseDate", NA)
      && r.eol == MemberOr(fields, "eol", NA)
      && r.latestVersion == MemberOr(fields, "latest", NA)
      && r.latestReleaseDate == MemberOr(fields, "latestReleaseDate", NA)
      && r.support == MemberOr(fields, "support", NA)
      && r.extendedSupport == MemberOr(fields, "extendedSupport", JBool(false))
      && r.source == "endoflife.date" && r.status == "success" && r.error.None?
  {
    ProjectObject(keys, fields);
  }

  /** Every failing case gives the defaulted error record: a transport
      failure, a non-2xx status, an empty list, a falsy element 0. */
  lemma LanguageInfoFailures(lang: Language, f: Fetch)
    requires || f.ConnectionFailed?
             || (f.Response? && !(200 <= f.status < 300))
             || (f.Response? && f.body == JArr([]))
             || (f.Response? && f.body.JArr? && |f.body.items| > 0 && !Truthy(f.body.items[0]))
    ensures LanguageInfo(lang, f) == ErrorRecord(lang)
    ensures LanguageInfo(lang, f).error == Some(LanguageError(lang))
  {
  }

  // ---------------------------------------------------------------------
  // Package records (npm, PyPI, Packagist)

  datatype PackageRecord = PackageRecord(
    name: Json,
    version: Json,
    description: Json,
    updatedAt: Json,
    source: string,
    status: string)

  const NoDescription: Json := JStr("Sem descrição")

  /** `catch (\Exception $e) { ... } return null;` around a successful
      response's block. */
  function OrNull<T>(e: Eval<T>): (r: Eval<Option<T>>)
    ensures e.Val? ==> r == Val(Some(e.value))
    ensures e.Throw? && IsException(e.thrown) ==> r == Val(None)
    ensures e.Throw? && !IsException(e.thrown) ==> r == Throw(e.thrown)
  {
    match e
    case Val(v) => Val(Some(v))
    case Throw(t) => if IsException(t) then Val(None) else Throw(t)
  }

  /** The npm dist-tag `latest`, if set. */
  function NpmLatest(data: Json): Option<Json> {
    Path(data, [Name("dist-tags"), Name("latest")])
  }

  function NpmRecord(pkg: string, data: Json): Eval<PackageRecord> {
    var latest := NpmLatest(data);
    match DimBy(Dim(data, Name("time")), Coalesce(latest, JStr("")))
    case Throw(t) => Throw(t)
    case Val(updated) =>
      Val(PackageRecord(
        Coalesce(Dim(data, Name("name")), JStr(pkg)),
        Coalesce(latest, NA),
        Coalesce(Dim(data, Name("description")), NoDescription),
        Coalesce(updated, NA),
        "npmjs.org",
        "success"))
  }

  /** `getNpmPackageInfo`: null on a transport failure or a non-2xx status. */
  function NpmInfo(pkg: string, f: Fetch): (r: Eval<Option<PackageRecord>>)
    ensures !Successful(f) ==> r == Val(None)
    ensures r.Val? && r.value.Some? ==> r.value.value.source == "npmjs.org" && r.value.value.status == "success"
  {
    if Successful(f) then OrNull(NpmRecord(pkg, f.body)) else Val(None)
  }

  /** The npm fields: `version` is dist-tags.latest or "N/A", `name` and
      `description` default to the requested name and "Sem descrição", and
      `updated_at` is the `time` member named by the latest version, read
      under the key "" when there is no latest version. */
  lemma NpmInfoFields(pkg: string, status: int, data: Json)
    requires 200 <= status < 300
    requires NpmLatest(data).None? || NpmLatest(data).value.JStr?
    ensures var r := NpmInfo(pkg, Response(status, data));
      var key := if NpmLatest(data).Some? then NpmLatest(data).value.s else "";
      && r.Val? && r.value.Some?
      && r.value.value.version == Coalesce(NpmLatest(data), NA)
      && r.value.value.name == Coalesce(Dim(data, Name("name")), JStr(pkg))
      && r.value.value.description == Coalesce(Dim(data, Name("description")), NoDescription)
      && r.value.value.updatedAt == Coalesce(Path(data, [Name("time"), Name(key)]), NA)
  {
    var key := if NpmLatest(data).Some? then NpmLatest(data).value.s else "";
    PathTwoNames(data, "time", key);
    assert ToOffset(Coalesce(NpmLatest(data), JStr(""))) == Some(Name(key));
  }

  /** A dist-tag `latest` that is a list or an object is an illegal offset
      on an array-valued `time`: the TypeError escapes the catch block. */
  lemma NpmInfoIllegalOffset(pkg: string, status: int, data: Json)
    requires 200 <= status < 300
    requires NpmLatest(data).Some? && (NpmLatest(data).value.JArr? || NpmLatest(data).value.JObj?)
    requires Dim(data, Name("time")).Some? && Dim(data, Name("time")).value.JObj?
    ensures NpmInfo(pkg, Response(status, data)) == Throw(TypeError)
  {
  }

  function PypiRecord(pkg: string, data: Json): Eval<PackageRecord> {
    var version := Coalesce(Path(data, [Name("info"), Name("version")]), NA);
    match DimBy(Dim(data, Name("releases")), version)
    case Throw(t) => Throw(t)
    case Val(files) =>
      var upload := match files
        case None => None
        case Some(fl) => Path(fl, [Index(0), Name("upload_time")]);
      Val(PackageRecord(
        Coalesce(Path(data, [Name("info"), Name("name")]), JStr(pkg)),
        version,
        Coalesce(Path(data, [Name("info"), Name("summary")]), NoDescription),
        Coalesce(upload, NA),
        "pypi.org",
        "success"))
  }

  /** `getPypiPackageInfo`: null on a transport failure or a non-2xx status. */
  function PypiInfo(pkg: string, f: Fetch): (r: Eval<Option<PackageRecord>>)
    ensures !Successful(f) ==> r == Val(None)
    ensures r.Val? && r.value.Some? ==> r.value.value.source == "pypi.org" && r.value.value.status == "success"
  {
    if Successful(f) then OrNull(PypiRecord(pkg, f.body)) else Val(None)
  }

  /** `releases[version][0].upload_time`, when every step of it is set. */
  function UploadTime(data: Json, version: string): Option<Json> {
    Path(data, [Name("releases"), Name(version), Index(0), Name("upload_time")])
  }

  /** For a string version: `updated_at` is the upload time of the version's
      first file exactly when that path is set, and "N/A" otherwise; the
      version itself defaults to "N/A". */
  lemma PypiInfoUploadTime(pkg: string, status: int, data: Json)
    requires 200 <= status < 300
    requires var v := Path(data, [Name("info"), Name("version")]); v.None? || v.value.JStr?
    ensures var v := Path(data, [Name("info"), Name("version")]);
      var version := if v.Some? then v.value.s else "N/A";
      var r := PypiInfo(pkg, Response(status, data));
      && r.Val? && r.value.Some?
      && r.value.value.version == Coalesce(v, NA)
      && (UploadTime(data, version).Some? ==> r.value.value.updatedAt == UploadTime(data, version).value)
      && (UploadTime(data, version).None? ==> r.value.value.updatedAt == NA)
  {
    var v := Path(data, [Name("info"), Name("version")]);
    var version := if v.Some? then v.value.s else "N/A";
    var segs := [Name("releases"), Name(version), Index(0), Name("upload_time")];
    assert segs[1..][1..] == [Index(0), Name("upload_time")];
    match Dim(data, Name("releases"))
    case None =>
    case Some(rel) =>
      assert Path(data, segs) == Path(rel, segs[1..]);
      match Dim(rel, Name(version))
      case None =>
      case Some(fl) =>
        assert Path(rel, segs[1..]) == Path(fl, [Index(0), Name("upload_time")]);
  }

  /** `/dev-|alpha|beta|rc/i`. */
  predicate UnstableTag(v: string) {
    ContainsCI(v, "dev-") || ContainsCI(v, "alpha") || ContainsCI(v, "beta") || ContainsCI(v, "rc")
  }

  predicate HasStable(versions: seq<string>) {
    exists i :: 0 <= i < |versions| && !UnstableTag(versions[i])
  }

  /** `!empty($stable) ? $stable[0] : ($versions[0] ?? 'N/A')` where `$stable`
      is `array_filter($versions, ...)`, which keeps the original positions:
      `$stable[0]` exists only when raw key 0 itself survived the filter. */
  function ControllerLatest(versions: seq<string>): (r: Eval<string>)
    ensures r.Val? && |versions| > 0 ==> r.value == versions[0]
    ensures r.Val? && |versions| == 0 ==> r.value == "N/A"
    ensures r.Throw? <==> HasStable(versions) && UnstableTag(versions[0])
    ensures r.Val? && HasStable(versions) ==> !UnstableTag(r.value)
    ensures r.Throw? ==> r.thrown == ErrorException("Undefined array key 0")
  {
    if HasStable(versions) then
      if !UnstableTag(versions[0]) then Val(versions[0]) else Throw(ErrorException("Undefined array key 0"))
    else if |versions| > 0 then Val(versions[0])
    else Val("N/A")
  }

  function PackagistVersions(data: Json): Eval<seq<string>> {
    ArrayKeys(Coalesce(Path(data, [Name("package"), Name("versions")]), JArr([])))
  }

  function PackagistRecord(pkg: string, data: Json): Eval<PackageRecord> {
    match PackagistVersions(data)
    case Throw(t) => Throw(t)
    case Val(versions) =>
      match ControllerLatest(versions)
      case Throw(t) => Throw(t)
      case Val(latest) =>
        Val(PackageRecord(
          Coalesce(Path(data, [Name("package"), Name("name")]), JStr(pkg)),
          JStr(latest),
          Coalesce(Path(data, [Name("package"), Name("description")]), NoDescription),
          Coalesce(Path(data, [Name("package"), Name("versions"), Name(latest), Name("time")]), NA),
          "packagist.org",
          "success"))
  }

  /** `getPackagistInfo`: null on a transport failure or a non-2xx status. */
  function PackagistInfo(pkg: string, f: Fetch): (r: Eval<Option<PackageRecord>>)
    ensures !Successful(f) ==> r == Val(None)
    ensures r.Val? && r.value.Some? ==> r.value.value.source == "packagist.org" && r.value.value.status == "success"
  {
    if Successful(f) then OrNull(PackagistRecord(pkg, f.body)) else Val(None)
  }

  /** The version Packagist reports, for a `versions` object with member
      names `keys`: key 0 when it is stable, key 0 (or "N/A") when no key is
      stable, and null when some later key is stable but key 0 is not. */
  lemma PackagistInfoVersion(pkg: string, status: int, data: Json, keys: seq<string>, vs: map<string, Json>)
    requires 200 <= status < 300
    requires Path(data, [Name("package"), Name("versions")]) == Some(JObj(keys, vs))
    ensures var r := PackagistInfo(pkg, Response(status, data));
      && r.Val?
      && (|keys| > 0 && !UnstableTag(keys[0]) ==> r.value.Some? && r.value.value.version == JStr(keys[0]))
      && (!HasStable(keys) && |keys| > 0 ==> r.value.Some? && r.value.value.version == JStr(keys[0]))
      && (keys == [] ==> r.value.Some? && r.value.value.version == NA)
      && (HasStable(keys) && UnstableTag(keys[0]) ==> r.value.None?)
      && (r.value.Some? && HasStable(keys) ==> !UnstableTag(r.value.value.version.s))
  {
    assert PackagistVersions(data) == Val(keys);
    if |keys| > 0 && !UnstableTag(keys[0]) {
      assert HasStable(keys);
    }
  }

  // ---------------------------------------------------------------------
  // Library stubs

  datatype LibraryInfo = LibraryInfo(name: string, status: string, message: string)

  /** `getLibraryInfo`: a placeholder record. */
  function LibraryInfoOf(library: string): (r: LibraryInfo)
    ensures r.name == library && r.status == "not_implemented"
  {
    LibraryInfo(library, "not_implemented", "Busca de biblioteca específica não implementada")
  }

  /** The `$updates` array after the loop over `libraries`. */
  function LibraryData(libraries: seq<string>): (r: Assoc<LibraryInfo>)
    ensures WellFormed(r)
    ensures forall k :: k in r.vals <==> k in libraries
    ensures forall k :: k in r.vals ==> r.vals[k] == LibraryInfoOf(k)
    decreases |libraries|
  {
    if libraries == [] then EmptyAssoc()
    else
      var last := libraries[|libraries| - 1];
      Assign(LibraryData(libraries[..|libraries| - 1]), last, LibraryInfoOf(last))
  }

  // ---------------------------------------------------------------------
  // Replies

  datatype Body =
    | Languages(php: EolRecord, javascript: EolRecord, java: EolRecord)
    | Libraries(data: Assoc<LibraryInfo>)
    | Package(package: string, npm: Option<PackageRecord>, packagist: Option<PackageRecord>)
    | Release(name: Json, tagName: Json, publishedAt: Json, notes: Json, htmlUrl: Json, downloadUrl: Json)
    | Message(message: string)
    | NotFound(message: string, statusCode: int)

  /** An HTTP reply: status, the `success` flag and the rest of the payload. */
  datatype Reply = Reply(status: int, success: bool, body: Body)

  const LanguageUpdatesKey: string := "language_updates"
  const LanguageTtl: int := 3600
  const PackageTtl: int := 1800
  const GitHubTtl: int := 1800

  function PackageKey(package: string): string {
    "package_" + package
  }

  function GitHubKey(owner: string, repo: string): string {
    "github_" + owner + "_" + repo
  }

  /** The GitHub cache key is not injective. */
  lemma GitHubKeyCollision()
    ensures GitHubKey("a_b", "c") == GitHubKey("a", "b_c")
  {
  }

  /** It is injective for owners without an underscore (GitHub account
      names contain only letters, digits and hyphens). */
  lemma {:induction false} GitHubKeyInjective(o1: string, r1: string, o2: string, r2: string)
    requires '_' !in o1 && '_' !in o2
    requires GitHubKey(o1, r1) == GitHubKey(o2, r2)
    ensures o1 == o2 && r1 == r2
  {
    var k := GitHubKey(o1, r1);
    assert k == GitHubKey(o2, r2);
    assert forall i :: 0 <= i < |o1| ==> k[7 + i] == o1[i];
    assert forall i :: 0 <= i < |o2| ==> k[7 + i] == o2[i];
    assert k[7 + |o1|] == '_';
    assert k[7 + |o2|] == '_';
    if |o1| < |o2| {
      assert false;
    } else if |o2| < |o1| {
      assert false;
    }
    assert o1 == k[7..7 + |o1|] == o2;
    assert r1 == k[8 + |o1|..] == r2;
  }

  function LanguagesReply(php: Fetch, node: Fetch, java: Fetch): Reply {
    Reply(200, true, Languages(LanguageInfo(PHP, php), LanguageInfo(NodeJS, node), LanguageInfo(Java, java)))
  }

  /** `GET /api/updates/languages`, cached for an hour under one key. */
  method GetLanguageUpdates(cache: Store<Reply>, now: int, php: Fetch, node: Fetch, java: Fetch)
    returns (r: Reply, ran: bool)
    modifies cache
    ensures Recall(Val(r), cache.entries, ran)
         == Remembered(old(cache.entries), LanguageUpdatesKey, LanguageTtl, now, Val(LanguagesReply(php, node, java)))
  {
    var e;
    e, ran := cache.Remember(LanguageUpdatesKey, LanguageTtl, now, () => Val(LanguagesReply(php, node, java)));
    r := e.value;
  }

  const NoLibraries: string := "Nenhuma biblioteca especificada"

  /** `GET /api/updates/libraries`: 400 when no library is given, otherwise
      one placeholder per distinct name. */
  method GetLibraryUpdates(libraries: seq<string>) returns (r: Reply)
    ensures libraries == [] ==> r == Reply(400, false, Message(NoLibraries))
    ensures libraries != [] ==> r.status == 200 && r.success && r.body.Libraries?
    ensures libraries != [] ==> r.body.data == LibraryData(libraries)
  {
    if |libraries| == 0 {
      return Reply(400, false, Message(NoLibraries));
    }
    var updates := EmptyAssoc();
    for i := 0 to |libraries|
      invariant updates == LibraryData(libraries[..i])
    {
      assert libraries[..i + 1][..i] == libraries[..i];
      updates := Assign(updates, libraries[i], LibraryInfoOf(libraries[i]));
    }
    assert libraries[..|libraries|] == libraries;
    r := Reply(200, true, Libraries(updates));
  }

  /** The package producer: npm, then PyPI (whose result the reply drops),
      then Packagist. A TypeError in any of them escapes. */
  function PackageReply(package: string, npm: Fetch, pypi: Fetch, packagist: Fetch): (r: Eval<Reply>)
    ensures r.Val? ==> r.value.status == 200 && r.value.success
    ensures r.Val? ==> NpmInfo(package, npm).Val? && PackagistInfo(package, packagist).Val?
    ensures r.Val? ==> r.value.body == Package(package, NpmInfo(package, npm).value, PackagistInfo(package, packagist).value)
    ensures r.Throw? <==> NpmInfo(package, npm).Throw? || PypiInfo(package, pypi).Throw? || PackagistInfo(package, packagist).Throw?
  {
    match NpmInfo(package, npm)
    case Throw(t) => Throw(t)
    case Val(n) =>
      match PypiInfo(package, pypi)
      case Throw(t) => Throw(t)
      case Val(_) =>
        match PackagistInfo(package, packagist)
        case Throw(t) => Throw(t)
        case Val(p) => Val(Reply(200, true, Package(package, n, p)))
  }

  /** `GET /api/updates/package/{package}`, cached for 30 minutes. */
  method GetPackageUpdates(cache: Store<Reply>, now: int, package: string, npm: Fetch, pypi: Fetch, packagist: Fetch)
    returns (r: Eval<Reply>, ran: bool)
    modifies cache
    ensures Recall(r, cache.entries, ran)
         == Remembered(old(cache.entries), PackageKey(package), PackageTtl, now, PackageReply(package, npm, pypi, packagist))
  {
    r, ran := cache.Remember(PackageKey(package), PackageTtl, now, () => PackageReply(package, npm, pypi, packagist));
  }

  const GitHubFields: seq<string> := ["name", "tag_name", "published_at", "body", "html_url", "zipball_url"]
  const GitHubErrorPrefix: string := "Erro ao buscar informações do GitHub: "
  const GitHubNotFound: string := "Repositório não encontrado ou sem releases"

  /** The GitHub producer. The release fields are read without `??`, so a
      missing one throws and lands in the catch block. */
  function GitHubReply(f: Fetch): (r: Eval<Reply>)
    ensures f.Response? && !Successful(f) ==> r == Val(Reply(404, false, NotFound(GitHubNotFound, f.status)))
    ensures f.ConnectionFailed? ==> r == Val(Reply(500, false, Message(GitHubErrorPrefix + f.message)))
    ensures r.Val? && r.value.success ==> r.value.status == 200 && Successful(f)
    ensures r.Val? && !r.value.success ==> r.value.status in {404, 500}
  {
    match f
    case ConnectionFailed(m) => Val(Reply(500, false, Message(GitHubErrorPrefix + m)))
    case Response(status, release) =>
      if 200 <= status < 300 then
        match ReadAll(release, GitHubFields)
        case Val(vs) => Val(Reply(200, true, Release(vs[0], vs[1], vs[2], vs[3], vs[4], vs[5])))
        case Throw(t) =>
          if IsException(t) then Val(Reply(500, false, Message(GitHubErrorPrefix + t.message))) else Throw(t)
      else Val(Reply(404, false, NotFound(GitHubNotFound, status)))
  }

  /** A 2xx release object holding all six fields is copied field by field,
      nulls included; `download_url` comes from `zipball_url`. */
  lemma GitHubReplyRelease(status: int, keys: seq<string>, fields: map<string, Json>)
    requires 200 <= status < 300
    requires forall k :: k in GitHubFields ==> k in fields
    ensures GitHubReply(Response(status, JObj(keys, fields))) == Val(Reply(200, true, Release(
      fields["name"], fields["tag_name"], fields["published_at"], fields["body"],
      fields["html_url"], fields["zipball_url"])))
  {
    var vs := ReadAll(JObj(keys, fields), GitHubFields).value;
    assert vs[0] == fields[GitHubFields[0]];
    assert vs[5] == fields[GitHubFields[5]];
  }

  /** A 2xx release object lacking one of the six fields is a 500 whose
      message names the first missing field. */
  lemma GitHubReplyMissingField(status: int, keys: seq<string>, fields: map<string, Json>, i: nat)
    requires 200 <= status < 300
    requires i < |GitHubFields| && GitHubFields[i] !in fields
    requires forall j :: 0 <= j < i ==> GitHubFields[j] in fields
    ensures GitHubReply(Response(status, JObj(keys, fields)))
         == Val(Reply(500, false, Message(GitHubErrorPrefix + UndefinedKey(GitHubFields[i]))))
  {
    ReadAllFirstFailure(JObj(keys, fields), GitHubFields, i);
  }

  /** `GET /api/updates/github/{owner}/{repo}`, cached for 30 minutes, 404
      and 500 replies included. */
  method GetGitHubUpdates(cache: Store<Reply>, now: int, owner: string, repo: string, f: Fetch)
    returns (r: Eval<Reply>, ran: bool)
    modifies cache
    ensures Recall(r, cache.entries, ran) == Remembered(old(cache.entries), GitHubKey(owner, repo), GitHubTtl, now, GitHubReply(f))
  {
    r, ran := cache.Remember(GitHubKey(owner, repo), GitHubTtl, now, () => GitHubReply(f));
  }

  /** A cached 404 is served again within the TTL, whatever GitHub would now
      answer; and since the key collides, the same holds for a different
      owner/repo pair with the same key. */
  lemma GitHubNotFoundIsCached(m: Entries<Reply>, t1: int, t2: int, status: int, body: Json, later: Fetch)
    requires !Live(m, GitHubKey("a_b", "c"), t1)
    requires !(200 <= status < 300)
    requires t2 < t1 + GitHubTtl
    ensures var c1 := Remembered(m, GitHubKey("a_b", "c"), GitHubTtl, t1, GitHubReply(Response(status, body)));
      var c2 := Remembered(c1.entries, GitHubKey("a", "b_c"), GitHubTtl, t2, GitHubReply(later));
      && c2.result == Val(Reply(404, false, NotFound(GitHubNotFound, status)))
      && !c2.ran
  {
    GitHubKeyCollision();
    RememberTwice(m, GitHubKey("a_b", "c"), GitHubTtl, t1, t2, GitHubReply(Response(status, body)), GitHubReply(later));
  }
}
