/** The endoflife.date projection shared by the controller's language
    endpoints and the service's language check: element 0 of the returned
    list, if truthy, is projected onto a fixed nine-field record. */
module EndOfLife {
  import opened Json
  import opened Php

  const NA: Json := JStr("N/A")
  const Source: string := "endoflife.date"

  /** A language record. `error` is absent on success. */
  datatype EolRecord = EolRecord(
    cycle: Json,
    releaseDate: Json,
    eol: Json,
    latestVersion: Json,
    latestReleaseDate: Json,
    support: Json,
    extendedSupport: Json,
    source: string,
    status: string,
    error: Option<string>)

  /** `$latest = $data[0] ?? null; if ($latest) ...`: the cycle entry the
      projection reads, when the call succeeded and element 0 is truthy. */
  function LatestCycle(f: Fetch): (r: Option<Json>)
    ensures r.Some? <==> Successful(f) && Dim(f.body, Index(0)).Some? && Truthy(Dim(f.body, Index(0)).value)
    ensures r.Some? ==> r == Dim(f.body, Index(0))
  {
    if Successful(f) then
      match Dim(f.body, Index(0))
      case Some(latest) => if Truthy(latest) then Some(latest) else None
      case None => None
    else None
  }

  /** Each field is `$latest['<member>'] ?? <default>`. */
  function Project(latest: Json): EolRecord {
    EolRecord(
      Coalesce(Dim(latest, Name("cycle")), NA),
      Coalesce(Dim(latest, Name("releaseDate")), NA),
      Coalesce(Dim(latest, Name("eol")), NA),
      Coalesce(Dim(latest, Name("latest")), NA),
      Coalesce(Dim(latest, Name("latestReleaseDate")), NA),
      Coalesce(Dim(latest, Name("support")), NA),
      Coalesce(Dim(latest, Name("extendedSupport")), JBool(false)),
      Source,
      "success",
      None)
  }

  /** Projecting an object: each field is the upstream member of the listed
      name when set and not null, else "N/A" (false for extended support). */
  lemma ProjectObject(keys: seq<string>, fields: map<string, Json>)
    ensures var r := Project(JObj(keys, fields));
      && r.cycle == MemberOr(fields, "cycle", NA)
      && r.releaseDate == MemberOr(fields, "releaseDate", NA)
      && r.eol == MemberOr(fields, "eol", NA)
      && r.latestVersion == MemberOr(fields, "latest", NA)
      && r.latestReleaseDate == MemberOr(fields, "latestReleaseDate", NA)
      && r.support == MemberOr(fields, "support", NA)
      && r.extendedSupport == MemberOr(fields, "extendedSupport", JBool(false))
      && r.source == "endoflife.date" && r.status == "success" && r.error.None?
  {
  }

  /** A truthy element 0 that is not an object (a number, a string, a list)
      still yields a success record, with every field defaulted. */
  lemma ProjectNonObject(latest: Json)
    requires !latest.JObj?
    ensures Project(latest) == EolRecord(NA, NA, NA, NA, NA, NA, JBool(false), "endoflife.date", "success", None)
  {
  }
}
