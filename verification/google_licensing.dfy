/** License assignment as an ensure-style transition over the tenant's assignments. */
module GoogleLicensing {
  import opened Wrappers
  import opened Strings
  import opened Tenant

  /** What `licenseAssignments().get(...)` answered. */
  datatype GetResponse = Found | HttpError(status: int)

  /** `has_license`: a 404 means "not assigned"; any other error propagates. */
  function HasLicense(response: GetResponse): (r: Result<bool>)
    ensures r == Success(true) <==> response.Found?
    ensures r == Success(false) <==> response == HttpError(404)
    ensures r.Failure? <==> response.HttpError? && response.status != 404
  {
    match response
    case Found => Success(true)
    case HttpError(status) =>
      if status == 404 then Success(false) else Failure("HttpError " + IntToString(status))
  }

  /** The answer the tenant gives for one assignment lookup. */
  function Lookup(dir: Directory, license: License): GetResponse {
    if license in dir.licenses then Found else HttpError(404)
  }

  /** `ensure_license`: `true` when the assignment was missing (and is inserted unless dry-run). */
  function EnsureLicense(dir: Directory, productId: string, skuId: string, userEmail: string,
                         dryRun: bool): (r: (Directory, bool))
    ensures var l := License(productId, skuId, userEmail);
      && (r.1 <==> l !in dir.licenses)
      && (dryRun || l in dir.licenses ==> r.0 == dir)
      && (!dryRun ==> r.0.licenses == dir.licenses + {l})
      && r.0.users == dir.users && r.0.groups == dir.groups && r.0.orgUnits == dir.orgUnits
  {
    var license := License(productId, skuId, userEmail);
    match HasLicense(Lookup(dir, license))
    case Success(true) => (dir, false)
    case Success(false) =>
      if dryRun then (dir, true)
      else (dir.(licenses := dir.licenses + {license}), true)
    case Failure(_) => (dir, false)
  }

  /** After a real assignment, a second call finds the license and writes nothing. */
  lemma EnsureLicenseIdempotent(dir: Directory, productId: string, skuId: string, userEmail: string)
    ensures var (d1, _) := EnsureLicense(dir, productId, skuId, userEmail, false);
      EnsureLicense(d1, productId, skuId, userEmail, false) == (d1, false)
  {
  }
}
