/**
  The run blueprint: a frozen configuration tree parsed from a decoded YAML object, validated,
  and written back out by `to_dict`.
*/
module Blueprints {
  import opened Wrappers
  import opened Strings
  import opened Json

  datatype TenantGuard = TenantGuard(googleCustomerId: string, googleDomain: string)

  datatype RunConfig = RunConfig(name: string, seed: int, resourcePrefix: string, ouPath: string)

  datatype EntraConfig = EntraConfig(userFilter: string, groupFilter: string, maxUsers: int, maxGroups: int)

  datatype MappingConfig = MappingConfig(emailSource: string, requireDomainMatch: bool)

  datatype IdentityConfig = IdentityConfig(entra: EntraConfig, mapping: MappingConfig)

  datatype LicenseConfig = LicenseConfig(assign: bool, productId: string, skuId: string)

  datatype SharedDriveConfig = SharedDriveConfig(countPerDepartment: int, departmentsSource: string, naming: string)

  datatype MyDriveConfig = MyDriveConfig(enabled: bool, docsPerUser: int)

  datatype DrivesConfig = DrivesConfig(sharedDrives: SharedDriveConfig, myDrive: MyDriveConfig)

  datatype FoldersConfig = FoldersConfig(sharedDriveTree: seq<string>)

  /** `temperature` is a Python float; the model keeps it as a real number. */
  datatype GenerationConfig = GenerationConfig(
    mode: string, maxTokens: int, temperature: real, cacheDir: string, promptVersion: string)

  datatype DocsConfig = DocsConfig(archetypes: seq<string>, generation: GenerationConfig)

  datatype SharedDriveDefaults = SharedDriveDefaults(departmentGroupRole: string, allHandsGroupRole: string)

  datatype DocAclRules = DocAclRules(myDriveDocsShareWithManager: bool, policyDocsShareToAllHands: bool)

  datatype SharingConfig = SharingConfig(
    reviewerGroupEmail: string, sharedDriveDefaults: SharedDriveDefaults, docAclRules: DocAclRules)

  datatype Blueprint = Blueprint(
    version: int, tenantGuard: TenantGuard, run: RunConfig, identity: IdentityConfig,
    licenses: LicenseConfig, drives: DrivesConfig, folders: FoldersConfig, docs: DocsConfig,
    sharing: SharingConfig)

  type Data = map<string, Value>

  // ----- Field readers -----

  function RequireDict(data: Data, key: string): (r: Result<Data>)
    ensures r.Success? <==> Get(data, key).Object?
    ensures r.Success? ==> r.value == Get(data, key).fields
    ensures r.Failure? ==> r.error == key + " must be an object"
  {
    var v := Get(data, key);
    if v.Object? then Success(v.fields) else Failure(key + " must be an object")
  }

  /** A string `strip()` leaves unchanged: no whitespace at either end. */
  predicate Stripped(s: string) {
    s == [] || (!IsSpace(s[0]) && !IsSpace(s[|s| - 1]))
  }

  /** What a required string reads as: present, not blank, stripped. */
  predicate Filled(s: string) {
    s != [] && Stripped(s)
  }

  function RequireStr(data: Data, key: string): (r: Result<string>)
    ensures r.Success? <==> Get(data, key).Str? && Trim(Get(data, key).s) != []
    ensures r.Success? ==> r.value == Trim(Get(data, key).s) && Filled(r.value)
    ensures Get(data, key).Str? && Filled(Get(data, key).s) ==> r == Success(Get(data, key).s)
  {
    var v := Get(data, key);
    if !v.Str? || Trim(v.s) == [] then Failure(key + " must be a non-empty string")
    else
      TrimShape(v.s);
      assert Filled(v.s) ==> Trim(v.s) == v.s by {
        if Filled(v.s) {
          TrimOfTrimmed(v.s);
        }
      }
      Success(Trim(v.s))
  }

  /** `_optional_str(data, key) or ""`: missing or null reads as "", a string is stripped. */
  function OptionalStrOrEmpty(data: Data, key: string): (r: Result<string>)
    ensures r.Success? <==> Get(data, key).Null? || Get(data, key).Str?
    ensures r.Success? ==> r.value == (if Get(data, key).Null? then "" else Trim(Get(data, key).s))
    ensures r.Success? ==> Stripped(r.value)
  {
    match Get(data, key)
    case Null =>
      Success("")
    case Str(s) =>
      TrimShape(s);
      Success(Trim(s))
    case _ => Failure(key + " must be a string")
  }

  /** `isinstance(value, int)`, which `True` and `False` pass as 1 and 0. */
  function RequireInt(data: Data, key: string): (r: Result<int>)
    ensures r.Success? <==> Get(data, key).Int? || Get(data, key).Bool?
    ensures Get(data, key).Int? ==> r == Success(Get(data, key).i)
  {
    match Get(data, key)
    case Int(i) => Success(i)
    case Bool(b) => Success(if b then 1 else 0)
    case _ => Failure(key + " must be an integer")
  }

  /** `float(value)` of an int, float or bool. */
  function RequireFloat(data: Data, key: string): (r: Result<real>)
    ensures r.Success? <==> Get(data, key).Int? || Get(data, key).Float? || Get(data, key).Bool?
    ensures Get(data, key).Float? ==> r == Success(Get(data, key).r)
    ensures Get(data, key).Int? ==> r == Success(Get(data, key).i as real)
  {
    match Get(data, key)
    case Int(i) => Success(i as real)
    case Float(x) => Success(x)
    case Bool(b) => Success(if b then 1.0 else 0.0)
    case _ => Failure(key + " must be a number")
  }

  function RequireBool(data: Data, key: string): (r: Result<bool>)
    ensures r.Success? <==> Get(data, key).Bool?
    ensures r.Success? ==> r.value == Get(data, key).b
  {
    var v := Get(data, key);
    if v.Bool? then Success(v.b) else Failure(key + " must be a boolean")
  }

  /** `data.get(key, [])` that must be a list of strings: a missing list is empty, a null is not. */
  function StrListOrEmpty(data: Data, key: string, error: string): (r: Result<seq<string>>)
    ensures key !in data ==> r == Success([])
    ensures key in data ==> (r.Success? <==> AsStrList(data[key]).Some?)
    ensures key in data && r.Success? ==> Some(r.value) == AsStrList(data[key])
    ensures r.Failure? ==> r.error == error
  {
    match AsStrList(GetOr(data, key, List([])))
    case Some(xs) => Success(xs)
    case None => Failure(error)
  }

  // ----- Parsing -----

  /**
    The shape parsing gives every string field: required strings are non-blank and stripped,
    optional ones stripped. List entries are kept as written.
  */
  predicate TenantGuardNormal(t: TenantGuard) {
    Filled(t.googleCustomerId) && Filled(t.googleDomain)
  }

  predicate RunNormal(r: RunConfig) {
    Filled(r.name) && Filled(r.resourcePrefix) && Filled(r.ouPath)
  }

  predicate IdentityNormal(i: IdentityConfig) {
    && Stripped(i.entra.userFilter)
    && Stripped(i.entra.groupFilter)
    && Filled(i.mapping.emailSource)
  }

  predicate LicensesNormal(l: LicenseConfig) {
    Stripped(l.productId) && Stripped(l.skuId)
  }

  predicate DrivesNormal(d: DrivesConfig) {
    Filled(d.sharedDrives.departmentsSource) && Filled(d.sharedDrives.naming)
  }

  predicate GenerationNormal(g: GenerationConfig) {
    Filled(g.mode) && Filled(g.cacheDir) && Filled(g.promptVersion)
  }

  predicate SharingNormal(s: SharingConfig) {
    && Filled(s.reviewerGroupEmail)
    && Filled(s.sharedDriveDefaults.departmentGroupRole)
    && Filled(s.sharedDriveDefaults.allHandsGroupRole)
  }

  predicate Normalized(b: Blueprint) {
    && TenantGuardNormal(b.tenantGuard) && RunNormal(b.run) && IdentityNormal(b.identity)
    && LicensesNormal(b.licenses) && DrivesNormal(b.drives) && GenerationNormal(b.docs.generation)
    && SharingNormal(b.sharing)
  }

  function ParseTenantGuard(data: Data): (r: Result<TenantGuard>)
    ensures r.Success? ==> TenantGuardNormal(r.value)
  {
    var customerId :- RequireStr(data, "google_customer_id");
    var domain :- RequireStr(data, "google_domain");
    Success(TenantGuard(customerId, domain))
  }

  function ParseRun(data: Data): (r: Result<RunConfig>)
    ensures r.Success? ==> RunNormal(r.value)
  {
    var name :- RequireStr(data, "name");
    var seed :- RequireInt(data, "seed");
    var prefix :- RequireStr(data, "resource_prefix");
    var ouPath :- RequireStr(data, "ou_path");
    Success(RunConfig(name, seed, prefix, ouPath))
  }

  function ParseIdentity(data: Data): (r: Result<IdentityConfig>)
    ensures r.Success? ==> IdentityNormal(r.value)
  {
    var entra :- RequireDict(data, "entra");
    var mapping :- RequireDict(data, "mapping");
    var userFilter :- OptionalStrOrEmpty(entra, "user_filter");
    var groupFilter :- OptionalStrOrEmpty(entra, "group_filter");
    var maxUsers :- RequireInt(entra, "max_users");
    var maxGroups :- RequireInt(entra, "max_groups");
    var emailSource :- RequireStr(mapping, "email_source");
    var domainMatch :- RequireBool(mapping, "require_domain_match");
    Success(IdentityConfig(EntraConfig(userFilter, groupFilter, maxUsers, maxGroups),
                           MappingConfig(emailSource, domainMatch)))
  }

  function ParseLicenses(data: Data): (r: Result<LicenseConfig>)
    ensures r.Success? ==> LicensesNormal(r.value)
  {
    var assign :- RequireBool(data, "assign");
    var productId :- OptionalStrOrEmpty(data, "product_id");
    var skuId :- OptionalStrOrEmpty(data, "sku_id");
    Success(LicenseConfig(assign, productId, skuId))
  }

  function ParseDrives(data: Data): (r: Result<DrivesConfig>)
    ensures r.Success? ==> DrivesNormal(r.value)
  {
    var shared :- RequireDict(data, "shared_drives");
    var myDrive :- RequireDict(data, "my_drive");
    var count :- RequireInt(shared, "count_per_department");
    var source :- RequireStr(shared, "departments_source");
    var naming :- RequireStr(shared, "naming");
    var enabled :- RequireBool(myDrive, "enabled");
    var perUser :- RequireInt(myDrive, "docs_per_user");
    Success(DrivesConfig(SharedDriveConfig(count, source, naming), MyDriveConfig(enabled, perUser)))
  }

  function ParseFolders(data: Data): Result<FoldersConfig> {
    var tree :- StrListOrEmpty(data, "shared_drive_tree", "folders.shared_drive_tree must be a list of strings");
    Success(FoldersConfig(tree))
  }

  function ParseGeneration(data: Data): (r: Result<GenerationConfig>)
    ensures r.Success? ==> GenerationNormal(r.value)
  {
    var mode :- RequireStr(data, "mode");
    var maxTokens :- RequireInt(data, "max_tokens");
    var temperature :- RequireFloat(data, "temperature");
    var cacheDir :- RequireStr(data, "cache_dir");
    var promptVersion :- RequireStr(data, "prompt_version");
    Success(GenerationConfig(mode, maxTokens, temperature, cacheDir, promptVersion))
  }

  function ParseDocs(data: Data): (r: Result<DocsConfig>)
    ensures r.Success? ==> GenerationNormal(r.value.generation)
  {
    var archetypes :- StrListOrEmpty(data, "archetypes", "docs.archetypes must be a list of strings");
    var generation :- RequireDict(data, "generation");
    var gen :- ParseGeneration(generation);
    Success(DocsConfig(archetypes, gen))
  }

  function ParseSharing(data: Data): (r: Result<SharingConfig>)
    ensures r.Success? ==> SharingNormal(r.value)
  {
    var defaults :- RequireDict(data, "shared_drive_defaults");
    var rules :- RequireDict(data, "doc_acl_rules");
    var reviewers :- RequireStr(data, "reviewer_group_email");
    var departmentRole :- RequireStr(defaults, "department_group_role");
    var allHandsRole :- RequireStr(defaults, "all_hands_group_role");
    var withManager :- RequireBool(rules, "my_drive_docs_share_with_manager");
    var toAllHands :- RequireBool(rules, "policy_docs_share_to_all_hands");
    Success(SharingConfig(reviewers, SharedDriveDefaults(departmentRole, allHandsRole),
                          DocAclRules(withManager, toAllHands)))
  }

  // ----- Validation -----

  /** A license id that is set and is not the template's placeholder. */
  predicate GivenId(id: string) {
    id != "" && id != "<required>"
  }

  /** The cross-field rules every loaded blueprint satisfies. */
  predicate Valid(b: Blueprint) {
    && b.identity.mapping.emailSource == "mail_or_upn"
    && (b.licenses.assign ==> GivenId(b.licenses.productId) && GivenId(b.licenses.skuId))
    && b.drives.sharedDrives.countPerDepartment >= 1
    && b.drives.myDrive.docsPerUser >= 0
    && b.docs.generation.mode == "openai_cached"
    && b.docs.generation.maxTokens > 0
    && 0.0 <= b.docs.generation.temperature <= 2.0
    && b.docs.archetypes != []
    && b.sharing.reviewerGroupEmail != ""
  }

  /** `_validate_blueprint`: the rules are checked in order and the first broken one is reported. */
  function Validate(b: Blueprint): (o: Outcome)
    ensures o.Pass? <==> Valid(b)
    ensures b.identity.mapping.emailSource != "mail_or_upn"
            ==> o == Fail("identity.mapping.email_source must be 'mail_or_upn'")
  {
    if b.identity.mapping.emailSource != "mail_or_upn" then
      Fail("identity.mapping.email_source must be 'mail_or_upn'")
    else if b.licenses.assign && !GivenId(b.licenses.productId) then
      Fail("licenses.product_id is required when licenses.assign is true")
    else if b.licenses.assign && !GivenId(b.licenses.skuId) then
      Fail("licenses.sku_id is required when licenses.assign is true")
    else if b.drives.sharedDrives.countPerDepartment < 1 then
      Fail("drives.shared_drives.count_per_department must be >= 1")
    else if b.drives.myDrive.docsPerUser < 0 then
      Fail("drives.my_drive.docs_per_user must be >= 0")
    else if b.docs.generation.mode != "openai_cached" then
      Fail("docs.generation.mode must be 'openai_cached'")
    else if b.docs.generation.maxTokens <= 0 then
      Fail("docs.generation.max_tokens must be > 0")
    else if !(0.0 <= b.docs.generation.temperature <= 2.0) then
      Fail("docs.generation.temperature must be between 0 and 2")
    else if b.docs.archetypes == [] then
      Fail("docs.archetypes must not be empty")
    else if b.sharing.reviewerGroupEmail == "" then
      Fail("sharing.reviewer_group_email is required")
    else Pass
  }

  /** `_parse_blueprint`: version first, then the sections in order, then the cross-field rules. */
  function ParseBlueprint(data: Data): (r: Result<Blueprint>)
    ensures r.Success? ==> r.value.version == 1 && Valid(r.value) && Normalized(r.value)
    ensures (Get(data, "version").Int? && Get(data, "version").i != 1) || Get(data, "version") == Bool(false)
            ==> r == Failure("Blueprint version must be 1")
  {
    var version :- RequireInt(data, "version");
    if version != 1 then Failure("Blueprint version must be 1")
    else
      var tenantGuard :- RequireDict(data, "tenant_guard");
      var run :- RequireDict(data, "run");
      var identity :- RequireDict(data, "identity");
      var licenses :- RequireDict(data, "licenses");
      var drives :- RequireDict(data, "drives");
      var folders :- RequireDict(data, "folders");
      var docs :- RequireDict(data, "docs");
      var sharing :- RequireDict(data, "sharing");
      var b := Assemble(version, tenantGuard, run, identity, licenses, drives, folders, docs, sharing);
      if b.Failure? then b
      else
        :- Validate(b.value);
        Success(b.value)
  }

  /** The constructor call of `_parse_blueprint`, field by field in argument order. */
  function Assemble(version: int, tenantGuard: Data, run: Data, identity: Data, licenses: Data,
                    drives: Data, folders: Data, docs: Data, sharing: Data): (r: Result<Blueprint>)
    ensures r.Success? ==> r.value.version == version && Normalized(r.value)
  {
    var tg :- ParseTenantGuard(tenantGuard);
    var rc :- ParseRun(run);
    var id :- ParseIdentity(identity);
    var lc :- ParseLicenses(licenses);
    var dc :- ParseDrives(drives);
    var fc :- ParseFolders(folders);
    var dcs :- ParseDocs(docs);
    var sc :- ParseSharing(sharing);
    Success(Blueprint(version, tg, rc, id, lc, dc, fc, dcs, sc))
  }

  /** `load_blueprint` after YAML decoding: the document must be a mapping. */
  function LoadBlueprint(doc: Value): (r: Result<Blueprint>)
    ensures !doc.Object? ==> r == Failure("Blueprint must be a YAML object")
    ensures doc.Object? ==> r == ParseBlueprint(doc.fields)
  {
    if doc.Object? then ParseBlueprint(doc.fields) else Failure("Blueprint must be a YAML object")
  }

  // ----- to_dict -----

  function TenantGuardToDict(t: TenantGuard): Value {
    Object(map["google_customer_id" := Str(t.googleCustomerId), "google_domain" := Str(t.googleDomain)])
  }

  function RunToDict(r: RunConfig): Value {
    Object(map["name" := Str(r.name), "seed" := Int(r.seed),
               "resource_prefix" := Str(r.resourcePrefix), "ou_path" := Str(r.ouPath)])
  }

  function IdentityToDict(i: IdentityConfig): Value {
    Object(map[
      "entra" := Object(map[
        "user_filter" := Str(i.entra.userFilter), "group_filter" := Str(i.entra.groupFilter),
        "max_users" := Int(i.entra.maxUsers), "max_groups" := Int(i.entra.maxGroups)]),
      "mapping" := Object(map[
        "email_source" := Str(i.mapping.emailSource),
        "require_domain_match" := Bool(i.mapping.requireDomainMatch)])])
  }

  function LicensesToDict(l: LicenseConfig): Value {
    Object(map["assign" := Bool(l.assign), "product_id" := Str(l.productId), "sku_id" := Str(l.skuId)])
  }

  function DrivesToDict(d: DrivesConfig): Value {
    Object(map[
      "shared_drives" := Object(map[
        "count_per_department" := Int(d.sharedDrives.countPerDepartment),
        "departments_source" := Str(d.sharedDrives.departmentsSource),
        "naming" := Str(d.sharedDrives.naming)]),
      "my_drive" := Object(map[
        "enabled" := Bool(d.myDrive.enabled), "docs_per_user" := Int(d.myDrive.docsPerUser)])])
  }

  function FoldersToDict(f: FoldersConfig): Value {
    Object(map["shared_drive_tree" := StrList(f.sharedDriveTree)])
  }

  function GenerationToDict(g: GenerationConfig): Value {
    Object(map[
      "mode" := Str(g.mode), "max_tokens" := Int(g.maxTokens), "temperature" := Float(g.temperature),
      "cache_dir" := Str(g.cacheDir), "prompt_version" := Str(g.promptVersion)])
  }

  function DocsToDict(d: DocsConfig): Value {
    Object(map["archetypes" := StrList(d.archetypes), "generation" := GenerationToDict(d.generation)])
  }

  function SharingToDict(s: SharingConfig): Value {
    Object(map[
      "reviewer_group_email" := Str(s.reviewerGroupEmail),
      "shared_drive_defaults" := Object(map[
        "department_group_role" := Str(s.sharedDriveDefaults.departmentGroupRole),
        "all_hands_group_role" := Str(s.sharedDriveDefaults.allHandsGroupRole)]),
      "doc_acl_rules" := Object(map[
        "my_drive_docs_share_with_manager" := Bool(s.docAclRules.myDriveDocsShareWithManager),
        "policy_docs_share_to_all_hands" := Bool(s.docAclRules.policyDocsShareToAllHands)])])
  }

  /** `Blueprint.to_dict`: one key per field, nested as in the YAML file. */
  function ToDict(b: Blueprint): (v: Value)
    ensures v.Object?
    ensures v.fields.Keys == {"version", "tenant_guard", "run", "identity", "licenses", "drives",
                              "folders", "docs", "sharing"}
  {
    Object(map[
      "version" := Int(b.version),
      "tenant_guard" := TenantGuardToDict(b.tenantGuard),
      "run" := RunToDict(b.run),
      "identity" := IdentityToDict(b.identity),
      "licenses" := LicensesToDict(b.licenses),
      "drives" := DrivesToDict(b.drives),
      "folders" := FoldersToDict(b.folders),
      "docs" := DocsToDict(b.docs),
      "sharing" := SharingToDict(b.sharing)])
  }

  // ----- Round trip -----

  lemma TenantGuardRoundTrip(t: TenantGuard)
    requires TenantGuardNormal(t)
    ensures ParseTenantGuard(TenantGuardToDict(t).fields) == Success(t)
  {
    var d := TenantGuardToDict(t).fields;
    assert Get(d, "google_customer_id") == Str(t.googleCustomerId);
    assert Get(d, "google_domain") == Str(t.googleDomain);
  }

  lemma RunRoundTrip(r: RunConfig)
    requires RunNormal(r)
    ensures ParseRun(RunToDict(r).fields) == Success(r)
  {
    var d := RunToDict(r).fields;
    assert Get(d, "name") == Str(r.name);
    assert Get(d, "seed") == Int(r.seed);
    assert Get(d, "resource_prefix") == Str(r.resourcePrefix);
    assert Get(d, "ou_path") == Str(r.ouPath);
  }

  lemma IdentityRoundTrip(i: IdentityConfig)
    requires IdentityNormal(i)
    ensures ParseIdentity(IdentityToDict(i).fields) == Success(i)
  {
    var d := IdentityToDict(i).fields;
    var entra := Get(d, "entra").fields;
    var mapping := Get(d, "mapping").fields;
    assert Get(entra, "user_filter") == Str(i.entra.userFilter);
    assert Get(entra, "group_filter") == Str(i.entra.groupFilter);
    assert Get(entra, "max_users") == Int(i.entra.maxUsers);
    assert Get(entra, "max_groups") == Int(i.entra.maxGroups);
    assert Get(mapping, "email_source") == Str(i.mapping.emailSource);
    assert Get(mapping, "require_domain_match") == Bool(i.mapping.requireDomainMatch);
  }

  lemma LicensesRoundTrip(l: LicenseConfig)
    requires LicensesNormal(l)
    ensures ParseLicenses(LicensesToDict(l).fields) == Success(l)
  {
    var d := LicensesToDict(l).fields;
    assert Get(d, "assign") == Bool(l.assign);
    assert Get(d, "product_id") == Str(l.productId);
    assert Get(d, "sku_id") == Str(l.skuId);
  }

  lemma DrivesRoundTrip(d: DrivesConfig)
    requires DrivesNormal(d)
    ensures ParseDrives(DrivesToDict(d).fields) == Success(d)
  {
    var m := DrivesToDict(d).fields;
    var shared := Get(m, "shared_drives").fields;
    var myDrive := Get(m, "my_drive").fields;
    assert Get(shared, "count_per_department") == Int(d.sharedDrives.countPerDepartment);
    assert Get(shared, "departments_source") == Str(d.sharedDrives.departmentsSource);
    assert Get(shared, "naming") == Str(d.sharedDrives.naming);
    assert Get(myDrive, "enabled") == Bool(d.myDrive.enabled);
    assert Get(myDrive, "docs_per_user") == Int(d.myDrive.docsPerUser);
  }

  lemma FoldersRoundTrip(f: FoldersConfig)
    ensures ParseFolders(FoldersToDict(f).fields) == Success(f)
  {
    AsStrListOfStrList(f.sharedDriveTree);
    assert GetOr(FoldersToDict(f).fields, "shared_drive_tree", List([])) == StrList(f.sharedDriveTree);
  }

  lemma DocsRoundTrip(d: DocsConfig)
    requires GenerationNormal(d.generation)
    ensures ParseDocs(DocsToDict(d).fields) == Success(d)
  {
    AsStrListOfStrList(d.archetypes);
    GenerationRoundTrip(d.generation);
    var m := DocsToDict(d).fields;
    assert Get(m, "generation") == GenerationToDict(d.generation);
    assert GetOr(m, "archetypes", List([])) == StrList(d.archetypes);
  }

  lemma GenerationRoundTrip(g: GenerationConfig)
    requires GenerationNormal(g)
    ensures ParseGeneration(GenerationToDict(g).fields) == Success(g)
  {
    var d := GenerationToDict(g).fields;
    assert Get(d, "mode") == Str(g.mode);
    assert Get(d, "max_tokens") == Int(g.maxTokens);
    assert Get(d, "temperature") == Float(g.temperature);
    assert Get(d, "cache_dir") == Str(g.cacheDir);
    assert Get(d, "prompt_version") == Str(g.promptVersion);
  }

  lemma SharingRoundTrip(s: SharingConfig)
    requires SharingNormal(s)
    ensures ParseSharing(SharingToDict(s).fields) == Success(s)
  {
    var d := SharingToDict(s).fields;
    var defaults := Get(d, "shared_drive_defaults").fields;
    var rules := Get(d, "doc_acl_rules").fields;
    assert Get(d, "reviewer_group_email") == Str(s.reviewerGroupEmail);
    assert Get(defaults, "department_group_role") == Str(s.sharedDriveDefaults.departmentGroupRole);
    assert Get(defaults, "all_hands_group_role") == Str(s.sharedDriveDefaults.allHandsGroupRole);
    assert Get(rules, "my_drive_docs_share_with_manager") == Bool(s.docAclRules.myDriveDocsShareWithManager);
    assert Get(rules, "policy_docs_share_to_all_hands") == Bool(s.docAclRules.policyDocsShareToAllHands);
  }

  /** Each top-level key of `to_dict` holds its section. */
  lemma ToDictFields(b: Blueprint)
    ensures var d := ToDict(b).fields;
      && Get(d, "version") == Int(b.version)
      && Get(d, "tenant_guard") == TenantGuardToDict(b.tenantGuard)
      && Get(d, "run") == RunToDict(b.run)
      && Get(d, "identity") == IdentityToDict(b.identity)
      && Get(d, "licenses") == LicensesToDict(b.licenses)
      && Get(d, "drives") == DrivesToDict(b.drives)
      && Get(d, "folders") == FoldersToDict(b.folders)
      && Get(d, "docs") == DocsToDict(b.docs)
      && Get(d, "sharing") == SharingToDict(b.sharing)
  {
  }

  /**
    Writing a normalized version-1 blueprint and parsing it back gives the blueprint again when
    it is valid, and the first broken rule's error otherwise.
  */
  lemma ParseToDict(b: Blueprint)
    requires b.version == 1 && Normalized(b)
    ensures ParseBlueprint(ToDict(b).fields)
            == (if Valid(b) then Success(b) else Failure(Validate(b).error))
  {
    ToDictFields(b);
    TenantGuardRoundTrip(b.tenantGuard);
    RunRoundTrip(b.run);
    IdentityRoundTrip(b.identity);
    LicensesRoundTrip(b.licenses);
    DrivesRoundTrip(b.drives);
    FoldersRoundTrip(b.folders);
    DocsRoundTrip(b.docs);
    SharingRoundTrip(b.sharing);
    assert Assemble(1, TenantGuardToDict(b.tenantGuard).fields, RunToDict(b.run).fields,
                    IdentityToDict(b.identity).fields, LicensesToDict(b.licenses).fields,
                    DrivesToDict(b.drives).fields, FoldersToDict(b.folders).fields,
                    DocsToDict(b.docs).fields, SharingToDict(b.sharing).fields) == Success(b);
  }

  /** Every blueprint the loader returns survives `to_dict` and a second load unchanged. */
  lemma RoundTrip(b: Blueprint)
    requires b.version == 1 && Normalized(b) && Valid(b)
    ensures ParseBlueprint(ToDict(b).fields) == Success(b)
  {
    ParseToDict(b);
  }

  /** Loading is idempotent: what one load returns, a dump and a reload return again. */
  lemma ReloadIsStable(data: Data)
    requires ParseBlueprint(data).Success?
    ensures ParseBlueprint(ToDict(ParseBlueprint(data).value).fields) == ParseBlueprint(data)
  {
    RoundTrip(ParseBlueprint(data).value);
  }

  // ----- The default blueprint -----

  const DefaultArchetypes: seq<string> :=
    ["policy", "prd", "runbook", "incident_report", "meeting_notes", "onboarding", "qbr"]

  const DefaultTree: seq<string> :=
    ["00 - Admin", "01 - Projects/{department}", "02 - Process & Policy", "03 - Meeting Notes/{year}"]

  const DefaultTenantGuard := TenantGuard("C0123abc", "company.com")

  const DefaultRun := RunConfig("northwind-synth", 1337, "[synth:northwind]", "/Synthetic/Northwind")

  const DefaultIdentity :=
    IdentityConfig(EntraConfig("accountEnabled eq true", "", 100, 50), MappingConfig("mail_or_upn", true))

  const DefaultDrives := DrivesConfig(
    SharedDriveConfig(1, "entra.department", "{prefix} {department} Shared Drive"), MyDriveConfig(true, 5))

  const DefaultGeneration := GenerationConfig("openai_cached", 1800, 0.4, "./data/llm_cache", "v1")

  const DefaultSharing := SharingConfig(
    "synth-reviewers@company.com", SharedDriveDefaults("organizer", "reader"), DocAclRules(true, true))

  /** `default_blueprint()`: the template `init` writes, with placeholder license ids. */
  const DefaultBlueprint := Blueprint(
    1, DefaultTenantGuard, DefaultRun, DefaultIdentity,
    LicenseConfig(true, "<required>", "<required>"),
    DefaultDrives,
    FoldersConfig(DefaultTree),
    DocsConfig(DefaultArchetypes, DefaultGeneration),
    DefaultSharing)

  lemma DefaultSectionsNormal()
    ensures TenantGuardNormal(DefaultTenantGuard) && RunNormal(DefaultRun)
    ensures IdentityNormal(DefaultIdentity) && DrivesNormal(DefaultDrives)
  {
  }

  lemma DefaultNormalized()
    ensures Normalized(DefaultBlueprint)
  {
    DefaultSectionsNormal();
    assert GenerationNormal(DefaultGeneration);
    assert SharingNormal(DefaultSharing);
  }

  /** The written default only loads once real license ids replace the placeholders. */
  lemma DefaultBlueprintRejected()
    ensures ParseBlueprint(ToDict(DefaultBlueprint).fields)
            == Failure("licenses.product_id is required when licenses.assign is true")
  {
    var b := DefaultBlueprint;
    assert b.identity.mapping.emailSource == "mail_or_upn";
    assert b.licenses.assign && !GivenId(b.licenses.productId);
    assert Validate(b) == Fail("licenses.product_id is required when licenses.assign is true");
    DefaultNormalized();
    ParseToDict(b);
  }

  /** With real license ids filled in, the default loads back as written. */
  lemma DefaultWithLicenseLoads(productId: string, skuId: string)
    requires GivenId(productId) && GivenId(skuId)
    requires Stripped(productId) && Stripped(skuId)
    ensures var b := DefaultBlueprint.(licenses := LicenseConfig(true, productId, skuId));
      ParseBlueprint(ToDict(b).fields) == Success(b)
  {
    DefaultNormalized();
    RoundTrip(DefaultBlueprint.(licenses := LicenseConfig(true, productId, skuId)));
  }
}
