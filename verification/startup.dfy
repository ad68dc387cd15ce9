/** Step 6 of the server's start-up: import the seed generator from the
    organisations module and run the statements it generates. The import
    pulls in the organisations module, which itself imports `OrgType`,
    `SecurityProfile` and `WorkspaceMode` from the schemas module; an
    `ImportError` anywhere in that chain skips the whole seed. */
module Startup {
  import opened Strings
  import opened Schemas
  import opened Orgs

  /** `from m import a, b, …` raises `ImportError` exactly when `m` lacks
      one of the names. */
  function ImportFails(defined: set<string>, names: seq<string>): (r: bool)
    ensures r <==> exists i :: 0 <= i < |names| && names[i] !in defined
    decreases |names|
  {
    if |names| == 0 then false
    else
      var rest := ImportFails(defined, names[1..]);
      assert forall i :: 1 <= i < |names| ==> names[i] == names[1..][i - 1];
      names[0] !in defined || rest
  }

  /** The names the organisations module imports from the schemas module. */
  const OrgsImports: seq<string> := ["OrgType", "SecurityProfile", "WorkspaceMode"]

  /** The seed step over the tables, given the names the schemas module
      defines. When the import fails the tables are left as they were;
      otherwise the generated seed runs, `None` standing for a statement
      that does not read back, as in `ApplySeed`. */
  function SeedAtStartup(schemaNames: set<string>, prompts: map<OrgKind, string>, db: Db): (r: Option<Db>)
    ensures ImportFails(schemaNames, OrgsImports) ==> r == Some(db)
    ensures !ImportFails(schemaNames, OrgsImports) ==> r == ApplySeed(db, GenerateOrgSeed(OrgConfigs, prompts))
  {
    if ImportFails(schemaNames, OrgsImports) then Some(db)
    else ApplySeed(db, GenerateOrgSeed(OrgConfigs, prompts))
  }

  /** As written, the schemas module defines no `OrgType`: the import fails,
      the seed is skipped, and tables without organisations stay without
      them. */
  lemma SeedSkippedAsWritten(prompts: map<OrgKind, string>, db: Db)
    ensures ImportFails(ModuleNames, OrgsImports)
    ensures SeedAtStartup(ModuleNames, prompts, db) == Some(db)
    ensures db.orgs == map[] ==> SeedAtStartup(ModuleNames, prompts, db).value.orgs == map[]
  {
    assert OrgsImports[0] == "OrgType";
    assert OrgsImports[0] !in ModuleNames;
  }

  /** With an `OrgType` enum added to the schemas module the import resolves:
      the seed runs and every shipped organisation has its row, whatever the
      tables held before. */
  lemma SeedRunsWithOrgType(prompts: map<OrgKind, string>, db: Db)
    ensures !ImportFails(ModuleNames + {"OrgType"}, OrgsImports)
    ensures SeedAtStartup(ModuleNames + {"OrgType"}, prompts, db).Some?
    ensures forall o :: 0 <= o < |OrgConfigs| ==>
              OrgConfigs[o].1.id in SeedAtStartup(ModuleNames + {"OrgType"}, prompts, db).value.orgs
  {
    ImportsResolve();
    ShippedOrgRows(prompts, db);
    assert SeedAtStartup(ModuleNames + {"OrgType"}, prompts, db) == ApplySeed(db, GenerateOrgSeed(OrgConfigs, prompts));
  }

  lemma ShippedOrgRows(prompts: map<OrgKind, string>, db: Db)
    ensures ApplySeed(db, GenerateOrgSeed(OrgConfigs, prompts)).Some?
    ensures forall o :: 0 <= o < |OrgConfigs| ==>
              OrgConfigs[o].1.id in ApplySeed(db, GenerateOrgSeed(OrgConfigs, prompts)).value.orgs
  {
    ShippedSound();
    ShippedDistinctIds();
    SeedOrgRows(OrgConfigs, prompts, db);
  }

  lemma SeedOrgRows(reg: Registry, prompts: map<OrgKind, string>, db: Db)
    requires WellFormed(reg) && DistinctIds(reg)
    ensures ApplySeed(db, GenerateOrgSeed(reg, prompts)).Some?
    ensures forall o :: 0 <= o < |reg| ==> reg[o].1.id in ApplySeed(db, GenerateOrgSeed(reg, prompts)).value.orgs
  {
    SeedReflected(reg, prompts, db);
    forall o | 0 <= o < |reg|
      ensures reg[o].1.id in ApplySeed(db, GenerateOrgSeed(reg, prompts)).value.orgs
    {
      SeedOrgRow(reg, prompts, db, o);
    }
  }

  lemma ImportsResolve()
    ensures !ImportFails(ModuleNames + {"OrgType"}, OrgsImports)
  {
    var names := ModuleNames + {"OrgType"};
    assert "OrgType" in names && "SecurityProfile" in names && "WorkspaceMode" in names;
    assert forall i :: 0 <= i < |OrgsImports| ==> OrgsImports[i] in names;
  }
}
