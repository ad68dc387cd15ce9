/** The organisation registry and the SQL seed generated from it: one
    upsert per organisation, one per permitted tool and one insert per
    denial, applied to the `orgs`, `org_tools` and `org_denials` tables. */
module Orgs {
  import opened Strings
  import opened Schemas
  import opened SqlLiteral

  /** The organisation types. Their string values are not part of this
      model; the rows store the kind itself. */
  datatype OrgKind = Dev | Ops | Research | Studio | Orchestrator

  datatype Workspace = Workspace(path: string, mode: WorkspaceMode, name: string)

  /** A `(denial_type, pattern, reason)` triple. */
  datatype Denial = Denial(denialType: string, pattern: string, reason: string)

  /** One entry of `ORG_CONFIGS`. Optional keys are `None` when absent. */
  datatype OrgConfig = OrgConfig(
    id: string,
    name: string,
    description: string,
    modelPrimary: string,
    modelSecondary: string,
    securityProfile: SecurityProfile,
    workspaces: seq<Workspace>,
    tools: seq<string>,
    toolsRequiringApproval: seq<string>,
    shellAllowlist: Option<seq<string>>,
    searxngEndpoint: Option<string>,
    denials: seq<Denial>)

  /** A dictionary keyed by organisation kind, in insertion order. */
  type Registry = seq<(OrgKind, OrgConfig)>

  /** No kind has two entries, as in a Python dict. */
  predicate DistinctKinds(reg: Registry) {
    forall i, j :: 0 <= i < j < |reg| ==> reg[i].0 != reg[j].0
  }

  // ---------------------------------------------------------------------------
  // Lookups
  // ---------------------------------------------------------------------------

  /** `ORG_CONFIGS.get(kind, {})`: `None` stands for the empty dict. */
  function GetOrgConfig(reg: Registry, k: OrgKind): (r: Option<OrgConfig>)
    ensures r.None? <==> forall i :: 0 <= i < |reg| ==> reg[i].0 != k
    ensures r.Some? ==> exists i :: 0 <= i < |reg| && reg[i] == (k, r.value)
    ensures r.Some? && DistinctKinds(reg) ==> forall i :: 0 <= i < |reg| && reg[i].0 == k ==> reg[i].1 == r.value
    decreases |reg|
  {
    if |reg| == 0 then None
    else if reg[0].0 == k then Some(reg[0].1)
    else
      var r := GetOrgConfig(reg[1..], k);
      assert forall i :: 1 <= i < |reg| ==> reg[i] == reg[1..][i - 1];
      r
  }

  /** `ORG_SYSTEM_PROMPTS.get(kind, "")`; the prompt texts are a parameter. */
  function GetOrgPrompt(prompts: map<OrgKind, string>, k: OrgKind): (r: string)
    ensures k !in prompts ==> r == ""
    ensures k in prompts ==> r == prompts[k]
  {
    if k in prompts then prompts[k] else ""
  }

  /** `get_all_org_ids()`: the ids in registry order. */
  function GetAllOrgIds(reg: Registry): (ids: seq<string>)
    ensures |ids| == |reg|
    ensures forall i :: 0 <= i < |reg| ==> ids[i] == reg[i].1.id
    decreases |reg|
  {
    if |reg| == 0 then [] else [reg[0].1.id] + GetAllOrgIds(reg[1..])
  }

  // ---------------------------------------------------------------------------
  // The seed statements
  // ---------------------------------------------------------------------------

  /** The seed's statements, each with the text spliced between its quotes:
      `INSERT INTO orgs … ON CONFLICT (id) DO UPDATE`, `INSERT INTO org_tools
      … ON CONFLICT … DO UPDATE` and `INSERT INTO org_denials … ON CONFLICT
      … DO NOTHING`. The approval flag is the keyword TRUE or FALSE. */
  datatype Stmt =
    | OrgUpsert(id: string, name: string, kind: OrgKind, description: string,
                modelPrimary: string, modelSecondary: string, prompt: string)
    | ToolUpsert(orgId: string, tool: string, requiresApproval: bool)
    | DenialInsert(orgId: string, denialType: string, pattern: string, reason: string)

  /** A text as the generator splices it: quotes doubled, or raw. With
      `escaped` false this is the value itself, which gives the statements
      as the database reads them. */
  function Field(s: string, escaped: bool): string {
    if escaped then Escape(s, '\'') else s
  }

  /** One `org_tools` upsert per listed tool, in order, approval required
      exactly for the tools listed as requiring it. */
  function ToolStatements(id: string, tools: seq<string>, approvals: seq<string>): (r: seq<Stmt>)
    ensures |r| == |tools|
    ensures forall i :: 0 <= i < |tools| ==> r[i] == ToolUpsert(id, tools[i], tools[i] in approvals)
    decreases |tools|
  {
    if |tools| == 0 then []
    else [ToolUpsert(id, tools[0], tools[0] in approvals)] + ToolStatements(id, tools[1..], approvals)
  }

  /** One `org_denials` insert per denial triple, in order; only the
      reason is escaped. */
  function DenialStatements(id: string, denials: seq<Denial>, escaped: bool): (r: seq<Stmt>)
    ensures |r| == |denials|
    ensures forall i :: 0 <= i < |denials| ==>
              r[i] == DenialInsert(id, denials[i].denialType, denials[i].pattern,
                                   Field(denials[i].reason, escaped))
    decreases |denials|
  {
    if |denials| == 0 then []
    else [DenialInsert(id, denials[0].denialType, denials[0].pattern, Field(denials[0].reason, escaped))]
         + DenialStatements(id, denials[1..], escaped)
  }

  /** The statements of one organisation: its own upsert, then its tools,
      then its denials. Description and prompt are escaped, the other texts
      are spliced raw. */
  function OrgStatements(k: OrgKind, c: OrgConfig, prompt: string, escaped: bool): (r: seq<Stmt>)
    ensures |r| == 1 + |c.tools| + |c.denials|
  {
    [OrgUpsert(c.id, c.name, k, Field(c.description, escaped), c.modelPrimary, c.modelSecondary,
               Field(prompt, escaped))]
    + ToolStatements(c.id, c.tools, c.toolsRequiringApproval)
    + DenialStatements(c.id, c.denials, escaped)
  }

  function SeedStatements(reg: Registry, prompts: map<OrgKind, string>, escaped: bool): seq<Stmt>
    decreases |reg|
  {
    if |reg| == 0 then []
    else OrgStatements(reg[0].0, reg[0].1, GetOrgPrompt(prompts, reg[0].0), escaped)
         + SeedStatements(reg[1..], prompts, escaped)
  }

  /** `generate_org_seed_sql()`, as the statements it renders. */
  function GenerateOrgSeed(reg: Registry, prompts: map<OrgKind, string>): seq<Stmt> {
    SeedStatements(reg, prompts, true)
  }

  // ---------------------------------------------------------------------------
  // Reading the statements back
  // ---------------------------------------------------------------------------

  /** The value of a single-quoted SQL literal with body `body`. */
  function Lit(body: string): Option<string> {
    Unescape(body, '\'')
  }

  /** The statement as the database parses it. `None` when a text holds a
      lone quote: the statement is then not the insert it was generated as,
      and its effect is not modelled. */
  function Decode(s: Stmt): Option<Stmt> {
    match s
    case OrgUpsert(id, n, k, d, mp, ms, p) =>
      if Lit(id).Some? && Lit(n).Some? && Lit(d).Some? && Lit(mp).Some? && Lit(ms).Some? && Lit(p).Some?
      then Some(OrgUpsert(Lit(id).value, Lit(n).value, k, Lit(d).value, Lit(mp).value,
                          Lit(ms).value, Lit(p).value))
      else None
    case ToolUpsert(id, t, r) =>
      if Lit(id).Some? && Lit(t).Some? then Some(ToolUpsert(Lit(id).value, Lit(t).value, r)) else None
    case DenialInsert(id, dt, pat, reason) =>
      if Lit(id).Some? && Lit(dt).Some? && Lit(pat).Some? && Lit(reason).Some?
      then Some(DenialInsert(Lit(id).value, Lit(dt).value, Lit(pat).value, Lit(reason).value))
      else None
  }

  /** Every element mapped by a partial function, or `None` as soon as one
      is not. */
  function MapAll<T, U>(f: T -> Option<U>, xs: seq<T>): (r: Option<seq<U>>)
    ensures r.Some? ==> |r.value| == |xs|
    decreases |xs|
  {
    if |xs| == 0 then Some([])
    else if f(xs[0]).Some? && MapAll(f, xs[1..]).Some? then Some([f(xs[0]).value] + MapAll(f, xs[1..]).value)
    else None
  }

  function DecodeAll(stmts: seq<Stmt>): Option<seq<Stmt>> {
    MapAll(Decode, stmts)
  }

  /** An escaped field reads back as the text; a raw one does so exactly
      when it holds no quote. */
  lemma FieldReadsBack(s: string, escaped: bool)
    requires escaped || '\'' !in s
    ensures Lit(Field(s, escaped)) == Some(s)
  {
    if escaped {
      UnescapeEscape(s, '\'');
    } else {
      QuoteFreeLiteral(s, '\'');
    }
  }

  /** A raw quote-free text followed by a quote that is not doubled breaks
      the literal it is spliced into: the statement no longer reads back. */
  lemma {:induction false} RawQuoteBreaksLiteral(a: string, b: string)
    requires '\'' !in a
    requires b == [] || b[0] != '\''
    ensures Lit(a + "'" + b) == None
    decreases |a|
  {
    var s := a + "'" + b;
    if |a| == 0 {
      assert s == ['\''] + b;
      assert s[0] == '\'' && (|s| < 2 || s[1] != '\'');
    } else {
      assert s[0] == a[0] && s[1..] == a[1..] + "'" + b;
      RawQuoteBreaksLiteral(a[1..], b);
    }
  }

  lemma {:induction false} MapAllAppend<T, U>(f: T -> Option<U>, a: seq<T>, b: seq<T>)
    requires MapAll(f, a).Some? && MapAll(f, b).Some?
    ensures MapAll(f, a + b) == Some(MapAll(f, a).value + MapAll(f, b).value)
    decreases |a|
  {
    if |a| == 0 {
      assert a + b == b;
      assert [] + MapAll(f, b).value == MapAll(f, b).value;
    } else {
      var ab := a + b;
      assert ab[0] == a[0] && ab[1..] == a[1..] + b;
      var v := f(a[0]).value;
      var x, y := MapAll(f, a[1..]).value, MapAll(f, b).value;
      MapAllAppend(f, a[1..], b);
      assert MapAll(f, ab) == Some([v] + (x + y));
      assert [v] + (x + y) == ([v] + x) + y;
    }
  }

  lemma DecodeAllAppend(a: seq<Stmt>, b: seq<Stmt>)
    requires DecodeAll(a).Some? && DecodeAll(b).Some?
    ensures DecodeAll(a + b) == Some(DecodeAll(a).value + DecodeAll(b).value)
  {
    MapAllAppend(Decode, a, b);
  }

  // ---------------------------------------------------------------------------
  // The tables and the effect of one statement
  // ---------------------------------------------------------------------------

  /** An `orgs` row; `created_at` is left out. */
  datatype OrgRow = OrgRow(name: string, kind: OrgKind, description: string,
                           modelPrimary: string, modelSecondary: string,
                           systemPrompt: string, enabled: bool)

  datatype ToolRow = ToolRow(enabled: bool, requiresApproval: bool)

  /** The three tables, keyed by their primary keys; a denial maps to its
      reason. */
  datatype Db = Db(orgs: map<string, OrgRow>,
                   tools: map<(string, string), ToolRow>,
                   denials: map<(string, string, string), string>)

  /** Name, kind, description and the enabled flag: what an org upsert on
      an existing id leaves alone. */
  predicate SameIdentity(a: OrgRow, b: OrgRow) {
    a.name == b.name && a.kind == b.kind && a.description == b.description && a.enabled == b.enabled
  }

  /** Two tables hold the same row, or both none, under key `k`. */
  predicate SameAt<K, V(==)>(a: map<K, V>, b: map<K, V>, k: K) {
    (k in a <==> k in b) && (k in a ==> a[k] == b[k])
  }

  /** What a statement leaves true of the tables: an upsert's non-key
      values are in the row of its key, an insert's key is present. */
  predicate Reflected(db: Db, v: Stmt) {
    match v
    case OrgUpsert(id, _, _, _, mp, ms, p) =>
      id in db.orgs && db.orgs[id].modelPrimary == mp && db.orgs[id].modelSecondary == ms
      && db.orgs[id].systemPrompt == p
    case ToolUpsert(id, t, r) => (id, t) in db.tools && db.tools[(id, t)] == ToolRow(true, r)
    case DenialInsert(id, dt, pat, _) => (id, dt, pat) in db.denials
  }

  /** Executes a statement as read by the database. An org upsert on an
      existing id updates the models and the prompt only; a new org is
      enabled. A tool upsert sets the row. A denial insert on an existing
      key does nothing. */
  function Exec(db: Db, v: Stmt): (r: Db)
    ensures Reflected(r, v)
    ensures forall key :: key in db.denials ==> key in r.denials && r.denials[key] == db.denials[key]
    ensures forall id :: id in db.orgs ==> id in r.orgs && SameIdentity(r.orgs[id], db.orgs[id])
    ensures v.OrgUpsert? ==> r.tools == db.tools && r.denials == db.denials
    ensures v.OrgUpsert? ==> forall id :: id != v.id ==> SameAt(r.orgs, db.orgs, id)
    ensures v.OrgUpsert? && v.id !in db.orgs ==>
              r.orgs[v.id] == OrgRow(v.name, v.kind, v.description, v.modelPrimary, v.modelSecondary,
                                     v.prompt, true)
    ensures v.ToolUpsert? ==> r.orgs == db.orgs && r.denials == db.denials
    ensures v.ToolUpsert? ==> forall key :: key != (v.orgId, v.tool) ==> SameAt(r.tools, db.tools, key)
    ensures v.DenialInsert? ==> r.orgs == db.orgs && r.tools == db.tools
    ensures v.DenialInsert? ==>
              forall key :: key != (v.orgId, v.denialType, v.pattern) ==> SameAt(r.denials, db.denials, key)
    ensures v.DenialInsert? && (v.orgId, v.denialType, v.pattern) !in db.denials ==>
              r.denials[(v.orgId, v.denialType, v.pattern)] == v.reason
  {
    match v
    case OrgUpsert(id, n, k, d, mp, ms, p) =>
      if id in db.orgs then
        db.(orgs := db.orgs[id := db.orgs[id].(modelPrimary := mp, modelSecondary := ms, systemPrompt := p)])
      else db.(orgs := db.orgs[id := OrgRow(n, k, d, mp, ms, p, true)])
    case ToolUpsert(id, t, r) => db.(tools := db.tools[(id, t) := ToolRow(true, r)])
    case DenialInsert(id, dt, pat, reason) =>
      if (id, dt, pat) in db.denials then db else db.(denials := db.denials[(id, dt, pat) := reason])
  }

  /** A statement is a no-op exactly on tables that already reflect it. */
  lemma ReflectedIffNoOp(db: Db, v: Stmt)
    ensures Reflected(db, v) <==> Exec(db, v) == db
  {
    match v
    case OrgUpsert(id, _, _, _, _, _, _) =>
      if Exec(db, v) == db {
        assert Exec(db, v).orgs == db.orgs;
      }
    case ToolUpsert(id, t, _) =>
      if Exec(db, v) == db {
        assert Exec(db, v).tools == db.tools;
      }
    case DenialInsert(_, _, _, _) =>
  }

  /** Two statements agree when executing either cannot undo the other:
      upserts on one key carry the same values. */
  predicate Agree(u: Stmt, v: Stmt) {
    match (u, v)
    case (OrgUpsert(i1, _, _, _, a1, b1, p1), OrgUpsert(i2, _, _, _, a2, b2, p2)) =>
      i1 != i2 || (a1 == a2 && b1 == b2 && p1 == p2)
    case (ToolUpsert(i1, t1, r1), ToolUpsert(i2, t2, r2)) =>
      i1 != i2 || t1 != t2 || r1 == r2
    case _ => true
  }

  /** Executing a statement keeps every agreeing statement reflected. */
  lemma ExecKeeps(db: Db, v: Stmt, u: Stmt)
    requires Reflected(db, u) && Agree(u, v)
    ensures Reflected(Exec(db, v), u)
  {
  }

  // ---------------------------------------------------------------------------
  // Running a list of statements
  // ---------------------------------------------------------------------------

  function ExecAll(db: Db, vs: seq<Stmt>): Db
    decreases |vs|
  {
    if |vs| == 0 then db else ExecAll(Exec(db, vs[0]), vs[1..])
  }

  /** Running the generated statements: `None` when one of them does not
      read back as the statement it was generated as. */
  function ApplySeed(db: Db, stmts: seq<Stmt>): Option<Db> {
    match DecodeAll(stmts)
    case None => None
    case Some(vs) => Some(ExecAll(db, vs))
  }

  predicate Consistent(vs: seq<Stmt>) {
    forall u, v :: u in vs && v in vs ==> Agree(u, v)
  }

  lemma {:induction false} ExecAllKeeps(db: Db, vs: seq<Stmt>, u: Stmt)
    requires Reflected(db, u)
    requires forall v :: v in vs ==> Agree(u, v)
    ensures Reflected(ExecAll(db, vs), u)
    decreases |vs|
  {
    if |vs| > 0 {
      ExecKeeps(db, vs[0], u);
      assert forall v :: v in vs[1..] ==> v in vs;
      ExecAllKeeps(Exec(db, vs[0]), vs[1..], u);
    }
  }

  /** After a consistent list has run, the tables reflect all of it. */
  lemma {:induction false} ExecAllReflects(db: Db, vs: seq<Stmt>)
    requires Consistent(vs)
    ensures forall v :: v in vs ==> Reflected(ExecAll(db, vs), v)
    decreases |vs|
  {
    if |vs| > 0 {
      var rest := vs[1..];
      assert forall v :: v in rest ==> v in vs;
      ExecAllReflects(Exec(db, vs[0]), rest);
      ExecAllKeeps(Exec(db, vs[0]), rest, vs[0]);
      assert forall v :: v in vs ==> v == vs[0] || v in rest;
    }
  }

  /** Tables that reflect every statement of a list are left unchanged. */
  lemma {:induction false} ExecAllNoOp(db: Db, vs: seq<Stmt>)
    requires forall v :: v in vs ==> Reflected(db, v)
    ensures ExecAll(db, vs) == db
    decreases |vs|
  {
    if |vs| > 0 {
      ReflectedIffNoOp(db, vs[0]);
      assert forall v :: v in vs[1..] ==> v in vs;
      ExecAllNoOp(db, vs[1..]);
    }
  }

  /** Running a consistent list twice is running it once. */
  lemma ExecAllIdempotent(db: Db, vs: seq<Stmt>)
    requires Consistent(vs)
    ensures ExecAll(ExecAll(db, vs), vs) == ExecAll(db, vs)
  {
    ExecAllReflects(db, vs);
    ExecAllNoOp(ExecAll(db, vs), vs);
  }

  /** A denial row, once present, keeps its reason. */
  lemma {:induction false} ExecAllKeepsDenials(db: Db, vs: seq<Stmt>)
    ensures forall key :: key in db.denials ==>
              key in ExecAll(db, vs).denials && ExecAll(db, vs).denials[key] == db.denials[key]
    decreases |vs|
  {
    if |vs| > 0 {
      ExecAllKeepsDenials(Exec(db, vs[0]), vs[1..]);
    }
  }

  /** An existing organisation keeps its name, kind, description and
      enabled flag whatever runs. */
  lemma {:induction false} ExecAllKeepsIdentity(db: Db, vs: seq<Stmt>)
    ensures forall id :: id in db.orgs ==>
              id in ExecAll(db, vs).orgs && SameIdentity(ExecAll(db, vs).orgs[id], db.orgs[id])
    decreases |vs|
  {
    if |vs| > 0 {
      ExecAllKeepsIdentity(Exec(db, vs[0]), vs[1..]);
    }
  }

  /** The key a statement writes, one predicate per table. */
  predicate WritesOrg(v: Stmt, id: string) {
    v.OrgUpsert? && v.id == id
  }

  predicate WritesTool(v: Stmt, key: (string, string)) {
    v.ToolUpsert? && (v.orgId, v.tool) == key
  }

  predicate WritesDenial(v: Stmt, key: (string, string, string)) {
    v.DenialInsert? && (v.orgId, v.denialType, v.pattern) == key
  }

  /** An `orgs` row no statement of the list writes stays as it was. */
  lemma {:induction false} ExecAllOrgFrame(db: Db, vs: seq<Stmt>, id: string)
    requires forall v :: v in vs ==> !WritesOrg(v, id)
    ensures SameAt(ExecAll(db, vs).orgs, db.orgs, id)
    decreases |vs|
  {
    if |vs| > 0 {
      assert !WritesOrg(vs[0], id);
      assert forall v :: v in vs[1..] ==> v in vs;
      ExecAllOrgFrame(Exec(db, vs[0]), vs[1..], id);
    }
  }

  /** An `org_tools` row no statement of the list writes stays as it was. */
  lemma {:induction false} ExecAllToolFrame(db: Db, vs: seq<Stmt>, key: (string, string))
    requires forall v :: v in vs ==> !WritesTool(v, key)
    ensures SameAt(ExecAll(db, vs).tools, db.tools, key)
    decreases |vs|
  {
    if |vs| > 0 {
      assert !WritesTool(vs[0], key);
      assert forall v :: v in vs[1..] ==> v in vs;
      ExecAllToolFrame(Exec(db, vs[0]), vs[1..], key);
    }
  }

  /** An `org_denials` row no statement of the list writes stays as it
      was. */
  lemma {:induction false} ExecAllDenialFrame(db: Db, vs: seq<Stmt>, key: (string, string, string))
    requires forall v :: v in vs ==> !WritesDenial(v, key)
    ensures SameAt(ExecAll(db, vs).denials, db.denials, key)
    decreases |vs|
  {
    if |vs| > 0 {
      assert !WritesDenial(vs[0], key);
      assert forall v :: v in vs[1..] ==> v in vs;
      ExecAllDenialFrame(Exec(db, vs[0]), vs[1..], key);
    }
  }

  // ---------------------------------------------------------------------------
  // The seed of a registry
  // ---------------------------------------------------------------------------

  /** The texts the generator splices raw hold no quote. */
  predicate RawQuoteFree(c: OrgConfig) {
    NamesQuoteFree(c) && QuoteFreeList(c.tools) && DenialTypesQuoteFree(c.denials)
    && DenialPatternsQuoteFree(c.denials)
  }

  predicate NamesQuoteFree(c: OrgConfig) {
    '\'' !in c.id && '\'' !in c.name && '\'' !in c.modelPrimary && '\'' !in c.modelSecondary
  }

  predicate QuoteFreeList(ss: seq<string>) {
    forall i :: 0 <= i < |ss| ==> '\'' !in ss[i]
  }

  predicate DenialTypesQuoteFree(ds: seq<Denial>) {
    forall i :: 0 <= i < |ds| ==> '\'' !in ds[i].denialType
  }

  predicate DenialPatternsQuoteFree(ds: seq<Denial>) {
    forall i :: 0 <= i < |ds| ==> '\'' !in ds[i].pattern
  }

  predicate WellFormed(reg: Registry) {
    forall o :: 0 <= o < |reg| ==> RawQuoteFree(reg[o].1)
  }

  predicate DistinctIds(reg: Registry) {
    forall i, j :: 0 <= i < j < |reg| ==> reg[i].1.id != reg[j].1.id
  }

  /** The statements of the `o`-th organisation. */
  function Block(reg: Registry, prompts: map<OrgKind, string>, o: nat, escaped: bool): seq<Stmt>
    requires o < |reg|
  {
    OrgStatements(reg[o].0, reg[o].1, GetOrgPrompt(prompts, reg[o].0), escaped)
  }

  /** A statement belongs to the seed exactly when it belongs to the block of
      one of the organisations. */
  lemma {:induction false} SeedMember(reg: Registry, prompts: map<OrgKind, string>, escaped: bool, v: Stmt)
    ensures v in SeedStatements(reg, prompts, escaped) <==>
            exists o :: 0 <= o < |reg| && v in Block(reg, prompts, o, escaped)
    decreases |reg|
  {
    if |reg| > 0 {
      SeedMember(reg[1..], prompts, escaped, v);
      forall o | 0 <= o < |reg| - 1
        ensures Block(reg[1..], prompts, o, escaped) == Block(reg, prompts, o + 1, escaped)
      {
        assert reg[1..][o] == reg[o + 1];
      }
      if v in Block(reg, prompts, 0, escaped) {
      } else if exists o :: 0 <= o < |reg| && v in Block(reg, prompts, o, escaped) {
        var o :| 0 <= o < |reg| && v in Block(reg, prompts, o, escaped);
        assert v in Block(reg[1..], prompts, o - 1, escaped);
      }
    }
  }

  lemma {:induction false} DecodeTools(id: string, tools: seq<string>, approvals: seq<string>)
    requires '\'' !in id
    requires forall i :: 0 <= i < |tools| ==> '\'' !in tools[i]
    ensures DecodeAll(ToolStatements(id, tools, approvals)) == Some(ToolStatements(id, tools, approvals))
    decreases |tools|
  {
    if |tools| > 0 {
      FieldReadsBack(id, false);
      FieldReadsBack(tools[0], false);
      DecodeTools(id, tools[1..], approvals);
      var r := ToolStatements(id, tools, approvals);
      assert r[1..] == ToolStatements(id, tools[1..], approvals);
      assert [r[0]] + r[1..] == r;
    }
  }

  lemma {:induction false} DecodeDenials(id: string, ds: seq<Denial>)
    requires '\'' !in id
    requires forall i :: 0 <= i < |ds| ==> '\'' !in ds[i].denialType && '\'' !in ds[i].pattern
    ensures DecodeAll(DenialStatements(id, ds, true)) == Some(DenialStatements(id, ds, false))
    decreases |ds|
  {
    if |ds| > 0 {
      FieldReadsBack(id, false);
      FieldReadsBack(ds[0].denialType, false);
      FieldReadsBack(ds[0].pattern, false);
      FieldReadsBack(ds[0].reason, true);
      DecodeDenials(id, ds[1..]);
      var r := DenialStatements(id, ds, true);
      var w := DenialStatements(id, ds, false);
      assert r[1..] == DenialStatements(id, ds[1..], true);
      assert w[1..] == DenialStatements(id, ds[1..], false);
      assert [w[0]] + w[1..] == w;
    }
  }

  lemma DecodeOrg(k: OrgKind, c: OrgConfig, prompt: string)
    requires RawQuoteFree(c)
    ensures DecodeAll(OrgStatements(k, c, prompt, true)) == Some(OrgStatements(k, c, prompt, false))
  {
    FieldReadsBack(c.id, false);
    FieldReadsBack(c.name, false);
    FieldReadsBack(c.modelPrimary, false);
    FieldReadsBack(c.modelSecondary, false);
    FieldReadsBack(c.description, true);
    FieldReadsBack(prompt, true);
    var h := [OrgUpsert(c.id, c.name, k, Field(c.description, true), c.modelPrimary, c.modelSecondary,
                        Field(prompt, true))];
    var h' := [OrgUpsert(c.id, c.name, k, c.description, c.modelPrimary, c.modelSecondary, prompt)];
    assert Decode(h[0]) == Some(h'[0]);
    assert h[1..] == [] && [h'[0]] + [] == h';
    assert MapAll(Decode, h[1..]) == Some([]);
    assert DecodeAll(h) == Some(h');
    var ts := ToolStatements(c.id, c.tools, c.toolsRequiringApproval);
    DecodeTools(c.id, c.tools, c.toolsRequiringApproval);
    DecodeDenials(c.id, c.denials);
    DecodeAllAppend(h, ts);
    DecodeAllAppend(h + ts, DenialStatements(c.id, c.denials, true));
  }

  /** Every generated statement reads back as the statement built from the
      unescaped values. */
  lemma {:induction false} DecodeSeed(reg: Registry, prompts: map<OrgKind, string>)
    requires WellFormed(reg)
    ensures DecodeAll(GenerateOrgSeed(reg, prompts)) == Some(SeedStatements(reg, prompts, false))
    decreases |reg|
  {
    if |reg| > 0 {
      assert RawQuoteFree(reg[0].1);
      assert forall o :: 0 <= o < |reg| - 1 ==> reg[1..][o] == reg[o + 1];
      DecodeSeed(reg[1..], prompts);
      DecodeOrg(reg[0].0, reg[0].1, GetOrgPrompt(prompts, reg[0].0));
      DecodeAllAppend(OrgStatements(reg[0].0, reg[0].1, GetOrgPrompt(prompts, reg[0].0), true),
                      SeedStatements(reg[1..], prompts, true));
    }
  }

  /** The registry entry `e` holds the values of an org upsert. */
  predicate OrgValues(e: (OrgKind, OrgConfig), prompts: map<OrgKind, string>,
                      id: string, mp: string, ms: string, p: string) {
    e.1.id == id && e.1.modelPrimary == mp && e.1.modelSecondary == ms && GetOrgPrompt(prompts, e.0) == p
  }

  /** The registry entry `e` holds the values of a tool upsert. */
  predicate ToolValues(e: (OrgKind, OrgConfig), id: string, t: string, r: bool) {
    e.1.id == id && r == (t in e.1.toolsRequiringApproval)
  }

  /** A read-back statement whose upserted values are the registry's for
      its key. */
  predicate FromRegistry(reg: Registry, prompts: map<OrgKind, string>, v: Stmt) {
    match v
    case OrgUpsert(id, _, _, _, mp, ms, p) => exists o :: 0 <= o < |reg| && OrgValues(reg[o], prompts, id, mp, ms, p)
    case ToolUpsert(id, t, r) => exists o :: 0 <= o < |reg| && ToolValues(reg[o], id, t, r)
    case DenialInsert(_, _, _, _) => true
  }

  /** The statements of one organisation by position: its upsert, then one
      upsert per tool, then denial inserts. */
  lemma StatementAt(k: OrgKind, c: OrgConfig, prompt: string, i: nat)
    requires i < 1 + |c.tools| + |c.denials|
    ensures i == 0 ==>
              OrgStatements(k, c, prompt, false)[i] ==
              OrgUpsert(c.id, c.name, k, c.description, c.modelPrimary, c.modelSecondary, prompt)
    ensures 0 < i <= |c.tools| ==>
              OrgStatements(k, c, prompt, false)[i] ==
              ToolUpsert(c.id, c.tools[i - 1], c.tools[i - 1] in c.toolsRequiringApproval)
    ensures i > |c.tools| ==>
              OrgStatements(k, c, prompt, false)[i] ==
              DenialInsert(c.id, c.denials[i - 1 - |c.tools|].denialType,
                           c.denials[i - 1 - |c.tools|].pattern, c.denials[i - 1 - |c.tools|].reason)
  {
    var h := [OrgUpsert(c.id, c.name, k, Field(c.description, false), c.modelPrimary, c.modelSecondary,
                        Field(prompt, false))];
    var ts := ToolStatements(c.id, c.tools, c.toolsRequiringApproval);
    var ds := DenialStatements(c.id, c.denials, false);
    var r := OrgStatements(k, c, prompt, false);
    assert r == h + ts + ds;
    if i == 0 {
      assert r[i] == h[0];
    } else if i <= |c.tools| {
      assert r[i] == ts[i - 1];
    } else {
      assert r[i] == ds[i - 1 - |c.tools|];
    }
  }

  lemma BlockFromRegistry(reg: Registry, prompts: map<OrgKind, string>, o: nat, v: Stmt)
    requires o < |reg| && v in Block(reg, prompts, o, false)
    ensures FromRegistry(reg, prompts, v)
  {
    var k, c, p := reg[o].0, reg[o].1, GetOrgPrompt(prompts, reg[o].0);
    var b := OrgStatements(k, c, p, false);
    assert b == Block(reg, prompts, o, false);
    var i :| 0 <= i < |b| && b[i] == v;
    StatementAt(k, c, p, i);
    if i == 0 {
      assert OrgValues(reg[o], prompts, c.id, c.modelPrimary, c.modelSecondary, p);
    } else if i <= |c.tools| {
      assert ToolValues(reg[o], c.id, c.tools[i - 1], c.tools[i - 1] in c.toolsRequiringApproval);
    }
  }

  /** With distinct ids, statements carrying the registry's values agree. */
  lemma FromRegistryAgree(reg: Registry, prompts: map<OrgKind, string>, u: Stmt, v: Stmt)
    requires DistinctIds(reg) && FromRegistry(reg, prompts, u) && FromRegistry(reg, prompts, v)
    ensures Agree(u, v)
  {
    match (u, v)
    case (OrgUpsert(i1, _, _, _, a1, b1, p1), OrgUpsert(i2, _, _, _, a2, b2, p2)) =>
      var o1 :| 0 <= o1 < |reg| && OrgValues(reg[o1], prompts, i1, a1, b1, p1);
      var o2 :| 0 <= o2 < |reg| && OrgValues(reg[o2], prompts, i2, a2, b2, p2);
      if i1 == i2 {
        SameIdSameEntry(reg, o1, o2);
      }
    case (ToolUpsert(i1, t1, r1), ToolUpsert(i2, t2, r2)) =>
      var o1 :| 0 <= o1 < |reg| && ToolValues(reg[o1], i1, t1, r1);
      var o2 :| 0 <= o2 < |reg| && ToolValues(reg[o2], i2, t2, r2);
      if i1 == i2 {
        SameIdSameEntry(reg, o1, o2);
      }
    case _ =>
  }

  lemma SameIdSameEntry(reg: Registry, o1: nat, o2: nat)
    requires DistinctIds(reg) && o1 < |reg| && o2 < |reg| && reg[o1].1.id == reg[o2].1.id
    ensures o1 == o2
  {
  }

  /** With distinct ids, the seed never upserts one key with two values. */
  lemma SeedConsistent(reg: Registry, prompts: map<OrgKind, string>)
    requires DistinctIds(reg)
    ensures Consistent(SeedStatements(reg, prompts, false))
  {
    var vs := SeedStatements(reg, prompts, false);
    forall v | v in vs
      ensures FromRegistry(reg, prompts, v)
    {
      SeedMember(reg, prompts, false, v);
      var o :| 0 <= o < |reg| && v in Block(reg, prompts, o, false);
      BlockFromRegistry(reg, prompts, o, v);
    }
    forall u, v | u in vs && v in vs
      ensures Agree(u, v)
    {
      FromRegistryAgree(reg, prompts, u, v);
    }
  }

  /** Seeding well-formed registries with distinct ids always runs and
      leaves tables reflecting every statement read back. */
  lemma SeedReflected(reg: Registry, prompts: map<OrgKind, string>, db: Db)
    requires WellFormed(reg) && DistinctIds(reg)
    ensures ApplySeed(db, GenerateOrgSeed(reg, prompts)) ==
            Some(ExecAll(db, SeedStatements(reg, prompts, false)))
    ensures forall v :: v in SeedStatements(reg, prompts, false) ==>
              Reflected(ExecAll(db, SeedStatements(reg, prompts, false)), v)
  {
    DecodeSeed(reg, prompts);
    SeedConsistent(reg, prompts);
    ExecAllReflects(db, SeedStatements(reg, prompts, false));
  }

  /** Running the seed a second time changes nothing. */
  lemma SeedIdempotent(reg: Registry, prompts: map<OrgKind, string>, db: Db)
    requires WellFormed(reg) && DistinctIds(reg)
    ensures ApplySeed(db, GenerateOrgSeed(reg, prompts)).Some?
    ensures ApplySeed(ApplySeed(db, GenerateOrgSeed(reg, prompts)).value, GenerateOrgSeed(reg, prompts))
            == ApplySeed(db, GenerateOrgSeed(reg, prompts))
  {
    DecodeSeed(reg, prompts);
    SeedConsistent(reg, prompts);
    ExecAllIdempotent(db, SeedStatements(reg, prompts, false));
  }

  /** After seeding, every listed tool of every organisation has an enabled
      row that requires approval exactly when the tool is listed as
      requiring it. */
  lemma SeedToolRow(reg: Registry, prompts: map<OrgKind, string>, db: Db, o: nat, i: nat)
    requires WellFormed(reg) && DistinctIds(reg)
    requires o < |reg| && i < |reg[o].1.tools|
    ensures ApplySeed(db, GenerateOrgSeed(reg, prompts)).Some?
    ensures (reg[o].1.id, reg[o].1.tools[i]) in ApplySeed(db, GenerateOrgSeed(reg, prompts)).value.tools
    ensures ApplySeed(db, GenerateOrgSeed(reg, prompts)).value.tools[(reg[o].1.id, reg[o].1.tools[i])]
            == ToolRow(true, reg[o].1.tools[i] in reg[o].1.toolsRequiringApproval)
  {
    var c := reg[o].1;
    var v := ToolUpsert(c.id, c.tools[i], c.tools[i] in c.toolsRequiringApproval);
    var b := Block(reg, prompts, o, false);
    assert b[1 + i] == v;
    SeedMember(reg, prompts, false, v);
    SeedReflected(reg, prompts, db);
  }

  /** After seeding, every organisation has a row with its models and its
      prompt. */
  lemma SeedOrgRow(reg: Registry, prompts: map<OrgKind, string>, db: Db, o: nat)
    requires WellFormed(reg) && DistinctIds(reg) && o < |reg|
    ensures ApplySeed(db, GenerateOrgSeed(reg, prompts)).Some?
    ensures reg[o].1.id in ApplySeed(db, GenerateOrgSeed(reg, prompts)).value.orgs
    ensures var row := ApplySeed(db, GenerateOrgSeed(reg, prompts)).value.orgs[reg[o].1.id];
            row.modelPrimary == reg[o].1.modelPrimary && row.modelSecondary == reg[o].1.modelSecondary
            && row.systemPrompt == GetOrgPrompt(prompts, reg[o].0)
  {
    var b := Block(reg, prompts, o, false);
    SeedMember(reg, prompts, false, b[0]);
    SeedReflected(reg, prompts, db);
  }

  /** After seeding, every denial of every organisation has a row; rows
      that existed before keep their reason. */
  lemma SeedDenialRow(reg: Registry, prompts: map<OrgKind, string>, db: Db, o: nat, j: nat)
    requires WellFormed(reg) && DistinctIds(reg)
    requires o < |reg| && j < |reg[o].1.denials|
    ensures ApplySeed(db, GenerateOrgSeed(reg, prompts)).Some?
    ensures (reg[o].1.id, reg[o].1.denials[j].denialType, reg[o].1.denials[j].pattern)
            in ApplySeed(db, GenerateOrgSeed(reg, prompts)).value.denials
  {
    var k, c, p := reg[o].0, reg[o].1, GetOrgPrompt(prompts, reg[o].0);
    var b := OrgStatements(k, c, p, false);
    assert b == Block(reg, prompts, o, false);
    var d := c.denials[j];
    var v := DenialInsert(c.id, d.denialType, d.pattern, d.reason);
    StatementAt(k, c, p, 1 + |c.tools| + j);
    assert b[1 + |c.tools| + j] == v;
    assert v in Block(reg, prompts, o, false);
    SeedMember(reg, prompts, false, v);
    SeedReflected(reg, prompts, db);
    assert Reflected(ExecAll(db, SeedStatements(reg, prompts, false)), v);
  }

  /** Seeding adds rows and refreshes models and prompts but never alters a
      denial already present or an organisation's name, kind, description or
      enabled flag. */
  lemma SeedKeepsExisting(reg: Registry, prompts: map<OrgKind, string>, db: Db)
    requires ApplySeed(db, GenerateOrgSeed(reg, prompts)).Some?
    ensures forall key :: key in db.denials ==>
              key in ApplySeed(db, GenerateOrgSeed(reg, prompts)).value.denials &&
              ApplySeed(db, GenerateOrgSeed(reg, prompts)).value.denials[key] == db.denials[key]
    ensures forall id :: id in db.orgs ==>
              id in ApplySeed(db, GenerateOrgSeed(reg, prompts)).value.orgs &&
              SameIdentity(ApplySeed(db, GenerateOrgSeed(reg, prompts)).value.orgs[id], db.orgs[id])
  {
    var vs := DecodeAll(GenerateOrgSeed(reg, prompts)).value;
    ExecAllKeepsDenials(db, vs);
    ExecAllKeepsIdentity(db, vs);
  }

  /** The registry lists tool `key.1` for organisation id `key.0`. */
  predicate ListsTool(reg: Registry, key: (string, string)) {
    exists o :: 0 <= o < |reg| && reg[o].1.id == key.0 && key.1 in reg[o].1.tools
  }

  /** The registry lists a denial of type `key.1` and pattern `key.2` for
      organisation id `key.0`. */
  predicate ListsDenial(reg: Registry, key: (string, string, string)) {
    exists o, j :: 0 <= o < |reg| && 0 <= j < |reg[o].1.denials| && reg[o].1.id == key.0
                   && reg[o].1.denials[j].denialType == key.1 && reg[o].1.denials[j].pattern == key.2
  }

  /** Every key a statement of an organisation's block writes is one the
      registry names for that organisation. */
  lemma BlockKeys(reg: Registry, prompts: map<OrgKind, string>, o: nat, v: Stmt)
    requires o < |reg| && v in Block(reg, prompts, o, false)
    ensures v.OrgUpsert? ==> v.id in GetAllOrgIds(reg)
    ensures v.ToolUpsert? ==> ListsTool(reg, (v.orgId, v.tool))
    ensures v.DenialInsert? ==> ListsDenial(reg, (v.orgId, v.denialType, v.pattern))
  {
    var k, c, p := reg[o].0, reg[o].1, GetOrgPrompt(prompts, reg[o].0);
    var b := OrgStatements(k, c, p, false);
    assert b == Block(reg, prompts, o, false);
    var i :| 0 <= i < |b| && b[i] == v;
    StatementAt(k, c, p, i);
    if i == 0 {
      OrgKeyListed(reg, o);
    } else if i <= |c.tools| {
      ToolKeyListed(reg, o, i - 1);
    } else {
      DenialKeyListed(reg, o, i - 1 - |c.tools|);
    }
  }

  lemma OrgKeyListed(reg: Registry, o: nat)
    requires o < |reg|
    ensures reg[o].1.id in GetAllOrgIds(reg)
  {
    assert GetAllOrgIds(reg)[o] == reg[o].1.id;
  }

  lemma ToolKeyListed(reg: Registry, o: nat, i: nat)
    requires o < |reg| && i < |reg[o].1.tools|
    ensures ListsTool(reg, (reg[o].1.id, reg[o].1.tools[i]))
  {
    assert reg[o].1.tools[i] in reg[o].1.tools;
  }

  lemma DenialKeyListed(reg: Registry, o: nat, j: nat)
    requires o < |reg| && j < |reg[o].1.denials|
    ensures ListsDenial(reg, (reg[o].1.id, reg[o].1.denials[j].denialType, reg[o].1.denials[j].pattern))
  {
  }

  /** Seeding writes only rows whose keys the registry names: the ids
      `get_all_org_ids()` lists, the tools and the denials listed for an id.
      Every other row, present or absent, is left as it was. */
  lemma SeedFrame(reg: Registry, prompts: map<OrgKind, string>, db: Db)
    requires WellFormed(reg)
    ensures ApplySeed(db, GenerateOrgSeed(reg, prompts)).Some?
    ensures forall id :: id !in GetAllOrgIds(reg) ==>
              SameAt(ApplySeed(db, GenerateOrgSeed(reg, prompts)).value.orgs, db.orgs, id)
    ensures forall key :: !ListsTool(reg, key) ==>
              SameAt(ApplySeed(db, GenerateOrgSeed(reg, prompts)).value.tools, db.tools, key)
    ensures forall key :: !ListsDenial(reg, key) ==>
              SameAt(ApplySeed(db, GenerateOrgSeed(reg, prompts)).value.denials, db.denials, key)
  {
    var vs := SeedStatements(reg, prompts, false);
    DecodeSeed(reg, prompts);
    forall v | v in vs
      ensures v.OrgUpsert? ==> v.id in GetAllOrgIds(reg)
      ensures v.ToolUpsert? ==> ListsTool(reg, (v.orgId, v.tool))
      ensures v.DenialInsert? ==> ListsDenial(reg, (v.orgId, v.denialType, v.pattern))
    {
      SeedMember(reg, prompts, false, v);
      var o :| 0 <= o < |reg| && v in Block(reg, prompts, o, false);
      BlockKeys(reg, prompts, o, v);
    }
    forall id | id !in GetAllOrgIds(reg)
      ensures SameAt(ExecAll(db, vs).orgs, db.orgs, id)
    {
      ExecAllOrgFrame(db, vs, id);
    }
    forall key | !ListsTool(reg, key)
      ensures SameAt(ExecAll(db, vs).tools, db.tools, key)
    {
      ExecAllToolFrame(db, vs, key);
    }
    forall key | !ListsDenial(reg, key)
      ensures SameAt(ExecAll(db, vs).denials, db.denials, key)
    {
      ExecAllDenialFrame(db, vs, key);
    }
  }

  // ---------------------------------------------------------------------------
  // The shipped registry
  // ---------------------------------------------------------------------------

  const DevTools: seq<string> := [
    "fs_read", "fs_write", "fs_list", "git_status", "git_diff", "git_patch", "test_run",
    "json_transform", "dev_validate_config", "dev_extract_deps"
  ]

  const DevApprovals: seq<string> := ["fs_write", "git_patch"]

  const DevDenials: seq<Denial> := [
    Denial("shell", "*", "Shell access not allowed for DevOrg"),
    Denial("workspace", "/projects/ops/*", "No access to Ops workspace"),
    Denial("workspace", "/projects/studio/*", "No access to Studio workspace"),
    Denial("tool", "ci_trigger", "CI/CD triggers not allowed"),
    Denial("tool", "deploy_service", "Deployments not allowed")
  ]

  const DevConfig: OrgConfig := OrgConfig(
    "dev-org", "DevOrg", "Development, code reviews, pipeline configurations",
    "glm-4.7:cloud", "qwen3-coder:cloud", Standard,
    [Workspace("/projects/dev", Writer, "Development")],
    DevTools, DevApprovals, None, None, DevDenials)

  const OpsTools: seq<string> := [
    "fs_read", "fs_list", "ci_trigger", "deploy_service", "rollback_service",
    "render_job_submit", "render_job_status", "shell_run",
    "ops_is_duplicate", "ops_add_to_filter", "ops_subscribe_ci", "ops_publish_status"
  ]

  const OpsApprovals: seq<string> := ["deploy_service", "rollback_service", "shell_run"]

  const OpsShellAllowlist: seq<string> := [
    "kubectl", "docker", "systemctl status", "journalctl", "df", "free", "top -b -n 1"
  ]

  const OpsDenials: seq<Denial> := [
    Denial("workspace", "/projects/dev/*", "No write access to dev repos"),
    Denial("tool", "fs_write", "Code changes only via DevOrg"),
    Denial("tool", "git_patch", "Code changes only via DevOrg")
  ]

  const OpsConfig: OrgConfig := OrgConfig(
    "ops-org", "OpsOrg", "CI/CD pipelines, deployments, render jobs",
    "kimi-k2.5:cloud", "minimax-m2.1:cloud", Power,
    [Workspace("/projects/ops", Writer, "Operations")],
    OpsTools, OpsApprovals, Some(OpsShellAllowlist), None, OpsDenials)

  const ResearchTools: seq<string> := [
    "searxng_search", "fs_read", "fs_write_note", "fs_list_notes",
    "json_transform", "research_parse_api", "research_normalize_results",
    "research_encode_embedding", "research_decode_embedding", "research_fingerprint",
    "research_find_duplicates", "research_minhash_signature", "research_index_doc",
    "research_find_similar_docs"
  ]

  const ResearchDenials: seq<Denial> := [
    Denial("tool", "fetch", "Direct HTTP access not allowed"),
    Denial("tool", "fetch_url", "Direct HTTP access not allowed"),
    Denial("tool", "shell_run", "Shell access not allowed"),
    Denial("tool", "deploy_service", "Deployments not allowed"),
    Denial("workspace", "/projects/*", "No access to project workspaces")
  ]

  const ResearchConfig: OrgConfig := OrgConfig(
    "research-org", "ResearchOrg", "External research, summaries, research notes",
    "gpt-oss:20b-cloud", "minimax-m2.1:cloud", Conservative,
    [Workspace("/data/research", Writer, "Research Notes")],
    ResearchTools, [], None, Some("http://searxng:8080"), ResearchDenials)

  const StudioTools: seq<string> := [
    "fs_read", "fs_write", "fs_list", "notes_board_create", "notes_board_list",
    "notes_board_update", "studio_index_asset", "studio_find_similar",
    "studio_asset_order", "studio_collab_event"
  ]

  const StudioDenials: seq<Denial> := [
    Denial("workspace", "/projects/dev/*", "No access to Dev workspace"),
    Denial("workspace", "/projects/ops/*", "No access to Ops workspace"),
    Denial("tool", "shell_run", "Shell access not allowed"),
    Denial("tool", "ci_trigger", "CI/CD not allowed"),
    Denial("tool", "deploy_service", "Deployments not allowed"),
    Denial("pattern", "*.py", "Cannot edit Python files"),
    Denial("pattern", "*.sh", "Cannot edit shell scripts"),
    Denial("pattern", "*.yaml", "Cannot edit pipeline configs")
  ]

  const StudioConfig: OrgConfig := OrgConfig(
    "studio-org", "StudioOrg", "Requirements, specs, DCC briefings, shot notes",
    "kimi-k2.5:cloud", "gemma3:4b-cloud", Standard,
    [Workspace("/projects/studio", Writer, "Studio")],
    StudioTools, [], None, None, StudioDenials)

  const OrchestratorTools: seq<string> := [
    "call_dev_org", "call_ops_org", "call_research_org", "call_studio_org",
    "orchestrator_call_chain", "orchestrator_add_dependency", "orchestrator_get_ready_tasks",
    "orchestrator_broadcast", "orchestrator_listen", "orchestrator_subscribe", "smart_route"
  ]

  const OrchestratorDenials: seq<Denial> := [
    Denial("tool", "fs_read", "No direct file access"),
    Denial("tool", "fs_write", "No direct file access"),
    Denial("tool", "shell_run", "No shell access"),
    Denial("tool", "fetch", "No web access")
  ]

  const OrchestratorConfig: OrgConfig := OrgConfig(
    "orchestrator-org", "OrchestratorOrg", "Central task distribution to orgs",
    "kimi-k2.5:cloud", "glm-4.7:cloud", Conservative,
    [], OrchestratorTools, [], None, None, OrchestratorDenials)

  /** `ORG_CONFIGS`, in its insertion order. */
  const OrgConfigs: Registry := [
    (Dev, DevConfig), (Ops, OpsConfig), (OrgKind.Research, ResearchConfig),
    (Studio, StudioConfig), (Orchestrator, OrchestratorConfig)
  ]

  /** `get_all_org_ids()` lists the five ids in registry order. */
  lemma ShippedOrgIds()
    ensures GetAllOrgIds(OrgConfigs) ==
            ["dev-org", "ops-org", "research-org", "studio-org", "orchestrator-org"]
  {
    var ids := GetAllOrgIds(OrgConfigs);
    assert ids[0] == "dev-org" && ids[1] == "ops-org" && ids[2] == "research-org";
    assert ids[3] == "studio-org" && ids[4] == "orchestrator-org";
  }

  /** Every kind has a configuration: the empty-dict fallback never fires. */
  lemma ShippedLookupTotal(k: OrgKind)
    ensures GetOrgConfig(OrgConfigs, k).Some?
  {
    var i := if k.Dev? then 0 else if k.Ops? then 1 else if k.Research? then 2 else if k.Studio? then 3 else 4;
    assert OrgConfigs[i].0 == k;
  }

  /** `ORG_CONFIGS` holds one entry per kind. */
  lemma ShippedDistinctKinds()
    ensures DistinctKinds(OrgConfigs)
  {
  }

  lemma ShippedDistinctIds()
    ensures DistinctIds(OrgConfigs)
  {
    assert OrgConfigs[0].1.id[0] == 'd' && OrgConfigs[1].1.id[0] == 'o' && OrgConfigs[2].1.id[0] == 'r';
    assert OrgConfigs[3].1.id[0] == 's' && OrgConfigs[4].1.id[0] == 'o';
    assert OrgConfigs[1].1.id[1] == 'p' && OrgConfigs[4].1.id[1] == 'r';
  }

  /** Every tool requiring approval is one of the organisation's tools. */
  predicate ApprovalsAreTools(c: OrgConfig) {
    forall t :: t in c.toolsRequiringApproval ==> t in c.tools
  }

  /** No tool of the organisation is also named by one of its "tool"
      denials. */
  predicate NoDeniedListedTool(c: OrgConfig) {
    forall j :: 0 <= j < |c.denials| && c.denials[j].denialType == "tool" ==> c.denials[j].pattern !in c.tools
  }

  /** What the seed needs of a configuration, and the two consistency
      rules the shipped ones keep. */
  predicate SoundConfig(c: OrgConfig) {
    RawQuoteFree(c) && ApprovalsAreTools(c) && NoDeniedListedTool(c)
  }

  lemma DevToolsQuoteFree() ensures QuoteFreeList(DevTools) {}
  lemma DevDenialTypesQuoteFree() ensures DenialTypesQuoteFree(DevDenials) {}
  lemma DevPatternsQuoteFree() ensures DenialPatternsQuoteFree(DevDenials) {}
  lemma DevApprovalsListed() ensures ApprovalsAreTools(DevConfig) {}
  lemma DevNoDenied() ensures NoDeniedListedTool(DevConfig) {}
  lemma OpsToolsQuoteFree() ensures QuoteFreeList(OpsTools) {}
  lemma OpsDenialTypesQuoteFree() ensures DenialTypesQuoteFree(OpsDenials) {}
  lemma OpsPatternsQuoteFree() ensures DenialPatternsQuoteFree(OpsDenials) {}
  lemma OpsApprovalsListed() ensures ApprovalsAreTools(OpsConfig) {}
  lemma OpsNoDenied() ensures NoDeniedListedTool(OpsConfig) {}
  lemma ResearchToolsQuoteFree() ensures QuoteFreeList(ResearchTools) {}
  lemma ResearchDenialTypesQuoteFree() ensures DenialTypesQuoteFree(ResearchDenials) {}
  lemma ResearchPatternsQuoteFree() ensures DenialPatternsQuoteFree(ResearchDenials) {}
  lemma ResearchApprovalsListed() ensures ApprovalsAreTools(ResearchConfig) {}
  lemma ResearchNoDenied() ensures NoDeniedListedTool(ResearchConfig) {}
  lemma StudioToolsQuoteFree() ensures QuoteFreeList(StudioTools) {}
  lemma StudioDenialTypesQuoteFree() ensures DenialTypesQuoteFree(StudioDenials) {}
  lemma StudioPatternsQuoteFree() ensures DenialPatternsQuoteFree(StudioDenials) {
    StudioWorkspaceAndToolPatterns();
    StudioFilePatterns();
  }
  lemma StudioWorkspaceAndToolPatterns() ensures forall i :: 0 <= i < 4 ==> '\'' !in StudioDenials[i].pattern {}
  lemma StudioFilePatterns() ensures forall i :: 4 <= i < 8 ==> '\'' !in StudioDenials[i].pattern {}
  lemma StudioApprovalsListed() ensures ApprovalsAreTools(StudioConfig) {}
  lemma StudioNoDenied() ensures NoDeniedListedTool(StudioConfig) {}
  lemma OrchestratorToolsQuoteFree() ensures QuoteFreeList(OrchestratorTools) {}
  lemma OrchestratorDenialTypesQuoteFree() ensures DenialTypesQuoteFree(OrchestratorDenials) {}
  lemma OrchestratorPatternsQuoteFree() ensures DenialPatternsQuoteFree(OrchestratorDenials) {}
  lemma OrchestratorApprovalsListed() ensures ApprovalsAreTools(OrchestratorConfig) {}
  lemma OrchestratorNoDenied() ensures NoDeniedListedTool(OrchestratorConfig) {}

  /** The consistency rules, assembled from their separately checked parts. */
  lemma SoundFromParts(c: OrgConfig, tools: seq<string>, denials: seq<Denial>)
    requires c.tools == tools && c.denials == denials
    requires NamesQuoteFree(c) && QuoteFreeList(tools) && DenialTypesQuoteFree(denials)
    requires DenialPatternsQuoteFree(denials) && ApprovalsAreTools(c) && NoDeniedListedTool(c)
    ensures SoundConfig(c)
  {
  }

  lemma DevNamesQuoteFree() ensures NamesQuoteFree(DevConfig) {}
  lemma DevSound() ensures SoundConfig(DevConfig) {
    DevNamesQuoteFree(); DevToolsQuoteFree(); DevDenialTypesQuoteFree(); DevPatternsQuoteFree();
    DevApprovalsListed(); DevNoDenied();
    SoundFromParts(DevConfig, DevTools, DevDenials);
  }
  lemma OpsNamesQuoteFree() ensures NamesQuoteFree(OpsConfig) {}
  lemma OpsSound() ensures SoundConfig(OpsConfig) {
    OpsNamesQuoteFree(); OpsToolsQuoteFree(); OpsDenialTypesQuoteFree(); OpsPatternsQuoteFree();
    OpsApprovalsListed(); OpsNoDenied();
    SoundFromParts(OpsConfig, OpsTools, OpsDenials);
  }
  lemma ResearchNamesQuoteFree() ensures NamesQuoteFree(ResearchConfig) {}
  lemma ResearchSound() ensures SoundConfig(ResearchConfig) {
    ResearchNamesQuoteFree(); ResearchToolsQuoteFree(); ResearchDenialTypesQuoteFree(); ResearchPatternsQuoteFree();
    ResearchApprovalsListed(); ResearchNoDenied();
    SoundFromParts(ResearchConfig, ResearchTools, ResearchDenials);
  }
  lemma StudioNamesQuoteFree() ensures NamesQuoteFree(StudioConfig) {}
  lemma StudioSound() ensures SoundConfig(StudioConfig) {
    StudioNamesQuoteFree(); StudioToolsQuoteFree(); StudioDenialTypesQuoteFree(); StudioPatternsQuoteFree();
    StudioApprovalsListed(); StudioNoDenied();
    SoundFromParts(StudioConfig, StudioTools, StudioDenials);
  }
  lemma OrchestratorNamesQuoteFree() ensures NamesQuoteFree(OrchestratorConfig) {}
  lemma OrchestratorSound() ensures SoundConfig(OrchestratorConfig) {
    OrchestratorNamesQuoteFree(); OrchestratorToolsQuoteFree(); OrchestratorDenialTypesQuoteFree(); OrchestratorPatternsQuoteFree();
    OrchestratorApprovalsListed(); OrchestratorNoDenied();
    SoundFromParts(OrchestratorConfig, OrchestratorTools, OrchestratorDenials);
  }

  /** Every shipped configuration keeps the consistency rules, and the
      registry as a whole is fit for the seed generator. */
  lemma ShippedSound()
    ensures forall o :: 0 <= o < |OrgConfigs| ==> SoundConfig(OrgConfigs[o].1)
    ensures WellFormed(OrgConfigs)
  {
    DevSound(); OpsSound(); ResearchSound(); StudioSound(); OrchestratorSound();
    forall o | 0 <= o < |OrgConfigs|
      ensures SoundConfig(OrgConfigs[o].1)
    {
      if o == 0 { assert OrgConfigs[o].1 == DevConfig; }
      else if o == 1 { assert OrgConfigs[o].1 == OpsConfig; }
      else if o == 2 { assert OrgConfigs[o].1 == ResearchConfig; }
      else if o == 3 { assert OrgConfigs[o].1 == StudioConfig; }
      else { assert OrgConfigs[o].1 == OrchestratorConfig; }
    }
  }

  /** The shipped seed always applies, and applying it twice is the same as
      applying it once, whatever the prompts and the tables it starts from. */
  lemma ShippedSeedIdempotent(prompts: map<OrgKind, string>, db: Db)
    ensures ApplySeed(db, GenerateOrgSeed(OrgConfigs, prompts)).Some?
    ensures ApplySeed(ApplySeed(db, GenerateOrgSeed(OrgConfigs, prompts)).value, GenerateOrgSeed(OrgConfigs, prompts))
            == ApplySeed(db, GenerateOrgSeed(OrgConfigs, prompts))
  {
    ShippedSound();
    ShippedDistinctIds();
    SeedIdempotent(OrgConfigs, prompts, db);
  }
}
