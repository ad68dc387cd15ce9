/** The enums of the agent configuration, the per-profile security defaults
    and the column defaults of the agent tables. */
module Schemas {
  import opened Strings

  datatype WorkspaceMode = ReadOnly | Writer | Operator {
    function Value(): string {
      match this
      case ReadOnly => "readOnly"
      case Writer => "writer"
      case Operator => "operator"
    }
  }

  datatype SecurityProfile = Conservative | Standard | Power {
    function Value(): string {
      match this
      case Conservative => "conservative"
      case Standard => "standard"
      case Power => "power"
    }
  }

  datatype AgentRole = Code | Research | Organizer | Assistant {
    function Value(): string {
      match this
      case Code => "code"
      case Research => "research"
      case Organizer => "organizer"
      case Assistant => "assistant"
    }
  }

  datatype ModelBackend = ClaudeCloud | OllamaLocal {
    function Value(): string {
      match this
      case ClaudeCloud => "claude_cloud"
      case OllamaLocal => "ollama_local"
    }
  }

  /** The names the module defines at its top level: the imported `Enum`,
      the four enums, the table definitions, the role prompts and the
      security defaults. There is no organisation-type enum among them. */
  const ModuleNames: set<string> := {
    "Enum", "AgentRole", "WorkspaceMode", "SecurityProfile", "ModelBackend",
    "AGENT_TABLES_SQL", "ROLE_PROMPTS", "SECURITY_DEFAULTS"
  }

  /** `WorkspaceMode(s)`: the enum member whose value is `s`, if any. */
  function ParseWorkspaceMode(s: string): (r: Option<WorkspaceMode>)
    ensures r.Some? ==> r.value.Value() == s
  {
    if s == "readOnly" then Some(ReadOnly)
    else if s == "writer" then Some(Writer)
    else if s == "operator" then Some(Operator)
    else None
  }

  function ParseSecurityProfile(s: string): (r: Option<SecurityProfile>)
    ensures r.Some? ==> r.value.Value() == s
  {
    if s == "conservative" then Some(Conservative)
    else if s == "standard" then Some(Standard)
    else if s == "power" then Some(Power)
    else None
  }

  function ParseAgentRole(s: string): (r: Option<AgentRole>)
    ensures r.Some? ==> r.value.Value() == s
  {
    if s == "code" then Some(Code)
    else if s == "research" then Some(Research)
    else if s == "organizer" then Some(Organizer)
    else if s == "assistant" then Some(Assistant)
    else None
  }

  function ParseModelBackend(s: string): (r: Option<ModelBackend>)
    ensures r.Some? ==> r.value.Value() == s
  {
    if s == "claude_cloud" then Some(ClaudeCloud)
    else if s == "ollama_local" then Some(OllamaLocal)
    else None
  }

  /** Every member's value parses back to the member, so values are distinct. */
  lemma EnumValuesRoundTrip(m: WorkspaceMode, p: SecurityProfile, r: AgentRole, b: ModelBackend)
    ensures ParseWorkspaceMode(m.Value()) == Some(m)
    ensures ParseSecurityProfile(p.Value()) == Some(p)
    ensures ParseAgentRole(r.Value()) == Some(r)
    ensures ParseModelBackend(b.Value()) == Some(b)
  {
  }

  // ---------------------------------------------------------------------------
  // SECURITY_DEFAULTS
  // ---------------------------------------------------------------------------

  datatype ProfileDefaults = ProfileDefaults(shellEnabled: bool, defaultWorkspaceMode: WorkspaceMode)

  /** `SECURITY_DEFAULTS[p]`, defined for every profile. */
  function SecurityDefaults(p: SecurityProfile): ProfileDefaults {
    match p
    case Conservative => ProfileDefaults(false, ReadOnly)
    case Standard => ProfileDefaults(false, Writer)
    case Power => ProfileDefaults(true, Operator)
  }

  /** Only the power profile turns the shell on. */
  lemma ShellOnlyForPower(p: SecurityProfile)
    ensures SecurityDefaults(p).shellEnabled <==> p == Power
  {
  }

  /** Distinct profiles get distinct default workspace modes. */
  lemma DefaultModeInjective(p: SecurityProfile, q: SecurityProfile)
    ensures SecurityDefaults(p).defaultWorkspaceMode == SecurityDefaults(q).defaultWorkspaceMode ==> p == q
  {
  }

  // ---------------------------------------------------------------------------
  // Column defaults of the agent tables
  // ---------------------------------------------------------------------------

  /** A `security_policy` row. NULL lists are `None`. */
  datatype SecurityPolicyRow = SecurityPolicyRow(
    agentId: string,
    shellEnabled: bool,
    shellAllowlist: Option<seq<string>>,
    shellBlocklist: seq<string>,
    webEnabled: bool,
    allowedDomains: Option<seq<string>>,
    blockedDomains: Option<seq<string>>,
    sensitivePatterns: seq<string>)

  const DefaultShellBlocklist: seq<string> := [
    "rm -rf", "rm -r /", "mkfs", "dd if=", ":(){:|:&};:",
    "chmod -R 777", "curl | sh", "wget | sh", "> /dev/sd"
  ]

  const DefaultSensitivePatterns: seq<string> := [
    "*.env", ".env*", "*credentials*", "*secret*",
    "*.pem", "*.key", "*password*"
  ]

  /** The row an `INSERT INTO security_policy (agent_id) VALUES (a)` creates. */
  function DefaultSecurityPolicy(agentId: string): (row: SecurityPolicyRow)
    ensures row.agentId == agentId
  {
    SecurityPolicyRow(agentId, false, None, DefaultShellBlocklist, true, None, None,
                      DefaultSensitivePatterns)
  }

  /** The defaults: shell off, web on, the destructive commands blocked and
      the key and environment files marked sensitive. */
  lemma DefaultPolicyContents(agentId: string)
    ensures !DefaultSecurityPolicy(agentId).shellEnabled
    ensures DefaultSecurityPolicy(agentId).webEnabled
    ensures "rm -rf" in DefaultSecurityPolicy(agentId).shellBlocklist
    ensures "mkfs" in DefaultSecurityPolicy(agentId).shellBlocklist
    ensures "dd if=" in DefaultSecurityPolicy(agentId).shellBlocklist
    ensures "*.env" in DefaultSecurityPolicy(agentId).sensitivePatterns
    ensures "*.pem" in DefaultSecurityPolicy(agentId).sensitivePatterns
    ensures "*.key" in DefaultSecurityPolicy(agentId).sensitivePatterns
  {
    assert DefaultShellBlocklist[0] == "rm -rf";
    assert DefaultShellBlocklist[2] == "mkfs";
    assert DefaultShellBlocklist[3] == "dd if=";
    assert DefaultSensitivePatterns[0] == "*.env";
    assert DefaultSensitivePatterns[4] == "*.pem";
    assert DefaultSensitivePatterns[5] == "*.key";
  }

  /** The default blocklist entries hold no LIKE wildcard, so matching them
      with `LIKE '%' || entry || '%'` is plain substring search. */
  lemma DefaultBlocklistWildcardFree()
    ensures forall k :: 0 <= k < |DefaultShellBlocklist| ==>
              '%' !in DefaultShellBlocklist[k] && '_' !in DefaultShellBlocklist[k]
  {
  }

  /** The `workspaces.mode` column default. */
  const WorkspaceModeColumnDefault: string := "readOnly"

  /** The `agent_config` column defaults for the enum-valued columns. */
  datatype AgentConfigDefaults = AgentConfigDefaults(
    name: string, role: string, securityProfile: string, modelBackend: string,
    modelName: string, consentGiven: bool)

  const AgentConfigColumnDefaults: AgentConfigDefaults :=
    AgentConfigDefaults("Desktop Agent", "assistant", "standard", "ollama_local", "llama3.2", false)

  /** The column defaults are values of their enums: a new workspace is
      read-only, a new agent is a standard-profile assistant on the local
      backend, and that profile's shell default agrees with the
      `security_policy.shell_enabled` default. */
  lemma ColumnDefaultsAreEnumValues(agentId: string)
    ensures ParseWorkspaceMode(WorkspaceModeColumnDefault) == Some(ReadOnly)
    ensures ParseAgentRole(AgentConfigColumnDefaults.role) == Some(Assistant)
    ensures ParseSecurityProfile(AgentConfigColumnDefaults.securityProfile) == Some(Standard)
    ensures ParseModelBackend(AgentConfigColumnDefaults.modelBackend) == Some(OllamaLocal)
    ensures SecurityDefaults(Standard).shellEnabled == DefaultSecurityPolicy(agentId).shellEnabled
  {
  }
}
