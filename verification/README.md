# agent-farm core in Dafny

A model of the small, pure pieces of logic in agent-farm, with proofs. agent-farm is a DuckDB-backed agent runtime. Most of its behaviour lives in SQL macros and database extensions. The part written out in Python or in inline SQL is this:

- **Prompt-injection classifier** `udf_detect_injection`: an ordered table of case-insensitive substring rules. The first rule that holds names the category. (`Injection`)
- **JSON path extractor** `udf_safe_json_extract`: walks a parsed JSON value along a dotted path. A container leaf is re-serialised; a scalar leaf goes through `str`. (`JsonValue`, `JsonExtract`)
- **Policy predicates** of the agent configuration: the `path_in_workspace` and `is_blocked_command` macros, with their test vectors, and the audit-log sequence. (`Policy`)
- **Enums and defaults**: the enums, `SECURITY_DEFAULTS` and the column defaults of the agent tables. (`Schemas`)
- **Organisation registry** (`ORG_CONFIGS`), its lookups, and `generate_org_seed_sql`. (`Orgs`, `SqlLiteral`)
  - The seed is modelled as the statements it renders, with the quote-doubling of the texts.
  - It is read back as the database parses it and executed against the `orgs`, `org_tools` and `org_denials` tables with their conflict clauses.
- **Literal-aware SQL statement splitter**, of which the program has three copies: `split_sql_statements` in the server, `_split_sql` in the spec engine, and the copy in the macro tests. (`SqlSplit`)
  - It is one loop method, parametrised by the copy's keep-test, proved equal to a recursive segmentation followed by trim-and-filter.
  - It comes with the comment-line filters of `load_sql_macros`, `_has_non_comment_content` and `_load_sql_file`.
- **`extract_mcp_servers`**: merges the `mcpServers`/`servers` sections of discovered config files. (`McpConfig`)
- **The `initialize` guard of the spec engine.** (`SpecEngine`)
- **The seed step of the server's start-up**: the import of the seed generator, which skips the seed on `ImportError`. (`Startup`)

`Strings` holds the ASCII string primitives the code relies on: `lower`, `strip`, `startswith`, `in`, `split` and `join`.

Every file is given to `dafny verify` together. There is no entry point.

## Model

| member | source | states |
|---|---|---|
| Injection.Detect | src/agent_farm/udfs.py:344-377 | No category exactly when the content is missing or empty, or when no rule holds of the lower-cased content |
| Injection.FirstHit | src/agent_farm/udfs.py:373-377 | The index found is that of a rule that holds, and every rule before it fails; the end of the table means none holds |
| Injection.AllOccurIff | src/agent_farm/udfs.py:360-362 | A rule holds exactly when every one of its words occurs somewhere in the text |
| Injection.DetectEarliestWins | src/agent_farm/udfs.py:359-377 | When several rules hold, the earliest one in the table decides the category |
| Injection.DetectCaseInsensitive | src/agent_farm/udfs.py:357 | Classifying a text and its lower-cased form gives the same answer |
| Injection.NeedleInLowered | src/agent_farm/udfs.py:357 | An occurrence of a lower-case word in the content survives lower-casing |
| Injection.CompoundRuleAnyOrder | src/agent_farm/udfs.py:360-362 | For each of the three compound rules, its two words anywhere, in either order and with anything between, give instruction_override |
| Injection.BothNeedlesOverride | src/agent_farm/udfs.py:360-362 | Both words of a compound rule occurring in any case force instruction_override |
| Injection.FirstOverrideRuleWins | src/agent_farm/udfs.py:360-362 | Any of the first three rules holding forces instruction_override |
| Injection.OverrideBeatsJailbreak | src/agent_farm/udfs.py:360-370 | Text with "jailbreak" and also "ignore" … "instruction" is classified instruction_override, not jailbreak |
| Injection.ClassifiedByRule | src/agent_farm/udfs.py:373-375 | A lower-case text on which rule k is the first to hold gets rule k's category |
| Injection.MissingNeedle | src/agent_farm/udfs.py:359-371 | A rule fails on text lacking a character of one of its words |
| Injection.BracketSystemExample | src/agent_farm/udfs.py:365 | "[system]" is system_injection |
| Injection.ClosingSystemTagExample | src/agent_farm/udfs.py:365-366 | "</system>" is xml_injection, not system_injection |
| Injection.InstructionTagExample | src/agent_farm/udfs.py:367 | "<instruction>" is xml_injection, although it contains "instruction" |
| Injection.UpperCaseOverride | src/agent_farm/udfs.py:357-360 | Upper-case "IGNORE" … "Instructions" is still instruction_override |
| JsonExtract.StripPathMarks | src/agent_farm/udfs.py:394 | The result is a suffix of the path; everything dropped is '$' or '.'; it does not itself start with either |
| JsonExtract.Step | src/agent_farm/udfs.py:396-402 | A dict step continues with `dict.get(key)`, null for a missing key; a list step continues exactly for an in-range digit key, with the item at `int(key)`; a scalar step gives up |
| JsonExtract.DecimalText | src/agent_farm/udfs.py:399 | The decimal text of an index is all digits, with no leading zero unless it is "0" |
| JsonExtract.DigitsValueOfText | src/agent_farm/udfs.py:399-400 | `int(str(i)) == i`: the decimal text of an index reads back as that index |
| JsonExtract.LeadingZeroIgnored | src/agent_farm/udfs.py:400 | A leading zero does not change the index a digit key denotes |
| JsonExtract.IndexKeyReachesItem | src/agent_farm/udfs.py:399-402 | On a list, key `str(i)` reaches `items[i]` when i is in range and stops the walk otherwise |
| JsonExtract.Walk | src/agent_farm/udfs.py:396-402 | No keys leave the value as it is; a scalar with keys left stops the walk; composition over key lists is WalkAppend |
| JsonExtract.Render | src/agent_farm/udfs.py:403 | The value is JSON-dumped exactly when it is a dict or list, and the dump is of that value; a scalar goes through `str`: null as "None", booleans as "True"/"False", a number as its text, a string as itself |
| JsonExtract.SafeJsonExtract | src/agent_farm/udfs.py:391-405 | Invalid JSON gives None, and so does a scalar document, since the path always has at least one key |
| JsonExtract.WalkAppend | src/agent_farm/udfs.py:396-402 | Walking a concatenated key list walks the first part, then the second from where it stopped |
| JsonExtract.PathMarksIgnored | src/agent_farm/udfs.py:394 | Any mix of leading '$' and '.' characters is ignored: they form a character set, not the literal prefix "$." |
| JsonExtract.StripMarksPrefix | src/agent_farm/udfs.py:394 | Stripping path marks removes any leading run of them |
| JsonExtract.PathOfKeys | src/agent_farm/udfs.py:394-395 | Keys without '.' joined with '.' split back into exactly those keys, when the first does not start with a path mark |
| JsonExtract.ExtractAfterPrefix | src/agent_farm/udfs.py:396-405 | Once the walk reaches a value: a scalar, a bad list index or non-digit key on a list gives None; a missing final dict key gives the text "None"; a missing inner key gives None |
| JsonExtract.ExtractLeaf | src/agent_farm/udfs.py:403 | The value at the end of the path is returned rendered: a container JSON-dumped, null as "None", a string as itself |
| JsonExtract.DollarDotPath | src/agent_farm/udfs.py:394-395 | "$.a.b.c" walks the keys a, b, c |
| JsonExtract.ObjectListObjectWalk | src/agent_farm/udfs.py:396-403 | A path through a dict, a list index and a dict again reaches and renders the inner value |
| Policy.PathInWorkspaceIsPrefix | tests/test_agent_config.py:132-135 | The macro holds exactly when the workspace is a prefix of the path: the `\|\| '/'` disjunct adds nothing |
| Policy.PathInWorkspace | tests/test_agent_config.py:132-135 | The macro as written; PathInWorkspaceIsPrefix characterises it as plain prefix matching |
| Policy.SiblingPrefixInside | tests/test_agent_config.py:132-135 | As written, a sibling directory whose name extends the workspace's is accepted, while the segment-aware check rejects it |
| Policy.InWorkspaceSegmentBoundary | tests/test_agent_config.py:132-135 | The segment-aware check accepts no more than the macro, and accepts exactly the workspace itself or a path continuing with '/' |
| Policy.InsideVectors | tests/test_agent_config.py:138-140 | A file directly under the workspace, or nested below it, is inside under both checks |
| Policy.SiblingVectorOutside | tests/test_agent_config.py:141 | "/home/user/other/file.py" is outside "/home/user/projects" |
| Policy.EtcVectorOutside | tests/test_agent_config.py:142 | "/etc/passwd" is outside "/home/user/projects" |
| Policy.PathVectors | tests/test_agent_config.py:138-147 | The four path vectors give the expected answers |
| Policy.AnyEntryMatches | tests/test_agent_config.py:172-174 | True exactly when some entry, lower-cased, occurs in the lower-cased command |
| Policy.IsBlockedCommand | tests/test_agent_config.py:168-176 | Blocking needs a policy row for the agent with a non-empty blocklist |
| Policy.BlockedIffEntryOccurs | tests/test_agent_config.py:168-176 | A command is blocked exactly when the agent has a row and some entry, lower-cased, is a substring of the lower-cased command |
| Policy.NoRowOrEmptyNeverBlocked | tests/test_agent_config.py:169-175 | An agent without a policy row, or with an empty blocklist, is never blocked |
| Policy.BlockedCaseInsensitive | tests/test_agent_config.py:174 | Blocking ignores the command's letter case |
| Policy.BlocklistMonotone | tests/test_agent_config.py:168-176 | Adding entries to a blocklist never unblocks a command |
| Policy.EntryBlocks | tests/test_agent_config.py:172-174 | A command containing a lower-case entry of the agent's list is blocked |
| Policy.BlockedVectors | tests/test_agent_config.py:179-189 | "rm -rf /", "mkfs.ext4 /dev/sda" and "sudo dd if=/dev/zero of=/dev/sda" are blocked for agent-1 |
| Policy.NotBlockedVectors | tests/test_agent_config.py:179-189 | "ls -la" and "git status" are not blocked for agent-1 |
| Policy.NotBlockedByChars | tests/test_agent_config.py:172-174 | A command lacking one character of every entry is not blocked |
| Policy.DefaultPolicyBlocksRmRf | src/agent_farm/main.py:246-253 | Under the default blocklist, "rm -rf" anywhere in a command, in any case, is blocked |
| Policy.Insert | tests/test_agent_config.py:199-210 | One insert appends a row carrying the sequence's current value, keeps ids strictly increasing, and advances the sequence |
| Policy.InsertAll | tests/test_agent_config.py:214-220 | A multi-row insert keeps the old rows, adds one row per value in list order with consecutive ids, and keeps ids strictly increasing |
| Policy.CountsSplit | tests/test_agent_config.py:223-226 | Counts by decision and by session add up over a concatenation |
| Policy.CountSessionAll | tests/test_agent_config.py:226 | When every row has the session, the session count is the number of rows |
| Policy.AuditScenario | tests/test_agent_config.py:195-227 | Three entries of one session get ids 1, 2, 3; one is a deny; the session counts 3 |
| Schemas.ParseWorkspaceMode | src/agent_farm/schemas.py:18-21 | A parsed member has the given string as its value |
| Schemas.ParseSecurityProfile | src/agent_farm/schemas.py:24-27 | A parsed member has the given string as its value |
| Schemas.ParseAgentRole | src/agent_farm/schemas.py:11-15 | A parsed member has the given string as its value |
| Schemas.ParseModelBackend | src/agent_farm/schemas.py:30-32 | A parsed member has the given string as its value |
| Schemas.EnumValuesRoundTrip | src/agent_farm/schemas.py:11-32 | Every enum member's value parses back to that member, so the values within each enum are distinct |
| Schemas.ShellOnlyForPower | src/agent_farm/schemas.py:128-141 | The shell is on in a profile's defaults exactly for the power profile |
| Schemas.SecurityDefaults | src/agent_farm/schemas.py:128-141 | The table for every profile; its shell flag is ShellOnlyForPower and its modes are DefaultModeInjective |
| Schemas.DefaultModeInjective | src/agent_farm/schemas.py:131-139 | Distinct profiles have distinct default workspace modes |
| Schemas.DefaultSecurityPolicy | src/agent_farm/schemas.py:75-90 | The row created for an agent carries that agent's id |
| Schemas.DefaultPolicyContents | src/agent_farm/schemas.py:75-90 | Default row: shell off, web on, blocklist has 'rm -rf', 'mkfs', 'dd if=', sensitive patterns have '*.env', '*.pem', '*.key' |
| Schemas.DefaultBlocklistWildcardFree | src/agent_farm/main.py:250-253 | No default blocklist entry holds '%' or '_', so the LIKE test on them is a substring test |
| Schemas.ColumnDefaultsAreEnumValues | src/agent_farm/schemas.py:36-90 | The column defaults 'readOnly', 'assistant', 'standard' and 'ollama_local' are values of their enums, and the policy default matches the standard profile's shell setting |
| Orgs.GetOrgConfig | src/agent_farm/orgs.py:368-370 | Empty (None) exactly for a kind with no entry; otherwise an entry's configuration, and with one entry per kind it is the configuration of every entry of that kind |
| Orgs.GetOrgPrompt | src/agent_farm/orgs.py:373-375 | The kind's prompt, or "" when it has none |
| Orgs.GetAllOrgIds | src/agent_farm/orgs.py:378-380 | One id per entry, in registry order |
| Orgs.ShippedOrgIds | src/agent_farm/orgs.py:13-208 | The shipped ids are dev-org, ops-org, research-org, studio-org, orchestrator-org, in that order |
| Orgs.ShippedLookupTotal | src/agent_farm/orgs.py:13-208 | Every organisation kind has a shipped configuration |
| Orgs.ShippedDistinctIds | src/agent_farm/orgs.py:13-208 | The shipped ids are pairwise distinct |
| Orgs.ShippedDistinctKinds | src/agent_farm/orgs.py:13-208 | The shipped registry has one entry per organisation type, as a dict literal does |
| Orgs.ToolStatements | src/agent_farm/orgs.py:409-416 | One tool upsert per listed tool, in order, requiring approval exactly when the tool is listed as requiring it |
| Orgs.DenialStatements | src/agent_farm/orgs.py:419-426 | One denial insert per triple, in config order, with only the reason escaped |
| Orgs.OrgStatements | src/agent_farm/orgs.py:388-426 | An organisation contributes its own upsert, one statement per tool and one per denial |
| Orgs.StatementAt | src/agent_farm/orgs.py:392-426 | By position, an organisation's statements are its org upsert, then its tool upserts, then its denial inserts |
| Orgs.SeedMember | src/agent_farm/orgs.py:388 | A statement is in the seed exactly when it is in the block of some organisation |
| Orgs.FieldReadsBack | src/agent_farm/orgs.py:389-390 | An escaped text reads back from its literal as itself; a raw one does exactly when it has no quote |
| Orgs.RawQuoteBreaksLiteral | src/agent_farm/orgs.py:395-400 | A raw text holding a lone quote does not read back as a literal |
| Orgs.MapAllAppend | src/agent_farm/orgs.py:386-428 | Reading back a concatenation succeeds with the concatenation of the two read-backs |
| Orgs.DecodeAllAppend | src/agent_farm/orgs.py:386-428 | The same, for the seed's statements |
| Orgs.DecodeTools | src/agent_farm/orgs.py:409-416 | Tool upserts with quote-free id and names read back unchanged |
| Orgs.DecodeDenials | src/agent_farm/orgs.py:419-426 | Denial inserts with quote-free id, type and pattern read back as the unescaped triples |
| Orgs.DecodeOrg | src/agent_farm/orgs.py:389-426 | An organisation's escaped statements read back as the unescaped ones |
| Orgs.DecodeSeed | src/agent_farm/orgs.py:384-428 | The whole generated seed reads back as the statements built from the registry's texts |
| Orgs.SeedStatements | src/agent_farm/orgs.py:387-426 | The statements in registry order; SeedMember gives its membership per organisation and DecodeSeed its read-back |
| Orgs.GenerateOrgSeed | src/agent_farm/orgs.py:384-428 | The generated seed as rendered, with quotes doubled; DecodeSeed reads it back |
| Orgs.Exec | src/agent_farm/orgs.py:392-425 | After a statement its values are in the tables; existing denials keep their reasons; existing organisations keep name, kind, description and flag; a new organisation or denial gets the statement's values; every other key and every other table is unchanged |
| Orgs.ExecAllOrgFrame | src/agent_farm/orgs.py:392-405 | An organisation row that no statement of a list upserts is unchanged, present or absent |
| Orgs.ExecAllToolFrame | src/agent_farm/orgs.py:412-416 | A tool row that no statement of a list upserts is unchanged, present or absent |
| Orgs.ExecAllDenialFrame | src/agent_farm/orgs.py:422-425 | A denial row that no statement of a list inserts is unchanged, present or absent |
| Orgs.ReflectedIffNoOp | src/agent_farm/orgs.py:402-425 | Executing a statement changes nothing exactly when the tables already reflect it |
| Orgs.ExecKeeps | src/agent_farm/orgs.py:402-425 | An agreeing statement's effect is not undone |
| Orgs.ExecAllKeeps | src/agent_farm/orgs.py:402-425 | Statements that all agree with a reflected one keep it reflected |
| Orgs.ExecAllReflects | src/agent_farm/orgs.py:402-425 | After a consistent list has run, the tables reflect every statement of it |
| Orgs.ExecAllNoOp | src/agent_farm/orgs.py:402-425 | Tables already reflecting every statement of a list are left unchanged by it |
| Orgs.ExecAllIdempotent | src/agent_farm/orgs.py:402-425 | Running a consistent list twice is running it once |
| Orgs.ExecAllKeepsDenials | src/agent_farm/orgs.py:425 | DO NOTHING: a denial row, once present, keeps its reason |
| Orgs.ExecAllKeepsIdentity | src/agent_farm/orgs.py:402-405 | DO UPDATE touches models and prompt only: name, kind, description and the enabled flag stay |
| Orgs.BlockFromRegistry | src/agent_farm/orgs.py:392-416 | Every upsert of an organisation's block carries the registry's own values for that organisation |
| Orgs.FromRegistryAgree | src/agent_farm/orgs.py:402-415 | With distinct ids, two upserts carrying registry values on one key carry the same values |
| Orgs.SeedConsistent | src/agent_farm/orgs.py:384-428 | With distinct ids, the seed never upserts one key with two different values |
| Orgs.SeedReflected | src/agent_farm/orgs.py:384-428 | For well-formed registries with distinct ids, the seed always applies and leaves every statement reflected |
| Orgs.SeedIdempotent | src/agent_farm/orgs.py:384-428 | Applying the seed twice gives the same tables as applying it once |
| Orgs.SeedToolRow | src/agent_farm/orgs.py:409-416 | After seeding, every listed tool has an enabled row, requiring approval exactly when listed as requiring it |
| Orgs.SeedOrgRow | src/agent_farm/orgs.py:392-405 | After seeding, every organisation has a row with its models and its prompt |
| Orgs.SeedDenialRow | src/agent_farm/orgs.py:419-426 | After seeding, every denial triple has a row |
| Orgs.SeedKeepsExisting | src/agent_farm/orgs.py:402-425 | Seeding never alters an existing denial or an existing organisation's identity |
| Orgs.BlockKeys | src/agent_farm/orgs.py:387-425 | Every key an organisation's statements write is its id, one of its tools or one of its denials |
| Orgs.SeedFrame | src/agent_farm/orgs.py:384-428 | Seeding writes only the ids `get_all_org_ids()` lists and the tools and denials listed for them; every other row is left as it was |
| Orgs.SoundFromParts | src/agent_farm/orgs.py:13-208 | A configuration that meets each rule separately meets all of them together |
| Orgs.DevSound | src/agent_farm/orgs.py:17-51 | The dev configuration has quote-free raw texts; approvals are listed tools; no listed tool is denied |
| Orgs.OpsSound | src/agent_farm/orgs.py:52-99 | The same for the ops configuration |
| Orgs.ResearchSound | src/agent_farm/orgs.py:100-139 | The same for the research configuration |
| Orgs.StudioSound | src/agent_farm/orgs.py:140-177 | The same for the studio configuration |
| Orgs.OrchestratorSound | src/agent_farm/orgs.py:178-207 | The same for the orchestrator configuration |
| Orgs.ShippedSound | src/agent_farm/orgs.py:13-208 | Every shipped configuration keeps these rules, and the registry is fit for the seed generator |
| Orgs.ShippedSeedIdempotent | src/agent_farm/orgs.py:384-428 | The shipped seed always applies, and applying it twice equals applying it once, whatever the prompts and the starting tables |
| SqlLiteral.Escape | src/agent_farm/orgs.py:389-390 | Every quote is doubled, so the length grows by the number of quotes; quote-free text is unchanged |
| SqlLiteral.Unescape | src/agent_farm/orgs.py:389-390 | The value a literal body denotes is never longer than the body; UnescapeEscape and EscapeUnescape make it the inverse of Escape |
| SqlLiteral.UnescapeEscape | src/agent_farm/orgs.py:389-390 | Un-doubling recovers the original text |
| SqlLiteral.EscapeUnescape | src/agent_farm/orgs.py:389-390 | Every well-formed literal body is the escape of the value it denotes |
| SqlLiteral.UnescapeInjective | src/agent_farm/orgs.py:389-390 | Distinct well-formed bodies denote distinct values |
| SqlLiteral.QuoteFreeLiteral | src/agent_farm/orgs.py:395-400 | A body without the quote denotes itself |
| SqlLiteral.EscapedQuotesPaired | src/agent_farm/orgs.py:421 | In escaped text every quote is one half of a doubled pair: there is no lone quote |
| SqlSplit.SplitStatements | src/agent_farm/main.py:23-61 | The scanning loop returns exactly the reference result: the trimmed raw segments its keep-test accepts, in order |
| SqlSplit.ScanStep | src/agent_farm/main.py:31-54 | One turn of the loop moves forward and keeps the scanner state consistent with the segmentation |
| SqlSplit.AnyContentLineIff | src/agent_farm/spec_engine.py:102-108 | The line scan finds SQL exactly when some stripped line is non-empty and not a comment |
| SqlSplit.HasNonCommentContent | src/agent_farm/spec_engine.py:102-108 | The line test; ContentLinesEmptyIff and AnyContentLineIff characterise it |
| SqlSplit.SelectKeeps | src/agent_farm/main.py:47-59 | Every emitted statement is trimmed and passes the keep-test |
| SqlSplit.SelectAllKept | src/agent_farm/spec_engine.py:123-127 | Trimmed statements that all pass the test are kept as they are |
| SqlSplit.SelectIdempotent | src/agent_farm/spec_engine.py:123-127 | Filtering again with the same test keeps everything |
| SqlSplit.SelectAppend | src/agent_farm/main.py:47-59 | Filtering distributes over concatenation, so statements keep input order |
| SqlSplit.FinishPieces | src/agent_farm/main.py:56-59 | At the end of input, the current piece is emitted under the same test as every other piece |
| SqlSplit.SegmentsJoin | src/agent_farm/main.py:31-54 | The raw pieces joined with ';' give back the input exactly |
| SqlSplit.Segments | src/agent_farm/main.py:31-54 | The raw pieces of the scan, at least one; SegmentsJoin is its inverse |
| SqlSplit.EscapedBodyStaysOpen | src/agent_farm/main.py:38-42 | Inside a literal, an escaped value's doubled quotes never close it, and the closing quote does |
| SqlSplit.QuotedLiteralIsAtomic | src/agent_farm/main.py:34-47 | An escaped value wrapped in its quotes stays inside one piece, ';' included |
| SqlSplit.PlainText | src/agent_farm/main.py:52-53 | Text without quotes or ';' is copied into the current piece |
| SqlSplit.QuotedText | src/agent_farm/main.py:38-53 | Inside a literal, text without its quote is copied: ';' does not split |
| SqlSplit.CommentQuoteOpensLiteral | src/agent_farm/main.py:34-37 | There are no comments: a quote after "--" opens a literal, which then swallows later ';' |
| SqlSplit.StatementThenRest | src/agent_farm/main.py:47-51 | A top-level ';' ends a piece |
| SqlSplit.TrailingStatementKept | tests/test_macros.py:45-49 | Trailing text without ';' is still emitted when it passes the test |
| SqlSplit.MainKeepImpliesSpecKeep | src/agent_farm/spec_engine.py:164 | A statement the server keeps is kept by the spec engine's test |
| SqlSplit.SelectMonotone | src/agent_farm/main.py:49 | A stronger keep-test selects a subsequence of what a weaker one selects |
| SqlSplit.MainOutputSubseqOfSpec | src/agent_farm/spec_engine.py:137-176 | On every input the server's output is a subsequence of `_split_sql`'s; the two share one segmentation |
| SqlSplit.HeaderCommentStatement | src/agent_farm/spec_engine.py:164 | "-- header" then SQL is dropped by the server but kept by `_split_sql` |
| SqlSplit.ContentLines | src/agent_farm/main.py:377-381 | Every kept line is one of the input lines, non-blank and not a comment, and there are no more of them than lines |
| SqlSplit.ContentLinesEmptyIff | tests/test_macros.py:85-89 | The list of content lines is non-empty exactly when `_has_non_comment_content` holds |
| SqlSplit.MacroExecutesIff | tests/test_macros.py:85-89 | The comment-only skip filter is `_has_non_comment_content` |
| SqlSplit.EmptyHasNoContent | src/agent_farm/spec_engine.py:102-108 | The empty text has no SQL |
| SqlSplit.LoadMacroExecutesAll | src/agent_farm/main.py:376-382 | `load_sql_macros` never skips a statement of the server's splitter |
| SqlSplit.LoadSqlFileExecutesAll | src/agent_farm/spec_engine.py:123-127 | `_load_sql_file` never skips a statement of `_split_sql` |
| McpConfig.SectionOf | src/agent_farm/main.py:104-110 | On a dict: no error, the "mcpServers" value when that key is present, else the "servers" value, else no section. On a list or string: never a section, and an error exactly when a key is an element or a substring. On a number, boolean or null: an error |
| McpConfig.Tagged | src/agent_farm/main.py:108 | The entry keeps every key of the server and adds "source", which is the path unless the server has its own |
| McpConfig.MergeSection | src/agent_farm/main.py:107-112 | Merge succeeds exactly for a dict of dicts; names are old ∪ section; section entries are tagged; others unchanged |
| McpConfig.ExtractFrom | src/agent_farm/main.py:103-113 | The loop over the files; ExtractFromFails, ExtractFromKeeps, ExtractFromLastWins and ExtractFromOnlyDefined state its outcome |
| McpConfig.ExtractMcpServers | src/agent_farm/main.py:98-113 | The call from an empty table; ExtractMcpServersSpec states its outcome |
| McpConfig.ExtractFromFails | src/agent_farm/main.py:103-113 | The merge raises exactly when some file's contents raise on their own: `in` on a scalar, a key found in a list or string, or a chosen section that is not a dict of dicts |
| McpConfig.FaultyDefinesContents | src/agent_farm/main.py:104-112 | A file is faulty exactly when its contents raise, and defines a server exactly when the section chosen by key names it |
| McpConfig.ExtractFromKeeps | src/agent_farm/main.py:103-113 | A server no file defines keeps its earlier entry |
| McpConfig.ExtractFromLastWins | src/agent_farm/main.py:103-113 | A server's entry is the one from the last file that defines it |
| McpConfig.ExtractFromOnlyDefined | src/agent_farm/main.py:103-113 | A merged new server was defined by some file |
| McpConfig.ExtractMcpServersSpec | src/agent_farm/main.py:98-113 | Without the loop, stated on the files' contents: there is a result unless some file's contents raise, and it names exactly the servers in the section each file chooses, "mcpServers" before "servers" |
| McpConfig.LaterFileWins | src/agent_farm/main.py:103-113 | Two files defining one server: the later file's settings win |
| McpConfig.McpServersTakesPrecedence | src/agent_farm/main.py:104-107 | A "mcpServers" section shadows a "servers" section of the same file |
| McpConfig.ServersSectionUsed | src/agent_farm/main.py:110-112 | Without "mcpServers", the "servers" section is merged, tagged with the file's path |
| McpConfig.McpServersSectionUsed | src/agent_farm/main.py:106-108 | A "mcpServers" section that is a dict of dicts is merged, each server tagged with the file's path |
| SpecEngine.StepsThrough | src/agent_farm/spec_engine.py:57-67 | A raising step has run after exactly the steps before it, in order |
| SpecEngine.Initialize | src/agent_farm/spec_engine.py:48-69 | An initialized engine is left alone; the flag is set exactly after a completed call; the log of steps only grows |
| SpecEngine.InitializedIsFixed | src/agent_farm/spec_engine.py:52-53 | Once initialized, no series of further calls changes anything |
| SpecEngine.SucceedingCallsLoadOnce | src/agent_farm/spec_engine.py:52-69 | Calls that all succeed run every loading step exactly once |
| SpecEngine.RetryAfterRaise | src/agent_farm/spec_engine.py:57-69 | A raising call leaves the flag unset, so the next call starts over at the first step |
| SpecEngine.InitializedIffSomeCallCompleted | src/agent_farm/spec_engine.py:48-69 | After a series of calls the flag is set exactly when some call completed |
| Startup.ImportFails | src/agent_farm/main.py:484 | A `from … import` fails exactly when the module lacks one of the names |
| Startup.SeedAtStartup | src/agent_farm/main.py:482-498 | A failed import leaves the tables as they were; otherwise the generated seed runs |
| Startup.SeedSkippedAsWritten | src/agent_farm/orgs.py:7 | As written the import fails, the seed is skipped, and tables without organisations stay without them |
| Startup.SeedRunsWithOrgType | src/agent_farm/main.py:482-494 | With an `OrgType` defined by the schemas module the seed runs and every shipped organisation has its row |
| Startup.SeedOrgRows | src/agent_farm/orgs.py:392-405 | After seeding a well-formed registry with distinct ids every organisation has a row |
| Strings.LowerStrIdempotent | src/agent_farm/udfs.py:357 | Lower-casing twice is lower-casing once |
| Strings.StripIdempotent | src/agent_farm/spec_engine.py:124 | Stripping twice is stripping once |
| Strings.StripInfix | src/agent_farm/main.py:48 | Stripping keeps a contiguous middle part of the text |
| Strings.SplitJoin | src/agent_farm/spec_engine.py:104 | Joining the parts of a split with its separator reproduces the input |
| Strings.JoinSplit | src/agent_farm/udfs.py:395 | Parts free of the separator survive a join followed by a split |

## Left out

- Everything that runs inside DuckDB or needs I/O is out of scope: extension loading, DDL, reading SQL files, the MCP and HTTP servers, config file discovery. Table effects are modelled only for the three seed tables and the audit log.
- Spec-catalog queries, the meta-learning statistics and the LLM clients are foreign engine calls, floating point or network.
- String functions are ASCII only. Python's Unicode `lower()`, `strip()` and `isdigit()` are not modelled.
- `json.loads` and `json.dumps` are taken as given. The document arrives parsed, or as `None` when it is invalid; a number carries its `str()` text.
- Policy.IsBlockedCommand: entries are matched as plain substrings. DuckDB's LIKE would treat '%' and '_' in an entry as wildcards. The default entries hold neither character (Schemas.DefaultBlocklistWildcardFree).
- Policy.Insert: the audit `timestamp DEFAULT now()` column is not modelled, because it reads the clock.
- Orgs.OrgRow: the `created_at` column is not modelled, because it reads the clock.
- Orgs.ApplySeed: the server splits the seed text with a plain `split(";")` and runs each piece in its own try block. The model instead runs the statements the generator builds, and gives `None` as soon as one does not read back.
  - The raw fields of the shipped configurations hold no quote (Orgs.ShippedSound).
  - No member states that the shipped texts hold no ';'. That they hold none, descriptions, reasons and prompts included (orgs.py:13-365), was established by reading them. With both facts, the two agree on the shipped registry.
  - A ';' inside a text would cut a statement in two, and that is not modelled.
- Orgs.OrgKind: the string values of the organisation type (`org_type.value`) are not modelled, and the rows store the kind itself. The organisations module imports this enum from the schemas module, which does not define it (see Findings). Every seed lemma outside `Startup` assumes the import succeeds.
- Orgs.ShippedSeedIdempotent: "whatever the prompts" holds in the statement model only. The server cuts the seed text at every ';' (main.py:487), so a prompt holding ';' would be cut in two. The shipped prompts hold none.
- Orgs.GetOrgConfig: a registry value may repeat a kind, which a dict cannot. The `dict.get` reading is stated under DistinctKinds, which the shipped registry keeps (Orgs.ShippedDistinctKinds). GetAllOrgIds lists one id per entry either way.
- Orgs.GetOrgPrompt: the system prompt texts are a parameter, not literal strings.
- SpecEngine.Initialize: the loading steps are opaque. The model records which ran and which one raised. The "if tables are empty" check of the seed step happens inside that step and is not modelled.
- McpConfig.ExtractMcpServers: the result is a map. The insertion order of the Python dict is not modelled.
- The seed statements are structured values rather than SQL text. Their literal fields are the escaped texts, and reading them back is what the database's literal parser does. The SQL keywords around them are not modelled.

## Findings

| source | as written | input that shows it | evidently intended | confidence | as-written member | corrected member |
|---|---|---|---|---|---|---|
| tests/test_agent_config.py:132-135 | `starts_with(p, w) OR starts_with(p, w \|\| '/')`: the second disjunct implies the first, so this is plain prefix matching | p = "/home/user/projects2/x", w = "/home/user/projects" is accepted as inside | the path is the workspace itself or continues with '/' after it | medium, not executed | Policy.SiblingPrefixInside | Policy.InWorkspaceSegmentBoundary |
| src/agent_farm/orgs.py:7 | `from .schemas import OrgType, …`, but the schemas module defines no `OrgType` (schemas.py:8-141). The import at main.py:484 raises `ImportError`, and main.py:495-496 skip the seed | any server start-up: the seed never runs, so an empty `orgs` table stays empty | the schemas module defines an `OrgType` enum of the five organisation types, and the seed runs | high, not executed | Startup.SeedSkippedAsWritten | Startup.SeedRunsWithOrgType |
