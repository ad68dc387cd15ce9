/** `extract_mcp_servers(configs)`: merge the server sections of the MCP
    configuration files found on disk into one table of servers. */
module McpConfig {
  import opened Strings
  import opened JsonValue

  /** One server's settings, and the merged table keyed by server name. */
  type Server = map<string, Json>
  type Servers = map<string, Server>

  /** A discovered file: its path and its parsed contents. */
  type ConfigFile = (string, Json)

  /** What the two membership tests of the loop make of one file's contents:
      no section, the section to merge, or an exception out of the whole
      call. */
  datatype Lookup = NoSection | Section(section: Json) | Raises

  /** The Python `in` test and subscript on the parsed contents. On a dict
      "mcpServers" is looked up first and "servers" only without it; on a
      list `in` compares elements and the string subscript raises; on a
      string `in` is a substring test and the subscript raises; on a number,
      a boolean or null `in` itself raises. */
  function SectionOf(data: Json): (r: Lookup)
    ensures data.JObj? ==> !r.Raises?
    ensures r.Section? ==> data.JObj?
    ensures data.JObj? ==> (r.NoSection? <==> "mcpServers" !in data.fields && "servers" !in data.fields)
    ensures data.JObj? && "mcpServers" in data.fields ==> r == Section(data.fields["mcpServers"])
    ensures data.JObj? && "mcpServers" !in data.fields && "servers" in data.fields ==>
              r == Section(data.fields["servers"])
    ensures data.JArr? ==>
              !r.Section? && (r.Raises? <==> JStr("mcpServers") in data.items || JStr("servers") in data.items)
    ensures data.JStr? ==>
              !r.Section? && (r.Raises? <==> Contains(data.s, "mcpServers") || Contains(data.s, "servers"))
    ensures data.JNum? || data.JBool? || data.JNull? ==> r.Raises?
  {
    match data
    case JObj(f) =>
      if "mcpServers" in f then Section(f["mcpServers"])
      else if "servers" in f then Section(f["servers"])
      else NoSection
    case JArr(items) =>
      if JStr("mcpServers") in items || JStr("servers") in items then Raises else NoSection
    case JStr(s) =>
      if Contains(s, "mcpServers") || Contains(s, "servers") then Raises else NoSection
    case _ => Raises
  }

  /** `{"source": path, **cfg}`: the spread comes second, so a "source" key of
      the server's own settings replaces the path. */
  function Tagged(path: string, cfg: Server): (r: Server)
    ensures "source" in r
    ensures r["source"] == (if "source" in cfg then cfg["source"] else JStr(path))
    ensures forall k :: k in cfg ==> k in r && r[k] == cfg[k]
    ensures forall k :: k in r ==> k in cfg || k == "source"
  {
    map["source" := JStr(path)] + cfg
  }

  /** Every entry of a section is a dict, as the `**` spread demands. */
  predicate AllObjects(fields: map<string, Json>) {
    forall n :: n in fields ==> fields[n].JObj?
  }

  /** A section can be merged when it is a dict of dicts; otherwise `.items()`
      or the spread raises. */
  predicate Mergeable(section: Json) {
    section.JObj? && AllObjects(section.fields)
  }

  /** Merge one section: each of its servers, tagged with the file's path,
      replaces any server of the same name merged before. */
  function MergeSection(servers: Servers, path: string, section: Json): (r: Option<Servers>)
    ensures r.Some? <==> Mergeable(section)
    ensures r.Some? ==> forall n :: n in r.value <==> n in servers || n in section.fields
    ensures r.Some? ==> forall n :: n in section.fields ==> r.value[n] == Tagged(path, section.fields[n].fields)
    ensures r.Some? ==> forall n :: n in servers && n !in section.fields ==> r.value[n] == servers[n]
  {
    if Mergeable(section) then
      Some(servers + map n | n in section.fields :: Tagged(path, section.fields[n].fields))
    else None
  }

  /** The loop over the files from a table already merged; `None` stands for
      the exception that ends the call. */
  function ExtractFrom(servers: Servers, configs: seq<ConfigFile>): Option<Servers>
    decreases |configs|
  {
    if |configs| == 0 then Some(servers)
    else
      match SectionOf(configs[0].1)
      case NoSection => ExtractFrom(servers, configs[1..])
      case Raises => None
      case Section(sec) =>
        match MergeSection(servers, configs[0].0, sec)
        case None => None
        case Some(merged) => ExtractFrom(merged, configs[1..])
  }

  function ExtractMcpServers(configs: seq<ConfigFile>): Option<Servers> {
    ExtractFrom(map[], configs)
  }

  // ---------------------------------------------------------------------------
  // Reference description of the merge
  // ---------------------------------------------------------------------------

  /** A file whose contents make the call raise. */
  predicate Faulty(c: ConfigFile) {
    SectionOf(c.1).Raises? || (SectionOf(c.1).Section? && !Mergeable(SectionOf(c.1).section))
  }

  /** A file whose merged section names server `n`. */
  predicate Defines(c: ConfigFile, n: string) {
    SectionOf(c.1).Section? && SectionOf(c.1).section.JObj? && n in SectionOf(c.1).section.fields
  }

  /** The contents that make the loop raise, stated on the contents
      themselves: `in` on a number, a boolean or null; the string subscript
      once `in` has found a key among a list's elements or in a string; or
      the chosen section, "mcpServers" before "servers", not being a dict
      of dicts. */
  predicate RaisesOn(data: Json) {
    match data
    case JObj(f) =>
      if "mcpServers" in f then !Mergeable(f["mcpServers"])
      else "servers" in f && !Mergeable(f["servers"])
    case JArr(items) => JStr("mcpServers") in items || JStr("servers") in items
    case JStr(t) => Contains(t, "mcpServers") || Contains(t, "servers")
    case _ => true
  }

  /** The contents name server `n` in the section the loop chooses:
      "mcpServers" when present, "servers" otherwise. */
  predicate DefinedIn(data: Json, n: string) {
    data.JObj? &&
    if "mcpServers" in data.fields then data.fields["mcpServers"].JObj? && n in data.fields["mcpServers"].fields
    else "servers" in data.fields && data.fields["servers"].JObj? && n in data.fields["servers"].fields
  }

  /** `Faulty` and `Defines` are the contents-level descriptions. */
  lemma FaultyDefinesContents(c: ConfigFile, n: string)
    ensures Faulty(c) <==> RaisesOn(c.1)
    ensures Defines(c, n) <==> DefinedIn(c.1, n)
  {
  }

  /** The settings file `c` gives server `n`, tagged with its path. */
  function Entry(c: ConfigFile, n: string): Server
    requires Defines(c, n) && Mergeable(SectionOf(c.1).section)
  {
    Tagged(c.0, SectionOf(c.1).section.fields[n].fields)
  }

  /** The merge raises exactly when one of the files is faulty. */
  lemma {:induction false} ExtractFromFails(servers: Servers, configs: seq<ConfigFile>)
    ensures ExtractFrom(servers, configs).None? <==> exists i :: 0 <= i < |configs| && Faulty(configs[i])
    ensures ExtractFrom(servers, configs).None? <==> exists i :: 0 <= i < |configs| && RaisesOn(configs[i].1)
    decreases |configs|
  {
    forall i | 0 <= i < |configs|
      ensures Faulty(configs[i]) <==> RaisesOn(configs[i].1)
    {
      FaultyDefinesContents(configs[i], "");
    }
    if |configs| > 0 {
      var next := match SectionOf(configs[0].1)
                  case Section(sec) => (if Mergeable(sec) then MergeSection(servers, configs[0].0, sec).value else servers)
                  case _ => servers;
      ExtractFromFails(next, configs[1..]);
      if exists i :: 0 <= i < |configs| && Faulty(configs[i]) {
        var i :| 0 <= i < |configs| && Faulty(configs[i]);
        if i > 0 { assert configs[1..][i - 1] == configs[i]; }
      }
      if exists i :: 0 <= i < |configs| - 1 && Faulty(configs[1..][i]) {
        var i :| 0 <= i < |configs| - 1 && Faulty(configs[1..][i]);
        assert configs[i + 1] == configs[1..][i];
      }
    }
  }

  /** A server no file defines keeps what the table held before. */
  lemma {:induction false} ExtractFromKeeps(servers: Servers, configs: seq<ConfigFile>, n: string)
    requires ExtractFrom(servers, configs).Some?
    requires forall i :: 0 <= i < |configs| ==> !Defines(configs[i], n)
    ensures n in ExtractFrom(servers, configs).value <==> n in servers
    ensures n in servers ==> ExtractFrom(servers, configs).value[n] == servers[n]
    decreases |configs|
  {
    if |configs| > 0 {
      assert !Defines(configs[0], n);
      match SectionOf(configs[0].1)
      case NoSection => ExtractFromKeeps(servers, configs[1..], n);
      case Section(sec) =>
        ExtractFromKeeps(MergeSection(servers, configs[0].0, sec).value, configs[1..], n);
    }
  }

  /** The server named `n` is the one of the last file that defines it. */
  lemma {:induction false} ExtractFromLastWins(servers: Servers, configs: seq<ConfigFile>, n: string, i: nat)
    requires ExtractFrom(servers, configs).Some?
    requires i < |configs| && Defines(configs[i], n)
    requires forall j :: i < j < |configs| ==> !Defines(configs[j], n)
    ensures Mergeable(SectionOf(configs[i].1).section)
    ensures n in ExtractFrom(servers, configs).value
    ensures ExtractFrom(servers, configs).value[n] == Entry(configs[i], n)
    decreases |configs|
  {
    var sec := SectionOf(configs[0].1);
    if i == 0 {
      var merged := MergeSection(servers, configs[0].0, sec.section).value;
      forall j | 0 <= j < |configs| - 1
        ensures !Defines(configs[1..][j], n)
      {
        assert configs[1..][j] == configs[j + 1];
      }
      ExtractFromKeeps(merged, configs[1..], n);
    } else {
      var next := if sec.Section? then MergeSection(servers, configs[0].0, sec.section).value else servers;
      assert configs[1..][i - 1] == configs[i];
      forall j | i - 1 < j < |configs| - 1
        ensures !Defines(configs[1..][j], n)
      {
        assert configs[1..][j] == configs[j + 1];
      }
      ExtractFromLastWins(next, configs[1..], n, i - 1);
    }
  }

  /** A merged server was defined by some file. */
  lemma {:induction false} ExtractFromOnlyDefined(servers: Servers, configs: seq<ConfigFile>, n: string)
    requires ExtractFrom(servers, configs).Some?
    requires n in ExtractFrom(servers, configs).value && n !in servers
    ensures exists i :: 0 <= i < |configs| && Defines(configs[i], n)
    decreases |configs|
  {
    if |configs| > 0 {
      var sec := SectionOf(configs[0].1);
      if !Defines(configs[0], n) {
        var next := if sec.Section? then MergeSection(servers, configs[0].0, sec.section).value else servers;
        ExtractFromOnlyDefined(next, configs[1..], n);
        var i :| 0 <= i < |configs| - 1 && Defines(configs[1..][i], n);
        assert configs[i + 1] == configs[1..][i];
      }
    }
  }

  /** The merged table, described without the loop: it exists unless a file
      is faulty, and it names exactly the servers some file defines. Which
      file's settings a server holds is `ExtractFromLastWins`. */
  lemma ExtractMcpServersSpec(configs: seq<ConfigFile>, n: string)
    ensures ExtractMcpServers(configs).None? <==> exists i :: 0 <= i < |configs| && Faulty(configs[i])
    ensures ExtractMcpServers(configs).Some? ==>
              (n in ExtractMcpServers(configs).value <==> exists i :: 0 <= i < |configs| && Defines(configs[i], n))
    ensures ExtractMcpServers(configs).None? <==> exists i :: 0 <= i < |configs| && RaisesOn(configs[i].1)
    ensures ExtractMcpServers(configs).Some? ==>
              (n in ExtractMcpServers(configs).value <==> exists i :: 0 <= i < |configs| && DefinedIn(configs[i].1, n))
  {
    forall i | 0 <= i < |configs|
      ensures Faulty(configs[i]) <==> RaisesOn(configs[i].1)
      ensures Defines(configs[i], n) <==> DefinedIn(configs[i].1, n)
    {
      FaultyDefinesContents(configs[i], n);
    }
    ExtractFromFails(map[], configs);
    if ExtractMcpServers(configs).Some? {
      if n in ExtractMcpServers(configs).value {
        ExtractFromOnlyDefined(map[], configs, n);
      }
      if exists i :: 0 <= i < |configs| && Defines(configs[i], n) {
        var i := LastDefining(configs, n);
        ExtractFromLastWins(map[], configs, n, i);
      }
    }
  }

  /** The index of the last file defining `n`. */
  lemma LastDefining(configs: seq<ConfigFile>, n: string) returns (i: nat)
    requires exists i :: 0 <= i < |configs| && Defines(configs[i], n)
    ensures i < |configs| && Defines(configs[i], n)
    ensures forall j :: i < j < |configs| ==> !Defines(configs[j], n)
  {
    var k :| 0 <= k < |configs| && Defines(configs[k], n);
    i := k;
    while i + 1 < |configs| && exists j :: i < j < |configs| && Defines(configs[j], n)
      invariant i < |configs| && Defines(configs[i], n)
      decreases |configs| - i
    {
      var j :| i < j < |configs| && Defines(configs[j], n);
      i := j;
    }
  }

  /** With a later file redefining a server, the later file's settings win. */
  lemma LaterFileWins(a: ConfigFile, b: ConfigFile, n: string)
    requires !Faulty(a) && !Faulty(b) && Defines(a, n) && Defines(b, n)
    ensures ExtractMcpServers([a, b]).Some? && n in ExtractMcpServers([a, b]).value
    ensures ExtractMcpServers([a, b]).value[n] == Entry(b, n)
  {
    ExtractFromFails(map[], [a, b]);
    ExtractFromLastWins(map[], [a, b], n, 1);
  }

  /** Within one file a "mcpServers" section shadows a "servers" section:
      dropping the latter changes nothing. */
  lemma McpServersTakesPrecedence(path: string, f: map<string, Json>, rest: seq<ConfigFile>)
    requires "mcpServers" in f
    ensures ExtractMcpServers([(path, JObj(f))] + rest) ==
            ExtractMcpServers([(path, JObj(f - {"servers"}))] + rest)
  {
    var a := [(path, JObj(f))] + rest;
    var b := [(path, JObj(f - {"servers"}))] + rest;
    assert a[1..] == rest && b[1..] == rest;
    assert SectionOf(a[0].1) == SectionOf(b[0].1);
  }

  /** Without "mcpServers", a "servers" section is merged. */
  lemma ServersSectionUsed(path: string, f: map<string, Json>, n: string)
    requires "mcpServers" !in f && "servers" in f && Mergeable(f["servers"]) && n in f["servers"].fields
    ensures ExtractMcpServers([(path, JObj(f))]).Some? && n in ExtractMcpServers([(path, JObj(f))]).value
    ensures ExtractMcpServers([(path, JObj(f))]).value[n] == Tagged(path, f["servers"].fields[n].fields)
  {
    ExtractFromFails(map[], [(path, JObj(f))]);
    ExtractFromLastWins(map[], [(path, JObj(f))], n, 0);
  }

  /** A "mcpServers" section is the one merged, whatever else the file
      holds. */
  lemma McpServersSectionUsed(path: string, f: map<string, Json>, n: string)
    requires "mcpServers" in f && Mergeable(f["mcpServers"]) && n in f["mcpServers"].fields
    ensures ExtractMcpServers([(path, JObj(f))]).Some? && n in ExtractMcpServers([(path, JObj(f))]).value
    ensures ExtractMcpServers([(path, JObj(f))]).value[n] == Tagged(path, f["mcpServers"].fields[n].fields)
  {
    ExtractFromFails(map[], [(path, JObj(f))]);
    ExtractFromLastWins(map[], [(path, JObj(f))], n, 0);
  }
}
