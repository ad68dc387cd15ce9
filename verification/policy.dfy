/** The policy predicates of the agent configuration: the workspace path
    check `path_in_workspace`, the shell blocklist check `is_blocked_command`
    and the sequence-numbered audit log. */
module Policy {
  import opened Strings
  import opened Schemas

  // ---------------------------------------------------------------------------
  // path_in_workspace
  // ---------------------------------------------------------------------------

  /** The macro as written: `starts_with(p, w) OR starts_with(p, w || '/')`. */
  predicate PathInWorkspace(p: string, w: string) {
    StartsWith(p, w) || StartsWith(p, w + "/")
  }

  /** The second disjunct implies the first, so the check is plain prefix
      matching. */
  lemma PathInWorkspaceIsPrefix(p: string, w: string)
    ensures PathInWorkspace(p, w) <==> StartsWith(p, w)
  {
    if StartsWith(p, w + "/") {
      assert p[..|w|] == (w + "/")[..|w|];
    }
  }

  /** Prefix matching ignores path segments: a sibling directory whose name
      extends the workspace name, such as "/home/user/projects2/x" against
      "/home/user/projects", counts as inside. */
  lemma SiblingPrefixInside(w: string, tail: string, rest: string)
    requires tail != [] && tail[0] != '/'
    ensures PathInWorkspace(w + tail + rest, w)
    ensures !InWorkspaceSegment(w + tail + rest, w)
  {
    var p := w + tail + rest;
    assert p[..|w|] == w;
    assert p[|w|] == tail[0];
    InWorkspaceSegmentBoundary(p, w);
  }

  /** The segment-aware check the second disjunct evidently aims at: the
      workspace itself, or anything below `w + "/"`. */
  predicate InWorkspaceSegment(p: string, w: string) {
    p == w || StartsWith(p, w + "/")
  }

  /** The segment-aware check accepts no more than the check as written, and
      it accepts a longer path exactly when the character after the
      workspace prefix is a separator. */
  lemma InWorkspaceSegmentBoundary(p: string, w: string)
    ensures InWorkspaceSegment(p, w) ==> PathInWorkspace(p, w)
    ensures InWorkspaceSegment(p, w) <==>
              (p == w || (StartsWith(p, w) && |p| > |w| && p[|w|] == '/'))
  {
    if StartsWith(p, w + "/") {
      assert p[..|w|] == (w + "/")[..|w|];
      assert p[|w|] == (w + "/")[|w|];
    }
    if StartsWith(p, w) && |p| > |w| && p[|w|] == '/' {
      assert p[..|w| + 1] == p[..|w|] + [p[|w|]];
    }
    if p == w {
      assert p[..|w|] == w;
    }
  }

  /** A file directly in the workspace and a nested file are inside, under
      both checks. */
  lemma InsideVectors(w: string, f: string)
    ensures PathInWorkspace(w + "/" + f, w) && InWorkspaceSegment(w + "/" + f, w)
  {
    assert (w + "/" + f)[..|w + "/"|] == w + "/";
  }

  lemma SiblingVectorOutside(p: string, w: string)
    requires p == "/home/user/other/file.py" && w == "/home/user/projects"
    ensures !PathInWorkspace(p, w) && !InWorkspaceSegment(p, w)
  {
    PathInWorkspaceIsPrefix(p, w);
    InWorkspaceSegmentBoundary(p, w);
    assert p[11] != w[11];
  }

  lemma EtcVectorOutside(p: string, w: string)
    requires p == "/etc/passwd" && w == "/home/user/projects"
    ensures !PathInWorkspace(p, w) && !InWorkspaceSegment(p, w)
  {
    PathInWorkspaceIsPrefix(p, w);
    InWorkspaceSegmentBoundary(p, w);
    assert p[1] != w[1];
  }

  /** The four vectors of the path check. */
  lemma PathVectors()
    ensures PathInWorkspace("/home/user/projects/myfile.py", "/home/user/projects")
    ensures PathInWorkspace("/home/user/projects/sub/file.py", "/home/user/projects")
    ensures !PathInWorkspace("/home/user/other/file.py", "/home/user/projects")
    ensures !PathInWorkspace("/etc/passwd", "/home/user/projects")
  {
    var w := "/home/user/projects";
    InsideVectors(w, "myfile.py");
    assert w + "/" + "myfile.py" == "/home/user/projects/myfile.py";
    InsideVectors(w, "sub/file.py");
    assert w + "/" + "sub/file.py" == "/home/user/projects/sub/file.py";
    SiblingVectorOutside("/home/user/other/file.py", w);
    EtcVectorOutside("/etc/passwd", w);
  }

  // ---------------------------------------------------------------------------
  // is_blocked_command
  // ---------------------------------------------------------------------------

  /** Some entry, lower-cased, occurs in the (already lower-cased) command. */
  function AnyEntryMatches(entries: seq<string>, lcmd: string): (r: bool)
    ensures r <==> exists k :: 0 <= k < |entries| && Contains(lcmd, LowerStr(entries[k]))
    decreases |entries|
  {
    if |entries| == 0 then false
    else Contains(lcmd, LowerStr(entries[0])) || AnyEntryMatches(entries[1..], lcmd)
  }

  /** `is_blocked_command(agent, cmd)` over the `security_policy` table keyed
      by agent id: an EXISTS over the agent's row crossed with its blocklist.
      LIKE wildcards inside entries are not modelled (see the README). */
  function IsBlockedCommand(table: map<string, SecurityPolicyRow>, agent: string, cmd: string): (r: bool)
    ensures r ==> agent in table && |table[agent].shellBlocklist| > 0
  {
    agent in table && AnyEntryMatches(table[agent].shellBlocklist, LowerStr(cmd))
  }

  /** The check holds iff some blocklist entry of the agent, lower-cased, is
      a substring of the lower-cased command. */
  lemma BlockedIffEntryOccurs(table: map<string, SecurityPolicyRow>, agent: string, cmd: string)
    ensures IsBlockedCommand(table, agent, cmd) <==>
              agent in table &&
              exists k :: 0 <= k < |table[agent].shellBlocklist| &&
                Contains(LowerStr(cmd), LowerStr(table[agent].shellBlocklist[k]))
  {
  }

  /** An agent without a policy row, or with an empty blocklist, is never
      blocked. */
  lemma NoRowOrEmptyNeverBlocked(table: map<string, SecurityPolicyRow>, agent: string, cmd: string)
    requires agent !in table || table[agent].shellBlocklist == []
    ensures !IsBlockedCommand(table, agent, cmd)
  {
  }

  /** The check ignores the letter case of the command. */
  lemma BlockedCaseInsensitive(table: map<string, SecurityPolicyRow>, agent: string, cmd: string)
    ensures IsBlockedCommand(table, agent, cmd) == IsBlockedCommand(table, agent, LowerStr(cmd))
  {
    LowerStrIdempotent(cmd);
  }

  /** Growing a blocklist never unblocks a command. */
  lemma BlocklistMonotone(table: map<string, SecurityPolicyRow>, agent: string, extra: seq<string>, cmd: string)
    requires agent in table
    ensures IsBlockedCommand(table, agent, cmd) ==>
              IsBlockedCommand(table[agent := table[agent].(shellBlocklist := table[agent].shellBlocklist + extra)], agent, cmd)
  {
    var bl := table[agent].shellBlocklist;
    if IsBlockedCommand(table, agent, cmd) {
      var k :| 0 <= k < |bl| && Contains(LowerStr(cmd), LowerStr(bl[k]));
      assert (bl + extra)[k] == bl[k];
    }
  }

  /** A command containing a lower-case entry of the agent's blocklist is
      blocked, whatever surrounds it. */
  lemma EntryBlocks(table: map<string, SecurityPolicyRow>, agent: string, k: nat, a: string, b: string)
    requires agent in table && k < |table[agent].shellBlocklist|
    requires NoUpper(table[agent].shellBlocklist[k])
    ensures IsBlockedCommand(table, agent, a + table[agent].shellBlocklist[k] + b)
  {
    var e := table[agent].shellBlocklist[k];
    ContainsInfix(a, e, b);
    ContainsLower(a + e + b, e);
    LowerStrOfLower(e);
  }

  /** The agent of the blocklist vectors. */
  function VectorTable(): (t: map<string, SecurityPolicyRow>)
    ensures "agent-1" in t && t["agent-1"].shellBlocklist == ["rm -rf", "mkfs", "dd if="]
  {
    map["agent-1" := DefaultSecurityPolicy("agent-1").(shellBlocklist := ["rm -rf", "mkfs", "dd if="])]
  }

  /** A vector command made of entry `k` between `a` and `b` is blocked. */
  lemma VectorBlocked(cmd: string, k: nat, a: string, b: string)
    requires k < 3 && cmd == a + VectorTable()["agent-1"].shellBlocklist[k] + b
    ensures IsBlockedCommand(VectorTable(), "agent-1", cmd)
  {
    var bl := VectorTable()["agent-1"].shellBlocklist;
    assert NoUpper(bl[k]);
    EntryBlocks(VectorTable(), "agent-1", k, a, b);
  }

  lemma RmRfBlocked(cmd: string)
    requires cmd == "rm -rf /"
    ensures IsBlockedCommand(VectorTable(), "agent-1", cmd)
  {
    assert cmd == "" + "rm -rf" + " /";
    VectorBlocked(cmd, 0, "", " /");
  }

  lemma MkfsBlocked(cmd: string)
    requires cmd == "mkfs.ext4 /dev/sda"
    ensures IsBlockedCommand(VectorTable(), "agent-1", cmd)
  {
    assert cmd == "" + "mkfs" + ".ext4 /dev/sda";
    VectorBlocked(cmd, 1, "", ".ext4 /dev/sda");
  }

  lemma DdBlocked(cmd: string)
    requires cmd == "sudo dd if=/dev/zero of=/dev/sda"
    ensures IsBlockedCommand(VectorTable(), "agent-1", cmd)
  {
    assert cmd == "sudo " + "dd if=" + "/dev/zero of=/dev/sda";
    VectorBlocked(cmd, 2, "sudo ", "/dev/zero of=/dev/sda");
  }

  lemma BlockedVectors()
    ensures IsBlockedCommand(VectorTable(), "agent-1", "rm -rf /")
    ensures IsBlockedCommand(VectorTable(), "agent-1", "mkfs.ext4 /dev/sda")
    ensures IsBlockedCommand(VectorTable(), "agent-1", "sudo dd if=/dev/zero of=/dev/sda")
  {
    RmRfBlocked("rm -rf /");
    MkfsBlocked("mkfs.ext4 /dev/sda");
    DdBlocked("sudo dd if=/dev/zero of=/dev/sda");
  }

  /** A command lacking one character of each entry is not blocked. */
  lemma NotBlockedByChars(cmd: string, c0: char, c1: char, c2: char)
    requires NoUpper(cmd)
    requires c0 in "rm -rf" && c0 !in cmd
    requires c1 in "mkfs" && c1 !in cmd
    requires c2 in "dd if=" && c2 !in cmd
    ensures !IsBlockedCommand(VectorTable(), "agent-1", cmd)
  {
    var bl := VectorTable()["agent-1"].shellBlocklist;
    LowerStrOfLower(cmd);
    LowerStrOfLower(bl[0]);
    LowerStrOfLower(bl[1]);
    LowerStrOfLower(bl[2]);
    NotContainsByChar(cmd, bl[0], c0);
    NotContainsByChar(cmd, bl[1], c1);
    NotContainsByChar(cmd, bl[2], c2);
  }

  lemma NotBlockedVectors()
    ensures !IsBlockedCommand(VectorTable(), "agent-1", "ls -la")
    ensures !IsBlockedCommand(VectorTable(), "agent-1", "git status")
  {
    assert "rm -rf"[0] == 'r' && "mkfs"[0] == 'm' && "dd if="[0] == 'd';
    NotBlockedByChars("ls -la", 'r', 'm', 'd');
    NotBlockedByChars("git status", 'r', 'm', 'd');
  }

  /** Under the default policy a destructive recursive delete is blocked,
      however it is prefixed or capitalised. */
  lemma DefaultPolicyBlocksRmRf(agent: string, a: string, b: string)
    ensures IsBlockedCommand(map[agent := DefaultSecurityPolicy(agent)], agent, a + "rm -rf" + b)
    ensures IsBlockedCommand(map[agent := DefaultSecurityPolicy(agent)], agent, a + "RM -RF" + b)
  {
    var t := map[agent := DefaultSecurityPolicy(agent)];
    assert t[agent].shellBlocklist[0] == "rm -rf";
    EntryBlocks(t, agent, 0, a, b);
    var up := a + "RM -RF" + b;
    assert LowerStr("RM -RF") == "rm -rf";
    LowerStrConcat(a + "RM -RF", b);
    LowerStrConcat(a, "RM -RF");
    LowerStrConcat(LowerStr(a) + "rm -rf", LowerStr(b));
    LowerStrConcat(LowerStr(a), "rm -rf");
    LowerStrIdempotent(a);
    LowerStrIdempotent(b);
    LowerStrOfLower("rm -rf");
    EntryBlocks(t, agent, 0, LowerStr(a), LowerStr(b));
    BlockedCaseInsensitive(t, agent, up);
    BlockedCaseInsensitive(t, agent, LowerStr(a) + "rm -rf" + LowerStr(b));
  }

  // ---------------------------------------------------------------------------
  // audit_log with its id sequence
  // ---------------------------------------------------------------------------

  /** The columns an insert supplies; the timestamp column is left out. */
  datatype AuditInput = AuditInput(
    sessionId: string, entryType: string, toolName: Option<string>,
    parameters: Option<string>, decision: Option<string>)

  datatype AuditRow = AuditRow(id: int, input: AuditInput)

  /** The table in insertion order together with the sequence's next value. */
  datatype AuditLog = AuditLog(rows: seq<AuditRow>, next: int)

  /** `CREATE SEQUENCE audit_seq START 1` with an empty table. */
  const EmptyAuditLog := AuditLog([], 1)

  /** Ids strictly increase in insertion order and stay below the sequence. */
  predicate ValidLog(log: AuditLog) {
    (forall i, j :: 0 <= i < j < |log.rows| ==> log.rows[i].id < log.rows[j].id) &&
    (forall i :: 0 <= i < |log.rows| ==> log.rows[i].id < log.next)
  }

  /** One row inserted with `id DEFAULT nextval('audit_seq')`. */
  function Insert(log: AuditLog, e: AuditInput): (r: AuditLog)
    requires ValidLog(log)
    ensures ValidLog(r)
    ensures r.rows == log.rows + [AuditRow(log.next, e)]
    ensures r.next > log.next
  {
    AuditLog(log.rows + [AuditRow(log.next, e)], log.next + 1)
  }

  /** A multi-row `INSERT … VALUES`, rows taking ids in list order. */
  function InsertAll(log: AuditLog, es: seq<AuditInput>): (r: AuditLog)
    requires ValidLog(log)
    ensures ValidLog(r)
    ensures |r.rows| == |log.rows| + |es| && r.rows[..|log.rows|] == log.rows
    ensures forall k :: 0 <= k < |es| ==> r.rows[|log.rows| + k] == AuditRow(log.next + k, es[k])
    ensures r.next == log.next + |es|
    decreases |es|
  {
    if |es| == 0 then log
    else
      var l1 := Insert(log, es[0]);
      InsertAll(l1, es[1..])
  }

  function CountDecision(rows: seq<AuditRow>, d: string): (n: nat)
    ensures n <= |rows|
    decreases |rows|
  {
    if |rows| == 0 then 0
    else (if rows[0].input.decision == Some(d) then 1 else 0) + CountDecision(rows[1..], d)
  }

  function CountSession(rows: seq<AuditRow>, s: string): (n: nat)
    ensures n <= |rows|
    decreases |rows|
  {
    if |rows| == 0 then 0
    else (if rows[0].input.sessionId == s then 1 else 0) + CountSession(rows[1..], s)
  }

  /** Counts over a concatenation add up. */
  lemma {:induction false} CountsSplit(a: seq<AuditRow>, b: seq<AuditRow>, d: string, s: string)
    ensures CountDecision(a + b, d) == CountDecision(a, d) + CountDecision(b, d)
    ensures CountSession(a + b, s) == CountSession(a, s) + CountSession(b, s)
    decreases |a|
  {
    if |a| == 0 {
      assert a + b == b;
    } else {
      assert (a + b)[1..] == a[1..] + b;
      CountsSplit(a[1..], b, d, s);
    }
  }

  /** The session count is the whole table when every row shares a session. */
  lemma {:induction false} CountSessionAll(rows: seq<AuditRow>, s: string)
    requires forall k :: 0 <= k < |rows| ==> rows[k].input.sessionId == s
    ensures CountSession(rows, s) == |rows|
    decreases |rows|
  {
    if |rows| > 0 {
      CountSessionAll(rows[1..], s);
    }
  }

  /** The audit scenario: three tool calls of one session, the second denied,
      receive ids 1, 2, 3; one row is a denial and all three belong to the
      session. */
  lemma AuditScenario(s: string, e0: AuditInput, e1: AuditInput, e2: AuditInput)
    requires e0.sessionId == s && e1.sessionId == s && e2.sessionId == s
    requires e0.decision == Some("allow") && e1.decision == Some("deny") && e2.decision == Some("allow")
    ensures InsertAll(EmptyAuditLog, [e0, e1, e2]).rows ==
              [AuditRow(1, e0), AuditRow(2, e1), AuditRow(3, e2)]
    ensures CountDecision(InsertAll(EmptyAuditLog, [e0, e1, e2]).rows, "deny") == 1
    ensures CountSession(InsertAll(EmptyAuditLog, [e0, e1, e2]).rows, s) == 3
  {
    var es := [e0, e1, e2];
    var rows := InsertAll(EmptyAuditLog, es).rows;
    assert |rows| == 3;
    assert rows[0] == AuditRow(1 + 0, es[0]);
    assert rows[1] == AuditRow(1 + 1, es[1]);
    assert rows[2] == AuditRow(1 + 2, es[2]);
    assert rows == [rows[0]] + [rows[1]] + [rows[2]];
    CountsSplit([rows[0]] + [rows[1]], [rows[2]], "deny", s);
    CountsSplit([rows[0]], [rows[1]], "deny", s);
    CountSessionAll(rows, s);
  }
}
