/** The prompt-injection classifier `udf_detect_injection`: an ordered table of
    case-insensitive substring rules whose first hit names the category. */
module Injection {
  import opened Strings

  datatype Category =
    | InstructionOverride
    | RoleHijack
    | InstructionInjection
    | SystemInjection
    | XmlInjection
    | PrivilegeEscalation
    | Jailbreak
  {
    /** The string the UDF returns for this category. */
    function Name(): string {
      match this
      case InstructionOverride => "instruction_override"
      case RoleHijack => "role_hijack"
      case InstructionInjection => "instruction_injection"
      case SystemInjection => "system_injection"
      case XmlInjection => "xml_injection"
      case PrivilegeEscalation => "privilege_escalation"
      case Jailbreak => "jailbreak"
    }
  }

  /** A rule holds when EVERY needle occurs somewhere in the lower-cased
      content; two needles form a co-occurrence test, not a phrase. */
  datatype Rule = Rule(needles: seq<string>, category: Category)

  const Rules: seq<Rule> := [
    Rule(["ignore", "instruction"], InstructionOverride),
    Rule(["disregard", "above"], InstructionOverride),
    Rule(["forget", "everything"], InstructionOverride),
    Rule(["you are now"], RoleHijack),
    Rule(["new instructions:"], InstructionInjection),
    Rule(["[system]"], SystemInjection),
    Rule(["</system>"], XmlInjection),
    Rule(["<instruction>"], XmlInjection),
    Rule(["admin mode"], PrivilegeEscalation),
    Rule(["developer mode"], PrivilegeEscalation),
    Rule(["jailbreak"], Jailbreak)
  ]

  predicate Holds(rule: Rule, text: string) {
    AllOccur(rule.needles, text)
  }

  /** Every needle occurs in the text. */
  predicate AllOccur(needles: seq<string>, text: string)
    decreases |needles|
  {
    |needles| == 0 || (Contains(text, needles[0]) && AllOccur(needles[1..], text))
  }

  lemma {:induction false} AllOccurIff(needles: seq<string>, text: string)
    ensures AllOccur(needles, text) <==> forall k :: 0 <= k < |needles| ==> Contains(text, needles[k])
    decreases |needles|
  {
    if |needles| > 0 {
      AllOccurIff(needles[1..], text);
      assert forall k :: 0 < k < |needles| ==> needles[1..][k - 1] == needles[k];
    }
  }

  /** Index of the first rule that holds, or `|rules|` when none does. */
  function FirstHit(rules: seq<Rule>, text: string): (k: nat)
    ensures k <= |rules|
    ensures k < |rules| ==> Holds(rules[k], text)
    ensures forall j :: 0 <= j < k ==> !Holds(rules[j], text)
    decreases |rules|
  {
    if |rules| == 0 then 0
    else if Holds(rules[0], text) then 0
    else 1 + FirstHit(rules[1..], text)
  }

  /** `udf_detect_injection(content)`; `None` content is SQL NULL. The result
      is absent exactly when the content is missing or empty or no rule holds
      of its lower-cased text. */
  function Detect(content: Option<string>): (r: Option<Category>)
    ensures r.None? <==>
              (content.None? || content.value == [] ||
               forall j :: 0 <= j < |Rules| ==> !Holds(Rules[j], LowerStr(content.value)))
  {
    if content.None? || content.value == [] then None
    else
      var k := FirstHit(Rules, LowerStr(content.value));
      if k < |Rules| then Some(Rules[k].category) else None
  }

  /** The earliest rule that holds decides the category, whatever later rules
      also hold. */
  lemma DetectEarliestWins(c: string, k: nat)
    requires c != []
    requires k < |Rules| && Holds(Rules[k], LowerStr(c))
    requires forall j :: 0 <= j < k ==> !Holds(Rules[j], LowerStr(c))
    ensures Detect(Some(c)) == Some(Rules[k].category)
  {
    var h := FirstHit(Rules, LowerStr(c));
    if h < k {
    } else if h > k {
    }
  }

  /** Classification ignores letter case. */
  lemma DetectCaseInsensitive(c: string)
    ensures Detect(Some(c)) == Detect(Some(LowerStr(c)))
  {
    LowerStrIdempotent(c);
  }

  /** Every hit of a lower-case needle in the original content is a hit in
      the lower-cased content. */
  lemma NeedleInLowered(x: string, n: string)
    requires NoUpper(n) && Contains(x, n)
    ensures Contains(LowerStr(x), n)
  {
    ContainsLower(x, n);
    LowerStrOfLower(n);
  }

  /** The three compound rules test co-occurrence: their two words may
      appear anywhere and in either order. */
  lemma CompoundRuleAnyOrder(k: nat, a: string, b: string, c: string)
    requires k < 3
    ensures Detect(Some(a + Rules[k].needles[0] + b + Rules[k].needles[1] + c))
            == Some(InstructionOverride)
    ensures Detect(Some(a + Rules[k].needles[1] + b + Rules[k].needles[0] + c))
            == Some(InstructionOverride)
  {
    var n0 := Rules[k].needles[0];
    var n1 := Rules[k].needles[1];
    ContainsBoth(a, n0, b, n1, c);
    ContainsBoth(a, n1, b, n0, c);
    BothNeedlesOverride(a + n0 + b + n1 + c, k);
    BothNeedlesOverride(a + n1 + b + n0 + c, k);
  }

  lemma ContainsBoth(a: string, m: string, b: string, n: string, c: string)
    ensures Contains(a + m + b + n + c, m) && Contains(a + m + b + n + c, n)
  {
    var x := a + m + b + n + c;
    assert x == a + m + (b + n + c);
    ContainsInfix(a, m, b + n + c);
    assert x == (a + m + b) + n + c;
    ContainsInfix(a + m + b, n, c);
  }

  /** Both words of one of the first three rules anywhere in the content
      make it an instruction override. */
  lemma BothNeedlesOverride(x: string, k: nat)
    requires k < 3 && Contains(x, Rules[k].needles[0]) && Contains(x, Rules[k].needles[1])
    ensures Detect(Some(x)) == Some(InstructionOverride)
  {
    assert NoUpper(Rules[k].needles[0]) && NoUpper(Rules[k].needles[1]);
    NeedleInLowered(x, Rules[k].needles[0]);
    NeedleInLowered(x, Rules[k].needles[1]);
    FirstOverrideRuleWins(x, k);
  }

  /** One of the first three rules holding forces an instruction override,
      since all rules before it share that category. */
  lemma FirstOverrideRuleWins(x: string, k: nat)
    requires k < 3 && Holds(Rules[k], LowerStr(x))
    ensures Detect(Some(x)) == Some(InstructionOverride)
  {
    assert Contains(LowerStr(x), Rules[k].needles[0]);
    assert |LowerStr(x)| > 0;
    var h := FirstHit(Rules, LowerStr(x));
    assert h <= k;
  }

  lemma MissingNeedle(text: string, k: nat, i: nat, c: char)
    requires k < |Rules| && i < |Rules[k].needles|
    requires c in Rules[k].needles[i] && c !in text
    ensures !Holds(Rules[k], text)
  {
    NotContainsByChar(text, Rules[k].needles[i], c);
    AllOccurIff(Rules[k].needles, text);
  }

  /** Content naming both "jailbreak" and an ignore-instruction request is an
      instruction override: the earlier rule wins. */
  lemma OverrideBeatsJailbreak(a: string, b: string, c: string)
    ensures Detect(Some(a + "jailbreak" + b + "ignore" + c + "instruction"))
            == Some(InstructionOverride)
  {
    var x := a + "jailbreak" + b + "ignore" + c + "instruction";
    assert x == (a + "jailbreak" + b) + "ignore" + (c + "instruction");
    CompoundRuleAnyOrder(0, a + "jailbreak" + b, c, "");
    assert x == (a + "jailbreak" + b) + Rules[0].needles[0] + c + Rules[0].needles[1] + "";
  }

  /** A lower-case text on which rule `k` is the first to hold is classified
      by rule `k`. */
  lemma ClassifiedByRule(s: string, k: nat)
    requires s != [] && LowerStr(s) == s
    requires k < |Rules| && Holds(Rules[k], s)
    requires forall j | 0 <= j < k :: !Holds(Rules[j], s)
    ensures Detect(Some(s)) == Some(Rules[k].category)
  {
    DetectEarliestWins(s, k);
  }

  /** A single-needle rule holds of its own needle. */
  lemma OwnNeedleHolds(s: string, k: nat)
    requires k < |Rules| && Rules[k].needles == [s]
    ensures Holds(Rules[k], s)
  {
    ContainsInfix("", s, "");
    assert "" + s + "" == s;
  }

  /** Content with none of the letters g, d, f, a, w misses the first five
      rules: each of their first needles holds one of these. */
  lemma EarlyRulesMiss(s: string)
    requires 'g' !in s && 'd' !in s && 'f' !in s && 'a' !in s && 'w' !in s
    ensures forall j | 0 <= j < 5 :: !Holds(Rules[j], s)
  {
    OverrideRulesMiss(s);
    MissingNeedle(s, 3, 0, 'a');
    MissingNeedle(s, 4, 0, 'w');
  }

  lemma OverrideRulesMiss(s: string)
    requires 'g' !in s && 'd' !in s && 'f' !in s
    ensures !Holds(Rules[0], s) && !Holds(Rules[1], s) && !Holds(Rules[2], s)
  {
    MissingNeedle(s, 0, 0, 'g');
    MissingNeedle(s, 1, 0, 'd');
    MissingNeedle(s, 2, 0, 'f');
  }

  lemma BracketSystemMisses(s: string)
    requires s == "[system]"
    ensures forall j | 0 <= j < 5 :: !Holds(Rules[j], s)
  {
    EarlyRulesMiss(s);
  }

  /** "[system]" is a system injection. */
  lemma BracketSystemExample()
    ensures Detect(Some("[system]")) == Some(SystemInjection)
  {
    var s := "[system]";
    BracketSystemMisses(s);
    LowerStrOfLower(s);
    OwnNeedleHolds(s, 5);
    ClassifiedByRule(s, 5);
  }

  lemma ClosingSystemTagMisses(s: string)
    requires s == "</system>"
    ensures forall j | 0 <= j < 6 :: !Holds(Rules[j], s)
  {
    EarlyRulesMiss(s);
    MissingNeedle(s, 5, 0, '[');
  }

  /** "</system>" is an XML injection, not a system injection. */
  lemma ClosingSystemTagExample()
    ensures Detect(Some("</system>")) == Some(XmlInjection)
  {
    var s := "</system>";
    ClosingSystemTagMisses(s);
    LowerStrOfLower(s);
    OwnNeedleHolds(s, 6);
    ClassifiedByRule(s, 6);
  }

  lemma InstructionTagMisses(s: string)
    requires s == "<instruction>"
    ensures forall j | 0 <= j < 7 :: !Holds(Rules[j], s)
  {
    InstructionTagLetters(s);
    EarlyRulesMiss(s);
    TagRulesMiss(s);
  }

  lemma InstructionTagLetters(s: string)
    requires s == "<instruction>"
    ensures 'g' !in s && 'd' !in s && 'f' !in s && 'a' !in s && 'w' !in s && '[' !in s && '/' !in s
  {
  }

  lemma TagRulesMiss(s: string)
    requires '[' !in s && '/' !in s
    ensures forall j | 5 <= j < 7 :: !Holds(Rules[j], s)
  {
    MissingNeedle(s, 5, 0, '[');
    MissingNeedle(s, 6, 0, '/');
  }

  /** "<instruction>" is an XML injection. */
  lemma InstructionTagExample()
    ensures Detect(Some("<instruction>")) == Some(XmlInjection)
  {
    var s := "<instruction>";
    InstructionTagMisses(s);
    LowerStrOfLower(s);
    OwnNeedleHolds(s, 7);
    ClassifiedByRule(s, 7);
  }

  /** Upper-case wording is caught too. */
  lemma UpperCaseOverride(a: string, b: string, c: string)
    ensures Detect(Some(a + "IGNORE" + b + "Instructions" + c)) == Some(InstructionOverride)
  {
    var x := a + "IGNORE" + b + "Instructions" + c;
    assert LowerStr("IGNORE") == "ignore";
    assert LowerStr("Instructions") == "instructions";
    assert x == a + "IGNORE" + (b + "Instructions" + c);
    ContainsInfix(a, "IGNORE", b + "Instructions" + c);
    ContainsLower(x, "IGNORE");
    assert x == (a + "IGNORE" + b) + "Instructions" + c;
    ContainsInfix(a + "IGNORE" + b, "Instructions", c);
    ContainsLower(x, "Instructions");
    var t := LowerStr(x);
    var i :| 0 <= i <= |t| - |"instructions"| && OccursAt("instructions", t, i);
    assert t[i..i + |"instruction"|] == "instructions"[..11];
    ContainsAt(t, "instruction", i);
    FirstOverrideRuleWins(x, 0);
  }
}
