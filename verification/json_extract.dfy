/** Parsed JSON values, as `json.loads` hands them to the Python code. */
module JsonValue {

  /** Numbers carry the text Python's `str()` gives the parsed number; the
      parser itself is not part of this model. Objects are maps, as a Python
      dict built by `json.loads` keeps one value per key. */
  datatype Json =
    | JNull
    | JBool(b: bool)
    | JNum(text: string)
    | JStr(s: string)
    | JArr(items: seq<Json>)
    | JObj(fields: map<string, Json>)
  {
    predicate IsContainer() {
      JArr? || JObj?
    }
  }
}

/** `udf_safe_json_extract(json_str, path)`: walk a parsed document along a
    dotted path and render what is found. */
module JsonExtract {
  import opened Strings
  import opened JsonValue

  /** What the UDF returns on success: `Dumped(v)` stands for `json.dumps(v)`
      of a container, `Text(s)` for `str()` of a scalar. */
  datatype Extracted = Dumped(v: Json) | Text(s: string)

  predicate IsPathMark(c: char) {
    c == '$' || c == '.'
  }

  /** `path.lstrip("$.")`: drops every leading '$' and '.', in any mix. */
  function StripPathMarks(p: string): (r: string)
    ensures |r| <= |p| && r == p[|p| - |r|..]
    ensures forall k :: 0 <= k < |p| - |r| ==> IsPathMark(p[k])
    ensures r == [] || !IsPathMark(r[0])
    decreases |p|
  {
    if |p| > 0 && IsPathMark(p[0]) then StripPathMarks(p[1..]) else p
  }

  /** The keys the loop walks: the stripped path split on '.'. */
  function PathKeys(path: string): (keys: seq<string>)
    ensures |keys| > 0
  {
    Split(StripPathMarks(path), '.')
  }

  /** `key.isdigit()` over ASCII digits. */
  predicate IsDigits(k: string) {
    |k| > 0 && forall i :: 0 <= i < |k| ==> '0' <= k[i] <= '9'
  }

  /** `int(key)` for a digit string (leading zeros allowed). */
  function DigitsValue(k: string): nat
    decreases |k|
  {
    if |k| == 0 then 0
    else DigitsValue(k[..|k| - 1]) * 10 + (k[|k| - 1] as int - '0' as int) % 10
  }

  /** `str(n)`: the decimal text of an index. */
  function DecimalText(n: nat): (r: string)
    ensures IsDigits(r)
    ensures |r| > 1 ==> r[0] != '0'
    decreases n
  {
    if n < 10 then [('0' as int + n) as char]
    else DecimalText(n / 10) + [('0' as int + n % 10) as char]
  }

  /** `int(str(n)) == n`: the decimal text of an index reads back as that
      index. */
  lemma {:induction false} DigitsValueOfText(n: nat)
    ensures DigitsValue(DecimalText(n)) == n
    decreases n
  {
    if n >= 10 {
      DigitsValueOfText(n / 10);
      var t := DecimalText(n);
      assert t[..|t| - 1] == DecimalText(n / 10);
    }
  }

  /** `int()` ignores leading zeros: "007" indexes like "7". */
  lemma {:induction false} LeadingZeroIgnored(k: string)
    ensures DigitsValue("0" + k) == DigitsValue(k)
    decreases |k|
  {
    if |k| > 0 {
      var z := "0" + k;
      assert z[..|z| - 1] == "0" + k[..|k| - 1];
      LeadingZeroIgnored(k[..|k| - 1]);
    } else {
      assert ("0" + k)[..0] == [];
    }
  }

  /** A list step with key `str(i)` reaches `items[i]` exactly when `i` is
      in range. */
  lemma IndexKeyReachesItem(items: seq<Json>, i: nat)
    ensures i < |items| ==> Step(JArr(items), DecimalText(i)) == Some(items[i])
    ensures i >= |items| ==> Step(JArr(items), DecimalText(i)) == None
  {
    DigitsValueOfText(i);
  }

  /** One turn of the loop. `None` means the UDF gives up and returns None:
      a list indexed by a non-digit key or out of range (IndexError), or a
      scalar with keys left. A missing dict key yields JSON null, as
      `dict.get` does. */
  function Step(data: Json, key: string): (r: Option<Json>)
    ensures data.JObj? ==> r == Some(if key in data.fields then data.fields[key] else JNull)
    ensures !data.IsContainer() ==> r.None?
    ensures data.JArr? ==> (r.Some? <==> IsDigits(key) && DigitsValue(key) < |data.items|)
    ensures data.JArr? && r.Some? ==> r.value == data.items[DigitsValue(key)]
  {
    match data
    case JObj(f) => Some(if key in f then f[key] else JNull)
    case JArr(items) =>
      if IsDigits(key) && DigitsValue(key) < |items| then Some(items[DigitsValue(key)]) else None
    case _ => None
  }

  /** The loop over the keys. A scalar with keys left stops the walk. */
  function Walk(data: Json, keys: seq<string>): (r: Option<Json>)
    ensures |keys| == 0 ==> r == Some(data)
    ensures |keys| > 0 && !data.IsContainer() ==> r.None?
    decreases |keys|
  {
    if |keys| == 0 then Some(data)
    else match Step(data, keys[0])
      case None => None
      case Some(d) => Walk(d, keys[1..])
  }

  /** `json.dumps(data) if isinstance(data, (dict, list)) else str(data)` */
  function Render(v: Json): (r: Extracted)
    ensures r.Dumped? <==> v.IsContainer()
    ensures r.Dumped? ==> r.v == v
    ensures v.JNull? ==> r == Text("None")
    ensures v.JBool? ==> r == Text(if v.b then "True" else "False")
    ensures v.JNum? ==> r == Text(v.text)
    ensures v.JStr? ==> r == Text(v.s)
  {
    match v
    case JArr(_) => Dumped(v)
    case JObj(_) => Dumped(v)
    case JNull => Text("None")
    case JBool(b) => Text(if b then "True" else "False")
    case JNum(t) => Text(t)
    case JStr(s) => Text(s)
  }

  /** The UDF. `doc` is `None` when `json.loads` fails. Invalid JSON and a
      scalar document (every path has at least one key) both give `None`. */
  function SafeJsonExtract(doc: Option<Json>, path: string): (r: Option<Extracted>)
    ensures doc.None? ==> r.None?
    ensures doc.Some? && !doc.value.IsContainer() ==> r.None?
  {
    match doc
    case None => None
    case Some(d) =>
      match Walk(d, PathKeys(path))
      case None => None
      case Some(v) => Some(Render(v))
  }

  // ---------------------------------------------------------------------------
  // Properties
  // ---------------------------------------------------------------------------

  /** Walking a concatenation of key lists walks the first, then the second. */
  lemma {:induction false} WalkAppend(d: Json, ks1: seq<string>, ks2: seq<string>)
    ensures Walk(d, ks1 + ks2) ==
            (match Walk(d, ks1) case None => None case Some(e) => Walk(e, ks2))
    decreases |ks1|
  {
    if |ks1| > 0 {
      assert (ks1 + ks2)[1..] == ks1[1..] + ks2;
      match Step(d, ks1[0])
      case None =>
      case Some(e) => WalkAppend(e, ks1[1..], ks2);
    } else {
      assert ks1 + ks2 == ks2;
    }
  }

  /** Leading '$' and '.' are stripped as a character set, not as the literal
      prefix "$.": any run of them in front of a path is ignored. */
  lemma {:induction false} PathMarksIgnored(doc: Option<Json>, marks: string, p: string)
    requires forall k :: 0 <= k < |marks| ==> IsPathMark(marks[k])
    ensures SafeJsonExtract(doc, marks + p) == SafeJsonExtract(doc, p)
    decreases |marks|
  {
    StripMarksPrefix(marks, p);
  }

  lemma {:induction false} StripMarksPrefix(marks: string, p: string)
    requires forall k :: 0 <= k < |marks| ==> IsPathMark(marks[k])
    ensures StripPathMarks(marks + p) == StripPathMarks(p)
    decreases |marks|
  {
    if |marks| > 0 {
      assert (marks + p)[1..] == marks[1..] + p;
      StripMarksPrefix(marks[1..], p);
    } else {
      assert marks + p == p;
    }
  }

  /** Keys that contain no '.' and whose first key does not begin with a path
      mark are exactly the keys of their dotted path. */
  lemma PathOfKeys(keys: seq<string>)
    requires |keys| > 0
    requires forall k :: 0 <= k < |keys| ==> '.' !in keys[k]
    requires |keys[0]| > 0 && keys[0][0] != '$'
    ensures PathKeys(Join(keys, '.')) == keys
  {
    var j := Join(keys, '.');
    JoinStartsWithHead(keys, '.');
    assert j[0] == keys[0][0];
    JoinSplit(keys, '.');
  }

  lemma JoinStartsWithHead(keys: seq<string>, sep: char)
    requires |keys| > 0
    ensures StartsWith(Join(keys, sep), keys[0])
  {
    if |keys| > 1 {
      assert Join(keys, sep) == keys[0] + ([sep] + Join(keys[1..], sep));
    }
  }

  /** The outcome of the walk once it has reached value `v` after `pre`, for
      every way the next key `k` can go. */
  lemma ExtractAfterPrefix(d: Json, path: string, pre: seq<string>, k: string, post: seq<string>, v: Json)
    requires PathKeys(path) == pre + [k] + post
    requires Walk(d, pre) == Some(v)
    ensures !v.IsContainer() ==> SafeJsonExtract(Some(d), path).None?
    ensures v.JArr? && !(IsDigits(k) && DigitsValue(k) < |v.items|) ==>
              SafeJsonExtract(Some(d), path).None?
    ensures v.JObj? && k !in v.fields && post == [] ==>
              SafeJsonExtract(Some(d), path) == Some(Text("None"))
    ensures v.JObj? && k !in v.fields && post != [] ==>
              SafeJsonExtract(Some(d), path).None?
  {
    WalkAppend(d, pre, [k] + post);
    assert pre + [k] + post == pre + ([k] + post);
    assert ([k] + post)[1..] == post;
    if v.JObj? && k !in v.fields && post != [] {
      assert Walk(JNull, post) == None;
    }
  }

  /** A value reached at the end of the path is returned rendered: a
      container re-serialised, a scalar through `str`. */
  lemma ExtractLeaf(d: Json, path: string, v: Json)
    requires Walk(d, PathKeys(path)) == Some(v)
    ensures SafeJsonExtract(Some(d), path) == Some(Render(v))
    ensures v.IsContainer() ==> SafeJsonExtract(Some(d), path) == Some(Dumped(v))
    ensures v == JNull ==> SafeJsonExtract(Some(d), path) == Some(Text("None"))
    ensures v.JStr? ==> SafeJsonExtract(Some(d), path) == Some(Text(v.s))
  {
  }

  /** "$." followed by a key list joined with dots walks exactly those keys. */
  lemma DollarDotPath(a: string, b: string, c: string)
    requires |a| > 0 && !IsPathMark(a[0])
    requires '.' !in a && '.' !in b && '.' !in c
    ensures PathKeys("$." + a + "." + b + "." + c) == [a, b, c]
  {
    var q := a + "." + b + "." + c;
    assert "$." + a + "." + b + "." + c == "$." + q;
    StripMarksPrefix("$.", q);
    assert q == a + ['.'] + (b + ['.'] + c);
    SplitAt(a, '.', b + ['.'] + c);
    SplitAt(b, '.', c);
    SplitNoSep(c, '.');
  }

  /** A walk through an object, a list index and an object again:
      "$.a.1.c" on {a: [y, {c: x}]} returns x rendered. */
  lemma ObjectListObjectWalk(a: string, c: string, x: Json, y: Json)
    requires |a| > 0 && !IsPathMark(a[0])
    requires '.' !in a && '.' !in c
    ensures SafeJsonExtract(Some(JObj(map[a := JArr([y, JObj(map[c := x])])])),
                            "$." + a + "." + "1" + "." + c) == Some(Render(x))
  {
    DollarDotPath(a, "1", c);
    ObjectListObjectSteps(a, c, x, y);
  }

  lemma ObjectListObjectSteps(a: string, c: string, x: Json, y: Json)
    ensures Walk(JObj(map[a := JArr([y, JObj(map[c := x])])]), [a, "1", c]) == Some(x)
  {
    var inner := JObj(map[c := x]);
    var list := JArr([y, inner]);
    var d := JObj(map[a := list]);
    assert IsDigits("1") && DigitsValue("1") == 1;
    assert Step(d, a) == Some(list);
    assert Step(list, "1") == Some(inner);
    assert Step(inner, c) == Some(x);
    var keys := [a, "1", c];
    assert keys[1..] == ["1", c] && keys[1..][1..] == [c] && keys[1..][1..][1..] == [];
    assert Walk(inner, [c]) == Some(x);
    assert Walk(list, ["1", c]) == Some(x);
    assert Walk(d, keys) == Some(x);
  }
}
