/** The literal-aware SQL statement splitter shared by `split_sql_statements`
    (in the server and in the macro test) and `SpecEngine._split_sql`. All
    copies walk the text with the same state machine and differ only in the
    test that decides whether a trimmed piece is a statement worth keeping. */
module SqlSplit {
  import opened Strings
  import opened SqlLiteral

  /** The scanner state: outside any literal, or inside one opened by `q`. */
  datatype Lex = Code | InQuote(q: char)

  /** The raw pieces between top-level ';' characters, before trimming.
      Inside a literal a doubled closing quote is copied and the literal
      stays open; any other closing quote ends it. */
  function Segments(s: string, lex: Lex): (parts: seq<string>)
    ensures |parts| > 0
    decreases |s|
  {
    if |s| == 0 then [""]
    else match lex
      case Code =>
        if IsQuote(s[0]) then Cons([s[0]], Segments(s[1..], InQuote(s[0])))
        else if s[0] == ';' then [""] + Segments(s[1..], Code)
        else Cons([s[0]], Segments(s[1..], Code))
      case InQuote(q) =>
        if s[0] == q then
          if |s| > 1 && s[1] == q then Cons([q, q], Segments(s[2..], lex))
          else Cons([q], Segments(s[1..], Code))
        else Cons([s[0]], Segments(s[1..], lex))
  }

  // ---------------------------------------------------------------------------
  // Keep-filters
  // ---------------------------------------------------------------------------

  /** A line holds SQL: non-blank once stripped and not a "--" comment. */
  predicate IsContentLine(ln: string) {
    Strip(ln) != [] && !StartsWith(Strip(ln), "--")
  }

  /** `_has_non_comment_content`: the first line holding SQL decides. */
  predicate AnyContentLine(lines: seq<string>)
    decreases |lines|
  {
    if |lines| == 0 then false
    else if IsContentLine(lines[0]) then true
    else AnyContentLine(lines[1..])
  }

  /** The scan finds a line holding SQL exactly when one exists. */
  lemma {:induction false} AnyContentLineIff(lines: seq<string>)
    ensures AnyContentLine(lines) <==> exists k :: 0 <= k < |lines| && IsContentLine(lines[k])
    decreases |lines|
  {
    if |lines| > 0 {
      AnyContentLineIff(lines[1..]);
      if !IsContentLine(lines[0]) && exists k :: 0 <= k < |lines| && IsContentLine(lines[k]) {
        var k :| 0 <= k < |lines| && IsContentLine(lines[k]);
        assert lines[1..][k - 1] == lines[k];
      }
    }
  }

  predicate HasNonCommentContent(s: string) {
    AnyContentLine(Split(s, '\n'))
  }

  /** The two keep-tests: the server's and the macro test's (`stmt and not
      stmt.startswith("--")`) and the spec engine's (`stmt and
      _has_non_comment_content(stmt)`). */
  datatype Filter = MainFilter | SpecFilter

  predicate Keep(f: Filter, stmt: string) {
    match f
    case MainFilter => stmt != [] && !StartsWith(stmt, "--")
    case SpecFilter => stmt != [] && HasNonCommentContent(stmt)
  }

  /** The keep-test of filter `f` as a value, so that the splitting logic
      below is stated once for any test. */
  function KeepTest(f: Filter): string -> bool {
    s => Keep(f, s)
  }

  /** The trimmed pieces a keep-test accepts, in order. */
  function Select(parts: seq<string>, keep: string -> bool): (r: seq<string>)
    ensures |r| <= |parts|
    decreases |parts|
  {
    if |parts| == 0 then []
    else (if keep(Strip(parts[0])) then [Strip(parts[0])] else []) + Select(parts[1..], keep)
  }

  /** Every statement returned is trimmed and passes the test. */
  lemma {:induction false} SelectKeeps(parts: seq<string>, keep: string -> bool)
    ensures forall k :: 0 <= k < |Select(parts, keep)| ==>
              keep(Select(parts, keep)[k]) && Strip(Select(parts, keep)[k]) == Select(parts, keep)[k]
    decreases |parts|
  {
    if |parts| > 0 {
      SelectKeeps(parts[1..], keep);
      StripIdempotent(parts[0]);
      var h := if keep(Strip(parts[0])) then [Strip(parts[0])] else [];
      var r := Select(parts, keep);
      assert r == h + Select(parts[1..], keep);
      forall k | 0 <= k < |r|
        ensures keep(r[k]) && Strip(r[k]) == r[k]
      {
        if k >= |h| {
          assert r[k] == Select(parts[1..], keep)[k - |h|];
        }
      }
    }
  }

  /** Selection on trimmed pieces that all pass the test is the identity. */
  lemma {:induction false} SelectAllKept(parts: seq<string>, keep: string -> bool)
    requires forall k :: 0 <= k < |parts| ==> keep(parts[k]) && Strip(parts[k]) == parts[k]
    ensures Select(parts, keep) == parts
    decreases |parts|
  {
    if |parts| > 0 {
      SelectAllKept(parts[1..], keep);
      assert [parts[0]] + parts[1..] == parts;
    }
  }

  /** Selecting twice with the same test selects nothing more. */
  lemma SelectIdempotent(parts: seq<string>, keep: string -> bool)
    ensures Select(Select(parts, keep), keep) == Select(parts, keep)
  {
    SelectKeeps(parts, keep);
    SelectAllKept(Select(parts, keep), keep);
  }

  lemma {:induction false} SelectAppend(a: seq<string>, b: seq<string>, keep: string -> bool)
    ensures Select(a + b, keep) == Select(a, keep) + Select(b, keep)
    decreases |a|
  {
    if |a| == 0 {
      assert a + b == b;
    } else {
      var ab := a + b;
      assert ab[0] == a[0] && ab[1..] == a[1..] + b;
      SelectAppend(a[1..], b, keep);
      var h := if keep(Strip(a[0])) then [Strip(a[0])] else [];
      var x, y := Select(a[1..], keep), Select(b, keep);
      assert Select(ab, keep) == h + (x + y);
      assert Select(a, keep) == h + x;
      assert h + (x + y) == (h + x) + y;
    }
  }

  /** The reference result of a splitter with filter `f`. */
  function SplitSpec(sql: string, f: Filter): seq<string> {
    Select(Segments(sql, Code), KeepTest(f))
  }

  /** The scanner state after `i` characters: the closed pieces `done`,
      the piece being built, the literal state, and the statements kept so
      far from `done`. */
  predicate Scanned(sql: string, keep: string -> bool, i: int, lex: Lex, done: seq<string>,
                    current: string, statements: seq<string>) {
    0 <= i <= |sql| &&
    Segments(sql, Code) == done + Cons(current, Segments(sql[i..], lex)) &&
    statements == Select(done, keep)
  }

  // One lemma per branch of the scanner, each unfolding `Segments` once.

  lemma OpenQuoteStep(s: string)
    requires |s| > 0 && IsQuote(s[0])
    ensures Segments(s, Code) == Cons([s[0]], Segments(s[1..], InQuote(s[0])))
  {
  }

  lemma CloseQuoteStep(q: char, rest: string)
    requires rest == [] || rest[0] != q
    ensures Segments([q] + rest, InQuote(q)) == Cons([q], Segments(rest, Code))
  {
    var c := [q] + rest;
    assert c[0] == q && c[1..] == rest;
  }

  lemma OpenQuoteAt(sql: string, i: nat)
    requires i < |sql| && IsQuote(sql[i])
    ensures Segments(sql[i..], Code) == Cons([sql[i]], Segments(sql[i + 1..], InQuote(sql[i])))
  {
    assert sql[i..][1..] == sql[i + 1..];
  }

  lemma DoubledQuoteAt(sql: string, i: nat, q: char)
    requires i + 1 < |sql| && sql[i] == q && sql[i + 1] == q
    ensures Segments(sql[i..], InQuote(q)) == Cons([q, q], Segments(sql[i + 2..], InQuote(q)))
  {
    assert sql[i..][2..] == sql[i + 2..];
  }

  lemma CloseQuoteAt(sql: string, i: nat, q: char)
    requires i < |sql| && sql[i] == q && !(i + 1 < |sql| && sql[i + 1] == q)
    ensures Segments(sql[i..], InQuote(q)) == Cons([q], Segments(sql[i + 1..], Code))
  {
    assert sql[i..][1..] == sql[i + 1..];
  }

  lemma CutAt(sql: string, i: nat)
    requires i < |sql| && sql[i] == ';'
    ensures Segments(sql[i..], Code) == [""] + Segments(sql[i + 1..], Code)
  {
    assert sql[i..][1..] == sql[i + 1..];
  }

  lemma CopyAt(sql: string, i: nat, lex: Lex)
    requires i < |sql|
    requires lex.Code? ==> !IsQuote(sql[i]) && sql[i] != ';'
    requires lex.InQuote? ==> sql[i] != lex.q
    ensures Segments(sql[i..], lex) == Cons([sql[i]], Segments(sql[i + 1..], lex))
  {
    assert sql[i..][1..] == sql[i + 1..];
  }

  /** Appending a piece of `n` characters to the current piece keeps the
      scanner state. */
  lemma ExtendScanned(sql: string, keep: string -> bool, i: nat, lex: Lex, done: seq<string>,
                      current: string, statements: seq<string>, n: nat, piece: string, lex2: Lex)
    requires Scanned(sql, keep, i, lex, done, current, statements) && i + n <= |sql|
    requires Segments(sql[i..], lex) == Cons(piece, Segments(sql[i + n..], lex2))
    ensures Scanned(sql, keep, i + n, lex2, done, current + piece, statements)
  {
    ConsCons(current, piece, Segments(sql[i + n..], lex2));
  }

  /** Closing the current piece at a top-level ';' keeps the scanner state. */
  lemma CutScanned(sql: string, keep: string -> bool, i: nat, done: seq<string>,
                   current: string, statements: seq<string>)
    requires Scanned(sql, keep, i, Code, done, current, statements) && i < |sql| && sql[i] == ';'
    ensures Scanned(sql, keep, i + 1, Code, done + [current], "",
                    statements + (if keep(Strip(current)) then [Strip(current)] else []))
  {
    CutPieces(sql, i, done, current);
    SelectSnoc(done, current, keep);
  }

  lemma CutPieces(sql: string, i: nat, done: seq<string>, current: string)
    requires i < |sql| && sql[i] == ';'
    requires Segments(sql, Code) == done + Cons(current, Segments(sql[i..], Code))
    ensures Segments(sql, Code) == (done + [current]) + Cons("", Segments(sql[i + 1..], Code))
  {
    CutAt(sql, i);
    var y := Segments(sql[i + 1..], Code);
    assert current + "" == current;
    assert Cons(current, [""] + y) == [current] + y;
    ConsEmpty(y);
  }

  lemma SelectSnoc(done: seq<string>, x: string, keep: string -> bool)
    ensures Select(done + [x], keep) == Select(done, keep) + (if keep(Strip(x)) then [Strip(x)] else [])
  {
    SelectAppend(done, [x], keep);
    assert [x][1..] == [];
  }

  /** Scanning an opening quote. */
  lemma OpenStep(sql: string, keep: string -> bool, i: nat, done: seq<string>,
                 current: string, statements: seq<string>)
    requires i < |sql| && IsQuote(sql[i]) && Scanned(sql, keep, i, Code, done, current, statements)
    ensures Scanned(sql, keep, i + 1, InQuote(sql[i]), done, current + [sql[i]], statements)
  {
    OpenQuoteAt(sql, i);
    ExtendScanned(sql, keep, i, Code, done, current, statements, 1, [sql[i]], InQuote(sql[i]));
  }

  /** Scanning a doubled quote inside a literal. */
  lemma DoubledStep(sql: string, keep: string -> bool, i: nat, q: char, done: seq<string>,
                    current: string, statements: seq<string>)
    requires i + 1 < |sql| && sql[i] == q && sql[i + 1] == q
    requires Scanned(sql, keep, i, InQuote(q), done, current, statements)
    ensures Scanned(sql, keep, i + 2, InQuote(q), done, current + [q, q], statements)
  {
    DoubledQuoteAt(sql, i, q);
    ExtendScanned(sql, keep, i, InQuote(q), done, current, statements, 2, [q, q], InQuote(q));
  }

  /** Scanning the quote that closes a literal. */
  lemma CloseStep(sql: string, keep: string -> bool, i: nat, q: char, done: seq<string>,
                  current: string, statements: seq<string>)
    requires i < |sql| && sql[i] == q && !(i + 1 < |sql| && sql[i + 1] == q)
    requires Scanned(sql, keep, i, InQuote(q), done, current, statements)
    ensures Scanned(sql, keep, i + 1, Code, done, current + [q], statements)
  {
    CloseQuoteAt(sql, i, q);
    ExtendScanned(sql, keep, i, InQuote(q), done, current, statements, 1, [q], Code);
  }

  /** Scanning any other character. */
  lemma CopyStep(sql: string, keep: string -> bool, i: nat, lex: Lex, done: seq<string>,
                 current: string, statements: seq<string>)
    requires i < |sql| && Scanned(sql, keep, i, lex, done, current, statements)
    requires lex.Code? ==> !IsQuote(sql[i]) && sql[i] != ';'
    requires lex.InQuote? ==> sql[i] != lex.q
    ensures Scanned(sql, keep, i + 1, lex, done, current + [sql[i]], statements)
  {
    CopyAt(sql, i, lex);
    ExtendScanned(sql, keep, i, lex, done, current, statements, 1, [sql[i]], lex);
  }

  /** One turn of the scanning loop: the character at `i`, or the doubled
      quote starting there. */
  method ScanStep(sql: string, keep: string -> bool, i: nat, lex: Lex, done: seq<string>,
                  current: string, statements: seq<string>)
    returns (i': nat, lex': Lex, done': seq<string>, current': string, statements': seq<string>)
    requires i < |sql| && Scanned(sql, keep, i, lex, done, current, statements)
    ensures i < i' && Scanned(sql, keep, i', lex', done', current', statements')
  {
    var c := sql[i];
    if lex.Code? && IsQuote(c) {
      OpenStep(sql, keep, i, done, current, statements);
      i', lex', done', current', statements' := i + 1, InQuote(c), done, current + [c], statements;
    } else if lex.InQuote? && c == lex.q {
      if i + 1 < |sql| && sql[i + 1] == c {
        DoubledStep(sql, keep, i, c, done, current, statements);
        i', lex', done', current', statements' := i + 2, lex, done, current + [c, c], statements;
      } else {
        CloseStep(sql, keep, i, c, done, current, statements);
        i', lex', done', current', statements' := i + 1, Code, done, current + [c], statements;
      }
    } else if lex.Code? && c == ';' {
      CutScanned(sql, keep, i, done, current, statements);
      statements' := statements;
      if keep(Strip(current)) {
        statements' := statements + [Strip(current)];
      }
      i', lex', done', current' := i + 1, Code, done + [current], [];
    } else {
      CopyStep(sql, keep, i, lex, done, current, statements);
      i', lex', done', current', statements' := i + 1, lex, done, current + [c], statements;
    }
  }

  /** The scanning loop of the splitter. */
  method SplitStatements(sql: string, f: Filter) returns (statements: seq<string>)
    ensures statements == SplitSpec(sql, f)
  {
    var keep := KeepTest(f);
    statements := [];
    var done: seq<string> := [];
    var current: string := [];
    var lex := Code;
    var i: nat := 0;
    assert sql[0..] == sql;
    ConsEmpty(Segments(sql, Code));
    while i < |sql|
      invariant Scanned(sql, keep, i, lex, done, current, statements)
      decreases |sql| - i
    {
      i, lex, done, current, statements := ScanStep(sql, keep, i, lex, done, current, statements);
    }
    assert sql[i..] == [];
    assert !keep([]);
    FinishPieces(Segments(sql, Code), done, current, lex, keep);
    if current != [] && keep(Strip(current)) {
      statements := statements + [Strip(current)];
    }
  }

  /** At the end of the input the current piece is the last one; an empty
      piece strips to nothing and is never kept. */
  lemma FinishPieces(whole: seq<string>, done: seq<string>, current: string, lex: Lex, keep: string -> bool)
    requires whole == done + Cons(current, Segments([], lex))
    requires !keep([])
    ensures Select(whole, keep) ==
            Select(done, keep) + (if current != [] && keep(Strip(current)) then [Strip(current)] else [])
  {
    assert current + "" == current;
    assert whole == done + [current];
    SelectAppend(done, [current], keep);
    assert [current][1..] == [];
  }

  // ---------------------------------------------------------------------------
  // Segmentation properties
  // ---------------------------------------------------------------------------

  /** Joining the raw pieces with ';' gives back the input, so every other
      character lands in exactly one piece, in order. */
  lemma {:induction false} SegmentsJoin(s: string, lex: Lex)
    ensures Join(Segments(s, lex), ';') == s
    decreases |s|, 1
  {
    match lex
    case Code => CodeJoin(s);
    case InQuote(q) => QuoteJoin(s, q);
  }

  lemma {:induction false} CodeJoin(s: string)
    ensures Join(Segments(s, Code), ';') == s
    decreases |s|, 0
  {
    if |s| > 0 {
      var t := s[1..];
      assert s == [s[0]] + t;
      if IsQuote(s[0]) {
        SegmentsJoin(t, InQuote(s[0]));
        JoinPrefixed([s[0]], Segments(t, InQuote(s[0])), t);
      } else if s[0] == ';' {
        SegmentsJoin(t, Code);
        JoinCut(Segments(t, Code), t);
      } else {
        SegmentsJoin(t, Code);
        JoinPrefixed([s[0]], Segments(t, Code), t);
      }
    }
  }

  lemma {:induction false} QuoteJoin(s: string, q: char)
    ensures Join(Segments(s, InQuote(q)), ';') == s
    decreases |s|, 0
  {
    if |s| > 0 {
      if s[0] == q && |s| > 1 && s[1] == q {
        var t := s[2..];
        assert s == [q, q] + t;
        SegmentsJoin(t, InQuote(q));
        JoinPrefixed([q, q], Segments(t, InQuote(q)), t);
      } else {
        var t := s[1..];
        assert s == [s[0]] + t;
        if s[0] == q {
          SegmentsJoin(t, Code);
          JoinPrefixed([q], Segments(t, Code), t);
        } else {
          SegmentsJoin(t, InQuote(q));
          JoinPrefixed([s[0]], Segments(t, InQuote(q)), t);
        }
      }
    }
  }

  lemma JoinPrefixed(h: string, parts: seq<string>, t: string)
    requires |parts| > 0 && Join(parts, ';') == t
    ensures Join(Cons(h, parts), ';') == h + t
  {
    JoinCons(h, parts, ';');
  }

  lemma JoinCut(parts: seq<string>, t: string)
    requires |parts| > 0 && Join(parts, ';') == t
    ensures Join([""] + parts, ';') == [';'] + t
  {
    assert ([""] + parts)[1..] == parts;
  }

  /** Inside a literal, the escaped text of any value is consumed whole: its
      quotes come in pairs, so the literal stays open and no ';' splits. */
  lemma {:induction false} EscapedBodyStaysOpen(v: string, q: char, rest: string)
    requires IsQuote(q)
    ensures Segments(Escape(v, q) + [q] + rest, InQuote(q)) ==
            Cons(Escape(v, q), Segments([q] + rest, InQuote(q)))
    decreases |v|
  {
    var e := Escape(v, q);
    if |v| == 0 {
      assert e + [q] + rest == [q] + rest;
      ConsEmpty(Segments([q] + rest, InQuote(q)));
    } else {
      var t := Escape(v[1..], q);
      EscapedBodyStaysOpen(v[1..], q, rest);
      var h := if v[0] == q then [q, q] else [v[0]];
      var u := t + [q] + rest;
      if v[0] == q {
        InQuoteDoubled(q, u);
      } else {
        InQuoteOther(v[0], q, u);
      }
      assert e == h + t;
      JoinPieces(h, t, q, rest, Segments([q] + rest, InQuote(q)), InQuote(q));
    }
  }

  /** A piece `h` scanned in front of a piece `t` makes one piece `h + t`. */
  lemma JoinPieces(h: string, t: string, q: char, rest: string, tail: seq<string>, lex: Lex)
    requires |tail| > 0
    requires Segments(h + (t + [q] + rest), lex) == Cons(h, Segments(t + [q] + rest, lex))
    requires Segments(t + [q] + rest, lex) == Cons(t, tail)
    ensures Segments((h + t) + [q] + rest, lex) == Cons(h + t, tail)
  {
    ConsCons(h, t, tail);
    assert (h + t) + [q] + rest == h + (t + [q] + rest);
  }

  lemma InQuoteDoubled(q: char, u: string)
    ensures Segments([q, q] + u, InQuote(q)) == Cons([q, q], Segments(u, InQuote(q)))
  {
    var s := [q, q] + u;
    assert s[0] == q && s[1] == q && s[2..] == u;
  }

  lemma InQuoteOther(c: char, q: char, u: string)
    requires c != q
    ensures Segments([c] + u, InQuote(q)) == Cons([c], Segments(u, InQuote(q)))
  {
    var s := [c] + u;
    assert s[0] == c && s[1..] == u;
  }

  /** A value escaped and wrapped in its quotes is one literal: it stays
      inside the current piece whatever it contains, ';' included, provided
      the next character is not the same quote. */
  lemma QuotedLiteralIsAtomic(v: string, q: char, rest: string)
    requires IsQuote(q)
    requires rest == [] || rest[0] != q
    ensures Segments([q] + Escape(v, q) + [q] + rest, Code) ==
            Cons([q] + Escape(v, q) + [q], Segments(rest, Code))
  {
    var e := Escape(v, q);
    OpenLiteral(e, q, rest);
    EscapedBodyStaysOpen(v, q, rest);
    CloseQuoteStep(q, rest);
    ConsCons(e, [q], Segments(rest, Code));
    ConsThree(q, e, Segments(rest, Code));
  }

  lemma OpenLiteral(e: string, q: char, rest: string)
    requires IsQuote(q)
    ensures Segments([q] + e + [q] + rest, Code) == Cons([q], Segments(e + [q] + rest, InQuote(q)))
  {
    var s := [q] + e + [q] + rest;
    assert s[0] == q && s[1..] == e + [q] + rest;
    OpenQuoteStep(s);
  }

  lemma ConsThree(q: char, e: string, tail: seq<string>)
    requires |tail| > 0
    ensures Cons([q], Cons(e + [q], tail)) == Cons([q] + e + [q], tail)
  {
    ConsCons([q], e + [q], tail);
    assert [q] + (e + [q]) == [q] + e + [q];
  }

  /** Text with no quote and no ';' is copied into the current piece. */
  lemma {:induction false} PlainText(a: string, s: string)
    requires forall k :: 0 <= k < |a| ==> !IsQuote(a[k]) && a[k] != ';'
    ensures Segments(a + s, Code) == Cons(a, Segments(s, Code))
    decreases |a|
  {
    if |a| == 0 {
      assert a + s == s;
      ConsEmpty(Segments(s, Code));
    } else {
      assert (a + s)[0] == a[0] && (a + s)[1..] == a[1..] + s;
      PlainText(a[1..], s);
      ConsCons([a[0]], a[1..], Segments(s, Code));
      assert [a[0]] + a[1..] == a;
    }
  }

  /** Inside a literal, text without its quote is copied. */
  lemma {:induction false} QuotedText(b: string, q: char)
    requires q !in b
    ensures Segments(b, InQuote(q)) == [b]
    decreases |b|
  {
    if |b| > 0 {
      QuotedText(b[1..], q);
      assert [b[0]] + b[1..] == b;
    }
  }

  /** The splitter knows no comments: a quote after "--" opens a literal,
      and a ';' after it no longer ends the statement. */
  lemma CommentQuoteOpensLiteral(a: string, q: char, b: string)
    requires IsQuote(q) && q !in b
    requires forall k :: 0 <= k < |a| ==> !IsQuote(a[k]) && a[k] != ';'
    ensures Segments("--" + a + [q] + b, Code) == ["--" + a + [q] + b]
  {
    var x := "--" + a;
    assert forall k :: 0 <= k < |x| ==> !IsQuote(x[k]) && x[k] != ';';
    var s := [q] + b;
    assert "--" + a + [q] + b == x + s;
    PlainText(x, s);
    assert s[0] == q && s[1..] == b;
    QuotedText(b, q);
    ConsCons(x, [q], [b]);
  }

  /** A top-level ';' ends a piece. */
  lemma StatementThenRest(a: string, s: string)
    requires forall k :: 0 <= k < |a| ==> !IsQuote(a[k]) && a[k] != ';'
    ensures Segments(a + ";" + s, Code) == [a] + Segments(s, Code)
  {
    var t := ";" + s;
    assert a + ";" + s == a + t;
    PlainText(a, t);
    assert t[0] == ';' && t[1..] == s;
    assert Segments(t, Code) == [""] + Segments(s, Code);
    assert a + "" == a;
  }

  /** Trailing text without a terminating ';' is still a statement. */
  lemma TrailingStatementKept(a: string, f: Filter)
    requires forall k :: 0 <= k < |a| ==> !IsQuote(a[k]) && a[k] != ';'
    ensures SplitSpec(a, f) == if Keep(f, Strip(a)) then [Strip(a)] else []
  {
    PlainText(a, "");
    assert a + "" == a;
    assert Segments("", Code) == [""];
    assert Cons(a, [""]) == [a];
    SelectOne(a, KeepTest(f));
  }

  lemma SelectOne(x: string, keep: string -> bool)
    ensures Select([x], keep) == if keep(Strip(x)) then [Strip(x)] else []
  {
    assert [x][1..] == [];
  }

  // ---------------------------------------------------------------------------
  // The filters compared
  // ---------------------------------------------------------------------------

  /** `IsSubseq(a, b)`: `a` is `b` with some elements left out. */
  predicate IsSubseq(a: seq<string>, b: seq<string>)
    decreases |b|
  {
    if |a| == 0 then true
    else if |b| == 0 then false
    else if a[0] == b[0] then IsSubseq(a[1..], b[1..])
    else IsSubseq(a, b[1..])
  }

  /** A trimmed non-empty statement that does not start with "--" has a
      first line holding SQL. */
  lemma MainKeepImpliesSpecKeep(stmt: string)
    requires Strip(stmt) == stmt
    requires Keep(MainFilter, stmt)
    ensures Keep(SpecFilter, stmt)
  {
    var lines := Split(stmt, '\n');
    FirstLineStartsStatement(stmt);
    ContentPrefix(stmt, lines[0]);
  }

  /** The first line of a text that starts with a non-space character is a
      non-empty prefix of it. */
  lemma FirstLineStartsStatement(stmt: string)
    requires stmt != [] && !IsSpace(stmt[0])
    ensures |Split(stmt, '\n')[0]| > 0 && StartsWith(stmt, Split(stmt, '\n')[0])
  {
    SplitHead(stmt, '\n');
    assert IsSpace('\n');
  }

  /** A non-empty prefix that starts with a non-space character of a text not
      starting with "--" is a line holding SQL. */
  lemma ContentPrefix(stmt: string, ln: string)
    requires StartsWith(stmt, ln) && |ln| > 0 && !IsSpace(ln[0])
    requires !StartsWith(stmt, "--")
    ensures IsContentLine(ln)
  {
    StripKeepsHead(ln);
    var t := Strip(ln);
    if |t| >= 2 {
      assert t[..2] == ln[..2] == stmt[..2];
    }
  }

  /** A test `strong` that implies `weak` on trimmed text selects a
      subsequence of what `weak` selects from the same pieces. */
  lemma {:induction false} SelectMonotone(parts: seq<string>, strong: string -> bool, weak: string -> bool)
    requires forall s :: Strip(s) == s && strong(s) ==> weak(s)
    ensures IsSubseq(Select(parts, strong), Select(parts, weak))
    decreases |parts|
  {
    if |parts| > 0 {
      SelectMonotone(parts[1..], strong, weak);
      StripIdempotent(parts[0]);
      SelectStep(Strip(parts[0]), strong(Strip(parts[0])), weak(Strip(parts[0])),
                 Select(parts[1..], strong), Select(parts[1..], weak));
    }
  }

  /** One piece of the monotonicity argument, with the two verdicts on the
      piece `s` as plain booleans. */
  lemma SelectStep(s: string, kept: bool, keptWeak: bool, m: seq<string>, p: seq<string>)
    requires IsSubseq(m, p) && (kept ==> keptWeak)
    ensures IsSubseq((if kept then [s] else []) + m, (if keptWeak then [s] else []) + p)
  {
    var l := (if kept then [s] else []) + m;
    var r := (if keptWeak then [s] else []) + p;
    if kept {
      assert l == [s] + m && r == [s] + p;
      SubseqBoth(s, m, p);
    } else if keptWeak {
      assert l == m && r == [s] + p;
      SubseqSkip(m, s, p);
    } else {
      assert l == m && r == p;
    }
  }

  /** The same element in front of both sides keeps the relation. */
  lemma SubseqBoth(x: string, a: seq<string>, b: seq<string>)
    requires IsSubseq(a, b)
    ensures IsSubseq([x] + a, [x] + b)
  {
    assert ([x] + a)[1..] == a && ([x] + b)[1..] == b;
  }

  /** Putting an element in front of the larger sequence keeps the relation. */
  lemma {:induction false} SubseqSkip(a: seq<string>, x: string, b: seq<string>)
    requires IsSubseq(a, b)
    ensures IsSubseq(a, [x] + b)
    decreases |b|, 1
  {
    var xb := [x] + b;
    assert xb[1..] == b;
    if |a| > 0 && a[0] == x {
      SubseqDropHead(a, b);
    }
  }

  lemma {:induction false} SubseqDropHead(a: seq<string>, b: seq<string>)
    requires |a| > 0 && IsSubseq(a, b)
    ensures IsSubseq(a[1..], b)
    decreases |b|, 0
  {
    assert [b[0]] + b[1..] == b;
    if a[0] == b[0] {
      SubseqSkip(a[1..], b[0], b[1..]);
    } else {
      SubseqDropHead(a, b[1..]);
      SubseqSkip(a[1..], b[0], b[1..]);
    }
  }

  /** On every input the server's splitter returns a subsequence of the
      spec engine's: both cut the same pieces and every piece the first
      keeps the second keeps too. */
  lemma MainOutputSubseqOfSpec(sql: string)
    ensures IsSubseq(SplitSpec(sql, MainFilter), SplitSpec(sql, SpecFilter))
  {
    forall s | Strip(s) == s && KeepTest(MainFilter)(s)
      ensures KeepTest(SpecFilter)(s)
    {
      MainKeepImpliesSpecKeep(s);
    }
    SelectMonotone(Segments(sql, Code), KeepTest(MainFilter), KeepTest(SpecFilter));
  }

  /** A statement that opens with a comment line is dropped by the server's
      filter and kept by the spec engine's when a later line holds SQL. */
  lemma HeaderCommentStatement(c: string, body: string)
    requires '\n' !in c
    requires Strip(body) == body && body != [] && !StartsWith(body, "--")
    ensures !Keep(MainFilter, "--" + c + "\n" + body)
    ensures Keep(SpecFilter, "--" + c + "\n" + body)
  {
    var head := "--" + c;
    CommentHeadLine(c, body);
    assert "--" + c + "\n" + body == head + ['\n'] + body;
    SplitAt(head, '\n', body);
    MainKeepImpliesSpecKeep(body);
    AnyContentLineLater(head, Split(body, '\n'));
  }

  lemma CommentHeadLine(c: string, body: string)
    requires '\n' !in c
    ensures '\n' !in "--" + c
    ensures StartsWith("--" + c + "\n" + body, "--")
  {
    var stmt := "--" + c + "\n" + body;
    assert stmt[..2] == "--";
  }

  /** A line holding SQL anywhere after the first one is enough. */
  lemma AnyContentLineLater(h: string, lines: seq<string>)
    requires AnyContentLine(lines)
    ensures AnyContentLine([h] + lines)
  {
    assert ([h] + lines)[1..] == lines;
  }

  // ---------------------------------------------------------------------------
  // Re-checks done by the callers
  // ---------------------------------------------------------------------------

  /** The lines `load_sql_macros` and the macro test keep: non-blank and not
      comments. */
  function ContentLines(lines: seq<string>): (r: seq<string>)
    ensures |r| <= |lines|
    ensures forall k :: 0 <= k < |r| ==> IsContentLine(r[k])
    ensures forall k :: 0 <= k < |r| ==> r[k] in lines
    decreases |lines|
  {
    if |lines| == 0 then []
    else (if IsContentLine(lines[0]) then [lines[0]] else []) + ContentLines(lines[1..])
  }

  /** Skipping a statement whose content-line list is empty is the same as
      skipping one without non-comment content. */
  lemma {:induction false} ContentLinesEmptyIff(lines: seq<string>)
    ensures |ContentLines(lines)| > 0 <==> AnyContentLine(lines)
    decreases |lines|
  {
    if |lines| > 0 {
      ContentLinesEmptyIff(lines[1..]);
    }
  }

  /** `load_sql_macros`: a statement is executed when some line of it
      holds SQL. */
  predicate MacroExecutes(stmt: string) {
    |ContentLines(Split(stmt, '\n'))| > 0
  }

  /** The comment-only skip filter of `load_sql_macros` and of the macro
      test is the spec engine's `_has_non_comment_content`. */
  lemma MacroExecutesIff(stmt: string)
    ensures MacroExecutes(stmt) <==> HasNonCommentContent(stmt)
  {
    ContentLinesEmptyIff(Split(stmt, '\n'));
  }

  /** The empty text has no line holding SQL. */
  lemma EmptyHasNoContent()
    ensures !HasNonCommentContent("")
  {
    assert Split("", '\n') == [""];
  }

  /** The statements of the server's splitter that `load_sql_macros`
      executes, in order. */
  function LoadMacroStatements(sql: string): (executed: seq<string>)
  {
    MacroFilter(SplitSpec(sql, MainFilter))
  }

  function MacroFilter(stmts: seq<string>): (r: seq<string>)
    ensures |r| <= |stmts|
    decreases |stmts|
  {
    if |stmts| == 0 then []
    else (if MacroExecutes(stmts[0]) then [stmts[0]] else []) + MacroFilter(stmts[1..])
  }

  /** The line filter of `load_sql_macros` never drops a statement of the
      server's splitter: every one of them holds SQL on its first line. */
  lemma LoadMacroExecutesAll(sql: string)
    ensures LoadMacroStatements(sql) == SplitSpec(sql, MainFilter)
  {
    var stmts := SplitSpec(sql, MainFilter);
    SelectKeeps(Segments(sql, Code), KeepTest(MainFilter));
    MacroFilterKeepsAll(stmts);
  }

  lemma {:induction false} MacroFilterKeepsAll(stmts: seq<string>)
    requires forall k :: 0 <= k < |stmts| ==>
               KeepTest(MainFilter)(stmts[k]) && Strip(stmts[k]) == stmts[k]
    ensures MacroFilter(stmts) == stmts
    decreases |stmts|
  {
    if |stmts| > 0 {
      MacroKeeps(stmts[0]);
      MacroFilterKeepsAll(stmts[1..]);
      assert [stmts[0]] + stmts[1..] == stmts;
    }
  }

  lemma MacroKeeps(s: string)
    requires KeepTest(MainFilter)(s) && Strip(s) == s
    ensures MacroExecutes(s)
  {
    MainKeepImpliesSpecKeep(s);
    ContentLinesEmptyIff(Split(s, '\n'));
  }

  /** `_load_sql_file`: strip each statement of `_split_sql` again and skip
      the ones without non-comment content. */
  function LoadSqlFileFilter(stmts: seq<string>): (r: seq<string>)
  {
    Select(stmts, s => HasNonCommentContent(s))
  }

  /** The re-check never skips a statement of `_split_sql`: stripping is
      idempotent and the filter already held. */
  lemma LoadSqlFileExecutesAll(sql: string)
    ensures LoadSqlFileFilter(SplitSpec(sql, SpecFilter)) == SplitSpec(sql, SpecFilter)
  {
    var stmts := SplitSpec(sql, SpecFilter);
    SelectKeeps(Segments(sql, Code), KeepTest(SpecFilter));
    SelectAllKept(stmts, s => HasNonCommentContent(s));
  }
}
