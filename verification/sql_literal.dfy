/** Quoted SQL literals: the body of a literal delimited by quote `q` writes
    every `q` of its value twice. */
module SqlLiteral {
  import opened Strings

  predicate IsQuote(c: char) {
    c == '\'' || c == '"'
  }

  /** `s.replace(q, q + q)` */
  function Escape(s: string, q: char): (r: string)
    ensures |r| == |s| + Count(s, q)
    ensures q !in s ==> r == s
    decreases |s|
  {
    if |s| == 0 then ""
    else (if s[0] == q then [q, q] else [s[0]]) + Escape(s[1..], q)
  }

  /** The value a literal body denotes, or `None` when the body holds a lone
      `q`, which would end the literal early. */
  function Unescape(l: string, q: char): (r: Option<string>)
    ensures r.Some? ==> |r.value| <= |l|
    decreases |l|
  {
    if |l| == 0 then Some("")
    else if l[0] == q then
      if |l| >= 2 && l[1] == q then
        match Unescape(l[2..], q)
        case None => None
        case Some(v) => Some([q] + v)
      else None
    else
      match Unescape(l[1..], q)
      case None => None
      case Some(v) => Some([l[0]] + v)
  }

  /** Un-doubling recovers the escaped value. */
  lemma {:induction false} UnescapeEscape(s: string, q: char)
    ensures Unescape(Escape(s, q), q) == Some(s)
    decreases |s|
  {
    if |s| > 0 {
      UnescapeEscape(s[1..], q);
      var e := Escape(s, q);
      if s[0] == q {
        assert e[2..] == Escape(s[1..], q);
      } else {
        assert e[1..] == Escape(s[1..], q);
      }
      assert [s[0]] + s[1..] == s;
    }
  }

  /** Every body that denotes a value is the escape of that value: the two
      functions are inverse on well-formed bodies. */
  lemma {:induction false} EscapeUnescape(l: string, q: char)
    requires Unescape(l, q).Some?
    ensures Escape(Unescape(l, q).value, q) == l
    decreases |l|
  {
    if |l| > 0 {
      var v := Unescape(l, q).value;
      if l[0] == q {
        EscapeUnescape(l[2..], q);
        assert v[1..] == Unescape(l[2..], q).value;
        assert l == [q, q] + l[2..];
      } else {
        EscapeUnescape(l[1..], q);
        assert v[1..] == Unescape(l[1..], q).value;
        assert l == [l[0]] + l[1..];
      }
    }
  }

  /** Distinct well-formed bodies denote distinct values. */
  lemma UnescapeInjective(a: string, b: string, q: char)
    requires Unescape(a, q).Some? && Unescape(a, q) == Unescape(b, q)
    ensures a == b
  {
    EscapeUnescape(a, q);
    EscapeUnescape(b, q);
  }

  /** A body without the quote character denotes itself. */
  lemma QuoteFreeLiteral(l: string, q: char)
    requires q !in l
    ensures Unescape(l, q) == Some(l)
  {
    UnescapeEscape(l, q);
  }

  /** Every quote of an escaped text is one half of a doubled pair: after a
      run of pairs from the start, a quote is always followed by another. */
  lemma {:induction false} EscapedQuotesPaired(s: string, q: char)
    ensures forall i :: 0 <= i < |Escape(s, q)| && Escape(s, q)[i] == q &&
                        (i == 0 || Escape(s, q)[i - 1] != q) ==>
              i + 1 < |Escape(s, q)| && Escape(s, q)[i + 1] == q
    decreases |s|
  {
    if |s| > 0 {
      EscapedQuotesPaired(s[1..], q);
      var e := Escape(s, q);
      var t := Escape(s[1..], q);
      var h := if s[0] == q then [q, q] else [s[0]];
      assert e == h + t;
      assert e[0] == h[0] && e[|h| - 1] == h[|h| - 1];
      if s[0] == q {
        assert e[1] == h[1];
      }
      forall i | 0 <= i < |e| && e[i] == q && (i == 0 || e[i - 1] != q)
        ensures i + 1 < |e| && e[i + 1] == q
      {
        if i >= |h| && (i > |h| || h[|h| - 1] != q) {
          var k := i - |h|;
          assert e[i] == t[k];
          if k > 0 {
            assert e[i - 1] == t[k - 1];
          }
          assert t[k] == q && (k == 0 || t[k - 1] != q);
          assert e[i + 1] == t[k + 1];
        }
      }
    } else {
      assert Escape(s, q) == [];
    }
  }
}
