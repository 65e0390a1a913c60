/** The prefix declarations of the query in test/parser.test.js. */
module ScannerExamples {
  import opened Wrappers
  import opened Strings
  import opened Prefixes
  import opened Scanner
  import opened ScannerFacts

  /** Angle brackets around a namespace without any are dropped. */
  lemma StripWrapped(ns: string)
    requires forall k :: 0 <= k < |ns| ==> ns[k] != '<' && ns[k] != '>'
    ensures StripAngles("<" + ns + ">") == ns
  {
    StripAnglesAppend("<", ns);
    StripAnglesAppend("<" + ns, ">");
    assert StripAngles("<") == "" by {
      assert "<"[1..] == "";
    }
    assert StripAngles(">") == "" by {
      assert ">"[1..] == "";
    }
  }

  /** `short: <ns>` after leading blanks parses to `short` and `ns`, the angle brackets dropped. */
  lemma AngledDeclaration(lead: string, short: string, ns: string, body: string)
    requires AllSpace(lead) && |short| > 0 && AllLabel(short) && PlainUrl(ns)
    requires body == "<" + ns + ">"
    ensures ParsePrefix(lead + short + ":" + " " + body)
         == Some(Prefix(lead + short + ":" + " " + body, short, ns))
  {
    assert body[0] == '<' && body[|body| - 1] == '>';
    assert NoLineTerminator(body) by {
      forall k | 0 <= k < |body| ensures !IsLineTerminator(body[k]) {
        if 0 < k < |body| - 1 {
          assert body[k] == ns[k - 1];
        }
      }
    }
    ParseDeclaration(lead, short, "", " ", body);
    assert lead + short + "" == lead + short;
    StripWrapped(ns);
  }

  /** The body of an angled declaration has its only `>` at the end. */
  lemma AngledBody(lead: string, short: string, ns: string, body: string)
    requires PlainUrl(ns) && body == "<" + ns + ">"
    requires forall k :: 0 <= k < |lead + short| ==> (lead + short)[k] != '>'
    ensures var text := lead + short + ":" + " " + body;
            text[|text| - 1] == '>' && forall k :: 0 <= k < |text| - 1 ==> text[k] != '>'
  {
    var text := lead + short + ":" + " " + body;
    var n := |lead + short|;
    forall k | 0 <= k < |text| - 1 ensures text[k] != '>' {
      if k < n {
        assert text[k] == (lead + short)[k];
      } else if k >= n + 3 {
        assert text[k] == ns[k - n - 3];
      }
    }
  }

  /** Characters skipped outside any mode. */
  predicate Blank(s: string) {
    forall k :: 0 <= k < |s| ==> !IsWord(s[k]) && s[k] != '#'
  }

  /** A declaration body that parses and whose only `>` ends it. */
  predicate Declares(decl: string, p: Prefix) {
    && |decl| > 0 && decl[|decl| - 1] == '>'
    && (forall k :: 0 <= k < |decl| - 1 ==> decl[k] != '>')
    && ParsePrefix(decl) == Some(p)
  }

  /** The first declaration line of a query. */
  lemma FirstLine(lead: string, kw: string, c: char, nl: char, decl: string, p: Prefix)
    requires Blank(lead)
    requires |kw| > 0 && (forall k :: 0 <= k < |kw| ==> IsWord(kw[k])) && ToLower(kw) == "prefix"
    requires IsWhitespace(c) && IsWhitespace(nl) && Declares(decl, p)
    ensures Run(Initial, lead + kw + [c] + decl + [nl]) == Some(Initial.(modes := ["token", ""], prefixes := [p]))
  {
    ScanDeclarationLine(Initial, lead, kw, c, decl, nl, p);
    assert Initial.modes + ["token", ""] == ["token", ""];
    assert Initial.prefixes + [p] == [p];
  }

  /** A further declaration, after blanks. */
  lemma NextDeclaration(st: State, blank: string, kw: string, c: char, decl: string, p: Prefix)
    requires Top(st.modes) == "" && Blank(blank)
    requires |kw| > 0 && (forall k :: 0 <= k < |kw| ==> IsWord(kw[k])) && ToLower(kw) == "prefix"
    requires IsWhitespace(c) && Declares(decl, p)
    ensures Run(st, blank + kw + [c] + decl)
         == Some(st.(modes := st.modes + ["token"], prefixes := st.prefixes + [p], token := ""))
  {
    var out := st.(modes := st.modes + ["token"], prefixes := st.prefixes + [p], token := "");
    SkipBlank(st, blank);
    ScanDeclaration(st, kw, c, decl, p);
    ThenRun(st, blank, kw + [c] + decl, st, out);
    Assoc4(blank, kw, [c], decl);
  }

  /**
   * A query opening with two declarations on their own lines: when its scan succeeds, the
   * first two prefixes are those two, in order.
   */
  lemma TwoDeclarations(lead: string, blank: string, kw: string, c: char, nl: char,
                        decl1: string, decl2: string, p1: Prefix, p2: Prefix, rest: string)
    requires Blank(lead) && Blank(blank)
    requires |kw| > 0 && (forall k :: 0 <= k < |kw| ==> IsWord(kw[k])) && ToLower(kw) == "prefix"
    requires IsWhitespace(c) && IsWhitespace(nl)
    requires Declares(decl1, p1) && Declares(decl2, p2)
    ensures var q := (lead + kw + [c] + decl1 + [nl]) + (blank + kw + [c] + decl2) + rest;
            Parse(q).Some? ==> |Parse(q).value.prefixes| >= 2 && Parse(q).value.prefixes[..2] == [p1, p2]
  {
    var st1 := Initial.(modes := ["token", ""], prefixes := [p1]);
    var decl := st1.(modes := st1.modes + ["token"], prefixes := st1.prefixes + [p2], token := "");
    var line1 := lead + kw + [c] + decl1 + [nl];
    var line2 := blank + kw + [c] + decl2;
    FirstLine(lead, kw, c, nl, decl1, p1);
    NextDeclaration(st1, blank, kw, c, decl2, p2);
    ThenRun(Initial, line1, line2, st1, decl);
    assert decl.prefixes == [p1, p2];
    ParseKeepsPrefixes(line1 + line2, rest, decl);
  }

  lemma DeclaresCmn(decl: string, ns: string, b: string)
    requires PlainUrl(ns) && b == "<" + ns + ">"
    requires decl == "cmn" + ":" + " " + b
    ensures Declares(decl, Prefix(decl, "cmn", ns))
  {
    assert AllLabel("cmn") && AllSpace("");
    assert "" + "cmn" == "cmn";
    AngledDeclaration("", "cmn", ns, b);
    assert '>' !in "" && '>' !in "cmn";
    NoCloseAngle("", "cmn");
    AngledBody("", "cmn", ns, b);
  }

  lemma DeclaresFoaf(decl: string, ns: string, b: string)
    requires PlainUrl(ns) && b == "<" + ns + ">"
    requires decl == " " + "foaf" + ":" + " " + b
    ensures Declares(decl, Prefix(decl, "foaf", ns))
  {
    assert AllLabel("foaf") && AllSpace(" ");
    AngledDeclaration(" ", "foaf", ns, b);
    assert '>' !in " " && '>' !in "foaf";
    NoCloseAngle(" ", "foaf");
    AngledBody(" ", "foaf", ns, b);
  }

  lemma NoCloseAngle(lead: string, short: string)
    requires '>' !in lead && '>' !in short
    ensures forall k :: 0 <= k < |lead + short| ==> (lead + short)[k] != '>'
  {
    forall k | 0 <= k < |lead + short| ensures (lead + short)[k] != '>' {
      if k < |lead| {
        assert (lead + short)[k] == lead[k];
      } else {
        assert (lead + short)[k] == short[k - |lead|];
      }
    }
  }

  /** The namespaces of the test are plain URLs. */
  lemma TestNamespacesArePlain(ns1: string, ns2: string)
    requires ns1 == "http://purl.org/NET/classicalmusicnav#" && ns2 == "http://xmlns.com/foaf/0.1/"
    ensures PlainUrl(ns1) && PlainUrl(ns2)
  {
    ClassicalMusicNavPlain(ns1);
    FoafPlain(ns2);
  }

  lemma ClassicalMusicNavPlain(ns: string)
    requires ns == "http://purl.org/NET/classicalmusicnav#"
    ensures PlainUrl(ns)
  {
  }

  lemma FoafPlain(ns: string)
    requires ns == "http://xmlns.com/foaf/0.1/"
    ensures PlainUrl(ns)
  {
  }

  lemma LowerPrefix(kw: string)
    requires kw == "PREFIX"
    ensures |kw| > 0 && (forall k :: 0 <= k < |kw| ==> IsWord(kw[k])) && ToLower(kw) == "prefix"
  {
    var lower := ToLower(kw);
    assert lower[0] == 'p' && lower[1] == 'r' && lower[2] == 'e' && lower[3] == 'f' && lower[4] == 'i' && lower[5] == 'x';
  }

  /** Two declarations of `cmn` and `foaf` on plain namespaces, on their own lines. */
  lemma CmnThenFoaf(lead: string, blank: string, kw: string, c: char, n: char, decl1: string, decl2: string,
                    ns1: string, ns2: string, b1: string, b2: string, rest: string)
    requires Blank(lead) && Blank(blank)
    requires |kw| > 0 && (forall k :: 0 <= k < |kw| ==> IsWord(kw[k])) && ToLower(kw) == "prefix"
    requires IsWhitespace(c) && IsWhitespace(n)
    requires PlainUrl(ns1) && PlainUrl(ns2)
    requires b1 == "<" + ns1 + ">" && b2 == "<" + ns2 + ">"
    requires decl1 == "cmn" + ":" + " " + b1 && decl2 == " " + "foaf" + ":" + " " + b2
    ensures var q := (lead + kw + [c] + decl1 + [n]) + (blank + kw + [c] + decl2) + rest;
            Parse(q).Some? ==>
              && |Parse(q).value.prefixes| >= 2
              && Parse(q).value.prefixes[0].short == "cmn" && Parse(q).value.prefixes[0].long == ns1
              && Parse(q).value.prefixes[1].short == "foaf" && Parse(q).value.prefixes[1].long == ns2
  {
    var p1, p2 := Prefix(decl1, "cmn", ns1), Prefix(decl2, "foaf", ns2);
    DeclaresCmn(decl1, ns1, b1);
    DeclaresFoaf(decl2, ns2, b2);
    TwoDeclarations(lead, blank, kw, c, n, decl1, decl2, p1, p2, rest);
    var q := (lead + kw + [c] + decl1 + [n]) + (blank + kw + [c] + decl2) + rest;
    if Parse(q).Some? {
      var ps := Parse(q).value.prefixes;
      assert ps[0] == ps[..2][0] && ps[1] == ps[..2][1];
    }
  }

  /**
   * However the query goes on, the scan of one that opens with the two declarations of the
   * test, when it succeeds, has `cmn` and then `foaf` as its first prefixes, with their
   * namespaces as long forms. The namespaces are any plain URLs, such as the test's
   * `http://purl.org/NET/classicalmusicnav#` and `http://xmlns.com/foaf/0.1/`.
   */
  lemma TestQueryPrefixes(nl: string, blank: string, kw: string, sp: string, decl1: string, decl2: string,
                          ns1: string, ns2: string, b1: string, b2: string, rest: string)
    requires nl == "\n" && blank == "  " && kw == "PREFIX" && sp == " "
    requires PlainUrl(ns1) && PlainUrl(ns2)
    requires b1 == "<" + ns1 + ">" && b2 == "<" + ns2 + ">"
    requires decl1 == "cmn" + ":" + " " + b1 && decl2 == " " + "foaf" + ":" + " " + b2
    ensures var q := (nl + blank + kw + sp + decl1 + nl) + (blank + kw + sp + decl2) + rest;
            Parse(q).Some? ==>
              && |Parse(q).value.prefixes| >= 2
              && Parse(q).value.prefixes[0].short == "cmn" && Parse(q).value.prefixes[0].long == ns1
              && Parse(q).value.prefixes[1].short == "foaf" && Parse(q).value.prefixes[1].long == ns2
  {
    LowerPrefix(kw);
    assert Blank(nl + blank) && Blank(blank);
    var c, n := sp[0], nl[0];
    CmnThenFoaf(nl + blank, blank, kw, c, n, decl1, decl2, ns1, ns2, b1, b2, rest);
    assert [c] == sp && [n] == nl;
  }
}
