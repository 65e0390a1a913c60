/**
 * The scan of the whole query of test/parser.test.js, one line at a time: the declared
 * prefixes, the two triple patterns and the VALUES column it yields.
 */
module ScannerQuery {
  import opened Wrappers
  import opened Strings
  import opened Prefixes
  import opened Scanner
  import opened ScannerFacts
  import opened ScannerExamples

  const CmnNamespace := "http://purl.org/NET/classicalmusicnav#"
  const FoafNamespace := "http://xmlns.com/foaf/0.1/"

  /** The two declaration bodies, as prefix mode collects them; the second keeps its leading space. */
  const CmnDeclaration := "cmn" + ":" + " " + ("<" + CmnNamespace + ">")
  const FoafDeclaration := " " + "foaf" + ":" + " " + ("<" + FoafNamespace + ">")

  // The lines of the query, cut where the scan changes state.
  const CmnText := "\n  " + "PREFIX" + " " + CmnDeclaration + "\n"
  const FoafText := "  " + "PREFIX" + " " + FoafDeclaration + "\n"
  const BlankText := "\n"
  const SelectText := "  " + "SELECT" + " " + "*" + " " + "WHERE" + " " + "{\n"
  const ValuesText := "    " + "VALUES" + " " + "?s" + " " + "{" + "\n"
  const BindingsText := "      " + "cmn:ADAM1" + " " + "cmn:ADAM2" + " " + "cmn:ALAI" + "\n"
  const CloseValuesText := "    " + "}" + "\n"
  const PatternText := "    " + "?s" + " " + "?p" + " " + "?o" + " " + ".\n"
  const OptionalText := "    " + "OPTIONAL" + " " + "{\n"
  const OptionalPatternText := "        " + "?o" + " " + "foaf:name" + " " + "?otherName" + "\n"
  const CloseOptionalText := "    " + "}" + "\n"
  const CloseWhereText := "  " + "}" + "\n"
  const LimitText := "  " + "LIMIT" + " " + "100\n  "

  /** The query of the test. */
  function TestQuery(): string {
    CmnText + FoafText + BlankText + SelectText + ValuesText + BindingsText + CloseValuesText
    + PatternText + OptionalText + OptionalPatternText + CloseOptionalText + CloseWhereText + LimitText
  }

  /** The prefixes the two declarations parse to. */
  function Cmn(): Prefix {
    Prefix(CmnDeclaration, "cmn", CmnNamespace)
  }

  function Foaf(): Prefix {
    Prefix(FoafDeclaration, "foaf", FoafNamespace)
  }

  /** The first triple pattern, `?s ?p ?o`, and the optional one, `?o foaf:name ?otherName`. */
  function SubjectTriple(): seq<Term> {
    [Word("?s"), Word("?p"), Word("?o")]
  }

  function NameTriple(): seq<Term> {
    [Word("?o"), Word("foaf:name"), Word("?otherName")]
  }

  /** A scan of `a` and then of `w + c`, told as one scan of `a + w + c`. */
  lemma ThenPiece(st: State, a: string, w: string, c: string, mid: State, out: State)
    requires Run(st, a) == Some(mid) && Run(mid, w + c) == Some(out)
    ensures Run(st, a + w + c) == Some(out)
  {
    ThenRun(st, a, w + c, mid, out);
    assert a + (w + c) == a + w + c;
  }

  // ---------------------------------------------------------------------------------------
  // The words of the query

  /** A keyword outside any mode: word characters only, and what it lower-cases to. */
  predicate Keyword(kw: string, lower: string) {
    |kw| > 0 && (forall k :: 0 <= k < |kw| ==> IsWord(kw[k])) && ToLower(kw) == lower
  }

  /** A keyword inside a triple mode that opens a sub-clause. */
  predicate SubClauseWord(w: string) {
    |w| > 0 && !IsTripleEnd(w[0]) && (forall k :: 0 <= k < |w| ==> TermChar(w[k])) && IsSubClause(ToLower(w))
  }

  /** A bound value, which is not `undef` in any case. */
  predicate BoundValue(w: string) {
    |w| > 0 && (forall k :: 0 <= k < |w| ==> ValueChar(w[k])) && ToLower(w) != "undef"
  }

  lemma PrefixWord()
    ensures Keyword("PREFIX", "prefix")
  {
    LowerPrefix("PREFIX");
  }

  lemma SelectWord()
    ensures Keyword("SELECT", "select")
  {
    var lower := ToLower("SELECT");
    assert lower[0] == 's' && lower[1] == 'e' && lower[2] == 'l' && lower[3] == 'e' && lower[4] == 'c' && lower[5] == 't';
  }

  lemma WhereWord()
    ensures ToLower("WHERE") == "where"
  {
    var lower := ToLower("WHERE");
    assert lower[0] == 'w' && lower[1] == 'h' && lower[2] == 'e' && lower[3] == 'r' && lower[4] == 'e';
  }

  lemma LimitWord()
    ensures Keyword("LIMIT", "limit")
  {
    var lower := ToLower("LIMIT");
    assert lower[0] == 'l' && lower[1] == 'i' && lower[2] == 'm' && lower[3] == 'i' && lower[4] == 't';
  }

  lemma ValuesWord()
    ensures SubClauseWord("VALUES") && ToLower("VALUES") == "values"
  {
    var lower := ToLower("VALUES");
    assert lower[0] == 'v' && lower[1] == 'a' && lower[2] == 'l' && lower[3] == 'u' && lower[4] == 'e' && lower[5] == 's';
  }

  lemma OptionalWord()
    ensures SubClauseWord("OPTIONAL") && ToLower("OPTIONAL") == "optional"
  {
    var lower := ToLower("OPTIONAL");
    assert lower[0] == 'o' && lower[1] == 'p' && lower[2] == 't' && lower[3] == 'i';
    assert lower[4] == 'o' && lower[5] == 'n' && lower[6] == 'a' && lower[7] == 'l';
  }

  lemma BoundValues()
    ensures BoundValue("cmn:ADAM1") && BoundValue("cmn:ADAM2") && BoundValue("cmn:ALAI")
  {
  }

  lemma PlainTerms()
    ensures PlainTerm("?s") && PlainTerm("?p") && PlainTerm("?o")
    ensures PlainTerm("foaf:name") && PlainTerm("?otherName")
  {
  }

  /** The indentation before the keywords, skipped outside any mode. */
  lemma LeadBlank()
    ensures Blank("\n  ") && Blank("  ") && Blank("\n")
  {
    var s, t := "\n  ", "  ";
    assert s[0] == '\n' && s[1] == ' ' && s[2] == ' ';
    assert t[0] == ' ' && t[1] == ' ';
  }

  lemma CmnDeclares()
    ensures Declares(CmnDeclaration, Cmn())
  {
    ClassicalMusicNavPlain(CmnNamespace);
    DeclaresCmn(CmnDeclaration, CmnNamespace, "<" + CmnNamespace + ">");
  }

  lemma FoafDeclares()
    ensures Declares(FoafDeclaration, Foaf())
  {
    FoafPlain(FoafNamespace);
    DeclaresFoaf(FoafDeclaration, FoafNamespace, "<" + FoafNamespace + ">");
  }

  // ---------------------------------------------------------------------------------------
  // The lines of the query

  /** The first line, after the template's leading line break: `cmn` is declared. */
  lemma ScanCmnLine()
    ensures Run(Initial, CmnText) == Some(Initial.(modes := ["token", ""], prefixes := [Cmn()]))
  {
    CmnDeclares();
    PrefixWord();
    LeadBlank();
    FirstLine("\n  ", "PREFIX", ' ', '\n', CmnDeclaration, Cmn());
  }

  /** The second declaration line: `foaf` is declared, the double space kept in its text. */
  lemma ScanFoafLine(st: State)
    requires Top(st.modes) == ""
    ensures Run(st, FoafText)
         == Some(st.(modes := st.modes + ["token", ""], prefixes := st.prefixes + [Foaf()], token := ""))
  {
    FoafDeclares();
    PrefixWord();
    LeadBlank();
    ScanDeclarationLine(st, "  ", "PREFIX", ' ', FoafDeclaration, '\n', Foaf());
  }

  /** `SELECT *`: the select mode is entered and the projection skipped. */
  lemma ScanProjection(st: State)
    requires Top(st.modes) == ""
    ensures Run(st, "  " + "SELECT" + " " + "*" + " ") == Some(st.(modes := st.modes + ["token", "select"], token := ""))
  {
    var sel := st.(modes := st.modes + ["token", "select"], token := "");
    LeadBlank();
    SkipBlank(st, "  ");
    SelectWord();
    ScanKeyword(st, "SELECT", ' ');
    ThenPiece(st, "  ", "SELECT", " ", st, sel);
    ScanSelectText(sel, "*");
    assert sel.token + "*" == "*";
    SelectSkip(sel.(token := "*"), ' ');
    ThenPiece(st, "  " + "SELECT" + " ", "*", " ", sel, sel);
  }

  /** `WHERE` in the select mode replaces it by the where mode. */
  lemma ScanWhere(st: State)
    requires Top(st.modes) == "select" && st.token == ""
    ensures Run(st, "WHERE" + " ") == Some(st.(modes := Pop(st.modes) + ["where"]))
  {
    ScanSelectText(st, "WHERE");
    assert st.token + "WHERE" == "WHERE";
    WhereWord();
    SelectWhere(st.(token := "WHERE"), ' ');
    ThenRun(st, "WHERE", " ", st.(token := "WHERE"), st.(modes := Pop(st.modes) + ["where"]));
  }

  /**
   * `SELECT * WHERE {`: the projection is skipped, and `WHERE` replaces the select mode by the
   * where mode; the brace and the line break are skipped.
   */
  lemma ScanSelectLine(st: State)
    requires Top(st.modes) == ""
    ensures Run(st, SelectText) == Some(st.(modes := st.modes + ["token", "where"], token := ""))
  {
    var sel := st.(modes := st.modes + ["token", "select"], token := "");
    var wh := st.(modes := st.modes + ["token", "where"], token := "");
    var a := "  " + "SELECT" + " " + "*" + " ";
    ScanProjection(st);
    ScanWhere(sel);
    PopPushed(st.modes, "token", "select");
    assert st.modes + ["token"] + ["where"] == st.modes + ["token", "where"];
    ThenPiece(st, a, "WHERE", " ", sel, wh);
    SkipTripleBlank(wh, "{\n");
    ThenRun(st, a + "WHERE" + " ", "{\n", wh, wh);
  }

  /** A sub-clause keyword and a space after a scan that left an empty token in a triple mode. */
  lemma ThenSubClause(st: State, a: string, w: string, mid: State)
    requires Run(st, a) == Some(mid) && IsTripleMode(Top(mid.modes)) && mid.token == ""
    requires SubClauseWord(w)
    ensures Run(st, a + w + " ") == Some(mid.(modes := mid.modes + [ToLower(w)]))
  {
    ScanSubClause(mid, w, ' ');
    ThenPiece(st, a, w, " ", mid, mid.(modes := mid.modes + [ToLower(w)]));
  }

  /** `VALUES ?s {`: a column for `?s` is opened and the bound values begin. */
  lemma ScanValuesLine(st: State)
    requires IsTripleMode(Top(st.modes)) && st.token == ""
    ensures Run(st, ValuesText)
         == Some(st.(modes := st.modes + ["values", "valuesvalues"], values := st.values + [["?s"]]))
  {
    var s1 := st.(modes := st.modes + ["values"]);
    var s2 := s1.(values := st.values + [["?s"]]);
    var s3 := s2.(modes := s1.modes + ["valuesvalues"]);
    var a := "    " + "VALUES" + " ";
    assert Run(st, a) == Some(s1) by {
      SkipTripleBlank(st, "    ");
      ValuesWord();
      ThenSubClause(st, "    ", "VALUES", st);
    }
    assert Run(st, a + "?s" + " ") == Some(s2) by {
      ValuesVariable(s1, "?s", ' ');
      ThenPiece(st, a, "?s", " ", s1, s2);
    }
    assert Run(st, a + "?s" + " " + "{") == Some(s3) by {
      OpenValues(s2);
      ThenRun(st, a + "?s" + " ", "{", s2, s3);
    }
    SkipValuesBlank(s3, "\n");
    ThenRun(st, a + "?s" + " " + "{", "\n", s3, s3);
    assert s1.modes + ["valuesvalues"] == st.modes + ["values", "valuesvalues"];
  }

  /** A bound value and whitespace after a scan that left an empty token inside the bindings. */
  lemma ThenValue(st: State, a: string, w: string, c: string, mid: State)
    requires Run(st, a) == Some(mid)
    requires Top(mid.modes) == "valuesvalues" && mid.token == "" && |mid.values| == 1 && mid.valuesIndex == 0
    requires BoundValue(w) && |c| == 1 && IsWhitespace(c[0])
    ensures Run(st, a + w + c) == Some(mid.(values := [mid.values[0] + [w]]))
  {
    ScanValue(mid, w, c[0]);
    assert [c[0]] == c;
    ThenPiece(st, a, w, c, mid, mid.(values := [mid.values[0] + [w]]));
  }

  /** An indentation, three bound values separated by spaces, and a line break. */
  lemma ScanThreeValues(st: State, ind: string, w1: string, w2: string, w3: string)
    requires Top(st.modes) == "valuesvalues" && st.token == "" && |st.values| == 1 && st.valuesIndex == 0
    requires forall k :: 0 <= k < |ind| ==> IsWhitespace(ind[k])
    requires BoundValue(w1) && BoundValue(w2) && BoundValue(w3)
    ensures Run(st, ind + w1 + " " + w2 + " " + w3 + "\n") == Some(st.(values := [st.values[0] + [w1, w2, w3]]))
  {
    var v := st.values[0];
    var s1 := st.(values := [v + [w1]]);
    var s2 := s1.(values := [s1.values[0] + [w2]]);
    SkipValuesBlank(st, ind);
    ThenValue(st, ind, w1, " ", st);
    ThenValue(st, ind + w1 + " ", w2, " ", s1);
    ThenValue(st, ind + w1 + " " + w2 + " ", w3, "\n", s2);
    SnocThree(v, w1, w2, w3);
  }

  lemma SnocThree<T>(v: seq<T>, a: T, b: T, c: T)
    ensures v + [a] + [b] + [c] == v + [a, b, c]
  {
  }

  /** The three bound values, each appended to the single column. */
  lemma ScanBindingsLine(st: State)
    requires Top(st.modes) == "valuesvalues" && st.token == "" && |st.values| == 1 && st.valuesIndex == 0
    ensures Run(st, BindingsText)
         == Some(st.(values := [st.values[0] + ["cmn:ADAM1", "cmn:ADAM2", "cmn:ALAI"]]))
  {
    BoundValues();
    ScanThreeValues(st, "      ", "cmn:ADAM1", "cmn:ADAM2", "cmn:ALAI");
  }

  /** `}` ends the VALUES clause; the line break drops the `}` it leaves as the token. */
  lemma ScanCloseValuesLine(st: State)
    requires Top(st.modes) == "valuesvalues" && st.token == "" && st.triple == []
    requires IsTripleMode(Top(Pop(Pop(st.modes))))
    ensures Run(st, CloseValuesText) == Some(st.(modes := Pop(Pop(st.modes))))
  {
    var s1 := st.(modes := Pop(Pop(st.modes)), token := "}");
    SkipValuesBlank(st, "    ");
    CloseValues(st);
    BraceTokenFlush(s1, '\n');
    ThenRun(st, "}", "\n", s1, s1.(token := ""));
    ThenPiece(st, "    ", "}", "\n", st, s1.(token := ""));
  }

  /** `?s ?p ?o .`: the first triple is emitted. */
  lemma ScanPatternLine(st: State)
    requires IsTripleMode(Top(st.modes)) && st.token == "" && st.triple == []
    ensures Run(st, PatternText) == Some(st.(triples := st.triples + [SubjectTriple()]))
  {
    PlainTerms();
    SkipTripleBlank(st, "    ");
    ThenTerm(st, "    ", "?s", ' ', st);
    var t1 := st.(triple := st.triple + [Word("?s")]);
    ThenTerm(st, "    " + "?s" + " ", "?p", ' ', t1);
    var t2 := t1.(triple := t1.triple + [Word("?p")]);
    ThenTerm(st, "    " + "?s" + " " + "?p" + " ", "?o", ' ', t2);
    var t3 := t2.(triple := t2.triple + [Word("?o")]);
    assert t3.triple == SubjectTriple();
    ThenTerminator(st, "    " + "?s" + " " + "?p" + " " + "?o" + " ", t3, '.', '\n');
  }

  /** `OPTIONAL {`: the optional mode is entered. */
  lemma ScanOptionalLine(st: State)
    requires IsTripleMode(Top(st.modes)) && st.token == ""
    ensures Run(st, OptionalText) == Some(st.(modes := st.modes + ["optional"]))
  {
    var s1 := st.(modes := st.modes + ["optional"]);
    assert Run(st, "    " + "OPTIONAL" + " ") == Some(s1) by {
      SkipTripleBlank(st, "    ");
      OptionalWord();
      ThenSubClause(st, "    ", "OPTIONAL", st);
    }
    SkipTripleBlank(s1, "{\n");
    ThenRun(st, "    " + "OPTIONAL" + " ", "{\n", s1, s1);
  }

  /** `?o foaf:name ?otherName`, with no terminator: the three terms wait in the triple. */
  lemma ScanOptionalPatternLine(st: State)
    requires IsTripleMode(Top(st.modes)) && st.token == "" && st.triple == []
    ensures Run(st, OptionalPatternText) == Some(st.(triple := NameTriple()))
  {
    PlainTerms();
    SkipTripleBlank(st, "        ");
    ThenTerm(st, "        ", "?o", ' ', st);
    var t1 := st.(triple := st.triple + [Word("?o")]);
    ThenTerm(st, "        " + "?o" + " ", "foaf:name", ' ', t1);
    var t2 := t1.(triple := t1.triple + [Word("foaf:name")]);
    ThenTerm(st, "        " + "?o" + " " + "foaf:name" + " ", "?otherName", '\n', t2);
    assert t2.triple + [Word("?otherName")] == NameTriple();
  }

  /** An indentation, `}` and a line break that close a clause nested in another triple mode. */
  lemma CloseNested(st: State, ind: string)
    requires IsTripleMode(Top(st.modes)) && st.token == "" && IsTripleMode(Top(Pop(st.modes)))
    requires forall k :: 0 <= k < |ind| ==> IsWhitespace(ind[k])
    ensures Run(st, ind + "}" + "\n") == Some(Flush(st.(modes := Pop(st.modes), token := ""), '}'))
  {
    var s1 := Flush(st.(modes := Pop(st.modes), token := ""), '}');
    SkipTripleBlank(st, ind);
    CloseTriple(st);
    SkipTripleBlank(s1, "\n");
    ThenRun(st, "}", "\n", s1, s1);
    ThenPiece(st, ind, "}", "\n", st, s1);
  }

  /** `}` ends the optional clause and emits its triple; the line break is skipped. */
  lemma ScanCloseOptionalLine(st: State)
    requires IsTripleMode(Top(st.modes)) && st.token == "" && |st.triple| == 3
    requires IsTripleMode(Top(Pop(st.modes)))
    ensures Run(st, CloseOptionalText)
         == Some(st.(modes := Pop(st.modes), triples := st.triples + [st.triple], triple := []))
  {
    CloseNested(st, "    ");
  }

  /** `}` ends the where clause, and the line break leaves the keyword mode below it. */
  lemma ScanCloseWhereLine(st: State)
    requires IsTripleMode(Top(st.modes)) && st.token == "" && st.triple == []
    requires Top(Pop(st.modes)) == "token"
    ensures Run(st, CloseWhereText) == Some(st.(modes := Pop(st.modes) + [""]))
  {
    var s1 := st.(modes := Pop(st.modes));
    SkipTripleBlank(st, "  ");
    CloseTriple(st);
    assert Flush(st.(modes := Pop(st.modes), token := ""), '}') == s1;
    LeaveKeyword(s1, '\n');
    ThenRun(st, "}", "\n", s1, s1.(modes := s1.modes + [""]));
    ThenPiece(st, "  ", "}", "\n", st, s1.(modes := s1.modes + [""]));
  }

  /** `LIMIT` opens a mode without a handler, which lets everything after it through unread. */
  lemma ScanLimit(st: State, rest: string)
    requires Top(st.modes) == ""
    ensures Run(st, "  " + "LIMIT" + " " + rest) == Some(st.(modes := st.modes + ["token", "limit"], token := ""))
  {
    var s1 := st.(modes := st.modes + ["token", "limit"], token := "");
    LeadBlank();
    SkipBlank(st, "  ");
    LimitWord();
    ScanKeyword(st, "LIMIT", ' ');
    ThenPiece(st, "  ", "LIMIT", " ", st, s1);
    AbsorbRest(s1, rest);
    ThenRun(st, "  " + "LIMIT" + " ", rest, s1, s1);
  }

  // ---------------------------------------------------------------------------------------
  // The whole query

  /** The column the VALUES clause binds. */
  function Column(): seq<string> {
    ["?s", "cmn:ADAM1", "cmn:ADAM2", "cmn:ALAI"]
  }

  lemma PopLast(ms: seq<string>, a: string)
    ensures Pop(ms + [a]) == ms && Top(ms + [a]) == a
  {
    assert (ms + [a])[..|ms|] == ms;
  }

  /** `SELECT * WHERE {` and the VALUES clause: the where mode is entered and the column bound. */
  lemma ThenValuesClause(st0: State, q: string, st: State)
    requires Run(st0, q) == Some(st)
    requires Top(st.modes) == "" && st.token == "" && st.triple == [] && st.values == [] && st.valuesIndex == 0
    ensures Run(st0, q + SelectText + ValuesText + BindingsText + CloseValuesText)
         == Some(st.(modes := st.modes + ["token", "where"], values := [Column()]))
  {
    var w := st.(modes := st.modes + ["token", "where"]);
    ScanSelectLine(st);
    assert st.(modes := st.modes + ["token", "where"], token := "") == w;
    ThenRun(st0, q, SelectText, st, w);
    PopPushed(st.modes, "token", "where");
    ScanValuesLine(w);
    var v := w.(modes := w.modes + ["values", "valuesvalues"], values := w.values + [["?s"]]);
    ThenRun(st0, q + SelectText, ValuesText, w, v);
    PopPushed(w.modes, "values", "valuesvalues");
    assert v.values == [["?s"]];
    ScanBindingsLine(v);
    var b := v.(values := [Column()]);
    assert ["?s"] + ["cmn:ADAM1", "cmn:ADAM2", "cmn:ALAI"] == Column();
    ThenRun(st0, q + SelectText + ValuesText, BindingsText, v, b);
    PopLast(w.modes + ["values"], "valuesvalues");
    PopLast(w.modes, "values");
    assert w.modes + ["values", "valuesvalues"] == w.modes + ["values"] + ["valuesvalues"];
    ScanCloseValuesLine(b);
    ThenRun(st0, q + SelectText + ValuesText + BindingsText, CloseValuesText, b, b.(modes := w.modes));
  }

  /** The two triple patterns and the closing braces: both triples are emitted, in order. */
  lemma ThenPatterns(st0: State, q: string, st: State)
    requires Run(st0, q) == Some(st)
    requires IsTripleMode(Top(st.modes)) && Top(Pop(st.modes)) == "token" && st.token == "" && st.triple == []
    ensures Run(st0, q + PatternText + OptionalText + OptionalPatternText + CloseOptionalText + CloseWhereText)
         == Some(st.(modes := Pop(st.modes) + [""], triples := st.triples + [SubjectTriple(), NameTriple()]))
  {
    var p := st.(triples := st.triples + [SubjectTriple()]);
    ScanPatternLine(st);
    ThenRun(st0, q, PatternText, st, p);
    var o := p.(modes := p.modes + ["optional"]);
    ScanOptionalLine(p);
    ThenRun(st0, q + PatternText, OptionalText, p, o);
    PopLast(st.modes, "optional");
    var n := o.(triple := NameTriple());
    ScanOptionalPatternLine(o);
    ThenRun(st0, q + PatternText + OptionalText, OptionalPatternText, o, n);
    var c := st.(triples := st.triples + [SubjectTriple(), NameTriple()]);
    ScanCloseOptionalLine(n);
    assert n.(modes := Pop(n.modes), triples := n.triples + [n.triple], triple := []) == c;
    ThenRun(st0, q + PatternText + OptionalText + OptionalPatternText, CloseOptionalText, n, c);
    ScanCloseWhereLine(c);
    ThenRun(st0, q + PatternText + OptionalText + OptionalPatternText + CloseOptionalText, CloseWhereText,
            c, c.(modes := Pop(c.modes) + [""]));
  }

  /**
   * The query of the test parses: its two prefixes with their namespaces, the triple
   * `?s ?p ?o` and the optional triple `?o foaf:name ?otherName`, and the VALUES column of `?s`.
   */
  lemma TestQueryParse()
    ensures Parse(TestQuery()) == Some(Output([Cmn(), Foaf()], [SubjectTriple(), NameTriple()], [Column()]))
    ensures Cmn().short == "cmn" && Cmn().long == "http://purl.org/NET/classicalmusicnav#"
    ensures Foaf().short == "foaf" && Foaf().long == "http://xmlns.com/foaf/0.1/"
  {
    var c1 := Initial.(modes := ["token", ""], prefixes := [Cmn()]);
    ScanCmnLine();
    var c2 := c1.(modes := ["token", "", "token", ""], prefixes := [Cmn(), Foaf()]);
    ScanFoafLine(c1);
    assert c1.(modes := c1.modes + ["token", ""], prefixes := c1.prefixes + [Foaf()], token := "") == c2;
    LeadBlank();
    SkipBlank(c2, BlankText);
    ThreeRuns(Initial, CmnText, FoafText, BlankText, c1, c2, c2);
    var q1 := CmnText + FoafText + BlankText;
    ThenValuesClause(Initial, q1, c2);
    var v := c2.(modes := c2.modes + ["token", "where"], values := [Column()]);
    var q2 := q1 + SelectText + ValuesText + BindingsText + CloseValuesText;
    PopPushed(c2.modes, "token", "where");
    ThenPatterns(Initial, q2, v);
    var w := v.(modes := c2.modes + ["token", ""], triples := [SubjectTriple(), NameTriple()]);
    assert c2.modes + ["token"] + [""] == c2.modes + ["token", ""];
    assert v.triples + [SubjectTriple(), NameTriple()] == [SubjectTriple(), NameTriple()];
    assert v.(modes := Pop(v.modes) + [""], triples := v.triples + [SubjectTriple(), NameTriple()]) == w;
    var q3 := q2 + PatternText + OptionalText + OptionalPatternText + CloseOptionalText + CloseWhereText;
    ScanLimit(w, "100\n  ");
    ThenRun(Initial, q3, LimitText, w, w.(modes := w.modes + ["token", "limit"]));
  }
}
