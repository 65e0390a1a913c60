/**
 * What the query scanner guarantees: the shape of its outputs, the rules each mode follows for
 * one character, and the effect of scanning whole keywords, declarations and triple patterns.
 */
module ScannerFacts {
  import opened Wrappers
  import opened Strings
  import opened Prefixes
  import opened Scanner

  /** Every triple has exactly three terms. */
  ghost predicate Complete(triples: seq<seq<Term>>) {
    forall k :: 0 <= k < |triples| ==> |triples[k]| == 3
  }

  /** `b` keeps every VALUES column of `a`, each one only appended to. */
  ghost predicate Grows(a: seq<seq<string>>, b: seq<seq<string>>) {
    |a| <= |b| && forall i :: 0 <= i < |a| ==> a[i] <= b[i]
  }

  lemma GrowsTransitive(a: seq<seq<string>>, b: seq<seq<string>>, c: seq<seq<string>>)
    requires Grows(a, b) && Grows(b, c)
    ensures Grows(a, c)
  {
    forall i | 0 <= i < |a| ensures a[i] <= c[i] {
      assert a[i] <= b[i] <= c[i];
    }
  }

  /** One character throws exactly in the cases `Throws` lists. */
  lemma StepFails(st: State, c: char)
    ensures Step(st, c).None? <==> Throws(st, c)
  {
  }

  /** One character emits at most one triple, and only a complete one. */
  lemma StepOutputs(st: State, c: char, st': State)
    requires Step(st, c) == Some(st')
    ensures st'.triples == st.triples ||
            (st.triples <= st'.triples && |st'.triples| == |st.triples| + 1 && |st'.triples[|st.triples|]| == 3)
    ensures st.prefixes <= st'.prefixes && |st'.prefixes| <= |st.prefixes| + 1
    ensures Grows(st.values, st'.values)
  {
    var mode := Top(st.modes);
    if mode == "" || mode == "__proto__" || !HasHandler(mode) {
      assert st'.triples == st.triples && st'.prefixes == st.prefixes && st'.values == st.values;
    } else if mode == "token" {
      assert st' == TokenStep(st, c).value;
    } else if mode == "prefix" {
      assert st' == PrefixStep(st, c).value;
    } else if mode == "select" {
      assert st' == SelectStep(st, c);
    } else if IsTripleMode(mode) {
      assert st' == TripleStep(st, c);
    } else if mode == "values" {
      assert st' == ValuesStep(st, c);
      assert Grows(st.values, st'.values);
    } else {
      assert st' == ValuesValuesStep(st, c).value;
    }
  }

  /**
   * A scan only appends: to the triples, each of three terms, to the declared prefixes, and to
   * the VALUES columns.
   */
  lemma {:induction false} RunOutputs(st: State, s: string, out: State)
    requires Run(st, s) == Some(out)
    ensures st.triples <= out.triples && Complete(out.triples[|st.triples|..])
    ensures st.prefixes <= out.prefixes
    ensures Grows(st.values, out.values)
    decreases |s|
  {
    if |s| > 0 {
      var mid := Step(st, s[0]).value;
      StepOutputs(st, s[0], mid);
      RunOutputs(mid, s[1..], out);
      GrowsTransitive(st.values, mid.values, out.values);
      assert out.triples[|st.triples|..] == mid.triples[|st.triples|..] + out.triples[|mid.triples|..];
    }
  }

  /** Every triple the scanner returns has exactly three terms. */
  lemma ParseTriplesComplete(query: string)
    requires Parse(query).Some?
    ensures Complete(Parse(query).value.triples)
  {
    RunOutputs(Initial, query, Run(Initial, query).value);
    assert Run(Initial, query).value.triples[0..] == Run(Initial, query).value.triples;
  }

  /** The prefixes declared by a start of the query are the first prefixes of its parse. */
  lemma ParseKeepsPrefixes(a: string, rest: string, mid: State)
    requires Run(Initial, a) == Some(mid)
    ensures Parse(a + rest).Some? ==>
              && |mid.prefixes| <= |Parse(a + rest).value.prefixes|
              && Parse(a + rest).value.prefixes[..|mid.prefixes|] == mid.prefixes
  {
    RunAppend(Initial, a, rest);
    if Parse(a + rest).Some? {
      RunOutputs(mid, rest, Run(mid, rest).value);
    }
  }

  /** Scanning `a + b` is scanning `a` and then `b` from where `a` left off. */
  lemma {:induction false} RunAppend(st: State, a: string, b: string)
    ensures Run(st, a + b) == match Run(st, a) case None => None case Some(mid) => Run(mid, b)
    decreases |a|
  {
    if |a| == 0 {
      assert a + b == b;
    } else {
      assert (a + b)[0] == a[0] && (a + b)[1..] == a[1..] + b;
      if Step(st, a[0]).Some? {
        RunAppend(Step(st, a[0]).value, a[1..], b);
      }
    }
  }

  /**
   * A scan fails exactly at a character that throws: some start of the text scans to a state
   * that throws on the character after it.
   */
  lemma {:induction false} RunFails(st: State, s: string)
    ensures Run(st, s).None? <==>
              exists k :: 0 <= k < |s| && Run(st, s[..k]).Some? && Throws(Run(st, s[..k]).value, s[k])
    decreases |s|
  {
    if |s| > 0 {
      StepFails(st, s[0]);
      assert s[..0] == [];
      assert Run(st, s[..0]) == Some(st);
      match Step(st, s[0])
      case None =>
      case Some(st1) =>
        var rest := s[1..];
        RunFails(st1, rest);
        forall k | 1 <= k <= |s|
          ensures Run(st, s[..k]) == Run(st1, rest[..k - 1])
        {
          assert s[..k][0] == s[0] && s[..k][1..] == rest[..k - 1];
        }
        if Run(st, s).None? {
          var k :| 0 <= k < |rest| && Run(st1, rest[..k]).Some? && Throws(Run(st1, rest[..k]).value, rest[k]);
          assert Run(st, s[..k + 1]) == Run(st1, rest[..k]) && s[k + 1] == rest[k];
        }
        if exists k :: 0 <= k < |s| && Run(st, s[..k]).Some? && Throws(Run(st, s[..k]).value, s[k]) {
          var k :| 0 <= k < |s| && Run(st, s[..k]).Some? && Throws(Run(st, s[..k]).value, s[k]);
          assert k > 0;
          assert Run(st, s[..k]) == Run(st1, rest[..k - 1]) && s[k] == rest[k - 1];
        }
    }
  }

  /** Two scans in a row are the scan of the concatenation. */
  lemma ThenRun(st: State, a: string, b: string, mid: State, out: State)
    requires Run(st, a) == Some(mid) && Run(mid, b) == Some(out)
    ensures Run(st, a + b) == Some(out)
  {
    RunAppend(st, a, b);
  }

  // ---------------------------------------------------------------------------------------
  // Outside any mode

  /** With no mode, characters that are neither word characters nor `#` are skipped. */
  lemma {:induction false} SkipBlank(st: State, s: string)
    requires Top(st.modes) == ""
    requires forall k :: 0 <= k < |s| ==> !IsWord(s[k]) && s[k] != '#'
    ensures Run(st, s) == Some(st)
    decreases |s|
  {
    if |s| > 0 {
      SkipBlank(st, s[1..]);
    }
  }

  /** A `#` outside any mode opens a comment, and the next character makes the scan fail. */
  lemma HashFails(st: State, s: string)
    requires Top(st.modes) == "" && |s| > 1 && s[0] == '#'
    ensures Run(st, s) == None
  {
    var mid := st.(modes := st.modes + ["comment"]);
    assert Step(st, s[0]) == Some(mid);
    assert Top(mid.modes) == "comment";
    assert s[1..][0] == s[1];
  }

  // ---------------------------------------------------------------------------------------
  // Keywords

  /** In keyword mode word characters extend the keyword, whitespace ends it, anything else fails. */
  lemma KeywordRule(st: State, c: char)
    requires Top(st.modes) == "token"
    ensures Step(st, c).None? <==> !IsWord(c) && !IsWhitespace(c)
    ensures IsWord(c) ==> Step(st, c) == Some(st.(token := st.token + [c]))
    ensures IsWhitespace(c) ==>
              Step(st, c) == Some(st.(modes := st.modes + [ToLower(st.token)], token := ""))
  {
    assert IsWord(c) ==> !IsWhitespace(c);
  }

  /** Word characters in keyword mode accumulate. */
  lemma {:induction false} ScanWord(st: State, w: string)
    requires Top(st.modes) == "token"
    requires forall k :: 0 <= k < |w| ==> IsWord(w[k])
    ensures Run(st, w) == Some(st.(token := st.token + w))
    decreases |w|
  {
    if |w| > 0 {
      var mid := st.(token := st.token + [w[0]]);
      KeywordRule(st, w[0]);
      assert Run(st, w) == Run(mid, w[1..]);
      ScanWord(mid, w[1..]);
      assert w == [w[0]] + w[1..];
      assert mid.token + w[1..] == st.token + w;
      assert mid.(token := mid.token + w[1..]) == st.(token := st.token + w);
    } else {
      assert st.token + w == st.token;
    }
  }

  /**
   * A keyword followed by whitespace, outside any mode, leaves the keyword mode on the stack
   * with the lower-cased keyword as the new mode above it.
   */
  lemma ScanKeyword(st: State, kw: string, c: char)
    requires Top(st.modes) == ""
    requires |kw| > 0 && forall k :: 0 <= k < |kw| ==> IsWord(kw[k])
    requires IsWhitespace(c)
    ensures Run(st, kw + [c]) == Some(st.(modes := st.modes + ["token", ToLower(kw)], token := ""))
  {
    var first := st.(token := [kw[0]], modes := st.modes + ["token"]);
    assert Step(st, kw[0]) == Some(first);
    assert Top(first.modes) == "token";
    ScanWord(first, kw[1..]);
    assert [kw[0]] + kw[1..] == kw;
    var word := first.(token := kw);
    KeywordRule(word, c);
    assert Run(word, [c]) == Some(word.(modes := word.modes + [ToLower(kw)], token := ""));
    RunAppend(first, kw[1..], [c]);
    assert (kw + [c])[1..] == kw[1..] + [c];
    assert first.modes + [ToLower(kw)] == st.modes + ["token", ToLower(kw)];
  }

  /** A mode without a handler, such as `limit`, ignores the rest of the query. */
  lemma {:induction false} AbsorbRest(st: State, s: string)
    requires Top(st.modes) != "" && !HasHandler(Top(st.modes)) && Top(st.modes) != "__proto__"
    ensures Run(st, s) == Some(st)
    decreases |s|
  {
    if |s| > 0 {
      AbsorbRest(st, s[1..]);
    }
  }

  /** Comment mode fails on its first character. */
  lemma CommentFails(st: State, s: string)
    requires Top(st.modes) == "comment" && |s| > 0
    ensures Run(st, s) == None
  {
  }

  // ---------------------------------------------------------------------------------------
  // Prefix declarations

  /** In prefix mode every character up to a `>` is kept. */
  lemma {:induction false} ScanPrefixText(st: State, s: string)
    requires Top(st.modes) == "prefix"
    requires forall k :: 0 <= k < |s| ==> s[k] != '>'
    ensures Run(st, s) == Some(st.(token := st.token + s))
    decreases |s|
  {
    if |s| > 0 {
      var mid := st.(token := st.token + [s[0]]);
      assert s[0] != '>';
      assert Step(st, s[0]) == Some(mid);
      assert Run(st, s) == Run(mid, s[1..]);
      ScanPrefixText(mid, s[1..]);
      assert s == [s[0]] + s[1..];
      assert mid.token + s[1..] == st.token + s;
      assert mid.(token := mid.token + s[1..]) == st.(token := st.token + s);
    } else {
      assert st.token + s == st.token;
    }
  }

  /**
   * A declaration body up to its first `>` becomes one Prefix, parsed from everything prefix
   * mode collected; the prefix mode is left and the scan fails when the text does not parse.
   */
  lemma ScanPrefixBody(st: State, body: string)
    requires Top(st.modes) == "prefix"
    requires |body| > 0 && body[|body| - 1] == '>'
    requires forall k :: 0 <= k < |body| - 1 ==> body[k] != '>'
    ensures ParsePrefix(st.token + body).None? ==> Run(st, body) == None
    ensures ParsePrefix(st.token + body).Some? ==>
              Run(st, body) == Some(st.(modes := Pop(st.modes),
                                        prefixes := st.prefixes + [ParsePrefix(st.token + body).value],
                                        token := ""))
  {
    var text := body[..|body| - 1];
    ScanPrefixText(st, text);
    var mid := st.(token := st.token + text);
    assert text + ['>'] == body;
    SnocAssoc(st.token, text, '>');
    RunOne(mid, '>');
    RunAppend(st, text, ['>']);
  }

  /** The same, for a declaration known to parse. */
  lemma ScanParsedBody(st: State, body: string, p: Prefix)
    requires Top(st.modes) == "prefix"
    requires |body| > 0 && body[|body| - 1] == '>'
    requires forall k :: 0 <= k < |body| - 1 ==> body[k] != '>'
    requires ParsePrefix(st.token + body) == Some(p)
    ensures Run(st, body) == Some(st.(modes := Pop(st.modes), prefixes := st.prefixes + [p], token := ""))
  {
    ScanPrefixBody(st, body);
  }

  /**
   * `PREFIX` (any case), one whitespace character and a declaration up to `>` append the parsed
   * Prefix to the declared prefixes. The keyword mode stays on the stack, with an empty token.
   */
  lemma ScanDeclaration(st: State, kw: string, c: char, body: string, p: Prefix)
    requires Top(st.modes) == ""
    requires |kw| > 0 && (forall k :: 0 <= k < |kw| ==> IsWord(kw[k])) && ToLower(kw) == "prefix"
    requires IsWhitespace(c)
    requires |body| > 0 && body[|body| - 1] == '>'
    requires forall k :: 0 <= k < |body| - 1 ==> body[k] != '>'
    requires ParsePrefix(body) == Some(p)
    ensures Run(st, kw + [c] + body)
         == Some(st.(modes := st.modes + ["token"], prefixes := st.prefixes + [p], token := ""))
  {
    var mid := st.(modes := st.modes + ["token", "prefix"], token := "");
    var out := st.(modes := st.modes + ["token"], prefixes := st.prefixes + [p], token := "");
    ScanKeyword(st, kw, c);
    PopPushed(st.modes, "token", "prefix");
    assert mid.token + body == body;
    ScanParsedBody(mid, body, p);
    assert mid.(modes := Pop(mid.modes), prefixes := mid.prefixes + [p], token := "") == out;
    ThenRun(st, kw + [c], body, mid, out);
  }

  lemma PopPushed(ms: seq<string>, a: string, b: string)
    ensures Pop(ms + [a, b]) == ms + [a] && Top(ms + [a, b]) == b
  {
    assert (ms + [a, b])[..|ms| + 1] == ms + [a];
  }

  /**
   * A declaration line: skipped blanks, `PREFIX`, a declaration and a line break. Afterwards
   * the scanner is back outside any mode with one more declared prefix.
   */
  lemma ScanDeclarationLine(st: State, lead: string, kw: string, c: char, body: string, nl: char, p: Prefix)
    requires Top(st.modes) == ""
    requires forall k :: 0 <= k < |lead| ==> !IsWord(lead[k]) && lead[k] != '#'
    requires |kw| > 0 && (forall k :: 0 <= k < |kw| ==> IsWord(kw[k])) && ToLower(kw) == "prefix"
    requires IsWhitespace(c) && IsWhitespace(nl)
    requires |body| > 0 && body[|body| - 1] == '>'
    requires forall k :: 0 <= k < |body| - 1 ==> body[k] != '>'
    requires ParsePrefix(body) == Some(p)
    ensures Run(st, lead + kw + [c] + body + [nl])
         == Some(st.(modes := st.modes + ["token", ""], prefixes := st.prefixes + [p], token := ""))
    ensures Top(st.modes + ["token", ""]) == ""
  {
    var decl := st.(modes := st.modes + ["token"], prefixes := st.prefixes + [p], token := "");
    var out := st.(modes := st.modes + ["token", ""], prefixes := st.prefixes + [p], token := "");
    SkipBlank(st, lead);
    ScanDeclaration(st, kw, c, body, p);
    LeaveKeyword(decl, nl);
    assert decl.(modes := decl.modes + [""]) == out;
    ThreeRuns(st, lead, kw + [c] + body, [nl], st, decl, out);
    Assoc4(lead, kw, [c], body);
  }

  /** Three scans in a row are the scan of the concatenation. */
  lemma ThreeRuns(st: State, a: string, b: string, c: string, s1: State, s2: State, s3: State)
    requires Run(st, a) == Some(s1) && Run(s1, b) == Some(s2) && Run(s2, c) == Some(s3)
    ensures Run(st, a + b + c) == Some(s3)
  {
    ThenRun(st, a, b, s1, s2);
    ThenRun(st, a + b, c, s2, s3);
  }

  lemma Assoc4(a: string, b: string, c: string, d: string)
    ensures a + (b + c + d) == a + b + c + d
  {
  }

  /** After a declaration, whitespace leaves the keyword mode for no mode at all. */
  lemma LeaveKeyword(st: State, c: char)
    requires Top(st.modes) == "token" && st.token == "" && IsWhitespace(c)
    ensures Run(st, [c]) == Some(st.(modes := st.modes + [""]))
    ensures Top(st.modes + [""]) == ""
  {
    KeywordRule(st, c);
  }

  // ---------------------------------------------------------------------------------------
  // Triple patterns

  /** `}` in a triple mode leaves exactly that mode and flushes the triple, starting an empty one. */
  lemma CloseBraceRule(st: State, st': State)
    requires IsTripleMode(Top(st.modes)) && Step(st, '}') == Some(st')
    ensures st'.modes + [Top(st.modes)] == st.modes
    ensures st'.triple == [] && st'.token == ""
    ensures st'.triples == if |st.triple| == 3 then st.triples + [st.triple] else st.triples
  {
  }

  /** `{` in a triple mode is never added to the token. */
  lemma OpenBraceRule(st: State, st': State)
    requires IsTripleMode(Top(st.modes)) && Step(st, '{') == Some(st')
    ensures st'.token == st.token || st'.token == ""
    ensures '{' !in st.token ==> '{' !in st'.token
  {
  }

  /** A character other than whitespace or a brace after a lone terminator flushes and is dropped. */
  lemma LoneTerminatorRule(st: State, c: char, st': State)
    requires IsTripleMode(Top(st.modes)) && Step(st, c) == Some(st')
    requires c != '}' && !IsWhitespace(c) && IsTripleEndToken(st.token)
    ensures st'.token == ""
    ensures st'.triples == if |st.triple| == 3 then st.triples + [st.triple] else st.triples
    ensures st.token == ";" ==> st'.triple == [if |st.triple| > 0 then st.triple[0] else Missing]
    ensures st.token != ";" ==> st'.triple == []
  {
  }

  /**
   * Whitespace after a token ending in a terminator: the terminator is dropped, the rest (if
   * any) becomes the last term, and the triple is flushed. After `;` the next triple starts with
   * the subject; after `.` or `}` it starts empty.
   */
  lemma TerminatedTokenRule(st: State, c: char, st': State)
    requires IsTripleMode(Top(st.modes)) && IsWhitespace(c) && Step(st, c) == Some(st')
    requires |st.token| > 0 && IsTripleEnd(st.token[|st.token| - 1])
    ensures var rest := st.token[..|st.token| - 1];
            var full := if |rest| > 0 then st.triple + [Word(rest)] else st.triple;
            && (st'.triples == if |full| == 3 then st.triples + [full] else st.triples)
            && (|full| == 3 ==> st'.triples[|st'.triples| - 1][2] == Word(rest) || |rest| == 0)
    ensures st'.token == "" && st'.modes == st.modes
    ensures st.token[|st.token| - 1] == ';' && |st.triple| > 0 ==> st'.triple == [st.triple[0]]
    ensures st.token[|st.token| - 1] != ';' ==> st'.triple == []
  {
    assert c != '}';
    var rest := st.token[..|st.token| - 1];
    var full := if |rest| > 0 then st.triple + [Word(rest)] else st.triple;
    assert st' == Flush(st.(triple := full, token := ""), st.token[|st.token| - 1]);
  }

  /** Whitespace after any other token adds it as a term; the sub-clause keywords open a mode instead. */
  lemma PlainTokenRule(st: State, c: char, st': State)
    requires IsTripleMode(Top(st.modes)) && IsWhitespace(c) && Step(st, c) == Some(st')
    requires |st.token| > 0 && !IsTripleEnd(st.token[|st.token| - 1])
    ensures IsSubClause(ToLower(st.token)) ==>
              st'.modes == st.modes + [ToLower(st.token)] && st'.triple == st.triple
    ensures !IsSubClause(ToLower(st.token)) ==>
              st'.modes == st.modes && st'.triple == st.triple + [Word(st.token)]
    ensures st'.triples == st.triples && st'.token == ""
  {
    assert c != '}';
  }

  /** The sub-clause keywords end in a letter, so they never end in a terminator. */
  lemma SubClauseNotTerminated(t: string)
    requires IsSubClause(ToLower(t))
    ensures |t| > 0 && !IsTripleEnd(t[|t| - 1])
  {
    var lower := ToLower(t);
    assert lower[|t| - 1] == LowerChar(t[|t| - 1]);
  }

  /**
   * `union`, `optional` and `values`, in any case and followed by whitespace, open their mode and
   * never become a term.
   */
  lemma SubClauseKeyword(st: State, c: char, st': State)
    requires IsTripleMode(Top(st.modes)) && IsWhitespace(c) && Step(st, c) == Some(st')
    requires IsSubClause(ToLower(st.token))
    ensures st'.modes == st.modes + [ToLower(st.token)]
    ensures st'.triple == st.triple && st'.triples == st.triples && st'.token == ""
  {
    SubClauseNotTerminated(st.token);
    PlainTokenRule(st, c, st');
  }

  /** The characters a term is made of: no whitespace and no brace. */
  predicate TermChar(c: char) {
    !IsWhitespace(c) && c != '{' && c != '}'
  }

  /** In a triple mode, a run of term characters not starting with a terminator becomes the token. */
  lemma {:induction false} ScanTerm(st: State, w: string)
    requires IsTripleMode(Top(st.modes)) && st.token == ""
    requires |w| > 0 && !IsTripleEnd(w[0]) && forall k :: 0 <= k < |w| ==> TermChar(w[k])
    ensures Run(st, w) == Some(st.(token := w))
  {
    var first := st.(token := [w[0]]);
    assert TermChar(w[0]);
    assert TripleStep(st, w[0]) == first;
    assert Step(st, w[0]) == Some(first);
    assert Run(st, w) == Run(first, w[1..]);
    ScanTermRest(first, w[1..]);
    assert [w[0]] + w[1..] == w;
  }

  lemma {:induction false} ScanTermRest(st: State, w: string)
    requires IsTripleMode(Top(st.modes)) && |st.token| > 0 && !IsTripleEnd(st.token[0])
    requires forall k :: 0 <= k < |w| ==> TermChar(w[k])
    ensures Run(st, w) == Some(st.(token := st.token + w))
    decreases |w|
  {
    if |w| > 0 {
      var mid := st.(token := st.token + [w[0]]);
      assert TermChar(w[0]);
      assert !IsTripleEndToken(st.token);
      assert TripleStep(st, w[0]) == mid;
      assert Step(st, w[0]) == Some(mid);
      assert Run(st, w) == Run(mid, w[1..]);
      ScanTermRest(mid, w[1..]);
      assert mid.token[0] == st.token[0];
      assert w == [w[0]] + w[1..];
      assert mid.token + w[1..] == st.token + w;
      assert mid.(token := mid.token + w[1..]) == st.(token := st.token + w);
    } else {
      assert st.token + w == st.token;
    }
  }

  /** A term that is neither a sub-clause keyword nor terminated. */
  predicate PlainTerm(w: string) {
    && |w| > 0 && !IsTripleEnd(w[0]) && !IsTripleEnd(w[|w| - 1])
    && (forall k :: 0 <= k < |w| ==> TermChar(w[k]))
    && !IsSubClause(ToLower(w))
  }

  /** A plain term followed by whitespace is added to the triple. */
  lemma ScanPlainTerm(st: State, w: string, c: char)
    requires IsTripleMode(Top(st.modes)) && st.token == ""
    requires PlainTerm(w) && IsWhitespace(c)
    ensures Run(st, w + [c]) == Some(st.(triple := st.triple + [Word(w)]))
  {
    ScanTerm(st, w);
    var mid := st.(token := w);
    assert Run(mid, [c]) == Some(TripleStep(mid, c));
    RunAppend(st, w, [c]);
  }

  /** Terms each followed by the separator `c`. */
  function Spaced(ws: seq<string>, c: char): string {
    if |ws| == 0 then "" else Spaced(ws[..|ws| - 1], c) + ws[|ws| - 1] + [c]
  }

  /** The terms a list of tokens becomes. */
  function Words(ws: seq<string>): (ts: seq<Term>)
    ensures |ts| == |ws| && forall i :: 0 <= i < |ws| ==> ts[i] == Word(ws[i])
  {
    seq(|ws|, i requires 0 <= i < |ws| => Word(ws[i]))
  }

  /** Plain terms separated by whitespace join the current triple, in order. */
  lemma {:induction false} ScanTermList(st: State, ws: seq<string>, c: char)
    requires IsTripleMode(Top(st.modes)) && st.token == ""
    requires forall i :: 0 <= i < |ws| ==> PlainTerm(ws[i])
    requires IsWhitespace(c)
    ensures Run(st, Spaced(ws, c)) == Some(st.(triple := st.triple + Words(ws)))
  {
    if |ws| == 0 {
      assert st.triple + Words(ws) == st.triple;
    } else {
      var init := ws[..|ws| - 1];
      ScanTermList(st, init, c);
      TermListStep(st, ws, c);
    }
  }

  lemma TermListStep(st: State, ws: seq<string>, c: char)
    requires IsTripleMode(Top(st.modes)) && st.token == "" && |ws| > 0 && PlainTerm(ws[|ws| - 1])
    requires IsWhitespace(c)
    requires Run(st, Spaced(ws[..|ws| - 1], c)) == Some(st.(triple := st.triple + Words(ws[..|ws| - 1])))
    ensures Run(st, Spaced(ws, c)) == Some(st.(triple := st.triple + Words(ws)))
  {
    var init, w := ws[..|ws| - 1], ws[|ws| - 1];
    var mid := st.(triple := st.triple + Words(init));
    ThenTerm(st, Spaced(init, c), w, c, mid);
    WordsSnoc(ws);
    SnocAssoc(st.triple, Words(init), Word(w));
    var out := mid.(triple := mid.triple + [Word(w)]);
    assert Spaced(ws, c) == Spaced(init, c) + w + [c];
    assert out == st.(triple := st.triple + Words(ws));
  }

  lemma SnocAssoc<T>(a: seq<T>, b: seq<T>, x: T)
    ensures (a + b) + [x] == a + (b + [x])
  {
  }

  lemma WordsSnoc(ws: seq<string>)
    requires |ws| > 0
    ensures Words(ws) == Words(ws[..|ws| - 1]) + [Word(ws[|ws| - 1])]
  {
  }

  /** A plain term and whitespace after a scan that left an empty token in a triple mode. */
  lemma ThenTerm(st: State, before: string, w: string, c: char, mid: State)
    requires Run(st, before) == Some(mid)
    requires IsTripleMode(Top(mid.modes)) && mid.token == ""
    requires PlainTerm(w) && IsWhitespace(c)
    ensures Run(st, before + w + [c]) == Some(mid.(triple := mid.triple + [Word(w)]))
  {
    ScanPlainTerm(mid, w, c);
    ThenRun(st, before, w + [c], mid, mid.(triple := mid.triple + [Word(w)]));
    assert before + (w + [c]) == before + w + [c];
  }

  /** A lone `.` or `;` followed by whitespace flushes the triple. */
  lemma Terminator(st: State, e: char, c: char)
    requires IsTripleMode(Top(st.modes)) && st.token == "" && IsWhitespace(c)
    requires e == '.' || e == ';'
    ensures Run(st, [e, c]) == Some(Flush(st, e))
  {
    var mid := st.(token := [e]);
    TerminatorOpen(st, e);
    TerminatorClose(st, e, c);
    RunOne(st, e);
    RunOne(mid, c);
    ThenRun(st, [e], [c], mid, Flush(st, e));
    assert [e] + [c] == [e, c];
  }

  lemma RunOne(st: State, c: char)
    ensures Run(st, [c]) == Step(st, c)
  {
    assert [c][1..] == [];
  }

  lemma TerminatorOpen(st: State, e: char)
    requires IsTripleMode(Top(st.modes)) && st.token == "" && (e == '.' || e == ';')
    ensures Step(st, e) == Some(st.(token := [e]))
  {
    assert st.token + [e] == [e];
  }

  lemma TerminatorClose(st: State, e: char, c: char)
    requires IsTripleMode(Top(st.modes)) && st.token == "" && IsWhitespace(c) && (e == '.' || e == ';')
    ensures Step(st.(token := [e]), c) == Some(Flush(st, e))
  {
    var mid := st.(token := [e]);
    assert mid.token[..0] == [];
    assert mid.(triple := mid.triple, token := "") == st;
  }

  /**
   * A triple pattern: whitespace-separated plain terms and a `.` or `;`. The pattern is emitted
   * when it has exactly three terms and dropped otherwise; after `;` the next triple starts
   * with its first term.
   */
  lemma ScanPattern(st: State, ws: seq<string>, e: char, c: char)
    requires IsTripleMode(Top(st.modes)) && st.token == "" && st.triple == []
    requires forall i :: 0 <= i < |ws| ==> PlainTerm(ws[i])
    requires IsWhitespace(c) && (e == '.' || e == ';')
    ensures Run(st, Spaced(ws, c) + [e, c]) == Some(Flush(st.(triple := Words(ws)), e))
    ensures |ws| == 3 ==> Run(st, Spaced(ws, c) + [e, c]).value.triples == st.triples + [Words(ws)]
    ensures |ws| != 3 ==> Run(st, Spaced(ws, c) + [e, c]).value.triples == st.triples
  {
    var mid := st.(triple := Words(ws));
    ScanTermList(st, ws, c);
    EmptyPlus(st.triple, Words(ws));
    ThenTerminator(st, Spaced(ws, c), mid, e, c);
    var out := Flush(mid, e);
    assert |mid.triple| == |ws|;
  }

  lemma EmptyPlus(a: seq<Term>, b: seq<Term>)
    requires a == []
    ensures a + b == b
  {
  }

  /** A scan that ends in a triple mode with an empty token, then a terminator and whitespace. */
  lemma ThenTerminator(st: State, a: string, mid: State, e: char, c: char)
    requires Run(st, a) == Some(mid)
    requires IsTripleMode(Top(mid.modes)) && mid.token == "" && IsWhitespace(c) && (e == '.' || e == ';')
    ensures Run(st, a + [e, c]) == Some(Flush(mid, e))
  {
    Terminator(mid, e, c);
    ThenRun(st, a, [e, c], mid, Flush(mid, e));
  }

  // ---------------------------------------------------------------------------------------
  // VALUES

  /** A value reading `undef` in any case is not recorded when whitespace or `)` ends it. */
  lemma UndefSkipped(st: State, c: char, st': State)
    requires Top(st.modes) == "valuesvalues" && ToLower(st.token) == "undef"
    requires IsWhitespace(c) || c == ')'
    requires Step(st, c) == Some(st')
    ensures st'.values == st.values
  {
  }

  /** Any other value is appended to the current column, and a missing column makes the scan fail. */
  lemma ValueRecorded(st: State, c: char)
    requires Top(st.modes) == "valuesvalues" && |st.token| > 0 && ToLower(st.token) != "undef"
    requires IsWhitespace(c) || c == ')'
    ensures Step(st, c).Some? <==> st.valuesIndex < |st.values|
    ensures Step(st, c).Some? ==>
              && |Step(st, c).value.values| == |st.values|
              && Step(st, c).value.values[st.valuesIndex] == st.values[st.valuesIndex] + [st.token]
  {
    assert c != '}';
  }

  /** `(` and `)` reset the column index. */
  lemma ParenResetsIndex(st: State, c: char, st': State)
    requires Top(st.modes) == "valuesvalues" && (c == '(' || c == ')')
    requires Step(st, c) == Some(st')
    ensures st'.valuesIndex == 0
  {
  }

  /**
   * `}` leaves both the valuesvalues and the values mode; only the first column can receive a
   * value, and the `}` itself is left as the token.
   */
  lemma CloseValuesRule(st: State, st': State)
    requires Top(st.modes) == "valuesvalues" && Step(st, '}') == Some(st')
    ensures |st.modes| >= 2 ==> st'.modes == st.modes[..|st.modes| - 2]
    ensures st'.token == "}"
    ensures |st'.values| == |st.values|
    ensures forall i :: 0 < i < |st.values| ==> st'.values[i] == st.values[i]
  {
  }

  /**
   * `}` records a pending value longer than one character in the first column, without the
   * `undef` check that whitespace and `)` make; the scan fails only when there is no column.
   */
  lemma CloseValuesRecords(st: State)
    requires Top(st.modes) == "valuesvalues"
    ensures Step(st, '}').Some? <==> |st.token| <= 1 || |st.values| > 0
    ensures |st.token| <= 1 ==> Step(st, '}').value.values == st.values
    ensures |st.token| > 1 && |st.values| > 0 ==> Step(st, '}').value.values[0] == st.values[0] + [st.token]
  {
  }

  /** So `undef` right before `}` is recorded, unlike `undef` before whitespace or `)`. */
  lemma UndefAtClose()
    ensures var st := Initial.(modes := ["where", "values", "valuesvalues"], token := "undef", values := [["?s"]]);
            Step(st, '}') == Some(st.(modes := ["where"], token := "}", values := [["?s", "undef"]]))
  {
    var st := Initial.(modes := ["where", "values", "valuesvalues"], token := "undef", values := [["?s"]]);
    assert Top(st.modes) == "valuesvalues";
    assert st.modes[..2] == ["where", "values"];
    assert Pop(st.modes) == ["where", "values"];
    assert Pop(["where", "values"]) == ["where"];
    assert ["?s"] + ["undef"] == ["?s", "undef"];
    var vs := st.values[0 := st.values[0] + ["undef"]];
    assert |vs| == 1 && vs[0] == ["?s", "undef"];
    assert vs == [["?s", "undef"]];
    assert PushValue(st.values, 0, "undef") == Some([["?s", "undef"]]);
    assert !IsTripleMode("valuesvalues");
    assert Step(st, '}') == ValuesValuesStep(st, '}');
  }

  /** The characters of a VALUES variable or value: no whitespace, no brace and no parenthesis. */
  predicate ValueChar(c: char) {
    !IsWhitespace(c) && c != '{' && c != '}' && c != '(' && c != ')'
  }

  /** In values mode the characters of a variable build the token. */
  lemma {:induction false} ScanValuesText(st: State, w: string)
    requires Top(st.modes) == "values"
    requires forall k :: 0 <= k < |w| ==> ValueChar(w[k])
    ensures Run(st, w) == Some(st.(token := st.token + w))
    decreases |w|
  {
    if |w| > 0 {
      var mid := st.(token := st.token + [w[0]]);
      assert ValueChar(w[0]);
      assert Step(st, w[0]) == Some(mid);
      assert Run(st, w) == Run(mid, w[1..]);
      ScanValuesText(mid, w[1..]);
      assert w == [w[0]] + w[1..];
      assert mid.token + w[1..] == st.token + w;
      assert mid.(token := mid.token + w[1..]) == st.(token := st.token + w);
    } else {
      assert st.token + w == st.token;
    }
  }

  /** A VALUES variable and whitespace open a new column holding the variable. */
  lemma ValuesVariable(st: State, w: string, c: char)
    requires Top(st.modes) == "values" && st.token == ""
    requires (forall k :: 0 <= k < |w| ==> ValueChar(w[k])) && IsWhitespace(c)
    ensures Run(st, w + [c]) == Some(st.(values := st.values + [[w]]))
  {
    ScanValuesText(st, w);
    var mid := st.(token := w);
    assert st.token + w == w;
    RunOne(mid, c);
    ThenRun(st, w, [c], mid, st.(values := st.values + [[w]]));
  }

  /** `{` after the variables, with no pending variable, enters the bound values. */
  lemma OpenValues(st: State)
    requires Top(st.modes) == "values" && |st.token| <= 1
    ensures Run(st, "{") == Some(st.(modes := st.modes + ["valuesvalues"]))
  {
    RunOne(st, '{');
  }

  /** Among the bound values, whitespace with no pending value is skipped. */
  lemma {:induction false} SkipValuesBlank(st: State, s: string)
    requires Top(st.modes) == "valuesvalues" && st.token == ""
    requires forall k :: 0 <= k < |s| ==> IsWhitespace(s[k])
    ensures Run(st, s) == Some(st)
    decreases |s|
  {
    if |s| > 0 {
      assert Step(st, s[0]) == Some(st);
      SkipValuesBlank(st, s[1..]);
    }
  }

  /** Among the bound values, the characters of a value build the token. */
  lemma {:induction false} ScanValueText(st: State, w: string)
    requires Top(st.modes) == "valuesvalues"
    requires forall k :: 0 <= k < |w| ==> ValueChar(w[k])
    ensures Run(st, w) == Some(st.(token := st.token + w))
    decreases |w|
  {
    if |w| > 0 {
      var mid := st.(token := st.token + [w[0]]);
      assert ValueChar(w[0]);
      assert Step(st, w[0]) == Some(mid);
      assert Run(st, w) == Run(mid, w[1..]);
      ScanValueText(mid, w[1..]);
      assert w == [w[0]] + w[1..];
      assert mid.token + w[1..] == st.token + w;
      assert mid.(token := mid.token + w[1..]) == st.(token := st.token + w);
    } else {
      assert st.token + w == st.token;
    }
  }

  /** With a single column, a value other than `undef` and whitespace append the value to it. */
  lemma ScanValue(st: State, w: string, c: char)
    requires Top(st.modes) == "valuesvalues" && st.token == "" && |st.values| == 1 && st.valuesIndex == 0
    requires |w| > 0 && (forall k :: 0 <= k < |w| ==> ValueChar(w[k])) && ToLower(w) != "undef"
    requires IsWhitespace(c)
    ensures Run(st, w + [c]) == Some(st.(values := [st.values[0] + [w]]))
  {
    ScanValueText(st, w);
    var mid := st.(token := w);
    assert st.token + w == w;
    var vs := st.values[0 := st.values[0] + [w]];
    assert |vs| == 1 && vs[0] == st.values[0] + [w];
    assert vs == [st.values[0] + [w]];
    assert Record(mid) == Some(mid.(values := vs));
    RunOne(mid, c);
    ThenRun(st, w, [c], mid, st.(values := vs));
  }

  /** `}` with no pending value leaves the VALUES clause, and the `}` stays as the token. */
  lemma CloseValues(st: State)
    requires Top(st.modes) == "valuesvalues" && st.token == ""
    ensures Run(st, "}") == Some(st.(modes := Pop(Pop(st.modes)), token := "}"))
  {
    RunOne(st, '}');
  }

  // ---------------------------------------------------------------------------------------
  // Whole clauses

  /** In a triple mode with an empty token, whitespace and `{` are skipped. */
  lemma {:induction false} SkipTripleBlank(st: State, s: string)
    requires IsTripleMode(Top(st.modes)) && st.token == ""
    requires forall k :: 0 <= k < |s| ==> IsWhitespace(s[k]) || s[k] == '{'
    ensures Run(st, s) == Some(st)
    decreases |s|
  {
    if |s| > 0 {
      assert Step(st, s[0]) == Some(st);
      SkipTripleBlank(st, s[1..]);
    }
  }

  /** A sub-clause keyword and whitespace, in a triple mode, push the keyword's mode. */
  lemma ScanSubClause(st: State, w: string, c: char)
    requires IsTripleMode(Top(st.modes)) && st.token == ""
    requires |w| > 0 && !IsTripleEnd(w[0]) && (forall k :: 0 <= k < |w| ==> TermChar(w[k]))
    requires IsSubClause(ToLower(w)) && IsWhitespace(c)
    ensures Run(st, w + [c]) == Some(st.(modes := st.modes + [ToLower(w)]))
  {
    ScanTerm(st, w);
    var mid := st.(token := w);
    var out := TripleStep(mid, c);
    assert Step(mid, c) == Some(out);
    SubClauseKeyword(mid, c, out);
    RunOne(mid, c);
    ThenRun(st, w, [c], mid, out);
  }

  /** `}` left as the token by a VALUES clause is dropped by the next whitespace. */
  lemma BraceTokenFlush(st: State, c: char)
    requires IsTripleMode(Top(st.modes)) && st.token == "}" && st.triple == [] && IsWhitespace(c)
    ensures Run(st, [c]) == Some(st.(token := ""))
  {
    assert st.token[..0] == "";
    assert Flush(st.(token := ""), '}') == st.(token := "");
    RunOne(st, c);
  }

  /** `}` in a triple mode leaves it and flushes the triple. */
  lemma CloseTriple(st: State)
    requires IsTripleMode(Top(st.modes))
    ensures Run(st, "}") == Some(Flush(st.(modes := Pop(st.modes), token := ""), '}'))
  {
    RunOne(st, '}');
  }

  /** In select mode characters other than whitespace build the token while it is too short to read `where`. */
  lemma {:induction false} ScanSelectText(st: State, w: string)
    requires Top(st.modes) == "select" && |st.token| + |w| <= 5
    requires forall k :: 0 <= k < |w| ==> !IsWhitespace(w[k])
    ensures Run(st, w) == Some(st.(token := st.token + w))
    decreases |w|
  {
    if |w| > 0 {
      var mid := st.(token := st.token + [w[0]]);
      assert |ToLower(st.token)| < |"where"|;
      assert Step(st, w[0]) == Some(mid);
      assert Run(st, w) == Run(mid, w[1..]);
      ScanSelectText(mid, w[1..]);
      assert w == [w[0]] + w[1..];
      assert mid.token + w[1..] == st.token + w;
      assert mid.(token := mid.token + w[1..]) == st.(token := st.token + w);
    } else {
      assert st.token + w == st.token;
    }
  }

  /** In select mode whitespace drops a token that does not read `where`. */
  lemma SelectSkip(st: State, c: char)
    requires Top(st.modes) == "select" && ToLower(st.token) != "where" && IsWhitespace(c)
    ensures Run(st, [c]) == Some(st.(token := ""))
  {
    RunOne(st, c);
  }

  /** Once the token reads `where`, the next character replaces the select mode by `where`. */
  lemma SelectWhere(st: State, c: char)
    requires Top(st.modes) == "select" && ToLower(st.token) == "where"
    ensures Run(st, [c]) == Some(st.(modes := Pop(st.modes) + ["where"], token := ""))
  {
    RunOne(st, c);
  }
}
