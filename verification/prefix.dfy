/** One prefix declaration, `short: long`, as prefix.js's `Prefix` class parses it. */
module Prefixes {
  import opened Wrappers
  import opened Strings

  /** A parsed declaration. `text` is the string it was built from, which `toString` returns. */
  datatype Prefix = Prefix(text: string, short: string, long: string)

  /** `toString`: the declaration exactly as it was written, not its normalised form. */
  function ToString(p: Prefix): string {
    p.text
  }

  /** A character of the regular expression's `[^:\s]` class. */
  predicate IsLabelChar(c: char) {
    c != ':' && !IsSpace(c)
  }

  predicate AllLabel(s: string) {
    forall k :: 0 <= k < |s| ==> IsLabelChar(s[k])
  }

  predicate NoLineTerminator(s: string) {
    forall k :: 0 <= k < |s| ==> !IsLineTerminator(s[k])
  }

  /** End of the run of label characters starting at `i`. */
  function RunEnd(t: string, i: nat): (j: nat)
    requires i <= |t|
    ensures i <= j <= |t|
    ensures forall k :: i <= k < j ==> IsLabelChar(t[k])
    ensures j < |t| ==> !IsLabelChar(t[j])
    decreases |t| - i
  {
    if i == |t| || !IsLabelChar(t[i]) then i else RunEnd(t, i + 1)
  }

  /** End of the run of characters the regular-expression `.` matches, starting at `i`. */
  function LineEnd(t: string, i: nat): (j: nat)
    requires i <= |t|
    ensures i <= j <= |t|
    ensures forall k :: i <= k < j ==> !IsLineTerminator(t[k])
    ensures j < |t| ==> IsLineTerminator(t[j])
    decreases |t| - i
  {
    if i == |t| || IsLineTerminator(t[i]) then i else LineEnd(t, i + 1)
  }

  /**
   * The regular expression `([^:\s]+)\s*:\s*(.+)` anchored at position `s` of the trimmed
   * text `t`, giving the two captured groups. Because `t` does not end in a space, the
   * spaces after the colon are always followed by a character, so no backtracking case
   * arises.
   */
  function MatchAt(t: string, s: nat): (m: Option<(string, string)>)
    requires s <= |t|
    requires Trimmed(t)
    ensures m.Some? ==> |m.value.0| > 0 && AllLabel(m.value.0)
    ensures m.Some? ==> |m.value.1| > 0 && NoLineTerminator(m.value.1)
  {
    if s == |t| || !IsLabelChar(t[s]) then None
    else
      var r := RunEnd(t, s);
      var p := SkipSpace(t, r);
      if p == |t| || t[p] != ':' then None
      else
        var q := SkipSpace(t, p + 1);
        if q == |t| then None
        else Some((t[s..r], t[q..LineEnd(t, q)]))
  }

  /** `String.prototype.match` with a non-global expression: the leftmost position that matches. */
  function FirstMatch(t: string, s: nat): (m: Option<(string, string)>)
    requires s <= |t|
    requires Trimmed(t)
    ensures m.Some? ==> |m.value.0| > 0 && AllLabel(m.value.0)
    ensures m.Some? ==> |m.value.1| > 0 && NoLineTerminator(m.value.1)
    decreases |t| - s
  {
    if s == |t| then None
    else if MatchAt(t, s).Some? then MatchAt(t, s)
    else FirstMatch(t, s + 1)
  }

  /**
   * A colon at `c` that the expression can use: some label character precedes it with only
   * spaces in between, and some character follows it.
   */
  ghost predicate UsableColon(t: string, c: int) {
    0 <= c < |t| - 1 && t[c] == ':' &&
    exists j :: 0 <= j < c && IsLabelChar(t[j]) && AllSpace(t[j + 1..c])
  }

  /** The declarative condition under which the expression matches a trimmed text. */
  ghost predicate HasMatch(t: string) {
    exists c :: UsableColon(t, c)
  }

  /**
   * The declaration shape around the colon at `c` of the trimmed text `t`: the label `t[s..a]`,
   * with no label character just before it, then spaces, the colon, more spaces, and the first
   * character `t[q]` of the value.
   */
  ghost predicate Shape(t: string, s: nat, a: nat, c: nat, q: nat) {
    && s < a <= c < q < |t|
    && (s == 0 || !IsLabelChar(t[s - 1]))
    && (forall k :: s <= k < a ==> IsLabelChar(t[k]))
    && (forall k :: a <= k < c ==> IsSpace(t[k]))
    && t[c] == ':'
    && (forall k :: c < k < q ==> IsSpace(t[k]))
    && !IsSpace(t[q])
  }

  /** No colon before `c` is usable. */
  ghost predicate FirstUsable(t: string, c: nat) {
    UsableColon(t, c) && forall c' :: 0 <= c' < c ==> !UsableColon(t, c')
  }

  /**
   * The constructor's `parsePrefixString`; `None` where `matches` is null and the library
   * throws.
   */
  function ParsePrefix(text: string): (r: Option<Prefix>)
    ensures r.Some? ==> ToString(r.value) == text
    ensures r.Some? ==> |r.value.short| > 0 && AllLabel(r.value.short)
    ensures r.Some? ==> forall k :: 0 <= k < |r.value.long| ==> r.value.long[k] != '<' && r.value.long[k] != '>'
    ensures r.None? <==> !HasMatch(Trim(text))
  {
    var t := Trim(text);
    match FirstMatch(t, 0)
    case None =>
      NoMatchMeansNoUsableColon(t);
      None
    case Some((short, raw)) =>
      MatchMeansUsableColon(t, 0);
      Some(Prefix(text, short, StripAngles(raw)))
  }

  /**
   * What a parsed prefix holds: `short` is the whole label before the first usable colon of the
   * trimmed text, and `long` is the rest of that line after the colon and its spaces, with the
   * angle brackets removed.
   */
  lemma ParsePrefixShape(text: string)
    ensures var r := ParsePrefix(text);
            r.Some? ==>
              var t := Trim(text);
              exists s: nat, a: nat, c: nat, q: nat :: && Shape(t, s, a, c, q) && FirstUsable(t, c)
                                   && r.value.short == t[s..a]
                                   && r.value.long == StripAngles(t[q..LineEnd(t, q)])
  {
    var t := Trim(text);
    if FirstMatch(t, 0).Some? {
      FirstMatchShape(t);
    }
  }

  /** The groups of the leftmost match, in terms of the declaration shape. */
  lemma FirstMatchShape(t: string)
    requires Trimmed(t) && FirstMatch(t, 0).Some?
    ensures exists s: nat, a: nat, c: nat, q: nat :: && Shape(t, s, a, c, q) && FirstUsable(t, c)
                                 && FirstMatch(t, 0) == Some((t[s..a], t[q..LineEnd(t, q)]))
  {
    var s := FirstMatchAt(t, 0);
    MatchShape(t, s);
  }

  /** Where the leftmost match starts: no earlier position matches. */
  lemma {:induction false} FirstMatchAt(t: string, s0: nat) returns (s: nat)
    requires s0 <= |t| && Trimmed(t) && FirstMatch(t, s0).Some?
    ensures s0 <= s < |t| && FirstMatch(t, s0) == MatchAt(t, s)
    ensures forall s' :: s0 <= s' < s ==> MatchAt(t, s').None?
    decreases |t| - s0
  {
    if MatchAt(t, s0).Some? {
      s := s0;
    } else {
      s := FirstMatchAt(t, s0 + 1);
    }
  }

  /** A usable colon gives a match at the label character before its spaces. */
  lemma ColonMatch(t: string, c: nat, j: nat)
    requires Trimmed(t) && UsableColon(t, c)
    requires j < c && IsLabelChar(t[j]) && AllSpace(t[j + 1..c])
    ensures RunEnd(t, j) == j + 1 && SkipSpace(t, j + 1) == c && MatchAt(t, j).Some?
  {
    assert forall k :: j + 1 <= k < c ==> IsSpace(t[k]) by {
      forall k | j + 1 <= k < c ensures IsSpace(t[k]) {
        assert t[k] == t[j + 1..c][k - j - 1];
      }
    }
    assert RunEnd(t, j) == j + 1;
    assert SkipSpace(t, j + 1) == c;
    assert SkipSpace(t, c + 1) < |t|;
  }

  /** A match after a label character extends to a match one position earlier. */
  lemma LabelBefore(t: string, s: nat)
    requires 0 < s < |t| && Trimmed(t) && MatchAt(t, s).Some?
    ensures IsLabelChar(t[s - 1]) ==> MatchAt(t, s - 1).Some?
  {
    if IsLabelChar(t[s - 1]) {
      assert RunEnd(t, s - 1) == RunEnd(t, s);
    }
  }

  /** The leftmost match has the declaration shape around the first usable colon. */
  lemma MatchShape(t: string, s: nat)
    requires s < |t| && Trimmed(t) && MatchAt(t, s).Some?
    requires forall s' :: 0 <= s' < s ==> MatchAt(t, s').None?
    ensures var a := RunEnd(t, s);
            var c := SkipSpace(t, a);
            var q := SkipSpace(t, c + 1);
            && Shape(t, s, a, c, q) && FirstUsable(t, c)
            && MatchAt(t, s) == Some((t[s..a], t[q..LineEnd(t, q)]))
  {
    var a := RunEnd(t, s);
    var c := SkipSpace(t, a);
    var q := SkipSpace(t, c + 1);
    if s > 0 {
      LabelBefore(t, s);
    }
    assert UsableColon(t, c) by {
      assert AllSpace(t[a..c]) by {
        forall k | 0 <= k < |t[a..c]| ensures IsSpace(t[a..c][k]) {
          assert t[a..c][k] == t[a + k];
        }
      }
      assert IsLabelChar(t[a - 1]);
    }
    assert FirstUsable(t, c) by {
      forall c' | 0 <= c' < c ensures !UsableColon(t, c') {
        if UsableColon(t, c') {
          var j :| 0 <= j < c' && IsLabelChar(t[j]) && AllSpace(t[j + 1..c']);
          ColonMatch(t, c', j);
        }
      }
    }
  }

  lemma {:induction false} MatchMeansUsableColon(t: string, s: nat)
    requires s <= |t| && Trimmed(t)
    requires FirstMatch(t, s).Some?
    ensures HasMatch(t)
    decreases |t| - s
  {
    if MatchAt(t, s).Some? {
      var r := RunEnd(t, s);
      var p := SkipSpace(t, r);
      assert IsLabelChar(t[r - 1]);
      assert AllSpace(t[r..p]);
      assert UsableColon(t, p);
    } else {
      MatchMeansUsableColon(t, s + 1);
    }
  }

  lemma {:induction false} FirstMatchReaches(t: string, s: nat, j: nat)
    requires s <= j < |t| && Trimmed(t)
    requires MatchAt(t, j).Some?
    ensures FirstMatch(t, s).Some?
    decreases j - s
  {
    if s < j && MatchAt(t, s).None? {
      FirstMatchReaches(t, s + 1, j);
    }
  }

  lemma NoMatchMeansNoUsableColon(t: string)
    requires Trimmed(t)
    requires FirstMatch(t, 0).None?
    ensures !HasMatch(t)
  {
    if HasMatch(t) {
      var c :| UsableColon(t, c);
      var j :| 0 <= j < c && IsLabelChar(t[j]) && AllSpace(t[j + 1..c]);
      assert forall k :: j + 1 <= k < c ==> IsSpace(t[k]) by {
        forall k | j + 1 <= k < c ensures IsSpace(t[k]) {
          assert t[k] == t[j + 1..c][k - j - 1];
        }
      }
      assert RunEnd(t, j) == j + 1;
      assert SkipSpace(t, j + 1) == c;
      assert SkipSpace(t, c + 1) < |t|;
      FirstMatchReaches(t, 0, j);
    }
  }

  lemma TrimLeading(lead: string, t: string)
    requires AllSpace(lead)
    requires |t| > 0 && !IsSpace(t[0]) && !IsSpace(t[|t| - 1])
    ensures Trim(lead + t) == t
  {
    var text := lead + t;
    assert text[|lead|] == t[0];
    assert forall k :: 0 <= k < |lead| ==> text[k] == lead[k];
    assert SkipSpace(text, 0) == |lead|;
    assert text[|text| - 1] == t[|t| - 1];
    assert text[|lead|..] == t;
  }

  /** The scanning functions stop exactly where their run ends. */
  lemma RunEndIs(t: string, i: nat, j: nat)
    requires i <= j <= |t|
    requires forall k :: i <= k < j ==> IsLabelChar(t[k])
    requires j < |t| ==> !IsLabelChar(t[j])
    ensures RunEnd(t, i) == j
  {
  }

  lemma SkipSpaceIs(t: string, i: nat, j: nat)
    requires i <= j <= |t|
    requires forall k :: i <= k < j ==> IsSpace(t[k])
    requires j < |t| ==> !IsSpace(t[j])
    ensures SkipSpace(t, i) == j
  {
  }

  lemma LineEndIs(t: string, i: nat)
    requires i <= |t|
    requires forall k :: i <= k < |t| ==> !IsLineTerminator(t[k])
    ensures LineEnd(t, i) == |t|
  {
  }

  /** The expression matches at 0 when the text is a label, spaces, a colon, spaces and a line. */
  lemma MatchAtShape(t: string, a: nat, c: nat, q: nat)
    requires Trimmed(t)
    requires 0 < a <= c < q < |t|
    requires forall k :: 0 <= k < a ==> IsLabelChar(t[k])
    requires forall k :: a <= k < c ==> IsSpace(t[k])
    requires t[c] == ':'
    requires forall k :: c < k < q ==> IsSpace(t[k])
    requires !IsSpace(t[q])
    requires forall k :: q <= k < |t| ==> !IsLineTerminator(t[k])
    ensures MatchAt(t, 0) == Some((t[..a], t[q..]))
  {
    RunEndIs(t, 0, a);
    SkipSpaceIs(t, a, c);
    SkipSpaceIs(t, c + 1, q);
    LineEndIs(t, q);
    assert t[0..a] == t[..a];
    assert t[q..|t|] == t[q..];
  }

  lemma MatchDeclaration(short: string, w1: string, w2: string, body: string)
    requires AllSpace(w1) && AllSpace(w2)
    requires |short| > 0 && AllLabel(short)
    requires |body| > 0 && !IsSpace(body[0]) && !IsSpace(body[|body| - 1]) && NoLineTerminator(body)
    ensures Trimmed(short + w1 + ":" + w2 + body)
    ensures MatchAt(short + w1 + ":" + w2 + body, 0) == Some((short, body))
  {
    var t := short + w1 + ":" + w2 + body;
    var a := |short|;
    var c := a + |w1|;
    var q := c + 1 + |w2|;
    assert t[..a] == short && t[q..] == body by {
      assert t == short + (w1 + ":" + w2 + body);
      assert t == (short + w1 + ":" + w2) + body;
    }
    assert Trimmed(t) by {
      assert t[0] == short[0] && t[|t| - 1] == body[|body| - 1];
    }
    assert forall k :: 0 <= k < a ==> IsLabelChar(t[k]) by {
      assert forall k :: 0 <= k < a ==> t[k] == short[k];
    }
    assert forall k :: a <= k < c ==> IsSpace(t[k]) by {
      assert forall k :: a <= k < c ==> t[k] == w1[k - a];
    }
    assert t[c] == ':';
    assert forall k :: c < k < q ==> IsSpace(t[k]) by {
      assert forall k :: c < k < q ==> t[k] == w2[k - c - 1];
    }
    assert forall k :: q <= k < |t| ==> !IsLineTerminator(t[k]) by {
      assert forall k :: q <= k < |t| ==> t[k] == body[k - q];
    }
    assert t[q] == body[0];
    MatchAtShape(t, a, c, q);
  }

  lemma ParseVia(text: string, short: string, raw: string)
    requires Trimmed(Trim(text))
    requires MatchAt(Trim(text), 0) == Some((short, raw))
    ensures ParsePrefix(text) == Some(Prefix(text, short, StripAngles(raw)))
  {
    assert FirstMatch(Trim(text), 0) == Some((short, raw));
  }

  lemma LeadAssoc(lead: string, short: string, w1: string, w2: string, body: string)
    ensures lead + short + w1 + ":" + w2 + body == lead + (short + w1 + ":" + w2 + body)
  {
    var u := short + w1 + ":" + w2;
    assert lead + short + w1 + ":" + w2 == lead + u;
  }

  lemma ParseDeclaration(lead: string, short: string, w1: string, w2: string, body: string)
    requires AllSpace(lead) && AllSpace(w1) && AllSpace(w2)
    requires |short| > 0 && AllLabel(short)
    requires |body| > 0 && !IsSpace(body[0]) && !IsSpace(body[|body| - 1]) && NoLineTerminator(body)
    ensures ParsePrefix(lead + short + w1 + ":" + w2 + body)
         == Some(Prefix(lead + short + w1 + ":" + w2 + body, short, StripAngles(body)))
  {
    var t := short + w1 + ":" + w2 + body;
    var text := lead + short + w1 + ":" + w2 + body;
    LeadAssoc(lead, short, w1, w2, body);
    MatchDeclaration(short, w1, w2, body);
    assert t[0] == short[0];
    assert t[|t| - 1] == body[|body| - 1];
    TrimLeading(lead, t);
    ParseVia(text, short, body);
  }

  /** A namespace URL is one line with no angle brackets and no surrounding space. */
  predicate PlainUrl(ns: string) {
    |ns| > 0 && NoLineTerminator(ns) && !IsSpace(ns[0]) && !IsSpace(ns[|ns| - 1]) &&
    forall k :: 0 <= k < |ns| ==> ns[k] != '<' && ns[k] != '>'
  }

  lemma ClassicalMusicNavIsPlain(ns: string)
    requires ns == "http://purl.org/ontology/classicalmusicnav#"
    ensures PlainUrl(ns)
  {
  }

  /** `label: url` parses to that label and url. */
  lemma ParsePlain(short: string, ns: string)
    requires |short| > 0 && AllLabel(short) && PlainUrl(ns)
    ensures ParsePrefix(short + ":" + " " + ns) == Some(Prefix(short + ":" + " " + ns, short, ns))
  {
    ParseDeclaration("", short, "", " ", ns);
    assert "" + short == short && short + "" == short;
  }

  /** The declaration `cmno: http://purl.org/ontology/classicalmusicnav#`. */
  lemma ParseClassicalMusicNav(ns: string)
    requires ns == "http://purl.org/ontology/classicalmusicnav#"
    ensures ParsePrefix("cmno" + ":" + " " + ns) == Some(Prefix("cmno" + ":" + " " + ns, "cmno", ns))
  {
    ClassicalMusicNavIsPlain(ns);
    assert AllLabel("cmno");
    ParsePlain("cmno", ns);
  }
}
