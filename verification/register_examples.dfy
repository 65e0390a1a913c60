/** The register of the prefix tests: `cmno`, `cmn` and `foaf`, loaded in that order. */
module RegisterExamples {
  import opened Wrappers
  import opened Strings
  import opened Prefixes
  import opened Registers

  /** The three declarations as parsed. */
  function TestPrefixes(ns0: string, ns1: string, ns2: string): seq<Prefix> {
    [Prefix("cmno" + ":" + " " + ns0, "cmno", ns0),
     Prefix("cmn" + ":" + " " + ns1, "cmn", ns1),
     Prefix("foaf" + ":" + " " + ns2, "foaf", ns2)]
  }

  lemma ParseCmn(ns: string)
    requires ns == "http://purl.org/NET/classicalmusicnav#"
    ensures ParsePrefix("cmn" + ":" + " " + ns) == Some(Prefix("cmn" + ":" + " " + ns, "cmn", ns))
  {
    assert PlainUrl(ns);
    assert AllLabel("cmn");
    ParsePlain("cmn", ns);
  }

  lemma ParseFoaf(ns: string)
    requires ns == "http://xmlns.com/foaf/0.1/"
    ensures ParsePrefix("foaf" + ":" + " " + ns) == Some(Prefix("foaf" + ":" + " " + ns, "foaf", ns))
  {
    assert PlainUrl(ns);
    assert AllLabel("foaf");
    ParsePlain("foaf", ns);
  }

  /** `loadPrefixStrings` of the three declarations loads the three parsed prefixes. */
  lemma LoadTestStrings(ns0: string, ns1: string, ns2: string)
    requires ns0 == "http://purl.org/ontology/classicalmusicnav#"
    requires ns1 == "http://purl.org/NET/classicalmusicnav#"
    requires ns2 == "http://xmlns.com/foaf/0.1/"
    ensures LoadStrings(Empty, ["cmno" + ":" + " " + ns0, "cmn" + ":" + " " + ns1, "foaf" + ":" + " " + ns2])
            == Some(LoadAll(TestPrefixes(ns0, ns1, ns2)))
  {
    ParseClassicalMusicNav(ns0);
    ParseCmn(ns1);
    ParseFoaf(ns2);
    LoadParsed3("cmno" + ":" + " " + ns0, "cmn" + ":" + " " + ns1, "foaf" + ":" + " " + ns2,
                Prefix("cmno" + ":" + " " + ns0, "cmno", ns0),
                Prefix("cmn" + ":" + " " + ns1, "cmn", ns1),
                Prefix("foaf" + ":" + " " + ns2, "foaf", ns2));
  }

  /** No form of `cmno` or `cmn` prefixes a foaf URI in either form. */
  lemma NotCmnForms(ns0: string, ns1: string, ns2: string, uri: string)
    requires ns0 == "http://purl.org/ontology/classicalmusicnav#"
    requires ns1 == "http://purl.org/NET/classicalmusicnav#"
    requires ns2 == "http://xmlns.com/foaf/0.1/"
    requires uri == "foaf:name" || StartsWith(uri, ns2)
    ensures var ps := TestPrefixes(ns0, ns1, ns2);
            forall j :: 0 <= j < 2 ==> !StartsWith(uri, ps[j].short) && !StartsWith(uri, ps[j].long)
  {
    if uri == "foaf:name" {
      DiffersAt(uri, "cmno", 0);
      DiffersAt(uri, "cmn", 0);
      DiffersAt(uri, ns0, 0);
      DiffersAt(uri, ns1, 0);
    } else {
      assert uri[..|ns2|] == ns2;
      DiffersAt(uri, "cmno", 0);
      DiffersAt(uri, "cmn", 0);
      DiffersAt(uri, ns0, 7);
      DiffersAt(uri, ns1, 7);
    }
  }

  /** `foaf:name` matches its expanded form and not another foaf name. */
  lemma FoafNameUriMatch(ns0: string, ns1: string, ns2: string)
    requires ns0 == "http://purl.org/ontology/classicalmusicnav#"
    requires ns1 == "http://purl.org/NET/classicalmusicnav#"
    requires ns2 == "http://xmlns.com/foaf/0.1/"
    ensures var r := LoadAll(TestPrefixes(ns0, ns1, ns2));
            IsUriMatch(r, "foaf:name", ns2 + "name") && !IsUriMatch(r, "foaf:name", ns2 + "age")
  {
    var ps := TestPrefixes(ns0, ns1, ns2);
    assert "foaf" + ":" + "name" == "foaf:name";
    NotCmnForms(ns0, ns1, ns2, "foaf:name");
    QualifyShortForm(ps, 2, "name");
    StartsWithAppend(ns2, "name");
    StartsWithAppend(ns2, "age");
    NotCmnForms(ns0, ns1, ns2, ns2 + "name");
    NotCmnForms(ns0, ns1, ns2, ns2 + "age");
    DiffersAt(ns2 + "name", "foaf", 0);
    DiffersAt(ns2 + "age", "foaf", 0);
    QualifyLongForm(ps, 2, ns2 + "name");
    QualifyLongForm(ps, 2, ns2 + "age");
    assert (ns2 + "name")[|ns2|] != (ns2 + "age")[|ns2|];
    DiffersAt("foaf:name", ns2 + "age", 0);
  }

  /** The prefix each test URI resolves to: foaf in both forms, and `cmn` for `cmn:name`. */
  lemma ResolveExamples(ns0: string, ns1: string, ns2: string)
    requires ns0 == "http://purl.org/ontology/classicalmusicnav#"
    requires ns1 == "http://purl.org/NET/classicalmusicnav#"
    requires ns2 == "http://xmlns.com/foaf/0.1/"
    ensures var r := LoadAll(TestPrefixes(ns0, ns1, ns2));
            GetPrefix(r, "foaf:name") == Some(2) && GetPrefix(r, ns2 + "name") == Some(2) &&
            GetPrefix(r, ns2 + "age") == Some(2) && GetPrefix(r, "cmn:name") == Some(1)
  {
    ResolveFoafName(ns0, ns1, ns2);
    ResolveLongFoaf(ns0, ns1, ns2, "name");
    ResolveLongFoaf(ns0, ns1, ns2, "age");
    ResolveCmnName(ns0, ns1, ns2);
  }

  lemma ResolveFoafName(ns0: string, ns1: string, ns2: string)
    requires ns0 == "http://purl.org/ontology/classicalmusicnav#"
    requires ns1 == "http://purl.org/NET/classicalmusicnav#"
    requires ns2 == "http://xmlns.com/foaf/0.1/"
    ensures GetPrefix(LoadAll(TestPrefixes(ns0, ns1, ns2)), "foaf:name") == Some(2)
  {
    NotCmnForms(ns0, ns1, ns2, "foaf:name");
    ResolveShort(TestPrefixes(ns0, ns1, ns2), 2, "foaf:name");
  }

  lemma ResolveCmnName(ns0: string, ns1: string, ns2: string)
    requires ns0 == "http://purl.org/ontology/classicalmusicnav#"
    requires ns1 == "http://purl.org/NET/classicalmusicnav#"
    requires ns2 == "http://xmlns.com/foaf/0.1/"
    ensures GetPrefix(LoadAll(TestPrefixes(ns0, ns1, ns2)), "cmn:name") == Some(1)
  {
    DiffersAt("cmn:name", "cmno", 3);
    DiffersAt("cmn:name", ns0, 0);
    ResolveShort(TestPrefixes(ns0, ns1, ns2), 1, "cmn:name");
  }

  /** A long-form foaf URI resolves to foaf. */
  lemma ResolveLongFoaf(ns0: string, ns1: string, ns2: string, local: string)
    requires ns0 == "http://purl.org/ontology/classicalmusicnav#"
    requires ns1 == "http://purl.org/NET/classicalmusicnav#"
    requires ns2 == "http://xmlns.com/foaf/0.1/"
    ensures GetPrefix(LoadAll(TestPrefixes(ns0, ns1, ns2)), ns2 + local) == Some(2)
  {
    StartsWithAppend(ns2, local);
    NotCmnForms(ns0, ns1, ns2, ns2 + local);
    DiffersAt(ns2 + local, "foaf", 0);
    ResolveLong(TestPrefixes(ns0, ns1, ns2), 2, ns2 + local);
  }

  /** Both forms of foaf share a prefix; `cmn:name` and a foaf URI do not. */
  lemma PrefixMatchExamples(ns0: string, ns1: string, ns2: string)
    requires ns0 == "http://purl.org/ontology/classicalmusicnav#"
    requires ns1 == "http://purl.org/NET/classicalmusicnav#"
    requires ns2 == "http://xmlns.com/foaf/0.1/"
    ensures var r := LoadAll(TestPrefixes(ns0, ns1, ns2));
            GetPrefix(r, "foaf:name") == Some(2) && GetPrefix(r, ns2 + "name") == Some(2) &&
            GetPrefix(r, ns2 + "age") == Some(2) && GetPrefix(r, "cmn:name") == Some(1) &&
            IsPrefixMatch(r, "foaf:name", ns2 + "name") && IsPrefixMatch(r, "foaf:name", ns2 + "age") &&
            IsPrefixMatch(r, ns2 + "name", ns2 + "age") && !IsPrefixMatch(r, "cmn:name", ns2 + "age")
  {
    ResolveExamples(ns0, ns1, ns2);
  }
}
