/** prefix.js's `PrefixRegister`: prefix lookup, expansion of short forms, and URI equivalence. */
module Registers {
  import opened Wrappers
  import opened Strings
  import opened Prefixes

  /**
   * The register. `loaded` lists the prefixes in load order and a prefix is identified by its
   * position there, as the library compares prefix objects by identity. `lookup` maps both forms
   * of a prefix to its position; `probes` is the list of forms in registration order.
   */
  datatype Register = Register(loaded: seq<Prefix>, lookup: map<string, nat>, probes: seq<string>)

  const Empty := Register([], map[], [])

  predicate HasForm(p: Prefix, k: string) {
    p.short == k || p.long == k
  }

  /** The well-formedness every loaded register keeps: the lookup covers the probes and points into `loaded`. */
  ghost predicate Valid(r: Register) {
    && (forall k :: k in r.lookup ==> r.lookup[k] < |r.loaded|)
    && (forall j :: 0 <= j < |r.probes| ==> r.probes[j] in r.lookup)
  }

  /** `loadPrefix`. */
  function Load(r: Register, p: Prefix): (r': Register)
    ensures r'.loaded == r.loaded + [p]
    ensures r'.probes == r.probes + [p.short, p.long]
    ensures p.short in r'.lookup && r'.lookup[p.short] == |r.loaded|
    ensures p.long in r'.lookup && r'.lookup[p.long] == |r.loaded|
    ensures forall k :: k != p.short && k != p.long ==>
              (k in r'.lookup <==> k in r.lookup) && (k in r.lookup ==> r'.lookup[k] == r.lookup[k])
    ensures Valid(r) ==> Valid(r')
  {
    var i := |r.loaded|;
    var r' := Register(r.loaded + [p], r.lookup[p.short := i][p.long := i], r.probes + [p.short, p.long]);
    assert Valid(r) ==> Valid(r') by {
      if Valid(r) {
        forall j | 0 <= j < |r'.probes| ensures r'.probes[j] in r'.lookup {
          if j < |r.probes| {
            assert r'.probes[j] == r.probes[j];
          }
        }
      }
    }
    r'
  }

  /** The register that loading `ps` in order into an empty register produces. */
  function LoadAll(ps: seq<Prefix>): (r: Register)
    ensures Valid(r) && r.loaded == ps
  {
    if |ps| == 0 then Empty else Load(LoadAll(ps[..|ps| - 1]), ps[|ps| - 1])
  }

  /** `i` is the last loaded prefix that has `k` as one of its forms. */
  ghost predicate LastLoadOf(ps: seq<Prefix>, k: string, i: nat) {
    i < |ps| && HasForm(ps[i], k) &&
    forall i' :: i < i' < |ps| ==> !HasForm(ps[i'], k)
  }

  /** The last load wins: a form looks up the last prefix loaded with that form, and only loaded forms are keys. */
  lemma {:induction false} LoadAllLookup(ps: seq<Prefix>, k: string)
    ensures k in LoadAll(ps).lookup <==> exists i :: 0 <= i < |ps| && HasForm(ps[i], k)
    ensures k in LoadAll(ps).lookup ==> LastLoadOf(ps, k, LoadAll(ps).lookup[k])
  {
    if |ps| > 0 {
      var init := ps[..|ps| - 1];
      LoadAllLookup(init, k);
      if !HasForm(ps[|ps| - 1], k) {
        LoadAllLookupOther(ps, k);
      }
    }
  }

  lemma LoadAllLookupOther(ps: seq<Prefix>, k: string)
    requires |ps| > 0 && !HasForm(ps[|ps| - 1], k)
    requires var init := ps[..|ps| - 1];
             (k in LoadAll(init).lookup <==> exists i :: 0 <= i < |init| && HasForm(init[i], k)) &&
             (k in LoadAll(init).lookup ==> LastLoadOf(init, k, LoadAll(init).lookup[k]))
    ensures k in LoadAll(ps).lookup <==> exists i :: 0 <= i < |ps| && HasForm(ps[i], k)
    ensures k in LoadAll(ps).lookup ==> LastLoadOf(ps, k, LoadAll(ps).lookup[k])
  {
    var n := |ps|;
    var init := ps[..n - 1];
    var r0 := LoadAll(init);
    assert LoadAll(ps) == Load(r0, ps[n - 1]);
    MentionsDrop(ps, init, k);
    if k in r0.lookup {
      LastLoadDrop(ps, k, r0.lookup[k]);
    }
  }

  /** A form no prefix but the last has is mentioned by `ps` exactly when by all but its last. */
  lemma MentionsDrop(ps: seq<Prefix>, init: seq<Prefix>, k: string)
    requires |ps| > 0 && init == ps[..|ps| - 1] && !HasForm(ps[|ps| - 1], k)
    ensures (exists i :: 0 <= i < |ps| && HasForm(ps[i], k)) <==>
            (exists i :: 0 <= i < |init| && HasForm(init[i], k))
  {
    if exists i :: 0 <= i < |ps| && HasForm(ps[i], k) {
      var i :| 0 <= i < |ps| && HasForm(ps[i], k);
      assert init[i] == ps[i];
    }
  }

  /** Adding a prefix without the form keeps the last load of that form. */
  lemma LastLoadDrop(ps: seq<Prefix>, k: string, i: nat)
    requires |ps| > 0 && !HasForm(ps[|ps| - 1], k) && LastLoadOf(ps[..|ps| - 1], k, i)
    ensures LastLoadOf(ps, k, i)
  {
    var init := ps[..|ps| - 1];
    assert ps[i] == init[i];
    forall i' | i < i' < |ps| ensures !HasForm(ps[i'], k) {
      if i' < |ps| - 1 {
        assert ps[i'] == init[i'];
      }
    }
  }

  /** Loading the prefixes `ps` one after another. */
  function LoadSeq(r: Register, ps: seq<Prefix>): (r': Register)
    ensures r'.loaded == r.loaded + ps
    ensures Valid(r) ==> Valid(r')
  {
    if |ps| == 0 then r else Load(LoadSeq(r, ps[..|ps| - 1]), ps[|ps| - 1])
  }

  /** Every string parsed, or `None` when one of them does not parse. */
  function ParseAll(texts: seq<string>): (ps: Option<seq<Prefix>>)
    ensures ps.Some? <==> forall k :: 0 <= k < |texts| ==> ParsePrefix(texts[k]).Some?
    ensures ps.Some? ==> |ps.value| == |texts|
    ensures ps.Some? ==> forall k :: 0 <= k < |texts| ==> Some(ps.value[k]) == ParsePrefix(texts[k])
  {
    MapAll(ParsePrefix, texts)
  }

  /**
   * `loadPrefixStrings`: parse and load each string in order; `None` when a string does not
   * parse, where the library throws.
   */
  function LoadStrings(r: Register, texts: seq<string>): (r': Option<Register>)
    ensures r'.Some? <==> forall k :: 0 <= k < |texts| ==> ParsePrefix(texts[k]).Some?
    ensures r'.Some? ==> r'.value == LoadSeq(r, ParseAll(texts).value)
    ensures r'.Some? && Valid(r) ==> Valid(r'.value)
  {
    match ParseAll(texts)
    case None => None
    case Some(ps) => Some(LoadSeq(r, ps))
  }

  /** The first probe at or after `j` that is a string-prefix of `uri`. */
  function FirstProbe(probes: seq<string>, uri: string, j: nat): (m: Option<nat>)
    requires j <= |probes|
    ensures m.Some? ==> j <= m.value < |probes| && StartsWith(uri, probes[m.value])
    ensures m.Some? ==> forall j' :: j <= j' < m.value ==> !StartsWith(uri, probes[j'])
    ensures m.None? ==> forall j' :: j <= j' < |probes| ==> !StartsWith(uri, probes[j'])
    decreases |probes| - j
  {
    if j == |probes| then None
    else if StartsWith(uri, probes[j]) then Some(j)
    else FirstProbe(probes, uri, j + 1)
  }

  /** The prefix the probes from `j` on resolve `uri` to. */
  function ResolveFrom(r: Register, uri: string, j: nat): Option<nat>
    requires Valid(r) && j <= |r.probes|
  {
    match FirstProbe(r.probes, uri, j)
    case None => None
    case Some(m) => Some(r.lookup[r.probes[m]])
  }

  /** `probes[m]` is the first probe, in registration order, that `uri` starts with. */
  ghost predicate IsFirstProbe(r: Register, uri: string, m: nat) {
    m < |r.probes| && StartsWith(uri, r.probes[m]) &&
    forall j :: 0 <= j < m ==> !StartsWith(uri, r.probes[j])
  }

  /**
   * `getPrefix` of a single URI: the prefix looked up by the first probe the URI starts with
   * (first match, not longest match), or `None` where the library returns an empty array.
   */
  function GetPrefix(r: Register, uri: string): (res: Option<nat>)
    requires Valid(r)
    ensures res.None? <==> forall j :: 0 <= j < |r.probes| ==> !StartsWith(uri, r.probes[j])
    ensures forall m: nat :: IsFirstProbe(r, uri, m) ==> res == Some(r.lookup[r.probes[m]])
    ensures res.Some? ==> res.value < |r.loaded|
  {
    var res := ResolveFrom(r, uri, 0);
    assert forall m: nat :: IsFirstProbe(r, uri, m) ==> FirstProbe(r.probes, uri, 0) == Some(m);
    res
  }

  /** One step of the probe scan: probe `j` either matches `uri` or the scan moves on. */
  lemma ResolveStep(r: Register, uri: string, j: nat)
    requires Valid(r) && j < |r.probes|
    ensures ResolveFrom(r, uri, j) ==
              if StartsWith(uri, r.probes[j]) then Some(r.lookup[r.probes[j]]) else ResolveFrom(r, uri, j + 1)
  {
  }

  /** The URIs of `uris` that do not start with `probe`, in order (the library's `filter`). */
  function Unmatched(uris: seq<string>, probe: string): (rest: seq<string>)
    ensures |rest| <= |uris|
  {
    if |uris| == 0 then []
    else
      var rest := Unmatched(uris[1..], probe);
      if StartsWith(uris[0], probe) then rest else [uris[0]] + rest
  }

  /** The prefix `v` pushed once for each URI of `uris` that starts with `probe`. */
  function Hits(uris: seq<string>, probe: string, v: nat): seq<nat> {
    if |uris| == 0 then []
    else (if StartsWith(uris[0], probe) then [v] else []) + Hits(uris[1..], probe, v)
  }

  /** The `getPrefix` loop body run for probes `i` onwards: pending URIs and the prefixes found. */
  function Sweep(r: Register, pending: seq<string>, found: seq<nat>, i: nat): (seq<string>, seq<nat>)
    requires Valid(r) && i <= |r.probes|
    decreases |r.probes| - i
  {
    if i == |r.probes| then (pending, found)
    else
      var probe := r.probes[i];
      Sweep(r, Unmatched(pending, probe), found + Hits(pending, probe, r.lookup[probe]), i + 1)
  }

  /** The prefixes the URIs resolve to one at a time from probe `i` on, skipping unresolved URIs. */
  function Resolved(r: Register, uris: seq<string>, i: nat): seq<nat>
    requires Valid(r) && i <= |r.probes|
  {
    if |uris| == 0 then []
    else
      (match ResolveFrom(r, uris[0], i) case None => [] case Some(v) => [v]) + Resolved(r, uris[1..], i)
  }

  /** The URIs that no probe from `i` on resolves, in order. */
  function Unresolved(r: Register, uris: seq<string>, i: nat): seq<string>
    requires Valid(r) && i <= |r.probes|
  {
    if |uris| == 0 then []
    else (if ResolveFrom(r, uris[0], i).None? then [uris[0]] else []) + Unresolved(r, uris[1..], i)
  }

  /** Every URI is either resolved or unresolved. */
  lemma {:induction false} Partition(r: Register, uris: seq<string>, i: nat)
    requires Valid(r) && i <= |r.probes|
    ensures |Resolved(r, uris, i)| + |Unresolved(r, uris, i)| == |uris|
  {
    if |uris| > 0 {
      Partition(r, uris[1..], i);
    }
  }

  /** Past the last probe nothing resolves. */
  lemma {:induction false} NothingPastEnd(r: Register, uris: seq<string>)
    requires Valid(r)
    ensures Resolved(r, uris, |r.probes|) == [] && Unresolved(r, uris, |r.probes|) == uris
  {
    if |uris| > 0 {
      NothingPastEnd(r, uris[1..]);
      assert uris == [uris[0]] + uris[1..];
    }
  }

  /** One probe splits the pending URIs into those it resolves and those left for later probes. */
  lemma {:induction false} SweepStep(r: Register, pending: seq<string>, i: nat)
    requires Valid(r) && i < |r.probes|
    ensures Unresolved(r, pending, i) == Unresolved(r, Unmatched(pending, r.probes[i]), i + 1)
    ensures multiset(Resolved(r, pending, i)) ==
              multiset(Hits(pending, r.probes[i], r.lookup[r.probes[i]])) +
              multiset(Resolved(r, Unmatched(pending, r.probes[i]), i + 1))
  {
    if |pending| > 0 {
      SweepStep(r, pending[1..], i);
      ResolveStep(r, pending[0], i);
      var probe := r.probes[i];
      if !StartsWith(pending[0], probe) {
        var rest := Unmatched(pending[1..], probe);
        assert Unmatched(pending, probe) == [pending[0]] + rest;
        assert ([pending[0]] + rest)[1..] == rest;
      }
    }
  }

  /** The loop leaves exactly the unresolved URIs pending and finds the prefix of each resolved one. */
  lemma {:induction false} SweepSpec(r: Register, pending: seq<string>, found: seq<nat>, i: nat)
    requires Valid(r) && i <= |r.probes|
    ensures Sweep(r, pending, found, i).0 == Unresolved(r, pending, i)
    ensures multiset(Sweep(r, pending, found, i).1) == multiset(found) + multiset(Resolved(r, pending, i))
    decreases |r.probes| - i
  {
    if i == |r.probes| {
      NothingPastEnd(r, pending);
    } else {
      var probe := r.probes[i];
      SweepSpec(r, Unmatched(pending, probe), found + Hits(pending, probe, r.lookup[probe]), i + 1);
      SweepStep(r, pending, i);
    }
  }

  /**
   * `getPrefix` of any number of URIs: the prefixes found, in the order the probes find them, or
   * `None` where the library loops forever because, once the probes run out, as many prefixes have
   * been found as URIs remain (no URIs at all, or exactly one of two resolving).
   */
  function GetPrefixes(r: Register, uris: seq<string>): (res: Option<seq<nat>>)
    requires Valid(r)
    ensures res.None? <==> |Resolved(r, uris, 0)| == |Unresolved(r, uris, 0)|
    ensures res.Some? ==> multiset(res.value) == multiset(Resolved(r, uris, 0))
  {
    var (pending, found) := Sweep(r, uris, [], 0);
    SweepSpec(r, uris, [], 0);
    assert multiset(found) == multiset(Resolved(r, uris, 0));
    if |found| == |pending| then None else Some(found)
  }

  /** The resolved list of a single URI is its `GetPrefix`. */
  lemma ResolvedSingle(r: Register, u: string)
    requires Valid(r)
    ensures Resolved(r, [u], 0) == (match GetPrefix(r, u) case None => [] case Some(v) => [v])
    ensures |Unresolved(r, [u], 0)| == (if GetPrefix(r, u).None? then 1 else 0)
  {
    assert [u][1..] == [];
  }

  /** For one URI the multi-URI loop terminates and agrees with `GetPrefix`. */
  lemma GetPrefixesSingle(r: Register, u: string)
    requires Valid(r)
    ensures GetPrefixes(r, [u]) == Some(match GetPrefix(r, u) case None => [] case Some(v) => [v])
  {
    ResolvedSingle(r, u);
    var f := GetPrefixes(r, [u]).value;
    assert |f| == |multiset(f)|;
    if GetPrefix(r, u).Some? {
      var v := GetPrefix(r, u).value;
      assert multiset(f) == multiset{v};
      assert f[0] in multiset(f);
      assert f == [v];
    } else {
      assert |f| == 0;
    }
  }

  /** For two URIs the loop terminates exactly when both or neither resolve. */
  lemma GetPrefixesPair(r: Register, u1: string, u2: string)
    requires Valid(r)
    ensures GetPrefixes(r, [u1, u2]).None? <==> (GetPrefix(r, u1).Some? != GetPrefix(r, u2).Some?)
    ensures GetPrefixes(r, [u1, u2]).Some? && GetPrefix(r, u1).Some? ==>
              multiset(GetPrefixes(r, [u1, u2]).value) == multiset{GetPrefix(r, u1).value, GetPrefix(r, u2).value}
    ensures GetPrefixes(r, [u1, u2]).Some? && GetPrefix(r, u1).None? ==> GetPrefixes(r, [u1, u2]).value == []
  {
    ResolvedPair(r, u1, u2);
    var f := GetPrefixes(r, [u1, u2]);
    if f.Some? {
      assert |f.value| == |multiset(f.value)|;
    }
  }

  /** The resolved and unresolved lists of two URIs, one URI at a time. */
  lemma ResolvedPair(r: Register, u1: string, u2: string)
    requires Valid(r)
    ensures Resolved(r, [u1, u2], 0) ==
              (match GetPrefix(r, u1) case None => [] case Some(v) => [v]) +
              (match GetPrefix(r, u2) case None => [] case Some(v) => [v])
    ensures |Unresolved(r, [u1, u2], 0)| ==
              (if GetPrefix(r, u1).None? then 1 else 0) + (if GetPrefix(r, u2).None? then 1 else 0)
  {
    assert [u1, u2][1..] == [u2];
    ResolvedSingle(r, u2);
  }

  /** The value at `k`, or `None` (the library's `undefined`) past the end. */
  function At(s: seq<nat>, k: nat): Option<nat> {
    if k < |s| then Some(s[k]) else None
  }

  /** When both URIs resolve, the two found prefixes agree exactly when the URIs' prefixes do. */
  lemma PairFound(r: Register, u1: string, u2: string)
    requires Valid(r) && (GetPrefix(r, u1).Some? <==> GetPrefix(r, u2).Some?)
    ensures GetPrefixes(r, [u1, u2]).Some?
    ensures var found := GetPrefixes(r, [u1, u2]).value;
            At(found, 0) == At(found, 1) <==> GetPrefix(r, u1) == GetPrefix(r, u2)
  {
    GetPrefixesPair(r, u1, u2);
    var found := GetPrefixes(r, [u1, u2]).value;
    if GetPrefix(r, u1).Some? {
      assert |found| == |multiset(found)| == 2;
      var a, b := GetPrefix(r, u1).value, GetPrefix(r, u2).value;
      assert found == [found[0], found[1]];
      assert multiset{found[0], found[1]} == multiset{a, b};
    }
  }

  /**
   * `isPrefixMatch`: the first two prefixes found are the same (two missing ones compare equal).
   * The library does not terminate when exactly one of the URIs resolves, hence the precondition.
   */
  function IsPrefixMatch(r: Register, u1: string, u2: string): (b: bool)
    requires Valid(r) && (GetPrefix(r, u1).Some? <==> GetPrefix(r, u2).Some?)
    ensures b <==> GetPrefix(r, u1) == GetPrefix(r, u2)
  {
    PairFound(r, u1, u2);
    var found := GetPrefixes(r, [u1, u2]).value;
    At(found, 0) == At(found, 1)
  }

  /** `uri.substring(n)`. */
  function Substring(s: string, n: nat): string {
    if n <= |s| then s[n..] else ""
  }

  /**
   * `qualify`: a URI that starts with its prefix's short form has that form and the character
   * after it replaced by the long form; any other URI is returned unchanged.
   */
  function Qualify(r: Register, uri: string): (q: string)
    requires Valid(r)
    ensures q != uri ==> GetPrefix(r, uri).Some? && StartsWith(uri, r.loaded[GetPrefix(r, uri).value].short)
    ensures GetPrefix(r, uri).Some? && StartsWith(uri, r.loaded[GetPrefix(r, uri).value].short) ==>
              StartsWith(q, r.loaded[GetPrefix(r, uri).value].long)
  {
    match GetPrefix(r, uri)
    case None => uri
    case Some(i) =>
      var p := r.loaded[i];
      if StartsWith(uri, p.short) then p.long + Substring(uri, |p.short| + 1) else uri
  }

  /**
   * `isUriMatch`: the same text, or the same text once both are qualified; the first test is a
   * shortcut, as equal URIs qualify alike.
   */
  predicate IsUriMatch(r: Register, u1: string, u2: string): (m: bool)
    requires Valid(r)
    ensures m <==> Qualify(r, u1) == Qualify(r, u2)
  {
    u1 == u2 || Qualify(r, u1) == Qualify(r, u2)
  }

  /** `IsUriMatch` is reflexive, symmetric and transitive. */
  lemma UriMatchEquivalence(r: Register, u1: string, u2: string, u3: string)
    requires Valid(r)
    ensures IsUriMatch(r, u1, u1)
    ensures IsUriMatch(r, u1, u2) ==> IsUriMatch(r, u2, u1)
    ensures IsUriMatch(r, u1, u2) && IsUriMatch(r, u2, u3) ==> IsUriMatch(r, u1, u3)
  {
  }

  /** A URI no probe matches is left as it is. */
  lemma QualifyUnresolved(r: Register, uri: string)
    requires Valid(r)
    requires forall j :: 0 <= j < |r.probes| ==> !StartsWith(uri, r.probes[j])
    ensures Qualify(r, uri) == uri
  {
  }

  /** Loading `ps` lists each prefix's short form and then its long form, in load order. */
  lemma {:induction false} LoadAllProbes(ps: seq<Prefix>)
    ensures |LoadAll(ps).probes| == 2 * |ps|
    ensures forall j :: 0 <= j < |ps| ==>
              LoadAll(ps).probes[2 * j] == ps[j].short && LoadAll(ps).probes[2 * j + 1] == ps[j].long
  {
    if |ps| > 0 {
      var n := |ps|;
      var init := ps[..n - 1];
      LoadAllProbes(init);
      var pr := LoadAll(ps).probes;
      assert pr == LoadAll(init).probes + [ps[n - 1].short, ps[n - 1].long];
      forall j | 0 <= j < n ensures pr[2 * j] == ps[j].short && pr[2 * j + 1] == ps[j].long {
        if j < n - 1 {
          assert ps[j] == init[j];
        }
      }
    }
  }

  /** Only the forms of prefixes loaded before `i` come before `ps[i]`'s forms in the probe list. */
  lemma EarlierProbes(ps: seq<Prefix>, i: nat, uri: string, m: nat)
    requires i < |ps| && m <= 2 * i
    requires forall j :: 0 <= j < i ==> !StartsWith(uri, ps[j].short) && !StartsWith(uri, ps[j].long)
    ensures |LoadAll(ps).probes| == 2 * |ps|
    ensures forall j :: 0 <= j < m ==> !StartsWith(uri, LoadAll(ps).probes[j])
  {
    LoadAllProbes(ps);
    forall j | 0 <= j < m ensures !StartsWith(uri, LoadAll(ps).probes[j]) {
      if j % 2 == 0 {
        assert LoadAll(ps).probes[2 * (j / 2)] == ps[j / 2].short;
      } else {
        assert LoadAll(ps).probes[2 * (j / 2) + 1] == ps[j / 2].long;
      }
    }
  }

  /** The form `k` of `ps[i]` looks up `ps[i]` when no later prefix has that form. */
  lemma LookupOfLast(ps: seq<Prefix>, i: nat, k: string)
    requires i < |ps| && HasForm(ps[i], k)
    requires forall j :: i < j < |ps| ==> !HasForm(ps[j], k)
    ensures k in LoadAll(ps).lookup && LoadAll(ps).lookup[k] == i
  {
    LoadAllLookup(ps, k);
  }

  /**
   * A URI that starts with `ps[i]`'s short form, and with no form of an earlier prefix, resolves
   * to `ps[i]` (unless a later prefix took over that short form).
   */
  lemma ResolveShort(ps: seq<Prefix>, i: nat, uri: string)
    requires i < |ps| && StartsWith(uri, ps[i].short)
    requires forall j :: 0 <= j < i ==> !StartsWith(uri, ps[j].short) && !StartsWith(uri, ps[j].long)
    requires forall j :: i < j < |ps| ==> !HasForm(ps[j], ps[i].short)
    ensures GetPrefix(LoadAll(ps), uri) == Some(i)
  {
    var r := LoadAll(ps);
    EarlierProbes(ps, i, uri, 2 * i);
    LoadAllProbes(ps);
    LookupOfLast(ps, i, ps[i].short);
    assert IsFirstProbe(r, uri, 2 * i);
  }

  /** The same for a URI that starts with `ps[i]`'s long form but not with its short form. */
  lemma ResolveLong(ps: seq<Prefix>, i: nat, uri: string)
    requires i < |ps| && StartsWith(uri, ps[i].long) && !StartsWith(uri, ps[i].short)
    requires forall j :: 0 <= j < i ==> !StartsWith(uri, ps[j].short) && !StartsWith(uri, ps[j].long)
    requires forall j :: i < j < |ps| ==> !HasForm(ps[j], ps[i].long)
    ensures GetPrefix(LoadAll(ps), uri) == Some(i)
  {
    var r := LoadAll(ps);
    EarlierProbes(ps, i, uri, 2 * i);
    LoadAllProbes(ps);
    LookupOfLast(ps, i, ps[i].long);
    forall j | 0 <= j < 2 * i + 1 ensures !StartsWith(uri, r.probes[j]) {
      if j == 2 * i {
        assert r.probes[j] == ps[i].short;
      }
    }
    assert r.probes[2 * i + 1] == ps[i].long;
    assert IsFirstProbe(r, uri, 2 * i + 1);
  }

  /** `short:local` qualifies to `long` followed by `local`. */
  lemma QualifyShortForm(ps: seq<Prefix>, i: nat, local: string)
    requires i < |ps|
    requires var uri := ps[i].short + ":" + local;
             forall j :: 0 <= j < i ==> !StartsWith(uri, ps[j].short) && !StartsWith(uri, ps[j].long)
    requires forall j :: i < j < |ps| ==> !HasForm(ps[j], ps[i].short)
    ensures Qualify(LoadAll(ps), ps[i].short + ":" + local) == ps[i].long + local
  {
    var uri := ps[i].short + ":" + local;
    StartsWithAppend(ps[i].short, ":" + local);
    assert uri == ps[i].short + (":" + local);
    ResolveShort(ps, i, uri);
    QualifyResolved(LoadAll(ps), uri, i);
    assert uri[|ps[i].short| + 1..] == local;
  }

  /** A URI that resolves to a prefix whose short form it starts with is expanded. */
  lemma QualifyResolved(r: Register, uri: string, i: nat)
    requires Valid(r) && GetPrefix(r, uri) == Some(i) && i < |r.loaded|
    requires StartsWith(uri, r.loaded[i].short)
    ensures Qualify(r, uri) == r.loaded[i].long + Substring(uri, |r.loaded[i].short| + 1)
  {
  }

  /** A long-form URI qualifies to itself. */
  lemma QualifyLongForm(ps: seq<Prefix>, i: nat, uri: string)
    requires i < |ps| && StartsWith(uri, ps[i].long) && !StartsWith(uri, ps[i].short)
    requires forall j :: 0 <= j < i ==> !StartsWith(uri, ps[j].short) && !StartsWith(uri, ps[j].long)
    requires forall j :: i < j < |ps| ==> !HasForm(ps[j], ps[i].long)
    ensures Qualify(LoadAll(ps), uri) == uri
  {
    ResolveLong(ps, i, uri);
  }

  /**
   * First match, not longest match: with `p` loaded before `q` and `p`'s short form a proper
   * prefix of `q`'s, a URI in `q`'s short form is expanded with `p`'s long form.
   */
  lemma FirstMatchNotLongest(p: Prefix, q: Prefix, c: char, local: string)
    requires q.short == p.short + [c] && q.long != p.short
    ensures Qualify(LoadAll([p, q]), q.short + ":" + local) == p.long + ":" + local
  {
    var uri := q.short + ":" + local;
    SplitAfter(p.short, c, ":", local, p.long);
    QualifyShort([p, q], 0, uri);
  }

  /** The URI a prefix's short form resolves is expanded with that prefix's long form. */
  lemma QualifyShort(ps: seq<Prefix>, i: nat, uri: string)
    requires i < |ps| && StartsWith(uri, ps[i].short)
    requires forall j :: 0 <= j < i ==> !StartsWith(uri, ps[j].short) && !StartsWith(uri, ps[j].long)
    requires forall j :: i < j < |ps| ==> !HasForm(ps[j], ps[i].short)
    ensures Qualify(LoadAll(ps), uri) == ps[i].long + Substring(uri, |ps[i].short| + 1)
  {
    ResolveShort(ps, i, uri);
  }

  lemma SplitAfter(s: string, c: char, sep: string, rest: string, long: string)
    ensures StartsWith(s + [c] + sep + rest, s)
    ensures long + Substring(s + [c] + sep + rest, |s| + 1) == long + sep + rest
  {
    var u := s + [c] + sep + rest;
    assert u == s + ([c] + sep + rest);
    assert u[|s| + 1..] == sep + rest;
    assert long + (sep + rest) == long + sep + rest;
  }

  /** Loading prefixes one after another into the empty register is `LoadAll`. */
  lemma {:induction false} LoadSeqEmpty(ps: seq<Prefix>)
    ensures LoadSeq(Empty, ps) == LoadAll(ps)
  {
    if |ps| > 0 {
      LoadSeqEmpty(ps[..|ps| - 1]);
    }
  }

  /** Strings that all parse load as the prefixes they parse to. */
  lemma LoadParsed(texts: seq<string>, ps: seq<Prefix>)
    requires |texts| == |ps|
    requires forall k :: 0 <= k < |texts| ==> ParsePrefix(texts[k]) == Some(ps[k])
    ensures LoadStrings(Empty, texts) == Some(LoadAll(ps))
  {
    var parsed := ParseAll(texts);
    assert parsed.Some?;
    assert parsed.value == ps by {
      forall k | 0 <= k < |ps| ensures parsed.value[k] == ps[k] {
        assert Some(parsed.value[k]) == ParsePrefix(texts[k]);
      }
    }
    LoadSeqEmpty(ps);
  }

  /** Three declarations that parse load as the three prefixes. */
  lemma LoadParsed3(t0: string, t1: string, t2: string, p0: Prefix, p1: Prefix, p2: Prefix)
    requires ParsePrefix(t0) == Some(p0) && ParsePrefix(t1) == Some(p1) && ParsePrefix(t2) == Some(p2)
    ensures LoadStrings(Empty, [t0, t1, t2]) == Some(LoadAll([p0, p1, p2]))
  {
    ParsedEach3(t0, t1, t2, p0, p1, p2);
    LoadParsed([t0, t1, t2], [p0, p1, p2]);
  }

  lemma ParsedEach3(t0: string, t1: string, t2: string, p0: Prefix, p1: Prefix, p2: Prefix)
    requires ParsePrefix(t0) == Some(p0) && ParsePrefix(t1) == Some(p1) && ParsePrefix(t2) == Some(p2)
    ensures forall k :: 0 <= k < 3 ==> ParsePrefix([t0, t1, t2][k]) == Some([p0, p1, p2][k])
  {
    var texts, ps := [t0, t1, t2], [p0, p1, p2];
    forall k | 0 <= k < 3 ensures ParsePrefix(texts[k]) == Some(ps[k]) {
      if k == 0 {
        assert texts[k] == t0 && ps[k] == p0;
      } else if k == 1 {
        assert texts[k] == t1 && ps[k] == p1;
      } else {
        assert texts[k] == t2 && ps[k] == p2;
      }
    }
  }
}
