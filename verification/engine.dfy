/**
 * What the transforms share: the prefix register the base class builds from the configured
 * prefix strings, and the row conditions of the definition-driven transforms.
 */
module Engines {
  import opened Wrappers
  import opened Strings
  import opened Prefixes
  import opened Registers
  import opened Graphs

  /**
   * The base class's `updateConfig`: when the configuration lists prefix strings they are parsed
   * and loaded in order into a new register; one that does not parse throws.
   */
  function ConfigRegister(prefixes: Option<seq<string>>): (r: Result<Register, Error>)
    ensures r.Ok? <==> prefixes.Some? ==> forall k :: 0 <= k < |prefixes.value| ==> ParsePrefix(prefixes.value[k]).Some?
    ensures r.Ok? ==> Registers.Valid(r.value)
    ensures r.Ok? ==> r.value.loaded == if prefixes.Some? then ParseAll(prefixes.value).value else []
  {
    if prefixes.None? then
      assert Registers.Valid(Empty);
      Ok(Empty)
    else
      match LoadStrings(Empty, prefixes.value)
      case None => Err(Crash)
      case Some(reg) =>
        assert Registers.Valid(Empty);
        Ok(reg)
  }

  /**
   * A `condition` object. The empty text stands for an absent or empty `prefix`, `equals` or
   * `variable`, all of which the library treats as false.
   */
  datatype Condition = Condition(prefix: string, equals: string, variable: string)

  /**
   * `passesCondition(def, row)`, where `variable` is `def.variable`. Without a condition the row
   * passes. A `prefix` condition is checked in preference to an `equals` one: it throws when the
   * register does not know the prefix name, and otherwise passes when the value bound to
   * `variable` resolves to the very prefix that name looks up. An `equals` condition passes when
   * the value of its own variable matches `equals` as a URI. Reading an unbound variable throws.
   */
  function PassesCondition(reg: Register, variable: string, cond: Option<Condition>, row: Row): (r: Result<bool, Error>)
    requires Registers.Valid(reg)
    ensures cond.None? ==> r == Ok(true)
    ensures cond.Some? && cond.value.prefix != "" ==>
              && (cond.value.prefix !in reg.lookup <==> r == Err(UndefinedConditionPrefix(cond.value.prefix)))
              && (r.Ok? <==> cond.value.prefix in reg.lookup && variable in row)
              && (r == Ok(true) <==> cond.value.prefix in reg.lookup && variable in row &&
                                     GetPrefix(reg, row[variable]) == Some(reg.lookup[cond.value.prefix]))
    ensures cond.Some? && cond.value.prefix == "" && cond.value.equals != "" ==>
              && (r.Ok? <==> cond.value.variable in row)
              && (r == Ok(true) <==> cond.value.variable in row &&
                                     IsUriMatch(reg, row[cond.value.variable], cond.value.equals))
    ensures cond.Some? && cond.value.prefix == "" && cond.value.equals == "" ==> r == Ok(true)
    ensures r.Err? ==> r == Err(Crash) || r == Err(UndefinedConditionPrefix(cond.value.prefix))
  {
    match cond
    case None => Ok(true)
    case Some(c) =>
      if c.prefix != "" then
        if c.prefix !in reg.lookup then Err(UndefinedConditionPrefix(c.prefix))
        else if variable !in row then Err(Crash)
        else Ok(GetPrefix(reg, row[variable]) == Some(reg.lookup[c.prefix]))
      else if c.equals != "" then
        if c.variable !in row then Err(Crash)
        else Ok(IsUriMatch(reg, row[c.variable], c.equals))
      else Ok(true)
  }

  /** The first probe `uri` starts with, when it starts with any. */
  lemma FirstProbeExists(r: Register, uri: string)
    requires Registers.Valid(r) && GetPrefix(r, uri).Some?
    ensures exists m: nat :: IsFirstProbe(r, uri, m)
  {
    var m := FirstProbe(r.probes, uri, 0);
    assert m.Some?;
    assert IsFirstProbe(r, uri, m.value);
  }

  /** Every key of the lookup is a form of the prefix it looks up. */
  ghost predicate KeysAreForms(r: Register) {
    forall k :: k in r.lookup ==> r.lookup[k] < |r.loaded| && HasForm(r.loaded[r.lookup[k]], k)
  }

  lemma LoadAllKeysAreForms(ps: seq<Prefix>)
    ensures KeysAreForms(LoadAll(ps))
  {
    forall k | k in LoadAll(ps).lookup
      ensures LoadAll(ps).lookup[k] < |ps| && HasForm(ps[LoadAll(ps).lookup[k]], k)
    {
      LoadAllLookup(ps, k);
    }
  }

  /** A URI that resolves to prefix `i` starts with one of that prefix's forms. */
  lemma ResolvedForm(r: Register, uri: string, i: nat)
    requires Registers.Valid(r) && KeysAreForms(r) && GetPrefix(r, uri) == Some(i)
    ensures i < |r.loaded| && (StartsWith(uri, r.loaded[i].short) || StartsWith(uri, r.loaded[i].long))
  {
    FirstProbeExists(r, uri);
    var m: nat :| IsFirstProbe(r, uri, m);
    var k := r.probes[m];
    assert StartsWith(uri, k);
    assert r.lookup[k] == i;
    assert HasForm(r.loaded[i], k);
    if r.loaded[i].short == k {
      assert StartsWith(uri, r.loaded[i].short);
    } else {
      assert StartsWith(uri, r.loaded[i].long);
    }
  }

  /**
   * What a prefix condition means on a register whose keys are forms of what they look up, as
   * every loaded register's are: the name is a form of the prefix it looks up, and a value that
   * passes starts with one of that prefix's forms.
   */
  lemma PrefixConditionSound(reg: Register, name: string, variable: string, row: Row)
    requires Registers.Valid(reg) && KeysAreForms(reg)
    requires name != "" && name in reg.lookup
    ensures var i := reg.lookup[name];
            PassesCondition(reg, variable, Some(Condition(name, "", "")), row) == Ok(true) ==>
              && i < |reg.loaded| && HasForm(reg.loaded[i], name)
              && (StartsWith(row[variable], reg.loaded[i].short) || StartsWith(row[variable], reg.loaded[i].long))
  {
    var i := reg.lookup[name];
    if PassesCondition(reg, variable, Some(Condition(name, "", "")), row) == Ok(true) {
      ResolvedForm(reg, row[variable], i);
    }
  }

  /**
   * And conversely: a value that starts with the short form of the prefix the name denotes, and
   * with no form of an earlier prefix, passes.
   */
  lemma PrefixConditionComplete(ps: seq<Prefix>, i: nat, variable: string, row: Row)
    requires i < |ps| && ps[i].short != "" && variable in row
    requires forall j :: i < j < |ps| ==> !HasForm(ps[j], ps[i].short)
    requires StartsWith(row[variable], ps[i].short)
    requires forall j :: 0 <= j < i ==> !StartsWith(row[variable], ps[j].short) && !StartsWith(row[variable], ps[j].long)
    ensures PassesCondition(LoadAll(ps), variable, Some(Condition(ps[i].short, "", "")), row) == Ok(true)
  {
    LookupOfLast(ps, i, ps[i].short);
    ResolveShort(ps, i, row[variable]);
  }
}
