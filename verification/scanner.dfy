/**
 * parser.js's query scanner: one pass over the characters of a SPARQL query with an explicit
 * stack of modes, collecting the declared prefixes, the triple patterns of the WHERE clause and
 * the VALUES bindings. `None` stands for a scan that throws.
 */
module Scanner {
  import opened Wrappers
  import opened Strings
  import opened Prefixes

  /** A triple term: a token, or the `undefined` a `;` copies from an empty triple. */
  datatype Term = Word(text: string) | Missing

  /**
   * The scanner's variables. `modes` is the stack, its last element the current mode; `triple`
   * is the triple being collected; `values[i]` is the `i`-th VALUES column, a variable followed
   * by its values; `valuesIndex` is the column the next value goes to.
   */
  datatype State = State(modes: seq<string>, token: string, triple: seq<Term>,
                         triples: seq<seq<Term>>, prefixes: seq<Prefix>,
                         values: seq<seq<string>>, valuesIndex: nat)

  /** What the scanner returns. */
  datatype Output = Output(prefixes: seq<Prefix>, triples: seq<seq<Term>>, values: seq<seq<string>>)

  const Initial := State([], "", [], [], [], [], 0)

  /** `isTripleEnd` of a character. */
  predicate IsTripleEnd(c: char) {
    c == ';' || c == '.' || c == '}'
  }

  /** `isTripleEnd` of a whole token: the token is one terminator. */
  predicate IsTripleEndToken(t: string) {
    |t| == 1 && IsTripleEnd(t[0])
  }

  /** The current mode; the empty text also stands for "no mode", as both are falsy. */
  function Top(modes: seq<string>): string {
    if |modes| == 0 then "" else modes[|modes| - 1]
  }

  /** `modes.pop()`, which does nothing on an empty stack. */
  function Pop(modes: seq<string>): (r: seq<string>)
    ensures |modes| > 0 ==> r + [Top(modes)] == modes
    ensures |modes| == 0 ==> r == []
  {
    if |modes| == 0 then [] else modes[..|modes| - 1]
  }

  /** The modes the three triple-collecting handlers serve. */
  predicate IsTripleMode(mode: string) {
    mode == "where" || mode == "union" || mode == "optional"
  }

  /** The keywords that, inside a triple mode, open a new mode instead of becoming a term. */
  predicate IsSubClause(word: string) {
    word == "union" || word == "optional" || word == "values"
  }

  /**
   * `flushTriple`: a complete triple (exactly three terms) is emitted; the next triple starts
   * with the old subject after `;` and empty otherwise.
   */
  function Flush(st: State, end: char): (st': State)
    ensures st'.triples == if |st.triple| == 3 then st.triples + [st.triple] else st.triples
    ensures end == ';' ==> st'.triple == [if |st.triple| > 0 then st.triple[0] else Missing]
    ensures end != ';' ==> st'.triple == []
    ensures st'.modes == st.modes && st'.token == st.token && st'.prefixes == st.prefixes
    ensures st'.values == st.values && st'.valuesIndex == st.valuesIndex
  {
    var triples := if |st.triple| == 3 then st.triples + [st.triple] else st.triples;
    var next := if end == ';' then [if |st.triple| > 0 then st.triple[0] else Missing] else [];
    st.(triples := triples, triple := next)
  }

  /**
   * `tripleProcessMode`, the handler of the where, union and optional modes. It emits at most
   * one triple, and only a complete one, and collects nothing else.
   */
  function TripleStep(st: State, c: char): (st': State)
    ensures st'.triples == st.triples ||
            (st.triples <= st'.triples && |st'.triples| == |st.triples| + 1 && |st'.triples[|st.triples|]| == 3)
    ensures st'.prefixes == st.prefixes && st'.values == st.values
  {
    if c == '}' then
      Flush(st.(modes := Pop(st.modes), token := ""), c)
    else if IsWhitespace(c) then
      if |st.token| == 0 then st
      else
        var last := st.token[|st.token| - 1];
        if IsTripleEnd(last) then
          var rest := st.token[..|st.token| - 1];
          var triple := if |rest| > 0 then st.triple + [Word(rest)] else st.triple;
          Flush(st.(triple := triple, token := ""), last)
        else if IsSubClause(ToLower(st.token)) then
          st.(modes := st.modes + [ToLower(st.token)], token := "")
        else
          st.(triple := st.triple + [Word(st.token)], token := "")
    else if IsTripleEndToken(st.token) then
      Flush(st.(token := ""), st.token[0])
    else if c != '{' then
      st.(token := st.token + [c])
    else
      st
  }

  /**
   * The keyword handler: word characters extend the keyword, whitespace makes it the new mode,
   * and anything else throws. It collects nothing.
   */
  function TokenStep(st: State, c: char): (r: Option<State>)
    ensures r.None? <==> !IsWord(c) && !IsWhitespace(c)
    ensures r.Some? ==> Collects(st, r.value, st.prefixes, st.triples, st.values)
  {
    if IsWord(c) then Some(st.(token := st.token + [c]))
    else if IsWhitespace(c) then Some(st.(modes := st.modes + [ToLower(st.token)], token := ""))
    else None
  }

  /**
   * The prefix handler: everything up to and including `>` is one declaration. It throws only
   * when a declaration does not parse, and a declared prefix keeps the text it was read from.
   */
  function PrefixStep(st: State, c: char): (r: Option<State>)
    ensures r.None? <==> c == '>' && ParsePrefix(st.token + [c]).None?
    ensures c != '>' ==> r.Some? && Collects(st, r.value, st.prefixes, st.triples, st.values)
    ensures c == '>' && r.Some? ==>
              && Collects(st, r.value, r.value.prefixes, st.triples, st.values)
              && |r.value.prefixes| == |st.prefixes| + 1 && st.prefixes <= r.value.prefixes
              && ToString(r.value.prefixes[|st.prefixes|]) == st.token + [c]
  {
    var text := st.token + [c];
    if c != '>' then Some(st.(token := text))
    else
      match ParsePrefix(text)
      case None => None
      case Some(p) => Some(st.(modes := Pop(st.modes), prefixes := st.prefixes + [p], token := ""))
  }

  /**
   * The select handler: once the token reads `where` (any case) the mode becomes `where` and the
   * character at hand is dropped; the projected variables are not collected.
   */
  function SelectStep(st: State, c: char): (st': State)
    ensures Collects(st, st', st.prefixes, st.triples, st.values)
    ensures st'.modes != st.modes ==> ToLower(st.token) == "where" && Top(st'.modes) == "where"
  {
    if ToLower(st.token) == "where" then st.(modes := Pop(st.modes) + ["where"], token := "")
    else if IsWhitespace(c) then st.(token := "")
    else st.(token := st.token + [c])
  }

  /**
   * The values handler: the variables of a VALUES clause. It opens at most one column, which
   * holds just the variable read, and collects nothing else.
   */
  function ValuesStep(st: State, c: char): (st': State)
    ensures Collects(st, st', st.prefixes, st.triples, st'.values)
    ensures st.values <= st'.values && |st'.values| <= |st.values| + 1
    ensures |st'.values| == |st.values| + 1 ==> st'.values[|st.values|] == [st.token]
  {
    if IsWhitespace(c) then st.(values := st.values + [[st.token]], token := "")
    else if c == '{' then
      var st1 := if |st.token| > 1 then st.(values := st.values + [[st.token]], token := "") else st;
      st1.(modes := st1.modes + ["valuesvalues"])
    else if c != ')' && c != '(' then st.(token := st.token + [c])
    else st
  }

  /** `values[i].push(t)`, which throws when there is no column `i`. */
  function PushValue(values: seq<seq<string>>, i: nat, t: string): (r: Option<seq<seq<string>>>)
    ensures r.Some? <==> i < |values|
    ensures r.Some? ==> |r.value| == |values| && r.value[i] == values[i] + [t] &&
                        forall j :: 0 <= j < |values| && j != i ==> r.value[j] == values[j]
  {
    if i < |values| then Some(values[i := values[i] + [t]]) else None
  }

  /**
   * When the valuesvalues handler throws: `}` after a pending value longer than one character
   * with no column at all, or whitespace or `)` after a value other than `undef` with no column
   * at the current index.
   */
  predicate PushFails(st: State, c: char) {
    || (c == '}' && |st.token| > 1 && |st.values| == 0)
    || ((IsWhitespace(c) || c == ')') && |st.token| > 0 && ToLower(st.token) != "undef" && st.valuesIndex >= |st.values|)
  }

  /** A value token is recorded unless it reads `undef` in any case. */
  function Record(st: State): Option<State> {
    if ToLower(st.token) == "undef" then Some(st)
    else
      var vs :- PushValue(st.values, st.valuesIndex, st.token);
      Some(st.(values := vs))
  }

  /**
   * The valuesvalues handler: the bound values of a VALUES clause. After a `}` the handler
   * carries on to its last branch, so the `}` becomes the token.
   */
  function ValuesValuesStep(st: State, c: char): (r: Option<State>)
    ensures r.None? <==> PushFails(st, c)
    ensures r.Some? ==> Collects(st, r.value, st.prefixes, st.triples, r.value.values)
    ensures r.Some? ==> |r.value.values| == |st.values| &&
                        forall j :: 0 <= j < |st.values| ==> st.values[j] <= r.value.values[j]
  {
    if c == '}' then
      var vs :- if |st.token| > 1 then PushValue(st.values, 0, st.token) else Some(st.values);
      Some(st.(values := vs, modes := Pop(Pop(st.modes)), token := "}"))
    else if IsWhitespace(c) then
      if |st.token| > 0 then
        var st1 :- Record(st);
        var index := if |st1.values| > 1 then st1.valuesIndex + 1 else st1.valuesIndex;
        Some(st1.(valuesIndex := index, token := ""))
      else Some(st.(token := ""))
    else if c == '(' then Some(st.(valuesIndex := 0))
    else if c == ')' then
      if |st.token| > 0 then
        var st1 :- Record(st);
        Some(st1.(token := "", valuesIndex := 0))
      else Some(st.(valuesIndex := 0))
    else Some(st.(token := st.token + [c]))
  }

  /**
   * The outputs of `st'` are the given ones, and its triple is the one of `st`: what a handler
   * that collects nothing, or only the named outputs, leaves behind.
   */
  predicate Collects(st: State, st': State, prefixes: seq<Prefix>, triples: seq<seq<Term>>, values: seq<seq<string>>) {
    st'.prefixes == prefixes && st'.triples == triples && st'.values == values && st'.triple == st.triple
  }

  /** The modes that have a handler. */
  predicate HasHandler(mode: string) {
    mode == "comment" || mode == "token" || mode == "prefix" || mode == "select" ||
    IsTripleMode(mode) || mode == "values" || mode == "valuesvalues"
  }

  /**
   * One character. With no mode, `#` opens a comment and a word character starts a keyword.
   * The comment handler refers to an undefined variable, so any character in comment mode
   * throws; a `__proto__` mode looks up a non-function and throws too; any other mode without
   * a handler ignores the character.
   */
  function Step(st: State, c: char): Option<State> {
    var mode := Top(st.modes);
    if mode == "" then
      if c == '#' then Some(st.(modes := st.modes + ["comment"]))
      else if IsWord(c) then Some(st.(token := [c], modes := st.modes + ["token"]))
      else Some(st)
    else if mode == "comment" then None
    else if mode == "token" then TokenStep(st, c)
    else if mode == "prefix" then PrefixStep(st, c)
    else if mode == "select" then Some(SelectStep(st, c))
    else if IsTripleMode(mode) then Some(TripleStep(st, c))
    else if mode == "values" then Some(ValuesStep(st, c))
    else if mode == "valuesvalues" then ValuesValuesStep(st, c)
    else if mode == "__proto__" then None
    else Some(st)
  }

  /**
   * When one character throws: in comment mode and in a `__proto__` mode always, in keyword
   * mode on a character that is neither a word character nor whitespace, at the `>` of a
   * declaration that does not parse, and on a value pushed to a missing column.
   */
  predicate Throws(st: State, c: char) {
    var mode := Top(st.modes);
    || mode == "comment" || mode == "__proto__"
    || (mode == "token" && !IsWord(c) && !IsWhitespace(c))
    || (mode == "prefix" && c == '>' && ParsePrefix(st.token + [c]).None?)
    || (mode == "valuesvalues" && PushFails(st, c))
  }

  /** The scan of `s` from `st`, one character at a time. */
  function Run(st: State, s: string): Option<State>
    decreases |s|
  {
    if |s| == 0 then Some(st)
    else
      match Step(st, s[0])
      case None => None
      case Some(st') => Run(st', s[1..])
  }

  /** `parser(queryString)`. */
  function Parse(query: string): Option<Output> {
    match Run(Initial, query)
    case None => None
    case Some(st) => Some(Output(st.prefixes, st.triples, st.values))
  }
}
