# mrsparql in Dafny

A model of the logic of mrsparql, a small JavaScript library that turns the JSON response of a
SPARQL query into a graph of nodes and edges. The model is functional: immutable datatypes, pure
functions, `Result`/`Option` for the places where the library throws, and lemmas that state what
the code promises. It covers four pieces.

- **Prefixes and the prefix register** (`prefix.dfy`, `register.dfy`). A `Prefix` is parsed from
  a declaration such as `cmno: <http://…#>` into a short form and a long form. The
  `PrefixRegister` keeps the forms in registration order (the probes) and a lookup from each form
  to the prefix. The prefix is identified by its load position, because the library compares
  prefix objects by identity. On top of that come `getPrefix` (first match, not longest match),
  `qualify`, `isUriMatch` and `isPrefixMatch`.
- **The query scanner** (`scanner.dfy`). The ad-hoc SPARQL scanner is a fold over the characters
  of the query. Its state holds the mode stack, the current token, the triple being collected and
  the outputs: declared prefixes, three-term triple patterns and VALUES columns.
- **The edge manager** (`edges.dfy`). It assigns each edge an id under the `allow`,
  `unidirectional` or `bidirectional` bundling strategy, keeps a counter per id, and stores edges
  by id in first-insertion order.
- **The row-to-graph transforms** (`graph.dfy`, `engine.dfy`, `simple.dfy`, `verbose.dfy`,
  `early.dfy`). Each row of a response is a map from variable to bound value.
  - The simple engine resolves the scanned triples against each row. Each resolved triple becomes
    either a relationship (two nodes and an edge) or a property written onto a node.
  - The verbose engine builds nodes and edges from explicit definitions, guarded by conditions.
  - The early version of the verbose engine (`src/index.js`) builds nodes only, and keeps its node
    map from one call to the next.

Facts and examples sit in the `*_facts.dfy` and `*_examples.dfy` files. `strings.dfy` holds the
ASCII character classes and the string helpers: trim, split, join, decimal rendering and
counting. `wrappers.dfy` holds `Option` and `Result`.

The edge manager follows `dist/mrsparql.js`, the complete three-strategy version. In
`src/edge-manager.js` the non-unidirectional path of `nextId` is the same as the bidirectional
branch of the dist version. Its unidirectional branch reads an undeclared variable and is not
modelled.

## Model

| member | source | states |
|---|---|---|
| Strings.Trim | src/prefix.js:112 | the result is a slice of the input with only space characters before and after it, and it neither starts nor ends with a space; a text already trimmed comes back unchanged |
| Strings.TrimUnique | src/prefix.js:112 | any slice with only space around it and no space at either end is the trimmed text, so those two facts fix `trim` completely |
| Strings.StripAngles | src/prefix.js:114 | the result holds no `<` or `>`, is no longer than the input, and a text without angle brackets comes back unchanged |
| Strings.StripAnglesAppend | src/prefix.js:114 | removing angle brackets distributes over concatenation |
| Strings.JoinSplit | src/edge-manager.js:35-40 | joining the `-`-separated parts of an id gives the id back |
| Strings.SplitJoin | src/edge-manager.js:35-40 | splitting a join of dash-free parts gives the parts back |
| Strings.NatToStringInjective | dist/mrsparql.js:209-213 | different counter values render as different decimal texts |
| Strings.CountAppend | dist/mrsparql.js:195-214 | appending one id adds one occurrence of that id and of no other |
| Prefixes.ParsePrefix | src/prefix.js:102-122 | a declaration parses exactly when the expression `label : rest` matches somewhere in the trimmed text; a parse keeps the original text for `toString`, has a non-empty label as `short`, and a `long` without angle brackets |
| Prefixes.ParsePrefixShape | src/prefix.js:102-122 | `short` is the whole label before the first usable colon of the trimmed text, and `long` is the rest of that line after the colon and its spaces, with the angle brackets removed |
| Prefixes.MatchMeansUsableColon | src/prefix.js:104-112 | a match has a label run, spaces, a colon, spaces and a non-empty rest |
| Prefixes.NoMatchMeansNoUsableColon | src/prefix.js:112-114 | with no colon preceded by a label and followed by text, parsing fails, as `matches` is null |
| Prefixes.MatchDeclaration | src/prefix.js:104 | `short`, spaces, `:`, spaces and a line match with `short` and that line as the two groups |
| Prefixes.ParseDeclaration | src/prefix.js:111-116 | a declaration after leading blanks parses to its label and to its namespace without angle brackets |
| Prefixes.ParsePlain | src/prefix.js:111-116 | `label: url` on a plain URL parses to that label and that URL |
| Prefixes.ParseClassicalMusicNav | test/prefix.test.js:9-14 | `cmno: http://purl.org/ontology/classicalmusicnav#` parses to short `cmno` and the URL as its long form |
| Registers.Load | src/prefix.js:18-22 | both forms look up the new prefix; the short form and then the long form are appended to the probes; every other lookup entry is unchanged |
| Registers.LoadAllLookup | src/prefix.js:18-22 | after loading a list, a form looks up the last prefix loaded with that form, and only loaded forms are keys |
| Registers.LoadAllProbes | src/prefix.js:21 | the probes are each prefix's short form followed by its long form, in load order |
| Registers.LoadStrings | src/prefix.js:27-32 | the strings are parsed and loaded in order; the load fails exactly when some string does not parse |
| Registers.LoadParsed | src/prefix.js:27-32 | strings that parse load as the prefixes they parse to |
| Registers.GetPrefix | src/prefix.js:38-55 | the result is the prefix looked up by the first probe in registration order that the URI starts with, and none when no probe matches |
| Registers.SweepSpec | src/prefix.js:40-53 | the probe loop leaves exactly the unresolved URIs pending and records, probe by probe, the prefix of each resolved one |
| Registers.GetPrefixes | src/prefix.js:38-55 | the loop of several URIs ends with the prefixes found, and diverges exactly when as many prefixes were found as URIs remain once the probes run out |
| Registers.GetPrefixesSingle | src/prefix.js:38-55 | for a single URI the loop ends and agrees with `GetPrefix` |
| Registers.GetPrefixesPair | src/prefix.js:38-55 | for two URIs the loop ends exactly when both resolve or neither does |
| Registers.PairFound | src/prefix.js:74-77 | when two URIs both resolve, the first two prefixes found agree exactly when the URIs' prefixes agree |
| Registers.IsPrefixMatch | src/prefix.js:74-77 | two URIs prefix-match exactly when they resolve to the same registered prefix, or when neither resolves |
| Registers.QualifyUnresolved | src/prefix.js:61-67 | a URI that no probe matches is returned unchanged |
| Registers.QualifyShort | src/prefix.js:38-67 | after loading a list, a URI in a prefix's short form, in no form of an earlier prefix, and whose short form no later prefix took over, has that form and the character after it replaced by the long form |
| Registers.QualifyShortForm | src/prefix.js:61-67 | `short:local` qualifies to the long form followed by `local` |
| Registers.QualifyLongForm | src/prefix.js:61-67 | a URI in long form qualifies to itself |
| Registers.ResolveShort | src/prefix.js:38-55 | a URI in a prefix's short form, and in no form of an earlier prefix, resolves to that prefix unless a later prefix took over that form |
| Registers.ResolveLong | src/prefix.js:38-55 | the same for a URI in a prefix's long form and not in its short form |
| Registers.FirstMatchNotLongest | src/prefix.js:40-53 | when an earlier prefix's short form is a proper prefix of a later one's, a URI in the later short form is expanded with the earlier long form |
| Registers.Qualify | src/prefix.js:61-67 | only a URI that starts with the short form of the prefix it resolves to is changed, and the result then starts with that prefix's long form |
| Registers.IsUriMatch | src/prefix.js:84-89 | two URIs match exactly when they qualify to the same text, so the test for equal text first changes no answer |
| Registers.UriMatchEquivalence | src/prefix.js:84-89 | URI matching is reflexive, symmetric and transitive |
| RegisterExamples.LoadTestStrings | test/prefix.test.js:3-7 | the three test declarations load as `cmno`, `cmn` and `foaf` with their namespaces |
| RegisterExamples.FoafNameUriMatch | test/prefix.test.js:16-23 | `foaf:name` matches the expanded foaf name, and does not match another foaf name |
| RegisterExamples.ResolveExamples | test/prefix.test.js:25-36 | `foaf:name` and long-form foaf URIs resolve to foaf, and `cmn:name` resolves to `cmn` |
| RegisterExamples.PrefixMatchExamples | test/prefix.test.js:25-36 | both forms of foaf URIs prefix-match each other, and `cmn:name` does not prefix-match a foaf URI |
| Scanner.Flush | src/parser.js:60-69 | only a triple of exactly three terms is emitted, appended at the end; after `;` the next triple holds the old subject, and otherwise it is empty |
| Scanner.PushValue | src/parser.js:185 | the value is appended to column `i` and every other column is unchanged; with no column `i` the push fails |
| Scanner.TripleStep | src/parser.js:71-112 | in a triple mode a character emits no triple or one triple of exactly three terms at the end, and never touches the prefixes or the VALUES columns |
| Scanner.TokenStep | src/parser.js:120-131 | keyword mode throws exactly on a character that is neither a word character nor whitespace, and otherwise emits nothing |
| Scanner.PrefixStep | src/parser.js:132-139 | prefix mode throws exactly at a `>` whose declaration does not parse; before the `>` it emits nothing; at the `>` it appends one prefix whose text is the whole declaration |
| Scanner.SelectStep | src/parser.js:140-156 | select mode emits nothing, and changes the modes only when the token reads `where` in any case, leaving `where` on top |
| Scanner.ValuesStep | src/parser.js:159-172 | values mode leaves the prefixes, triples and the triple being built alone, and adds at most one column, whose only entry is the pending token |
| Scanner.ValuesValuesStep | src/parser.js:173-205 | the bound values throw exactly when a value is pushed to a missing column; otherwise the column count stays and each column only grows at its end |
| ScannerFacts.StepOutputs | src/parser.js:60-69 | one character emits at most one triple, and only a complete one, and never removes a prefix or a value |
| ScannerFacts.StepFails | src/parser.js:209-224 | one character throws exactly in comment mode, in a `__proto__` mode, in keyword mode on a non-word non-whitespace character, at the `>` of a declaration that does not parse, and on a value pushed to a missing column |
| ScannerFacts.RunFails | src/parser.js:209-226 | a scan fails exactly when some start of the text scans to a state that throws on the next character |
| ScannerFacts.RunOutputs | src/parser.js:209-226 | a scan only appends: to the triples, each of three terms, to the prefixes, and to the VALUES columns |
| ScannerFacts.ParseTriplesComplete | src/parser.js:227-231 | every triple the scanner returns has exactly three terms |
| ScannerFacts.ParseKeepsPrefixes | src/parser.js:132-139 | the prefixes declared by a start of the query are the first prefixes of the whole parse, in order |
| ScannerFacts.RunAppend | src/parser.js:209-226 | scanning `a + b` is scanning `a` and then `b` from where `a` left off |
| ScannerFacts.SkipBlank | src/parser.js:212-219 | with no mode, characters that are neither word characters nor `#` are skipped |
| ScannerFacts.HashFails | src/parser.js:214-215 | outside any mode, `#` followed by any character makes the scan fail |
| ScannerFacts.CommentFails | src/parser.js:115-119 | in comment mode the scan fails on the first character |
| ScannerFacts.KeywordRule | src/parser.js:120-131 | in keyword mode a word character extends the keyword, whitespace pushes the lower-cased keyword as a mode, and any other character fails |
| ScannerFacts.ScanKeyword | src/parser.js:120-131 | a keyword and whitespace outside any mode leave keyword mode with the lower-cased keyword above it |
| ScannerFacts.AbsorbRest | src/parser.js:221-224 | a mode with no handler, such as `limit`, stays on the stack and the rest of the query produces nothing |
| ScannerFacts.ScanPrefixText | src/parser.js:132-134 | prefix mode keeps every character up to a `>` |
| ScannerFacts.ScanPrefixBody | src/parser.js:132-139 | a declaration body up to its first `>` appends one prefix parsed from the whole body, leaves prefix mode, and fails when the body does not parse |
| ScannerFacts.ScanDeclarationLine | src/parser.js:120-139 | a `PREFIX` line appends its parsed prefix and returns the scanner to no mode |
| ScannerFacts.CloseBraceRule | src/parser.js:72-75 | `}` in a triple mode pops exactly one mode, clears the token and flushes the triple |
| ScannerFacts.OpenBraceRule | src/parser.js:108-110 | `{` in a triple mode is never added to the token |
| ScannerFacts.LoneTerminatorRule | src/parser.js:104-107 | a character other than whitespace or `}` after a lone terminator flushes the triple and is dropped |
| ScannerFacts.TerminatedTokenRule | src/parser.js:82-90 | whitespace after a token ending in `.` or `;` drops the terminator, adds any non-empty rest as a term, then flushes |
| ScannerFacts.PlainTokenRule | src/parser.js:91-102 | whitespace after any other token adds it as a term, except that a sub-clause keyword opens its mode instead |
| ScannerFacts.SubClauseKeyword | src/parser.js:91-98 | `union`, `optional` and `values` in any case push their mode and never become a term |
| ScannerFacts.ScanTermList | src/parser.js:77-110 | whitespace-separated plain terms join the current triple in order |
| ScannerFacts.ScanPattern | src/parser.js:60-110 | a pattern of plain terms and a `.` or `;` is emitted when it has three terms and dropped otherwise; after `;` the next triple starts with its subject |
| ScannerFacts.UndefSkipped | src/parser.js:182-191 | a value reading `undef` in any case is not recorded when whitespace or `)` ends it |
| ScannerFacts.CloseValuesRecords | src/parser.js:174-177 | `}` appends a pending value longer than one character to the first column, `undef` included, and fails only when there is no column |
| ScannerFacts.UndefAtClose | src/parser.js:174-177 | `undef` right before `}` is recorded, unlike before whitespace or `)` |
| ScannerFacts.ValueRecorded | src/parser.js:182-191 | any other value is appended to the current column, and a missing column fails the scan |
| ScannerFacts.ParenResetsIndex | src/parser.js:192-201 | `(` and `)` reset the column index to 0 |
| ScannerFacts.CloseValuesRule | src/parser.js:174-181 | `}` pops both the valuesvalues and the values modes, and only the first column can receive the pending value |
| ScannerExamples.TestQueryPrefixes | test/parser.test.js:24-30 | if a query that opens with the test's two declarations scans at all, whatever follows them, its first prefixes are `cmn` and then `foaf`, with their namespaces as long forms |
| ScannerQuery.TestQueryParse | test/parser.test.js:6-29 | the test's query scans, and gives the prefixes `cmn` and `foaf` with their namespaces, the triples `?s ?p ?o` and `?o foaf:name ?otherName`, and the VALUES column `?s` with `cmn:ADAM1`, `cmn:ADAM2` and `cmn:ALAI`; `LIMIT 100` adds nothing |
| Edges.UpdateSettings | src/edge-manager.js:19-29 | with no settings the strategy is bidirectional with counting; given settings replace the default as a whole |
| Edges.StrategyOf | dist/mrsparql.js:199-213 | `unidirectional` and `bidirectional` select those strategies, and any other type selects `allow` |
| Edges.NewManager | dist/mrsparql.js:140-144 | a new manager has no edges, no order and no counters |
| Edges.ReverseIdSegments | dist/mrsparql.js:165-170 | the `-`-separated segments of a reversed id are those of the id, in reverse order |
| Edges.ReverseIdInvolution | dist/mrsparql.js:165-170 | reversing an id twice gives it back |
| Edges.ReversePair | dist/mrsparql.js:165-170 | `a-b` reverses to `b-a` |
| Edges.GetEdge | dist/mrsparql.js:182-189 | exact lookup, falling back to the reversed id only under `unidirectional` |
| Edges.TaggedInjective | dist/mrsparql.js:209-213 | an `allow` id `id-n` determines both `id` and `n` |
| Edges.NextId | dist/mrsparql.js:195-214 | exactly one counter grows by one; `bidirectional` keeps the id; `unidirectional` takes the id if counted, else its reverse if counted, else the id; `allow` returns the id tagged with its new count |
| Edges.AddEdge | dist/mrsparql.js:219-226 | the edge is stored under `nextId`'s result with its id rewritten and, when counting, `_count` set to that id's counter or 1; a replaced id keeps its place in the order; nothing else changes |
| Edges.GetEdges | dist/mrsparql.js:227-229 | the stored edges, one per id, in the order their ids were first stored |
| Edges.ReplaceKeepsOrder | dist/mrsparql.js:225-228 | storing under a known id keeps every edge's position |
| EdgeFacts.DefaultIsBidirectional | src/edge-manager.js:19-29 | a manager built without settings bundles bidirectionally, counts, and stores every added id as it is |
| EdgeFacts.BidirectionalKeepsDirections | dist/mrsparql.js:205-208 | under `bidirectional` every added id is stored as it is, `a-b` apart from `b-a`, and its counter and `_count` are the number of times it was added |
| EdgeFacts.UnidirectionalBundles | dist/mrsparql.js:199-204 | under `unidirectional` no edge is stored in both directions, every added id is stored in one direction, and a stored edge's counter counts the additions in both directions |
| EdgeFacts.AllowKeepsEvery | dist/mrsparql.js:209-213 | under `allow` every addition is stored as a separate edge, and each counter counts the additions of its base id |
| EdgeFacts.AllowCountsOne | dist/mrsparql.js:219-224 | under `allow` with counting, every stored edge has `_count` 1 when no added id spells another added id tagged with a number |
| EdgeFacts.AllowNextId | dist/mrsparql.js:209-213 | under `allow`, `nextId` tags an id with one more than the number of times it was added |
| EdgeFacts.AllowNextExample | test/edge-manager.test.js:26-35 | after `1-2, 2-1, 3-1` the next ids are `1-2-2`, `2-1-2` and `newId-1` |
| EdgeFacts.UnidirectionalNextExample | test/edge-manager.test.js:12-24 | after `1-2, 2-1, 3-1`, `nextId` gives `1-2` for both `1-2` and `2-1`, and `newId` for `newId` |
| EdgeFacts.UnidirectionalExample | test/edge-manager.test.js:57-60 | adding `1-2, 1-2, 2-1, 3-1` stores two edges under `unidirectional` |
| EdgeFacts.BidirectionalExample | test/edge-manager.test.js:61-64 | the same additions store three edges under `bidirectional` |
| EdgeFacts.AllowExample | test/edge-manager.test.js:65-68 | the same additions store four edges under `allow` |
| EdgeFacts.AllowExampleCounts | dist/mrsparql.js:219-224 | in that example every edge under `allow` has `_count` 1 |
| Graphs.NewGraph | dist/mrsparql.js:504-506 | a transform starts with no nodes and a manager with default settings |
| Graphs.SetNode | src/index.js:63-68 | a node replaces whatever was stored under its key; a new key goes to the end of the order and a known one keeps its place |
| Graphs.Nodes | dist/mrsparql.js:508-511 | the nodes in the order their keys were first stored |
| Graphs.ToJson | dist/mrsparql.js:508-511 | the nodes in the order their keys were first stored, and every stored edge exactly once with nothing else |
| Engines.ConfigRegister | dist/mrsparql.js:492-499 | the configured prefix strings are loaded in order, and configuring fails exactly when one does not parse |
| Engines.PassesCondition | dist/mrsparql.js:727-752 | no condition passes; a `prefix` condition is checked first and throws for an unknown name; an `equals` condition passes exactly when its variable's value is a URI match; reading an unbound variable throws |
| Engines.PrefixConditionSound | src/index.js:35-46 | a passing prefix condition means the value starts with a form of the prefix that the name looks up |
| Engines.PrefixConditionComplete | src/index.js:35-46 | a value in the named prefix's short form, and in no form of an earlier prefix, passes |
| Simple.ResolvePart | dist/mrsparql.js:563-575 | a `?` term takes the value the row binds, and a literal keeps its own text |
| Simple.ProcessTriple | dist/mrsparql.js:556-595 | a triple is kept exactly when every variable position is bound, and a missing term throws |
| Simple.GetProcessedTriples | dist/mrsparql.js:556-595 | it throws exactly when some scanned triple has a missing term, and every triple it keeps has all three positions bound |
| SimpleFacts.ProcessedSingle | dist/mrsparql.js:556-595 | one scanned triple yields no triple or exactly its resolution |
| SimpleFacts.ProcessTripleError | dist/mrsparql.js:556-595 | a missing term is the only reason resolution throws |
| SimpleFacts.ProcessedAppend | dist/mrsparql.js:556-595 | resolving `a + b` yields the triples of `a` followed by those of `b`, so survivors keep scan order |
| SimpleFacts.ErrIsCrash | dist/mrsparql.js:556-595 | resolution only ever fails with a crash |
| Simple.FindRelationship | dist/mrsparql.js:602-616 | a triple is a relationship exactly when subject and object variables are configured node names and some edge configuration's match is a URI match of the predicate; the first such configuration wins, and its `variable` is not read |
| Simple.Field | dist/mrsparql.js:659 | `subject`, `predicate` and `object` give the value of that term of the triple, and any other name throws |
| Simple.FirstRule | dist/mrsparql.js:653-667 | the result is the first rule that applies, after none before it applied; it throws at the first rule naming an unknown field; none means no rule applies |
| Simple.Property | dist/mrsparql.js:648-675 | a property triple writes the object value under the first applying rule's key, or else under the predicate value in `properties`, on the subject's node; the `properties` field and object are one slot, so a rule named `properties` replaces the object, an empty text there gives way to a new object, and a non-empty text makes an unclaimed property throw; every node keeps one slot |
| SimpleFacts.EndpointNodes | dist/mrsparql.js:627-639 | a relationship end stores its node, leaves stored nodes untouched, and creates a missing one from its group with `id` and `group`, at the end of the order |
| SimpleFacts.RelationshipNodes | dist/mrsparql.js:626-647 | a relationship stores both end nodes, leaves every node it finds untouched, and adds the edge `subject-object` |
| SimpleFacts.RelationshipFails | dist/mrsparql.js:626-647 | a relationship throws exactly when a node it has to create belongs to an unconfigured group |
| SimpleFacts.RelationshipEdgeStored | dist/mrsparql.js:640-647 | with the default strategy the edge is stored under `subject-object`, carries `from` and `to`, and counts the times that id was added |
| SimpleFacts.PropertyStores | dist/mrsparql.js:648-675 | where a property triple stores the object value on the subject's node |
| SimpleFacts.LaterPropertyWins | dist/mrsparql.js:648-674 | after a first property triple, a second unclaimed one with the same subject and predicate stores its value in `properties`; it throws exactly when the first left a non-empty text in that slot, which an unclaimed first triple never does |
| SimpleFacts.PropertyTouchesSubject | dist/mrsparql.js:648-675 | a property triple only ever changes its subject's node |
| Simple.Relationship | dist/mrsparql.js:626-647 | both end values become node keys, no node key is lost, and the edge `subject-object` is added to the manager; a well-formed graph stays well formed, and new nodes have no `properties` object, so every node keeps one `properties` slot |
| Simple.Item | dist/mrsparql.js:624-676 | one triple only adds nodes and edges, and a triple that resolves to a relationship ends with both end values as node keys and, under the bidirectional strategy, the edge `subject-object` stored |
| Simple.Items | dist/mrsparql.js:624-676 | after the triples of a row, every one that resolves to a relationship is in the graph in that sense, and nothing was removed |
| Simple.GetItems | dist/mrsparql.js:621-677 | a row fails only when resolving its triples or processing one of them fails; otherwise every relationship the row resolves to is in the graph |
| Simple.ProcessRows | dist/mrsparql.js:546-550 | the rows only add node keys and edge ids, under the same settings, and on success every row's triples resolve; every node keeps one `properties` slot, a text or an object |
| SimpleFacts.ProcessRowsRelationships | dist/mrsparql.js:546-550 | after all rows, every relationship of every row is in the graph: both end values are node keys and, under the bidirectional strategy, its edge is stored |
| Simple.NewEngine | dist/mrsparql.js:525-541 | the configured prefixes are loaded and then the query's declared prefixes; a bad prefix string or a failed scan throws |
| Simple.Transform | dist/mrsparql.js:504-513 | every call starts from no nodes and a default manager, unlike the early engine, and fails exactly when processing the rows fails; no returned node has both a `properties` text and a `properties` object |
| SimpleFacts.TransformRelationships | dist/mrsparql.js:504-513 | for each triple of each row that resolves to a relationship, the returned edges include one with the id `subject-object` |
| Verbose.GetProperties | dist/mrsparql.js:758-775 | the keys are the names of the definitions that contribute; each key holds the value of the last definition of that name that contributes; it throws exactly when some definition's condition throws |
| Verbose.NodeStep | dist/mrsparql.js:780-800 | a node definition is skipped when its variable is unbound or its condition fails; it throws exactly when its condition throws, or it passes and the group is missing or a property condition throws; an accepted one upserts the node under the bound value with `id` and `group` set last; no other node changes |
| Verbose.GetNodes | dist/mrsparql.js:780-800 | it throws exactly when some definition throws; every accepting definition's bound value becomes a node key; no node is removed, every new key is a value the row binds, and the edges are untouched |
| Verbose.DefinedEdge | dist/mrsparql.js:810-820 | the edge carries `from`, `to` and the id `from-to`, each replaced by a property of the same name when one is collected |
| Verbose.EdgeStep | dist/mrsparql.js:805-825 | an edge definition is skipped unless both ends are bound and its condition passes; an accepted one adds the edge built from its collected properties; nodes never change |
| Verbose.DefinedEdges | dist/mrsparql.js:805-825 | the edges of exactly the definitions that accept the row and whose properties collect, at most one per definition |
| Verbose.GetEdges | dist/mrsparql.js:805-825 | it throws exactly when some definition throws; otherwise the manager ends as the defined edges added in order, and the nodes never change |
| VerboseFacts.NodeFields | dist/mrsparql.js:785-797 | the fields of an upserted node: `id` and `group` last, then the definition's properties, then the group's, then what the node already had |
| VerboseFacts.EdgeStepFails | dist/mrsparql.js:805-825 | an edge definition throws exactly when both ends are bound and its condition or a property condition throws |
| VerboseFacts.EdgeStepStored | dist/mrsparql.js:805-825 | with the default strategy an accepted edge is stored under `from-to` with both ends and its count |
| Verbose.ProcessRows | dist/mrsparql.js:699-704 | the rows only add node keys and edge ids, under the same settings, and a well-formed graph stays well formed |
| VerboseFacts.RowStored | dist/mrsparql.js:699-704 | one row through `getNodes` and `getEdges` leaves every accepting node definition's value as a node key and every accepting edge definition's edge defined and, under the bidirectional strategy, stored |
| VerboseFacts.ProcessRowsStores | dist/mrsparql.js:699-704 | after all rows, that holds for every row |
| Verbose.Transform | dist/mrsparql.js:709-721 | every call starts from no nodes and a default manager, and returns exactly the stored nodes in key order and the stored edges |
| VerboseFacts.TransformStores | dist/mrsparql.js:709-721 | the returned JSON holds, for every row, a node whose `id` is the bound value of each accepting node definition, and an edge with the id of each accepting edge definition |
| VerboseFacts.TransformNodes | dist/mrsparql.js:709-721 | every returned node carries the id it is stored under, no two share an id, and each has a configured group that some node definition names |
| Early.New | src/index.js:16-24 | the configured prefix strings are loaded and the node map starts empty |
| Early.WriteProps | src/index.js:75-82 | it throws exactly when some condition throws, and it keeps every field already there; the values it writes are stated by `EarlyFacts.WritePropsIsMerge` |
| Early.NodeStep | src/index.js:58-85 | an unbound or failing definition is skipped; an accepted one upserts its node and throws when the group or the properties list is missing; no other node changes |
| Early.GetNodes | src/index.js:58-85 | it throws exactly when some definition throws; every accepting definition's bound value becomes a node key; no node is removed and the edges are untouched |
| Early.Transform | src/index.js:25-31 | the rows go through `getNodes` on the node map the instance already holds; no node is removed and no edge is built |
| EarlyFacts.WritePropsIsMerge | src/index.js:75-82 | writing the properties one by one merges over the fields what the verbose `getProperties` collects without fixed values |
| EarlyFacts.EarlyMatchesVerbose | src/index.js:58-85 | for definitions with no fixed value and no `id` or `group` property, the early and verbose node steps agree |
| EarlyFacts.EarlyIdOverride | src/index.js:71-82 | a property named `id` overwrites the key as the early node's id, while the verbose node keeps its key |
| EarlyFacts.TransformCarriesOver | src/index.js:20-31 | transforming two batches one after another is transforming them together |

## Left out

- Character classes are ASCII. JavaScript's Unicode `\s`, the regular expression's `.` on other
  line terminators, and `toLowerCase` beyond ASCII are not modelled.
- Registers.GetPrefixes: where the library's loop never ends, the model returns `None`. This
  happens with no URIs, or with two URIs of which exactly one resolves. Once the probes run out,
  the library also tests `startsWith(undefined)`, which matches a URI that begins with the text
  `undefined`; that case is not modelled.
- Registers.IsPrefixMatch: requires that both URIs resolve or neither does, because otherwise the
  library does not terminate.
- Registers.Qualify: for an unresolved URI, `getPrefix` returns an empty array, whose `short` is
  `undefined`; `startsWith(undefined)` tests the text `undefined`, and for a URI that begins with
  it, `prefix.short.length` throws. The model returns every unresolved URI unchanged.
- Comment mode is modelled only as a scan failure. Its handler refers to an undefined variable, so
  any character after `#` throws.
- The `SparqlParseError` message is not modelled. Its constructor passes the undeclared
  `CustomError` to `Error.captureStackTrace`, so on V8 a ReferenceError is thrown instead; a scan
  either succeeds or fails.
- The select-mode `queryVariables` list is not modelled. It is computed but never returned.
- A keyword `__proto__` is modelled as a failure. A keyword `constructor` is modelled as a mode
  without a handler.
- The UMD wrapper, the `verbose`-flag selector, and the static `sparql` export are glue and are left
  out.
- `Object.assign` merging of the raw configuration is left out. The model takes the merged fields
  as parameters.
- `edgeSettings` in the configuration is left out, because the engines always build a manager with
  default settings.
- The simple engine's constructor calls `updateConfig` twice. The second call rebuilds the same
  register, so it is modelled once.
- The unidirectional branch of `nextId` in `src/edge-manager.js` is not modelled. It reads an
  undeclared variable and has no `allow` branch.
- Values are strings. A binding without `value`, a `count` that is truthy but not a boolean, and
  JSON values of other types are not modelled.
- The iteration order of integer-like keys in `for … in` is not modelled. Rules are taken in the
  order given.
- A throw in the middle of a transform is modelled as an error result. The partial state it leaves
  behind is not kept: for example, the early engine's node inserted just before the crash.
- Early.Transform: the library returns an empty object. The model returns the instance's new
  state instead, which is what later calls observe.
- The several-artists fixture counts, and reading files, are left out, because the fixture data is
  not part of this model.
