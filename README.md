# sqlbuilder facade: template variable extraction, dialects, aliases

This project models `common/facade/extra.go` of `forhsd/sqlbuilder`, a Go
library that builds SQL from protobuf requests. The file does three things:

- It finds the variables a SQL template refers to. `ExtraValFromTemplate`
  parses the template text with Go's `text/template`. `ExtractVariables`, with
  `findVariables` and `findVariablesFromPipe`, walks the parse tree of the
  template and of every template associated with it. It collects the first
  identifier of each field reference (`.A.B` gives `A`) and the name of each
  `{{template "name"}}` inclusion. `unique` drops repeats and keeps the first
  occurrence. The names of the sub-templates are then removed, and the rest is
  sorted.
- `Dialect` maps a builder request's driver to an xorm SQL dialect. Doris and
  MySQL both build as MySQL, and Postgres builds as Postgres. Any other driver
  panics.
- `ExtractSelectAlias` and `ExtractOrderAlias` compute the output alias of each
  SELECT entry and each ORDER BY entry.

Module layout:

- `wrappers.dfy` (`Wrappers`): `Option`, which stands for Go's nil pointers,
  and `Result`, which stands for `(value, error)` returns.
- `template_parse.dfy` (`TemplateParse`): the parse tree of `text/template`
  as datatypes. It also holds a ghost reference walker, `MentionedIn`, that
  looks into every part of a node.
- `strings.dfy` (`Strings`): Go's byte-wise string order, and `sort.Strings`
  as an in-place insertion sort on an array.
- `proto.dfy` (`Proto`) and `xorm.dfy` (`Xorm`): the protobuf messages and
  the xorm builder, reduced to the fields the core reads.
- `facade.dfy` (`Facade`): the operations of `extra.go`.

**The walker matches the code as written.** `findVariables` has a case that
walks a node's body and its else-list, but that case matches only a bare
`*parse.BranchNode`. The parser never builds one. An `if`, `range` or `with`
node has its own case, and that case reads only the guard pipeline. So
`{{if .Cond}}{{.Y}}{{end}}` yields `Cond` and not `Y`. The model keeps this
behaviour, and `Facade.IfBodyIsNotCollected` states it on a concrete tree.
The argument pipeline of a `{{template "name" pipeline}}` is not read either.

The loops of the code are modelled as methods with loops:
`unique`, the two loops of `ExtractVariables`, `sort.Strings`, and the alias
loops. Each method is proved against a specification function. The pure
recursive walkers are functions.

## Model

| member | source | states |
|---|---|---|
| Facade.FindVariablesFromPipe | common/facade/extra.go:95-108 | the pipeline walk, with its helpers `CmdsVariables`, `ArgsVariables` and `ArgVariables` for the two loops and the argument type switch; it has no `ensures` of its own, and its properties are stated by FindVariablesFromPipeRoots, FindVariablesFromPipeCommandOrder, FindVariablesFromPipeArgumentOrder and FindVariablesFromPipeArg |
| Facade.FindVariablesFromPipeRoots | common/facade/extra.go:95-108 | a name is collected from a pipeline exactly when it is the first identifier of a field argument of some command, possibly inside nested pipelines |
| Facade.FindVariablesFromPipeCommandOrder | common/facade/extra.go:97-106 | the commands are visited in order: the result for `c1 + c2` is the result for `c1` followed by the result for `c2` |
| Facade.FindVariablesFromPipeArgumentOrder | common/facade/extra.go:98-105 | within a command the arguments are visited in order, so their contributions concatenate |
| Facade.FindVariablesFromPipeArg | common/facade/extra.go:99-104 | a field argument contributes its first identifier, a nested pipeline contributes its own walk, and any other argument contributes nothing |
| Facade.FindVariables | common/facade/extra.go:65-93 | the node type switch, in which if, range and with read only their guard; it has no `ensures` of its own, and its properties are stated by FindVariablesDispatch, FindVariablesSound and IfBodyIsNotCollected |
| Facade.FindVariablesDispatch | common/facade/extra.go:65-93 | the per-node result: an action or pipe node gives its pipeline's names; an if, range or with node gives its guard's names whatever its body and else-list hold; a branch node gives guard, body and else-list in that order; a template inclusion gives its name whatever its argument; any other node gives nothing |
| Facade.FindVariablesSound | common/facade/extra.go:65-93 | every collected name is really referred to somewhere in the node, as a field root or an inclusion name |
| Facade.IfBodyIsNotCollected | common/facade/extra.go:80-85 | for `{{if .Cond}}{{.Y}}{{end}}` the result is exactly `["Cond"]`, although `Y` is referred to in the body |
| Facade.Unique | common/facade/extra.go:110-120 | the loop with its `seen` set returns the first occurrence of each string, in input order |
| Facade.FirstOccurrencesElements | common/facade/extra.go:110-120 | deduplication keeps exactly the strings of the input |
| Facade.FirstOccurrencesNoDuplicates | common/facade/extra.go:113-117 | the deduplicated sequence has no repeats |
| Facade.FirstOccurrencesOrder | common/facade/extra.go:113-117 | the kept strings appear in the order of their first occurrence in the input |
| Facade.FirstOccurrencesShorter | common/facade/extra.go:110-120 | deduplication never lengthens the sequence |
| Facade.FirstOccurrencesOfDistinct | common/facade/extra.go:110-120 | a sequence without repeats is returned unchanged |
| Facade.FirstOccurrencesIdempotent | common/facade/extra.go:110-120 | deduplicating twice is the same as deduplicating once |
| Facade.FirstOccurrencesAbsorbs | common/facade/extra.go:113-117 | inserting strings that already occurred earlier does not change the deduplicated result |
| Facade.ExtractVariables | common/facade/extra.go:47-63 | the result is empty for a template without a tree; otherwise it is the deduplicated names of the root list followed by those of each enumerated template that has a tree |
| Facade.AppendTemplateVariables | common/facade/extra.go:55-61 | one enumerated template adds nothing when it has no tree, and otherwise the names of its root list |
| Facade.AppendListVariables | common/facade/extra.go:52-54 | walking a node list appends each node's names in list order |
| Facade.ExtractedVariablesElements | common/facade/extra.go:47-63 | the extracted names have no repeats, and a name is extracted exactly when the template has a tree and the name is collected from the root or from an enumerated template |
| Facade.RedundantTemplatesIgnored | common/facade/extra.go:55-62 | enumerated templates whose names were all collected earlier do not change the result |
| Facade.RepeatedTemplateIgnored | common/facade/extra.go:55-62 | a template enumerated a second time adds nothing |
| Facade.RootEnumeratedIgnored | common/facade/extra.go:52-62 | the root tree showing up again among the enumerated templates adds nothing |
| Facade.TreelessTemplateSkipped | common/facade/extra.go:56 | an enumerated template without a tree adds nothing |
| Facade.TemplatesVariablesMembers | common/facade/extra.go:55-61 | a name is collected from the enumerated templates exactly when one of them has it in its tree |
| Facade.EnumerationOrderIrrelevant | common/facade/extra.go:55-62 | enumerating the same templates in any order extracts the same set of names |
| Facade.RemoveElements | common/facade/extra.go:40 | the filtered sequence is no longer than the input, holds exactly the input strings that are not template names, and has no repeats when the input has none |
| Facade.ExtraValFromTemplate | common/facade/extra.go:25-45 | a parse error or a name-analysis error is returned unchanged; otherwise the result is sorted, has no repeats, and is a permutation of the extracted names with the template names removed |
| Facade.ExtraValOrderIrrelevant | common/facade/extra.go:38-44 | two successful results for the same tree and template names, with the enumerated templates in any order, are equal, so the result does not depend on map order |
| Facade.RepeatedFieldExtractedOnce | common/facade/extra.go:38-44 | `{{.A}}{{.B}}{{.A}}`, with the primary template also enumerated, extracts `["A", "B"]` |
| Facade.DefinedTemplateNameRemoved | common/facade/extra.go:37-40 | for a template "temp" that includes a defined sub-template "sub", with both enumerated, "sub" is extracted as an inclusion and removed as a template name, and the sub-template's own field `X` is kept |
| Strings.LessEq | common/facade/extra.go:42 | Go's string order, lexicographic by character, that `sort.Strings` sorts by; it has no `ensures` of its own, and its properties are stated by LessEqTotal, LessEqTransitive and LessEqAntisymmetric |
| Strings.SortStrings | common/facade/extra.go:42 | sorting leaves the array in ascending byte-wise order and a permutation of its old contents |
| Strings.SortedDistinctUnique | common/facade/extra.go:42 | two sorted, repeat-free sequences with the same strings are equal, so the sorted result is determined by its set of names |
| Strings.LessEqTotal | common/facade/extra.go:42 | any two strings are comparable in the order the sort uses |
| Strings.LessEqTransitive | common/facade/extra.go:42 | the order the sort uses is transitive |
| Strings.LessEqAntisymmetric | common/facade/extra.go:42 | strings that are each at most the other are equal |
| Facade.Dialect | common/facade/extra.go:154-164 | a Doris or MySQL request builds in the MySQL dialect and a Postgres request in the Postgres dialect; those are the only cases that return |
| Facade.DorisBuildsAsMysql | common/facade/extra.go:156-159 | Doris and MySQL requests build the same builder |
| Facade.MixAlias | common/facade/extra.go:173-180 | the nil-safe getter switch on an entry's variant; it has no `ensures` of its own, and its properties are stated by MixAliasByVariant |
| Facade.MixAliasByVariant | common/facade/extra.go:173-180 | an alias comes from the column's alias, the expression's call-as name or the case-when's alias, by variant; a nil entry, an unset variant or a nil message gives the empty string |
| Facade.ExtractSelectAlias | common/facade/extra.go:169-184 | one alias per SELECT entry, at the same position |
| Facade.ExtractOrderAlias | common/facade/extra.go:187-203 | one entry per ORDER BY item, at the same position: the dependent's alias, a space, then the direction text |

## Left out

- Parsing the template text, and the custom functions registered with
  `InjectFunc`: `ExtraValFromTemplate` takes the parse outcome as a
  `Result<Template>` parameter.
- `AnalyzeTmplByTemplate` is not part of this model. It is passed to
  `ExtraValFromTemplate` as a function parameter that returns names or an error.
- `Template.Templates()` enumerates a map in Go, so its order is unspecified.
  The model takes the enumeration as an arbitrary sequence. The
  deduplicated list depends on that order, but its set of names does not,
  and neither does the sorted final result. Repeats and treeless entries do
  not change the deduplicated list.
- `util.RemoveElements` is not part of this model. It is modelled as an
  order-preserving filter, the behaviour its call site relies on. Since the
  result is sorted afterwards, only the set of remaining names reaches the
  caller.
- Strings.SortStrings: insertion sort replaces the algorithm of Go's
  `sort.Strings`. Only the outcome (sorted and a permutation) is modelled.
- Parse nodes the walker ignores are summarised: chain, variable, dot,
  identifier and literal arguments become one `OtherArg` case. Text, comment,
  break and similar nodes become one `Other` case. A pipe's variable
  declarations are not modelled, because the walker never reads them.
- A nil slice and an empty slice are both modelled as the empty sequence.
  A nil else-list and an empty one are not distinguished either. Go's extra
  nil check on the else-list gives them the same result.
- Strings are sequences of characters compared by code point. For valid UTF-8
  this is the byte-wise order of Go's string comparison. Invalid UTF-8 is not
  modelled.
- `ExtractAdditionFromTemplate` (extra.go:124-151) executes a template and
  decodes JSON, both outside this model.
- The xorm builder and the protobuf message internals: `Xorm.Dialect` only
  records the dialect name, and the messages keep only the fields the core
  reads.
- `Dialect`'s panic on an unlisted driver is modelled as its precondition.
  The request itself is taken to be non-nil: the code reads `req.Driver`
  directly, so a nil request panics, and that case is not modelled.
  `ExtractOrderAlias`'s nil dereference of an ORDER BY entry is modelled the
  same way: every entry must be present.
