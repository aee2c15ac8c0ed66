# OpenClarion: query templates, strict JSON, and lifecycle rules

This project models the parts of OpenClarion whose correctness does not follow
from reading one function: the query-template engine that decides which PromQL a
diagnosis may run, the scanner that rejects ambiguous JSON, the workflow-backlog
command's pagination and query printer, the deep-object parameter trie, canonical
report references, the alert, diagnosis, chat and delivery lifecycles, the
authorisation decision, and the list and key normalisers.

| file | models |
|---|---|
| Text.dfy, StringLists.dfy | the string, trimming, splitting and sorting primitives the code calls |
| Placeholder.dfy | the two regular expressions of the template engine, as scanners |
| Template.dfy, TemplateProofs.dfy | compile, expand, match and resolve, and what they promise each other |
| TemplateTexts.dfy | the same operations on templates and queries written out as texts |
| QuoteNeutrality.dfy | how a filled template is read by a string-literal scanner |
| StrictJson.dfy, DomainJson.dfy | the two duplicate-key scanners over a token cursor |
| Backlog.dfy, VisibilityQuery.dfy | the workflow-backlog command |
| PathTrie.dfy | the deep-object trie built in shared maps |
| SourceRef.dfy, Delivery.dfy | report references and notification delivery |
| Time.dfy, Runs.dfy, Diagnosis.dfy, Chat.dfy, Alert.dfy | timestamps and lifecycles over whole runs of calls |
| Rbac.dfy, Directory.dfy, GroupingPolicy.dfy, Tenant.dfy | authorisation and normalisers |

Text is a sequence of Unicode characters (valid UTF-8); byte limits are measured
on the encoding. Times are nanoseconds since Go's zero time. A loop of the source
is a method with a loop, proved equal to a function; in several places the loop
stands in a method of its own beside the method that calls it. A call that fails
leaves the state of a run as it was.

## Main results

**Query templates.** A template compiles exactly when its trimmed text can be cut
into delimiter-free literals and quoted matcher values, and then there is one way
to cut it (`CompileIff`); the two scanners accept exactly the languages of the two
regular expressions, written out as concatenations of texts (`PlaceholderSpelling`,
`MatcherSpelling`). A template with one placeholder compiles, expands and permits
queries exactly as its text says (`MatcherExpands`, `MatcherPermitsIff`). A query is permitted exactly when one value per placeholder
*name*, free of quotes, backslashes and line ends, turns the template into it
(`PermitsIffInstance`), and that assignment is unique. What a template expands to
it permits and resolves unchanged; equal expansions mean equal placeholder values.
A query that resolves has exactly the template's quotes and backslashes in order,
and leaves a string literal open exactly when the template does, whatever was
requested (`ResolvedReadsLikeTemplate`); when it resolves is stated for every template
and request (`ResolveIff`). Up to every literal segment it is read in
the state in which the template's own text is read (`InstanceReadsLikeTemplate`).

**Strict JSON.** The scanner accepts a token stream exactly when it is one document
in which no object at any depth repeats a key. The domain package has a scanner of
its own; it is proved against the same specification, so the two give one verdict
on every input, and deliveries use it for their payload.

**Backlog.** For any finite chain of pages the report is a prefix of all rows, its
truncation mark is characterised exactly, and both count maps are exact tallies.
The printed visibility query reads back to the filter it was printed from.

**Trie.** The in-place updates through shared map references compute a pure
insertion, or stop exactly where a path is empty or runs into a leaf. For any list
of entries it is proved when a trie can be built, which values it holds, and when
its outcome does not depend on the insertion order, which is that of a map
iteration (`OrderFreeIff`).

**Lifecycles.** For every operation it is stated when it succeeds and what every field
of the result is. Every state that any sequence of calls reaches is consistent, and
a replayed call, after whatever calls came in between, is accepted without effect
exactly for the same arguments and a non-zero time of the same microsecond.

**Authorisation and normalisers.** Access is granted exactly when some enabled
assignment names the principal, reaches the scope and has a role that holds the
permission (`AllowedIff`), on the fields as they are given; every constructed user,
policy and reference is characterised by its inputs in the same way.

## Where the code differs from what it or its callers may expect

The model follows the code.

- Matching is wider than expansion: a captured tab, another control character, or
  a text of more than 200 bytes is permitted by `MatchesTemplate` although no value
  set expands to it (`MatchesMoreThanExpansions` for every template,
  `PermittedIsExpansionIff` for the exact condition).
- `Truncated` does not prove that rows were left out: it is also set when the limit
  was met exactly and only empty pages follow (`TruncatedYetComplete`; such a report
  is `TruncatedWithoutLoss`).
- The comment on `RecordTurn` (internal/domain/chat.go:172) says that a turn
  advances `LastActivityAt`. An older turn is accepted and moves it back; it
  advances exactly when the turn is not older (`TurnAdvancesIff`).
- A chat session whose start lies in the first microsecond after the zero time is
  created, but its start normalises to zero and no call is ever accepted
  (`CanBeClosedIff`; such a session is `CreatedButStuck`).
- `NewDirectoryUser` is a fixed point on its own output except when the source time
  lies strictly inside that first microsecond (`UserFixedIff`; such a user is
  `UserNotFixed`).
- The outcome for a deep object depends on the order of a map iteration when one
  path continues another or a path comes with two values: one order stops the
  program or replaces a value that another keeps (`OrderFreeIff`,
  `ConflictingPaths`).
- A delivered notification can still be marked failed (`DeliveredCanFail`).

## Model

| member | source | states |
|---|---|---|
| Placeholder.PlaceholderAtIff | internal/diagnosisquery/template.go:15 | the scanner matches at a position, with a given end, kind and key, iff that text is in the language of the placeholder expression with those submatches |
| Placeholder.PlaceholderSpelling | internal/diagnosisquery/template.go:15 | the scanner matches a piece of text, with given kind and key, iff it is two braces, white space, the kind, a dot, the key, white space and two braces |
| Placeholder.MatcherOperatorIff | internal/diagnosisquery/template.go:16 | the right-to-left scanner captures an operator iff some reading of the expression with that operator ends at the end of the text, so the captured operator is unique |
| Placeholder.MatcherSpelling | internal/diagnosisquery/template.go:16 | an operator is captured iff the text is a part that is empty or ends in `{` or `,`, then a label name and the operator, with white space around them |
| Placeholder.MatcherAfter | internal/diagnosisquery/template.go:16 | behind a text that ends in no name and no white space, a label name and an operator are captured iff that text is empty or ends in `{` or `,` |
| Placeholder.LeftmostFinds | internal/diagnosisquery/template.go:119 | find-all reports only matches and passes none over: the pattern matches nowhere outside the reported occurrences |
| Placeholder.LeftmostUnique | internal/diagnosisquery/template.go:119 | no other ordered list of matches leaves the gaps free of matches |
| Template.CompileTemplate | internal/diagnosisquery/template.go:117-151 | the compiling loop computes the literal segments and placeholder names, or refuses |
| Template.CompileMatches | internal/diagnosisquery/template.go:126-150 | the loop refuses iff some segment holds a delimiter or some placeholder is not a quoted value, and otherwise collects all segments and names |
| TemplateProofs.CompileIff | internal/diagnosisquery/template.go:117-165 | a list of occurrences cuts the trimmed template into delimiter-free literals and quoted values after `name =` or `name !=` iff the template compiles and those are the occurrences found |
| TemplateProofs.CompileSegments | internal/diagnosisquery/template.go:117-165 | literals and placeholder texts concatenate back to the trimmed template; no literal holds a delimiter; every placeholder is a quoted matcher value |
| TemplateTexts.DelimiterIff | internal/diagnosisquery/template.go:167-169 | a text holds a delimiter iff it contains two opening or two closing braces |
| TemplateProofs.InvalidIsRefused | internal/diagnosisquery/template.go:32-40 | a template that validation rejects is refused by expand, match and resolve for all values and queries |
| TemplateProofs.ExpandIff | internal/diagnosisquery/template.go:45-72 | a valid template expands iff every placeholder's value is present and safe |
| Template.ExpandTemplate | internal/diagnosisquery/template.go:45-72 | the method returns the expansion and true, or the empty text and false |
| Template.ExpandMatches | internal/diagnosisquery/template.go:57-71 | the loop succeeds iff all values are supplied and safe, and weaves them between the literals |
| TemplateProofs.ExpansionReadsValues | internal/diagnosisquery/template.go:59-68 | an expansion is the template instance whose `label.k` is the label value of k and whose `annotation.k` is the annotation value of k |
| TemplateTexts.SelectorExpands | internal/diagnosisquery/template.go:45-72 | for any label name and key, the selector with one placeholder compiles and expands to the selector with the value in place iff the value is present and safe |
| TemplateTexts.MatcherExpands | internal/diagnosisquery/template.go:45-72 | a text with one placeholder compiles iff its matcher stands at the start or behind `{` or `,` and compares with `=` or `!=`; it expands to the same text around the value iff it compiles and the value is present, has at most 200 bytes and no control character, quote or backslash |
| TemplateTexts.MatcherPermitsIff | internal/diagnosisquery/template.go:75-98 | such a template permits exactly the same text around a value without quotes, backslashes and line ends, if it compiles |
| TemplateProofs.FindSound | internal/diagnosisquery/template.go:85-88 | captures reported by the backtracking matcher are capturable texts and give back the query |
| TemplateProofs.FindComplete | internal/diagnosisquery/template.go:85-88 | the greedy matcher finds every filling of quote-anchored literals, and returns exactly it |
| Template.MatchesTemplate | internal/diagnosisquery/template.go:75-98 | the method decides whether the query is permitted |
| Template.CapturesConsistent | internal/diagnosisquery/template.go:89-97 | the loop over the seen map holds iff equal placeholder names captured equal texts |
| TemplateProofs.PermitsIffInstance | internal/diagnosisquery/template.go:75-98 | a query is permitted iff some assignment of capturable values to the placeholder names turns the template into the trimmed query |
| TemplateTexts.PermitsIff | internal/diagnosisquery/template.go:75-98 | without delimiters a template permits exactly itself; with delimiters, exactly the instances with values free of quotes, backslashes, CR and LF, if it compiles |
| TemplateProofs.InstanceUnique | internal/diagnosisquery/template.go:75-98 | a query is an instance of a template under at most one assignment |
| TemplateProofs.ExpandThenResolve | internal/diagnosisquery/template.go:45-115 | an expansion is trimmed, is permitted by its template, and resolves to itself unless it is empty |
| TemplateProofs.ExpandInjective | internal/diagnosisquery/template.go:45-72 | two value sets with the same expansion agree on every placeholder of the template |
| TemplateProofs.ResolvedIsFixed | internal/diagnosisquery/template.go:102-115 | a resolved query is non-empty, trimmed, permitted, and resolves to itself |
| TemplateTexts.ResolveIff | internal/diagnosisquery/template.go:102-115 | an empty request resolves to r iff r is not empty and the template expands to r for all values; any other request resolves to itself, trimmed, iff it is permitted |
| TemplateProofs.MatchesMoreThanExpansions | internal/diagnosisquery/template.go:138 | every compiling template permits a query that no value set expands to |
| TemplateProofs.PermittedIsExpansionIff | internal/diagnosisquery/template.go:184-194 | a permitted query is an expansion of some value set iff all its captured values are safe |
| QuoteNeutrality.ExpansionsReadAlike | internal/diagnosisquery/template.go:57-71 | for two expansions of a template the string scanner is in the same state at every literal boundary, and both have the same quotes and backslashes in order |
| QuoteNeutrality.InstanceReadsLikeTemplate | internal/diagnosisquery/template.go:75-98 | up to every literal segment, an instance of a template and the template's own text leave the string scanner in the same state and have the same quotes and backslashes |
| QuoteNeutrality.ResolvedReadsLikeTemplate | internal/diagnosisquery/template.go:102-115 | every resolved query has its template's quotes and backslashes, in order and in number, and ends in the same scanner state |
| StrictJson.Decoder.Next | internal/strictjson/strictjson.go:47-50 | reading a token advances the cursor by exactly one token, or reports how the input ends |
| StrictJson.ScanValue | internal/strictjson/strictjson.go:46-63 | the recursive method succeeds iff the scan function does, with the cursor behind exactly what it consumed |
| StrictJson.ScanObject | internal/strictjson/strictjson.go:65-92 | the member loop with its seen set computes the member scan, whatever the decoder says at a broken end |
| StrictJson.ScanArray | internal/strictjson/strictjson.go:94-110 | the element loop computes the element scan |
| StrictJson.ScanReadsValue | internal/strictjson/strictjson.go:46-110 | scanning a document's tokens consumes exactly them, whatever follows, and fails iff some object at any depth repeats a key |
| StrictJson.ScanFindsValue | internal/strictjson/strictjson.go:46-110 | whatever the scan accepts is the tokens of a document with unique keys, followed by the rest |
| StrictJson.TokensUnique | internal/strictjson/strictjson.go:46-110 | a token stream starts with at most one document |
| StrictJson.AcceptsDocumentIff | internal/strictjson/strictjson.go:32-110 | on a well-formed document the verdict is whether its keys are unique |
| StrictJson.RejectDuplicateObjectKeys | internal/strictjson/strictjson.go:32-44 | the method accepts iff the input is one document with unique keys and ends cleanly after it |
| Backlog.AddPage | cmd/openclarion/main.go:3602-3611 | the inner loop appends rows up to the limit, marks truncation iff rows are left, and keeps both counts exact |
| DomainJson.ScanJSONValue | internal/domain/json.go:37-54 | the domain scanner's recursive method succeeds iff the scan function does, with the cursor behind exactly what it consumed |
| DomainJson.ScanJSONObject | internal/domain/json.go:56-83 | its member loop computes the member scan |
| DomainJson.ScanJSONArray | internal/domain/json.go:85-101 | its element loop computes the element scan |
| DomainJson.RejectDuplicateObjectKeys | internal/domain/json.go:23-35 | the domain scanner accepts iff the input is one document with unique keys and ends cleanly after it |
| DomainJson.RequireValidJSON | internal/domain/json.go:11-19 | a payload passes iff it has bytes and they are such a document |
| Backlog.RunBacklog | cmd/openclarion/main.go:3565-3628 | an error iff a page fails before the limit is met; otherwise the first rows of all pages up to the limit, exact tallies, the exact truncation condition, and requests that walk the pages asking for the missing rows, at least 1 and at most 100 |
| Backlog.RowsAre | cmd/openclarion/main.go:3652-3710 | every row has the ids, the type and the status word of the listed execution at its place; a missing execution gives an empty row |
| Backlog.TruncationMeans | cmd/openclarion/main.go:3589-3621 | the rows are a prefix of all rows; unmarked means that no answer failed and all rows were returned; marked means exactly the limit was |
| Backlog.TruncatedYetComplete | cmd/openclarion/main.go:3612-3620 | the mark stands on a complete answer, all rows of a chain without failed answers, iff the pages before the last already hold exactly the limit and the last is empty |
| Backlog.TruncatedWithoutLoss | cmd/openclarion/main.go:3612-3620 | one row, an empty page after it and the limit 1 give a marked and complete report |
| Backlog.CountsAddUp | cmd/openclarion/main.go:3608-3621 | both count maps sum to the number of returned rows |
| VisibilityQuery.ParseWorkflowTypes | cmd/openclarion/main.go:3527-3549 | the loop computes the distinct trimmed non-empty names in order, or refuses |
| VisibilityQuery.TypesOfIff | cmd/openclarion/main.go:3527-3563 | a list is accepted iff some part is non-blank and all non-blank parts are legal names, and then its names are exactly those parts |
| VisibilityQuery.TypeCharsAre | cmd/openclarion/main.go:3551-3563 | which characters a type name may have |
| VisibilityQuery.ParseArgsIff | cmd/openclarion/main.go:3473-3525 | which flags are accepted, and the limit, query, status and types they give |
| VisibilityQuery.QueryText | cmd/openclarion/main.go:3630-3650 | the printed query in full, for any status and any list of types |
| VisibilityQuery.QueryReadsBack | cmd/openclarion/main.go:3630-3650 | for every configuration accepted without a raw query, the printed query reads back to the status and the ordered type list |
| VisibilityQuery.QueryInjective | cmd/openclarion/main.go:3630-3650 | accepted configurations that print the same query have the same status and types |
| VisibilityQuery.AcceptedIsBounded | cmd/openclarion/main.go:3473-3525 | every accepted configuration prints a non-empty query and asks for 1 to 500 rows |
| VisibilityQuery.TypesRoundTrip | cmd/openclarion/main.go:3473-3549 | an accepted list joined with commas parses back to itself |
| PathTrie.FieldMap.AppendPathValue | api/openapi.gen.go:9760-9775 | the in-place update through shared maps keeps the structure a tree and changes its value to the pure insertion; it stops, with nothing changed, iff the path is empty or runs into a leaf |
| PathTrie.MakeFieldOrValue | api/openapi.gen.go:9777-9785 | the loop builds, in fresh maps, the trie of all entries, or stops iff one of the insertions does |
| PathTrie.BuildsIff | api/openapi.gen.go:9760-9785 | a trie is built iff no path is empty and none continues the path of an earlier entry |
| PathTrie.BuildStores | api/openapi.gen.go:9755-9785 | a path looks up to a value iff an entry gave it and every later path is unrelated; no other path is a leaf |
| PathTrie.CompatibleStores | api/openapi.gen.go:9755-9785 | when any two entries are equal or unrelated, a path looks up to a value iff that entry was given |
| PathTrie.InsertsCommute | api/openapi.gen.go:9760-9775 | inserting two paths neither of which is a prefix of the other commutes |
| PathTrie.InsertAdmitsIff | api/openapi.gen.go:9760-9775 | an insertion blocks exactly the paths that continue the inserted one |
| PathTrie.BuildAnyOrder | api/openapi.gen.go:9713-9747 | entries of which any two are equal or unrelated give the same outcome in every insertion order |
| PathTrie.OrderFreeIff | api/openapi.gen.go:9713-9747 | the outcome is the same for every insertion order iff any two entries are equal or unrelated, or some path is empty |
| PathTrie.ConflictingPaths | api/openapi.gen.go:9760-9785 | two entries that stop in one order and build a trie in the other |
| SourceRef.ParseRefIff | internal/domain/report.go:46-60 | a reference parses to a source iff the kind is valid, the id is in 1..2^63-1 and the text is kind, colon and canonical decimal |
| SourceRef.ParseRefText | internal/domain/report.go:46-60 | the same with the kinds, the colon and the largest id written out |
| SourceRef.FormatIff | internal/domain/report.go:55-58 | the decimal of a number is the only text of digits with its value and without a needless leading zero |
| SourceRef.RefTextInjective | internal/domain/report.go:44-60 | different sources have different canonical texts |
| SourceRef.NormalizeRefs | internal/domain/report.go:259-274 | the loop accepts iff at most ten references parse after trimming and are pairwise distinct; it returns the trimmed copy and leaves the caller's slice alone |
| SourceRef.RefsIff | internal/domain/report.go:259-274 | a list is accepted iff it has at most ten references, each names a source when trimmed, and no two are the same |
| SourceRef.AcceptedRefsAreDistinct | internal/domain/report.go:259-274 | accepted references are canonical and name pairwise distinct sources |
| Delivery.MarkDecides | internal/domain/report.go:433-502 | on a valid row a mark succeeds iff the mark itself is acceptable, and what it writes depends on the row's identity and the mark only |
| Delivery.NewIff | internal/domain/report.go:416-430 | a row is created iff there is a report and a non-blank key, with the trimmed key, the empty object and nothing else |
| Delivery.DeliveredDecides | internal/domain/report.go:433-454 | on any row a delivery succeeds iff a time is set, the payload is absent or one document without repeated keys, and the row has a report, a key and no negative channel; it stores the payload itself, or the empty object for none |
| Delivery.FailedDecides | internal/domain/report.go:456-471 | the same for a failure, which needs a reason instead of a time |
| Delivery.LastMarkDecides | internal/domain/report.go:433-502 | every row reached by any marks is valid, keeps its report and key, and equals what the last acceptable mark alone would have made of the first row |
| Delivery.NewIsValid | internal/domain/report.go:416-430 | a new delivery row is valid |
| Delivery.LastMarkWrites | internal/domain/report.go:416-471 | from a new delivery, every field after any run is as the last acceptable mark writes or clears it, or as in the new row without one |
| Delivery.DeliveredCanFail | internal/domain/report.go:456-471 | a delivered row can be marked failed |
| Text.SpacesAre | internal/diagnosisquery/template.go:46 | trimming cuts the 25 white-space characters of Unicode |
| Text.Utf8LenCounts | internal/diagnosisquery/template.go:185 | a length in bytes counts one byte for each character and one more from each of the codes 0x80, 0x800 and 0x10000 on |
| Time.NormalizeLaws | internal/domain/time.go:18-23 | normalising is idempotent and monotone, identifies exactly the times of one microsecond, and yields zero exactly for the first microsecond |
| Diagnosis.RunConsistent | internal/domain/diagnosis.go:93-173 | after any calls: finished time iff terminal, reason iff failed, running implies a start, start not after finish, identity kept |
| Diagnosis.NewIff | internal/domain/diagnosis.go:93-109 | a task is created iff snapshot, workflow and run are given, and is pending |
| Diagnosis.StartIff | internal/domain/diagnosis.go:115-132 | when a consistent task can be started, and every field of the result |
| Diagnosis.FinishIff | internal/domain/diagnosis.go:146-173 | when an open task can be finished, and every field of the result |
| Diagnosis.RunSettles | internal/domain/diagnosis.go:115-173 | a set start time never changes and a terminal task never changes, however the run goes on |
| Diagnosis.FewChanges | internal/domain/diagnosis.go:115-173 | at most two calls of any run have an effect |
| Diagnosis.CanFinish | internal/domain/diagnosis.go:146-173 | a consistent task that is not terminal can be finished with every terminal status |
| Diagnosis.FinishReplay | internal/domain/diagnosis.go:146-173 | a finish repeated after any further calls has no effect for the same status, reason and non-zero microsecond, and is refused otherwise |
| Diagnosis.StartReplay | internal/domain/diagnosis.go:115-132 | a start repeated after any further calls has no effect for the same non-zero microsecond while the task is running, and is refused otherwise |
| Chat.NewIsConsistent | internal/domain/chat.go:135-170 | a new session is open, without turns, and consistent, with the normalised start |
| Chat.NewIff | internal/domain/chat.go:135-170 | when a session is created, and every field of it |
| Chat.TurnIff | internal/domain/chat.go:172-194 | a turn is accepted iff the session is open and started and the turn has a time not before the start; it changes count and activity time only |
| Chat.CloseIff | internal/domain/chat.go:198-224 | an open session is closed iff it is started, the reason is not blank and the time is set and not before the start; every field of the result |
| Chat.RunConsistent | internal/domain/chat.go:174-224 | after any calls: the turn count is the number of accepted turns, the activity time is that of the last accepted call and not before the start, closed iff closing time iff reason, identity kept |
| Chat.ClosedIsFinal | internal/domain/chat.go:174-224 | nothing changes after the close |
| Chat.TurnAdvancesIff | internal/domain/chat.go:172-194 | an accepted turn does not move the activity time back iff it is not older than the last activity |
| Chat.TurnMovesBack | internal/domain/chat.go:172-194 | two accepted turns of which the second moves the activity time back |
| Chat.CanBeClosedIff | internal/domain/chat.go:135-224 | a created session can be closed by some run iff its start is not within the first microsecond after the zero time |
| Chat.CreatedButStuck | internal/domain/chat.go:135-224 | a session started half a microsecond after the zero time is created and no run closes it |
| Chat.CloseReplay | internal/domain/chat.go:198-224 | a close repeated after any further calls has no effect for the same trimmed reason and non-zero microsecond, and is refused otherwise |
| Alert.RunResolves | internal/domain/alert.go:125-150 | after any attempts an event is firing, or carries the first acceptable end at or after its start, and nothing else changed |
| Alert.NewIff | internal/domain/alert.go:69-106 | when an event is created, and every field of it |
| Alert.ResolveIff | internal/domain/alert.go:125-150 | a firing event is resolved iff the end is set and its microsecond is not before the start; only status and end change |
| Alert.NewCanResolve | internal/domain/alert.go:69-150 | a new event is firing without an end and can be resolved at its own start |
| Alert.ResolveReplay | internal/domain/alert.go:125-150 | resolving again after any further attempts has no effect for the same non-zero microsecond, and is refused otherwise |
| Rbac.Authorize | internal/domain/rbac.go:241-277 | the method rejects exactly a blank subject, an unknown permission or scope, and a scope key that does not fit; otherwise it answers true iff some assignment entitles the principal |
| Rbac.AllowedIff | internal/domain/rbac.go:241-354 | a decidable request is allowed iff some assignment is enabled, names the principal as user or by a department, is global or for the very scope requested, and is an admin's or of a role that the permission table lists |
| Rbac.DisabledAreIgnored | internal/domain/rbac.go:258-293 | removing all disabled assignments changes no decision |
| Rbac.OtherScopeAddsNothing | internal/domain/rbac.go:306-311 | an assignment for another scope changes no decision |
| Rbac.NormalizeDepartmentKeys | internal/domain/rbac.go:356-375 | the keys come out trimmed, distinct and sorted |
| Rbac.MoreAllowsMore | internal/domain/rbac.go:241-311 | more assignments and more departments never take access away |
| Rbac.DecisionBySets | internal/domain/rbac.go:241-311 | the decision depends only on the sets of trimmed assignments and trimmed department keys |
| Rbac.AtMostIffFewerPermissions | internal/domain/rbac.go:313-354 | the order of roles is exactly inclusion of permissions |
| Rbac.RaisingRolesAllowsMore | internal/domain/rbac.go:241-354 | raising roles in any assignments never takes access away |
| StringLists.FirstOccurrencesOrder | internal/domain/directory.go:455-485 | the kept values stand at the positions where each is first seen, in order |
| StringLists.BelowIff | internal/domain/grouping_policy.go:95 | in the order of sorting the first different character decides, and a proper prefix comes first |
| StringLists.DrainSorted | internal/domain/grouping_policy.go:91-95 | draining a map in any order and sorting gives the strictly sorted list of its keys |
| Directory.NormalizePaths | internal/domain/directory.go:455-485 | the loop computes the first occurrences of the trimmed paths with the primary in front, or refuses |
| Directory.PathsIff | internal/domain/directory.go:455-485 | paths are accepted iff each has at most 1024 bytes and at most 32 differ; the result holds each once |
| Directory.PrimaryFirst | internal/domain/directory.go:455-485 | a non-blank primary path comes first |
| Directory.NormalizeExternalIds | internal/domain/directory.go:487-512 | the loop and the sort compute the distinct trimmed ids in order, or refuse |
| Directory.ExternalIdsIff | internal/domain/directory.go:487-512 | ids are accepted iff each has at most 256 bytes and at most 32 differ; the result is their sorted list |
| Directory.ExternalIdsBySet | internal/domain/directory.go:487-512 | the result is strictly sorted and depends only on the set of trimmed non-empty ids |
| Directory.UserIsCanonical | internal/domain/directory.go:204-310 | a constructed user has trimmed fields, filled defaults, distinct paths headed by the primary, and sorted ids |
| Directory.UserIff | internal/domain/directory.go:204-310 | which users are accepted, with all lengths, and which input every stored field comes from |
| Directory.UserFixedIff | internal/domain/directory.go:204-310 | normalising a constructed user again returns it iff the source time was not strictly inside the first microsecond |
| Directory.UserNotFixed | internal/domain/directory.go:204-310 | a user whose source time is half a microsecond after the zero time is accepted, and normalising it again changes it |
| GroupingPolicy.NormalizeList | internal/domain/grouping_policy.go:73-97 | collecting, draining and sorting compute the sorted distinct keys, or refuse |
| GroupingPolicy.PolicyIff | internal/domain/grouping_policy.go:35-136 | which policies are accepted, with all limits, and which input every field comes from |
| GroupingPolicy.PolicyCanonical | internal/domain/grouping_policy.go:35-136 | a policy is a fixed point of its constructor, has sorted lists, and depends only on the sets of trimmed inputs |
| Tenant.NormalizeTenantKey | internal/domain/tenant.go:67-85 | the scan accepts the trimmed key iff it satisfies the character and hyphen rules |
| Tenant.AcceptedIffSegments | internal/domain/tenant.go:67-85 | a key is accepted iff it has at most 63 bytes and is a hyphen-join of non-empty lower-case alphanumeric segments beginning with a letter |
| Tenant.SegmentsUnique | internal/domain/tenant.go:67-85 | the segments are those of splitting at the hyphens, and the key is already trimmed |

## Left out

- Regular-expression engine, `strconv`, `strings` and `slices` internals: what the code uses of them is written out as functions.
- Invalid UTF-8: text is a sequence of characters, so byte sequences that do not decode are not modelled.
- Whether a placeholder stands inside a PromQL string literal: the code does not establish it, so nothing is claimed about it; what is proved is that filling never changes how quotes are read.
- The lexer of `json.Decoder`: the decoder is a token sequence with a cursor, and an end that is clean or broken; error paths and messages are not modelled.
- StrictJson.Decoder.Next: a token sequence can hold tokens in orders that the Go decoder would already refuse, so the statement covers more inputs than can occur.
- Backlog.RunBacklog: an infinite chain of empty pages, on which the loop of the source does not end, is outside the model; a nil lister, clock, JSON output and the item fields other than id, run, type and status are not modelled.
- Flag parsing of the workflow-backlog command: `VisibilityQuery.ParseArgs` starts from the parsed flags, with the status text already trimmed and in lower case.
- PathTrie.MakeFieldOrValue: a run-time panic is the result None, and the maps built so far are dropped with it; splitting parameter names into paths and assigning the trie to a destination value are not modelled.
- Directory.UserFixedIff: the lower-case table is a parameter that is assumed to be idempotent, because the Unicode table is not part of this model.
- Database identifiers, created and updated times, raw alert payloads and the channel-profile setter: carried unchanged by the modelled code.
- The other fields and constructors of `internal/domain/report.go`, directory departments and sync runs, role-assignment construction, and the remaining field-length checks: one-branch facts.
- The time zone and monotonic clock reading of `time.Time`, and its range limits.
