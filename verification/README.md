# Zveltio's gates and benches, modelled and proved

Zveltio guards its tree with scripts that read the code and refuse it, and with benches that measure
the engine. This project models the algorithms inside those scripts and proves what a green result
means. One module per script, in the form the script has: scanners and passes are methods with loops,
objects that a script mutates are classes, lookups are functions.

- `PoolAst`, `PoolGate`, `PoolMachine`, `PoolSoundness`: the gate that follows the raw database pool
  through the route files. `PoolAst` is the part of a parsed file the gate reads, with its name
  resolution; `PoolGate` is the gate, fixpoint loop and site visit included; `PoolMachine` is how that
  code runs, with an environment record per scope, every order of steps allowed and table names
  evaluated, not read off the text; `PoolSoundness` proves that a clean verdict is a statement about
  every run of a program whose values the gate can follow; `PoolExact` says exactly when the converse
  holds for its marks, that is when whatever is marked does hold the pool in some run, and which of its
  findings are then real.
- `PoolScripts`, `PoolLimits`, `PoolNames`: why "can follow" has to be said. For each reason not to
  follow a program there is a program where it is the only one, the gate is silent about a table, and
  a run touches that table on the pool.
- `Basics` and `Paths` hold what several models share. `Disk`, `AuditGates`: plant a violation, run the gate, put everything back.
- `EnableAll`: the retry passes over a catalogue of extensions. `WorkerPool`: the bench's shared cursor.
- `ReleaseGate`, `I18nNamespaces`, `RouteCollision`: gates whose silence implies a property of releases,
  of a merge and of a router.
- `SqlLists`, `SqlBlanking`, `LineLookup`: the readers of SQL text and the line numbers they report.
- `SchemaTable`, `SchemaFile`, `SchemaBuild`, `SchemaOrder`: tables replayed from migrations. `Lcov`,
  `ReviewSessions`: coverage reports merged, review sessions put in order.
- `Slope`, `Percentiles`: the statistics.

Where the code and what is written about it part:

- `scripts/audit-gates.ts` promises to restore the tree. It keeps the original as text, so a file whose
  bytes are not a fixed point of reading and writing comes back changed. `AuditGates.HarmlessRunRestores`
  says exactly when the whole tree is the same, and `AuditGates.BytesAreLost` gives a tree that is not.
  Its leftover check accuses a directory that was empty before the run: `AuditGates.LeftoverIsFalseAlarm`
  says exactly when, `AuditGates.HollowIsAccused` gives one.
- `scripts/check-insert-schema-match.ts` says newlines are preserved so that line numbers hold. The
  blanking and the comment stripper keep them; the placeholder mask between the two drops those inside
  `${…}`. `SqlBlanking.LineThroughAll` says, position by position and through all three steps, exactly
  when the reported line is the file's; `SqlBlanking.MaskLosesALine` gives a text where a line is lost.
- `scripts/schema-codegen.ts` does not replay a file in the order it is written: CREATEs come first, an
  ALTER is read kind by kind, and of the drops, which come last, only those count that no later ALTER
  takes back (`scripts/lib/sql-drops.ts`). `SchemaOrder.WrittenOrderMattersIff` says, for every file,
  exactly when every table comes out as its statements in written order would leave it;
  `SchemaFile.PresenceAgreesIff` and `SchemaOrder.PresenceAfterDropIff` say exactly when one column is
  there that should be. A column dropped and added again in one ALTER is lost
  (`SchemaOrder.LostInOneAlter`), in two it stays the old one (`SchemaOrder.StaleReAdd`), the columns
  of a CREATE that follows an ALTER come first (`SchemaOrder.CreateIsReadFirst`), and a table created
  anew keeps its old columns (`SchemaOrder.RecreatedKeepsOld`).
- `scripts/check-tenant-table-on-pool.ts` marks the parameter of a callback wherever its chain opened a
  transaction once, executed since or not, and whether or not it is a rest parameter. Such a mark is
  never a handle (`PoolExact.NeverBorne`); without one the marks are exact (`PoolExact.MarkedIffHeld`).
- The same script says a bare string is read only as the argument of `sql.raw`.
  The code reads one wherever the receiver of `.execute` leads to it, and the model does as the code.

## Model

| member | source | states |
|---|---|---|
| PoolAst.CandidatesMembers | scripts/check-tenant-table-on-pool.ts:127-147 | the declarations a scope tries are exactly its own parameters, variables, loop variables or caught value, by ownership in the tree, not by the order of the walk |
| PoolAst.DeclaredInIsDeclares | scripts/check-tenant-table-on-pool.ts:117-154 | both ways: a declaration is returned for a name exactly when the scope declares that name through it, nested destructuring included |
| PoolAst.ResolveIsNearest | scripts/check-tenant-table-on-pool.ts:156-162 | both ways: going up from a node finds a declaration exactly when it declares the name in a scope around the node and no nearer scope does; and nothing exactly when no scope around does |
| PoolGate.OpensMonotone | scripts/check-tenant-table-on-pool.ts:190-203 | an expression that opens a transaction on the pool still does when more declarations are marked |
| PoolGate.DerivesMonotone | scripts/check-tenant-table-on-pool.ts:261-287 | the three marking rules are monotone, which is what makes a least set exist |
| PoolGate.FnNamedIs | scripts/check-tenant-table-on-pool.ts:206-218 | a block or file gives a name to the function of its first statement that declares one under it or sets a variable of it to one, whatever is wrapped around the function; to none exactly when no statement does |
| PoolGate.FnAtIsNearest | scripts/check-tenant-table-on-pool.ts:228-231 | the function found going up is that of the nearest block or file that has one, and there is none exactly when none has |
| PoolGate.CallsByName | scripts/check-tenant-table-on-pool.ts:225-231 | a call is by name exactly when what it calls is an identifier under any casts and parentheses, and is logged by that name |
| PoolGate.ReachedMeans | scripts/check-tenant-table-on-pool.ts:276-286 | a file and a name are in the log of the gate's reach exactly when a call by that name in that file passes the pool for a plain parameter of the function it lands in |
| PoolGate.BodiesAre | scripts/check-tenant-table-on-pool.ts:316-342 | the statements read off an expression are exactly those it leads to by names, branches and `sql.raw`, eight steps deep |
| PoolGate.Flow.Add | scripts/check-tenant-table-on-pool.ts:255-260 | a declaration is added once, the flag is raised exactly when it is new, and nothing unforced is ever marked |
| PoolGate.Flow.VisitArg | scripts/check-tenant-table-on-pool.ts:275-286 | an argument on the pool marks its parameter and logs the callee, or logs the callee as not found; marks stay forced |
| PoolGate.Flow.Visit | scripts/check-tenant-table-on-pool.ts:261-289 | after a visit every mark and log that the node called for at its start is there, and the flag tells whether a mark was new |
| PoolGate.SettledIsClosed | scripts/check-tenant-table-on-pool.ts:253-292 | a full pass that adds nothing leaves a set closed under the rules and complete logs |
| PoolGate.Flow.Run | scripts/check-tenant-table-on-pool.ts:250-292 | the loop ends, for any order of nodes, with the least set closed under the alias, argument and callback rules; reached and unresolved are exactly what that set justifies |
| PoolGate.Judgement.Report | scripts/check-tenant-table-on-pool.ts:357-362 | exactly the tenant tables among those named are added to the findings |
| PoolGate.Judgement.ReportJoins | scripts/check-tenant-table-on-pool.ts:371-380 | the climb reports exactly the tenant tables joined onto the query above the site |
| PoolGate.Judgement.ReportBodies | scripts/check-tenant-table-on-pool.ts:382-387 | every tenant table of every raw statement the receiver can be is reported, and nothing else |
| PoolGate.Judgement.Judge | scripts/check-tenant-table-on-pool.ts:363-389 | one node: the counter moves exactly for a site, and findings gain exactly its tenant tables |
| PoolGate.Judgement.Run | scripts/check-tenant-table-on-pool.ts:356-392 | the counter is the number of distinct sites and the findings are exactly the tenant tables of all sites |
| PoolGate.EightNamesDeep | scripts/check-tenant-table-on-pool.ts:316-324 | both ways: a statement behind a chain of names is read, alone, and can be traced, when the chain has at most eight, and is not seen at all when it has more |
| PoolMachine.OtherHandlesAreFollowed | scripts/check-tenant-table-on-pool.ts:177-188 | a program that holds no pool gives no reason at all, whatever it does with its other handles |
| PoolSoundness.HolderAgrees | scripts/check-tenant-table-on-pool.ts:156-162 | climbing environment records and climbing the tree meet at the same declaration, inner bindings shadowing outer ones |
| PoolSoundness.LookupAgreesWithResolve | scripts/check-tenant-table-on-pool.ts:156-162 | an identifier reads the record of the scope whose declaration `resolve` finds, and is unbound exactly when it finds none |
| PoolSoundness.CalleeAgrees | scripts/check-tenant-table-on-pool.ts:220-248 | a call by name lands at run time in the function `callee` finds, and lands nowhere only when the gate logs it as not found |
| PoolSoundness.EvalForeseen | scripts/check-tenant-table-on-pool.ts:182-203 | whatever an expression evaluates to, the gate has foreseen: a handle is on the pool by its marks, an opener opens on it, a raw statement is among those traced |
| PoolSoundness.BindParamsAccounted | scripts/check-tenant-table-on-pool.ts:275-286 | a call gives a handle only to parameters that are marked |
| PoolSoundness.ApplyKeeps | scripts/check-tenant-table-on-pool.ts:275-286 | a call of a followed function keeps the invariant |
| PoolSoundness.TransactKeeps | scripts/check-tenant-table-on-pool.ts:265-274 | running a transaction's callback keeps the invariant: its parameter is marked |
| PoolSoundness.InitKeeps | scripts/check-tenant-table-on-pool.ts:261-264 | a `const` alias keeps the invariant |
| PoolSoundness.QueryHasSite | scripts/check-tenant-table-on-pool.ts:363-380 | a query under construction on the pool began at a site of the gate, and the gate's climb from that site passes through every call chained since |
| PoolSoundness.NamedIffLiteral | scripts/check-tenant-table-on-pool.ts:367-380 | call by call: the gate names the table a call names when it runs, whatever that is, if and only if the argument is a bare literal |
| PoolSoundness.LiteralNamed | scripts/check-tenant-table-on-pool.ts:363-380 | a call that names a table on the pool, and shows no reason of its own, uses a method the gate knows and names exactly the literal the gate reads |
| PoolSoundness.SameMethods | scripts/check-tenant-table-on-pool.ts:295-295 | the methods that open a transaction are those the gate knows, and those that start a query are the gate's five and one more; both lists are the builder's own |
| PoolSoundness.SameJoins | scripts/check-tenant-table-on-pool.ts:374-377 | the gate takes a method for a join exactly when `join` stands in its name, in any case |
| PoolSoundness.DirectCallIsReported | scripts/check-tenant-table-on-pool.ts:366-369 | each of the five methods called on the pool with a tenant's table written out is reported, and gives no reason not to follow the program |
| PoolSoundness.RawIsJudged | scripts/check-tenant-table-on-pool.ts:316-341 | a raw statement executed on the pool is one whose tables the gate looked at |
| PoolSoundness.TouchedIsJudged | scripts/check-tenant-table-on-pool.ts:356-392 | every table touched on the pool when a call runs, its name evaluated or computed, is one the gate looked at under that call, unless the call itself shows why the gate cannot tell |
| PoolSoundness.StepKeeps | scripts/check-tenant-table-on-pool.ts:165-392 | every step of every execution keeps: each record that holds the pool, or a transaction on it, holds it under a marked name or under `poolDb`, and the log is judged |
| PoolSoundness.RunsAreJudged | scripts/check-tenant-table-on-pool.ts:165-392 | the same after any run, for any closed set of marks |
| PoolSoundness.CleanVerdictIsSafe | scripts/check-tenant-table-on-pool.ts:394-417 | with nothing reported and nothing unresolved, no run of a program whose values the gate can follow reads or writes a tenant's table on the pool, except at calls that name it by no literal, by a method the gate does not know or in a statement it cannot trace; nor does it pass the pool to a function under `routes/` whose declaration is missing |
| PoolSoundness.Check | scripts/check-tenant-table-on-pool.ts:250-417 | the whole gate: its verdict is green exactly when the least set reaches the index, has sites, and yields no finding and no unresolved callee; and then every run of a program whose values it can follow is safe in that sense |
| PoolExact.Gets | scripts/check-tenant-table-on-pool.ts:156-162 | from a record of a scope around it a run gets to any node through new, empty records, names not declared on the way keeping their meaning |
| PoolExact.AliasIsHeld | scripts/check-tenant-table-on-pool.ts:261-264 | an alias of a name that can hold the pool can hold it |
| PoolExact.CallbackIsHeld | scripts/check-tenant-table-on-pool.ts:265-274 | so can the parameter of a callback on a transaction opened on such a name |
| PoolExact.ArgumentIsHeld | scripts/check-tenant-table-on-pool.ts:275-286 | so can the parameter a followed call passes such a name to |
| PoolExact.ExecutedNeverOpens | scripts/check-tenant-table-on-pool.ts:190-203 | a chain that was executed before never evaluates to a handle or to something that opens a transaction, though the gate still takes it for one |
| PoolExact.NeverBorne | scripts/check-tenant-table-on-pool.ts:265-274 | the parameter of a callback on such a chain, or a rest parameter, if it is a name other than `poolDb`, is marked, and no run makes it hold the pool or a transaction on it |
| PoolExact.MarksAreHeldIff | scripts/check-tenant-table-on-pool.ts:250-292 | every declaration of the least set holds the pool, or a transaction on it, in some run, unless it is a pattern, if and only if no callback the gate follows is of that kind |
| PoolExact.MarkedIffHeld | scripts/check-tenant-table-on-pool.ts:250-292 | in a program whose flows the gate can follow: each name is marked, or is `poolDb`, just when some run makes it hold the pool or a transaction on it, if and only if no callback the gate follows is of that kind |
| PoolExact.FindingIsRealIff | scripts/check-tenant-table-on-pool.ts:366-380 | where the marks are exact a finding of a query is real: the table a site names is touched in some run, and one joined above it if and only if no call in between finishes the query |
| PoolExact.UnresolvedIsReal | scripts/check-tenant-table-on-pool.ts:282-283 | where the marks are exact, what the gate says it cannot find is missing: some run hands the pool to that call, which lands nowhere |
| PoolLimits.KeptEscapes | scripts/check-tenant-table-on-pool.ts:370-380 | a query kept under a name and then joined: the only reason in its program, the gate silent about the table joined, and a run that touches it on the pool |
| PoolLimits.HeldEscapes | scripts/check-tenant-table-on-pool.ts:265-274 | the same for a transaction kept under a name before it is executed |
| PoolLimits.PassedEscapes | scripts/check-tenant-table-on-pool.ts:275-286 | the same for a query passed to a function that joins it |
| PoolLimits.CastEscapes | scripts/check-tenant-table-on-pool.ts:265-274 | the same for a cast around a transaction's callback |
| PoolLimits.ChainEscapes | scripts/check-tenant-table-on-pool.ts:371-380 | the same for a cast between a query and its join |
| PoolLimits.ChooseEscapes | scripts/check-tenant-table-on-pool.ts:262-264 | the same for a choice between the pool and another handle |
| PoolLimits.WithEscapes | scripts/check-tenant-table-on-pool.ts:182-188 | the same for a handle taken from the pool by a method the gate does not know |
| PoolLimits.FromEscapes | scripts/check-tenant-table-on-pool.ts:295-295 | the same for a table added to a query by a method without a join in its name |
| PoolLimits.ComputedEscapes | scripts/check-tenant-table-on-pool.ts:367-370 | the same for a table written in a cast: the gate counts the site and reads no table |
| PoolNames.NamesEscape | scripts/check-tenant-table-on-pool.ts:316-324 | for every number of names: a statement executed on the pool behind them touches its table; with at most eight the program gives no reason and the table is reported, with more that is the only reason and the gate is silent |
| Disk.MkdirAll | scripts/audit-gates.ts:1206-1206 | succeeds exactly when no file is in the way, and adds exactly the path's own prefixes |
| Disk.Rmdir | scripts/audit-gates.ts:1230-1238 | succeeds exactly on an existing empty directory and removes only it; the tree stays well formed |
| AuditGates.CleanUpUndoesMkdir | scripts/audit-gates.ts:1197-1238 | removing the created directories deepest first gives back the directories from before |
| AuditGates.PlantMeans | scripts/audit-gates.ts:1194-1210 | on the files of the planted tree: in append mode the file holds its old text followed by the body, else the body; the directories above it are made and every other file is as it was; planting fails exactly when a directory has the path or a file is in the way |
| AuditGates.CaughtMeans | scripts/audit-gates.ts:1211-1251 | a violation counts as noticed exactly when the command failed and its output has the words the case asks for, if it asks |
| AuditGates.RestoreUndoesPlant | scripts/audit-gates.ts:1197-1238 | for a command that leaves the planted tree alone, all three modes restore files and directories, the file's bytes read and written back |
| AuditGates.RestoreFrame | scripts/audit-gates.ts:1219-1238 | whatever the command did, restoring touches no other file and removes a directory only if it was made for this plant and is empty |
| AuditGates.AuditRun.SkipCollisions | scripts/audit-gates.ts:1163-1181 | the splices take out exactly the cases that would create what exists or append to what does not, leave the others in order, and list those taken |
| AuditGates.AuditRun.MissingDirs | scripts/audit-gates.ts:1197-1205 | the loop finds exactly the ancestors that do not exist, deepest last |
| AuditGates.AuditRun.RemoveDirs | scripts/audit-gates.ts:1228-1238 | the loop is the deepest-first removal that stops at the first refusal |
| AuditGates.AuditRun.Probe | scripts/audit-gates.ts:1197-1264 | one case, step by step: the command runs on the planted tree and no other, whether the case counts is what that command said of that tree, and its effect is that of the specification of a case; when a directory has the path or a file is in the way it throws and nothing has changed |
| AuditGates.AuditRun.Run | scripts/audit-gates.ts:1194-1264 | the loop over the cases has the effect of the specification of a run |
| AuditGates.AuditRun.Audit | scripts/audit-gates.ts:1163-1285 | the whole audit: with harmless commands the tree afterwards equals the one before if and only if every file stood in for survives the trip through text; the leftovers are exactly the accusations of the check, none after a crash, and after a harmless run exactly the watched directories that were empty before |
| AuditGates.HarmlessRunRestores | scripts/audit-gates.ts:14-17 | directories and file names are always restored; the bytes are exactly when each file stood in for is a fixed point of reading and writing, even when a later case throws |
| AuditGates.CaseFrame | scripts/audit-gates.ts:1197-1238 | one case: a path other than the probe's own that the command leaves alone is unchanged, and directories stay |
| AuditGates.RunKeepsForeignFile | scripts/audit-gates.ts:14-17 | over a whole run of commands that write anywhere, a path no probe uses and no command touches is unchanged, also when the run dies half way |
| AuditGates.RunKeepsDir | scripts/audit-gates.ts:1228-1238 | over a whole run, a directory that was there and that no command removes stays |
| AuditGates.EveryCaseCounts | scripts/audit-gates.ts:1241-1264 | a run that ends counts every case once, as a catch or a named miss |
| AuditGates.MissedAreUnnoticed | scripts/audit-gates.ts:1194-1264 | over a whole run: the gates named as missed are exactly those of the cases not noticed, in order, each judged on its own planted tree, and each case finds what the case before it restored |
| AuditGates.Leftovers | scripts/audit-gates.ts:1266-1285 | the check reports exactly the watched probe files that exist and watched directories that are empty |
| AuditGates.LeftoverIsFalseAlarm | scripts/audit-gates.ts:1266-1285 | after a harmless run a path is accused exactly when it is a watched probe's directory that was there, and empty, before the run |
| AuditGates.BytesAreLost | scripts/audit-gates.ts:14-17 | a tree, a codec and a case whose command does nothing, after which the tree is not what it was |
| AuditGates.HollowIsAccused | scripts/audit-gates.ts:1281-1285 | a tree and a case after which the tree is what it was, and the check accuses its empty directory |
| EnableAll.Pass | scripts/enable-all-extensions.ts:54-60 | a pass reports its queue in order, enables nothing the requirements do not force, and refuses only what was not satisfied when it began |
| EnableAll.StuckIsSaturated | scripts/enable-all-extensions.ts:61-64 | a pass that accepts nobody proves that nothing more can be enabled |
| EnableAll.SplitKeepsNames | scripts/enable-all-extensions.ts:59-65 | splitting a pass into accepted and refused loses and repeats no name |
| EnableAll.Run | scripts/enable-all-extensions.ts:52-66 | the loop ends in at most as many passes as names, reports each name exactly once, and enables exactly the least set the requirements force; acceptances come first, each after everything it requires, and a refusal lacks something at the end |
| EnableAll.OrderDoesNotMatter | scripts/enable-all-extensions.ts:52-66 | two catalogues of the same names, in any orders, enable the same extensions |
| WorkerPool.StepKeeps | bench/benchmarks/rest-crud.bench.ts:122-137 | every step of every worker keeps: started tasks are 0, 1, 2, … and each is in flight, finished or failed, once |
| WorkerPool.RunKeeps | bench/benchmarks/rest-crud.bench.ts:116-137 | the same after every interleaving |
| WorkerPool.NeverTwiceNeverCrowded | bench/benchmarks/rest-crud.bench.ts:122-137 | no index is started twice or out of range, and at most `max(1, concurrency)` tasks are in flight at any moment |
| WorkerPool.ReturnMeansDone | bench/benchmarks/rest-crud.bench.ts:135-137 | when all workers have returned, every index was started once and every task finished |
| WorkerPool.SurvivorStartsAll | bench/benchmarks/rest-crud.bench.ts:122-137 | one worker that returns is enough for every index to have been started, whatever the others' tasks did |
| WorkerPool.StepsRunOut | bench/benchmarks/rest-crud.bench.ts:122-137 | every step brings the end closer, so every schedule ends |
| WorkerPool.NeverStuck | bench/benchmarks/rest-crud.bench.ts:122-137 | a step can be taken exactly while some worker has not stopped |
| ReleaseGate.CheckMigrationSuperset | scripts/release-gate.ts:66-151 | the list of breaches is exact, and the check passes if and only if the next tree is a superset or an announced squash that edits no migration but the baseline |
| ReleaseGate.MarkedForever | scripts/release-gate.ts:96-139 | once the baseline carries the marker, every later release keeps it and every migration byte for byte |
| ReleaseGate.OneSquashPerRun | scripts/release-gate.ts:96-139 | over a run of accepted releases at most one step removes or edits a migration; that step introduces the marker and edits none but the baseline |
| ReleaseGate.RunSplitsOnce | scripts/release-gate.ts:66-151 | so a run has at most one cut, and any two releases on one side of it agree on all the earlier one's migrations |
| I18nNamespaces.ScanOne | scripts/check-extension-i18n-namespaces.ts:114-157 | silent exactly when an extension that ships keys declares prefixes, claims all its keys and takes none of the shared ones; the squatting and unclaimed keys are listed exactly |
| I18nNamespaces.ScanPair | scripts/check-extension-i18n-namespaces.ts:159-176 | silent exactly when no prefix of one contains a prefix of the other, and each problem names two prefixes that do and who claims them |
| I18nNamespaces.ScanOverlaps | scripts/check-extension-i18n-namespaces.ts:159-176 | the loop over pairs is silent exactly when every two extensions are apart |
| I18nNamespaces.Scan | scripts/check-extension-i18n-namespaces.ts:103-176 | the gate is silent exactly when all extensions are in order and all that ship keys are pairwise apart |
| I18nNamespaces.CoversChain | scripts/check-extension-i18n-namespaces.ts:103-105 | two prefixes that cover one key contain one another |
| I18nNamespaces.CoversMeans | scripts/check-extension-i18n-namespaces.ts:103-105 | a prefix claims itself and whatever follows it after a dot, and no key that merely starts with its letters |
| I18nNamespaces.CleanMeans | scripts/check-extension-i18n-namespaces.ts:103-176 | silence, key by key and prefix by prefix: every key shipped but `$schema` is no shared word and lies within a prefix, and no two shippers' prefixes lie within one another |
| I18nNamespaces.SchemaIsNoMessage | scripts/check-extension-i18n-namespaces.ts:94-94 | `$schema` is never shipped and no merge takes it from an extension |
| I18nNamespaces.CleanMeansDisjoint | scripts/check-extension-i18n-namespaces.ts:103-176 | after a silent gate no key is shipped twice and none is in the shared vocabulary |
| I18nNamespaces.MergeLookup | scripts/check-extension-i18n-namespaces.ts:1-40 | when no two extensions disagree, the last-wins merge holds each shipped key's own text and the host's text elsewhere |
| I18nNamespaces.CleanMergeIsStable | scripts/check-extension-i18n-namespaces.ts:103-176 | after a silent gate the merge is the same for every load order, and every shared key keeps the host's value |
| I18nNamespaces.OrderMattersIff | scripts/check-extension-i18n-namespaces.ts:1-40 | the merge is independent of the load order if and only if no two extensions give one key different words |
| RouteCollision.Dispatch | scripts/route-collision-check.ts:5-9 | the router answers with the first registered route that matches, and with none exactly when none matches |
| RouteCollision.MatchIsFilling | scripts/route-collision-check.ts:93-95 | a route takes a path exactly when the path is the route with some values for its parameters |
| RouteCollision.Shadows | scripts/route-collision-check.ts:93-110 | true exactly when method, scope and length agree, the later route has no parameter, the earlier has one, and each segment of the earlier is a parameter or the same |
| RouteCollision.Collisions | scripts/route-collision-check.ts:119-138 | the reported pairs are exactly the shadowing pairs in registration order, each once |
| RouteCollision.ShadowedIsUnreachable | scripts/route-collision-check.ts:5-9 | a reported route answers no request at all |
| RouteCollision.CleanMeansReachable | scripts/route-collision-check.ts:5-9 | with nothing reported, a static route answers its own path unless an identical one came first, and then that one does |
| SqlLists.ReadGroup | scripts/check-insert-schema-match.ts:169-187 | the group read is the text up to the matching parenthesis outside quotes; nothing when it never closes |
| SqlLists.SplitTopLevel | scripts/check-insert-schema-match.ts:142-167 | the parts are those of the recursive reader of quotes, parentheses and commas, which the round trips below pin down |
| SqlLists.CloseElement | scripts/check-insert-schema-match.ts:169-187 | the search for the closing parenthesis passes over a balanced element, wherever it stands, without losing its depth |
| SqlLists.SplitElement | scripts/check-insert-schema-match.ts:142-167 | the splitter takes in a balanced element whole, quoted commas and nested calls included |
| SqlLists.ReadList | scripts/check-insert-schema-match.ts:142-187 | reading a group and splitting it is the reference reading of a list |
| SqlLists.PrintedListReadsBack | scripts/check-insert-schema-match.ts:142-187 | round trip: any nonempty list of well-formed elements with white space around them, printed anywhere in a text, reads back as exactly those elements trimmed, but for a blank last one |
| SqlLists.TrimMeans | scripts/check-insert-schema-match.ts:158-165 | trimming takes blanks, tabs and line breaks off both ends and nothing of the text between |
| SqlLists.UnclosedListIsNone | scripts/check-insert-schema-match.ts:169-187 | a list that is not closed is not read |
| SqlLists.OpenStringIsClosed | scripts/check-insert-schema-match.ts:150-156 | a string left open at the end is closed |
| SqlLists.ReadTuples | scripts/check-insert-schema-match.ts:346-369 | the loop over the tuples after VALUES is the reference reading of rows |
| SqlLists.PrintedRowsReadBack | scripts/check-insert-schema-match.ts:336-370 | round trip for any number of tuples, whatever commas and white space stand between them: exactly the rows printed, and reading stops after the last |
| SqlBlanking.FindBodyEnd | scripts/check-insert-schema-match.ts:296-320 | the scan for the end of a template body is the reference scan that the next row pins down |
| SqlBlanking.WrittenBodyIsFound | scripts/check-insert-schema-match.ts:296-320 | round trip: a body written from characters, escapes and balanced `${…}` in front of a backtick, wherever it stands, ends at that backtick |
| SqlBlanking.SqlTemplateBodies | scripts/check-insert-schema-match.ts:285-334 | the length is kept; inside a template body every character stays, outside one a line break stays and everything else is blank; and for a file written as sections, exactly their bodies stay |
| SqlBlanking.WrittenFileIsBlanked | scripts/check-insert-schema-match.ts:285-334 | round trip: a file written as text, templates and text, each body found where it opens, blanks to those bodies in their places |
| SqlBlanking.StripSqlComments | scripts/check-insert-schema-match.ts:246-283 | whatever parts the text is written from, exactly its code, its strings and the line breaks of its block comments are left |
| SqlBlanking.WrittenSqlStrips | scripts/check-insert-schema-match.ts:246-283 | round trip: a text written from code, quoted strings, `--` comments up to their line break and `/*…*/` comments strips to exactly its code, its strings and its line breaks, the last part left open or not |
| SqlBlanking.EveryTextIsWritten | scripts/check-insert-schema-match.ts:246-283 | and every text is written from such parts |
| SqlBlanking.SurvivorsKeepTheirLine | scripts/check-insert-schema-match.ts:246-283 | every line break and every character of a quoted string survives, and each survivor stands on the line it stood on |
| SqlBlanking.LineThroughAll | scripts/check-insert-schema-match.ts:336-351 | a character that survives blanking, masking and stripping is reported on its line of the source file if and only if no placeholder before it spans a line break, and otherwise on an earlier line |
| SqlBlanking.Statements | scripts/check-insert-schema-match.ts:336-337 | the three steps as the script composes them keep that promise for every position |
| SqlBlanking.MaskPlaceholders | scripts/check-insert-schema-match.ts:103-140 | the nested loops over strings and braces are the reference mask |
| SqlBlanking.WrittenTextIsMasked | scripts/check-insert-schema-match.ts:103-140 | round trip: a text written from characters and placeholders masks to its characters with a `?` for each placeholder |
| SqlBlanking.WrittenPlaceholderIsFound | scripts/check-insert-schema-match.ts:111-131 | round trip: a placeholder written from balanced braces, closed strings and other characters, wherever it stands, ends at its own brace |
| SqlBlanking.MaskKeepsLinesIff | scripts/check-insert-schema-match.ts:103-140 | masking never adds a line, and keeps them all if and only if no placeholder spans a line break |
| SqlBlanking.MaskLosesALine | scripts/check-insert-schema-match.ts:103-140 | an input on which a line is lost |
| LineLookup.LineStarts | scripts/schema-drift-check.ts:565-570 | the table holds every line start, once, in order |
| LineLookup.LineOf | scripts/schema-drift-check.ts:571-579 | the binary search gives one plus the number of line breaks before the offset, for every text and offset |
| SchemaTable.IndexOf | scripts/schema-codegen.ts:163-167 | the rebuilt index maps each column to its exact position and nothing else |
| SchemaTable.Table.AddColumn | scripts/schema-codegen.ts:151-155 | adding refines the ordered list (first declarer wins) and keeps the index exact |
| SchemaTable.Table.Modify | scripts/schema-codegen.ts:157-161 | a change of nullability, default or value set gives the named column that value, and leaves its other attributes and every other column alone |
| SchemaTable.Table.DropColumn | scripts/schema-codegen.ts:163-167 | dropping takes out exactly the column at the index, keeps the order of the others and rebuilds an exact index |
| SchemaTable.Table.Replay | scripts/schema-codegen.ts:173-256 | any sequence of changes leaves the table equal to the replayed list, its index exact |
| SchemaTable.HistoryKeepsUnique | scripts/schema-codegen.ts:142-167 | no history makes two columns of one name |
| SchemaTable.HistoryDecidesColumns | scripts/schema-codegen.ts:142-167 | both ways: a column is there exactly when some change adds it and none after drops it, or it was there and none drops it |
| SchemaTable.ColumnsAreAsLastSet | scripts/schema-codegen.ts:142-251 | after any history a column is a declaration that still stands, with the nullability, the default and the value set last given to its name since, and nothing else changed |
| SchemaTable.ReAddGoesLast | scripts/schema-codegen.ts:151-167 | a name added again after a drop goes to the end; one already there keeps its place and first declaration |
| SchemaFile.Slot.ReadCreates | scripts/schema-codegen.ts:173-187 | the first loop reads every CREATE, in order, into the table |
| SchemaFile.Slot.ReadKind | scripts/schema-codegen.ts:196-224 | one kind of change in an ALTER: the table is made when there is any, and the changes are applied in order |
| SchemaFile.Slot.ReadAlters | scripts/schema-codegen.ts:189-251 | each ALTER is read for additions, then nullability, then defaults, then value sets |
| SchemaFile.Slot.DropTables | scripts/schema-codegen.ts:254-254 | the table goes exactly when some drop of it is followed by no CREATE |
| SchemaFile.Slot.DropColumns | scripts/schema-codegen.ts:255-255 | each drop goes through, in order, that no ALTER after its own takes back |
| SchemaFile.Slot.ParseFile | scripts/schema-codegen.ts:173-256 | one file does to the table what its phases, one after the other, do |
| SchemaFile.ReplayIs | scripts/schema-codegen.ts:173-256 | the phases come to one list of changes, or to no table |
| SchemaFile.TableGoesIff | scripts/schema-codegen.ts:254-254 | the script ends without the table exactly when some drop of it has no CREATE after it, or it was not there and nothing asks for it |
| SchemaFile.ReplayHas | scripts/schema-codegen.ts:173-256 | for every table, file and name: a column is there after a file exactly when it was or is added, no drop of it is final, and no drop of the table is |
| SchemaFile.WrittenHas | scripts/schema-codegen.ts:173-256 | the same for the statements in written order: a column is there exactly when the last change of it since the table was last dropped adds it, or it was there and neither it nor the table is ever dropped |
| SchemaFile.PresenceAgreesIff | scripts/lib/sql-drops.ts:40-56 | for every table and name, and every file that drops no table: script and written order agree on the column being there if and only if its last drop is not undone where the script does not look, later in its own ALTER or by a CREATE |
| SchemaOrder.ReadOrderMattersIff | scripts/schema-codegen.ts:173-256 | for every file that drops no table: the script gives every table what the changes give it one by one in the order they are read, if and only if no name is dropped and added again after its last drop |
| SchemaBuild.OldAndNew | scripts/schema-codegen.ts:151-161 | changes without drops set attributes of the columns that are there, kind by kind, and add after them what they would add to an empty table, but for the names there |
| SchemaBuild.SameSets | scripts/schema-codegen.ts:202-251 | reading a file kind by kind sets each attribute in the order in which the file sets it |
| SchemaBuild.AlikeEverywhere | scripts/schema-codegen.ts:173-251 | changes without drops that set the same attributes and do the same to the empty table, but for some names, do the same to every table |
| SchemaOrder.TidyBuildsAlike | scripts/schema-codegen.ts:173-256 | a file written in the order it is read builds the empty table alike |
| SchemaOrder.WrittenOrderMattersIff | scripts/schema-codegen.ts:173-256 | for every file: the script gives every entry what the statements in written order give it, if and only if the file keeps the table, adds no name again after its last drop and builds the empty table alike in both orders but for the names it drops; or drops the table and declares nothing of it after the last drop |
| SchemaOrder.TableDropMattersIff | scripts/lib/sql-drops.ts:24-38 | a file that drops the table agrees with its written order, for every entry, if and only if nothing after the last drop declares the table again |
| SchemaOrder.PresenceAfterDropIff | scripts/lib/sql-drops.ts:24-56 | for every table and name, and every file that drops the table: script and written order agree on the column being there if and only if it is neither added for good after the last drop where the script does not look, nor outlives that drop because the table is created again |
| SchemaOrder.LostInOneAlter | scripts/lib/sql-drops.ts:40-56 | an ALTER that drops a column and adds it again: the column is gone |
| SchemaOrder.StaleReAdd | scripts/lib/sql-drops.ts:11-13 | two ALTERs that do so: the old column stays, with its type and in its place |
| SchemaOrder.RecreatedKeepsOld | scripts/lib/sql-drops.ts:24-38 | a table dropped and created again: its old columns stay |
| SchemaOrder.CreateIsReadFirst | scripts/schema-codegen.ts:176-200 | a CREATE after an ALTER: the columns come in another order, nothing is dropped, and the file does not build the empty table alike |
| SchemaOrder.SetMakesTable | scripts/schema-codegen.ts:207-209 | an ALTER that only sets an attribute makes an unknown table one with no columns |
| Lcov.Merge.Parse | scripts/merge-coverage.ts:111-135 | after each report the map is exactly the maximum over all reports read, per file and line |
| Lcov.UnionIsUnique | scripts/merge-coverage.ts:111-135 | reports that agree on the lines they count have one merge only |
| Lcov.MergeIgnoresOrder | scripts/merge-coverage.ts:111-135 | the merge ignores order and duplicates, and a line is covered in it if and only if some report hit it |
| Lcov.SortedIsAscending | scripts/merge-coverage.ts:181-185 | the printed order of the lines is ascending and complete |
| Lcov.HitAtMostFound | scripts/merge-coverage.ts:186-193 | no file has more lines hit than found |
| Lcov.BlockTotals | scripts/merge-coverage.ts:180-200 | the LF and LH printed at the end of a block are the number of DA lines above them and of those with hits |
| Lcov.MergeIsPrintable | scripts/merge-coverage.ts:111-135 | every merge has normalised paths and no line that carries no code, as printing needs |
| Lcov.Print | scripts/merge-coverage.ts:178-203 | the printer writes one block per file, in the order given |
| Lcov.EngineSourceMeans | scripts/merge-coverage.ts:164-168 | segment by segment: a file is kept exactly when a directory `src` is on its path and neither `node_modules` nor `dist` is one below the first |
| Lcov.PrintedCounts | scripts/merge-coverage.ts:178-203 | the printed report counts a line with some hits exactly when the map holds it with those hits |
| Lcov.PrintReadsBack | scripts/merge-coverage.ts:111-203 | round trip: reading the printed merge gives exactly the merge, for any order of files |
| Lcov.PrintAndRead | scripts/merge-coverage.ts:164-203 | merging, keeping the engine's own files, printing and reading again gives exactly the filtered merge |
| ReviewSessions.CompareLaws | scripts/lib/review-sessions.ts:24-33 | date, then sequence number, then name is a total preorder for every lawful collation |
| ReviewSessions.DatesThenNumbersThenNames | scripts/lib/review-sessions.ts:1-13 | down the result dates never fall, on one date entries without a file come first and then sequence numbers never fall, and at one number names never fall |
| ReviewSessions.TiesMean | scripts/lib/review-sessions.ts:24-33 | entries tie exactly when their dates and names compare as equal, both or neither have a file, and their sequence numbers are the same |
| ReviewSessions.OrderKeepsAll | scripts/lib/review-sessions.ts:21-34 | the result is a permutation of what was read |
| ReviewSessions.OrderIsStable | scripts/lib/review-sessions.ts:21-34 | the result is in that order, and entries that tie are all there, exactly as they were read |
| ReviewSessions.SameOrderIff | scripts/lib/review-sessions.ts:21-34 | two listings come out the same if and only if every group of ties was read in the same order in both |
| ReviewSessions.ListingDoesNotMatter | scripts/lib/review-sessions.ts:1-13 | with ledger names the collation tells apart, the directory's order is irrelevant; legacy entries keep their own order |
| Slope.SlopeOf | bench/soak.ts:56-69 | zero for fewer than two samples or equal abscissae; for every other sample list the line through the means with this slope fits strictly better than every other line |
| Slope.SpreadIsZeroIff | bench/soak.ts:62-68 | the denominator is zero if and only if all abscissae are equal, and is never negative |
| Slope.MisfitExpands | bench/soak.ts:56-69 | the sum of squared residuals of any line, in terms of the deviations from any centre |
| Slope.LeastSquares | bench/soak.ts:56-69 | no other line has as small a sum of squared residuals |
| Percentiles.PercentileIsNearestRank | bench/lib/stats.ts:10-18 | the result is a sample, at least p percent of the samples are at or below it, and no smaller sample has that many |
| Percentiles.AtMostCounts | bench/lib/stats.ts:13-17 | the samples at or below a value are counted position by position |
| Percentiles.PercentileRange | bench/lib/stats.ts:11-12 | no samples give `NaN` whatever is asked for; else exactly the percentiles outside 0 to 100 throw |
| Percentiles.PercentileIgnoresOrder | bench/lib/stats.ts:10-18 | the order of the samples does not matter, out-of-range and empty inputs included |
| Percentiles.PercentileGrows | bench/lib/stats.ts:10-18 | a higher percentile is never lower |
| Percentiles.SummaryIsOrdered | bench/lib/stats.ts:33-61 | min, p50, p95, p99 and max of a summary are in order, the extremes are samples, and there is a summary exactly when there are samples |
| Percentiles.SummaryMeans | bench/lib/stats.ts:50-60 | min and max are the least and greatest samples, and p50, p95 and p99 the nearest ranks at 50, 95 and 99 percent |

## Left out

- PoolSoundness.CleanVerdictIsSafe: holds for programs whose values the gate can follow
  (`PoolMachine.Followed`): no node gives one of the six reasons that let a value escape. The three that
  concern one call (`PoolMachine.Local`) excuse that call and nothing else. The six are sufficient, not
  necessary, for a whole program: a query kept under a name may never be joined. Each reason is needed,
  as `PoolLimits` and `PoolNames` show.
- PoolSoundness.Check: the machine has no reassignment, object properties, return values, default or
  rest-bound handles, functions passed as values, user methods or switch clauses; a function imported
  from outside `routes/` is no event; and a query touches the tables its methods name, not those of a
  subquery or a fragment inside another argument, of `selectNoFrom` or of `executeQuery`. Those flows are
  outside both the gate and the model. Function names and variable names live in separate tables.
- PoolSoundness.CalleeAgrees: import paths are resolved already; a name is imported from one place.
- PoolGate.Judgement.Report: the text and line of a finding, and the empty list of allowed sites.
- PoolGate.Judgement.ReportBodies: which tables a statement's text names is an input of the statement.
- AuditGates.AuditRun.Audit: a command is a function of the file system; time, processes and the filter
  on gate names are not modelled, and any file error ends the run as an uncaught throw does.
- AuditGates.HarmlessRunRestores: reading and writing text is any codec for which doing it twice is doing
  it once, as UTF-8 with replacement characters is.
- EnableAll.Run: the engine accepts an extension exactly when what it requires is already on.
- ReleaseGate.CheckMigrationSuperset: content equality stands for equal hashes and the squash marker is
  any pattern on the baseline's text; unreadable blobs, a missing previous tag and prereleases are left out.
- I18nNamespaces.Scan: finding the catalogues and manifests on disk.
- RouteCollision.Dispatch: `all`, wildcards and parameters with patterns; the parser of route files.
- SqlBlanking.SqlTemplateBodies: the pattern that opens a template is an input, position by position.
- SqlBlanking.WrittenFileIsBlanked: for templates that are closed; `SqlBlanking.SqlTemplateBodies` covers
  every file, position by position.
- SchemaTable.Table.Replay: which text makes a change is an input; array types are not modelled.
- SchemaFile.Slot.ParseFile: the statements about one table; those about others do not touch it. The
  patterns that recognise a statement, and where they disagree on its spelling, are left out.
- SchemaOrder.ReadOrderMattersIff: for files that drop no table; `SchemaOrder.WrittenOrderMattersIff`
  covers every file.
- Lcov.Merge.Parse: which lines carry no code is an input; the per-bucket summary is not modelled.
- Lcov.Print: the files come in any given order.
- ReviewSessions.OrderIsStable: collation and the number in a file name are parameters.
- WorkerPool.StepKeeps: the workers are a state machine over values, one step per stretch between two
  awaits; a task is only its index and whether it resolves or rejects.
- Slope.SlopeOf: real arithmetic; rounding is not modelled.
- Percentiles.SummaryIsOrdered: mean, deviation and throughput; percentiles are over the reals.
- The count ratchets, the import boundaries, the version checks and the tenant-boundary gate: one-step
  comparisons, or not provable without assumptions their scripts do not check.
