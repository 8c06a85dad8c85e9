# Verification of figura and the engine launcher

A Dafny project that models the parts of the repository with the most state, branching and
arithmetic, and proves what they promise; `dafny verify dfyconfig.toml` checks all of it. Every
method with a loop or with fields is proved against a specification function, and the lemmas
say what that function means.

| component | files | main results |
|---|---|---|
| ERD pipeline: schema, components, greedy split with a memo, drawing | `Names`, `ErdTypes`, `ErdModel`, `ErdSchema`, `ErdComponents`, `ErdGrowth`, `ErdSplitLaws`, `ErdDomains`, `ErdChoices`, `ErdSplitOrder`, `ErdSplit`, `ErdDraw`, `ErdReading`, `ErdTopLevel`, `ErdPlan`, `ErdOrder` | closed models; components are the link classes; the split is a partition by greedy growth inside the declared domains; a drawing read back; exactly when the memo is invisible and the input order does not show; from schema to diagrams every table is opened once and every relation drawn once, with its rows |
| Print scales and size checks | `LayoutScale` | exact thresholds; when accepted parts pass together |
| Engine launcher | `Launcher`, `LauncherProgress` | any number of launchers, curl processes and signals: only verified bytes run, the sweep spares the living, every launcher can come to serve |
| CDP session | `CdpProtocol`, `CdpOutcomes`, `CdpFraming`, `CdpSession` | each call settled exactly once, by the first step that concerns it; first failure wins; chunking does not matter |
| Print rewrites | `HtmlTokens`, `OpenElements`, `KeepGroups`, `KeepScan`, `KeepWhole`, `KeepNesting`, `KeepTags`, `KeepPlaces`, `CodeBreaks`, `UntouchedBlocks`, `InlineCode` | insertion only, nesting kept, maximal groups, exactly when the scan ends, exact break places |
| Mask to clip path, splicing | `ClipPath`, `Splicing` | the same points are painted; back-to-front replacement is assembly |
| TypeORM reader | `TypeormTokens`, `TypeormValues`, `TypeormEntities`, `TypeormJoins`, `TypeormResolution`, `TypeormDrafts`, `TypeormReader`, `TypeormSchema`, `TypeormNames`, `TypeormDecorators`, `TypeormWarnings`, `TypeormNotes` | literal round trip; closed schema after all mutation, each relation and column named as its decorators say; exactly what the warning names; which decorators are lost without a word |
| Version bumps | `Versions`, `AutoBump` | exactly the changed bundles are bumped; a version names its content |

`Optional` holds the one shared option type. The measure of the splitter (does a part fit a
page) is an arbitrary function from a list of tables to problems, so every theorem holds for
any renderer; in `ErdPlan` it renders the drawing of the model. The digest of the launcher, the JSON
parser of the session, the pin restamper and the spelling of types and default names of the
TypeORM reader are arbitrary functions too.

Conditions the statements share: the splitter and the drawing get models whose tables have
distinct names and whose relations join declared tables, which `ErdModel.SchemaModel` proves of
every model it makes; measured sizes have
no sign and page limits are positive; well nested documents close their elements in order, void
and self-closed tags aside; in the launcher pids are not reused, a rename is atomic and file
operations do not fail; temp files of launchers that are gone may be there when a run starts.

## What the code does where its comments or use suggest more

- `plugin/bin/launch.sh:121-123`: the trap is set before `curl_pid` is. A signal between the
  fork of curl and the assignment is handled without killing curl, and the temp file can come
  back after the handler removed it. `HandlerLeavesNothingIff` gives the exact condition on
  the steps of the run; the next launcher sweeps the file once that curl has ended.
- `figura/scripts/inline-diagrams.mjs:28-29`: with overlapping cutouts the even-odd path paints
  where the mask hides. `AgreesIff` gives the exact condition for a point and
  `AgreesEverywhereIff` a finite one for the plane.
- `figura/scripts/print-pdf.mjs:95-109`: a heading or kept block that never closes makes
  `elementEnd` return -1, which as a position is the start of the document. `ScanEndsIff` says
  exactly when the two loops still end: only past a heading, and only when the document begins
  with a kept block that closes and all behind it does. `<h1>a` keeps the inner loop at the
  heading, `<p>x</p><h1>a` brings the outer loop back to it, `<div><h1>a</div>` ends.
  `DocumentIsKeptIff` says when such an output still holds the input once.
- `figura/scripts/print-pdf.mjs:114-132`: tags are stripped before references are counted, so a
  reference cut by a tag makes the visible length smaller than the running offset.
  `TallyIsVisibleLength` and `BreaksAreInner` give the exact effect on offset and breaks.
- `figura/scripts/print-pdf.mjs:146`: a block without an end ends the protection of itself and of
  everything behind it. `GetsBreakIff` says exactly which pre and svg elements get breaks and
  `BlockWithoutEndIff` which blocks have no end.
- `figura/scripts/print-pdf.mjs:105-107`: elementEnd counts a self-closed tag as an opening one,
  so a block that holds a self-closed namesake can seem to end behind itself, and its wrapper
  crosses the element around it (`NamesakeCrossesTheGroup`). `FoundAreBalancedIff` is exact.
- `figura/scripts/erd-split.mjs:92`, `figura/scripts/erd-model.mjs:93`: string keys can belong to
  two things. `JoinTellsTheLines` and `ColumnKeyTellsIff` say exactly when,
  `MemoAnswersRightIff` when the memo can then be trusted, and `ReferencesAreExactIff` when the
  references of a model are still right.
- `figura/scripts/erd-d2.mjs:80-88`: a domain and a table outside all domains can share one key.
  `TopLevelIsDistinctIff` says exactly when none do.
- `figura/scripts/erd-d2.mjs:89`: relations that sort by the same ends are drawn in the order the
  schema lists them. `DrawingIgnoresOrderIff` and `PlanIgnoresOrderIff` are exact, and
  `BothCardinalitiesShow` is an input.
- `figura/scripts/erd-source-typeorm.mjs:491-499`: of several decorators of one member one is
  read, and the others can be lost without a warning: `@PrimaryColumn()` beside
  `@ManyToOne(() => User)` leaves no relation (`KeyHidesItsRelation`). `DecoratorIsLostIff` and
  `LostIffReadBeside` say exactly when.
- `figura/scripts/erd-source-typeorm.mjs:436-445`: `class User extends base.User` keeps `User` as
  the name of its parent and, as the first class of that name, its lineage recurses for ever
  (`QualifiedNamesakeNeverEnds`). `ChainEndsIff` says exactly when lineage returns.
- `figura/scripts/erd-split.mjs:156-161`: parts are accepted at their own scale and printed at a
  shared one; with labels of different sizes an accepted part can fail there.
- `scripts/auto-bump.mjs:36-63`: a version taken a second time, by an author or by a bump to a
  patch some commit carried before, can hide a change of content. `VersionNamesContentIff` and
  `BumpNamesContentIff` give the exact condition.

## Model

| member | source | states |
|---|---|---|
| ErdModel.SchemaModel | figura/scripts/erd-model.mjs:47-88 | no problem is reported exactly when the schema is sound (table names present and distinct, columns named and typed, both ends of every relation declared, cardinalities allowed); whatever is reported, the model is closed and holds the first declaration of every named table as written, references aside, and exactly the accepted relations in order; the references of a column are the sorted targets of its key; the problems are those of the tables and then of the relations |
| ErdModel.ReadTables | figura/scripts/erd-model.mjs:50-58 | keeps the first declaration of every named table; no problem exactly when all names are present and distinct and all columns named and typed |
| ErdModel.ReadRelations | figura/scripts/erd-model.mjs:60-86 | a relation enters the model exactly when both ends exist and its cardinality is allowed |
| ErdSchema.ModelIsWritten | figura/scripts/erd-model.mjs:29-58 | the tables of the model are the first declarations of their names, in the order of the schema, each with its own domain or none and, column for column, the name, type, primary key, unique and nullable flags as written |
| ErdSchema.ProblemsAreThose | figura/scripts/erd-model.mjs:29-84 | problem by problem, both directions: a table without a name, a column without name or type, a name declared twice, a relation end at an unknown table or at an unknown column of a known one, and a cardinality not allowed are reported exactly when the schema has them |
| ErdModel.KeptNames | figura/scripts/erd-model.mjs:50-58 | a table name is in the model exactly when some declaration has that nonempty name |
| ErdModel.KeptAreDistinct | figura/scripts/erd-model.mjs:53-57 | the tables kept have distinct names; of a sound schema all are kept in order |
| ErdModel.AcceptedAreAccepted | figura/scripts/erd-model.mjs:61-85 | membership of the relations of the model, both directions; a schema whose relations are all accepted keeps them all |
| ErdModel.TargetsOfColumn | figura/scripts/erd-model.mjs:90-95 | the map built in one pass holds, for every key, the target tables of exactly the relations of that key |
| ErdModel.ReferencesAreExactIff | figura/scripts/erd-model.mjs:90-100 | every column lists exactly the tables its own relations point at if and only if columns that share a key agree: where a relation leaves another column of the same key, the column points at its target too |
| ErdModel.PlainNamesAgree | figura/scripts/erd-model.mjs:90-100 | they agree in particular when no table name is another one followed by a dot and more |
| ErdModel.ColumnKeyTellsIff | figura/scripts/erd-model.mjs:93 | for all ends: the texts table.column are equal exactly when the ends are, or one table is the other, a dot and x, and its column is the other without x and the dot |
| ErdModel.SubsetIsClosed | figura/scripts/erd-model.mjs:116-129 | a subset of a closed model is closed; it holds exactly the named tables, with every column and its references unchanged, and exactly the relations inside |
| ErdModel.CardinalityIsKey | figura/scripts/erd-model.mjs:16-20 | a foreign key is one-to-one exactly when its column alone is a key of its table: unique, or the only primary key column |
| ErdComponents.RelationCountsOf | figura/scripts/erd-split.mjs:22-30 | the counts the loop builds are those of the whole relation list |
| ErdComponents.CountsAreLinkCounts | figura/scripts/erd-split.mjs:22-30 | the entry of two tables is the number of relations between them in either direction, a self reference once, and absent when there is none |
| ErdComponents.CountsAreSymmetric | figura/scripts/erd-split.mjs:24-28 | every link is counted at both of its tables |
| ErdComponents.VisitComponent | figura/scripts/erd-split.mjs:37-48 | the queue visits exactly the unvisited tables linked to the start, each once |
| ErdComponents.ConnectedComponents | figura/scripts/erd-split.mjs:32-52 | the loop over the sorted start names returns the components of the specification |
| ErdComponents.ComponentsAreLinkClasses | figura/scripts/erd-split.mjs:32-52 | two tables share a component exactly when a chain of relations links them; every table is in one; components are sorted and come in ascending order of their least names |
| ErdComponents.ChainStaysInside | figura/scripts/erd-split.mjs:40-48 | a chain of relations never leaves a set of tables closed under links |
| ErdComponents.ClosedIsReached | figura/scripts/erd-split.mjs:40-48 | a closed set that holds the start holds everything reached from it |
| ErdChoices.ComponentsAreChained | figura/scripts/erd-split.mjs:32-52 | in terms of the relations alone: every table is in a component, and two tables share one exactly when a chain of relations leads from one to the other |
| ErdGrowth.NextCandidate | figura/scripts/erd-split.mjs:78-84 | the candidate has the most relations into the part of all unplaced tables, ties by name; the first name when none has any |
| ErdSplitLaws.SplitIsSound | figura/scripts/erd-split.mjs:86-129 | for every model with declared relation ends and every measure: parts and tables refused alone hold every table exactly once; every part fits and every refused table fails alone, with the problems measured; a component that fits is one part; any other part lies in one domain of one component (ErdDomains.SplitKeepsDomains says what its domain is); a part closed with tables left was closed by the best linked of them not fitting, and the tables left at a part or a refusal are all those of its domain and component that later steps of the whole list place |
| ErdChoices.SplitIsGreedy | figura/scripts/erd-split.mjs:66-121 | in terms of the relations alone: every grown part was started with a table that has the most neighbours among the tables of its group then unplaced, took each time the table with the most relations into it, names deciding ties, every beginning of it fits, and where tables were left the next one does not fit; every table refused was such a start and fails alone |
| ErdDomains.SplitKeepsDomains | figura/scripts/erd-split.mjs:54-64 | in terms of the domains the tables declare, no domain and the empty one being the same: the tables of a part that is no whole component, and of a table refused, share their domain; where a component does not fit, its tables of one domain are one part exactly when they fit together; the parts come by component, components by their least names, and within one by domain, the tables without a domain last |
| ErdSplitLaws.GrowPartTables | figura/scripts/erd-split.mjs:111-118 | growing moves tables between the part and the unplaced without losing or repeating one |
| ErdSplitLaws.GrowPartFits | figura/scripts/erd-split.mjs:111-118 | a grown part fits and was closed only by its best candidate not fitting or by nothing being left |
| ErdSplitLaws.FirstStepOk | figura/scripts/erd-split.mjs:103-119 | each turn refuses a table that fails alone or places a fitting part that holds the most connected unplaced table |
| ErdSplitLaws.GrowPlaced | figura/scripts/erd-split.mjs:101-121 | a whole group is placed exactly once by its turns |
| ErdSplitLaws.GrowLeavesInGroup | figura/scripts/erd-split.mjs:103-120 | at every grown part the tables left are exactly those of the group that the later steps of its growth place |
| ErdSplitLaws.GroupsArePartition | figura/scripts/erd-split.mjs:54-64 | the domain groups of a component hold each of its tables once |
| ErdSplitLaws.GroupsLaws | figura/scripts/erd-split.mjs:54-64 | each group is sorted, not empty, and holds exactly the tables of one domain |
| ErdSplitLaws.ComponentsArePartition | figura/scripts/erd-split.mjs:32-52 | the components hold every table exactly once |
| ErdSplitOrder.SplitIgnoresOrder | figura/scripts/erd-split.mjs:86-129 | two models of distinct tables, reorderings of each other in tables and relations, are split into the same parts in the same order, for any measure |
| ErdSplitOrder.CountsIgnoreOrder | figura/scripts/erd-split.mjs:22-30 | reordering relations leaves the link counts unchanged |
| ErdSplitOrder.DomainsIgnoreOrder | figura/scripts/erd-split.mjs:55 | reordering tables of distinct names leaves the domain of every table unchanged |
| ErdSplit.SplitIntoParts | figura/scripts/erd-split.mjs:86-129 | for every model with declared relation ends: every table is in one part or refused alone, once; no set of tables is measured twice; n tables take at most 3n measurements; where sorted lists of the names can be told apart by their lines the loops with their memo return exactly the parts and refusals of the steps that ErdDomains.SplitKeepsDomains and ErdChoices.SplitIsGreedy describe |
| ErdSplit.JoinTellsTheLines | figura/scripts/erd-split.mjs:92 | two lists share a joined key exactly when their names hold the same lines, for all lists |
| ErdSplit.JoinIsInjective | figura/scripts/erd-split.mjs:92 | so without newlines in names the joined key tells the list of tables |
| ErdSplit.NewlineBreaksTheKey | figura/scripts/erd-split.mjs:92 | every name with a newline shares its key with the list of its lines |
| ErdSplit.MemoHit | figura/scripts/erd-split.mjs:91-95 | a key found in the table carries the problems of the list asked about, where the names tell the lists apart |
| ErdSplit.MemoAnswersRightIff | figura/scripts/erd-split.mjs:91-95 | for every set of names: the memo answers right for all measures exactly when no two sorted lists of the names hold the same lines |
| ErdSplit.MemoMeasuresOnce | figura/scripts/erd-split.mjs:90-95 | a memo over sorted lists never measures the same set of tables twice |
| ErdSplit.DomainGroups | figura/scripts/erd-split.mjs:54-64 | the loop groups the tables by domain and returns the groups of the specification, each sorted; ErdDomains.SplitKeepsDomains gives their order |
| ErdSplit.Splitter.SizeProblems | figura/scripts/erd-split.mjs:91-95 | the memoized answer equals a direct measurement where the names tell the lists apart; one more question is counted |
| ErdSplit.Splitter.GrowFrom | figura/scripts/erd-split.mjs:111-118 | the inner loop moves tables from the unplaced to the part, within its budget of questions, and ends with what greedy growth defines where the names tell the lists apart |
| ErdSplit.Splitter.GrowParts | figura/scripts/erd-split.mjs:101-121 | places each table of the group once, in at most twice its size questions, by the steps of growing it where the names tell the lists apart |
| ErdSplit.Splitter.PlaceComponent | figura/scripts/erd-split.mjs:122-127 | places each table of the component once, in at most three questions a table, by the steps the split defines where the names tell the lists apart |
| ErdDraw.ErdD2 | figura/scripts/erd-d2.mjs:74-97 | the pushed lines are those of the specified drawing, which ErdReading.DrawingIsRead reads back |
| ErdReading.DrawingIsRead | figura/scripts/erd-d2.mjs:74-97 | for distinct tables: read line by line a diagram is well formed (tables open in at most one domain, rows inside their own table, edges outside of both) and closes all it opens; the reader finds one box for every table of the part, at its own path, by domain and then by name, tables outside all domains last, with the shown columns in the order of the table, and the relations inside the part with repeats, in ascending order of their ends |
| ErdReading.ColumnIsRowIff | figura/scripts/erd-d2.mjs:54-72 | for every table of the part: a column is a row exactly when it shares its key with an end of some relation, or (key columns only were not asked for, or it is a primary key, unique or has references) and (service columns are not hidden, or its name is none of created_at, updated_at, deleted_at, createdAt, updatedAt, deletedAt) |
| ErdDraw.DrawingDraws | figura/scripts/erd-d2.mjs:80-95 | read line by line with the domain that is open at each, a diagram opens exactly its tables with repeats, each at its own domain or outside all of them, leaves no domain open, and has exactly the edges of the relations inside the part that are no self references, with repeats |
| ErdDraw.PartIsOpenedOnce | figura/scripts/erd-d2.mjs:74-88 | for distinct tables: a diagram opens exactly the tables of its part that the model declares, each once, between the lines of its own domain or outside all |
| ErdDraw.VisibleColumnIsRow | figura/scripts/erd-d2.mjs:54-72 | every visible column of a table of the part is a row of its table; ErdReading.ColumnIsRowIff says which are visible |
| ErdDraw.RowsAreVisible | figura/scripts/erd-d2.mjs:54-72 | the rows drawn of a table are exactly its visible columns; ErdReading.ColumnIsRowIff says which are visible |
| ErdDraw.RelationEndIsRow | figura/scripts/erd-d2.mjs:50-60 | under every combination of column flags both end columns of a relation inside the part are rows of the diagram |
| ErdDraw.EdgesEndAtRows | figura/scripts/erd-d2.mjs:24-26 | each end of every edge line of a diagram of a closed model names its table by the path at which the diagram opens it, and its column is a row |
| ErdDraw.PartsAreDisjoint | figura/scripts/erd-split.mjs:162-171 | two parts of one split share no table |
| ErdDraw.RelationIsDrawnOnce | figura/scripts/erd-split.mjs:162-171 | over all diagrams of a split a relation that is no self reference is drawn as often as it is listed, in the one part that holds both its tables, or in none when no part does |
| Names.SortByKeeps | figura/scripts/erd-d2.mjs:77-89 | sorting by a key keeps every item with repeats and puts the keys in ascending order |
| Names.AscendingIsUnique | figura/scripts/erd-d2.mjs:77-89 | where a key belongs to one item there is one ascending order |
| Names.LessIff | figura/scripts/erd-d2.mjs:16-18 | a name comes before another exactly when it is a proper beginning of it, or at the first place where they differ has the smaller character |
| ErdPlan.PlanErdDiagrams | figura/scripts/erd-split.mjs:153-173 | for every closed model and whatever rendering finds: across the diagrams every table is opened exactly once at its own path or refused alone, nothing else is opened, and every relation that is no self reference is drawn as often as it is listed when some diagram holds both its tables; where the names tell the lists apart the diagrams are the drawings of the parts of the split, in order |
| ErdPlan.PlanIsComplete | figura/scripts/erd-split.mjs:153-173 | the same conservation law for the plan of the split without a memo |
| ErdPlan.PlanFits | figura/scripts/erd-split.mjs:153-173 | every diagram of the plan is the drawing of its own tables and renders without a problem; every table refused has the problems of its own drawing |
| ErdPlan.PlannedIsThat | figura/scripts/figura.mjs:282-288 | the planned model holds exactly the wanted tables, each with its columns and with the least domain one of whose patterns it matches or else its own, and exactly the relations between wanted tables |
| ErdPlan.PatternMeans | figura/scripts/erd-model.mjs:102-104 | a pattern that ends in a star matches the names that begin with what stands before it, any other pattern its own text only |
| ErdPlan.ErdCommand | figura/scripts/figura.mjs:281-297 | from schema to diagrams: reported exactly when the schema is not sound or a wanted table is not declared, with the problems of the schema and exactly the wanted names no table has; otherwise the model is the schema as written, and what is drawn is every planned table and relation; where the names tell the lists apart the result is the plan: its refusals where some table is too large alone, or else its diagrams |
| ErdPlan.DomainIsLeastMatch | figura/scripts/erd-model.mjs:106-114 | a table goes to the least domain one of whose patterns it matches, or keeps its own |
| ErdOrder.PlanIgnoresOrderIff | figura/scripts/erd-split.mjs:153-173 | with the measure planErdDiagrams builds from the model: for every reordering of tables and relations and whatever rendering finds the plan is the same, if and only if within every component of linked tables no two different relations sort by the same ends |
| ErdOrder.PlanIgnoresOrder | figura/scripts/erd-split.mjs:153-173 | under that condition two reorderings are measured, split, drawn and refused alike, line for line |
| ErdOrder.DrawingIgnoresOrderIff | figura/scripts/erd-d2.mjs:76-95 | a single diagram is the same for every order of the relations if and only if no two different relations inside its part sort by the same ends |
| ErdOrder.BothCardinalitiesShow | figura/scripts/erd-d2.mjs:89 | a relation listed with both cardinalities is drawn in the order listed |
| ErdSplitOrder.StepsAlike | figura/scripts/erd-split.mjs:86-129 | measures that answer alike on all lists within every component give the same split |
| ErdTopLevel.TopLevelIsDistinctIff | figura/scripts/erd-d2.mjs:80-88 | the keys at the top level of a diagram are all different exactly when no table outside all domains has the name of a domain of the part |
| LayoutScale.OwnScaleIsGreatest | figura/scripts/layout-checks.mjs:75-77 | the own scale is in (0,1], fits the diagram to the column, and no greater scale up to 1 does |
| LayoutScale.SharedIsSmallest | figura/scripts/layout-checks.mjs:81-82 | the diagram that sets the shared scale is the first ERD diagram with the smallest own scale |
| LayoutScale.PrintScalesFit | figura/scripts/layout-checks.mjs:79-86 | every print scale is in (0,1] and fits its diagram; the ERD scale is the greatest at which all ERD diagrams fit, and the diagram named as its setter is the first that has it as its own; any other diagram prints at its own scale and names itself |
| LayoutScale.DiagramSizeProblems | figura/scripts/layout-checks.mjs:93-130 | a label problem exactly when some label prints under the floor, a height problem exactly when the drawing prints taller than the limit, nothing else; the first shows a line exactly when the diagram set its own scale and is wider than the column, at the width whose scaled smallest label prints at the floor; the second at the height that prints at the limit |
| LayoutScale.ReportIsUnique | figura/scripts/layout-checks.mjs:93-130 | these conditions leave one report for every diagram and scale |
| LayoutScale.WidestReadableIsExact | figura/scripts/layout-checks.mjs:101-111 | at its own scale below 1 a diagram fails the label floor exactly when it is wider than the line drawn |
| LayoutScale.TallestFittingIsExact | figura/scripts/layout-checks.mjs:116-127 | at any scale a diagram fails the height check exactly when it is taller than the line drawn |
| LayoutScale.ShownLineIsInside | figura/scripts/layout-checks.mjs:104-118 | a line shown lies strictly inside the drawing |
| LayoutScale.AcceptedPartPassesIff | figura/scripts/erd-split.mjs:156-161 | parts accepted at their own scale pass together at the shared scale exactly when each stays readable at the width of the part that sets the scale |
| LayoutScale.EqualLabelsPassTogether | figura/scripts/erd-split.mjs:156-161 | parts accepted alone, with smallest labels of one size, all pass at the shared scale |
| LayoutScale.MixedLabelsCanFail | figura/scripts/erd-split.mjs:156-161 | with smallest labels of two sizes an accepted part can fail at the shared scale |
| LayoutScale.AcceptedStaysShortEnough | figura/scripts/layout-checks.mjs:116-117 | a part short enough at its own scale is short enough at every smaller one |
| Launcher.StepKeeps | plugin/bin/launch.sh:96-144 | every step of every launcher, curl process or signal keeps the invariant of files and stages |
| Launcher.RunKeeps | plugin/bin/launch.sh:96-144 | the invariant holds in every state of every run of any number of launchers |
| Launcher.OnlyVerifiedFilesRun | plugin/bin/launch.sh:115-144 | in every state of every run every executable file, cached or temporary, hashes to the pin, and a launcher about to serve or serving has a runnable cached binary |
| Launcher.CachedBinaryStaysRunnable | plugin/bin/launch.sh:136-137 | a cached binary once runnable stays runnable, whatever strikes |
| Launcher.SweepSparesTheLiving | plugin/bin/launch.sh:96-104 | a temp file goes away only by its own launcher or after that launcher is gone; a sweep removes only files of launchers that are gone |
| Launcher.RenameInstallsHashedBytes | plugin/bin/launch.sh:128-137 | wherever a rename happens the cached binary after it is the file that was hashed, byte for byte, and hashes to the pin; LauncherProgress.RightBytesAreInstalled says that it does happen |
| LauncherProgress.ComparesTheBytes | plugin/bin/launch.sh:132-135 | in every run a launcher that hashed its file goes on exactly by a comparison of bytes that hash to the pin, and begins to discard by its own step exactly by a comparison of bytes that do not |
| LauncherProgress.ChecksTheCache | plugin/bin/launch.sh:115 | in every run the test of the cached binary leads to a download exactly when there is no executable cached file |
| LauncherProgress.RightBytesAreInstalled | plugin/bin/launch.sh:124-138 | from any state in which a launcher waits, its curl has ended and its temp file hashes to the pin, its own steps up to the reset of the trap are enabled one after the other; then those bytes are the cached binary, executable, the temp file is gone, and no other file, launcher or curl changed |
| LauncherProgress.WrongBytesAreRemoved | plugin/bin/launch.sh:128-135 | the same with bytes that do not hash to the pin ends with the temp file removed, the launcher gone and nothing else changed |
| LauncherProgress.FailureIsRemoved | plugin/bin/launch.sh:124-131 | so does a failed download, and a machine without a hash tool |
| LauncherProgress.SignalIsHandled | plugin/bin/launch.sh:106-111 | a signal at any stage under the trap is handled to the end: the launcher is gone, its temp file removed, its curl killed where curl_pid was assigned, and nothing else changed |
| LauncherProgress.EveryLauncherCanServe | plugin/bin/launch.sh:96-144 | from every state of every run, whatever dead launchers left, a new launcher has a sequence of own steps, enabled one after the other, that ends with it serving: without a download the cached binary where that can be run, and otherwise, for any content that hashes to the pin, that content |
| LauncherProgress.TrapIsSetBetween | plugin/bin/launch.sh:121-138 | in every run a signal would run the handler of a live launcher exactly when the steps so far hold the setting of its trap and not the reset |
| Launcher.BytesAreKept | plugin/bin/launch.sh:128-137 | between hash and rename no step of another process changes the temp file |
| Launcher.SweepRemovesOrphans | plugin/bin/launch.sh:96-104 | after a sweep no temp file is left of a launcher that was gone, without a curl, when the sweep listed the files |
| Launcher.FailedDownloadLeavesNothing | plugin/bin/launch.sh:124-135 | after a failed download, hash tool or checksum no temp file of that launcher is there in any continuation of the run |
| Launcher.HandlerLeavesNothingIff | plugin/bin/launch.sh:106-111 | after the trap handler no temp file of the launcher is there in any continuation of the run, exactly unless the steps before hold its fork of curl but neither the assignment of curl_pid nor the end of that curl |
| Launcher.NeverBackIffNoCurl | plugin/bin/launch.sh:106-111 | the temp file of a launcher that is gone can come back in some continuation exactly when a curl of it still runs |
| Launcher.RunKeepsHistory | plugin/bin/launch.sh:119-123 | in every run the stage of a launcher and its curl agree with which of fork, assignment and end the steps so far hold |
| Launcher.SignalBeforeAssignmentLeavesAFile | plugin/bin/launch.sh:122-123 | a run in which a signal between the fork and the assignment of curl_pid leaves a curl running and its temp file behind |
| Launcher.StepSparesOtherFiles | plugin/bin/launch.sh:96-139 | no step touches the temp file or the curl of another live launcher |
| CdpProtocol.StepKeeps | figura/scripts/cdp-session.mjs:61-164 | every send, answer, event, timeout, failure or close keeps ids unique and each promise open or settled exactly once |
| CdpProtocol.RunKeeps | figura/scripts/cdp-session.mjs:61-164 | the same in every state reachable from a fresh session, in any order of steps |
| CdpProtocol.SettlementsStay | figura/scripts/cdp-session.mjs:61-164 | a settlement is never undone or changed |
| CdpProtocol.StepSettlesItsOwn | figura/scripts/cdp-session.mjs:137-164 | a step settles only open promises it is about: an answer its command, an event its hearers, a timeout its own, a failure those open; CdpOutcomes.FirstVerdictDecides says how |
| CdpOutcomes.FirstVerdictDecides | figura/scripts/cdp-session.mjs:61-164 | in every run a command or wait is settled by the first later step that concerns it, with what that step says and nothing else, and is open until then: a result resolves the command of its id, an error rejects it with CDP-COMMAND-FAILED and its method; an event resolves what waits for its method in its session with its params; a timer rejects with CDP-TIMEOUT and the method sent or awaited; a failure rejects everything |
| CdpOutcomes.ResolvedOnlyByAnswer | figura/scripts/cdp-session.mjs:142-148 | a command is resolved with a value only where a result of its id with that value was dispatched before |
| CdpOutcomes.ResolvedOnlyByEvent | figura/scripts/cdp-session.mjs:91-95 | a wait is resolved with a value only where an event of its method and its session with those params was dispatched after it began |
| CdpOutcomes.TimeoutRejects | figura/scripts/cdp-session.mjs:65-68 | every timeout step makes one settlement, the rejection of its own promise with CDP-TIMEOUT and the method that was sent or awaited |
| CdpOutcomes.EveryPromiseWasAskedFor | figura/scripts/cdp-session.mjs:61-101 | every promise of a session was handed out by a step that sent a command or began to wait |
| CdpOutcomes.WrittenInOrder | figura/scripts/cdp-session.mjs:61-120 | in every run each command sent, and each close, before a failure is written once, and the ids written are 1, 2, 3 and so on |
| CdpProtocol.AnswerSettlesItsCommand | figura/scripts/cdp-session.mjs:142-152 | an answer settles exactly the pending command of its id, and an unknown or late id changes nothing |
| CdpProtocol.NotifySettlesHearers | figura/scripts/cdp-session.mjs:91-95 | an event resolves exactly the waiters of its method and session, in order, and leaves the others |
| CdpProtocol.FailureRejectsEverything | figura/scripts/cdp-session.mjs:155-164 | the first failure rejects every open command and waiter with it and leaves none |
| CdpProtocol.FailedSessionStays | figura/scripts/cdp-session.mjs:62-80 | after a failure no step changes anything, nothing is open, no timer is set, and what send and waitForEvent hand back is that failure |
| CdpProtocol.FirstFailureWins | figura/scripts/cdp-session.mjs:155-157 | in every run a failed session stays as it is, and every later call is turned away with its first failure |
| CdpFraming.ReceivedFrames | figura/scripts/cdp-session.mjs:122-135 | receiving a chunk dispatches the messages it completes, in order, and keeps the remainder |
| CdpFraming.FramesConcat | figura/scripts/cdp-session.mjs:122-135 | the pieces of a longer stream are those of its front and those its remainder begins |
| CdpFraming.ChunkingDoesNotMatter | figura/scripts/cdp-session.mjs:122-135 | however a stream is cut into chunks, the messages dispatched are the NUL-separated pieces of the whole stream in order and the kept fragments joined are the remainder |
| CdpFraming.FramesAreThePieces | figura/scripts/cdp-session.mjs:122-135 | the pieces of a stream and its remainder hold no NUL, and with a NUL behind each piece they are the stream |
| CdpSession.CdpSession.Send | figura/scripts/cdp-session.mjs:61-72 | does to the session what a send step does; hands back the failure of a failed session, or else a fresh id |
| CdpSession.CdpSession.WaitForEvent | figura/scripts/cdp-session.mjs:79-101 | does what a wait step does |
| CdpSession.CdpSession.Receive | figura/scripts/cdp-session.mjs:122-135 | the loop over terminators does to the session what receiving the text means |
| CdpSession.CdpSession.Dispatch | figura/scripts/cdp-session.mjs:137-153 | does what an answer or event step does |
| CdpSession.CdpSession.FailAll | figura/scripts/cdp-session.mjs:155-164 | does what a failure step does; a second failure changes nothing |
| CdpSession.CdpSession.CommandTimedOut | figura/scripts/cdp-session.mjs:65-68 | the callback of a command timer does what a command timeout step does |
| CdpSession.CdpSession.WaiterTimedOut | figura/scripts/cdp-session.mjs:96-98 | the callback of a waiter timer does what a waiter timeout step does |
| CdpSession.CdpSession.WriteClose | figura/scripts/cdp-session.mjs:103-106 | writes the command of close with the next id, and nothing after a failure |
| HtmlTokens.ElementEnd | figura/scripts/print-pdf.mjs:68-77 | the loop over tags of one name returns the specified end |
| HtmlTokens.ElementEndIsTrueEnd | figura/scripts/print-pdf.mjs:68-77 | in a well nested document elementEnd finds the true matching end exactly when no self-closed namesake lies in the element; the tokens up to there are balanced |
| HtmlTokens.EndInside | figura/scripts/print-pdf.mjs:68-77 | the same from any position inside an element, for any elements open around it |
| HtmlTokens.InnerEndsFirst | figura/scripts/print-pdf.mjs:68-77 | what opens before the end of an element ends before it |
| OpenElements.NoEndIff | figura/scripts/print-pdf.mjs:68-77 | in a well nested document, where no namesake is open, elementEnd fails exactly on a self-closed element and on one that holds a self-closed namesake, and otherwise finds the true end |
| OpenElements.ElementEndCutsNothing | figura/scripts/print-pdf.mjs:68-77 | wherever elementEnd stops, every element opened on the way has ended by then |
| KeepGroups.KeepHeadingsWithNextBlock | figura/scripts/print-pdf.mjs:90-112 | on every document on which the scan ends the two loops end, and the output is the input with what the scan found copied and wrapped as it was found, also once past a heading that never closes |
| KeepGroups.FollowHeadings | figura/scripts/print-pdf.mjs:95-100 | the inner loop returns the end of the run of headings and the block after it, or -1 and the first element of the document when a heading of the run does not close |
| KeepGroups.ErasingGivesTheDocument | figura/scripts/print-pdf.mjs:107-111 | erasing the inserted wrappers gives back the input |
| KeepPlaces.OutputIsWritten | figura/scripts/print-pdf.mjs:90-112 | token by token: where all that is visited closes, the output is the input with an opening in front of the first heading of every group that has its block, a closing right behind that block, and nothing else |
| KeepPlaces.WrapperIsDiv | figura/scripts/print-pdf.mjs:107 | the wrapper is a div element |
| KeepNesting.KeepGroupsAreSound | figura/scripts/print-pdf.mjs:90-112 | on a well nested document where every heading and kept block the scan visits is whole (written with a close tag, without a self-closed namesake inside) the scan ends, the groups are in order and disjoint, the output is well nested, and erasing gives back the input |
| KeepNesting.FoundAreBalancedIff | figura/scripts/print-pdf.mjs:90-112 | in a well nested document where all visited closes, what the scan finds opens and closes whole elements if and only if every visited heading and kept block is whole |
| KeepWhole.StretchIsWholeIff | figura/scripts/print-pdf.mjs:68-77 | the stretch up to the end elementEnd finds closes nothing from before it exactly when the element is whole |
| KeepNesting.NamesakeCrossesTheGroup | figura/scripts/print-pdf.mjs:105-107 | a well nested document with a self-closed blockquote inside a visited one: everything visited closes and the output is not well nested |
| KeepNesting.GroupsAreMaximal | figura/scripts/print-pdf.mjs:94-109 | on a well nested document where everything visited is whole every group is a maximal run of headings with exactly one kept block after it, and every heading is covered by a run found |
| KeepTags.GroupsAreWritten | figura/scripts/print-pdf.mjs:90-112 | tag by tag on such a document: a group found holds h1 to h3 headings with nothing but white space between them, no further heading behind them, and the element behind them exactly when it is a figure, table, p, pre, ul, ol, div or blockquote; every h1 to h3 of the document lies in a group found |
| KeepTags.WhiteIs | figura/scripts/print-pdf.mjs:79-84 | space, tab, line feed, carriage return, no-break space and zero-width no-break space are white space; visible ASCII characters and the zero-width space are not |
| KeepNesting.HeadingRunIsChain | figura/scripts/print-pdf.mjs:97-100 | the run of headings is a chain in which each heading follows the end of the one before |
| KeepScan.ScanEndsIff | figura/scripts/print-pdf.mjs:90-112 | for every document: the scan, step by step, ends if and only if every heading and block it visits closes, or a heading is the first that does not while the first element of the document is a kept block that closes and everything visited behind that one closes |
| KeepScan.HeadingAloneNeverEnds | figura/scripts/print-pdf.mjs:95-100 | <h1>a: the inner loop never ends |
| KeepScan.HeadingBehindBlockNeverEnds | figura/scripts/print-pdf.mjs:94-109 | <p>x</p><h1>a: the outer loop never ends |
| KeepScan.HeadingInsideFirstBlockEnds | figura/scripts/print-pdf.mjs:95-109 | <div><h1>a</div>: the scan ends and the output holds the input once |
| KeepScan.CycleNeverEnds | figura/scripts/print-pdf.mjs:94-110 | a scan that comes back to a state it was in never ends |
| KeepScan.DocumentIsKeptIff | figura/scripts/print-pdf.mjs:107-111 | when the scan ends, erasing the wrappers gives back the input exactly when all it visited closes or the first element ends behind the heading that does not |
| CodeBreaks.WithBreakOpportunities | figura/scripts/print-pdf.mjs:118-134 | the replacement with its running offset marks exactly the runs wanted, and its offset is the tally of the scanned prefix |
| CodeBreaks.TallyIsVisibleLength | figura/scripts/print-pdf.mjs:114-134 | the running tally equals the visible length exactly when no character reference is cut in two by markup; otherwise the visible length is smaller |
| CodeBreaks.BreaksAreInner | figura/scripts/print-pdf.mjs:130-132 | for every content: a break goes after a separator run exactly when visible text stands before it and the tally behind it exceeds what cut references take off the length; a run with a break always has visible text on both sides; without cut references exactly those runs have one |
| CodeBreaks.CutReferenceLosesABreak | figura/scripts/print-pdf.mjs:115-132 | with a reference cut by a tag an inner run can go without its break |
| CodeBreaks.WithCodeBreakOpportunities | figura/scripts/print-pdf.mjs:140-152 | the loop over untouched blocks inserts breaks at exactly the places specified |
| CodeBreaks.CodeBreaksOnlyInsert | figura/scripts/print-pdf.mjs:140-152 | deleting the inserted breaks restores the document; a break stands only behind a separator run |
| InlineCode.BreakGoesIff | figura/scripts/print-pdf.mjs:136-152 | told by elements instead of loops: a break goes after a token exactly when a stretch between protected pre and svg blocks holds a code element, from an opening tag outside of earlier ones to the first closing tag, with that token a run that wants a break |
| InlineCode.InlineBreaksIff | figura/scripts/print-pdf.mjs:136-138 | the same for the code elements of one stretch |
| InlineCode.BreaksStandBehind | figura/scripts/print-pdf.mjs:132 | every break of the output stands right behind a token it goes after |
| InlineCode.BreaksAreAllThere | figura/scripts/print-pdf.mjs:132 | every token a break goes after has one right behind it in the output |
| InlineCode.ReferenceIff | figura/scripts/print-pdf.mjs:24-26 | a text begins with a character reference of n characters exactly when these are an ampersand, one or more of #, letters and digits, and a semicolon |
| UntouchedBlocks.GetsBreakIff | figura/scripts/print-pdf.mjs:144-150 | in a well nested document a pre or svg element, at any depth, gets a break exactly when the loop stops at or before it and it holds a run of inline code that wants one |
| UntouchedBlocks.BlockWithoutEndIff | figura/scripts/print-pdf.mjs:144-146 | of the blocks the loop reaches, those without an end are exactly the self-closed ones and those that hold a self-closed namesake |
| UntouchedBlocks.StopHasNoEnd | figura/scripts/print-pdf.mjs:144-146 | the loop stops at a block it reached that has no end |
| UntouchedBlocks.SelfClosedSvgExposesPre | figura/scripts/print-pdf.mjs:146 | a document in which a pre after a self-closed svg gets a break |
| ClipPath.RectangleParity | figura/scripts/inline-diagrams.mjs:13-15 | a point is inside the subpath by the even-odd rule exactly when it is in the rectangle |
| ClipPath.OutlineParity | figura/scripts/inline-diagrams.mjs:28-29 | the crossings of the whole outline have the parity of the number of rectangles that hold the point |
| ClipPath.AgreesIff | figura/scripts/inline-diagrams.mjs:17-33 | at a point path and mask agree exactly when the point is in no cutout outside the bounds and in an odd number of cutouts or none |
| ClipPath.ClipPaintsTheMask | figura/scripts/inline-diagrams.mjs:17-33 | for any number of cutouts inside the bounds that do not overlap the even-odd path paints exactly the points the mask leaves visible |
| ClipPath.OverlapShowsThrough | figura/scripts/inline-diagrams.mjs:17-33 | where two cutouts overlap the path paints what the mask hides |
| ClipPath.AgreesEverywhereIff | figura/scripts/inline-diagrams.mjs:17-33 | path and mask agree on the whole plane exactly when they agree at the finitely many crossings of the edge lines |
| ClipPath.WithVectorLabelClips | figura/scripts/inline-diagrams.mjs:17-33 | every mask becomes the clip path of its bounds and cutouts, and exactly the references to converted masks become clip references |
| Splicing.InlineDiagrams | figura/scripts/inline-diagrams.mjs:71-80 | replacing the blocks last to first gives the document assembled front to back, every text between blocks kept, in whatever order the diagrams come |
| TypeormTokens.ClosingOfBracketed | figura/scripts/erd-source-typeorm.mjs:141-152 | counting the three kinds of bracket as one depth finds the bracket that closes a nested text |
| TypeormTokens.ClosingIndex | figura/scripts/erd-source-typeorm.mjs:141-152 | the loop returns the specified closing index |
| TypeormTokens.TopLevelSlices | figura/scripts/erd-source-typeorm.mjs:154-164 | the loop returns the nonempty slices between commas at depth zero |
| TypeormTokens.SlicesUndoJoin | figura/scripts/erd-source-typeorm.mjs:154-164 | slicing undoes joining with commas for any parts that are nested and hold commas only inside brackets |
| TypeormTokens.TopLevelArrow | figura/scripts/erd-source-typeorm.mjs:166-174 | the loop returns the first arrow at depth zero |
| TypeormTokens.ValueOfWritten | figura/scripts/erd-source-typeorm.mjs:186-198 | tokenValue reads every written literal, nested to any depth, back as the value it denotes |
| TypeormValues.WordsMean | figura/scripts/erd-source-typeorm.mjs:186-198 | true, false, null and undefined are read as those values, any other name as an identifier |
| TypeormValues.ArrowMeans | figura/scripts/erd-source-typeorm.mjs:186-190 | for every arrow function, whatever stands before its arrow and in its body: it is read as the first name of the body and all names behind a dot, in order |
| TypeormValues.TrailingCommaIsIgnored | figura/scripts/erd-source-typeorm.mjs:154-164 | a comma behind the last part of a list or object changes nothing |
| TypeormValues.ShorthandIsRead | figura/scripts/erd-source-typeorm.mjs:176-184 | a shorthand entry is read as the identifier of that name |
| TypeormEntities.AncestryIsChain | figura/scripts/erd-source-typeorm.mjs:436-445 | lineage is the chain from the oldest known class down to the declaration, each extending the one before |
| TypeormEntities.ChainEndsIff | figura/scripts/erd-source-typeorm.mjs:436-445 | for every class the nested calls of lineage end if and only if no class is met twice on the way up, and then within as many calls as there are class names |
| TypeormSchema.QualifiedNamesakeNeverEnds | figura/scripts/erd-source-typeorm.mjs:436-445 | an entity class that is the first of its name and extends a qualified class of the same name: its lineage never ends |
| TypeormEntities.MergedIffLastDeclared | figura/scripts/erd-source-typeorm.mjs:447-452 | a member counts exactly when some class of the chain declares it and no class below declares the name again |
| TypeormJoins.ReferencedColumns | figura/scripts/erd-source-typeorm.mjs:428-434 | where every specification names a column: the first column of each property named, in order, or nothing when one is unknown; otherwise the primary key columns, or nothing when there are none |
| TypeormJoins.JoinedAllGrows | figura/scripts/erd-source-typeorm.mjs:513-521 | every join column is there afterwards, unique for a one-to-one relation; no column of the entity moves, changes or stops being unique |
| TypeormJoins.JoinedAllAdds | figura/scripts/erd-source-typeorm.mjs:513-521 | joining adds one column for every name that is not there yet and no other, of the type of the first column it refers to, no key, nullable as asked; columns there before become unique only for a one-to-one relation that names them |
| TypeormJoins.JoinNamesAreSpelled | figura/scripts/erd-source-typeorm.mjs:512 | the i-th join column has the name the i-th specification gives as text, and otherwise the camel-cased member and property name |
| TypeormJoins.MarkedIsUnique | figura/scripts/erd-source-typeorm.mjs:546-555 | marking a name makes the first column of that name unique and no other |
| TypeormJoins.MarkedAllIsExact | figura/scripts/erd-source-typeorm.mjs:546-563 | a column is unique afterwards exactly when it was before or a unique index over one property means it; nothing else changes |
| TypeormJoins.JunctionIsManyToOne | figura/scripts/erd-model.mjs:16-20 | a foreign key of a junction table is many-to-one |
| TypeormReader.Reader.Lineage | figura/scripts/erd-source-typeorm.mjs:436-445 | returns the ancestry and notes a parent that was not found |
| TypeormReader.Reader.EntityWithColumns | figura/scripts/erd-source-typeorm.mjs:474-502 | the entity of the class with merged members; every skipped member is noted |
| TypeormReader.Reader.AddJoinColumns | figura/scripts/erd-source-typeorm.mjs:504-523 | either notes that a referenced column is missing and changes nothing else, or adds one relation for each column found: the i-th starts at the column its join specification names, or at the camel-cased member and property name, and ends at the i-th column found; exactly the columns not there yet are added, with the type of the column they refer to, nullable unless the decorator says nullable false |
| TypeormReader.Reader.JunctionTable | figura/scripts/erd-source-typeorm.mjs:525-544 | either notes a missing column and returns nothing, or returns the junction table, under its own name or the snake-cased table, member and target names, with one key column for every column found at either end: named by its specification, or by the camel-cased table and column name, of the same type, not nullable; and adds the relation from each to the column it refers to |
| TypeormReader.Reader.ResolveRelation | figura/scripts/erd-source-typeorm.mjs:579-594 | keeps every relation found so far closed and lets columns only grow; notes exactly what is missing; adds exactly the relations, the junction table and the join columns that the relation contributes, none where it is not owned or something is missing |
| TypeormDrafts.DraftStays | figura/scripts/erd-source-typeorm.mjs:579-594 | what a relation contributes, its relations, its junction table and its join columns, does not depend on when it is resolved |
| TypeormDrafts.JoinColumnSpecifies | figura/scripts/erd-source-typeorm.mjs:423-426 | the join specifications of a member are the object, or the objects listed, in the first argument of its first JoinColumn decorator |
| TypeormDrafts.JoinTableSpecifies | figura/scripts/erd-source-typeorm.mjs:526-530 | of a JoinTable the own half is specified by joinColumns, or else joinColumn, and the inverse half by inverseJoinColumns, or else inverseJoinColumn |
| TypeormDrafts.NullableUnlessSaid | figura/scripts/erd-source-typeorm.mjs:511-517 | a join column is nullable exactly unless the first object behind the target says nullable false |
| TypeormNames.JoinsAreSpelled | figura/scripts/erd-source-typeorm.mjs:504-523 | of the whole schema: every owning many-to-one or one-to-one member whose target and columns were found has its relations in the schema, one behind the other; the i-th starts at the column its specification names as text, or at the camel-cased member and property name, of the table of its entity, and ends at the i-th column it refers to |
| TypeormNames.JunctionsAreSpelled | figura/scripts/erd-source-typeorm.mjs:525-544 | of the whole schema: every owning many-to-many member whose target and columns were found has its junction table behind those of the entities, named and typed as its specifications say, and its relations to both ends one behind the other |
| TypeormNames.ColumnsAreReadOrJoined | figura/scripts/erd-source-typeorm.mjs:504-523 | of the whole schema: every column of an entity behind those it was read with is the i-th join column of one of its members, so named, of the type of the column it refers to, no key, nullable unless the decorator says not |
| TypeormNames.PropertyMeansJoins | figura/scripts/erd-source-typeorm.mjs:522 | a property of a joined member means the join columns of the last member of that name |
| TypeormNames.IndexMarks | figura/scripts/erd-source-typeorm.mjs:548-555 | a unique index over one property marks its only join column, or without join columns its only column, and nothing where there are several |
| TypeormDecorators.ColumnIsAsDecorated | figura/scripts/erd-source-typeorm.mjs:399-416 | a column has the name its options give as text, or the name of the member; it is unique exactly when they say so; it is a primary key, and nullable, exactly when the kind of its decorator or its options say so; without a type, or for an embedding, there is none |
| TypeormDecorators.OwnerIff | figura/scripts/erd-source-typeorm.mjs:582-584 | a many-to-one member owns its relation, a one-to-one member with JoinColumn, and a many-to-many member with JoinTable |
| TypeormDecorators.TargetIsMeant | figura/scripts/erd-source-typeorm.mjs:575-581 | the target is named by a text or by the first identifier behind an arrow, and is the last entity with that table or class name |
| TypeormDecorators.EntityIsCalled | figura/scripts/erd-source-typeorm.mjs:454-458 | the table of an entity is named by the text, or by the name option, of its Entity decorator, and otherwise by its snake-cased class name |
| TypeormDecorators.EntityIsDeclared | figura/scripts/erd-source-typeorm.mjs:474-484 | an entity has the members of its chain and the class decorators of all classes of the chain |
| TypeormDecorators.UniqueIndexesAre | figura/scripts/erd-source-typeorm.mjs:460-472 | the indexes that mark columns are exactly those of members with an Index that says unique and not where, and of classes with Unique, or such an Index, whose first list or arrow holds one property |
| TypeormDecorators.MembersInOrder | figura/scripts/erd-source-typeorm.mjs:447-452 | the members of an entity come class by class from the oldest, each class without the members a class below declares again |
| TypeormReader.Reader.MarkUniqueColumns | figura/scripts/erd-source-typeorm.mjs:546-563 | marks exactly the unique indexes over one property |
| TypeormWarnings.DecoratorIsLostIff | figura/scripts/erd-source-typeorm.mjs:487-500 | for every merged member and every decorator of it that asks for a column or an owned relation: neither a column nor a relation comes of it and the warning does not name the member, if and only if it is not the one decorator picked and no member of that class and name is noted |
| TypeormWarnings.LostIffReadBeside | figura/scripts/erd-source-typeorm.mjs:487-500 | where no other member has its class and name, such a decorator is lost exactly when beside it stands a column decorator whose column the parser can tell, or without column decorators an earlier relation decorator that is drawn or not owned, and no unsupported one |
| TypeormWarnings.KeyHidesItsRelation | figura/scripts/erd-source-typeorm.mjs:494-498 | a member with @PrimaryColumn() and @ManyToOne(() => User) becomes a column, and its relation is lost |
| TypeormWarnings.PickedIsRole | figura/scripts/erd-source-typeorm.mjs:488-490 | the decorator read is the first column decorator, or the first relation decorator without one, and none beside an unsupported one |
| TypeormWarnings.NamedIff | figura/scripts/erd-source-typeorm.mjs:491-499 | the warning names a member exactly when a member of its class and name has an unsupported decorator, a column the parser cannot tell, or an owned relation without its target or columns |
| TypeormNotes.NoteIff | figura/scripts/erd-source-typeorm.mjs:565-594 | note by note, both directions: the warning holds a class with the first of its unsupported decorators, a class of an entity chain whose parent no file declares, and a member with why it is noted: its unsupported decorator, its column without a type, its owned relation without target, or to an entity without the columns |
| TypeormNotes.RoleIsWritten | figura/scripts/erd-source-typeorm.mjs:487-500 | decorator by decorator: the first unsupported one decides, then the first of a column, then the first of a relation |
| TypeormNotes.AncestryIsWritten | figura/scripts/erd-source-typeorm.mjs:436-445 | the ancestry runs from a class that extends none, BaseEntity or one no file declares down to the class itself, each class extending the first one declared under the name of its parent |
| TypeormWarnings.EntitiesAreAsRead | figura/scripts/erd-source-typeorm.mjs:474-502 | after all passes the relation members are those of the members in order, and the columns are one for one those read, with nothing but unique changed |
| TypeormResolution.RelationNotesStay | figura/scripts/erd-source-typeorm.mjs:579-594 | what the warning says of a relation, and whether it is drawn, does not depend on when it is resolved |
| TypeormResolution.JoinedHolds | figura/scripts/erd-source-typeorm.mjs:504-523 | the relations of join columns end at columns that exist, after the entity was changed, also where an entity refers to itself |
| TypeormResolution.JunctionHolds | figura/scripts/erd-source-typeorm.mjs:525-544 | the relations of a junction table start at its columns; the own half ends at columns of the entity and the inverse half at columns of the target; all its columns are key columns, at least two |
| TypeormResolution.TargetSurvivesGrowth | figura/scripts/erd-source-typeorm.mjs:575 | adding columns does not change which entity a name means |
| TypeormSchema.ReadTypeormSchema | figura/scripts/erd-source-typeorm.mjs:565-614 | for classes whose entity lineages end: every relation of the schema names a table and a column of it at both ends, on the tables its decorator means (of a junction the own half at the entity, the inverse half at the target), with an allowed cardinality; the schema is sound exactly when its tables are; with distinct table names one-to-one relations stay one-to-one and junctions are many-to-one; the relations and junction tables are one for one, in order, those the owning members contribute (TypeormNames.JoinsAreSpelled and JunctionsAreSpelled spell them), the entities are those read with their join columns and unique marks, and the warning is that of TypeormNotes.NoteIff |
| TypeormSchema.JoinIsSound | figura/scripts/erd-source-typeorm.mjs:604-608 | the cardinality lookup finds the table of a join column, and both ends exist in the schema |
| TypeormSchema.JunctionIsSound | figura/scripts/erd-source-typeorm.mjs:604-608 | the same for the relations of a junction table |
| Versions.PartsAreWritten | scripts/auto-bump.mjs:11 | the pattern takes exactly the texts of three runs of digits with two dots and takes them apart uniquely |
| Versions.DecimalIsRead | scripts/auto-bump.mjs:62 | a number written in decimal is read back as itself |
| Versions.NextPatchRises | scripts/auto-bump.mjs:56-63 | a version has a next patch exactly when it reads MAJOR.MINOR.PATCH; the next one reads so again, keeps major and minor, raises the patch by one and is later in the order of versions |
| AutoBump.BaseIsLatestVersion | scripts/auto-bump.mjs:36-49 | the version base is the last commit that gives the manifest another version than its parent |
| AutoBump.NoBaseIffNeverVersioned | scripts/auto-bump.mjs:45-47 | there is no base exactly when no commit ever had a version |
| AutoBump.HeadVersionStandsSinceBase | scripts/auto-bump.mjs:36-49 | the version at HEAD is the one its base introduced and stood all the time since |
| AutoBump.DueIffContentDiffered | scripts/auto-bump.mjs:51-54 | a bundle is due exactly when some commit since its base, reverted or not, held other content than the base |
| AutoBump.RunSettlesEverything | scripts/auto-bump.mjs:92-102 | right after a run every listed bundle is unchanged since the commit that introduced its version; every due one has the next patch version in its manifest, the rest of the manifest and the files as before, and its pin, where it had one, restamped with that version; no other bundle changed |
| AutoBump.RerunCommitsNothing | scripts/auto-bump.mjs:98-99 | a second run right after the first commits nothing |
| AutoBump.VersionNamesContentIff | scripts/auto-bump.mjs:51-54 | in every settled history all commits with the version of HEAD hold the bundle of HEAD exactly when those before the commit that introduced it do |
| AutoBump.BumpNamesContentIff | scripts/auto-bump.mjs:92-102 | right after a run that bumped a bundle its version names its content exactly when every commit before that carried the next patch version held the bundle so bumped: next version, rest of the manifest and files as at HEAD, pin restamped |
| AutoBump.NewVersionsNameContent | scripts/auto-bump.mjs:92-102 | over any interleaving of author commits, of any content, and runs, ending in a run: where no commit sets a version a commit before carried, all commits with the version of HEAD hold the bundle of HEAD |
| AutoBump.RaisedVersionsNameContent | scripts/auto-bump.mjs:92-102 | where authors only raise versions, by a patch, a minor or a major, the same without any condition on the runs |
| AutoBump.ReusedVersionHidesAChange | scripts/auto-bump.mjs:36-54 | an author who takes an old version again can change its content unnoticed |
| AutoBump.ChangedBundles | scripts/auto-bump.mjs:98 | all bundles are judged first; a bundle without a base fails the run; otherwise exactly the due ones are returned |
| AutoBump.Repository.BumpBundle | scripts/auto-bump.mjs:73-85 | puts the next patch version into the manifest of one bundle in the worktree and, where there is a pin, the pin restamped with it, and changes nothing else; changes nothing at all when the version cannot be bumped |
| AutoBump.Repository.BumpChangedBundles | scripts/auto-bump.mjs:92-102 | a run fails exactly when the clone is shallow, a bundle has no base or a due bundle no bumpable version, and then commits nothing; otherwise the history gains at most one commit, in which exactly the due bundles have their next version and restamped pin and every other bundle is as before, and the worktree is clean |

## Left out

- Foreign processes and files: d2, Chromium, psql, pdftoppm, git and curl themselves, HTTP
  serving, command lines and the reading and writing of files. The size measure, the commit
  history and the file map stand for them.
- Lexing: HTML and SVG start as tokens, TypeScript as tokens or parsed class declarations, the
  CDP stream as decoded text. Regular expressions, UTF-8 decoding and JSON parsing (and a
  message that is not JSON) are not part of this model.
- The class and member parser of the TypeORM reader (`parsedMembers`, `parsedClass`,
  `expressionEnd`), and the spelling of PostgreSQL types and default names: parameters.
- TypeORM option values given as identifiers or expressions where a name is expected: the model
  takes the default name, the source keeps the parsed value. An options argument that is neither
  missing nor an object ends the source with a TypeError; the model reads no option.
- Entities of the TypeORM reader are records in a list updated by index; the source shares
  objects through `entityByName`. The order of the notes in the warning is not modelled.
- KeepNesting.FoundAreBalancedIff: the output can be well nested although a group is not balanced,
  where the wrapper and the element it crosses are both div elements.
- ErdSplit.SplitIntoParts: where two sorted lists of names hold the same lines the memo confuses
  them; what the parts then measure is not stated, only that they hold every table once.
- Floating point: lengths and scales are exact reals, and rounding in messages proves nothing.
  Versions are unbounded numbers; the source loses precision beyond 2 to the 53rd.
- Names are compared character by character; JavaScript compares UTF-16 code units, which differs
  for characters outside the basic plane.
- The comparator of the relations of a drawing never returns 0; the model sorts stably, so the
  order of equal keys is the listed one.
- Merge commits, renames and history simplification of git; bundles with overlapping directories;
  a failing pin generator. The worktree is clean when a bump run starts.
- Pid reuse, failing file operations and renames that are not atomic in the launcher, and a curl
  still running from before a run.
- Listeners a caller adds with `onEvent`, the standard error tail and the wording of failures in
  the CDP session.
- Geometry problems of a diagram (labels that overlap or leave their shape), the printed size of
  an SVG, opaque label backgrounds, and the remedies offered for a table too large alone.
- Numbers, file names and messages of the diagrams `planErdDiagrams` returns, and the spelling of
  the lines of a drawing (quotes, indentation, column types, arrowheads).
- The Prisma, Rails, psql and manual readers, themes, hooks and the repository's own gates: table
  lookups and string work that would add only easy members.
