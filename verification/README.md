# TunaCAD simulation composition: a verified model

TunaCAD composes finite-element models out of the meshes of several parts, runs
native meshers and solvers behind approval gates, and hands results on. This
project models the parts of that code whose correctness is hard to see, and
proves what they are for. `dafny verify dfyconfig.toml` checks all of it.

## What is modelled

**Composing and welding meshes** (`FemModel`, `InterfaceWeld`, `WeldGeometry`,
`WeldSoundness`, `UniqueMatch`, `WeldConformity`, `Compaction`, `WeldedModel`,
`WeldedInterfaces`, `NodeBalance`, `SharedTopology`, `Composition`, `Placement`,
`LocalMeshes`, `NodeLists`, `ComposedModel`, `ModelComposer`, `Ascending`,
`WeldExample`, `MatchExample`). Local meshes are concatenated with node, element
and facet offsets; interfaces that are declared shared are then merged by a
greedy one-to-one match of nodes, the replacements are written into the
connectivity, unused nodes are dropped and the rest renumbered.
`ModelComposer` is the program: shared arrays in a class, tables filled in
loops, connectivity rewritten in place, each method proved against the
functions of the other modules. Those modules prove what the weld guarantees:
replacement chains of one link, a bijection between the sides, the same facets
on both and facing away from each other, valid connectivity without unused
nodes, coordinates within tolerance, a node count that balances; and that every
local mesh is found again in the model, cell by cell and at its place. `Quality`
and `QualityLaws` say what the record that goes with the model is worth.
`ModelValidation` is what the bridge checks of a composed model next, `WellBuilt`
what a model is that passes; `MeshProvider` runs the two in turn, and
`UnusedNodeExample` is a request that does not pass.

**Element geometry** (`TetraGeometry`, `TetraShape`, `QuadraticTetra`, `ShapeLaws`,
`VolumeIntegration`, `Centrifugal`, `AxisDistance`). The mean ratio, its tight
bound and its equation; ten-node elements, their shape functions, derivatives,
Jacobians and consistent weights; the acceleration about an axis, and the check
of eight corners that stands for the check of a whole solid.

**Command lines** (`CommandLine`, `ProgramName`). The printer of Windows argument
lists, and as its partner the rules Microsoft publishes in "Parsing C
command-line arguments" and in the remarks to `CommandLineToArgvW`; the name of
the program is read by rules of its own.

**Two small cores** (`PlateTopology`, `PlateLaws`, `PlateExample`,
`DirectoryWalk`). Incidence that is checked one way and holds both ways; a
directory size that stops early and still decides.

**Run lifecycles** (`PipelineV2`, `PipelineV1`, `ElectrostaticRuns`,
`ExplicitRuns`, `RunTable`, `FracturePilot`, `OwnedStage`, `NativePilot`,
`PortableExport`).
Each `await` is a point where other calls can intervene. What runs between two
awaits is one step of a state machine; the children, files, clocks and other
callers are events in any order, so a statement about all event lists is a
statement about all interleavings. Beside each machine stands a class with the
fields the program keeps and, for proof only, the `history` of what has happened
to it. `Valid()` says that the object is in the state of its history; every
method is one such stretch of code, adds its event, keeps `Valid()`, and states
what its caller can rely on, in all later states where that is the point.

## How the source is rendered

- Coordinates, tolerances, volumes and qualities are exact reals. A claim with
  a square root or a power is stated in squared or cubed form: a distance
  within tolerance, a cosine of at most -0.9, a length within a limit. The
  value of `pow(3 V, 2/3)` and of `(rpm pi / 30)^2` are parameters.
- A facet key, the sorted node numbers joined by commas, is the multiset of the
  nodes: two facets have one key exactly when the multisets agree.
- A thrown error with a code is a `Failure`; `undefined` and `null` are `None`.
- Identifiers, job ids and data set names are not empty, so that the program's
  tests for a missing one are tests for `None`.
- The quality record asks that a request has domains, all of them with a volume
  (`simulation-bridge/v2ValidationCore.mts:172-180`); an average over no elements
  is `None`. What is said of a record or of its validation asks in addition what
  the local mesher's own validation grants
  (`providers/gmsh/GmshMeshProvider.mts:199`).
- The weld asks of its input what earlier validation grants: domain ids are
  distinct, the two sides of an interaction lie in different domains
  (`simulation-bridge/v2ValidationCore.mts:415-418`), cells and facets have
  distinct in-range nodes, and the mesher's boundary facets are faces of
  elements. `home`, the domain of every node, is ghost.
- An answer that is missing is a rejection; one that nobody waits for does
  nothing. Run ids are random and therefore fresh.
- Where the code reads a flag before an await and not after it, so does the
  model: the pilot's verification asks whether it was cancelled before each of
  its reads only.

## Where a promise does not hold

- A cancel of the first pipeline that finds the flag already set returns the
  status as it is. `ReturnsCancelledExactly` says when that is the cancelled
  status and `SecondCancelMayReportRunning` shows that it need not be. If the
  child refuses, the run never becomes cancelled (`RefusedCancelNeverSettles`,
  `RefusedCancelHappens`). A succeeded run of that pipeline can still be
  cancelled (`SucceededIsCancelledExactly`, `SucceededIsStillCancelled`).
- An explicit run whose clean-up was not confirmed blocks later submissions only
  as long as no other phase of it was reported last: `StaysUnconfirmedExactly`
  and `BlockedExactly` say exactly when, `LatePhaseUnblocks` shows it.
- The program name of a command line reads back exactly under `NameSurvives`. A
  name with quotes in it can take arguments with it: `ArgumentsSurviveExactly`
  says exactly when it does not, `OneQuoteSwallows` shows names that do. These
  are texts the printer accepts; a Windows file name has no quote in it, and the
  name is also passed by itself as the application to start, so no process is
  started under such a name.
- Without a shared interface a composed domain lists all nodes of its mesh, used
  or not. Mesh validation admits a mesh with a node no element uses, and the
  validation of the model, which follows, then refuses the whole request:
  `OwnNodesExactly` and `AcceptedExactly` say exactly when, `ComposedAndRefused`
  is such a request. With any shared interface the same node is dropped and the
  model passes.
- The matching of an interface asks for an unambiguous one-to-one match. What it
  finds is one (`MatchIsUnique`), but it may refuse an interface that has exactly
  one (`SingleMatchRefused`): `MatchFoundExactly` says exactly when it is found.
- The pilot owner may begin a mesh or a solve that was cancelled during the last
  read before it: `AbortedMeshExactly` and `AbortedSolveExactly` say exactly
  when, `AbortedMeshStart` and `AbortedSolveStart` show it. No process is launched
  then (`NoLaunchOnceAborted`).
- The exact plane of an admitted face need not cross the axis of its side: what
  counts as zero there is a tenth of what the centre of the face may be off.
  `CrossesItsSideExactly` says exactly when it does, `UprightPlaneAdmitted` is a
  plate whose upper side comes with an upright plane.

## Model

| member | source | states |
|---|---|---|
| `ModelComposer.ComposeModel` | src/simulation/multiDomainFemModel.ts:45-121 | running the whole composition on fresh arrays gives exactly `Compose` and the specified quality record, or the same error at the same point |
| `ModelComposer.Composer.Append` | src/simulation/multiDomainFemModel.ts:67-103 | one turn of the per-domain loop adds that domain and its record and changes nothing already there |
| `ModelComposer.Composer.ApplySharedTopology` | src/simulation/multiDomainFemModel.ts:130-197 | the in-place weld yields `ApplyWeld` of the model before it; a refused weld leaves the model untouched |
| `ModelComposer.Composer.Compact` | src/simulation/multiDomainFemModel.ts:190-196 | in-place compaction, table built in a loop, equals `Renumbered` of the model before it |
| `ModelComposer.Composer.RelistDomains` | src/simulation/multiDomainFemModel.ts:195 | each domain ends up listing, in order, the nodes its elements use |
| `ModelComposer.Resolved` | src/simulation/multiDomainFemModel.ts:144 | the replacement chase ends and finds the one-step image, as long as no target is itself replaced |
| `ModelComposer.MatchNodes` | src/simulation/multiDomainFemModel.ts:165-174 | the greedy loop with its used set finds exactly the matching of the specification or fails with it |
| `ModelComposer.AcceptInteraction` | src/simulation/multiDomainFemModel.ts:146-183 | one interaction against the tables so far gives the specified replacements or the specified error |
| `ModelComposer.AcceptAll` | src/simulation/multiDomainFemModel.ts:140-186 | the loop over interactions ends in the specified state, and that state is sound |
| `ModelComposer.ReplaceConnectivity` | src/simulation/multiDomainFemModel.ts:188-189 | entry-by-entry rewriting replaces every slot by its image and nothing else |
| `ModelComposer.NumberNodes` | src/simulation/multiDomainFemModel.ts:191-192 | the loop that fills the table gives each surviving node its position in order |
| `ComposedModel.MappingIsExact` | src/simulation/multiDomainFemModel.ts:50-54 | the three size and membership checks hold if and only if meshes and domains correspond one to one |
| `ComposedModel.RefusedExactly` | src/simulation/multiDomainFemModel.ts:50-66 | refused for the mapping if and only if there is not exactly one mesh per domain, and for an identity if and only if a mesh was made for another request, revision, shape or coordinate space |
| `ComposedModel.WeldRefusedExactly` | src/simulation/multiDomainFemModel.ts:104-186 | any other refusal is that of the weld of the concatenated meshes |
| `ComposedModel.WeldedComposition` | src/simulation/multiDomainFemModel.ts:45-197 | every successful composition with shared interfaces has valid connectivity, no unused node, every slot on the node it had or was merged into, every coordinate within the tolerance of the interface it was merged on, every domain listing exactly its own nodes and those of its boundary, balanced counts and exactly shared interfaces |
| `ComposedModel.UnweldedComposition` | src/simulation/multiDomainFemModel.ts:138-139 | without shared interactions the result is the plain concatenation and lists every node once; a domain lists exactly the nodes its elements use if and only if its mesh uses all its nodes |
| `NodeLists.AddedDomain` | src/simulation/multiDomainFemModel.ts:73-90 | a domain just appended lists exactly the nodes its elements use if and only if its mesh uses all its nodes |
| `NodeLists.WeldedListsOwn` | src/simulation/multiDomainFemModel.ts:195 | after a weld every domain lists exactly the nodes its elements use, each once |
| `NodeLists.WeldedBoundary` | simulation-bridge/v2ValidationCore.mts:909-914 | after a weld every boundary facet is on nodes that its own domain lists |
| `ModelValidation.Validate` | simulation-bridge/v2ValidationCore.mts:880-925 | the checks of lengths, connectivity, counts, domains, claims, boundary regions and records give the first refusal the specification names |
| `ModelValidation.ConnectedExactly` | simulation-bridge/v2ValidationCore.mts:899-904 | counting the connected nodes and looking each listed one up says that exactly the connected nodes are listed |
| `WellBuilt.SoundExactly` | simulation-bridge/v2ValidationCore.mts:880-925 | a model passes if and only if its domains are the requested ones, every element belongs to one of them, each lists its own elements and their nodes once, and boundary regions and records agree with that |
| `WellBuilt.RefusedExactly` | simulation-bridge/v2ValidationCore.mts:880-925 | which kind of fault a refusal names: the first the model has |
| `WellBuilt.ClaimsExactly` | simulation-bridge/v2ValidationCore.mts:906 | the comparison with the sorted claims says that every element is claimed exactly once |
| `ModelValidation.ComposedIsStructured` | simulation-bridge/v2ValidationCore.mts:880-914 | every composed model passes all these checks but the one of the nodes its domains list |
| `ModelValidation.OwnNodesExactly` | src/simulation/multiDomainFemModel.ts:89-139 | every domain of a composed model lists exactly the nodes its elements use if and only if interfaces were welded or no local mesh has an unused node |
| `ModelValidation.AcceptedExactly` | simulation-bridge/v2ValidationCore.mts:872-926 | a model composed of meshes that passed their gates is accepted if and only if interfaces were welded or no mesh has an unused node; otherwise it is refused for its domain mapping |
| `MeshProvider.MeshRequest` | providers/gmsh/GmshMultiDomainMeshProvider.mts:89-96 | composing and validating hands on the composed model with its record exactly in those cases, and otherwise gives the error of the step that refused |
| `UnusedNodeExample.ComposedAndRefused` | simulation-bridge/v2ValidationCore.mts:903-904 | concrete request: a mesh that passed its gates is composed and the model refused |
| `ComposedModel.RegionOrigin` | src/simulation/multiDomainFemModel.ts:91-96 | every composed boundary region belongs to one domain, and that domain's mesh lists all its references |
| `ComposedModel.SidesStayApart` | src/simulation/multiDomainFemModel.ts:140-141 | sides in different domains before composing stay in different domains in the composed model |
| `Composition.ComposedIsWellFormed` | src/simulation/multiDomainFemModel.ts:67-103 | composing valid meshes of distinct domains keeps every index in range, every entry inside its own domain, and every region list exact |
| `Composition.AppendKeepsWellFormed` | src/simulation/multiDomainFemModel.ts:73-96 | appending one valid mesh with the three offsets keeps the model well formed |
| `LocalMeshes.EveryMeshIsKept` | src/simulation/multiDomainFemModel.ts:67-103 | for every domain: its elements and facets stand in the model slot by slot after taking off the node offset, each boundary region once with its references and, facet by facet, the same facets, and coordinates go where the transform says (differences by the linear part, the origin to t3, t7, t11) |
| `LocalMeshes.SizesAddUp` | src/simulation/multiDomainFemModel.ts:67-103 | the model has as many nodes, elements, facets and boundary regions as the local meshes together, so nothing is there twice |
| `LocalMeshes.DistancesAreKept` | simulation-bridge/v2ValidationCore.mts:303-318 | in the concatenated model the squared distances of a domain whose transform is rigid up to a gap, as validation asks with 1e-9, change by at most three gaps relatively; not at all if it is exactly rigid |
| `LocalMeshes.VolumesGrow` | src/simulation/multiDomainFemModel.ts:212-216 | the signed corner volume of every composed element is the local one times the determinant of the linear part |
| `Placement.RigidKeepsLength` | simulation-bridge/v2ValidationCore.mts:303-318 | rows that are orthonormal with determinant one up to a gap keep every squared length between 1 - 3 gap and 1 + 3 gap times itself |
| `Placement.ProductOfDeterminants` | src/simulation/multiDomainFemModel.ts:212-216 | three vectors sent through a linear map have the product of two determinants |
| `SharedTopology.SortIsOrdered` | src/simulation/multiDomainFemModel.ts:146 | interactions are taken in ascending order of their ids |
| `SharedTopology.BeforeExactly` | src/simulation/multiDomainFemModel.ts:146 | the order of ids is that of their first different characters; a beginning comes before what it begins |
| `SharedTopology.SharedInOrderMembers` | src/simulation/multiDomainFemModel.ts:138 | exactly the shared-topology interactions are taken |
| `WeldSoundness.MatchingSound` | src/simulation/multiDomainFemModel.ts:165-174 | a partial matching pairs exactly the nodes seen so far, each with a different node near it |
| `WeldSoundness.MatchIsBijection` | src/simulation/multiDomainFemModel.ts:157-174 | a complete matching is a bijection between the two sides within tolerance; onto is never checked and follows by counting |
| `UniqueMatch.MatchIsUnique` | src/simulation/multiDomainFemModel.ts:165-174 | a match that is found is unambiguous: no other one-to-one pairing of the two sides is within tolerance |
| `UniqueMatch.MatchFoundExactly` | src/simulation/multiDomainFemModel.ts:165-174 | a pairing is found if and only if it is one-to-one, within tolerance, and every primary node near a secondary node belongs to it or to one with a smaller number |
| `MatchExample.SingleMatchRefused` | src/simulation/multiDomainFemModel.ts:167-172 | concrete interface: exactly one one-to-one pairing is within tolerance, and the greedy loop refuses it |
| `WeldSoundness.SameKeys` | src/simulation/multiDomainFemModel.ts:175-180 | distinct mapped keys that are all primary keys, in equal number, make the two key sets equal and the primary keys distinct |
| `WeldSoundness.AcceptKeepsSound` | src/simulation/multiDomainFemModel.ts:162-185 | an accepted interaction keeps replacements one link deep, injective, between different domains, and all its nodes claimed |
| `WeldSoundness.WeldSound` | src/simulation/multiDomainFemModel.ts:142-186 | in every reachable state no replacement target is itself replaced |
| `WeldSoundness.ResolveInjectiveOnDomain` | src/simulation/multiDomainFemModel.ts:144 | two nodes of one domain never resolve to one node |
| `WeldConformity.AcceptedConforms` | src/simulation/multiDomainFemModel.ts:157-185 | after an accepted interaction its two sides are matched one to one within tolerance and carry the same facets, the normals of which point to opposite sides (a negative product, squared at least 0.81 of the squared lengths) |
| `WeldGeometry.OpposedExactly` | src/simulation/multiDomainFemModel.ts:181-183 | two facets are opposed if and only if neither is degenerate and the cosine between their normals is at most -0.9 |
| `WeldGeometry.OpposedByOrder` | src/simulation/multiDomainFemModel.ts:181-183 | of two facets on the same three corners, not on one line, one is opposed to the other if and only if it lists them the other way round |
| `WeldGeometry.AcceptedByOrder` | src/simulation/multiDomainFemModel.ts:175-185 | an interface on the same corners that passes every other check is accepted if and only if every facet lists them the other way round, and otherwise refused for its orientation |
| `WeldGeometry.RefusedExactly` | src/simulation/multiDomainFemModel.ts:146-183 | a refusal names the first thing that is wrong |
| `WeldGeometry.RefusedByFirst` | src/simulation/multiDomainFemModel.ts:146-186 | the weld is refused if and only if an interaction is, and for the reason of the first one in order |
| `WeldGeometry.SideFoundExactly` | src/simulation/multiDomainFemModel.ts:148-156 | a side is found if and only if every reference has a region, and then consists of the facets and nodes of these regions |
| `WeldGeometry.PartnerExactly` | src/simulation/multiDomainFemModel.ts:175-182 | a mapped facet is compared with a primary facet on exactly its nodes, if and only if there is one |
| `WeldGeometry.NearExactly` | src/simulation/multiDomainFemModel.ts:168 | two nodes are near each other if and only if their distance is at most the tolerance |
| `WeldConformity.ConformsKept` | src/simulation/multiDomainFemModel.ts:162-164 | later interactions leave an accepted interface conforming |
| `WeldConformity.AllConform` | src/simulation/multiDomainFemModel.ts:146-186 | when all interactions are accepted every interface conforms, with facets that face away from each other |
| `WeldConformity.MoveWithinTolerance` | src/simulation/multiDomainFemModel.ts:168 | every moved node lies on a secondary side and moves no further than that interaction's tolerance |
| `WeldedModel.ConnectivityIsValid` | src/simulation/multiDomainFemModel.ts:188-194 | final cells and facets have in-range, pairwise distinct nodes and no node is unused |
| `WeldedModel.SlotsFollowTheirNodes` | src/simulation/multiDomainFemModel.ts:188-194 | every final slot of an element or facet carries the final number of the node it had |
| `WeldedModel.NumbersKeepOrder` | src/simulation/multiDomainFemModel.ts:191-193 | compaction preserves order and equality of resolved nodes |
| `WeldedModel.CoordinateWithinTolerance` | src/simulation/multiDomainFemModel.ts:165-196 | each node keeps its coordinate or, if merged, moves by at most the tolerance of an interaction whose secondary side it is on |
| `WeldedInterfaces.KeysFollow` | src/simulation/multiDomainFemModel.ts:199 | renumbering keeps and reflects equality of facet keys |
| `WeldedInterfaces.InterfacesCoincide` | providers/calculix/CalculiXMultiDomainDeck.mts:822-837 | in the final numbering both sides of every interaction list the same distinct facets over the same nodes, facing away from each other, so the later comparison of nodes and facet keys cannot fail |
| `WeldedInterfaces.SoleRegionIsRead` | providers/calculix/CalculiXMultiDomainDeck.mts:938-942 | where exactly one region lists a reference, as the deck demands, it is the one the weld has used |
| `WeldedInterfaces.NoRegionTwice` | providers/calculix/CalculiXMultiDomainDeck.mts:944 | on a shared interface no two references lead to one region with facets, which is the other thing the deck refuses |
| `NodeBalance.DomainKeepsItsCount` | src/simulation/multiDomainFemModel.ts:195 | a domain lists exactly the nodes its elements use, and as many as before the weld |
| `NodeBalance.NodesBalance` | src/simulation/multiDomainFemModel.ts:104-105 | the domains together list as many nodes as the model holds plus one for each merged pair |
| `NodeBalance.MergedNodesUsed` | src/simulation/multiDomainFemModel.ts:184 | both nodes of every merged pair are element nodes |
| `WeldExample.PairIsAccepted` | src/simulation/multiDomainFemModel.ts:146-183 | two triangular cells meeting face to face pass every check, and their nodes are paired three to three |
| `WeldExample.PairIsWelded` | src/simulation/multiDomainFemModel.ts:130-197 | that model meets everything the weld asks of its input and is welded, so the theorems about successful welds are not about nothing |
| `WeldExample.TurnedIsRefused` | src/simulation/multiDomainFemModel.ts:181-183 | the same two cells with one facet listed in the same sense as the other: refused for the orientation |
| `Quality.AverageBetween` | src/simulation/multiDomainFemModel.ts:117-118 | an average over as many elements as the records count lies between every lower bound on minima and every upper bound on averages |
| `Quality.ErrorAtMost` | src/simulation/multiDomainFemModel.ts:97-120 | the volume error of the sums is at most any bound on the volume errors of the domains |
| `Quality.RecordsOfComposition` | simulation-bridge/v2ValidationCore.mts:919-923 | if every local mesh passed its gates, the element counts of the records add up to the composed connectivity, and each record matches its own region as model validation demands |
| `Quality.QualityOfComposition` | src/simulation/multiDomainFemModel.ts:97-121 | then the record of `Compose`'s result keeps the required minimum, averages between it and the largest domain average, and is off by at most the largest domain error |
| `QualityLaws.RecordOfAllElements` | src/simulation/multiDomainFemModel.ts:97-120 | if the figures of every mesh are the mean and the least of its element values, the record of the model is the mean and the least over all elements of all meshes; volumes are the sums of the requested and of the meshed ones, and every error is the gap between them as a share |
| `QualityLaws.AveragesAllElements` | src/simulation/multiDomainFemModel.ts:116-118 | averages weighted by element counts are the mean over all elements, and the least minimum is the least of all |
| `Quality.Recount` | src/simulation/multiDomainFemModel.ts:105 | the node count of each record is that of the first region of its domain |
| `Quality.Summarize` | src/simulation/multiDomainFemModel.ts:106-121 | the reductions compute the specified record, dividing by the elements the model really has |
| `CommandLine.AppendQuoted` | providers/windowsJobObjectRunner.ps1:110-123 | the loop with its counter of held-back backslashes prints the specified quoted form |
| `CommandLine.QuoteArguments` | providers/windowsJobObjectRunner.ps1:101-126 | the two nested loops print the specified line; missing entries print as empty arguments |
| `CommandLine.CreateCommand` | providers/windowsSuspendedChild.cs:58 | quoting the executable and the arguments apart and joining them is quoting the whole list |
| `CommandLine.ReadBack` | providers/windowsJobObjectRunner.ps1:101-126 | reading the printed line by Microsoft's rules gives back exactly the arguments, for every list and for both readings of doubled quotes |
| `CommandLine.OneReadBack` | providers/windowsJobObjectRunner.ps1:105-123 | one printed argument reads back as itself and stops exactly at what follows |
| `CommandLine.QuotingIsInjective` | providers/windowsJobObjectRunner.ps1:101-126 | different argument lists never print alike |
| `CommandLine.OneLength` | providers/windowsJobObjectRunner.ps1:105-123 | an argument prints in at most twice its length plus two characters |
| `CommandLine.LineLength` | providers/windowsJobObjectRunner.ps1:101-126 | bound on the whole line |
| `CommandLine.UnquotedExactly` | providers/windowsJobObjectRunner.ps1:106-109 | an argument is printed as it is if and only if it is not empty and has no tab, line feed, vertical tab, space or quote |
| `CommandLine.QuotedLength` | providers/windowsJobObjectRunner.ps1:110-123 | any other argument grows by two quotes and one backslash for every quote and every backslash that leads to a quote or to the end |
| `CommandLine.LineExactly` | providers/windowsJobObjectRunner.ps1:101-126 | one character between two arguments and nothing else |
| `CommandLine.MissingReadsEmpty` | providers/windowsJobObjectRunner.ps1:101-126 | a list with missing entries reads back with empty arguments in their place |
| `CommandLine.CommandReadBack` | providers/windowsSuspendedChild.cs:58 | the started process reads its name and arguments back exactly when its name has no quote and, if quoted, no trailing backslash |
| `ProgramName.ArgumentsSurviveExactly` | providers/windowsSuspendedChild.cs:58 | the started process reads its arguments back if and only if no blank of its name follows an odd number of its quotes and that number is even or there are no arguments |
| `ProgramName.OneQuoteSwallows` | providers/windowsSuspendedChild.cs:58 | a name with a single quote never leaves a non-empty argument list intact |
| `TetraGeometry.VolumeBound` | src/simulation/neutralFemMesh.ts:86-98 | 15552 times the squared volume is at most the cubed sum of squared edges, with equality exactly for regular tetrahedra |
| `TetraGeometry.MeanRatioBounds` | src/simulation/neutralFemMesh.ts:86-93 | the mean ratio lies in [0, 1], is 0 exactly for flat and 1 exactly for regular tetrahedra |
| `TetraShape.MeanRatioExactly` | src/simulation/neutralFemMesh.ts:86-93 | a number is the mean ratio if and only if the cube of its product with the sum of squared edges is 15552 times the squared volume |
| `TetraShape.ShapeAlone` | src/simulation/neutralFemMesh.ts:86-93 | scaling and moving a tetrahedron leaves its mean ratio alone |
| `TetraGeometry.Hadamard` | src/simulation/neutralFemMesh.ts:217-222 | a determinant is bounded by its column lengths, less what two columns share |
| `TetraGeometry.OrthogonalDeterminant` | src/simulation/neutralFemMesh.ts:217-222 | for orthogonal columns the bound is reached |
| `TetraShape.DeterminantLaws` | src/simulation/neutralFemMesh.ts:217-222 | the determinant is linear in its first column, changes its sign when columns are exchanged and is one on the unit vectors |
| `QuadraticTetra.LinearCompleteness` | src/simulation/neutralFemMesh.ts:125-129 | linear fields are interpolated exactly at every point |
| `QuadraticTetra.PartitionOfUnity` | src/simulation/neutralFemMesh.ts:125-137 | shape functions sum to one and gradients to zero at every point |
| `ShapeLaws.Kronecker` | src/simulation/neutralFemMesh.ts:125-129 | every shape function is one at its own node and zero at the other nine |
| `ShapeLaws.QuadraticCompleteness` | src/simulation/neutralFemMesh.ts:125-129 | every quadratic field is interpolated exactly from its values at the ten nodes |
| `ShapeLaws.GradientIsDerivative` | src/simulation/neutralFemMesh.ts:130-137 | the listed gradients are the derivatives of the shape functions: what is left is of second order and does not depend on the point |
| `ShapeLaws.JacobianOfDerivatives` | src/simulation/neutralFemMesh.ts:130-139 | the Jacobian of any element, curved or not, is the determinant of the derivatives of its map from corner 0 towards the other corners |
| `QuadraticTetra.StraightJacobian` | src/simulation/neutralFemMesh.ts:130-139 | with midside nodes at edge midpoints the Jacobian is six times the signed corner volume at every point |
| `QuadraticTetra.StraightVolume` | src/simulation/neutralFemMesh.ts:116-150 | such an element has exactly the corner volume, or is refused as singular when that is at most the threshold |
| `VolumeIntegration.VolumeSamples` | src/simulation/neutralFemMesh.ts:116-146 | the loop with its orientation variable returns the specified samples or the error of the first bad point |
| `VolumeIntegration.ShapeFunctionsAt` | src/simulation/neutralFemMesh.ts:126-129 | slot-by-slot assignment fills the ten shape functions |
| `VolumeIntegration.GradientIn` | src/simulation/neutralFemMesh.ts:131-137 | slot-by-slot assignment fills the ten derivatives |
| `VolumeIntegration.AcceptedExactly` | src/simulation/neutralFemMesh.ts:116-146 | an element is integrated if and only if it has ten nodes and its Jacobians are clear of zero and equally oriented |
| `VolumeIntegration.AcceptedVolume` | src/simulation/neutralFemMesh.ts:139-150 | an accepted element has more than a sixth of the threshold as volume |
| `VolumeIntegration.LoadIsConserved` | src/simulation/neutralFemMesh.ts:113-150 | on every accepted element, curved or not, consistent nodal weights add up to the volume |
| `ShapeLaws.SampleAt` | src/simulation/neutralFemMesh.ts:116-146 | each sample weighs a twenty-fourth of the Jacobian at its point and has the shape functions there |
| `ShapeLaws.QuadraticsIntegrated` | src/simulation/neutralFemMesh.ts:119-122 | the four points give the mean of every quadratic field, up to the rounding of their two coordinates |
| `ShapeLaws.ConsistentWeights` | src/simulation/neutralFemMesh.ts:119-146 | a straight element puts minus a twentieth of its volume on every corner and a fifth on every midside node, up to that rounding |
| `ShapeLaws.RefusedExactly` | src/simulation/neutralFemMesh.ts:139-143 | a refusal is for the first bad point, singular there if the Jacobian is at most 1e-18 and inverted otherwise |
| `ShapeLaws.RefusedHasFirstBad` | src/simulation/neutralFemMesh.ts:116-143 | every element of ten nodes that is refused has such a point |
| `VolumeIntegration.TranslationInvariance` | src/simulation/neutralFemMesh.ts:116-146 | samples do not depend on where an element lies |
| `Centrifugal.AxialPart` | src/simulation/centrifugalStatic.ts:20-25 | the axial component of the acceleration is exactly the deviation of the direction from unit length |
| `Centrifugal.OrthogonalToUnitAxis` | src/simulation/centrifugalStatic.ts:20-25 | for a unit axis the acceleration is orthogonal to it |
| `AxisDistance.ReturnedOutward` | src/simulation/centrifugalStatic.ts:20-25 | the returned vector is orthogonal to a unit axis and points straight away from it: its product with the offset from the axis point is the squared speed times the squared distance |
| `AxisDistance.ReturnedVector` | src/simulation/centrifugalStatic.ts:20-25 | the returned vector is the offset from a point of the axis times the squared speed, and within the limit |
| `AxisDistance.FootIsNearest` | src/simulation/centrifugalStatic.ts:20-25 | no point of a unit axis is nearer than that one |
| `AxisDistance.ReturnedExactly` | src/simulation/centrifugalStatic.ts:20-25 | a vector is returned if and only if the load is admitted and the vector is within 1e9; which error otherwise |
| `AxisDistance.AdmittedExactly` | src/simulation/centrifugalStatic.ts:4-9 | a load is admitted if and only if its speed, axis point and the length of its direction are within the stated figures |
| `Centrifugal.ReversedAxis` | src/simulation/centrifugalStatic.ts:20-25 | reversing the axis changes nothing |
| `Centrifugal.SlidAxis` | src/simulation/centrifugalStatic.ts:20-25 | sliding the axis point along a unit axis changes nothing |
| `Centrifugal.AccelerationMix` | src/simulation/centrifugalStatic.ts:22-23 | acceleration varies linearly along every segment |
| `Centrifugal.LimitIsConvex` | src/simulation/centrifugalStatic.ts:24 | between two points within the limit everything is within it |
| `Centrifugal.WholeBoxAccepted` | src/simulation/centrifugalStatic.ts:28-33 | eight accepted corners: every point of the box is accepted |
| `Centrifugal.CornersDecide` | src/simulation/centrifugalStatic.ts:28-33 | the corners are accepted if and only if the whole box is |
| `Centrifugal.AssertCorners` | src/simulation/centrifugalStatic.ts:30-31 | the triple loop passes exactly when all eight corners do |
| `Centrifugal.AssertDomainAcceleration` | src/simulation/centrifugalStatic.ts:28-33 | the preflight passes exactly when the corners of all solids do, and says which check refused |
| `PlateTopology.ValidatePlate` | src/simulation/stationaryCrackDocument.ts:25-48 | the checks and loops admit exactly the plates that meet all scalar, extent, face, plane, edge and incidence checks |
| `PlateTopology.ValidateFaces` | src/simulation/stationaryCrackDocument.ts:33-37 | face loop with its set of sides seen |
| `PlateTopology.ValidateEdges` | src/simulation/stationaryCrackDocument.ts:42-45 | edge loop with its set of indices seen |
| `PlateTopology.SamePairs` | src/simulation/stationaryCrackDocument.ts:46-47 | both ways of listing give the same twenty-four face-edge pairs |
| `PlateTopology.Reciprocal` | src/simulation/stationaryCrackDocument.ts:46-47 | a face lists an edge if and only if the edge lists the face, though one direction is checked |
| `PlateTopology.SignaturesBijective` | src/simulation/stationaryCrackDocument.ts:32-37 | the six faces are the six expected sides, each exactly once |
| `PlateLaws.AdmittedExactly` | src/simulation/stationaryCrackDocument.ts:32-47 | the topology is admitted if and only if the six sides of the box are there in any order, with four edges each, twelve edges lie on two faces each, and faces and edges list each other |
| `PlateLaws.FacesExactly` | src/simulation/stationaryCrackDocument.ts:33-37 | the face loop passes exactly the six sides, in any order, of four edges each |
| `PlateLaws.SideExactly` | src/simulation/stationaryCrackDocument.ts:32-35 | a face is taken for a side if and only if its centre and area are those of the box of 100 by 400 by 1, within the tolerances in figures |
| `PlateLaws.BodyExactly` | src/simulation/stationaryCrackDocument.ts:29-31 | the checks of the body in figures: extent, volume and surface of that box |
| `PlateLaws.PlaneExactly` | src/simulation/stationaryCrackDocument.ts:38-41 | the plane of a well centred side is passed if and only if it is an exact one across the axis of that side and through its centre |
| `PlateTopology.CrossesItsSideExactly` | src/simulation/stationaryCrackDocument.ts:38-41 | the unit direction of an admitted face is near the axis of its own side if and only if no coordinate of its centre before that axis exceeds 1e-7 |
| `PlateExample.UprightPlaneAdmitted` | src/simulation/stationaryCrackDocument.ts:38-41 | concrete plate: admitted, though the exact plane of its upper side is across the first axis |
| `PlateExample.PlateIsAdmitted` | src/simulation/stationaryCrackDocument.ts:25-48 | the nominal plate meets every check, so the theorems about admitted plates are not about nothing |
| `DirectoryWalk.DirectorySizeBytes` | providers/processLifecycle.mts:111-121 | below the budget the size is exact; otherwise it is at least the budget, at most the true total, and over the budget by less than one file |
| `DirectoryWalk.SizeOfFiles` | providers/processLifecycle.mts:111-121 | the size is the sum over all files at whatever depth; nothing else adds to it |
| `DirectoryWalk.ReportsExactly` | providers/processLifecycle.mts:58-82 | in any order of events the monitor reports if and only if a walk ended while it was on over a tree that really was too large, and at most once |
| `DirectoryWalk.Monitor.Tick` | providers/processLifecycle.mts:67-70 | a walk starts only while nothing was reported and no other walk or report is under way; after the child has exited nothing is ever reported |
| `DirectoryWalk.Monitor.Check` | providers/processLifecycle.mts:70-77 | one walk from start to end reports if and only if the monitor is on and the true total exceeds the maximum, and then nothing more ever |
| `DirectoryWalk.Monitor.StopMonitor` | providers/processLifecycle.mts:80 | whatever is still under way when the monitor is stopped, nothing more is reported |
| `PipelineV2.Always` | providers/ComposedSimulationProviderV2.mts:58-135 | the run invariant holds in every interleaving |
| `PipelineV2.ResultExactlyOnSuccess` | providers/ComposedSimulationProviderV2.mts:82-135 | at every await a result is present if and only if the status is succeeded |
| `PipelineV2.EndIsFinal` | providers/ComposedSimulationProviderV2.mts:84 | succeeded, failed and cancelled are final, and so are result and bindings |
| `PipelineV2.AbortedExecutionIsMute` | providers/ComposedSimulationProviderV2.mts:85-131 | from an abort on the run never has a result, and its status changes only to cancelled and only through a cancel |
| `PipelineV2.CancelledAtRest` | providers/ComposedSimulationProviderV2.mts:85-99 | at rest after an effective cancel: cancelled, no result, and the solver run, even one still being submitted, was asked to stop |
| `PipelineV2.OnlyOwnSolverAsked` | providers/ComposedSimulationProviderV2.mts:86-99 | only the solver run of an aborted run is ever asked to stop |
| `PipelineV2.SuccessIsPublished` | providers/ComposedSimulationProviderV2.mts:108-129 | a succeeded run holds what its own solver run returned, with the bindings made for it |
| `PipelineV2.SuccessNamesDatasets` | providers/ComposedSimulationProviderV2.mts:116-123 | the result of a succeeded run bears the run id and lists, domain by domain, the data sets of its solver run: of a transient run with the run id in place of the characters of the job id, else unchanged |
| `PipelineV2.BindingsInvert` | providers/ComposedSimulationProviderV2.mts:116-121 | distinct public names each lead back to the name they were made from |
| `PipelineV2.RenamingKeepsDistinct` | providers/ComposedSimulationProviderV2.mts:117-118 | names that start with the job stay distinct when renamed |
| `PipelineV2.ResultOutlivesRead` | providers/ComposedSimulationProviderV2.mts:70-77 | when a field page arrives the result it is checked against is still there and unchanged |
| `PipelineV2.ReadAsksForOriginal` | providers/ComposedSimulationProviderV2.mts:68-78 | reading a published data set asks the own solver run for the one it was published from and finds the domain it belongs to |
| `PipelineV2.ReadsWhatIsListed` | providers/ComposedSimulationProviderV2.mts:69-75 | a read asks the solver if and only if the run succeeded and lists the name, and then for the data set that was given this name |
| `PipelineV2.Pipeline.AfterFetch` | providers/ComposedSimulationProviderV2.mts:108-134 | the run succeeds if and only if it was not aborted and its own solver run returned a valid result, it then holds that result published, and an end reached here is final |
| `PipelineV2.Pipeline.Rebind` | providers/ComposedSimulationProviderV2.mts:116-121 | the nested loops fill the bindings and publish the names as specified |
| `PipelineV2.Pipeline.AfterSubmission` | providers/ComposedSimulationProviderV2.mts:96 | a solver run whose submission was in flight at the cancel is asked to stop, the status stays and no result can follow; without a cancel the run fails for good exactly if the submission was rejected |
| `PipelineV2.Pipeline.AfterAnswer` | providers/ComposedSimulationProviderV2.mts:100-105 | a cancelled run ignores the answer and never succeeds; otherwise the run fails for good exactly on a rejection or an unsuccessful end and goes on to the result exactly on success |
| `PipelineV2.Pipeline.Cancel` | providers/ComposedSimulationProviderV2.mts:82-86 | an ended run stays as it is for good; any other can never succeed from then on and its solver run has been asked to stop |
| `PipelineV2.Pipeline.AfterCancel` | providers/ComposedSimulationProviderV2.mts:87 | the run is cancelled for good, without result or bindings, and its solver run has been asked to stop |
| `PipelineV2.Pipeline.FieldDataset` | providers/ComposedSimulationProviderV2.mts:69-75 | asks if and only if the run succeeded and lists the name; what it asks for is renamed to this name and lies in a domain that lists it |
| `PipelineV1.Always` | providers/ComposedSimulationProvider.mts:92-203 | the run invariant holds in every interleaving |
| `PipelineV1.CancelledExecutionIsMute` | providers/ComposedSimulationProvider.mts:117-164 | from a cancel call on status and result stay the same until a cancel has run to its end, whatever the execution does |
| `PipelineV1.SettledIsFinal` | providers/ComposedSimulationProvider.mts:99-108 | after a cancel that ran to its end the run is cancelled and empty in all later states |
| `PipelineV1.LastChildIsAsked` | providers/ComposedSimulationProvider.mts:96-129 | at rest after a cancel the child submitted last was asked to stop, even one whose submission was in flight |
| `PipelineV1.EndIsLeftOnlyByCancel` | providers/ComposedSimulationProvider.mts:94-107 | a succeeded or failed run changes only through a cancel that runs to its end |
| `PipelineV1.ReturnsCancelledExactly` | providers/ComposedSimulationProvider.mts:94 | a cancel call that returns at once reports cancelled if and only if it is the first or an earlier one has finished |
| `PipelineV1.SecondCancelMayReportRunning` | providers/ComposedSimulationProvider.mts:94 | concrete history: a second call returns normally with status running |
| `PipelineV1.RefusedCancelNeverSettles` | providers/ComposedSimulationProvider.mts:94-98 | if the child refuses to stop the run is never cancelled |
| `PipelineV1.RefusedCancelHappens` | providers/ComposedSimulationProvider.mts:96-98 | concrete history: a mesh job that refuses to stop leaves the run uncancelled in all later states |
| `PipelineV1.SucceededIsCancelledExactly` | providers/ComposedSimulationProvider.mts:92-108 | a succeeded run becomes cancelled by a further call if and only if it was not cancelled before, or that cancel is still under way, and the child accepts |
| `PipelineV1.SucceededIsStillCancelled` | providers/ComposedSimulationProvider.mts:92-108 | concrete history: meshed, solved, succeeded, then cancelled |
| `PipelineV1.Pipeline.AfterSubmission` | providers/ComposedSimulationProvider.mts:115-129 | a job whose submission was in flight at the cancel is asked to stop and leaves status and result alone; otherwise the run fails exactly on a rejection |
| `PipelineV1.Pipeline.AfterDelivery` | providers/ComposedSimulationProvider.mts:120-162 | the run has a result exactly if the solver delivered one and no cancel was called, goes on to the solver exactly with a valid mesh, and otherwise fails |
| `PipelineV1.Pipeline.Cancel` | providers/ComposedSimulationProvider.mts:92-98 | the first call asks the last child to stop or cancels the run for good; a call returns cancelled if and only if a cancel has run to its end |
| `PipelineV1.Pipeline.AfterCancel` | providers/ComposedSimulationProvider.mts:99-108 | cancelled and empty for good if the child accepted, and never cancelled if it refused |
| `ElectrostaticRuns.Always` | providers/ComposedElectrostaticProvider.mts:37-56 | at most four runs are held and at most one is queued or running, in every reachable state |
| `ElectrostaticRuns.NoResultOnceWithdrawn` | providers/ComposedElectrostaticProvider.mts:58-81 | once a run was revoked or ended without success no read answered later returns a result, not even one under way when the run was removed |
| `ElectrostaticRuns.OneDigestPerRun` | providers/ComposedElectrostaticProvider.mts:65-70 | all results returned for a run carry one digest, also those of reads answered after its removal |
| `ElectrostaticRuns.UnsavedIsKept` | providers/ComposedElectrostaticProvider.mts:43-46 | as long as a run counts as succeeded and is not saved it is never removed |
| `ElectrostaticRuns.HeldAfter` | providers/ComposedElectrostaticProvider.mts:37-150 | exactly which event can change or remove which run |
| `ElectrostaticRuns.AdmittedExactly` | providers/ComposedElectrostaticProvider.mts:43-50 | a submission is accepted if and only if it is approved, no held run is queued or running, and fewer than four are held or one of them was saved and is clean |
| `ElectrostaticRuns.EvictedExactly` | providers/ComposedElectrostaticProvider.mts:43-46 | of four held runs the first that was saved and is clean is dropped, also when the submission is then refused; otherwise none |
| `ElectrostaticRuns.Provider.SubmitRun` | providers/ComposedElectrostaticProvider.mts:43-55 | eviction, then the checks, in that order; admitted runs are held, and no run but a saved one is dropped |
| `ElectrostaticRuns.Provider.EvictOne` | providers/ComposedElectrostaticProvider.mts:44 | the first saved and clean run is removed, if there is one |
| `ElectrostaticRuns.Provider.FinishGetResult` | providers/ComposedElectrostaticProvider.mts:62-80 | a result is the pinned one of a succeeded, unrevoked run; after any other end of the read no result ever follows |
| `ElectrostaticRuns.Provider.FinishExecution` | providers/ComposedElectrostaticProvider.mts:232-241 | left succeeded exactly if it was, is clean and was not revoked; a revoked run is cancelled; otherwise no result ever follows |
| `ElectrostaticRuns.Provider.Cancel` | providers/ComposedElectrostaticProvider.mts:107-117 | a succeeded run stays as it is and is looked at first; any other is revoked and no result ever follows |
| `ElectrostaticRuns.Provider.AfterLook` | providers/ComposedElectrostaticProvider.mts:109-141 | a clean succeeded run stays, saved if it was acknowledged; any other is revoked and no result ever follows |
| `ElectrostaticRuns.Provider.Complete` | providers/ComposedElectrostaticProvider.mts:213-220 | the digest is pinned; an unrevoked run can be read from then on, a revoked one never |
| `ElectrostaticRuns.Provider.FinishCancellation` | providers/ComposedElectrostaticProvider.mts:123-133 | ends cancelled in any case, confirmed exactly if clean without earlier failure, and no result ever follows |
| `ElectrostaticRuns.Provider.FinishRelease` | providers/ComposedElectrostaticProvider.mts:142-150 | only after a confirmed cancellation; the run is gone and no other is touched |
| `ExplicitRuns.Always` | providers/ComposedExplicitProvider.mts:21-45 | at most four runs are held and at most one is active, in every reachable state |
| `ExplicitRuns.UnsavedIsKept` | providers/ComposedExplicitProvider.mts:26-52 | until acknowledged a succeeded run is never evicted and keeps yielding the same result |
| `ExplicitRuns.StaysUnconfirmedExactly` | providers/ComposedExplicitProvider.mts:33-42 | a run that ended unclean still says so if and only if the driver reported no other phase of it as the last one |
| `ExplicitRuns.BlockedExactly` | providers/ComposedExplicitProvider.mts:24 | a submission is refused for unconfirmed clean-up if and only if some held run says so |
| `ExplicitRuns.RefusedExactly` | providers/ComposedExplicitProvider.mts:24-27 | which refusal, exactly: some run says its clean-up is unconfirmed; else one is active; else four are held and none may be dropped |
| `ExplicitRuns.SubmittedExactly` | providers/ComposedExplicitProvider.mts:24-30 | a refused submission changes nothing; an accepted one drops the first run that may be dropped if four are held, and appends the new one |
| `ExplicitRuns.UncleanBlocksForGood` | providers/ComposedExplicitProvider.mts:24-42 | a run that ended unclean blocks every later submission for as long as the driver reports no other phase of it last |
| `ExplicitRuns.LatePhaseUnblocks` | providers/ComposedExplicitProvider.mts:24-33 | concrete history: a phase reported late lets a submission through if and only if it is another one |
| `ExplicitRuns.Provider.SubmitRun` | providers/ComposedExplicitProvider.mts:24-30 | the checks in order, eviction between them, the refusal given; the run is held exactly if not refused, and no unsaved result is lost |
| `ExplicitRuns.Provider.EvictOne` | providers/ComposedExplicitProvider.mts:26 | the first run that may be dropped is removed, if there is one |
| `ExplicitRuns.Provider.Settle` | providers/ComposedExplicitProvider.mts:33-42 | succeeded exactly if returned clean, valid and unaborted, with that result; an unclean end is failed, says so and blocks submissions |
| `ExplicitRuns.Provider.Acknowledge` | providers/ComposedExplicitProvider.mts:51-52 | only a succeeded run is marked as saved, and it keeps its result |
| `FracturePilot.InProtocolOrder` | providers/StationaryFracturePilotAdapter.mts:114-173 | at most one mesh and one solve, the solve never without the mesh, all in one order under one binding |
| `FracturePilot.SolveComesLast` | providers/StationaryFracturePilotAdapter.mts:126-151 | before a solve: both approvals in order, verified, mesh accepted with confirmed clean-up, same binding verified again |
| `FracturePilot.NoEvidenceAfterCancel` | providers/StationaryFracturePilotAdapter.mts:101-104 | an evidence call begun after cancel or disposal fails even if the handle was stored later |
| `FracturePilot.CompleteMeansAll` | providers/StationaryFracturePilotAdapter.mts:160-173 | complete means all milestones, one mesh, one solve, clean-up confirmed |
| `FracturePilot.EvidenceExactly` | providers/StationaryFracturePilotAdapter.mts:101-104 | an evidence call gets past its first checks if and only if the attempt is complete, nobody has cancelled or disposed of it, and its time is not over |
| `FracturePilot.SignalHeardExactly` | providers/StationaryFracturePilotAdapter.mts:116-178 | the caller's signal is heard exactly while the attempt is under way; evidence outlives it |
| `FracturePilot.UndisturbedAttempt` | providers/StationaryFracturePilotAdapter.mts:110-173 | concrete history: an attempt that nobody disturbs ends in evidence |
| `FracturePilot.AbortedMeshExactly` | providers/StationaryFracturePilotAdapter.mts:95-135 | an aborted run that has not meshed can still start its mesh if and only if the abort fell into the second read of its first verification or into the retention of its start |
| `FracturePilot.AbortedSolveExactly` | providers/StationaryFracturePilotAdapter.mts:95-151 | an aborted run that has not solved can still start its solve if and only if the abort fell into the second read between mesh and solve |
| `FracturePilot.AbortedMeshStart` | providers/StationaryFracturePilotAdapter.mts:131-135 | concrete history: cancelled during the second read of its first verification, the owner still starts the mesh |
| `FracturePilot.AbortedSolveStart` | providers/StationaryFracturePilotAdapter.mts:148-151 | concrete history: cancelled during the second read between mesh and solve, the owner still starts the solve |
| `FracturePilot.Owner.Begin` | providers/StationaryFracturePilotAdapter.mts:115-121 | one attempt per owner and none after a disposal; a refused call changes nothing, an aborted one never leads to evidence |
| `FracturePilot.Owner.AfterCheckOf` | providers/StationaryFracturePilotAdapter.mts:95-100 | the solve starts exactly after the second read between mesh and solve, with all seven milestones behind; a failed check never leads to evidence |
| `FracturePilot.Owner.AfterStartRetained` | providers/StationaryFracturePilotAdapter.mts:132-134 | the one mesh starts, with four milestones behind, exactly if the start was put on record |
| `FracturePilot.Owner.AfterMeshStage` | providers/StationaryFracturePilotAdapter.mts:135-148 | the mesh is accepted, with five milestones behind, exactly if unaborted, exited with zero, cleaned up and admissible; otherwise evidence never follows |
| `FracturePilot.Owner.AfterSolveStage` | providers/StationaryFracturePilotAdapter.mts:151-160 | the solve is accepted, with eight milestones behind, on the same terms; otherwise evidence never follows |
| `FracturePilot.Owner.AfterEvidenceRetained` | providers/StationaryFracturePilotAdapter.mts:171-173 | complete means all ten milestones, one mesh, one solve and confirmed clean-up; the handle is good exactly if nobody has cancelled |
| `FracturePilot.Owner.Cancel` | providers/StationaryFracturePilotAdapter.mts:210 | from then on no evidence call succeeds in any later state, whatever is still under way |
| `OwnedStage.FinishStage` | providers/fractureStageEvidence.mts:5-32 | every step of the ending is tried and every failure collected; it succeeds exactly if terminated, cleaned up, artifact kept and both on record, and an error says whether clean-up was confirmed |
| `OwnedStage.FailuresExactly` | providers/fractureStageEvidence.mts:5-32 | every failure is collected if and only if it happened, once, in the order of the steps |
| `OwnedStage.AskedExactly` | providers/fractureStageEvidence.mts:5-32 | whatever fails: terminate, then keep what was written unless it is unsafe, then clean up, then put the outcome on record |
| `OwnedStage.ReadKept` | providers/fractureStageEvidence.mts:17-20 | reading in chunks of any size gives the file up to the limit, or its beginning when it is too large |
| `OwnedStage.RunOwnedStage` | providers/StationaryFracturePilotAdapter.mts:216-251 | output is returned if and only if the process was started before any abort, exited with zero within its limits and was confirmed terminated, cleaned up and on record; the ending always runs once the directory exists |
| `OwnedStage.ReturnedExactly` | providers/StationaryFracturePilotAdapter.mts:216-251 | output is returned if and only if nothing was aborted at any of three moments, every preparation succeeded, the process exited with zero within its limits and the ending had no failure to collect |
| `OwnedStage.ThrownExactly` | providers/StationaryFracturePilotAdapter.mts:216-251 | an error says something of the clean-up if and only if the stage began and its ending failed, and what it says is whether it passed |
| `NativePilot.AcceptedStagesRan` | providers/StationaryFracturePilotAdapter.mts:71-73 | every mesh and solve a native owner has accepted was really run that way, the mesh first |
| `NativePilot.AcceptedExactly` | providers/StationaryFracturePilotAdapter.mts:135-160 | a native stage is accepted if and only if the owner is not aborted by then, the stage ran well and what it wrote is admissible; an error passes on what it says of the clean-up |
| `NativePilot.EvidenceRestsOnRuns` | providers/StationaryFracturePilotAdapter.mts:71-173 | usable native evidence rests on two such runs, both with confirmed termination and clean-up |
| `NativePilot.NoLaunchOnceAborted` | providers/StationaryFracturePilotAdapter.mts:215-230 | from an abort between the stages on no native process is launched, even if the owner still begins a stage |
| `NativePilot.LaunchedIsCount` | providers/StationaryFracturePilotAdapter.mts:230-251 | launches are counted one by one: the number of events at which a process was launched |
| `NativePilot.LaunchesAreCounted` | providers/StationaryFracturePilotAdapter.mts:94-151 | never more processes are launched than the owner counts stages, and never more than two |
| `PortableExport.Always` | src/simulation/newCompletionPortableExport.ts:23-45 | the handle invariant holds in every interleaving |
| `PortableExport.OnceEachInOrder` | src/simulation/newCompletionPortableExport.ts:31-39 | consent and receipt are asked for at most once each, in that order, for the digests of the snapshot |
| `PortableExport.ReturnedExactly` | src/simulation/newCompletionPortableExport.ts:31-42 | a result is returned if and only if all eleven milestones are behind, freshness before, after consent and after validation among them |
| `PortableExport.ReturnedUncancelled` | src/simulation/newCompletionPortableExport.ts:42 | a result is returned by the answer to the last freshness call alone, and at that point there was no cancel and no abort |
| `PortableExport.UndisturbedExport` | src/simulation/newCompletionPortableExport.ts:23-45 | concrete history: an export whose ports all answer well returns a result |
| `PortableExport.NothingEverAfterCancel` | src/simulation/newCompletionPortableExport.ts:5-10 | after a cancel no port is called any more and nothing is returned |
| `PortableExport.SingleUse` | src/simulation/newCompletionPortableExport.ts:28 | a handle serves one export |
| `PortableExport.Exporter.Export` | src/simulation/newCompletionPortableExport.ts:27-31 | once per handle and not after a cancel; a refused call changes nothing, an aborted one calls no port ever |
| `PortableExport.Exporter.CallPort` | src/simulation/newCompletionPortableExport.ts:5-8 | a port is called exactly if nothing was aborted when its turn comes, in protocol order; otherwise no port is ever called again |
| `PortableExport.Exporter.AfterPort` | src/simulation/newCompletionPortableExport.ts:31-42 | a result is returned exactly by an uncancelled answer to the last freshness call; a refusal, abort or missing source ends the export for good |
| `PortableExport.Exporter.AfterValidation` | src/simulation/newCompletionPortableExport.ts:40-42 | a validated result still waits for freshness; without it or after an abort nothing is ever returned |
| `PortableExport.Exporter.Cancel` | src/simulation/newCompletionPortableExport.ts:44 | from then on no port is called, nothing is returned and no export begins, in all later states |

## Left out

- `Quality.QualityOfComposition`: whether the composed record meets the volume limit of the local gate, since that limit is on a figure the mesher reports.
- Material, volume-region, part, body and occurrence labels, provenance and digests of a composed model: copied as they are.
- `Composition.TransformPoint`: the refusal of non-finite coordinates, since reals are finite.
- `InterfaceWeld.Near`: rounding of `hypot`; the comparison is exact.
- Request validation, STEP and deck handling, mesh file parsing: only what they grant appears, as a precondition.
- `ModelValidation.Validate`: the schema of the model, its identity and budgets, the width of its cells, labels and transforms of its domains, region ids, and the comparison of boundary references with the requested ones.
- The order in which equal interaction ids are taken: request validation forbids equal ids.
- `CommandLine.OneLength`: counts characters; a character outside the basic plane is two code units in .NET, both printed as they are.
- Windows calls, job objects, pipes and process creation: a call either answers or fails.
- Hashing and cloning: digests are compared, never computed.
- `PipelineV2.Pipeline.AfterFetch`: the contents of results besides job id and data set names; one flag stands for each validation.
- `PipelineV1.Always`: the contents of meshes and results; one flag stands for mesh validation.
- `ElectrostaticRuns.HeldAfter`: a release is an event that can follow a confirmed cancellation at any later time, not only the call that caused it.
- `ElectrostaticRuns.Provider.FinishGetResult`: the field data sets built from a result; one flag stands for all that must match; a read answered after its run was removed is followed by `ElectrostaticRuns.Seen` and not by the class.
- `FracturePilot.InProtocolOrder`: evidence payloads and their retention; an evidence call is modelled up to its first checks.
- `OwnedStage.RunOwnedStage`: which diagnostics are collected while the process runs.
- `PlateTopology.ValidatePlate`: values that are missing or not finite; a missing frame or origin is a `None`.
- `WeldedInterfaces.InterfacesCoincide`: the deck's own look-up of regions; where it succeeds it finds the regions of the weld.
- `DirectoryWalk.DirectorySizeBytes`: a tree that changes during the walk.
- The constructors' capability records, qualification and resource-limit merging: one branch each.
