# Gloak's Admin API, modelled and proved in Dafny

Gloak reimplements Keycloak's Admin API. Under its HTTP handlers sit a few
stateful structures and algorithms whose correctness is not visible in any one
handler. This project models them and proves what the handlers promise together.

- **Authentication flows** (`Flow*.dfy`, `Forests.dfy`, `Ordering.dfy`). Flows hold
  rows, a row may point at a sub-flow and at a config. `FlowModel` holds the tables
  and the deep copy, `FlowForest` the invariant and one step per handler,
  `FlowRuns` every run of handlers, `FlowEffects` what each handler answers and
  changes, `FlowTree` the walk and its tree, `FlowPriority`
  and `FlowOrder` the order of rows, `FlowHandlers` the handlers over mutable tables.
  `FlowCases` holds states in which their conditions fail, reached by runs.
  `FlowCopy`, `FlowCopyListing`, `FlowCopyAlike`, `FlowCopyExact`, `FlowCopySpoilt`
  and `FlowCopyTheorem` lead to the exact condition under which a copied flow lists
  as its source does.
- **Authorization resource servers** (`Authz*.dfy`): scope and resource writes, policy
  creation, the settings export and import, and the theorem that importing one's own
  export changes nothing; the best-match uri filter. `AuthzCases` holds cases.
  What each write stores and leaves alone is stated over the tables before and after:
  `AuthzEffects` for scopes and resources, `AuthzPolicyEffects` for policies and
  settings, `AuthzImportEffects` and `AuthzImportFrame` for the import, `AuthzServed`
  for the export; `AuthzResolution` says what every reference stands for.
- **Groups** (`Group*.dfy`): paths printed from ancestry and walked back, the search
  that pages matches and rebuilds a pruned forest, the count.
- **Admin roles** (`AdminRoles.dfy`, `AdminCaller.dfy`): the conferral closure, who may
  hand out what, and what runs of hand-outs can reach.
- **Localization documents** (`Localization.dfy`, `LocalizationHandlers.dfy`): ordered
  key/value sequences that behave as maps, with the absent document.
- **Wildcard search** (`Wildcard.dfy`) and **credentials** (`Credentials.dfy`,
  `CredentialHandlers.dfy`).

A structure the source updates in place is a class whose methods are proved equal to,
or described by, a specification function; what the source promises is then proved of
that function, over single requests and over whole runs. Randomness is a parameter:
identifiers come from a supply that never repeats itself, the order in which a Java map
serves its keys is an arbitrary permutation, case folding is an arbitrary function.

What the code turns out to do, where that differs from what one would expect of it. Each
item names the exact condition and a case in which it fails, `FlowCases` and `AuthzCases`
holding those reached by a run from the empty tables:

- The store lists rows by priority and then by *identifier*
  (internal/store/sqlite/sqlite.go:3853-3861), not by creation. Two rows of one
  priority may therefore change places in a copy. `FlowCopyTheorem.CopiesListAlikeIff`
  gives the exact condition for a copy to list as its source under every supply of
  identifiers; `FlowCopyTheorem.IncreasingListsAlike` gives it when ties fall in creation
  order: no link under the source dangles. They fail in `FlowCases.TiedCopyDiffers` and
  `FlowCases.LeftCopyDiffers`.
- A new row takes the *number* of rows as its priority, so after deletions, or after a
  priority chosen freely, the last row listed may have that priority already or a greater
  one. `FlowOrder.CreatedRowLast` says when the new row lists last: for certain if the last
  priority is smaller, never if it is greater, and by the identifier drawn if the two are
  equal. It lists first in `FlowCases.AheadCreatesFirst`.
- Raising or lowering a row moves it one place exactly when ties do not interfere:
  `FlowOrder.MoveTransposesIff`; it moves nothing in `FlowCases.TiedRaiseStays`. Not every
  order of tied rows can be reached: `FlowPriority.EveryOrderAttainable`, and
  `FlowCases.TiedNeverTurns` for a case.
- A policy's associations carry no foreign key, so they may outlive their targets, and
  the settings export then fails: `AuthzRoundTrip.ExportSucceeds`, and
  `AuthzCases.GoneScopeSpoilsExport` for a case.
- A role policy that names a client role, or a deleted one, does not survive the
  export, unless the client role happens to be named by its own id:
  `AuthzConfig.RolesReturnExactly`, and `AuthzCases.ClientRoleIsLost` for a case.
- A group whose name holds a slash, or is empty at either end of its path, has a path
  that does not lead back to it: `GroupPaths.PathReturns`, and `GroupPaths.SlashIsLost`
  for a case.
- A repeated key is stored twice exactly when its body is posted onto a locale that has
  no row yet: `Localization.StepDistinct`, and `Localization.RepeatedKeyIsStored` for a
  case.

`dafny verify dfyconfig.toml` checks the project.

## Model

| member | source | states |
|---|---|---|
| FlowForest.CopyTreeKeeps | internal/admin/flows.go:731-782 | The deep copy keeps the invariant of the tables, leaves everything that was there alone, hangs its new flow under nothing, and copies nothing as built in; it terminates because links run from older to newer flows. |
| FlowRuns.StepKeeps | internal/admin/flows.go:570-676 | Every handler, refusals included, keeps the invariant: a flow is pointed at by at most one row, links run from older to newer flows that are not top-level, every config pointer and every parent is live, and no identifier is reused. |
| FlowRuns.Run | internal/admin/flows.go:570-1456 | So does every run of handlers. |
| FlowRuns.EmptyStarts | internal/admin/flows.go:570-610 | The empty tables satisfy the invariant if and only if no identifier drawn is the empty one: runs have a start. |
| FlowRuns.RunFreezes | internal/admin/flows.go:1124-1138 | Over every run a built-in flow is neither deleted nor un-built-in, and its set of direct rows keeps their authenticators, sub-flow links and priorities. |
| FlowRuns.ExecutionConfigUpsert | internal/admin/flows.go:1314-1351 | The config upsert stores one new config and removes the replaced one: the number of configs grows by one if the row had none and stays the same otherwise. |
| FlowRuns.ExecutionConfigRows | internal/admin/flows.go:1437-1456 | Its effect on every row: the target is repointed, every other row that shared the replaced config loses its pointer, the rest are untouched. |
| FlowRuns.MovePrioritySwaps | internal/admin/flows.go:1248-1293 | A priority move exchanges the priorities of two rows of one flow that is not built in, or changes nothing. |
| FlowTree.DescribeFlatten | internal/admin/flows.go:799-814 | Describing each line of the walk gives the listing of the described tree. |
| FlowTree.ChainsAreItems | internal/admin/flows.go:799-814 | Every chain of rows from a flow down through sub-flows ends in a row the walk visits. |
| FlowTree.WalkVisitsOnce | internal/admin/flows.go:799-814 | A walk visits exactly the rows reachable from its flow, each once. |
| FlowTree.SameForest | internal/admin/flows.go:799-814 | The tree below a flow depends only on that flow and newer ones: whatever is written to older flows and their rows leaves it alone. |
| Forests.ListingRoundTrip | internal/admin/flows.go:784-814 | Rebuilding a tree from the items and levels of its flat listing gives back the tree. |
| Forests.LevelsRiseByOne | internal/admin/flows.go:784-814 | Levels start at the top and rise by at most one from line to line. |
| Forests.IndexIsPosition | internal/admin/flows.go:784-814 | `index` is the position among siblings that the levels alone determine. |
| Forests.FlattenItems | internal/admin/flows.go:799-814 | The lines of the listing are the rows of the tree in depth-first order. |
| FlowCopy.RowCopiedAs | internal/admin/flows.go:749-781 | One turn of the copy loop adds exactly one row to the new flow, showing the source row over the copied sub-flow. |
| FlowCopy.CopyTreeRoot | internal/admin/flows.go:731-748 | At every depth a copied flow is its source's record under its alias, description, provider and top-level mark kept, and not built in. |
| FlowCopyListing.TreeDraws | internal/admin/flows.go:731-782 | How many identifiers a copy draws is determined by the source tree. |
| FlowCopyListing.OrderedShape | internal/admin/flows.go:731-814 | The copied flow lists its rows by priority and then by the identifiers they drew. |
| FlowCopyAlike.TidyIffSound | internal/admin/flows.go:768-776 | Dropping dangling links from a flow's tree changes its listing exactly when there are any. |
| FlowCopyAlike.IncreasingCopy | internal/admin/flows.go:731-782 | With increasing identifiers the copy's tree is the source's with dangling links dropped. |
| FlowCopyExact.FaithfulCopy | internal/admin/flows.go:731-782 | When no link dangles and rows of one priority look alike, every copy has the source's tree. |
| FlowCopyExact.FindSpoil | internal/admin/flows.go:731-782 | Otherwise, links being sound, two identifiers of the copy can be named whose exchange reorders two rows that differ. |
| FlowCopySpoilt.SpoiledCopy | internal/admin/flows.go:731-782 | With those two exchanged, however deep they lie, the copy's tree differs from the source's. |
| FlowCopyTheorem.IncreasingListsAlike | internal/admin/flows.go:731-814 | If ties fall in creation order, a copy's execution listing equals its source's if and only if no link under the source dangles. |
| FlowCopyTheorem.CopiesListAlikeIff | internal/admin/flows.go:731-814 | For arbitrary identifiers: every copy's listing equals its source's if and only if no link under the source dangles and rows of one flow that share a priority look alike, sub-flows included. |
| FlowCopyTheorem.CopyFlowCopies | internal/admin/flows.go:694-725 | POST copy: the new flow is new, is the source's record under the alias asked for, not built in, and lists as its source under that condition; nothing new is built in; every older flow, row, config and tree is unchanged. |
| FlowCopyExact.DescriptionsTell | internal/admin/flows.go:816-857 | Rows of one priority whose sub-flows differ in description alone already fail the condition. |
| FlowCases.TiedCopyDiffers | internal/admin/flows.go:731-782 | A flow reached by a run whose copy lists differently under some supply of identifiers. |
| FlowCases.LeftCopyDiffers | internal/admin/flows.go:656-782 | A flow reached by a run, a sub-flow of which was deleted, whose copy lists differently even with ties in creation order. |
| FlowPriority.MoveConserves | internal/admin/flows.go:1248-1293 | A move changes nothing but priorities of one flow's rows and conserves the priorities along every flow's listing. |
| FlowPriority.MoveTransposes | internal/admin/flows.go:1248-1293 | With distinct priorities a move is one adjacent transposition of the listing, or nothing at the end. |
| FlowPriority.RaiseThenLower | internal/admin/flows.go:1295-1301 | With distinct priorities raise then lower is the identity unless the row stood first. |
| FlowPriority.TieIsStuck | internal/admin/flows.go:1248-1293 | Two rows tied side by side keep their order through every run of raises. |
| FlowPriority.EveryOrderAttainable | internal/admin/flows.go:1248-1301 | Every order of a flow's rows is reached by some run of raises if and only if no two rows share a priority. |
| FlowCases.TiedNeverTurns | internal/admin/flows.go:1248-1301 | Two tied rows reached by a run whose exchanged order no run of raises reaches. |
| FlowCases.TiedRaiseStays | internal/admin/flows.go:1248-1293 | Raising the second of them moves nothing. |
| FlowCases.AheadCreatesFirst | internal/admin/flows.go:957-1022 | A flow reached by a run in which a created row lists first. |
| FlowOrder.SwapTransposesIff | internal/admin/flows.go:1284-1293 | Exchanging two neighbours' priorities exchanges the two rows and moves no other if and only if they differ and no tie on either side falls the wrong way. |
| FlowOrder.MoveTransposesIff | internal/admin/flows.go:1248-1293 | The same of raise and lower, which do the same to a pair of neighbours. |
| FlowOrder.CreatedRowLast | internal/admin/flows.go:957-1022 | A created row lists last, the others keeping their places, under some supply of identifiers if and only if the last priority listed is at most the number of rows, and under every supply if and only if it is less, or equal with no smaller identifier to spare. |
| FlowOrder.CreatedSubFlowLast | internal/admin/flows.go:1032-1098 | The same of the row a created sub-flow hangs on, which points at the flow answered. |
| FlowHandlers.FlowStore.CreateFlow | internal/admin/flows.go:570-610 | The handler over the tables does what its specification step does, and keeps the invariant. |
| FlowHandlers.FlowStore.UpdateFlow | internal/admin/flows.go:621-650 | Likewise. |
| FlowHandlers.FlowStore.DeleteFlow | internal/admin/flows.go:656-676 | Likewise; a built-in flow is refused. |
| FlowHandlers.FlowStore.CopyFlow | internal/admin/flows.go:694-725 | Likewise, with the refusals in their order. |
| FlowHandlers.FlowStore.CopyFlowTree | internal/admin/flows.go:731-782 | The recursive loop over the mutable tables is the recursive specification of the copy. |
| FlowHandlers.FlowStore.CopyExecution | internal/admin/flows.go:755-779 | One turn of that loop. |
| FlowHandlers.FlowStore.WalkExecutions | internal/admin/flows.go:799-814 | The accumulating recursive walk is the flat listing of the flow's tree, appended. |
| FlowHandlers.FlowStore.ListFlowExecutions | internal/admin/flows.go:861-884 | The served listing is the flat listing of the described tree, a sub-flow's alias and description included. |
| FlowHandlers.FlowStore.UpdateFlowExecution | internal/admin/flows.go:898-932 | The handler does what its specification step does, and keeps the invariant. |
| FlowHandlers.FlowStore.CreateFlowExecution | internal/admin/flows.go:957-1010 | Likewise. |
| FlowHandlers.FlowStore.CreateSubFlow | internal/admin/flows.go:1032-1098 | Likewise: flow and row are stored together. |
| FlowHandlers.FlowStore.DeleteExecution | internal/admin/flows.go:1165-1180 | The handler does what its specification step does, and keeps the invariant. |
| FlowHandlers.FlowStore.CreateExecution | internal/admin/flows.go:1185-1236 | Likewise. |
| FlowHandlers.FlowStore.MovePriority | internal/admin/flows.go:1248-1293 | Likewise, with the search loop and the two writes. |
| FlowHandlers.FlowStore.CreateExecutionConfig | internal/admin/flows.go:1314-1351 | Likewise: create, repoint, delete the replaced config. |
| FlowHandlers.FlowStore.UpdateConfig | internal/admin/flows.go:1413-1435 | Likewise. |
| FlowHandlers.FlowStore.DeleteConfig | internal/admin/flows.go:1437-1456 | Likewise: every pointer to the config is cleared. |
| FlowHandlers.PositionIn | internal/admin/flows.go:1268-1274 | The search loop finds the first position of the row, or -1. |
| FlowEffects.ByAliasIs | internal/admin/flows.go:570-610 | An alias names the newest flow that carries it; the empty alias and any other name none. |
| FlowEffects.CreateFlowEffect | internal/admin/flows.go:570-610 | A flow is refused without an alias or a provider and for an alias already carried; otherwise exactly one flow is added, as sent and newest, and nothing else changes. |
| FlowEffects.UpdateFlowEffect | internal/admin/flows.go:621-650 | An update writes alias and description of the named flow and nothing else, or answers why not and changes nothing. |
| FlowEffects.DeleteFlowEffect | internal/admin/flows.go:656-676 | A delete takes out the flow and its own rows and nothing else; a built-in or unknown flow is refused. |
| FlowEffects.CopyFlowAnswers | internal/admin/flows.go:694-725 | A copy is refused exactly for an unknown source and for a name already carried. |
| FlowEffects.UpdateRequirementEffect | internal/admin/flows.go:898-932 | It is Done if and only if the alias names a flow, the row exists and the value is one of the four; the row then has the value sent, and every other field, row, flow and config is as it was; otherwise nothing changes. |
| FlowEffects.RequiredLines | internal/admin/flows.go:861-932 | The listing served afterwards shows that requirement on that row's line and differs nowhere else. |
| FlowEffects.CreateFlowExecutionEffect | internal/admin/flows.go:957-1010 | One row is added to the named flow, DISABLED, with the number of rows as priority; refused for an unknown or built-in flow and an unknown provider. |
| FlowEffects.CreateSubFlowEffect | internal/admin/flows.go:1032-1098 | One sub-flow and one row that points at it are added, as sent, and nothing else changes; with every refusal. |
| FlowEffects.CreateExecutionEffect | internal/admin/flows.go:1185-1236 | One row is added with the authenticator and priority sent and the requirement sent if it is one of the four; refused for an unknown or built-in parent and an unknown provider. |
| FlowEffects.DeleteExecutionEffect | internal/admin/flows.go:1165-1180 | A delete takes out that row and nothing else; an unknown row and one of a built-in flow are refused. |
| FlowEffects.MovePriorityAnswers | internal/admin/flows.go:1248-1293 | A move is refused exactly for an unknown row and for one of a built-in flow. |
| FlowEffects.CreateExecutionConfigAnswers | internal/admin/flows.go:1314-1351 | The config upsert is refused exactly for an unknown row, and then changes nothing. |
| FlowEffects.ConfigEffects | internal/admin/flows.go:1386-1456 | Creating, updating and deleting a config store what was sent or take it out, clear the pointers of a deleted one, and touch nothing else. |
| Ordering.ListingUnique | internal/store/sqlite/sqlite.go:3853-3861 | The (priority, id) listing of a set of rows is unique. |
| Ordering.SameKeysWhenListed | internal/store/sqlite/sqlite.go:3853-3861 | Re-listing rows whose priorities already ascend moves rows only among equal priorities. |
| Ordering.ExchangeKeepsKeys | internal/store/sqlite/sqlite.go:3853-3861 | Exchanging two rows' priorities leaves the priorities along the listing as they were. |
| Ordering.ExchangeSwaps | internal/store/sqlite/sqlite.go:3853-3861 | With distinct priorities it exchanges the two rows. |
| AuthzWrites.ResolveCreatesMissing | internal/admin/authzresource.go:999-1033 | Scope references resolve to live ids without repeats; nothing but scopes is added, and the scopes added are exactly the missing names. |
| AuthzWrites.ResolveAgain | internal/admin/authzresource.go:999-1033 | Resolving the same list again creates nothing and returns the same ids, however the scopes were extended meanwhile. |
| AuthzWrites.StepKeeps | internal/admin/authzscope.go:241-434 | Every scope and resource write keeps names and ids unique and every resource's uris and live scopes free of repeats. |
| AuthzWrites.StepFrame | internal/admin/authzresource.go:763-950 | And touches nothing but scopes and resources. |
| AuthzWrites.RunKeepsUnique | internal/admin/authzresource.go:763-950 | Over every run of those writes. |
| AuthzWrites.DroppedTidy | internal/admin/authzscope.go:433-446 | Deleting a scope leaves every resource with live scopes only. |
| AuthzEffects.CreateScopeEffect | internal/admin/authzscope.go:241-325 | A scope create writes over the row its id names, or without an id the row of its name, or adds one; the row is what was sent; it is refused exactly without a name, for a name another row holds, and for a new id in use elsewhere. |
| AuthzEffects.UpdateScopeEffect | internal/admin/authzscope.go:388-427 | A scope update writes what was sent over the path's row, whatever id the body holds, with its three refusals. |
| AuthzEffects.DeleteScopeEffect | internal/admin/authzscope.go:434-446 | A scope delete takes out the row, and its id out of every resource, and nothing else. |
| AuthzEffects.ResolvesExactly | internal/admin/authzresource.go:999-1033 | A list of scope references selects exactly the scopes its entries name, by id or else by name, and is refused exactly for an id no scope has. |
| AuthzEffects.CreateResourceEffect | internal/admin/authzresource.go:763-871 | A resource create stores, over the row of its id or at the end, exactly the fields, uris and scopes sent, held attributes staying when none were sent; all other resources stay; missing scopes are added with their name alone; with every refusal. |
| AuthzEffects.UpdateResourceEffect | internal/admin/authzresource.go:873-927 | A resource update replaces the path's row by what was sent, attributes staying when none were sent, and no other; with every refusal. |
| AuthzEffects.DeleteResourceEffect | internal/admin/authzresource.go:929-950 | A resource delete takes out the row and nothing else. |
| AuthzModel.UrisOf | internal/admin/authzresource.go:395-410 | `uris` with the legacy singular folded in: all of them, each once. |
| AuthzConfig.RolesReturnExactly | internal/admin/authzimport.go:173-195 | A role policy's references survive export and resolution if and only if each names a live realm role, or a client role named by its own id that no realm role shadows. |
| AuthzCases.ClientRoleIsLost | internal/admin/authzimport.go:173-195 | A stored reference to a client role is dropped by the trip. |
| AuthzConfig.ClientsReturn | internal/admin/authzimport.go:198-221 | Live client references return, exported by clientId and resolved name first. |
| AuthzConfig.GroupsReturn | internal/admin/authzimport.go:225-264 | Live group references return, exported by path and matched by id or path in listing order. |
| AuthzConfig.ValueReturns | internal/admin/authzimport.go:406-545 | The provider's own config value returns from the trip, for every policy type that has one. |
| AuthzConfig.ImportedLive | internal/admin/authzimport.go:198-264 | Whatever was sent, the client and group references stored are live. |
| AuthzConfig.GroupByRefLists | internal/admin/authzimport.go:240-257 | A group reference resolves to a listed group or to nothing. |
| AuthzResolution.RoleByRefIs | internal/admin/authzimport.go:281-292 | A role reference names the first realm role of that name or, when there is none, the role of that id; nothing if and only if there is neither. |
| AuthzResolution.ClientByRefIs | internal/admin/authzimport.go:294-308 | A client reference names the client of that clientId or, when there is none, the client of that id. |
| AuthzResolution.GroupByRefIs | internal/admin/authzimport.go:225-264 | A group reference names the first listed group whose id is the id sent or whose path is the path sent; nothing if and only if no listed group is either. |
| AuthzResolution.RolesByEntry | internal/admin/authzimport.go:173-195 | Role entries stand for themselves in order: nothing for an unknown role, else its id with the entry's `required`. |
| AuthzResolution.GroupsByEntry | internal/admin/authzimport.go:225-264 | Group entries stand for themselves in order: nothing for an unknown group, else its id with the entry's `extendChildren`. |
| AuthzResolution.ClientsByEntry | internal/admin/authzimport.go:198-221 | Clients resolve one for one, and are refused if and only if one of them is unknown. |
| AuthzResolution.GroupByIdKept | internal/admin/authzimport.go:225-264 | An entry that names a listed group by id is kept, with its flag, wherever it stands. |
| AuthzResolution.RoleKept | internal/admin/authzimport.go:173-195 | An entry that names a role is kept, with its flag, wherever it stands. |
| AuthzResolution.TargetIdIs | internal/admin/authzimport.go:330-360 | An association target is named or, when nothing has that name, given by its id. |
| AuthzResolution.TargetsByEntry | internal/admin/authzimport.go:312-328 | Targets resolve one for one, and are refused if and only if one of them is unknown. |
| AuthzResolution.ConsumeIs | internal/admin/authzimport.go:109-152 | Consuming the association keys adds exactly the targets they ask for to the sets, loses nothing, leaves the other entries in order, and is refused if and only if a value cannot be read or names an unknown target. |
| AuthzImport.ExportOrderIs | internal/admin/authzimport.go:376-402 | The export serves every policy, each once, creation order within each half, resource and scope policies in the second. |
| AuthzGroups.TreeIsTidy | internal/admin/groups.go:165-172 | Paths printed from a tree of well-named groups are unique and non-empty, which is what the trip of group references asks. |
| AuthzRoundTrip.ScopesReturn | internal/admin/authzimport.go:679-709 | Importing the exported scopes changes nothing. |
| AuthzRoundTrip.KnownNamesResolve | internal/admin/authzresource.go:999-1033 | Scope names already held resolve to exactly the ids that hold them, creating nothing. |
| AuthzRoundTrip.ResourcesReturn | internal/admin/authzimport.go:712-758 | Importing the exported resources changes only the order of their uris and scopes. |
| AuthzRoundTrip.ExportHolds | internal/admin/authzimport.go:406-454 | An exported config holds stored entries and associations only, the provider's own key among them. |
| AuthzServed.ConfigServed | internal/admin/authzimport.go:406-454 | An exported config has each key once and holds exactly the stored entries of the keys its type keeps, denormalised, and every association set that is not empty, by name. |
| AuthzServed.ExportServes | internal/admin/authz.go:180-232 | The export serves the settings and every scope, resource and policy with all its fields, without ids and owners, in export order. |
| AuthzRoundTrip.ConsumeReturns | internal/admin/authzimport.go:109-152 | Normalising a merged config consumes the association entries without adding to the sets. |
| AuthzRoundTrip.NormalisesBack | internal/admin/authzimport.go:109-152 | Merging an exported config over the stored one and normalising gives back the stored policy. |
| AuthzRoundTrip.PoliciesReturn | internal/admin/authzimport.go:764-826 | Importing exported policies, in any order of them, leaves each as it was, the owner aside. |
| AuthzRoundTrip.ImportOfExport | internal/admin/authzimport.go:617-657 | Importing a server's own settings export succeeds and changes nothing but policy owners and the order within uri and scope lists, given live references and non-empty names. |
| AuthzRoundTrip.ExportSucceeds | internal/admin/authz.go:180-232 | The settings export succeeds if and only if no policy names an association target that is gone. |
| AuthzCases.GoneScopeSpoilsExport | internal/admin/authz.go:180-232 | After a scope, a policy on it and the scope's deletion the settings export fails. |
| AuthzPolicies.NormaliseTidies | internal/admin/authzimport.go:109-152 | A normalised policy holds no association key and no key twice, and has its provider's own key. |
| AuthzImportEffects.NormaliseExactly | internal/admin/authzimport.go:109-152 | Normalisation is refused if and only if an association is faulty or the provider cannot take its own value, with the failure of the first fault; otherwise the sets gain exactly what was asked for, its own key is resolved, and every other key reads as before. |
| AuthzPolicyEffects.StorableExactly | internal/admin/authzimport.go:109-152 | A normalised policy can be stored unless its config sends a plain key twice or one of its lists names a target twice. |
| AuthzPolicyEffects.RefsByEntry | internal/admin/authzpolicy.go:996-1073 | A body's association list names its rows one for one, each the first with that id or name, and is refused if and only if one names none. |
| AuthzPolicyEffects.CreatePolicyEffect | internal/admin/authzpolicy.go:782-896 | The create's refusals in their order; when none applies exactly one policy is added, with the name, description, type, owner, logic and strategy sent or their defaults, the associations its lists and its config ask for, and its config normalised. |
| AuthzPolicyEffects.PutSettingsEffect | internal/admin/authz.go:313-364 | The update is accepted exactly for the two strategies with a known mode or none; it stores what was sent, an absent field at its default, and nothing else. |
| AuthzPolicies.CreatePolicyKeeps | internal/admin/authzpolicy.go:782-896 | Creating a policy, refusals included, keeps names and ids unique and every policy in stored form. |
| AuthzPolicies.ImportKeeps | internal/admin/authzimport.go:617-826 | So does an import of any body, stopped at any point. |
| AuthzImportEffects.ImportScopeEffect | internal/admin/authzimport.go:679-709 | An imported scope takes icon and display name over a held name, or is added under the id sent or a new one; refused exactly for an id in use. |
| AuthzImportEffects.ImportResourceEffect | internal/admin/authzimport.go:712-758 | An imported resource replaces the row of its name, the id kept, or is added; it has exactly the fields, uris, attributes and scopes sent; no other resource changes; with both refusals. |
| AuthzPolicyEffects.SentOverIs | internal/admin/authzimport.go:764-826 | Entries merged one after another give one value a key: as last sent, or as held when not sent. |
| AuthzPolicyEffects.ImportPolicyEffect | internal/admin/authzimport.go:764-826 | An imported policy of a new name is added with the fields sent or their defaults, the id sent or a new one, and its config normalised; over a held name the entry is merged in; refused exactly for a config that cannot be used, an unknown type, or an id in use. |
| AuthzPolicyEffects.MergedReads | internal/admin/authzimport.go:764-826 | Over a held name id, type, logic and strategy stay, description and owner are those sent, no association is lost, every plain key sent reads as last sent and every other as before. |
| AuthzImportFrame.ImportLeaves | internal/admin/authzimport.go:617-657 | A whole import stores the settings sent or their defaults; every row keeps its place, id and name; only rows the body names change; only what it names or its resources ask for is added; and, unless refused, each name is left as the body's last entry of that name says. |
| AuthzImportFrame.ScopesStop | internal/admin/authzimport.go:641-657 | A list of entries stops at the first refused one, its answer that entry's. |
| AuthzImportFrame.ResourcesStop | internal/admin/authzimport.go:641-657 | Likewise of resources. |
| AuthzImportFrame.PoliciesStop | internal/admin/authzimport.go:641-657 | Likewise of policies. |
| AuthzPolicies.RunKeepsStored | internal/admin/authzpolicy.go:782-896 | And every run of scope, resource and policy writes, settings updates and imports, whatever becomes of roles, clients and groups between requests. |
| AuthzPolicies.RunThenRoundTrip | internal/admin/authzimport.go:617-657 | So after any run only an empty name or a dead reference can spoil the round trip of the settings. |
| AuthzHandlers.ResourceServer.CreateScope | internal/admin/authzscope.go:241-293 | The upsert over the mutable tables does what its specification does: a body's id is looked up alone, a body without one upserts on its name. |
| AuthzHandlers.ResourceServer.UpdateScope | internal/admin/authzscope.go:388-427 | Likewise: the path decides which row moves. |
| AuthzHandlers.ResourceServer.ResolveScopeList | internal/admin/authzresource.go:999-1033 | The loop with its seen map is the specified resolution, partial work of a refusal included. |
| AuthzHandlers.ResourceServer.Uris | internal/admin/authzresource.go:395-410 | The loop is the specified list of uris. |
| AuthzHandlers.ResourceServer.CreateResource | internal/admin/authzresource.go:763-871 | The handler does what its specification does, the refused name first. |
| AuthzHandlers.ResourceServer.UpdateResource | internal/admin/authzresource.go:873-927 | Likewise: every field but absent attributes is replaced. |
| AuthzHandlers.ResourceServer.NormaliseConfig | internal/admin/authzimport.go:109-152 | The loop over config keys is the specified normalisation. |
| AuthzHandlers.ResourceServer.ResolveRoleList | internal/admin/authzimport.go:173-195 | The loop drops unknown roles and resolves by name, then id. |
| AuthzHandlers.ResourceServer.ResolveClientList | internal/admin/authzimport.go:198-221 | The loop refuses at the first unknown client. |
| AuthzHandlers.ResourceServer.ResolveGroupList | internal/admin/authzimport.go:225-264 | The nested loop takes the first listed group each entry names. |
| AuthzHandlers.ResourceServer.ResolveAssociation | internal/admin/authzimport.go:312-360 | The loop refuses at the first unknown target. |
| AuthzHandlers.ResourceServer.UpdateSettings | internal/admin/authz.go:313-364 | The handler does what its specification does, the strategy gate first. |
| AuthzHandlers.ResourceServer.ResolveBodyList | internal/admin/authzpolicy.go:996-1073 | The nested loops take the first row each entry names by id or name, and refuse at the first that names none. |
| AuthzHandlers.ResourceServer.CreatePolicy | internal/admin/authzpolicy.go:782-896 | The handler does what its specification does, its refusals in order. |
| AuthzHandlers.ResourceServer.ImportOneScope | internal/admin/authzimport.go:679-709 | Likewise, by name. |
| AuthzHandlers.ResourceServer.ImportOneResource | internal/admin/authzimport.go:712-758 | Likewise, by name. |
| AuthzHandlers.ResourceServer.ImportOnePolicy | internal/admin/authzimport.go:764-826 | Likewise: an existing policy's config is merged into. |
| AuthzHandlers.ResourceServer.ImportAll | internal/admin/authzimport.go:617-657 | The three write loops are the specified import, stopping at the first refusal with the work done so far. |
| AuthzHandlers.ResourceServer.ExportPolicyConfig | internal/admin/authzimport.go:406-454 | The loops build the specified exported config. |
| AuthzHandlers.ResourceServer.ExportPolicyList | internal/admin/authzimport.go:376-402 | The partition loop and the export of each policy. |
| AuthzHandlers.ResourceServer.ExportAll | internal/admin/authz.go:180-232 | The handler serves the specified export. |
| AuthzMatching.ScoreMeans | internal/admin/authzresource.go:599-607 | A pattern's score is the length of the wildcard prefix that covers the uri, if any. |
| AuthzMatching.OneSharedPattern | internal/admin/authzresource.go:559-597 | Without an exact registration all survivors hold one and the same pattern. |
| AuthzMatching.ScoreAll | internal/admin/authzresource.go:570-585 | The scores and the running best of the first loop. |
| AuthzMatching.FilterByMatchingUri | internal/admin/authzresource.go:559-597 | The filter keeps, in input order, exactly the resources that register the uri if any does, else exactly those with the longest covering wildcard prefix. |
| GroupPaths.PathReturns | internal/admin/defaultgroups.go:139-178 | From any starting group, the printed path of a run of descendants leads back to the last of them if and only if no name holds a slash and the end names are not empty. |
| GroupPaths.SlashIsLost | internal/admin/defaultgroups.go:139-178 | The path of a group named with a slash does not lead back to it. |
| GroupPaths.RealmPathReturns | internal/admin/groups.go:165-182 | So for the realm's groups, from the top level. |
| GroupPaths.OrganizationPathReturns | internal/admin/organizationgroups.go:402-434 | And for an organization's groups, from its hidden root. |
| GroupPaths.RootNeverFound | internal/admin/organizationgroups.go:179-184 | No path leads to the hidden root itself. |
| GroupPaths.PathsDiffer | internal/admin/groups.go:165-172 | Printable groups with one path are one group. |
| GroupPaths.SegmentsPrintable | internal/admin/defaultgroups.go:139-145 | What the split of any path yields, empty paths aside, are printable names: no others can be reached by a path. |
| GroupSearch.RelevantByKids | internal/admin/groups.go:255-275 | A group leads to a match when it is one or one of its children does. |
| GroupSearch.RepHolds | internal/admin/groups.go:292-314 | The recursive representation holds exactly the relevant groups at and below a group, each once, nested as in the tree, under its derived path. |
| GroupHandlers.PrintPath | internal/admin/groups.go:165-172 | The loop prints the path of the ancestry. |
| GroupHandlers.GroupAtPath | internal/admin/defaultgroups.go:154-178 | The loop with `parentID` and `found` is the specified walk. |
| GroupHandlers.PageMeans | internal/admin/groups.go:323-335 | A page is the run of at most `max` from `first`; absent or negative bounds bound nothing. |
| GroupHandlers.CountGroups | internal/admin/groups.go:348-370 | The count is of the matches, of the top level, or of everything outside the organizations. |
| GroupHandlers.CollectRoots | internal/admin/groups.go:255-275 | The loop with `keep` and `seen` collects each match's top-level ancestor once. |
| GroupHandlers.WriteGroup | internal/admin/groups.go:292-314 | The appending recursion is the specified representation. |
| GroupHandlers.SearchGroups | internal/admin/groups.go:240-280 | A search answers with the paged matches and their ancestors, each once, nested as in the tree, under its derived path, the top level in name order. |
| GroupHandlers.AncestorsShareRealm | internal/admin/groups.go:240-280 | No group below an organization's root is an ancestor of a realm group. |
| GroupHandlers.CountAgrees | internal/admin/groups.go:348-370 | Without bounds, the matching nodes of the answer are as many as the count of that search says. |
| GroupHandlers.CountedAre | internal/admin/groups.go:348-370 | Counted are exactly the groups outside the organizations that have the folded search anywhere in their folded name or, without a search, stand at the top level when only that is asked for; each once. |
| GroupHandlers.MatchesListed | internal/admin/groups.go:240-280 | The matches a search pages over stand in listing order. |
| AdminRoles.ConfersThrough | internal/admin/auth.go:194-216 | Conferral is idempotent and monotone. |
| AdminRoles.NeedsSeed | internal/admin/auth.go:161-172 | A name nothing implies is conferred by itself alone. |
| AdminRoles.MeasuredTableImpliesNone | internal/admin/auth.go:161-172 | The measured table implies neither of the two realm roles. |
| AdminRoles.GrantedIsConferred | internal/admin/auth.go:238-278 | An admin role a caller may hand out is conferred by the caller's own names for the realm that role is about. |
| AdminRoles.RealmRoleGranted | internal/admin/auth.go:238-278 | A reserved realm role is handed out only by a holder of it. |
| AdminRoles.AdminRealmIs | internal/admin/auth.go:289-297 | Which clients are containers, and of which realm, spelled out. |
| AdminRoles.ContainerIs | internal/admin/auth.go:497-523 | The container that decides: in master the target realm's client in master, in the target realm itself its own, and otherwise none. |
| AdminRoles.AdminNamesAre | internal/admin/auth.go:548-560 | A name counts if and only if it is held on that container, or is one of the two realm roles held in master. |
| AdminRoles.RealmRoleDecided | internal/admin/auth.go:238-278 | A realm role is handed out unless it is reserved and the caller holds that name neither on the realm's container nor, in master, as the realm role. |
| AdminRoles.ClientRoleDecided | internal/admin/auth.go:238-278 | A client role: failed if and only if no client has that id; allowed on an ordinary client; on the administered realm's container if and only if the caller's names confer it; on another realm's if and only if the caller holds exactly that name there. |
| AdminRoles.AddedIsConferred | internal/admin/auth.go:238-278 | Every name a hand-out adds to its recipient was conferred by the caller's names. |
| AdminRoles.HandOutsAddNothing | internal/admin/auth.go:238-278 | Over every run of admitted hand-outs, no holder's closed set of names for a realm leaves the closure of what all holders had at the start; the assumptions are asked of the roles held and handed out alone. |
| AdminRoles.SmallCatalogue | internal/admin/auth.go:161-172 | The assumptions on the catalogue of roles can be met, with the measured table. |
| AdminCaller.Caller.Names | internal/admin/auth.go:106-111 | The memo holds the caller's names for the administered realm. |
| AdminCaller.Caller.AdminRoleNames | internal/admin/auth.go:548-560 | Held roles reduced to names on the container, and in master the two realm roles. |
| AdminCaller.Caller.Implies | internal/admin/auth.go:208-216 | The recursion adds all a name confers, each once, and stops whatever cycles the table has. |
| AdminCaller.Caller.Grants | internal/admin/auth.go:194-203 | The memo holds exactly the least set of the caller's names closed under the table. |
| AdminCaller.Caller.ForeignGrants | internal/admin/auth.go:597-618 | The memo per container holds the exact names on it. |
| AdminCaller.Caller.MayGrantRole | internal/admin/auth.go:238-278 | The decision over the memos is the specified one. |
| Localization.SameDecides | internal/admin/localization.go:214-229 | With distinct keys the one-sided check with equal lengths decides equality of the maps. |
| Localization.StepDistinct | internal/admin/localization.go:142-209 | A write leaves distinct keys distinct if and only if it is not a body with a repeated key posted onto a locale without a row. |
| Localization.RepeatedKeyIsStored | internal/admin/localization.go:142-209 | A body with a repeated key, posted onto a locale without a row, is stored as it came. |
| Localization.RunRefines | internal/admin/localization.go:142-332 | Over every run with repeat-free bodies the documents are plain maps under plain writes, and the answers of the run are those of the plain writes. |
| Localization.StepOrders | internal/admin/localization.go:251-332 | PUT keeps the order of keys and may add one at the end, DELETE takes its key out, a POST that adds nothing keeps the document, any other serves the permuted merge. |
| Localization.AbsentStep | internal/admin/localization.go:142-209 | A locale has no document after a write if and only if it had none and was not deleted, or an empty body was posted onto it. |
| Localization.AbsentAbsorbs | internal/admin/localization.go:285-332 | Over every run without a delete of the locale an absent document stays absent. |
| Localization.PostTwice | internal/admin/localization.go:191-208 | A repeat-free body posted twice is the body posted once, order included, for every permutation. |
| Localization.MapAndOrder | internal/admin/localization.go:397-432 | A document is determined by its map and the order of its keys. |
| Localization.FallbackOverrides | internal/admin/localization.go:83-107 | The fallback read is the default locale's map overridden by the locale's own. |
| LocalizationHandlers.MergeTexts | internal/admin/localization.go:397-413 | The nested loops are the specified merge. |
| LocalizationHandlers.SameTexts | internal/admin/localization.go:214-229 | The map and the loop are the specified check. |
| LocalizationHandlers.OrderMerge | internal/admin/localization.go:418-432 | The re-bucketing is the specified reordering. |
| LocalizationHandlers.Localizations.ImportTexts | internal/admin/localization.go:142-209 | The handler does what its specification step does. |
| LocalizationHandlers.Localizations.SetText | internal/admin/localization.go:251-279 | Likewise. |
| LocalizationHandlers.Localizations.DeleteText | internal/admin/localization.go:307-332 | Likewise. |
| LocalizationHandlers.Localizations.ReadTexts | internal/admin/localization.go:83-107 | The read with its fallback. |
| Strings.SplitJoin | internal/admin/organizationmembers.go:438-453 | Splitting a string at a character and joining the pieces gives it back. |
| Wildcard.LeftmostSuffices | internal/admin/organizationmembers.go:438-453 | Taking the leftmost occurrence of a run loses no match. |
| Wildcard.ContainsWildcard | internal/admin/organizationmembers.go:438-453 | The greedy loop succeeds if and only if the folded value splits into gaps around the runs of the folded term, in order and without overlap. |
| Wildcard.WeavesIsGlob | internal/admin/organizationmembers.go:438-453 | That is the case if and only if the term, with neither end anchored, matches as a pattern. |
| Credentials.MovedKeepsAll | internal/admin/credentials.go:353-393 | A move neither loses nor repeats a credential. |
| Credentials.MovedPlaces | internal/admin/credentials.go:353-375 | A moved credential is first without a target, right behind a target of the listing, and last otherwise; any two others keep their order. |
| Credentials.RenumberedLists | internal/admin/credentials.go:376-393 | Once numbered 0 to n-1 along an order, the listing is that order. |
| Credentials.MoveTwice | internal/admin/credentials.go:353-393 | Moving the same credential to the same place again changes no listing. |
| Credentials.MoveAgain | internal/admin/credentials.go:353-393 | And writes nothing: every row is already as the move leaves it. |
| Credentials.LastActionWins | internal/admin/credentials.go:547-558 | The last of two writes of a required action decides alone, and the action is there if and only if it is wanted. |
| Credentials.ActionPlaced | internal/admin/credentials.go:547-558 | A required action that is wanted stands last and once, one that is not is gone, and the others keep their order. |
| CredentialHandlers.CredentialStore.Move | internal/admin/credentials.go:353-393 | After a move the listing is the old one with the credential taken out and put back first, after the target, or last for an unknown target; priorities are 0 to n-1, nothing else changes, and skipped writes lose nothing. |
| CredentialHandlers.CredentialStore.Apply | internal/admin/credentials.go:178-196 | The last password sent is the one stored, over the user's existing one if there is one; the required action is added if any was temporary. |
| CredentialHandlers.CredentialStore.SetPassword | internal/admin/credentials.go:495-544 | A password replaces the user's password row in place or adds one, and touches no other row. |
| CredentialHandlers.SetAction | internal/admin/credentials.go:547-558 | The loop is the specified list of actions. |

## Left out

- HTTP: routes, status codes beyond the kinds of answer, headers, exact error texts, `Location` shapes, the query for brief or full representations.
- JSON decoding and encoding, strict-decode positions and HTML escaping: bodies and config values are parsed values. A config string holding the JSON `null`, and decode-time checks of enum values, are not modelled.
- FlowHandlers.FlowStore.ListFlowExecutions: a line's provider display name, requirement choices and configurability are functions of its authenticator, its config alias is one of its config; the line holds what they are functions of.
- Permission checks in front of each handler, token scope filtering and the composite expansion of roles: the roles a caller effectively holds are an input.
- AdminRoles.HandOutsAddNothing: assumes of the roles held or handed out that ordinary roles carry no admin role; that an admin role carries what the table confers, or has a name nothing implies and carries no more for a realm than any other such role of that name; and that no client role of master's own container is named `admin` or `create-realm`. Attaching composites is not modelled.
- SQL: transactions, partial failures of the database and concurrent requests. The tables' keys, the cascade of a flow delete and the clearing of pointers by a config delete are modelled as the store does them.
- Time and cryptography: password hashes, creation dates, tokens, keystores, certificates.
- Listing filters of scopes, resources and policies other than the matching uri; the evaluation of policies.
- Javamap bucket order beyond being a permutation of the keys it is given.
- Group moves, and with them cycles of parents: the parent relation is taken to be well founded. Group creation and membership.
- GroupHandlers.SearchGroups: the access map of each representation and the brief form are left out; names are compared character by character rather than byte by byte.
- CredentialHandlers.CredentialStore.Apply: the stored secret is the value itself, without its hash; a user is taken to have at most one password row, and the identifier drawn to be new.
- Wildcard.ContainsWildcard: lower-casing is an arbitrary function of strings.
- Component filtering, event configuration, identity providers, sessions and the static catalogues: no property here spans them.
