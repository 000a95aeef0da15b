# Access database, configuration index and supervisor of ceph-api

A Dafny model of three components of ceph-api, with proofs.

- **The access database service** keeps users and roles in two maps in memory, mirrored by one
  remote key. Every mutator checks, changes memory, stores the whole database, and re-reads it
  when the store reports an error. Re-reading first empties memory.
- **The configuration index** merges a shipped list of parameters with the names the cluster
  reports, and answers searches with five filters, an early exit and an unstable sort.
- **The worker supervisor** runs workers in an errgroup and their cleanups behind the group's
  cancellation.

| file | content |
|---|---|
| Wrappers.dfy | optional values, results and errors |
| GoStrings.dfy | byte order of strings, the contract of the library sort |
| AccessData.dfy | users, roles, passwords, permission tables, the shipped roles |
| AccessOps.dfy | the sequential meaning of every mutator under every fault (`Plan`, `Apply`) |
| AccessInvariants.dfy | what one mutator keeps, changes, restores and loses |
| AccessOutcomes.dfy | when each mutator succeeds, which error it gives otherwise, what errors leave, round trips |
| AccessRuns.dfy | whole runs: soundness, faulty against fault-free runs, credentials from the history, what a success means later |
| AccessService.dfy | the `Service` class, method by method, against `Apply` |
| AccessProtocol.dfy | any number of threads, lock by lock and step by step |
| AccessSchedules.dfy | when locks are granted, and that every sequence of requests is served by a run |
| RoleNames.dfy | over whole runs, sequential and concurrent: when stored roles share built-in names or fail to validate |
| Permissions.dfy | the union GetPermissions must return, the guard, the authentication interceptor |
| PermissionSlices.dfy | GetPermissions over shared arrays |
| Bootstrap.dfy | the CreateAdmin block |
| ShippedRoles.dfy | what users with a shipped role may do |
| Glob.dfy, ConfigIndex.dfy | the pattern language, the merge |
| ConfigFilters.dfy, ConfigSearch.dfy | the five filters, the search |
| Supervisor.dfy | the supervisor as a transition system |
| RoleMessages.dfy | roles on the wire |

## Assumptions

- JSON encoding and decoding of the key is the identity on the two maps, and this process is
  the only writer of the key. A write of the key succeeds, fails leaving the key alone, or fails
  after it took effect; a read replies (also "not found", when the key is missing) or fails. A
  write does not take effect later than the re-read that follows it.
- bcrypt is an ideal hash: `Password` is a free term algebra in which only hashing makes a
  `Digest`, and comparing succeeds exactly on the hashed term. bcrypt may refuse to hash.
- The clock, salts and every fault are parameters (`Env`), or chosen step by step in
  AccessProtocol. Theorems about runs hold for all of them.
- Strings are byte sequences, a char being a byte. Lower-casing, case-insensitive comparison
  and the printing of enum values are parameters.
- `errgroup.WithContext` cancels on the first error or when `Wait` finishes; recording the first
  error and cancelling the group is one step.
- The initial database satisfies the invariants where a theorem says so (`SoundState`). The
  built-in role table is a parameter `sys` with `SystemTable(sys)`; the shipped table is proved
  to be one.

## Found on the way

- A failed write followed by a failed re-read leaves memory empty, and one later successful
  write then drops everybody else from the key (`EmptiedMemoryDropsTheOthers`). The losses are
  characterised exactly (`WhenAUserVanishes`, `WhenAStoredUserVanishes`).
- `CloneRole` does not check its new name (`ClonesOntoAnyName`). A clone onto a built-in name
  makes GetRole, CloneRole and ListRoles disagree, a clone onto the empty name leaves a role that
  `Role.Validate` rejects. Over whole runs, under every fault and with any number of threads,
  these clones are the only cause (`WhenNamesStayDisjoint`, `WhenRolesKeepValidating` and their
  concurrent forms). No operation frees a shared name as long as no re-read fails
  (`SharedNamesStay`); a lost memory does (`WhenASharedNameIsFreed`, `LosingMemoryFreesNames`).
- The scope constant for dashboard settings is spelt differently from the entry in the set of
  valid scopes, so no role can ever grant anything on it (`DashboardSettingsScopeIsNeverGranted`).
- The early exit of `Search` is right exactly on an index in which no two entries share a
  non-empty name free of wildcard characters (`WhenTheEarlyExitIsExact`). `NewConfig` gives such
  an index when the cluster lists no name twice.

## Model

| member | source | states |
|---|---|---|
| GoStrings.LessIsAStrictTotalOrder | pkg/user/service.go:93-95 | the byte order that all sorting rests on is irreflexive, transitive and total |
| GoStrings.LessIsLexicographic | pkg/user/service.go:93-95 | it is the lexicographic order of the bytes, a proper prefix first |
| Sorting.SortSlice | pkg/user/service.go:93-95 | sort.Slice as its callers may use it: a permutation, ordered, not stable |
| Sorting.OrderedPermutationIsUnique | pkg/cephconfig/config.go:344-370 | a strictly ordered list has one ordered permutation, so there instability does not show |
| SystemRoles.IndexByName | pkg/user/system_roles.go:14-20 | the loop that fills systemRoleMap maps every name of the table to its role and nothing else |
| SystemRoles.ShippedTableIsSound | pkg/user/system_roles.go:21-46 | the shipped roles have distinct names, are marked system, and use only known scopes and permissions |
| SystemRoles.ShippedMapIsASystemTable | pkg/user/system_roles.go:14-20 | the map built from the shipped table is the table all theorems ask for, and has the administrator |
| SystemRoles.ShippedByName | pkg/user/system_roles.go:14-20 | the eight roles, in this order, each under its name in the map |
| SystemRoles.ShippedAdministrator | pkg/user/system_roles.go:90-198 | all four permissions on seventeen scopes |
| SystemRoles.ShippedBlockManager | pkg/user/system_roles.go:199-229 | three managed scopes, reading on two |
| SystemRoles.ShippedCephfsManager | pkg/user/system_roles.go:230-245 | cephfs, reading on grafana |
| SystemRoles.ShippedClusterManager | pkg/user/system_roles.go:246-291 | six managed scopes, reading on grafana |
| SystemRoles.ShippedGaneshaManager | pkg/user/system_roles.go:292-319 | three managed scopes, reading on grafana |
| SystemRoles.ShippedPoolManager | pkg/user/system_roles.go:320-335 | pool, reading on grafana |
| SystemRoles.ShippedReadOnly | pkg/user/system_roles.go:336-387 | reading on fifteen scopes, nothing else |
| SystemRoles.ShippedRgwManager | pkg/user/system_roles.go:388-405 | rgw, reading on grafana |
| AccessService.Remote.Read | pkg/rados/service.go:17-31 | a read of the key replies with what is stored or fails, changing nothing |
| AccessService.Remote.Write | pkg/rados/service.go:33-47 | a write succeeds, fails without effect, or fails after it took effect |
| AccessService.Service.New | pkg/user/service.go:39-45 | a service exists only if the first read replied, and then mirrors the key and uses the shipped roles |
| AccessService.Service.UpdateFromDB | pkg/user/service.go:54-75 | memory is the decoded key after a reply (empty for a missing key) and empty after a failure |
| AccessService.Service.StoreToDB | pkg/user/service.go:77-84 | the key holds exactly the two maps if the write took effect, and is untouched otherwise |
| AccessService.Service.StoreOrRollback | pkg/user/service.go:154-162 | the shared tail of all mutators: store, on an error re-read, return the store's error |
| AccessService.Service.ValidateUserRoles | pkg/user/service.go:165-176 | accepts a role list exactly when every role is built-in or stored |
| AccessService.Service.ValidateRole | pkg/user/service.go:284-300 | accepts a role exactly when its name is not empty and all scopes and permissions are known |
| AccessService.Service.CreateUser | pkg/user/service.go:178-209 | memory, key and returned error are those of `Apply`, for every fault |
| AccessService.Service.UpdateUser | pkg/user/service.go:132-163 | the same for updates, with and without a new password |
| AccessService.Service.DeleteUser | pkg/user/service.go:211-224 | the same; deleting an absent user still stores |
| AccessService.Service.ChangePassword | pkg/user/service.go:226-252 | the same; the old password must verify, the new one may be empty |
| AccessService.Service.CreateRole | pkg/user/service.go:332-359 | the same, with the built-in names refused |
| AccessService.Service.UpdateRole | pkg/user/service.go:360-384 | the same, with system roles refused |
| AccessService.Service.DeleteRole | pkg/user/service.go:386-413 | the same; the scan over the users refuses exactly a role in use |
| AccessService.Service.CloneRole | pkg/user/service.go:415-438 | the same; the new name is not checked |
| AccessService.Service.GetUser | pkg/user/service.go:99-107 | the stored user or NotFound |
| AccessService.Service.GetRole | pkg/user/service.go:319-330 | the built-in role first, then the stored one, else NotFound |
| AccessService.Service.ListUsers | pkg/user/service.go:86-97 | every user exactly once, sorted by username, whatever the map order |
| AccessService.Service.ListRoles | pkg/user/service.go:308-317 | the built-in roles in order, then every stored role exactly once |
| AccessService.WhenListRolesRepeatsAName | pkg/user/service.go:308-317 | ListRoles repeats a name iff a stored role has a built-in name |
| AccessService.Service.Authenticate | pkg/auth/oauth_server.go:134-148 | succeeds iff the user is present, enabled and the secret verifies; every refusal is "not found" |
| AccessInvariants.PlanKeepsSound | pkg/user/service.go:165-176 | every operation intends a database in which all users' roles resolve and the catalogue invariant holds |
| AccessInvariants.ApplyKeepsSoundState | pkg/user/service.go:132-438 | after any operation under any fault, memory and key are sound and memory equals the key or is empty |
| AccessInvariants.ApplyIsAllOrNothing | pkg/user/service.go:132-438 | an error leaves the key unchanged or exactly as intended and memory unchanged, equal to it or empty; a success changes only the target entry |
| AccessInvariants.DeletionUndoesCreation | pkg/user/service.go:178-224 | deleting what was just created, user or role, is never refused; its write, reported or not, restores the database |
| AccessInvariants.FreshRolesAreUnused | pkg/user/service.go:386-402 | referential integrity means nobody holds a role that was just created, so its deletion is not refused |
| AccessInvariants.WhenAUserVanishes | pkg/user/service.go:54-56 | a user leaves memory iff its deletion took effect or write and re-read both failed |
| AccessInvariants.WhenAStoredUserVanishes | pkg/user/service.go:77-84 | a user leaves the key iff a write took effect that deletes it, or that comes from memory without it and does not itself create it |
| AccessInvariants.WhenASharedNameIsFreed | pkg/user/service.go:386-393 | a stored role with a built-in name leaves memory iff write and re-read failed, and the key iff a write took effect from memory without it that does not clone onto it |
| AccessInvariants.WhenLookupsAgree | pkg/user/service.go:319-330 | GetRole and CloneRole resolve all names alike iff no name is shared |
| AccessInvariants.ClonesOntoAnyName | pkg/user/service.go:415-427 | concrete clones that store a role Role.Validate rejects, and one sharing a built-in name |
| AccessOutcomes.WhenCreateUserSucceeds | pkg/user/service.go:178-209 | exactly when it succeeds and gives each of its errors, in terms of the form, the users and the roles |
| AccessOutcomes.WhenUpdateUserSucceeds | pkg/user/service.go:132-163 | the same for updates |
| AccessOutcomes.WhenDeleteUserSucceeds | pkg/user/service.go:211-224 | the same for deletions, which only the store can fail |
| AccessOutcomes.WhenChangePasswordSucceeds | pkg/user/service.go:226-252 | the same, with the old password verified |
| AccessOutcomes.WhenRolesAreValid | pkg/user/service.go:284-300 | Role.Validate accepts a name, eighteen scopes and four permissions, spelt out |
| AccessOutcomes.WhenCreateRoleSucceeds | pkg/user/service.go:332-359 | exactly when it succeeds and gives each of its errors |
| AccessOutcomes.WhenUpdateRoleSucceeds | pkg/user/service.go:360-384 | the same; only stored custom roles can be updated |
| AccessOutcomes.WhenDeleteRoleSucceeds | pkg/user/service.go:386-413 | the same; no user may hold the role |
| AccessOutcomes.WhenCloneRoleSucceeds | pkg/user/service.go:415-438 | the same; the copy has what the stored source has, or else the built-in one |
| AccessOutcomes.WhatErrorsLeave | pkg/user/service.go:54-84 | refusals change nothing; the store's error comes where a success would have, and leaves what write and re-read decided |
| AccessOutcomes.CreatedRolesCanBeUpdated | pkg/user/service.go:332-384 | a created role can be updated after any later run about others, exactly to valid custom roles |
| AccessOutcomes.CreatedUsersCanChangePasswords | pkg/user/service.go:178-252 | a created user can change its password after any later run about others, exactly with the one it was created with |
| AccessRuns.RunsKeepSoundState | pkg/user/service.go:54-84 | agreement of memory and key, referential integrity and the catalogue hold after every run with every fault pattern |
| AccessRuns.MemoryMirrorsTheKey | pkg/user/service.go:54-75 | with no failed re-read memory equals the key after every run |
| AccessRuns.FaultyRunIsAFaultFreeRun | pkg/user/service.go:132-438 | with no failed re-read a run under write errors ends like the run of its effective calls without any errors |
| AccessRuns.UsersVanishOnlyByDeletion | pkg/user/service.go:211-224 | with no failed re-read a vanished user was deleted by a call that took effect |
| AccessRuns.EmptiedMemoryDropsTheOthers | pkg/user/service.go:54-56 | after a failed re-read the next effective write leaves nothing but its target in the key |
| AccessRuns.PlanPutsThePassword | pkg/user/service.go:142-151 | a stored password is a hash of the new password, or the old hash when none is given |
| AccessRuns.AuthenticationFollowsTheLastPassword | pkg/auth/oauth_server.go:134-148 | over every run, failed re-reads included, exactly the last password put in the key logs a present and enabled user in |
| AccessRuns.LedgerIsExact | pkg/user/service.go:132-252 | with no failed re-read the accounts are what effective create, update, change and delete events alone make them |
| AccessRuns.LoginsFollowTheLedger | pkg/auth/oauth_server.go:134-148 | so logins are decided by the history alone |
| AccessRuns.SuccessPersists | pkg/user/service.go:132-438 | after a success, and any later run about other users and roles under any faults that keep memory, GetUser, GetRole and the password check answer with what was given; a deleted role stays unused |
| AccessProtocol.StepKeepsInv | pkg/user/service.go:47-52 | every step of every thread keeps lock exclusion, what readers hold, call order and agreement with the sequential log |
| AccessProtocol.EveryRunIsLinearizable | pkg/user/service.go:86-438 | every interleaving is a sequential history in unlock order with the same responses and states; each entry is for one call, with the operation or query called, logged after it, and the calls with an entry are exactly those that returned |
| AccessProtocol.CompletedOperationsComeFirst | pkg/user/service.go:86-438 | the entry of a returned call carries the operation called, and whatever had completed at the call precedes it |
| AccessProtocol.ReadersSeeUnlockPoints | pkg/user/service.go:86-130 | in every run a reader, though it reads twice, returned what the state at one unlock point gives, with everything that had completed when it was called |
| AccessProtocol.WhatReadersReturn | pkg/user/service.go:86-130 | in every run each reader returned all users, all stored roles, the whole user, the built-in or else stored role, or the exact union of the roles' permissions, of memory at its unlock point |
| AccessProtocol.WhatMutatorsReturn | pkg/user/service.go:132-438 | in every run each mutator returned what the called operation gives when run alone after the mutators logged before it |
| AccessProtocol.EveryReachableStateIsSound | pkg/user/service.go:54-84 | memory and key are sound at every moment, mid-operation too; between writers memory equals the key or is empty |
| AccessProtocol.LoginsBetweenWriters | pkg/auth/oauth_server.go:134-148 | between writers logins follow the last password put by the logged mutators |
| AccessProtocol.LoginsUnderConcurrency | pkg/auth/oauth_server.go:134-148 | a password check that read its user at any place in the log accepts exactly the last password put by the mutators logged before it, for a user present and enabled after them |
| AccessProtocol.RunsWithoutCallsEnd | pkg/user/service.go:47-52 | without new calls a run ends: each step, under any fault and order, lowers a natural number, at most six for each thread |
| AccessProtocol.StuckRunsAreAtRest | pkg/user/service.go:47-52 | a run that cannot go on without new calls has every operation returned, so no deadlock |
| AccessProtocol.OperationsCanBeCompleted | pkg/user/service.go:47-52 | every run can be carried on without new calls until every operation called has returned and has its entry in the log |
| AccessProtocol.AuthFuncUnderConcurrency | pkg/auth/grpc_interceptor.go:62-68 | one thread calls GetUser and then GetPermissions, anything else going on meanwhile: the permissions attached are those at the second read's place in the log, after the first; a user deleted by then passes nothing |
| AccessSchedules.WhenLocksAreGranted | pkg/user/service.go:47-52 | a writer is alone; the write lock is given exactly if nobody writes or reads, the read lock exactly if nobody writes |
| AccessSchedules.EverySequenceIsServed | pkg/user/service.go:86-438 | every sequence of requests by any threads with any faults is served by some run, each answered as when run alone |
| RoleNames.WhenNamesStayDisjoint | pkg/user/service.go:308-330 | from a start where they do, over every run under every fault, in memory and key: GetRole and CloneRole resolve all names alike and ListRoles repeats none after every call, iff no clone onto a built-in name took effect |
| RoleNames.WhenRolesKeepValidating | pkg/user/service.go:284-300 | from a start where they do, over every run under every fault: all stored roles pass Role.Validate after every call iff no clone onto the empty name took effect |
| RoleNames.SharedNamesStay | pkg/user/service.go:386-393 | with no failed re-read a built-in name that a stored role has stays taken, in memory and key |
| RoleNames.LosingMemoryFreesNames | pkg/user/service.go:54-56 | a concrete run that frees it: a deletion whose write and re-read fail, then one that succeeds |
| RoleNames.WhenNamesStayDisjointUnderConcurrency | pkg/user/service.go:415-438 | with any number of threads the readers agree at every moment, mid-operation too, iff no clone onto a built-in name passes its checks |
| RoleNames.WhenRolesKeepValidatingUnderConcurrency | pkg/user/service.go:415-438 | and all stored roles validate at every moment iff no clone onto the empty name passes |
| RoleNames.AskingForNoneIsEnough | pkg/user/service.go:415-438 | if no caller asks for such a clone, none passes |
| Permissions.UnionIsUnique | pkg/user/service.go:109-130 | the union of the roles' permissions, sorted without repetitions, is one map, whatever role order, duplicates or map order |
| Permissions.CollectGathersTheUnion | pkg/user/service.go:117-124 | appending role by role gathers exactly the scopes and permissions of custom and built-in roles |
| Permissions.DedupOfOrderedIsIncreasing | pkg/user/service.go:125-128 | sorting and compacting leaves a strictly increasing list of the same elements |
| Permissions.PermissionsOfIsTheUnion | pkg/user/service.go:109-130 | the value readers are answered with is that union |
| Permissions.UnionsArePermissionsOf | pkg/user/service.go:109-130 | whatever computes the union, over arrays too, computes that value |
| Permissions.PermissionsAreGrantedByRoles | pkg/user/service.go:109-130 | that value in terms of the role maps: the scopes some role covers, with the permissions some role lists there, in increasing order |
| Permissions.HasPermissions | pkg/user/service.go:26-37 | passes iff the map is not empty and lists every requested permission on the scope, by its word |
| Permissions.WhatEachPermissionNeeds | pkg/user/system_roles.go:72-86 | each of the four permissions passes iff the scope lists its word |
| Permissions.GuardDecidesByRoles | pkg/user/service.go:26-37 | on GetPermissions of a user it passes iff each permission is granted there by at least one role and some scope is mentioned |
| Permissions.MoreRolesAllowMore | pkg/user/service.go:26-37 | more roles never turn an allow into a deny |
| Permissions.AttachedPermissionsAreOfTheSecondRead | pkg/auth/grpc_interceptor.go:62-68 | the interceptor's decision depends on the second read only; a user gone by then is denied everything |
| Permissions.WhichScopesCanBeGranted | pkg/user/system_roles.go:27-46 | a sound database can grant something on a scope iff the scope is a valid one |
| Permissions.DashboardSettingsScopeIsNeverGranted | pkg/user/system_roles.go:67 | nothing is ever granted on the misspelt scope constant |
| ShippedRoles.WhatABuiltInRoleAllows | pkg/user/service.go:26-37 | a user with one built-in role passes exactly on what it manages, and with reading only on what it sees |
| ShippedRoles.WhatReadOnlyMayDo | pkg/user/system_roles.go:336-387 | a user with the read-only role may read on fifteen scopes and create, update or delete nowhere |
| PermissionSlices.Append | pkg/user/service.go:119 | append writes only into its own array or a new one and never changes the elements before |
| PermissionSlices.SortStrings | pkg/user/service.go:126 | in-place sort of one list |
| PermissionSlices.Compact | pkg/user/service.go:127 | in-place compaction keeps one of each run of equals |
| PermissionSlices.AppendAll | pkg/user/service.go:118-120 | the range loop appends every list, in any map order, without two results sharing an array |
| PermissionSlices.GetPermissions | pkg/user/service.go:109-130 | the exact union, computed in fresh arrays only, however stored and system roles share theirs |
| Bootstrap.CreateAdmin | pkg/app/start.go:64-91 | the block is a create if the administrator is missing and an update otherwise, under every fault |
| Bootstrap.WhenBootstrapSucceeds | pkg/app/start.go:64-91 | exactly when the block succeeds |
| Bootstrap.BootstrapEstablishesTheAdmin | pkg/app/start.go:64-91 | after a success the administrator is there with every field as configured, its one role and the configured password, and nothing else changed |
| Bootstrap.BootstrapIsIdempotent | pkg/app/start.go:64-91 | a second run gives the same state up to salt and timestamp |
| Bootstrap.WhatTheAdminMayDo | pkg/user/system_roles.go:89-197 | with the shipped roles the administrator passes checks on exactly the seventeen scopes of its role |
| Glob.PlainPatternsMatchOneString | pkg/cephconfig/config.go:338-341 | a pattern without `*?[]`, escapes included, matches exactly the string it unquotes to |
| Glob.QuotedStandsForItself | pkg/cephconfig/config.go:223-224 | every wildcard-free name can be asked for by such a pattern |
| Glob.StarMatchesAnyRun | pkg/cephconfig/config.go:338-341 | `*` between plain parts stands for any run without a slash |
| Glob.QuestionMatchesOne | pkg/cephconfig/config.go:338-341 | `?` stands for one character other than a slash |
| Glob.RangeMatchesOne | pkg/cephconfig/config.go:338-341 | a range in brackets, its bounds quoted if need be, stands for one character in it, negated for one outside |
| Glob.CharactersMatchOne | pkg/cephconfig/config.go:338-341 | characters in brackets stand for one of them, negated for any other |
| Glob.OpenBracketMatchesNothing | pkg/cephconfig/config.go:338-341 | a malformed pattern matches nothing |
| ConfigIndex.Cluster.Fetch | pkg/cephconfig/config.go:196-212 | one help command, recorded in the trace, with whatever reply |
| ConfigIndex.MergeParams | pkg/cephconfig/config.go:111-149 | whatever the inputs, one entry per cluster name, from the base or fetched for it; on sorted inputs every entry, every callback call in order, and the failure, all by counting instead of two pointers |
| ConfigIndex.StrictMergeIsLookup | pkg/cephconfig/config.go:111-149 | on strictly increasing lists the returned list is a lookup: the base entry of the name, or what the cluster replied for it if there is none |
| ConfigIndex.StrictMergeAsksTheMissing | pkg/cephconfig/config.go:127-147 | there the callback is called once for each missing name, in increasing order, and for no other |
| ConfigIndex.NewConfig | pkg/cephconfig/config.go:152-193 | on a sorted base the entries, the help commands and the failure are the right ones for the sorted listing; with replies that carry the name asked for, an index has exactly the cluster's names, sorted, from the base or the replies; strictly increasing iff the cluster repeats none |
| ConfigIndex.NewIndexIsLookup | pkg/cephconfig/config.go:152-193 | on a strictly increasing base and a listing without repetitions every listed base name keeps its base entry, and help is asked exactly for the listed names the base lacks, once each, in order |
| ConfigIndex.FailedIndexStopsAtTheFailure | pkg/cephconfig/config.go:152-193 | there a failed construction failed on its last help command, for a listed name the base lacks, having asked for exactly the lesser such names before |
| ConfigFilters.FilterKeepsWhatPasses | pkg/cephconfig/config.go:226-246 | the full scan keeps each parameter passing the five filters as often as it occurs and no other |
| ConfigFilters.PassingIsBeingWanted | pkg/cephconfig/config.go:262-336 | the filters are what a query asks for: service, level, name, type, and text in any of nine fields |
| ConfigFilters.WhatServicesAreCalled | pkg/cephconfig/config.go:59-73 | the twelve services by number |
| ConfigFilters.AddingAService | pkg/cephconfig/config.go:262-277 | adding a service to a query keeps exactly the old results of that service, as often as they occurred |
| ConfigFilters.AddingALevel | pkg/cephconfig/config.go:280-286 | the same for a level |
| ConfigFilters.AddingAName | pkg/cephconfig/config.go:289-294 | the same for a name or pattern |
| ConfigFilters.AddingAType | pkg/cephconfig/config.go:297-303 | the same for a type, lower-cased |
| ConfigFilters.AddingAFullText | pkg/cephconfig/config.go:306-335 | the same for a text, lower-cased like the fields |
| ConfigFilters.NoFilterFindsAll | pkg/cephconfig/config.go:226-246 | without filters the whole index is found, in order |
| ConfigSearch.ScanParams | pkg/cephconfig/config.go:216-246 | the filtering loop collects the full filter, or only its first entry exactly for a name free of `*?[]` |
| ConfigSearch.WhenTheEarlyExitIsExact | pkg/cephconfig/config.go:223-246 | the exit loses nothing for any query iff no two entries share a non-empty wildcard-free name |
| ConfigSearch.SortResults | pkg/cephconfig/config.go:344-370 | a permutation sorted by name, type or level, up or down; unknown fields leave any order |
| ConfigSearch.Search | pkg/cephconfig/config.go:215-259 | only parameters the query wants, sorted as chosen, by name upwards by default; on strictly increasing names all of them, and NAME order is the filtered index or its exact reverse |
| ConfigSearch.SearchNewIndex | pkg/cephconfig/config.go:152-259 | construction and search together: entries and help commands as in NewConfig; with a listing without repetitions and replies that carry the name asked for, every search is exact and every listed wildcard-free name is found by itself |
| Supervisor.Server.Add | pkg/util/serve.go:27-40 | appends the worker, or refuses a nil function or an empty name and changes nothing |
| Supervisor.Server.Start | pkg/util/serve.go:41-47 | refuses an empty server and otherwise begins the modelled run |
| Supervisor.StepKeepsInv | pkg/util/serve.go:47-90 | every step of Start, of the goroutines and of the environment keeps the invariant |
| Supervisor.SupervisorIsSafe | pkg/util/serve.go:41-91 | counter equals unfinished cleanups; cleanups only after cancellation and once; at return all is done and the result is nil or the first recorded error |
| Supervisor.EveryStepDecreasesTheMeasure | pkg/util/serve.go:47-90 | every step decreases a natural number |
| Supervisor.RunsAreShort | pkg/util/serve.go:47-90 | so a run of n workers has at most 11n + 5 steps |
| Supervisor.OnlyFunctionsBlock | pkg/util/serve.go:83-88 | a state that is not final and offers the supervisor no step waits for a worker or cleanup function still running |
| Supervisor.CancelledRunsEndWithAReturn | pkg/util/serve.go:71-90 | if workers return after cancellation and cleanup, every run that reaches cancellation ends with Start returning |
| Supervisor.RunsCanBeCompleted | pkg/util/serve.go:47-90 | every run can be carried on by the supervisor's steps and steps the functions owe until nothing is left; a cancelled one then has returned |
| Supervisor.WhatCancels | pkg/util/serve.go:47-83 | cancellation is never undone; a recorded error and the end of the group wait imply it |
| Supervisor.WhenTheGroupIsCancelled | pkg/util/serve.go:47-83 | cancelled exactly if the parent was cancelled, an error was recorded, or the group wait ended |
| Supervisor.WhyCleanUpsBegin | pkg/util/serve.go:71-82 | unless the parent was cancelled or a worker had returned an error, a cleanup begins only after every worker returned nil |
| Supervisor.WhenCleanUpsMayBegin | pkg/util/serve.go:71-82 | a cleanup may begin exactly once spawned, after one of these events, and not twice |
| Supervisor.WhenWorkersMayReturn | pkg/util/serve.go:49-59 | a worker may return anything exactly from its launch to its one return |
| Supervisor.WhenWorkersCanEnd | pkg/util/serve.go:49-61 | an error can be recorded exactly from its return on, once, and the goroutine end exactly after nil or the record |
| Supervisor.WhenCleanUpsCanEnd | pkg/util/serve.go:69-80 | a begun cleanup may return, and its goroutine end after that, once each |
| Supervisor.WhenStartWaits | pkg/util/serve.go:83-88 | Start waits for the end of every worker's goroutine, then of every cleanup's, and for nothing else |
| Supervisor.ResultIsTheFirstRecord | pkg/util/serve.go:83-90 | Start returns the first recorded error, which that worker returned, or nil without a record |
| RoleMessages.RoleFromMessage | pkg/api/users_api_handlers.go:47-61 | a message becomes a custom role; scopes with empty lists are dropped |
| RoleMessages.RoleToMessage | pkg/api/users_api_handlers.go:85-98 | a role's message lists every scope |
| RoleMessages.SendAndReadBack | pkg/api/users_api_handlers.go:47-98 | the round trip is the identity iff the role is custom and no scope is empty |

## Left out

- AccessService.Service.GetUser: users and roles are values there; sharing of slices between the service and its callers is modelled in PermissionSlices only.
- PermissionSlices.GetPermissions: stands beside the Service class, because it works on arrays where the class works on values; its result is the value of `PermissionsOf` by `UnionsArePermissionsOf`.
- PermissionSlices.SortStrings: the library sort's own steps are not modelled, only its contract.
- ConfigSearch.SortResults: returns a sorted list instead of sorting in place; the list is local to Search.
- ConfigSearch.Search: case folding and printing are parameters, so nothing is stated about which letters are equal.
- Glob.PlainPatternsMatchOneString: the library's matching algorithm is not part of this model, its documented language is; '?' and classes take one byte, not one rune.
- AccessProtocol.EveryRunIsLinearizable: lock fairness and writer preference of the RWMutex are not modelled, any order of grants is allowed.
- Supervisor.CancelledRunsEndWithAReturn: asks that a run cannot go on, in place of a fairness assumption, since every run is finite.
- RoleMessages.RoleFromMessage: a nil list in a message, on which the source would fail, cannot be expressed.
- Fields of the stored document that the service does not use (its version number).
- RADOS connections, command strings, the mock connection: only the outcome of a read or write of the key is modelled.
- Token issuing, introspection, revocation and JWT parsing: library behaviour.
- gRPC and HTTP servers, gateway, logging, tracing, metrics, configuration files: plumbing.
- Cluster, CRUSH rule and status handlers: one permission check and one remote command each.
- ParseMinMax, error conversion and the service enum table: settled by reading one switch or table.
