# Kasumi: a verified model of its algorithmic cores

Kasumi configures and runs proxy cores (Xray and sing-box). This project models, in Dafny, the parts of
it where a mistake is hard to see: the ordering of generated schemas, the migration of stored state, the
graph of proxy chains and the choice of a core, the cost check on regular expressions, the sanitising and
binding passes over JSON configs, the shared cookie jar, port leases, the fetch budget, the lock registry
of the tests, the refresh of geo data under a running core, and the WebSocket early-data path.

Code that changes state step by step is a method or a class proved against a specification function;
the laws are lemmas about that function. Protocols with several parties are state machines whose lemmas
speak about every run. Where a promise of the code does not hold for every input, the lemma says for
exactly which inputs it does, and an example shows the rest is not empty.

`dafny verify dfyconfig.toml` checks everything.

## Modules

| file | what it models |
|---|---|
| `Schemas.dfy` | word scanner, dependency graph and iterative depth-first search over generated declarations |
| `Migrate.dfy`, `MigrateRules.dfy`, `MigrateProps.dfy`, `MigrateFields.dfy`, `StampLoss.dfy`, `Flattening.dfy`, `FieldValues.dfy` | the schema ladder, the reshaping of values it rests on, its laws, what it does to every field of a state, what losing the stamp costs, and what becomes of every field of a flat profile and of its texts |
| `Profiles.dfy`, `Chain.dfy`, `CoreSelect.dfy`, `CoreNeeds.dfy` | profiles, the chain walk, picker and fix-up, the engine resolver, and which settings need which engine |
| `Costs.dfy`, `CostSyntax.dfy` | the depth and repetition budget of a pattern, the number taken from a matched tag, and the spelling of the nodes it lets pass |
| `Sanitize.dfy`, `SanitizeProps.dfy`, `SanitizeRecords.dfy`, `SanitizePlaces.dfy`, `SanitizePaths.dfy`, `RealityPick.dfy` | the recursive JSON passes over provider configs, their laws, and what they record on the list all outbounds share; place by place, what goes, what stays and what is spelled |
| `OutboundBind.dfy`, `XrayEscape.dfy`, `EscapeFields.dfy` | keeping a core's own sockets off the tun |
| `CookieJar.dfy` | the bounded jar: two maps that refine one queue |
| `PortLease.dfy` | the first-fit port allocator |
| `FetchBudget.dfy` | proxy, direct, retry and fallback attempts against one deadline |
| `AttemptLock.dfy` | the pruned lock registry and the log a test leaves |
| `AssetUpdate.dfy` | geo data that changes under a running core |
| `WsPath.dfy` | early data written into a path and read back |
| `JsonValue.dfy`, `Places.dfy`, `Text.dfy`, `Wrappers.dfy` | JSON documents and places in them, text helpers, option and result types |

Some proofs take the engine a profile needs as a function parameter (`needs`); it is always `ForcedCore`.
The lemmas about the ladder are stated for any `Rules` whose key lists are disjoint and whose nested
transports are tagged; `SourceRules` are the application's own, and `SourceRulesOk` proves that they
qualify. What happens to each field of a profile is stated for the application's own rules.

## Model

| member | source | states |
|---|---|---|
| `Schemas.SchemaIdents` | src-tauri/src/schemas.rs:62-82 | the words found are exactly the maximal words of the text that name a schema |
| `Schemas.MentionsExactly` | src-tauri/src/schemas.rs:62-82 | a word is mentioned if and only if it stands in the text between no letters, digits or underscores, is made of them and ends in `Schema` |
| `Schemas.UnitsAreTheSchemas` | src-tauri/src/schemas.rs:112-145 | the units are exactly the declared schemas |
| `Schemas.UnitsHoldLastDecl` | src-tauri/src/schemas.rs:112-145 | a unit holds the last declaration of its name |
| `Schemas.UnitsKeepOrder` | src-tauri/src/schemas.rs:112-145 | the units are exactly the declared names, and one is numbered before another if and only if the file first declares it earlier |
| `Schemas.OrdersDiffer` | src-tauri/src/schemas.rs:112-145 | no two units have the same number |
| `Schemas.FileOrderIsOrder` | src-tauri/src/schemas.rs:162-165 | names are in the order of their numbers if and only if they are in the order of their first declarations |
| `Schemas.CollectUnits` | src-tauri/src/schemas.rs:112-145 | the loop over the statements builds those units |
| `Schemas.UnitsHoldLastInferred` | src-tauri/src/schemas.rs:132-142 | a unit holds the last type inferred from its schema that stands behind the first declaration, and nothing when there is none |
| `Schemas.RenderedIsFile` | src-tauri/src/schemas.rs:193-203 | the text is the header and, for each emitted name in turn, its last declaration, the last type inferred from it and a line end |
| `Schemas.References` | src-tauri/src/schemas.rs:152-158 | a unit refers to the other known schemas its declaration mentions, sorted and each once |
| `Schemas.Dependencies` | src-tauri/src/schemas.rs:147-160 | every unit gets the references of its own declaration |
| `Schemas.Roots` | src-tauri/src/schemas.rs:162-165 | all units, in declaration order |
| `Schemas.SkipKeeps` | src-tauri/src/schemas.rs:173-177 | dropping an entry that is grey or black keeps the search invariant: the grey names are those with a `true` entry on the stack, each once, and they form a path |
| `Schemas.LeaveKeeps` | src-tauri/src/schemas.rs:178-182 | emitting a name keeps the invariant: its dependencies are out before it, except those on a cycle with it |
| `Schemas.EnterKeeps` | src-tauri/src/schemas.rs:183-189 | entering a name and pushing what it waits for keeps the invariant |
| `Schemas.TrailReaches` | src-tauri/src/schemas.rs:169-191 | on the stack an earlier grey name reaches every later one, so skipping a grey dependency means a cycle |
| `Schemas.PushPending` | src-tauri/src/schemas.rs:185-189 | what the inner loop pushes: the dependencies that are not black, in order |
| `Schemas.Step` | src-tauri/src/schemas.rs:172-190 | one iteration keeps the invariant, adds at most one name to the output and shrinks the lexicographic measure of white names and stack height |
| `Schemas.Visit` | src-tauri/src/schemas.rs:171-190 | the search from one root ends with every name it reached black and emitted |
| `Schemas.Search` | src-tauri/src/schemas.rs:167-191 | on every graph, cyclic ones included, the names come out once each, a name after all its dependencies but those on a cycle with it; an order that needs no change is kept |
| `Schemas.OrderedOnlyIfAcyclic` | src-tauri/src/schemas.rs:162-191 | no order puts every dependency first once there is a cycle |
| `Schemas.OffCyclesIsEverywhere` | src-tauri/src/schemas.rs:162-191 | without cycles the exception is empty |
| `Schemas.SortedOnce` | src-tauri/src/schemas.rs:164-165 | there is one way to list the units in declaration order |
| `Schemas.TopoSort` | src-tauri/src/schemas.rs:86-203 | the emitted list is a permutation of the units, declarations come before their uses if and only if there is no cycle, a file whose first declarations already stand in such an order is kept in that order, and the text is the header and, name by name in that order, the last declaration and the last inferred type of each |
| `Chain.ChainHops` | crates/kasumi-core/src/chain.rs:16-45 | the walk ends on every graph and gives the hops or the error of the recursive walk that must not come back to a seen profile |
| `Chain.ChainIsTheWalk` | crates/kasumi-core/src/chain.rs:16-45 | a chain is accepted if and only if following `via` ends, finds every hop, meets no custom profile and never meets the profile itself; the hops are those of that walk |
| `Chain.RefusedAtTheHop` | crates/kasumi-core/src/chain.rs:16-45 | a refused chain is refused at the first id the walk meets that it met before, that nobody has, or that a custom profile has, with the error for it |
| `Chain.HopsAreValid` | crates/kasumi-core/src/chain.rs:16-45 | every hop of an accepted chain has an accepted chain, the rest of the first |
| `Chain.ChainCandidates` | crates/kasumi-core/src/chain.rs:51-69 | the picker lists, in order, the ids it offers |
| `Chain.PickerIsExact` | crates/kasumi-core/src/chain.rs:51-69 | an id is offered if and only if storing it as `via` gives the profile an accepted chain |
| `Chain.PickerKeepsAllValid` | crates/kasumi-core/src/chain.rs:51-69 | with all stored chains accepted, taking an offered id keeps all of them accepted, also those through the changed profile |
| `Chain.AppState.FixupDanglingVia` | crates/kasumi-core/src/chain.rs:75-85 | in place, exactly the links to the profile itself or to nobody are cleared |
| `Chain.FixupIsIdempotent` | crates/kasumi-core/src/chain.rs:75-85 | fixing a fixed state changes nothing |
| `Chain.FixedNeverNotFound` | crates/kasumi-core/src/chain.rs:16-45 | after the fix-up no chain of any state ends in a missing hop |
| `Chain.DeletingKeepsAllValid` | crates/kasumi-core/src/chain.rs:71-85 | after deleting any set of profiles and fixing up, every chain is accepted and is its former self cut before the first deleted hop |
| `CoreSelect.ChainForcedCore` | crates/kasumi-core/src/core.rs:288-314 | the loop over the members finds the first need of each core, and reports both when both are needed |
| `CoreSelect.ResolvesUnlessBothNeeded` | crates/kasumi-core/src/core.rs:288-361 | a core is found if and only if the profile and its hops do not need both; it is the one some of them need, or the preferred one when none does |
| `CoreNeeds.ForcedExactly` | crates/kasumi-core/src/core.rs:16-286 | for every protocol, transport and TLS setting: a profile is forced to Xray, or to sing-box, if and only if its fields say so, with the precedence of protocol over transport over TLS over the skipped check |
| `CoreNeeds.ConflictExactly` | crates/kasumi-core/src/core.rs:64-77 | no core can run a profile if and only if its fields need Xray and skip the certificate check without a pin |
| `CoreNeeds.BuildsExactly` | crates/kasumi-core/src/core.rs:95-108 | Xray builds a profile if and only if its protocol, transport, cipher and TLS all allow it |
| `CoreNeeds.PreferredExactly` | crates/kasumi-core/src/core.rs:340-348 | without need the profile's own choice wins, then the one for its protocol, then sing-box for exactly five protocols |
| `CoreNeeds.ProtocolsDiffer` | crates/kasumi-core/src/core.rs:340-348 | profiles share a protocol if and only if their settings are of the same kind |
| `CoreNeeds.AloneExactly` | crates/kasumi-core/src/core.rs:288-361 | the core of a profile without a chain, from its fields |
| `CoreNeeds.ChainExactly` | crates/kasumi-core/src/core.rs:288-361 | the core of any chain, from the fields of its members |
| `CoreNeeds.BlameExactly` | crates/kasumi-core/src/core.rs:292-314 | the need is blamed on the first member that has it, and a clash on the first of each side |
| `CoreSelect.XrayOnlySettings` | crates/kasumi-core/src/core.rs:142-152 | the loop lists every Xray-only setting of the pins once |
| `CoreNeeds.LossesExactly` | crates/kasumi-core/src/core.rs:142-286 | a setting is among them if and only if the profile's fields have it |
| `CoreSelect.BrokenChainsResolve` | crates/kasumi-core/src/core.rs:290-296 | a broken chain counts as no hops and still resolves, to the profile's own core |
| `CoreSelect.ResolvedFitsEveryMember` | crates/kasumi-core/src/core.rs:288-361 | no member of a resolved chain is forced to the other core |
| `CoreSelect.HopsResolve` | crates/kasumi-core/src/core.rs:288-361 | every hop of a resolved chain resolves on its own |
| `CoreSelect.XrayBuildsWhatItRuns` | crates/kasumi-core/src/core.rs:58-101 | in a chain resolved to Xray a member without conflict can be built by Xray if and only if it is not pinned to Xray ahead of a transport Xray dropped |
| `CoreSelect.UnmixedPinsBuild` | crates/kasumi-core/src/core.rs:154-286 | a profile whose pins do not name both cores is never in that family |
| `CoreSelect.PinnedPastItsTransportExample` | crates/kasumi-core/src/core.rs:154-286 | the family is not empty: first-pin precedence sends such a profile to Xray, which cannot build it |
| `CoreSelect.ChainConflicts` | crates/kasumi-core/src/core.rs:316-336 | the editor's warnings, one per offered hop that would need both cores |
| `CoreSelect.WarnsExactlyWhenUnresolved` | crates/kasumi-core/src/core.rs:316-361 | an offered hop is warned about if and only if storing it leaves the profile without a core |
| `Costs.AcceptedExactly` | crates/kasumi-core/src/costs.rs:224-406 | from any depth, and any product within the budget, the walk accepts exactly the patterns that stay within the depth limit, whose repetition product on every path stays within the budget, and whose nodes are all readable, no repetition directly over a repetition |
| `CostSyntax.EscapeExactly` | crates/kasumi-core/src/costs.rs:37-120 | an escape passes if and only if it is one of the common forms, and is otherwise refused by its kind |
| `CostSyntax.GroupExactly` | crates/kasumi-core/src/costs.rs:284-318 | a group passes if and only if its name is made of letters, digits and underscores, or its flags are among four |
| `CostSyntax.QuantifierExactly` | crates/kasumi-core/src/costs.rs:347-376 | a braced quantifier passes if and only if it spells one count, a count and a comma, or two counts, in decimals without leading zeros |
| `CostSyntax.ClassLiteralExactly` | crates/kasumi-core/src/costs.rs:138-164 | a bare dash passes if and only if it stands first and not before another, or last |
| `CostSyntax.ClassRangeExactly` | crates/kasumi-core/src/costs.rs:165-178 | a range passes if and only if it does not start with a bare dash and both ends do |
| `Costs.SaturatedProduct` | crates/kasumi-core/src/costs.rs:383-406 | saturating multiplication never hides a product over the budget |
| `Costs.UnrolledBounded` | crates/kasumi-core/src/costs.rs:224-406 | written out, a pattern has at most its largest path product times its leaves |
| `Costs.AcceptedIsCheap` | crates/kasumi-core/src/costs.rs:436 | a pattern accepted from depth 0 and product 1 is at most 64 deep and unrolls to at most 1000 times its leaves |
| `Costs.BoundIsReached` | crates/kasumi-core/src/costs.rs:224-406 | the bound is sharp: the pattern `.{1000}` is accepted and meets it |
| `Costs.FirstNumber` | crates/kasumi-core/src/costs.rs:503-530 | the first number of a tag, starting at the first digit and as long as it can be made |
| `Sanitize.DropPinnedAllowInsecure` | crates/kasumi-core/src/custom_sanitize.rs:402-442 | the recursive pass computes the document without pinned `allowInsecure` keys and appends the dropped paths in the order it meets them |
| `SanitizePlaces.UnpinnedExactly` | crates/kasumi-core/src/custom_sanitize.rs:388-442 | the check is true if and only if some `tlsSettings`, anywhere, has `allowInsecure` true and no pin with more than whitespace in it |
| `SanitizePlaces.DropsExactly` | crates/kasumi-core/src/custom_sanitize.rs:402-442 | a place is emptied if and only if it is the `allowInsecure` of a `tlsSettings`, outside headers, that is true next to such a pin; everything else stays |
| `SanitizePaths.DropRecordsExactly` | crates/kasumi-core/src/custom_sanitize.rs:402-432 | the list gains exactly the spellings of the places the pass empties |
| `Sanitize.StripHostFiles` | crates/kasumi-core/src/custom_sanitize.rs:444-506 | the recursive pass computes the document without file keys and unlisted socket options, and the list of paths after it |
| `SanitizePlaces.StripsExactly` | crates/kasumi-core/src/custom_sanitize.rs:444-506 | a place is emptied if and only if it leads, outside headers and socket options, through `masterKeyLog`, or through a socket option other than eight; options that are no object become an empty one; everything else stays |
| `SanitizePaths.StripNamesExactly` | crates/kasumi-core/src/custom_sanitize.rs:444-502 | the list gains exactly the spellings of the file keys it meets and of the socket options that lose something |
| `SanitizePaths.OutboundRecordsExactly` | crates/kasumi-core/src/custom_sanitize.rs:309-374 | what an outbound adds to the list ahead of its stream settings |
| `SanitizeProps.DropKeepsUnpinned` | crates/kasumi-core/src/custom_sanitize.rs:388-442 | dropping never changes the answer of the unpinned check |
| `SanitizeProps.DropIsIdempotent` | crates/kasumi-core/src/custom_sanitize.rs:402-442 | a second run finds nothing to drop |
| `SanitizeProps.DropLeavesOnlyUnpinned` | crates/kasumi-core/src/custom_sanitize.rs:388-442 | after the pass, outside headers, some `tlsSettings` sets the key if and only if an unpinned one does |
| `SanitizeProps.DropRecordsWhatItChanges` | crates/kasumi-core/src/custom_sanitize.rs:402-432 | the pass only appends, and appends if and only if it changes the document |
| `SanitizeProps.StripIsIdempotent` | crates/kasumi-core/src/custom_sanitize.rs:444-502 | a second run finds nothing to strip |
| `SanitizeProps.DropKeepsStripped` | crates/kasumi-core/src/custom_sanitize.rs:402-502 | dropping keeps a stripped document stripped |
| `SanitizeProps.SanitizeIsIdempotent` | crates/kasumi-core/src/custom_sanitize.rs:402-502 | both passes in their order settle in one run |
| `SanitizeProps.StripAddsNoUnpinned` | crates/kasumi-core/src/custom_sanitize.rs:388-502 | stripping never makes a config skip the check unpinned |
| `SanitizeRecords.StripAdds` | crates/kasumi-core/src/custom_sanitize.rs:444-502 | what stripping adds to any list is what it records on an empty one, without the paths already listed |
| `SanitizeRecords.StripRecordsWhatItChanges` | crates/kasumi-core/src/custom_sanitize.rs:444-502 | on an empty list the pass records nothing if and only if it changes nothing |
| `SanitizeRecords.StripRecordsExactly` | crates/kasumi-core/src/custom_sanitize.rs:444-502 | on any list it records nothing if and only if every path it would record is listed already, so a change goes unrecorded exactly then |
| `SanitizeRecords.StripRecordsOnce` | crates/kasumi-core/src/custom_sanitize.rs:444-502 | it lists no path twice |
| `SanitizeRecords.SanitizeStreams` | crates/kasumi-core/src/custom_sanitize.rs:309-383 | the stream settings of all outbounds go through both passes on one list |
| `SanitizeRecords.StreamRecordsExactly` | crates/kasumi-core/src/custom_sanitize.rs:130-173 | in a whole config, what the strip pass takes from an outbound's stream settings goes unrecorded if and only if the config has unknown keys spelled like every one of the paths; what both passes take, if and only if besides that the second takes nothing |
| `SanitizeRecords.OrdinaryConfigsRecordExactly` | crates/kasumi-core/src/custom_sanitize.rs:130-173 | without an unknown key spelled like a path below them, an outbound's stream settings are recorded if and only if they change, for the strip pass and for both |
| `SanitizeRecords.UnrecordedExample` | crates/kasumi-core/src/custom_sanitize.rs:130-173 | a config whose change goes unrecorded exists |
| `RealityPick.ForgetRealityPick` | crates/kasumi-core/src/custom_sanitize.rs:277-289 | the pass removes the pick of every `realitySettings` and nothing else |
| `RealityPick.ForgetsExactly` | crates/kasumi-core/src/custom_sanitize.rs:277-289 | a place is emptied if and only if it leads through the server name or short id of some `realitySettings` |
| `RealityPick.ForgottenEqualIsSameButPick` | crates/kasumi-core/src/custom_sanitize.rs:265-289 | two documents are equal after forgetting if and only if, place by place, they differ in picks alone |
| `RealityPick.SameButPickExactly` | crates/kasumi-core/src/custom_sanitize.rs:265-289 | that comparison is agreement at every place that leads through no pick |
| `RealityPick.DiffersOnlyInRealityPick` | crates/kasumi-core/src/custom_sanitize.rs:265-274 | the comparison is true if and only if both parse, have outbounds, agree elsewhere, and their outbounds differ in picks alone |
| `Migrate.TakeGroup` | crates/kasumi-core/src/migrate.rs:329-337 | the listed fields move out with their values and the others stay |
| `Migrate.FlattenToNested` | crates/kasumi-core/src/migrate.rs:295-325 | the in-place grouping computes the nested profile |
| `Migrate.Document.MigrateV0ToV1` | crates/kasumi-core/src/migrate.rs:86-112 | profiles are migrated and intervals become minutes, unless already converted or too large, in place |
| `Migrate.Document.MigrateV1ToV2` | crates/kasumi-core/src/migrate.rs:116-133 | every subscription gets the mark that says whether its name was typed |
| `Migrate.Document.MigrateV2ToV3` | crates/kasumi-core/src/migrate.rs:137-157 | exactly the subscriptions with a typed user agent opt out of sending the device id, unless they already chose |
| `Migrate.Document.MigrateV3ToV4` | crates/kasumi-core/src/migrate.rs:163-183 | exactly the Shadowsocks profiles on TCP have TLS switched off |
| `Migrate.Document.MigrateAppState` | crates/kasumi-core/src/migrate.rs:39-48 | the loop runs every step from the stored version on and stamps the current one |
| `Migrate.Document.MigrateBackup` | crates/kasumi-core/src/migrate.rs:53-63 | a newer backup is refused unchanged, any other is migrated |
| `MigrateFields.MigratedExactly` | crates/kasumi-core/src/migrate.rs:39-183 | every field of a migrated state from the fields of the state alone: the version it is dated at, every subscription's interval, mark and request settings, every profile's TLS, and that nothing else changes |
| `MigrateFields.FirstStepExactly` | crates/kasumi-core/src/migrate.rs:86-112 | every profile is upgraded, and every interval of hours becomes minutes unless the state names its build or the product is too large |
| `MigrateFields.SecondStepExactly` | crates/kasumi-core/src/migrate.rs:116-133 | the mark is true if and only if the name is neither blank nor the host of the URL, or the URL where it has none |
| `MigrateFields.ThirdStepExactly` | crates/kasumi-core/src/migrate.rs:137-157 | `sendHwid` becomes false if and only if the user agent is a text that is not blank and nothing says otherwise; every other field stays |
| `MigrateFields.FourthStepExactly` | crates/kasumi-core/src/migrate.rs:163-183 | TLS of a plain Shadowsocks profile becomes `none`, and nothing else changes |
| `MigrateRules.NestedIsTagged` | crates/kasumi-core/src/migrate.rs:406-487 | the nested transport is tagged with the network the flat one named when it is one of seven, and as TCP otherwise |
| `MigrateRules.SourceRulesOk` | crates/kasumi-core/src/migrate.rs:194-251 | no key is in two lists, and no list holds a name the ladder itself gives a meaning |
| `MigrateProps.LadderComposes` | crates/kasumi-core/src/migrate.rs:27-48 | stopping at any later version, stamping it and resuming gives what one full migration gives |
| `MigrateProps.CurrentIsUntouched` | crates/kasumi-core/src/migrate.rs:37-48 | a document stamped with the current version is left as it is |
| `MigrateProps.LiftedIsFinal` | crates/kasumi-core/src/migrate.rs:39-183 | the whole ladder from any version, as one rewrite of each profile, each subscription and the identity |
| `StampLoss.ProfileSettles` | crates/kasumi-core/src/migrate.rs:270-325 | migrating a profile twice differs from once if and only if it carries a ready-made transport the first run passed over |
| `StampLoss.MarkSurvives` | crates/kasumi-core/src/migrate.rs:69-183 | the mark that dates a document survives the later steps |
| `StampLoss.StampLossIsHarmless` | crates/kasumi-core/src/migrate.rs:39-183 | for every document, stamped or not: migrating, losing the stamp and migrating again gives the same if and only if no profile and no subscription shows it, and the same outside the profiles if and only if no subscription does; which entries show it depends on the version the document is first migrated from and the one its fields date it to afterwards |
| `StampLoss.UnstampedDocuments` | crates/kasumi-core/src/migrate.rs:65-81 | a document that came without a stamp shows the loss if and only if nothing dates it, it holds no subscription object, and some profile carries a ready-made transport |
| `StampLoss.CurrentBackups` | crates/kasumi-core/src/migrate.rs:53-68 | a state of the current version with an identity, stored and read back without its stamp, is the same if and only if no Shadowsocks profile on TCP has TLS switched on |
| `StampLoss.IntervalsConvertOnce` | crates/kasumi-core/src/migrate.rs:86-112 | for every document the intervals come out the same if and only if it is not one past the first step that nothing dates and that holds an interval hours could stand for |
| `StampLoss.SourceStampLossIsHarmless` | crates/kasumi-core/src/migrate.rs:39-487 | both equivalences for the application's own rules |
| `StampLoss.ReadyTransportExample` | crates/kasumi-core/src/migrate.rs:270-293 | an unstamped WireGuard profile with a ready-made transport shows the loss |
| `StampLoss.HoursAgainExample` | crates/kasumi-core/src/migrate.rs:94-112 | a stamped document with one unmarked subscription has its interval multiplied again |
| `Flattening.GroupsAreTaken` | crates/kasumi-core/src/migrate.rs:295-337 | each group is shaped from exactly the fields of its list, which leave the top, and a field outside the lists stays unless it is named like a group of the protocol |
| `Flattening.SmallListsAreFields` | crates/kasumi-core/src/migrate.rs:194-195 | the fields of the meta and endpoint groups, by name |
| `Flattening.TransportListIsFields` | crates/kasumi-core/src/migrate.rs:196-224 | the fields of the transport group, by name |
| `Flattening.TlsListIsFields` | crates/kasumi-core/src/migrate.rs:225-247 | the fields of the TLS group, by name |
| `Flattening.GroupsOfProtocols` | crates/kasumi-core/src/migrate.rs:249-267 | which protocols have a transport group and which a TLS group |
| `FieldValues.MovesAreNamed` | crates/kasumi-core/src/migrate.rs:406-487 | the table of moves read field by field: under which name each network takes a field |
| `FieldValues.ListsAreEntries` | crates/kasumi-core/src/migrate.rs:349-367 | a text becomes the list of what stands between its commas and line ends, trimmed, without the blank ones |
| `FieldValues.BytesAreEntries` | crates/kasumi-core/src/migrate.rs:368-382 | a text of reserved bytes becomes the list of its entries that spell one |
| `FieldValues.ParsesByteExactly` | crates/kasumi-core/src/migrate.rs:370-382 | an entry is read as a byte if and only if it is its decimal, perhaps after a plus sign and zeros |
| `Flattening.NothingElseIsMade` | crates/kasumi-core/src/migrate.rs:295-347 | the upgrade makes the groups, an absent core type as null and a missing multiplexing switch as off, and nothing else |
| `Flattening.NestedProfilesKeep` | crates/kasumi-core/src/migrate.rs:270-293 | a nested profile is left alone but for a transport that names a network and no kind |
| `Flattening.EveryFieldLands` | crates/kasumi-core/src/migrate.rs:270-381 | where each field of a flat profile is afterwards: a meta, endpoint or TLS key is in its group, in no other and not at the top, with its value but for the core type and the three text lists; a transport key reaches the nested transport; a field named like a group of the protocol is lost; every other stays, and only WireGuard's reserved bytes change |
| `Flattening.TransportFieldSurvives` | crates/kasumi-core/src/migrate.rs:398-487 | for every network, a transport key survives with its value under its new name if the network takes it (for gRPC, if it is a text and the first choice), and otherwise leaves no trace |
| `Flattening.HeadersSurvive` | crates/kasumi-core/src/migrate.rs:384-395 | on the two networks that have request headers, a header survives if and only if the old text parses to an object that holds a text under its name, and with that text |
| `Flattening.NothingElseIsNested` | crates/kasumi-core/src/migrate.rs:406-487 | the nested transport holds its network, headers and surviving fields, and nothing else |
| `Flattening.LostFieldExample` | crates/kasumi-core/src/migrate.rs:475-478 | a QUIC profile loses its host |
| `Flattening.GroupNamesAreLost` | crates/kasumi-core/src/migrate.rs:295-319 | a field named like a group the protocol has makes no difference to the result |
| `OutboundBind.PassesCommute` | crates/kasumi-core/src/outbound_bind.rs:217-294 | binding and preserving one object commute and are idempotent |
| `OutboundBind.Config.BindSingBoxOutbounds` | crates/kasumi-core/src/outbound_bind.rs:124-140 | both arrays are rewritten in place, object by object |
| `OutboundBind.Config.PreserveLoopbackSingBoxEgress` | crates/kasumi-core/src/outbound_bind.rs:255-294 | both arrays are rewritten in place, object by object |
| `OutboundBind.ConfigPassesCommute` | crates/kasumi-core/src/outbound_bind.rs:124-294 | the two passes commute on whole configs |
| `OutboundBind.DetoursEnd` | crates/kasumi-core/src/outbound_bind.rs:217-240 | with detours that resolve and do not loop, following them from any object ends at one that dials for itself |
| `OutboundBind.PathsAreTheBoundPaths` | crates/kasumi-core/src/outbound_bind.rs:217-240 | the paths of detours in a bound config are exactly the images of those in the config |
| `OutboundBind.EgressNeverReentersTun` | crates/kasumi-core/src/outbound_bind.rs:217-240 | in a bound config every path of detours ends at an object that is bound to the uplink, reaches only this device, or opens no socket |
| `OutboundBind.EveryObjectLeavesTheTun` | crates/kasumi-core/src/outbound_bind.rs:217-240 | with detours that resolve and do not loop, every object of the bound config has such a path |
| `OutboundBind.BoundExactly` | crates/kasumi-core/src/outbound_bind.rs:217-240 | an object changes if and only if its type opens sockets, it names no detour, and it names no server at all or some server that is not on this device; then it gains the interface, each family's source address under the family's key, and nothing else |
| `OutboundBind.PreservedExactly` | crates/kasumi-core/src/outbound_bind.rs:266-294 | an object changes if and only if its type opens sockets, it names no detour, and all its servers, at least one, are on this device; then it gains 127.0.0.1 or ::1 for exactly the families it has a server of, and nothing else |
| `OutboundBind.ConfigBoundExactly` | crates/kasumi-core/src/outbound_bind.rs:124-140 | the same for every object of both arrays of a config, of which nothing else changes |
| `OutboundBind.ConfigPreservedExactly` | crates/kasumi-core/src/outbound_bind.rs:255-264 | the same for every object of both arrays of a config, of which nothing else changes |
| `OutboundBind.HostExactly` | crates/kasumi-core/src/outbound_bind.rs:361-369 | the host of an address is what stands in brackets, before its only colon, or all of it |
| `OutboundBind.LoopbackExactly` | crates/kasumi-core/src/outbound_bind.rs:348-358 | `localhost` in any case serves both families, a literal its own |
| `XrayEscape.EscapeXrayOutbounds` | crates/kasumi-core/src/outbound_bind.rs:124-140 | every outbound and endpoint is escaped in place, the rest of the config is left |
| `XrayEscape.EscapeIsIdempotent` | crates/kasumi-core/src/outbound_bind.rs:142-215 | escaping again changes nothing |
| `XrayEscape.EscapedExactly` | crates/kasumi-core/src/outbound_bind.rs:142-215 | an outbound gains the escape if and only if it sends traffic off the device through a socket of its own |
| `EscapeFields.OutboundEscapesExactly` | crates/kasumi-core/src/outbound_bind.rs:142-215 | every field of an escaped outbound from its fields alone: the legs, the socket options and the source address that gain the escape, and that nothing else changes |
| `EscapeFields.LeavesExactly` | crates/kasumi-core/src/outbound_bind.rs:142-148 | an outbound is looked at if and only if its protocol sends traffic and it names no server, or one that is not on this device |
| `XrayEscape.LegsEscape` | crates/kasumi-core/src/outbound_bind.rs:161-183 | every XHTTP download leg that leaves the device through its own socket carries the escape, also where the outbound is relayed |
| `CookieJar.Jar.constructor` | crates/kasumi-backend/src/sub_cookies.rs:27-33 | the empty jar refines the empty queue |
| `CookieJar.Jar.Insert` | crates/kasumi-backend/src/sub_cookies.rs:42-71 | a replaced cookie keeps its place, a new one joins the end, an expired one leaves, and overflow drops the head |
| `CookieJar.HeaderExactly` | crates/kasumi-backend/src/sub_cookies.rs:42-71 | the queue after any header: replaced in place, joined at the end, pushed out at 300, taken out, or the same |
| `CookieJar.Jar.Evict` | crates/kasumi-backend/src/sub_cookies.rs:60-70 | the eviction loop leaves the last 300 of the queue |
| `CookieJar.Jar.RemoveOldest` | crates/kasumi-backend/src/sub_cookies.rs:60-70 | the cookie with the least age is the head of the queue |
| `CookieJar.Jar.Remove` | crates/kasumi-backend/src/sub_cookies.rs:85-89 | both maps lose the key and the queue its entry |
| `CookieJar.Jar.RemoveExpired` | crates/kasumi-backend/src/sub_cookies.rs:73-83 | exactly the expired cookies leave, whatever order they are removed in |
| `CookieJar.ExpiredExactly` | crates/kasumi-backend/src/sub_cookies.rs:73-83 | the cookies that leave are exactly those whose time has come |
| `CookieJar.Jar.SetCookies` | crates/kasumi-backend/src/sub_cookies.rs:110-121 | after any call the maps agree, ages are distinct and below `next`, at most 300 cookies are held, and the queue is the old one without its expired cookies after each header in turn |
| `CookieJar.MapsHoldOneQueue` | crates/kasumi-backend/src/sub_cookies.rs:27-33 | the two maps determine the queue |
| `CookieJar.DatedIsDistinct` | crates/kasumi-backend/src/sub_cookies.rs:27-33 | the queue has every key once |
| `CookieJar.AsManyAges` | crates/kasumi-backend/src/sub_cookies.rs:60 | the age map has as many entries as the queue |
| `CookieJar.PushedOutExactly` | crates/kasumi-backend/src/sub_cookies.rs:41-71 | over any headers that neither set nor expire it, a cookie is held if and only if the newcomers fit in the free room, the places ahead of it and those expiries free behind it |
| `PortLease.PortLeases.AllFree` | crates/kasumi-backend/src/net.rs:373 | the block is clear of both sets, with no sum outside 16 bits |
| `PortLease.PortLeases.Reserve` | crates/kasumi-backend/src/net.rs:370-383 | the base is the least admissible one, or the start when no block up to port 65000 is free |
| `PortLease.PortLeases.LeasePorts` | crates/kasumi-backend/src/net.rs:362-366 | while no lease fell back, the set is exactly the union of the live leases, which are disjoint from each other and from the used ports; with no other ports used, leases of one start and span never fall back while fewer are live than the pool has tiles |
| `PortLease.PortLeases.Drop` | crates/kasumi-backend/src/net.rs:346-354 | dropping a lease frees its ports and no other, and keeps every tiling |
| `PortLease.FirstFitIsSlot` | crates/kasumi-backend/src/net.rs:370-383 | among tiled leases first fit picks a tile, whatever was dropped before |
| `PortLease.FallsBackExactly` | crates/kasumi-backend/src/net.rs:370-383 | with no other ports used, nothing is free if and only if every tile up to the last base is live |
| `PortLease.RoomBelowCapacity` | crates/kasumi-backend/src/net.rs:370-383 | a pool with fewer live leases than tiles has a free tile |
| `PortLease.TestPoolCapacity` | crates/kasumi-core/src/contract.rs:307-310 | the tests' pool, three ports at a time from 19000 with bases up to 65000, has 15334 tiles |
| `FetchBudget.Client.FetchOnce` | crates/kasumi-backend/src/net.rs:165-171 | an attempt ends within the limit it is given, with what the network answered or, cut short, with a timeout |
| `FetchBudget.Client.Fetch` | crates/kasumi-backend/src/net.rs:248-285 | the proxy first where the mode asks for it, then the direct attempt unless the mode forbids it or no time is left |
| `FetchBudget.FetchEndsInTime` | crates/kasumi-backend/src/net.rs:248-285 | at most two attempts, none started after the deadline and none ending later |
| `FetchBudget.FetchExactly` | crates/kasumi-backend/src/net.rs:248-285 | every way a fetch can go, from its options and the clock: what each attempt asks for, its limit, when there is a second, and what is reported |
| `FetchBudget.Client.FetchLikeHapp` | crates/kasumi-backend/src/sub_update.rs:461-485 | rounds follow each other only after a failure of the client and with time left, each shaped by the failure before it, up to the allowed number |
| `FetchBudget.RoundsEndInTime` | crates/kasumi-backend/src/sub_update.rs:461-485 | the first fetch, its retries and their proxy and direct tries all end by the shared deadline |
| `FetchBudget.RoundsExactly` | crates/kasumi-backend/src/sub_update.rs:461-503 | every round is a fetch, and follows a failure of the client with the headers and addresses that a reset connection or another failure asks for |
| `FetchBudget.OverExactly` | crates/kasumi-backend/src/sub_update.rs:461-485 | the rounds end only with a reply, another failure, the deadline, or the number allowed |
| `FetchBudget.RealErrorStays` | crates/kasumi-backend/src/sub_update.rs:471-475 | the last attempt decides, and running out of time is reported only when there was no attempt at all |
| `FetchBudget.Client.FetchSubscription` | crates/kasumi-backend/src/sub_update.rs:353-420 | the primary URL, then a guarded fallback if it failed, with one deadline; a fallback's reply merges partially, and when both fail the primary URL's error is kept |
| `FetchBudget.SubscriptionKeepsItsBudget` | crates/kasumi-backend/src/sub_update.rs:353-420 | all of it ends within 60 seconds, and the kept error is never that time ran out |
| `AttemptLock.Registry.AttemptLock` | crates/kasumi-backend/src/jobs.rs:126-134 | pruning drops exactly the locks no attempt holds, then the row's lock is found or made |
| `AttemptLock.StepKeeps` | crates/kasumi-backend/src/jobs.rs:126-402 | every step of every attempt keeps the registry, the owners and the logs consistent |
| `AttemptLock.OneOwner` | crates/kasumi-backend/src/jobs.rs:382-387 | two owners of one row are one attempt |
| `AttemptLock.OthersKeepLog` | crates/kasumi-backend/src/jobs.rs:122-134 | sweeps aside, only the owner of a row touches its log |
| `AttemptLock.MutualExclusion` | crates/kasumi-backend/src/jobs.rs:122-134 | in every run the attempts on one row share one lock, so at most one owns the row |
| `AttemptLock.RowsAreIndependent` | crates/kasumi-backend/src/jobs.rs:126-134 | attempts on different rows never share a lock |
| `AttemptLock.RegistryIsPruned` | crates/kasumi-backend/src/jobs.rs:126-134 | after a lookup the registry has a lock for exactly the rows some attempt is on |
| `AttemptLock.LogTellsOfTheAttempt` | crates/kasumi-backend/src/jobs.rs:378-402 | at release the log is the attempt's own, absent after a measurement, and after an error with text non-blank if and only if the row was not swept since |
| `AttemptLock.SweptLogExample` | crates/kasumi-backend/src/jobs.rs:136-141 | a run in which the row is swept before its failed test lets go of it |
| `AttemptLock.BlankNote` | crates/kasumi-backend/src/platform.rs:423-429 | the note of an error is blank if and only if the error is |
| `AttemptLock.KeptEndsWith` | crates/kasumi-backend/src/jobs.rs:256-284 | a kept log starts with what was measured and ends with the core's log, or with the error where that is blank |
| `AttemptLock.SpawnFailureLeaves` | crates/kasumi-backend/src/jobs.rs:220-236 | undisturbed, a test that fails before its core starts leaves what was to be measured and the reason |
| `AttemptLock.CoreLeaves` | crates/kasumi-backend/src/jobs.rs:268-284 | undisturbed, a core that ends leaves no log after a measurement, else what was measured and its own log, or the error where that is blank, and none where it left none |
| `AttemptLock.GivingUpLeaves` | crates/kasumi-backend/src/jobs.rs:378-402 | undisturbed, a test that is given up leaves no log of its own |
| `AttemptLock.FailureExplains` | crates/kasumi-backend/src/platform.rs:423-429 | a failed test keeps a log with something to read, and otherwise leaves its error |
| `AttemptLock.NothingToExplain` | crates/kasumi-backend/src/jobs.rs:392-402 | a test that did not fail leaves its log as it is |
| `AssetUpdate.Service.ApplyAsset` | crates/kasumi-backend/src/asset_update.rs:79-101 | `.dat` and `.srs` move together or not at all, and a change is reported if and only if the data changed |
| `AssetUpdate.SafeExactly` | crates/kasumi-core/src/asset.rs:6-13 | a name is safe if and only if it is not blank and, trimmed, has no slash, backslash, quote or two dots in a row |
| `AssetUpdate.Service.Restore` | crates/kasumi-backend/src/asset_update.rs:105-110 | the previous bytes, or no file, are put back |
| `AssetUpdate.Service.Refresh` | crates/kasumi-backend/src/asset_update.rs:177-200 | a change is missed exactly when data changes under a core not yet known to be behind while the platform does not answer; it stays missed until an answered change or the core's own data comes back |
| `AssetUpdate.MissedChange` | crates/kasumi-backend/src/asset_update.rs:211-216 | a change can be missed |
| `AssetUpdate.Service.RunStart` | crates/kasumi-backend/src/service/lifecycle.rs:59-96 | a start that lands leaves no geo data pending, and a restart pending only for an edit that came too late for its build; one that fails leaves the flag |
| `AssetUpdate.Service.RunStop` | crates/kasumi-backend/src/service/lifecycle.rs:97-109 | only a stop that worked takes the flag down |
| `AssetUpdate.Service.TearDownDeadDataPath` | crates/kasumi-backend/src/service/watchers.rs:182-193 | the watchdog's teardown forgets the build and leaves the flag up, whether or not the core goes |
| `AssetUpdate.Service.Dispatch` | crates/kasumi-backend/src/service/mod.rs:156-174 | every command leads to the state it is for, and after each, a core's own exit and the watchdog's teardown included, a core behind the disk shows as a pending restart if and only if no change is missed, and none is missed while the platform answers |
| `AssetUpdate.Service.Tick` | crates/kasumi-backend/src/asset_update.rs:160-208 | the same after a whole pass with anything in between; left alone, a pass reports a pending restart only with a core running, and whenever it leaves other data under an answering one |
| `WsPath.BuildWsPath` | crates/kasumi-core/src/config_shared.rs:110-127 | the pairs joined by the serializer are the appended parameters |
| `WsPath.BuiltExactly` | crates/kasumi-core/src/config_shared.rs:108-127 | the path that is written, in each of the four cases |
| `WsPath.ByteExactly` | crates/kasumi-core/src/config_shared.rs:120-123 | a byte is written as itself, as a plus sign, or as a percent sign and two upper-case hex digits |
| `WsPath.EncodesInOrder` | crates/kasumi-core/src/config_shared.rs:120-123 | a text is written byte by byte |
| `WsPath.DecodesHex` | crates/kasumi-core/src/config_shared.rs:29-33 | a percent sign and two hex digits of either case are read as one byte |
| `WsPath.DecodesOthers` | crates/kasumi-core/src/config_shared.rs:29-33 | everything else is read as itself |
| `WsPath.NumberExactly` | crates/kasumi-core/src/config_shared.rs:24-25 | a number is read unless it is too large for 64 bits, and then as 0 |
| `WsPath.TidiedExactly` | crates/kasumi-core/src/config_shared.rs:36-46 | tidying takes one `&` from the first `?&`, one from the first `&&`, and a separator from the end |
| `WsPath.DecodeUndoesEncode` | crates/kasumi-core/src/config_shared.rs:29-33 | percent-decoding gives back what the form serializer wrote, with `+` for each space |
| `Text.ValueUndoesDecimal` | crates/kasumi-core/src/config_shared.rs:24-25 | the number read is the number written |
| `WsPath.ReadsPair` | crates/kasumi-core/src/config_shared.rs:24-34 | the pair appended to a path in which the search finds none is the one it finds, and cutting it gives the path back |
| `WsPath.BuiltReadsBack` | crates/kasumi-core/src/config_shared.rs:19-127 | when the reader is left with no header pair but the appended one, it gives the path without its own early data, tidied, the first number, and the header but for its spaces, unless the path swallows the header |
| `WsPath.RoundTripsExactly` | crates/kasumi-core/src/config_shared.rs:108-127 | for every path in which the reader is left with no header pair but the appended one, every number and every header, the round trip is exact if and only if early data of the path's own is the appended number and already stands at the end, the path is tidy, the header has no space, and the path does not end in an `eh=` that takes the appended header for its own |
| `WsPath.OwnHeaderExactly` | crates/kasumi-core/src/config_shared.rs:108-127 | for every other path, every number and every header, it is exact if and only if the path's own header pair decodes to the header, its own early data is the number, the pair does not run on into the appended one, and both pairs moved to the end give the path, tidied |
| `WsPath.HeaderlessExactly` | crates/kasumi-core/src/config_shared.rs:19-127 | for every path and number, without a header it is exact if and only if the path has no header pair, is tidy, and has either no early data or the appended pair where it would be appended |
| `Text.DecimalIsShortest` | crates/kasumi-core/src/config_shared.rs:24-25 | no digits are read as a number in fewer places than its decimal, and none but the decimal in as few |
| `WsPath.OwnPairExample` | crates/kasumi-core/src/config_shared.rs:108-127 | a path that carries its own early data round-trips |
| `WsPath.UntidyPathExample` | crates/kasumi-core/src/config_shared.rs:36-46 | an untidy path comes back changed |
| `WsPath.SpacedHeaderExample` | crates/kasumi-core/src/config_shared.rs:29-33 | a space comes back as a plus sign |
| `WsPath.SwallowedHeaderExample` | crates/kasumi-core/src/config_shared.rs:29-34 | a path that ends in `eh=` swallows the header |
| `WsPath.PlainPathsExactly` | crates/kasumi-core/src/config_shared.rs:19-53 | for every path, without early data and header the round trip is exact if and only if the reader finds neither pair in it and nothing to tidy |

## Where the code differs from its description

- `build_ws_path` calls itself the inverse of `parse_ws_early_data`. A space in the header comes back as
  `+`, an untidy path comes back tidied, and a path that ends in `eh=` can swallow the header
  (`WsPath.RoundTripsExactly`). The reader takes a pair of the path's own first, so such a path comes back
  only if the pair is the appended one and moving it to the end gives the path (`WsPath.HeaderlessExactly`,
  `WsPath.OwnHeaderExactly`).
- `resolve_core` can pick Xray for a VLESS profile that `xray_builds` rejects, because the first pin wins
  (`CoreSelect.XrayBuildsWhatItRuns`).
- A document without a stamp is dated by two marks, which the app writes since versions 2 and 3; nothing
  marks version 4. A stamped document that loses its stamp can therefore be taken for an older one:
  restoring a current backup switches TLS off on Shadowsocks over TCP (`StampLoss.CurrentBackups`), and a
  document whose subscriptions bear no mark has its hours multiplied again (`StampLoss.HoursAgainExample`).
  A document that never had a stamp comes out the same but for one kind of profile
  (`StampLoss.UnstampedDocuments`).
- `strip_host_files` records a path once, on a list that all outbounds share and that starts with the
  config's own unknown keys. A key spelled like such a path hides the change
  (`SanitizeRecords.StreamRecordsExactly`).
- Nesting a flat profile drops the transport keys its network does not take and a field that is already
  named like a group (`Flattening.TransportFieldSurvives`, `Flattening.GroupNamesAreLost`).
- `core_running` reads a service that does not answer as a core that does not run
  (`AssetUpdate.Service.Refresh`).
- A retained log can be swept while its attempt still holds the row (`AttemptLock.LogTellsOfTheAttempt`).

## Left out

- Splitting the generated file into statements and reading a statement's name: the statements are given.
- Parsing of JSON text, URLs and IP literals: the parsed value or a parser function is a parameter; a
  custom profile holds what its text parses to.
- In JSON, numbers are integers or reals; the text of a number is not kept.
- `pin_xray_server_hosts`, and the sing-box mark mode, which sets one value in the route section.
- Costs.FirstNumber: gives the span of the number; its value as a float, and the 1.0 used when that is not
  finite, are not modelled.
- The regex parser, the normaliser and the first-match loop of `resolve_leastload_costs`; patterns start as
  syntax trees.
- The checks of `sanitize_provider_xray` around the two passes, its routing and observatory, and the digest
  of the outbounds; of an outbound only what reaches the list of dropped paths is kept.
- The inside of the cookie store and the header that `cookies` joins: what the store answers to an insertion
  is part of the input, and the age counter does not wrap.
- Reading the used ports: they are a parameter, and the set a lease was given is not updated later.
- PortLease.PortLeases.LeasePorts: says nothing about overlap once a lease fell back to its start, because
  the code then hands out ports that may be live.
- FetchBudget.Client.FetchOnce: assumes that an attempt ends within its limit and that time passes only in
  attempts; a clock that moves between two checks could still turn a proxy error into "out of time".
- Ingesting a fetched subscription, its warnings and the wording of errors.
- The test core itself: how it ends and what it logged are inputs; writing a log succeeds.
- AttemptLock.Registry.AttemptLock: the run of a test is a state machine over its steps, since any number of
  tests interleave; only the lookup is a method.
- AssetUpdate.Service.ApplyAsset: file operations succeed and a failed conversion leaves the old `.srs`.
- Which assets are due, the stamp of a refreshed asset and the backoff map.
- WsPath.ParseWsEarlyData: digits outside ASCII after `ed=` are not read as digits; the code reads them and
  then falls back to 0.
- The user interface, the command dispatch, file and process plumbing, code generation and translations.
