# TunnelTug verification model

A Dafny model of TunnelTug's stateful and textual core, with proofs of its properties. `dafny verify dfyconfig.toml` checks the whole project.

| Component | Files |
|---|---|
| Tugconf language, its printer, and the configuration tree on values and on mutable maps | `TugTree`, `TugSyntax`, `TugPrint`, `TugRebuild`, `TugRoundTrip`, `TugStrip`, `TugSite`, `TugExact`, `TugQuote`, `TugPrinter`, `TugCommands`, `TugLines`, `TugHeap`, `TugMerge`, `TugShare` |
| Load balancer: lock-held sections, runs of interleaved connections, assignment arithmetic, the manager in place | `LbState`, `LbRuns`, `Registry`, `Tenants`, `Balanced`, `Lb` |
| Anycast: health tracker, origin validation, BGPsec octets, announce/withdraw manager, the loop that joins them | `Health`, `Octets`, `Cidr`, `Rov`, `Bgpsec`, `Announce`, `Updater`, `Live` |
| Tunnel table with takeover, snapshot and restore | `TunnelState`, `TunnelClients`, `TunnelServer` |
| Names and peers: DNS zone choice, kernel peer graph, tunnel keys and hosts, DNS question names | `DnsZones`, `Peers`, `TunnelKey`, `DnsQuery` |
| Strings as the code uses them | `Text` |

## How the model is built

Pure code is modelled by functions and lemmas. Code that updates objects, maps, slices or loop variables is modelled by classes and methods with loops, each proved against a specification function whose properties are lemmas. Concurrency is modelled by steps: each section that holds a lock is one step, and a run is any sequence of enabled steps.

- **Map order.** Go ranges over maps in random order. The printer's specification takes a view of the tree with an order chosen for every map, and the theorems hold for all views; methods pick the next key freely.
- **Printable fragment.** `TugRoundTrip.Printable`: keys are single tokens and not aliases; maps are not empty; scalars, strings and lists come back by themselves, as `TugExact` states; `roles` is a list; `pops` and the barges of `stack` may be keyed lists whose names differ without regard to case and whose entries have a field beside the name.
- **Outside answers.** Probe results, ECDSA results, what the speaker accepts, and all clock readings are parameters. A speaker error changes nothing at the speaker. Verification under a key is an arbitrary predicate of the hashed octets and the pair (r, s).
- **Load balancer records.** Routes hold references to backend records, so a record that left the list stays reachable; the specification numbers the records and the classes carry that number as a ghost constant. A section reads the clock once. `cutoff` stands for that time less the registration time-to-live.
- **Connections.** A client connection runs as pick (snapshot), choice, route, then relay start and end, or dial failure, with other steps between any two of them. Forwarding the control message fails like a dial. A heartbeat is a touch and, when that finds nothing, a registration: two steps.
- **Tunnel sessions.** A session that opens and takes the table's lock is one step; a peer may close any session at any time. A restart starts a new process from a snapshot of the old state.
- **Text.** Strings are sequences of characters and lower-casing is that of ASCII letters. DNS names and signed data are octets.
- **Formatting.** Text of floating-point values, text of lists and maps printed by `fmt.Sprint`, printability beyond ASCII, and float parsing are parameters, and the theorems hold for any choice of them.

## Where the code and its documentation differ

- `matchDNSZone` documents that longer patterns win (dns_config.go:252-253). A plain suffix beats a more specific wildcard that is less than fifty characters longer; the model follows the code (`DnsZones.PlainBeatsMoreSpecificWildcard`).
- `ValidateOrigin` cites RFC 6811 (anycast/rov/rov.go:146) but reports NotFound where the RFC says Invalid when every covering ROA is too short for the announced length (`Rov.ScanAgainstRfc`, `Rov.TooSpecificIsNotFound`).
- The comment on `load override` (tugconf.go:127) keeps the deep merge for nested maps and has top-level keys from the file win; the code is the one merge of `load merge`. A top-level map of the file wins unchanged iff it has, at every depth, all the keys the tree has there (`TugTree.MergeIsShallowExactly`, with the witness `TugTree.MergeKeepsDeepFields`).
- `deepMerge` copies nested maps (tugconf.go:147-149) but stores the source's lists as they are (tugconf.go:151), so the merged tree shares exactly the maps inside those lists with its source, and a later update of a pop changes both (`TugShare.SharedExactly`, `TugShare.NamePopOfMerge`).
- A hub-spoke mesh is accepted although the hub has no URL. The pops with URLs are then not connected to each other by the peer lists unless there is at most one; all pops are still connected when every spoke has a URL, since the hub lists them (`Peers.StarIsConnected`).
- Nothing checks the form of `-domain` and of the server address. With a domain that ends in a dot, or without a domain on a numeric address, the host printed for the default namespace reads back as another namespace, the first label (`TunnelKey.HostRoundTrip`, `TunnelKey.LocalHostRoundTrip`, `TunnelKey.FirstLabelIsRead`).
- `set stack barge <name> ...` builds a list that `delete stack barge <name> ...` never reaches (tugconf.go:407-425 has no case for it), nor does `delete pop <id> pop ...` reach what `set` stored there (`TugCommands.DeleteAfterSet`, `TugCommands.DeleteMissesBarges`).
- A printed configuration is meant to be reloaded. What comes back is what is printed: nulls, blank scalars, empty maps and empty lists are left out (`TugStrip.PrintThenReadAny`, `TugExact.EmptyMapIsLost`, `TugExact.EmptyListIsLost`). A list of maps under any key other than those with a command comes back as a map (`TugExact.OtherListReadsAsMap`). The reader takes quotes off but does not undo escapes, though the quoted form determines the string (`TugQuote.QuoteIsInjective`). `TugExact` gives the exact condition for each string, integer and one-line list to come back.
- The products of a stack and the barges of a pop's overrides are printed as `set stack barge` lines (tugconf.go:556-558), so they come back as the barges of the site's own stack (`TugSite.ProductsComeBackAsBarges`, `TugSite.OverridesComeBackInTheSite`).
- Pruning works by id. With distinct ids no answer sees it (`LbState.PruneIsInvisible`); `parseBackends` accepts repeated ids, and then it takes down exactly the answered routes whose id also has an expired record (`LbState.RouteChangedByPrune`, `LbRuns.PruneVisibleWithRepeatedIds`).
- Round-robin converts its unsigned counter to a signed integer (lb_control.go:134); past 2^63 the index may be negative (`LbState.RoundRobinInBounds`).
- A backend id that registers again under another namespace keeps its routes and its clients (lb_register.go:178-190), so a key's lookup then answers with a backend of another namespace. No other section mixes namespaces (`Tenants.StepKeepsApart`, `Tenants.RouteLeadsToAnotherNamespace`).
- The comment on the exempt space cites RFC 3849 (anycast/rov/rov.go:231), but no IPv6 block is exempt (`Rov.ExemptSpace`).
- A client that picked a backend just before it was removed and registered again is answered with the removed record (`LbRuns.StalePickServesOldRecord`).
- `restoreSnapshot` checks the live table for pending entries only (snapshot.go:300-318; `TunnelState.RestoreOnRunningServer`). The server itself restores only before it accepts clients.

## Model

| member | source | states |
|---|---|---|
| TugStrip.PrintThenReadAny | tugconf.go:488-592 | the text of any tree, with its nulls, blank scalars, empty maps and empty lists, reads back as exactly the part of it that is printed, for every order in which maps are visited, whenever that part is in the printable fragment |
| TugStrip.PrintableIsPrinted | tugconf.go:580-586 | nothing of a tree in the printable fragment is left out, so such a tree comes back whole |
| TugStrip.StripEmits | tugconf.go:508-592 | what is left out of a tree contributes no line at any prefix |
| TugStrip.SecondRound | tugconf.go:488-592 | what came back prints as itself: a second round of printing and reading changes nothing |
| TugSite.OnePopSiteReloads | site_config_test.go:208-229 | a site as it is marshalled, one pop and all unset fields null or blank, reads back as exactly its set fields |
| TugSite.ProductsComeBackAsBarges | tugconf.go:556-558 | a witness family: the products of a stack come back as its barges, entry for entry |
| TugSite.OverridesComeBackInTheSite | tugconf.go:556-558 | a witness family: the barges with which a pop overrides the stack come back as the site's own, and the pop is gone |
| TugPrinter.SiteToSetLines | tugconf.go:488-592 | the text is the lines of a well-keyed view of exactly this tree, and reads back as its printed part when that is in the fragment, as the whole tree when the tree is |
| TugPrinter.EmitSetLines | tugconf.go:508-592 | the recursive printer appends exactly the lines of some ordered view of the value it was given, and nothing else |
| TugPrinter.EmitMap | tugconf.go:510-530 | a map's fields are printed once each, in ascending order of their keys, below the extended prefix |
| TugPrinter.EmitList | tugconf.go:531-579 | a list of maps is printed entry by entry, any other list as one bracketed line |
| TugPrinter.EmitEntry | tugconf.go:541-571 | one list entry is printed under its id or name with all other fields, in whatever order the range yields them |
| TugPrinter.SortKeys | tugconf.go:517-523 | the in-place exchange sort leaves an ascending permutation of the keys |
| Text.LessMeans | tugconf.go:519 | strings are ordered by their first different characters, a proper prefix first |
| Text.ContainsMeans | tugconf.go:558 | a string contains another iff it is that one between two others |
| TugPrinter.Reload | tugconf.go:488-506 | printing and reading with the modelled methods gives back the printed part of the tree, nulls, blanks and empty collections left out |
| TugExact.StringReadsBackExactly | tugconf.go:582-590 | the exact condition for every string leaf: what is printed reads back as the same string at the same path iff it is trimmed and not empty, without line break, unchanged by quoting and not read as another type; a blank one prints nothing |
| TugExact.IntReadsBackExactly | tugconf.go:229-231 | under every path, the printed line of an integer reads back as that integer iff it fits 64 signed bits |
| TugExact.BoolReadsBack | tugconf.go:223-228 | under every path, the printed line of a boolean reads back as it |
| TugExact.ListReadsBackExactly | tugconf.go:574-579 | the exact condition for every list printed on one line: it reads back iff it holds only strings, trimmed and not empty, without quote, comment sign, blank, comma or line break, and without white space when there is one item |
| TugExact.EmptyListIsLost | tugconf.go:531-579 | a witness outside the fragment: an empty list leaves no trace in the text |
| TugExact.EmptyMapIsLost | tugconf.go:510-530 | a witness that the round trip fails outside the fragment: an empty map leaves no trace in the text |
| TugExact.SetValueSource | tugconf.go:156-181 | a value set by any line comes from a token without double quotes, so quotes never survive |
| TugExact.QuotedReadsBackOnlyIf | tugconf.go:587-589 | a quoted string that comes back must be trimmed, unchanged by escaping and read as a string |
| TugExact.BareReadsBackOnlyIf | tugconf.go:590 | an unquoted string that comes back meets the condition of the fragment |
| TugExact.OtherListReadsAsMap | tugconf.go:552-567 | an entry of a list that has no command of its own reads back as a map under its id, where the list was |
| TugQuote.QuotedStandsFor | tugconf.go:587-589 | what stands between the quotes is the string itself, character by character, for an independent reader of Go's escapes |
| TugQuote.QuoteIsInjective | tugconf.go:587-589 | two strings have one quoted form iff they are the same |
| TugQuote.WrittenAsItself | tugconf.go:587-589 | a character is written as itself iff it is printable (in ASCII: from space to tilde) and neither a quote nor a backslash |
| TugSyntax.SetLineParses | tugconf.go:69-85 | reading a `set` line of plain path tokens and a bare or quoted value gives that path and value |
| TugSyntax.SplitTugFields | tugconf.go:156-181 | the tokenizer loop returns the fields of the quote-aware reference tokenizer, or the unterminated-quote error |
| TugSyntax.IndexUnquoted | tugconf.go:183-195 | the scanner returns the first occurrence outside quotes, or -1 |
| TugSyntax.ReadLine | tugconf.go:49-61 | trimming, comment stripping and tokenising of one line give the command of the reference reader |
| TugSyntax.ApplyTugconfSource | tugconf.go:48-67 | the line loop applies the commands in order and stops at the first error |
| TugSyntax.ApplyLinesConcat | tugconf.go:48-67 | reading two blocks of lines is reading the second after the first, unless the first fails |
| TugLines.SetCommand | tugconf.go:79-85 | a source line of plain tokens whose first is `set` in any letter case stores its last token's value at the path of the others, and fails without both |
| TugLines.DeleteCommand | tugconf.go:86-90 | a `delete` line, in any letter case, deletes at the path of its tokens, and fails without one |
| TugLines.SetThenDelete | tugconf.go:48-90 | a source that sets a value and then deletes the same path always runs; nothing is left at the path iff it is deletable, and then the tree is as before iff the place was fresh |
| TugLines.QuietCommand | tugconf.go:101-103 | the six interactive commands leave the tree as it is |
| TugLines.LoadCommand | tugconf.go:91-100 | `load` without mode and file is an error; with them it reads a file, which the model does not |
| TugLines.UnknownLine | tugconf.go:104-106 | any other word is an error |
| TugLines.CommentIsIgnored | tugconf.go:55-61 | what follows a comment sign outside quotes does not matter |
| TugLines.IndentIsIgnored | tugconf.go:51 | white space in front of a line does not matter |
| TugLines.QuietLines | tugconf.go:52-54 | blank lines and comment lines do nothing |
| TugSyntax.IntRoundTrip | tugconf.go:229-231 | decimal text of a 64-bit integer parses to that integer |
| TugRebuild.EntryRebuild | tugconf.go:294-367 | setting the fields of an entry not yet in a keyed list, in any order, appends exactly that entry |
| TugRebuild.FieldsRebuild | tugconf.go:369-405 | setting every leaf below fresh keys, in any order, adds exactly those subtrees |
| TugTree.SetNestedReadsBack | tugconf.go:369-405 | after setNested the path holds the stored value |
| TugTree.SetNestedKeepsOthers | tugconf.go:369-405 | setNested changes no incomparable path |
| TugTree.SetNestedCommutes | tugconf.go:369-405 | updates at two paths, neither a prefix of the other, commute |
| TugCommands.RolesAccumulate | tugconf.go:384-402 | setting a `roles` path: a list replaces; a single value keeps all earlier roles in order and is there once, at the end when it is new |
| TugTree.DeleteNestedExact | tugconf.go:407-425 | treeDelete on a nested path removes that subtree and keeps every incomparable path |
| TugTree.DeleteUndoesSet | tugconf.go:407-425 | deleting a path just set gives back the tree iff the leaf was not there and its parent map was |
| TugTree.MergeAtPath | tugconf.go:138-153 | what a merge leaves at every path: the source's leaf, the merged maps, or the destination's value |
| TugTree.MergeIdempotent | tugconf.go:138-153 | merging the same source twice is merging it once |
| TugTree.MergeIntoEmpty | tugconf.go:144-149 | merging into an empty map copies the source |
| TugTree.MergeIsShallowExactly | tugconf.go:126-153 | the merge lets the source's top-level values win unchanged iff every map among them, at every depth, has all the keys the destination has there |
| TugTree.MergeKeepsDeepFields | tugconf.go:126-153 | a witness where they do not win: a field missing from the source's map of the same name stays |
| TugTree.DeletePop | tugconf.go:407-451 | after deleting a pop no item of the list is an entry of that id, every other item stays in order, and every other top-level key is unchanged |
| TugTree.DeleteInPop | tugconf.go:452-461 | deleting below a pop changes only the first entry of that id, by the same deletion on its own tree |
| TugCommands.DeleteAfterSet | tugconf.go:239-258 | whatever the tree, what a `set` command stored is found at its path, and `delete` of the same path removes it iff the path is neither below `stack barge` nor starts again like a pop's path below a pop; otherwise it leaves the value as it is |
| TugCommands.DeleteUndoesSetExactly | tugconf.go:407-461 | where deletion reaches what was set, it gives back the tree iff the leaf was new and its entry and all maps above it were there |
| TugCommands.DeleteMissesBarges | tugconf.go:407-425 | a `delete` below `stack barge` or `stack product` never changes the list of barges |
| TugHeap.SetNestedInPlace | tugconf.go:369-405 | the loop over mutable maps makes maps on the way and leaves exactly the tree of the functional update |
| TugHeap.Descend | tugconf.go:373-382 | the descent leaves the tree with maps made along the path and stands at the map of that path |
| TugHeap.MergeRoles | tugconf.go:385-402 | a list replaces the roles, a scalar is appended once |
| TugHeap.SetKeyedInPlace | tugconf.go:294-367 | the keyed update leaves the functional result in maps that are changed in place; without a field it fails after making the maps above the list |
| TugHeap.SetEntry | tugconf.go:312-364 | the first entry whose key matches without case is changed through the list's own reference to it, list and map staying as they are, or one entry is appended |
| TugHeap.TreeSetInPlace | tugconf.go:239-258 | the dispatch on the normalised path leaves the functional result, or its error and the tree with only the maps above the list made |
| TugHeap.DeleteInPlace | tugconf.go:415-424 | the nested delete loop removes the leaf in place, or stops without change where the path leaves the maps |
| TugHeap.TreeDeleteInPlace | tugconf.go:407-461 | the whole deletion in place, keyed entries included, leaves the functional result; it fails on the empty path only |
| TugHeap.DeleteKeyedInPlace | tugconf.go:427-461 | without a field the list loses the entries of the key, with one the deletion goes on inside the entry found |
| TugHeap.UpAlong | tugconf.go:369-405 | what happens to the map at one path happens to the tree there and nowhere else |
| TugHeap.UpEntry | tugconf.go:312-364 | what happens to one entry of a keyed list happens to the tree at that entry and nowhere else |
| TugMerge.DeepMergeInPlace | tugconf.go:138-153 | for any order of keys the in-place merge leaves the functional merge, changes no map outside the destination, and builds it of the destination's maps, new ones, and the maps inside the source's lists |
| TugShare.SourceUnchanged | tugconf.go:138-153 | the merge leaves the source's tree and every map of it as they were |
| TugShare.SharedExactly | tugconf.go:138-153 | a map belongs to both the result and the source iff it is inside one of the source's lists |
| TugShare.SharesIffListsHoldMap | tugconf.go:138-153 | result and source share some map iff some list of the source holds a map |
| TugShare.NoSharingAlongKeys | tugconf.go:144-149 | no map that keys lead to in the result is one of the source's |
| TugShare.SharedEntryChanges | tugconf.go:151 | a later in-place change of an entry of a list taken over from the source changes both trees |
| TugShare.MergeThenSet | tugconf.go:312-364 | a merge followed by a keyed update of such an entry leaves the update in the source as well |
| TugShare.PopIsShared | tugconf.go:151 | merging a site with one pop into an empty tree stores the pop's own map |
| TugShare.NamePopOfMerge | tugconf.go:138-153 | a witness: naming the pop of the merged tree names the pop of the source |
| LbRuns.RunsAreSafe | lb_control.go:37-85 | over every interleaving from any static backends: counters are bounded by the open relays and exact until removal, lookups answer only registered unexpired ids, and through a listed record iff that record was never removed; ids stay distinct if the static ones were |
| LbRuns.StepKeeps | lb_control.go:37-179 | every lock-held section keeps the invariant |
| LbRuns.StalePickServesOldRecord | lb_control.go:54-62 | a run in which a pick outlives its backend: the dangling route is refused, and once the id registers again the removed record is answered whatever the new one says |
| LbRuns.RemovalForgetsRelays | lb_register.go:201-219 | removal under an open relay leaves the counter strictly below the open relays |
| Tenants.FreshPick | lb_control.go:87-135 | a client without a route is given a listed, unexpired backend of its own namespace, with the least load under that policy; it is given none iff there is no such backend or the round-robin index is out of range |
| Tenants.StepKeepsApart | lb_control.go:37-179 | every section keeps every chosen, dialled and routed client with its own namespace, except exactly the registration of an id in use under another namespace |
| Tenants.TenantsStayApart | lb_control.go:37-85 | over every run without such a registration, from any static backends, whoever is chosen, routed or answered belongs to the namespace of the key |
| Tenants.RouteLeadsToAnotherNamespace | lb_register.go:178-190 | a run that reaches such a registration: the lookup of the key still answers with the record, now of another namespace |
| Registry.RegisterStores | lb_register.go:178-198 | after a registration the id is listed with the record of the request as a dynamic backend; the other records, routes and counters stay |
| Registry.RegisteredIsLive | lb_register.go:178-198 | so the id is live until its time is past: the time under the lock when it was listed, the request's stamp when not |
| Registry.HeartbeatKeepsLive | lb_register.go:221-232 | a heartbeat of a listed dynamic id makes it live until the heartbeat's time is past, and changes nothing else; of any other id, nothing |
| Registry.DeregisterForgets | lb_register.go:201-219 | a dynamic id that deregisters loses its record, its counter and exactly its routes; any other id changes nothing |
| Registry.PruneForgets | lb_register.go:266-289 | pruning forgets exactly the ids of expired listed records, with their counters and routes, and keeps what is not expired |
| Registry.FailedDialKeepsNewerRoute | lb_control.go:143-149 | a failed dial leaves the route that a later client of the key has installed, iff it leads to another id |
| LbState.PruneIsInvisible | lb_register.go:266-289 | with distinct ids, every route and pick answer at the pruning's cutoff or later is the same before and after it |
| LbState.RouteChangedByPrune | lb_register.go:266-289 | with or without repeated ids, a pruning changes a lookup iff the route's id has both an expired and an unexpired record |
| LbState.PickChangedByPrune | lb_register.go:266-289 | with or without repeated ids, it changes a pick iff it cuts the route to another choice, or there is no route and a counter it drops decides the least load |
| LbRuns.PruneAfterAnyRun | lb_register.go:266-289 | both exact conditions hold after every run from any static backends |
| LbRuns.PruneVisibleWithRepeatedIds | lb_register.go:266-289 | a witness: a run from two static backends of one id reaches a state in which pruning takes down an answered route |
| LbState.RoundRobinInBounds | lb_control.go:132-135 | the signed index is in bounds iff the counter is below 2^63 or its distance to 2^64 is a multiple of the number of backends |
| LbState.Choose | lb_control.go:94-114 | the choice is one of the candidates of the key's namespace and changes only the counter |
| LbState.DropUndoesAdd | lb_control.go:137-149 | a failed dial removes its route, and restores the state when the key had none |
| LbState.DecUndoesInc | lb_control.go:151-163 | the end of a relay undoes its start in every counter |
| LbState.DeregisterKeeps | lb_register.go:201-219 | deregistration keeps ids distinct and every record of another id |
| LbState.RegisterKeeps | lb_register.go:178-198 | registration keeps ids distinct, every listed record and every counter |
| Balanced.LeastLoadedIsBalanced | lb_control.go:116-130 | from zero loads, fresh connection j goes to eligible backend j mod k |
| Balanced.RoundRobinIsBalanced | lb_control.go:132-135 | from any counter up to 2^63, fresh connections go round the eligible backends in turn |
| Balanced.LeastLoadedIsFair | lb_control.go:87-130 | n fresh connections from zero loads give every backend the floor or ceiling of n / k |
| Balanced.RoundRobinIsFair | lb_control.go:87-135 | n fresh connections from any counter window below 2^63 give every backend the floor or ceiling of n / k more |
| Balanced.WindowIsBalanced | lb_control.go:132-135 | n consecutive counter values hit each index floor or ceiling of n / k times |
| Balanced.HitsClosed | lb_control.go:132-135 | the number of hits in a window in closed form |
| Lb.LBManager.constructor | lb.go:46-56 | the initial manager has no routes and zero counters |
| Lb.LBManager.BackendByID | lb.go:188-206 | returns an available backend of the id iff one is registered |
| Lb.LBManager.RouteBackend | lb_control.go:165-179 | the lookup answers the route's record iff its id is registered and unexpired |
| Lb.LBManager.EligibleBackends | lb_register.go:234-247 | the unexpired backends in list order |
| Lb.LBManager.PickLeastLoaded | lb_control.go:116-130 | the loop returns the first of the least loaded |
| Lb.LBManager.PickRoundRobin | lb_control.go:132-135 | the 64-bit counter advances by one and selects its signed remainder; null is the original's panic |
| Lb.LBManager.PickBackend | lb_control.go:87-114 | undisturbed, the pick refines the specification's pick |
| Lb.LBManager.RegisterRoute | lb_control.go:137-141 | the key's route becomes this record |
| Lb.LBManager.UnregisterRoute | lb_control.go:143-149 | the key's route goes iff its record has the same id |
| Lb.LBManager.IncLoad | lb_control.go:151-155 | one more on this id only |
| Lb.LBManager.DecLoad | lb_control.go:157-163 | one less on this id, never below zero |
| Lb.LBManager.RegisterDynamicBackend | lb_register.go:178-198 | the first record of the id is overwritten in place, or a new record appended with its counter kept or zeroed |
| Lb.LBManager.DeregisterDynamicBackend | lb_register.go:201-219 | the first dynamic record of the id is spliced out with its counter and all routes of the id |
| Lb.LBManager.TouchDynamicBackend | lb_register.go:221-232 | only the first dynamic record of the id gets the new time |
| Lb.LBManager.PruneStaleBackends | lb_register.go:266-289 | in-place compaction leaves exactly the eligible list and removes the counters and routes of the expired ids |
| Lb.LBManager.DeleteRoutesOf | lb_register.go:209-214 | exactly the routes whose record has the id are deleted |
| TunnelState.RunsAreSafe | server.go:146-170 | over every run with restarts: at most one open session per key and it is the table's; the table holds a key's latest session until its teardown or the shutdown sweep; live and pending keys are disjoint |
| TunnelState.StepKeeps | server.go:146-170 | connect, close, teardown, shutdown sweep and restart each keep the invariant |
| TunnelState.SupersededTeardown | server.go:166-170 | the teardown of a superseded session changes neither table nor pending |
| TunnelState.InventoryStep | server.go:154-170 | what each step does to the keys the server knows |
| TunnelState.RestartKeepsInventory | snapshot.go:132-174 | snapshot, restart and restore make pending exactly what was live or pending, entry for entry |
| TunnelState.ManyRestarts | snapshot.go:292-321 | so does any number of restarts |
| TunnelState.RestoreOnRunningServer | snapshot.go:300-318 | restoring on a running server keeps live and pending disjoint iff none of the snapshot's live tunnels is live again |
| TunnelState.ListingIsUnique | snapshot.go:137-153 | the sorted entries do not depend on map order |
| TunnelState.NewRecFits | server.go:139-152 | every record's key is the one composed of its stored namespace and subdomain |
| TunnelClients.RecordIsTheClients | server.go:139-152 | the key of a client's record splits back into the namespace and subdomain the client sent, which are stored with its address and time |
| TunnelClients.DirectRecord | server.go:139-152 | in direct routing two clients share a key iff they share a namespace |
| TunnelClients.ConnectInstalls | server.go:154-160 | after connecting, the key leads to the client's own new session and nothing is pending for it; every other key is as it was |
| TunnelClients.SupersedesExactly | server.go:154-160 | a second client closes the first one's session iff their normalised namespaces and subdomains agree, and touches no other |
| TunnelClients.PrintedHostFindsTheSession | server.go:139-160 | the host in the client's URL leads to the client's own session, for every plain base domain |
| TunnelClients.CloseThenTeardown | server.go:163-170 | a close closes one session and nothing else; the teardown that follows removes its key iff the table still holds it |
| TunnelClients.RestoredKeys | snapshot.go:292-321 | what waits after restoring any snapshot: what waited, every tunnel in it, and its pending entries whose keys are not live, under their own or their composed keys |
| TunnelServer.ServerManager.Connect | server.go:139-160 | the first locked section closes the existing session, installs the record and drops the pending entry |
| TunnelServer.ServerManager.Teardown | server.go:166-170 | the second locked section removes the record iff it is still the table's |
| TunnelServer.ServerManager.CloseAllTunnels | server.go:16-25 | every held session is closed and the table emptied |
| TunnelServer.ServerManager.BuildSnapshot | snapshot.go:132-174 | the snapshot lists exactly the live and the pending entries, each sorted by key |
| TunnelServer.ServerManager.RestoreSnapshot | snapshot.go:292-321 | both loops, with composed keys for entries without one and the live check on pending entries only |
| TunnelServer.ListingInsert | snapshot.go:147-153 | inserting an entry of a new key into a sorted listing keeps it a listing |
| TunnelKey.SplitUndoesCompose | namespace.go:32-54 | a composed key splits back into namespace and subdomain |
| TunnelKey.KeysAreUnique | namespace.go:32-42 | two valid pairs share a key iff they are the same pair |
| TunnelKey.LabelsStayApart | namespace.go:32-42 | two pairs of labels share a key iff they are the same two labels |
| TunnelKey.NamespaceSpelling | namespace.go:13-19 | letter case and white space around a namespace do not matter, and blank is the default one |
| Text.LowerLetters | namespace.go:14 | lower-casing maps the letters A to Z to a to z and keeps every other character |
| TunnelKey.SubdomainSpelling | namespace.go:32-42 | nor do they in a subdomain |
| TunnelKey.SplitSpelling | namespace.go:44-54 | a key with white space around it splits as the key does |
| TunnelKey.NamesAreLabels | namespace.go:11-30 | every name of 1 to 63 letters and digits with inner hyphens is accepted as a namespace however it is spelled |
| TunnelKey.HostRoundTrip | namespace.go:56-101 | for every base domain that is set, the host printed by publicURL stands for the client's own key iff the domain has no outer white space and no final dot, or the host would come back without a domain |
| TunnelKey.LowerCasedHostRoundTrip | namespace.go:107-137 | so does its lower-cased form, under the same condition, when the domain is lower-case |
| TunnelKey.LocalHostRoundTrip | namespace.go:107-137 | without a base domain, for every server address, it does so iff the subdomain is not a name of the local host and, in the default namespace, the address does not start with a label that reads as another namespace |
| TunnelKey.FirstLabelIsRead | namespace.go:107-137 | on an address or a domain with a final dot the first label is read as the namespace |
| TunnelKey.NoTunnelHost | namespace.go:56-101 | a host without a dot and the base domain itself stand for no tunnel |
| TunnelKey.DeepHost | namespace.go:66-84 | below the base domain the first label is the subdomain and the last the namespace, whatever stands between |
| DnsZones.MatchDnsZone | dns_config.go:254-312 | the nested loops return the first listed zone with a match of maximal score, and none iff nothing matches |
| DnsZones.ZoneMeans | dns_config.go:269-298 | the matches of a zone by meaning: an exact pattern its own name, a plain one every name below, a wildcard its apex and every name below, the TLD itself and every name below |
| Text.SuffixMeans | dns_config.go:275-277 | a suffix is what follows some other string, and trimming it gives that string back |
| DnsZones.SpelledAlike | dns_config.go:254-270 | letter case, white space around and one final dot do not matter in a pattern or a query |
| DnsZones.ScoreIsRank | dns_config.go:254-312 | for names of any length the additive scores order possible matches exactly by the precedence order |
| DnsZones.ScoresPickMostSpecific | dns_config.go:252-253 | on a validated file the winner is the first listed zone with a most specific match |
| DnsZones.PlainBeatsMoreSpecificWildcard | dns_config.go:263-298 | a plain suffix beats a longer wildcard iff the wildcard is less than fifty characters longer |
| Peers.Site.Normalize | site_config.go:229-271 | rewrites mode, ids and roles in place, with the first error at its index and everything before it rewritten |
| Peers.Site.Validate | site_config.go:274-295 | succeeds iff mode, ids and hub are acceptable, and then the site is normalised |
| Peers.ValidMeans | site_config.go:229-295 | the raw sites that are accepted: a known mode, ids that are not blank and differ without case and outer white space, and a hub among them |
| Peers.ModeSpellings | site_config.go:229-271 | exactly the accepted spellings of each mode |
| Peers.MeshStandsFor | site_expand.go:151-217 | a missing or blank mesh mode is a full mesh, and the hub is compared in lower case |
| Peers.PeerFields | site_expand.go:151-217 | a peer is the database or keystore node of its own kind: its id, or one made from the pop's, and its URL; without a URL there is none |
| Peers.ExpandKernelPeers | site_expand.go:151-217 | the text joins exactly the listed peers in site order |
| Peers.GraphIsSymmetric | site_expand.go:151-217 | no pop lists itself, and pops with URLs list each other or not at all |
| Peers.FullMesh | site_expand.go:151-217 | in a full mesh a pop lists another iff that one has a URL |
| Peers.FullMeshListsTheOthers | site_expand.go:151-217 | with URLs everywhere it lists exactly the n - 1 others in site order |
| Peers.HubSpoke | site_expand.go:151-217 | in a hub-spoke mesh an edge joins the hub and another pop with a URL |
| Peers.StarIsConnected | site_expand.go:151-217 | with pops linked when one lists the other, a hub-spoke mesh connects its pops with URLs iff the hub has a URL or at most one pop has, and connects all pops iff the hub has a URL or every spoke has |
| Peers.SplitKernelPeers | kernel_barge.go:141-165 | the reading loop returns the pairs of the reference reader, with numbered ids where none is given |
| Peers.PeersRoundTrip | kernel_barge.go:141-165 | the emitted text reads back as exactly the listed pairs in order |
| Peers.UnnamedAreNumbered | kernel_barge.go:141-165 | addresses given without ids are numbered from one, in order |
| Peers.PaddedPart | kernel_barge.go:141-165 | white space around a part, its id and its address does not matter |
| Peers.BlankPart | kernel_barge.go:141-165 | a part of nothing but white space lists no peer |
| Peers.PaddedText | kernel_barge.go:141-165 | nor does it around the whole text |
| Peers.NodesAreTextSafe | site_expand.go:151-217 | expanded pairs survive the text form iff ids hold no comma or equals sign and URLs no comma |
| DnsQuery.BuildQuery | anycast/health/health.go:313-333 | the loop appends header, the non-empty labels with their lengths modulo 256, the end and the type |
| DnsQuery.VpiQueryName | vpi_stub.go:220-241 | terminates in bounds on every octet string with the reference reader's answer |
| DnsQuery.QuestionRoundTrip | vpi_stub.go:220-241 | on a built query it returns the dot-join of the non-empty labels iff each is at most 255 octets |
| DnsQuery.NameRoundTrip | anycast/health/health.go:313-333 | a name without empty labels, with or without a final dot, is read back as itself iff its labels have at most 255 octets |
| DnsQuery.QueryFields | anycast/health/health.go:313-333 | a built query asks one recursive question; after the name come exactly its type and class |
| DnsQuery.RootQuestion | vpi_stub.go:220-241 | a bare header is refused as short, and with a zero octet after it asks for the root |
| Health.Tracker.Observe | anycast/health/health.go:44-68 | after every result, healthy iff the window definition holds of the whole trace |
| Health.HealthIsWindowed | anycast/health/health.go:44-68 | the two counters refine the window definition on every trace and any thresholds |
| Health.CountersAreRuns | anycast/health/health.go:44-68 | each counter is the length of the trailing run |
| Health.FlapBound | anycast/health/health.go:44-68 | k changes need at least ceil(k/2) R + floor(k/2) F results |
| Health.FlapBoundIsTight | anycast/health/health.go:44-68 | for every k a trace of exactly that length attains it |
| Cidr.ContainsIsSameBits | anycast/rov/rov.go:175-189 | the octet-wise mask test is equality of the first bits |
| Cidr.NetworkKeepsBits | anycast/rov/rov.go:169-172 | clearing host bits keeps the network bits |
| Rov.CompileRoas | anycast/rov/rov.go:112-145 | all ROAs compile to canonical networks, or the first bad one is reported with its first problem |
| Rov.RejectedWhen | anycast/rov/rov.go:112-145 | exactly when a configured ROA is rejected and for which reason: its prefix, then its max length, then its AS |
| Rov.CompiledMatches | anycast/rov/rov.go:112-145 | a compiled ROA matches exactly the routes the configured one authorises: covered, of its AS, and up to its max length, or of its own length when none is given |
| Rov.ConfiguredIsRfc | anycast/rov/rov.go:112-199 | the compiled table has the RFC 6811 state of the configured one for every route |
| Rov.GateFromTheTable | anycast/rov/rov.go:147-215 | the whole gate from the configuration, for every policy, table, route text and AS |
| Rov.VerdictFromTheTable | anycast/rov/rov.go:147-199 | the verdict reported, from the configuration: for a scanned prefix its RFC 6811 state, but NotFound when all ROAs that cover it are too short |
| Rov.ExemptSpace | anycast/rov/rov.go:229-266 | the exemption covers exactly six IPv4 blocks and the private AS numbers |
| Rov.ValidateOrigin | anycast/rov/rov.go:147-199 | the early-exit loop gives the order-free verdict |
| Rov.AllowAnnounce | anycast/rov/rov.go:202-215 | the gate and the verdict under policy |
| Rov.ScanAgainstRfc | anycast/rov/rov.go:147-199 | Valid iff section 2 of RFC 6811 says Valid; Invalid only where it says Invalid; they differ exactly when covering ROAs exist but all are too short |
| Rov.RequireValidIsRfcValid | anycast/rov/rov.go:202-215 | under require_valid a route may be announced iff its RFC 6811 state is Valid |
| Rov.LaxGateAgainstRfc | anycast/rov/rov.go:202-215 | without require_valid it may be announced iff the RFC 6811 state is not Invalid or all covering ROAs are too short |
| Rov.VerdictIgnoresOrder | anycast/rov/rov.go:175-198 | permuting or repeating ROAs does not change the verdict |
| Rov.TooSpecificIsNotFound | anycast/rov/rov.go:175-198 | a concrete route where the code says NotFound and RFC 6811 Invalid |
| Bgpsec.NlriRoundTrip | anycast/bgpsec/sign.go:243-288 | the NLRI octets decode back to the canonical prefix for all IPv4 and non-mapped IPv6 lengths |
| Bgpsec.NlriFields | anycast/bgpsec/sign.go:243-288 | a prefix has an NLRI iff its network is outside ::ffff:0:0/96, with its address family, unicast, and its length first |
| Bgpsec.HashInputInjective | anycast/bgpsec/sign.go:119-146 | two hash inputs (section 4.2 of RFC 8205) are equal iff target, origin and canonical prefix are |
| Bgpsec.EncodeRS | anycast/bgpsec/sign.go:290-297 | both integers are laid right-aligned into 64 octets |
| Bgpsec.RSRoundTrip | anycast/bgpsec/sign.go:170-179 | the big-endian halves are the r and s that were written, for all values below 2^256 |
| Bgpsec.PathRoundTrip | anycast/bgpsec/sign.go:299-323 | a reader of the embedded lengths (sections 3.1 and 3.2 of RFC 8205) recovers every field with nothing left over iff the block length fits 16 bits |
| Bgpsec.SignOrigin | anycast/bgpsec/sign.go:121-168 | the signature record over the hash input, or the error of a bad prefix, target or signature |
| Bgpsec.SelfCheckSeesThePair | anycast/bgpsec/sign.go:170-179 | the self-check verifies the very pair and octets that were signed |
| Bgpsec.SignedPath | anycast/bgpsec/sign.go:121-168 | a fresh signature's path reads back as one hop of the signer's AS without flags, with its key identifier and the pair |
| Announce.Manager.PrepareRoutes | anycast/bgp/bgp.go:146-208 | the loop over a copy gates, signs and collects every route, or blocks the announcement and changes nothing |
| Announce.Manager.SetHealthy | anycast/bgp/bgp.go:212-270 | one health report is one step of the announce/withdraw machine |
| Announce.Manager.ForceWithdraw | anycast/bgp/bgp.go:294-311 | clears the flag and the signatures whatever the speaker answers |
| Updater.RunInv | anycast/updater/updater.go:112-136 | over every run the flag agrees with the speaker, the prefixes never change and the tracker is the hysteresis of the probes |
| Updater.InstalledRoutesAreSafe | anycast/bgp/bgp.go:146-270 | the speaker holds all configured prefixes or none, and every installed route passed the required gates |
| Live.HealthyTickAnnounces | anycast/bgp/bgp.go:146-270 | at the end of a tick in health a node that was not announced holds every configured prefix exactly when no required gate refuses, the export is no obstacle and the speaker accepts; otherwise it holds nothing and names the first refusal |
| Live.AnnouncedSince | anycast/bgp/bgp.go:146-270 | whatever is installed was let through by one earlier healthy tick: a route carries a signature iff signing and self-check worked then, the verdict of validation, and its configured fields |
| Live.UnhealthyTickWithdraws | anycast/bgp/bgp.go:236-252 | an unhealthy tick withdraws everything and clears the signatures, unless the speaker refuses; then only the error changes |
| Live.WithdrawnIsUnsigned | anycast/bgp/bgp.go:241-252 | a node that is not announced keeps no signature on its routes |
| Live.ShutdownReports | anycast/bgp/bgp.go:294-311 | shutdown leaves no signature and reports whether the last withdrawal was refused |
| Updater.InstalledSignatureBinds | anycast/bgpsec/sign.go:119-146 | the signed octets of an installed route determine its origin and canonical prefix |
| Updater.TickDecides | anycast/updater/updater.go:125-136 | at the end of a tick: announced while unhealthy iff this tick's withdraw failed, announced while healthy iff it was before or this attempt succeeded |
| Updater.InstalledOnlyWhileHealthy | anycast/updater/updater.go:125-136 | routes are installed only while the window definition of health holds or the last withdraw failed |
| Updater.OutageWithdraws | anycast/updater/updater.go:125-136 | after F failures in a row nothing stays installed unless the speaker refuses |
| Updater.ShutdownLeaves | anycast/updater/updater.go:112-118 | after shutdown the flag is clear, and the speaker is empty iff nothing was installed or one of the two withdrawals succeeded |
| Updater.Loop.OneTick | anycast/updater/updater.go:125-136 | one probe, one observation and one health report are one step of the run |
| Updater.Loop.RunUntilCancelled | anycast/updater/updater.go:61-122 | ticks until cancelled, then the shutdown path, end in the state the run lemmas speak of |

## Left out

- TugStrip.PrintThenReadAny: states one direction for whole trees; for single leaves and lists `TugExact` has both. Scalars that read as another type, lists of lists, aliased keys and keyed lists other than `pops` and the barges of `stack` are outside the fragment; `TugSite` shows what becomes of two of the latter.
- TugCommands.DeleteAfterSet: paths that set the very field that names a keyed entry are excluded, since the entry then has another name.
- TugMerge.DeepMergeInPlace: the two trees are disjoint before the merge, as freshly parsed documents are; a source that already shares maps with the destination is not modelled.
- TugHeap.SetEntry: lists are sequences of references. That two slices may use one backing array, and that `append` may write to its spare capacity, is not modelled.
- TugHeap.MergeRoles: the stored value holds no map, as every value of a `set` line; it is stored as a new value.
- Bgpsec.NlriRoundTrip: excludes IPv4-mapped IPv6 prefixes, which the encoder refuses; a prefix carries a family tag, so origin validation never confuses the two families.
- Lb.LBManager.RouteBackend: the direct-routing fallback to a sole backend (lb_control.go:171-175) skips the expiry check and is not modelled.
- Lb.LBManager.RegisterDynamicBackend: starts from an accepted request; the disabled-registration and port errors and the default ports (lb_register.go:126-173) change no state and are not modelled.
- Lb.LBManager.EligibleBackends: the original returns an empty list as it is, the model builds a new one.
- TunnelServer.ServerManager.BuildSnapshot: `sort.Slice` is modelled by insertion; snapshot identity, time and version fields are not modelled.
- TunnelState.RestartKeepsInventory: JSON encoding of the snapshot is taken as the identity, and the routing mode is the same before and after the restart.
- Updater.Loop.constructor: the signer's AS is the configured local AS, as `NewManager` loads it (anycast/bgp/bgp.go:117).
- Case folding of non-ASCII letters, in keys, ids and names.
- Go strings as bytes in Tugconf: keys and values are sequences of characters.
- The `load` command, which reads files; it is an error in the model.
- Rejection messages, detail strings and log lines.
- YAML and JSON marshalling: Tugconf starts and ends at the generic tree.
- Explicit peer overrides of a pop, which replace the expanded list unread.
- Cryptography: hash and signatures are abstract; conformance of the 64-octet signature format is not claimed.
- QUIC, yamux, HTTP, TLS, ACME, proxies and relays.
- Mesh DNS publishing, which happens outside the tunnel table's lock.
- Snapshot file naming and retention, flags, port arithmetic, product catalogues, kubernetes and OCI wrappers.
