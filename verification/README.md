# Config review, dashboard and table models of the VyOS manager

This project models how the manager turns typed forms into `set` / `delete` commands for a VyOS router, stages them
for review, and fires them as one batch; how its dashboard grid keeps tiles from overlapping; and how its tables read
fixed-width text and keep their column layout. It proves that these parts do what they are for, for every input and
over every run. `dafny verify dfyconfig.toml` checks everything.

## The parts

**Configuration tree and device** (`ConfigTree`, `Edits`, `Fields`, `DeviceSchema`, `Batches`, `Commuting`). A
configuration is a tree of objects, strings, arrays and JSON integers; a valueless leaf is an empty object. A schema
says where single-valued leaves, multi-valued leaves (`address`) and tag nodes stand. `Run` interprets a batch: `set`
replaces a single value, adds to a multi-valued leaf and creates missing parents; deleting an absent path does nothing;
emptied parents stay; a batch applies as a whole or not at all. Batches are decomposed into what they do at each of a
set of separate places, whatever the order in which commands for different places are interleaved.

**Diffs** (`NatRules`, `NatDiff`, `NatRenumber`, `Interfaces`, `InterfaceDiff`, `InterfaceMoves`, `FirewallOptions`,
`FirewallDiff`, `SystemConfig`, `SystemDiff`, `DiffBuilder`). Each of the five diffs is a method that pushes commands
onto one list, as the source does, proved equal to a function; each function is then proved to bring the tree to the
wanted record through the repository's own readers, to leave everything else alone, to emit only commands that change
something, and to be empty when repeated. Moves and renumbers diff against an empty node, so they are right exactly
when the target yields at every place, and the global options are right exactly when no cleared state has a stray log or
level; these exact conditions are proved, each with an input for which it fails.

**1-to-1 NAT** (`StaticNat`, `NatListing`, `StaticNatRoundTrip`, `Sorting`). The rule lists and their order, the lifting
of mirrored rule pairs into mappings as an exact partition, and the round trip from a mapping form through the device
back to one listed mapping.

**Review tray** (`ChangeReview`, `ReviewTable`, `ReviewLedger`, `ReviewRace`, `ReviewTargets`, `LastStaging`,
`CommitMeaning`, `CommitReads`, `FormMeaning`, `FormFrames`). The table of staged rows and commits as a state machine
and as a class updated in place. Committed rows are a ledger over every run; restaging clears exactly the rows of its
own targets; after any run of stagings and failed commits a commit leaves every place as the last form about its target
alone would have left it, and staging that form again stages nothing. `FormMeaning` says, in the forms' own fields and
the configuration's own paths, which forms are accepted and how the configuration then reads.

**Dashboard grid** (`GridLayout`, `GridResolve`, `GridUnique`, `DashboardPage`, `DashboardRuns`, `DashboardSteps`,
`DashboardPicker`, `DashboardLimits`). First-fit packing, push-down overlap resolution with minimal disturbance and one
result, and an invariant over every interleaving of add, remove, drag and resize in which adds find room; with at most
one tile of each kind, as the picker has it, they always do. A stored layout without room, and drags and resizes that do
not lead back, show where the rules stop.

**Lease table** (`LeaseTable`, `LeaseRoundTrip`, `LeasePrinting`) and **column layout** (`ColumnLayout`). A fixed-width
parser that inverts padded printing, and the reorder, resize and visibility state of a data table.

## Assumptions the code makes without checking them

- On the way to what a form edits the live tree holds objects only, except the bare interface string of VyOS 1.3, which
  must not be blank (`NatRules.WellFormedRule`, `Interfaces.ObjectAt`, `FirewallOptions.SectionShape`,
  `SystemConfig.SystemShape`).
- `DeviceSchema` has NAT interfaces in the 1.4 form (`name` / `group` below the interface node). The bare 1.3 string is
  read, deleted and replaced, never written, as in `diff_nat44`.
- The targets of moves and renumbers are absent from the live tree, except where the exact condition is stated.
- A device that refuses a batch keeps its configuration. Only the commit path writes to the device.
- `commit` selects, fires and marks pending rows in one step in the runs; `ReviewRace` takes it apart into these three
  steps, lets any requests come in between, and states exactly when that does no harm.
- A commit without an answer from the device has not been applied. An answer lost after the device applied the batch is
  not modelled.

Where code and comment disagree, the model follows the code: the comment at `backend/src/routes/firewall.rs:70-72` says a
missing section yields empty options, but the request fails, so `ChangeReview.Stage` refuses the form.

## Model

| member | source | states |
|---|---|---|
| ConfigTree.RunAppend | backend/src/routes/config.rs:614-619 | a batch of two lists is the first list and then the second, and is refused as a whole if either is |
| ConfigTree.StepBelow | backend/src/routes/interfaces.rs:277-287 | a command under a base path acts on the node at that path alone and puts the result back |
| ConfigTree.RunBelow | backend/src/routes/interfaces.rs:277-287 | a list under a base path is accepted exactly when the node accepts it there, ends as the node's own run, and leaves every path apart from the base as it was |
| ConfigTree.PutCommutes | backend/src/routes/interfaces.rs:401-411 | overwrites of places apart from each other commute, as whole trees |
| ConfigTree.ApartIff | backend/src/routes/interfaces.rs:401-411 | paths are apart if and only if neither is a beginning of the other, which is what "everything else" means in the theorems about diffs |
| ConfigTree.WalkableIff | backend/src/routes/interfaces.rs:277-287 | a path can be walked if and only if every node on its way, before its end, is an object |
| ConfigTree.EachChanges | backend/src/routes/interfaces.rs:269-276 | in an effective batch each command changes the tree that the ones before it leave |
| Edits.RunEdits | backend/src/routes/interfaces.rs:509-581 | edits at separate places: accepted exactly when each alone is, each place ends as its own edit leaves it, the rest is untouched, and every command is effective when each edit's are |
| Edits.RecordRuns | backend/src/routes/nat.rs:346-360 | a record's edits plus the bare `set` for a new node without leaves make the node exist and end as the edits say |
| Edits.RunMove | backend/src/routes/nat.rs:254-362 | deleting a former node and building the new one leaves the former absent, the new one as built, and all else as it was |
| Text.ParsePrint | backend/src/routes/interfaces.rs:119-125 | printing and then parsing an integer in range is the identity, also through the reader's trim |
| Text.PrintIntInjective | backend/src/routes/interfaces.rs:449-457 | distinct ids print distinct numerals |
| Text.ParseAccepts | backend/src/routes/interfaces.rs:119-125 | integers parse with a plus sign or leading zeros, and unsigned ones not with a minus sign |
| Text.ParseRefuses | backend/src/routes/interfaces.rs:119-125 | nothing parses that has another character than digits after its sign |
| Text.Numerals | backend/src/routes/nat.rs:202-204 | numerals are decimal: appending a digit multiplies by ten and adds it, and a minus sign negates |
| Text.TrimTakesBlanks | backend/src/routes/interfaces.rs:112-117 | trimming takes white space off both ends of a text and nothing else |
| Text.TrimFinds | backend/src/routes/interfaces.rs:112-117 | a text between blanks that neither begins nor ends with one is what trimming leaves, so trimming is determined |
| Fields.TextRuns | backend/src/routes/nat.rs:210-251 | a leaf diffed against what it reads ends reading as wanted by effective commands; diffed against nothing it is only ever added to |
| Fields.IntRuns | backend/src/routes/interfaces.rs:119-125 | the same for an MTU, through printing, JSON integers and parsing |
| Fields.SetRuns | backend/src/routes/interfaces.rs:129-138 | after diffing an address or server set against what is live exactly the wanted members remain, through the string-or-array encoding; with duplicate-free lists every command is effective |
| Fields.EntriesKept | backend/src/routes/interfaces.rs:309-315 | the wanted list of a form holds its non-blank entries, each trimmed, in their order and as often as they occur |
| Fields.WantedEntries | backend/src/routes/interfaces.rs:309-315 | as a set, the wanted list is that of the trimmed non-blank entries |
| Fields.ReadsTextIff | backend/src/routes/interfaces.rs:112-117 | a text leaf reads as a form field asks exactly when it holds that text up to white space, or no text for a blank field |
| Fields.ReadsInt | backend/src/routes/interfaces.rs:119-125 | an MTU is read from a JSON number or from its numeral with blanks around it |
| Fields.ReadsWideInt | backend/src/routes/interfaces.rs:119-125 | a JSON number outside 32 bits is read modulo 2^32, and outside 64 bits not at all |
| DiffBuilder.PushLeaf | backend/src/routes/nat.rs:210-251 | the pushes of one leaf and the created flag are those of the leaf's edit appended to the list so far |
| DiffBuilder.PushSet | backend/src/routes/interfaces.rs:521-545 | the two loops over desired and live members push exactly the new members' sets and then the dropped members' deletes |
| NatRules.RuleRuns | backend/src/routes/nat.rs:254-362 | running a rule's diff on its node makes every field read as wanted, for all switches between bare, name and group interfaces, and touches nothing else in the node |
| NatRules.RulesApart | backend/src/routes/nat.rs:202-204 | distinct rules live at separate paths |
| NatRules.DiffNat44Correct | backend/src/routes/nat.rs:254-362 | on any well-formed tree the rule exists and reads back as the trimmed form, a renumbered rule is gone, every other path and every uncovered place of the rule is unchanged, and every command is effective |
| NatRules.DiffNat44Fixpoint | backend/src/routes/nat.rs:254-362 | diffing the committed tree again yields no command |
| NatDiff.PushInterface | backend/src/routes/nat.rs:296-317 | the interface block pushes a delete of the live form before the set of the new one, exactly when they differ |
| NatDiff.ComputeDiffNat44 | backend/src/routes/nat.rs:254-362 | the imperative diff with its created flag builds the command list the theorems are about |
| NatRenumber.RenumberCorrectIff | backend/src/routes/nat.rs:276-282 | a renumber reads back as the form asked if and only if the live target yields at every place |
| NatRenumber.StaleDescriptionSurvives | backend/src/routes/nat.rs:276-282 | a renumber onto a live rule keeps that rule's description when the form has none |
| StaticNat.ListedAsWanted | backend/src/routes/nat.rs:77-130 | a committed rule is listed with every field of the form; only unset addresses fall back to a live prefix, pool or masquerade |
| StaticNat.CollectPairs | backend/src/routes/nat.rs:152-177 | the loop over the source rules collects exactly the mirrored numbers and their mappings |
| StaticNat.SplitStatic | backend/src/routes/nat.rs:146-184 | the in-place filtering and sorting yields the two plain lists and the mappings |
| StaticNat.SplitIsPartition | backend/src/routes/nat.rs:133-184 | every rule is in its plain list or in the mappings, never both or neither, in the mappings exactly when both halves mirror; sizes add up |
| NatListing.RulesInOrder | backend/src/routes/nat.rs:133-140 | of two listed rules the earlier has the smaller or the same number; a text that denotes no number below 2^64 counts as 0 |
| NatListing.MappingsInOrder | backend/src/routes/nat.rs:182 | the same for the mappings |
| NatListing.ListedAsMappingIff | backend/src/routes/nat.rs:152-166 | a number is listed as a mapping if and only if it has a source and a destination rule and these translate two addresses into each other |
| NatListing.MappingShows | backend/src/routes/nat.rs:167-175 | a listed mapping shows the addresses of both rules, is enabled if and only if both rules are, and takes its description from the source rule or else from the destination rule |
| NatListing.RuleShows | backend/src/routes/nat.rs:100-130 | a rule in a plain list shows its own node: an address or else a prefix, an interface by name or else by group or bare, ports, protocol, exclusion, log and state |
| NatListing.GroupListed | backend/src/routes/nat.rs:83-90 | a rule that matches a group is listed with type and name of the group whose type comes first |
| NatListing.TranslationListed | backend/src/routes/nat.rs:92-98 | without a translation address a rule is listed with its pool, by text or first key, else as masquerading, else with nothing |
| StaticNatRoundTrip.BothHalves | backend/src/routes/nat.rs:488-516 | source and destination diffs of one tree, fired together, both take effect |
| StaticNatRoundTrip.StaticRoundTrip | backend/src/routes/nat.rs:448-516 | after a committed mapping with non-blank addresses the source rule reads internal to external, the destination rule the reverse, both without ports, protocol, exclusion or log; and exactly one mapping is listed under the number, with the trimmed fields, and the number is in neither plain list |
| Interfaces.LinkRuns | backend/src/routes/interfaces.rs:270-386 | the record diff of a NIC or vif makes addresses, MTU, leaves and `disable` read as wanted and the node exist |
| Interfaces.DiffVlanCorrect | backend/src/routes/interfaces.rs:465-581 | the vif exists and reads as the trimmed form, its addresses are exactly the trimmed non-blank entries, a former vif is gone, every other path is unchanged, and without repeated addresses every command is effective |
| Interfaces.DiffEthernetCorrect | backend/src/routes/interfaces.rs:270-386 | the NIC exists and reads as the trimmed form, its addresses are exactly the trimmed non-blank entries, all its vifs and every other path are unchanged, and without repeated addresses every command is effective |
| Interfaces.DiffVlanFixpoint | backend/src/routes/interfaces.rs:465-581 | diffing a committed VLAN again yields no command |
| Interfaces.DiffEthernetFixpoint | backend/src/routes/interfaces.rs:270-386 | diffing a committed NIC again yields no command |
| Interfaces.VifsApart | backend/src/routes/interfaces.rs:449-457 | distinct VLANs live at separate paths |
| InterfaceDiff.ComputeDiffVlan | backend/src/routes/interfaces.rs:465-581 | the imperative VLAN diff builds the command list the theorems are about |
| InterfaceDiff.ComputeDiffEthernet | backend/src/routes/interfaces.rs:270-386 | the imperative NIC diff builds the command list the theorems are about |
| InterfaceMoves.VlanMoveCorrectIff | backend/src/routes/interfaces.rs:487-493 | a VLAN move reads back as the form asked if and only if the live target yields at every place |
| InterfaceMoves.StaleAddressSurvives | backend/src/routes/interfaces.rs:487-493 | a move onto a live VLAN keeps that VLAN's address when the form has none |
| FirewallOptions.EntryRuns | backend/src/routes/firewall.rs:265-336 | a state's entry ends as wanted, except that clearing an action that is not live leaves the entry alone |
| FirewallOptions.DiffGlobalOptionsCorrect | backend/src/routes/firewall.rs:183-340 | all 14 keyed options, the resolver fields and the three states read as wanted, nothing outside changes, every command is effective |
| FirewallOptions.ClearedExactlyIff | backend/src/routes/firewall.rs:273-284 | the committed tree reads exactly as the form asked if and only if no state to be cleared has a log or level in the live tree without an action |
| FirewallOptions.LogWithoutActionSurvives | backend/src/routes/firewall.rs:273-284 | on the tree that holds `state-policy established log` alone, a blank form is committed and the log is still read |
| FirewallOptions.DiffGlobalOptionsFixpoint | backend/src/routes/firewall.rs:183-340 | diffing the committed section again yields no command |
| FirewallDiff.PolicyCommands | backend/src/routes/firewall.rs:265-336 | the loop over the three states with its early `continue` builds the states' edits |
| FirewallDiff.ComputeDiffGlobalOptions | backend/src/routes/firewall.rs:183-340 | the imperative diff builds the command list the theorems are about |
| SystemConfig.DiffSystemCorrect | backend/src/routes/config.rs:450-536 | host name, domain name and time zone read as asked, the NTP servers are exactly the trimmed non-blank entries, disabling removes NTP, nothing else changes |
| SystemConfig.DiffSystemFixpoint | backend/src/routes/config.rs:450-536 | diffing the committed tree again yields no command |
| SystemDiff.ComputeDiffSystem | backend/src/routes/config.rs:450-536 | the imperative diff with its early return builds the command list the theorems are about |
| Batches.RunHoused | backend/src/routes/config.rs:592-619 | a batch over separate places is accepted exactly when each place accepts its own commands, each place ends as those leave it, and what is beside all of them is untouched |
| Commuting.RunsCommute | backend/src/routes/interfaces.rs:401-411 | two lists that work at different places give the same outcome, tree for tree, in either order |
| ReviewTable.Table.DeleteTargets | backend/src/routes/nat.rs:365-380 | one deletion per target leaves the committed rows and the pending rows of no target |
| ReviewTable.Table.InsertChanges | backend/src/routes/config.rs:425-447 | the rows are inserted one by one in command order and returned |
| ReviewTable.Table.SubmitForm | backend/src/routes/interfaces.rs:584-626 | a staging handler takes the table to the state machine's next state; `FormMeaning.AcceptedIff` says which forms that takes in |
| ReviewTable.Table.Discard | backend/src/routes/config.rs:556-573 | deletes one pending row and reports whether there was one; committed rows and the other pending rows stay, in order |
| ReviewTable.Table.DiscardPending | backend/src/routes/config.rs:575-588 | no pending row is left, and the committed rows are as they were |
| ReviewTable.Table.MarkPending | backend/src/routes/config.rs:664-673 | marks and links every pending row |
| ReviewTable.Table.CommitPending | backend/src/routes/config.rs:592-683 | a commit takes tables and device to the state machine's next state; nothing is recorded for an empty tray or an unreachable device |
| ReviewTable.OneMoreTarget | backend/src/routes/nat.rs:371-380 | clearing target after target is clearing all at once |
| ReviewLedger.NextTabled | backend/src/routes/config.rs:556-683 | every request keeps the two tables in agreement, and only a commit that the device takes changes the ledger or the device |
| ReviewLedger.NextSound | backend/src/routes/config.rs:556-683 | every request keeps the ledger sound and the committed rows of before unaltered at the head of those of after |
| ReviewLedger.RunsSound | backend/src/routes/config.rs:556-683 | over every run, replaying the committed rows from the initial configuration gives the running one, a row has a commit id exactly when it is committed, and each successful commit counts its linked rows |
| ReviewLedger.CommitApplied | backend/src/routes/config.rs:600-677 | a successful commit appends the whole pending part to the ledger |
| ReviewLedger.CommitRecorded | backend/src/routes/config.rs:600-677 | a commit records nothing for an empty tray or an unreachable device; otherwise one commit that succeeds if and only if the device takes the batch, counts the pending rows, and is saved if and only if it succeeded and the save did |
| ReviewRace.LateMarkingSoundIff | backend/src/routes/config.rs:600-677 | whatever happened since rows were selected, recording the commit keeps the ledger sound if and only if as many rows are marked as were fired and they bring the ledger's configuration to the running one |
| ReviewRace.StepsAreCommit | backend/src/routes/config.rs:600-677 | selecting, firing and marking with nothing in between is one commit |
| ReviewRace.RaceHarmlessIff | backend/src/routes/config.rs:600-677 | with any requests, commits included, between selecting, firing and marking, the ledger is sound and the commit links exactly the rows it fired if and only if the rows pending at the marking are the ones it selected |
| ReviewRace.SecondCommitBreaksLedger | backend/src/routes/config.rs:600-677 | of two commits that select the same rows the one that marks last counts rows that are linked to the other |
| ReviewRace.TwoCommitsOfOneDeletion | backend/src/routes/config.rs:600-677 | one staged rule deletion and two commits are such a race |
| ReviewRace.LateRowBreaksLedger | backend/src/routes/config.rs:664-673 | a deletion staged between selecting and marking is marked committed without having been fired |
| ReviewTargets.FeetApart | backend/src/routes/interfaces.rs:449-457 | the places of all targets are apart from each other |
| ReviewTargets.ClearsOwn | backend/src/routes/nat.rs:371-376 | a staged row is cleared by restaging its own target and by no other |
| ReviewTargets.StagedPlaced | backend/src/routes/nat.rs:392-417 | every staged command lies at a place of a target whose rows the staging replaces, all in one section |
| LastStaging.SubmitRows | backend/src/routes/nat.rs:365-382 | after a staging the rows of its targets are its new ones and those of all other targets are as they were |
| LastStaging.RunOwned | backend/src/routes/config.rs:425-447 | over every run of requests each pending row belongs to a place of a target |
| LastStaging.PendingIsLast | backend/src/routes/config.rs:400-447 | after any run of stagings, discard-alls and commits that the device refuses or that do not reach it, the pending rows of each target are those of the last form about it, and there are no others |
| CommitMeaning.BatchAccepted | backend/src/routes/config.rs:600-619 | the device's schema accepts those rows as one batch, and each place ends as its own rows leave it |
| CommitMeaning.CommitPutsLast | backend/src/routes/config.rs:592-683 | after any such run a commit succeeds and every place of every target ends as committing the last form about it alone would leave it, or as it was; nodes opened by a bare `set` exist, live nodes above the places stay, and whatever is beside them is untouched |
| CommitReads.ShapedIsReady | backend/src/routes/config.rs:400-422 | a form over a well-formed tree stages commands the device accepts |
| CommitReads.NicExists | backend/src/routes/interfaces.rs:374-384 | after the commit the NIC of the last form about it exists, even when the form leaves everything blank |
| CommitReads.CommittedReads | backend/src/routes/config.rs:592-683 | after such a run and commit every rule, VLAN and NIC exists or is gone and reads, with the pages, as the last form about it asked; superseded forms need not have fitted the tree |
| CommitReads.HoldsIsFixpoint | backend/src/routes/config.rs:400-447 | where all targets a form sets read as it asked, staging it again, without the number it moved from, stages no command |
| CommitReads.ResubmitStagesNothing | backend/src/routes/config.rs:400-683 | after such a run and commit, submitting the last form about its targets again changes neither the tables nor the device |
| FormMeaning.AcceptedIff | backend/src/routes/interfaces.rs:603-611 | a form is accepted if and only if its VLAN id is in 1 to 4094, its rule number in 1 to 999999 and its section one of the two, its NIC name not blank, or its page there; deletions of VLANs and mappings always |
| FormMeaning.StagedTargets | backend/src/routes/nat.rs:407-413 | a staging replaces the rows of what the form is about and, on a move, of what it came from, in both sections for a mapping |
| FormMeaning.FormCommitted | backend/src/routes/config.rs:592-683 | an accepted form that is committed alone leaves the configuration as it asks, field by field at the configuration's own paths: rules, mappings, NICs, VLANs, the system page, all firewall options and state policies, and deletions |
| FormMeaning.EmptyTreeFits | backend/src/routes/config.rs:400-422 | on a router without configuration every form finds the shape it takes for granted |
| FormMeaning.LastFormsCommitted | backend/src/routes/config.rs:592-683 | after any run of stagings, discard-alls and failed commits the same holds for every form that is the last one about its targets |
| FormFrames.OthersStayPending | backend/src/routes/interfaces.rs:584-601 | in any state reached from an empty table, staging a form leaves the pending rows of all other targets |
| FormFrames.NicKeepsVlanRows | backend/src/routes/interfaces.rs:401-411 | in any table, staging a NIC keeps all pending rows of every VLAN |
| FormFrames.FormsCommute | backend/src/routes/nat.rs:488-516 | the command lists of two forms without a common target give the same tree in either order: a NIC and its VLANs, two NICs, a source and a destination rule |
| GridLayout.FindFreeCell | frontend/src/components/dashboard/DashboardGrid.tsx:35-42 | the nested scan finds the row-major least free cell of the first 200 rows, or the top-left cell if and only if there is none |
| GridLayout.FirstFitUnique | frontend/src/components/dashboard/DashboardGrid.tsx:35-42 | there is one such cell |
| GridLayout.CollideIffShared | frontend/src/components/dashboard/DashboardGrid.tsx:30-31 | two boxes collide if and only if some cell belongs to both |
| GridLayout.RoomBelow | frontend/src/components/dashboard/DashboardGrid.tsx:35-42 | below a bottom edge above row 200 the scan finds a free cell, no lower than that edge |
| GridLayout.PackTiles | frontend/src/components/dashboard/DashboardGrid.tsx:46-55 | the packing loop computes the packing the theorem is about |
| GridLayout.PackCorrect | frontend/src/components/dashboard/DashboardGrid.tsx:44-55 | for heights summing to at most 200, packed tiles keep order and size, are disjoint and in the grid, each at the first cell free of its predecessors, and reach no lower than the sum of heights |
| GridResolve.ResolveLayout | frontend/src/components/dashboard/DashboardGrid.tsx:60-71 | the push-down loops end and compute the resolution the theorems are about |
| GridResolve.OrderLists | frontend/src/components/dashboard/DashboardGrid.tsx:61-64 | every tile is placed once, the static one first, the others by row and then column |
| GridResolve.ResolveCorrect | frontend/src/components/dashboard/DashboardGrid.tsx:57-71 | the same tiles in the same order, no two overlapping, the static tile fixed, every other one changed at most in its row and never upwards |
| GridResolve.MinimalDisturbance | frontend/src/components/dashboard/DashboardGrid.tsx:60-71 | when tiles overlap only at the static one, a tile moves if and only if its old place overlaps another's new place, and then a chain of pushes, each flush under the last, reaches it from the static tile |
| GridResolve.ResolveFixpoint | frontend/src/components/dashboard/DashboardGrid.tsx:60-71 | a layout without overlaps is unchanged |
| GridUnique.ResolvedIff | frontend/src/components/dashboard/DashboardGrid.tsx:57-71 | for tiles that start in different cells the result is the only layout without overlaps in which the static tile stays and every other tile sinks no further than tiles that start above it, or left of it in its row, force it to |
| DashboardPage.Dashboard.OnAdd | frontend/src/app/[siteSlug]/device/[deviceId]/page.tsx:54-60 | adding takes the page to the state machine's next state |
| DashboardPage.Dashboard.OnTileMove | frontend/src/components/dashboard/DashboardGrid.tsx:138-157 | a drag step takes the page to the next state |
| DashboardPage.Dashboard.OnResizeMove | frontend/src/components/dashboard/DashboardGrid.tsx:189-199 | a resize step takes the page to the next state |
| DashboardRuns.ReloadRestores | frontend/src/app/[siteSlug]/device/[deviceId]/page.tsx:24-52 | a stored layout is loaded as it was, except that an empty one comes back as the default |
| DashboardRuns.OpenValid | frontend/src/app/[siteSlug]/device/[deviceId]/page.tsx:34-36 | migrating an order-based layout of known tiles at least as large as their kinds demand gives a valid layout |
| DashboardRuns.ReshapePushes | frontend/src/components/dashboard/DashboardGrid.tsx:155-156 | while a tile is dragged or resized, another leaves its snapshot place only at the end of a chain of pushes |
| DashboardSteps.ReshapedIff | frontend/src/components/dashboard/DashboardGrid.tsx:155-156 | so the layout during every drag and resize of a valid page is determined |
| DashboardRuns.MoveValid | frontend/src/components/dashboard/DashboardGrid.tsx:152-156 | a drag from a valid snapshot gives a valid layout with the same tiles, the dragged one at its size in the cell under the pointer when it fits there |
| DashboardRuns.ResizeValid | frontend/src/components/dashboard/DashboardGrid.tsx:194-198 | the resize bounds never cross, and a resize gives a valid layout with the same tiles, the resized one in its place at the size asked for when the bounds allow it |
| DashboardRuns.AddValidIff | frontend/src/app/[siteSlug]/device/[deviceId]/page.tsx:54-60 | adding keeps a layout valid if and only if the scan finds a free cell |
| DashboardRuns.LowEdgeHasRoom | frontend/src/components/dashboard/DashboardGrid.tsx:35-42 | while the lowest edge is above row 200 every kind has room |
| DashboardRuns.StepValid | frontend/src/components/dashboard/DashboardGrid.tsx:121-204 | every event keeps layout, snapshot, resize minima and stored layout valid |
| DashboardRuns.RunsStayValid | frontend/src/components/dashboard/DashboardGrid.tsx:121-204 | every interleaving of adds that find a free cell, removes, drags and resizes keeps tiles disjoint, in the four columns and at least at their minimum, and a reload shows the same layout |
| DashboardSteps.ValidMeans | frontend/src/components/dashboard/DashboardGrid.tsx:121-204 | on such a page no cell belongs to two tiles, every tile is in the four columns and none is below the minimum of its kind |
| DashboardSteps.AddPlaces | frontend/src/app/[siteSlug]/device/[deviceId]/page.tsx:54-60 | an added tile has the default size of its kind and stands at the first cell of the 200 rows where it shares no cell with another, or top left if there is none |
| DashboardSteps.RemoveTakesOne | frontend/src/app/[siteSlug]/device/[deviceId]/page.tsx:62 | removing takes out that tile alone and keeps the others in place and order |
| DashboardSteps.ReleasedDragIsOver | frontend/src/components/dashboard/DashboardGrid.tsx:159-165 | after the release no pointer move changes the page |
| DashboardSteps.ReleasedResizeIsOver | frontend/src/components/dashboard/DashboardGrid.tsx:201-204 | the same after a resize |
| DashboardSteps.OnlyTheHeldTileMoves | frontend/src/components/dashboard/DashboardGrid.tsx:121-139 | outside edit mode no tile is taken up, and moves over other tiles than the held one do nothing |
| DashboardSteps.KnownAppend | frontend/src/app/[siteSlug]/device/[deviceId]/page.tsx:24-33 | loading keeps the stored tiles of the three known kinds, in order, and drops the others |
| DashboardSteps.LoadsOrPacks | frontend/src/app/[siteSlug]/device/[deviceId]/page.tsx:34-36 | a stored layout is shown in its places if every known tile has one, and is packed as a whole if any lacks one |
| DashboardPicker.FewTilesLeaveRoom | frontend/src/app/[siteSlug]/device/[deviceId]/page.tsx:54-60 | up to nine tiles of at most 16 rows, wherever they are, leave a free cell in the scanned rows for every kind |
| DashboardPicker.PickerRunsStayValid | frontend/src/app/[siteSlug]/device/[deviceId]/page.tsx:97-103 | when only kinds that are not on the page are added, as the picker offers them, every run keeps the session valid with at most one tile of each kind and none taller than 16 rows, however far tiles are pushed down |
| DashboardPicker.DefaultRunsStayValid | frontend/src/app/[siteSlug]/device/[deviceId]/page.tsx:97-103 | so every such run from the default page keeps the layout valid: no add lacks room |
| DashboardRuns.DragForgetsPath | frontend/src/components/dashboard/DashboardGrid.tsx:132-156 | the layout during a drag depends on the snapshot and the last cell only |
| DashboardRuns.ReturnRestoresIff | frontend/src/components/dashboard/DashboardGrid.tsx:152-156 | dragging back to the start restores the layout exactly, if and only if the tile started no lower than row 16 |
| DashboardRuns.ResizeForgetsPath | frontend/src/components/dashboard/DashboardGrid.tsx:168-199 | the layout during a resize depends on its start and the last size change only |
| DashboardRuns.ResizeBackRestoresIff | frontend/src/components/dashboard/DashboardGrid.tsx:189-199 | resizing back restores the layout exactly, if and only if the tile was at most 16 rows tall |
| DashboardLimits.FullGridOverlaps | frontend/src/app/[siteSlug]/device/[deviceId]/page.tsx:54-60 | a stored layout of thirteen full-width tiles of 16 rows, all of one kind, loads as it is, and in edit mode a tile of another kind is added on top of the first |
| DashboardLimits.DragTo | frontend/src/components/dashboard/DashboardGrid.tsx:121-166 | a whole drag to a cell in bounds leaves the tile there and every other one in its column, no higher than before |
| DashboardLimits.PushedTileDoesNotReturn | frontend/src/components/dashboard/DashboardGrid.tsx:152-156 | a tile that another drag pushed below row 16 does not return when it is dragged back to its place |
| DashboardLimits.TallTileShrinks | frontend/src/components/dashboard/DashboardGrid.tsx:189-199 | a stored tile taller than 16 rows loads as it is and, in edit mode, shrinks when it is resized back to its own size |
| LeaseTable.StartsFrom | backend/src/routes/services.rs:216-230 | the column starts are exactly the starts of dash runs, in order |
| LeaseTable.ColumnStarts | backend/src/routes/services.rs:216-230 | the index loops find exactly the run starts |
| LeaseTable.CutsTile | backend/src/routes/services.rs:235-243 | for any line the columns' slices put together are the line from the first column start on |
| LeaseTable.FirstWith | backend/src/routes/services.rs:246-257 | a field's column is the first whose label contains all its words, and is missing only if no label does |
| LeaseTable.SeparatorIs | backend/src/routes/services.rs:204-207 | a line of dashes and spaces with a dash is a separator, and a separator has no other visible character |
| LeaseTable.LowerLetters | backend/src/routes/services.rs:244 | labels are compared in small letters, and only letters change |
| LeaseTable.ParseLeases | backend/src/routes/services.rs:202-281 | the parser computes the records the round trip is about, for any text |
| LeaseRoundTrip.BlanksDropped | backend/src/routes/services.rs:235-243 | trailing blanks do not matter to a field, even when the line ends before its column |
| LeaseRoundTrip.SeparatorStarts | backend/src/routes/services.rs:216-230 | the columns found under a printed separator are the printed ones |
| LeaseRoundTrip.LinesOfJoined | backend/src/routes/services.rs:203 | the lines of a text are the ones it was joined from, with either line end, the last one with or without |
| LeaseRoundTrip.ParseInvertsPrint | backend/src/routes/services.rs:202-281 | parsing a padded table yields the record of every row with an address, in order, whatever precedes the header and however the lines end |
| LeasePrinting.HeaderLocates | backend/src/routes/services.rs:246-257 | the eight labels of a lease header are found in their columns |
| LeasePrinting.AddressV6At | backend/src/routes/services.rs:246-247 | the address column of a DHCPv6 table is found too |
| LeasePrinting.ParseReturnsLeases | backend/src/routes/services.rs:202-281 | leases printed as a padded table under that header parse back into the same leases |
| ColumnLayout.Reconcile | frontend/src/components/dashboard/DataTable.tsx:101-106 | the loop computes the displayed order |
| ColumnLayout.ReconciledIff | frontend/src/components/dashboard/DataTable.tsx:101-106 | the displayed order is a permutation of the current columns if and only if no known key is stored twice |
| ColumnLayout.RepeatedKeyStaysTwice | frontend/src/components/dashboard/DataTable.tsx:101-106 | a stored order with a known key twice displays that column twice |
| ColumnLayout.ReconcileTwice | frontend/src/components/dashboard/DataTable.tsx:116-125 | the persisted order is displayed as it is after a reload |
| ColumnLayout.ReorderColumn | frontend/src/components/dashboard/DataTable.tsx:216-228 | the splices compute the new order |
| ColumnLayout.DropPlaces | frontend/src/components/dashboard/DataTable.tsx:216-228 | a drop keeps every column, puts the dragged one immediately before its target and keeps the others' order |
| ColumnLayout.ReorderShows | frontend/src/components/dashboard/DataTable.tsx:216-228 | after a drop the table shows the columns in that order; a drop on itself or of an unknown column changes nothing shown |
| ColumnLayout.MoveBoundary | frontend/src/components/dashboard/DataTable.tsx:191-198 | the clamped step computes the new widths |
| ColumnLayout.ResizeKeepsMinimaIff | frontend/src/components/dashboard/DataTable.tsx:191-198 | a resize conserves the pair's total width and all other widths, always keeps the right minimum, and keeps the left one if and only if both minima fit |
| ColumnLayout.ResizeFollowsPointer | frontend/src/components/dashboard/DataTable.tsx:191-198 | when both minima fit, the left width grows and the right one shrinks by the distance moved, each stopping at its minimum |
| ColumnLayout.MinimumOf | frontend/src/components/dashboard/DataTable.tsx:176-177 | a minimum is the column's own, or 60 |
| ColumnLayout.ReleasedResizeIsOver | frontend/src/components/dashboard/DataTable.tsx:199-203 | after the release no pointer move changes a width |
| ColumnLayout.TightPairBreaksLeftMinimum | frontend/src/components/dashboard/DataTable.tsx:191-198 | of two columns of width 50 that demand 60 each, taking hold of the boundary leaves the left one with 40 |
| ColumnLayout.ResizeForgetsPath | frontend/src/components/dashboard/DataTable.tsx:191-198 | the widths after a drag depend on its start and last position only |
| ColumnLayout.ResizeBackIff | frontend/src/components/dashboard/DataTable.tsx:191-198 | back at the start both widths are restored if and only if the right column had its minimum and the left one had its own or the right one exactly its minimum |
| ColumnLayout.ToggleKeepsOne | frontend/src/components/dashboard/DataTable.tsx:242-248 | hiding a column never hides the last visible one and changes no other |
| ColumnLayout.ToggleFlips | frontend/src/components/dashboard/DataTable.tsx:242-248 | toggling shows a hidden column and hides a shown one, unless it is the only one shown |
| ColumnLayout.ResetShowsAll | frontend/src/components/dashboard/DataTable.tsx:142-147 | a reset shows all columns in the order given and forgets all widths |
| ColumnLayout.RunsKeepOrder | frontend/src/components/dashboard/DataTable.tsx:101-248 | over every run of reorders, resizes, toggles, resets and column-set changes the displayed order is a permutation of the current columns, and some column stays visible while the set stays |

## Left out

- SystemConfig.DiffSystemCorrect: enabling NTP without a server list emits no command, so only the server set is claimed for it.
- FirewallOptions.DiffGlobalOptionsCorrect: a log or level without an action is not cleared by clearing the action; the exact condition is `ClearedExactlyIff`.
- CommitMeaning.CommitPutsLast: runs with single-row discards are excluded, because discarding part of a form leaves half a diff pending; the ledger theorems do cover them.
- CommitReads.CommittedReads: what the device itself validates beyond the schema is outside; a refused batch is a failed commit.
- DashboardRuns.RunsStayValid: each add must find a free cell, because a stored layout may have none; for what the picker allows from the default page `DashboardPicker` proves that there is one.
- LeaseRoundTrip.ParseInvertsPrint: label matching lower-cases ASCII letters only.
- Clocks: the order of insertion stands for `created_at`, and summaries, authors and timestamps are not modelled; the id of a new tile is any id that is not on the page.
- One router: rows of different routers never meet, because every statement selects by router id.
- Text is a sequence of characters, and white space is the ASCII white space.
- HTTP, authorisation, users, sites, the poller and the device client are left out except for their effect on the tables and the device; `proxy_configure` can write past the review tray and is outside the runs.
- The inventory and DHCP readers copy records field by field and would add only easy members.
- Floating-point parsing and formatting (sizes, percentages, the speed graph) are left out.
- React rendering, pointer capture and rounding of pixels to cells are left out: the cell under the pointer and the size change are arbitrary integers, widths are reals, and a render follows every event.
- Column widths that were never set are taken as 120 instead of being measured, and the width seeding is left out.
- Local storage always succeeds and is read when the page opens.
