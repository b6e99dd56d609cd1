# Polaris, modelled in Dafny

Polaris is an IP address management and network inventory application. This project models
the parts of it whose correctness is not visible from reading one function, and proves what
its code, tests and documentation promise about them. `dafny verify dfyconfig.toml` checks
everything; there are no assumptions and no unproved members.

| file | models | main results |
|---|---|---|
| `GridPacker.dfy`, `Dashboard.dfy` | the dashboard's first-fit grid packer and its debounced save | a widget list has exactly one packing and `reflow` finds it; every run stays packed and saved; add/remove, resize/resize and in-place moves are undone exactly |
| `Bits.dfy`, `Cidr.dfy` | bit-masked CIDR ranges with 32-bit Number and BigInt operators | for every address and every integer prefix the range is the block of an effective prefix; blocks are nested or disjoint |
| `JsText.dfy`, `Ipv4Text.dfy`, `Ipv6Text.dfy` | dotted quads, IPv6 text with `::`, address pages | parser and printer are inverse for all addresses; the zero run chosen is the leftmost longest; the computed page is the only one that lists the address, for prefixes up to 30 |
| `Allocator.dfy`, `SubnetRuns.dfy`, `BulkPlans.dfy` | subnet search, template packing and concurrent allocation | lowest free block or proof that there is none; template placement stays in the parent exactly when its span fits; overlapping calls keep subnets disjoint exactly when they claim subnets of the block that do not clash |
| `DependencyLayers.dfy`, `Suppression.dfy`, `SuppressionPass.dfy` | dependency layers and alert suppression | breadth-first layers are cable distances; the memoised search decides reachability on all graphs; one pass in layer order yields the unique consistent flags on layered graphs, and the exact condition on the graph under which it is right for every health |
| `IpHistory.dfy`, `SourceRows.dfy`, `StatusClamp.dfy`, `AssetStore.dfy` | the database write hooks: IP history, source rows, status clamp | each row summarises an unbounded history; terminal assets stay unmonitored in every disciplined run |
| `HttpsManager.dfy` | the HTTPS listener life cycle | one listener at most, fingerprint absent or correct, also while a call is waiting; after every run the certificate served is that of the last call that acted |
| `TopologyOverlay.dfy` | the map's path overlay | overlays show and dim exactly what the path says and are undone exactly; what is stored is clean under an exact condition |
| `RegionEdit.dfy`, `RegionRaces.dfy`, `RegionOutcome.dfy`, `RegionSave.dfy`, `RegionSteps.dfy`, `RegionAtomic.dfy`, `RegionTable.dfy`, `RegionRuns.dfy`, `RegionPage.dfy` | the region edit session and the server's region table | exactly the steps that keep clean polygons in agreement with the server; exactly the states from which agreement lasts under every schedule; discard shows the last saved shape; runs without interleaved writes refine an atomic server |
| `Csv.dfy`, `Tags.dfy`, `MacAudit.dfy`, `Favorites.dfy` | CSV export, protected tags, MAC audit, favourites | every export is read back, exactly under an exact condition; protected tags survive; the audit is idempotent; cache equals storage |

Code that updates state is a class (or a method with loops) whose methods are proved to
perform one step of a function on values; the theorems over whole runs are about that
function. Where the code does less than its comments say, the model follows the code, and a
lemma states the exact condition under which the promise holds:

- `_cidr4Range` takes the shift count modulo 32, so a prefix outside 0..32 is read as another
  prefix (`Cidr.Range4Exact`); `_cidr6Range` reads a prefix outside 0..128 as 0.
- `packIntoAnchor` caps the anchor at the parent, so a template wider than the parent is placed
  past its end (`Allocator.PlacementInsideIff`, `Allocator.TemplatePastParent`).
- A template wider than its block is created all the same by a bulk call, outside the block and
  possibly over itself (`BulkPlans.WideBulkCall`, `BulkPlans.TemplateIsTidyIff`).
- Subnets of /31 and /32 cannot be enumerated or searched: the Netmask library leaves `broadcast`
  undefined for them and the code throws (`Ipv4Text.PageHoldsAddress`, `Allocator.FindNextAvailableSubnet`);
  for the same reason `createSubnet` rejects them, and only bulk calls create them.
- `evaluateSuppression` promises to re-evaluate until stable and makes a single pass; an override
  edge to an asset decided later can leave a stale flag (`Suppression.UnlayeredPassIsStale`), and
  `SuppressionPass.OnePassSufficesIff` says for which graphs it cannot.
- A restart of the HTTPS listener clears the cached certificate and, on a port change, keeps the
  old redirect choice (`HttpsManager.FingerprintLostIff`, `HttpsManager.RedirectFollowsSettingsIff`,
  `HttpsManager.PortChangeLosesState`).
- A drag save that is pending when an overlay starts, or a Refresh during one, stores chain
  positions (`TopologyOverlay.SaveCleanIff`, `TopologyOverlay.PendingSaveStoresChain`).
- Closing during an overlay stores the position of the synthetic endpoint too (`TopologyOverlay.CloseIsClean`).
- A vertex edit during a PUT is marked clean when the PUT succeeds (`RegionOutcome.PutAgreesIff`,
  `RegionRuns.EditInFlightIsLost`); a session entered while a PUT is under way can show a clean
  polygon that the server no longer has, and the end of the older save closes it
  (`RegionRuns.StaleSession`, `RegionOutcome.EndSaveDropsIff`).
- The PUTs of one save run concurrently, and each rewrites the whole region table: one can undo
  another although both succeed, and a clean polygon then disagrees with the server
  (`RegionRuns.RacingSave`, `RegionTable.LostUpdate`). `RegionRaces.AgreementLastsIff` and
  `RegionRaces.SaveIsSafeIff` say when it cannot happen.
- Subnets are checked and created in separate statements without a lock, so overlapping calls,
  bulk ones included, can hand out a block twice (`SubnetRuns.RacingAllocations`);
  `SubnetRuns.CallsAreSafeIff` says when they cannot.
- The status clamp acts only on writes that set the status (`StatusClamp.WriteKeepsQuietIff`).
- An export without rows is read back with an extra record (`Csv.EmptyExport`).
- Saving an untouched record drops tags that are not defined (`Tags.UntouchedSaveKeepsTagsIff`).
- The audit loses an off-subnet entry that shares its MAC with a kept one without listing it
  (`MacAudit.SilentLossIff`).

Conventions: JavaScript integers are Dafny integers with 32-bit reduction written out; NaN is
`None`; clocks, fresh ids, storage and network outcomes are parameters of a step; a JavaScript
exception is a result value. An interleaving is a sequence of atomic steps, one per SQL
statement, request answer or timer.

## Model

| member | source | states |
|---|---|---|
| `GridPacker.PackedIsDisjoint` | public/js/dashboard.js:99-134 | no widget of a packed layout leaves the 12 columns and no two share a cell |
| `GridPacker.RowBound` | public/js/dashboard.js:121-132 | no widget is placed below the sum of the heights before it, which bounds the row search |
| `GridPacker.BottomSlotFits` | public/js/dashboard.js:121-132 | the slot below everything placed is always free |
| `GridPacker.FirstFitUnique` | public/js/dashboard.js:122-131 | the row-major least free slot is unique |
| `GridPacker.PackingUnique` | public/js/dashboard.js:96-134 | a widget list has at most one packing |
| `GridPacker.PackingExists` | public/js/dashboard.js:96-134 | every widget list, of any integer sizes, has a packing |
| `GridPacker.PackFixpoint` | public/js/dashboard.js:99-134 | packing a packed layout moves nothing |
| `GridPacker.PackKeeps` | public/js/dashboard.js:99-134 | packing keeps the order and, of each widget, all but its position and a width beyond the grid |
| `GridPacker.PackIgnoresPositions` | public/js/dashboard.js:12-15 | the packing depends on order and shapes only, not on earlier positions |
| `GridPacker.PackPrefix` | public/js/dashboard.js:99-134 | later widgets never move earlier ones |
| `GridPacker.IsFree` | public/js/dashboard.js:102-110 | true exactly when every cell of the rectangle is in the grid and unoccupied |
| `GridPacker.Mark` | public/js/dashboard.js:111-117 | adds exactly the rectangle's cells to the occupancy |
| `GridPacker.FindSlot` | public/js/dashboard.js:121-132 | the search ends with the row-major least slot free of everything placed |
| `GridPacker.Reflow` | public/js/dashboard.js:99-134 | terminates for every list, with its unique packing; only position and over-wide width change |
| `DashboardLayout.StepKeepsInv` | public/js/dashboard.js:158-241 | each step keeps the layout packed and, without a pending timer, equal to what was last sent |
| `DashboardLayout.EveryRunIsPackedAndSaved` | public/js/dashboard.js:66-241 | the same after bootstrap and any run of steps |
| `DashboardLayout.QuiescentRunIsSaved` | public/js/dashboard.js:165-179 | once the timer has fired the last layout sent is the current one |
| `DashboardLayout.BootstrapMeans` | public/js/dashboard.js:66-81 | bootstrap shows the loaded widgets in order, packed, and queues nothing |
| `DashboardLayout.AddMeans` | public/js/dashboard.js:181-202 | the new widget is at its index, every other one around it as it was, and a save is queued |
| `DashboardLayout.RemoveMeans` | public/js/dashboard.js:204-209 | the others stay, in order, and a save is queued |
| `DashboardLayout.MoveMeans` | public/js/dashboard.js:211-222 | for every widget, the index at which it is found after a move |
| `DashboardLayout.MoveOutOfRange` | public/js/dashboard.js:211-222 | which index in range a negative or too large one stands for |
| `DashboardLayout.ResizeMeans` | public/js/dashboard.js:224-232 | one widget gets the height and the width, cut to 12; all others keep theirs; an equal size or an unknown id does nothing |
| `DashboardLayout.ConfigMeans` | public/js/dashboard.js:234-241 | one key of one widget gets the value and no position changes |
| `DashboardLayout.TimerMeans` | public/js/dashboard.js:165-179 | the timer sends the layout once |
| `DashboardLayout.AppendMovesNothing` | public/js/dashboard.js:391-394 | tap-to-add moves no existing widget |
| `DashboardLayout.InsertKeepsEarlier` | public/js/dashboard.js:193-195 | inserting at k moves none of the first k widgets |
| `DashboardLayout.MoveKeepsOthers` | public/js/dashboard.js:211-222 | moving keeps the multiset and the order of the others, and lands where the index says |
| `DashboardLayout.MoveInPlace` | public/js/dashboard.js:211-222 | a drop at the own or next index changes nothing |
| `DashboardLayout.WithoutOne` | public/js/dashboard.js:204-207 | removing by id takes out exactly the one widget carrying it |
| `DashboardLayout.AddThenRemove` | public/js/dashboard.js:181-209 | adding anywhere and removing again restores every position |
| `DashboardLayout.ResizeThenBack` | public/js/dashboard.js:224-232 | resizing and resizing back restores every position, clamping included |
| `DashboardLayout.DropOnOwnCell` | public/js/dashboard.js:136-154 | a drop on the own cell is a no-op exactly when the list is in row-major order around the widget |
| `DashboardLayout.Dashboard.constructor` | public/js/dashboard.js:66-81 | bootstrap packs the loaded layout without queueing a save |
| `DashboardLayout.Dashboard.AddWidget` | public/js/dashboard.js:181-202 | one add step; unknown types are ignored |
| `DashboardLayout.Dashboard.RemoveWidget` | public/js/dashboard.js:204-209 | one remove step |
| `DashboardLayout.Dashboard.MoveWidget` | public/js/dashboard.js:211-222 | one move step, `splice` semantics for every index |
| `DashboardLayout.Dashboard.ResizeWidget` | public/js/dashboard.js:224-232 | one resize step; an equal size queues no save |
| `DashboardLayout.Dashboard.UpdateConfig` | public/js/dashboard.js:234-241 | one config step |
| `DashboardLayout.Dashboard.SaveNow` | public/js/dashboard.js:169-179 | sends the current layout and clears the timer |
| `DashboardLayout.Dashboard.InsertIndexFromCursor` | public/js/dashboard.js:147-153 | the first index whose widget starts after the cell, else the end |
| `Bits.AndLowMask` | public/js/blocks.js:304 | masking with 2^k - 1 keeps the low k bits, of negative numbers too |
| `Bits.AndHighMask` | public/js/blocks.js:267 | masking with a prefix mask clears exactly the host bits |
| `Bits.AndHighMaskCut` | public/js/blocks.js:279-280 | the same for a mask cut to the address width |
| `Bits.OrDisjoint` | public/js/blocks.js:277-281 | or-ing bits below an aligned number adds them |
| `Cidr.BlockIsInterval` | public/js/blocks.js:262-283 | the addresses sharing the top bits are an aligned interval of 2^h |
| `Cidr.NestedOrDisjoint` | public/js/blocks.js:262-283 | any two blocks are nested or disjoint |
| `Cidr.Mask4Value` | public/js/blocks.js:266 | the 32-bit shift yields the mask of the effective prefix, NaN and out-of-range prefixes included |
| `Cidr.Range4IsBlock` | public/js/blocks.js:265-268 | for every address and prefix, start and end bound the block of the effective prefix |
| `Cidr.Range4Exact` | public/js/blocks.js:266-268 | the range is the set sharing the top p bits; size 2^(32-p) if and only if 0 <= p <= 32 |
| `Cidr.Mask6Value` | public/js/blocks.js:279 | the BigInt mask for every integer prefix |
| `Cidr.Range6IsBlock` | public/js/blocks.js:278-281 | for every 128-bit address and integer prefix, the range is a block; out-of-range prefixes give the whole space |
| `Cidr.Range6Exact` | public/js/blocks.js:278-281 | for 0 <= p <= 128: membership is sharing the top p bits, aligned start, size 2^(128-p) |
| `Ipv4Text.FmtIsDottedQuad` | public/js/blocks.js:269 | shifting and masking prints the dotted quad of every address |
| `Ipv4Text.Assemble4Value` | public/js/blocks.js:265 | shifting and or-ing signed 32-bit octets assembles the address |
| `Ipv4Text.Cidr4RangeText` | public/js/blocks.js:262-271 | for every address text and prefix the two texts shown bound its block |
| `Ipv4Text.Ipv4ToInt` | public/js/ip-panel.js:124-134 | accepts exactly the printed quads and returns the address printed; null for every other text |
| `Ipv4Text.DottedQuadInjective` | public/js/ip-panel.js:124-134 | different addresses print differently |
| `Ipv4Text.Ipv4PageForIp` | public/js/ip-panel.js:112-122 | the page of the offset for two quads, 1 otherwise |
| `Ipv4Text.PageHoldsAddress` | public/js/ip-panel.js:455 | for an address of an aligned subnet the page is within 1..totalPages; a page lists the address if and only if it is that page and the prefix is at most 30 |
| `Ipv4Text.PagesCounted` | public/js/ip-panel.js:455 | a page lists something exactly if its number is at most the page count |
| `Ipv6Text.ExpandFull` | public/js/blocks.js:285-299 | eight hexadecimal groups are read as their values |
| `Ipv6Text.ExpandCompressed` | public/js/blocks.js:285-299 | a `::` anywhere stands for the zero groups missing to eight |
| `Ipv6Text.SplitIntoGroups` | public/js/blocks.js:302-304 | the loop yields the eight 16-bit groups of any BigInt |
| `Ipv6Text.AssembleGroupsOf` | public/js/blocks.js:276-277 | reassembling the groups gives the number back, cut to the width |
| `Ipv6Text.GroupsOfAssemble` | public/js/blocks.js:276-277 | every list of 16-bit groups is the list of groups of the number it assembles to |
| `Ipv6Text.AssembleBits` | public/js/blocks.js:276-277 | the loop assembles the groups |
| `Ipv6Text.LongestZeroRun` | public/js/blocks.js:305-311 | one pass finds the leftmost among the longest zero runs (sections 4.2.2 and 4.2.3 of RFC 5952) |
| `Ipv6Text.CompressIPv6` | public/js/blocks.js:301-316 | prints the canonical text of the low 128 bits of any BigInt |
| `Ipv6Text.RenderReadsBack` | public/js/blocks.js:285-316 | whichever zero run is compressed, reading gives back the groups |
| `Ipv6Text.RoundTrip` | public/js/blocks.js:285-316 | the printed text of every number is read back as exactly its eight groups, which assemble to it |
| `Ipv6Text.CanonicalUnique` | public/js/blocks.js:305-315 | the canonical text of an address is unique |
| `Ipv6Text.CanonicalInjective` | public/js/blocks.js:301-316 | distinct addresses have distinct texts |
| `Ipv6Text.GroupsAreShort` | public/js/blocks.js:312-314 | groups have at most four digits and no leading zero |
| `Ipv6Text.Cidr6Range` | public/js/blocks.js:273-283 | null, exception or two canonical texts, and exactly when |
| `Ipv6Text.Cidr6RangeText` | public/js/blocks.js:273-283 | the two texts are read back as the first and last address of the block |
| `Allocator.OverlapsIffShare` | src/utils/cidr.ts:86-94 | testing the two bases decides whether blocks share an address |
| `Allocator.HasOverlap` | src/utils/cidr.ts:143-145 | true exactly when some parsed allocated block overlaps |
| `Allocator.FindNextAvailableSubnet` | src/utils/cidr.ts:127-155 | the lowest aligned free block of the size, or none exists; throws for parents of /31 and /32 |
| `Allocator.UsedAddresses` | src/services/subnetService.ts:117-129 | disjoint rows hold exactly as many distinct addresses as their sizes add up to, all in the parent |
| `Allocator.HealthyFits` | src/services/subnetService.ts:117-129 | disjoint rows inside the parent hold no more addresses than it has |
| `Allocator.AlignUpSpec` | src/utils/cidr.ts:235 | the next multiple of a power of two |
| `Allocator.PackTemplateEntries` | src/utils/cidr.ts:225-244 | each entry starts at the first multiple of its size after the entry before it |
| `Allocator.PackedAscending` | src/utils/cidr.ts:217-244 | entries keep caller order and do not overlap |
| `Allocator.PackedWithin` | src/utils/cidr.ts:239 | every entry lies within the span |
| `Allocator.CeilLog2` | src/utils/cidr.ts:240-242 | the smallest power of two that holds the span |
| `Allocator.PackIntoAnchor` | src/utils/cidr.ts:268-303 | the lowest free region of the effective anchor size, entries laid out from its base |
| `Allocator.AnchorLargeEnough` | src/utils/cidr.ts:281-285 | the effective anchor holds the span exactly when the parent does |
| `Allocator.AnchorSizeIs` | src/utils/cidr.ts:281-289 | the anchor is the least power of two that holds the span and the requested block, cut to the parent |
| `Allocator.RequestedBlocksAreFresh` | src/utils/cidr.ts:259-299 | no row overlaps the block of the requested size around any placed subnet that starts in the parent |
| `Allocator.PlacementInsideIff` | src/utils/cidr.ts:259-299 | all entries, skipped ones included, lie inside the parent if and only if the span does not exceed it |
| `Allocator.TemplatePastParent` | src/utils/cidr.ts:281-299 | a /23 entry in an empty /24 is placed and runs past its end |
| `Allocator.PlacementSound` | src/utils/cidr.ts:289-299 | then every subnet, of a one-entry template too, is aligned, inside the anchor and clear of everything allocated |
| `Allocator.PlacementDisjoint` | src/utils/cidr.ts:289-299 | entries follow one another, and those no larger than the parent never overlap, whatever the span |
| `Allocator.EntryInsideIff` | src/services/subnetService.ts:299-305 | the normalised subnet of an entry lies inside the parent if and only if the entry ends by the parent's size |
| `SubnetRuns.StepKeepsInvIff` | src/services/subnetService.ts:95-143 | with reading and creating as separate steps of overlapping calls, exactly the creates of disjoint subnets of the parent that clash with no row created since the call read keep the rows disjoint |
| `SubnetRuns.CheckMeans` | src/services/subnetService.ts:95-131 | which proposals are taken up, and that a check passes exactly without a clashing row |
| `SubnetRuns.PlanMeans` | src/services/subnetService.ts:288-297 | a bulk call goes on exactly if none of its subnets clashes with a row |
| `SubnetRuns.RowsMean` | src/services/subnetService.ts:131-143 | a create appends exactly its subnets under new ids; aborts and releases touch nothing else |
| `SubnetRuns.RunIsDisjoint` | src/services/subnetService.ts:95-179 | from any disjoint rows, runs of overlapping calls, bulk ones included, and releases keep the rows inside the parent and disjoint if every create is of that kind |
| `SubnetRuns.NeverOversubscribed` | src/services/subnetService.ts:95-179 | such runs never hold more addresses than the parent has |
| `SubnetRuns.UndisturbedIsAllowedIff` | src/services/subnetService.ts:117-131 | a call between whose read and create nothing is created is safe exactly if it creates disjoint subnets of the parent |
| `SubnetRuns.CallsAreSafeIff` | src/services/subnetService.ts:267-313 | however the calls under way go on, the rows stay disjoint if and only if what they claim are subnets of the parent that clash neither with one another nor with newer rows |
| `SubnetRuns.SameRowsSameBlock` | src/services/subnetService.ts:161-170 | two searches of one size in the same rows propose the same block |
| `SubnetRuns.RacingAllocations` | src/services/subnetService.ts:147-179 | two overlapping calls hand out an empty block twice |
| `BulkPlans.TemplateIsTidyIff` | src/services/subnetService.ts:270-305 | a bulk call creates disjoint subnets of the block if and only if every entry not skipped ends by the block's size; with the last entry not skipped, if and only if the span fits |
| `BulkPlans.PlacedPassesCheck` | src/services/subnetService.ts:288-297 | the call's own overlap check never fails in a block of disjoint rows |
| `BulkPlans.WideTemplate` | src/utils/cidr.ts:281-299 | the template /24, /24, /23 in an empty /24 is placed past its end, the last subnet over the second |
| `BulkPlans.WideBulkCall` | src/services/subnetService.ts:267-313 | one bulk call alone creates overlapping subnets outside the block |
| `DependencyLayers.Visit` | src/services/dependencyTreeService.ts:223-233 | one dequeued asset: unseen neighbours get the next layer, the queue stays ordered |
| `DependencyLayers.PhysicalBfs` | src/services/dependencyTreeService.ts:216-235 | layers are exactly the cable distances from the firewalls; unreachable assets get none |
| `DependencyLayers.Prune` | src/services/dependencyTreeService.ts:342-358 | one edge per pair of adjacent layers, of the most physical kind |
| `DependencyLayers.KeptKind` | src/services/dependencyTreeService.ts:342-358 | a pair is kept exactly if an edge joins it down one layer; interface beats LLDP beats controller |
| `DependencyLayers.ComputedGraphIsLayered` | src/services/dependencyTreeService.ts:342-358 | parents taken from pruned edges are always in a lower layer |
| `Suppression.SearchDecidesReachability` | src/services/dependencyTreeService.ts:424-453 | on every graph the search with shared visited set finds a parent ok exactly when an asset in service is reachable through transparent ones |
| `Suppression.SortIsSorted` | src/services/dependencyTreeService.ts:408-412 | the sort is a permutation in layer order |
| `Suppression.LayersAscend` | src/services/dependencyTreeService.ts:408-412 | lower layers come first and assets without one last |
| `Suppression.SortIsStable` | src/services/dependencyTreeService.ts:408-412 | assets of one layer keep their order |
| `Suppression.ParentCounts` | src/services/dependencyTreeService.ts:424-451 | when a parent counts as in service, in all four cases |
| `Suppression.AllDown` | src/services/dependencyTreeService.ts:371-374 | with monitored parents: suppressed exactly if there is one and each is down, suppressed or under test |
| `Suppression.DecideMeaning` | src/services/dependencyTreeService.ts:418-454 | an asset's turn sets the flag the others' flags call for |
| `Suppression.DecideNext` | src/services/dependencyTreeService.ts:405-455 | deciding in layer order keeps earlier flags right |
| `Suppression.EvaluateSuppression` | src/services/dependencyTreeService.ts:396-458 | one pass over the assets in layer order; on layered graphs it makes every flag right at once |
| `Suppression.SolutionUnique` | src/services/dependencyTreeService.ts:371-377 | on layered graphs the right flags are unique |
| `Suppression.UnlayeredPassIsStale` | src/services/dependencyTreeService.ts:376-377 | without layering the single pass can leave a wrong flag |
| `SuppressionPass.OnePassSufficesIff` | src/services/dependencyTreeService.ts:405-455 | the pass is right under every health of the assets if and only if no path of parents leads to an asset decided later whose flag can matter |
| `SuppressionPass.OnePassSufficesIffNoStaleEdge` | src/services/dependencyTreeService.ts:405-455 | without self-edges: if and only if each edge to an asset decided later has an unknown parent at its start, or none or an unknown one at its end |
| `SuppressionPass.WrongIsStale` | src/services/dependencyTreeService.ts:417-455 | a wrong flag after the pass comes from such a path, on any graph |
| `SuppressionPass.StaleBreaks` | src/services/dependencyTreeService.ts:417-455 | with the end of the path up, the way unmonitored and all else down, the start keeps a wrong flag |
| `SuppressionPass.SuppressMonotone` | src/services/dependencyTreeService.ts:447-454 | more flags never unsuppress an asset |
| `SuppressionPass.PassFinal` | src/services/dependencyTreeService.ts:414-455 | each flag is set in its turn, from the flags before it, and stays |
| `IpHistory.HistorySummarises` | src/db.ts:169-206 | one row per (asset, ip): latest source and lastSeen, firstSeen of the current source's stretch, id of the first sighting |
| `IpHistory.FirstNotAfterLast` | src/db.ts:189-195 | firstSeen <= lastSeen when times do not decrease |
| `SourceRows.SourcesSummarise` | src/db.ts:119-158 | each source row field by field: created blob and firstSeen, conjunction of inferred, last named integration, latest asset |
| `StatusClamp.WriteKeepsQuietIff` | src/db.ts:239-249 | exactly which writes keep a terminal asset unmonitored |
| `StatusClamp.TerminalStatusWins` | src/db.ts:239-249 | a terminal status wins over monitored true in the same write, in either form |
| `StatusClamp.WriteMeans` | src/db.ts:239-249 | every field after a write: a terminal status clears two of them, any other write keeps what it asked for |
| `StatusClamp.OpMeans` | src/db.ts:255-326 | which rows each hooked operation touches |
| `StatusClamp.RunKeepsTerminalQuiet` | src/db.ts:227-326 | every disciplined run of hooked writes keeps terminal assets unmonitored with no failures |
| `StatusClamp.UndisciplinedWriteBreaks` | src/db.ts:241 | a write of monitored alone breaks it |
| `AssetStore.Store.RecordIp` | src/db.ts:259-264 | which writes record which sighting |
| `AssetStore.SightingIsRecorded` | src/db.ts:259-264 | which writes leave which history row, with "manual" as the default source, and no other row |
| `AssetStore.IssuedMeans` | src/db.ts:119-158 | the source upserts that go through are those of the derived sources that do not fail |
| `AssetStore.Store.ShadowWrite` | src/db.ts:91-159 | one upsert per derived source, failures skipped, in order |
| `AssetStore.Store.Create` | src/db.ts:255-272 | clamped create, sighting, source rows |
| `AssetStore.Store.Update` | src/db.ts:273-299 | clamped update, sighting, source rows only if touched |
| `AssetStore.Store.UpdateMany` | src/db.ts:300-307 | clamped update of many, nothing else |
| `AssetStore.Store.Upsert` | src/db.ts:308-326 | both branches clamped, no sighting, source rows only if touched |
| `HttpsManager.StopKeepsInv` | src/httpsManager.ts:155-171 | stopping leaves nothing listening and no cached certificate |
| `HttpsManager.StartKeepsInv` | src/httpsManager.ts:119-153 | starting keeps a single listener and a truthful cache |
| `HttpsManager.ApplyKeepsInv` | src/httpsManager.ts:44-117 | each call keeps one listener at most and the cache null or correct |
| `HttpsManager.RunKeepsInv` | src/httpsManager.ts:44-171 | so does every run of calls |
| `HttpsManager.EveryRunIsSafe` | src/httpsManager.ts:190-201 | in every run the fingerprint is absent or that of the served certificate |
| `HttpsManager.AwaitPointsAreSafe` | src/httpsManager.ts:44-171 | the same at every await inside a call |
| `HttpsManager.PortAgreesIff` | src/httpsManager.ts:44-117 | after a call that read the settings the bound port is `httpsPort` exactly unless resolving certificates threw under a changed port or the settings ask for port 0 |
| `HttpsManager.PortAgreesAfterRunIff` | src/httpsManager.ts:44-117 | after every run the port agrees if and only if the last call that read the settings did neither |
| `HttpsManager.ResolvedPortAgrees` | src/httpsManager.ts:210-213 | the port agrees after every call that resolves, unless it started a server on port 0 |
| `HttpsManager.PortDisagrees` | src/httpsManager.ts:44-58 | a run after which the bound port and `httpsPort` differ |
| `HttpsManager.PortZeroDisagrees` | src/httpsManager.ts:119-153 | settings with port 0 leave the two different |
| `HttpsManager.FingerprintLostIff` | src/httpsManager.ts:94-113 | a call that acts on the server loses the fingerprint exactly when it restarts it; any other call changes nothing about it |
| `HttpsManager.FingerprintLostAfterRunIff` | src/httpsManager.ts:94-113 | after every run a listening server lacks its fingerprint if and only if the last call that acted restarted it |
| `HttpsManager.ServedIs` | src/httpsManager.ts:44-117 | whether a server listens after a call, with which port, and that it serves the certificate of this call |
| `HttpsManager.ServedAfterRun` | src/httpsManager.ts:44-117 | after every run a listening server serves the certificate of the last call that acted |
| `HttpsManager.OutcomeIs` | src/httpsManager.ts:44-117 | when a call throws, and that it reports success exactly if HTTPS is disabled or a server listens |
| `HttpsManager.RedirectsAreSound` | src/httpsManager.ts:31-42 | after every run requests are redirected only to a listening server, and the port is right exactly if `httpsPort` is |
| `HttpsManager.RedirectChoiceIs` | src/httpsManager.ts:44-117 | the redirect choice after a call, in all cases |
| `HttpsManager.RedirectFollowsSettingsIff` | src/httpsManager.ts:94-116 | redirecting follows the settings except after a port change |
| `HttpsManager.PortChangeLosesState` | src/httpsManager.ts:94-103 | a port change after which the server listens without fingerprint and redirects against the settings |
| `HttpsManager.ReloadRepairsFingerprint` | src/httpsManager.ts:94-106 | a hot reload keeps the server and restores the fingerprint |
| `HttpsManager.Manager.StopHttps` | src/httpsManager.ts:155-171 | one stop |
| `HttpsManager.Manager.StartHttps` | src/httpsManager.ts:119-153 | one start, with its failures |
| `HttpsManager.Manager.ApplyHttps` | src/httpsManager.ts:44-117 | one call, keeping the invariant |
| `HttpsManager.Manager.UseCertificate` | src/httpsManager.ts:93-116 | hot reload, restart or start once there is a certificate |
| `TopologyOverlay.ChainPlaces` | public/js/map.js:967-977 | each node of the chain is in its own row, 160 below the previous |
| `TopologyOverlay.OverlayShowsColumn` | public/js/map.js:950-977 | the hops show as a column, firewall on top at its own x, endpoint at the bottom |
| `TopologyOverlay.OverlayColumnWithoutTop` | public/js/map.js:967-977 | without the firewall in the graph the column stands at x = 0 |
| `TopologyOverlay.OverlayShows` | public/js/map.js:884-948 | what is on screen under an overlay: the synthetic endpoint and its edge to the second hop, and dimmed exactly what is no hop, not that edge and joins no two hops |
| `TopologyOverlay.OverlayComesAndGoes` | public/js/map.js:884-1025 | a search puts up its overlay, "Show full site" takes it down with everything dimmed or synthetic |
| `TopologyOverlay.ChainUndone` | public/js/map.js:948-1008 | undimming and restoring undoes dimming and chaining |
| `TopologyOverlay.ExtensionUndone` | public/js/map.js:1009-1020 | removing the synthetic edge and endpoint undoes adding them |
| `TopologyOverlay.OverlayKeepsBase` | public/js/map.js:884-1025 | clearing after an overlay gives back exactly the graph before it |
| `TopologyOverlay.OverlayUndoneIff` | public/js/map.js:884-1025 | and does so if and only if the synthetic edge id is not in use |
| `TopologyOverlay.DragOnBase` | public/js/map.js:1179-1191 | a drag changes the graph underneath only for a node outside the chain |
| `TopologyOverlay.DragIsSaved` | public/js/map.js:1179-1191 | a drag without overlay is what the next save stores; under an overlay none is scheduled |
| `TopologyOverlay.RunKeepsBase` | public/js/map.js:884-1025 | after any run of overlays, clears, drags and saves whose edge ids do not clash with the graph, one clear gives back every element not itself dragged |
| `TopologyOverlay.OverlaysAreUndone` | public/js/map.js:884-1025 | without drags one clear restores the very graph |
| `TopologyOverlay.SaveCleanIff` | public/js/map.js:557-563 | saving what is on screen stores a clean layout exactly when no chained node has left its position |
| `TopologyOverlay.FreshSaveCleanIff` | public/js/map.js:950-977 | a save under a fresh overlay is clean if and only if every hop of the graph underneath already sits in its slot |
| `TopologyOverlay.CloseIsClean` | public/js/map.js:1049-1062 | closing stores every node underneath at its own position and, besides them, exactly the nodes only there for the overlay |
| `TopologyOverlay.PatientRunsStoreCleanly` | public/js/map.js:1179-1191 | if no overlay starts with a save pending, every save stores exactly the positions underneath |
| `TopologyOverlay.PendingSaveStoresChain` | public/js/map.js:1187-1190 | with a save pending, one can |
| `TopologyOverlay.TopologyView.ClearConnectionPathOverlay` | public/js/map.js:995-1025 | one clear |
| `TopologyOverlay.TopologyView.StackNodes` | public/js/map.js:974-977 | the loop that stacks the path nodes |
| `TopologyOverlay.TopologyView.ApplyConnectionPathOverlay` | public/js/map.js:884-991 | one overlay |
| `TopologyOverlay.TopologyView.OnDragFree` | public/js/map.js:1179-1191 | one drag; no save is scheduled under an overlay |
| `TopologyOverlay.TopologyView.OnSaveTimer` | public/js/map.js:742-753 | one save, or nothing once the site is closed |
| `TopologyOverlay.TopologyView.CloseTopology` | public/js/map.js:1049-1088 | restores, stores a clean layout and closes the site |
| `RegionEdit.StepKeepsWellFormed` | public/js/map.js:1554-1713 | what every step of every run keeps: keys, sessions and fresh ids |
| `RegionEdit.StepKeepsInvIff` | public/js/map.js:1554-1713 | from agreement with matching PUTs, exactly the allowed steps keep it: no edit or entry that parts a polygon from a live PUT, no write of a table gone stale for a settled polygon |
| `RegionEdit.PersistKeepsGoodIff` | src/services/mapRegionService.ts:310-339 | a write keeps agreement exactly if what it read of the other regions on screen is still right |
| `RegionEdit.RunKeepsInv` | public/js/map.js:1554-1713 | so does every allowed run, whatever is discarded, saved again, renamed, created or deleted meanwhile |
| `RegionEdit.QuietRunsAgree` | public/js/map.js:1554-1713 | with no vertex edit of a region whose PUT waits, no entry while a PUT waits and no write of a table changed since it was read, a clean polygon's displayed, saved and server shapes agree, whatever PUTs fail and in whatever order they return |
| `RegionEdit.UninterruptedIsUpToDate` | src/services/mapRegionService.ts:314-339 | a request between whose read and write nothing else writes is up to date |
| `RegionSteps.EnterShows` | public/js/map.js:1554-1587 | entering shows exactly the regions of three vertices or more, clean, in a new session |
| `RegionSteps.EditShows` | public/js/map.js:1706-1712 | an edit changes and marks one polygon |
| `RegionSteps.SaveSendsDirty` | public/js/map.js:1594-1609 | one PUT for each dirty polygon with the shape shown, no other |
| `RegionSteps.AskSends` | public/js/map.js:1822-1847 | other changes become one request each |
| `RegionSteps.LoadReads` | src/services/mapRegionService.ts:314-316 | a request reads the table as it is, or is answered 404 |
| `RegionSteps.WriteStores` | src/services/mapRegionService.ts:286-358 | what each kind of write makes of the table it read, and what the page then shows |
| `RegionSteps.AnswerSaves` | public/js/map.js:1609-1611 | a successful answer cleans the polygon it was sent for, keeps what it shows, and touches no other |
| `RegionSteps.SaveEnds` | public/js/map.js:1618-1624 | an answered save closes the session unless a PUT failed |
| `RegionSteps.FailureCounts` | public/js/map.js:1612-1616 | a failed answer counts against its own save only |
| `RegionSteps.DiscardEnds` | public/js/map.js:1630-1648 | discard ends the session and asks nothing of the server |
| `RegionRaces.AgreementLastsIff` | src/services/mapRegionService.ts:310-339 | agreement lasts whatever server and network do and however often the operator saves, if and only if live PUTs carry the shapes shown and nothing under way or to be saved can race |
| `RegionRaces.SaveIsSafeIff` | public/js/map.js:1594-1617 | with nothing under way, saving is safe under every schedule if and only if at most one polygon is dirty or none changes its region |
| `RegionRaces.CalmRunsAreAllowed` | public/js/map.js:1594-1648 | in a race-free state everything the server and the network can do is allowed |
| `RegionRaces.RacyBreaks` | src/services/mapRegionService.ts:310-339 | outside race freedom some schedule ends in disagreement |
| `RegionRaces.TwoPutsBreak` | public/js/map.js:1607-1617 | two dirty polygons, one of them changed: one PUT of the save can undo the other |
| `RegionRaces.EarlyReadBreaks` | public/js/map.js:1822-1847 | a rename, recolour, create or delete that reads before an edit is stored can undo it |
| `RegionRaces.CreationLost` | src/services/mapRegionService.ts:286-308 | a region created while another request holds an older table can vanish |
| `RegionAtomic.SerialRunsAreAtomic` | src/services/mapRegionService.ts:310-339 | a run whose writes do not interleave is, but for the tables read, a run of a server that reads and writes at once |
| `RegionTable.AllStoredIff` | src/services/mapRegionService.ts:310-339 | a schedule of concurrent PUTs stores every shape if and only if each write survives or changes nothing |
| `RegionTable.AllSurviveIffSerial` | src/services/mapRegionService.ts:310-339 | all writes of a schedule survive if and only if the server handles the PUTs one after the other |
| `RegionTable.EveryScheduleStoresIff` | public/js/map.js:1607-1617 | every schedule stores everything if and only if at most one PUT is sent or none changes its region |
| `RegionTable.LosingSchedule` | public/js/map.js:1607-1617 | with two or more PUTs, each that changes its region has a schedule that loses it |
| `RegionTable.SessionFollows` | src/services/mapRegionService.ts:310-339 | the session's own read and write steps leave the very table computed for the schedule |
| `RegionTable.LostUpdate` | src/services/mapRegionService.ts:314-339 | two PUTs that both read before either writes: one is lost |
| `RegionOutcome.PutAgreesIff` | public/js/map.js:1609-1611 | a successful answer leaves the polygon clean, and in agreement exactly if it was not edited since and the server still has its shape |
| `RegionOutcome.SavedIsLastSaved` | public/js/map.js:1630-1645 | in every run `saved` is the shape last loaded, created or reported as saved |
| `RegionOutcome.ServerHas` | src/services/mapRegionService.ts:310-339 | when writes do not interleave, the server has the shape last stored without confirmation, else the last saved one |
| `RegionOutcome.DiscardShowsLastSavedIff` | public/js/map.js:1626-1648 | in every run discard shows the last saved shape exactly if the polygon was dirty or showed it already |
| `RegionOutcome.DiscardReturnsToLastSaved` | public/js/map.js:1626-1648 | in every allowed run discard returns each polygon to its last saved shape; if writes do not interleave the server has it too, unless it stored another without confirmation |
| `RegionSave.AnswersTakeEffect` | public/js/map.js:1607-1617 | the effect of the reads, writes and answers of one save on the page, in any interleaving |
| `RegionSave.SaveOutcome` | public/js/map.js:1594-1624 | dirty or not, a save without failures ends the session; otherwise still editing with exactly the failed ones dirty; and if no stale table was written, the server has every shape of a save without failures |
| `RegionSave.EmptySaveOutcome` | public/js/map.js:1600-1604 | with nothing dirty the session ends at once, without request, save or change at the server |
| `RegionSave.SafeSaveStores` | public/js/map.js:1594-1624 | with at most one dirty polygon, or none that changes, a save without failures has stored every shape under every schedule |
| `RegionRuns.EditInFlightIsLost` | public/js/map.js:1607-1613 | a run in which an edit during a PUT ends up clean and unsaved |
| `RegionRuns.StaleSession` | public/js/map.js:1607-1622 | discard and re-entry during a PUT: a clean polygon disagrees, and the old save closes the new session |
| `RegionRuns.LostAnswer` | public/js/map.js:1612-1616 | a stored PUT whose answer is lost leaves discard and server apart |
| `RegionRuns.RacingSave` | public/js/map.js:1607-1617 | a reachable state in which saving two edited regions can leave one clean and unsaved |
| `RegionPage.RegionSession.EnterRegionEditMode` | public/js/map.js:1554-1587 | loads the server's drawable shapes clean |
| `RegionPage.RegionSession.OnVertexEdit` | public/js/map.js:1706-1712 | marks the polygon dirty |
| `RegionPage.RegionSession.CollectDirty` | public/js/map.js:1595-1599 | exactly the dirty polygons with their shapes |
| `RegionPage.RegionSession.BeginSaveRegions` | public/js/map.js:1594-1608 | a save with nothing dirty ends the session |
| `RegionPage.RegionSession.OnAnswer` | public/js/map.js:1609-1616 | one answered PUT, acting on the polygon it was sent for |
| `RegionPage.RegionSession.FinishSaveRegions` | public/js/map.js:1618-1624 | tears down whatever session is current, unless something failed |
| `RegionPage.RegionSession.RevertDirty` | public/js/map.js:1630-1645 | the loop reverts exactly the dirty polygons |
| `RegionPage.RegionSession.DiscardRegions` | public/js/map.js:1630-1648 | reverts and ends the session |
| `RegionPage.RegionSession.SendPuts` | public/js/map.js:1607-1609 | one PUT for each dirty polygon |
| `RegionPage.RegionSession.LoadAll` | src/services/mapRegionService.ts:314-316 | the read of a request, with its 404 |
| `RegionPage.RegionSession.PersistAll` | src/services/mapRegionService.ts:331-339 | the write of a request over whatever the table is then |
| `Csv.CellReadsBack` | public/js/app.js:1067-1073 | whatever a cell holds, the reader takes exactly that cell |
| `Csv.PlainCellIff` | public/js/app.js:1067-1073 | a cell is written as it is exactly if it has neither comma, quote nor line feed |
| `Csv.RowReadsBack` | public/js/app.js:1066-1074 | the same for a row |
| `Csv.ExportReadsBack` | public/js/app.js:1052-1074 | every table is read back, with absent cells read as empty ones |
| `Csv.ExportRoundTrip` | public/js/app.js:1052-1074 | the reader recovers header and rows if and only if there is a row and no row is empty |
| `Csv.EmptyExport` | public/js/app.js:1053-1054 | an export without rows is read back with one record too many |
| `Csv.ExportInjective` | public/js/app.js:1052-1074 | two tables share a text if and only if they differ at most in absent against empty cells |
| `Tags.GetTagFieldValue` | public/js/app.js:1502-1519 | checked names, then the preserved ones not among them |
| `Tags.SavedProtected` | public/js/app.js:1502-1519 | the protected part of the saved value is the preserved list without repeats |
| `Tags.ProtectedTagsSurvive` | public/js/app.js:1391-1395 | over any run of toggles and added tags the saved protected tags are those of the record |
| `Tags.RenderedSelection` | public/js/app.js:1408-1439 | rendering checks exactly the selected, unprotected, defined tags |
| `Tags.EveryTagHasItsChip` | public/js/app.js:1408-1439 | each defined unprotected tag has one chip per definition, and no other tag has one |
| `Tags.ChipsByCategory` | public/js/app.js:1408-1439 | chips stand in groups, in the sorted order of the categories, tags without one under "General" |
| `Tags.ToggleMeans` | public/js/app.js:1408-1439 | a click flips one chip |
| `Tags.AddTagMeans` | public/js/app.js:1548-1570 | after a tag is added the checked boxes are those checked before and the new one, unless protected |
| `Tags.RunsAreConsistent` | public/js/app.js:1391-1570 | in every run each chip is of a defined unprotected tag and what is preserved is protected |
| `Tags.UntouchedSaveKeepsTagsIff` | public/js/app.js:1441-1519 | an untouched save keeps the tags exactly if the unprotected ones are all defined |
| `Tags.UndefinedTagIsDropped` | public/js/app.js:1441-1519 | an undefined tag is gone after an untouched save |
| `MacAudit.AuditIsIdempotent` | scripts/audit-multi-mac-assets.ts:60-109 | a second run prunes nothing, for any containment test |
| `MacAudit.JudgementIs` | scripts/audit-multi-mac-assets.ts:60-92 | which assets are pruned, which go to review and which are left alone |
| `MacAudit.NewPrimaryOnSubnet` | scripts/audit-multi-mac-assets.ts:105-109 | the new primary MAC is on a subnet that contains the IP |
| `MacAudit.PruneKeepsOrder` | scripts/audit-multi-mac-assets.ts:76-109 | kept entries stay in order and the primary is the first of them |
| `MacAudit.PruneIsAccountedFor` | scripts/audit-multi-mac-assets.ts:76-91 | no MAC is kept and dropped; every entry is kept, dropped or shares a kept MAC |
| `MacAudit.SilentLossIff` | scripts/audit-multi-mac-assets.ts:76-91 | an entry vanishes unlisted exactly if it is off the subnet and another entry with its MAC is on it |
| `MacAudit.SilentLoss` | scripts/audit-multi-mac-assets.ts:76-91 | an asset that loses one so |
| `MacAudit.CollectActions` | scripts/audit-multi-mac-assets.ts:69-92 | one prune action for each asset the audit changes |
| `MacAudit.RunAudit` | scripts/audit-multi-mac-assets.ts:55-128 | every asset ends as audited, no other row changes |
| `Favorites.ToggleSyncedIff` | public/js/favorites.js:29-38 | a toggle keeps cache and storage in step exactly if its write succeeds |
| `Favorites.ToggleMeans` | public/js/favorites.js:29-38 | a toggle flips one id, keeps the others in order and touches no other list |
| `Favorites.GetMeans` | public/js/favorites.js:13-23 | a read answers the cached list, else the stored one without repeats |
| `Favorites.RunKeepsSynced` | public/js/favorites.js:13-38 | while writes succeed every cached set equals a reload |
| `Favorites.FavoriteStore.GetFavorites` | public/js/favorites.js:13-23 | the cached set, else the stored one without repeats |
| `Favorites.FavoriteStore.ToggleFavorite` | public/js/favorites.js:29-38 | one toggle and its answer |
| `Favorites.SortFavoritesFirst` | public/js/favorites.js:50-60 | favourites, then the rest |
| `Favorites.FavoritesFirstIsStable` | public/js/favorites.js:50-60 | a stable permutation with favourites in front |
| `Favorites.PagesCover` | public/js/blocks.js:128-130 | the pages one after the other show every row exactly once |

## Left out

- Rendering, drag geometry, Leaflet and Cytoscape internals: only the state they update is modelled; Cytoscape's id and removal rules are as documented for that library.
- Prisma, PostgreSQL, Node TLS and certificate parsing: parameters or atomic steps; deletion of assets with its cascades is not a step.
- The second pass of `assignLayers` (controller fallback and chain detection), `buildDependencyEdgesFromInputs` and the override rows: the breadth-first pass, the pruning and the evaluation are modelled.
- The Netmask library: a parsed block is its aligned base and prefix; invalid parent text is not modelled.
- Malformed IPv6 text: what the lenient parser makes of several `::` or stray characters is modelled but nothing is claimed about it.
- Floating-point rounding in `Math.log2` and in page counts: integer arithmetic is used.
- A strict RFC 4180 reader with CRLF records: the source does not quote a carriage return, and the reader here treats it as data.
- Overlapping calls of `applyHttps`: the theorems are about runs without them.
- The wait for the region list, and the answers to a rename, create or delete: entering is one step, and such a request is answered in the step that writes the table. One whose answer is lost is not a step. A PUT answered with a failure does not write later. Other operators' sessions are not modelled; their writes are those of further requests.
- A shape the server rejects is a failed answer.
- Addresses past 255.255.255.255, which `intToIp` wraps around: a template that runs past the end of a block at the top of the address space is placed beyond it here.
- Row locks that PostgreSQL takes inside one statement, and isolation levels other than the default: a bulk call's rows become visible at its commit.
- Manufacturer normalisation, DNS reservation reconcile and the MIB hooks of src/db.ts: thin calls into other services.
- Sample buffers, monitoring state machines, integrations, agents and reservations: other services, not modelled.
