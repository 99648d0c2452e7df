# Tarpan routing core, modelled in Dafny

Tarpan is a fork of the Quagga routing suite. This project models its two routing cores and proves what they are
relied on for: the Babel daemon (`babeld/`), a loop-avoiding distance-vector protocol (RFC 6126), and the parts of
the BGP daemon (`bgpd/`) that keep multipath sets, AS paths and interned attributes. `dafny verify dfyconfig.toml`
checks the whole project.

## The modules

Babel:

- `SeqNo`: the 16-bit circular sequence numbers, and when they agree with integers.
- `Selection`: what `update_route`, `consider_route`, `route_changed`, `route_lost` and the metric changes do to the
  routes of one prefix, as functions, and what each of them keeps.
- `Network`, `LoopFreedom`: any number of routers running that selection over a channel that loses, duplicates,
  delays and reorders updates, with links that change cost and routes that are retracted or flushed at any time. The
  invariant says that updates in flight and table entries never claim more than the feasibility distance of the router
  they came from, that distances never get worse along installed next hops, and that there is no cycle. The main theorem
  is `LoopFreedom.LoopFree`.
- `Wrapping`, `Windows`: the same with 16-bit sequence numbers (`Wrapping.LoopFree16`), on every run that increments
  sequence numbers fewer than 32768 times (`Windows.CountedLoopFree16`).
- `StrictDescent`: where no free route is advertised, distances strictly improve along installed next hops;
  a free one can make them tie.
- `Announcers`: what packets do, whatever the source of the route they follow.
- `Revival`, `Ageing`: the two ways in which a run of that network can loop, each with a run that does (their common
  start is `Scenario`) and with the exact condition.
- `RouteList`: the linked lists of routes, changed in place by the same branches as in `babeld/route.c`, proved to
  compute the functions of `Selection`.
- `Slots`, `RouteTable`: the array of list heads, sorted by prefix, with binary search, shifting, growing and shrinking;
  the sources with their reference counts; and the flush and expiry loops. `Slots` has the table as a value, `RouteTable`
  the array and the lists, which every method keeps in agreement with it.
- `Wire`, `Packets`, `SendBuffer`: update compression. The sender leaves out next hop, router-id and leading prefix
  bytes that the receiver can remember; the buffer is flushed whenever it fills up. Every packet can be understood
  alone, and receiving the packets means what was put into them.
- `FlushUpdates`, `Flushing`: which buffered prefixes are announced, and that whoever receives the packets of a flush has
  heard exactly what the buffered prefixes call for.
- `TokenBucket`: how many packets may leave.

BGP:

- `MultipathOrder`, `Multipath`, `MultipathUpdate`: the order of equal-cost paths, the greedy selection among them, and
  the parallel walk that relinks the old doubly linked chain into the new one in place.
- `AsPath`, `AsPathMeaning`: the normal form of AS paths and what it decides.
- `AsPathWire`, `AsPathStream`, `AsPathText`, `AsPathReconcile`: the byte and text formats, both ways, and the
  reconciliation of AS_PATH with AS4_PATH.
- `AttrIntern`, `AttrStore`: hash-consed attributes with nested reference counts.

`Basics` holds the few types and functions that several modules share.

Functions state what is computed; methods with loops, arrays and linked objects follow the program's own form and are
proved against them.

## Where a promise does not hold

In each case the model does what the code does; one member gives a concrete input and another one the exact condition.

- Loop freedom fails when `consider_route` installs a retracted route, because nothing else is installed
  (`babeld/route.c:839-840`), and an unfeasible update of the same source then revives it
  (`babeld/route.c:724-742`): `Revival.RevivalCanLoop`, `Revival.RevivalSafeExactly`.
- It fails when a source has aged out: any update then counts as feasible (`babeld/route.c:572-574`), so a router may
  install a route that leads back to it, and the next advertisement may replace the record by a worse one
  (`babeld/source.c:134-140`): `Ageing.LateUpdateCanLoop`, `Ageing.LateAdvertisementCanLoop`,
  `Ageing.AgeingSafeExactly`, `LoopFreedom.SendImprovesExactly`. Sources that are merely old, and neither decide an
  installation nor are advertised worse, do no harm.
- Loop freedom is about the routes of one source. Packets follow the installed route of their prefix and can loop as soon
  as two routers announce it: `Announcers.TwoLoop`, `Announcers.PacketsSafeExactly`.
- The descent of distances need not be strict: a router that advertises a free route can be left exactly as far from the
  source as its next hop (`StrictDescent.FreeRouteCanTie`). An advertisement keeps the descent strict in every network
  exactly when its route is retracted or costs something: `StrictDescent.StrictExactly`. Loop freedom does not need it.
- Sequence number comparison agrees with integers up to and including half the circle in one direction only:
  `SeqNo.AntipodesBothNewer`, `SeqNo.CompareAgreesExactly`.
- A packet is understood exactly when the prefixes in it are masked: `Packets.UnmaskedExists`, `Packets.UnmaskedLost`,
  `Packets.RoundTripExactly`.
- A burst can be twice the capacity of the token bucket, and no more: `TokenBucket.BurstIsTwiceTheCapacity`,
  `TokenBucket.GrantedInAnyWindow`.
- Retractions are not deduplicated by `flushupdates`: `FlushUpdates.RetractedTwice`. `FlushUpdates.Flush` says for every
  prefix how often it is sent.
- The next hop comparison of multipath candidates is not transitive: `MultipathOrder.NotTransitive`,
  `MultipathOrder.TransitiveExactly`. The best path's own next hop can be chosen again: `Multipath.BestRepeated`,
  `Multipath.RepeatsExactly`.
- Equal AS paths can compare different when one contains an empty AS_SEQUENCE:
  `AsPathMeaning.EmptySequenceHidesEquality`, `AsPathMeaning.MeaningExactly`.
- Long segments do not survive the wire, because every full piece repeats the first 255 numbers: `AsPathWire.LostAt511`,
  `AsPathWire.RoundTripExactly`. The byte count returned is wrong beyond 510 numbers: `AsPathStream.MiscountedAt511`,
  `AsPathStream.CountedAllExactly`.
- Reconciliation can lengthen a path when a confederation sequence falls across the cut:
  `AsPathReconcile.LengthenedAtConfed`, `AsPathReconcile.ReconcileHops`.

## Model

| member | source | states |
|---|---|---|
| SeqNo.CompareAgreesExactly | babeld/util.h:69-76 | Comparing 16-bit residues gives the sign of the integer difference exactly when the first number is less than half the circle behind and at most half of it ahead |
| SeqNo.CompareAntisymmetricExactly | babeld/util.h:69-76 | Swapping the operands negates the comparison exactly when the numbers are not opposite on the circle |
| SeqNo.AntipodesBothNewer | babeld/util.h:69-76 | Opposite numbers: each counts as newer than the other |
| SeqNo.MinusAgrees | babeld/util.h:78-82 | Subtracting residues gives the integer difference for numbers less than half the circle apart |
| SeqNo.PlusAgrees | babeld/util.h:84-88 | Adding to a residue gives the residue of the sum |
| Selection.OnlyHeadInstalled | babeld/route.c:139-148 | In a well-formed list the installed route, if any, is the head, so looking at the head finds it |
| Selection.SwitchIs | babeld/route.c:435-466 | Whatever leaves the routes alone, moves the new one to the front and makes it the only installed one is switch_routes |
| Selection.SwitchReselects | babeld/route.c:435-466 | Switching to a feasible route keeps the list well formed, installs exactly that route and changes nothing else |
| Selection.ConsiderReselects | babeld/route.c:821-860 | consider_route installs only feasible routes and leaves routes and sources otherwise unchanged |
| Selection.ConsiderInstallsRetracted | babeld/route.c:821-860 | consider_route installs a retracted route exactly when nothing is installed and no exported route stands in the way |
| Selection.RouteChangedReselects | babeld/route.c:943-965 | route_changed only reselects: feasible routes are installed, everything else stays |
| Selection.RouteLostReselects | babeld/route.c:968-983 | route_lost only reselects |
| Selection.WrittenEvolves | babeld/route.c:717-752 | An update of a known route stores its numbers, keeps all sources, and keeps the route installed only if it was installed for the same source or the update is feasible |
| Selection.AcceptEvolves | babeld/route.c:670-795 | Whatever update_route leaves in the table was there before, or comes from the update, or is retracted; what it newly installs is feasible |
| Selection.UpdateRouteMetricEvolves | babeld/route.c:609-632 | A changed link cost keeps every route's sequence number and reference metric, or retracts it; newly installed routes are feasible |
| Selection.RetractEvolves | babeld/route.c:496-500 | Retracting a route keeps all others and installs only feasible ones |
| Selection.UnlinkEvolves | babeld/route.c:211-260 | Removing a route keeps the rest of the list well formed and unchanged |
| Selection.UninstallEvolves | babeld/route.c:413-429 | Uninstalling keeps every route and source |
| Selection.AcceptKnownUsers | babeld/route.c:717-752 | After an update of a known route, that route refers to the update's source and every other reference is as before |
| Selection.AcceptNewUsers | babeld/route.c:753-793 | A new route refers to the update's source and no other reference changes |
| Selection.UpdatedIsAccept | babeld/route.c:670-795 | What the route table's update_route leaves is the network model's update, followed by route_lost exactly when an unfeasible update of another source took over the installed route |
| Network.UpdateRouteAsEvents | babeld/route.c:744-752 | update_route as a whole is one delivery of the network model, followed by a loss event when one is due |
| Network.FlushRouteAsEvents | babeld/route.c:211-260 | flush_route as a whole is one flush event, followed by a loss event exactly when the route was installed |
| LoopFreedom.UpdateSourceImproves | babeld/source.c:128-146 | Unless it worsens an aged record, advertising keeps or improves the distance of a source and makes it at least as good as what is advertised |
| LoopFreedom.UpdateSourceExactly | babeld/source.c:128-146 | A feasibility distance is kept or improved exactly when nothing finite is advertised, the source has not aged out, or what is advertised is as good |
| LoopFreedom.SendImprovesExactly | babeld/message.c:1004-1060 | Flushing an update keeps every feasibility distance from getting worse exactly when it does not advertise something finite that is worse than an aged record |
| LoopFreedom.FreshGuarded | babeld/route.c:565-582 | A router none of whose sources has aged out meets both hypotheses on ageing, whatever it does |
| LoopFreedom.PathDescends | babeld/route.c:565-582 | Along a path of next hops feasibility distances never get worse |
| LoopFreedom.CycleHasNoStrictEdge | babeld/route.c:565-582 | A cycle of next hops could not contain a single strict improvement |
| LoopFreedom.KeepsAcyclic | babeld/route.c:565-582 | A step that installs only strictly better next hops creates no cycle |
| LoopFreedom.StepKeepsInv | babeld/route.c:565-582 | The invariant (truthful updates in flight, truthful tables, distances that never get worse along next hops, no cycle) survives every step that changes one router as described |
| LoopFreedom.LocalIsLocalStep | babeld/route.c:670-795 | Every local event (update, loss, cost change, retraction, flush) is such a step, unless it newly installs a finite route that does not beat its source, or revives a retracted one |
| LoopFreedom.SendIsLocalStep | babeld/message.c:1004-1060 | Advertising the installed route, with its call of update_source, is such a step, unless it worsens an aged record |
| LoopFreedom.NextInv | babeld/route.c:565-582 | One event keeps the invariant and worsens no feasibility distance |
| LoopFreedom.RunInv | babeld/source.c:128-146 | Over every run, under loss, duplication, delay and reordering, the invariant holds and feasibility distances only improve |
| LoopFreedom.LoopFree | babeld/route.c:565-582 | No reachable state has a loop of installed finite routes for one source, on any run whose steps neither newly install a finite route that does not beat its source, nor worsen an aged record, nor revive a retracted route |
| LoopFreedom.FreshRunLoopFree | babeld/route.c:571-574 | In particular on every run in which no stepping router has an aged source and no retracted route is revived |
| LoopFreedom.CleanRunLoopFree | babeld/route.c:821-860 | If no retracted route is ever installed there is not even a cycle through retracted routes |
| Revival.RevivalSafeExactly | babeld/route.c:717-743 | Accepting an update into a route that was installed while retracted is safe in every network exactly when the update is retracted or feasible |
| Revival.WitnessLoops | babeld/route.c:717-743 | For any unfeasible finite update there is a network in which accepting it closes a loop |
| Revival.RevivalCanLoop | babeld/route.c:839-840 | A run from the initial state, with fresh sources throughout, whose last step revives a route installed while retracted and leaves two routers forwarding to each other |
| Ageing.AgeingSafeExactly | babeld/route.c:571-581 | Hearing an update for an aged source is safe in every network exactly when the update is retracted or beats the aged record |
| Ageing.AgedLoops | babeld/route.c:571-574 | For any finite update that does not beat it there is a network in which accepting it closes a loop |
| Ageing.LateUpdateCanLoop | babeld/route.c:571-574 | A run from the initial state that never installs a retracted route and loops because a router takes a late update of an aged source for feasible |
| Ageing.LateAdvertisementCanLoop | babeld/source.c:128-146 | A run that loops although every route installed beats its source, because a late advertisement had worsened the record |
| StrictDescent.BeatenExactly | babeld/source.c:128-146 | A record that a route beats is still beaten after the route was advertised exactly when the route costs something or is advertised where it does not interfere |
| StrictDescent.SendStrictExactly | babeld/message.c:1004-1060 | Advertising a route that beats its source keeps the descent along it strict exactly when the route costs something, is advertised where it does not interfere, or the next hop has improved since it was heard |
| StrictDescent.FreeTies | babeld/message.c:1004-1060 | For any finite distance there is a network with strict descent in which advertising a free route leaves a router exactly as far as its next hop |
| StrictDescent.StrictExactly | babeld/message.c:1004-1060 | An advertisement keeps the descent strict in every network that satisfies the invariant exactly when the route is retracted, costs something, or is advertised where it does not interfere |
| StrictDescent.FreeRouteCanTie | babeld/neighbour.c:314-332 | A run from the initial state, with strict descent up to its last step, after which a router is exactly as far as the next hop it reaches over a free link |
| StrictDescent.NextStrict | babeld/route.c:565-582 | Every event that advertises no free route keeps the descent strict |
| StrictDescent.StrictEverywhere | babeld/route.c:565-582 | Over every run without free routes, the next hop of every installed finite route is strictly better than the router itself |
| Announcers.OneAnnouncerLoopFree | babeld/route.c:565-582 | If only one router ever announces the prefix, no cycle of installed finite routes exists, whatever their sources |
| Announcers.TwoLoop | babeld/route.c:821-860 | For any two announcers there is a run after which two other routers send packets to each other, each on the way to a different announcer |
| Announcers.PacketsSafeExactly | babeld/route.c:821-860 | On all runs whose steps are allowed as for LoopFree, packets never loop, exactly when at most one router may announce the prefix |
| Wrapping.WAccept | babeld/route.c:670-795 | update_route on 16-bit sequence numbers does what it does on integers while compared numbers are less than half the circle apart |
| Wrapping.WFlushed | babeld/source.c:128-146 | Advertising and update_source on 16-bit numbers likewise |
| Wrapping.WStep | babeld/util.h:69-88 | Every event of the network commutes with reducing all sequence numbers to 16 bits |
| Wrapping.WRun | babeld/util.h:69-88 | So does every run that stays within the window |
| Wrapping.LoopFree16 | babeld/route.c:565-582 | The network with 16-bit sequence numbers is loop-free on every such run |
| Windows.StepWithin | babeld/route.c:609-632 | If all sequence numbers of a source lie within c above a base, after an event they lie within c, or within c + 1 if the event increments one |
| Windows.RunNear | babeld/util.h:69-88 | A run that increments sequence numbers fewer than 32768 times never compares numbers half the circle apart |
| Windows.CountedLoopFree16 | babeld/route.c:565-582 | So from an initial state the network with 16-bit sequence numbers makes the same run and is loop-free after it |
| RouteList.Append | babeld/route.c:179-209 | Walking to the end of a list and linking a route there appends it |
| RouteList.UnlinkInner | babeld/route.c:247-253 | Unlinking a route behind the head leaves the list without it |
| RouteList.MoveFirst | babeld/route.c:361-375 | move_installed_route puts the route first and keeps the order of the others |
| RouteList.SwitchRoutes | babeld/route.c:435-466 | On the linked list, switch_routes does what the specification of switching says |
| RouteList.ConsiderRoute | babeld/route.c:821-860 | The same for consider_route, with every branch |
| RouteList.FindBestRoute | babeld/route.c:585-607 | The loop of find_best_route returns the route the specification picks |
| RouteList.RouteChangedIn | babeld/route.c:943-965 | The same for route_changed |
| RouteList.RouteLostIn | babeld/route.c:968-983 | The same for route_lost |
| RouteList.FindRouteIn | babeld/route.c:118-137 | The loop finds the first route of a neighbour and next hop, or none |
| RouteList.UpdateKnown | babeld/route.c:717-752 | update_route for a route that is in the list stores the update in place and reselects as specified, and tells whether an installed route was lost |
| RouteList.UpdateRouteIn | babeld/route.c:717-752 | The same with the final call of route_lost |
| RouteList.UpdateMetricIn | babeld/route.c:609-632 | The same for update_route_metric |
| RouteList.UnlinkIn | babeld/route.c:230-253 | Unlinking the head or an inner route leaves a well-formed list without it |
| RouteList.FlushIn | babeld/route.c:211-260 | flush_route removes the route and, if it was installed, lets another take its place |
| RouteList.InsertIn | babeld/route.c:753-793 | update_route for a route that is not in the list, which may be empty, appends it and considers it |
| RouteList.UninstallIn | babeld/route.c:413-429 | uninstall_route on the head clears its flag and nothing else |
| Slots.MovedCounts | babeld/route.c:717-752 | Retaining the new source and releasing the old one keeps every count equal to the number of routes of that source, and the released count was positive |
| Slots.AddedCounts | babeld/route.c:753-793 | So does retaining the source of a new route |
| Slots.RemovedCounts | babeld/route.c:259 | So does releasing the source of a flushed route |
| Slots.PrefixOrder | babeld/route.c:69-82 | route_compare is zero exactly on equal prefixes and changes sign when the operands are swapped |
| Slots.Apart | babeld/route.c:64-66 | No route stands in the lists of two slots |
| Selection.DroppedKeeps | babeld/route.c:211-260 | Flushing removes exactly that route; the others keep everything but, at most, being installed |
| RouteTable.RouteTable.constructor | babeld/route.c:56-57 | An empty table satisfies the invariant |
| RouteTable.RouteTable.FindRouteSlot | babeld/route.c:84-116 | Binary search over the heads finds the slot of a prefix if there is one, and otherwise where it belongs |
| RouteTable.RouteTable.FindRouteOf | babeld/route.c:118-137 | find_route: the first route of the prefix, neighbour and next hop, or none |
| RouteTable.RouteTable.FindInstalledRoute | babeld/route.c:139-148 | The route returned is the one installed route of the prefix; none means none is installed |
| RouteTable.RouteTable.InsertSlot | babeld/route.c:184-196 | Growing the array, shifting its tail and storing a head inserts the slot where it belongs; every list stays linked and reachable from its element |
| RouteTable.RouteTable.DeleteSlot | babeld/route.c:235-246 | Shifting the tail over an emptied slot and shrinking the array removes exactly that slot, and every list stays reachable |
| RouteTable.RouteTable.Resize | babeld/route.c:157-175 | Moving to an array of another size keeps every head |
| RouteTable.ShiftUp | babeld/route.c:191-193 | The elements behind the gap move up by one |
| RouteTable.ShiftDown | babeld/route.c:236-239 | The elements behind the gap move down by one and the last is cleared |
| RouteTable.UpdateFramed | babeld/route.c:717-752 | Changing one list of the table in place leaves all others linked as they were |
| RouteTable.RouteTable.UpdateRoute | babeld/route.c:670-795 | On the array of linked lists, update_route returns the route that matched or was added, changes its prefix as specified and no other, and keeps order, links and source counts |
| RouteTable.RouteTable.UpdateMetric | babeld/route.c:609-632 | The same for update_route_metric |
| RouteTable.RouteTable.Displace | babeld/xroute.c:224-230 | The same for the uninstalling of a route that our own announcement displaces |
| RouteTable.RouteTable.FlushRoute | babeld/route.c:211-260 | The same for flush_route, including the slot that becomes empty |
| RouteTable.RouteTable.FlushMatching | babeld/route.c:282-325 | Flushing a neighbour's or an interface's routes ends, leaves no such route and every other one, and keeps the invariant, although each flush may shift the array and relink the list being walked |
| RouteTable.RouteTable.ExpireSource | babeld/source.c:148-166 | One source is dropped if it is aged and unused; otherwise at most its time changes |
| RouteTable.RouteTable.ExpireSources | babeld/source.c:148-166 | Exactly the aged sources that no route uses are dropped; a time in the future is pulled back |
| Wire.MaskTwice | babeld/util.c:223-238 | Masking is idempotent |
| Wire.ShortPrefixNotV4 | babeld/util.c:385-389 | A masked prefix shorter than 96 bits is never v4-mapped |
| Wire.PaddedBack | babeld/message.c:73-131 | A masked prefix is rebuilt from its first bytes |
| Wire.RebuildV4 | babeld/message.c:73-131 | network_prefix recovers a v4 prefix from the bytes after its first twelve |
| Wire.RebuildV6 | babeld/message.c:73-131 | network_prefix recovers a v6 prefix from the bytes present and those of a remembered prefix that starts the same |
| Wire.PrefixRoundTrip | babeld/message.c:859-869 | Whatever number of bytes the sender leaves out, the receiver puts them back |
| Wire.ChannelsRoundTrip | babeld/message.c:133-178 | The channels sent are the channels read; without them the receiver assumes its default |
| Wire.TlvsFlatten | babeld/message.c:240-260 | Splitting a body into messages undoes writing them one after another |
| Wire.HearOwnNextHop | babeld/message.c:843-858 | After the next hop message, sent or left out, the receiver has the sender's IPv4 address |
| Wire.HearOwnRouterId | babeld/message.c:871-883 | After the router-id message, sent or left out, the receiver has the router-id, unless it can be read off the prefix |
| Wire.UpdateRoundTrip | babeld/message.c:812-908 | One update, with the messages sent ahead of it, is heard as meant, and both sides remember the same afterwards |
| Packets.HearWildcard | babeld/message.c:1178-1205 | A wildcard retraction is heard as one, and what the receiver then takes for a router-id is not relied on |
| Packets.PacketInStep | babeld/message.c:310-445 | At every point of a packet the receiver remembers what the sender counts on |
| Packets.PacketRoundTrip | babeld/message.c:310-445 | Any sequence of masked updates, wildcard retractions and other messages in one packet decodes to itself, with nothing known from other packets |
| Packets.RoundTripExactly | babeld/message.c:73-131 | For a receiver with IPv4 this holds exactly when every prefix sent is masked |
| Packets.UnmaskedLost | babeld/message.c:73-131 | A packet with a single update whose prefix is not masked is not heard as meant |
| Packets.UnmaskedExists | babeld/message.c:812-908 | There are such updates: a non-zero address with prefix length 0 |
| Packets.ParseAttributes | babeld/message.c:133-178 | The loop over route attributes computes the channels |
| Packets.ParsePacket | babeld/message.c:194-260 | The parser, header included, hears what the packet says |
| Packets.ParseBody | babeld/message.c:240-503 | The loop over the messages of a body stops at the first truncated one and has heard all before it |
| SendBuffer.CommonUnique | babeld/message.c:860-864 | The number of leading bytes two prefixes share is the only number of its kind |
| SendBuffer.SendBuffer.SetPending | babeld/message.c:1082-1117 | Changing what waits to be flushed touches neither the buffer nor what was logged |
| SendBuffer.SendBuffer.FlushBuf | babeld/message.c:532-572 | Flushing first writes the pending updates, each once and in order however often the buffer fills up on the way, then sends what is buffered and forgets everything the next packet could rely on |
| SendBuffer.SendBuffer.Transmit | babeld/message.c:543-571 | What is buffered becomes one packet, and no operation is lost |
| SendBuffer.SendBuffer.FlushPending | babeld/message.c:962-1061 | The nested flushes find nothing pending, so they end, and every pending update is written once |
| SendBuffer.SendBuffer.EnsureSpace | babeld/message.c:610-616 | Afterwards there is room; either nothing was added or exactly the pending updates |
| SendBuffer.SendBuffer.Put | babeld/message.c:618-660 | A message that fits is appended to the array, which then holds one more message |
| SendBuffer.SendBuffer.CountOmitted | babeld/message.c:860-864 | The loop counts the bytes that can be left out |
| SendBuffer.SendBuffer.PutMessages | babeld/message.c:838-907 | The messages of one update go into the same packet: the space reserved is enough for all of them |
| SendBuffer.SendBuffer.SendUpdate | babeld/message.c:812-908 | An update is logged once, unless it is IPv4 and the interface has no IPv4 address, behind the pending updates if it made the buffer flush |
| SendBuffer.SendBuffer.SendWildcardRetraction | babeld/message.c:1178-1205 | A wildcard retraction is logged once, wherever the flush falls |
| SendBuffer.SendBuffer.SendOther | babeld/message.c:618-636 | Other messages are logged once and disturb nothing |
| SendBuffer.PacketsMeanTheirOperations | babeld/message.c:532-572 | However the operations were split over packets, receiving the packets means the operations, in order |
| SendBuffer.SendBuffer.Received | babeld/message.c:532-572 | Once the buffer is flushed, receiving all its packets means every operation put into it, in order, if their prefixes are masked |
| FlushUpdates.CompareIsAnOrder | babeld/message.c:910-942 | compare_buffered_updates is a total order, zero only on equal router-id, prefix and length |
| FlushUpdates.SortUnique | babeld/message.c:988 | So the sorted buffer does not depend on how qsort works |
| FlushUpdates.RepetitionsAdjacent | babeld/message.c:988-1000 | After sorting, repetitions of a prefix stand next to each other |
| FlushUpdates.LastTells | babeld/message.c:990-1000 | Comparing with the last announced prefix tells exactly whether this one was announced before |
| FlushUpdates.Label | babeld/message.c:980-986 | Labelling loses and adds no prefix |
| FlushUpdates.Flush | babeld/message.c:944-1061 | Each buffered prefix with a route is announced exactly once or withheld, each without one is retracted as often as it was buffered, nothing else is sent, and all in sorted order |
| FlushUpdates.RetractedTwice | babeld/message.c:1053-1058 | A prefix without a route that was buffered twice is retracted twice |
| Flushing.AllHeard | babeld/message.c:812-908 | Receivers hear each prefix as often as it is sent, with the contents the tables have for it; IPv4 prefixes only if both sides have IPv4 |
| Flushing.SentIsCalledFor | babeld/message.c:944-1061 | What flushupdates sends means exactly the updates the buffered prefixes call for |
| Flushing.FlushInterface | babeld/message.c:532-572 | After flushing an interface, its packets decode to everything logged before and then exactly the updates that the buffered prefixes call for |
| TokenBucket.Bucket.Check | babeld/message.c:510-530 | check_bucket in place does what the specification says |
| TokenBucket.GrantedBound | babeld/message.c:510-530 | From any state and with any clock: at most the tokens present, those owed, and 40 for each second the clock moves forward |
| TokenBucket.Balance | babeld/message.c:510-530 | With a clock that does not step back, packets sent plus tokens left are at most the initial tokens plus 40 for each second up to the last refill |
| TokenBucket.GrantedSinceCreation | babeld/babel_interface.c:1006-1008 | Since an interface was created: at most 200 packets and 40 for each second |
| TokenBucket.GrantedInAnyWindow | babeld/message.h:46-47 | In any stretch of time: at most 400 packets and 40 for each second |
| TokenBucket.BurstIsTwiceTheCapacity | babeld/message.c:510-530 | That bound is reached: after five idle seconds 400 packets go out at once |
| TokenBucket.RefusalIsBrief | babeld/message.c:514-522 | After a refusal, even with the clock set back, the next second succeeds |
| MultipathOrder.TransitiveExactly | bgpd/bgp_mpath.c:103-140 | The next hop comparison orders a set of next hops exactly when, among those with the same IPv4 next hop, all have the same kind or none can be told apart |
| MultipathOrder.NotTransitive | bgpd/bgp_mpath.c:103-140 | In general it is not transitive |
| Multipath.AddedSorted | bgpd/bgp_mpath.c:202-207 | Where next hops can be ordered, adding a candidate keeps the list sorted |
| Multipath.ChosenFrom | bgpd/bgp_mpath.c:446-543 | Chosen paths are candidates other than the best one, within the limit |
| Multipath.ChosenFull | bgpd/bgp_mpath.c:453-454 | Stopping once the limit is reached misses nothing |
| Multipath.ChosenNexthopsDiffer | bgpd/bgp_mpath.c:154-169 | With sorted, orderable candidates the chosen next hops strictly increase, so no two are equal |
| Multipath.ChosenCount | bgpd/bgp_mpath.c:446-543 | From candidates below the best path, one is chosen for each different next hop, up to the limit |
| Multipath.RepeatsExactly | bgpd/bgp_mpath.c:467-468 | The best path's own next hop is chosen again exactly when there is a lower candidate, the different lower next hops and the best path do not fill the limit, and another candidate shares the best next hop |
| Multipath.BestRepeated | bgpd/bgp_mpath.c:467-468 | Sorted candidates from which this happens |
| MultipathUpdate.Enqueue | bgpd/bgp_mpath.c:266-283 | A path is linked behind another one in both directions and marked |
| MultipathUpdate.Dequeue | bgpd/bgp_mpath.c:290-302 | A path leaves the list it is in, which stays doubly linked, and is unmarked |
| MultipathUpdate.Walk | bgpd/bgp_mpath.c:446-543 | The parallel walk turns the rest of the old chain into the selection; it reports no change only if they are equal and, with sorted candidates, a change only if they are not |
| MultipathUpdate.Detach | bgpd/bgp_mpath.c:418-433 | Both best paths leave the old chain, whose rest stays linked |
| MultipathUpdate.Update | bgpd/bgp_mpath.c:395-552 | Whatever the old chain was: the new one is the selection, properly linked, counted and marked; all other paths are unlinked and unmarked; no change goes unflagged, and with sorted candidates none is flagged in vain |
| MultipathUpdate.FlagMeans | bgpd/bgp_mpath.c:546-551 | Comparing the counts covers the new best path, which the walk did not see |
| AsPath.IncreasingUnique | bgpd/bgp_aspath.c:260-285 | A set has one representation in increasing order |
| AsPath.WeedDuplicates | bgpd/bgp_aspath.c:270-285 | The loop weeds out repetitions in place and leaves the members of the set in increasing order |
| AsPath.TidySegment | bgpd/bgp_aspath.c:260-285 | Sorting and weeding a set segment gives its canonical form; sequences stay as they are |
| AsPath.NormaliseSegments | bgpd/bgp_aspath.c:247-310 | The pass over the segments computes the normal form |
| AsPath.NormaliseKeeps | bgpd/bgp_aspath.c:403-437 | Normalising changes neither hop count nor the AS numbers in a path |
| AsPath.NormaliseNormal | bgpd/bgp_aspath.c:241-246 | In a normal form sets are strictly increasing and no two AS_SEQUENCEs are adjacent |
| AsPath.NormalExactly | bgpd/bgp_aspath.c:241-246 | Exactly the paths with these two properties are their own normal form |
| AsPath.NormaliseTwice | bgpd/bgp_aspath.c:247-310 | Normalising is idempotent |
| AsPathMeaning.NormaliseMeaning | bgpd/bgp_aspath.c:247-310 | Normalising does not change what a path means |
| AsPathMeaning.MeaningExactly | bgpd/bgp_aspath.c:1848-1870 | Paths mean the same exactly when their normal forms are the same segments, if neither normal form has an empty AS_SEQUENCE |
| AsPathMeaning.EmptySequenceHidesEquality | bgpd/bgp_aspath.c:1848-1870 | Any path whose normal form has an empty AS_SEQUENCE means the same as one that compares different |
| AsPathMeaning.Same | bgpd/bgp_aspath.c:1848-1870 | The comparing loops accept exactly equal segment lists |
| AsPathWire.DataRoundTrip | bgpd/bgp_aspath.c:837-853 | Numbers written are read back, as AS_TRANS where two bytes are too few |
| AsPathWire.ParseWire | bgpd/bgp_aspath.c:697-791 | Segments of 1 to 255 numbers parse as they were written |
| AsPathWire.TwoPiecesFit | bgpd/bgp_aspath.c:894-905 | Up to 510 numbers, splitting a sequence loses nothing |
| AsPathWire.RejoinedExactly | bgpd/bgp_aspath.c:894-905 | Joined again, the pieces of a sequence are the sequence exactly when every full piece repeats the first one |
| AsPathWire.PiecesNormalise | bgpd/bgp_aspath.c:241-246 | Cutting a path into pieces that fit does not change its normal form |
| AsPathWire.WireRoundTrip | bgpd/bgp_aspath.c:867-938 | Parsing what was written gives the normal form of the path, with AS_TRANS for wide numbers in two-byte mode |
| AsPathWire.RoundTripExactly | bgpd/bgp_aspath.c:867-938 | With four-byte numbers a normal path without empty segments comes back unchanged exactly when every AS_SEQUENCE repeats its first 255 numbers in each full piece and every other segment has at most 255 |
| AsPathWire.LongSequenceLost | bgpd/bgp_aspath.c:894-905 | Any AS_SEQUENCE of more than 510 numbers whose second piece starts differently comes back changed |
| AsPathWire.LostAt511 | bgpd/bgp_aspath.c:894-905 | The numbers 0 to 510 come back changed |
| AsPathStream.CountedAllExactly | bgpd/bgp_aspath.c:894-934 | The value aspath_put returns is never too small, and is the number of bytes written exactly when no segment has more than 510 numbers |
| AsPathStream.MiscountedAt511 | bgpd/bgp_aspath.c:894-934 | For the numbers 0 to 510 the value returned is more than the bytes written |
| AsPathStream.Put | bgpd/bgp_aspath.c:867-938 | With enough space and no two adjacent AS_SEQUENCEs the loops write the pieces of all segments and return that value |
| AsPathStream.ParseStream | bgpd/bgp_aspath.c:697-791 | The parsing loop accepts and rejects as specified and normalises the result |
| AsPathReconcile.CountHops | bgpd/bgp_aspath.c:403-437 | The counting loops add up hops and confederation hops |
| AsPathReconcile.ReconcileAs4 | bgpd/bgp_aspath.c:1464-1558 | The loop computes the reconciled path |
| AsPathReconcile.CutFront | bgpd/bgp_aspath.c:1498-1542 | The loop copies the front of AS_PATH that is worth the wanted hops, never splitting a confederation sequence |
| AsPathReconcile.CutTotal | bgpd/bgp_aspath.c:1498-1542 | That front counts the wanted hops exactly when the cut does not fall inside a confederation sequence, and more otherwise |
| AsPathReconcile.ReconcileRecovers | bgpd/bgp_aspath.c:1464-1558 | A path without confederation segments that old speakers saw as AS_TRANS and put any numbers in front of comes back with those numbers in front |
| AsPathReconcile.ReconcileHops | bgpd/bgp_aspath.c:1476-1478 | When AS4_PATH is not longer the hop count of AS_PATH is kept exactly when no confederation sequence falls across the cut |
| AsPathReconcile.LengthenedAtConfed | bgpd/bgp_aspath.c:1498-1542 | Two confederation hops and an AS4_PATH of one hop reconcile to three hops |
| AsPathReconcile.ReconcileKeepsAs4 | bgpd/bgp_aspath.c:1480-1489 | No AS number of AS4_PATH is lost |
| AsPathText.NumberRoundTrip | bgpd/bgp_aspath.c:1743-1759 | A printed number is read back, and 32 bits are enough on the way |
| AsPathText.TokensPath | bgpd/bgp_aspath.c:1701-1764 | The tokens of a printed path are those of its segments |
| AsPathText.ReadPrinted | bgpd/bgp_aspath.c:1766-1830 | Reading what was printed gives the path without empty AS_SEQUENCEs and with adjacent ones joined |
| AsPathText.TextRoundTripExactly | bgpd/bgp_aspath.c:1766-1830 | The same segments come back, of all four types, exactly when no AS_SEQUENCE is empty or next to another |
| AsPathText.SegmentFits | bgpd/bgp_aspath.c:574-580 | The room reserved for a segment holds it, a space and the terminating zero |
| AsPathText.MakeStr | bgpd/bgp_aspath.c:510-614 | The buffer holds the whole text, never cut off, with room for the terminating zero |
| AsPathText.GetToken | bgpd/bgp_aspath.c:1701-1764 | The next token is found past separators, with its value and end |
| AsPathText.Str2AsPath | bgpd/bgp_aspath.c:1766-1830 | The loop builds the path its tokens describe, or rejects an unknown one |
| AttrIntern.CompareIsEquality | bgpd/bgp_attr.c:414-454 | attrhash_cmp accepts exactly attributes equal in all compared fields |
| AttrIntern.FreeUnused | bgpd/bgp_aspath.c:332-349 | A part whose references are all gone can be freed: no interned attribute points to it |
| AttrIntern.TakeKnown | bgpd/bgp_attr.c:512-518 | Counting one more reference to an interned part keeps the store consistent |
| AttrIntern.DropTaken | bgpd/bgp_attr.c:662-691 | Giving one up, and freeing the part with the last, keeps it consistent |
| AttrIntern.ReleaseHold | bgpd/bgp_attr.c:694-724 | Uninterning an attribute just interned leaves the table as it was |
| AttrIntern.SameValueSameObject | bgpd/bgp_attr.c:414-454 | Interned attributes with equal values, parts compared by contents, are the same object |
| AttrIntern.NoLeaks | bgpd/bgp_attr.c:694-724 | Without attributes and outside holders no part is left |
| AttrIntern.CountsDetermineParts | bgpd/bgp_attr.c:662-691 | Outside holders and attributes determine which parts exist and their counts |
| AttrStore.AttrStore.InternPart | bgpd/bgp_aspath.c:625-643 | Interning returns the one object with these contents and counts an outside holder |
| AttrStore.AttrStore.UninternPart | bgpd/bgp_aspath.c:332-349 | Giving up an outside reference keeps every other object |
| AttrStore.AttrStore.TakeParts | bgpd/bgp_attr.c:511-558 | All parts of an attribute are interned or counted once more |
| AttrStore.AttrStore.InternAttr | bgpd/bgp_attr.c:506-565 | The attribute returned has the given values and parts, one more reference, and is the old object if it was interned before; the store stays consistent |
| AttrStore.AttrStore.DropParts | bgpd/bgp_attr.c:662-691 | Each part loses one reference and is freed with its last |
| AttrStore.AttrStore.UninternAttr | bgpd/bgp_attr.c:694-724 | The attribute loses one reference and goes with the last, its parts lose one each, and no part in use is freed |

## Left out

- Sockets, timers, jitter, the kernel, zebra, the terminal interface, logging and configuration: clock values, link
  costs, filter results and interface addresses are parameters. Kernel route changes always succeed; after a failed
  change in `switch_routes` or `change_route_metric` the program returns early, and that is not modelled.
- Allocation failures, and the overflow of machine integers other than sequence numbers, stored metrics and AS numbers:
  a token bucket idle for more than a year overflows its product in the program, not here.
- Reboots that lose a router's sequence number, and two routers with the same router-id.
- `retract_neighbour_routes`: its loop skips slots, so it does not retract all routes of the neighbour; the wildcard
  retraction that calls it ends at the decoder here. `flush_all_routes` uninstalls the wrong slot.
- The walks of `update_neighbour_metric` and `expire_routes`: selection can move a route they have not visited yet, so
  they may miss one; each change they make to one route is an event of the network model.
- Requests, hellos, IHUs, acknowledgements, resending and unicast buffers: in a packet they are messages that do not touch
  the compression state.
- Diversity routing: channels are carried by updates, but interference is a parameter of what is advertised.
- `expire_sources` is not an event of the network model: a router there remembers its sources for ever, and forgetting one
  that is still advertised would be a case of ageing.
- RouteTable.RouteTable.UpdateRoute: a new route is considered before its slot is stored in the array, where the program
  does it after; a flushed route is never freed.
- RouteTable.RouteTable.Displace: the test that decides whether the announcement is exported is outside.
- Packets.ParseBody: stops at a message that claims more bytes than the body has; the program checks for two bytes less
  than that and would read the rest from its receive buffer.
- Packets.ParsePacket: ignores packets shorter than a header, where the program reads what its receive buffer happens to
  hold; the sender's address is taken to be link-local and a known neighbour.
- Packets.ParseAttributes: stops where an attribute would go past the end, for the same reason.
- SendBuffer.SendBuffer.SendUpdate: takes the metric after the output filter and the interval after rounding; a flush
  hands every packet to the network, and whether the token bucket lets it pass is `TokenBucket`.
- SendBuffer.SendBuffer.SetPending: the flush that `buffer_update` makes when the update buffer is full is a call of
  FlushBuf by the caller.
- Flushing.FlushInterface: whether the interface is up, which routes the output filter lets through, and the metric and
  channels that go into an update of an installed route are parameters.
- FlushUpdates.Flush: does not follow the side effects of sending (`update_source`, satisfied requests); the former are
  part of `Network`.
- Multipath.AddedSorted: the sorted insertion of the list library on a sequence; link-bandwidth aggregation
  (`bgp_info_mpath_aggregate_update`) and `bgp_best_selection` itself.
- MultipathUpdate.Update: a path and its lazily allocated multipath record are one object, as an absent record reads like
  an empty one.
- AsPathStream.Put: for adjacent AS_SEQUENCEs, which normalised paths do not have, the packing loop is modelled but
  nothing is promised about the bytes.
- AS path aggregation, prepending, filtering, private-AS removal and SNMP segments.
- AttrStore.AttrStore.InternAttr: the six kinds of parts go through one loop over kinds, where the program repeats the
  same code for each; hash values and `bgp_attr_flush` are not modelled.
- The Tarpan attribute itself: it is one kind of interned part.
