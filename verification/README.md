# Babel routing, BGP AS paths and BFD sessions: a verified model

This project models three parts of FRR and proves what they are for.

**Babel (`frr/babeld`).** `BabelRoute` holds the route selection of one destination as functions: feasibility, sources
with reference counts, installing, switching, receiving an update, flushing. `BabelSlot` proves what each of these
keeps, and `BabelSelect` what selection and updates come to: hysteresis, and the best route after a loss. `RouteTable`
is the table itself, a class over a sorted, resized array found by binary search, whose methods are proved against these
functions. `BabelNet` puts any number of such nodes into a network that loses, duplicates and
reorders updates, and proves loop freedom by an inductive invariant over all runs; `BabelRefine` shows that the
whole operations of `route.c` are runs of its steps, and loop freedom over sequences of operations; `BabelGaps` shows, by
concrete runs, what happens without two of the hypotheses, and exactly when each of them matters. `BabelRetract` is
the walk that retracts the routes through a neighbour while route selection rearranges them. `Smoothing` is the
randomised metric smoothing. `BabelPrefix`, `BabelTlv`, `BabelDecode`, `BabelAttributes`, `BabelRequest`,
`BabelEncode`, `BabelRoundTrip`, `BabelCompress`, `BabelSpeaker`, `BabelSend`, `BabelOrder`, `BabelAdvertise`,
`BabelInterface` and `BabelParse` are the wire format: what packets and sub-TLVs mean, how messages are written into a
shared buffer with compression against what it already holds and a time stamp patched in when it leaves, that every
packet alone tells exactly what was put into it, that it says nothing twice, that the updates in it are those of the
network, that any other speaker is understood as well, and the two-pass parser. `Bucket` bounds the rate.

**BGP AS paths (`frr/bgpd/bgp_aspath.c`).** `AsPath` gives segment lists a meaning and proves that normalisation is a
canonical form of it; `AsPathWire` is the wire format with two and four octets, and `AsPathStray` says for exactly
which paths the round trip over it is right; `AsPathReconcile` recovers a four-octet path from what a two-octet speaker
passed on; `AsPathAggregate` is aggregation and its cache.

**BFD (`frr/bfdd`).** `Bfd` is the negotiation of intervals by Poll Sequences between two sessions over a link that
loses and repeats packets; `BfdPoll` is the exact condition under which a poll does what it is for, and the
reconfigurations that break it; `BfdState` is the state machine, from two sessions that have not heard of each other on;
`ControlQueue` is the output queue of a control connection.

`Seqno`, `Address` and `Basics` hold sequence numbers, addresses and byte order.

## Results that go against expectation

- Loop freedom needs no positive link cost: that the used routes are acyclic is itself inductive. Positive cost is
  needed for the next hop to be strictly better (`BabelNet.NextHopStrictlyBetter`).
- A metric change that the kernel refuses leaves a new seqno on an old metric. That is harmless as long as someone
  vouches for the old metric under the new seqno, and otherwise a loop can follow (`BabelGaps.KernelRefusalLoops`,
  `BabelGaps.KeptVouchedIff`). A retracted route that is still installed comes back into use by an unfeasible
  update of the same source, and a loop can follow (`BabelGaps.RevivalLoops`, `BabelGaps.UnfeasibleUseIff`).
- A seqno request for a default route is never accepted: the parser refuses a prefix of no bytes there
  (`frr/babeld/message.c:734`, `BabelRoundTrip.SeqnoRequestStep`).
- A retraction that was noted several times goes out as often, because the list of pending updates is compared with the
  last destination only where there is a route (`BabelOrder.DueCount`).
- An overlong channel list in an Update derails the walk over its sub-TLVs (`BabelAttributes.FramingKeptIff`).
- The type of every sub-TLV of a request is read from the first one (`frr/babeld/message.c:294`), so a request can be
  served that is to be dropped and the other way round (`BabelRequest.MandatoryMissed`); `BabelRequest.RequestReadIff`
  says exactly when.
- Retracting the routes through a neighbour can miss one, which moves to the front of the list as it is installed
  (`BabelRetract.SecondNextHopEscapes`, `RouteTable.Table.RetractNeighbour`).
- `aspath_put` writes a wrong length octet when it packs three or more sequences, which normal paths do not have
  (`AsPathWire.LengthOctetRightIff`). No such path is ever read back as it was (`AsPathStray.RoundTripIff`).
- Reconciling AS_PATH with AS4_PATH puts hops in twice if AS4_PATH has confederation segments
  (`AsPathReconcile.As4RoundTrip`), and can lose hops if AS_PATH has such and is shorter
  (`AsPathReconcile.FewerHopsIff`, `AsPathReconcile.FewerHopsLoses`).
- A one-second smoothing step overflows 32 bits only for a half-life of 2 and distances from 63288 on
  (`Smoothing.SecondStepFitsIff`).
- `bfd_recv_cb` sets the detection time before it answers a poll, so the side that is polled is right only from the next
  packet on (`Bfd.AskedDetectionIff`, `Bfd.PeerFollows`). Polls carry no number, so the answer to an older one ends a
  newer one, and both sides stay in disagreement (`BfdPoll.OlderPollMisleads`, `BfdPoll.LateAnswerMisleads`);
  `BfdPoll.PollEndsWellIff` says exactly when that cannot happen. A session that goes down on a packet that polls it does
  not slow down (`BfdState.HearsDown`).

## How to read the model

Clock readings, random numbers, filter results, smoothed metrics, costs and the answers of the kernel and of sockets are
parameters, so that every theorem is about all of them. Linked lists are sequences; the route table, the send buffer and
the sets of AS numbers that are sorted in place are arrays; objects that the source updates are classes. Machine
arithmetic that can wrap is written out: seqnos modulo 2^16, the 32-bit product of the BFD detection time, saturating
metrics. Each class method is proved against a function, and the lemmas are about these functions.

## Model

| member | source | states |
|---|---|---|
| `BabelNet.LoopFree` | frr/babeld/route.c:578-595 | In every state that any run of any number of routers reaches, with updates lost, duplicated and reordered and whatever the kernel answers, the installed routes with a finite metric for one source contain no cycle; `Guarded` excludes stale sources, unfeasible revivals that take effect and refused metric changes that leave a misleading metric, and `AllWindowed` asks that the seqnos in use for a source are comparable. |
| `BabelNet.StepKeepsInv` | frr/babeld/route.c:766-968 | Each step (receipt, reconsideration, expiry, retraction, cost change, flush, advertisement, origination, redistribution, source collection, loss) keeps the inductive invariant: routes and updates are vouched for by the distance of their sender, distances descend along used routes, used routes are acyclic. |
| `BabelNet.RunKeepsInv` | frr/babeld/route.c:766-968 | The invariant holds after every run from a state in which it holds. |
| `BabelNet.InitialInv` | frr/babeld/source.c:25-63 | The invariant holds of a network without routes, sources and updates. |
| `BabelNet.DistanceCoversSent` | frr/babeld/source.c:100-118 | In every reachable state the feasibility distance of a router is at least as good as each finite update of its that is on the way. |
| `BabelNet.DistanceCoversEverSent` | frr/babeld/message.c:1366-1401 | That stays so for every finite update a router ever sent, also after the update is lost, as long as its seqno remains comparable. |
| `BabelNet.DistancesNeverWorsen` | frr/babeld/source.c:100-118 | From no state, reachable or not, and whatever the kernel answers, does a step make a feasibility distance worse, unless a stale source is overwritten or collected. |
| `BabelNet.NextHopStrictlyBetter` | frr/babeld/route.c:820-846 | With positive link costs, the next hop of every used route has a strictly better distance than its user, also after an unfeasible update for the same source was kept. |
| `BabelNet.BumpEndsStarvation` | frr/babeld/message.c:1559-1564 | A router that raises its seqno is heard: its next update is feasible at any metric exactly for the routers whose distance is at the former seqno or less than a half circle behind it, or stale, or at the new seqno and worse. |
| `BabelNet.ReceiveIsLocal` | frr/babeld/route.c:766-898 | What an update may do to a node: distances stay, every route held is vouched for, also where the kernel refuses its new metric and the old one is kept, and a route comes into use only if it is strictly better than the distance. |
| `BabelNet.ReconsiderIsLocal` | frr/babeld/route.c:928-968 | The same for `consider_route`: only a feasible route comes into use. |
| `BabelNet.AdvertiseKeepsInv` | frr/babeld/message.c:1366-1401 | Sending an update and recording it in the source table keeps the invariant. |
| `BabelNet.AdvertiseStrict` | frr/babeld/source.c:100-118 | An advertisement keeps next hops strictly better when the advertised metric exceeds the received one. |
| `BabelNet.PathDescends` | frr/babeld/route.c:578-595 | Along any path of used routes distances do not get worse. |
| `BabelGaps.KernelRefusalLoops` | frr/babeld/route.c:471-506 | Without the hypothesis on the kernel the guarantee fails: when it refuses a metric change and the metric kept misleads, a run ends in a loop of two routers. |
| `BabelGaps.KeptVouchedIff` | frr/babeld/route.c:471-506 | For all routes and updates: a finite metric that is kept because the kernel refuses the new one is vouched for by every neighbour that stands by what it said, if and only if the route said as much before (same source, no older seqno) or the update tells a metric no larger. |
| `BabelGaps.RevivalLoops` | frr/babeld/route.c:820-846 | Without the hypothesis on retracted routes it fails: an unfeasible update for the same source makes a retracted, still installed route usable again, and a run ends in a loop. |
| `BabelGaps.UnfeasibleUseIff` | frr/babeld/route.c:808-853 | For all inputs and kernel answers: an update makes a router use a route, not used before under that source, that is unfeasible as stored, if and only if it revives a retracted installed route and the kernel goes along, or the kernel keeps a metric that is unfeasible for the new source. |
| `BabelRefine.UpdateRouteIsRun` | frr/babeld/route.c:766-898 | For every update, smoothed metrics and kernel answers, the whole of `update_route` is a receipt step followed by reconsideration steps of the network; if the receipt satisfies the hypotheses and no stored route has a stale source, it is a run in the sense of loop freedom, with that end state. |
| `BabelRefine.FlushRouteIsRun` | frr/babeld/route.c:182-231 | The same for `flush_route`: a flush step followed by reconsideration steps. |
| `BabelRefine.AlterIsRun` | frr/babeld/route.c:703-728 | A retraction or a change of cost, followed by `route_changed` or not, is such a run. |
| `BabelRefine.RetractionIsOp` | frr/babeld/route.c:970-989 | Each step of the walk that retracts the routes through a neighbour is such an operation, so loop freedom covers the walk. |
| `BabelRefine.OpIsRun` | frr/babeld/route.c:703-989 | Each whole operation (`update_route`, `flush_route`, `update_route_metric`, retracting with a neighbour, any single step) is a run of the network whose hypotheses need asking of its first step only. |
| `BabelRefine.OperationsAreRuns` | frr/babeld/route.c:766-898 | Every sequence of operations is a run of the network with the same end state. |
| `BabelRefine.OperationsLoopFree` | frr/babeld/route.c:578-595 | Loop freedom over sequences of whole operations: after any number of them, by any routers in any order, the installed routes for one source contain no cycle. |
| `BabelRefine.RouteChangedSteps` | frr/babeld/route.c:1050-1071 | `route_changed` is a sequence of reconsideration steps. |
| `BabelRefine.RouteLostSteps` | frr/babeld/route.c:1074-1093 | `route_lost` is a sequence of reconsideration steps. |
| `BabelRefine.ChangedAfterRelease` | frr/babeld/route.c:820-853 | Route selection does not depend on reference counts, so the order of releasing a source and reselecting does not matter. |
| `Seqno.CompareInWindow` | frr/babeld/util.h:44-51 | Inside any half circle of the seqno space the modular comparison is the comparison of offsets. |
| `Seqno.RefinesIntegers` | frr/babeld/util.h:44-63 | For integers less than 2^15 apart, comparison, difference and sum of their residues agree with the integers. |
| `Seqno.AntisymmetricIff` | frr/babeld/util.h:44-51 | The comparison is antisymmetric exactly when the seqnos are not 2^15 apart. |
| `Seqno.NotTransitive` | frr/babeld/util.h:44-51 | Outside a half circle the comparison is not transitive. |
| `Address.CompareOrder` | frr/babeld/route.c:38-52 | The order of the route table: antisymmetric, and zero only for equal prefix and length. |
| `Address.CompareTransitive` | frr/babeld/route.c:38-52 | The order is transitive. |
| `Address.CompareIsMemcmp` | frr/babeld/route.c:38-52 | The order compares the bytes of the addresses lexicographically, then the lengths. |
| `BabelRoute.MetricBounds` | frr/babeld/route.h:48-63 | Neither advertised metric is below the received one; the non-interfering one is always above it, the other if cost or filter add something. |
| `BabelSlot.UpdateRouteOk` | frr/babeld/route.c:766-898 | Any update keeps the invariant of a destination, whatever the kernel answers: at most the head of the chain is installed, none while the prefix is redistributed, and each source counts exactly the routes that refer to it. |
| `BabelSlot.FlushRouteOk` | frr/babeld/route.c:182-231 | Flushing a route keeps that invariant and removes this route and no other. |
| `BabelSlot.SwitchOk` | frr/babeld/route.c:437-469 | Switching leaves exactly the chosen route installed, at the head, and all routes in place; if the kernel refuses nothing changes. |
| `BabelSlot.SwitchNever` | frr/babeld/route.c:437-469 | Switching from a route that is not installed changes nothing. |
| `BabelSlot.ConsiderInstalls` | frr/babeld/route.c:928-968 | A preferred route becomes the installed head if the kernel agrees; otherwise nothing changes. |
| `BabelSlot.ConsiderReselects` | frr/babeld/route.c:928-968 | Reconsidering only reorders the chain and moves the installed flag, and keeps the invariant. |
| `BabelSlot.RouteChangedReselects` | frr/babeld/route.c:1050-1071 | The same for `route_changed`. |
| `BabelSlot.RouteLostReselects` | frr/babeld/route.c:1074-1093 | The same for `route_lost`. |
| `BabelSlot.UpdateCoreOk` | frr/babeld/route.c:808-898 | Between storing an update and releasing the former source, the counts are exact but for one reference to that source. |
| `BabelSlot.ReleaseOk` | frr/babeld/source.c:73-78 | The reference dropped exists, and dropping it makes the counts exact. |
| `BabelSlot.ChangeMetricOk` | frr/babeld/route.c:471-506 | Changing a metric keeps the invariant, also when the kernel refuses. |
| `BabelSlot.ExpireSourcesOk` | frr/babeld/source.c:120-138 | A source that a route refers to is never freed, however old it is. |
| `BabelSlot.AddXrouteOk` | frr/babeld/xroute.c:192-214 | Redistributing a prefix uninstalls its route and keeps the invariant. |
| `BabelSlot.FindBestIsMinimum` | frr/babeld/route.c:675-701 | The route found has the least smoothed metric of all acceptable ones and is the first such; none is found exactly when none is acceptable. |
| `BabelSlot.InstallOk` | frr/babeld/route.c:376-412 | Installing leaves an installed route alone, whichever is to be installed, and never makes two of them. |
| `BabelSelect.ConsiderIff` | frr/babeld/route.c:923-968 | A route replaces the installed one exactly if it is feasible, nothing is redistributed and the kernel agrees, and there is none to replace, or that is retracted and this one is not, or this one dominates it: no worse in metric and strictly better in smoothed metric. |
| `BabelSelect.Hysteresis` | frr/babeld/route.c:923-968 | As long as metrics and smoothed metrics stay, after any sequence of considerations the route in use is the same or one that dominates it. |
| `BabelSelect.NoReturn` | frr/babeld/route.c:923-968 | So a route that was given up does not come back: selection does not oscillate. |
| `BabelSelect.LostInstallsBest` | frr/babeld/route.c:1074-1079 | When no route is installed, losing one installs a feasible, unexpired route of least smoothed metric, if there is any. |
| `BabelSelect.ChangedInstalled` | frr/babeld/route.c:1050-1071 | When the installed route has changed, the first best one takes its place exactly if its metric is lower and, unless the installed one is retracted, its smoothed metric too. |
| `BabelSelect.ChangedOther` | frr/babeld/route.c:1050-1071 | When another route has changed, it takes the place of the installed one exactly if it may replace it. |
| `BabelSelect.FindBestExcluding` | frr/babeld/route.c:675-701 | A neighbour that is left out is left out, and unfeasible routes are taken where that is asked. |
| `BabelSelect.UpdateKnown` | frr/babeld/route.c:808-853 | Whatever is selected afterwards, a known route has the source, seqno, hold time and, unless the kernel refuses, the metrics of the update, and its time if it was accepted. |
| `BabelSelect.UpdateNew` | frr/babeld/route.c:855-893 | An unknown route is stored, with all the values of the update, exactly if that is finite, and feasible or to be kept in any case. |
| `BabelSelect.FreshUntil` | frr/babeld/route.c:528-532 | A route that was just refreshed is usable for its hold time and not a second longer. |
| `BabelSelect.FirstIsUsed` | frr/babeld/route.c:855-893 | The first feasible route to a destination is used. |
| `BabelSelect.UpdateKeepsUse` | frr/babeld/route.c:808-853 | A route in use whose source stays the same, or admits the update, gives way only to another. |
| `BabelSelect.UpdateLoses` | frr/babeld/route.c:808-853 | A route in use whose update comes from another source that does not admit it is given up, and the best one left, if any, takes its place. |
| `BabelSelect.IgnoredIff` | frr/babeld/route.c:781-795 | Updates are ignored altogether exactly if they are our own, for a martian destination, or forbidden by the input filter. |
| `BabelSelect.FlushInstallsBest` | frr/babeld/route.c:182-231 | When the route in use is flushed, the best one left, if any, takes its place. |
| `BabelSelect.MetricIsSum` | frr/babeld/route.h:48-54 | A metric is the exact sum of its parts as long as that is finite. |
| `BabelSelect.NoninterferingRounds` | frr/babeld/route.h:56-63 | Where links do not interfere, the cost counts by 256ths rounded to the nearest, and always for something. |
| `BabelSelect.ChangeTakesEffect` | frr/babeld/route.c:471-506 | A metric change takes effect unless the route is installed, becomes usable or unusable by it, and the kernel refuses. |
| `BabelSelect.DistanceLapses` | frr/babeld/source.c:100-118 | A distance binds for 200 seconds after it was last advertised, and lapses then. |
| `BabelSelect.CollectedIff` | frr/babeld/source.c:120-138 | Collection drops exactly the sources that no route uses and that were not advertised for more than 200 seconds; no time is left in the future. |
| `RouteTable.Table.FindSlot` | frr/babeld/route.c:57-86 | Binary search finds the slot exactly when there is one, and otherwise the place where it belongs. |
| `RouteTable.Table.Resize` | frr/babeld/route.c:127-145 | The table moves to an array of the new size with the same contents. |
| `RouteTable.Table.OpenSlot` | frr/babeld/route.c:149-180 | Opens a slot, doubling a full table; the capacity stays 0 or 8 times a power of two. |
| `RouteTable.Table.CloseSlot` | frr/babeld/route.c:182-231 | Closes a slot, halving a table less than a quarter used and freeing an empty one. |
| `RouteTable.Table.InsertSlot` | frr/babeld/route.c:149-180 | Slots stay strictly sorted, and only the new destination is added to the abstract table. |
| `RouteTable.Table.RemoveSlot` | frr/babeld/route.c:182-231 | Slots stay strictly sorted, and only one destination is taken out of the abstract table. |
| `RouteTable.Table.InsertRoute` | frr/babeld/route.c:149-180 | A route is added at the end of its destination and nothing else changes. |
| `RouteTable.Table.RemoveRoute` | frr/babeld/route.c:182-231 | A route is taken from its destination and nothing else changes. |
| `RouteTable.GrowOk` | frr/babeld/route.c:149-180 | Doubling a full table keeps the capacity rule. |
| `RouteTable.ShrinkOk` | frr/babeld/route.c:182-231 | Halving keeps the capacity rule: above 8, at least a quarter is used. |
| `RouteTable.InsertSlotOk` | frr/babeld/route.c:149-180 | Inserting at the place found by the search acts as adding to a map. |
| `RouteTable.RemoveSlotOk` | frr/babeld/route.c:182-231 | Removing a slot acts as removing from a map. |
| `RouteTable.Table.InstallRoute` | frr/babeld/route.c:376-412 | The installed route moves to the head of its chain; other destinations are untouched. |
| `RouteTable.Table.UninstallRoute` | frr/babeld/route.c:414-431 | Only the flag of that route changes. |
| `RouteTable.Table.SwitchRoutes` | frr/babeld/route.c:437-469 | In place, the slot-level switch. |
| `RouteTable.Table.FindBestRoute` | frr/babeld/route.c:675-701 | The loop finds the minimum that `BabelSlot.FindBestIsMinimum` describes. |
| `RouteTable.Table.ConsiderRoute` | frr/babeld/route.c:928-968 | In place, the slot-level reconsideration. |
| `RouteTable.Table.ReconsiderChanged` | frr/babeld/route.c:1050-1071 | In place, the slot-level `route_changed`. |
| `RouteTable.Table.ReconsiderLost` | frr/babeld/route.c:1074-1093 | In place, the slot-level `route_lost`. |
| `RouteTable.Table.StoreUpdate` | frr/babeld/route.c:766-898 | Stores an update, with its source retained, and says whether the installed route was lost. |
| `RouteTable.Table.ReceiveUpdate` | frr/babeld/route.c:766-898 | The whole of `update_route` on the array: the destination changes as specified, keeps its invariant, and no other destination changes. |
| `RouteTable.Table.FindXroute` | frr/babeld/xroute.c:80-90 | Linear search for a redistributed prefix. |
| `RouteTable.Table.AddXrouteFor` | frr/babeld/xroute.c:192-214 | Afterwards the prefix is redistributed and none of its routes is installed, unless it is martian or filtered. |
| `RouteTable.Table.EnterXroute` | frr/babeld/xroute.c:120-152 | A prefix is entered, or its metric lowered, exactly if it was not there with a metric as low; all others stay. |
| `RouteTable.Table.FlushXroute` | frr/babeld/xroute.c:92-118 | Swap-removal takes out exactly one redistributed prefix and keeps the others with their metrics; the room kept stays 8 times a power of two, at least a quarter used. |
| `RouteTable.Table.Flush` | frr/babeld/route.c:182-231 | The whole of `flush_route` on the array, with its invariant; exactly one route is gone. |
| `RouteTable.Table.FlushAll` | frr/babeld/route.c:233-251 | Terminates with an empty table of capacity 0 and no source referenced. |
| `RouteTable.Table.FlushNeighbour` | frr/babeld/route.c:253-273 | Terminates with no route through the neighbour left and no other route removed, whatever the kernel answers to each flush and whatever the smoothed metrics are under each destination. |
| `RouteTable.Table.RetractNeighbour` | frr/babeld/route.c:970-989 | For all answers of the kernel and smoothed metrics, at every destination: the walk along the list, which route selection rearranges meanwhile, terminates and leaves no finite route through the neighbour if and only if none escapes (`Escapes`: the kernel refuses to retract the installed one, or the route that takes its place goes through the neighbour too and so moves behind the walk); no other route changes but for its installed flag and place. |
| `BabelRetract.WalkOn` | frr/babeld/route.c:976-986 | The invariant of that walk: before the place it has come to there is no finite route through the neighbour, or one that has escaped for good. |
| `BabelRetract.SecondNextHopEscapes` | frr/babeld/route.c:976-986 | An example: two routes through one neighbour by two next hops; the second becomes the installed one and is never retracted. |
| `RouteTable.OnlyLostStep` | frr/babeld/route.c:253-273 | One flush of the loop removes one route through the neighbour and no other. |
| `Smoothing.RoughlyBounds` | frr/babeld/util.c:31-40 | For every random number the result lies between three quarters and five quarters of the argument. |
| `Smoothing.HalfStepDecays` | frr/babeld/route.c:619-655 | For every random number a half-life step does not cross the metric and leaves at most v - floor(3v/8) of a distance v. |
| `Smoothing.SecondStepTowards` | frr/babeld/route.c:619-655 | For every random number and half-life above one second a one-second step does not cross the metric. |
| `Smoothing.SecondStepDecays` | frr/babeld/route.c:641-645 | A one-second step leaves at most that part of a distance which the smallest random number leaves. |
| `Smoothing.SecondStepKeeps` | frr/babeld/route.c:641-645 | And at least that part which the largest one leaves. |
| `Smoothing.HalfStepKeeps` | frr/babeld/route.c:619-655 | A half-life step leaves at least v - floor(5v/8) of a distance v: smoothing does not jump. |
| `Smoothing.FactorIsRoot` | frr/babeld/route.c:597-616 | The factor of a one-second step is the root of two of degree half-life to within one, or for large ones the logarithm of two over it. |
| `Smoothing.SecondStepOvershoots` | frr/babeld/route.c:597-616 | With a half-life of one second such a step would cross it; the loop never takes it. |
| `Smoothing.SecondStepFitsIff` | frr/babeld/route.c:619-655 | The product in a one-second step fits 32 bits for all random numbers if and only if the half-life is not 2 or the distance is below 63288. |
| `Smoothing.Smoothed.Update` | frr/babeld/route.c:619-655 | The smoothed metric moves towards the metric without crossing it, decays at least and at most by what the elapsed half-lives and seconds allow for any random numbers, is rounded to it only within four, and a second call at the same time changes nothing. |
| `Smoothing.Smoothed.HalfLives` | frr/babeld/route.c:619-655 | The loop over half-lives, with its least and most decay. |
| `Smoothing.Smoothed.Seconds` | frr/babeld/route.c:619-655 | The smoothed metric moves towards the metric, not beyond, by at least and at most what the seconds since ask for. |
| `Smoothing.FindBest` | frr/babeld/route.c:675-701 | Although comparisons change routes, the one found is the first acceptable one with the least up-to-date smoothed metric. |
| `BabelPrefix.MaskTwice` | frr/babeld/util.c:202-217 | Masking twice is masking once. |
| `BabelPrefix.MaskedTail` | frr/babeld/util.c:202-217 | The bytes behind the prefix length of a masked prefix are zero. |
| `BabelPrefix.ShortNotMapped` | frr/babeld/util.c:370-374 | A masked prefix shorter than 96 bits is never taken for IPv4. |
| `BabelPrefix.PrefixRoundTrip` | frr/babeld/message.c:60-118 | A masked IPv4 or IPv6 prefix written without the bytes it shares with the last one is read back exactly, whatever follows. |
| `BabelPrefix.ReadableIff` | frr/babeld/message.c:60-118 | For all bytes: which prefixes can be read at all, by family, length, omitted bytes and what is known of the last one. |
| `BabelPrefix.MartianIff` | frr/babeld/util.c:351-362 | The destinations that updates are ignored for are exactly those inside multicast, link-local, the unspecified and the loopback address, 127/8, 0/8, 224/4 and 240/4. |
| `BabelTlv.SplitIff` | frr/babeld/message.c:359-400 | A body has at most one reading as TLVs, and has one exactly when it is a concatenation of whole TLVs. |
| `BabelTlv.ExaminedIff` | frr/babeld/message.c:359-400 | A packet is accepted exactly when its header is right and its body is such a concatenation with no TLV below its least length. |
| `BabelTlv.TooShortVoids` | frr/babeld/message.c:359-400 | One TLV with a body shorter than the protocol has it voids the whole packet, wherever it is. |
| `BabelTlv.HeaderRefused` | frr/babeld/message.c:359-400 | A packet with another magic number or version, or a body longer than what came, is not read at all. |
| `BabelTlv.PacketExamined` | frr/babeld/message.c:859-871 | A packet of such TLVs under the header that is sent is accepted as those TLVs. |
| `BabelTlv.Examine` | frr/babeld/message.c:359-400 | The first pass accepts exactly these packets. |
| `BabelAttributes.FramingKeptIff` | frr/babeld/message.c:120-179 | For all bytes: every place where the walk looks for a sub-TLV is where one begins, all the way, if and only if it reaches no channel list of more than eight channels. |
| `BabelAttributes.AttributesMeant` | frr/babeld/message.c:120-179 | For all bytes, broken ones included: unless such a list is reached, the walk computes what the sub-TLVs mean, taken one by one. |
| `BabelAttributes.FramesOf` | frr/babeld/message.c:120-179 | The reading of bytes as sub-TLVs and a broken rest is the only one. |
| `BabelAttributes.OverlongListMisread` | frr/babeld/message.c:155-176 | An example: the ninth channel is taken for a mandatory sub-TLV and the Update is dropped, which the sub-TLVs do not mean. |
| `BabelAttributes.HelloStampMeant` | frr/babeld/message.c:181-236 | For all bytes: the time stamp of a Hello is that of the last sub-TLV that holds one if all are whole and none is mandatory, and none otherwise. |
| `BabelAttributes.IhuStampsMeant` | frr/babeld/message.c:238-284 | For all bytes: the time stamps of an IHU are those of the last whole sub-TLV that holds two. |
| `BabelRequest.RequestReadIff` | frr/babeld/message.c:286-336 | For all bytes: the outcome of the walk over the sub-TLVs of a request is what they mean if and only if a condition on the class of the first and the bytes holds (`ReadRight`): after a leading padding byte nothing may be asked; after an optional sub-TLV nothing may be asked, or the bytes are void and seen to be so; a source prefix is the last; or the first is mandatory. |
| `BabelRequest.LooksIff` | frr/babeld/message.c:286-336 | The walk looks for sub-TLVs where they are and takes each for what it is, all the way, if and only if none that is reached differs in class from the first. |
| `BabelRequest.RequestMeant` | frr/babeld/message.c:286-336 | From any place on: where what is reached is of the class of the first byte, the walk finds what is meant. |
| `BabelRequest.MandatoryMissed` | frr/babeld/message.c:293-336 | An example: behind a padding sub-TLV, an unknown mandatory one is passed over and the request is served. |
| `BabelRequest.ServedIff` | frr/babeld/message.c:677-726 | A request for a prefix is served exactly if its sub-TLVs are not void as they are read; one for all routes, if they hold no source prefix besides. |
| `BabelDecode.DecodeConcat` | frr/babeld/message.c:402-796 | Reading a sequence of TLVs is reading its parts one after the other, with the parser state passed on. |
| `BabelRoundTrip.MessageStep` | frr/babeld/message.c:1157-1255 | For every receiver: the TLVs of any message are read as exactly that message by a parser in step with the writer, and leave it in step. |
| `BabelRoundTrip.UpdateStep` | frr/babeld/message.c:1157-1255 | The case of an Update with its Router-Id and Next Hop: router-id, prefix, length, seqno, metric, next hop and channels are read back. |
| `BabelRoundTrip.RetractAllStep` | frr/babeld/message.c:1531-1558 | The case of a wildcard retraction, after which neither side has a router-id to build on. |
| `BabelRoundTrip.HelloStep` | frr/babeld/message.c:1061-1094 | The case of a Hello, without a time stamp, with room for one, or with one filled in. |
| `BabelRoundTrip.IhuStep` | frr/babeld/message.c:1595-1700 | The case of an IHU, with link-local or other addresses and time stamps. |
| `BabelRoundTrip.RequestStep` | frr/babeld/message.c:1715-1754 | The case of a route request. |
| `BabelRoundTrip.SeqnoRequestStep` | frr/babeld/message.c:1785-1830 | The case of a seqno request, which arrives exactly if its prefix has a byte on the wire: one for a default route is refused by the parser. |
| `BabelRoundTrip.CarriesMore` | frr/babeld/message.c:1157-1255 | Writing one more message keeps buffer and log in agreement, for all receivers at once. |
| `BabelRoundTrip.PacketDelivers` | frr/babeld/message.c:848-889 | A finished packet, read from an empty parser state, yields exactly the messages put into it. |
| `BabelSpeaker.AnySpeakerHeard` | frr/babeld/message.c:402-796 | Every packet of every speaker that keeps to the rules, not only of this one, is heard as it is meant by every receiver: Hellos, IHUs of all families, acknowledgement requests, router-ids, next hops of both families, Updates that omit bytes of IPv4 and IPv6 default prefixes, set them or name a router-id by them, retractions and requests. |
| `BabelSpeaker.SayingHeard` | frr/babeld/message.c:402-796 | The same for one TLV in any state of the parser, with the state it leaves. |
| `BabelSpeaker.NextHopIff` | frr/babeld/message.c:554-573 | For all bytes: a next hop that cannot be read makes the parser forget those of both families; any other sets that of its own and leaves the other. |
| `BabelSpeaker.OmittedUnknown` | frr/babeld/message.c:574-605 | An Update that omits bytes of a prefix that is not known says nothing, and if it was to set the default prefixes, both are forgotten. |
| `BabelSpeaker.WildcardIff` | frr/babeld/message.c:585-638 | For all bytes: a wildcard Update retracts all routes of the neighbour if and only if it can be read and its metric is infinite. |
| `BabelCompress.NothingTwice` | frr/babeld/message.c:1186-1229 | A next hop is written exactly if the reader has another one, and a router-id exactly if the Update alone would be taken for that of another router. |
| `BabelCompress.HostRouteAlone` | frr/babeld/message.c:1215-1220 | A host route whose address ends in the router-id is written as one TLV. |
| `BabelCompress.OmitsAll` | frr/babeld/message.c:1204-1208 | All whole bytes that an IPv6 prefix shares with the remembered one are omitted. |
| `BabelCompress.RemembersLast` | frr/babeld/message.c:1209-1210 | The prefix remembered after any messages is the last one of 48 bits or more. |
| `BabelCompress.RemembersFirst` | frr/babeld/message.c:1209-1210 | If there is none, it is the one remembered before, or else the first. |
| `BabelRoundTrip.UpdateFits` | frr/babeld/message.c:1183-1184 | An Update takes at most 38 bytes. |
| `BabelSend.HeardIsKept` | frr/babeld/message.c:848-889 | Losing packets loses the messages in them and nothing else: a receiver hears, in order, exactly the messages of the packets that left. |
| `BabelSend.KeptAll` | frr/babeld/message.c:848-889 | When none is dropped that is everything written. |
| `BabelOrder.CompareIsMemcmp` | frr/babeld/message.c:1257-1290 | The cascade of comparisons by which pending updates are sorted is one comparison of bytes, hence a total order on destinations. |
| `BabelOrder.SortUpdatesOk` | frr/babeld/message.c:1335-1335 | The sorted list is ascending and holds the same destinations, as often. |
| `BabelOrder.SortedUnique` | frr/babeld/message.c:1335-1335 | There is only one such list, so it does not matter how it is sorted. |
| `BabelOrder.DueCount` | frr/babeld/message.c:1337-1406 | After sorting, a comparison with the last destination is enough: one flush announces a destination that has a route exactly once however often it was noted, if filters let it pass; a retraction goes out as often as it was noted. |
| `BabelAdvertise.UpdatesAreSteps` | frr/babeld/message.c:1337-1406 | Each update that goes out for a destination is the message that an advertisement or origination step of the network puts on the channel (source, seqno and metric with the filter added); where there is nothing to announce it is a retraction under the own router-id and seqno. So loop freedom is about what is on the wire. |
| `BabelAdvertise.AnsweredIff` | frr/babeld/message.c:1337-1406 | A destination that was noted is answered exactly if the interface is up, split horizon does not hide it, no filter forbids it and its family can be written. |
| `BabelInterface.ReceiverHears` | frr/babeld/message.c:848-889 | Whatever was done with an interface, any receiver hears exactly the messages of the packets that left, in order, each Hello with the time its packet left; if none was dropped, that is the whole log but for those time stamps and for what is still in the buffer. |
| `BabelInterface.Interface.FillStamp` | frr/babeld/message.c:824-846 | Where Hellos carry time stamps there is padding at the place remembered, and writing the time over it gives exactly the TLVs with the time filled in; nothing else in the buffer changes. |
| `BabelInterface.StampSerial` | frr/babeld/message.c:824-846 | The fourteen bytes from the place remembered are the Hello, whatever was written before and after it. |
| `BabelSend.CarriesStampedMore` | frr/babeld/message.c:1061-1094 | Whenever a packet leaves, its TLVs tell the messages written with that time filled in; every further message keeps this so. |
| `BabelInterface.Interface.constructor` | frr/babeld/babel_interface.c:581-597 | The buffer has at least 64 bytes whatever the MTU, and starts empty. |
| `BabelInterface.Interface.Accumulate` | frr/babeld/message.c:955-985 | Appends bytes within the buffer. |
| `BabelInterface.Interface.StartMessage` | frr/babeld/message.c:935-943 | With room for the TLV nothing is flushed; otherwise pending updates and the packet go out first. |
| `BabelInterface.Interface.EndMessage` | frr/babeld/message.c:945-953 | The assertion about the TLV just written holds. |
| `BabelInterface.Interface.FlushBuf` | frr/babeld/message.c:848-889 | Terminates; pending updates go out first, the packet stands alone and holds at most one Hello, and nothing is remembered. |
| `BabelInterface.Interface.EnsureSpace` | frr/babeld/message.c:927-933 | Afterwards there is room; with room before, nothing happened. |
| `BabelInterface.Interface.FlushUpdates` | frr/babeld/message.c:1291-1415 | Terminates; the log grows by exactly the updates due, sorted, each as the tables say. |
| `BabelInterface.Interface.ReallySendUpdate` | frr/babeld/message.c:1157-1255 | The update, with the filter metric added, is logged and written, or left out as the interface state and filters say; between its first and last TLV nothing is flushed. |
| `BabelInterface.Interface.WriteUpdate` | frr/babeld/message.c:1183-1254 | With 60 bytes of room the Update and all it depends on are written into one packet. |
| `BabelInterface.Interface.CountOmitted` | frr/babeld/message.c:1205-1209 | The loop counts the leading bytes shared with the last prefix. |
| `BabelInterface.UpdateBody` | frr/babeld/message.c:1230-1249 | The fields are written in their order. |
| `BabelInterface.Interface.BufferUpdate` | frr/babeld/message.c:1429-1466 | A destination is noted, after a flush if the list is full. |
| `BabelInterface.Interface.SendHelloMessage` | frr/babeld/message.c:1061-1094 | A second Hello starts a new packet; with time stamps, room is left for the time. |
| `BabelInterface.Interface.SendWhenUp` | frr/babeld/message.c:1531-1558 | IHUs and wildcard retractions go out while the interface is up. |
| `BabelInterface.Interface.SendRequestMessage` | frr/babeld/message.c:1715-1754 | Pending updates go out before a request. |
| `BabelParse.MaskPrefix` | frr/babeld/util.c:202-217 | The copy and the partial byte give the masked prefix. |
| `BabelParse.ReadPrefix` | frr/babeld/message.c:60-118 | The buffer-filling parser reads what the specification says, from the given bytes only. |
| `BabelParse.ReadUpdateAttributes` | frr/babeld/message.c:120-179 | The walk terminates inside the TLV with the specified result. |
| `BabelParse.ReadHelloStamp` | frr/babeld/message.c:181-236 | The same for a Hello. |
| `BabelParse.ReadIhuStamps` | frr/babeld/message.c:238-284 | The same for an IHU. |
| `BabelParse.ReadRequestSource` | frr/babeld/message.c:286-340 | The same for a request, whose sub-TLV type is always taken from the first byte. |
| `BabelParse.ReadHello` | frr/babeld/message.c:471-522 | Reads a Hello inside its TLV. |
| `BabelParse.ReadIhu` | frr/babeld/message.c:523-548 | Reads an IHU inside its TLV. |
| `BabelParse.ReadNextHop` | frr/babeld/message.c:554-573 | Reads a Next Hop inside its TLV; a bad one forgets both next hops. |
| `BabelParse.ReadUpdate` | frr/babeld/message.c:574-676 | Reads an Update inside its TLV, with the state it leaves when it is dropped. |
| `BabelParse.ReadRequest` | frr/babeld/message.c:677-726 | Reads a request inside its TLV. |
| `BabelParse.ReadSeqnoRequest` | frr/babeld/message.c:727-745 | Reads a seqno request inside its TLV. |
| `BabelParse.ParsePacket` | frr/babeld/message.c:402-756 | The second pass yields exactly what the packet means, meeting the TLVs that the first pass found, at the same offsets, and ending with the last of them. |
| `Bucket.RateBound` | frr/babeld/message.c:802-822 | By any time t, over any run of attempts with a monotone clock, at most 200 + 40 (t - creation) packets are sent. |
| `Bucket.WindowBound` | frr/babeld/message.c:802-822 | In any stretch of a run, at most two buckets more than the rate allows. |
| `Bucket.GrantedAgain` | frr/babeld/message.c:802-822 | A second after the bucket was found empty a packet may be sent. |
| `Bucket.BurstGranted` | frr/babeld/message.c:802-822 | Exactly how many of any number of attempts succeed after a bucket was found empty: 40 for every second since, up to 200. |
| `Bucket.TokenBucket.Check` | frr/babeld/message.c:802-822 | Each attempt keeps tokens spent and left within what time has brought. |
| `Bucket.TokenBucket.constructor` | frr/babeld/babel_interface.c:1330-1331 | An interface starts with a full bucket. |
| `AsPath.CanonicalForm` | frr/bgpd/bgp_aspath.c:230-289 | On lists of non-empty segments two normal forms are equal if and only if the paths mean the same. |
| `AsPath.NormaliseMeaning` | frr/bgpd/bgp_aspath.c:230-289 | Normalising keeps the meaning: hops in order, sets as sets, confederation parts. |
| `AsPath.NormaliseRebuilds` | frr/bgpd/bgp_aspath.c:230-289 | The normal form is a function of the meaning. |
| `AsPath.NormaliseIdempotent` | frr/bgpd/bgp_aspath.c:230-289 | Normalising twice is normalising once. |
| `AsPath.NormalIffFixed` | frr/bgpd/bgp_aspath.c:230-289 | The fixed points are exactly the lists with sorted sets and merged sequences. |
| `AsPath.EmptySegmentNotCanonical` | frr/bgpd/bgp_aspath.c:230-289 | With an empty segment the normal form is not determined by the meaning. |
| `AsPath.CountsFromMeaning` | frr/bgpd/bgp_aspath.c:398-412 | Hop count and membership are properties of the meaning. |
| `AsPath.NormaliseCounts` | frr/bgpd/bgp_aspath.c:230-289 | Normalising keeps hop count and members. |
| `AsPath.WeedOutDuplicates` | frr/bgpd/bgp_aspath.c:251-262 | In place, a sorted array loses its duplicates. |
| `AsPath.SortSegment` | frr/bgpd/bgp_aspath.c:245-263 | A set becomes the ascending list of its members. |
| `AsPath.AppendFollowing` | frr/bgpd/bgp_aspath.c:272-284 | A sequence takes up those that follow it. |
| `AsPath.NormalisePath` | frr/bgpd/bgp_aspath.c:230-289 | The loop computes the normal form. |
| `AsPath.ComparePaths` | frr/bgpd/bgp_aspath.c:2207-2231 | The comparison is equality of segment lists. |
| `AsPath.SameMeaning` | frr/bgpd/bgp_aspath.c:2207-2231 | On normal paths it decides whether two paths mean the same. |
| `AsPathStray.RoundTripIff` | frr/bgpd/bgp_aspath.c:903-977 | For all paths of non-empty segments, with four octets and with two: what is read back is the normal form of what the reader is to see (large numbers as AS_TRANS with two octets) if and only if no set or confederation segment exceeds 255 members and no three sequences are packed into one. |
| `AsPathStray.Astray` | frr/bgpd/bgp_aspath.c:734-828 | Behind a length octet that is too small a reader never finds back, whatever the AS numbers: it never yields the hops that were written, followed by anything. |
| `AsPathStray.SplitStray` | frr/bgpd/bgp_aspath.c:923-933 | A set or confederation segment that is split yields items too many, whatever follows. |
| `AsPathWire.NormalRoundTrip` | frr/bgpd/bgp_aspath.c:903-977 | In particular a normal path comes back unchanged, sequences split at 255 included, if and only if it has no such segment. |
| `AsPathWire.LargeIsTrans` | frr/bgpd/bgp_aspath.c:875-890 | An example: a two-octet peer sees AS 70000 as AS 23456. |
| `AsPathWire.EmittedMeaning` | frr/bgpd/bgp_aspath.c:903-977 | Splitting and packing keep the meaning exactly when no set or confederation segment is split. |
| `AsPathWire.PackedThreeUnreadable` | frr/bgpd/bgp_aspath.c:946-970 | Three sequences in a row are written with a wrong length and cannot be read. |
| `AsPathWire.LengthOctetRightIff` | frr/bgpd/bgp_aspath.c:946-970 | The length octet is right if and only if all packed segments but the last are empty. |
| `AsPathWire.Put` | frr/bgpd/bgp_aspath.c:903-977 | Writes that form; the count returned is that of the bytes written. |
| `AsPathWire.PutFull` | frr/bgpd/bgp_aspath.c:903-945 | Writes the full chunks of an overlong segment. |
| `AsPathWire.PackFollowing` | frr/bgpd/bgp_aspath.c:946-970 | Packs what follows, rewriting the length octet each time. |
| `AsPathWire.ParsePath` | frr/bgpd/bgp_aspath.c:734-828 | Checks each length before it is trusted, and refuses what the specification refuses. |
| `AsPathWire.SeenMeaning` | frr/bgpd/bgp_aspath.c:875-890 | The two-octet view of a path means the two-octet view of its meaning. |
| `AsPathReconcile.As4RoundTrip` | frr/bgpd/bgp_aspath.c:1831-1930 | An old speaker put `q` before the two-octet view of the normal path `p`, confederations in `q` included: reconciling what it sent with `p` gives the normal form of `q` before `p`, if and only if `p` has no confederation segments. |
| `AsPathReconcile.As4OverTheWire` | frr/bgpd/bgp_aspath.c:1831-1930 | The same through the wire forms of both attributes. |
| `AsPathReconcile.ReconcileMeaning` | frr/bgpd/bgp_aspath.c:1831-1930 | For all paths: the result means that beginning of AS_PATH that weighs as much as it has more, before AS4_PATH. |
| `AsPathReconcile.FewerHopsIff` | frr/bgpd/bgp_aspath.c:1848-1860 | An AS_PATH with fewer hops than AS4_PATH is kept whole if and only if all but its last item weigh less than its hops without confederations. |
| `AsPathReconcile.FewerHopsMembers` | frr/bgpd/bgp_aspath.c:1848-1860 | Without confederations it is, so that no AS number of either path is lost to loop detection. |
| `AsPathReconcile.FewerHopsLoses` | frr/bgpd/bgp_aspath.c:1848-1860 | An example with a confederation sequence: a hop of AS_PATH gets lost. |
| `AsPathReconcile.TakeMeaning` | frr/bgpd/bgp_aspath.c:1871-1914 | Taking hops takes the shortest beginning of the meaning that weighs as much, a confederation sequence weighing all its members. |
| `AsPathReconcile.CopySegment` | frr/bgpd/bgp_aspath.c:1871-1914 | The switch on the segment type. |
| `AsPathReconcile.ReconcileAs4` | frr/bgpd/bgp_aspath.c:1831-1930 | The loop computes the specified path. |
| `AsPathAggregate.AggregateMembers` | frr/bgpd/bgp_aspath.c:1037-1114 | The AS numbers of an aggregate are exactly those of both paths. |
| `AsPathAggregate.AggregateKeepsLoops` | frr/bgpd/bgp_aspath.c:1161-1181 | A router sees itself in an aggregate if and only if it sees itself in one of the paths. |
| `AsPathAggregate.AggregateKeepsOrder` | frr/bgpd/bgp_aspath.c:1049-1087 | The aggregate of normal paths begins with exactly the hops both begin with, in order. |
| `AsPathAggregate.AggregateKeepsCommon` | frr/bgpd/bgp_aspath.c:1049-1087 | For normal paths, all that both begin with (hops, sets, confederation sequences and sets) begins their aggregate, in order. |
| `AsPathAggregate.AggregateIs` | frr/bgpd/bgp_aspath.c:1037-1114 | Exactly what an aggregate says: the common part, and one set of the AS numbers that come after it in either path. |
| `AsPathAggregate.LoopCheckCounts` | frr/bgpd/bgp_aspath.c:1161-1181 | The loop check counts every occurrence once. |
| `AsPathAggregate.CommonLeading` | frr/bgpd/bgp_aspath.c:1049-1087 | The loop finds the common leading part and what is left of both. |
| `AsPathAggregate.AddToSet` | frr/bgpd/bgp_aspath.c:1002-1034 | Members are added unless already there. |
| `AsPathAggregate.AggregatePaths` | frr/bgpd/bgp_aspath.c:1037-1114 | The code computes the specified aggregate. |
| `AsPathAggregate.Cache.Recompute` | frr/bgpd/bgp_aspath.c:2357-2373 | In whatever order the hash table yields the paths, the cached aggregate holds the AS numbers of all referenced paths and no others. |
| `AsPathAggregate.Cache.Add` | frr/bgpd/bgp_aspath.c:2320-2327 | One reference more, and the cache is right. |
| `AsPathAggregate.Cache.Remove` | frr/bgpd/bgp_aspath.c:2375-2406 | One reference less, and the cache is right although it is recomputed only when the last reference goes. |
| `AsPathAggregate.WithWithout` | frr/bgpd/bgp_aspath.c:2375-2406 | Removing a reference undoes adding one. |
| `Bfd.PollSettles` | frr/bfdd/bfd_packet.c:976-1033 | For every run of sends, losses and repetitions: when a Poll Sequence is over, the poller detects by the multiplier and pace its peer sends with, and both pace by the configured intervals. |
| `Bfd.PeerFollows` | frr/bfdd/bfd_packet.c:1009-1033 | The peer detects by the pace of the poller from the next packet it takes on, for good. |
| `Bfd.SettledStep` | frr/bfdd/bfd_packet.c:976-1033 | The outcome lasts through all further sends, deliveries, losses and repetitions. |
| `Bfd.NegotiatingRun` | frr/bfdd/bfd_packet.c:976-1033 | In every state after a poll started it is unanswered, being answered, or settled. |
| `Bfd.AskedDetectionIff` | frr/bfdd/bfd_packet.c:1009-1033 | On the poll itself the detection time is the agreed one if and only if the interval listened by is the configured one, or neither exceeds the poller's, or the difference vanishes in 32 bits, which it never does for products that fit. |
| `Bfd.FirstPollTooSlow` | frr/bfdd/bfd_packet.c:1009-1033 | An example: the first poll after coming up leaves a detection time of three seconds where 900 ms are agreed. |
| `BfdPoll.PollEndsWellIff` | frr/bfdd/bfd_packet.c:976-1033 | For every link on which one side polls: all runs that end the poll leave it detecting by the pace its peer sends at, and for good, if and only if what is on the way is harmless, a condition on the packets on the way and on what both sides are configured and set to (`Harmless`). |
| `BfdPoll.UnansweredPollIff` | frr/bfdd/bfd_packet.c:995-1033 | In particular, where the peer does not poll and has not answered: if and only if every poll on the way leads to the pace that the intervals now configured call for. |
| `BfdPoll.ReconfigurationIff` | frr/bfdd/bfd.c:140-214 | A change of the intervals or the multiplier at any time: where a poll runs afterwards, it ends well if and only if what is on the way is harmless under the new configuration; otherwise only the multiplier has changed, and nothing about how polls end. |
| `BfdPoll.OlderPollMisleads` | frr/bfdd/bfd_packet.c:984-997 | From two sides that agree, a run of two changes of the intervals: the answer to the poll for the first ends the poll for the second, and both sides disagree. |
| `BfdPoll.LateAnswerMisleads` | frr/bfdd/bfd_packet.c:984-997 | Another: the second answer to a poll that was repeated ends a later poll that was never sent. |
| `BfdPoll.FairRun` | frr/bfdd/bfd_packet.c:976-1033 | The invariant behind it: as long as a poll is not answered, what the peer may follow leads it right; from then on it keeps the right pace and tells it. |
| `BfdState.StateFollows` | frr/bfdd/bfd.c:980-1102 | The state after a packet is that of section 6.8.6 of RFC 5880, for every state and every packet. |
| `BfdState.BringUp` | frr/bfdd/bfd.c:980-1102 | Two sessions that are down, whatever their intervals and whether passive or not, are brought up by three packets, and both then poll. |
| `BfdState.NeitherUpUnheard` | frr/bfdd/bfd.c:980-1102 | In every run from there, a side is up only after the other has taken a packet of its. |
| `BfdState.HearsDown` | frr/bfdd/bfd.c:516-570 | A session that hears that its peer is down goes down, says so if it has a socket, and slows, unless that packet polled it. |
| `BfdState.UpPolls` | frr/bfdd/bfd.c:491-514 | A session that comes up sends a poll with its configured intervals at once. |
| `BfdState.NeverBoth` | frr/bfdd/bfd_packet.c:379-430 | In every run no packet both polls and answers, so that an answer is never answered. |
| `BfdState.DemandKeepsPace` | frr/bfdd/bfd.c:1157-1195 | In demand mode a session keeps its pace. |
| `Bfd.TimesExactIff` | frr/bfdd/bfd_packet.c:1009-1016 | The detection time is the product exactly if that is below 2^32. |
| `Bfd.GapBound` | frr/bfdd/bfd.c:420-442 | For every random number the time to the next packet is at most the interval, and less if the multiplier is one. |
| `Bfd.GapRange` | frr/bfdd/bfd.c:420-442 | The possible times to the next packet are exactly all percentages of the interval from 75 on, up to 90 for a multiplier of one and up to 100 otherwise. |
| `Bfd.LossTolerated` | frr/bfdd/bfd.c:420-442 | For every jitter, if all but the last of up to mult packets in a row are lost, that one arrives within the detection time. |
| `Bfd.BfdSession.constructor` | frr/bfdd/bfd.c:662-691 | A session starts down with slow timers. |
| `Bfd.BfdSession.SessionUp` | frr/bfdd/bfd.c:491-514 | A session that comes up polls at once. |
| `Bfd.BfdSession.SessionDown` | frr/bfdd/bfd.c:516-570 | A session that goes down slows, and says so if it still has a socket. |
| `Bfd.BfdSession.StateHandler` | frr/bfdd/bfd.c:980-1102 | The state machine. |
| `Bfd.BfdSession.Receive` | frr/bfdd/bfd_packet.c:976-1033 | The handling of a packet, with the detection time set before a poll is answered. |
| `ControlQueue.WholeMessages` | frr/bfdd/control.c:270-372 | The bytes written are a beginning of the concatenation of whole messages in queue order, and every message queued is in it exactly once. |
| `ControlQueue.Socket.Enqueue` | frr/bfdd/control.c:300-323 | A message goes last; the next to be written is always the head. |
| `ControlQueue.Socket.EnqueueFirst` | frr/bfdd/control.c:325-372 | A message goes first, or second behind one that has started, which is never preempted. |
| `ControlQueue.Socket.Dequeue` | frr/bfdd/control.c:270-298 | The next message takes the place of the head, and a write is scheduled exactly if there is one. |
| `ControlQueue.Socket.Write` | frr/bfdd/control.c:517-552 | A partial write continues where the last one ended; a complete one moves on; a failed one leaves the stream as it was. |

## Left out

- AsPathWire.Put: takes a stream with room for the whole path; the early exit for a stream that is too short is not modelled.
- RouteTable.Table.ReceiveUpdate: allocation succeeds; the branch for a failed insertion is not modelled. Sending triggered updates and requests from it is not part of the table; the network model sends at any time instead.
- BabelNet.LoopFree: supposes that no source consulted is stale or collected and that the seqnos in use for a source lie within 2^15 of each other, because the code gives up the guarantee there; and that no update revives a retracted route unfeasibly with the consent of the kernel or is refused by the kernel so that a misleading metric is kept, because loops follow (`BabelGaps`).
- BabelInterface.Interface.SendHelloMessage: whether an interface uses time stamps is fixed when it is made; switching them on or off while a Hello is in the buffer is not modelled.
- BabelInterface.Interface.FlushBuf: whether the bucket lets a packet pass is an arbitrary choice; `Bucket` bounds how often it does. A packet that exceeds the largest datagram is never sent.
- BfdPoll.ReconfigurationIff: the multiplier and the two intervals are changed; echo, time-to-live and shutdown settings are not.
- BfdState.HearsDown: the detection timer, whose expiry takes a session down as well, is not part of the link.
- Bfd.PollSettles: starts with no poll on the way; `BfdPoll.PollEndsWellIff` is about all starts. Packets of one direction stay in order, and both sides stay up; echo packets, authentication and demand mode are not part of it.
- `update_neighbour_metric` and `update_interface_metric` walk along the lists as `RouteTable.Table.RetractNeighbour` does; which routes they miss is not stated.
- The unicast buffer: it holds requests, acknowledgements and IHUs in the same form, and no state to compress against.
- Sorting with `qsort` in `assegment_normalise` is modelled by its result, an ascending list; weeding out duplicates is modelled in place.
- Linked lists of routes, segments and queue entries are sequences: relinking and freeing nodes are not modelled.
- The lengths of AS path segments do not wrap at 2^16.
- RTT measurement, the cost of neighbours and the decision whether channels interfere enter as parameters.
- `resend.c`, timers and scheduling: sending at any time covers them.
- AS path text, JSON, regular expressions and the rewriting of private numbers.
- Configuration, command line, northbound, sockets, kernel interface, and the TWAMP scripts.
