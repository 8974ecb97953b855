# A model of ranet-lite's protocol state

ranet-lite is a mesh node: it speaks Babel (RFC 8966) to its neighbors over ESP tunnels (RFC 4303), keeps a
source-address dependent forwarding table, steers packets through segments (RFC 8754, RFC 8986) and negotiates its
tunnels with IKEv2 (RFC 7296). This project models the parts of it that keep state or have a fast form which must
agree with a simple one, and proves what they are for.

`dafny verify dfyconfig.toml` checks everything. Each module stands for one component:

| files | component | main results |
|---|---|---|
| `BabelOrder`, `BabelSources`, `BabelSelection`, `BabelTable`, `BabelRoutes`, `BabelMeaning` | source table, route selection and the route table of one speaker | counters equal true counts; selection is right and independent of visiting order; every reachable table is consistent; what each operation makes of a route, its hold and its link |
| `BabelNetwork`, `BabelNews`, `BabelOrigins` | a network of speakers with delayed, repeated, reordered and lost Updates | the routes for one source never form a loop; nobody offers what they may not; a change is announced exactly when somebody would hear news; the tables never outgrow their caps, however many origins are named |
| `BabelLedger` | what a neighbor was told, across refused and lost packets | no retraction and no offer is ever forgotten, and nothing is recorded that was never said |
| `BabelTlv`, `BabelUpdate`, `BabelPackets`, `BabelCoalesce`, `BabelDump` | codecs and packetizer | cutting, merging, eliding router-ids and omitting shared octets change nothing that is heard, down to the bytes |
| `BabelRequests`, `BabelSuppression`, `BabelRunLoop`, `BabelPace`, `BabelSpeaker`, `Deadlines` | request tables, the run loop's sleep, and the speaker that owns all of them | shares and caps are exact; requests are relayed, asked and repeated exactly as often as they should be; the loop never oversleeps, and a pass leaves it something already due exactly when a Hello is overdue by a whole history; every entry point of the speaker is a move of the machine this is proved of |
| `BabelHello`, `BabelDatagram` | Hello history, link cost, UDP checksum | the vector is the recent past; whatever is sent is read, and one changed word is caught |
| `Words`, `SadrBits`, `SadrSources`, `SadrTrie`, `SadrIndex`, `SadrTable` | the forwarding trie | every lookup gives the answer of a scan over all pairs |
| `EspTrailer`, `EspPacket`, `EspReplay`, `EspInbound`, `EspOutbound` | ESP sequence and replay state, sealing | the bitmap is a set; each number shows its plaintext once, committed against the bitmaps themselves, and is sealed once |
| `Srv6Header`, `Srv6` | H.Encaps, End, End.DT46 | a packet visits its path and comes out byte for byte |
| `ChildSas` | Child SA lifecycle and SPI routing | exactly the live SPIs are routed; exactly when a Delete removes what it names |
| `UdpSend` | UDP segmentation offload | the datagrams sent are the packets given, in order |
| `IkePayloads`, `IkeSa` | IKE messages, payload chains and SA payloads | decoding undoes encoding, and only whole bodies are accepted |
| `Bytes`, `Wrappers` | octets, optional values, results | |

Objects whose methods update fields are classes, in-place buffer code works on arrays, and each method is tied to a
function or relation on values about which the properties are proved. A 64-bit word is a sequence of 64 bits, so that
shifts and masks mean what the hardware does, bit by bit. Times are whole numbers with zero for "never", as in the
source. Map iteration picks its next key arbitrarily, so every result holds for every order. Sealing is any pair of
functions of which opening undoes sealing. Clocks, callbacks, the kernel's answers and free transmission slots are
parameters.

The network result rests on assumptions that are written into `BabelNetwork.Run`: the sequence numbers of one source
alive at one time lie within half the 16-bit circle (`BabelOrder.SeqnoOrderCycles` shows why some such bound is needed),
no distance is collected while a route or an Update built on it is about, no node restarts, and the claim is about one
(prefix, router-id) source at a time.

The ledger result takes every packet that got a place in the transmission order to be delivered in that order or
reported lost; a transport that swallowed a packet without saying so would leave a neighbor holding a retracted prefix.

The run loop is a machine over the route, request and repeat tables. A packet, a change of peers or prefixes and a pass
are each made of the operations those tables offer, and a run starts from empty tables. What every operation keeps is
proved in the table modules and carried through whole runs, so the sleep results assume nothing of the tables.

Where the source's documentation and code differ, the model follows the code:

- The package comment of `srv6/srv6.go` says a routing header is found only as the first extension header; the code walks
  hop-by-hop and destination options headers to it, and so does `Srv6Header.FindRouting`.
- The comment on the Hello history suggests that a late Hello undoes the losses counted against it; that is so exactly
  when at most one was counted or none of the known entries had been pushed out by them
  (`BabelHello.LateHelloRestores`).
- A path of n segments is walked to its end only if the inner hop limit is at least n; `Srv6.PathRoundTrip` states both
  directions.
- A pass leaves the loop a timer that is already due exactly when a link still held to be alive has Hellos overdue by
  sixteen intervals: the sweep counts no more than sixteen at a time. `BabelPace.SpinsExactlyWhen` states both directions
  for every run, and `BabelPace.LatePassSpins` is a run in which it happens.
- A Delete removes every Child SA it names unless the active and the replaced one share a remote SPI that it mentions
  exactly once; then the replaced one stays. `ChildSas.NamedAreGoneExactlyWhen` states both directions, and
  `ChildSas.OneMentionDeletesOne` is the input, which `ChildSas.SharingIsReached` shows how to reach.
- The comment on the caps of the source table says that they bound it. Room is looked for when a route is selected and
  taken when the route is first advertised, so routes selected together can fill more than what was left. The bound that
  holds in every run is both caps together for the table (`BabelOrigins.TablesAreCapped`) and the cap itself for one
  prefix (`BabelOrigins.OriginsAreCapped`), the node's own entries aside.
- After 2^64 requested numbers the ESP counter comes round and hands out number 1 again (`EspOutbound.ReuseAfterWrapping`).

## Model

| member | source | states |
|---|---|---|
| BabelOrder.SeqnoOrderIsLinear | internal/babel/source.go:83-85 | within half the circle the 16-bit sequence order is total and transitive |
| BabelOrder.SeqnoOrderCycles | internal/babel/source.go:83-85 | beyond half the circle three numbers can each be newer than the next |
| BabelOrder.BetterIsStrictOrder | internal/babel/source.go:83-85 | within half the circle "better distance" is a strict total order, "at least as good" is better or equal, and at least as good before better is better |
| BabelSources.ObservedBoundsWhatWasSaid | internal/babel/source.go:122-152 | after an advertisement the recorded distance is at least as good as what was said, no recorded distance gets worse and no other source changes |
| BabelSources.RecordLasts | internal/babel/source.go:117-152 | a distance said is charged to the neighbor it was last said through and to no other, and stays on record for exactly the collection time |
| BabelSources.RequestSeqno | internal/babel/source.go:158-163 | an answer carrying the requested sequence number is feasible whatever its finite metric and whoever sends it |
| BabelSources.RequestIsTheNextNumber | internal/babel/source.go:154-163 | the number asked for is the one right after the recorded one, or after the advertised one if none is recorded |
| BabelSources.SourceTable.constructor | internal/babel/route.go:130-141 | an empty table has exact counters |
| BabelSources.SourceTable.Feasible | internal/babel/source.go:89-115 | the counters decide exactly what counting the table would decide: feasible iff a retraction, better than the record, or unknown and under all four caps |
| BabelSources.SourceTable.Observe | internal/babel/source.go:122-152 | records the better distance and the new owner, and keeps all three counters equal to the true counts, ownership transfers included |
| BabelSources.ReleaseCounts | internal/babel/source.go:196-208 | giving a share back lowers that counter by one, removes it at zero and leaves every other counter alone |
| BabelSources.SourceTable.SweepSources | internal/babel/source.go:179-192 | drops exactly the entries whose time is over and keeps the counters exact |
| BabelSources.TransferShare | internal/babel/source.go:122-152 | moving one entry between owners moves one unit of each share |
| BabelSelection.Cost | internal/babel/route.go:337-339 | a finite cost is strictly above the received metric, no cost is below the link's, and an unreachable link or metric makes it infinite |
| BabelSelection.CostFollowsBoth | internal/babel/route.go:331-339 | the cost grows with the link and with the metric, strictly while finite; it is finite exactly when both are and their sum is, and then it is the metric plus the link's cost, at least one |
| BabelSelection.SaturatingSums | internal/babel/rtt.go:150-159 | the saturating sum is commutative, associative, monotone and never below a part |
| BabelSelection.SmoothingOnlyDampsImprovement | internal/babel/route.go:352-368 | the smoothed metric follows an increase at once, never falls below the cost and never rises when the cost improves |
| BabelSelection.SmoothOnce | internal/babel/route.go:341-368 | one pass leaves an improvement damped by what the elapsed time says, and so never takes all of it |
| BabelSelection.OnlyTheLastPassCounts | internal/babel/route.go:341-368 | at one cost the passes in between do not matter: however many are made and whenever, the last alone decides |
| BabelSelection.ChoiceIsRight | internal/babel/route.go:206-303 | nothing is chosen iff no unexpired, finite, feasible candidate exists; a choice is the (cost, peer) minimum or the incumbent under the two-metric rule, at a cost strictly above the received metric |
| BabelSelection.ChoiceIsUnique | internal/babel/route.go:206-303 | the choice does not depend on the order candidates are visited in |
| BabelSelection.NextCandidate | internal/babel/route.go:206-303 | one step of the scan keeps the minimum of the candidates seen |
| BabelSelection.AdvertisingKeepsTheRouteFeasible | internal/babel/route.go:206-303 | advertising the selected route never makes it unfeasible |
| BabelSelection.AdvertisingSparesOtherSources | internal/babel/source.go:122-152 | advertising one source leaves selections of other sources sound |
| BabelRoutes.RouteTable.constructor | internal/babel/route.go:130-141 | the empty table |
| BabelRoutes.RouteTable.Scan | internal/babel/route.go:206-303 | in any order, yields the surviving routes, the best usable one, the incumbent if still usable, the unfeasible ones, and keeps the earliest expiry |
| BabelRoutes.RouteTable.Decide | internal/babel/route.go:206-303 | the scan and the hysteresis rule make exactly a selection step |
| BabelRoutes.RouteTable.SelectRoute | internal/babel/route.go:206-303 | selects, installs or forgets the forwarding entry, marks the prefix dirty when the change matters, and asks every unfeasible neighbor once when the last route went |
| BabelRoutes.RouteTable.Update | internal/babel/route.go:145-202 | acquires one advertised route, or ignores it when unknown and unfeasible, infinite, without hold time or over the cap, and selects again; marks exactly that prefix if it moved, and asks the selected neighbor for a newer number when its update is not feasible, before whoever else is asked; what that makes of the route is stated by the BabelMeaning rows |
| BabelRoutes.RouteTable.RecomputeNeighbor | internal/babel/route.go:384-390 | selects again exactly where the neighbor has a route; exactly the prefixes that moved become dirty and exactly the needed requests are queued, once each |
| BabelRoutes.RouteTable.ExpireNeighbor | internal/babel/route.go:396-404 | discards the routes of a neighbor that is gone and selects again where it had one, with the prefixes that moved dirty and the needed requests queued |
| BabelRoutes.RouteTable.RetractNeighbor | internal/babel/route.go:418-434 | a repeated wildcard retraction is remembered and changes nothing; the first retracts every route of the neighbor, with the prefixes that moved dirty and the needed requests queued |
| BabelRoutes.RouteTable.SweepExpired | internal/babel/route.go:442-451 | ages every route, sweeps the sources, leaves the kept deadline exact, and owes exactly what the walk stirred |
| BabelRoutes.RouteTable.NoteExpiry | internal/babel/route.go:454-456 | the kept deadline moves no later and covers the given one |
| BabelRoutes.RouteTable.Walk | internal/babel/route.go:384-451 | every touched prefix is edited and selected again and no other moves; a prefix becomes dirty iff its selection moved enough or its entry went; the requests queued are exactly those of the prefixes that lost their selection, once each |
| BabelTable.WalkNeedsGrow | internal/babel/route.go:206-303 | the requests of one more prefix are new and leave those of the others alone |
| BabelRoutes.RouteTable.AdoptOriginated | internal/babel/speaker.go:367-370 | an originated prefix loses what was learned for it and is held unreachable |
| BabelRoutes.RouteTable.ReleaseOriginated | internal/babel/speaker.go:375-377 | a prefix no longer originated is let go |
| BabelTable.SweepMakesTheMinimumExact | internal/babel/route.go:442-456 | after a sweep the kept deadline is the earliest expiry in the table, or none when it is empty |
| BabelTable.StepKeepsTable | internal/babel/route.go:145-451 | every operation keeps: selection sound against recorded distances, forwarding equal to selection, remembered retractions in force, kept deadline never late |
| BabelTable.EveryRunKeepsTheTable | internal/babel/route.go:145-451 | the same in every state reachable from the empty table by any sequence of operations |
| BabelTable.RetractionTakesHold | internal/babel/route.go:418-434 | after a wildcard retraction no finite route from that neighbor is left and none is selected |
| BabelTable.OriginationKeepsTable | internal/babel/speaker.go:354-377 | taking over or giving back an originated prefix keeps the table consistent |
| BabelMeaning.FiniteUpdateIsKept | internal/babel/route.go:145-202 | an admitted finite Update with a hold leaves that advertisement, that hold and an expiry of now plus the hold |
| BabelMeaning.FeasibleUpdateIsSelected | internal/babel/route.go:145-303 | if it is also feasible and its link's cost and its metric add up to a finite one, the prefix has a selected route |
| BabelMeaning.FeasibleUpdateIsForwarded | internal/babel/route.go:145-303 | and is forwarded to the neighbor selected |
| BabelMeaning.RetractionStartsTheHold | internal/babel/route.go:145-202 | a first retraction expires at now plus the hold of the Update it replaces |
| BabelMeaning.RepeatedRetractionMovesNothing | internal/babel/route.go:145-202 | a repeated one leaves the expiry where it was, and the route is there exactly until then |
| BabelMeaning.UpdateSparesOthers | internal/babel/route.go:145-303 | one neighbor's Update leaves every unexpired route of the others as it is and brings none in |
| BabelMeaning.WildcardStartsTheHold | internal/babel/route.go:418-434 | a wildcard retraction starts the same hold for every finite route of the neighbor |
| BabelMeaning.GoneLeavesNothing | internal/babel/route.go:396-411 | a neighbor that is removed leaves no route, and no unexpired route of another goes with it |
| BabelMeaning.SweepAges | internal/babel/route.go:206-303 | a sweep keeps an unexpired route, makes an expired one unreachable for its hold, and flushes one that was |
| BabelMeaning.SelectedOverALink | internal/babel/route.go:206-303 | after any step that selects again, the selected neighbor's link is finite in that pass and the cost is the link's, at least one, plus the metric it advertised |
| BabelMeaning.CheaperLinkIsTaken | internal/babel/route.go:206-303 | among usable routes of one metric the challenger chosen has the cheapest link, and a strictly cheaper one than the incumbent it replaces |
| BabelMeaning.DeadLinkIsLeft | internal/babel/route.go:206-303 | a neighbor with an unreachable link is not selected, not even one that was |
| BabelMeaning.StepRetractsAsSelected | internal/babel/route.go:206-303 | every operation keeps the retraction in step with the selection: a prefix that loses its route is retracted under the router-id and number it was last selected with |
| BabelMeaning.EveryRunKeepsRoom | internal/babel/route.go:145-202 | in every run the table holds at most its cap of prefixes |
| Deadlines.Earlier | internal/babel/route.go:479-484 | the earlier of two deadlines with zero as never |
| BabelNetwork.StepKeepsRecord | internal/babel/send.go:449-489 | every finite Update in flight and every route learned from one is on record at its sender, after every step of the network |
| BabelNetwork.StepKeepsNodes | internal/babel/receive.go:225-245 | every node's tables stay consistent in every step of the network |
| BabelNetwork.NewMessageIsRecorded | internal/babel/send.go:449-489 | a finite Update's distance is recorded before it leaves |
| BabelNetwork.DistanceDescends | internal/babel/source.go:83-152 | a next hop's recorded distance is strictly better than that of the node forwarding to it |
| BabelNetwork.NoLoops | internal/babel/source.go:83-152 | no cycle of next hops for one source |
| BabelNetwork.EveryRunIsLoopFree | internal/babel/source.go:83-152 | loop freedom and strictly descending distances in every state of every run with arbitrary delivery |
| BabelNetwork.OffersExactlyWhenEntitled | internal/babel/send.go:410-489 | an Update to a neighbor is finite exactly when its sender originates the prefix, or relays and forwards it to somebody else; it then carries the origin's router-id and number, at cost zero if own and above the metric received if not |
| BabelNetwork.RetractionCarries | internal/babel/send.go:410-489 | any other Update is a retraction, under the router-id and number of the selected or last selected route, or else the sender's own |
| BabelNetwork.NewMessageIsEntitled | internal/babel/send.go:410-489 | every message a step of the network adds was built that way |
| BabelNetwork.EveryMessageWasEntitled | internal/babel/send.go:410-489 | in every run every message about was built at some moment of it by a sender then entitled to offer exactly if it is an offer |
| BabelNetwork.NoTransitSpeaksForItself | internal/babel/send.go:410-489 | in every run a node that does not relay offers only prefixes it originated |
| BabelNews.SignificantIsNews | internal/babel/route.go:305-322 | a change of selection earns an Update exactly when some neighbor would be told another origin or number, an offer for a retraction or the reverse, or a metric higher by the trigger or more |
| BabelNews.WalkMarksNews | internal/babel/route.go:206-303 | a walk over the table marks exactly the prefixes it flushes and those of which somebody would hear news |
| BabelNews.UpdateMarksNews | internal/babel/route.go:145-303 | an Update taken in marks at most its own prefix, and exactly then |
| BabelNews.WalkAsksTheStarved | internal/babel/route.go:206-303 | a walk asks, once each, exactly the neighbors that still offer a prefix which lost its route in it, for the number that would make the offer feasible |
| BabelNews.UpdateAsksTheStarved | internal/babel/route.go:145-303 | an Update asks its sender exactly if it was selected and its Update is not feasible, and whoever else still offers exactly if the prefix is left without a route |
| BabelOrigins.OriginsAreCapped | internal/babel/source.go:34-152 | in every run a node records at most the cap of origins for one prefix, and one more for itself, whatever its neighbors name |
| BabelOrigins.TablesAreCapped | internal/babel/source.go:34-152 | in every run the origins recorded besides the node itself are at most both caps together, because a route of an unknown origin is only selected while the source table has room |
| BabelOrigins.SelectingNeedsRoom | internal/babel/source.go:89-115 | a route of an origin not on record is only selected below the cap of the whole table |
| BabelLedger.Neighbor.AdvertiseTo | internal/babel/send.go:449-489 | a retraction is built only for a prefix on record or when forced, and spends the record exactly when there was one |
| BabelLedger.Neighbor.DumpFor | internal/babel/send.go:573-585 | says exactly, in the order of the keys and once each, the Updates due for reachable keys and for keys on record, and leaves exactly the reachable ones recorded |
| BabelLedger.DumpedHas | internal/babel/send.go:573-585 | a dump speaks of every reachable key and every key on record, and of no other |
| BabelLedger.DumpedOnce | internal/babel/send.go:573-585 | and of each once |
| BabelLedger.Neighbor.OweAgain | internal/babel/send.go:600-610 | gives the record back if it was spent and owes exactly a key something would rebuild, as stated for any number of them by BabelLedger.OwingAllOwes |
| BabelLedger.OwingAllOwes | internal/babel/send.go:202-214 | after giving back any packets a key is owed exactly if it was, or one of them was about it and it is known, on record, or given back to the record by then |
| BabelLedger.SilentExactlyWhen | internal/babel/send.go:449-489 | nothing is said exactly of a retraction that is neither forced nor answers to a record; a retraction spends the record it answers to |
| BabelLedger.NoOfferIsForgotten | internal/babel/send.go:119-214 | in every run an offer built and not yet delivered, with no later word about its prefix and no dump in its place, is in line, reported lost, or its prefix is owed |
| BabelLedger.Neighbor.ApplyLost | internal/babel/send.go:202-210 | gives back every lost undo in order |
| BabelLedger.OwingAllGivesBack | internal/babel/send.go:202-210 | afterwards the record is the old one and every spent key, all of them owed |
| BabelLedger.AdvertisableKeys | internal/babel/send.go:526-553 | each originated, known or told key exactly once |
| BabelLedger.StepKeeps | internal/babel/send.go:119-210 | advertising, placing, refusing, delivering, losing and giving back all keep the record of a prefix the neighbor may hold |
| BabelLedger.NoRetractionIsForgotten | internal/babel/send.go:119-210 | in every interleaving, a prefix the neighbor last heard as reachable is on record, or a retraction that spent the record is on its way, or its loss has been reported |
| BabelLedger.TheNextDumpSpeaks | internal/babel/send.go:526-585 | the keys a dump is made of hold every prefix the neighbor holds and the dump speaks of it, unless a retraction that spent the record is on its way |
| BabelLedger.NoPhantoms | internal/babel/send.go:449-489 | nothing is ever recorded that was not offered to the neighbor |
| BabelTlv.EncodeFrames | internal/babel/tlv.go:46-64 | appends every frame, padding as a single octet |
| BabelTlv.DecodeFrames | internal/babel/tlv.go:22-43 | the loop reads what the recursive definition reads, or refuses when it refuses |
| BabelTlv.PacketRoundTrip | internal/babel/tlv.go:46-94 | decoding an encoded packet gives its TLVs without the padding, whatever follows the declared body |
| BabelUpdate.UpdateRoundTrip | internal/babel/update.go:52-220 | whatever the decoder remembers, an encoded Update decodes to itself, marked ignored iff it has a zero interval and is no retraction |
| BabelUpdate.SourceRoundTrip | internal/babel/update.go:83-89 | a source prefix sub-TLV decodes to the prefix it was made from |
| BabelUpdate.ClearingMasks | internal/babel/update.go:226-230 | padding with zeros and clearing the last octet's tail is masking to the prefix length |
| BabelUpdate.PrefixDecoder.Decode | internal/babel/update.go:108-220 | the checks in order, the rebuilt prefix, the derived router-id and the sub-TLV scan are the decoding on every byte string; the memory follows an accepted Update with the prefix flag and is untouched by a refused one |
| BabelUpdate.OmissionIsAbbreviation | internal/babel/update.go:143-173 | an accepted Update that omits octets is read, and remembered, as the one that spells them out |
| BabelUpdate.AbbreviatedRoundTrip | internal/babel/update.go:108-220 | of two Updates in a row the second, with the octets it shares with the first left out, decodes to what was meant |
| BabelUpdate.RouterIdFromPrefix | internal/babel/update.go:174-198 | an Update names a router-id exactly under its flag: the low eight octets of an IPv6 prefix, an IPv4 one after four zeros |
| BabelUpdate.ScanAll | internal/babel/update.go:199-218 | the loop voids an Update for every mandatory sub-TLV but one well-formed source prefix |
| BabelPackets.TrimmingKeepsMeaning | internal/babel/send.go:300-367 | leaving out the router-id already in effect changes nothing that is read |
| BabelPackets.FreshReading | internal/babel/send.go:300-367 | a stretch that keeps router-ids with their Updates reads the same from a fresh parser state |
| BabelPackets.TakeUndos | internal/babel/send.go:90-99 | splits an ascending undo list at two TLV positions |
| BabelPackets.ReserveBatches | internal/babel/send.go:300-367 | the packets cover the action in order and, each read afresh, say what it says; none exceeds the size when every group fits; the undo lists concatenate to the rollback list; the undos of refused packets are reported; whole iff none was refused |
| BabelPackets.EncodedBoundsFrames | internal/babel/send.go:330-336 | the size the packetizer counts is no less than the encoded size |
| BabelCoalesce.Coalesce | internal/babel/send.go:220-266 | one action per target in order of first mention, holding everything addressed to it; nothing merged below two actions |
| BabelCoalesce.MergingKeeps | internal/babel/send.go:220-266 | a merged action says what its parts say in order, and each renumbered undo points at its own TLV |
| BabelCoalesce.GatheringKeeps | internal/babel/send.go:220-266 | the one action gathered for a target satisfies what the packetizer demands and says, in order, what all the actions for it said |
| BabelCoalesce.GatheringUndoes | internal/babel/send.go:220-266 | what was gathered, if refused, runs every callback and undoes everything consumed, in the order the actions were built |
| BabelDump.DumpIsPaired | internal/babel/send.go:514-522 | every Update of a dump directly follows its router-id |
| BabelDump.DumpSurvives | internal/babel/send.go:300-367 | parsing the bytes of each of a dump's packets afresh gives its Updates in order, each under its own router-id |
| BabelDump.PiecesAreHeard | internal/babel/send.go:300-367 | packets within the size a length field can hold are heard as they were meant |
| BabelDump.DumpFits | internal/babel/send.go:514-522 | every group of a dump fits a packet of 98 octets |
| BabelDump.MergedIsHeard | internal/babel/send.go:220-367 | through merging, cutting and the bytes, a target hears what the actions for it said, in order |
| BabelRequests.RequestTable.constructor | internal/babel/speaker.go:235-272 | empty tables have exact shares |
| BabelRequests.RequestTable.Allow | internal/babel/speaker.go:718-734 | accepts iff not redundant and within the asker's share and the table's cap; shares stay exact and capped, deadlines covered |
| BabelRequests.RequestTable.Record | internal/babel/speaker.go:738-745 | replaces an entry, moving its share to the new asker |
| BabelRequests.RequestTable.AllowAsk | internal/babel/send.go:822-830 | one request per neighbor and source within the window |
| BabelRequests.RequestTable.ForgetNeighbor | internal/babel/speaker.go:299-303 | drops exactly the windows a departed neighbor was asked in |
| BabelRequests.RequestTable.Sweep | internal/babel/speaker.go:760-782 | drops exactly the closed windows, gives each asker back exactly its shares and rebuilds the earliest deadline |
| BabelRequests.PassOwner | internal/babel/speaker.go:738-753 | an entry that changes hands moves one unit of share |
| BabelRequests.StarveTable.constructor | internal/babel/speaker.go:235-272 | an empty table has exact shares |
| BabelRequests.StarveTable.Remember | internal/babel/send.go:746-761 | adds or refreshes a repeat under both caps, shares exact, deadline covered |
| BabelRequests.StarveTable.RetryStarved | internal/babel/send.go:776-800 | drops a repeat whose prefix has a route or whose attempts are used up, doubles the delay of one that is due and names it, leaves the rest, gives the shares back and rebuilds the earliest deadline |
| BabelRequests.ReturningIsExact | internal/babel/speaker.go:747-782 | giving back one share per entry that went is the same as keeping the counts exact |
| BabelRequests.SweepKeeps | internal/babel/speaker.go:760-782 | a sweep keeps shares exact and capped and every open window covered |
| BabelRequests.RepeatKeeps | internal/babel/send.go:776-800 | a walk over the repeats keeps the same of them |
| BabelRequests.ForgetKeeps | internal/babel/send.go:764-771 | forgetting a repeat gives exactly its share back |
| BabelSuppression.RelaysAreSuppressed | internal/babel/speaker.go:715-782 | in every run a request is relayed exactly when the last one relayed for its source was a window ago or asked for an older number, and the asker has a share left, however often the tables are swept |
| BabelSuppression.AsksAreSuppressed | internal/babel/send.go:815-830 | in every run this node asks a neighbor it still has about a source exactly when it last did so a window ago or never |
| BabelSuppression.RepeatsBackOff | internal/babel/send.go:746-811 | in every run a starved source is asked about again exactly when it has no route, fewer than four repeats were made and the delay since the last word is over, which doubles with each repeat; never within the window in which asking is refused |
| BabelRunLoop.Deadline | internal/babel/speaker.go:546-573 | no timer is earlier, and it is one of them |
| BabelRunLoop.WakeForPacket | internal/babel/speaker.go:492-519 | wakes iff work is waiting, no sleep is set, or the deadline moved before the sleep |
| BabelSpeaker.Speaker.Turn | internal/babel/speaker.go:577-635 | a pass sweeps links, routes and requests, tells what is owed or everything, asks for what is starved and repeats what is due, and is exactly the machine's pass |
| BabelSpeaker.Speaker.constructor | internal/babel/speaker.go:235-272 | a speaker starts awake with empty tables |
| BabelSpeaker.SweepLink | internal/babel/speaker.go:683-706 | counts the Hellos overdue, at most a history of them, and drops the promises that lapsed |
| BabelSpeaker.Speaker.Tell | internal/babel/send.go:449-489 | what one neighbor is told of one prefix goes on record if it is finite, charged to the selected peer; nothing else does; what it is told is stated by BabelNetwork.OffersExactlyWhenEntitled and BabelNetwork.RetractionCarries |
| BabelSpeaker.Speaker.Speak | internal/babel/send.go:618-659 | every neighbor is told exactly what is due: in a dump everything originated, known or told to anyone, otherwise what changed and what it is owed; all of it on record; nothing stays dirty and a dump answers whoever asked for one |
| BabelSpeaker.Speaker.TellAll | internal/babel/send.go:573-585 | the keys are told to a neighbor one after the other |
| BabelSpeaker.Speaker.AskStarved | internal/babel/send.go:667-684 | every queued request to a present neighbor has been asked, now or within its window, and none is left |
| BabelSpeaker.Speaker.RepeatStarved | internal/babel/send.go:776-815 | walks the repeats once against the prefixes with a route; the windows opened are exactly those of the repeats put off and the live neighbors with a route |
| BabelSpeaker.Speaker.AskAround | internal/babel/send.go:801-812 | exactly the live neighbors with a route for the prefix have been asked |
| BabelSpeaker.Speaker.Receive | internal/babel/speaker.go:310-330 | a packet from a present neighbor, retractions without an interval included, is the machine's packet, starved requests drained and the wake decided; nobody else changes anything |
| BabelSpeaker.Speaker.AddPeer | internal/babel/speaker.go:274-286 | the routes of whoever held the name before go, a dump is due and the loop is woken |
| BabelSpeaker.Speaker.RemovePeer | internal/babel/speaker.go:288-306 | the windows a neighbor was asked in and its routes go with it and the loop is woken; an absent one changes nothing |
| BabelSpeaker.Speaker.OriginateFrom | internal/babel/speaker.go:341-352 | the prefix is held, what was learned for it goes, a dump is due and the loop is woken |
| BabelSpeaker.Speaker.SetOriginated | internal/babel/speaker.go:389-424 | exactly the wanted prefixes are held, those given up are let go, no other forwarding changes; an unchanged set changes nothing |
| BabelTable.StepKeys | internal/babel/route.go:145-451 | only an acquisition brings a prefix into the table, and an origination takes its own out |
| BabelRunLoop.MinimaCover | internal/babel/speaker.go:546-573 | the kept minima stand for every route expiry, repeat and suppression window |
| BabelRunLoop.StepKeeps | internal/babel/speaker.go:274-431 | packets, peer changes, originations, losses and passes, each made of table operations, keep the tables in order and the loop from sleeping past anything |
| BabelRunLoop.NeverOversleeps | internal/babel/speaker.go:577-635 | in every interleaving from empty tables, asleep without a wake token there is no pending work and nothing falls due before the loop wakes |
| BabelRunLoop.OpKeeps | internal/babel/speaker.go:718-782 | each operation on the route, request or repeat table keeps all three in order |
| BabelRunLoop.ReachesKeeps | internal/babel/receive.go:26-284 | so does any sequence of them |
| BabelRunLoop.PassSettles | internal/babel/speaker.go:577-635 | a pass leaves the tables in order and no work behind |
| BabelRunLoop.SweptLinkIsAhead | internal/babel/speaker.go:683-706 | a swept link keeps a promise already due iff it is still held to be alive and its Hellos are overdue by a whole history |
| BabelRunLoop.SweptLinkIs | internal/babel/speaker.go:683-706 | a sweep leaves a link up, its cost and its round-trip time known exactly while each is in date, and takes the cost and the Hello timers of a link it takes down |
| BabelRunLoop.OverdueStaysBehind | internal/babel/speaker.go:690-694 | after counting at most n overdue Hellos the next is still overdue iff n intervals do not reach the present |
| BabelPace.MoveLasts | internal/babel/route.go:145-202 | every finite route keeps a positive hold, whatever packets bring, retractions without an interval included |
| BabelPace.TurnLeavesTablesAhead | internal/babel/speaker.go:577-635 | after a pass no kept deadline of a table is due |
| BabelPace.PassLooksAhead | internal/babel/speaker.go:577-635 | the sleep a pass settles on is over already iff some link still held to be alive has Hellos overdue by a whole history |
| BabelPace.SpinsExactlyWhen | internal/babel/speaker.go:577-635 | the same for every pass of every run |
| BabelPace.LatePassSpins | internal/babel/speaker.go:683-706 | a run of three moves whose pass, late and with a neighbor kept alive by a long unicast promise, leaves a timer already due |
| BabelHello.HelloHistory.constructor | internal/babel/etx.go:24-34 | nothing heard yet |
| BabelHello.HelloHistory.Record | internal/babel/etx.go:46-73 | the vector is the most recent sixteen arrivals: skipped ones lost, given-up ones undone, a far-off sender refused; no stray bits |
| BabelHello.HelloHistory.Miss | internal/babel/etx.go:77-83 | a miss is one loss and one expected number more |
| BabelHello.HelloHistory.ShiftIn | internal/babel/etx.go:85-100 | for either bit and any count the vector becomes what was shifted in before what it held; bits past the samples stay clear but for a set bit put on no samples |
| BabelHello.LateHelloRestores | internal/babel/etx.go:46-83 | after k misses the late Hello restores the state without misses iff k is at most 1 or samples + k is at most 16 |
| BabelHello.SkippedAreLost | internal/babel/etx.go:46-83 | a Hello k ahead of the expected one is k misses followed by the expected Hello |
| BabelHello.TooLate | internal/babel/etx.go:46-83 | after more than sixteen misses the late Hello is refused |
| BabelHello.HelloHistory.Beta | internal/babel/etx.go:115-126 | counts the arrivals among the samples, or says that none was heard |
| BabelHello.ScaleCost | internal/babel/etx.go:228-234 | the exact quotient or infinity, never below the base and equal to it without loss |
| BabelHello.LinkCost | internal/babel/etx.go:204-224 | never below the reported cost, equal to it without loss or with quality switched off, infinite when nothing arrives |
| BabelHello.HearingMoreCostsLess | internal/babel/etx.go:204-235 | of two histories of one length the one that heard more never costs more |
| BabelDatagram.Fold | internal/babel/rawpacket.go:122-124 | the carry loop computes the end-around sum |
| BabelDatagram.UdpChecksum | internal/babel/rawpacket.go:101-130 | the checksum of pseudo-header and datagram, without leaving 32 bits |
| BabelDatagram.AllOnesMeansZero | internal/babel/rawpacket.go:88-93 | the checksum over a datagram is all ones iff it adds up to zero |
| BabelDatagram.ChecksumCancels | internal/babel/rawpacket.go:20-38 | putting the checksum in makes the datagram add up to zero, odd lengths and the zero substitution included |
| BabelDatagram.BuildPacket | internal/babel/rawpacket.go:20-38 | fills the buffer with exactly the packet |
| BabelDatagram.PacketRoundTrip | internal/babel/rawpacket.go:20-97 | from every link-local source to every accepted destination, every payload that fits is read back with its source |
| BabelDatagram.WhatIsReadAddsUp | internal/babel/rawpacket.go:50-97 | whatever is accepted adds up to zero |
| BabelDatagram.OneWordIsCaught | internal/babel/rawpacket.go:50-97 | of two packets that differ in one word of an address or the datagram both are read only if the word is all zeros in one and all ones in the other |
| SadrBits.CommonBitsIsLongest | sadr/table.go:210-216 | the word-level common prefix length is the longest common bit prefix |
| SadrBits.MatchesIsPrefix | sadr/table.go:220-226 | the word-level match is bitwise prefix comparison |
| SadrSources.PickIsTheLongest | sadr/table.go:404-417 | the scan picks the longest accepting source, match-all last |
| SadrSources.PickIsUnique | sadr/table.go:404-417 | and there is no other such source |
| SadrSources.ApplyChangesOneSource | sadr/table.go:300-336 | setting or removing one source changes that source only and keeps the list sorted and distinct |
| SadrTrie.CompactKeeps | sadr/table.go:262-272 | dropping an empty node with one child loses nothing |
| SadrTrie.EditChangesOneDestination | sadr/table.go:229-260 | an edit changes the sources of one destination and no other, and keeps the trie well formed |
| SadrTrie.RemoveValueFilters | sadr/table.go:352-373 | removing a value drops exactly the sources that carry it |
| SadrTrie.AllIsWhatIsHeld | sadr/table.go:428-455 | iteration yields exactly what is held |
| SadrTrie.AllYieldsEachPairOnce | sadr/table.go:428-455 | and each pair once |
| SadrIndex.IndexSrcs | sadr/table.go:104-140 | builds an index of the sources by length, or none below the threshold |
| SadrIndex.ProbeAnswersLikeScan | sadr/table.go:397-403 | an indexed node answers what a scan of its sources answers |
| SadrTable.LookupFrom | sadr/table.go:375-424 | the walk with its remembered answer finds the deepest destination with an accepting source |
| SadrTable.WalkAnswersNaively | sadr/table.go:375-424 | that is the naive answer over all live pairs |
| SadrTable.AnswerIsUnique | sadr/table.go:375-424 | the naive answer is unique |
| SadrTable.Table.constructor | sadr/table.go:22-30 | an empty table holds nothing |
| SadrTable.Table.Set | sadr/table.go:300-321 | writes one pair and no other; an invalid pair is ignored |
| SadrTable.Table.Remove | sadr/table.go:324-336 | removes one pair and no other |
| SadrTable.Table.RemoveValue | sadr/table.go:339-350 | removes exactly the pairs with the value |
| SadrTable.Table.Lookup | sadr/table.go:375-424 | the longest matching destination having a matching source, then its longest matching source |
| SadrTable.AllRoutesAreLive | sadr/table.go:428-455 | iteration over both families yields exactly the live pairs |
| SadrTable.AllRoutesAreDistinct | sadr/table.go:428-455 | and each once |
| EspReplay.ReplayWindow.constructor | esp/replay.go:19-21 | an empty window has accepted nothing |
| EspReplay.ReplayWindow.Check | esp/replay.go:23-41 | accepts exactly what a receiver remembering every number would accept within the window |
| EspReplay.ReplayWindow.Bit | esp/replay.go:120-123 | the place of a number behind the newest, without leaving 32 bits |
| EspReplay.ReplayWindow.Commit | esp/replay.go:43-62 | adds the number to the accepted set and the bitmap stays its image |
| EspReplay.ReplayWindow.ClearRange | esp/replay.go:77-89 | clears exactly an arc of places, wrapping at the window |
| EspReplay.ReplayWindow.ClearSpan | esp/replay.go:97-118 | word by word clears exactly the bits from start on |
| EspReplay.ReplayWindow.Mark | esp/replay.go:125-125 | sets exactly one bit |
| EspReplay.AdvanceMirrors | esp/replay.go:43-62 | for every window size and jump, clearing the skipped places and marking the new one keeps bit (s-1) mod window equal to "s was accepted" |
| EspReplay.SkippedPlaces | esp/replay.go:43-62 | the cleared arc holds the places of the skipped numbers and of no number still in the window |
| EspTrailer.TrailerAcceptsFrames | esp/inbound.go:147-182 | every frame is accepted iff its length is a multiple of four |
| EspTrailer.TrailerAcceptsNothingElse | esp/inbound.go:147-182 | whatever is accepted is such a frame |
| EspPacket.OpenUndoesSeal | esp/esp.go:283-319 | header, payload and next header are recovered, and the sealed length is the one reserved |
| EspInbound.AuthenticateBatch | esp/inbound.go:78-100 | the two passes give each packet the result it would get alone, in order, judged by the bitmap, which is left as it was |
| EspInbound.Emitter.CommitBatch | esp/inbound.go:106-124 | committing by runs of one association against the bitmaps equals committing the packets one at a time in order against the sets they stand for |
| EspInbound.Emitter.CommitLocked | esp/inbound.go:126-145 | one commit against the bitmap of its association: at most that bitmap moves, by that number, and the packet shows what the set would let it show |
| EspInbound.CommitSpends | esp/inbound.go:126-145 | a result becomes readable only by a number that was fresh and is now taken |
| EspInbound.BadTrailerSpendsTheNumber | esp/inbound.go:126-145 | an authenticated malformed trailer shows nothing, keeps nothing and uses its number up |
| EspInbound.EveryNumberIsShownOnce | esp/inbound.go:78-210 | in every interleaving on any number of associations each number shows plaintext at most once, and what can be read was shown by a successful commit |
| EspInbound.SealedIsDelivered | esp/inbound.go:29-145 | a packet sealed with the same keys under a fresh number is delivered intact |
| EspOutbound.ReserveIsNext | esp/esp.go:185-214 | before the counter wraps a reservation is the next numbers in line or is refused past 32 bits |
| EspOutbound.OutboundSA.ReserveSequenceNumbers | esp/esp.go:185-214 | the counter advances even when the reservation is refused |
| EspOutbound.NumbersAreNeverReused | esp/esp.go:162-281 | while fewer than 2^64 numbers are requested all sealed numbers are distinct and in 1..2^32-1 |
| EspOutbound.ReuseAfterWrapping | esp/esp.go:185-214 | once 2^64 numbers have been requested the bound is needed: a run of seven calls seals the number 1 twice |
| EspOutbound.SequenceRange.Seal | esp/esp.go:219-229 | uses the next number of the range, or fails and uses none |
| EspOutbound.SequenceRange.SealBatchInto | esp/esp.go:243-281 | seals exactly the numbers left, in order, end to end, clear of the nonce; refuses a batch of another size untouched |
| EspOutbound.AppendSealed | esp/esp.go:289-319 | writes exactly the sealed packet and touches nothing but it and the nonce |
| EspOutbound.BatchSlice | esp/esp.go:243-281 | each packet is the slice between its offset and the next |
| Srv6Header.FindRouting | srv6/srv6.go:420-441 | walks at most eight extension headers as the definition does |
| Srv6Header.Parse | srv6/srv6.go:350-409 | reads or refuses exactly as the definition |
| Srv6.FlightReads | srv6/srv6.go:350-409 | a packet under way reads as the reversed path with the segments left |
| Srv6.End | srv6/srv6.go:450-467 | changes hop limit, destination and counter and nothing else; a refused packet is untouched |
| Srv6.EndMovesOn | srv6/srv6.go:450-467 | takes a packet from one segment of its path to the next |
| Srv6.ExitDelivers | srv6/srv6.go:483-509 | at the last segment returns the inner packet and its family |
| Srv6.PathIsVisited | srv6/srv6.go:450-467 | after k Ends the packet is the one on its way to segment k |
| Srv6.Heading | srv6/srv6.go:450-467 | its destination is segment k and k hops are spent |
| Srv6.PathRoundTrip | srv6/srv6.go:188-509 | the path is walked to its end iff it has one segment or the hop limit is at least its length, and the exit then returns the packet byte for byte |
| Srv6.Encapsulate | srv6/srv6.go:188-197 | gives the packet bound for the first segment, or refuses an unacceptable one |
| Srv6.EncapsulateInPlace | srv6/srv6.go:215-231 | the same bytes despite the overlapping move, nothing outside changed, untouched on refusal |
| Srv6.WriteOuter | srv6/srv6.go:290-333 | writes every byte of the outer headers, as Srv6.OuterHeader states them, and no other |
| Srv6.OuterHeader | srv6/srv6.go:290-333 | at every segment the outer packet carries the class and label of an IPv6 packet and bare ones for IPv4, the length of what follows, the hops left, the tunnel's address and that of the segment it heads for |
| ChildSas.Hub.RegisterEsp | transport/mux.go:639-653 | claims a nonzero SPI unless it is another's or the transport is closed, and leaves other owners alone |
| ChildSas.Hub.UnregisterEsp | transport/mux.go:656-662 | releases only the caller's own SPI |
| ChildSas.OthersDoNotMatter | transport/mux.go:639-662 | another session's claims and releases leave this one's routing exact |
| ChildSas.Session.constructor | ike/initiator.go:104-112 | a new session has nothing routed |
| ChildSas.Session.CanReplace | ike/child_state.go:35-48 | a replacement is possible iff nothing awaits retirement and the SPI is neither active nor draining |
| ChildSas.Session.ReplaceChild | ike/child_state.go:50-79 | installs iff allowed, routed and the callback succeeds; on failure nothing is routed or changed |
| ChildSas.Session.RetireChild | ike/child_state.go:99-118 | succeeds iff nothing awaits retirement or it goes by that name and drains or is removed; it then drains or is gone, and otherwise nothing changes |
| ChildSas.Session.RetireRetiring | ike/child_state.go:127-142 | drains with a delay, otherwise removes at once iff the callback succeeds |
| ChildSas.Session.ExpireRetired | ike/child_state.go:161-182 | on success nothing due is left; a failing callback leaves its SA and those behind it, and exactly the due SAs in front of it are gone; exactly the live SPIs stay routed |
| ChildSas.ReplacedIsWatched | ike/child_state.go:68-85 | a replaced SA stays routed and has a deadline of its own |
| ChildSas.OverlapLasts | ike/child_state.go:120-182 | a retired SA keeps receiving for exactly the delay: no look before then removes it, and one that leaves nothing due has |
| ChildSas.Session.ForgetChild | ike/child_state.go:184-198 | drops the active SA iff it is the one named and the callback succeeds |
| ChildSas.Session.DeleteChildren | ike/child_state.go:203-224 | works through the names in order and stops at the first whose callback fails, with exactly the mentions before it done; on success returns our SPIs for what went |
| ChildSas.DeletedIsWhatWasNamed | ike/child_state.go:203-224 | the active SA goes iff its name is mentioned, the replaced one iff its name is mentioned, twice if the two share it |
| ChildSas.NamedAreGoneExactlyWhen | ike/child_state.go:203-224 | every named SA is gone iff the two do not share a name or it is not mentioned exactly once |
| ChildSas.OneMentionDeletesOne | ike/child_state.go:203-224 | with a shared remote SPI one mention removes only the active SA |
| ChildSas.SharingIsReached | ike/child_state.go:50-79 | replacing a child by one of the same remote SPI makes the two share it |
| ChildSas.Session.NextRetirement | ike/child_state.go:148-159 | the true minimum of all retirement deadlines |
| ChildSas.DroppingHeadKeeps | ike/child_state.go:161-182 | dropping the head unroutes exactly its SPI and keeps roles distinct |
| UdpSend.CutUndoesJoin | transport/socket_linux.go:335-365 | cutting at the segment size gives back packets of that size with a shorter last one |
| UdpSend.Stretch | transport/socket_linux.go:335-365 | stretches a payload over adjacent packets of one size within 64 segments and 65507 bytes |
| UdpSend.NextMessage | transport/socket_linux.go:335-365 | a message sends exactly its packets |
| UdpSend.Prepare | transport/socket_linux.go:335-365 | the messages partition the batch |
| UdpSend.Send | transport/socket_linux.go:367-401 | with partial writes and the fallback, all packets go out once in order; on error a prefix has, and the kernel's last answer was an error other than the refusal to segment, or nothing sent |
| IkePayloads.EncodeChain | ike/payload.go:71-88 | builds the chain with its next-payload pointers |
| IkePayloads.DecodeChain | ike/payload.go:92-116 | the loop decides and reads as the definition does, on every byte string |
| IkePayloads.ChainRoundTrip | ike/payload.go:71-116 | decoding an encoded chain gives it back |
| IkePayloads.ChainWrittenAgain | ike/payload.go:71-116 | a chain that is read and written again has its length, and its bytes exactly when no reserved bit was set |
| IkePayloads.ChainIsConsumed | ike/payload.go:92-116 | a chain followed by anything is refused |
| IkePayloads.OuterRoundTrip | ike/payload.go:122-169 | a message's chain is read back iff nothing follows an encrypted payload, and is refused otherwise |
| IkePayloads.DecodeMessage | ike/payload.go:122-169 | the header tests and the chain are the reading on every byte string, and the encrypted payload is found where it starts |
| IkePayloads.MessageRoundTrip | ike/payload.go:49-169 | a message reads back as it was built iff nothing follows its encrypted payload |
| IkePayloads.MessageIsConsumed | ike/payload.go:122-169 | a message of another length than its header declares is refused |
| IkeSa.TransformRoundTrip | ike/payloads_sa.go:16-85 | a transform is read back with its last flag and what follows it |
| IkeSa.ProposalRoundTrip | ike/payloads_sa.go:95-159 | a proposal is read back with its last flag and what follows it |
| IkeSa.SaRoundTrip | ike/payloads_sa.go:162-189 | decoding an encoded SA body gives its proposals |
| IkeSa.ReservedAreZero | ike/payloads_sa.go:16-120 | reserved octets are sent as zero |
| IkeSa.SaIsConsumed | ike/payloads_sa.go:171-189 | a nonempty accepted body followed by anything is refused |
| IkeSa.EncodeSaPayload | ike/payloads_sa.go:162-168 | the loop builds the encoding |
| IkeSa.DecodeSaPayload | ike/payloads_sa.go:171-189 | the loop decides and reads as the definition does, on every byte string |
| IkeSa.DecodeAttributes | ike/payloads_sa.go:54-83 | one nonzero Key Length is understood, everything else marks the transform |
| IkeSa.DecodeTransformList | ike/payloads_sa.go:117-159 | exactly the declared number of transforms, filling the proposal |

## Left out

- Cryptography: AEAD, key derivation and signatures; sealing is any pair of functions of which opening undoes sealing.
- Sockets, netlink, the control socket, configuration decoding and rendering: plumbing around the modelled state.
- IKE SA rekeying, the handshakes and Session.Run: they span goroutine scheduling and key derivation.
- Node restarts, source collection while a route is in use, and loops between different router-ids in passing: excluded by the stated assumptions of the network model.
- Mux.Close: it withdraws every registration of a mux at once; the Child SA model is about the life of the transport.
- Order between priorities in emitLocked: the stable sort by priority is not modelled; the bookkeeping result takes Updates to one neighbor in the order they were built.
- The spacing of wakes in noteLost and logging: they change when a loss is given back, not whether.
- rxCost and the RTT penalty: single expressions over the modelled history and saturating addition.
- TLVs other than Router-Id and Update: they travel through the packetizer as opaque bodies.
- Zoned addresses, and IPv4-mapped forms of link-local sources: packet addresses never carry the one, and links are IPv6 only.
- math.Exp in smoothing: any damping factor between zero and one, and where several passes are compared any that turns sums into products.
- BabelLedger.Neighbor.AdvertiseTo: takes whether the advertisement is finite as an argument, because the ledger is about what was told; what is finite and its record in the source table are BabelSpeaker.Speaker.Tell.
- BabelSpeaker.Speaker.Receive: starts from what each TLV comes to; which seqno request is answered, forwarded or raises this node's number is the caller's choice, because the result holds for every choice.
- BabelSpeaker.Speaker.Turn: takes what neighbors were told and are owed, and whether a packet was refused, as arguments, because those are the ledger's and the transport's; the repeats are walked before the first of them is asked, which touches other tables.
- The mutex CommitBatch holds per run of packets: results are committed one at a time in every interleaving.
- Update in place inside the Update and SA encoders: buffers there are values, and only the outermost loops are methods.
