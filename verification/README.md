# Verified models of the RakNet patches and the proxy

This project models the four stateful parts of the repository in Dafny and proves what they keep
over whole runs:

- **Replica bookkeeping** (`patch/ReplicaManager3.cpp`). A connection keeps four lists that share
  heap records, and a dozen handlers move records between them while sweeps mutate the lists they
  walk. `ReplicaLists`, `ReplicaTick` and `ReplicaWorld` state the invariant that the disabled
  `ValidateLists` describes and prove it over every run; `ReplicaOutcome` says what every handler
  and a whole tick do to each record; `ReplicaService` proves that replicas reach every connection
  and stay there, and that constructed ones stay on the serialize and destruct lists;
  `ReplicaConnection` holds the mutable classes. `ReplicaSync` proves that sender and receiver agree. `ConstructionWire` proves that
  the reader of a construction message finds every record where the writer put it.
  `SerializeChannels` and `DeltaSuppression` prove that splitting channels over messages and
  sending only changes lose nothing, and `DownloadGroup` that holding packets back and replaying
  them keeps every one.
- **The connection table of RakPeer** (`patch/RakPeer.cpp`, `patch/RakPeer.h`). `RemoteSystems`
  is the slot array with its hash chains and active list; `Handshake`, `UpdateSweep` and
  `Admission` add the connection modes, the update sweep and the admission decision, and
  `HandshakeOutcome` says what each event does to each slot, up to the runs that connect;
  `ConnectionRequests` and `RequestSchedule` are the retries and their timing, `ClockSync` and
  `BanList` the clock estimate and bans.
- **The session table of the proxy** (`raknet_proxy.cpp`): `ProxySessions`, and `ProxyOutcome`
  for what each event does to each session and how long a session lives.
- **File list deltas** (`patch/FileList.cpp`): `FileListDelta`.

Objects the source updates in place are classes. Each of their methods is proved to compute a
function of the old state. The properties are lemmas about those functions, about single steps
and about runs; the outcome modules state them with the fields of the records, slots and sessions
alone. Callbacks, hash, sockets and clocks are parameters. A replica, a child peer and an
address are values that stand for a pointer or an endpoint; a `LastSerializationResult` is a heap
object, so that two lists can be shown to hold the very same one. The character test `IsSlash`,
whose source is not part of this model, is taken to accept `/` and `\`.

Some expected properties hold only under a condition. A lemma gives the exact one, or an input on
which the property fails:

- A downloaded object must not be constructed here already, or the lists break, nor pending, or
  its old record leaks (`DownloadFromThisSystemKeeps`, `DownloadFromThisSystemOwns`). Freshly
  created objects meet both.
- The writer of a construction message pads before the destruction count and the reader does not
  (`CountInStep`).
- A reroute onto an address in use breaks the hash (`RerouteKeeps`).
- An answer to one of our own attempts can bring in a GUID a second time (`Reply2Guids`).
- An attempt with 3 to 254 requests is given up exactly if too-large errors after the last MTU has
  had its share stop occurring (`AttemptEndsExactly`); each of them costs at most three more sends
  (`AttemptEnds`). With more than 254 requests it is never given up (`TooManyNeverEnds`).
- A ping of 65536 ms or more is stored truncated and may win the comparison for the least one.
  `BoundHoldsExactly` says when the clock bound survives that, `LongPingsBreakTheBound` gives
  samples on which it does not.
- A ban whose end wraps past zero has expired at once, and one whose end is zero is permanent
  (`EndsAsAsked`, `PermanentBans`).
- Download data queued behind DOWNLOAD_COMPLETE when that is polled stays in the group
  (`GroupEndsEmpty`).
- Registering a client again leaks its child peer (`LeaksExactly`).

Check the project with `dafny verify dfyconfig.toml`.

## Model

| member | source | states |
|---|---|---|
| `ReplicaLists.LocalReferenceKeeps` | patch/ReplicaManager3.cpp:1769-1795 | referencing a replica that is neither constructed nor pending keeps every list invariant, and the ownership of records |
| `ReplicaLists.ConstructKeeps` | patch/ReplicaManager3.cpp:1927-1944 | moving a pending record to constructed, serialize and destruct keeps the invariant and ownership; exactly that replica changes sides (`OnReplicaAlreadyExists` has the same body) |
| `ReplicaLists.NeverConstructKeeps` | patch/ReplicaManager3.cpp:1912-1923 | dropping a pending record keeps the invariant; the deleted record is in no list and no other record is lost |
| `ReplicaLists.SendDestructionKeeps` | patch/ReplicaManager3.cpp:2024-2053 | taking a replica off constructed, serialize and destruct and making it pending again keeps the invariant, with the same record object |
| `ReplicaLists.DoNotQueryDestructionKeeps` | patch/ReplicaManager3.cpp:2057-2062 | exactly the queried entry leaves the destruct list; invariant and ownership hold |
| `ReplicaLists.NeverSerializeKeeps` | patch/ReplicaManager3.cpp:1961-1976 | exactly this record leaves the serialize list and the others keep their order; the invariant still holds |
| `ReplicaLists.DereferenceRemoves` | patch/ReplicaManager3.cpp:1799-1853 | with a NetworkIDManager the replica is afterwards in none of the four lists, every other record stays, and exactly its records are freed; without one nothing happens |
| `ReplicaLists.DereferenceForm` | patch/ReplicaManager3.cpp:1799-1853 | the search by key and the three linear searches find one and the same record, so one deletion frees what was listed |
| `ReplicaLists.DereferenceKeeps` | patch/ReplicaManager3.cpp:1799-1853 | dereferencing keeps the invariant and frees nothing that is still listed |
| `ReplicaLists.DownloadFromThisSystemKeeps` | patch/ReplicaManager3.cpp:1857-1888 | the lists stay well formed if and only if the connection did not hold the downloaded replica as constructed |
| `ReplicaLists.DownloadFromThisSystemOwns` | patch/ReplicaManager3.cpp:1857-1888 | no freed record is listed, and every live record stays owned if and only if the replica was not pending: otherwise its old record leaks |
| `ReplicaLists.DownloadFromThisSystemMoves` | patch/ReplicaManager3.cpp:1857-1888 | exactly the downloaded replica becomes constructed and stops being pending |
| `ReplicaLists.DownloadFromOtherSystemKeeps` | patch/ReplicaManager3.cpp:1892-1908 | a replica downloaded elsewhere ends up pending exactly once |
| `ReplicaLists.DownloadExistingKeeps` | patch/ReplicaManager3.cpp:2000-2020 | an object announced to us that was pending for that connection becomes constructed, with its record; otherwise nothing changes |
| `ReplicaLists.KeyIsIdentity` | patch/ReplicaManager3.cpp:38-54 | because indices are injective, the sorted search by `referenceIndex` finds the position of the replica itself, or nothing |
| `ReplicaLists.HasReplicaConstructedIsMembership` | patch/ReplicaManager3.cpp:1489-1494 | `HasReplicaConstructed` is membership in the constructed list, although it compares keys |
| `ReplicaLists.DestructorFreesEachRecordOnce` | patch/ReplicaManager3.cpp:1467-1475 | the two loops of the destructor name every live record, and none twice |
| `ReplicaTick.ConstructSweepKeeps` | patch/ReplicaManager3.cpp:740-813 | the loop that removes entries from the list it walks queries every pending record exactly once, in order, and keeps invariant and ownership |
| `ReplicaTick.ConstructSweepLeaves` | patch/ReplicaManager3.cpp:740-813 | what stays pending is exactly the NO_ACTION answers, in order |
| `ReplicaTick.ConstructSweepReports` | patch/ReplicaManager3.cpp:740-813 | the culled list is exactly the replicas the message must mention, in order |
| `ReplicaTick.ConstructSweepMoves` | patch/ReplicaManager3.cpp:740-813 | the constructed list gains exactly the replicas that exist already or are sent |
| `ReplicaTick.DestructSweepKeeps` | patch/ReplicaManager3.cpp:815-838 | the destruction loop keeps invariant and ownership for arbitrary answers |
| `ReplicaTick.DestructSweepReports` | patch/ReplicaManager3.cpp:815-838 | every destruct entry is queried exactly once, in order, and exactly the destroyed ones are reported |
| `ReplicaTick.DestructSweepLeaves` | patch/ReplicaManager3.cpp:815-838 | what stays on the destruct list is exactly the KEEP answers, in order |
| `ReplicaTick.DestructSweepMoves` | patch/ReplicaManager3.cpp:815-838 | the constructed list loses exactly the destroyed replicas |
| `ReplicaTick.TickKeeps` | patch/ReplicaManager3.cpp:724-839 | a whole tick keeps invariant and ownership in both query modes |
| `ReplicaTick.TickHoldsNoMore` | patch/ReplicaManager3.cpp:724-839 | a tick brings no replica onto a connection that was not there |
| `ReplicaWorld.ReferKeeps` | patch/ReplicaManager3.cpp:312-335 | a newly referenced replica gets an index no other replica has, and the world stays valid |
| `ReplicaWorld.DownloadKeeps` | patch/ReplicaManager3.cpp:1189-1205 | telling all connections about a freshly created object keeps every one of them valid |
| `ReplicaWorld.ForgetKeeps` | patch/ReplicaManager3.cpp:339-359 | dereferencing on every connection keeps all of them valid |
| `ReplicaWorld.ReferencedKeeps` | patch/ReplicaManager3.cpp:155-181 | a new connection that references every known replica starts valid, with all of them pending |
| `ReplicaWorld.EventKeeps` | patch/ReplicaManager3.cpp:1769-2064 | every manager and connection event keeps every connection well formed and its records owned |
| `ReplicaWorld.ListsStayValid` | patch/ReplicaManager3.cpp:2066-2185 | main result: over every run what the disabled `ValidateLists` describes holds on each connection: constructed and pending are disjoint, no list holds a replica twice, serialize and destruct hold the very records of constructed, which stays sorted, and the live records are exactly those the destructor frees |
| `ReplicaOutcome.ConstructEffect` | patch/ReplicaManager3.cpp:1927-1944 | the record is on exactly the three other lists afterwards, and every other record is where it was |
| `ReplicaOutcome.NeverConstructEffect` | patch/ReplicaManager3.cpp:1912-1923 | the record is gone and nothing else has changed |
| `ReplicaOutcome.SendDestructionEffect` | patch/ReplicaManager3.cpp:2024-2053 | the record is pending and on no other list afterwards, and every other record is where it was |
| `ReplicaOutcome.DoNotQueryDestructionEffect` | patch/ReplicaManager3.cpp:2057-2062 | the record that was queried is off the destruct list, and every other one is still on it |
| `ReplicaOutcome.NeverSerializeEffect` | patch/ReplicaManager3.cpp:1961-1976 | the serialize list is the old one without this record |
| `ReplicaOutcome.DownloadEffect` | patch/ReplicaManager3.cpp:1857-1888 | the fresh record is on the three lists, and only records of its replica stop being pending |
| `ReplicaOutcome.ConstructSweepOutcome` | patch/ReplicaManager3.cpp:740-813 | every queried record ends where its own answer sends it, whatever the others answer |
| `ReplicaOutcome.DestructSweepOutcome` | patch/ReplicaManager3.cpp:815-838 | the same for the destruction loop |
| `ReplicaOutcome.AnnouncedExactly` | patch/ReplicaManager3.cpp:740-813 | the replicas reported for the message are those that answer SEND_CONSTRUCTION or ALREADY_EXISTS_REMOTELY, and no others |
| `ReplicaOutcome.DestroyedExactly` | patch/ReplicaManager3.cpp:815-838 | the replicas reported as destroyed are those that answer SEND_DESTRUCTION, and no others |
| `ReplicaOutcome.TickOutcome` | patch/ReplicaManager3.cpp:724-839 | main result: for every record and both query modes, membership in each of the four lists and in the live records after a whole tick is given by where the record was and by its replica's own answers |
| `ReplicaOutcome.TickReports` | patch/ReplicaManager3.cpp:724-839 | the two reports of a tick in terms of the lists before it and the answers |
| `ReplicaService.TickServes` | patch/ReplicaManager3.cpp:724-839 | a tick leaves every constructed replica on the serialize list, and takes it off the destruct list only on its own DO_NOT_QUERY_DESTRUCTION |
| `ReplicaService.NeverSerializeServes` | patch/ReplicaManager3.cpp:1961-1976 | stopping one record leaves every other replica on the serialize list |
| `ReplicaService.EventServes` | patch/ReplicaManager3.cpp:1769-2064 | the same for every manager and connection event, on every connection |
| `ReplicaService.ConstructedAreServed` | patch/ReplicaManager3.cpp:2066-2185 | main result: over every run a constructed replica is on the serialize list while it does not itself ask never to be serialized, and on the destruct list while it does not itself ask not to be queried |
| `ReplicaService.ReferenceReachesAll` | patch/ReplicaManager3.cpp:289-307 | a newly referenced replica is pending on every connection, behind what was pending |
| `ReplicaService.DownloadReachesAll` | patch/ReplicaManager3.cpp:1189-1205 | a downloaded object is constructed on the connection it came from and pending on every other |
| `ReplicaService.TickHolds` | patch/ReplicaManager3.cpp:724-839 | a tick drops a replica from a connection only on the answer NEVER_CONSTRUCT |
| `ReplicaService.NewConnectionHolds` | patch/ReplicaManager3.cpp:155-181 | a new connection holds every replica the manager knows |
| `ReplicaService.NoReplicaIsLost` | patch/ReplicaManager3.cpp:2066-2185 | main result: over every run a replica known to the manager is on every connection, later ones included, until it is dereferenced or itself answers NEVER_CONSTRUCT |
| `ReplicaService.ForgetReachesAll` | patch/ReplicaManager3.cpp:339-359 | dereferencing takes the replica off every connection and no other replica off any |
| `ReplicaService.UnknownStaysAway` | patch/ReplicaManager3.cpp:2066-2185 | over every run a replica that is not known to the manager is on no connection until it is referenced again |
| `ReplicaConnection.Connection.OnLocalReference` | patch/ReplicaManager3.cpp:1769-1795 | appends a fresh record to the pending list and changes nothing else |
| `ReplicaConnection.Connection.OnDereference` | patch/ReplicaManager3.cpp:1799-1853 | computes the specified removal from all four lists and frees the record found last |
| `ReplicaConnection.Connection.OnDownloadFromThisSystem` | patch/ReplicaManager3.cpp:1857-1888 | a fresh record joins the destruct list always and constructed and serialize only if the key is new |
| `ReplicaConnection.Connection.OnDownloadFromOtherSystem` | patch/ReplicaManager3.cpp:1892-1908 | references the replica unless it is pending |
| `ReplicaConnection.Connection.OnNeverConstruct` | patch/ReplicaManager3.cpp:1912-1923 | removes and frees one pending record |
| `ReplicaConnection.Connection.OnConstructToThisConnection` | patch/ReplicaManager3.cpp:1927-1944 | moves one pending record to the three other lists, inserted by key |
| `ReplicaConnection.Connection.OnNeverSerialize` | patch/ReplicaManager3.cpp:1961-1976 | removes the first serialize entry that is this record |
| `ReplicaConnection.Connection.OnDownloadExisting` | patch/ReplicaManager3.cpp:2000-2020 | constructs the pending record of the replica if there is one |
| `ReplicaConnection.Connection.OnSendDestructionFromQuery` | patch/ReplicaManager3.cpp:2024-2053 | moves one destruct record back to pending, off constructed and serialize |
| `ReplicaConnection.Connection.OnDoNotQueryDestruction` | patch/ReplicaManager3.cpp:2057-2062 | removes the destruct entry at that index |
| `ReplicaConnection.Connection.ConstructByQuery` | patch/ReplicaManager3.cpp:740-813 | the in-place loop computes the specified sweep and its report |
| `ReplicaConnection.Connection.DestructByQuery` | patch/ReplicaManager3.cpp:815-838 | the in-place loop computes the specified sweep and its report |
| `ReplicaConnection.Connection.AutoConstructByQuery` | patch/ReplicaManager3.cpp:724-839 | the two loops together compute the specified tick, for both query modes |
| `ReplicaConnection.ReplicaManager3.ReferenceInternal` | patch/ReplicaManager3.cpp:312-335 | adds the replica with the next index, once |
| `ReplicaConnection.ReplicaManager3.Reference` | patch/ReplicaManager3.cpp:289-307 | references the replica on every connection, each with a record of its own |
| `ReplicaConnection.ReplicaManager3.Dereference` | patch/ReplicaManager3.cpp:339-359 | removes the replica from the world and from every connection |
| `ReplicaConnection.ReplicaManager3.OnDownloaded` | patch/ReplicaManager3.cpp:1189-1205 | tells the sender's connection and all the others about a created object |
| `ReplicaSync.ItemsSay` | patch/ReplicaManager3.cpp:2212-2253 | record by record the message names the replica, says whether it is to be created and carries what the user wrote for it |
| `ReplicaSync.VisitsCreate` | patch/ReplicaManager3.cpp:1075-1205 | of the records visited exactly those create their object that say so, whose object is not there and that every callback accepts |
| `ReplicaSync.AcceptedIsCreated` | patch/ReplicaManager3.cpp:1075-1205 | if nothing is refused these are the objects of the message |
| `ReplicaSync.ReceiveConstruction` | patch/ReplicaManager3.cpp:1075-1211 | from the bits of a message the receiver creates exactly the objects it accepts, all of the message's if it refuses none, and it finds the destruction count if there is anything to destroy |
| `ReplicaSync.TickSets` | patch/ReplicaManager3.cpp:724-874 | the sender's constructed set and the effect of the tick's message on any receiver change by the same replicas |
| `ReplicaSync.TickAgrees` | patch/ReplicaManager3.cpp:724-874 | a tick keeps the two endpoints in agreement if and only if the replicas it calls "already exists" and does not destroy at once are among those the receiver has |
| `ReplicaSync.DestroyAgrees` | patch/ReplicaManager3.cpp:1368-1439 | broadcasting a destruction and dereferencing keeps agreement |
| `ReplicaSync.StepAgrees` | patch/ReplicaManager3.cpp:724-874 | ticks, broadcasts and deliveries keep agreement and the list invariant |
| `ReplicaSync.EndpointsAgree` | patch/ReplicaManager3.cpp:1189-1242 | main result: over every run with a FIFO channel, folding the messages in flight over the receiver's objects gives the sender's constructed set; with an empty channel both sides hold the same |
| `ConstructionWire.ValueOfNumber` | patch/ReplicaManager3.cpp:1075-1079 | a fixed-width number is read back as it was written |
| `ConstructionWire.BitStream.Patch` | patch/ReplicaManager3.cpp:2237-2240 | going back to write an end offset changes exactly those 32 bits and restores the position |
| `ConstructionWire.WriteCreation` | patch/ReplicaManager3.cpp:2228-2242 | the allocation block is written with the offset of its own end in front |
| `ConstructionWire.WriteRecord` | patch/ReplicaManager3.cpp:2218-2252 | one record is appended in the specified layout, both patched offsets holding the final positions |
| `ConstructionWire.WritePost` | patch/ReplicaManager3.cpp:2258-2286 | one post-construction record is appended: a single false flag, or an aligned block with its end offset |
| `ConstructionWire.WriteRecords` | patch/ReplicaManager3.cpp:2215-2253 | the loop appends the records back to back |
| `ConstructionWire.WritePosts` | patch/ReplicaManager3.cpp:2255-2287 | the loop appends the post-construction records back to back |
| `ConstructionWire.SendConstruction` | patch/ReplicaManager3.cpp:2188-2288 | the message up to the destruction count is the specified layout, padded to a byte |
| `ConstructionWire.ReadHead` | patch/ReplicaManager3.cpp:1078-1083 | end offset, NetworkID and create flag are read as written, and the reader stands on the aligned body |
| `ConstructionWire.ReadCreation` | patch/ReplicaManager3.cpp:1085-1088 | the offset behind the creator's guid is where the allocation bits end |
| `ConstructionWire.ReadRecord` | patch/ReplicaManager3.cpp:1076-1150 | whatever exists, fails to allocate or is rejected, and wherever the callbacks leave the stream, the reader ends at the writer's end of the record and starts each callback on the bits written for it |
| `ConstructionWire.ReadPost` | patch/ReplicaManager3.cpp:1158-1187 | the same for post-construction records; exactly the objects kept in the first loop are called |
| `ConstructionWire.ReadRecords` | patch/ReplicaManager3.cpp:1075-1151 | the first loop meets every record at its offset and keeps an object for exactly the accepted records and those already there |
| `ConstructionWire.ReadPosts` | patch/ReplicaManager3.cpp:1156-1187 | the second loop meets every post-construction record at its offset |
| `ConstructionWire.RecordsAreAligned` | patch/ReplicaManager3.cpp:2248-2253 | the post-construction records begin on a byte |
| `ConstructionWire.PostsAlignment` | patch/ReplicaManager3.cpp:2255-2288 | the bit position after them is determined by the number of trailing empty records |
| `ConstructionWire.CountInStep` | patch/ReplicaManager3.cpp:1207-1211 | the reader, which does not pad, is at the destruction count if and only if the number of trailing records without post-construction data is a multiple of eight |
| `ConstructionWire.OnConstruction` | patch/ReplicaManager3.cpp:1075-1187 | main result: on any written message the reader visits every record at the writer's offset with the writer's fields, and reaches the destruction count exactly under that condition |
| `SerializeChannels.OneFlagPerChannel` | patch/ReplicaManager3.cpp:1546-1605 | an encoded message carries exactly one flag per channel |
| `SerializeChannels.DecodeEncode` | patch/ReplicaManager3.cpp:1278-1287 | decoding an encoded message gives back its channels, for any number of channels |
| `SerializeChannels.OnSerialize` | patch/ReplicaManager3.cpp:1278-1287 | the loop reads channel by channel what was encoded |
| `SerializeChannels.SumOfBits` | patch/ReplicaManager3.cpp:1521-1527 | the sum is zero exactly when no selected channel has data |
| `SerializeChannels.WriteRemainder` | patch/ReplicaManager3.cpp:1554-1563 | a message cut short is filled up with empty flags and reports zero bits for them |
| `SerializeChannels.WriteBlank` | patch/ReplicaManager3.cpp:1578-1586 | a restarted message begins with empty flags for the channels already sent |
| `SerializeChannels.SendSerialize` | patch/ReplicaManager3.cpp:1519-1609 | the loop emits the specified messages, group by group |
| `SerializeChannels.GroupsPartition` | patch/ReplicaManager3.cpp:1546-1587 | messages correspond to consecutive groups of channels, each sent with its own channels' parameters; only channels without data are left out |
| `SerializeChannels.SplittingIsExact` | patch/ReplicaManager3.cpp:1519-1609 | main result: each selected non-empty channel is in exactly one message, and merging what the receiver decodes from the items of the messages sent gives exactly the selected data despite the early exit |
| `SerializeChannels.MessagesSayWhatTheyBring` | patch/ReplicaManager3.cpp:1546-1605 | what a message brings for a channel is that channel's data, under its send parameters; the sizes reported are those of the data, and zero for the other channels |
| `SerializeChannels.EachChannelOnce` | patch/ReplicaManager3.cpp:1519-1609 | a channel is in exactly one message if it is selected and non-empty, and in none otherwise |
| `SerializeChannels.NeighboursDiffer` | patch/ReplicaManager3.cpp:1546-1587 | a new message is started only where the send parameters change |
| `SerializeChannels.FewMessages` | patch/ReplicaManager3.cpp:1519-1531 | nothing is sent exactly when no selected channel has data |
| `DeltaSuppression.CacheHoldsOutput` | patch/ReplicaManager3.cpp:1735-1765 | a non-empty output just serialized is what the cache holds; an empty one leaves the cache |
| `DeltaSuppression.ExactlyTheChanges` | patch/ReplicaManager3.cpp:1735-1765 | from the messages of a tick the receiver decodes a channel if and only if its stream is neither empty nor equal to the last one sent, and then that stream |
| `DeltaSuppression.NothingWithoutChange` | patch/ReplicaManager3.cpp:1735-1765 | nothing is sent exactly when every stream is empty or equal to the last one sent |
| `DeltaSuppression.LastSerialization.CompareChannels` | patch/ReplicaManager3.cpp:1735-1765 | selects exactly the channels that are non-empty and differ, and stores them |
| `DeltaSuppression.LastSerialization.SendSerializeIfChanged` | patch/ReplicaManager3.cpp:1735-1765 | sends nothing exactly when no stream has changed, and otherwise exactly the changed ones |
| `DeltaSuppression.SerializeLosesNothing` | patch/ReplicaManager3.cpp:1735-1765 | after a serialization, what is in flight still leads the receiver to the cache |
| `DeltaSuppression.DeliverLosesNothing` | patch/ReplicaManager3.cpp:1278-1287 | delivering a message that no message of its ordering channel precedes loses nothing |
| `DeltaSuppression.SuppressionLosesNothing` | patch/ReplicaManager3.cpp:954-975 | main result: over every run of ticks, each sending the messages of the splitter, and deliveries, once nothing that carries a channel is in flight the last value the receiver decoded on it is the sender's cached stream |
| `DownloadGroup.StepConserves` | patch/ReplicaManager3.cpp:1055-1059 | an arrival adds one copy of a packet, every other step moves packets without losing or doubling one |
| `DownloadGroup.PacketsAreConserved` | patch/ReplicaManager3.cpp:1294-1347 | over any events the packets queued, grouped, delivered and freed are those that arrived |
| `DownloadGroup.DrainRun` | patch/ReplicaManager3.cpp:1055-1059 | where nothing is pushed back, only what arrives matters and not when: any interleaving of arrivals and polls ends like polling it all |
| `DownloadGroup.DrainReplay` | patch/ReplicaManager3.cpp:1294-1319 | the second time the start ends grouping, and the group, the end and what came later are delivered; only what was queued before stays held back |
| `DownloadGroup.Collecting` | patch/ReplicaManager3.cpp:1294-1347 | while a download is being collected, any order of arrivals and polls leads to the same end |
| `DownloadGroup.Completed` | patch/ReplicaManager3.cpp:1321-1347 | the poll of the end puts the group and the end behind what is queued then, and everything that arrives later comes after them |
| `DownloadGroup.Opening` | patch/ReplicaManager3.cpp:1294-1347 | the same from before the start of the download, behind packets that belong to none |
| `DownloadGroup.CompletesOnceDrained` | patch/ReplicaManager3.cpp:1321-1347 | once everything that arrived has been polled, the end of the download was among it |
| `DownloadGroup.DownloadIsDelivered` | patch/ReplicaManager3.cpp:1294-1347 | main result: for every interleaving of arrivals and polls, once all has been polled the download has been delivered once and in its original order, before what arrived after its end was polled; what remains grouped is exactly the data queued behind the end when that was polled |
| `DownloadGroup.GroupEndsEmpty` | patch/ReplicaManager3.cpp:1321-1347 | on every such run the group ends empty if and only if no download data was queued behind DOWNLOAD_COMPLETE when it was polled |
| `DownloadGroup.PollDelivers` | patch/ReplicaManager3.cpp:1294-1319 | for a connection that does not ask for grouping, a packet of any kind is delivered when it is polled |
| `DownloadGroup.WithoutGrouping` | patch/ReplicaManager3.cpp:1294-1347 | over every run of such a connection packets are delivered in their order of arrival, one for each poll that finds one, and none is held back |
| `DownloadGroup.Downloads.PushBackPacket` | patch/RakPeer.cpp:2826-2843 | puts the packet at the head or the tail of the queue |
| `DownloadGroup.Downloads.Receive` | patch/ReplicaManager3.cpp:1055-1059 | handles a packet as specified; it continues to the user exactly when it is delivered |
| `DownloadGroup.Downloads.Poll` | patch/RakPeer.cpp:1479-1611 | takes the first queued packet through the plugin |
| `DownloadGroup.Downloads.ClearDownloadGroup` | patch/ReplicaManager3.cpp:1511-1517 | frees exactly the grouped packets |
| `RemoteSystems.EntryIsFound` | patch/RakPeer.cpp:3912-3923 | a slot in the chain of its address is what the hash lookup returns |
| `RemoteSystems.ActiveAddressesDiffer` | patch/RakPeer.cpp:3806-3886 | two active slots never share an address |
| `RemoteSystems.HashAgreesWithScan` | patch/RakPeer.cpp:3389-3429 | for every address the hashed and the scanned lookup of active systems agree |
| `RemoteSystems.UnhashEntries` | patch/RakPeer.cpp:3887-3911 | dereferencing removes the entry of the address and no other |
| `RemoteSystems.RehashEntries` | patch/RakPeer.cpp:3806-3886 | referencing makes the slot the only entry of its new address; all other entries stay |
| `RemoteSystems.AssignKeeps` | patch/RakPeer.cpp:3630-3649 | assigning an address no active slot holds keeps slots, hash and active list in agreement |
| `RemoteSystems.CloseKeeps` | patch/RakPeer.cpp:4150-4173 | closing keeps the agreement, frees the address and removes exactly that slot from the active list |
| `RemoteSystems.RerouteKeeps` | patch/RakPeer.cpp:5652-5661 | a reroute keeps the agreement if and only if the target is a real address that no other active slot holds |
| `RemoteSystems.AssignKeepsLowest` | patch/RakPeer.cpp:3630-3649 | an assignment leaves every hashed slot the lowest one with its address |
| `RemoteSystems.CloseKeepsLowest` | patch/RakPeer.cpp:4150-4173 | so does closing |
| `RemoteSystems.IndexModesAgree` | patch/RakPeer.cpp:3139-3167 | in a state whose hashed slots are the lowest with their addresses, whenever the hash finds an address the scan finds the same slot, with or without a hint |
| `RemoteSystems.HintIsFound` | patch/RakPeer.cpp:3139-3167 | an accepted `systemIndex` hint names the slot that the active lookup finds |
| `RemoteSystems.ActiveIsFound` | patch/RakPeer.cpp:3389-3429 | an active slot is found by its address in every mode of both lookups, and for every hint |
| `RemoteSystems.InactiveIsFound` | patch/RakPeer.cpp:3389-3429 | without an active slot the active lookups find none, and the scan for any slot finds the first that last had the address |
| `RemoteSystems.ActiveIsBounded` | patch/RakPeer.cpp:3940-3943 | the active list never exceeds the number of peers and has room while a slot is free |
| `RemoteSystems.RemoteSystemTable.GetRemoteSystemIndex` | patch/RakPeer.cpp:3912-3923 | walks the chain of the bucket to the first entry with the address |
| `RemoteSystems.RemoteSystemTable.DereferenceRemoteSystem` | patch/RakPeer.cpp:3887-3911 | removes that entry from its chain |
| `RemoteSystems.RemoteSystemTable.ReferenceRemoteSystem` | patch/RakPeer.cpp:3806-3886 | drops the old entry, sets the address and appends the new one, in all branches |
| `RemoteSystems.RemoteSystemTable.AddToActiveSystemList` | patch/RakPeer.cpp:3940-3943 | appends the slot |
| `RemoteSystems.RemoteSystemTable.RemoveFromActiveSystemList` | patch/RakPeer.cpp:3945-3959 | swap-removes the first entry with the address |
| `RemoteSystems.RemoteSystemTable.GetRemoteSystemFromSystemAddress` | patch/RakPeer.cpp:3389-3429 | in both calling modes an active-only lookup returns what the linear scan does |
| `RemoteSystems.RemoteSystemTable.GetIndexFromSystemAddress` | patch/RakPeer.cpp:3139-3167 | computes the specified lookup, with the hint tried first |
| `RemoteSystems.RemoteSystemTable.AssignSystemAddressToRemoteSystemList` | patch/RakPeer.cpp:3630-3764 | takes the first free slot and initialises it, or reports that all are active; keeps the agreement |
| `RemoteSystems.RemoteSystemTable.CloseConnectionInternal` | patch/RakPeer.cpp:4150-4173 | closes the slot of the address if it is active; keeps the agreement |
| `Handshake.StepKeepsTable` | patch/RakPeer.cpp:5652-5661 | every packet, command and timeout keeps slots, hash and active list in agreement |
| `Handshake.AdmissionIsExclusive` | patch/RakPeer.cpp:5261-5303 | REQUEST_2 for an address or GUID that an active slot holds changes nothing; otherwise it adds exactly one slot, unverified |
| `Handshake.DuplicateRequest` | patch/RakPeer.cpp:5261-5303 | the same answer is repeated if and only if the unverified slot of the address is the one with the GUID, and nothing changes |
| `Handshake.StepKeepsGuids` | patch/RakPeer.cpp:5313-5373 | every step except the answer to one of our own attempts keeps assigned GUIDs distinct |
| `Handshake.Reply2Guids` | patch/RakPeer.cpp:4908-5071 | that answer duplicates a GUID if and only if it opens a slot for a GUID in use |
| `Handshake.StepModes` | patch/RakPeer.cpp:5961-6248 | everything a step can do to the mode of a slot that is active afterwards |
| `Handshake.ConnectedMeansAuthenticated` | patch/RakPeer.cpp:3519-3537 | main result: over every run an active slot we did not initiate is being handled or connected only after a request with the right password since it was opened |
| `Handshake.DisconnectingStays` | patch/RakPeer.cpp:5961-6248 | over every run a slot in a disconnect mode stays in one until it is closed, except by an answer to one of our own pending attempts |
| `Handshake.TraceKeepsTable` | patch/RakPeer.cpp:3389-3429 | the agreement holds in every reachable state |
| `Handshake.NothingRequested` | patch/RakPeer.cpp:4908-4935 | in runs that start no attempt of our own none is ever pending, so that an unsolicited answer changes nothing |
| `Handshake.TraceKeepsGuids` | patch/RakPeer.cpp:3431-3445 | in runs that start no attempt of our own, whatever packets arrive, assigned GUIDs stay pairwise distinct |
| `Handshake.StepKeepsLowest` | patch/RakPeer.cpp:5652-5661 | every step but a reroute leaves each hashed slot the lowest with its address |
| `Handshake.TraceKeepsLowest` | patch/RakPeer.cpp:3630-3649 | so it is in every state of a run without reroutes from an empty table |
| `Handshake.IndexModesAgreeThroughout` | patch/RakPeer.cpp:3139-3167 | main result: in every such state a hash hit is the lowest slot with the address, and both modes of the index lookup agree on hits, with or without a hint |
| `HandshakeOutcome.RemoteInitiatedIsCardinality` | patch/RakPeer.cpp:3573-3592 | the counting loop over the active list counts the slots that are active, connected and not initiated by us |
| `HandshakeOutcome.AdmitExactly` | patch/RakPeer.cpp:5261-5373 | main result: each outcome of REQUEST_2 has its exact condition, in the fields of the slots: who uses address and GUID, the number of incoming systems against the maximum, and the age of slots with that IP |
| `HandshakeOutcome.AdmittedSlot` | patch/RakPeer.cpp:3630-3764 | an admitted client gets the first free slot, unverified, with its address and GUID; nothing else changes, and nothing at all without a free slot |
| `HandshakeOutcome.RequestIsAnswered` | patch/RakPeer.cpp:3519-3537 | a connection request moves a waiting slot to handling if and only if the password is right, and otherwise to a silent disconnect; it changes nothing else |
| `HandshakeOutcome.NonsenseIsClosed` | patch/RakPeer.cpp:5961-5984 | an unverified sender of anything else is closed, and no other slot |
| `HandshakeOutcome.PacketIsAnswered` | patch/RakPeer.cpp:6011-6185 | each other packet moves exactly its slot to exactly its mode, from exactly the modes it applies to |
| `HandshakeOutcome.ReplyOpens` | patch/RakPeer.cpp:4945-5007 | an answer to an attempt opens the first free slot as ours, if the address is unused and its IP was not connected just before |
| `HandshakeOutcome.ReplyIsUsed` | patch/RakPeer.cpp:4908-5071 | an answer without a pending attempt changes nothing; with one it ends the attempt and makes the active slot of its address ours |
| `HandshakeOutcome.CommandOutcome` | patch/RakPeer.cpp:4117-4173 | connecting, flagging for disconnection and closing affect exactly the slot of the address |
| `HandshakeOutcome.RerouteOutcome` | patch/RakPeer.cpp:5652-5661 | a reroute changes the address of the slot with that GUID and no other field of any slot |
| `HandshakeOutcome.StepLeavesOthers` | patch/RakPeer.cpp:5838-6255 | an event leaves every active slot it does not concern exactly as it is |
| `HandshakeOutcome.ClientConnects` | patch/RakPeer.cpp:5261-6095 | main result: on any run in which a client that may be admitted sends its request, the right password and NEW_INCOMING_CONNECTION, whatever else happens between to other slots, its slot ends up connected |
| `HandshakeOutcome.AttemptConnects` | patch/RakPeer.cpp:4908-6185 | the same for an attempt of our own: its answer and the acceptance connect it |
| `HandshakeOutcome.ServiceOutcome` | patch/RakPeer.cpp:5879-5927 | a slot is closed exactly on a dead connection, a finished disconnect or 10 seconds without a connection, and servicing touches no other slot |
| `HandshakeOutcome.SweepOutcome` | patch/RakPeer.cpp:5838-6255 | over a whole sweep, a slot is closed once it is serviced under one of these conditions, and is left as it was if none holds and it has no packets |
| `HandshakeOutcome.QuietSweep` | patch/RakPeer.cpp:5838-6255 | if no slot meets one and none has packets the sweep visits every active slot and changes nothing |
| `UpdateSweep.SweepServicesOnce` | patch/RakPeer.cpp:5838-5927 | one sweep over the active list, which shrinks by swap-removal under it, terminates, services no slot twice and skips at most as many as it closes |
| `UpdateSweep.ParseConnectionRequestPacket` | patch/RakPeer.cpp:3519-3537 | the mode becomes handling exactly for the matching password |
| `UpdateSweep.HandlePacket` | patch/RakPeer.cpp:5961-6248 | one packet changes the table as specified |
| `UpdateSweep.ServiceSystem` | patch/RakPeer.cpp:5849-6250 | a failed system is closed, otherwise its packets are handled in order |
| `UpdateSweep.RunUpdateCycle` | patch/RakPeer.cpp:5838-6255 | the in-place loop computes the specified sweep |
| `Admission.GetRemoteSystemFromGUID` | patch/RakPeer.cpp:3431-3445 | finds the first active slot with the GUID, and none for the unassigned GUID |
| `Admission.GetNumberOfRemoteInitiatedConnections` | patch/RakPeer.cpp:3573-3592 | counts the connected slots of the active list that we did not initiate |
| `Admission.ThisIPConnectedRecently` | patch/RakPeer.cpp:3604-3624 | true exactly if some active slot of that IP is younger than 100 ms |
| `Admission.ProcessRequest2` | patch/RakPeer.cpp:5261-5373 | answers and changes the table as the admission decision says |
| `Admission.OpenForReply` | patch/RakPeer.cpp:4945-5007 | uses the active slot of the address or the first free one, marks it as ours, and fails only when all are active |
| `Admission.RemoveRequest` | patch/RakPeer.cpp:5054-5061 | removes one pending attempt of the address and keeps the others |
| `Admission.ProcessReply2` | patch/RakPeer.cpp:4908-5071 | an answer is accepted only for a pending attempt, which it ends |
| `ConnectionRequests.SendAdvances` | patch/RakPeer.cpp:5756-5819 | for 3 to 254 attempts the counter fits its byte, never passes count + 1 and the MTU never grows; the counter grows on every send if and only if it is not a too-large error after 3*(count/3) requests, which sets it back to that number |
| `ConnectionRequests.AttemptEnds` | patch/RakPeer.cpp:5697-5835 | an attempt makes at most count + 1 sends and up to three more for each late too-large error, with non-increasing MTU, and ends with exactly one failure report |
| `ConnectionRequests.AttemptEndsExactly` | patch/RakPeer.cpp:5797-5819 | main result: for any stream of socket results an attempt is given up if and only if late too-large errors stop occurring |
| `ConnectionRequests.StoryIsLife` | patch/RakPeer.cpp:5708-5833 | over any run of the queue the requests and reports that the passes show of one address are those of a single attempt fed with the results of the passes that find it due |
| `ConnectionRequests.AttemptEndsInQueue` | patch/RakPeer.cpp:5697-5835 | main result: over any run of the queue a pending address is sent at most that many requests, is reported as failed exactly once if it leaves the queue uncancelled and never otherwise, and has left once more passes have found it due |
| `ConnectionRequests.PassKeepsEntry` | patch/RakPeer.cpp:5708-5833 | a pass treats the entry of an address independently of all others |
| `ConnectionRequests.PassCountsEntry` | patch/RakPeer.cpp:5708-5833 | an address occurs once among the requests of a pass, or once among its reports, exactly when its entry is due and not exhausted, or exhausted |
| `ConnectionRequests.AlwaysTooLargeNeverEnds` | patch/RakPeer.cpp:5797-5803 | an attempt whose requests are all too large is never given up |
| `ConnectionRequests.TooManyNeverEnds` | patch/RakPeer.cpp:5697-5835 | with more than 254 attempts the byte wraps before count + 1 and the attempt is never given up |
| `ConnectionRequests.CycleKeeps` | patch/RakPeer.cpp:5708-5833 | one pass keeps pending addresses distinct, invents none and leaves no entry due |
| `ConnectionRequests.CycleHandlesOnce` | patch/RakPeer.cpp:5708-5833 | each due entry is sent once or reported as failed once, and no other entry is |
| `ConnectionRequests.RequestedConnections.SendConnectionRequest` | patch/RakPeer.cpp:3303-3320 | appends the attempt, due at once, if and only if its address is not pending, for any number of attempts |
| `ConnectionRequests.RequestedConnections.CancelConnectionAttempt` | patch/RakPeer.cpp:1686-1711 | removes the attempt for the address, if there is one, and leaves the others in order |
| `ConnectionRequests.RequestedConnections.HandleEntry` | patch/RakPeer.cpp:5710-5831 | one round removes the entry or updates it and moves on; the others stay |
| `ConnectionRequests.RequestedConnections.RunRequests` | patch/RakPeer.cpp:5708-5833 | the loop, which removes from the queue it walks, computes the specified pass |
| `RequestSchedule.MtuOfRequest` | patch/RakPeer.cpp:5756-5758 | the first third of the requests uses the largest MTU, the second the next one, and the rest the smallest |
| `RequestSchedule.CounterAfterRequest` | patch/RakPeer.cpp:5759-5819 | what each result of the socket makes of the counter |
| `RequestSchedule.DueAgain` | patch/RakPeer.cpp:5759-5819 | after a request the attempt is due again when the interval is over, or at once when the request was too large or the socket slow before the last third |
| `RequestSchedule.UndisturbedAttempt` | patch/RakPeer.cpp:5713-5760 | while everything is sent the counter counts the requests, so that count + 1 of them precede the failure report |
| `RequestSchedule.AttemptWaits` | patch/RakPeer.cpp:5708-5833 | over any run of the queue an attempt shows nothing and does not change until its time |
| `RequestSchedule.RequestsAreSpaced` | patch/RakPeer.cpp:5708-5833 | main result: over any run of the queue the request after one that was sent goes out in the first pass more than an interval later, or the failure is reported then, and nothing is shown before |
| `RequestSchedule.HolesAreDropped` | patch/RakPeer.cpp:5713-5751 | an entry without an address is dropped silently when it is due |
| `ClockSync.DifferentialError` | patch/RakPeer.cpp:4393-4415 | with remote clock = local + D the stored differential is within ping/2 + 1 of D |
| `ClockSync.RingHoldsWindow` | patch/RakPeer.cpp:4393-4415 | the ring holds each of the last samples, at its position modulo the size |
| `ClockSync.RingIsPrefix` | patch/RakPeer.cpp:3740-3744 | entries not yet used come after the used ones |
| `ClockSync.EntryFromWindow` | patch/RakPeer.cpp:4393-4415 | every used entry belongs to one of the last samples |
| `ClockSync.LowestIsMinimum` | patch/RakPeer.cpp:4393-4415 | `lowestPing` is the minimum over the whole history |
| `ClockSync.EstimateOfHistory` | patch/RakPeer.cpp:2238-2260 | when the pings in the window are below 65535 the estimate is the differential of a sample with the least of them |
| `ClockSync.ClockErrorBound` | patch/RakPeer.cpp:2238-2260 | main result: if the samples in the window are honest and below 65535 the estimate is off by at most half the least ping of the window, plus one, whatever came before |
| `ClockSync.EstimateOfWinner` | patch/RakPeer.cpp:2238-2260 | for pings of any length the estimate is the differential of the sample whose stored ping is the first least one before the loop stops |
| `ClockSync.WinnerOrNone` | patch/RakPeer.cpp:2238-2260 | there is such a sample if and only if the first entry does not look unused; otherwise the estimate is zero |
| `ClockSync.BoundHoldsExactly` | patch/RakPeer.cpp:2238-2260 | for pings of any length the bound holds for every honest remote clock if and only if half the true ping of that sample, plus one if a time is odd, is at most half of every ping in the window, plus one |
| `ClockSync.LongPingsBreakTheBound` | patch/RakPeer.cpp:4393-4415 | concrete samples on which a truncated ping wins and the bound fails |
| `ClockSync.PingRing.OnConnectedPong` | patch/RakPeer.cpp:4393-4415 | ring, write index and lowest ping describe the history with the new sample added |
| `ClockSync.PingRing.GetClockDifferentialInt` | patch/RakPeer.cpp:2238-2260 | the loop, which stops at the first unused entry, computes the specified estimate |
| `BanList.Bans.MatchesPattern` | patch/RakPeer.cpp:2012-2054 | the character loop decides the wildcard rule: equal strings, or equal up to a star before either ends |
| `BanList.Bans.IsBanned` | patch/RakPeer.cpp:1981-2064 | true if and only if some unexpired entry matches, although expired entries are swap-removed during the scan; no unexpired ban is lost, and a false answer leaves no expired one; a missing, empty or overlong address changes nothing |
| `BanList.Bans.AddToBanList` | patch/RakPeer.cpp:1861-1905 | ban strings stay distinct; an existing entry is updated in place |
| `BanList.Bans.RemoveFromBanList` | patch/RakPeer.cpp:1910-1942 | removes exactly the ban with that string |
| `BanList.FirstDifference` | patch/RakPeer.cpp:2017-2054 | the first position where the strings differ decides the match |
| `BanList.WildcardsCoverPrefixes` | patch/RakPeer.cpp:2017-2054 | a pattern without a star matches itself only, and one with a star exactly the longer addresses that begin like it |
| `BanList.AddedIsEffective` | patch/RakPeer.cpp:1861-1905 | after adding, an address is banned exactly by the new ban while it runs or by one of the others |
| `BanList.EndsAsAsked` | patch/RakPeer.cpp:1887-1901 | until the clock wraps a ban lasts as long as it was asked to if and only if its end does not wrap past zero; otherwise it has expired at once |
| `BanList.PermanentBans` | patch/RakPeer.cpp:1887-1901 | a ban never expires if and only if it was asked not to or its 32-bit end is zero |
| `ProxySessions.StepKeeps` | raknet_proxy.cpp:535-931 | every event of the main loop keeps the table invariant |
| `ProxySessions.SessionsStayValid` | raknet_proxy.cpp:535-931 | main result: over every run each key is the low half of the stored GUID, sessions never share a child, every owned child is live, and no child is destroyed twice or used after its destruction |
| `ProxySessions.LeaksExactly` | raknet_proxy.cpp:363-394 | a child loses its owner without being destroyed if and only if a client registers again over the session that owns it |
| `ProxySessions.RunLeaksExactly` | raknet_proxy.cpp:363-394 | over a whole run exactly those children are leaked, and for good |
| `ProxySessions.NoOverdueAfterSweep` | raknet_proxy.cpp:539-549 | after the deadline sweep no session connecting to its host is past its deadline |
| `ProxySessions.UinIsLowBytes` | raknet_proxy.cpp:293-303 | the UIN is the number in the last four of the eight GUID bytes on the wire |
| `ProxySessions.ReadBigEndianGuid` | raknet_proxy.cpp:298-303 | the shift loop computes the big-endian value |
| `ProxySessions.EraseAllKeeps` | raknet_proxy.cpp:539-549 | erasing sessions with their children keeps the invariant and leaks nothing |
| `ProxySessions.SessionTable.DestroyClient` | raknet_proxy.cpp:218-223 | a child is destroyed at most once: it must be live, and is not live afterwards |
| `ProxySessions.SessionTable.CreateChildPeer` | raknet_proxy.cpp:335-361 | on success the child is live and owned by the session; a child that was started in vain is destroyed once |
| `ProxySessions.SessionTable.UpdateClientState` | raknet_proxy.cpp:200-205 | the start time changes only with the state |
| `ProxySessions.SessionTable.HandleClientRegister` | raknet_proxy.cpp:363-394 | short packets are ignored; otherwise the session of the GUID in the packet is replaced if a child could be created |
| `ProxySessions.SessionTable.HandleClientOnline` | raknet_proxy.cpp:774-801 | the same on behalf of the coordinator, with the proxy's own GUID for a short packet |
| `ProxySessions.SessionTable.HandleNewIncoming` | raknet_proxy.cpp:561-592 | a known UIN is confirmed as connected, a new one gets a session |
| `ProxySessions.SessionTable.HandleHostRegister` | raknet_proxy.cpp:397-417 | sets host address, state and deadline of a known session; short packets are ignored |
| `ProxySessions.SessionTable.HandleDisconnectMessage` | raknet_proxy.cpp:431-443 | erases the first session of the client in key order and only that one |
| `ProxySessions.SessionTable.EraseWhere` | raknet_proxy.cpp:540-549 | the loop that erases while it iterates erases exactly the sessions that meet the condition |
| `ProxySessions.SessionTable.CheckTimeout` | raknet_proxy.cpp:539-549 | erases exactly the overdue sessions |
| `ProxySessions.SessionTable.OnDisconnectionNotification` | raknet_proxy.cpp:594-606 | erases exactly the sessions of that client address |
| `ProxySessions.SessionTable.OnConnectionLost` | raknet_proxy.cpp:620-633 | erases exactly the sessions with that client or target address |
| `ProxySessions.SessionTable.OnPunchSucceeded` | raknet_proxy.cpp:671-680 | moves a known session to punch-connected |
| `ProxySessions.SessionTable.PollChild` | raknet_proxy.cpp:861-914 | a connected child confirms its session; a failed or lost one is destroyed and forgotten |
| `ProxySessions.SessionTable.Forward` | raknet_proxy.cpp:809-853 | a packet goes to the session named in its header, or else to the first one with the address: to the client if it comes from the target, and else to the live child with a known target, or nowhere |
| `ProxySessions.SessionTable.OnShutdown` | raknet_proxy.cpp:926-931 | every owned child is destroyed once and the table is empty |
| `ProxyOutcome.TimeoutsExactly` | raknet_proxy.cpp:207-216 | main result: a sweep erases exactly the sessions that wait for their host with a deadline that has passed, destroys exactly their children, and leaves the others as they are |
| `ProxyOutcome.NotificationExactly` | raknet_proxy.cpp:594-606 | a disconnection erases exactly the sessions of that client address, with their children |
| `ProxyOutcome.LossExactly` | raknet_proxy.cpp:620-633 | a lost connection erases exactly the sessions that have the address as client or as target |
| `ProxyOutcome.DisconnectExactly` | raknet_proxy.cpp:431-443 | a disconnect message erases exactly the session of that client with the least key |
| `ProxyOutcome.ShutdownExactly` | raknet_proxy.cpp:926-931 | a shutdown erases every session and destroys exactly their children |
| `ProxyOutcome.RegisterOpens` | raknet_proxy.cpp:363-394 | a registration stores a session with its own child under the low half of the GUID, in its first state and without deadline, and only if the child could be created; no other session changes |
| `ProxyOutcome.HostChanges` | raknet_proxy.cpp:397-417 | host registration, host connection and punch set exactly address, state, start time and deadline of their session; a registered host gets 20 seconds |
| `ProxyOutcome.ChildChanges` | raknet_proxy.cpp:861-914 | an accepted child connects its session and ends the deadline; a failed one is destroyed and forgotten |
| `ProxyOutcome.SessionFate` | raknet_proxy.cpp:535-931 | main result: over every run without events about it a session is unchanged, and there exactly if no sweep came after its deadline |
| `ProxyOutcome.HostGetsItsTime` | raknet_proxy.cpp:397-417 | main result: after its host registered a session without further events stays if and only if no sweep comes more than 20 seconds later |
| `ProxyOutcome.AcceptedStays` | raknet_proxy.cpp:861-914 | a session whose child was accepted stays connected however late the sweeps come |
| `FileListDelta.AddKeepsDistinct` | patch/FileList.cpp:163-224 | adding keeps names distinct |
| `FileListDelta.NodeOfArguments` | patch/FileList.cpp:195-223 | a node stores the first bytes of the data and fills in what the context of the caller leaves open |
| `FileListDelta.AddStores` | patch/FileList.cpp:163-224 | afterwards the name belongs to the new file, unless the stored one has the same lengths and, with bytes on both sides, the same bytes; all other files stay |
| `FileListDelta.AddTwice` | patch/FileList.cpp:163-224 | adding a file again changes nothing |
| `FileListDelta.LocalPathLen` | patch/FileList.cpp:497-506 | the position of the last slash, or zero without one |
| `FileListDelta.CheckSubset` | patch/FileList.cpp:509-513 | the test on path lengths and slashes decides whether the name continues the directory, ignoring case, with a slash |
| `FileListDelta.AddAllIsIdentity` | patch/FileList.cpp:163-224 | adding files to an empty list reproduces them in order if and only if their names are distinct and within the length limit |
| `FileListDelta.DeltaSelects` | patch/FileList.cpp:494-541 | the delta lists, in ascending order, exactly the positions of the wanted files |
| `FileListDelta.DeltaIsExact` | patch/FileList.cpp:475-543 | main result: with distinct names and an empty output, the output is in order exactly the files of the subset whose first same-named input entry is absent or differs in lengths or bytes |
| `FileListDelta.WantedExactly` | patch/FileList.cpp:494-541 | a file is wanted if and only if it lies below the directory, ignoring case, and the first input entry with its name, if any, differs in a length or in a byte |
| `FileListDelta.NoDeltaToItself` | patch/FileList.cpp:475-543 | a list whose names differ even ignoring case has no delta to itself |
| `FileListDelta.FileList.AddFile` | patch/FileList.cpp:163-224 | the in-place search, removal and insertion compute the specified list |
| `FileListDelta.FileList.FindDifference` | patch/FileList.cpp:515-540 | the inner loop reports a file exactly if its first same-named input entry is absent or differs |
| `FileListDelta.FileList.GetDeltaToCurrent` | patch/FileList.cpp:475-543 | the nested loops add exactly the specified delta to the output |

## Left out

- The connection-driven mode `QUERY_CONNECTION_FOR_REPLICA_LIST` (patch/ReplicaManager3.cpp:840-870), which does not maintain the same ownership.
- Several worlds: one `RM3World` is modelled, and `PopConnection` with its deletion policies is not.
- The wrap-around of the 32-bit reference counter: a reference is made only while the counter is below its unassigned value.
- Callbacks that re-enter the manager, and callbacks that change their answer within a tick; `SendConstruction` asks `QueryConstruction` again.
- The bits of the destruction records and of `BroadcastDestructionList`: in `ReplicaSync` a destruction is a message that removes the replica from the receiver.
- Construction messages of 65536 objects or more, whose 16-bit count wraps.
- Runs with receivers that refuse a construction: `ReceiveConstruction` covers a refusal for one message, but `EndpointsAgree` takes the receiver to accept, over a FIFO channel, with one NetworkID per replica.
- Serialization results other than SERIALIZED_UNIQUELY, and send parameters that change between ticks: `DeltaSuppression` gives each channel constant parameters.
- The bit layout inside a serialize message: `SerializeChannels` encodes flag, length and data as items, and streams are equal bit by bit where the source compares whole bytes, so it could only send more.
- RunRequests: requires at least three attempts per entry, because with 0 to 2, which `Connect` accepts, the source divides by zero at patch/RakPeer.cpp:5756.
- Packets of other connections in RakPeer's receive queue, a second download on one connection, and a connection that goes away during one: `DownloadGroup` follows one download and keeps push-backs atomic.
- The node pool and the pointers of the hash chains: a chain is a sequence of slot numbers, and slots and pending attempts are values in an array or a sequence.
- Everything under `LIBCAT_SECURITY`, and `allowConnectionResponseIPMigration`; `FixForIPVersion` is the identity.
- Sockets, threads, mutexes and the reliability layer: what the layer of a slot delivers, and whether it is dead or waiting, is an input of the sweep.
- A bound of connected incoming systems by `maximumIncomingConnections`: admission counts only connected slots (patch/RakPeer.cpp:3583-3585), so handshakes in progress are not counted.
- The temporary ban of senders of nonsense (patch/RakPeer.cpp:5975-5977) is not linked to `BanList`.
- The wrap-around of clocks in `ClockSync`, where times are unbounded; `BanList` takes `TimeMS` as 32 bits.
- The order in which the proxy polls its children: `SessionTable.PollChild` treats one session.
- Byte counters, printing, reconnection to the coordinator, UPnP and command-line parsing of the proxy; `ProxySessions` takes as input how far the creation of a child got.
- The disk functions of `FileList`, and comparing bytes through a null pointer: where the source would do so, `FileList.AddFile` and `FileList.GetDeltaToCurrent` require bytes on both sides.
- The unsorted selection of local addresses (`FillIPList`), statistics, simple getters and setters, and `minissdpc.c`.
