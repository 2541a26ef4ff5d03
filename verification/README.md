# A verified model of the weather station services

The repository is a set of C daemons around weather records (discovery with leader election, ingestion,
aggregation, a command line client, a shared configuration reader) and a Go test harness (a binary protocol
validator, a property tester, a station downloader). This project models the parts of it that hold state,
run a protocol or rewrite text, and proves what they keep, for every input, every run and every interleaving.

`dafny verify dfyconfig.toml` checks everything (Dafny 4.11). Nothing here is executed.

## What is modelled

- **Leader election** (`Ids`, `Peers`, `Network`, `Safety`, `Cascade`, `Convergence`, `DiscoveryText`,
  `DiscoveryNode`). `Peers` says what one daemon does with a message, a probe or a timer; `DiscoveryNode` is the
  daemon itself, a class over the 32-slot array, each method proved against `Peers`. `Network` is the cluster: a
  node table and a bag of datagrams that may be delivered in any order, lost or duplicated. Ids are compared as
  `strcmp` does. There is no reply to an ELECTION, every ELECTION restarts the recipient's own election, and
  entries count whatever their health, exactly as in the C code.
- **Ingestion, paging and aggregation** (`CsvText`, `Ingestion`, `FileCache`, `PageText`, `PageBuffer`,
  `Aggregation`). A station file is the list of lines `fgets` returns; the weather table is a sequence of rows
  (a NULL flag is the empty text); `daily_aggregates` is a map. The page text is built into a growing array and
  read back with the same `strstr`/`sscanf` steps as in the aggregator. Values are reals; `%.2f` and `%.1f`
  round half to even.
- **The binary protocol** (`BigEndian`, `Protocol`): headers, messages, the stream validator over a reader object,
  the compliance report, for every protocol specification (`DefaultSpec` is the one the code ships).
- **Shrinking** (`Shrink`): the candidates of nested generators and the greedy search.
- **The download worker pool** (`WorkerPool`): goroutines, bounded channels and the wait group as interleaved steps.
- **Two in-place text programs** (`PrettyPrint`; `ConfigText`, `ConfigReader`): the JSON pretty printer, and the two
  configuration readers on NUL-terminated buffers.

`Text` holds the C library primitives they share (`%d`, `%.2f`, `%lf`, `%63s`, `strstr`, `strncpy`), `Seqs` facts about
sequences. A method is proved against a function, and what that function means is stated beside it in plain terms:
slots, fields, formats, sums and counts, with the numbers of the code written out.

## Where the code does not do what it is for

Each of these is proved, with the exact condition under which the code does meet the promise.

- **Failover.** The documentation promises that another node takes over when the leader fails
  (`docs/README.md:78`, `docs/architecture/ARCHITECTURE.md:234-255`). `start_election` counts every higher id in
  the table, alive or not, and entries are never removed. `Safety.FailoverIff`: from a state without a leader, one
  can ever appear if and only if some running node's table holds no id above its own.
  `Safety.NoFailoverAfterLeaderCrash`: if every survivor knew the crashed leader, nobody ever takes over.
- **Agreement.** `Convergence.RolesConvergeIffClimbable`: elections always end with the greatest node as the only leader
  and all others following if and only if every other node knows some running node above it, whatever heartbeats are
  sent, lost, duplicated or accepted. `Convergence.ConvergesIffClimbable` adds the leader flags, for runs in which no
  heartbeat is accepted.
- **Heartbeats.** `%63s` does not stop at the colon. `DiscoveryText.HeartbeatRoundTripIff`: a printed HEARTBEAT is
  understood exactly when the id has 63 characters.
- **Cost.** With complete tables and ELECTION and COORDINATOR delivered exactly once, one election at a node with k
  running nodes above it makes exactly 2^k - 1 ELECTION datagrams be handled (`Cascade.OneElectionCost`), with any
  heartbeats in between. With partial tables 2^k - 1 is an upper bound (`Cascade.RunAccount`).
- **Downloaded files.** The downloader writes no header and an empty first flag. `Ingestion.DownloadedFileArrives`:
  of its file the first record is lost and every quality flag is lost. `CsvText.FlagsSurviveIff` is the exact
  condition for a row to survive its line; `CsvText.NewlineBecomesFlag` is a line whose newline is stored as a flag.
- **Page text.** The writer escapes nothing and the reader searches for names anywhere in the text.
  `PageText.RowsComeBackIff`: the rows of a page come back as themselves if and only if station, date and element of
  each hold no quote, are present, are not the name of a later key, and fit the reader's buffers.
  `PageText.TrailerReachedIff`: the search for the total or the count arrives at the trailer if and only if no text
  holds that quoted name with its colon. Whatever the texts are, a fetch takes at most one request more than there are
  rows (`Aggregation.FetchIsShort`), and `Aggregation.TableComesBackIff` says when the whole table arrives as itself.
  `Aggregation.RowsReadTwice`: with a first station `"count":1` every other row is aggregated twice.
- **The cache** is exact while path, time and size determine the content (`FileCache.CacheChangesNothing`).
  `FileCache.CacheLosesNothingIff`: otherwise a run loses nothing exactly if every row of every skipped file was stored
  at the start or stands in a file that was ingested.
- **Streams.** The stream validator does not apply the per-type rules that message validation applies:
  `Protocol.StreamIsLaxerIff`.
- **Shrinking.** `Shrink.ShrinkingEndsIff`, for choices between integers only: from every value a generator produces
  the number of shrinks is bounded, whatever the property and the budget, if and only if no integer generator that
  shrinking reaches has a negative minimum; elements of lists of one length only are not reached. Otherwise
  (`Shrink.ShrinkingCanSpin`) it produces a value from which some property spends any budget. `Shrink.RangeKeptIff`,
  without choices: the candidates of everything produced could have been produced too exactly when integers start at 0
  or 1, are a single one that is not negative, or start below 0 with the negation of the minimum in range, and texts
  and lists have a minimum length of at most 1 or one length only.
- **Worker pool.** `WorkerPool.AllProcessedIff`: with `Parallel` below 1, Download returns normally and has
  downloaded nothing.
- **Pretty printing** keeps the content under the printer's own idea of a string exactly when the text does not end
  inside one (`PrettyPrint.PrinterKeepsContentIff`). As RFC 8259 reads it, the content is kept if and only if the text
  does not end inside a string and the printer breaks the line at no bracket or comma that the standard has inside a
  string (`PrettyPrint.JsonKeptIff`); `PrettyPrint.JsonTextIsBroken` is a JSON text of two short strings that it breaks.
- **Configuration.** The two readers agree on all texts with lines up to a length if and only if that length is at
  most 1023 (`ConfigText.ReadersAgreeIff`). A printed pair is read back as one call exactly when the parts fit the
  buffers, neither holds a comment sign, the key holds no equals sign, and no newline stands between the visible ends
  (`ConfigText.PrintedPairIff`).

The documentation and the code also disagree in form; the code is followed. `docs/services/S4_DISCOVERY.md:268-275`
lets only living higher nodes stop a takeover, the code counts all of them. `docs/protocols/BINARY_PROTOCOL.md:36-51`
has a 16-byte header, the validator reads 24 bytes with flags and a timestamp.

## Model

| member | source | states |
|---|---|---|
| Ids.Trichotomy | services/discovery/discovery.c:350 | strcmp order is total: exactly one of less, equal, greater, so "higher id" is unambiguous |
| Ids.Transitive | services/discovery/discovery.c:350 | strcmp order is transitive, so the higher-than relation has no cycles |
| Ids.FirstDifference | services/discovery/discovery.c:350 | the order is decided by the first character in which two ids differ |
| Peers.Above | services/discovery/discovery.c:349-357 | the ids an election is sent to are exactly the table's ids above the own one |
| Peers.AboveEmptyIffNoneHigher | services/discovery/discovery.c:349-366 | an election makes its node leader exactly when the table holds no higher id |
| Peers.HandleKeeps | services/discovery/discovery.c:296-397 | every message keeps the table within 32 slots, its ids distinct, slots only appended, and every message but an accepted heartbeat keeps at most one entry flagged |
| Peers.ProbeKeeps | services/discovery/discovery.c:482-530 | so does every endpoint probe |
| Peers.KnowledgeIsKept | services/discovery/discovery.c:329-366 | a node that knows a higher id keeps knowing it, and its elections only send ELECTIONs and leave it a candidate |
| Peers.DiscoveredIsListed | services/discovery/discovery.c:296-326 | another node that is known is refreshed in its slot; one that is not is appended, seen now, healthy and not flagged, while there are fewer than 32; every other slot is unchanged, and the own id or a full table changes nothing |
| Peers.DiscoveredHigherIsCalled | services/discovery/discovery.c:316-357 | a discovered node with a higher id, known or with room for it, gets an ELECTION in the next election |
| Peers.ElectionCallsSlots | services/discovery/discovery.c:329-366 | an election sends one ELECTION to each slot with a higher id, in slot order, and makes a candidate; without such a slot it broadcasts one COORDINATOR and makes the node leader |
| Peers.HeartbeatIsNoted | services/discovery/discovery.c:607-614 | an accepted heartbeat refreshes the first slot with its id and takes over the flag, and changes nothing else |
| Peers.AnnouncementIsNoted | services/discovery/discovery.c:380-397 | an announcement by another node makes a follower and flags exactly the slots with that id; the own one makes a leader and leaves the table alone |
| Peers.ProbedIsListed | services/discovery/discovery.c:482-530 | a healthy answer refreshes a known peer or appends one that resolves while there is room; any other answer only marks a known peer as unhealthy |
| Peers.HeartbeatsReachSlots | services/discovery/discovery.c:264-293 | a heartbeat round reaches each slot but the own one once, in slot order, with 1 exactly for a leader |
| Network.RunKeepsNames | services/discovery/discovery.c:577-629 | over every run, nodes keep their identity and every table only grows |
| Network.TablesStaySound | services/discovery/discovery.c:296-397 | the peer table invariant over every run with loss, duplication and reordering; at most one flagged entry as long as no heartbeat is accepted, however many are sent |
| Network.NoiseChangesBeatsOnly | services/discovery/discovery.c:264-293 | sending, losing, duplicating or ignoring heartbeats leaves every node and every other datagram as it was |
| Network.BagAfterDelivery | services/discovery/discovery.c:577-629 | a delivery takes one datagram out of the bag and puts in what its recipient answers |
| Safety.LeadersAnnounced | services/discovery/discovery.c:346-397 | every leader, and every id flagged as leader in any table, announced itself while its table held no higher id |
| Safety.SplitBrainOnlyFromPartialViews | services/discovery/discovery.c:346-397 | of two simultaneous leaders the lower one announced before it had learned of the higher one |
| Safety.InformedNodesNeverAnnounce | services/discovery/discovery.c:329-366 | once a node knows a higher id it never announces itself again, in any continuation |
| Safety.FailoverIff | services/discovery/discovery.c:349-366 | from a leaderless state a leader can ever appear if and only if some running node's table holds no higher id |
| Safety.NoFailoverAfterLeaderCrash | services/discovery/discovery.c:349-366 | if all survivors have the crashed leader in their tables, no run elects anybody |
| Cascade.HigherWeight | services/discovery/discovery.c:349-357 | the weights of the nodes an election calls sum to at most 2^k - 1, and to exactly that with complete tables |
| Cascade.HandledIsCount | services/discovery/discovery.c:369-377 | the ELECTIONs handled in a run are the events that deliver one |
| Cascade.StepAccount | services/discovery/discovery.c:335-377 | each step: weight in flight plus ELECTIONs handled is at most what elections paid in, and exactly that with complete tables; heartbeats, accepted or not, move no weight |
| Cascade.RunAccount | services/discovery/discovery.c:335-377 | the same account over every run of any number of elections in any delivery order, with any heartbeats |
| Cascade.OneElectionCost | services/discovery/discovery.c:335-377 | with complete tables and reliable delivery of ELECTION and COORDINATOR: one election with k nodes above it handles exactly 2^k - 1 ELECTIONs before none is in flight, whatever heartbeats and discoveries happen in between |
| Cascade.DeliveriesAreBounded | services/discovery/discovery.c:335-397 | every election ends: ELECTION and COORDINATOR deliveries are bounded by (N + 1) * 2^k for each election started, with any heartbeats |
| Convergence.Converges | services/discovery/discovery.c:329-397 | for any delivery order, any elections at any moments and any heartbeats short of accepted ones: once no ELECTION and no COORDINATOR is in flight the greatest node leads, all others follow and flag nobody else, and nodes that knew it flag exactly it |
| Convergence.RolesConverge | services/discovery/discovery.c:329-397 | the roles for every reliable run, accepted heartbeats and any flags at the start included: the greatest node leads and all others follow |
| Convergence.RolesConvergeIffClimbable | services/discovery/discovery.c:329-397 | one leader, the greatest node, is guaranteed over all those runs if and only if every node but the greatest knows some running node above it |
| Convergence.CompleteTablesConverge | services/discovery/discovery.c:329-397 | with complete tables every other node ends up following and flagging the greatest one |
| Convergence.ConvergesIffClimbable | services/discovery/discovery.c:329-397 | the same with the leader flags, for runs without an accepted heartbeat |
| Convergence.UsurperWins | services/discovery/discovery.c:359-366 | the run by which any node that knows nobody above it becomes and stays leader, whatever is flagged |
| Convergence.LastElectionReachesMax | services/discovery/discovery.c:349-377 | in every run that ends without an ELECTION in flight, the last ELECTION delivered goes to the greatest node |
| DiscoveryText.DiscoverRoundTrip | services/discovery/discovery.c:230-232 | a printed DISCOVER is dispatched and scanned to the same id, for every id of 1 to 63 characters without white space |
| DiscoveryText.ElectionRoundTrip | services/discovery/discovery.c:337-338 | the same for ELECTION |
| DiscoveryText.CoordinatorRoundTrip | services/discovery/discovery.c:361 | the same for COORDINATOR |
| DiscoveryText.HeartbeatRoundTripIff | services/discovery/discovery.c:604-606 | a printed HEARTBEAT gives both fields back exactly when the id has 63 characters, and nothing otherwise |
| DiscoveryText.DispatchIsUnambiguous | services/discovery/discovery.c:601-626 | no datagram starts with two of the four names |
| DiscoveryNode.PrintedDatagrams | services/discovery/discovery.c:601-626 | on a printed message the socket loop does what the election model says the message does |
| DiscoveryNode.DiscoveryNode.HandleDiscovery | services/discovery/discovery.c:296-326 | the array holds what `Peers.DiscoveredIsListed` says: a known node refreshed, a new one in the next slot; slots past the count stay zero, so a new node is never flagged |
| DiscoveryNode.DiscoveryNode.StartElection | services/discovery/discovery.c:329-366 | the loop sends exactly the modelled datagrams and leaves the modelled role |
| DiscoveryNode.DiscoveryNode.HandleElection | services/discovery/discovery.c:369-377 | an election restarts exactly when the own id is higher |
| DiscoveryNode.DiscoveryNode.HandleCoordinator | services/discovery/discovery.c:380-397 | the flag loop leaves exactly the announced id flagged, and the own announcement leaves the flags alone |
| DiscoveryNode.DiscoveryNode.HandleHeartbeat | services/discovery/discovery.c:607-614 | only the first slot with the id is refreshed and takes the sender's flag |
| DiscoveryNode.DiscoveryNode.CheckLeaderHealth | services/discovery/discovery.c:400-425 | an election starts exactly when `DiscoveryNode.HealthCheckIff` says so, and it is that of `StartElection` |
| DiscoveryNode.HealthCheckIff | services/discovery/discovery.c:400-425 | for a timeout of T milliseconds: a node that does not lead starts an election exactly when the first flagged entry has not been seen for more than T, or nobody is flagged in a table that is not empty |
| DiscoveryNode.DiscoveryNode.CheckPeerEndpoints | services/discovery/discovery.c:482-530 | the probe loop applies the probes in configuration order, each with its own reading of the clock |
| DiscoveryNode.LastProbeDecides | services/discovery/discovery.c:482-530 | in a round of probes the last one of a known peer decides about its health, and about when it was seen if it is healthy |
| DiscoveryNode.DiscoveryNode.SendHeartbeat | services/discovery/discovery.c:264-293 | one heartbeat to every slot but the own one, in slot order |
| DiscoveryNode.DiscoveryNode.ProcessDatagram | services/discovery/discovery.c:577-629 | a datagram that does not parse changes nothing, any other one does what its message says |
| Text.RealRoundTrip | services/aggregation/aggregation.c:294-295 | what %.2f prints, %lf reads back as the value rounded to hundredths, whatever follows |
| Text.IntRoundTrip | services/aggregation/aggregation.c:276-283 | what %d prints, %d reads back, negative numbers included |
| Text.IntegerIsRead | services/ingestion/ingestion.c:232-233 | %lf reads an integer without a point as that number |
| Text.DecimalIsRead | services/ingestion/ingestion.c:232-233 | %lf reads digits with a point as the decimal number they denote, with its sign |
| Text.NearestHundredth | services/ingestion/ingestion.c:636 | %.2f prints the nearest hundredth, a tie going to the even one |
| Text.FirstOccurrence | services/aggregation/aggregation.c:274-302 | strstr finds the first place where the pattern stands |
| CsvText.WrittenLineIsRead | services/ingestion/ingestion.c:232-239 | a row without commas but in the last flag is accepted exactly when its texts have the widths of the scan, and then comes back with flags cut to one character and up to the first that is empty or longer |
| CsvText.IntegerLineIsStored | services/ingestion/ingestion.c:232-239 | a line with an integer as its value is stored with that integer exactly when its texts have the widths of the scan |
| CsvText.DecimalLineIsStored | services/ingestion/ingestion.c:232-239 | a line with a decimal value is stored with the number its digits denote |
| CsvText.ExampleLine | services/ingestion/ingestion.c:232-239 | the line USW00094728,20240101,TMAX,55,,,W is stored with the value 55 and no flag |
| CsvText.NearestTenth | test-harness/pkg/data/noaa.go:700-713 | the downloader writes the nearest tenth, a tie going to the even one |
| CsvText.FlagsSurviveIff | services/ingestion/ingestion.c:232-239 | for every row, scanned as one line: it comes back with its texts and flags exactly when the texts hold no comma and have the widths of the scan, each flag has at most one character, no comma or final blank, and none follows an empty one |
| CsvText.NewlineBecomesFlag | services/ingestion/ingestion.c:232-245 | a line ending after the value's comma is stored with a newline as its measurement flag |
| CsvText.StoredRowIsNarrow | services/ingestion/ingestion.c:224-239 | any accepted line gives texts within the scan widths, flags that form a prefix, and no quote in a text unless the line has one |
| CsvText.StoredRowIsQuotable | services/ingestion/ingestion.c:224-239 | the flags of any accepted line fit the page text, quote or not, and so does the whole row of a line without quotes |
| CsvText.QualityIsLost | test-harness/pkg/data/noaa.go:700-713 | a line of the downloader is stored without its quality flag |
| Ingestion.EveryLineIsCounted | services/ingestion/ingestion.c:219-281 | lines = inserted + duplicates + errors, the table grows by the insertions, loses nothing, and never holds two rows that agree on all seven columns |
| Ingestion.ErrorsAreCounted | services/ingestion/ingestion.c:219-281 | the errors are the lines that do not parse and those whose insert fails |
| Ingestion.NewRowsInOrder | services/ingestion/ingestion.c:219-281 | the new rows stand behind the old ones in the order of their lines, each as its line parses |
| Ingestion.NoErrorIff | services/ingestion/ingestion.c:241-290 | ingestion reports success exactly when every line parses and every insert works, and then all rows of the file are stored |
| Ingestion.RowsWhenWorking | services/ingestion/ingestion.c:241-281 | with working inserts the table holds exactly the old rows and the rows of the file, malformed lines notwithstanding |
| Ingestion.NothingNewIff | services/ingestion/ingestion.c:191-198 | ingesting changes nothing exactly when all rows of the file are stored already |
| Ingestion.AgainInsertsNothing | services/ingestion/ingestion.c:191-198 | ingesting a file a second time inserts nothing |
| Ingestion.FileOrderDoesNotMatter | services/ingestion/ingestion.c:191-291 | two files in either order leave the same rows, and the same aggregates after a fetch |
| Ingestion.TableStaysQuotable | services/ingestion/ingestion.c:232-268 | files without quotes keep every row of the table without quotes in its texts |
| Ingestion.TableFlagsFit | services/ingestion/ingestion.c:232-268 | whatever the files hold, the flags of every stored row fit the page text |
| Ingestion.DownloadedFileArrives | test-harness/pkg/data/noaa.go:691-717 | of a downloaded file the first record is lost to the header rule and every other one arrives without its quality flag |
| FileCache.SkippedFilesAreStored | services/ingestion/ingestion.c:294-457 | in every run of file changes, polls, failures and restarts, a file that would be skipped parses completely and all its rows are stored |
| FileCache.CacheChangesNothing | services/ingestion/ingestion.c:305-457 | every run stores the same rows in the same order as ingesting every file at every poll |
| FileCache.CacheLosesNothingIff | services/ingestion/ingestion.c:305-457 | for every run with working inserts, stamps reused or not: the rows are those of ingesting every file at every poll if and only if every row of every skipped file was stored at the start or is in an ingested file |
| FileCache.CacheChangesNothingFromScratch | services/ingestion/ingestion.c:305-457 | a service that starts on an empty database loses nothing to the cache while stamps determine contents |
| FileCache.RowsStayDistinct | services/ingestion/ingestion.c:191-291 | in every reachable table no two rows agree on all seven columns |
| FileCache.ReusedStampLosesRowsIff | services/ingestion/ingestion.c:305-316 | when a file is rewritten under the same time and size, nothing is lost exactly if its rows were stored already |
| FileCache.Ingestor.IngestFile | services/ingestion/ingestion.c:181-291 | the line loop stores the modelled rows and returns -1 exactly when some line failed |
| FileCache.Ingestor.ShouldProcess | services/ingestion/ingestion.c:305-316 | a file is skipped exactly when the first entry with its path has its time and size |
| FileCache.Ingestor.MarkProcessed | services/ingestion/ingestion.c:318-364 | the entry is updated in place or pushed in front; the persisted copy changes only if the upsert works |
| FileCache.Ingestor.LoadProcessed | services/ingestion/ingestion.c:366-410 | the persisted entries are pushed in front one by one |
| FileCache.Ingestor.ProcessFile | services/ingestion/ingestion.c:437-451 | one directory entry does one modelled step, whatever fails |
| FileCache.Ingestor.ProcessFiles | services/ingestion/ingestion.c:423-457 | one poll does one step for each entry ending in .csv |
| FileCache.MarkedIff | services/ingestion/ingestion.c:318-364 | a marked file is tracked under its new time and size and no other, and no other file changes its status |
| FileCache.LoadedIff | services/ingestion/ingestion.c:366-410 | loading rows that agree on a path tracks it with their time and size unless the path is empty; other paths keep their status |
| FileCache.RestartIff | services/ingestion/ingestion.c:366-410 | after a restart exactly the persisted files are tracked, with the persisted time and size |
| FileCache.RestartRemembers | services/ingestion/ingestion.c:305-410 | a file that was ingested and recorded without an error is skipped after the next restart |
| FileCache.OtherNamesChangeNothing | services/ingestion/ingestion.c:423-457 | an entry whose name is not something followed by .csv changes nothing |
| FileCache.PollStep | services/ingestion/ingestion.c:423-457 | an entry stem.csv is looked up as directory/stem.csv, cut at 511 characters: without its stamp, without its content or tracked with this stamp it changes nothing, otherwise it is ingested |
| FileCache.VisitedStores | services/ingestion/ingestion.c:181-364 | with working inserts an ingested file adds exactly the rows of its lines after the first; it is tracked, and persisted if that works, exactly when all of them parse |
| FileCache.PollStores | services/ingestion/ingestion.c:423-457 | after a poll the rows of every readable .csv file that was not skipped are stored |
| PageText.PageRecordsRoundTrip | services/aggregation/aggregation.c:286-335 | for every list of rows whose texts hold no quote, the record scan recovers exactly the recoverable rows, in order, values rounded to two decimals |
| PageText.PageNumbersRoundTrip | services/aggregation/aggregation.c:274-284 | total and count are read back whatever texts the rows hold, short of the quoted name of the number with its colon |
| PageText.TrailerReachedIff | services/aggregation/aggregation.c:274-284 | for rows with any texts, strstr arrives at the trailer's number if and only if no text holds its quoted name with the colon |
| PageText.RowsComeBackIff | services/aggregation/aggregation.c:288-302 | the rows of a page come back as themselves, values in hundredths, if and only if the texts of each hold no quote, are present, are not the name of a later key, and have at most 31, 15 and 7 characters |
| PageText.FlagsRead | services/ingestion/ingestion.c:636-646 | from the station of a row without quotes, none of whose texts is the name of a flag, each of the three flags is read back under its own name |
| PageText.PageFlagsRead | services/ingestion/ingestion.c:636-646 | every row of a page stands in it with these flags |
| PageText.PageWindowRoundTrip | services/ingestion/ingestion.c:702-703 | the offset and the limit are read back whatever texts the rows hold, short of their quoted names with the colon |
| PageText.RowFormat | services/ingestion/ingestion.c:636-646 | a row is its seven columns in the places of the format |
| PageText.TrailerFormat | services/ingestion/ingestion.c:702-703 | the trailer is its four numbers in the places of the format |
| PageText.PageFormat | services/ingestion/ingestion.c:614-703 | the page is its opening, the rows and the trailer |
| PageBuffer.RowFits | services/ingestion/ingestion.c:635-647 | every row with the widths of the scan and a finite double as its value fits the 512 byte line buffer untruncated |
| PageBuffer.ShortLineIsStored | services/ingestion/ingestion.c:224-239 | every accepted line of at most 309 characters gives such a row |
| PageBuffer.TableStaysStored | services/ingestion/ingestion.c:219-281 | ingesting lines whose values are finite doubles keeps every row of the table such a row |
| PageBuffer.TrailerLength | services/ingestion/ingestion.c:702-703 | the trailer has at most 83 characters |
| PageBuffer.Reserve | services/ingestion/ingestion.c:657-670 | the doubling loop ends with room for the next text, 128 more and a terminator, at most twice what is needed, contents kept |
| PageBuffer.Write | services/ingestion/ingestion.c:657-674 | each copied row is the old text followed by the row, terminated, within the capacity bound |
| PageBuffer.BuildPage | services/ingestion/ingestion.c:614-703 | the finished buffer holds exactly the page whose text `RowFormat`, `TrailerFormat` and `PageFormat` give, untruncated and terminated, in at most max(16384, 2 * (length + 128)) bytes |
| Aggregation.UpsertsAreGroupBy | services/aggregation/aggregation.c:309-318 | the running upsert equals the group-by: exact count, mean, minimum and maximum of every group (`Aggregation.GroupsByFields` says what the groups are) |
| Aggregation.GroupsByFields | services/aggregation/aggregation.c:302-324 | for every station, day and metric: there is an entry exactly when some record has this station, this element and this day as the first eight characters of its date, and it holds the number, mean, minimum and maximum of the values of exactly these records |
| Aggregation.RowsGroupBy | services/aggregation/aggregation.c:302-324 | the same for the rows of the weather table: of the recoverable rows, by their own columns, with values in hundredths |
| Aggregation.GroupByIsUnique | services/aggregation/aggregation.c:309-318 | a group-by is determined by the records, in whatever order |
| Aggregation.RowOrderDoesNotMatter | services/ingestion/ingestion.c:603-607 | the order in which the database returns the rows does not change the aggregates |
| Aggregation.EveryRowIsReadIff | services/aggregation/aggregation.c:304-331 | every row is counted exactly when every row is recoverable |
| Aggregation.FullPages | services/aggregation/aggregation.c:246-356 | where no text carries the name of a number, the fetch takes max(1, ceil(T / 10000)) requests and its replies are those of the full pages one after the other |
| Aggregation.FetchedIsRead | services/ingestion/ingestion.c:580-703 | without quotes in the texts, the first requests bring in exactly the recoverable rows of the first pages, in order, none twice |
| Aggregation.FetchIsShort | services/aggregation/aggregation.c:258-350 | for every table, whatever its texts are read as, the paging loop ends after at most one request more than there are rows |
| Aggregation.RowsReadTwice | services/aggregation/aggregation.c:279-350 | a first row whose station is the quoted name of the count, a colon and 1 makes the loop advance by one row and aggregate every other row twice |
| Aggregation.TableComesBackIff | services/aggregation/aggregation.c:246-356 | whichever pages the loop asks for: a whole fetch brings in every row of the table as itself, once and in order, if and only if every row survives its page |
| Aggregation.ServeClamps | services/ingestion/ingestion.c:580-604 | a negative offset is 0, a limit below 1 is 10000 and one above 50000 is 50000 |
| Aggregation.WindowRows | services/ingestion/ingestion.c:603-607 | the window of a request is the rows from the offset on, at most as many as the limit |
| Aggregation.Aggregator.ScanPage | services/aggregation/aggregation.c:286-335 | the record loop upserts exactly the scanned records of a response, in order |
| Aggregation.Aggregator.FetchAndAggregate | services/aggregation/aggregation.c:246-356 | for every table: the old aggregates are replaced by those of the replies of the paging loop; it fails exactly when a needed request fails, leaving the aggregates of the replies before; the requests are at most T + 1, and max(1, ceil(T / 10000)) where the numbers are read as written; without quotes in the texts the aggregates are the group-by, by station, day and element, of the first 10000 rows of each answered request |
| BigEndian.ValueOfBytes | test-harness/pkg/protocol/validator.go:216-226 | an encoded number decodes to itself |
| BigEndian.BytesOfValue | test-harness/pkg/protocol/validator.go:124-134 | every byte string is the encoding of what it decodes to |
| BigEndian.FirstIsMostSignificant | test-harness/pkg/protocol/validator.go:216-226 | the first byte is the most significant one |
| Protocol.HeaderRoundTrip | test-harness/pkg/protocol/validator.go:119-226 | the bytes of a header decode to all its fields, whatever follows |
| Protocol.ValidateHeaderIff | test-harness/pkg/protocol/validator.go:119-160 | 24 bytes are accepted as a header exactly when they encode an acceptable one |
| Protocol.HeaderRefusals | test-harness/pkg/protocol/validator.go:119-160 | which of the errors a refused header gives |
| Protocol.MessageRefusals | test-harness/pkg/protocol/validator.go:163-199 | which of the errors a refused message gives |
| Protocol.CreatedFields | test-harness/pkg/protocol/validator.go:202-236 | a created message carries the magic number and version of the specification, the type, flags 0, the payload length modulo 2^32, the given sequence number, timestamp 0, and the payload behind its 24 bytes |
| Protocol.MessageRoundTripIff | test-harness/pkg/protocol/validator.go:163-236 | a created message with any trailing bytes validates to a header with exactly these fields and to its payload exactly when its type is known and its length meets the type's rules, payloads beyond 2^32 included |
| Protocol.ResultsTileTheInput | test-harness/pkg/protocol/validator.go:239-295 | the results of a stream correspond to consecutive pieces whose concatenation is the whole input |
| Protocol.StreamIff | test-harness/pkg/protocol/validator.go:239-295 | the results are exactly the one reading of the input as messages, bad headers and at most one final truncation |
| Protocol.StreamNumbers | test-harness/pkg/protocol/validator.go:241-292 | each result carries the number of valid results before it, modulo 2^32 |
| Protocol.FailuresAre | test-harness/pkg/protocol/validator.go:239-295 | fewer than 24 bytes are a truncated header, a bad header takes 24 bytes and the stream goes on, and a payload that does not all come is an end of input exactly when none of it does |
| Protocol.MessagesComeBack | test-harness/pkg/protocol/validator.go:239-295 | a concatenation of well-formed messages gives back exactly those headers and payloads |
| Protocol.CompliantIff | test-harness/pkg/protocol/validator.go:239-331 | a stream gives no invalid result exactly when it is a concatenation of well-formed messages |
| Protocol.StreamAcceptsIff | test-harness/pkg/protocol/validator.go:262-290 | a created message is one valid stream result exactly when its type is known and its length within the general maximum |
| Protocol.StreamIsLaxerIff | test-harness/pkg/protocol/validator.go:163-295 | exactly which messages the stream accepts although message validation refuses them |
| Protocol.Reader.ReadFull | test-harness/pkg/protocol/validator.go:246-268 | all bytes asked for, or end of input with the rest consumed |
| Protocol.ValidateStream | test-harness/pkg/protocol/validator.go:239-295 | for every input the loop ends, has consumed everything and returns the stream's results |
| Protocol.ComplianceReport | test-harness/pkg/protocol/validator.go:307-331 | valid and invalid results are counted once each, per type and in order, and compliant means that none is invalid |
| Protocol.ErrorsInOrder | test-harness/pkg/protocol/validator.go:307-331 | the errors of the report are those of the invalid results, in order |
| Protocol.KindsAreCounted | test-harness/pkg/protocol/validator.go:307-331 | each type is counted once for each valid result of that type |
| Protocol.ShippedLengths | test-harness/pkg/protocol/validator.go:69-116 | the lengths each type of the shipped specification allows |
| Shrink.EveryCandidateIsSmaller | test-harness/pkg/property/testing.go:154-285 | every candidate keeps the types of its value and, with no negative integer minimum inside, is strictly smaller |
| Shrink.EndsIff | test-harness/pkg/property/testing.go:116-285 | with choices between integers only, for each value of the generator's types: the number of shrinks from it is bounded, whatever the property and the budget, exactly when nothing in it that shrinking reaches belongs to an integer generator with a negative minimum |
| Shrink.ShrinkingEndsIff | test-harness/pkg/property/testing.go:81-285 | with choices between integers only: shrinking ends from everything a generator produces exactly when no integer generator that shrinking reaches has a negative minimum |
| Shrink.StaysInRangeIff | test-harness/pkg/property/testing.go:154-285 | for each value a generator produces: its candidates could all have been produced too exactly when the halves of its numbers, texts and lists could, and the negations of its negative numbers |
| Shrink.RangeKeptIff | test-harness/pkg/property/testing.go:145-285 | without choices: the exact bounds for which that holds of everything a generator produces |
| Shrink.ShrinkingIsSound | test-harness/pkg/property/testing.go:116-142 | from every value that meets the condition of `EndsIff`: the result still fails and meets it, at most min(budget, size) shrinks are made, and with budget left no candidate of the result fails |
| Shrink.CandidateOrder | test-harness/pkg/property/testing.go:154-232 | the candidates of integers, texts and lists, in the order in which they are tried |
| Shrink.IntMinimalIff | test-harness/pkg/property/testing.go:154-167 | of an integer no candidate fails exactly when the property holds at n - 1 and at the truncated half if n is above the minimum, and at -n if n is negative |
| Shrink.StrMinimalIff | test-harness/pkg/property/testing.go:189-204 | of a text, exactly when it holds of the three shorter ones |
| Shrink.SliceMinimalIff | test-harness/pkg/property/testing.go:221-248 | of a list, exactly when it holds of the three shorter ones and of the list with any candidate of any element in its place |
| Shrink.MapMinimalIff | test-harness/pkg/property/testing.go:267-285 | of a map, exactly when it holds of the map without the first key the iteration meets |
| Shrink.PairMinimalIff | test-harness/pkg/property/testing.go:404-418 | of a pair, exactly when it holds with any candidate of either part in its place |
| Shrink.ChoiceCandidates | test-harness/pkg/property/testing.go:300-309 | a choice has the candidates of its first generator that has any |
| Shrink.SearchTakesFirst | test-harness/pkg/property/testing.go:126-133 | a round takes the first candidate on which the property fails |
| Shrink.SearchFindsThreshold | test-harness/pkg/property/testing.go:116-167 | for a property that fails from a threshold on, the search from any number above it ends exactly at the threshold |
| Shrink.ShrinkingCanSpin | test-harness/pkg/property/testing.go:116-142 | any other generator produces a value, and there is a property failing on it, for which the search spends any budget |
| Shrink.ShrinkFailing | test-harness/pkg/property/testing.go:116-142 | the loop is the greedy search, for any implementation of the generator interface |
| WorkerPool.RunKeepsInv | test-harness/pkg/data/noaa.go:593-675 | in every interleaving each station sent is in exactly one place, the totals match what was read, and no channel is used after it is closed |
| WorkerPool.ChannelsBounded | test-harness/pkg/data/noaa.go:598-599 | no channel ever holds more than its capacity, and nobody has a result to send once the results are closed |
| WorkerPool.NoDeadlock | test-harness/pkg/data/noaa.go:601-635 | until Download returns, some step can always be taken |
| WorkerPool.RunsAreBounded | test-harness/pkg/data/noaa.go:593-675 | every step is one of exactly 4 moves a station, 2 a worker and 4 of Download |
| WorkerPool.EveryStationOnce | test-harness/pkg/data/noaa.go:593-640 | with a worker, every station yields exactly one result, and files + errors = processed = stations |
| WorkerPool.AllProcessedIff | test-harness/pkg/data/noaa.go:602-611 | everything is processed exactly when Parallel is at least 1 or there is nothing to do |
| WorkerPool.Collect | test-harness/pkg/data/noaa.go:626-636 | the result loop leaves the summary that `WorkerPool.SummaryIsSums` describes |
| WorkerPool.SummaryIsSums | test-harness/pkg/data/noaa.go:626-636 | all results are counted, records and bytes are the sums over the successful ones, each successful one is a file, and every other one leaves its error, in order |
| WorkerPool.ChannelsKeepOrder | test-harness/pkg/data/noaa.go:601-635 | in every run the stations are taken in the order of the job, and the results are read in the order in which they were sent, each with the outcome of its own station |
| WorkerPool.WorkersAreCapped | test-harness/pkg/data/noaa.go:602-611 | one worker for each unit of Parallel, at most one a station, none below 1 |
| PrettyPrint.ContentKeptIff | services/cli/cli.c:337-370 | for any reading rule that agrees with the printer about strings, the output reads as the input exactly when the input does not end inside a string |
| PrettyPrint.PrinterKeepsContentIff | services/cli/cli.c:337-370 | the same under the printer's own quote rule, for every input |
| PrettyPrint.RulesAgreeIff | services/cli/cli.c:343-345 | the printer sees the strings of RFC 8259 exactly when no quote follows a backslash that does not escape it |
| PrettyPrint.JsonKeptIff | services/cli/cli.c:337-370 | as RFC 8259 reads it, for every text: the content is kept if and only if the text does not end inside a string and no line break falls inside one |
| PrettyPrint.PlainIsWellPlaced | services/cli/cli.c:343-345 | where the printer sees the strings of the standard, no line break falls inside a string |
| PrettyPrint.JsonTextIsBroken | services/cli/cli.c:343-345 | a JSON text, an array of two strings, whose second string the printer breaks |
| PrettyPrint.IndentIsDepth | services/cli/cli.c:347-362 | the indentation is always twice the bracket depth, so it ends at 0 for balanced brackets |
| PrettyPrint.LayoutFollowsDepth | services/cli/cli.c:347-362 | a break and two blanks for each level of bracket depth follow each opening bracket and comma and precede each closing bracket outside strings, and nothing else is added |
| PrettyPrint.DepthNext | services/cli/cli.c:347-362 | the depth goes up by an opening bracket and down by a closing one, outside strings only |
| PrettyPrint.PrettyExample | services/cli/cli.c:337-370 | a small object with a list, printed over seven lines |
| PrettyPrint.OutputJson | services/cli/cli.c:337-370 | the character loop prints the modelled text |
| ConfigText.ReadersAgree | services/shared/src/config.c:81-164 | both readers make the same handler calls on every text whose lines have at most 1023 characters |
| ConfigText.ReadersAgreeIff | services/shared/src/config.c:97-147 | 1023 is the greatest line length for which they always agree |
| ConfigText.PrintedPairIff | services/shared/src/config.c:39-164 | a printed pair as a text of its own is read back as one call with the trimmed key and value exactly when they fit the buffers, neither holds a comment sign, the key holds no equals sign, and no newline follows the first visible character of the key or precedes the last one of the value; by the file reader too, for lines up to 1023 characters |
| ConfigText.PrintedLineIff | services/shared/src/config.c:39-79 | the condition for one line: the parts fit the buffers, no comment sign in either, no equals sign in the key |
| ConfigText.CommentIsCut | services/shared/src/config.c:29-37 | a comment sign and what follows it change nothing |
| ConfigText.LineIsReadIff | services/shared/src/config.c:39-79 | a line without a comment gives a call exactly when it holds an equals sign |
| ConfigText.PairIsCut | services/shared/src/config.c:39-79 | the key of a line is cut at 127 characters and its value at 511 |
| ConfigText.TextsInOrder | services/shared/src/config.c:81-164 | two texts with a newline between them give the calls of the first and then those of the second |
| ConfigText.AcceptedAreCounted | services/shared/src/config.c:81-164 | the count is that of the accepted calls |
| ConfigText.LinesWithinIff | services/shared/src/config.c:97-147 | no line is longer than a limit exactly when no stretch of the text without a newline is |
| ConfigReader.Trim | services/shared/src/config.c:12-27 | the pointer moves to the first visible character, trailing blanks become terminators, nothing outside the text changes |
| ConfigReader.RemoveComment | services/shared/src/config.c:29-37 | the text ends before the comment, nothing outside it changes |
| ConfigReader.ParseLine | services/shared/src/config.c:39-79 | the two buffers hold the trimmed and truncated key and value |
| ConfigReader.ReadChunk | services/shared/src/config.c:97-101 | fgets takes a line, or 1023 characters of a longer one, without its newline |
| ConfigReader.StrTok | services/shared/src/config.c:142-161 | strtok terminates the next non-empty line in place and leaves the rest of the text intact behind it |
| ConfigReader.ConfigParse | services/shared/src/config.c:81-121 | the file reader's calls and count, -1 when the file cannot be opened |
| ConfigReader.ConfigParseString | services/shared/src/config.c:123-164 | the string reader's calls and count, although it edits its tokens while it cuts them |

## Left out

- Addresses, ports and the broadcast socket option: a table entry is identified with its id, and a broadcast reaches every running node. `inet_addr`, `sendto` and the missing SO_BROADCAST are I/O.
- Clocks: `now` and `last_seen` are parameters; a probe is a boolean.
- Restarts and configuration reload of discovery daemons, `known_nodes`, the TCP heartbeat to peers, and the unlocked read of the role in `send_heartbeat`.
- Convergence.Converges: the flags assume that no heartbeat is accepted in the run, because an accepted one may overwrite a flag; the roles (`Convergence.RolesConverge`) and `Cascade`, `Network` and `Safety` include accepted heartbeats.
- Cascade.RunAccount: assumes that only running nodes are heard of and that ELECTION and COORDINATOR are neither lost nor duplicated; `Network` and `Safety` include loss, duplication and unknown ids.
- TLS, replication, the beacon and acknowledgement protocol of `docs/services/S4_DISCOVERY.md`: described there, not implemented.
- Sockets, HTTP, retries and the 50 MB response limit of the aggregator (a page of 10000 rows stays far below it); one boolean says whether a request is answered.
- SQLite: tables are sequences and maps, a transaction is one step, a failing COMMIT is not modelled; `hourly_aggregates` is only cleared by the code.
- Binary floating point: `%lf` is modelled for plain decimal notation (no exponent, hexadecimal, infinity or NaN), sums and means are exact reals, `%d` does not overflow.
- CsvText.FlagsSurviveIff: is about one string given to the scan; a newline inside a row would end its line earlier.
- PageText.PageNumbersRoundTrip: excludes texts that hold the quoted name of a number with its colon; for those the search ends before the trailer (`PageText.TrailerReachedIff`).
- PageText.PageRecordsRoundTrip: what the scan makes of a row with a quote in station, date or element is not described, only that it is never that row (`PageText.RowsComeBackIff`).
- PageBuffer.BuildPage: allocation failure and counts beyond a C int are not modelled.
- Parsing of the query string of the raw endpoint; `Aggregation.Serve` takes the two numbers and clamps them as the code does.
- Aggregation.Aggregator.FetchAndAggregate: takes one fixed row order for the whole fetch and an unchanged table; `ORDER BY date DESC` has no tie-breaker. What records a page gives whose texts hold quotes is described only by the scan itself.
- `fgets` splitting of station file lines longer than 8191 characters; a file is given as the lines `fgets` returns.
- FileCache.ReusedStampLosesRowsIff: starts from a file that parses completely, because any other file is never cached.
- FileCache.CacheLosesNothingIff: is about runs whose inserts work; what failing inserts do to a file is in `FileCache.SkippedFilesAreStored`.
- Protocol.ValidateStream: a reader that fails with an error other than end of input would make the loop run forever; the modelled reader only ends.
- The `RequiredFields` of message types: no code reads them.
- Shrink.ShrinkingEndsIff: choices between generators that are not integers are left to `Shrink.ShrinkingIsSound`, since an earlier alternative may hide a later one. Negative minimum lengths, for which the generator panics, and type assertion panics are excluded.
- Shrink.RangeKeptIff: leaves out choices where shrinking reaches them, since a value does not tell which alternative made it; texts are not limited to an alphabet.
- Which map entry the shrinker removes is a parameter; random generation of values is not modelled.
- WorkerPool: the HTTP download, the date filter and the writing of the file are one nondeterministic outcome; cancellation through the context is an error outcome.
- ConfigReader: texts contain no NUL; `isspace` is the one of the C locale.
- The table and CSV output of the client, `services/query/query.c`, logging, daemonising, signal handling.
- The rest of the Go harness (grading, reports, mock server, chaos, contracts, benchmarks): thin or counting code that would only add easy members.
