# Proofs about the Holochain node

This project models four parts of the node and proves what each of them promises over every
input, every run or every interleaving.

1. **Routing table** (`Keyspace`, `DistanceOrder`, `GroupOrder`, `TableSpec`, `TableRuns`,
   `TableExact`, `Nearest`, `NearestReach`, `NearestMiss`, `RoutingTable`). XOR distance and common prefixes on byte
   strings of any length; buckets that split and evict; the search that reads at most three
   buckets. The classes follow the source step by step and are proved against functions on
   values. `Nearest.NearestExact` gives the exact condition under which the fast search
   equals a full sort of the table, `NearestReach.NearestInReach` what it gives otherwise.
2. **Iterative lookup** (`PeerQueue`, `Lookup`, `LookupSafety`, `LookupResults`,
   `LookupProgress`, `LookupStuck`). A heap and the channel queue around it as classes, and the
   caller, the spawner, the workers and the counter as a transition system with arbitrary
   interleaving. The query function and dialing are arbitrary functions of the peer.
3. **Source chain** (`Wire`, `HeaderFormat`, `HeaderCut`, `ChainFormat`, `Chain`,
   `ChainCodec`, `ChainSelect`, `ChainCut`, `ChainTheorems`, `ChainFile`, `ChainStore`,
   `Package`, `Commit`, `SampleSuite`). The byte formats, the chain object with its three indexes and its file,
   validation, packages for validators, and commits that race for the chain. Hashing, gob,
   time encoding and signing are function fields of `HeaderFormat.Suite`. The laws assumed of
   them are `HeaderFormat.Lawful`, which `SampleSuite` shows can be met, and, where hashes
   stand for what was hashed, that no two of the byte strings in question collide
   (`ChainFormat.NoCollision`). `ChainFormat.RealFormat` derives the laws the chain needs.
4. **DHT store, links, gossip and retries** (`StoreHistory`, `DhtStore`, `StoreReads`, `Dht`,
   `LinkText`, `LinkQuery`, `LinkReplay`, `LinkWitness`, `Gossip`, `Retry`). The store is proved to be an
   index of the history of accepted changes: it accepts the same changes and answers every
   read as the history does. Link lookup is compared with a replay of all link events, gossip is a
   transition system of any number of nodes.

What the proofs found, beside what they confirm:

- `NearestPeers` reads the home bucket and its two neighbours only, so it can miss peers that
  the table holds: with buckets of `k` peers, `k + 1` updates are enough for a search that finds
  none of them (`NearestMiss.FullBucketMissesAll`). It is exact if and only if `Nearest.Covers`
  holds, which needs the bucket sizes and one bit of the target.
- A lookup can hang. It never does if and only if some start peer is another node and there
  are two tokens, or one token and no reachable peer has to be dialed
  (`LookupStuck.NeverStuckIff`): with one token the spawner takes it while the worker dials.
- A private entry redacted into a stream without entries makes the stream unreadable. The chain
  is read back as selected if and only if that does not happen and the format can hold the
  headers that are written (`ChainCodec.ChainReadBackIff`).
- A header is read back as written if and only if its strings have at most 255 bytes and its
  hashes are null or 34 bytes with a first byte that is not zero
  (`HeaderFormat.HeaderReadBackIffWritable`).
- A chain file whose last write was cut is loaded without complaint if the cut falls where one
  of the reads begins (`ChainFile.LoadCut`), and is then continued behind the leftover bytes.
  The next entry is lost if its type is not as long as the one that was cut
  (`ChainFile.LeftoverHidesNext`).
- A link or tag with a ':' is stored but not looked up as it was stored: it can be lost,
  misread, or deleted together with another one (`LinkWitness`). The lookup agrees with the
  replay of the history if and only if nothing of that kind is in its way
  (`LinkReplay.LookupIsReplayIffClear`).
- The retry loop can wait for ever on its own queue (`Retry.TooManyRequestsHang`). A run of calls
  empties the queue if and only if no call takes a message that has to go back while somebody
  still waits to send (`Retry.EmptiesIffNotBlocked`).

The comment on `Bucket.Split` says that the bucket keeps peers with a common prefix equal to
`cpl`; the code keeps those with at most `cpl`, and the model follows the code. `container/list`
detaches a removed element, so the loop of `Bucket.Remove` ends at the first match.

`Covers`, `Complete`, `Sound`, `Represents` and the other predicates used below are defined in
the modules they are named in.

## Model

| member | source | states |
|---|---|---|
| Keyspace.Xor | hash/hash.go:136-142 | fills the buffer with the XOR of each pair of bytes |
| Keyspace.ZeroPrefixLen | hash/hash.go:169-178 | the number of zero bits in front: all bits before are 0, the bit there is 1 |
| Keyspace.CommonPrefixMeaning | kad_table.go:61-63 | ids agree on exactly that many bits and differ in the next; all bits only if equal |
| Keyspace.NearerByFirstDifference | hash/hash.go:147-154 | of two ids, the one that agrees with the target in their first differing bit is strictly nearer |
| Keyspace.DistanceInjective | hash/hash.go:147-154 | no two ids are at the same distance from a target |
| Keyspace.ZeroDistance | hash/hash.go:147-154 | an id is at distance 0 from itself |
| DistanceOrder.SortIdsPermutes | hash/hash.go:198-213 | sorting by distance keeps exactly the hashes that went in |
| DistanceOrder.SortIdsOrders | hash/hash.go:198-213 | the sorted hashes are in order of distance, whatever the list |
| DistanceOrder.SortByDistanceUnique | hash/hash.go:198-213 | any ordered arrangement of the same hashes, repeated ones included, is the same list, so the choice of sort does not matter |
| GroupOrder.NearestIsFrontOfSort | kad_table.go:194-234 | a list satisfies the reference of the nearest ids exactly if it is the front of the full sort |
| GroupOrder.AroundExact | kad_table.go:194-234 | sorting what was read gives the front of the full sort exactly when enough was read |
| TableSpec.ApplyKeeps | kad_table.go:67-125 | an update or a removal keeps every peer in the bucket of its prefix, none twice, no bucket over its size, at most 8L+1 buckets |
| TableSpec.NextBucketStep | kad_table.go:127-140 | one split of the last bucket: it leaves at most 8L+1 buckets, and the recursion goes on only while the new bucket is too full |
| TableRuns.Run | kad_table.go:67-140 | every run of updates and removals leaves a valid table |
| TableRuns.RunByActivity | kad_table.go:67-140 | after every run each bucket lists its peers by last update, newest first |
| TableRuns.RunStepMeaning | kad_table.go:67-140 | in every run a peer is evicted only for a new one that finds its bucket full, it is the least recently updated of its bucket and never the one just added; other peers stay |
| TableExact.RunUpdateExact | kad_table.go:67-140 | in every run: a held or slow peer changes no membership; a new one evicts nobody while its bucket has room, and in a full bucket the last peer exactly when all of the bucket leave our prefix where the new one does; how many buckets there are then |
| TableExact.TableDetermined | kad_table.go:67-140 | peers, number of buckets and activity leave one table only |
| TableRuns.TrackedIsTable | kad_table.go:263-271 | a set kept by the callbacks equals the peers of the table after every run |
| Nearest.NearestExact | kad_table.go:194-234 | the search gives exactly the globally nearest peers in order if and only if `Covers` holds |
| NearestReach.NearestInReach | kad_table.go:194-234 | for every table, target and count: the nearest, in order, of the held peers within reach, which are those of the home bucket if it has enough and else those at most one bucket away, buckets told by common prefixes |
| Nearest.FirstIsTarget | kad_table.go:143-149 | the nearest peer of an id is the id exactly when the table holds it |
| NearestMiss.FullBucketMissesAll | kad_table.go:194-234 | whatever the bucket size k: updates of k + 1 peers that share two bits with us leave at least k of them in the table, and a search for an id that differs from ours in the first bit finds none, however many it asks for |
| NearestMiss.OneByteMiss | kad_table.go:194-234 | such a table with ids of one byte: 32 and 16 held by 0, and 128 searched for |
| RoutingTable.Bucket.Has | kad_bucket.go:41-50 | true exactly for members |
| RoutingTable.Bucket.Remove | kad_bucket.go:52-60 | removes the first occurrence and nothing else |
| RoutingTable.Bucket.MoveToFront | kad_bucket.go:62-70 | the id comes first, the order of the others stays; the walk ends though it restarts at the front |
| RoutingTable.Bucket.PushFront | kad_bucket.go:72-76 | the new peer comes first |
| RoutingTable.Bucket.PopBack | kad_bucket.go:78-84 | takes out and returns the last peer |
| RoutingTable.Bucket.Split | kad_bucket.go:95-116 | peers with a longer prefix go to the new bucket, the others stay, both in order |
| RoutingTable.RoutingTable.constructor | kad_table.go:47-59 | a table with one empty bucket |
| RoutingTable.RoutingTable.HomeIndex | kad_table.go:67-78 | the bucket index is the common prefix or the last bucket |
| RoutingTable.RoutingTable.Update | kad_table.go:67-108 | the table follows the update on values, which `TableExact` pins, and stays the table of its whole history |
| RoutingTable.RoutingTable.UpdateBucket | kad_table.go:72-107 | buckets and callbacks follow the update on values |
| RoutingTable.RoutingTable.AddToBucket | kad_table.go:91-107 | a new peer goes in with its callbacks, and at most one peer goes out |
| RoutingTable.RoutingTable.MakeRoom | kad_table.go:96-107 | the last bucket is split, any other loses its last peer |
| RoutingTable.RoutingTable.NextBucket | kad_table.go:127-140 | the recursive split, proved to terminate, gives the table and the evicted peer of the value function |
| RoutingTable.RoutingTable.SplitLastBucket | kad_table.go:127-131 | one more bucket, the last one split |
| RoutingTable.RoutingTable.Remove | kad_table.go:112-125 | the peer is removed from its bucket, and the table stays the table of its history |
| RoutingTable.RoutingTable.Find | kad_table.go:143-149 | returns the id exactly when the table holds it |
| RoutingTable.RoutingTable.NearestPeers | kad_table.go:194-234 | exactly the nearest of the peers within reach; the nearest of all if and only if `Covers` holds |
| RoutingTable.CopyPeersFromList | kad_table.go:162-173 | appends the peers of a bucket with their distances |
| RoutingTable.RoutingTable.Size | kad_table.go:237-245 | the number of different peers in the table |
| RoutingTable.RoutingTable.ListPeers | kad_table.go:263-271 | every peer once, and exactly the peers a listener tracks |
| PeerQueue.DistanceQueue.Enqueue | peerqueue/distance.go:67-77 | the heap stays a heap and holds one peer more |
| PeerQueue.DistanceQueue.Dequeue | peerqueue/distance.go:79-91 | a peer at minimum distance among all queued is taken out |
| PeerQueue.DistanceQueue.Up | peerqueue/distance.go:25-77 | moving a new element up repairs the heap and keeps its elements |
| PeerQueue.DistanceQueue.Down | peerqueue/distance.go:25-91 | moving the root down repairs the heap and keeps its elements |
| PeerQueue.ChanQueue.Process | peerqueue/sync.go:28-87 | over any run of channel events every delivery is at minimum distance among the accepted and not yet delivered, and accepted = delivered + pending |
| PeerQueue.ChanQueue.Select | peerqueue/sync.go:45-84 | one pass of the loop serves one event as the reference demands |
| PeerQueue.ChanQueue.Exchange | peerqueue/sync.go:64-84 | an offer puts the held peer back into the queue, a request takes it |
| LookupSafety.RunInv | kad_query.go:110-310 | the invariants on adders, stages, tokens, counter and logs hold in every reachable state |
| LookupSafety.WorkTokens | kad_query.go:196-275 | every worker step keeps the token balance |
| LookupSafety.CountOffCount | kad_query.go:227-240 | the counter reaches zero only when every peer that was counted has left |
| LookupResults.SearchIsComplete | kad_query.go:110-194 | once the counter is zero the peers seen are exactly those reachable from the start peers, each attempted and asked once, and the errors are as many as the peers exactly if all failed |
| LookupResults.ReturnedOutcome | kad_query.go:135-170 | what the caller gets after the counter reached zero: the result of a peer that succeeded if any did, else the first error if all failed, else not found |
| LookupResults.ClosedOutcome | kad_query.go:157-170 | what the caller gets when closed first: the result of a peer that succeeded, or the deadline error, and that only if it was closed from outside and no peer succeeded |
| LookupResults.StartedNearest | kad_query.go:196-225 | in every run each worker is started on a peer that is nearest among those queued at that moment |
| LookupResults.RecordedInOrder | kad_query.go:227-310 | errors, starts and questions are recorded in the order in which they happen |
| LookupResults.ResultIsLast | kad_query.go:286-293 | the result is that of the last peer that succeeded, none exactly if none did |
| LookupResults.RateLimit | kad_query.go:118-131 | tokens in the channel and held add up to the concurrency; at most that many query functions run; giving a token back never blocks |
| LookupProgress.TwoTokensNeverStuck | kad_query.go:196-275 | with two tokens and another start peer no reachable unfinished state is stuck |
| LookupProgress.RunBounded | kad_query.go:110-310 | no run is longer than a number fixed by the start state |
| LookupProgress.MaximalRunReturns | kad_query.go:110-170 | a run that cannot go on has returned |
| LookupStuck.NeverStuckIff | kad_query.go:110-310 | for every network and concurrency: a lookup never gets stuck if and only if some start peer is another node and there are two tokens, or one token and no reachable peer has to be dialed |
| LookupStuck.CanHang | kad_query.go:196-275 | in every other case there is a run that ends stuck before `Run` returned |
| LookupStuck.OneTokenNeverStuck | kad_query.go:196-275 | one token is enough when every reachable peer is connected |
| LookupStuck.NeverStuckIffTwoTokens | kad_query.go:196-275 | lookups never get stuck for every network if and only if there are at least two tokens |
| Wire.StrRoundTrip | header.go:93-178 | a string of at most 255 bytes is read back, whatever follows |
| Wire.HashRoundTrip | hash/hash.go:106-132 | a null or 34-byte hash is read back, whatever follows |
| Wire.U64RoundTrip | entry.go:119-149 | a 64-bit number is read back, whatever follows |
| Wire.U64Wraps | entry.go:119-149 | a larger number loses what does not fit into eight bytes |
| Wire.U64Digits | entry.go:119-149 | eight bytes, each worth 256 times the one before |
| Wire.WriteStr | header.go:93-103 | writes a length byte, which wraps, and the bytes |
| Wire.ReadStr | header.go:164-178 | reads what the format says or fails where the stream ends |
| Wire.MarshalHash | hash/hash.go:106-118 | writes the hash, zeros for the null hash, nothing for an empty one; fails exactly on a nil hash |
| Wire.UnmarshalHash | hash/hash.go:121-132 | 34 bytes, the null hash when the first is zero |
| HeaderFormat.HeaderRoundTrip | header.go:106-231 | a writable header is read back, whatever follows |
| HeaderFormat.HeaderLayout | header.go:106-155 | every field of a header at its place, and the length of the whole |
| HeaderFormat.HeaderReadBackIffWritable | header.go:93-261 | a header is read back as written if and only if the format can hold it |
| HeaderFormat.ParsedIsWritable | header.go:181-231 | every header that was read can be written |
| HeaderFormat.HeaderBytesInjective | header.go:75-155 | different writable headers have different bytes |
| HeaderFormat.HeaderExtends | header.go:181-231 | more bytes behind a header do not change what is read |
| HeaderFormat.EntryReadBackIff | entry.go:119-149 | an entry is read back as written, whatever follows, if and only if the length of its encoding fits into eight bytes |
| HeaderCut.HeaderCutShort | header.go:164-261 | a header that is cut short is not read; the reader sees a clean end exactly where one of its reads begins |
| HeaderCut.EntryCutShort | entry.go:132-149 | the same for an entry: a clean end exactly before its length and before its bytes |
| HeaderFormat.MarshalHeader | header.go:106-155 | field by field gives the header's bytes; fails exactly on a nil hash |
| HeaderFormat.UnmarshalHeader | header.go:181-261 | field by field gives what the format says, or the error of the first field that is cut |
| HeaderFormat.MarshalEntry | entry.go:119-129 | length and gob bytes |
| HeaderFormat.UnmarshalEntry | entry.go:132-149 | length, bytes, decoding, each with its error |
| ChainFormat.RealFormat | header.go:75-261 | the codecs obey the laws that the chain proofs use, over any lawful libraries |
| SampleSuite.SampleLawful | header.go:75-261 | concrete libraries that obey the laws |
| SampleSuite.SampleFormatLawful | chain.go:281-307 | the formats over them obey the chain's laws, and the stream methods may be called with them |
| SampleSuite.FirstChainMeetsAll | chain.go:70-521 | a concrete chain over them that meets the requires of the results about read, validated and saved chains together, collisions excluded |
| SampleSuite.SampleStream | chain.go:336-460 | over them a stream is read back as selected if and only if the headers fit and there is no clash |
| SampleSuite.SampleReload | chain.go:70-136 | over them a saved chain is loaded again |
| Chain.AppendSound | chain.go:184-239 | adding a prepared entry keeps links, hashes and all three indexes right |
| Chain.PrepareIsNext | chain.go:184-208 | a header is prepared exactly when the entry can be signed and a change has a hash; its fields one by one, its links the hashes of the last header and the last of its type |
| Chain.SoundValidates | chain.go:477-521 | every chain built by adding passes `Validate` |
| ChainCodec.ChainRoundTrip | chain.go:336-460 | a stream that fits and has no clash is read back as the selected pairs in order, for every flag set and filter |
| ChainCodec.ClashLosesStream | chain.go:364-370 | a redacted entry in a stream without entries is never read back as intended |
| ChainCodec.UnfitLosesStream | chain.go:336-460 | a chosen header or last hash that the format cannot hold is never read back as intended |
| SampleSuite.FirstChainClashes | chain.go:364-370 | a concrete chain and flags that clash |
| ChainCodec.ChainReadBackIff | chain.go:281-460 | the chain is read back as selected if and only if the format can hold the chosen headers and the last hash, as far as headers are written, and no redaction meets a stream without entries |
| ChainSelect.ReaderGets | chain.go:336-460 | the reader finds exactly the first position and those of the types asked for, in order: their headers, their entries as shown (redacted if private or not asked for, empty for an omitted DNA, else as they are), and the hash of the last |
| ChainSelect.PrivateLeavesNoTrace | chain.go:364-370 | a private entry has no influence on the bytes of any stream |
| ChainSelect.UnseenLeavesNoTrace | chain.go:350-380 | nor has an entry of a type not asked for, an omitted DNA, or any entry of a stream without entries |
| ChainSelect.SeenIsSent | chain.go:350-380 | any other entry can be told from the bytes |
| ChainSelect.FlagBits | chain.go:336-380 | the three flags are the three lowest bits |
| ChainCut.StreamCut | chain.go:423-460 | a stream that is cut anywhere is refused |
| ChainTheorems.SoundRebuilt | chain.go:405-460 | headers, entries and the last hash rebuild the chain and its indexes |
| ChainTheorems.AddPairsBuilt | chain.go:405-420 | headers, entries, hashes and indexes built from any stream, without headers, without entries or with both |
| ChainTheorems.ParsedAsRead | chain.go:405-460 | every full stream that is accepted gives writable headers and hashes taken from the next links |
| ChainTheorems.ValidatesIff | chain.go:477-521 | a chain that was read validates if and only if each header is what the next one links to, the last what the final hash says, and each entry what its header says |
| ChainTheorems.LastHashPinsSuffix | chain.go:477-521 | two read and validated chains with the same last hash agree on every header and entry of their common-length suffix, unless two of the byte strings hashed for them collide |
| ChainTheorems.LastHashPinsChain | chain.go:477-521 | if both go back to a first header they are the same |
| ChainTheorems.FirstIsFirst | chain.go:477-521 | the shorter of two such chains does not begin with a first header |
| ChainFile.LoadSaved | chain.go:70-136 | loading the file a chain wrote gives the chain: hashes and all three maps |
| ChainFile.CutPair | chain.go:294-307 | a pair that is cut short is not read; the reader sees a clean end exactly where one of its reads begins |
| ChainFile.LoadCut | chain.go:70-136 | a file whose last write was cut short loads to the chain of the whole pairs if and only if the cut falls where a read begins, and is refused otherwise |
| ChainFile.FrontSound | chain.go:70-136 | that chain is one that could have been built by adding its entries, indexes and all |
| ChainFile.LeftoverHidesNext | chain.go:116-134 | a file loaded in spite of leftover bytes is continued behind them; wherever the cut was, the next entry is not read back as the next one if its type is not as long as that of the cut one |
| ChainStore.NewHeader | header.go:40-72 | the header with its links, entry hash and signature, and its hash; nothing when signing fails or a hash is nil |
| ChainStore.HeaderSum | header.go:75-91 | the hash of the written header, none on a nil hash |
| ChainStore.WritePair | chain.go:281-292 | header bytes, then entry bytes; fails exactly on a nil hash |
| ChainStore.ReadPair | chain.go:294-307 | header and entry as the flags say |
| ChainStore.SourceChain.constructor | chain.go:54-66 | an empty chain |
| ChainStore.SourceChain.PrepareHeader | chain.go:184-208 | the next header: links to the last hash and to the last of its type |
| ChainStore.SourceChain.AddPrepared | chain.go:211-239 | refuses a moved index and an incomplete chain unchanged, otherwise appends to slices, maps and file |
| ChainStore.SourceChain.AddEntry | chain.go:168-179 | appends the prepared header to chain, indexes and file; the chain stays sound, and the file its image if it was before |
| ChainStore.SourceChain.TopType | chain.go:155-165 | the latest header of a type with its hash, none exactly if there is none |
| ChainStore.SourceChain.Get | chain.go:242-252 | a header with that hash, not found exactly if there is none |
| ChainStore.SourceChain.GetEntry | chain.go:255-266 | an entry with that hash and its type, not found exactly if there is none |
| ChainStore.SourceChain.Validate | chain.go:477-521 | the loop accepts exactly the chains whose header and entry hashes match |
| ChainStore.SourceChain.PairsToWrite | chain.go:350-380 | the first loop of marshalling collects the selected pairs and the last header's place |
| ChainStore.SourceChain.MarshalChain | chain.go:336-399 | writes the stream of the selected pairs; incomplete chains are refused, only a nil hash stops it |
| ChainStore.SourceChain.AddPairAt | chain.go:405-420 | adds a pair with the hash of the header before taken from the link |
| ChainStore.UnmarshalChain | chain.go:423-460 | flags, count, pairs and last hash give the chain the format says, or the error |
| ChainStore.NewChainFromFile | chain.go:70-136 | reads pairs to the end of the file and computes the last hash |
| Package.MakePackage | validate.go:71-98 | flags from the request, the DNA left out, the stream of the chain; no package without a request |
| Package.MakeValidationPackage | validate.go:102-124 | rebuilds the chain, puts the own DNA in, validates unless there are no headers |
| Package.ParsedLengths | validate.go:102-124 | however a stream was made, what was read is complete enough for validation |
| Package.AcceptedIsValid | validate.go:102-124 | whoever made the bytes: an accepted chain is the one that was read with the own first entry, and validates if it has headers |
| Package.HeadersPackage | validate.go:71-124 | a package of headers rebuilds the chain and its indexes without entries, whatever the DNA |
| Package.EntriesPackage | validate.go:71-124 | a package of entries brings them in order, the first one from the receiver |
| Package.FullPackage | validate.go:71-124 | a full package gives the sender's chain with the receiver's DNA, indexes and all, exactly when both DNA entries have the same hash, and is refused otherwise |
| Package.FullPackageNeedsDna | validate.go:71-124 | so unless the two collide it gives exactly the sender's chain, and only to a node with the same DNA |
| Commit.StepKeeps | action.go:737-775 | every step of every commit and every `NewEntry` keeps the chain sound and only extends it |
| Commit.UnmovedIsAdded | action.go:761-768 | with an unchanged header count the checks of `addEntry` cannot fail, and what is added is the next header for the job |
| Commit.RacingChainIsLinked | action.go:737-775 | under any schedule every header links to the header before and to the latest of its type, and the chain validates |
| Commit.RunExtends | action.go:737-775 | under any schedule the chain only grows at its end |
| Commit.RetryMeansGrowth | action.go:745-772 | a commit repeats its loop only if the chain grew since it prepared, at most once for each header that others appended |
| Commit.CommittedOnce | action.go:737-775 | a finished commit is in the chain exactly once, any other not at all |
| Commit.AloneIsAdded | action.go:745-772 | a commit gets a header exactly when its entry can be signed and its change has a hash; left alone it is then added in one round: one entry more, with its content, type, time and change |
| Commit.RunKeepsJob | action.go:737-775 | under any schedule what is to be committed stays the same |
| Commit.NewEntryKeeps | holochain.go:560-580 | a direct entry keeps all running commits consistent |
| Commit.NewEntryIsAdded | holochain.go:560-580 | a direct entry is added exactly when it can be signed, and nothing changes otherwise |
| StoreHistory.StatusMeaning | dht.go:359-413 | every status is known; a key with a status was put; a modified key has a replacement |
| StoreHistory.AcceptedLawful | dht.go:330-599 | the accepted operations are each accepted in their turn |
| DhtStore.TransactRefines | dht.go:330-599 | a transaction is accepted exactly when the history accepts it, and all records and indexes follow |
| DhtStore.StoreRefinesHistory | dht.go:330-599 | after any sequence of operations entries, types, sources, statuses, replacements, link lists, log and fingerprints are those of the accepted history |
| DhtStore.LawfulIsReachable | dht.go:330-599 | every history in which each operation is accepted in its turn is that of a reachable store |
| DhtStore.ReadMeaning | dht.go:415-455 | reads follow the history for every mask; neither panic can happen; a modified key leads to its latest replacement |
| StoreReads.MeetsBits | dht.go:91-97 | every status has its own bit of the mask |
| StoreReads.ReadByBits | dht.go:415-455 | under a mask a key is found, with what was last put, exactly when the bit of its status is set |
| StoreReads.AnyFindsAll | dht.go:415-455 | under the mask of all statuses every key that was ever put is found |
| StoreReads.AcceptedWhen | dht.go:330-599 | which changes are accepted, by what can be read before |
| StoreReads.ReadAfter | dht.go:330-455 | what is read under a key after a put, a deletion and a modification; all other keys read as before |
| StoreReads.LoggedAfter | gossip.go:61-109 | an accepted change with a message puts exactly that at the end of the log, and the DNA nothing |
| StoreReads.ListedAfter | gossip.go:560-577 | the records added to a list are in it, and nothing else about lists changes |
| StoreReads.LinkAfter | dht.go:580-614 | a link that was put is wanted from then on, with its source, one that was deleted is not; others stay |
| StoreReads.ModAfter | dht.go:395-413 | a modified key links to its replacement under the system tag |
| StoreReads.LinksTaken | action.go:1485-1496 | of a links entry those from this base are taken, in order, as each says |
| DhtStore.LogGrows | gossip.go:61-109 | a new change gets the next index and is the newest of its fingerprint; the log has no gap |
| Dht.DHT.Put | dht.go:330-357 | always accepted, appended to the history |
| Dht.DHT.Del | dht.go:383-391 | accepted exactly if the key was put, otherwise no trace |
| Dht.DHT.Mod | dht.go:395-413 | accepted exactly if the key was put; status, link event and replacement together |
| Dht.DHT.Link | dht.go:580-599 | accepted exactly on a live base and, for a deletion, an existing record |
| Dht.DHT.AddToList | gossip.go:560-577 | always accepted and logged |
| Dht.DHT.ReceiveLinks | action.go:1485-1496 | the links of the entry from this base are tried in order, deletions and additions, a failure not stopping the others; the outcome is that of the last one tried |
| Dht.DHT.GetFingerprint | gossip.go:170-187 | the largest index whose message has the fingerprint, -1 exactly if there is none |
| Dht.DHT.HaveFingerprint | gossip.go:161-167 | whether a message with the fingerprint is in the log |
| Dht.DHT.GetPuts | gossip.go:190-212 | the log records from the index on, in order and without a gap, whatever order the scan has |
| Dht.DHT.GossipPut | gossip.go:438-465 | a message already in the log leaves the store unchanged; any change puts it into the log |
| LinkText.SplitKey | dht.go:530-531 | how a record's key is split again |
| LinkText.KeyParts | dht.go:530-531 | records of different bases are apart; links and tags share a record exactly when they are the same text joined by ':' |
| LinkQuery.EventsByKey | dht.go:530-578 | a link and a tag without ':' have their record for themselves |
| LinkQuery.LastOwner | dht.go:530-578 | the last event of a record is the last event of some link and tag stored there |
| LinkQuery.GetLinks | dht.go:628-672 | only live and modified bases; the scan's results, an error when there are none |
| LinkQuery.CollectLinks | dht.go:641-664 | the loop over the records gives the scan's results |
| StoreReads.DefaultLinks | dht.go:637-639 | without a mask the live links are given |
| StoreReads.HitByBits | dht.go:641-664 | under any other mask a record counts exactly when the bit of its last event is set |
| LinkReplay.LookupIsReplayIffClear | dht.go:628-672 | for any link texts and tags: one result for each link and tag whose most recent event meets the mask, with its source, if and only if none that is wanted has a ':' and no record of another is taken for a wanted one |
| LinkReplay.PlainTextClear | dht.go:628-672 | links and tags without ':' never interfere |
| LinkReplay.EventsOnlyGrow | dht.go:530-578 | stored event lists are only ever extended |
| LinkWitness.ColonTagIsLost | dht.go:643-645 | a reachable store in which a tag with ':' is current and a lookup for it finds nothing |
| LinkWitness.ColonLinkIsMisread | dht.go:643-645 | a reachable store in which a link with ':' is reported with the wrong link and tag |
| LinkWitness.ColonLinkIsDeleted | dht.go:530-578 | a reachable store in which deleting a link that was never made hides another one |
| Gossip.StepKeeps | gossip.go:388-435 | every step of every node keeps what was queued equal to the beginning of the peer's log |
| Gossip.QueuedIsPrefix | gossip.go:388-435 | in every run the puts queued from a peer are exactly its log records 1 to k, in order and once, k being the stored index and not above the peer's own |
| Gossip.PositionIsIndex | gossip.go:421-430 | the index counted from the position is the index of the last record queued |
| Gossip.NothingIsLost | gossip.go:280-308 | no step lowers a stored index, forgets a gossiper or shortens a queue or a log |
| Gossip.AddedIsStored | gossip.go:280-308 | an added gossiper is among the stored ones, at 0 if it is new; no other is added or changed |
| Gossip.GossiperStays | gossip.go:280-308 | in every run a gossiper once added stays known |
| Gossip.RoundCatchesUp | gossip.go:338-435 | an undisturbed round queues the whole log of the peer |
| Gossip.Gossiper.UpdateGossiper | gossip.go:290-308 | a stored index is never lowered |
| Gossip.Gossiper.AddGossiper | gossip.go:280-287 | stored unless it is ourselves; keeps a larger index |
| Gossip.Gossiper.QueuePuts | gossip.go:416-433 | the puts are queued in order and the index counts them from the last known one |
| Retry.RetryQueue.RetryIfHashNotFound | action.go:1676-1688 | sends the message with the remaining retries exactly when its target is missing, and waits exactly when the queue is full |
| Retry.RetryQueue.ActionReceiver | nucleus.go:90-106 | a new message starts with ten retries |
| Retry.RetryQueue.RetryTask | dht.go:910-921 | receives one message and tries it if it has retries left; it may have to wait to send it back |
| Retry.WaitsIffBlocked | dht.go:910-921 | over any run of calls: the retry loop waits for ever if and only if some call takes a message that has to go back while somebody still waits to send |
| Retry.EmptiesIffNotBlocked | dht.go:910-921 | after as many calls as the sum of retries + 1 over all that wait, whatever targets arrive, the queue is empty if and only if no call was blocked so |
| Retry.TooManyRequestsHang | action.go:1676-1688 | one request more than the queue holds, with a first call that finds its target missing, and the loop is stuck for good |
| Retry.NobodyWaiting | dht.go:910-921 | with nobody waiting to send no call is ever blocked, and the queue empties |
| Retry.FoundIsTriedOnce | dht.go:910-921 | when every target is there each call takes one message off the line, in order, tried once and not queued again |
| Retry.NeverFoundTakesAll | dht.go:910-921 | if no target arrives the queue is empty exactly after that many calls or more, unless a call was blocked |
| Retry.TriedWithinBudget | action.go:1676-1688 | however full the queue, a message is tried at most as often as its retries allow, and none is used up otherwise if its target never arrives |
| Retry.NeverArrives | dht.go:71-73 | a message whose target never arrives is tried exactly ten times and dropped |

## Left out

- libp2p hosts and streams, NAT, contexts and goprocess: only connecting, cutting off and closing appear, as arbitrary choices.
- Latency measurement in `Update`: an arbitrary boolean. Tables with a bucket size below 1 and ids of different lengths are not modelled.
- Wall clock, tickers and the delay before gossiping back: a gossip round may begin at any time, which covers gossiping back.
- ChainCodec.ChainReadBackIff: entries whose encoding is 2^64 bytes or longer are left out, since what gob makes of a part of them is not known.
- SHA-256, base 58, gob, time encoding and signatures: functions with the stated laws; entry contents are strings, and times are those that have a binary form.
- Memory: an entry length that is too large to allocate counts as a stream that ends too early.
- A lookup with an empty list of start peers returns at once; the transition system begins with at least one, in a network of finitely many peers.
- The closed-channel branch of `ChanQueue`, which no caller reaches.
- The counter library: it is taken to signal done for good as soon as its count reaches zero.
- Goroutine scheduling of `ChanQueue` inside the lookup: the transition system hands out a nearest queued peer, which `ChanQueue.Process` justifies.
- `Chain.Walk`, `String`, `Nth`, `Length`: plain lookups.
- Write errors of the chain file other than a nil hash, and concurrent use of one chain object: `Commit` treats each locked section as one step.
- `ValidateAction` and the interpreters: an arbitrary refusal in `Commit`.
- Dht.DHT.GossipPut: the changes that receiving the message leads to, which depend on validation by the source node and the application, are given as an argument; any are allowed that carry the message.
- buntdb: maps with atomic transactions, and scans in an arbitrary order. `GetPuts` passes a one-character string as the start of its scan; the model lets the scan visit every record and rests on the filter.
- Deleting and blocking gossipers: `Gossip` covers runs without them.
- `dht.get` with its masks for types and sources, `Change`, and following replaced hashes in `ActionGet.Do`, which need not end.
- `ActionPut`, `ActionMod` and `ActionDel` receivers: only their store updates and the retry queue.
- Services, configuration, bridges, capabilities, the web server and the command line.
