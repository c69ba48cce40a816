# AltNet in Dafny

A model of the parts of AltNet, a Kademlia-style peer-to-peer web node, whose
behaviour is hard to see from any one function: the gossip of signed takedowns, the
bounded local store with its redundant byte counters, the routing table under
delayed evictions, the iterative lookup and the coalescing Get, the encrypted
stream, the rate limiter, chunked files and their reader, the connection tables and
the DNS wire format. Every statement is for all inputs, all runs or all reachable
states of the model.

`dafny verify dfyconfig.toml` checks the whole project.

## How it is organised

Operations that compute a value are functions with lemmas about them. Objects the
program updates in place are classes (`LocalStore`, `RoutingTable`, `RevokeHandler`,
`Conn`, `IpRateLimiter`, `ChunkReader`, `Peers`); each method is proved to take the
object's value through a specification function, and the theorems are about those
functions. Concurrent behaviour is a state machine whose steps are the atomic
sections of the program, in any order.

| module | what it holds |
|---|---|
| `NodeId` | identifiers, XOR distance, bucket index |
| `MapSum` | sums over maps, for the byte counters |
| `Storage`, `StoreRuns`, `StoreHistory`, `LocalStore` | the store as a value, its runs, what their history says about its contents, and the object |
| `Routing`, `RoutingTable` | buckets under all interleavings of updates, hints, removals and eviction tails; the object and the closest-contact selection |
| `Lookup`, `Fetch` | the iterative lookup and the walk behind Get, against arbitrary peers |
| `SingleFlight` | concurrent Get calls sharing one walk, with keys being blocked and fetched values being stored |
| `Text`, `Revoke`, `RevokeHandler` | a takedown, its canonical bytes and its handler with replay table and pruning |
| `SignedBytes` | what the signed bytes determine, and when payloads that share them block the same keys |
| `Replay` | how often one node applies a takedown |
| `Flood` | a network of nodes gossiping one takedown, each sending on the payload it took, with payloads from outside, under this identifier or another, in between |
| `Gates`, `Site` | what a node answers and keeps, and that blocked keys stay gone; revoking a published site |
| `Secure`, `SecureConn` | frames, nonces and the byte stream; the connection object, HKDF, key agreement |
| `RateLimit` | token buckets with and without the idle sweep, clock readings in any order |
| `Files` | publishing, fetching and reading chunked files |
| `PeerTable` | connections and their aliases |
| `Dns` | names, queries and captured replies |
| `Options` | the option type |

Cryptography, JSON and the network enter as parameters: a hash function, a signature
check, an authenticated cipher that opens exactly what it sealed
(`Secure.LawsAreConsistent` shows that its two laws can be met), a curve on which both sides compute
the same secret, a clock reading, the replies of a round. Nothing assumes that a
hash is injective; where a collision would matter, the two inputs are named.

## What turned out not to hold

The code is modelled as it is. Where it departs from what its comments say, the
departure is proved together with the exact condition under which the promise holds.

- A `put` that evicts the very key it overwrites refunds the old value twice; the
  counters stay exact if and only if the pass spares that key or its value is empty
  (`PutExactIff`, `EvictsOwnKeyIff`, `DoubleRefundRun`). The shortfall never heals
  (`DriftNeverHeals`) and has no limit: with a budget of 10 bytes some run stores 10 + 5 n
  while the total says 10 (`DriftIsUnbounded`). Runs in which a key always
  carries the same value are not affected (`ContentAddressedRuns`).
- A dead-head tail can append a contact that is already in the bucket
  (`StepUniqueIff`, `UniquenessFailsFromEmpty`), and exactly then some lookup asks a
  contact twice (`AskedTwiceIff`, `AskedTwiceIsReachable`).
- `Remove` of the local identifier indexes one past the last bucket
  (`RoutingTable.RoutingTable.Remove`).
- The signed bytes of a takedown are built from trimmed lines, but the chunks are
  parsed as they came: payloads with the same signed bytes can name different keys,
  and the copy a node sees first decides what it blocks (`PaddedCopyNamesNothing`,
  `NameSwallowsChunk`, `ChunkOfTwoLines`, `NonceHoldsChunk`, `FirstCopyDecides`). For
  payloads of single lines they name the same keys if and only if no key is lost to
  surrounding spaces (`SameBytesSameNamesIff`).
- The signer is not part of the signed bytes, so somebody else can sign the same revoke
  under the same identifier. A node that takes that payload from outside sends it on and
  ignores the genuine one, and a neighbour that trusts only the original signer is left
  without the block (`CosignedRun`). Every trusting neighbour stays covered if and only
  if each has seen the identifier, has a payload it welcomes on its way, or welcomes what
  the joining node took (`OutsideJoinCoversIff`). Coverage along trusting paths is proved
  for payloads from outside that are copies naming the same keys (`FloodCoverage`); what
  every run settles to, whatever comes from outside, is `SettledCoverage`.
- The replay table forgets a takedown after 48 hours. Two payloads with the same
  signed bytes can both be applied if and only if their timestamps are far enough
  apart for the longest delay between a call's age check and the end of its locked
  section (`AppliedTwiceIff`). One and the same payload is applied at most once as long
  as that delay is at most 86099 seconds and one nanosecond (`StallLimitIsExact`). A
  nonce with a newline lets one identifier be applied twice without any delay
  (`NewlineNonceAppliesTwice`).
- A caller that joins a walk does not look at the blocklist again. A call that enters
  after its key was blocked can return a value if and only if the listed walk is past
  its gate or ended with one (`ValueAfterBlockIff`); a call's result is older than the
  call if and only if the listed walk was already over (`ResultIsOfItsTimeIff`); and a
  blocked identifier comes back into the store if and only if a verified walk for it is
  past its gate (`StoredAfterBlockIff`). `GetAllUnverified` has no blocklist gate
  (`BlockedIsNotServed`).
- A write over the frame limit advances the sender's counter and so ends the stream
  for the reader; a read reports the end of the stream exactly at an empty frame
  (`OversizeWriteCutsStream`, `EndOnlyForEmptyFrame`).
- Sweeping idle buckets changes no answer if and only if five minutes earn a full
  bucket (`SweepingInvisibleIff`, `EarlySweepBreaksBound`); with clock readings out of
  order, five minutes less twice the disorder are enough (`SweepingIsInvisible`).
- A manifest with a negative or huge size makes `FetchBytes` panic (`FetchBytes`), and
  a seek from the end of such a file can wrap around (`SeekExact`).
- The list of a site's chunks holds every string once, and every key once if and only
  if no key is spelled in two cases (`KeysOnceIff`).
- A manifest is stored as one value, so publishing succeeds only up to 977 chunks,
  about 61 MiB, where a comment in apps/files/stream.go speaks of a 4 GB video
  (`PublishLimit`).
- The name reader leaves the closing zero out of its 255-octet limit
  (`ReadNameIff`, `OneOctetBeyondRfc`).
- `Broadcast` sends one copy per alias, not per peer (`Peers.Broadcast`).

## Model

| member | source | states |
|---|---|---|
| `NodeId.DistanceLessIsIntegerOrder` | core/dht/id.go:102-125 | Bytewise comparison of distances is comparison of the distances read as big-endian integers |
| `NodeId.DistanceLessTotalOrder` | core/dht/id.go:102-116 | From every viewpoint DistanceLess is a strict total order: irreflexive, transitive, trichotomous |
| `NodeId.DistanceInjective` | core/dht/id.go:102-125 | From a fixed point, equal distance means equal identifier |
| `NodeId.Metric` | core/dht/id.go:55-75 | XOR distance is symmetric, zero exactly on equality, and obeys the triangle inequality |
| `NodeId.FullPrefixIffEqual` | core/dht/id.go:77-100 | The common prefix is the whole identifier exactly for equal identifiers |
| `NodeId.BucketIsDistanceRange` | core/dht/id.go:77-100 | A contact belongs to bucket i if and only if its distance lies in [2^(255-i), 2^(256-i)) |
| `NodeId.LongerPrefixIsCloser` | core/dht/id.go:77-116 | A longer common prefix means strictly closer |
| `Storage.PutBookkeeping` | core/dht/store.go:188-251 | From exact counters, a rejected put changes nothing, a put whose eviction spares its own key leaves total and every peer counter exact, and otherwise total is short by exactly the old length and the owner's counter by as much of it as it held |
| `Storage.PutExactIff` | core/dht/store.go:188-251 | The counters stay exact if and only if eviction spares the overwritten key or its old value was empty |
| `Storage.EvictsOwnKeyIff` | core/dht/store.go:207-230 | When that happens, in terms of the access order and the stored lengths before the call |
| `Storage.OthersKeepExact` | core/dht/store.go:277-318 | Delete, Get and every eviction keep exact counters exact |
| `Storage.EvictPassIsPrefix` | core/dht/store.go:357-398 | An eviction removes a prefix of its order, stops as soon as the total fits, and lowers the total by the bytes removed |
| `Storage.EvictionIsLeastRecent` | core/dht/store.go:357-398 | Nothing evicted was accessed later than anything kept |
| `Storage.LruOrderExists` | core/dht/store.go:357-398 | Every set of stored keys can be listed once each by access time, so eviction orders exist |
| `Storage.PutEffect` | core/dht/store.go:188-251 | An accepted put leaves its value at its key, accessed now and owned by its peer; whatever else is stored afterwards was stored before and is as it was |
| `Storage.PutEvictsFirst` | core/dht/store.go:226-251 | Besides its key, a put takes out exactly the first keys of its order, as few as the budget allows, and none without a budget |
| `Storage.AdmitsIff` | core/dht/store.go:193-206 | From exact counters a peer is admitted if and only if what it would then own is within its quota |
| `StoreHistory.EntryFromHistory` | core/dht/store.go:188-318 | In every reachable state a stored key has the value and owner of its last accepted put and the access time of its last accepted put or Get |
| `StoreHistory.EvictionFollowsUse` | core/dht/store.go:357-398 | With clock readings in order, a put takes out no key whose last use in the history is later than that of a key it keeps |
| `StoreHistory.EntryAfter` | core/dht/store.go:188-318 | What one operation does to an entry that is there afterwards |
| `StoreRuns.ContentAddressedRuns` | core/dht/store.go:188-398 | In every run from an empty store in which a key always carries the same value: counters exact, total within the budget or one single value, no peer over its quota, stored values the right ones |
| `StoreRuns.SpareOwnKey` | core/dht/store.go:207-230 | Storing a non-empty value again under its key evicts nothing |
| `StoreRuns.PutWithinBudget` | core/dht/store.go:226-251 | From exact counters, a put that spares its own key or overwrites an empty value leaves the total at most the budget, or the new value alone |
| `StoreRuns.PutTotalBound` | core/dht/store.go:226-251 | From every state whose total is at most what is stored, drifted or not, the total after an accepted put is at most the larger of the budget and the new value |
| `StoreRuns.PutDrifts` | core/dht/store.go:207-251 | From every state a put makes the total fall behind the stored bytes by exactly what it refunds twice |
| `StoreRuns.DriftNeverHeals` | core/dht/store.go:188-398 | Over any run at all the shortfall of the total only grows |
| `StoreRuns.DriftIsUnbounded` | core/dht/store.go:207-251 | With a budget of 10, for every n some run ends with a total of 10 and 10 + 5 n bytes stored |
| `StoreRuns.PutWithinQuota` | core/dht/store.go:193-206 | No accepted put takes a peer over its quota |
| `StoreRuns.DoubleRefundRun` | core/dht/store.go:207-251 | A three-put run after which 12 bytes are stored and the total says 6 |
| `LocalStore.LocalStore.constructor` | core/dht/store.go:67-96 | A new store is empty with the given limits |
| `LocalStore.LocalStore.Put` | core/dht/store.go:188-251 | put changes the fields as Storage.Put says and reports whether the peer was within its quota |
| `LocalStore.LocalStore.Delete` | core/dht/store.go:277-301 | Delete changes the fields as Storage.Delete says |
| `LocalStore.LocalStore.Get` | core/dht/store.go:306-318 | Get returns the stored value if there is one, sets its access time to now and changes nothing else |
| `LocalStore.LocalStore.EvictUntilUnder` | core/dht/store.go:357-398 | The eviction loop is the recursive pass of Storage |
| `LocalStore.LocalStore.EvictToFit` | core/dht/store.go:342-352 | Room is made for the new value, down to an empty store if need be |
| `LocalStore.LocalStore.Admit` | core/dht/store.go:193-206 | The quota check, with the peer's own old value discounted |
| `Routing.MergeKeepsEveryAddress` | core/dht/routing.go:301-327 | Merging keeps every non-empty address of both sides, adds none, and lists each alternate once |
| `Routing.Index` | core/dht/id.go:85-100 | The bucket index is at most 256, and 256 exactly for the local identifier |
| `Routing.StepKeepsValid` | core/dht/routing.go:97-241 | Every Update, Hint, Remove or eviction half, in any order and with any ping result, keeps buckets within K, contacts in their bucket, self absent and buckets sorted by last contact |
| `Routing.ReachableTable` | core/dht/routing.go:97-241 | The same of every table reachable from a new one, and unique identifiers if no late duplicate occurred |
| `Routing.StepUniqueIff` | core/dht/routing.go:97-241 | A step keeps identifiers unique if and only if it is not a dead-head tail whose candidate is already present with room to append |
| `Routing.RunKeepsUnique` | core/dht/routing.go:97-241 | Runs without such a step keep identifiers unique |
| `Routing.ReplaceUniqueIff` | core/dht/routing.go:160-181 | The dead-head half on one bucket: exactly when it duplicates |
| `Routing.FullBucketCanDuplicate` | core/dht/routing.go:97-181 | From every valid table with a full bucket, an eviction ping and an unknown contact for it, some run lists an identifier twice |
| `Routing.UniquenessFailsFromEmpty` | core/dht/routing.go:97-181 | Such a run exists from the empty table |
| `Routing.UpdateKnown` | core/dht/routing.go:97-116 | Update of a listed contact: the other entries stay as and where they are, and the contact moves to the tail, seen now, with its new primary address and exactly the addresses of both |
| `Routing.UpdateUnknown` | core/dht/routing.go:118-133 | Update of an unlisted contact appends it, seen now, if there is room; otherwise nothing changes and the head is to be asked |
| `Routing.HintEffect` | core/dht/routing.go:198-226 | Hint changes nothing for a listed contact or a full bucket, and otherwise puts the contact first with the zero time |
| `Routing.RemoveEffect` | core/dht/routing.go:230-241 | Remove takes out the first entry of the identifier and no other |
| `Routing.RefreshEffect` | core/dht/routing.go:160-168 | A head that answered moves to the tail, seen now, if it still is the head |
| `Routing.ReplaceEffect` | core/dht/routing.go:170-181 | The entry of a head that did not answer goes wherever it stands, and the candidate comes last if there is room |
| `Routing.AddressesStay` | core/dht/routing.go:84-181 | Over any interleaving without a Remove or a dead-head tail for an identifier, none of its addresses is ever lost |
| `Routing.UpdateLists` | core/dht/routing.go:97-120 | An Update of a listed contact, or one there is room for, brings in all its addresses |
| `Routing.AddressesWereTold` | core/dht/routing.go:97-226 | Every address in a reachable table was given by some Update or Hint of that very contact |
| `Routing.SeenWasMet` | core/dht/routing.go:183-226 | An entry of a reachable table carries a time only if some Update of that contact, or its answer to an eviction ping, happened |
| `Routing.TailsConserved` | core/dht/routing.go:122-181 | Over any run, eviction tails settled and pending are exactly those pending before and those queued by Updates of unknown contacts into full buckets |
| `RoutingTable.RoutingTable.constructor` | core/dht/routing.go:79-82 | A new table has 256 empty buckets |
| `RoutingTable.RoutingTable.Update` | core/dht/routing.go:97-133 | Update changes one bucket as specified, queues an eviction tail exactly for an unknown contact of a full bucket, and ignores self |
| `RoutingTable.RoutingTable.Hint` | core/dht/routing.go:198-226 | Hint changes one bucket as specified and ignores self |
| `RoutingTable.RoutingTable.Remove` | core/dht/routing.go:230-241 | Remove drops the contact from its bucket; it indexes out of range exactly for the local identifier |
| `RoutingTable.RoutingTable.FinishEviction` | core/dht/routing.go:146-181 | The locked half of an eviction changes one bucket as specified for either ping result |
| `RoutingTable.MinIndex` | core/dht/routing.go:257-283 | The inner loop of the selection finds a contact to which none of the rest is closer |
| `RoutingTable.SelectClosest` | core/dht/routing.go:257-283 | The partial selection sort permutes the array, orders its front and leaves nothing closer behind |
| `RoutingTable.RoutingTable.Closest` | core/dht/routing.go:257-283 | Closest returns min(n, size) contacts of the table in order of distance with nothing left out closer |
| `RoutingTable.FrontIsClosest` | core/dht/routing.go:257-283 | Such a front is the closest sub-multiset |
| `RoutingTable.FlattenHas` | core/dht/routing.go:257-266 | The gathered list holds exactly the contacts of the buckets |
| `Lookup.Lookup` | core/dht/dht.go:423-487 | For every table, target, peer behaviour and changes other handlers make meanwhile: the table stays good and forgets nobody, everything learned is known or its bucket is full, nobody is asked twice unless the table listed somebody twice, every round but the last brings someone strictly closer, and the result is the sorted K closest of the final table without self; the distance is the termination measure |
| `Lookup.Iterate` | core/dht/dht.go:423-477 | The loop of the lookup, with the reason for which it ended |
| `Lookup.Turn` | core/dht/dht.go:427-477 | One turn: new identifiers asked, table grown, and either a strictly closer contact or the end |
| `Lookup.OneRound` | core/dht/dht.go:442-477 | The table is as the replies, the other handlers and the hints leave it, and the closest contact is the same or strictly closer |
| `Lookup.AskedTwiceIff` | core/dht/dht.go:425-447 | The first batches of all lookups in a table are free of duplicates if and only if the table lists nobody twice |
| `Lookup.DuplicateComesFirst` | core/dht/routing.go:257-283 | Every selection for an identifier listed twice has it first and second |
| `Lookup.AskedTwiceIsReachable` | core/dht/dht.go:425-447 | A run from the empty table leads to one in which a lookup asks somebody twice |
| `Lookup.NextBatch` | core/dht/dht.go:428-447 | At most alpha contacts not asked before, and none only if all have been asked |
| `Lookup.PickBatch` | core/dht/dht.go:428-441 | The scan picks the first alpha contacts not yet queried |
| `Lookup.TakeArrivals` | core/dht/dht.go:324-357 | The changes of a round, in any order, act on the table one after the other as specified; nobody is forgotten |
| `Lookup.Arrive` | core/dht/dht.go:324-357 | One such change as specified: an Update of who answered or was met, a Hint of who was heard of; a known contact that answers queues no eviction |
| `Lookup.AnsweredIsLast` | core/dht/dht.go:324-357 | A queried contact that answered stands last in its bucket with the time and the address of the answer |
| `Lookup.HearsayStaysUnseen` | core/dht/dht.go:462-471 | Whatever replies claim, a contact nobody met or got an answer from keeps the zero time |
| `Lookup.UnqueriedIsFront` | core/dht/dht.go:428-441 | The batch is the front of the shortlist without the queried, cut short by the limit alone |
| `Lookup.HintLearned` | core/dht/dht.go:462-471 | Every learned contact is hinted, whatever other handlers do between the hints, and is afterwards known or its bucket is full |
| `Lookup.RoundProgress` | core/dht/dht.go:461-476 | When the table grows, the closest of the new shortlist is the old one or strictly closer |
| `Lookup.ClosestIdIsMin` | core/dht/dht.go:490-501 | closestHex is the identifier of minimal distance |
| `Lookup.StableSortOfSorted` | core/dht/dht.go:479-486 | The final sort leaves the result of Closest as it is |
| `Fetch.GetInner` | core/dht/dht.go:903-999 | For every table, store, peer behaviour and changes other handlers make to table and store meanwhile: a local genuine copy is returned, else the first genuine value delivered is returned and, if verified, stored; a blocked key touches nothing, nobody is asked twice unless the table listed somebody twice, no contact is lost, and giving up means no round delivered a genuine value and all of the closest contacts were asked or a round brought nobody closer, with every contact the replies carried known or its bucket full |
| `Fetch.AroundNothing` | core/dht/dht.go:903-999 | With nothing happening to the store meanwhile this is the Get step of Gates |
| `Fetch.Search` | core/dht/dht.go:921-999 | The network part; without any contact there is nobody to ask |
| `Fetch.Walk` | core/dht/dht.go:927-997 | The loop: first genuine value or a reason to stop, with the distance as termination measure |
| `Fetch.WalkRound` | core/dht/dht.go:927-997 | One round: a genuine value exactly if one was delivered, else a closer contact or the same one |
| `Fetch.Collect` | core/dht/dht.go:942-971 | The first genuine value among the replies, none exactly if there is none, and the contacts of the others |
| `SingleFlight.StepKeepsValid` | core/dht/dht.go:872-910 | Every atomic step of every interleaving of Get calls and blocks keeps the invariant of calls and records |
| `SingleFlight.OneWalkPerKey` | core/dht/dht.go:872-898 | In every reachable state at most one call walks per identifier and verify flag |
| `SingleFlight.ReturnsAFlightOfItsTime` | core/dht/dht.go:872-898 | Every call returns the result of a record for its key that was listed when it entered |
| `SingleFlight.ResultIsOfItsTimeIff` | core/dht/dht.go:872-898 | For every call and every run that follows its entry: its result comes from a walk that ended during the call if and only if the walk listed at entry was not over |
| `SingleFlight.SomeStepIsPossible` | core/dht/dht.go:880-898 | No call is stuck: a waiter's record is closed or its owner can move |
| `SingleFlight.EveryoneReturns` | core/dht/dht.go:872-898 | From every valid state all calls can return |
| `SingleFlight.InternalRunsAreBounded` | core/dht/dht.go:872-898 | And no scheduling can postpone that beyond the steps that remain |
| `SingleFlight.ValueAfterBlockIsStale` | core/dht/dht.go:880-910 | A call that enters after its key was blocked gets a value only from another call's flight, gated before the block |
| `SingleFlight.ValueAfterBlockIff` | core/dht/dht.go:880-910 | A call that enters after its key was blocked can return a value if and only if the walk listed for the key is past its gate or ended with a value |
| `SingleFlight.ResultCanPredateCall` | core/dht/dht.go:887-896 | Whoever enters while a finished walk is still listed can receive its result |
| `SingleFlight.WalkForBlockedKeyIsReachable` | core/dht/dht.go:872-910 | Walks for blocked keys occur |
| `SingleFlight.StoredAfterBlockIff` | core/dht/dht.go:973-982 | An identifier that is blocked and not stored can be stored again if and only if a verified walk for it is past its gate |
| `SingleFlight.StoredDespiteBlock` | core/dht/dht.go:973-982 | A stored value of a blocked identifier came from a verified walk gated before the block and ended after it |
| `Text.HexRoundTrip` | core/dht/id.go:31-45 | Parsing the hexadecimal form of an identifier gives it back |
| `Text.SortForgetsOrder` | core/dht/revoke.go:70-87 | Sorting gives the same list for every order of its elements |
| `Text.DecimalInjective` | core/dht/revoke.go:70-87 | Different timestamps have different decimal forms |
| `Text.JoinLinesInjective` | core/dht/revoke.go:70-87 | Lists of single lines can be told from their joined form |
| `Text.SameKeyIff` | core/dht/id.go:31-45 | Two spellings parse to the same key if and only if they differ in case only |
| `Text.TrimIs` | core/dht/revoke.go:70-87 | Trimming takes off the spaces at both ends, all of them and nothing else |
| `Text.DecimalReads` | core/dht/revoke.go:70-87 | The decimal form stands for its number and has no leading zero |
| `SignedBytes.CanonicalIff` | core/dht/revoke.go:70-87 | Payloads of single lines have the same signed bytes if and only if timestamps and nonces agree, names agree up to case and surrounding spaces, and so do the chunks up to order |
| `SignedBytes.CanonicalIgnoresOrderAndCase` | core/dht/revoke.go:70-94 | For all payloads: permuting the chunks, changing case and surrounding spaces changes neither signed bytes nor identifier |
| `SignedBytes.CanonicalSplits` | core/dht/revoke.go:70-87 | With nonces of one line the signed bytes determine timestamp, nonce and what stands above |
| `SignedBytes.SameBytesSameNamesIff` | core/dht/revoke.go:200-215 | Payloads of single lines with the same signed bytes, one of which loses no key to surrounding spaces, name the same keys if and only if the other loses none |
| `SignedBytes.TrimmedCopiesAgree` | core/dht/revoke.go:200-215 | In particular they do when all chunks are trimmed |
| `SignedBytes.SameChunksSameBlocks` | core/dht/revoke.go:200-215 | Reordered or recased chunks name the same keys, whatever they contain |
| `SignedBytes.PaddedCopyNamesNothing` | core/dht/revoke.go:70-87 | A chunk with a space in front is signed alike and names nothing |
| `SignedBytes.NameSwallowsChunk` | core/dht/revoke.go:70-87 | A name of two lines can stand for a name and a chunk |
| `SignedBytes.ChunkOfTwoLines` | core/dht/revoke.go:70-87 | A chunk of two lines is signed like two chunks and names neither |
| `SignedBytes.NonceHoldsChunk` | core/dht/revoke.go:70-87 | A nonce of several lines can hold a key that another reading of the bytes names |
| `SignedBytes.NewlineNonceIsAmbiguous` | core/dht/revoke.go:70-87 | A nonce of two lines can be read as another timestamp, for all names and timestamps |
| `SignedBytes.FirstCopyDecides` | core/dht/revoke.go:200-277 | Once a payload is applied, one with the same identifier does nothing, and of its keys those are blocked that were before or that the first one names |
| `SignedBytes.PaddedCopySuppresses` | core/dht/revoke.go:200-277 | A padded copy that comes first keeps the genuine one from blocking its chunk |
| `Revoke.ApplyRevokeBlocks` | core/dht/revoke.go:200-215 | Exactly the named chunks become blocked and leave the store; everything else stays |
| `Revoke.ApplyRevokeKeepsExact` | core/dht/revoke.go:200-215 | Applying a revoke keeps the store's counters exact |
| `Replay.AtMostOnce` | core/dht/revoke.go:220-277 | For every node, hash and run with delays up to a bound: two payloads with the same identifier are not both applied if their timestamps are less than the gap for that bound apart, however often the table was pruned |
| `Replay.AppliedTwiceIff` | core/dht/revoke.go:220-277 | Two payloads with the same signed bytes can both be applied, in this order and under a given delay bound, if and only if their timestamps are the gap apart |
| `Replay.StallLimitIsExact` | core/dht/revoke.go:220-277 | One payload can be applied twice if and only if delays over 86099 seconds and one nanosecond occur |
| `Replay.AtMostOncePerId` | core/dht/revoke.go:58-94 | With one-line nonces and no collision between the two, the identifier alone decides |
| `Replay.NewlineNonceAppliesTwice` | core/dht/revoke.go:220-277 | With a nonce of two lines one identifier is applied twice in a run without delays |
| `RevokeHandler.RevokeHandler.constructor` | core/dht/revoke.go:193-200 | A new handler has seen and blocked nothing |
| `RevokeHandler.RevokeHandler.PruneSeen` | core/dht/revoke.go:260-269 | Once the table is large, exactly the entries before the cutoff go |
| `RevokeHandler.RevokeHandler.ApplyRevoke` | core/dht/revoke.go:200-215 | The loop over the chunks blocks and deletes as specified |
| `RevokeHandler.RevokeHandler.HandleRevoke` | core/dht/revoke.go:220-277 | The handler changes the node as specified and forwards exactly what it applies |
| `Flood.StartFloods` | core/dht/revoke.go:301-315 | A broadcast establishes the flood invariant |
| `Flood.StepKeeps` | core/dht/revoke.go:220-299 | Every delivery, and every payload of whatever identifier and signer from outside, keeps it: a neighbour that welcomes what a node has broadcast has taken part or a payload it welcomes is on its way; whoever broadcast a payload blocks its keys; sends are accounted for |
| `Flood.WelcomesIff` | core/dht/revoke.go:233-245 | A payload is welcome exactly if it is accepted at every clock reading of the revoke's window |
| `Flood.CopyBlocksIff` | core/dht/revoke.go:200-277 | A node that takes a payload under this identifier as new blocks every chunk of the revoke if and only if each was blocked before or is named by that payload, and ignores the revoke from then on |
| `Flood.RecasedIsCopy` | core/dht/revoke.go:40-48 | Payloads with chunks reordered or recased are copies that name the same keys |
| `Flood.TrimmedNameTheSame` | core/dht/revoke.go:70-94 | Payloads of single trimmed lines under this identifier name the same keys, if the hash does not collide |
| `Flood.StepSets` | core/dht/revoke.go:220-269 | Only a joining node newly sees the identifier, and no step changes whom anyone trusts |
| `Flood.ArrivalJoins` | core/dht/revoke.go:220-269 | A welcome payload makes a node join that had not seen the identifier, and only one the node may take does |
| `Flood.DeliveryDecreases` | core/dht/revoke.go:247-299 | Each delivery decreases (nodes that have not seen the identifier, messages in flight) lexicographically |
| `Flood.OwnDeliveryDecreases` | core/dht/revoke.go:247-299 | Each delivery of a payload of the revoke's signer does so counting the trusting nodes alone |
| `Flood.SendsBounded` | core/peer/peer.go:579-594 | All sends are at most one broadcast per node plus one more of the origin |
| `Flood.FloodTerminates` | core/dht/revoke.go:247-315 | So no run delivers more copies than that |
| `Flood.SettledCoverage` | core/dht/revoke.go:220-315 | At rest, whatever came from outside: every node a chain of welcome payloads leads to from a source has taken part, every participant is led to by payloads the nodes on the way may take, and each blocks the keys of what it broadcast |
| `Flood.FloodCoverage` | core/dht/revoke.go:220-315 | If payloads from outside under this identifier are copies naming the same keys: at rest the participants are exactly the nodes a path of trusting nodes leads to from the origin or from a node that got such a copy, and each blocks every chunk |
| `Flood.OutsideJoinCoversIff` | core/dht/revoke.go:270-299 | A join from outside keeps trusting neighbours covered if and only if each of the joining node's has seen the identifier, has a payload it welcomes on its way, or welcomes the payload |
| `Flood.CosignedRun` | core/dht/revoke.go:70-299 | A run in which the revoke signed by somebody else comes first and a trusting node at the end of a trusting path is left without the block |
| `Flood.PathIsDone` | core/dht/revoke.go:220-315 | At rest the end of every chain of welcome payloads from a participant has taken part |
| `Flood.RunOnlyReached` | core/dht/revoke.go:220-315 | Nobody takes part whom no chain of payloads leads to |
| `Gates.PerformKeepsGone` | core/dht/dht.go:518-600 | No request, about whatever key, brings back a key that is blocked and not stored |
| `Gates.BlockedIsNotServed` | core/dht/dht.go:709-860 | A blocked key is handed out by nothing but GetAllUnverified, and by that exactly if something is there |
| `Gates.VerifiedGetIsAuthentic` | core/dht/dht.go:903-983 | Whatever peers reply, a verified Get returns and caches only values whose hash is the key and leaves other entries alone or evicted |
| `Gates.RevokedStaysGone` | core/dht/dht.go:539-600 | After a revoke and any requests that follow, no named key is stored or handed out by a store, find_value or Get request |
| `Gates.FindValueServes` | core/dht/dht.go:554-600 | find_value replies with a value if and only if the key is not blocked and holds it, and then only sets its access time; otherwise it replies with the closest peers and changes nothing |
| `Gates.StoreReplies` | core/dht/dht.go:518-552 | Store requests: exact replies for values too large, blocked keys and peers over quota, with the node unchanged; every other value is acknowledged and stored under its sender |
| `Gates.StoreThenFind` | core/dht/dht.go:518-600 | After a store request that is taken, the next find_value, and the next Get unless it is verified and the hash differs, return that value |
| `Gates.GetReplies` | core/dht/dht.go:903-983 | Get: blocked, local copy, fetched value or nothing, each with its reply and what is stored |
| `Gates.GetAllReplies` | core/dht/dht.go:786-860 | GetAllUnverified returns the local copy first and then what was collected |
| `Gates.ServedFromHistory` | core/dht/dht.go:518-600 | After any requests and revokes, the value a find_value hands out is the one the last store request taken, or the last verified Get that had to fetch, left at that key |
| `Site.CollectChunkHashes` | apps/registrar/registrar.go:817-864 | The list has no string twice, starts with the root and holds exactly the root, the manifest keys of the directory and the chunks of the manifests that can be fetched and parsed |
| `Site.KeysOnceIff` | apps/registrar/registrar.go:837-861 | It lists every key once if and only if the site spells no key in two cases |
| `Site.AddNew` | apps/registrar/registrar.go:837-861 | Strings are added once each and none is lost |
| `Site.AddEntry` | apps/registrar/registrar.go:838-861 | One entry adds its key and the chunks of its manifest, nothing else, and loses nothing |
| `Site.EntryIsCollected` | apps/registrar/registrar.go:838-846 | On the blobs and parsers alone: every directory entry that is a key is on the list |
| `Site.ChunkIsCollected` | apps/registrar/registrar.go:847-860 | and so is every chunk of its manifest if that can be fetched and parsed; |
| `Site.CollectedArises` | apps/registrar/registrar.go:817-864 | everything on the list but the root arises in one of these ways |
| `Site.CollectedNamesSite` | apps/registrar/registrar.go:817-864 | The list names the keys of the site and no other |
| `Site.RevokedSiteStaysGone` | core/dht/revoke.go:99-131 | After the collected list is applied as it is signed, normalised and sorted, and whatever follows, no key of the site is stored or handed out |
| `Site.SignedNamesMore` | core/dht/revoke.go:111-123 | The normalised list names every key the collected one names, and exactly those if no string is padded |
| `Secure.ParseOfFrame` | core/secure/secure.go:122-172 | A frame followed by anything parses to itself and what follows |
| `Secure.ParseAnyWire` | core/secure/secure.go:122-146 | Whatever is on the wire: a size of zero or over the limit is refused before anything else is read, and otherwise the frame is taken exactly if all of it is there |
| `Secure.NonceInjective` | core/secure/secure.go:182-190 | Different counters have different nonces |
| `Secure.NonceRepeatsIff` | core/secure/secure.go:148-190 | Two writes of a connection share a nonce if and only if 2^64 divides their distance |
| `Secure.WriteTracks` | core/secure/secure.go:148-172 | Every write, sent or rejected, keeps wire and counters in step with the history |
| `Secure.NextFrameOutcome` | core/secure/secure.go:122-146 | The next frame opens exactly if the writes rejected before it are a multiple of 2^64, and its text joins the buffer |
| `Secure.ReadInOrder` | core/secure/secure.go:110-146 | A read moves the next bytes to the reader and keeps the stream in order |
| `Secure.ReadStatus` | core/secure/secure.go:110-146 | It blocks exactly with nothing there, reports the end exactly at an empty frame, and returns bytes otherwise |
| `Secure.StreamIsPrefix` | core/secure/secure.go:110-190 | Over any run of writes within the limit, empty ones included, and reads of any sizes, bytes read are a prefix of bytes written, all of them once nothing is in flight, and frames in flight carry exactly the counters from recvCount to sendCount - 1 |
| `Secure.AlwaysPrefix` | core/secure/secure.go:110-190 | Over any run at all, rejected writes included, bytes read are a prefix of bytes accepted |
| `Secure.EndOnlyForEmptyFrame` | core/secure/secure.go:110-120 | A read reports the end exactly when it meets an empty frame |
| `Secure.OversizeWriteCutsStream` | core/secure/secure.go:148-172 | After one rejected write, whatever follows, the bytes read stay a prefix of those written before it |
| `Secure.LawsAreConsistent` | core/secure/secure.go:122-172 | A cipher with the assumed laws exists |
| `SecureConn.Conn.constructor` | core/secure/secure.go:82-103 | A new connection starts both counters at zero |
| `SecureConn.Conn.Write` | core/secure/secure.go:148-172 | Write acts on counter and wire as specified |
| `SecureConn.Conn.ReadNextFrame` | core/secure/secure.go:122-146 | readNextFrame acts on counter, buffer and wire as specified |
| `SecureConn.Conn.Read` | core/secure/secure.go:110-120 | Read acts as specified |
| `SecureConn.Operate` | core/secure/secure.go:110-172 | A write at one connection or a read at the other is a step of the pipe made of the one's send counter and the other's receive counter and buffer |
| `SecureConn.Exchange` | core/secure/secure.go:110-172 | Over any operations on two connected ends, what one read is a prefix of what the other accepted, and all of it once nothing is under way if no write was over the limit |
| `SecureConn.Hkdf` | core/secure/secure.go:363-384 | The loop computes section 2.3 of RFC 5869 for up to 255 blocks |
| `SecureConn.OutputLength` | core/secure/secure.go:363-384 | n blocks of output are 32 n octets |
| `SecureConn.HandshakeAgrees` | core/secure/secure.go:270-327 | Each side's send key is the other's receive key; both derivations succeed or both fail |
| `SecureConn.HandshakeKeys` | core/secure/secure.go:280-302 | With the 64 octets of RFC 5869 for the shared secret, the public keys initiator first and the label, the first half is the key to the responder and the second the one back, at both ends |
| `SecureConn.KeyAndNonceOnceIff` | core/secure/secure.go:148-302 | No two of the first 2^64 writes of either end share key and nonce if and only if the two halves differ |
| `RateLimit.RateBound` | apps/gateway/ratelimit.go:42-83 | For every history and every window of length T an IP is let through at most burst + rate * T times, clock readings in any order; with sweeps, if dropped buckets would have refilled |
| `RateLimit.AllowedIff` | apps/gateway/ratelimit.go:42-83 | Exactly which calls are let through: those that keep every window that ends with them, from a call of the same IP on, within burst + rate * T |
| `RateLimit.WindowBound` | apps/gateway/ratelimit.go:42-74 | Sharper, for every state and order of readings: at most the tokens carried forward to the end of the window |
| `RateLimit.SweepingIsInvisible` | apps/gateway/ratelimit.go:42-83 | If five minutes, less twice the disorder of the readings, earn a full bucket, the sweeping limiter answers every history like one that never sweeps |
| `RateLimit.SweepingInvisibleIff` | apps/gateway/ratelimit.go:42-83 | For readings in order, if and only if 300 times the rate is at least the burst |
| `RateLimit.EarlySweepBreaksBound` | apps/gateway/ratelimit.go:42-83 | Otherwise a history breaks the rate bound |
| `RateLimit.TakeLevels` | apps/dns/ratelimit.go:37-69 | A call changes nobody else's tokens and its own by the one it takes, exactly if it has one |
| `RateLimit.IpRateLimiter.constructor` | apps/gateway/ratelimit.go:31-40 | A new limiter has no buckets |
| `RateLimit.IpRateLimiter.CollectIdle` | apps/gateway/ratelimit.go:77-83 | The sweep deletes exactly the buckets idle for more than five minutes |
| `RateLimit.IpRateLimiter.AllowIp` | apps/gateway/ratelimit.go:42-74 | allow sweeps when due, refills, and takes a token as specified |
| `Files.PublishBytes` | apps/files/chunk.go:78-108 | The loop stores every chunk and then the manifest, or fails at the manifest |
| `Files.PublishLimit` | apps/files/chunk.go:78-108 | Publishing succeeds if and only if the file has at most 977 chunks |
| `Files.PublishStoresFile` | apps/files/chunk.go:78-108 | Even when the manifest is too large: what was stored first is the file in pieces of 64 KiB, the last one at most, each under its hash |
| `Files.StoredManifestTells` | apps/files/chunk.go:95-108 | The stored manifests of two files are the same bytes only if they are the same manifest |
| `Files.ParserExists` | apps/files/chunk.go:95-140 | So one parser reads back the manifests of all files, as the round trip asks |
| `Files.FetchBytes` | apps/files/chunk.go:113-140 | Fetching panics exactly for a claimed size that cannot be allocated, succeeds exactly when manifest and all chunks can be fetched and the sizes agree, and then returns their concatenation |
| `Files.FetchChunksIs` | apps/files/chunk.go:124-135 | If every chunk is a key with something at it, fetching gives all of that in order |
| `Files.FetchChunksFails` | apps/files/chunk.go:124-135 | If one is not, fetching fails |
| `Files.FetchOfPublished` | apps/files/chunk.go:78-140 | While the blobs stay retrievable, fetching what was published gives the original bytes |
| `Files.ReadIsSlice` | apps/files/stream.go:67-92 | A read yields the bytes of the file at the position, makes progress before the end, and reports the end exactly at or after it |
| `Files.ReadToEndIsRest` | apps/files/stream.go:67-92 | Reading to the end collects the rest of the file |
| `Files.FetchIsChunk` | apps/files/stream.go:118-137 | The cached chunk equals a fresh fetch |
| `Files.ReadRefinesFlat` | apps/files/stream.go:67-137 | Reading a published file refines reading the flat file; it fails, without moving, exactly when it needs a chunk neither cached nor retrievable |
| `Files.StaysOver` | apps/files/stream.go:67-137 | Through any sequence of reads and seeks the cache holds a chunk of the file |
| `Files.SeekExact` | apps/files/stream.go:97-113 | Seek moves to the true target exactly when that is a non-negative 64-bit value; otherwise it fails, except that from the end of a file of negative size it can wrap around |
| `Files.ChunkReader.constructor` | apps/files/stream.go:42-58 | A new reader stands at the start with nothing cached |
| `Files.ChunkReader.Fetch` | apps/files/stream.go:118-137 | fetchChunk serves and fills the one-slot cache as specified |
| `Files.ChunkReader.Read` | apps/files/stream.go:67-92 | Read changes position and cache as specified, for every manifest |
| `Files.ChunkReader.Seek` | apps/files/stream.go:97-113 | Seek changes the position as specified |
| `PeerTable.Peers.constructor` | core/peer/peer.go:145-158 | New tables are empty and consistent |
| `PeerTable.Peers.RegisterConn` | core/peer/peer.go:982-995 | Registering keeps every alias on the canonical connection of its identity and in that connection's list, returns the other connection if there is one, and changes nothing else |
| `PeerTable.Peers.RemoveConn` | core/peer/peer.go:1000-1020 | Removing leaves no alias and no identity leading to the connection, even after aliases were taken over, and everything else as it was |
| `PeerTable.Peers.AddPeerAddress` | core/peer/peer.go:1025-1039 | Adding an alias keeps the tables consistent and says whether anything changed |
| `PeerTable.Peers.Broadcast` | core/peer/peer.go:579-594 | Each connection is sent to once per alias |
| `PeerTable.AppendUnique` | core/peer/peer.go:1041-1048 | The list keeps its elements in place, gains the new one exactly if it was not there, and stays free of duplicates |
| `Dns.ReadName` | apps/dns/dns.go:237-270 | The loop computes ReadFrom for every byte string and offset |
| `Dns.ReadNameIff` | apps/dns/dns.go:237-270 | Reading succeeds with these labels if and only if the bytes there spell them, each of 1 to 63 octets and at most 255 in all |
| `Dns.OneOctetBeyondRfc` | apps/dns/dns.go:237-270 | A name of 256 octets, one more than section 2.3.4 of RFC 1035 allows, is accepted |
| `Dns.ParseOfEncoded` | apps/dns/dns.go:207-232 | Parsing an encoded query recovers identifier, flags, name, type and class |
| `Dns.ParseIff` | apps/dns/dns.go:207-232 | For every packet: which are queries, with which fields, and which of the other outcomes the rest have |
| `Dns.DottedInjective` | apps/dns/dns.go:269-270 | Labels without dots can be told from the joined name |
| `Dns.AssembleReply` | apps/dns/dns.go:272-339 | The buffer ends up with the new header, the question as it came, and the answer record for type A |
| `Dns.BuildCapturedReply` | apps/dns/dns.go:272-339 | The reply has these bytes and reads back as the next row says |
| `Dns.ReplyReadsBack` | apps/dns/dns.go:272-339 | Read with sections 4.1.1 to 4.1.4 of RFC 1035 it has the same identifier and question, exactly one A answer (class IN, 60 seconds, the capture address) for type A, none otherwise, and nothing after it |
| `Dns.ReplyFlagBits` | apps/dns/dns.go:283-298 | Bit by bit: a response, authoritative, recursion available, recursion desired as asked, no error, and nothing else |

## Left out

- Disk persistence, sockets, timers, logging and goroutine scheduling: time is an input, the network is a function or a multiset of addressed payloads, concurrency is interleaving of atomic steps.
- SHA-256, HMAC, Ed25519, X25519, AES-GCM, JSON and base64: parameters; the manifest parser is a parameter of which only that it reads back the published manifest is used.
- The signing in SignRevoke and the handshake messages with their signatures: thin wrappers over the primitives above.
- core/relay, core/name, core/dht/maintenance.go, apps/gateway/gateway.go, the HTTP handlers of apps/registrar/registrar.go, cli/main.go and the metrics: plumbing, or loops over operations modelled here.
- Connection limits and dial deadlines of core/peer/peer.go: check-then-act around network calls.
- SignedBytes.CanonicalIff: letters are folded in the ASCII range only, and spaces trimmed up to U+00A0.
- RateLimit.RateBound: token counts are reals, so floating-point rounding is not part of the model.
- Replay.AtMostOnce: the effects of applyRevoke are taken at the locked section that admits the call, although the source applies them just after it.
- Gates.RevokedStaysGone: requests are handled one after another; the concurrent Get, with what it stores, is in SingleFlight.
- SingleFlight.StoredAfterBlockIff: blocking and deleting a key are one step, and the store requests of other peers, which also look at the blocklist before they store, are not part of this state machine.
- SecureConn.Hkdf: above 255 blocks the counter byte of the source wraps, which section 2.3 of RFC 5869 does not define; those lengths are not modelled.
- SecureConn.Conn.ReadNextFrame: a partly received frame counts as not yet there, so a read of it blocks; connection errors in the middle of a frame are not modelled.
- LocalStore.LocalStore.Put: the byte counters are unbounded integers, not int64, and the order an eviction sort leaves is an input.
- Lookup.Lookup: other handlers may add and refresh contacts during a lookup; removals and eviction tails during it are not covered.
- Fetch.GetInner: the replies of one batch are taken in one after another in some order, as the source's lock makes them; removals from the routing table during the walk are not covered, as for the lookup.
- Forwarding of queries and the matching of captured names in apps/dns/dns.go.
