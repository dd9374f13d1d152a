# Dgraph, modelled and proved in Dafny

Dgraph keeps a graph in posting lists. This project models the places in its
data path where a fast, mutable structure has to agree with a simple
mathematical object, and proves that it does, for every input and over every
run. Where the code falls short of what it is for, the model keeps the code's
behaviour, shows one input that goes wrong and proves exactly when it goes right.

`dafny verify dfyconfig.toml` checks everything.

## What is proved

**Posting lists** (`PostingLayers`, `PostingUpdate`, `PostingQueries`, `Edges`,
`Lists`). A list is an immutable sorted layer, stored as protobuf bytes, under a
sorted mutation layer whose entries say Set, Del or Add. Its meaning is one map from uid to
(value, type, label). Over every run of mutations and commits the class `List`
refines that map: Set overwrites, Del removes only on a full match, the
reported flag is true exactly when the map changed, `iterate` visits the map in
uid order, `Length` counts it from Add/Del marks alone, and after a commit the
stored bytes alone give the map back. `Uids` bounds its cursor by the wire size of the
intersect list instead of its length; the model keeps that and proves that the
read is out of range exactly when the list holds a uid above the last element
of a non-empty intersect list.

**Codec** (`Codec`, `CodecLaws`, `CodecBuffers`). Decoding inverts encoding on
every posting and posting list; two messages one behind the other read as their
merge, and fields of a later version are passed over. The buffer-filling and byte-scanning code writes exactly
`Size()` bytes and computes the same functions. The wire format is that of the Protocol Buffers
Encoding specification, sections "Base 128 Varints" and "Message Structure".

**Index** (`Keys`, `RuneKeys`, `TokensTables`, `TableBuild`, `Index`,
`IndexLaws`, `IndexValues`, `IndexServer`). The key of an attribute and a uid is unique if and
only if the attribute has one-byte characters only and no NUL but at its start.
After every run of legal mutations a uid is in the index list of a token exactly when
its current value has that token, and that value is the last one the mutations
set and did not delete. This is proved for real objects: a server
that opens two-layer lists on demand over one store, updates them and the token
tables in place, commits them at any time, and starts again on what is stored.
Empty values are not legal; for those the exact condition under which the index
stays right is proved, with an input for each way it goes wrong. These are
shortfalls of `AddMutationWithIndex` alone: the RDF parser of the repository
never sets a value together with a nonzero value id, a Raft proposal drops
empty values when it is marshalled, and no scalar type has a token for the
empty value, so that the second input rests on a schema that does not exist yet.

**Membership** (`Membership`, `MembershipGossip`, `MembershipRuns`,
`MembershipServer`). Replicas of group zero fold a log; other servers pull what
is newer than their last update, from any replica, ahead or behind, with groups
in any order. In every run a follower's table is the table of the log prefix it
has seen, and when that prefix names a leader, the follower names it too. When
the prefix names none the follower may still name an old one; the exact outcome
of a pull is proved, with a whole run that shows it.

**Query pipeline** (`UidOrder`, `UidHeap`, `UidLists`, `IntersectLists`,
`FilterParser`, `FilterLaws`, `FilterScan`, `FilterEval`, `FilterValues`,
`Fragments`, `FragmentExpand`, `Pagination`). The heap merge computes the sorted
union and the cursor scan the sorted intersection. The two-stack filter parser
returns the one tree that the grammar gives. It also accepts sequences outside
the grammar and kills the process on others: a scan with a bracket depth and one
bit recognises exactly the grammar, and a scan with two bits per open bracket
and one count tells for every token sequence how the parser ends. Parsing,
copying and evaluating a filter leaves exactly the source uids that satisfy the
infix formula, in which `allof` and `anyof`, in any letter case, ask for all or
some tokens of their argument; and after every run of legal mutations exactly those whose
current values satisfy it. Fragment expansion succeeds exactly
when no reachable fragment is missing or on a cycle (GraphQL specification,
October 2021, section 5.5.2.2), and then is recursive in-order inlining;
otherwise it reports the flaw that a search without marks meets first. A page
is the one asked for unless a negative count exceeds the list without being a
multiple of its length.

**Bucket sort** (`BucketSort`, `BucketOrder`, `IndexedSort`). For every index,
each row of a sort is the window `[offset, offset + count)` of its buckets one
behind the other, each sorted by value, although the code stops early. Every
uid comes once if and only if none is in two buckets. After every run of legal
mutations on an attribute with one integer token per value, each row is that
window of its uids with a value, in an order that is the order of the values
if and only if the row's keys all have the same sign.

**Write-ahead log and shard sync** (`OrderedStore`, `WalKeys`, `Wal`,
`WalLaws`, `WalRaft`, `WalServer`, `ShardSync`). One log serves all groups. In
every run of `Store`, with the batches of all groups interleaved, the entries of
each group are those of its own batches alone, and if these extend its log,
`Entries` returns exactly the suffix of that log. `Store` is "put the batch,
drop what is above its last key" exactly when that last key is neither (0, 0)
nor the largest index. A batch that rewrites the tail leaves exactly the Raft
log if and only if no overwritten entry sorts below the last one written; a run
of batches in Raft order whose terms never go down ends in exactly the Raft log
if and only if none of them left such an entry. A shard exchange brings over
exactly the pairs that are missing or differ in checksum, and can break off in
any way without harm to the next one. It loses a pair only if that pair is all
there is to send and has neither key nor value; no key of Dgraph is empty.

`GoSort` is the binary search of Go's `sort` package, `Bytes` the order of byte strings, `Seqs` facts about sequences.

## Model

| member | source | states |
|---|---|---|
| Bytes.BigEndianOrder | raftwal/wal.go:37-44 | fixed-width big-endian bytes compare as the numbers do, both directions |
| Bytes.BigEndianRoundTrip | raftwal/wal.go:37-44 | reading back a fixed-width big-endian number gives the number |
| CodecLaws.PostingRoundTrip | posting/types/types.pb.go:247-430 | decoding the encoding of any posting gives the posting |
| CodecLaws.PostingListRoundTrip | posting/types/types.pb.go:431-561 | decoding the encoding of any posting list gives the list, nested messages and multi-byte varints included |
| CodecLaws.EncodingInjective | posting/types/types.pb.go:121-160 | two posting lists with the same bytes are equal |
| CodecLaws.ConcatMerges | posting/types/types.pb.go:431-561 | two lists encoded one behind the other read as one: postings appended, the last checksum and commit win |
| CodecLaws.UnknownInList | posting/types/types.pb.go:541-553 | a field with an unknown number, of any wire type but groups, is passed over |
| CodecLaws.UnknownInPosting | posting/types/types.pb.go:410-423 | the same inside a posting |
| CodecLaws.LaterVersionReads | posting/types/types.pb.go:431-561 | such a field between two parts of a message changes nothing |
| CodecLaws.PostingBytes | posting/types/types.pb.go:81-119 | the bytes of one posting with every field set |
| CodecLaws.PostingListBytes | posting/types/types.pb.go:131-160 | the bytes of one list |
| CodecLaws.VarintLength | posting/types/types.pb.go:234-243 | a number below 128 to the n has a varint of at most n bytes |
| CodecBuffers.SizeVarint | posting/types/types.pb.go:234-243 | the counting loop gives the length of the varint |
| CodecBuffers.SizePosting | posting/types/types.pb.go:189-213 | the computed size is the length of the encoding |
| CodecBuffers.SizePostingList | posting/types/types.pb.go:215-232 | the computed size is the length of the encoding |
| CodecBuffers.EncodeVarint | posting/types/types.pb.go:180-188 | the shifting loop writes the varint at the offset and nothing else |
| CodecBuffers.EncodeFixed64 | posting/types/types.pb.go:162-172 | eight little-endian bytes at the offset and nothing else |
| CodecBuffers.MarshalPostingTo | posting/types/types.pb.go:81-119 | the buffer gets exactly the encoding at the offset; the cursor ends behind it |
| CodecBuffers.MarshalNestedTo | posting/types/types.pb.go:137-146 | a nested posting is written as tag, length and body |
| CodecBuffers.MarshalPostingListTo | posting/types/types.pb.go:131-160 | the buffer gets exactly the encoding; the count returned is its length |
| CodecBuffers.MarshalPostingList | posting/types/types.pb.go:121-129 | a buffer of `Size()` bytes is filled completely by `MarshalTo` |
| CodecBuffers.DecodeVarint | posting/types/types.pb.go:253-266 | the shift-and-or loop computes the varint, with its overflow and end-of-input errors |
| CodecBuffers.UnmarshalPosting | posting/types/types.pb.go:247-430 | the byte-scanning loop computes the parse function, errors included |
| CodecBuffers.UnmarshalPostingList | posting/types/types.pb.go:431-561 | the byte-scanning loop computes the parse function, errors included |
| GoSort.Search | posting/list.go:227-230 | binary search finds the first index at which a monotone test holds |
| PostingLayers.ViewOfAt | posting/list.go:400-450 | what the two layers mean at one uid: the mutation if there is one, else the immutable posting |
| PostingLayers.MergeExact | posting/list.go:400-450 | merging the layers yields exactly the visible postings |
| PostingLayers.MergeIsSorted | posting/list.go:400-450 | and yields them in strictly increasing uid order |
| PostingLayers.MergeLength | posting/list.go:453-477 | as many postings as the immutable layer, plus Adds, minus Dels |
| PostingLayers.ListingExact | posting/list.go:400-450 | iterating after a uid visits exactly the visible postings above it, in order |
| PostingLayers.ListingIsView | posting/list.go:400-450 | these are the uids of the map above the bound, each with its content |
| PostingLayers.ListingDelta | posting/list.go:453-477 | the number visited is the immutable suffix plus Adds minus Dels of the mutation suffix |
| PostingLayers.ListingCount | posting/list.go:453-477 | the number visited is the number of map keys above the bound |
| PostingLayers.FirstAfter | posting/list.go:404-413 | the search finds where the postings above the uid begin |
| PostingLayers.Iterate | posting/list.go:400-450 | the two-cursor loop with its zero-uid sentinel visits the listing until the callback says stop; the default case is unreachable |
| PostingLayers.Length | posting/list.go:453-477 | the count from Add/Del marks is the number of map keys above the bound |
| PostingUpdate.UpdateLayer | posting/list.go:223-316 | the new layer keeps the Set/Del/Add discipline; Set leaves value, type and label of the posting under its uid, Del takes the uid out if and only if it is there with the same value, type and label, no other uid changes; the flag is true exactly when the map changed |
| PostingQueries.Uids | posting/list.go:543-566 | panics exactly when a uid lies above the last element of a non-empty intersect list; otherwise the increasing list of exactly the wanted uids |
| PostingQueries.IntersectVisited | posting/list.go:548-564 | the cursor over the intersect list, with the wire-size bound, keeps exactly the common uids |
| PostingQueries.UidsOverrunExample | posting/list.go:558-558 | a list of two uid edges, an intersect list that is read past its end, and two that are not |
| PostingQueries.Value | posting/list.go:568-588 | the value posting of the map, or none |
| Lists.ChecksumSingle | posting/list.go:502-511 | the digest of a list tells two single postings apart exactly by uid and by value followed by label; type and boundary are not seen |
| Lists.ChecksumBlind | posting/list.go:502-511 | lists that differ only in what the digest does not see (type, commit, operation) have the same digest |
| Lists.ChecksumAligned | posting/list.go:502-511 | lists whose values and labels have the same lengths have the same digest input if and only if all uids and all values followed by labels are equal |
| Lists.ChecksumConfuses | posting/list.go:502-511 | without that: one posting and two postings with the same digest input |
| Lists.ChecksumSnoc | posting/list.go:502-511 | one more posting adds its number, uid, value and label |
| Lists.DigestInput | posting/list.go:502-511 | the loop that feeds the digest |
| Lists.ChecksumBytes | posting/list.go:502-511 | the bytes fed for two postings |
| Lists.AloneView | posting/list.go:488-533 | a sorted list with the contents of a map means that map when there is no mutation layer |
| Lists.ListingReloads | posting/list.go:498-519 | what commit writes out means, on its own, what both layers meant together |
| Lists.Serialise | posting/list.go:498-520 | the bytes written by commit parse to a sorted list with the same meaning, the digest of its own postings and commit zero |
| Lists.List.constructor | posting/list.go:183-193 | a list opened on a store means what the stored bytes mean |
| Lists.List.GetPostingList | posting/list.go:197-215 | the cached immutable layer is the stored one |
| Lists.List.AddMutation | posting/list.go:344-380 | retry exactly on a list marked deleted, error exactly on uid zero, otherwise the map after the mutation and whether it changed; a value goes under the largest uid, an edge under its value id, each with type and label; a non-empty layer is dirty |
| Lists.List.Commit | posting/list.go:488-533 | meaning unchanged, mutation layer emptied; the stored bytes parse to the listing with the digest of its own postings and commit zero, other keys untouched; when it panics, and that nothing changes then |
| Lists.List.CommitIfDirty | posting/list.go:479-486 | afterwards the stored bytes alone mean the list: no pending change is skipped |
| Lists.List.Length | posting/list.go:453-477 | number of map keys above the bound |
| Lists.List.Uids | posting/list.go:543-566 | as PostingQueries.Uids, on the object |
| Lists.List.Value | posting/list.go:568-588 | value of the map |
| Lists.List.Do | posting/list.go:344-380 | one mutation or commit is one step of the map |
| Lists.List.Run | posting/list.go:344-533 | over every run of mutations and commits the list and the returned flags are those of the map |
| Keys.DataKeyInjective | posting/list.go:133-141 | different (attribute bytes, uid) have different keys, for all bytes |
| Keys.KeyLayout | posting/list.go:133-141 | both keys byte by byte, the uid read back from its eight bytes |
| RuneKeys.RuneBytesPlain | posting/list.go:133-141 | an attribute of one-byte characters is copied unchanged |
| RuneKeys.UniqueKeyIff | posting/list.go:133-141 | no other attribute and uid have the same key if and only if the attribute has one-byte characters only and no NUL but at its start |
| RuneKeys.KeyCollision | posting/list.go:133-141 | three attributes whose keys are the same for every uid |
| Keys.IndexKeyInjective | types/index.go:20-26 | different (attribute, token) have different keys |
| Keys.KeysDisjoint | types/index.go:20-26 | no data key is an index key |
| Keys.TokenRoundTrip | types/index.go:30-34 | the token is recovered from the index key |
| Keys.IntTokenInjective | types/index.go:57-64 | different integers have different tokens |
| Keys.IntTokenValue | types/index.go:57-64 | the token read back is the key modulo 2^32 |
| Keys.IntTokenOrder | types/index.go:57-85 | token order agrees with key order exactly when the two keys have the same sign |
| TokensTables.InsertLaw | posting/index.go:240-252 | insertion keeps the table sorted and adds exactly the one token |
| TokensTables.NextOf | posting/index.go:279-290 | from the i-th token the next one is the i+1-th, and the empty string after the last |
| TokensTables.TokensTable.Get | posting/index.go:224-232 | -1 exactly for an absent token, otherwise its position |
| TokensTables.TokensTable.Add | posting/index.go:240-252 | the shifting loop inserts the token in order, once |
| TokensTables.TokensTable.Push | posting/index.go:254-260 | appending a token above all others keeps the table sorted |
| TokensTables.TokensTable.GetFirst | posting/index.go:294-302 | a token that is at most every other, or the empty string |
| TokensTables.TokensTable.GetNext | posting/index.go:279-290 | the least token above the given one, or the empty string |
| Index.IndexAllLists | posting/index.go:113-133 | indexing a value changes exactly the lists of its tokens, repeated tokens included |
| Index.IndexAllTables | posting/index.go:135-164 | setting adds the tokens to the sorted table, deleting leaves it |
| IndexLaws.MutateShape | posting/index.go:167-207 | a legal mutation replaces the tokens of the old value by those of the new one, or changes no value |
| IndexLaws.MutateKeeps | posting/index.go:167-207 | it keeps every indexed attribute in agreement with its values |
| IndexLaws.RunKeeps | posting/index.go:167-207 | so does every run |
| IndexLaws.IndexFollowsValues | posting/index.go:113-207 | after every run from an empty store a uid is listed under a token exactly when its current value has it, and tokens in use are in the sorted table |
| IndexValues.DataAfter | posting/index.go:167-207 | a legal mutation changes no data list but that of its entity |
| IndexValues.RunHoldsLast | posting/index.go:167-207 | after every run the data list of an entity holds the last value that was set and not deleted since, with type and label |
| IndexValues.CurrentIsLast | posting/list.go:568-588 | so does its current value |
| IndexValues.IndexFollowsLast | posting/index.go:113-207 | after every run a uid is listed under a token exactly when the last value its mutations set has that token |
| IndexLaws.EmptyValueShape | posting/index.go:167-207 | what a mutation with an empty value does to value and index, for every value id |
| IndexLaws.EmptyValueAgreement | posting/index.go:167-207 | after it the index agrees if and only if the value itself became empty, or the tokens of the old value and of the empty one are the same |
| IndexLaws.AfterEmptyValue | posting/index.go:187-196 | once the value is empty, the next value leaves the index in agreement if and only if it has all tokens of the empty one |
| IndexLaws.AfterEmptyWithoutTokens | posting/index.go:187-196 | an empty value without tokens leaves every next value in agreement |
| IndexLaws.EmptyValueExample | posting/index.go:167-207 | a value and then an empty one without tokens and with a small value id: the value stays but is no longer listed |
| IndexLaws.EmptyThenSetExample | posting/index.go:167-207 | if the empty value had a token: a value, the empty one in its place and another value, after which the index no longer agrees |
| TableBuild.BuildTable | posting/index.go:59-73 | the iterator from the prefix on, pushing the token of every key: a sorted table of exactly the tokens of the attribute's index keys |
| TableBuild.TokenOrder | types/index.go:20-26 | index keys of one attribute order as their tokens |
| IndexServer.Postings.constructor | posting/index.go:49-82 | a server on a store: lists mean what is stored, tables know exactly the tokens with a stored list |
| IndexServer.Postings.GetOrCreate | posting/lists.go:289-314 | opening a list changes the meaning of none |
| IndexServer.Postings.ValueAt | posting/list.go:568-588 | the current value under a key |
| IndexServer.Postings.AddToken | posting/index.go:240-252 | one token table object gets the token |
| IndexServer.Postings.AddMutation | posting/list.go:344-380 | the two-layer list under a key, opened if need be: its map after the mutation and whether it changed; all other lists mean what they meant |
| IndexServer.Postings.AddIndexMutation | posting/index.go:135-164 | one index list object and, when setting, the token table object |
| IndexServer.Postings.AddIndexMutations | posting/index.go:113-133 | the loop over the tokens; undecodable values are reported |
| IndexServer.Postings.AddMutationWithIndex | posting/index.go:167-207 | what all lists and tables mean after the mutation and its index work |
| IndexServer.Postings.UpdateIndex | posting/index.go:187-207 | the index work: old tokens out, new tokens in, or the decoding error |
| IndexServer.Postings.CommitKey | posting/list.go:479-533 | a commit changes no meaning; when it panics |
| IndexServer.Postings.Run | posting/index.go:167-207 | over every interleaving of mutations and commits the lists and tables mean what the mutations alone make of them, and the index agrees with the values |
| IndexServer.Postings.CommitAll | posting/list.go:479-533 | afterwards no list has pending mutations |
| IndexServer.Postings.Restart | posting/index.go:49-82 | commit all and start again on the store: every list means what it meant, and the index still agrees although unused tokens may be gone |
| IndexServer.ReopenKeeps | posting/index.go:49-82 | the same lists under other sorted tables agree with the values as long as tokens in use are known |
| Membership.UpdateListLaw | worker/groups.go:382-407 | one update of a server list: nodes stay unique, only the updated node's record changes, and who leads afterwards |
| Membership.HeadLaw | worker/groups.go:382-407 | who heads the list after an update, whether or not it leads |
| Membership.ApplyLaw | worker/groups.go:355-413 | the same for the table of all groups: address, index and leader of every node |
| Membership.LeadFoldLaw | worker/groups.go:397-407 | who leads after a sequence of updates: the last claim not taken back |
| MembershipGossip.ReplicaFold | worker/groups.go:355-413 | the table of a replica holds for every node the address and index of its last entry |
| MembershipGossip.ReplicaLeader | worker/groups.go:397-407 | a replica names exactly the leader its log prefix has |
| MembershipGossip.ReplyExact | worker/groups.go:417-444 | a reply holds exactly the newer records of the visited groups |
| MembershipGossip.ReplyOnce | worker/groups.go:417-444 | at most one record per node |
| MembershipGossip.ReplyIndex | worker/groups.go:417-444 | its last-update index is that of the replica's last entry, or the one asked for |
| MembershipGossip.ReplyAbout | worker/groups.go:424-440 | a node is in the reply exactly when its last entry is newer, with its address, and flagged exactly if it leads |
| MembershipGossip.MaxIdxLaw | worker/groups.go:417-444 | the index returned bounds all records and is carried by one |
| MembershipGossip.ApplyMembersLaw | worker/groups.go:330-337 | applying a reply sets the addresses in it, keeps the others, and folds the leader flags |
| MembershipGossip.PullAddr | worker/groups.go:330-337 | after a pull every address is that of the longer log prefix |
| MembershipGossip.PullLeader | worker/groups.go:397-440 | after a pull the leader is the replica's; if it has none, the old one survives exactly when the log does not mention it since |
| MembershipRuns.PullBehind | worker/groups.go:330-337 | pulling from a replica that is not ahead changes nothing |
| MembershipRuns.PullAhead | worker/groups.go:330-337 | pulling from one that is ahead moves the last update to its last entry |
| MembershipRuns.PullTracks | worker/groups.go:330-337 | a pull keeps the follower on a log prefix |
| MembershipRuns.NextInv | worker/groups.go:330-444 | every step of the cluster keeps the invariant |
| MembershipRuns.RunInv | worker/groups.go:330-444 | it holds in every state of every run |
| MembershipRuns.RunSafe | worker/groups.go:330-444 | in every run each follower holds the addresses of its log prefix, and its leader whenever the prefix has one |
| MembershipRuns.RunReplicas | worker/groups.go:355-413 | in every run each replica holds addresses and leaders of what it has applied |
| MembershipRuns.StaleLeader | worker/groups.go:417-444 | a log of three entries: a follower that has seen the first keeps its leader after a pull although the log has none |
| MembershipRuns.StaleRun | worker/groups.go:330-444 | a run from the start that ends so |
| MembershipServer.RemoveNode | worker/groups.go:382-395 | the swap-remove loop takes out exactly the one node |
| MembershipServer.Newer | worker/groups.go:424-440 | one group's part of a reply and the running maximum |
| MembershipServer.Groups.ApplyMembershipUpdate | worker/groups.go:355-413 | remove, append, swap to the front and clear flags: the table after the update |
| MembershipServer.Groups.MembershipUpdateAfter | worker/groups.go:417-444 | the reply and its index, whatever the order of the groups |
| MembershipServer.Groups.TouchLastUpdate | worker/groups.go:229-235 | the last update never decreases |
| MembershipServer.Groups.ApplyReply | worker/groups.go:330-337 | table and last update after a reply; an empty reply changes nothing |
| MembershipServer.Groups.SyncMemberships | worker/groups.go:249-338 | request and reply together are one pull |
| MembershipServer.Groups.Leader | worker/groups.go:182-190 | the first entry: the leader if there is one, otherwise a member with its address, or nothing for an unknown group |
| UidHeap.RootLeast | algo/heap.go:19-27 | in a heap the root is least |
| UidHeap.Up | algo/heap.go:19-31 | sifting up restores the order and permutes |
| UidHeap.Down | algo/heap.go:19-39 | sifting down restores the order and permutes, or reports that nothing moved |
| UidHeap.Heap.Push | algo/heap.go:29-31 | adds the element, stays a heap |
| UidHeap.Heap.Pop | algo/heap.go:33-39 | removes the root, stays a heap |
| UidHeap.Heap.Replace | algo/uidlist.go:142-145 | replacing an element and fixing keeps the heap and everything else |
| UidLists.FirstHeads | algo/uidlist.go:115-125 | the heap starts with exactly the first element of each non-empty list |
| UidLists.LeastHead | algo/uidlist.go:132-147 | the least head is at most everything that is left |
| UidLists.MergingStep | algo/uidlist.go:132-147 | one round keeps the invariant, heap of exactly the current heads included, and consumes one element |
| UidLists.MergeSorted | algo/uidlist.go:110-149 | strictly increasing, and exactly the union |
| IntersectLists.FindShortest | algo/uidlist.go:60-69 | the first list of least length |
| IntersectLists.InOthers | algo/uidlist.go:82-101 | whether a value is in all lists, with cursors that may be left behind |
| IntersectLists.IntersectSorted | algo/uidlist.go:49-107 | strictly increasing, and exactly the intersection; the scanned list must be free of duplicates, as the code asserts |
| IntersectLists.CommonLaw | algo/uidlist.go:24-38 | the compacted list is exactly the intersection and stays strictly increasing |
| IntersectLists.IntersectWith | algo/uidlist.go:24-38 | in-place compaction of one slice by another |
| FilterParser.ReduceAnd | gql/parser.go:683-689 | a conjunction still on the stacks collapses into its tree |
| FilterParser.ReduceOr | gql/parser.go:683-689 | so does a disjunction, without underflow |
| FilterParser.FunctionOfArgs | gql/parser.go:751-755 | the first non-empty argument is the attribute, those behind it are the arguments in order |
| FilterParser.ParseCallExact | gql/parser.go:733-760 | reading a call gives exactly that attribute and those arguments, and stops behind its bracket |
| FilterLaws.ParseOr | gql/parser.go:723-816 | reading an expression leaves exactly its pending operators and operands on the stacks |
| FilterLaws.FilterParses | gql/parser.go:723-816 | every filter of the grammar parses to its left-associative tree, && binding tighter, and parsing stops at the matching bracket |
| FilterLaws.CallParses | gql/parser.go:723-816 | a filter of one call parses to the leaf with that name, attribute and arguments |
| FilterLaws.TreeUnique | gql/parser.go:723-816 | the tree of a token sequence does not depend on its derivation |
| FilterLaws.EmptyFilter | gql/parser.go:723-816 | an empty directive is no filter |
| FilterLaws.AcceptsPostfix | gql/parser.go:723-816 | outside the grammar: operands before their operator are accepted |
| FilterLaws.DiesOnOperator | gql/parser.go:683-689 | outside the grammar: an operator without operands ends the program |
| FilterScan.ScansIff | gql/parser.go:723-816 | a scan with a bracket depth and one bit accepts exactly the sequences that begin with a filter of the grammar |
| FilterScan.ParsesGrammarIff | gql/parser.go:723-816 | the parser returns the tree of a derivation of exactly the tokens it consumed if and only if that scan accepts |
| FilterScan.EndingExact | gql/parser.go:723-816 | for every token sequence a counting scan gives how the parser ends (tree, no filter, error, death of the process) and how many tokens it has read |
| FilterScan.ScansNeverDies | gql/parser.go:723-816 | what the first scan accepts never kills the process |
| FilterLaws.ReduceLoop | gql/parser.go:787-793 | the reduction loop on the two stacks |
| FilterLaws.ParseCallLoop | gql/parser.go:733-760 | the loop that reads the arguments of a leaf |
| FilterLaws.ParseFilterLoop | gql/parser.go:723-816 | the whole token loop computes the parse function, errors included |
| FilterEval.SatOrTree | gql/parser.go:683-816 | the tree is satisfied exactly when the infix formula is |
| FilterEval.ToLowerReads | worker/task.go:99-99 | lower-casing gives a word exactly when the name is that word in some letter case |
| FilterEval.LeafMeaning | worker/task.go:77-174 | a leaf named allof accepts a uid in every index list of at least one token, a leaf named anyof a uid in some list |
| FilterEval.CallMeaning | worker/task.go:77-174 | the same of a call in a filter |
| FilterEval.SatCopy | query/query.go:321-335 | copying a tree into subgraphs keeps what it accepts |
| FilterEval.CopyIsFilter | query/query.go:321-335 | the copy has the shape that processing expects |
| FilterEval.UidMatrix | worker/task.go:106-146 | one row per token, or a panic exactly when an index list overruns the source |
| FilterEval.ProcessLeaf | worker/task.go:77-174 | allof, in any letter case, keeps exactly the source uids in every index list of at least one token, anyof those in some; an error for too many arguments or tokens that fail, death for a missing argument or an overrun |
| FilterEval.ProcessFilter | query/query.go:522-609 | a filter subgraph keeps exactly the source uids that satisfy it; dies exactly when a leaf does, and errs exactly when one errs and none dies |
| FilterEval.ProcessFilters | query/query.go:574-590 | the same for the list of sub-filters |
| FilterEval.ApplyFilter | query/query.go:574-609 | from tokens to the filtered destination list, for every parse result |
| FilterEval.FilterBy | query/query.go:574-609 | for every filter of the grammar the strictly increasing list of exactly the uids that satisfy the infix formula |
| FilterValues.OrAgrees | worker/task.go:77-174 | on a consistent index a filter says about the index lists what it says about the current values |
| FilterValues.CallOnValues | worker/task.go:77-174 | a call accepts a uid when its current value has all, or some, of the tokens |
| FilterValues.CallAfterRun | worker/task.go:77-174 | after every run: when the last value that the mutations set has them |
| FilterValues.FilterAfterRun | query/query.go:574-609 | after every run of legal mutations the filter leaves exactly the uids whose current values satisfy the infix formula |
| Fragments.PathDescends | gql/parser.go:122-136 | along every reference path the order of expansion goes down |
| Fragments.TopologicalSound | gql/parser.go:122-136 | so an expansion order excludes cycles and missing names |
| Fragments.OrderFlawless | gql/parser.go:122-136 | expanding again what has been expanded meets no flaw |
| Fragments.InlinesSpread | gql/parser.go:138-163 | a spread is replaced by the inlined body of its fragment |
| FragmentExpand.FragmentMap.Expand | gql/parser.go:122-136 | entered and exited flags: the same flaw, or none, as a search without marks; a fragment is inlined once for all |
| FragmentExpand.FragmentMap.ExpandFragments | gql/parser.go:138-163 | children rewritten in order, with no spread left, or the first flaw |
| FragmentExpand.ExpandQuery | gql/parser.go:138-163 | terminates on every fragment map; succeeds if and only if nothing reachable is missing or cyclic, and then is recursive inlining; otherwise names the missing or cyclic fragment that a search without marks meets first, with a walk to it |
| Pagination.SliceableIff | query/query.go:670-690 | the range can be sliced if and only if the offset is within the list or, for a negative count, the list is not empty |
| Pagination.BackStart | query/query.go:674-677 | the double truncating remainder is the count modulo the length |
| Pagination.PageElements | query/query.go:670-690 | the page asked for, element by element |
| Pagination.SliceIsPageIff | query/query.go:670-690 | the slice is the page asked for if and only if a negative count does not exceed the list or is a multiple of its length |
| Pagination.WrapExample | query/query.go:674-677 | the last four of three elements come out as one |
| Pagination.PageRow | query/query.go:699-703 | one row: intersect in place, then slice; only common uids, all of them unless the count cuts; when it panics |
| Pagination.ApplyPagination | query/query.go:693-707 | every row paged, the destination list the strictly increasing union of the pages; the assertion on the number of rows |
| BucketSort.SortByValue | worker/sort.go:201-211 | a permutation in value order, or the list as it is when a value cannot be read |
| BucketSort.WindowAppend | worker/sort.go:159-187 | what a further bucket adds to the window |
| BucketSort.WindowElements | worker/sort.go:159-187 | the window, element by element |
| BucketSort.FullStep | worker/sort.go:111-122 | the next bucket goes behind all earlier ones |
| BucketSort.StepRowExact | worker/sort.go:159-187 | skipping, cutting and copying turns the window of a prefix into the window of the longer prefix |
| BucketSort.RowDone | worker/sort.go:150-152 | a full row is not changed by the buckets that are left |
| BucketSort.RowFilledIff | worker/sort.go:190-196 | a row never exceeds the count, and is full exactly when the buckets read hold offset plus count of its uids |
| BucketSort.ReadBucket | worker/sort.go:154-157 | the index list cut to the row, or the panic |
| BucketSort.AppendSlack | worker/sort.go:170-187 | offset, slack and the copying loop |
| BucketSort.IntersectRow | worker/sort.go:148-188 | one row through one bucket |
| BucketSort.IntersectBucket | worker/sort.go:136-198 | all rows through one bucket; done exactly when every row is full |
| BucketSort.ProcessSort | worker/sort.go:92-129 | for every index, every row is the window of its buckets one behind the other; panics exactly when a bucket overruns a row that is not full yet |
| BucketSort.FullMembers | worker/sort.go:92-129 | the buckets of a row hold exactly its uids that are in some index list of the table |
| BucketSort.OnceIff | worker/sort.go:92-129 | every uid comes once if and only if none of the row is in two buckets |
| BucketSort.TwiceExample | worker/sort.go:92-129 | a uid with two tokens: the sort of it alone does not panic and gives it twice |
| BucketOrder.FullKeyed | worker/sort.go:92-129 | with one integer token per value the buckets are the uids with a value, by token and then by value |
| BucketOrder.WindowKeyed | worker/sort.go:92-198 | so every row is a window of its uids with a value in bucket order |
| BucketOrder.ValueSortedIff | worker/sort.go:92-129 | bucket order is value order if and only if the keys of the row have the same sign |
| BucketOrder.MixedSignExample | types/index.go:57-64 | an attribute with the values -1 and 1, its table and its index lists: the sort does not panic and puts the negative one last |
| IndexedSort.RunClean | posting/index.go:113-207 | no run puts an empty token in a table or a value under uid zero |
| IndexedSort.SortableAfterRun | posting/index.go:113-207 | after every run of legal mutations the index is as the bucket sort needs it |
| IndexedSort.SortAfterRun | worker/sort.go:92-198 | after every run of legal mutations every row of the sort is the window of its uids with a value, in value order if and only if the keys have the same sign |
| IndexedSort.OnceAfterRun | worker/sort.go:92-129 | after every run of legal mutations on any indexed attribute a sorted row lists each uid once if and only if no current value in it has two tokens |
| OrderedStore.WriteLaw | raftwal/wal.go:98-99 | a write batch acts key by key, the last operation on a key winning |
| OrderedStore.ScanExact | raftwal/wal.go:120-134 | seeking and walking a prefix gives exactly its pairs from the start key on |
| WalKeys.EntryKeyOrder | raftwal/wal.go:37-44 | entry keys order as (term, index) |
| WalKeys.EntryKeyLayout | raftwal/wal.go:37-44 | server, group, term and index read back from their bytes |
| WalKeys.TagKeyLayout | raftwal/wal.go:21-35 | tag, server and group of the other two keys read back from their bytes |
| WalKeys.EntryKeyPrefix | raftwal/wal.go:46-51 | an entry key has the prefix of its own group only |
| WalKeys.TagsApart | raftwal/wal.go:21-35 | snapshot and hard-state keys lie outside the prefix of any group whose id does not begin with a tag |
| WalKeys.TagsApartIff | raftwal/wal.go:21-35 | the range of a group is free of all snapshot and hard-state keys if and only if its id does not begin with a tag |
| Wal.StoredOwn | raftwal/wal.go:54-100 | what every entry key of the group holds after any batch in ascending order: puts first, then deletions of what the iterator saw |
| Wal.WrittenIff | raftwal/wal.go:87-96 | this is "put the batch, drop what is above its last key" on every log if and only if the last position is neither (0, 0) nor at the largest index |
| WalLaws.StoreRefines | raftwal/wal.go:54-100 | the set of entries of the group after any batch in ascending order |
| WalLaws.StoreFrames | raftwal/wal.go:54-100 | the entries of every other group stay |
| WalLaws.StoreTags | raftwal/wal.go:58-72 | snapshot and hard state change only for the group, and only when given |
| WalLaws.EntriesExact | raftwal/wal.go:120-134 | `Entries` returns exactly the log from the position on |
| WalRaft.StepExact | raftwal/wal.go:54-100 | what a batch in Raft order leaves of a store that holds the log and other entries: the new log, what it makes stale, and what survives |
| WalRaft.RaftExact | raftwal/wal.go:87-96 | after a batch with a proper last position that rewrites the tail the store holds the Raft log if and only if no overwritten entry, other than one written again, sorts below the last one written |
| WalRaft.StaleExample | raftwal/wal.go:87-96 | two entries of term 1, one rewritten in term 2: the old one stays |
| WalRaft.RunHolds | raftwal/wal.go:54-100 | what the store holds after any run of batches in Raft order |
| WalRaft.RaftRunExact | raftwal/wal.go:54-100 | if terms never go down, it is the Raft log if and only if no batch left a stale entry |
| WalRaft.CutOffLater | raftwal/wal.go:87-96 | if they do, a later batch can cut a stale entry off again |
| WalRaft.StoreRunExact | raftwal/wal.go:54-100 | the same for the store itself, with the batches of all groups interleaved |
| WalLaws.RunRefines | raftwal/wal.go:54-100 | over every run with the batches of all groups interleaved, the entries of each group are those of the run of its own batches |
| WalLaws.ExtendingRun | raftwal/wal.go:54-134 | in every such run in which a group's batches extend its log, `Entries` returns exactly the suffix of that log |
| WalServer.PutEntries | raftwal/wal.go:74-83 | the loop that queues the entries and remembers the last position |
| WalServer.DeleteFrom | raftwal/wal.go:87-96 | the iterator loop that queues the deletions |
| WalServer.WriteAheadLog.Store | raftwal/wal.go:54-100 | the store after the batch |
| WalServer.WriteAheadLog.Read | raftwal/wal.go:120-134 | the iterator loop of `Entries` |
| ShardSync.GenerateGroup | worker/predicate.go:69-91 | one key and checksum per pair, or an error exactly when a value does not parse |
| ShardSync.SearchKey | worker/predicate.go:172-186 | binary search in the follower's keys decides whether the follower has the key |
| ShardSync.PredicateData | worker/predicate.go:157-203 | the leader streams exactly the pairs that are needed, in order |
| ShardSync.WriteBatch | worker/predicate.go:36-67 | batching by weight writes every pair, except when all there is weighs nothing |
| ShardSync.StreamExact | worker/predicate.go:157-203 | a pair is streamed exactly when the follower lacks the key or has another checksum |
| ShardSync.PutAllLookup | worker/predicate.go:36-67 | written pairs win, everything else stays |
| ShardSync.PopulateShard | worker/predicate.go:95-153 | the follower's store and the count returned, for an exchange that is whole, whose stream fails, that is cancelled with a pair in hand, or whose batch cannot be written |
| ShardSync.SyncedLookup | worker/predicate.go:95-203 | afterwards every needed key holds the leader's bytes and every other follower key is unchanged |
| ShardSync.SyncedByDigest | worker/predicate.go:157-203 | the leader's bytes arrive under a key that the follower lacks or holds with another checksum, and the follower's bytes stay under one that it holds with the same checksum |
| ShardSync.CommittedSyncedIff | worker/predicate.go:182-185 | of committed lists the follower ends with the leader's if and only if it had it or the digests differ |
| ShardSync.LosslessIff | worker/predicate.go:36-67 | no streamed pair is lost if and only if the stream is not a single empty key with an empty value |
| ShardSync.LostExample | worker/predicate.go:36-67 | the empty key with no value, alone, is lost |
| ShardSync.NothingLost | worker/predicate.go:36-67 | nothing is lost from a leader without an empty key |
| ShardSync.SyncedKeyIff | worker/predicate.go:157-203 | under a leader key the follower ends with the leader's bytes if and only if it had them, had none, or had others with another checksum |
| ShardSync.UnseenUnsynced | worker/predicate.go:182-185 | lists that differ only in what the digest does not see: the exchange leaves the difference |
| ShardSync.BrokenThenSynced | worker/predicate.go:95-153 | after an exchange that breaks off in any of these ways the next whole one leaves what an unbroken one would have |
| ShardSync.SyncedTwice | worker/predicate.go:95-203 | a second exchange has nothing to send |

## Left out

- Eviction, reference counts and locking of posting lists: once opened, a list stays open until a restart.
- RocksDB: a map from keys to bytes, or a sorted list of pairs where the order of keys matters.
- gRPC, connection pools and the Raft library: group zero's log is a given sequence with increasing indices; leader election is not modelled.
- Lexers, channels and JSON variables: the filter parser takes a token sequence, fragment expansion takes parsed queries.
- Tokenisers, md5 and entry marshalling are parameters; geo functions are not modelled.
- The conversion of stored values to typed ones, and AfterUID in callers of `Uids`.
- Subgraphs and parsed queries are values in the model; the code updates them through pointers. Goroutines that process sub-filters run one after the other.
- `applyOrderAndPagination`: it sorts rows that filters have not been applied to and then cuts the destination list by them; only the sort itself is modelled. `algo.ApplyFilter` and `algo.IndexOf`, which it uses, go with it.
- `uid/assigner.go`, loaders, backup, HTTP handlers and output encoding.
- Other generated codecs: they repeat the proof for postings.
- CodecBuffers.UnmarshalPosting: unknown fields are skipped by a function, not by a loop of its own.
- CodecLaws.PostingRoundTrip: for encodings shorter than 2^63 bytes, the largest length Go can hold.
- CodecLaws.PostingListRoundTrip: for encodings shorter than 2^63 bytes.
- RuneKeys.UniqueKeyIff: for attributes that are valid UTF-8.
- Keys.KeysDisjoint: for attributes without separators.
- Lists.List.Run: the run ends at a commit that panics because no buffer can hold its message.
- IndexServer.Postings.Run: mutations are applied one at a time, as the Raft apply loop does; a run ends at a commit that panics.
- IndexLaws.IndexFollowsValues: values are non-empty and decodable, and uid edges are below the uid of values.
- BucketSort.ProcessSort: for scalar attributes and a positive count, as the code asserts.
- BucketSort.SortByValue: the sort of Go's library is replaced by an insertion sort; only order and permutation are used.
- WalLaws.StoreRefines: for batches in ascending order, as Raft hands them over, and group ids that do not begin with a tag.
- WalLaws.ExtendingRun: for indices below the largest 64-bit number.
- WalRaft.RaftExact: for batches with a last position that is neither (0, 0) nor at the largest index; WrittenIff says what that is for.
- WalRaft.RaftRunExact: for runs whose terms never go down, as Raft's do; CutOffLater shows what happens otherwise.
- ShardSync.SyncedByDigest: the one pair without key and value is excepted; LostExample shows why.
- ShardSync.PopulateShard: the key lists arrive complete, and pairs in order.
- ShardSync.BrokenThenSynced: for leaders without an empty key.
- MembershipServer.Groups.SyncMemberships: which server is asked, redirects and connection errors are left out.
