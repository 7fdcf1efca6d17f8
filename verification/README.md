# A model of dtn7-go: fragmentation, codecs, sessions, broadcast and routing state

dtn7-go is a node of a delay-tolerant network: it speaks the Bundle Protocol version 7
(draft-ietf-dtn-bpbis-31, later RFC 9171) and, between nodes, the TCP Convergence Layer version 4
(draft-ietf-dtn-tcpclv4-23, later RFC 9174). This project models the parts of it that carry the
hard guarantees and proves those guarantees for every input, every run and every reachable state.

* **Codec.** Endpoints, blocks and bundles are written to CBOR and read back, checksums included
  (`Bytes`, `Cbor`, `Endpoint`, `Blocks`, `Primary`, `BundleCodec`; the methods that stream them are
  in `Streams` and `BundleObject`). What is written is the layout of the specification (`WireBundle`),
  and for any octets `Checksums`, `Acceptance` and `Malformed` say what is read. Checksum functions,
  the clock's verdict and the registration of the spray block are parameters (`Env`), so everything
  holds for all of them.
* **Block list.** Sorting, adding and removing blocks by number (`BlockList`).
* **Fragmentation.** `Fragmentation` cuts, `Replication` says what each fragment carries, `Sizes` and
  `MtuBound` show that every fragment fits the MTU, `MtuExact` when exactly it does, `Reassembly`,
  `Coverage` and `RoundTrip` put fragments together again, `Limits` has the inputs on which the
  program does less.
* **Store.** `BundleKey`, `Storage`, `StorageRuns`, `StorageWhole` and `Parsed`: fragments and whole
  bundles arriving in any order.
* **Sessions.** Messages on the wire (`Messages`, `WireMessages`), setting up a session (`Handshake`),
  keepalive timing (`Keepalive`, `Stalls`), segmented and acknowledged transfers (`Transfer`,
  `TransferRuns` for what every run keeps, `TransferRefusals` for runs in which segments are refused,
  `TransferLiveness` for the length of runs, `TransferLimits` for the segment sizes and lengths on
  which they do less, `Interleaving`). `BoundedRuns`, `BoundedLiveness`, `BoundedLocks` and
  `BoundedExact` put the managers behind their session loops and channels of bounded capacity.
* **Broadcast.** Fragments with sequence numbers modulo 16 (`Broadcast`).
* **Routing.** Binary spray and wait as a token game (`Spray`), link-state merging (`Dtlsr`).

Code that updates fields or buffers step by step is modelled by classes and methods with loops,
each proved against a function of its inputs or of the old state; the properties are lemmas about
those functions, and runs of a protocol are sequences of such steps.

Where the code does something its documentation does not say, the model follows the code:

* The MTU bound does not hold for every valid bundle: a block number 0, which validity permits, can
  break it (`Limits.NumberZeroBreaksBound`). `MtuExact.FragmentsFitExactly` is the exact condition
  for a bundle and an MTU, and `MtuExact.BoundExactly` the one for a bundle's blocks, over every
  payload and MTU: renumbering them costs no more than their checksums are predicted too long. With a
  proper number in its place the same bundle meets every condition of the theorems on fragments and
  the store (`Limits.SampleIsSendable`).
* `Coverage.ReassemblableExactly` is the exact condition for reassembly. When one fragment lies
  inside another, a covering set can be refused, and an accepted set can run into a slice expression
  out of range (`Limits.ContainedFragmentRefused`, `Limits.ContainedFragmentPanics`).
* The break code that ends a bundle is recognised inside a block as well: in the place of one of the
  block's numbers or of its checksum it ends the bundle there, without the block
  (`Malformed.BreakInsideBlock`, `Malformed.BreakForChecksum`).
* A bundle that was created without a clock is only cut when its age block is marked for replication;
  otherwise fragments after the first would not be valid (`Replication.AgelessExactly`).
* `BundleItem.Load` is documented to load the complete bundle, but always reassembles, so it refuses
  an item that holds a whole bundle (`StorageRuns.WholeNeverLoads`).
* Names of part files are unique among fragments of one bundle, but a fragment can share its name
  with a whole bundle of another source (`BundleKey.FragmentAgainstWhole`, `BundleKey.KeysCollide`).
* END is only set on a segment shorter than the segment size, so a bundle whose length is a multiple
  of that size never ends at the receiver although Send succeeds: `TransferRuns.SendSucceeds` is the
  exact condition, `TransferLimits.FullBundleNeverEnds` gives the runs.
* The segment size is the one the peer announces. With 0 Send succeeds without sending anything
  (`TransferLimits.ZeroMtuSucceeds`); with more than a slice can have the first segment panics, and
  only then (`TransferLimits.CrashedExactly`). The theorems about runs are for all sizes between.
* Channels between a manager and its session loop hold 32 messages, and the loop is one goroutine for
  both directions: while it waits to hand a message to a full channel it does not read the other one.
  A manager that waits there with an acknowledgement, and its session loop that waits for the manager,
  wait for ever (`BoundedExact.LockIsForGood`); only timeouts, which are not modelled, end it. That
  can happen exactly when the bundles handed to Send make 66 segments or more, whoever sends them
  (`BoundedExact.StuckExactly`, with 2n + 2 for channels of n messages), so traffic in one direction
  is enough (`BoundedExact.OneWayGetsStuck`). With fewer segments left at any time, every Send
  succeeds (`BoundedLiveness.EndedMeansDone`). What every run keeps does not depend on capacities
  (`BoundedRuns.Refines`).
* A segment that announces more data than a slice can have panics the reader, and only such a one
  (`Messages.PanicsExactly`).
* A node ID of 65536 or more octets is cut when it is written (`Messages.MessageRoundTrip`).
* A loss of exactly 16 broadcast fragments in a row, or of a multiple of 16, goes unnoticed
  (`Broadcast.LossesSeen`), so of every transmission of 18 fragments or more a receiver can finish with
  a payload cut short (`Broadcast.SixteenLostUnnoticed`); whether that is handed up is then left to
  decompressing and parsing it (`Broadcast.HandsUpExactly`). A connector that does not send stops
  reading for good on the 65th failure report (`Broadcast.HearsExactly`). With a modem MTU of exactly
  the header size the sending loop does not end (`Broadcast.HeaderOnlyNeverEnds`).
* A peer that disappears without having appeared is not numbered (`Dtlsr.UnknownPeerDisappears`).
  `Dtlsr.AlwaysNumberedExactly` is the exact condition for the own peers being numbered throughout a
  run, `Dtlsr.OwnNumberedExactly` the one for its end, where a peer may have been numbered since.

## Model

| member | source | states |
|---|---|---|
| Endpoint.ParseDtnSsp | pkg/bpv7/endpoint_dtn.go:44-74 | every endpoint a dtn URI parses to is in normal form: no slash in the node name, no names in the null endpoint |
| Endpoint.UriRoundTrip | pkg/bpv7/endpoint.go:93-111 | printing a valid dtn or ipn endpoint and parsing the URI gives its normal form, so the endpoint itself exactly when it is in normal form |
| Endpoint.UriInjective | pkg/bpv7/endpoint.go:221-226 | two valid endpoints print alike exactly when their normal forms agree |
| Endpoint.EndpointRoundTrip | pkg/bpv7/endpoint.go:123-174 | a valid endpoint written to CBOR reads back as its normal form and leaves the following octets |
| Endpoint.IpnSspRoundTrip | pkg/bpv7/endpoint_ipn.go:28-53 | the printed node and service numbers of a valid ipn endpoint parse to it |
| Endpoint.SspRoundTrip | pkg/bpv7/endpoint_dtn.go:77-98 | the printed scheme specific part of a valid dtn endpoint parses to its normal form |
| Bytes.BigEndian | pkg/cla/tcpclv4/internal/msgs/xfer_segment.go:65-86 | a number is written with its most significant octet first, each octet its digit to base 256 |
| Blocks.ValueRoundTrip | pkg/bpv7/extension_block.go:130-177 | an extension block's value survives its octets exactly when its type is the one registered for its code and an endpoint inside is in normal form |
| Blocks.CrcFieldRoundTrip | pkg/bpv7/crc.go:51-77 | a checksum field over replayed octets is accepted and leaves the following octets |
| Blocks.BlockRoundTrip | pkg/bpv7/canonical_block.go:59-164 | a written canonical block reads back with at most its value changed, or fails exactly when its value does, and leaves the following octets |
| Blocks.BlockStartsWithArray | pkg/bpv7/bundle.go:314-323 | a written block never starts with the break code |
| Primary.PrimaryRoundTrip | pkg/bpv7/primary_block.go:99-242 | for all four layouts a written primary block reads back, endpoints in normal form, and leaves the following octets |
| Primary.ReadBackFixedPoint | pkg/bpv7/primary_block.go:167-242 | reading back changes nothing exactly for version 7, normal endpoints and, unless it is a fragment, zero offset and total |
| BundleCodec.BlocksRoundTrip | pkg/bpv7/bundle.go:314-323 | a list of written blocks and the break code read back block by block up to exactly there |
| BundleCodec.BundleRoundTrip | pkg/bpv7/bundle.go:282-326 | unmarshalling what was marshalled returns the bundle and leaves the following octets exactly for valid bundles in normal form |
| WireBundle.EndpointForm | pkg/bpv7/endpoint_dtn.go:153-161 | an endpoint is written as an array of scheme number and 0, its text, or two numbers, laid out as a tree of CBOR items with an encoder of its own |
| WireBundle.UriText | pkg/bpv7/endpoint_dtn.go:144-150 | the URIs of endpoints: dtn:none, dtn://node/demux, ipn:node.service |
| WireBundle.BlockForm | pkg/bpv7/canonical_block.go:59-97 | a block is written as the item list of type code, number, flags, checksum type and content, with the type codes and contents of the specification, and its checksum over all octets before it |
| WireBundle.PrimaryForm | pkg/bpv7/primary_block.go:99-164 | a primary block is written as the item list of version 7, flags, checksum type, three endpoints, timestamp, lifetime, the fragment fields exactly when the lowest flag is set, and its checksum |
| WireBundle.BundleForm | pkg/bpv7/bundle.go:282-302 | a bundle is written as an indefinite array of these lists in their order, closed by the break code |
| Checksums.BlockReadExactly | pkg/bpv7/canonical_block.go:100-162 | for any octets, a block is read exactly when it is an array of five items, or of six whose last is the two or four octets of the checksum over the array head and the items before it with zeros in its place |
| Checksums.PrimaryReadExactly | pkg/bpv7/primary_block.go:167-243 | the same for a primary block of eight or ten, or nine or eleven items |
| Checksums.BundleIntact | pkg/bpv7/bundle.go:305-326 | of a bundle read from any octets, the primary block and every other block was intact where it was read |
| Checksums.AlteredBlock | pkg/bpv7/canonical_block.go:148-160 | a written block with any octets in place of its checksum is read exactly when they are the same |
| Checksums.AlteredPrimary | pkg/bpv7/primary_block.go:229-240 | the same for a written primary block |
| Checksums.AlteredBundleExactly | pkg/bpv7/canonical_block.go:148-160 | a marshalled bundle with other octets in place of the checksum of any of its blocks is refused |
| Checksums.AlteredBundlePrimary | pkg/bpv7/primary_block.go:229-240 | and so is one with other octets in place of its primary block's |
| Acceptance.ValidExactly | pkg/bpv7/bundle.go:187-253 | the validity check is the conjunction of the specification's rules, over flag bits, type codes and the age block |
| Acceptance.AcceptedExactly | pkg/bpv7/bundle.go:305-326 | for any octets, a bundle is read exactly when they have its syntax and it follows those rules |
| Acceptance.ValidEndpointExactly | pkg/bpv7/endpoint_dtn.go:137-141 | which endpoints are valid, over the characters of their text |
| Malformed.EndpointArray | pkg/bpv7/endpoint.go:146-174 | an endpoint is read from an array of two with scheme 1 or 2 only |
| Malformed.DtnRead | pkg/bpv7/endpoint_dtn.go:163-192 | any number reads as the null endpoint, a text exactly when it is //node/demux |
| Malformed.PairsRead | pkg/bpv7/extension_block_hop_count.go:73-100 | hop counts and timestamps are arrays of two, hop counts of numbers below 256 |
| Malformed.ContentRead | pkg/bpv7/extension_block.go:153-177 | a block's content is read as its type code says, and kept for codes that are not registered |
| Malformed.PrimaryArray | pkg/bpv7/primary_block.go:174-190 | a primary block is an array of eight to eleven items that starts with version 7 |
| Malformed.FragmentFields | pkg/bpv7/primary_block.go:215-227 | fragment fields are read exactly from arrays of ten and eleven items, whatever the flags say |
| Malformed.BreakInsideBlock | pkg/bpv7/canonical_block.go:100-143 | a break code in the place of any of a block's four numbers ends the list of blocks as well and drops what was read of the block; in the place of its content it is an error |
| Malformed.BreakForChecksum | pkg/bpv7/canonical_block.go:148-152 | and in the place of a block's checksum it drops the whole block |
| Malformed.NoPrimaryNoBundle | pkg/bpv7/bundle.go:305-312 | octets without the array marker or a readable primary block are no bundle, a break code there included |
| BundleObject.MarshalBlock | pkg/bpv7/canonical_block.go:59-97 | the method succeeds exactly when the value marshals and the checksum type is known, and then appends exactly the block's octets; after an error what it wrote stays |
| BundleObject.MarshalPrimary | pkg/bpv7/primary_block.go:99-164 | the method succeeds exactly when the endpoints are valid and the checksum type is known, and then appends exactly the primary block's octets; after an error what it wrote stays |
| BundleObject.UnmarshalBlock | pkg/bpv7/canonical_block.go:100-164 | the method reads what the parsing function reads, moves the reader there and passes the break code on |
| BundleObject.UnmarshalPrimary | pkg/bpv7/primary_block.go:167-242 | the method reads what the parsing function reads and moves the reader there |
| BundleObject.UnmarshalBlocks | pkg/bpv7/bundle.go:314-323 | the reading loop gives the recursive reading of blocks |
| BundleObject.UnmarshalBundle | pkg/bpv7/bundle.go:305-326 | the method reads a bundle or fails as the parsing function does, validity check included |
| BundleObject.FindFreeNumber | pkg/bpv7/bundle.go:107-124 | the search ends, with the least number from its start on that no block has |
| BundleObject.BundleRef.SortBlocks | pkg/bpv7/bundle.go:95-97 | the blocks afterwards are sorted and a permutation |
| BundleObject.BundleRef.Swap | pkg/bpv7/canonical_block_sort.go:34-36 | two blocks change places and all others stay |
| BundleObject.BundleRef.AddExtensionBlock | pkg/bpv7/bundle.go:101-132 | the block is added under the least free number and the list is sorted; on a list in order that is the one place the number belongs |
| BundleObject.BundleRef.RemoveExtensionBlockByBlockNumber | pkg/bpv7/bundle.go:138-145 | the first block with the number is gone, all others stay in order |
| BundleObject.BundleRef.MarshalCbor | pkg/bpv7/bundle.go:282-302 | the method succeeds exactly when every block marshals, and then appends exactly the bundle's octets; after an error what it wrote stays |
| BlockList.SortedOrderIsUnique | pkg/bpv7/canonical_block_sort.go:23-31 | a list of blocks with distinct numbers has one sorted order, so an unstable sort does not matter |
| BlockList.AddKeepsNumbering | pkg/bpv7/bundle.go:101-132 | adding a block that is no payload keeps numbers distinct, extension blocks ascending from 2 and the payload last; the number is the least free one |
| BlockList.RemoveKeepsNumbering | pkg/bpv7/bundle.go:138-145 | removing a block that is no payload keeps the same |
| BlockList.RemoveUndoesAdd | pkg/bpv7/bundle.go:138-145 | removing the block just added gives back the list |
| BlockList.EditsKeepNumbering | pkg/bpv7/bundle.go:95-145 | any sequence of additions and removals keeps the numbering |
| Sizes.BundleBytesLen | pkg/bpv7/bundle.go:282-302 | the number of octets a bundle marshals to |
| Sizes.RenumberingIsCheapest | pkg/bpv7/bundle.go:107-124 | no n distinct numbers from 2 on have shorter CBOR heads than 2, ..., n + 1 |
| Fragmentation.PredictExtensionBlocks | pkg/bpv7/fragmentation.go:124-162 | the loop computes the predicted overhead of first and other fragments, or fails exactly when a block does not marshal |
| Fragmentation.CollectExtensionBlocks | pkg/bpv7/fragmentation.go:63-74 | the fragment gets exactly the blocks it carries, in their order, numbered 2, 3, ... |
| Fragmentation.CutPiece | pkg/bpv7/fragmentation.go:41-91 | one turn of the cutting loop yields the next fragment and its room, or the error |
| Fragmentation.Fragment | pkg/bpv7/fragmentation.go:17-98 | the method returns the list of fragments of the specification, every error case included; the cutting loop ends |
| Replication.FragmentsCarry | pkg/bpv7/fragmentation.go:60-80 | the fragments of any cut follow each other from the first octet to the last; the first has all extension blocks and every later one exactly those whose lowest flag is set, in order, with flags, checksum types and values; the primary block changes in its fragment fields only |
| Replication.ReplicatedExactly | pkg/bpv7/fragmentation.go:69 | a fragment after the first has an extension block's value exactly when the bundle's block has the lowest flag set |
| Replication.AgelessExactly | pkg/bpv7/fragmentation.go:82-90 | a bundle of creation time 0 that needs more than one fragment is cut exactly when its age block has the lowest flag set, and then all its fragments are valid |
| Replication.NotCut | pkg/bpv7/fragmentation.go:18-30 | what is refused, what gives no fragment, and that a single fragment is the bundle itself |
| Replication.CutWithRoom | pkg/bpv7/fragmentation.go:45-56 | with room everywhere a bundle with a creation time is cut, without room in the first fragment none is, and with room for everything it is handed back |
| Replication.OverheadExactly | pkg/bpv7/fragmentation.go:124-162 | the overhead in octets: those of the fragment without payload and with four-octet checksums, those by which a length head for the MTU is longer than an empty one, and behind the first fragment a replicated payload block once more |
| MtuBound.PieceSize | pkg/bpv7/fragmentation.go:41-91 | the exact number of octets of a fragment: MTU, less what is spare, plus what renumbering costs |
| MtuBound.PieceFits | pkg/bpv7/fragmentation.go:41-91 | a fragment fits the MTU exactly when renumbering costs no more than what is spare |
| MtuExact.FragmentsFitExactly | pkg/bpv7/fragmentation.go:17-98 | the fragments of a valid bundle all fit exactly when renumbering is affordable at every cut |
| MtuExact.SafeFits | pkg/bpv7/fragmentation.go:17-98 | for every MTU, the fragments of a bundle fit if it must not be fragmented, later fragments would lack the age block they need, or renumbering its blocks costs no more than their checksum slack |
| MtuExact.BoundExactly | pkg/bpv7/fragmentation.go:17-98 | that condition is exact: it holds for a bundle of at most 2^40 octets without its payload if and only if all fragments fit for every payload and every MTU |
| MtuExact.ProperIsSafe | pkg/bpv7/fragmentation.go:124-162 | extension blocks numbered from 2 on always meet that condition |
| MtuBound.WholeFits | pkg/bpv7/fragmentation.go:92-95 | a bundle handed back unchanged instead of a single fragment fits the MTU |
| MtuBound.FragmentsFit | pkg/bpv7/fragmentation.go:17-98 | for every valid bundle that is no fragment, with extension blocks numbered from 2 on, and every MTU, all bundles a successful Fragment returns marshal to at most MTU octets |
| Reassembly.SortFragments | pkg/bpv7/fragmentation.go:170-172 | the array is sorted by offset in place and a permutation |
| Reassembly.PrepareReassembly | pkg/bpv7/fragmentation.go:165-194 | after sorting in place the fragments are accepted exactly when each is flagged, has a payload, leaves no gap, and the last end is the total |
| Reassembly.AcceptedExactly | pkg/bpv7/fragmentation.go:165-194 | for any fragments, in any order: accepted exactly when there is one, each is flagged, has a payload and starts no later than the one before it ends, the first at 0, and the last ends at the total of the first |
| Reassembly.IsBundleReassemblable | pkg/bpv7/fragmentation.go:198-200 | the verdict is that of the preparation, and the array is left sorted |
| Reassembly.MergeFragmentPayload | pkg/bpv7/fragmentation.go:203-224 | the loop gives the merged data, the error, or the slice expression out of range |
| Reassembly.ReassembleFragments | pkg/bpv7/fragmentation.go:227-264 | the rebuilt bundle, the error or the panic, on the array sorted in place |
| Coverage.AcceptedCovers | pkg/bpv7/fragmentation.go:165-194 | accepted slices of one payload cover it, whatever ranges they have |
| Coverage.CoverIsAccepted | pkg/bpv7/fragmentation.go:165-194 | in offset order and with ends that never step back, slices are accepted exactly when they cover the payload |
| Coverage.MergeOfSlices | pkg/bpv7/fragmentation.go:203-224 | merging slices without gaps gives the payload up to the last end, or slices out of range as soon as an end steps back |
| Coverage.ReassemblableExactly | pkg/bpv7/fragmentation.go:165-224 | slices in offset order are accepted and merged into data exactly when they cover the payload and no end steps back, and the data is the payload |
| Coverage.CheckAndMerge | pkg/bpv7/fragmentation.go:165-224 | with no range inside another, on any order, reassemblable means coverage, and merging gives the payload |
| RoundTrip.PiecesAreCut | pkg/bpv7/fragmentation.go:41-91 | the fragments are those between strictly ascending cuts from the start to the end of the payload |
| RoundTrip.PieceIsValid | pkg/bpv7/fragmentation.go:82-90 | a fragment of a valid bundle is valid exactly when it still carries the age block a bundle without creation time needs |
| RoundTrip.RestoredExactly | pkg/bpv7/fragmentation.go:227-264 | the round trip is exact exactly for bundles without stray fragment fields and extension blocks numbered 2, 3, 4, ... |
| RoundTrip.RestoredContents | pkg/bpv7/fragmentation.go:227-264 | otherwise it changes block numbers only |
| RoundTrip.FragmentsReassemble | pkg/bpv7/fragmentation.go:17-264 | fragments of a valid bundle that is no fragment, in any order, sorted and reassembled, give the bundle up to numbering exactly when there are at least two |
| RoundTrip.ReassembleReceived | pkg/bpv7/fragmentation.go:227-264 | the method returns that bundle for any permutation of two or more fragments |
| Limits.ContainedFragmentPanics | pkg/bpv7/fragmentation.go:203-224 | [0,3), [1,2) and [2,4) of four octets are accepted, and merging slices out of range |
| Limits.ContainedFragmentRefused | pkg/bpv7/fragmentation.go:165-194 | [0,4) and [1,2) cover four octets and are refused |
| Limits.NumberZeroBreaksBound | pkg/bpv7/fragmentation.go:124-162 | a valid bundle with a block number 0 whose first fragment is one octet over the MTU |
| BundleKey.ScrubbedKeys | pkg/bpv7/bundle_id.go:32-62 | scrubbed identifiers print the same key exactly when source, up to normal form, and creation timestamp agree |
| BundleKey.FragmentKeys | pkg/bpv7/bundle_id.go:32-41 | fragments print the same key exactly when also offset and total agree |
| BundleKey.FragmentAgainstWhole | pkg/bpv7/bundle_id.go:32-41 | exactly when a fragment prints like a whole bundle |
| BundleKey.KeysCollide | pkg/storage/bundle_item.go:103-106 | a fragment and a whole bundle of different sources whose files have the same name |
| BundleKey.KeyText | pkg/bpv7/bundle_id.go:32-41 | the printed identifier: source, time, sequence number, and for a fragment offset and total, between dashes |
| Storage.Store.QueryId | pkg/storage/store.go:180-183 | the item under the scrubbed key, or an error |
| Storage.Store.StoreBundle | pkg/storage/bundle_item.go:72-78 | the part's file starts with the bundle and keeps what was behind; other files stay; a failing marshaller may leave octets in the file |
| Storage.Store.FindPart | pkg/storage/store.go:93-101 | whether a part with that offset and total is known |
| Storage.Store.Push | pkg/storage/store.go:72-127 | the whole new state: unknown bundles and new fragments are stored, everything else changes nothing; a failing marshaller leaves all items |
| Storage.Store.Delete | pkg/storage/store.go:139-159 | the item and the files of its parts are gone, everything else stays |
| Storage.Store.BundleParts | pkg/storage/bundle_item.go:33-41 | the parts in order, or an error if one does not load |
| Storage.Store.Load | pkg/storage/bundle_item.go:44-50 | the reassembly of the loaded parts in some sorted order, or an error |
| Storage.Store.IsComplete | pkg/storage/bundle_item.go:53-60 | true for a whole bundle, otherwise whether the parts load and are accepted |
| StorageRuns.RunRecords | pkg/storage/store.go:72-127 | after any run of pushes, with repeats and other bundles between, the item has exactly one part per distinct fragment pushed, in order of first arrival, and each file starts with its fragment |
| StorageRuns.CompleteExactly | pkg/storage/bundle_item.go:53-60 | parts of a tiled payload are accepted exactly when none is missing |
| StorageRuns.StoredOutcome | pkg/storage/bundle_item.go:44-60 | complete exactly when all fragments arrived, and then loading gives the bundle of the round trip |
| StorageRuns.StoreRun | pkg/storage/store.go:72-127 | the same for the methods on a new store |
| StorageRuns.DeleteUndoesPushes | pkg/storage/store.go:139-159 | deleting after any pushes of fragments gives back the store, files included |
| StorageRuns.WholeNeverLoads | pkg/storage/bundle_item.go:44-60 | a stored whole bundle counts as complete and its part loads, but reassembly refuses it |
| StorageWhole.WholeStays | pkg/storage/store.go:85-91 | once a whole bundle is stored, any run of pushes of that bundle, of fragments with its key and of bundles under other keys leaves its item, single part and file as they were and writes no file but those of other keys |
| StorageWhole.WholeAddsNothing | pkg/storage/store.go:119-125 | when the store has anything under a key, whole bundles of that key may be left out of any run of pushes |
| StorageWhole.WholeAfterFragments | pkg/storage/store.go:119-125 | so a whole bundle that comes after fragments of it adds nothing, whatever comes before and after |
| StorageWhole.NewPartExactly | pkg/storage/store.go:93-118 | a fragment is a new part exactly when no part has both its offset and its total length |
| StorageWhole.StoreWhole | pkg/storage/store.go:72-127 | the same for the methods on a new store |
| Messages.FieldsRoundTrip | pkg/cla/tcpclv4/internal/msgs/xfer_segment.go:65-127 | each fixed field reads back modulo the width it was written in |
| Messages.MessageRoundTrip | pkg/cla/tcpclv4/internal/msgs/message.go:36-66 | a message reads back and leaves the following octets exactly when its reason code is known and its node ID has fewer than 65536 octets |
| Messages.StreamRoundTrip | pkg/cla/tcpclv4/internal/msgs/message.go:49-66 | repeated reading of concatenated encodings gives exactly the messages and consumes every octet exactly when all are well-formed |
| Messages.SessInitRead | pkg/cla/tcpclv4/internal/msgs/sess_init.go:43-114 | a SESS_INIT reads back exactly when its node ID has fewer than 65536 octets |
| Messages.SegmentRoundTrip | pkg/cla/tcpclv4/internal/msgs/xfer_segment.go:65-127 | every XFER_SEGMENT reads back and leaves the following octets |
| Messages.PanicsExactly | pkg/cla/tcpclv4/internal/msgs/xfer_segment.go:104-119 | behind any list of extension items, reading a segment panics exactly when its data length is more than a slice can have |
| Messages.FixedRoundTrip | pkg/cla/tcpclv4/internal/msgs/xfer_refuse.go:88-117 | messages of fixed fields read back exactly when their reason code is known and fail otherwise |
| Messages.ContactRoundTrip | pkg/cla/tcpclv4/internal/msgs/contact_header.go:53-79 | every contact header reads back and leaves the following octets |
| WireMessages.WireForm | pkg/cla/tcpclv4/internal/msgs/message.go:20-34 | the octets of every message: its code, its fields in order and width, and what is behind them |
| WireMessages.ReadsOctets | pkg/cla/tcpclv4/internal/msgs/message.go:49-66 | those octets read as the message, or fail when its reason code is unknown |
| WireMessages.ExtendedSessInitRead | pkg/cla/tcpclv4/internal/msgs/sess_init.go:72-114 | a SESS_INIT with any extension items reads as the one without |
| WireMessages.ExtendedSegmentRead | pkg/cla/tcpclv4/internal/msgs/xfer_segment.go:88-127 | and so does a segment |
| WireMessages.OtherOctetsFail | pkg/cla/tcpclv4/internal/msgs/message.go:49-66 | octets with an unknown first one are no message; a contact header is six octets, five of them fixed |
| WireMessages.StreamEnds | pkg/cla/tcpclv4/internal/utils/message_switch_readerwriter.go:53-68 | behind any well-formed messages, which are all handed on, a connection ends regularly, with an error on unknown octets or reasons, and with a panic on a segment of more data than a slice can have |
| Messages.WriteFields | pkg/cla/tcpclv4/internal/msgs/sess_init.go:43-70 | the loop appends the fields' octets in order |
| Messages.Marshal | pkg/cla/tcpclv4/internal/msgs/xfer_segment.go:65-86 | the method appends exactly the message's octets |
| Messages.UnmarshalSessInit | pkg/cla/tcpclv4/internal/msgs/sess_init.go:72-114 | the method reads what the parsing function reads, an extension list skipped |
| Messages.UnmarshalSegment | pkg/cla/tcpclv4/internal/msgs/xfer_segment.go:88-127 | the method reads what the parsing function reads, an extension list skipped, or panics on a data length of 2^63 or more |
| Messages.UnmarshalBody | pkg/cla/tcpclv4/internal/msgs/xfer_ack.go:49-62 | the method reads what the parsing function reads for each message type |
| Messages.NextMessage | pkg/cla/tcpclv4/internal/msgs/message.go:49-66 | the method dispatches on the first octet as the parsing function does, panics included |
| Messages.ReadAll | pkg/cla/tcpclv4/internal/utils/message_switch_readerwriter.go:53-68 | reading a connection hands on every message before the first error or panic, and ends as the recursive reading of its stream does |
| Transfer.OutgoingTransfer.NextSegment | pkg/cla/tcpclv4/internal/utils/transfer_out.go:56-75 | the next segment takes at most MTU octets off the stream, START on the first, END on a short one; an error at the end, a panic for a size no slice can have |
| Transfer.IncomingTransfer.NextSegment | pkg/cla/tcpclv4/internal/utils/transfer_in.go:42-67 | an accepted segment's octets are appended and acknowledged with the new length; a refused one changes nothing |
| Transfer.TransferManager.HandleMessage | pkg/cla/tcpclv4/internal/utils/transfer_manager.go:77-131 | the whole new state and answer for each incoming message, unknown transfers and unexpected messages included |
| Transfer.TransferManager.HandleDataTransmission | pkg/cla/tcpclv4/internal/utils/transfer_manager.go:103-122 | the same for a segment: filed under its ID, ended transfers parsed and removed |
| Transfer.TransferManager.Send | pkg/cla/tcpclv4/internal/utils/transfer_manager.go:134-139 | the next ID is used up and a feedback channel registered under it |
| Transfer.TransferManager.SendSegment | pkg/cla/tcpclv4/internal/utils/transfer_manager.go:148-171 | one turn of the cutting goroutine: it stops when Send has failed, reports a closed manager, cuts, ends with the length, or panics |
| Transfer.TransferManager.ReceiveLength | pkg/cla/tcpclv4/internal/utils/transfer_manager.go:179-182 | Send takes the total length and returns if it equals the acknowledged one |
| Transfer.TransferManager.ReceiveError | pkg/cla/tcpclv4/internal/utils/transfer_manager.go:176-177 | Send takes the goroutine's error, fails and drops its feedback channel |
| Transfer.TransferManager.Close | pkg/cla/tcpclv4/internal/utils/transfer_manager.go:67-75 | the manager is stopped; only the first call succeeds |
| Transfer.TransferManager.ReceiveFeedback | pkg/cla/tcpclv4/internal/utils/transfer_manager.go:184-194 | Send takes an acknowledgement and returns if the lengths agree, or fails on a refusal |
| TransferRuns.RunKeeps | pkg/cla/tcpclv4/internal/utils/transfer_manager.go:77-202 | for segment sizes from 1 to the longest slice, in every run of two honest managers without timeouts every transfer of either direction keeps its invariant |
| TransferRuns.NothingLost | pkg/cla/tcpclv4/internal/utils/transfer_manager.go:77-202 | received, in-flight and unsent octets make up the bundle, and outstanding acknowledgements rise strictly to what was received |
| TransferRuns.NeverFails | pkg/cla/tcpclv4/internal/utils/transfer_manager.go:83-90 | no manager fails or panics, so no acknowledgement is for an unknown transfer |
| TransferRuns.DistinctIds | pkg/cla/tcpclv4/internal/utils/transfer_manager.go:134-135 | up to 2^64 transfers have distinct IDs |
| TransferRuns.SendSucceeds | pkg/cla/tcpclv4/internal/utils/transfer_manager.go:171-202 | when Send has succeeded the peer has buffered exactly the bundle, nothing is under way, and the peer's transfer has ended exactly when the length is no multiple of the segment size |
| TransferRuns.BundleArrives | pkg/cla/tcpclv4/internal/utils/transfer_in.go:70-78 | the bundle an ended transfer yields is the one that was sent |
| TransferRuns.QuietMeansDone | pkg/cla/tcpclv4/internal/utils/transfer_manager.go:134-202 | when nothing is under way and a call of Send can neither cut nor take anything, it has succeeded |
| TransferRefusals.OtherFeedbackFails | pkg/cla/tcpclv4/internal/utils/transfer_manager.go:191-193 | in any state, a call of Send that takes anything but an acknowledgement fails and drops its feedback channel, and nothing is sent |
| TransferRefusals.AcknowledgedExactly | pkg/cla/tcpclv4/internal/utils/transfer_manager.go:184-190 | one that takes an acknowledgement never fails, and succeeds exactly when that is for the length it has been told |
| TransferRefusals.FailedCutsNothing | pkg/cla/tcpclv4/internal/utils/transfer_manager.go:149-153 | the cutting goroutine of a failed call stops at its next turn without sending |
| TransferRefusals.RefusalIsFailure | pkg/cla/tcpclv4/internal/utils/transfer_manager.go:184-194 | in every run in which peers may refuse segments, a call that has taken a refusal stays failed and no further octet of it is cut |
| TransferRefusals.RefusedNeverSucceeds | pkg/cla/tcpclv4/internal/utils/transfer_manager.go:134-202 | in every such run, a call any octet of whose segments was refused never succeeds |
| TransferRefusals.LateAnswerEndsManager | pkg/cla/tcpclv4/internal/utils/transfer_manager.go:92-101 | an answer for a call that no longer listens, or a message of another kind, ends the manager |
| TransferLiveness.RunBounded | pkg/cla/tcpclv4/internal/utils/transfer_manager.go:134-202 | a run has, apart from its calls of Send, at most four steps for each octet handed to Send and two for each call, less the work still to do |
| BoundedRuns.Refines | pkg/cla/tcpclv4/internal/stages/sess_established.go:43-80 | every run with session loops and bounded channels is, for the managers and the messages between them, a run without; so all properties of states carry over |
| BoundedRuns.PlayKeeps | pkg/cla/tcpclv4/internal/stages/stage_handler.go:45-46 | in every run with bounded channels the managers keep their invariant, no channel holds more than it can and a session loop has one message in hand |
| BoundedLiveness.PlayBounded | pkg/cla/tcpclv4/internal/stages/sess_established.go:43-80 | a run with bounded channels has, apart from its calls of Send, at most twenty-four acts for each octet handed to Send and twelve for each call, less the effort that is left |
| BoundedLiveness.EndedMeansDone | pkg/cla/tcpclv4/internal/utils/transfer_manager.go:77-202 | from every state of every run with at most 2n + 1 segments and acknowledgements left, where n is what an exchange channel holds, every run on without new calls ends with every Send successful and nothing under way |
| BoundedLocks.LockStays | pkg/cla/tcpclv4/internal/stages/sess_established.go:111-127 | a session loop and a manager that wait for each other do so whatever else happens and is sent |
| BoundedExact.LockIsForGood | pkg/cla/tcpclv4/internal/utils/transfer_manager.go:108-112 | and the Send whose segment the manager holds never succeeds |
| BoundedExact.StuckExactly | pkg/cla/tcpclv4/internal/stages/sess_established.go:43-80 | for any bundles handed to both peers, some run ends with nothing possible and a Send pending if and only if the bundles are cut into 2n + 2 segments or more altogether |
| BoundedExact.OneWayGetsStuck | pkg/cla/tcpclv4/internal/utils/transfer_manager.go:108-112 | for every bundle longer than 2n + 1 segments, sent by one peer with no traffic back, there is such a run |
| TransferLimits.CrashedExactly | pkg/cla/tcpclv4/internal/utils/transfer_out.go:64 | for all segment sizes, a peer has panicked exactly when it has cut and its size is more than a slice can have |
| TransferLimits.FullBundleNeverEnds | pkg/cla/tcpclv4/internal/utils/transfer_out.go:65-71 | for every bundle there is a run with segments of its length in which Send succeeds, the peer has every octet and its transfer never ended |
| TransferLimits.ZeroMtuSucceeds | pkg/cla/tcpclv4/internal/utils/transfer_manager.go:173-189 | for every bundle there is a run with segment size 0 in which Send succeeds and nothing was sent |
| Interleaving.InterleavingIsProjection | pkg/cla/tcpclv4/internal/utils/transfer_manager.go:103-122 | in any interleaving a transfer's state and acknowledgements are those of its own segments alone |
| Interleaving.OwnSegments | pkg/cla/tcpclv4/internal/utils/transfer_in.go:42-67 | a transfer's octets are its segments' concatenation in order, its acknowledgements the running lengths |
| Handshake.Session.Send | pkg/cla/tcpclv4/internal/stages/contact.go:31-50 | a stage appends its message to the stream and moves on; the passive peer then negotiates |
| Handshake.Session.Receive | pkg/cla/tcpclv4/internal/stages/sess_init.go:57-71 | a stage takes the message it expects or breaks |
| Handshake.Session.Negotiate | pkg/cla/tcpclv4/internal/stages/sess_init.go:47-54 | the state gets the smaller keepalive, the other's limits and node ID, or breaks if that does not parse |
| Handshake.RunKeeps | pkg/cla/tcpclv4/internal/stages/stage_handler.go:59-94 | in every run, closes included, no stage breaks and the streams hold what was sent and not received |
| Handshake.FinishedAgrees | pkg/cla/tcpclv4/internal/stages/sess_init.go:22-55 | a peer that finishes has the smaller keepalive of both, the other's receive limits, contact flags and node ID |
| Handshake.NeverStuck | pkg/cla/tcpclv4/internal/stages/contact.go:20-67 | without a close either both peers have finished or one can go on |
| Handshake.EightEvents | pkg/cla/tcpclv4/internal/stages/stage_handler.go:59-94 | a run without a close has at most eight events |
| Keepalive.EstablishedStage.HandleKeepalive | pkg/cla/tcpclv4/internal/stages/sess_established.go:86-109 | a tick reports a stall, puts a KEEPALIVE into the outgoing channel or reschedules, as the two time stamps say |
| Keepalive.EstablishedStage.MessageOut | pkg/cla/tcpclv4/internal/stages/sess_established.go:74-79 | the message goes into the outgoing channel and sets the send time stamp; nothing else changes |
| Keepalive.EstablishedStage.HandleMsgIn | pkg/cla/tcpclv4/internal/stages/sess_established.go:111-127 | the receive time stamp is set; a second SESS_INIT fails, a SESS_TERM closes, a KEEPALIVE is dropped and everything else handed on |
| Keepalive.EstablishedStage.Receive | pkg/cla/tcpclv4/internal/stages/sess_established.go:53-57 | the turn for an incoming message, which answers a SESS_TERM |
| Keepalive.NeverStalls | pkg/cla/tcpclv4/internal/stages/sess_established.go:30-109 | with start skew plus delay below a sixteenth of the interval neither peer ever reports a stall |
| Keepalive.SendsAreClose | pkg/cla/tcpclv4/internal/stages/sess_established.go:86-109 | at every moment the last send is less than 15/16 of the interval ago, and every tick finds more than 1/16 left |
| Stalls.TickStallsExactly | pkg/cla/tcpclv4/internal/stages/sess_established.go:93-95 | a tick reports a stall exactly when more than the interval has passed since the last receipt |
| Stalls.SilenceIsNoticed | pkg/cla/tcpclv4/internal/stages/sess_established.go:86-109 | in every run of a peer that receives nothing after some time, whatever it sends: a stall is reported only after more than the interval, at the latest after one and a half and after 25 ticks, and until then the next tick comes |
| Broadcast.HeaderBits | pkg/cla/bbc/transmission_fragment.go:50-68 | sequence number, start, end and fail bit read back from the header octet |
| Broadcast.HeaderOctets | pkg/cla/bbc/transmission_fragment.go:50-68 | the two octets of a header: transmission ID, then number, start, end and fail bit |
| Broadcast.FragmentRoundTrip | pkg/cla/bbc/transmission_fragment.go:70-121 | a fragment's octets parse to it |
| Broadcast.OutgoingTransmission.WriteFragment | pkg/cla/bbc/transmission.go:155-177 | the next fragment and the whole state after it, an error when finished, or a panic for an MTU below the header size |
| Broadcast.WriteFragments | pkg/cla/bbc/connector.go:204-239 | the sending loop ends and writes exactly the transmission's fragments, or gives the error of an empty payload or the panic of an MTU below the header size |
| Broadcast.FirstOutcome | pkg/cla/bbc/transmission.go:135-177 | an empty payload is an error whatever the MTU, and an MTU below the header size panics for any other |
| Broadcast.HeaderOnlyNeverEnds | pkg/cla/bbc/transmission.go:155-177 | with an MTU of exactly the header size a fragment takes nothing off the payload and is never the last |
| Broadcast.FragmentsShape | pkg/cla/bbc/transmission.go:135-177 | consecutive numbers modulo 16, start on the first, end on the last, payloads within the limit that concatenate to the payload |
| Broadcast.FragmentsFit | pkg/cla/bbc/transmission.go:135-177 | for an MTU of at least 3 every fragment has at most MTU octets |
| Broadcast.IncomingTransmission.ReadFragment | pkg/cla/bbc/transmission.go:66-94 | a fragment in sequence is appended; any other one is refused and changes nothing |
| Broadcast.LossesSeen | pkg/cla/bbc/transmission.go:48-94 | a receiver accepts an in-order subsequence exactly when it has the first fragment and every gap is a multiple of 16 |
| Broadcast.FinishedIsWhole | pkg/cla/bbc/transmission.go:48-94 | with fewer than 16 lost in a row a receiver finishes exactly when nothing is missing, with exactly the payload |
| Broadcast.SixteenLostUnnoticed | pkg/cla/bbc/transmission_fragment.go:140-142 | of every transmission of 18 fragments or more, sixteen lost behind the first go unnoticed, and the receiver's transmission finishes with a shorter payload, which is then unpacked |
| Broadcast.Connector.HandleIncomingFragment | pkg/cla/bbc/connector.go:86-156 | the whole new map and what goes into the channels, for failure reports, new, known, refused and finished transmissions |
| Broadcast.ConnectorHolds | pkg/cla/bbc/connector.go:86-156 | after any stream of fragments a transmission is stored under an ID exactly when that ID's fragments end in an open run, unfinished and with exactly the run's octets |
| Broadcast.FailureReported | pkg/cla/bbc/transmission_fragment.go:124-126 | a failure report has the transmission's ID, the fragment's number, the fail bit and nothing else |
| Broadcast.ReportsExactly | pkg/cla/bbc/connector.go:86-156 | behind any stream, a fragment with the fail bit is reported to the sending side, and any other one answered by a failure report exactly when it neither starts nor continues the open run of its ID, or completes one that does not unpack |
| Broadcast.HandsUpExactly | pkg/cla/bbc/connector.go:86-156 | behind any stream it has read, a fragment the connector reads makes it hand up exactly the payload of the run it completes among its ID's fragments, if there is one and it unpacks |
| Broadcast.ListenerHolds | pkg/cla/bbc/connector.go:58-108 | however reading and the taking of failure reports interleave, the transmissions are those of the fragments read and exactly the reports not taken wait |
| Broadcast.HearsExactly | pkg/cla/bbc/connector.go:104-107 | the connector reads the next fragment exactly while no more than 64 failure reports wait for a Send |
| Broadcast.HandedUpAreComplete | pkg/cla/bbc/connector.go:86-156 | every payload handed up over a stream is that of a complete run of one ID, from a start bit to an end bit with consecutive numbers |
| Spray.BinarySpray.NotifyNewBundle | pkg/routing/algorithm_spray.go:270-305 | copies from the block, or all of them without one; other bundles stay |
| Spray.BinarySpray.SenderForBundle | pkg/routing/algorithm_spray.go:315-378 | half of the copies go to the first peer not known to have the bundle, none with fewer than two |
| Spray.BinarySpray.ReportFailure | pkg/routing/algorithm_spray.go:381-419 | the sum goes into the block, the copies stay, and the peer leaves the list once |
| Spray.WithoutFirst | pkg/routing/algorithm_spray.go:403-410 | the peer leaves the list of known ones where it stands first, and only there |
| Spray.ForwardHalves | pkg/routing/algorithm_spray.go:315-378 | a node with two copies or more and a new peer keeps the larger half and sends the smaller; otherwise it sends nothing |
| Spray.CopiesBounded | pkg/routing/algorithm_spray.go:270-419 | in every run copies held and travelling never exceed the multiplicity, and every holder keeps one |
| Spray.CopiesConserved | pkg/routing/algorithm_spray.go:270-378 | without failures, duplicates and garbage collection they are exactly the multiplicity |
| Spray.FewHolders | pkg/routing/algorithm_spray.go:315-378 | holders and travelling bundles together are at most as many as the multiplicity |
| Spray.ArriveKeeps | pkg/routing/processing.go:80-88 | a duplicate loses its copies and changes nothing else |
| Dtlsr.DTLSR.NewNode | pkg/routing/algorithm_dtlsr.go:373-393 | a new node gets the next number, a known one keeps its own; the two mappings stay inverse |
| Dtlsr.DTLSR.NotifyNewBundle | pkg/routing/algorithm_dtlsr.go:144-187 | data is kept if new or newer, all nodes named in kept data are numbered, numbers stay |
| Dtlsr.DTLSR.ReportPeerAppeared | pkg/routing/algorithm_dtlsr.go:303-333 | the peer is numbered and connected; the mappings stay inverse and complete, numbers stay |
| Dtlsr.DTLSR.ReportPeerDisappeared | pkg/routing/algorithm_dtlsr.go:335-363 | the peer gets its time stamp and no number, so every own peer is numbered afterwards exactly when all were and this one had a number |
| Dtlsr.KeptIsFirstNewest | pkg/routing/algorithm_dtlsr.go:158-187 | the record kept for an origin is the first to arrive among those with the largest timestamp |
| Dtlsr.OrderDoesNotMatter | pkg/bpv7/extension_block_dtlsr.go:31-35 | the same records in any order and repetition are merged alike when timestamps identify records |
| Dtlsr.OrderOfTwo | pkg/bpv7/extension_block_dtlsr.go:31-35 | two records are merged alike in either order exactly when they do not differ under the same origin and timestamp |
| Dtlsr.EventsMerge | pkg/routing/algorithm_dtlsr.go:144-187 | peers that appear and disappear between do not change what received data is merged to |
| Dtlsr.OwnNumberedExactly | pkg/routing/algorithm_dtlsr.go:303-363 | after any run of appearing and disappearing peers and received data, every own peer is numbered exactly when every peer that disappeared is |
| Dtlsr.AlwaysNumberedExactly | pkg/routing/algorithm_dtlsr.go:303-363 | throughout a run every own peer is numbered exactly when each peer that disappeared was numbered at that moment |
| Dtlsr.UnknownPeerDisappears | pkg/routing/algorithm_dtlsr.go:335-363 | a new node whose first event is another peer's disappearance has an own peer without a number |
| Dtlsr.OwnValues | pkg/routing/algorithm_dtlsr.go:303-363 | after any run, a node's own data has 0 for a peer that appeared last and the time for one that disappeared last |
| Dtlsr.OwnTimestamp | pkg/routing/algorithm_dtlsr.go:303-363 | and its timestamp is the time of the last such event |
| Dtlsr.HandleAll | pkg/routing/algorithm_dtlsr.go:144-363 | after any run of events the mappings are inverse, cover every origin and peer received, and the node knows exactly what the run says |

## Left out

- Fragmentation.Fragment: payloads of more than 2^53 octets, because the program takes a minimum in float64.
- Storage.Store.Load: parts beyond the lengths a Go program can hold; `Parsed.PartsSized` shows that files of at most 2^53 octets never give one.
- Blocks.ValueRoundTrip: extension blocks beyond the four built-in ones and binary spray, that is signature, DTLSR and PRoPHET blocks; the last two have no fixed encoding because map iteration order is random.
- BundleCodec.BundleRoundTrip: a generic block under a registered type code, on which the type assertion of the lifetime check panics; the model has such a bundle's lifetime as exceeded.
- MtuExact.BoundExactly: bundles that take more than 2^40 octets without their payload; `MtuExact.FragmentsFitExactly` and `MtuExact.SafeFits` have no such bound.
- Storage.Store.Push: expiration dates and properties of an item, and errors of the operating system.
- TransferRuns.RunKeeps: the ten-second timeout, runs in which a manager is closed, and senders of octets that are no bundle; `TransferRefusals` has the runs with refusals.
- BoundedRuns.PlayKeeps: keepalives among the messages of a session loop, the timeouts and the stall report that end a lock, and a client that does not take the bundles its manager hands out; the two message switches and the transport between them are one channel.
- Broadcast.HearsExactly: a modem that blocks, and a node that does not take the bundles the connector hands up.
- Handshake.RunKeeps: session extensions, and node IDs that do not parse or have 65536 or more octets, which the other side cannot accept.
- Keepalive.EstablishedStage.MessageOut: waiting for room in the channel, which `BoundedRuns` models; the same goes for `Keepalive.EstablishedStage.HandleMsgIn`.
- Keepalive.NeverStalls: handling times and late ticks.
- Spray.CopiesBounded: direct delivery to the destination, which the core tries before it consults the algorithm.
- Spray.BinarySpray.ReportFailure: races between reading and writing the metadata; each call is one step.
- Transfer.OutgoingTransfer.NextSegment: a segment size a slice can have but memory cannot, on which the program also ends; the same goes for lengths announced to `Messages.UnmarshalSegment`.
- Broadcast.WriteFragments: the call with an MTU of exactly the header size, which does not end (`Broadcast.HeaderOnlyNeverEnds`), and a failure report that arrives while the fragments are written.
- The cboring library is not part of the repository; its heads, strings and markers are modelled from RFC 8949, section 3.
- Checksum polynomials, SHA-256, xz and ed25519: checksums are arbitrary functions, a file's name is the text it is derived from, decompression is a parameter.
- The value of a checksum that blocks keep after marshalling or parsing, and JSON forms.
- Badgerhold: the database is a map, its files and transactions are not modelled.
- The wall clock in validity checks: whether a lifetime has passed is a parameter, fixed during a run.
- The sort package: the insertion sort it uses on short slices is modelled; orders are unique wherever a result depends on them.
- Shortest paths, purging and broadcasting of link states, PRoPHET, epidemic and vanilla spray routing, administrative records, the pipeline mockup, agents, discovery and configuration.
