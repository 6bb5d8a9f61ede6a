# transpeer: a Dafny model of the anchor package and the peer store

transpeer is a peer-discovery node. Nodes publish lists of peers, commit to the hash of a list inside
P2Pool shares through merge mining, and read back the lists that carried work. This project models the
parts of that system where a mistake is hard to see, and proves what they are for:

- **Merkle trees and the share codec** (`Merkle`, `MerkleTheorems`, `PathTheorems`, `AuxSlots`, `Varint`, `Wire`, `Share`,
  `ShareCodec`, `ShareTheorems`, `ShareRoundTrip`, `PlaceholderSlot`, `CanonicalShare`, `ShareAcceptance`,
  `ShareWork`, `MinerFields`). P2Pool's tree has a lopsided first step; two proof checkers and two root functions must agree
  on it for every leaf count. `build_share` makes its Merkle proof before it knows the leaf, and patches the
  root in afterwards. `ShareAcceptance` says which plainly written
  shares `parse_share` accepts and that it accepts nothing beyond but longer varints; `MinerFields`, what a
  miner may change without changing the id.
- **Header chains** (`Monero`, `Headers`, `HeadersTheorems`, `HeaderMeaning`, `Median`, `HeaderFetch`). A full
  verification samples proof-of-work, an incremental one checks every new row; over any run they build
  the same view.
- **The peer store** (`Transpeers`, `FloodWitness`, `QueryBatch`, `Rotation`, `PeerTrust`, `Handoff`). Admission and eviction
  by bucket, the tried table, the query rotation, the trust cap of a source and the hand-off reserve, for
  every random choice.
- **Streams and indexes** (`P2p`, `PeerList`, `Blob`, `BlobDb`, `Paging`, `RateLimit`, `ForkWalk`, `OneRoot`). Each is a
  stateful form that has to behave like a simple one: the whole stream, a plain map, a full log, a walk
  along parent links.

`Arithmetic`, `Bytes`, `Sequences` and `Sorting` hold what all of them use.

How the model is built:

- Hash functions are parameters and nothing is assumed about them. Soundness is stated as "the right
  leaf, or two different inputs with equal hash": both are taken from the finite sets of inputs that the
  computation at hand really hashes, since for a hash with fixed output length some collision always exists.
- Classes and loops of the source are classes and loops here, each proved against a function of the
  inputs or of the old state; the theorems are about those functions. Python exceptions and `None` become
  `None` of an `Option`, or a null object.
- Random draws and the order of ties between equal keys are left open: a method may choose in any way its
  contract allows, so results hold for every shuffle. Remote answers, clocks and the set of rows sampled
  for proof-of-work are parameters.
- An IPv4 address is a number where its bytes matter (`Blob`, `PeerList`); in the peer store an address is
  text and the bucket of an address is any function of it.
- The rate test of 0.8 is `5 * alive >= 4 * total`. The rate limiter's clock is a real number.

`prune` drops the root of every share it drops, so an index by root loses a share that stays if two shares
have one root (`ForkWalk.PruneKeepsIndexIff`). Over shares the parser accepted for one venue that takes a
collision among the inputs hashed for them, or two ids that were each hashed over the other
(`OneRoot.OneRootOneShare`); short of that every stored share is always found (`OneRoot.AlwaysFindable`).

Where a documented promise is wider than what the code does, the code is followed:

- `_pick_eviction` says a flood from one subnet only ever displaces itself. In a bucketed store
  without anchor reading it is the other way round: no newcomer displaces its own bucket
  (`Transpeers.NeverItself`), and each one admitted to a full store costs another bucket an entry.
  `Transpeers.DisplacesIff` says exactly when, with and without anchor reading; `Transpeers.FloodDisplaces`
  bounds the price of a whole flood at three entries for each flooding bucket, less what those buckets
  already hold, and `FloodWitness.FloodReached` reaches that bound.
- `index_since` says rows sharing a timestamp across a page boundary are not skipped. That holds on an
  unchanged database (`Paging.EveryRowOnce`). On one that grew, `Paging.GrowthDelivered` says exactly which
  rows arrive; a row added later with the cursor's own time and a smaller hash does not
  (`Paging.LateRowLost`, `Paging.LateRowExample`).
- `read_varint` refuses what `write_varint` wrote for values from 2^70 on (`Varint.RoundTrip`), and the packed
  tree parameters lose counts above 256 (`AuxSlots.TreeParamsRoundTrip`).
- `build_share` finds its own leaf by searching for a placeholder. If another chain's aux hash is that
  placeholder and its slot comes first, the proof may be another slot's. It still fits when the two slots
  are hashed together (`PlaceholderSlot.SiblingFits`), so always with two chains; it never fits when their
  proofs differ in length (`PlaceholderSlot.LopsidedRefused`, with fields for any three chains in
  `PlaceholderSlot.RefusedExample`). `ShareRoundTrip.RoundTripIff` has the condition for all inputs.
- `verify_merkle_proof` knows neither the leaf count nor the depth, so it also accepts inner nodes;
  `PathTheorems.PathSound` says what is accepted.

## Model

| member | source | states |
|---|---|---|
| `Varint.WriteVarint` | transpeer/anchor/varint.py:5-16 | Writes the canonical encoding; a negative number is refused. |
| `Varint.ReadVarint` | transpeer/anchor/varint.py:19-32 | Reads what the ten-byte decoder finds, with its two errors: truncated and too long. |
| `Varint.RoundTrip` | transpeer/anchor/varint.py:5-32 | A written varint, anywhere in a byte string, is read back exactly when it is below 2^70, and refused exactly otherwise. |
| `Varint.ReadBounds` | transpeer/anchor/varint.py:19-32 | A successful read is below 2^70 and took one to ten bytes. |
| `Merkle.Pow2Below` | transpeer/anchor/merkle.py:21-25 | The greatest power of two not above the count. |
| `Merkle.ComputePow2Below` | transpeer/anchor/merkle.py:21-25 | The shifting loop finds that power. |
| `Merkle.ComputeFirstLevel` | transpeer/anchor/merkle.py:36-40 | The lopsided step keeps the first 2*cnt-count leaves and pairs the rest. |
| `Merkle.MerkleTree` | transpeer/anchor/merkle.py:28-46 | All rows for every leaf count, with the leaf row twice when the count is a power of two above two. |
| `MerkleTheorems.TreeIs` | transpeer/anchor/merkle.py:28-51 | The rows of a tree on any leaves: each holds the hashed pairs of the one before, above the lopsided step, and the last is the root alone. |
| `Merkle.MerkleRoot` | transpeer/anchor/merkle.py:49-51 | The root, or nothing for no leaves. |
| `Merkle.MerkleProof` | transpeer/anchor/merkle.py:54-89 | On any rows: the siblings and path bitmap the loop reads off them, or nothing when the leaf is not there or the rows are too few or too short. |
| `Merkle.ProofInOwnTree` | transpeer/anchor/merkle.py:54-89 | On the rows of a list of leaves that is the proof and path of the first occurrence of the leaf, whatever the count. |
| `Merkle.VerifyMerkleProof` | transpeer/anchor/merkle.py:92-100 | Accepts exactly when folding the proof under the path bits gives the root. |
| `Merkle.PositionFromPath` | transpeer/anchor/merkle.py:103-118 | The loop computes the position function that PositionOfPath inverts. |
| `Merkle.RootFromProofByIndex` | transpeer/anchor/share.py:144-182 | The index and count checker. |
| `MerkleTheorems.IndexComplete` | transpeer/anchor/share.py:144-182 | For every leaf count and index the index checker rebuilds the root from the proof of the leaf. |
| `MerkleTheorems.IndexSound` | transpeer/anchor/share.py:144-187 | What the index checker takes to the root of a list is the leaf at that index with its own proof, or two hashed inputs that differ have equal hash; the index is in range and the proof length forced. |
| `MerkleTheorems.ProofLengthForced` | transpeer/anchor/share.py:144-182 | The index checker returns a root exactly for an index below the count and a proof of one particular length, at most d for up to 2^d leaves. |
| `MerkleTheorems.ProofIgnoresOwnLeaf` | transpeer/anchor/share.py:502-533 | The proof of a leaf does not depend on that leaf, so it can be made over a placeholder. |
| `MerkleTheorems.CheckersAgree` | transpeer/anchor/merkle.py:92-100 | Path checker and index checker compute the same root for every leaf, index, count and proof of the right length. |
| `MerkleTheorems.PathComplete` | transpeer/anchor/merkle.py:54-100 | The proof and path of a leaf that is present are accepted against the root, and exist exactly when it is present. |
| `PathTheorems.PathSound` | transpeer/anchor/merkle.py:92-100 | For any proof and any path: what the path checker takes to the root of a list is the leaf the path selects with its own proof, or for a shorter proof the inner node it selects at that depth with the siblings above it, or for a longer one there is a step of the check that hashed to that leaf; or a collision among hashed inputs is exhibited. |
| `PathTheorems.NodeSound` | transpeer/anchor/merkle.py:92-100 | In a perfect tree an accepted proof of any length is the siblings above the node its path selects that many steps below the root, and the value that node, or a collision is exhibited. |
| `PathTheorems.InnerNodeAccepted` | transpeer/anchor/merkle.py:92-100 | So the case of a shorter proof does occur: each inner node is accepted with the siblings above it. |
| `MerkleTheorems.PositionOfPath` | transpeer/anchor/merkle.py:103-118 | The position read from the path bitmap of an index is that index, for every leaf count. |
| `Monero.TreeHash` | transpeer/anchor/monero.py:132-153 | Monero's tree hash gives the same root as merkle_root on every list, though it starts from another power of two. |
| `Monero.RootFromHalf` | transpeer/anchor/monero.py:132-153 | The root may be computed from any power of two cnt with cnt < count <= 2*cnt. |
| `AuxSlots.NonceFrom` | transpeer/anchor/merkle.py:128-134 | The least nonce that puts every chain in a slot of its own; none is returned only if none below 2^32 does. |
| `AuxSlots.AuxSlotIs` | transpeer/anchor/merkle.py:121-125 | The slot on bytes: four of the SHA-256 digest of chain id, nonce and one letter, low byte first, modulo the number of chains; slot 0 for one chain. |
| `AuxSlots.FindAuxNonce` | transpeer/anchor/merkle.py:128-134 | The search loop finds that least nonce, or fails when there is none. |
| `AuxSlots.SlotsDistinct` | transpeer/anchor/merkle.py:121-134 | Under a separating nonce different chains have different slots. |
| `AuxSlots.IdsDistinct` | transpeer/anchor/merkle.py:128-134 | Only distinct chain ids can be separated. |
| `AuxSlots.SlotsOnto` | transpeer/anchor/merkle.py:121-134 | Under a separating nonce every slot is used. |
| `AuxSlots.EncodeTreeParams` | transpeer/anchor/merkle.py:137-141 | The loop picks the field width and packs width, count and nonce. |
| `AuxSlots.OrBits` | transpeer/anchor/merkle.py:137-141 | Each bit of a packed value is set exactly when it is set in one of the parts. |
| `AuxSlots.TreeParamsRoundTrip` | transpeer/anchor/merkle.py:137-149 | Packed parameters are read back exactly when there are at most 256 chains. |
| `Wire.Reader.Byte` | transpeer/anchor/share.py:85-90 | Moves the cursor over one byte, or fails at the end. |
| `Wire.Reader.Buf` | transpeer/anchor/share.py:96-101 | Moves the cursor over n bytes, or fails when fewer are left. |
| `Wire.Reader.VarInt` | transpeer/anchor/share.py:103-108 | Moves the cursor over a varint. |
| `ShareCodec.ReadSections` | transpeer/anchor/share.py:190-365 | Reads a share section by section, with the error conditions of each, and fills both dictionaries. |
| `ShareCodec.ParseShare` | transpeer/anchor/share.py:190-391 | The parser: sections, share id over the blanked copy, and the aux check by index. |
| `CanonicalShare.SectionsHold` | transpeer/anchor/share.py:190-365 | A byte string that reads as a share is never shorter than the plain encoding of its sections, aux items in order and padding included, and byte for byte that encoding when it is as long. |
| `ShareAcceptance.AcceptedReadable` | transpeer/anchor/share.py:190-365 | Whatever reads as a share is within the bounds of every field, and of the parts its writer may choose. |
| `ShareAcceptance.PlainRead` | transpeer/anchor/share.py:190-365 | Conversely the plain encoding of any sections within those bounds is read back as these sections. |
| `ShareAcceptance.AcceptedIff` | transpeer/anchor/share.py:190-391 | Such an encoding is accepted in a venue exactly when it is no longer than 131067 bytes and its proof takes the hash of its bytes with nonce, extra nonce and root zero to its root. |
| `ShareWork.WorkIs` | transpeer/anchor/share.py:377-379 | The hashing blob of an accepted share, read as a block header, gives the share's own header fields, the root over its coinbase and transactions, and their number. |
| `ShareWork.WorkCovers` | transpeer/anchor/share.py:377-379 | Two accepted shares with one hashing blob have every byte up to the end of the coinbase and all transaction hashes in common, or the inputs hashed for their roots collide; so proof-of-work for one is for that mainchain half alone. |
| `ShareWork.CoinbaseHashIs` | transpeer/anchor/monero.py:156-159 | The coinbase hash is the hash of 96 bytes: the hash of the prefix, of one zero byte, and 32 zeros. |
| `ShareWork.EqualRoots` | transpeer/anchor/merkle.py:28-51 | Two lists of one length with one root are equal, or two inputs of their trees collide. |
| `ShareAcceptance.AuxTaken` | transpeer/anchor/share.py:343-360 | The data of a foreign chain count as their first 32 bytes and the two varints that fill the rest, or as an empty hash without difficulty. |
| `ShareAcceptance.AuxWritten` | transpeer/anchor/share.py:343-360 | A hash and two varints are taken as they stand. |
| `MinerFields.NoncesFree` | transpeer/anchor/share.py:367-391 | A miner may change the four nonce bytes and the four extra-nonce bytes of an accepted share in any way: it is accepted again, with the same id and every other field the same but the hashing blob. |
| `MinerFields.IdFixes` | transpeer/anchor/share.py:367-371 | Two accepted shares of one venue with one id agree in every byte outside nonce, extra nonce and root, or the two inputs hashed for their ids collide. |
| `MinerFields.IdIs` | transpeer/anchor/share.py:367-371 | The id is the hash of the bytes with exactly those three ranges set to zero, and the consensus id. |
| `MinerFields.SectionsFree` | transpeer/anchor/share.py:190-365 | Changing only those ranges changes only those three fields, which are read from where the offsets say. |
| `ShareCodec.SerializeMainchain` | transpeer/anchor/share.py:407-456 | The mainchain half and the offsets of nonce, header end, extra nonce, root and coinbase end. |
| `ShareCodec.SerializeSidechain` | transpeer/anchor/share.py:459-483 | The sidechain half, aux items sorted by chain id. |
| `ShareCodec.BuildShare` | transpeer/anchor/share.py:486-538 | The builder: proof over a placeholder, draft with a zero root, id, root patched in. |
| `ShareRoundTrip.OffsetsMatch` | transpeer/anchor/share.py:407-456 | The offsets counted while writing are the positions the parser remembers. |
| `ShareRoundTrip.IdIgnoresRoot` | transpeer/anchor/share.py:516-538 | The id of the draft with a zero root is the id of the final share. |
| `ShareRoundTrip.LeafAt` | transpeer/anchor/share.py:502-510 | Under a separating nonce every chain's hash stands in its own slot. |
| `ShareRoundTrip.ClearMeansOwn` | transpeer/anchor/share.py:502-514 | If no aux hash in an earlier slot equals the placeholder, the proof found for the placeholder is this chain's own. |
| `ShareRoundTrip.AuxCheck` | transpeer/anchor/share.py:373-375 | The aux check of the parser passes on a built share when the proof is this chain's own, and otherwise only with an exhibited collision. |
| `ShareRoundTrip.RoundTrip` | transpeer/anchor/share.py:486-538 | parse(build(x)) succeeds and carries all fields of x, the id of the draft, the proof, and the root over the leaves with that id. |
| `ShareRoundTrip.RoundTripIff` | transpeer/anchor/share.py:486-538 | A built share comes back with its fields exactly when they are in bounds, it is not too long, and the first leaf equal to the placeholder stands in the own slot or in one with the same proof; otherwise not, unless hashed inputs collide. |
| `ShareRoundTrip.FitsMeansOwn` | transpeer/anchor/share.py:502-514 | That condition on the given aux hashes decides whether the proof found is the own slot's. |
| `PlaceholderSlot.FirstSlotIs` | transpeer/anchor/share.py:505-512 | The search stops at the first slot that is the own one or that of a chain whose aux hash is the placeholder. |
| `PlaceholderSlot.ClearIff` | transpeer/anchor/share.py:505-512 | It stops at the own slot exactly when every such chain stands behind it. |
| `PlaceholderSlot.SiblingFits` | transpeer/anchor/share.py:505-512 | A placeholder found in the leaf hashed together with the own one does no harm. |
| `PlaceholderSlot.LopsidedRefused` | transpeer/anchor/share.py:144-182 | When a slot the lopsided first step leaves alone holds it and the own slot is paired, the built share is refused, whatever the hash functions. |
| `PlaceholderSlot.TwoChainsFit` | transpeer/anchor/share.py:502-514 | With two chains the proof always fits. |
| `PlaceholderSlot.ThreeChains` | transpeer/anchor/share.py:486-538 | With three chains a built share in bounds is accepted exactly when no other chain in slot 0 has the placeholder as its aux hash. |
| `PlaceholderSlot.RefusedExample` | transpeer/anchor/share.py:486-538 | For any Keccak and SHA-256: fields in bounds for any three chains with a separating nonce that gives slot 0 to another chain, which are built and then refused. |
| `PlaceholderSlot.SomeChainFirst` | transpeer/anchor/merkle.py:121-134 | Of any three chains with a separating nonce one has slot 0, so the other two can be the building chain above. |
| `ShareRoundTrip.AcceptedMeansOwn` | transpeer/anchor/share.py:367-375 | A built share that the parser accepts has a proof of its own slot, or a collision is exhibited. |
| `ShareRoundTrip.ParsedWithinBounds` | transpeer/anchor/share.py:190-391 | Everything the parser accepts is within its bounds, and its proof takes its id to its root in the slot of its consensus id. |
| `ShareRoundTrip.BuildSucceeds` | transpeer/anchor/share.py:486-538 | With at most 256 chains building succeeds exactly when both nonces fit 32 bits and, if there are other chains, some aux nonce separates them. |
| `Headers.CheckShape` | transpeer/anchor/headers.py:106-118 | Accepts exactly contiguous rows that span the checkpoint and start early enough. |
| `Headers.CheckLinkage` | transpeer/anchor/headers.py:121-137 | Accepts exactly rows that parse, link by id and contain the checkpoint hash; returns timestamps and ids. |
| `Headers.CheckTimestamps` | transpeer/anchor/headers.py:140-148 | Accepts exactly rows not too far ahead and not below the median of the last sixty. |
| `Headers.CheckDifficulty` | transpeer/anchor/headers.py:151-167 | Accepts exactly rows of the difficulty that Monero's rule gives for the 735 before them; returns the cumulative sums. |
| `Headers.CheckPow` | transpeer/anchor/headers.py:181-200 | Accepts exactly when every row whose proof-of-work is required meets it. |
| `Headers.VerifyHeaders` | transpeer/anchor/headers.py:203-229 | The full check in the source's order accepts exactly when all deterministic rules, the required proofs and the freshness of the tip hold, and builds the view. |
| `Headers.Extend` | transpeer/anchor/headers.py:232-275 | The incremental check on a trusted view, row by row. |
| `HeaderMeaning.DeterministicIs` | transpeer/anchor/headers.py:106-167 | The deterministic rules hold exactly when the rows have consecutive heights from 2848 below the checkpoint or from genesis, each names the hash of the one before, the checkpoint hash is in place, times are within two hours and not below the median of the last sixty, each difficulty above the checkpoint follows from the 735 before it, and the tip is at most 1800 seconds old. |
| `HeaderMeaning.FullViewIff` | transpeer/anchor/headers.py:170-229 | A full check accepts exactly when those rules hold and proof-of-work is shown, under a seed block in view, by every row less than 735 below the checkpoint, by each of the last rows above it and by every sampled one there. |
| `HeaderMeaning.DifficultyFollows` | transpeer/anchor/headers.py:151-167 | Each difficulty above the checkpoint is the least that covers the work between the first and the last row kept of at most 720, at 120 seconds a block. |
| `HeaderMeaning.TimesRise` | transpeer/anchor/headers.py:140-148 | At most thirty of the sixty rows before a row have a later time. |
| `HeaderMeaning.ViewAt` | transpeer/anchor/headers.py:203-229 | Each row of a built view: id, time, difficulty and running sum. |
| `HeaderMeaning.ViewWorkIs` | transpeer/anchor/headers.py:73-80 | The work of a view is the sum of the difficulties above the checkpoint. |
| `HeaderMeaning.OldRowsBuyNothing` | transpeer/anchor/headers.py:73-80 | Two row lists that agree above the checkpoint have views of equal work, whatever they claim below it. |
| `HeaderMeaning.HistoryFixed` | transpeer/anchor/headers.py:121-137 | Two linked row lists that share one block id share every blob before it as far as both go, or two ids hashed for them collide. |
| `HeaderMeaning.CheckpointFixes` | transpeer/anchor/headers.py:121-137 | So any two accepted row lists carry the same block at every height up to the checkpoint, or a collision is exhibited. |
| `HeadersTheorems.SeedInView` | transpeer/anchor/headers.py:170-190 | Every row whose proof-of-work can be required has its seed block inside the view, whatever is sampled. |
| `HeadersTheorems.HistoryInView` | transpeer/anchor/headers.py:19-23 | Every row after the checkpoint has all 735 predecessors in view, or the view starts at the genesis block. |
| `HeadersTheorems.ExtendRowIff` | transpeer/anchor/headers.py:243-271 | One incremental step accepts exactly when the full rules and the proof-of-work hold for that row, and yields the view of the longer list. |
| `HeadersTheorems.ExtensionIff` | transpeer/anchor/headers.py:232-275 | An extension is accepted exactly when the deterministic rules accept the concatenated rows and every new row passes proof-of-work; the result is the view of the concatenation. |
| `HeadersTheorems.FullAfterExtension` | transpeer/anchor/headers.py:203-275 | After an accepted extension a full verification of all rows returns the same view. |
| `HeadersTheorems.RunIsFull` | transpeer/anchor/headers.py:203-275 | By induction over any number of extensions with a clock that does not run back, the view is the one a full verification builds. |
| `HeadersTheorems.ExtensionAddsWork` | transpeer/anchor/headers.py:73-79 | Each accepted extension raises the work of the view by at least its row count. |
| `Median.MedianInTheMiddle` | transpeer/anchor/headers.py:95-103 | At most half of the values are below the median and at most half above. |
| `Median.MedianIs` | transpeer/anchor/headers.py:95-103 | The middle of the sorted values, or the floor of the mean of the two in the middle. |
| `Monero.SeedHeightIs` | transpeer/anchor/monero.py:125-129 | The seed height is a multiple of 2048, zero up to 2112, and above that from 65 to 2112 blocks below the height. |
| `Monero.CheckHashIs` | transpeer/anchor/monero.py:207-210 | A hash meets a difficulty exactly when it has 32 bytes, the difficulty is positive and the hash is at most the quotient of 2^256 - 1 by it. |
| `Monero.CutIsMiddle` | transpeer/anchor/monero.py:222-227 | Of more than 600 sorted timestamps exactly 600 are kept, and as many are dropped below as above, or one more below; of fewer none is dropped. |
| `Monero.DifficultyIsLeast` | transpeer/anchor/monero.py:213-233 | The next difficulty is the least d with d * span >= work * 120, where span and work lie between the first and last of the middle 600 of the first 720 elements; refused without work, zero only on 128-bit overflow. |
| `HeaderFetch.FetchHeaderRange` | transpeer/anchor/reader.py:289-323 | Against any source: ends with nothing or a gapless range from the first height, none above the tip; from a source that serves a chain, all of it. |
| `HeaderFetch.FetchedShaped` | transpeer/anchor/reader.py:262-267 | A range fetched from the lookback that reaches the checkpoint has the shape the full check asks for. |
| `HeaderFetch.FetchedContinues` | transpeer/anchor/reader.py:250-256 | A range fetched from behind the stored tip has the heights an extension asks for. |
| `HeaderFetch.BestView` | transpeer/anchor/headers.py:278-281 | The view with the most work, and the least tip id among those. |
| `Transpeers.TranspeerStore.AddTranspeer` | transpeer/peerstore.py:605-657 | Refresh, refuse or admit, with the exact new store for every choice of victim the policy allows. |
| `Transpeers.AnnouncementKeeps` | transpeer/peerstore.py:618-636 | An announcement of a stored entry changes that entry alone: its last-seen never moves back, its uptime is kept when it came by gossip, and its networks when it lists none. |
| `Transpeers.NewcomerStored` | transpeer/peerstore.py:637-657 | A newcomer is stored as announced, first seen when it was last seen, or now. |
| `Transpeers.LeastSeenGoes` | transpeer/peerstore.py:659-690 | The entry that goes is least recently seen among those of its own kind, and never a faithful one while the pool has an unfaithful one under anchor reading. |
| `Transpeers.TranspeerStore.PickEviction` | transpeer/peerstore.py:659-690 | The victim is least recently seen in the part of the pool the flags select; none exactly when no bucket but the newcomer's is fullest. |
| `Transpeers.TranspeerStore.PickFullest` | transpeer/peerstore.py:681-689 | Any fullest bucket other than the newcomer's. |
| `Transpeers.TranspeerStore.MarkQueriedAt` | transpeer/peerstore.py:732-740 | Time, answer and answer count of one entry. |
| `Transpeers.QueryCounts` | transpeer/peerstore.py:732-740 | A query marks one entry, and only an answer counts towards the tried table. |
| `Transpeers.TranspeerStore.PruneStale` | transpeer/peerstore.py:528-533 | Drops exactly the entries not seen for three days. |
| `Transpeers.PruneKeeps` | transpeer/peerstore.py:528-533 | Exactly what was seen in the last three days stays, unchanged. |
| `Transpeers.StepKeepsCaps` | transpeer/peerstore.py:637-657 | Every operation of a bucketed store keeps at most 3 entries per bucket and 500 in all. |
| `Transpeers.RunKeepsCaps` | transpeer/peerstore.py:605-690 | So does every run of operations. |
| `Transpeers.StepBalances` | transpeer/peerstore.py:643-657 | Each operation of a flood loses at most as many entries outside the flooding buckets as it gains inside. |
| `Transpeers.FloodDisplaces` | transpeer/peerstore.py:605-690 | A run of newcomers from m buckets evicts at most 3m entries of other buckets in total, less those the flooding buckets held, whatever the other flags. |
| `Transpeers.DisplacesIff` | transpeer/peerstore.py:637-690 | An addition to a bucketed store costs another bucket an entry exactly when the newcomer is admitted to a full store and an entry elsewhere has to go; it costs its own bucket one exactly when all unfaithful entries of the pool are there. |
| `Transpeers.OtherGoesIff` | transpeer/peerstore.py:681-690 | Unless an unfaithful entry goes first, that is so exactly when the newcomer's bucket is not the only fullest one. |
| `Transpeers.NeverItself` | transpeer/peerstore.py:659-690 | Without anchor reading every entry lost to a newcomer is of another bucket. |
| `FloodWitness.FloodReached` | transpeer/peerstore.py:605-690 | The bound is reached: for up to 55 flooding buckets and any number of entries they hold, a run costs the others three for each bucket, less those held. |
| `Transpeers.TriedEvictedLast` | transpeer/peerstore.py:668-671 | An addition drops a tried entry only when all entries are tried. |
| `Transpeers.TriedNeverEvicted` | transpeer/peerstore.py:748-752 | No run of newcomers drops any tried entry as long as fewer than 500 are tried. |
| `Transpeers.TriedAfterTwo` | transpeer/peerstore.py:732-752 | Two answers make an entry tried, one does not. |
| `QueryBatch.RoundRobin` | transpeer/peerstore.py:716-730 | The loop with its inner break picks a prefix of the round-by-round order of the queues. |
| `QueryBatch.TranspeersForQuery` | transpeer/peerstore.py:698-730 | The batch of either policy, for some shuffle and some order of ties. |
| `QueryBatch.RoundRobinFair` | transpeer/peerstore.py:716-727 | At every moment picks from bucket A are at least min(size of A, picks from B minus 1). |
| `QueryBatch.PicksAreQueue` | transpeer/peerstore.py:716-727 | Picks from a bucket follow its queue. |
| `QueryBatch.InterleaveLists` | transpeer/peerstore.py:712-727 | The whole round robin lists every entry once. |
| `QueryBatch.BucketedBatchFair` | transpeer/peerstore.py:712-730 | The bucketed batch has min(limit, store size) distinct entries, is fair between any two buckets, and its picks from a bucket are a prefix of an oldest-queried order of it, for every shuffle. |
| `QueryBatch.FaithfulQueriedFirst` | transpeer/peerstore.py:707-730 | Under anchor reading either policy still fills the batch with distinct entries and takes an unfaithful one only after every faithful one. |
| `Rotation.QueryCycle` | transpeer/node.py:308-328 | One turn of the query loop on any clock: the oldest batch is marked and nothing else changes; it is a cycle of the rotation exactly when each mark is later than those of the entries passed over. |
| `Rotation.DefaultBatchOldest` | transpeer/peerstore.py:707-711 | The default batch is full, without repeats, and no entry left out was queried longer ago, however ties fall. |
| `Rotation.CycleAdvances` | transpeer/peerstore.py:707-711 | A cycle that passes over an entry moves a whole batch from ahead of it to behind it. |
| `Rotation.RotationReachesAll` | transpeer/peerstore.py:707-740 | In any cycles whose batches together could hold the store, so in ceil(n/limit), every entry is selected. |
| `PeerTrust.SourceTrust.RecordVerification` | transpeer/peerstore.py:151-155 | Counts one verification. |
| `PeerTrust.SourceTrust.MaybeExpand` | transpeer/peerstore.py:157-163 | Fifty more on a good rate over at least ten, then the counters start again. |
| `PeerTrust.SourceTrust.MaybeContract` | transpeer/peerstore.py:165-170 | Back to fifty on a bad rate over at least ten, then the counters start again. |
| `PeerTrust.CountersAfter` | transpeer/peerstore.py:340-362 | A verification raises its counter by one, or clears both when there were nine before; then the cap is fifty higher for a live peer and fifty for a dead one. |
| `PeerTrust.DeadRun` | transpeer/peerstore.py:151-170 | After ten dead verifications in a row the cap is 50 from whatever reachable state they start; until then it is 50 or unchanged. |
| `PeerTrust.FewDead` | transpeer/peerstore.py:165-170 | Nine of them from empty counters change no cap. |
| `PeerTrust.AliveRun` | transpeer/peerstore.py:151-163 | From empty counters every ten live verifications in a row raise the cap by exactly fifty, and fewer by nothing. |
| `PeerTrust.CountersSmall` | transpeer/peerstore.py:151-170 | In every reachable state the two counters add up to at most 44. |
| `PeerTrust.TenUncounted` | transpeer/peerstore.py:340-362 | They can reach ten without any change of the cap: nine dead verifications and then a live one, which only asks for an expansion. |
| `PeerTrust.TrustShared` | transpeer/peerstore.py:259-264 | Two sources share one record exactly when they are of one bucket, or with plain keys when they are the same address. |
| `PeerTrust.PeerStore.GetSourceTrust` | transpeer/peerstore.py:266-270 | The record of the trust key, made on first use. |
| `PeerTrust.PeerStore.AddPeer` | transpeer/peerstore.py:272-338 | Accepted exactly when new, not cooling down, its source below its cap and its network below 2000; the exact new peer, with what the transpeers say of its source, the trust table and nothing else. |
| `PeerTrust.AcceptedMeans` | transpeer/peerstore.py:272-338 | Off the cooldown list a report is accepted exactly when the peer is new, its network has less than 2000 peers and its source is the node itself or below its cap, which is 50 for a source not seen before. |
| `PeerTrust.DeadStaysOut` | transpeer/peerstore.py:280-292 | A peer on the cooldown list is refused for 1800 seconds and then treated as if it had never been there. |
| `PeerTrust.SourceKnownBy` | transpeer/peerstore.py:380-397 | A source counts as native or published exactly when some transpeer of its address says so. |
| `PeerTrust.PeerStore.Merge` | transpeer/peerstore.py:294-317 | The update of a stored peer, voucher sets included. |
| `PeerTrust.MergedMeans` | transpeer/peerstore.py:294-317 | Another report adds at most the bucket of its source to the vouchers, makes the count of sources their number and at least one, never moves last-seen back, and leaves origin and verification alone. |
| `PeerTrust.PeerStore.MarkVerified` | transpeer/peerstore.py:340-351 | The peer is verified and its source credited. |
| `PeerTrust.PeerStore.MarkDead` | transpeer/peerstore.py:353-378 | The source is charged; a verified peer gets a chance, another goes on the cooldown list. |
| `PeerTrust.PeerStore.PruneStale` | transpeer/peerstore.py:517-541 | Drops exactly stale peers and expired cooldowns. |
| `PeerTrust.VerifiedStaysPaid` | transpeer/peerstore.py:133-170 | Expansions, contractions and counter resets keep every expansion paid for by ten verifications, eight of them alive. |
| `PeerTrust.AcceptedBounded` | transpeer/peerstore.py:280-338 | Accepting a peer below its source's cap keeps the bound. |
| `PeerTrust.RecordBounded` | transpeer/peerstore.py:340-362 | So does recording a verification. |
| `PeerTrust.TrustBound` | transpeer/peerstore.py:133-170 | For each trust key: stored peers <= accepted <= 50 + 5V for V verifications recorded, and accepted <= 50 + 50*floor(A/8) for A alive ones; its cap is 50 + 50 times the expansions since its last contraction, and its counters add up to at most 44. |
| `Handoff.Represent` | transpeer/peerstore.py:439-496 | For every shuffle: head, picks, rest; at most reserve picks, each the best-ranked candidate with two vouchers for a bucket nobody before covers; under anchor reading published buckets come first; the count of unrepresented buckets. |
| `Handoff.ReserveKeeps` | transpeer/peerstore.py:439-496 | The hand-off list is a permutation of the ranking that keeps its head and the order of unpicked peers, and leaves no claimable bucket out while the reserve is not used up. |
| `Handoff.ReserveFits` | transpeer/peerstore.py:439-496 | The head is the ranking cut to top - reserve, head and picks together stay within top, and every pick has two vouchers. |
| `Handoff.TwoVouchersSuffice` | transpeer/peerstore.py:439-496 | A bucket that vouched for some peer with two vouchers is covered whenever no claimable bucket is left out. |
| `Handoff.ResultIsPermutation` | transpeer/peerstore.py:495-496 | Picks moved to the front leave the same peers, each once. |
| `P2p.FrameParser.TryTakeOne` | transpeer/anchor/p2p.py:222-264 | Takes one whole frame off the buffer, waits, or raises. |
| `P2p.TakeIs` | transpeer/anchor/p2p.py:222-264 | What the parser does on the bytes of any buffer, kind by kind: wait, refuse, or take exactly the frame of that length. |
| `P2p.FrameParser.Feed` | transpeer/anchor/p2p.py:212-220 | All whole frames in the buffer, or an error that leaves what was taken before it. |
| `P2p.ChunkingIrrelevant` | transpeer/anchor/p2p.py:205-264 | For every stream and every split, feeding chunks raises exactly when feeding the whole does, and otherwise returns the same messages and leaves the same buffer. |
| `P2p.TakeAllAppend` | transpeer/anchor/p2p.py:212-264 | Later bytes never change what earlier bytes gave. |
| `P2p.NothingLost` | transpeer/anchor/p2p.py:212-264 | The frames taken and the buffer are the input. |
| `P2p.ResidueShort` | transpeer/anchor/p2p.py:222-264 | The buffer is always shorter than 5 + MAX_BLOCK_SIZE. |
| `P2p.ParseFrames` | transpeer/anchor/p2p.py:205-264 | Parsing concatenated well-formed frames gives the messages back and leaves nothing. |
| `P2p.EncodersWriteFrames` | transpeer/anchor/p2p.py:68-97 | Each encoder writes one well-formed frame, a block up to MAX_BLOCK_SIZE; a larger block response is written but refused. |
| `P2p.ListenPortIs` | transpeer/anchor/p2p.py:78-79 | A port goes out as four bytes of two's complement, low byte first. |
| `PeerList.PeerListFramed` | transpeer/anchor/p2p.py:119-139 | An encoded peer list is one well-formed frame, which the frame parser takes whole. |
| `PeerList.EncodePeerList` | transpeer/anchor/p2p.py:119-139 | The version entry takes the first slot and the list is cut to the room left. |
| `PeerList.EntryLayout` | transpeer/anchor/p2p.py:100-116 | The nineteen bytes of an entry, for either kind of address. |
| `PeerList.SeenIs` | transpeer/anchor/p2p.py:142-176 | Which peers come back, and as what, by the octets of their addresses. |
| `PeerList.DecodePeerList` | transpeer/anchor/p2p.py:142-176 | Entries are skipped, downgraded to IPv4 or taken as the decoder says. |
| `PeerList.VersionSkipped` | transpeer/anchor/p2p.py:105-111 | The version pseudo-peer is never taken for a peer. |
| `PeerList.DecodeEncoded` | transpeer/anchor/p2p.py:119-176 | Decoding an encoded list gives exactly the peers that fit and are meant to be seen. |
| `PeerList.ListBackIff` | transpeer/anchor/p2p.py:119-176 | A list comes back unchanged exactly when it fits and each peer is seen as it is. |
| `Blob.ValidateEntries` | transpeer/anchor/blob.py:50-68 | Between 1 and 64 acceptable, distinct entries, sorted. |
| `Blob.ValidIff` | transpeer/anchor/blob.py:50-68 | A list is acceptable exactly when it has 1 to 64 entries, each acceptable, no two equal. |
| `Blob.ReservedIs` | transpeer/anchor/blob.py:16-21 | The reserved addresses by their octets. |
| `Blob.EncodeBlob` | transpeer/anchor/blob.py:71-89 | The canonical bytes, or one of the errors. |
| `Blob.EncodesIff` | transpeer/anchor/blob.py:71-89 | A blob is written exactly for a name of 1 to 255 bytes, a 64-bit period and an acceptable list; the size limit never gets in the way. |
| `Blob.BlobLayout` | transpeer/anchor/blob.py:71-89 | Every byte of a written blob, entry by entry in ascending order. |
| `Blob.DecodeBlob` | transpeer/anchor/blob.py:92-120 | The decoder with each of its errors. |
| `Blob.DecodeEncode` | transpeer/anchor/blob.py:71-120 | Decoding an encoded blob gives the chain, the period and the sorted entries. |
| `Blob.EncodeDecode` | transpeer/anchor/blob.py:71-120 | Every accepted byte string is the encoding of what it decodes to. |
| `Blob.EncodeIgnoresOrder` | transpeer/anchor/blob.py:50-89 | The same entries in any order make the same blob. |
| `Blob.BodyRestores` | transpeer/anchor/blob.py:127-135 | Restoring the period of a body gives the blob back. |
| `Blob.BodyIgnoresPeriod` | transpeer/anchor/blob.py:132-135 | Blobs that differ only in the period have one body. |
| `BlobDb.BlobDB.Add` | transpeer/anchor/blobdb.py:59-77 | Accepted exactly for the right hash, a known kind and a decodable blob; bodies, rows, order, entries and commitments afterwards. |
| `BlobDb.CommittedOnce` | transpeer/anchor/blobdb.py:75-77 | A row keeps each commitment once, in order of arrival. |
| `BlobDb.BlobDB.Get` | transpeer/anchor/blobdb.py:79-83 | Returns exactly the bytes added under the hash, which hash to it, unless the body kept and the body added are two inputs with one hash. |
| `BlobDb.RefinesAdded` | transpeer/anchor/blobdb.py:67-74 | Storing a blob by body and period refines storing its bytes in a plain map; the entry set is the union over stored blobs. |
| `BlobDb.RestoresOrCollides` | transpeer/anchor/blobdb.py:79-83 | A row restores its blob, or a collision of bodies is exhibited. |
| `BlobDb.BlobDB.FromJson` | transpeer/anchor/blobdb.py:131-141 | Loads rows in order and collects their entries; fails exactly when a row cannot be rebuilt or decoded. |
| `BlobDb.LoadAfterSave` | transpeer/anchor/blobdb.py:117-141 | Saved rows load as the same rows in the same order with the same entry set. |
| `BlobDb.BlobDB.Reload` | transpeer/anchor/blobdb.py:117-141 | Saving and loading gives the same store, as long as no two bodies collide. |
| `Paging.CursorTable.Gossip` | transpeer/anchor/reader.py:538-563 | One gossip call is one step of following the cursor and leaves other cursors alone. |
| `Paging.PendingAdvances` | transpeer/anchor/blobdb.py:96-106 | What is pending at the cursor of the m-th pending row is what stood behind it, equal times included. |
| `Paging.FollowIsPrefix` | transpeer/server.py:268-289 | From any cursor, page limit and pattern of failed calls, the rows processed are a prefix of what was pending: none skipped, none twice. |
| `Paging.EveryRowOnce` | transpeer/anchor/blobdb.py:96-106 | Enough pages from the start give every row with a positive time exactly once, sorted. |
| `Paging.DeliveredIff` | transpeer/anchor/blobdb.py:96-106 | From any cursor enough calls deliver exactly the rows after it. |
| `Paging.CursorLeft` | transpeer/server.py:268-289 | A run leaves the cursor of its last row, and what is pending there is what it had not processed yet. |
| `Paging.GrowthDelivered` | transpeer/anchor/blobdb.py:96-106 | On a database that grew between two runs a row is processed by the second exactly when it stands after the cursor the first left, never by both, and by neither exactly when it is new and not after it. |
| `Paging.LateRowLost` | transpeer/anchor/blobdb.py:96-106 | A row added later with the time of the last row processed and a smaller hash is never delivered. |
| `Paging.LateRowExample` | transpeer/anchor/blobdb.py:96-106 | Two concrete rows of one second, the second of which is lost. |
| `Paging.StoreRowsApart` | transpeer/anchor/blobdb.py:96-106 | The rows of a store have different hashes, as the paging theorems ask. |
| `RateLimit.Limiter.Check` | transpeer/server.py:94-109 | The exact decision and new table on any clock; while the clock has not run backwards, the pruned table decides as the full log of allowed requests would. |
| `RateLimit.WindowBound` | transpeer/server.py:94-109 | Every half-open window of 60 seconds holds at most 60 allowed requests of an address. |
| `RateLimit.TablePruned` | transpeer/server.py:104-108 | Dropping expired addresses changes no later decision. |
| `RateLimit.TableSmall` | transpeer/server.py:94-109 | After an allowed request the table has at most 240 addresses, or only addresses seen in the last minute. |
| `ForkWalk.ShareStore.Add` | transpeer/anchor/stores.py:127-135 | Files a share under its id and root, once. |
| `ForkWalk.ShareStore.WalkFrom` | transpeer/anchor/stores.py:148-157 | The chain along parent links. |
| `ForkWalk.ShareStore.ByRoot` | transpeer/anchor/stores.py:144-146 | A stored share with that root, whenever the index has the root. |
| `ForkWalk.ShareStore.Prune` | transpeer/anchor/stores.py:164-171 | Drops exactly the shares below the cutoff and the index entries of their roots. |
| `ForkWalk.PruneKeepsIndexIff` | transpeer/anchor/stores.py:164-171 | Pruning leaves every stored share findable by root exactly when no share that stays has the root of one that goes. |
| `ForkWalk.PruneLosesRoot` | transpeer/anchor/stores.py:164-171 | Of two records with one root the newer stays and its root leaves the index. |
| `ForkWalk.DistinctRootsKept` | transpeer/anchor/stores.py:164-171 | With a root of its own for each share, pruning loses none. |
| `OneRoot.FoldsMeet` | transpeer/anchor/merkle.py:92-100 | Two proofs folded to one root have the same leaf and the same elements, or two hashed inputs collide, or one leaf is a hash of the other fold, or each fold reaches a value that is an element of the other proof. |
| `OneRoot.OneRootOneShare` | transpeer/anchor/share.py:190-391 | Two byte strings the parser accepts in one venue with one merge-mining root have the same id and proof, unless two inputs hashed for them collide or each id was hashed over the other. |
| `OneRoot.AddReceived` | transpeer/node.py:518-530 | Bytes received are filed under their id and root exactly when the parser accepts them, their proof-of-work holds and the id is new. |
| `OneRoot.PruneKeepsFindable` | transpeer/anchor/stores.py:164-171 | When every stored share is the one its root leads to, pruning keeps it so. |
| `OneRoot.AlwaysFindable` | transpeer/anchor/stores.py:127-171 | For any bytes received and any prunes in between, every stored share is found by its root, or two of the byte strings received are entangled in one of these two ways. |
| `OneRoot.EntangledLosesShare` | transpeer/anchor/stores.py:164-171 | What such a pair does: pruning the older share hides the newer one. |
| `ForkWalk.WalkLinks` | transpeer/anchor/stores.py:148-157 | A walk is parent-linked from its start, and its i-th share is i links up. |
| `ForkWalk.BatchAddsAncestors` | transpeer/anchor/reader.py:441-466 | Every share a batch adds is an ancestor of the requested parent, for any batch without a conflicting share. |
| `ForkWalk.BatchTaken` | transpeer/anchor/reader.py:441-466 | What a batch leaves in the store: its longest part from the start in which each share parses, is the one asked for or the parent named before it and is one lower, cut at the room left. |
| `ForkWalk.BatchLengthens` | transpeer/anchor/reader.py:441-470 | A batch lengthens the walk by what it added. |
| `ForkWalk.CanonicalFork` | transpeer/anchor/reader.py:424-472 | Against any answers it ends, and the chain is the walk on the final store. It asks only for parents that were missing, and it stops short of the window at a non-zero missing parent only with its requests used up or after each source had nothing for that parent. When every source pages out one parent-linked line from the tip, the chain is that line, up to the window. Every added share is an ancestor of the tip, a window's worth at most; or among the requests made, an item the loop took has the id of a stored share and another parent. |

## Left out

- The bodies of Keccak, SHA-256, BLAKE2b, RandomX and EquiX: functions of the right result length, or predicates.
- Networking, asyncio and locks: one atomic step for each locked method, remote answers as arguments.
- SQLite and file persistence, `save` and `load` of the stores; the hex and JSON text around `to_json`.
- Text: parsing of addresses, UTF-8 (a predicate), hex, wallet strings (two keys), checkpoint strings.
- Objects shared by reference: peers and transpeer entries are values in a map, so a caller that keeps an entry and
  changes it is not modelled. Only the trust records are shared objects.
- `parse_block_blob`, `build_block_blob`, `hashing_blob` and the merge-mining tag of a Monero coinbase.
- Aux hashes of another length than 32 bytes in `build_share`, and the `seed_hash_for` override of header checks.
- Gossip sampling, scanner pacing, `LoadTracker`, `coverage`, the weights of published blobs, and candidates.
- `get_peers` up to the call of the reserve: its sort by rank is one call of `sorted`.
- The reader's other steps, and the branches of `_fetch_header_range` that no page can reach.
- Transpeers.TranspeerStore.AddTranspeer: which of several least recently seen entries goes is open, where the source takes the first in dictionary order.
- Transpeers.TranspeerStore.PickEviction: the same tie between equally old entries is open.
- PeerTrust.PeerStore.AddPeer: a reported peer carries no source address of its own.
- Paging.CursorTable.Gossip: a call in which some row fails counts as one that processed nothing; in the source its other rows are processed all the same, and those stored are skipped when the page is asked for again.
- RateLimit.WindowBound: the bound is for a clock that has never run backwards; after a step back the table decides by the times it still holds.
- Rotation.RotationReachesAll: the marks of each cycle are later than those of the entries it passes over; with whole-second clocks and shorter cycles an entry can wait longer.
- ForkWalk.CanonicalFork: one venue; whether a share parses, has a known seed and passes proof-of-work is part of the answer.
- ShareAcceptance.PlainRead: varints as short as they can be; that longer ones are accepted too is in `Varint.ReadVarint`, not restated for whole shares.
- BlobDb.BlobDB.FromJson: keys are 32 bytes long, as `to_json` writes them.
