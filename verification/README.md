# CloakCoin: models and proofs

This project models the parts of CloakCoin whose correctness is hardest to see from the code, and proves
what they are meant to do. `dafny verify dfyconfig.toml` checks everything.

| files | what they model |
|---|---|
| `AddrTables`, `TriedShuffle`, `AddrChanges`, `AddrMan`, `AddrCheck` | the peer address manager: six redundant indexes updated in place, its invariant, and its own consistency check |
| `PeersFile`, `PeersRebuild` | the peers file that stores part of the manager and rebuilds the rest |
| `Keccak`, `KeccakFast`, `KeccakPermutation`, `KeccakSponge`, `KeccakHash` | Keccak: FIPS 202 on bits; the fast in-place permutation with complemented and renamed lanes; the incremental hash |
| `FugueSpec`, `Fugue`, `FugueFinal`, `FugueHash` | Fugue-512: the eager form that rotates its state, and the code that never does |
| `BlakeSpec`, `Blake`, `BlakeHash` | BLAKE-512/384: padding, the split 128-bit counter, the incremental hash |
| `StakeInterval`, `StakeSelect`, `StakeModifier`, `StakeChain`, `StakeHistory` | the proof-of-stake modifier of one block, of a kernel and of whole chains |
| `BlockTree`, `Checkpoints` | synchronized checkpoints over a growing block tree |
| `Radix`, `BigNum`, `Compact`, `Base58`, `Base58Code` | base58 text, big-number bytes, compact targets, checksummed data, secrets |
| `PageCounts`, `LockedPages` | counted page locks over an operating system whose locks do not stack |
| `Arithmetic`, `Binary`, `BitStrings`, `Ordering`, `Sequences` | tools |

Conventions. Objects that the source updates in place are classes with the source's fields; loops are
loops. Hash functions, the compression function of BLAKE, the substitution of Fugue and the network group of
an address are function-valued parameters, so every result holds for all of them. A random draw is an
arbitrary choice, a clock reading a parameter, and the outcome of disk, database, signature and
chain-reorganisation calls an arbitrary boolean. C integers are unbounded here unless a width matters; where
it does (counters, compact targets, 32-bit words) the wrap-around is written out. Uninitialised stack
buffers are arbitrary inputs.

Five things worth knowing when reading the proofs:

- `SelectTried` means to find the least recently successful of the entries it inspects. The code records the
  position an entry was drawn from after it has swapped the entry away from there, so it can return the
  position of another entry. `TriedShuffle.RightExactly` says when it does not: exactly if the draw that found
  the entry moved nothing. `TriedShuffle.AlwaysRightExactly` says for which buckets that holds whatever the
  draws: those with at most one entry, or with two of which the first is strictly the less recent. The source
  calls it on full buckets, where it can always miss; `TriedShuffle.FullBucketMiss` is one.
- The claim in `MakeTried` that the bucket an entry came from "certainly" has a place is true and is
  `AddrTables.RefugeHasRoom`; the bail-out of `Good_` for an entry that is in no bucket is unreachable.
- `Good_` stamps an entry with the time it is given. `Good` keeps the invariant exactly if no entry matches or
  that time is positive; at time 0 the source's own check rejects the entry (`AddrMan.GoodAtZero`).
- The guard for a new stake modifier looks at the parent's time, not at the block's own. Hence the generating
  blocks lie in later and later intervals, and no interval has two, exactly if every block that follows a due
  parent has itself left the interval of the current modifier: `StakeHistory.SpacedStep` for one block,
  `StakeHistory.SpacedExactly` for whole chains. That holds if no block is earlier than its parent
  (`StakeHistory.OnePerSlot`), but that is not necessary (`StakeHistory.EarlyButOnce`), and without it two
  blocks of one interval can generate (`StakeHistory.TwoInOneSlot`).
- The division of a selection hash by 2^32 is meant to favour proof-of-stake blocks always. It does so exactly
  against a proof-of-work hash of at least 2^224 (`StakeSelect.AlwaysFirst`); `StakeSelect.StakeFirst` says which
  of two blocks goes first in every case.

## Model

| member | source | states |
|---|---|---|
| `AddrTables.SwapKeeps` | src/addrman.cpp:105-123 | swapping two places of the random order keeps every index consistent |
| `AddrTables.DropKeeps` | src/addrman.cpp:159-173 | giving up a reference, and the entry with its last one, keeps the invariant, also while another entry waits for its bucket |
| `AddrTables.AdmitKeeps` | src/addrman.cpp:93-103 | a created entry that is counted and expects its first bucket satisfies the waiting form of the invariant |
| `AddrTables.SeatKeeps` | src/addrman.cpp:358-366 | putting the waiting entry into a bucket with room restores the full invariant |
| `AddrTables.PlaceKeeps` | src/addrman.cpp:358-367 | one more reference, after eviction from a full bucket, keeps the invariant |
| `AddrTables.RefugeHasRoom` | src/addrman.cpp:241-250 | the bucket an evicted entry returns to always has a free place |
| `AddrTables.MovedKeeps` | src/addrman.cpp:203-259 | promotion to tried, with or without eviction, keeps the invariant |
| `AddrTables.MovedConserves` | src/addrman.cpp:203-259 | a promotion loses no address, never lowers the tried total, and changes no entry but the promoted one and at most one other, which was tried and is evicted |
| `AddrTables.UntimedExactly` | src/addrman.cpp:441-460 | the invariant is that of the tables with sound times in an entry, together with the entry's own times being sound |
| `AddrTables.PlaceConserves` | src/addrman.h:219-222 | adding deletes at most one entry, which was not tried, had one reference and another address |
| `AddrTables.AddressesConserved` | src/addrman.cpp:312-368 | of the known addresses at most the announced one comes and at most one other goes |
| `AddrTables.SizeIsTotal` | src/addrman.h:398-402 | the random list meets every entry exactly once, so its length is `nNew + nTried` |
| `AddrTables.NewTotalBound` | src/addrman.h:122-141 | at most 256 * 64 new entries |
| `AddrTables.TriedTotalBound` | src/addrman.h:122-141 | at most 64 * 64 tried entries |
| `AddrTables.SizeBound` | src/addrman.h:122-141 | never more than 20480 addresses |
| `AddrTables.GroupBound` | src/addrman.cpp:9-21 | one network group owns at most 4 tried buckets, hence at most 256 tried entries |
| `AddrTables.SourceBound` | src/addrman.cpp:23-36 | announcements from one network group reach at most 32 of the 256 new buckets, whatever is announced |
| `AddrTables.BucketsExactly` | src/addrman.cpp:9-36 | both bucket numbers as the two nested hashes over key, groups, address and port, with their byte order |
| `AddrTables.ServiceKeyExactly` | src/netbase.cpp:1143-1151 | the key bytes are the address and the port, high byte first, so they determine both |
| `AddrTables.TerribleExactly` | src/addrman.cpp:38-56 | exactly which statistics are terrible, in seconds and counts |
| `AddrTables.EntryPlaces` | src/addrman.h:93-118 | a new entry sits in one to four new buckets, a tried one in its tried bucket and nowhere else |
| `AddrMan.AddrMan.constructor` | src/addrman.h:387-401 | an empty manager satisfies the invariant |
| `AddrMan.AddrMan.Find` | src/addrman.cpp:80-91 | under the invariant an address is found exactly if some entry has it |
| `AddrMan.AddrMan.Create` | src/addrman.cpp:93-103 | the new entry stands at the end of the random list under the next id |
| `AddrMan.AddrMan.SwapRandom` | src/addrman.cpp:105-123 | both the list and the two recorded positions are exchanged |
| `AddrMan.AddrMan.SelectTried` | src/addrman.cpp:125-147 | bucket and position are those of the shuffle with the draws made; the least recently successful inspected entry ends at `step`, and the position returned holds it exactly if draw `step` moved nothing; -1 exactly for an empty bucket |
| `TriedShuffle.FoundIsLeast` | src/addrman.cpp:131-144 | for all draws the entry found is the first of the least recent ones inspected |
| `TriedShuffle.RightExactly` | src/addrman.cpp:131-144 | the position returned holds the entry found exactly if its draw moved nothing |
| `TriedShuffle.AlwaysRightExactly` | src/addrman.cpp:125-147 | it does whatever the draws exactly for at most one entry, or two of which the first is strictly the less recent |
| `TriedShuffle.FullBucketMiss` | src/addrman.cpp:125-147 | a full bucket and draws after which the position returned holds another entry |
| `AddrMan.ScanTerrible` | src/addrman.cpp:154-175 | finds the lowest id with terrible statistics, or that there is none |
| `AddrMan.SampleOldest` | src/addrman.cpp:177-199 | the first of at most four sampled places with the least time |
| `AddrMan.AddrMan.ShrinkNew` | src/addrman.cpp:149-201 | one entry of the bucket loses its reference: the first terrible one, else the oldest of at most four sampled ones; the invariant holds on |
| `AddrMan.AddrMan.MakeTried` | src/addrman.cpp:203-259 | the entry leaves all new buckets for its tried bucket; only if that was full one entry goes, the one at the position that follows from the draws, to its own new bucket or else to the origin; nothing else changes, and the invariant holds on |
| `AddrMan.AddrMan.LocateNew` | src/addrman.cpp:288-303 | finds a bucket with the id from any starting point, or there is none |
| `AddrMan.AddrMan.Good` | src/addrman.cpp:261-310 | the matching entry has exactly its times and attempts set and is tried; what else changes follows from the origin and the draws as in MakeTried; the invariant is kept exactly if nothing matches or the time is positive |
| `AddrMan.GoodAtZero` | src/addrman.cpp:261-310 | a tried entry stamped with time 0 breaks the invariant |
| `AddrMan.AddrMan.Add` | src/addrman.cpp:312-368 | the answer says whether the address is new and routable; a new entry has the announced address, port, services, source and reduced time, no statistics and one reference, in the bucket for its source; a known one has services joined and time refreshed by the rule, and gains a reference exactly if news, room and coin allow it; no other entry changes but the one that makes way in a full bucket; conservation and invariant |
| `AddrChanges.PlacedCameIn` | src/addrman.cpp:358-367 | coming into a bucket changes no other entry but random positions and the one reference of the entry that makes way |
| `AddrChanges.MovedBecameTried` | src/addrman.cpp:203-259 | the promotion spelled out: buckets, totals and every other entry |
| `AddrMan.AddrMan.Attempt` | src/addrman.cpp:370-387 | only the matching entry's last try and attempts change; the invariant is kept exactly if nothing matches or the time is not negative |
| `AddrMan.AddrMan.Connected` | src/addrman.cpp:509-527 | only the matching entry's time changes, and only after 20 minutes; the invariant is kept at every time |
| `AddrMan.AddrMan.GetAddr` | src/addrman.cpp:493-507 | 23 percent of the entries but at most 2500, of pairwise different addresses, each reply with the entry's address, port, services and time; nothing but the random order changes |
| `AddrMan.AddrMan.Run` | src/addrman.cpp:93-387 | any run of requests keeps the invariant and the size bound, never lowers the tried total, and loses at most one address per addition |
| `AddrCheck.CheckEntry` | src/addrman.cpp:443-459 | the code of the first test of an entry that fails |
| `AddrCheck.CheckEntries` | src/addrman.cpp:441-460 | accepts exactly if every entry is sound, else gives the code of the first unsound one; sorts the ids into tried and new; the lookups leave the address map with id 0 for addresses that were missing |
| `AddrCheck.CheckTried` | src/addrman.cpp:462-473 | -11 exactly if the tried buckets hold an id twice or one that is not tried; what is left are the tried ids in no bucket |
| `AddrCheck.CheckNew` | src/addrman.cpp:475-487 | -12 exactly if an id is in more new buckets than its entry says; nothing is left exactly if every id is in as many |
| `AddrCheck.Check` | src/addrman.cpp:434-490 | returns 0 exactly if the tables are consistent, otherwise the code of the first test that fails; what its lookups do to the address map |
| `AddrCheck.InvPassesCheck` | src/addrman.cpp:434-490 | the invariant implies that the check returns 0 |
| `AddrCheck.CheckIsInvariant` | src/addrman.cpp:434-490 | the invariant is exactly what the check tests together with four facts it does not look at |
| `PeersFile.WriteNew` | src/addrman.h:292-303 | the early-ending loop writes all new entries in order and indexes them |
| `PeersFile.WriteTried` | src/addrman.h:304-314 | the early-ending loop writes all tried entries in order |
| `PeersFile.WriteBuckets` | src/addrman.h:315-325 | every bucket is written as places among the stored new entries |
| `PeersFile.LayoutHeader` | src/addrman.h:277-286 | the file begins with version 0, the key and the three counts |
| `PeersFile.LayoutEntry` | src/addrman.h:287-314 | then every entry once, new ones before tried ones, each part by ascending id, with exactly the fields that are kept |
| `PeersFile.LayoutBucket` | src/addrman.h:315-325 | then every new bucket: its size and its ids ascending, each as its entry's place in the file |
| `PeersRebuild.BucketHasRoom` | src/addrman.h:356-369 | while a written file is read no tried bucket is full, so nothing is lost |
| `PeersRebuild.ReferenceHasRoom` | src/addrman.h:373-386 | while a written file is read no entry has four references yet, so none is dropped |
| `PeersRebuild.RebuiltIsSame` | src/addrman.h:326-386 | what is rebuilt satisfies the invariant and is the same manager up to ids: address, port, services, time, source, last success and attempts of every entry, references and buckets; the last try is forgotten |
| `AddrMan.AddrMan.Save` | src/addrman.h:277-325 | the file has the stated layout |
| `AddrMan.AddrMan.Load` | src/addrman.h:326-386 | reading a file that was written gives the same manager, field by field |
| `AddrMan.SaveThenLoad` | src/addrman.h:277-386 | writing one manager and reading into another gives the same manager |
| `KeccakSpec.RhoIsWalk` | src/keccak.c:1016-1045 | the rotation offsets are those of Algorithm 2 of FIPS 202 |
| `KeccakSpec.WalkCovers` | src/keccak.c:1016-1045 | that walk meets every lane but (0, 0), so the table is determined |
| `KeccakSpec.ConstantsAreSampled` | src/keccak.c:136-149 | the round constants are the samples of the shift register of Algorithm 5 |
| `KeccakSpec.ConstantIsSampled` | src/keccak.c:136-149 | Algorithm 5 on the lane: bit z of a round constant is set exactly if z is 2^j - 1 and the register puts out a one j steps after the start of the round |
| `KeccakSpec.WordWeighs` | src/keccak.c:136-149 | the lane of a 64-bit number stands for that number |
| `KeccakSpec.RolWeighs` | src/keccak.c:1016-1045 | rotating a lane is the two shifts of its number |
| `KeccakSpec.XorAdds` | src/keccak.c:183-188 | adding lanes is exclusive or of their numbers, bit by bit |
| `KeccakFast.ThetaMasked` | src/keccak.c:958-1014 | theta on complemented lanes, with the new complement mask |
| `KeccakFast.KhiRowMasked` | src/keccak.c:1047-1135 | each row's own mixture of and, or and not is chi up to complements |
| `KeccakFast.KhiMasked` | src/keccak.c:1047-1135 | `KHI` is chi and restores the mask between rounds |
| `KeccakFast.RoundMasked` | src/keccak.c:1392-1397 | a fast round on a complemented state is the round of the standard, complemented the same way |
| `KeccakFast.RenamingIsPi` | src/keccak.c:1139-1156 | renaming registers is pi |
| `KeccakFast.ThElt` | src/keccak.c:958-973 | the regrouped sums give what theta adds to a column |
| `KeccakFast.ThetaInPlace` | src/keccak.c:975-1014 | in place, under any injective naming, theta |
| `KeccakFast.RhoInPlace` | src/keccak.c:1016-1045 | in place, rho |
| `KeccakFast.KhiInPlace` | src/keccak.c:1058-1135 | in place, row by row, the masked chi |
| `KeccakFast.RoundInPlace` | src/keccak.c:1392-1397 | one in-place round with renaming is one round of the standard |
| `KeccakPermutation.NamesFollow` | src/keccak.c:1139-1156 | each of the nine namings is the one before it after pi |
| `KeccakPermutation.MoveBack` | src/keccak.c:1313-1347 | the eight three-cycles of moves bring every lane home |
| `KeccakPermutation.Permute` | src/keccak.c:1454-1467 | the loop of three times eight rounds computes Keccak-f[1600] on every state |
| `KeccakSponge.PadZerosUnique` | src/keccak.c:1618-1634 | the padding length of the standard is the only one below a block that fills the last block |
| `KeccakHash.Clear` | src/keccak.c:1531-1541 | the start state is the all-zero state, complemented |
| `KeccakHash.InputBuf` | src/keccak.c:183-188 | a block added to complemented words is the block added to the state |
| `KeccakHash.TailBits` | src/keccak.c:1618-1634 | the bytes close appends are the last message bits and the padding of the standard |
| `KeccakHash.PaddedMessage` | src/keccak.c:1618-1635 | message and tail together are the padded message, in whole blocks |
| `KeccakHash.Digest` | src/keccak.c:1636-1645 | uncomplementing and encoding give the first bits of the state |
| `KeccakHash.Keccak.Update` | src/keccak.c:1568-1603 | data in pieces of any length extend the message |
| `KeccakHash.Keccak.Close` | src/keccak.c:1607-1647 | the digest is Keccak of the whole message and the extra bits, and the context is fresh again |
| `FugueSpec.XorAt` | src/fugue.c:413-420 | `Xor` is exclusive or, bit by bit |
| `FugueSpec.XorUndo` | src/fugue.c:413-420 | a word added twice is gone |
| `Fugue.RotateView` | src/fugue.c:874-911 | moving every name by three is the rotation of the state |
| `Fugue.Tix4` | src/fugue.c:413-420 | injection through register names |
| `Fugue.Cmix36` | src/fugue.c:431-438 | the column mix through register names |
| `Fugue.FirstRound` | src/fugue.c:874-885 | case 0 is one eager round, with the names moved on by twelve |
| `Fugue.SecondRound` | src/fugue.c:887-898 | case 1, likewise |
| `Fugue.ThirdRound` | src/fugue.c:900-911 | case 2, likewise, back to the first names |
| `FugueHash.Enter` | src/fugue.c:697-718 | waiting bytes are completed to a word as far as the data goes |
| `FugueSpec.HighBitsAt` | src/fugue.c:933-951 | of the extra byte exactly the announced highest bits are kept |
| `FugueSpec.PaddedLength` | src/fugue.c:933-951 | the last two words are the length in bits as a 64-bit number |
| `FugueHash.Tail` | src/fugue.c:933-951 | what close feeds in is the filling, the bit count and four arbitrary bytes |
| `FugueHash.PaddedWords` | src/fugue.c:933-951 | message, filling and count are the words of the padded message |
| `FugueHash.Unrotated` | src/fugue.c:952-954 | the two copies undo the renaming of every turn |
| `FugueHash.Context.Turns` | src/fugue.c:869-914 | the loop over the three cases absorbs words until at most four bytes are left, and leaves some if there were some |
| `FugueHash.Context.Update` | src/fugue.c:863-916 | absorbed words and at most four waiting bytes always spell the message, in pieces of any length |
| `FugueFinal.Rotate` | src/fugue.c:956-961 | the copies through a temporary are the rotation |
| `FugueSpec.OutputWords` | src/fugue.c:1091-1107 | which sixteen words make the digest |
| `FugueFinal.Finish` | src/fugue.c:1056-1108 | the in-place end computes the digest of the absorbed state |
| `FugueHash.Context.Close` | src/fugue.c:1050-1109 | the digest is that of the eager form on the padded message, whatever the last four buffer bytes hold, and the context is fresh again |
| `BlakeSpec.NatBitsWeigh` | src/blake.c:972-990 | the length field is binary, highest bit first, modulo 2^64 |
| `BlakeSpec.PaddedLength` | src/blake.c:972-990 | the padded message is a whole number of blocks |
| `Blake.BumpCounts` | src/blake.c:933-934 | the split counter counts blocks, carry included |
| `Blake.SetBackCounts` | src/blake.c:961-971 | after the set-back the next count is the number of message bits so far, or 0 for a block without any |
| `Blake.FeedTracks` | src/blake.c:905-941 | whatever the pieces, chaining value, counter and buffer are those of the message so far |
| `Blake.FrontBits` | src/blake.c:959-975 | the padding bytes are a one, zeros and the mark |
| `Blake.PaddedBits` | src/blake.c:957-989 | message, padding and length in bytes are the padded message in bits |
| `BlakeHash.FinishOne` | src/blake.c:972-978 | with room in the block, one more compression gives the hash |
| `BlakeHash.FinishTwo` | src/blake.c:979-990 | without room, two compressions with the right counters give the hash |
| `BlakeHash.Context.Process` | src/blake.c:905-941 | the buffer loop is the feeding function |
| `BlakeHash.Context.Update` | src/blake.c:1096-1099 | data in pieces of any length extend the message |
| `BlakeHash.Context.Close` | src/blake.c:943-994 | the digest is BLAKE of the whole message and the extra bits, and the context is fresh again |
| `StakeInterval.SectionExactly` | src/kernel.cpp:52-57 | section n is 63 intervals divided by 189 - 2n, rounded down |
| `StakeInterval.SectionsGrow` | src/kernel.cpp:52-57 | the sections never get shorter |
| `StakeInterval.FirstSection` | src/kernel.cpp:52-57 | the first section is a third of an interval |
| `StakeInterval.LastSection` | src/kernel.cpp:52-57 | the last section is a whole interval |
| `StakeInterval.SelectionInterval` | src/kernel.cpp:60-68 | the loop adds up all 64 sections |
| `StakeSelect.StakeFirst` | src/kernel.cpp:91-101 | a proof-of-stake block goes before a proof-of-work block exactly if its full hash is below 2^32 times the other's; the other three pairings likewise |
| `StakeSelect.AlwaysFirst` | src/kernel.cpp:96-101 | whatever its own 256-bit hash exactly if the other's is at least 2^224 |
| `StakeSelect.Select` | src/kernel.cpp:73-117 | the free candidate of least selection hash up to the stop, the earliest of equals, else the first free one; failure exactly if none is free |
| `StakeSelect.BestIsUnique` | src/kernel.cpp:73-117 | that candidate is determined |
| `StakeModifier.LastModifier` | src/kernel.cpp:38-49 | the last generating block, and failure exactly if there is none |
| `StakeModifier.SortKeeps` | src/kernel.cpp:165-166 | the sorted candidates are the candidates, in order of time and then of hash |
| `StakeModifier.SomeFree` | src/kernel.cpp:172-178 | with fewer picks than candidates one is free |
| `StakeModifier.PickAll` | src/kernel.cpp:168-186 | min(64, n) different blocks are picked, each the best of its round, and bit r is the entropy bit of pick r; never fails on a well-formed chain |
| `StakeChain.SlotExactly` | src/kernel.cpp:150-156 | a time lies in its interval, and intervals begin at multiples of their length |
| `StakeChain.StopBound` | src/kernel.cpp:156-175 | the stop of a round never passes the aligned time, and reaches it in round 64 |
| `StakeChain.Collect` | src/kernel.cpp:157-165 | the candidates are the longest end of the chain without an early block, in chain order |
| `StakeChain.ComputeNext` | src/kernel.cpp:132-218 | genesis gets modifier 0; later it generates exactly when a new interval has begun, else repeats the current modifier; fails on a well-formed chain exactly if nothing was ever generated |
| `StakeChain.KernelModifier` | src/kernel.cpp:222-259 | succeeds exactly if a later block generated a modifier a selection interval later, and returns the first such |
| `StakeHistory.ModifierIsUnique` | src/kernel.cpp:132-218 | the new modifier is determined by the chain: nodes with different block indexes compute the same |
| `StakeHistory.ModifierExists` | src/kernel.cpp:132-218 | on every chain with different hashes there is one |
| `StakeHistory.Extend` | src/main.cpp:2024-2029 | a chain grown this way, modifiers included, can always be extended, and stays one |
| `StakeHistory.GrownIsUnique` | src/main.cpp:2024-2029 | two nodes that grow a chain from the same blocks agree on every flag and every modifier |
| `StakeHistory.GrownGenerates` | src/kernel.cpp:136-140 | genesis generates modifier 0, so there always is a last modifier |
| `StakeHistory.CarriesParent` | src/kernel.cpp:141-151 | a block that does not generate carries its parent's modifier |
| `StakeHistory.SpacedStep` | src/kernel.cpp:150-151 | the next block keeps the generating blocks in later and later intervals exactly if, when a modifier is due, it has left the interval of the current one |
| `StakeHistory.SpacedExactly` | src/kernel.cpp:150-151 | the same for whole chains: exactly if every block is in time |
| `StakeHistory.OnePerSlot` | src/kernel.cpp:150-151 | in particular if no block is earlier than its parent |
| `StakeHistory.TwoInOneSlot` | src/kernel.cpp:150-151 | a chain with two generating blocks in one interval |
| `StakeHistory.EarlyButOnce` | src/kernel.cpp:150-151 | a chain with a block earlier than its parent and still no interval with two |
| `BlockTree.AncestorsCompare` | src/checkpoints.cpp:148-151 | the ancestors of a block form a line |
| `BlockTree.WalkBack` | src/checkpoints.cpp:148-151 | the walk ends at the asked height and never meets a missing parent |
| `BlockTree.WalkDecides` | src/checkpoints.cpp:152-169 | the block it reaches decides descent |
| `BlockTree.GrowKeepsDescent` | src/main.cpp:2002-2007 | a new block changes nothing between the old ones |
| `Checkpoints.SyncCheckpoints.Validate` | src/checkpoints.cpp:132-172 | accepted exactly for a strict descendant, marked invalid exactly for a block on another branch |
| `Checkpoints.SyncCheckpoints.AcceptPendingMessage` | src/checkpoints.cpp:194-237 | when the pending checkpoint is adopted, kept, dropped or marked invalid |
| `Checkpoints.SyncCheckpoints.ProcessMessage` | src/checkpoints.cpp:440-491 | when a received checkpoint is adopted, becomes pending, is marked invalid or changes nothing |
| `Checkpoints.SyncCheckpoints.CheckSync` | src/checkpoints.cpp:254-279 | exactly which blocks pass; above the checkpoint they descend from every checkpoint ever adopted |
| `Checkpoints.SyncCheckpoints.Run` | src/checkpoints.cpp:132-237 | over any run the checkpoint stays indexed, all adopted ones lie on one branch, and a refused one is never adopted |
| `Checkpoints.RefusedNotAdopted` | src/checkpoints.cpp:152-168 | a block apart from the current checkpoint is none of the adopted ones |
| `Radix.ConvertBack` | src/base58.h:28-122 | converting digits to another base and back, leading zeros one for one, gives them back |
| `BigNum.MpiRoundTrip` | src/bignum.h:254-279 | reading the bytes of any integer gives the integer |
| `BigNum.MpiCanonical` | src/bignum.h:254-279 | writing what was read gives the bytes back exactly if they were canonical |
| `BigNum.VchRoundTrip` | src/bignum.h:254-279 | `setvch` undoes `getvch` for every integer |
| `Compact.CompactCuts` | src/bignum.h:281-304 | `SetCompact` after `GetCompact` clears all but the three highest bytes |
| `Compact.CompactStable` | src/bignum.h:281-304 | compacting again changes nothing, for either sign |
| `Compact.CompactError` | src/bignum.h:281-304 | nothing is added and at most one part in 2^15 is lost |
| `Compact.CompactGrows` | src/bignum.h:293-304 | a larger number has no smaller compact form |
| `Base58.LettersInOrder` | src/base58.h:25 | the letters are those of the alphabet, in ascending order |
| `Base58.PlaceInAlphabet` | src/base58.h:87-98 | a character has a place exactly if it is in the alphabet, and that is its place |
| `Base58.SpaceExactly` | src/base58.h:82-98 | which six characters are space |
| `Base58.BodyExactly` | src/base58.h:87-107 | accepted text is space, letters and space, and nothing else |
| `Base58.DecodeOfEncode` | src/base58.h:28-122 | decoding undoes encoding for every byte sequence |
| `Base58.EncodeOfDecode` | src/base58.h:28-122 | encoding undoes decoding up to the space around the letters |
| `Base58.EncodeOfClean` | src/base58.h:28-122 | every text over the alphabet decodes and encodes back to itself |
| `Base58Code.Encode` | src/base58.h:28-65 | the division loop and the zeros loop compute the encoding |
| `Base58Code.Decode` | src/base58.h:75-122 | the multiplication loop, the sign trim and the zeros loop compute the decoding, or its failure |
| `Base58Code.TrimmedBytes` | src/base58.h:109-114 | without the sign byte the little-endian data are the digits of the number |
| `Base58Code.EncodeCheck` | src/base58.h:135-142 | the encoding with the first four bytes of the hash |
| `Base58Code.DecodeCheck` | src/base58.h:146-162 | success exactly if the checksum is right; empty result otherwise |
| `Base58Code.CheckedRoundTrip` | src/base58.h:135-162 | the checksummed form round-trips for every hash |
| `Base58Code.CheckedIsWritten` | src/base58.h:135-162 | what is accepted is, up to space, exactly what would be written |
| `Base58Code.Base58Data.SetString` | src/base58.h:211-227 | accepts exactly a right checksum over at least a version byte; otherwise the object is cleared |
| `Base58Code.Base58Data.ToString` | src/base58.h:234-239 | version and data, checksummed |
| `Base58Code.DataRoundTrip` | src/base58.h:211-239 | the text of any version and data reads back as them |
| `Base58Code.Secret.SetSecret` | src/base58.h:411-417 | the object is valid and holds the secret and its flag |
| `Base58Code.Secret.SetString` | src/base58.h:446-449 | accepts exactly the texts of a version and a valid secret |
| `Base58Code.Secret.Transfer` | src/base58.h:411-449 | a secret and its compressed flag survive the way through text |
| `PageCounts.TouchingIsOnPage` | src/allocators.h:61-63 | the pages from first to last are those with a byte of the range |
| `PageCounts.CallsAtZero` | src/allocators.h:66-75 | the system is asked to lock a page exactly when its count leaves zero and to unlock it exactly when the count comes back to zero, once each |
| `LockedPages.LockedPageManager.LockRange` | src/allocators.h:57-78 | counts stay exact; the system is asked to lock, in order, exactly the pages of the range that no live range touches |
| `LockedPages.LockedPageManager.UnlockRange` | src/allocators.h:80-103 | counts stay exact; the system is asked to unlock, in order, exactly the pages of the range that no other live range touches; the assertion holds |
| `LockedPages.LockedPageManager.Run` | src/allocators.h:57-103 | any run that unlocks only live ranges: live ranges and calls to the system are the stated ones, no page is locked twice or unlocked while not locked, and with no live range nothing is locked |
| `PageCounts.Balanced` | src/allocators.h:33-44 | in any such sequence of calls a page has been locked as often as unlocked, and once more exactly if it is held |
| `PageCounts.LockedMeansLive` | src/allocators.h:33-44 | a page is locked exactly as long as a live range has a byte on it, so with no live range none is |

## Left out

- AddrMan.AddrMan.Load: only files that a manager with the same bucket counts wrote; other bucket counts and malformed files are not modelled.
- AddrMan.AddrMan.Run: asks for a positive time in a `Good` request and a time not before 1970 in an `Attempt`; Good and Attempt themselves accept any time and state when they keep the invariant.
- LockedPages.LockedPageManager.LockRange: addresses do not wrap at the top of memory.
- Checkpoints.SyncCheckpoints.Run: `ResetSyncCheckpoint`, which may move the checkpoint back, is not one of the operations.
- `Select_` and `GetChance` of the address manager: floating point and random retries.
- 32-bit overflow of id and attempt counters of the address manager.
- The other unroll counts, the 32-bit interleaved form of Keccak, Fugue-224/256/384 and BLAKE-224/256: the same structure with other constants.
- The compression function of BLAKE and the substitution layer of Fugue: tables without further structure; parameters here.
- The remaining hash functions (groestl, jh, bmw, echo, hamsi, cubehash, aes tables): large constant tables.
- `GetWeight` and the kernel hash check: single formulas.
- The four bytes of length before a big number's bytes, and big numbers read from hex text.
- Base58 addresses, stealth addresses and keys behind them: classification by version byte only.
- Text with an embedded zero character, at which a C string ends.
- Mutual exclusion itself: every locked operation is one step.
- Wallet, scripts, mempool, networking, RPC, user interface, alerts and databases.
