# Verified models of Redis 6.2.0

A Dafny model of the parts of Redis 6.2.0 whose correctness rests on an argument rather than on a reading of the code: the
cluster protocol, CRC-64, the append-only file, the ACL rule language, bit operations and blocked clients. Code that updates
state in loops is modelled by methods and classes and proved against functions; protocols are modelled as steps over the
state of all processes and proved over every run. `dafny verify dfyconfig.toml` checks everything.

## What is modelled

**Cluster.** `ClusterNode` has one node's epochs, votes and view of the others, with the handlers of `cluster.c` as functions;
`ClusterRun` lets any number of such nodes act and packets be delayed, reordered, lost and (votes excepted) duplicated, and
proves the epoch invariant over every run. `ClusterElection` proves that at most one replica wins an epoch, and at the level of
a single step that the invariant behind it survives exactly when no stale ACK is counted. `ClusterElectionGap` is a run
in which the obvious weaker hypothesis holds and two replicas win: no ACK is in flight whenever an election is scheduled, but a
delayed request of the first attempt is answered after the count was cleared, and its ACK still passes the epoch test.
`ClusterFailover` says what a win is worth, slots, epoch and the votes behind it, and `ClusterFailoverGap` what it is not.
`EpochCollision` bounds collision resolution: with headers delayed and repeated at will, a master takes a new epoch at most once
for each master with a greater name, and while two masters still share an epoch some fresh header makes one of them move.
`SlotTable` is the table of one node, a class over arrays and bitmaps; `SlotClaims` shows when claims settle the same way
in every order; `SlotRanges` treats the printed form. `SlotRouting` and `Resharding` cover redirections and the move of a slot
under load.

**CRC-64.** `Crc64` is the bit-by-bit division, `CrcPolynomial` what it means for polynomials over GF(2), `CrcReflected` its
reflected form and the linearity of shifting, `CrcSpeed` and `CrcSpeedBig` the table-driven loops for both byte orders.

**Append-only file.** `AofFormat`, `AofLoader` and `AofReplay` are the printer and the loader down to what `fgets`, `atoi` and
`strtol` do with the bytes; `AofRecovery` is about whole files, files cut at any byte and files that grow after a recovery,
`AofPreamble` about files with a snapshot in front, `AofRefusal` about files that are refused. `AofExpire` rewrites times to
live, `AofFeed` and `AofHandoff` are the two-process rewrite, `AofProgress` when it can succeed, `AofBuffers` and `AofFlush` the
block buffer and the write path as classes.

**ACL.** `AclRules` is the rule interpreter, `AclUser` the user object and the decompiler, `AclDescribe` the words it emits,
`AclFile` the ACL file, `AclCommandIds` the numbering of commands.

**Bit operations.** `PopCount` and `BitPos` are the word-parallel searches, `BitStrings`, `BitField` and `BitFieldOps` the
BITFIELD command as integer arithmetic on an unbounded bit string. `ByteBits` has single bits of bytes, `Basics` what modules
share.

**Blocked clients.** `Blocked`, `BlockedServing` and `BlockedOthers` are the index and the serving loops as functions,
`BlockedMoves` follows the elements, `BlockedWaking` shows that nobody is overlooked; `BlockedServer` is the server that runs
them; `AdList` is the linked list underneath, and `BlockedLists` relates the two.

## What does not hold

Each of these the code might be expected to do and does not. For each there is an input at which it fails and the exact
condition under which it holds.

- Election safety does not follow from having no ACK in flight when the count is cleared (`ClusterElectionGap.TwoWinners`); the
  invariant is kept by a step if and only if it does not count an ACK while no request of the new attempt was sent
  (`ClusterElection.ElectionInvStep`).
- A won election does not always outrank the old master (`ClusterFailoverGap.OutrankedWinner`), nor do two winners always take
  different configuration epochs (`ClusterFailoverGap.EqualWinners`). The first holds if and only if the winner was told of no
  epoch of its master as great as the election's since it started it, and its own epoch is the election's if and only if it took
  and was told no greater one of its own (`ClusterFailover.WinnerLeads`); then winners differ (`ClusterFailover.WinnersDiffer`).
- A file cut inside a command that a transaction had queued is truncated after the last whole command, inside the transaction.
  What the server appends later on its own is swallowed by the open MULTI at the next load (`AofRecovery.AppendedIsLost`), and
  the EXEC of a later transaction runs what was left of the old one (`AofRecovery.HalfIsExecuted`). Exactly the recovered and
  the appended commands come back if and only if no such transaction was left open, nothing is appended, or only MULTI was left
  and a transaction is appended (`AofRecovery.RecoverThenAppend`).
- A file whose commands follow a snapshot loses the snapshot as well when it is cut so early in the commands that none of them
  is kept, because the offset to truncate at is still zero (`AofPreamble.SnapshotIsLost`, `AofPreamble.SnapshotSurvives`).
- An ACL file restores all users if and only if no allowed subcommand has a space or a line feed in it, or a tab or a carriage
  return at its end (`AclFile.LineFeedIsLost`, `AclFile.FileRoundTrip`).
- A saturating write of BITFIELD stores the representable number nearest to what the client asked for if and only if it is
  neither a signed SET so far below the range that `max - value` overflows 64 bits, two's complement wrap-around assumed
  (`BitField.SetsTheWrongEnd`), nor an unsigned SET of a negative number (`BitField.SetsNegativeToMax`,
  `BitField.SaturationIsNearest`).
- A slot whose owner no longer claims it does not always go to its greatest claimant, and the order of the claims can decide
  (`SlotClaims.OrderDecidesHere`); it does under every schedule if and only if the owner is outranked
  (`SlotClaims.ConvergesExactly`).
- Making the importing node the owner of a slot is accepted while the source still has keys (`Resharding.ClosedTooEarly`). A
  step leaves it possible for a request to put a key on both nodes if and only if it does that (`Resharding.StepIsSafe`).
- A list does not always serve as many clients as it has elements: one that moves an element onto the same key, or to a key of
  the wrong type, uses none up (`BlockedServing.OneElementServesTwo`, `BlockedServing.MinimumExactly`).
- A slot that is migrating and importing at once is written to the configuration file as migrating only
  (`SlotRanges.ImportIsForgotten`, `SlotRanges.PrintAndLoad`).
- With the cluster down and reads allowed not every write is refused: a transaction is not
  (`SlotRouting.TransactionWritesWhileDown`). A writing request is refused if and only if it is neither a script nor a
  transaction (`SlotRouting.DownRefusesWrites`).
- A client that waits for a list is not always served when there is one: overwriting another value does not signal the key
  (`BlockedWaking.StoredListIsOverlooked`). A write overlooks nobody if and only if it does not turn another type into what a
  client waits for (`BlockedWaking.WrittenAwake`).

Besides, `clusterUpdateSlotsConfigWith` follows a null pointer exactly when a replica that knows no master takes a slot nobody
owns and redirection is not switched off (`SlotTable.Table.UpdateSlotsConfigWith`).

## Model

| member | source | states |
|---|---|---|
| ClusterRun.HandlersAdvance | redis-6.2.0/src/cluster.c:1801-1812 | Handling any packet moves no epoch back and leaves the node's current epoch above all config epochs it records. |
| ClusterRun.EpochInvStep | redis-6.2.0/src/cluster.c:1090-1107 | Every step of every node, bumping and setting epochs by hand included, keeps: no recorded config epoch above the own current epoch, no packet with a config epoch above its current epoch. |
| ClusterRun.EpochInvRun | redis-6.2.0/src/cluster.c:2404-2453 | That invariant holds in every state of every run. |
| ClusterRun.EpochsGrowRun | redis-6.2.0/src/cluster.c:2176-2197 | Over every run current, vote and election epochs never decrease, and recorded config epochs do not either as long as no node is forgotten. |
| ClusterRun.UpdateExactly | redis-6.2.0/src/cluster.c:2176-2197 | An update from a known node about a known one with a newer epoch makes that one a master of that epoch; any other does no more than its header does, and no other record changes. |
| ClusterElection.RequestStep | redis-6.2.0/src/cluster.c:2866-2967 | Answering a vote request keeps one vote per master and epoch, each backed by an election its candidate started. |
| ClusterElection.AckStep | redis-6.2.0/src/cluster.c:2145-2157 | Counting an ACK keeps the candidate's counter equal to the votes counted for its current election if and only if the ACK is not stale. |
| ClusterElection.WinStep | redis-6.2.0/src/cluster.c:3255-3271 | The step that wins keeps the election invariant: a win is backed by a majority of the voters. What the winner takes is the subject of ClusterFailover. |
| ClusterElection.ElectionInvStep | redis-6.2.0/src/cluster.c:3106-3275 | With fixed voters a step keeps the election invariant if and only if it is not a stale ACK. |
| ClusterElection.ElectionInvRun | redis-6.2.0/src/cluster.c:3106-3275 | The invariant holds over every run without stale ACKs. |
| ClusterElection.QuorumsMeet | redis-6.2.0/src/cluster.c:3109-3109 | Two majorities of the same voters share one. |
| ClusterElection.ElectionSafety | redis-6.2.0/src/cluster.c:2866-2967 | From any quiet start, in every run without stale ACKs, at most one replica wins each epoch and no master votes twice in one. |
| ClusterElectionGap.TwoWinners | redis-6.2.0/src/cluster.c:3176-3253 | A run in which every election is scheduled before it is started, the voters are fixed and no ACK is in flight at any scheduling, and two replicas win epoch 2. |
| ClusterFailover.WinTakesSlots | redis-6.2.0/src/cluster.c:3068-3084 | Only a replica wins whose master has slots and failed, or in a manual failover; it becomes a master with its own slots and its old master's, and no other node gains or loses a slot. |
| ClusterFailover.WinnerLeads | redis-6.2.0/src/cluster.c:3255-3271 | Over every run: the winner of epoch e takes e as its configuration epoch if and only if it took and was told no greater one of its own since the start of the election; e exceeds its old master's epoch if and only if it was told of none as great; its headers announce that epoch with the slots of both. |
| ClusterFailover.WinnersDiffer | redis-6.2.0/src/cluster.c:3255-3271 | Two replicas that win in one run win different epochs, and take different configuration epochs if neither was given a greater one of its own meanwhile. |
| ClusterFailover.VoteExactly | redis-6.2.0/src/cluster.c:2866-2967 | A node votes if and only if it serves slots as a master, the sender is a replica of a failed master or in a manual failover, no claimed slot has a newer owner, it has seen no newer epoch, has not voted in this one, and its clock lets it. |
| ClusterFailover.CountsExactly | redis-6.2.0/src/cluster.c:2145-2157 | An ACK adds one to the count if and only if its sender is a master with slots and its epoch not older than the election. |
| ClusterFailover.GrantedIsCast | redis-6.2.0/src/cluster.c:2866-2967 | Every vote recorded in a run was cast at some step by a node that endorsed the request at that moment. |
| ClusterFailover.WinIsEndorsed | redis-6.2.0/src/cluster.c:2866-2967 | Behind every win of every run without stale ACKs stands a majority of the voters each of which endorsed the winner's claim when it voted. |
| ClusterFailoverGap.OutrankedWinner | redis-6.2.0/src/cluster.c:3255-3271 | A master takes a newer epoch after voting for its replica: the replica wins with epoch 1 against 2. |
| ClusterFailoverGap.EqualWinners | redis-6.2.0/src/cluster.c:1090-1107 | A replica takes epoch 2 by hand during its election for epoch 1 while another is elected in epoch 2: both win, with the same configuration epoch and the same slot. |
| EpochCollision.MoveKeepsChronicle | redis-6.2.0/src/cluster.c:1155-1170 | A collision step keeps: every epoch a master has left was held by a master with a greater name. |
| EpochCollision.FewEpochs | redis-6.2.0/src/cluster.c:1155-1170 | The k masters with the greatest names never held more than k epochs between them. |
| EpochCollision.MovesAreBounded | redis-6.2.0/src/cluster.c:2091-2096 | In every run of header exchanges a master moves at most as often as there are masters with greater names; the greatest never moves. |
| EpochCollision.ResolvedExactlyWhenStill | redis-6.2.0/src/cluster.c:2091-2096 | After any such run no fresh header makes anybody move if and only if all config epochs are distinct. |
| EpochCollision.CollidesExactly | redis-6.2.0/src/cluster.c:1155-1170 | A header makes a node take a new configuration epoch if and only if both are masters, the sender announces the node's own epoch and is not known under a newer one, and its name is the greater; the new epoch is one above all both have seen. |
| EpochCollision.BumpsExactly | redis-6.2.0/src/cluster.c:1090-1107 | Taking an epoch by hand does nothing if the node's epoch is the greatest it knows and not zero, and else makes it that. |
| SlotTable.SetBit | redis-6.2.0/src/cluster.c:3786-3790 | Sets exactly the bit of the given position. |
| SlotTable.ClearBit | redis-6.2.0/src/cluster.c:3793-3797 | Clears exactly that bit. |
| SlotTable.Node.SetSlotBit | redis-6.2.0/src/cluster.c:3817-3839 | The node's slots gain the slot, numslots stays the number of set bits, and the old bit is returned. |
| SlotTable.Node.ClearSlotBit | redis-6.2.0/src/cluster.c:3842-3847 | The node's slots lose the slot, numslots stays the number of set bits, and the old bit is returned. |
| SlotTable.Node.GetSlotBit | redis-6.2.0/src/cluster.c:3850-3852 | Tells whether the slot is the node's. |
| SlotTable.Table.AddSlot | redis-6.2.0/src/cluster.c:3858-3863 | Binds an unassigned slot and refuses an assigned one, keeping slots[j] == n exactly when bit j of n is set. |
| SlotTable.Table.DelSlot | redis-6.2.0/src/cluster.c:3868-3875 | Unbinds the slot; the bit its assertion tests is always set. |
| SlotTable.Table.Rebind | redis-6.2.0/src/cluster.c:1672-1673 | Deleting and adding moves exactly that slot to the new owner. |
| SlotTable.Table.DelNodeSlots | redis-6.2.0/src/cluster.c:3879-3889 | Unassigns exactly the node's slots and returns how many they were. |
| SlotTable.Table.DelNode | redis-6.2.0/src/cluster.c:983-1010 | The node is gone from slots, importing and migrating, which become empty where it was, and every other entry is as before. |
| SlotTable.Table.ReplaceMaster | redis-6.2.0/src/cluster.c:3068-3084 | Failover moves exactly the old master's slots to this node. |
| SlotTable.Table.CloseAllSlots | redis-6.2.0/src/cluster.c:3893-3898 | No slot is importing or migrating any more, and the table stays valid. |
| SlotTable.Table.Reset | redis-6.2.0/src/cluster.c:558-585 | No slot is assigned, importing or migrating, and only this node is known. |
| SlotTable.Table.ClaimSlot | redis-6.2.0/src/cluster.c:1643-1677 | A claimed slot changes hands exactly when it is not the sender's, not being imported, and unowned or owned under a smaller epoch. |
| SlotTable.Table.ClaimSlots | redis-6.2.0/src/cluster.c:1642-1679 | The loop rebinds exactly the slots the claim wins; it reports exactly when curmaster lost one and exactly the slots lost with keys in them. |
| SlotTable.Table.UpdateSlotsConfigWith | redis-6.2.0/src/cluster.c:1619-1713 | A claim about this node itself changes nothing; otherwise exactly the slots it wins are rebound, and, unless a module switched redirection off, when the null master is dereferenced, when this node is demoted and which slots are emptied, each as an if-and-only-if. |
| SlotClaims.DeliverSlot | redis-6.2.0/src/cluster.c:2028-2043 | Skipping claims whose bitmap is already in the table changes no slot. |
| SlotClaims.DeliverSettles | redis-6.2.0/src/cluster.c:1653-1677 | The greatest claimant of a contestable slot takes it the first time it is heard, also from an owner that no longer claims it. |
| SlotClaims.DeliverStays | redis-6.2.0/src/cluster.c:1653-1677 | Once it holds the slot no other claim takes it away. |
| SlotClaims.ClaimsConverge | redis-6.2.0/src/cluster.c:1619-1679 | Any order with any repetition leaves a contestable slot with its greatest-epoch claimant. |
| SlotClaims.ConvergesExactly | redis-6.2.0/src/cluster.c:1657-1658 | A slot goes to its greatest claimant under every complete schedule if and only if it is contestable: unassigned, held by a claimant, or held by a master that gave it up and has a smaller epoch than some claimant. |
| SlotClaims.OrderDecides | redis-6.2.0/src/cluster.c:1657-1658 | Otherwise, if the owner's epoch is not yet known in full, hearing the claimant or the owner first gives different tables. |
| SlotClaims.OrderDecidesHere | redis-6.2.0/src/cluster.c:1657-1658 | Such a table: node 0 held slot 0 under epoch 1, has given it up and is at epoch 5, node 1 claims it under epoch 3, and the two orders leave it with different nodes. |
| SlotClaims.TablesAgree | redis-6.2.0/src/cluster.c:1619-1679 | Two nodes that heard every claim, in any orders, have the same table. |
| SlotClaims.DeliverIsUpdate | redis-6.2.0/src/cluster.c:1619-1679 | With nodes replaced by their names, the owners that UpdateSlotsConfigWith leaves are those of Deliver. |
| SlotRanges.RunsAreMaximal | redis-6.2.0/src/cluster.c:4179-4198 | A node's ranges are sorted, cannot be joined or extended, and hold exactly its slots. |
| SlotRanges.GenNodesSlotsInfo | redis-6.2.0/src/cluster.c:4221-4250 | One pass gives every node that is not filtered its maximal ranges, and filtered nodes none. |
| SlotRanges.NodeRanges | redis-6.2.0/src/cluster.c:4179-4198 | The scan of one node's bitmap gives the same ranges. |
| SlotRanges.ParsePrint | redis-6.2.0/src/cluster.c:275-287 | A printed range is parsed back. |
| SlotRanges.ReadOpen | redis-6.2.0/src/cluster.c:248-273 | The word printed for an open slot is read back: slot, direction and node. |
| SlotRanges.NumbersRead | redis-6.2.0/src/cluster.c:248-287 | A range of two printed numbers is taken if and only if both are slots, a single number or an open slot if it is one; any other is a format error. |
| SlotRanges.LoadWords | redis-6.2.0/src/cluster.c:244-289 | For any words: loading stops at the first that cannot be read and fails if and only if there is one; exactly the unassigned slots of the ranges before it are bound to the node, and every slot is migrating to or importing from the node that the last word about it names. |
| SlotRanges.PrintAndLoad | redis-6.2.0/src/cluster.c:4179-4213 | Printing the ranges of all nodes and the open slots of this one, and loading that into empty tables, rebuilds the slot table and the migrating slots; it rebuilds the importing slots if and only if none of them is migrating too. |
| SlotRanges.ImportIsForgotten | redis-6.2.0/src/cluster.c:4203-4213 | Slot 0 migrating and importing at once: what is printed and read back has it migrating only. |
| SlotRouting.ScanCommand | redis-6.2.0/src/cluster.c:5760-5819 | The loop over one command's keys keeps slot, moving flags, number of missing keys and the several-keys flag right for all keys seen so far, and stops exactly on an unbound first slot or a key of another slot. |
| SlotRouting.Decide | redis-6.2.0/src/cluster.c:5827-5898 | The decisions after the loops, error by error, are those of the specification, whose promises the lemmas below state. |
| SlotRouting.GetNodeByQuery | redis-6.2.0/src/cluster.c:5707-5898 | Loops and decisions together give, for the whole key list, the answer of the specification the lemmas below are about. |
| SlotRouting.ServedForAnother | redis-6.2.0/src/cluster.c:5849-5898 | A node serves a slot it does not own only for MIGRATE on an open slot, for a client that asks on an importing one, or for a READONLY client that reads, or runs a script, at a replica of the owner. |
| SlotRouting.ServesForAnother | redis-6.2.0/src/cluster.c:5849-5898 | And in these cases it does, unless a client that asks wants several keys some of which are missing. |
| SlotRouting.OwnerServes | redis-6.2.0/src/cluster.c:5849-5898 | The owner serves its slot if and only if no key of a migrating slot is missing and a client that asks does not want several keys some of which are, MIGRATE apart. |
| SlotRouting.RefusedExactly | redis-6.2.0/src/cluster.c:5760-5845 | When a request is answered with an unbound slot, with keys of several slots, and with the cluster being down, each as an if-and-only-if. |
| SlotRouting.RedirectsAway | redis-6.2.0/src/cluster.c:5854-5898 | MOVED names the owner and never this node; ASK comes only from the owner, for a key it lacks, and names the node it migrates to; TRYAGAIN only where keys are missing. |
| SlotRouting.WritesAtOwner | redis-6.2.0/src/cluster.c:5884-5898 | A served write that is no script, no MIGRATE and not let in by ASKING is served by the owner. |
| SlotRouting.OneWriter | redis-6.2.0/src/cluster.c:5707-5898 | Of two nodes that agree on the owners at most one serves such a write. |
| SlotRouting.MovedIsServed | redis-6.2.0/src/cluster.c:5707-5898 | A client that follows MOVED to a node that agrees on the owner, has the slot closed and is up, is served. |
| SlotRouting.DownRefusesWrites | redis-6.2.0/src/cluster.c:5827-5845 | With the cluster down and reads allowed, a writing request is refused if and only if it is neither a script nor a transaction. |
| SlotRouting.TransactionWritesWhileDown | redis-6.2.0/src/cluster.c:5827-5845 | An EXEC whose queued command writes is served while the cluster is down. |
| Resharding.AnswerS | redis-6.2.0/src/cluster.c:5859-5864 | The migrating node serves a request if and only if it has all its keys, and else sends it on. |
| Resharding.AnswerT | redis-6.2.0/src/cluster.c:5866-5879 | The importing node serves a request if and only if the client asks and the keys are one or all present. |
| Resharding.StepIsSafe | redis-6.2.0/src/cluster.c:4569-4645 | No step puts a key on both nodes; after it a request to the importing node can do so if and only if the step made that node the owner while the source has keys; the source's keys only shrink, and it serves only requests it has all keys of. |
| Resharding.ReshardingIsSafe | redis-6.2.0/src/cluster.c:5707-5898 | Over every run without such a step, for single keys, several keys and transactions, no key is on both nodes and no request can put one there. |
| Resharding.NoKeyIsLost | redis-6.2.0/src/cluster.c:4569-4645 | Over every run a key that no served request and no expiry touches is on one of the nodes afterwards if and only if it was before. |
| Resharding.TouchedKeys | redis-6.2.0/src/cluster.c:5849-5898 | A served request leaves exactly the keys it keeps, at the node that serves it; expiry and MIGRATE take away exactly the keys they name. |
| Resharding.AskIsAnswered | redis-6.2.0/src/cluster.c:5859-5879 | A client that is sent on may ask at the importing node and is served there unless it wants several keys that have not all arrived. |
| Resharding.OwnershipMoves | redis-6.2.0/src/cluster.c:4596-4645 | After the source was told of the new owner it sends every request there, and after the importing node was told it serves every request, for the rest of the run. |
| Resharding.MoveCanFinish | redis-6.2.0/src/cluster.c:4569-4645 | From every safe state the move can be finished, with all keys at the new owner. |
| Resharding.ClosedTooEarly | redis-6.2.0/src/cluster.c:4596-4645 | With key a still at the source, SETSLOT NODE at the importing node is accepted and a plain request for a then leaves it on both nodes. |
| Resharding.AskingUnasked | redis-6.2.0/src/cluster.c:5866-5879 | A client that sends ASKING unasked puts a key on both nodes. |
| Crc64.CrcReflect | redis-6.2.0/src/crc64.c:69-78 | The loop reverses the low bits of the word. |
| Crc64.BitwiseCrc64 | redis-6.2.0/src/crc64.c:88-111 | The nested loops divide bit by bit and reflect the result. |
| Crc64.CheckValue | redis-6.2.0/src/crc64.c:134-135 | The value of the digits 1 to 9 is e9c6d914c4b8d9ca. |
| CrcPolynomial.StepIs | redis-6.2.0/src/crc64.c:92-108 | One step, on polynomials over GF(2): the register times x plus the data bit times x^64 is the new register plus the generator if that was subtracted. |
| CrcPolynomial.DivideIsRemainder | redis-6.2.0/src/crc64.c:88-111 | The register is the remainder, modulo the generator of degree 64, of the start moved up by the message length plus the message times x^64, for every message and start. |
| CrcPolynomial.OnlyRemainder | redis-6.2.0/src/crc64.c:88-111 | A polynomial is that remainder if and only if it is the register. |
| CrcReflected.ShiftLinear | redis-6.2.0/src/crcspeed.c:33-50 | Dividing is linear over exclusive or. |
| CrcReflected.ShiftByLowByte | redis-6.2.0/src/crcspeed.c:33-50 | Eight division steps depend only on a table entry for the low byte and the shifted rest. |
| CrcReflected.UpdateIsReflectedDivision | redis-6.2.0/src/crc64.c:88-111 | The reflected register follows the plain division for every message and start. |
| CrcSpeed.NextEntry | redis-6.2.0/src/crcspeed.c:41-49 | A table row follows from the previous one as the second loop computes it. |
| CrcSpeed.ShiftIsSlices | redis-6.2.0/src/crcspeed.c:122-135 | Sixty-four division steps are eight table entries combined. |
| CrcSpeed.InitLittle | redis-6.2.0/src/crcspeed.c:33-50 | The table holds, for every row and byte, the division of that byte followed by so many zero bytes. |
| CrcSpeed.CrcSpeed64Little | redis-6.2.0/src/crcspeed.c:112-144 | For every buffer, length, alignment and start the slice-by-8 loop equals the byte-wise division. |
| CrcSpeedBig.Rev8 | redis-6.2.0/src/crcspeed.c:71-83 | Reverses the bytes of a word. |
| CrcSpeedBig.InitBig | redis-6.2.0/src/crcspeed.c:87-95 | The big-endian table is the little-endian one with every entry byte-swapped. |
| CrcSpeedBig.LoadsSwap | redis-6.2.0/src/crcspeed.c:183-213 | A big-endian load is the byte swap of a little-endian one. |
| CrcSpeedBig.CrcSpeed64Big | redis-6.2.0/src/crcspeed.c:183-213 | The big-endian loop gives the same value for every buffer, length, alignment and start. |
| CrcSpeedBig.CrcNative | redis-6.2.0/src/crc64.c:116-123 | On either kind of machine crc64 is the reflected bit-by-bit division. |
| AofFormat.CatGenericCommand | redis-6.2.0/src/aof.c:538-561 | Appends the command in the file's format, for any bytes. |
| AofFormat.SpacesAreSkipped | redis-6.2.0/src/aof.c:836-836 | White space in front of a number does not count. |
| AofFormat.StrToLSaturates | redis-6.2.0/src/aof.c:836-836 | Numbers too large or too small for 64 bits become the largest and the smallest, and a plus sign changes nothing. |
| AofLoader.ReadWhole | redis-6.2.0/src/aof.c:808-854 | A printed command is read back exactly, whatever follows it. |
| AofLoader.CutCommand | redis-6.2.0/src/aof.c:808-854 | A printed command cut at any inner byte is a short read, never a format error. |
| AofReplay.LoadArgs | redis-6.2.0/src/aof.c:825-854 | The argument loop reads what its specification reads, with every error case. |
| AofReplay.LoadCommand | redis-6.2.0/src/aof.c:808-854 | One iteration up to the command lookup does what its specification does. |
| AofReplay.LoadAppendOnlyFile | redis-6.2.0/src/aof.c:739-957 | The loader runs what the replay function runs, for every file, with or without a snapshot in front, and every configuration; AofRefusal says what it refuses. |
| AofRefusal.OnlyCutIfAllowed | redis-6.2.0/src/aof.c:922-949 | Whatever the file and the configuration, loading makes no file longer, and shorter only if aof-load-truncated is on and the system calls succeed. |
| AofRefusal.CutIsRefused | redis-6.2.0/src/aof.c:893-949 | Without that a printed log cut at any byte is loaded in full if the cut lies between two entries, and refused as an unexpected end if it lies inside a command or a transaction. |
| AofRefusal.CutIsRefusedWithSnapshot | redis-6.2.0/src/aof.c:771-949 | The same for the commands after a snapshot. |
| AofRefusal.GarbageIsRefused | redis-6.2.0/src/aof.c:814-814 | Whole entries followed by a byte that begins no command are a format error. |
| AofRefusal.BadArgumentIsRefused | redis-6.2.0/src/aof.c:827-835 | So is the head of a command followed by something that is no argument. |
| AofRefusal.UnknownIsRefused | redis-6.2.0/src/aof.c:856-863 | Whole entries followed by a command the table lacks are an unknown command, whatever comes after it. |
| AofRefusal.NulIsRefused | redis-6.2.0/src/aof.c:815-816 | Whole entries followed by a star and a NUL are a read error. |
| AofRecovery.RoundTrip | redis-6.2.0/src/aof.c:538-561 | Loading a printed log executes exactly the commands it stands for, transactions included, and keeps the file. |
| AofRecovery.Recovery | redis-6.2.0/src/aof.c:893-946 | Loading any non-empty byte prefix executes exactly the entries wholly in it and truncates at the boundary Kept names. |
| AofRecovery.RecoveredAgain | redis-6.2.0/src/aof.c:893-946 | The truncated file loads to the same commands, and that load drops a transaction left open. |
| AofRecovery.AfterSwallowed | redis-6.2.0/src/aof.c:865-875 | Entries read inside an open transaction are queued; the EXEC of a transaction among them runs the whole queue in order, a nested MULTI doing nothing. |
| AofRecovery.AppendToOpen | redis-6.2.0/src/aof.c:865-902 | Single commands appended to a file with an open transaction are all lost at the next load; with a transaction among them exactly the recovered commands, the part of the old transaction that was left, and the appended commands are run. |
| AofRecovery.RecoverThenAppend | redis-6.2.0/src/aof.c:865-946 | The next load runs exactly the recovered and the appended commands if and only if the cut was not inside a later command of a transaction, nothing is appended, or the cut was inside the command after MULTI and a transaction is appended. |
| AofRecovery.AppendedIsLost | redis-6.2.0/src/aof.c:893-946 | A transaction of two commands cut one byte into the first, recovered, one command appended: the next load runs nothing. |
| AofRecovery.HalfIsExecuted | redis-6.2.0/src/multi.c:161-260 | Cut one byte into the second and a transaction appended: the next load also runs the first command, whose transaction was never complete. |
| AofPreamble.RoundTripWithSnapshot | redis-6.2.0/src/aof.c:771-790 | A snapshot followed by a printed log loads to the log's commands and keeps the file. |
| AofPreamble.RecoveryWithSnapshot | redis-6.2.0/src/aof.c:745-790 | A tail cut at any byte executes exactly the entries wholly in it; the file is truncated as without a snapshot, but to nothing if the cut keeps none of a non-empty tail. |
| AofPreamble.SnapshotSurvives | redis-6.2.0/src/aof.c:745-790 | The snapshot stays on disk if and only if the cut is at its end, the first entry is whole, or the cut is inside a later command of the first entry. |
| AofPreamble.SnapshotIsLost | redis-6.2.0/src/aof.c:922-946 | One byte of a first command after a snapshot leaves a file of size zero. |
| AofPreamble.LeftFileIs | redis-6.2.0/src/aof.c:922-946 | What recovery leaves on disk of a snapshot and a tail cut at any byte. |
| AofPreamble.RecoverThenAppendWithSnapshot | redis-6.2.0/src/aof.c:745-946 | After a recovery and further writes the next load finds the snapshot and runs exactly the recovered and the appended commands if and only if the snapshot survived and, as without one, no transaction was left open, nothing is appended, or only MULTI was left and a transaction is appended. |
| AofExpire.CatExpireAtCommand | redis-6.2.0/src/aof.c:570-597 | Appends PEXPIREAT with the moment the argument stands for, in 64-bit arithmetic. |
| AofExpire.CatFedCommand | redis-6.2.0/src/aof.c:611-649 | Appends the rewritten command: EXPIRE, PEXPIRE and EXPIREAT as PEXPIREAT, SET PX as SET PXAT, all others as they are. |
| AofExpire.DeadlineMeans | redis-6.2.0/src/aof.c:570-597 | What moment each command and option stands for, for every number and time without overflow. |
| AofExpire.RewrittenIsAbsolute | redis-6.2.0/src/aof.c:570-649 | Whenever it is replayed, the rewritten command sets the deadline the command would have set when it was fed, for the same key and value, and is not rewritten again. |
| AofExpire.ReplayedDeadline | redis-6.2.0/src/expire.c:503-547 | Without overflow a replayed deadline is later than the one the executing server set by exactly the time between executing and feeding, and equal if the command gave the moment. |
| AofFeed.FedEffect | redis-6.2.0/src/aof.c:599-665 | Replaying what was fed changes a dataset as executing it did, from any selected database when none was known. |
| AofFeed.FedBytes | redis-6.2.0/src/aof.c:599-665 | The calls made for one EXEC are the bytes of one well-formed transaction, with a SELECT wherever the database changes. |
| AofFeed.DoneEffect | redis-6.2.0/src/aof.c:599-665 | Replaying what was fed for executed commands, at any later time, changes a dataset as executing them did, with times to live rewritten to moments on the way. |
| AofHandoff.StepConserves | redis-6.2.0/src/aof.c:95-194 | Every step keeps: child diff, pipe and blocks together are the bytes fed since the fork. |
| AofHandoff.StepAgrees | redis-6.2.0/src/aof.c:1666-1687 | Every step keeps what the '!' handshake promises: the pipe is empty once the child has finished. |
| AofHandoff.InstallIsCurrent | redis-6.2.0/src/aof.c:1837-1996 | The file a successful rewrite installs, an RDB snapshot or commands followed by the difference, rebuilds the live dataset although aof_buf is discarded. |
| AofHandoff.InvRun | redis-6.2.0/src/aof.c:1532-1657 | All invariants hold in every state of every interleaving. |
| AofHandoff.NothingIsLost | redis-6.2.0/src/aof.c:1425-1435 | In every interleaving the three parts are the fed bytes, and the new file is the snapshot, in either form, followed by all of them. |
| AofHandoff.FileRebuildsDataset | redis-6.2.0/src/aof.c:1749-1790 | In every reachable state with the AOF on, loading file and buffer at any time rebuilds the live dataset that the executed commands left, whether the file begins with an RDB snapshot or not and times to live included. |
| AofHandoff.FlushedFileIsAPrefix | redis-6.2.0/src/aof.c:346-536 | The file alone loads to its snapshot and whole entries of that log. |
| AofProgress.RewriteCanFinish | redis-6.2.0/src/aof.c:1583-1601 | In every reachable state a running rewrite can still succeed if and only if the child has not failed and the parent's answer was not lost; then the steps that remain install the snapshot followed by all that was fed since the fork, and switch the AOF on unless it is off. |
| AofProgress.FailureIsHarmless | redis-6.2.0/src/aof.c:1972-1995 | A rewrite that fails, is killed or cannot be installed leaves file, buffer and dataset alone and nothing of itself. |
| AofProgress.RewriteIsInvisible | redis-6.2.0/src/aof.c:95-122 | No other step of the two processes touches the log; flushing moves bytes from the buffer to the file. |
| AofProgress.DisabledFileIsComplete | redis-6.2.0/src/aof.c:234-249 | Switching the AOF off leaves a file that loads to the dataset of that moment, and no buffer and no rewrite. |
| AofProgress.OnlyARewriteSwitchesOn | redis-6.2.0/src/aof.c:253-299 | The AOF comes on only by a successful rewrite after it was switched on, and until then nothing is appended to the file. |
| AofProgress.LoadedFrom | redis-6.2.0/src/aof.c:771-790 | A file of entries is replayed from an empty dataset, one with a snapshot from what that restores. |
| AofBuffers.Block.Add | redis-6.2.0/src/aof.c:133-140 | The copy appends to the bytes in use. |
| AofBuffers.Block.Drop | redis-6.2.0/src/aof.c:112-119 | The move drops the first bytes and keeps the rest in order. |
| AofBuffers.RewriteBuffer.Append | redis-6.2.0/src/aof.c:125-169 | The buffer's contents grow by exactly the data, over however many blocks. |
| AofBuffers.RewriteBuffer.SendDiff | redis-6.2.0/src/aof.c:95-122 | Whatever write returns, the bytes sent are the front of the buffer, the rest stays, and after the stop nothing is sent. |
| AofBuffers.RewriteBuffer.WriteTo | redis-6.2.0/src/aof.c:174-194 | Success means everything was written in order; a failure wrote a prefix. |
| AofBuffers.RewriteBuffer.Size | redis-6.2.0/src/aof.c:79-90 | The number of bytes in the buffer. |
| AofFlush.Server.Feed | redis-6.2.0/src/aof.c:599-665 | aof_buf and the rewrite buffer each grow by the SELECT, if one is needed, and the rewritten command. |
| AofFlush.Server.AofWrite | redis-6.2.0/src/aof.c:308-325 | With any short, interrupted and failed writes the file grows by exactly the reported prefix. |
| AofFlush.Server.WriteBuffer | redis-6.2.0/src/aof.c:400-503 | A short write is undone, or taken out of the buffer: file and buffer together are unchanged while the server lives. |
| AofFlush.Server.TryFsync | redis-6.2.0/src/aof.c:505-535 | When the synced offset moves and when the server exits. |
| AofFlush.Server.Flush | redis-6.2.0/src/aof.c:346-536 | Whatever writes, truncation and syncs do, no byte is lost, repeated or reordered and the recorded size is the file's; under always the buffer is written and synced or the server exits; postponing changes nothing. |
| AclRules.ObeyKeeps | redis-6.2.0/src/acl.c:824-1011 | Every accepted rule keeps: the flag means all bits, bits of no command equal the reserved bit, only disallowed commands have subcommands, each once. |
| AclRules.RulesKeep | redis-6.2.0/src/acl.c:824-1011 | So does every list of rules. |
| AclRules.RuleMeans | redis-6.2.0/src/acl.c:824-1011 | For every user, rule, command and arguments: the rule is accepted if and only if what it names exists, and then the verdict on the command is what the rule says of the verdict before. |
| AclRules.RulesMean | redis-6.2.0/src/acl.c:824-1011 | The same for every list of rules, read one after the other. |
| AclRules.CategoryRule | redis-6.2.0/src/acl.c:414-429 | After +@name or -@name every command of the category that is no module's has that bit and no subcommands, every other entry is as before, and the flag survives unless a command was taken away. |
| AclRules.WordsMean | redis-6.2.0/src/acl.c:824-880 | Of the words without a sign three are about all commands, in any case, and the others that are accepted are those of OthersAre. |
| AclRules.OthersAre | redis-6.2.0/src/acl.c:824-960 | The words for flags and what starts a rule about passwords, keys or channels. |
| AclCommandIds.CommandIds.GetCommandId | redis-6.2.0/src/acl.c:1126-1152 | Names keep distinct numbers for good, in any case, and none gets the reserved bit. |
| AclUser.UserObject.SetCommandBit | redis-6.2.0/src/acl.c:397-406 | Sets the bit, ignores numbers out of range, and clears the flag when a bit is cleared. |
| AclUser.UserObject.SetCategoryBits | redis-6.2.0/src/acl.c:414-429 | The loop does to the user what SetCategory does, which AclRules.CategoryRule states entry by entry and AclRules.RuleMeans by verdict. |
| AclUser.UserObject.AddAllowedSubcommand | redis-6.2.0/src/acl.c:711-738 | Appends a subcommand unless it is listed in any case. |
| AclUser.UserObject.Set | redis-6.2.0/src/acl.c:824-1011 | Does to the user what the rule interpreter says, stopping at a NUL as C strings do; unknown words, commands and categories and empty subcommands are errors that change nothing. |
| AclUser.UserObject.CountCategoryBits | redis-6.2.0/src/acl.c:435-455 | Counts the allowed and the denied commands of a category. |
| AclUser.CountIs | redis-6.2.0/src/acl.c:435-455 | The count is the number of places in the table that hold a command of the category with that bit. |
| AclUser.UserObject.CheckCommandPerm | redis-6.2.0/src/acl.c:1177-1209 | The verdict on a command, by flag, bit or subcommand. |
| AclUser.BestCategory | redis-6.2.0/src/acl.c:512-536 | Finds a category with more in common than different and the fewest differences, if there is one. |
| AclUser.DescribeCategories | redis-6.2.0/src/acl.c:464-555 | The first rules give the fake user's state and start with +@all or -@all; the loop ends. |
| AclDescribe.FixApplied | redis-6.2.0/src/acl.c:557-583 | The words for one command give it the user's bit and subcommands and change nothing else. |
| AclUser.Describe | redis-6.2.0/src/acl.c:464-603 | The rules rebuild bitmap and subcommands on a new user, and the bitmap comparison never panics. |
| AclUser.SameVerdicts | redis-6.2.0/src/acl.c:1177-1209 | Equal bitmaps and subcommands give equal verdicts even where only one user has the flag. |
| AclUser.DescriptionRestores | redis-6.2.0/src/acl.c:464-603 | For every user reached by rules, setting the description on any user gives the same bitmap, subcommands and verdicts. |
| AclDescribe.SplitJoin | redis-6.2.0/src/acl.c:1532-1532 | Words without spaces survive joining and splitting. |
| AclFile.SdsTrim | redis-6.2.0/src/sds.c:747-760 | The two loops remove the characters of the set from both ends and nothing else. |
| AclFile.SdsSplit | redis-6.2.0/src/sds.c:857-905 | The loop splits at every occurrence of the separator, empty words included. |
| AclFile.SaveToFile | redis-6.2.0/src/acl.c:1636-1663 | One line for every user: its name and the words of its description. |
| AclFile.LoadFromFile | redis-6.2.0/src/acl.c:1484-1629 | The loop over the lines gives what the line by line specification gives, and with any error the users stay as they were. |
| AclFile.RefusedExactly | redis-6.2.0/src/acl.c:1520-1580 | A file is refused if and only if it has a line that is not blank and is not the word user, a name without white space and rules about what exists. |
| AclFile.NulEndsLine | redis-6.2.0/src/acl.c:1497-1500 | Of a line that fits the buffer what follows a NUL is lost. |
| AclFile.LongLineIsCut | redis-6.2.0/src/acl.c:1497-1500 | A longer line is read buffer by buffer. |
| AclFile.DefaultMayAll | redis-6.2.0/src/acl.c:1515-1518 | Without a line about it the default user may run everything. |
| AclFile.LoadedIsSturdy | redis-6.2.0/src/acl.c:1484-1629 | Whatever the file, no user loaded from it has a subcommand with a space or line feed in it or with a tab or carriage return at its end. |
| AclFile.SavedIsLoaded | redis-6.2.0/src/acl.c:1636-1663 | Users without such subcommands are all loaded back with bitmap and subcommands, and no others but the default user. |
| AclFile.FileRoundTrip | redis-6.2.0/src/acl.c:1484-1629 | Saving and loading restores every user if and only if no user has such a subcommand. |
| AclFile.LineFeedIsLost | redis-6.2.0/src/acl.c:1505-1526 | A user with a subcommand of debug that has a line feed in it, as a rule sets it, is not restored. |
| PopCount.WordValue | redis-6.2.0/src/bitops.c:66-86 | The masked sums of a word hold the four bytes' bit counts in its four lanes. |
| PopCount.MultiplyShift | redis-6.2.0/src/bitops.c:80-86 | With lanes of at most 56 the 32-bit multiply and shift adds them up without overflow. |
| PopCount.CountRound | redis-6.2.0/src/bitops.c:54-87 | One round counts the bits of its 28 bytes. |
| PopCount.Popcount | redis-6.2.0/src/bitops.c:40-92 | The result is the sum of the bytes' bit counts for every buffer, alignment and length. |
| BitPos.SkipAhead | redis-6.2.0/src/bitops.c:118-142 | Nothing skipped matches, and a match follows unless less than a word is left. |
| BitPos.ScanWord | redis-6.2.0/src/bitops.c:168-184 | The probe finds the first match; the panic is unreachable. |
| BitPos.FindBit | redis-6.2.0/src/bitops.c:101-186 | The first matching bit for every buffer, alignment and length; without one, -1 for ones and the length for zeros. |
| BitStrings.ReadWrite | redis-6.2.0/src/bitops.c:209-241 | A written field reads back modulo its width and no other bit changes. |
| BitField.CheckUnsignedIs | redis-6.2.0/src/bitops.c:288-323 | In 64-bit arithmetic the check finds exactly the sums that do not fit, and its limit is what is to be stored. |
| BitField.CheckSignedIs | redis-6.2.0/src/bitops.c:325-377 | The same for signed fields, with the one case where saturation picks the wrong end. |
| BitField.StepMeans | redis-6.2.0/src/bitops.c:1044-1114 | After a write the field reads as the stored number, a refused one changes nothing, and no other bit changes. |
| BitField.SignedSaturates | redis-6.2.0/src/bitops.c:325-347 | The saturating signed check yields a number of the width nearest to the sum if and only if the value is not below the range with max - value overflowing 64 bits. |
| BitField.UnsignedSaturates | redis-6.2.0/src/bitops.c:288-309 | The saturating unsigned check always does. |
| BitField.SaturationIsNearest | redis-6.2.0/src/bitops.c:1054-1113 | After a saturating SET or INCRBY the field reads as the number of its width nearest to what the client asked for if and only if the operation is neither a signed SET that far below the range nor an unsigned SET of a negative number. |
| BitField.SetsTheWrongEnd | redis-6.2.0/src/bitops.c:325-347 | SET i8 to -2^63 stores 127. |
| BitField.SetsNegativeToMax | redis-6.2.0/src/bitops.c:288-300 | SET u8 to -1 stores 255, although 0 is nearer. |
| BitField.RefusedExactly | redis-6.2.0/src/bitops.c:1054-1113 | With OVERFLOW FAIL a write is refused if and only if what was asked for does not fit. |
| BitField.WrapsModulo | redis-6.2.0/src/bitops.c:1054-1113 | With OVERFLOW WRAP the field afterwards is what was asked for modulo 2 to its width. |
| BitField.RepliesExactly | redis-6.2.0/src/bitops.c:1044-1147 | GET changes nothing and replies what the field holds, SET what it held, INCRBY what it holds afterwards. |
| BitFieldOps.GetUnsigned | redis-6.2.0/src/bitops.c:229-241 | Reads the field's bits as a number. |
| BitFieldOps.GetSigned | redis-6.2.0/src/bitops.c:243-263 | Reads them as two's complement. |
| BitFieldOps.SetUnsigned | redis-6.2.0/src/bitops.c:209-227 | Writes exactly the field's bits. |
| BitFieldOps.GetField | redis-6.2.0/src/bitops.c:1116-1147 | The nine-byte window reads the field at any offset, past the end too. |
| BitFieldOps.ComputeSigned | redis-6.2.0/src/bitops.c:1054-1083 | New value, reply and refusal of a signed SET or INCRBY are those of the integer specification. |
| BitFieldOps.ComputeUnsigned | redis-6.2.0/src/bitops.c:1084-1113 | The same for unsigned fields. |
| BitFieldOps.RunOps | redis-6.2.0/src/bitops.c:1039-1149 | Bits and replies after the whole list are those of the integer steps one after the other. |
| BitFieldOps.GrowthIsInvisible | redis-6.2.0/src/bitops.c:1028-1034 | Making room for the writes does not change the zero-padded bit string. |
| BitFieldOps.SizeFor | redis-6.2.0/src/bitops.c:989-993 | The string is given room for every bit that is written, and no byte more than the highest needs. |
| BitFieldOps.Bitfield | redis-6.2.0/src/bitops.c:1012-1149 | For a string of any length the replies and the bits afterwards are those of the operations on the string continued by zeros without end. |
| AdList.List.AddNodeTail | redis-6.2.0/src/adlist.c:115-133 | The list gains one fresh node at its end. |
| AdList.List.DelNode | redis-6.2.0/src/adlist.c:168-181 | Exactly the given node leaves, wherever it is, and the links stay right. |
| AdList.List.RotateHeadToTail | redis-6.2.0/src/adlist.c:346-358 | The head becomes the tail and the order of the rest stays. |
| AdList.List.Collect | redis-6.2.0/src/adlist.c:230-241 | Iterating visits every value once, in order. |
| BlockedLists.AddNodeTailIs | redis-6.2.0/src/adlist.c:115-133 | Adding a node at the tail of a linked list adds a waiter at the end of its picture. |
| BlockedLists.DelNodeIs | redis-6.2.0/src/adlist.c:168-181 | Deleting a node takes the waiter with its number out of the picture, and no other. |
| BlockedLists.RotateIs | redis-6.2.0/src/adlist.c:346-358 | Rotating the linked list rotates the picture. |
| Blocked.BlockKeeps | redis-6.2.0/src/blocked.c:613-656 | Blocking keeps the two-way index, the counters and one node per client and key. |
| Blocked.UnblockKeeps | redis-6.2.0/src/blocked.c:660-694 | So does unblocking, which leaves no empty list behind. |
| BlockedServing.ServeLoopKeeps | redis-6.2.0/src/blocked.c:253-310 | Serving a list keeps all of it; keys are signalled only after a client has left, and none twice. |
| BlockedServing.FirstComeFirstServed | redis-6.2.0/src/blocked.c:253-310 | Whatever the waiting clients wait for: those that wait for a list are answered in blocking order, each with the element at its end of the list, put back or taken away, until none is left; the key holds the rest and the others wait on. |
| BlockedServing.ServedExactly | redis-6.2.0/src/t_list.c:857-908 | Those served are the first of them, as many as it takes until so many have taken an element away as there were. |
| BlockedServing.MinimumExactly | redis-6.2.0/src/blocked.c:253-310 | Their number is min(waiters, elements) if and only if there are elements enough for all or each of the first clients, as many as there are elements, takes one away. |
| BlockedServing.OneElementServesTwo | redis-6.2.0/src/t_list.c:857-908 | Two clients blocked by BLMOVE k k are both served from one element, which stays. |
| BlockedMoves.ElementsAreConserved | redis-6.2.0/src/t_list.c:857-908 | Serving a list, whoever waits: the elements of all lists together with those handed to clients are the same before and after; every other key is as it was or gained exactly what was moved to it, at the end asked for and in the order of serving; a list that came into being is queued if it is awaited. |
| BlockedMoves.PoppedInOrder | redis-6.2.0/src/blocked.c:253-310 | Clients that pop at one end are handed the elements in their order from that end, and the rest stays. |
| BlockedMoves.ArrivedInOrder | redis-6.2.0/src/t_list.c:718-735 | Elements moved to one end of a list stand there in order, the last outermost. |
| BlockedOthers.ScoredInOrder | redis-6.2.0/src/blocked.c:315-359 | Whatever the waiting clients wait for: those that wait for a sorted set are served in blocking order while elements last, and the others wait on. |
| BlockedOthers.ScoredCount | redis-6.2.0/src/blocked.c:315-359 | Exactly min(waiters, elements) of them are served, and they are the first. |
| BlockedOthers.StreamLoopKeeps | redis-6.2.0/src/blocked.c:364-463 | Serving a stream keeps index and counters and signals nothing. |
| BlockedOthers.GroupShares | redis-6.2.0/src/blocked.c:374-409 | In one pass the clients of a consumer group are sent, together, in order and without repetition, exactly the entries between where the group stood and where it stands afterwards. |
| BlockedWaking.ScoredPops | redis-6.2.0/src/blocked.c:315-359 | A sorted set loses exactly one element for each client served, the last takes the key with it, and no other key changes. |
| BlockedWaking.ReadersAreAnswered | redis-6.2.0/src/blocked.c:364-463 | A client that reads a stream for itself is sent the entries after what it has seen, at most COUNT, if there are any, and else waits on; one whose group is gone is told so; others are passed over. |
| BlockedWaking.GroupReadersServed | redis-6.2.0/src/blocked.c:374-409 | One that reads for a group is served only if the stream has something the group has not read, and waits on only if the group has read everything. |
| BlockedWaking.ListAwake | redis-6.2.0/src/blocked.c:253-310 | After serving a list no client waits for a list or sorted set that could serve it unless that key is queued. |
| BlockedWaking.ScoredAwake | redis-6.2.0/src/blocked.c:315-359 | The same after serving a sorted set. |
| BlockedWaking.WrittenAwake | redis-6.2.0/src/db.c:184-257 | A write keeps that if and only if it does not turn a value of another type into what a client waits for. |
| BlockedWaking.StoredListIsOverlooked | redis-6.2.0/src/sort.c:572-574 | A client blocked in BLPOP on a key that holds a string is not queued for when the key is overwritten with a list. |
| BlockedServer.Server.BlockForKeys | redis-6.2.0/src/blocked.c:613-656 | The loop registers each distinct key once and then counts the client; index, counters and queue stay right. |
| BlockedServer.Server.UnblockClient | redis-6.2.0/src/blocked.c:175-199 | Deleting the remembered nodes takes the client out of every list, and only it; index, counters and queue stay right. |
| BlockedServer.Server.SignalKeyAsReady | redis-6.2.0/src/blocked.c:713-749 | A key is queued only if awaited and not queued; index, counters and queue stay right, also while keys are being worked through. |
| BlockedServer.Server.GiveTo | redis-6.2.0/src/t_list.c:857-908 | The element goes to the client, or on to the destination, which may be new and is then signalled, or back; BlockedMoves says where every element ends up. |
| BlockedServer.Server.ServeListKey | redis-6.2.0/src/blocked.c:253-310 | The loop is the serving function, never looks at a list after its last node left, and drops an empty key. |
| BlockedServer.Server.ServeSortedSetKey | redis-6.2.0/src/blocked.c:315-359 | The same for sorted sets. |
| BlockedServer.Server.ServeStreamKey | redis-6.2.0/src/blocked.c:364-463 | The loop is the serving function: every stream client is answered whose group is gone or has, or who itself has, something new to read, given what the clients before it have read. |
| BlockedServer.Server.HandleClientsBlockedOnKeys | redis-6.2.0/src/blocked.c:531-584 | The nested loops end although BLMOVE signals further keys, with nothing queued and index and counters right; if no client was overlooked before, no client waits for a list or sorted set that could serve it afterwards. |
| BlockedServer.Server.Run | redis-6.2.0/src/blocked.c:531-749 | Any sequence of blocking, unblocking, writing, signalling and serving keeps the two-way index, the counters and the queue of ready keys right, and overlooks no client unless a list or sorted set overwrites another value. |

## Left out

- The Rails application around the vendored Redis sources, and everything in them not named above.
- Sockets, event loop, process creation, clocks and random delays: steps may happen at any time, and results of write, truncate,
  fsync and rename are parameters or arbitrary.
- Cluster: 64-bit wrap-around of epochs, handshake state, crashes (a vote may leave before it is on disk), RESET HARD, TAKEOVER,
  replica ranks, failure detection and gossip, which are arbitrary changes of a node's view; handlers are functions on values,
  only the slot table is modelled in place.
- ClusterElection.ElectionSafety: assumes the voting masters are a fixed set and winners agree on its size, as the protocol
  does.
- SlotClaims.ClaimsConverge: assumes no slot is being imported.
- ClusterFailover.WinnersDiffer: one direction only; winners that were given greater epochs of their own may differ or not.
- EpochCollision.MovesAreBounded: only header exchanges happen during the run.
- Resharding.ReshardingIsSafe: assumes an atomic MIGRATE, commands that touch only their declared keys, and clients that send
  ASKING only after an ASK; CRC-16 is an abstract hash of keys.
- SlotRouting.GetNodeByQuery: module flags that switch redirection off.
- SlotRanges.LoadWords: an open slot's word that ends before the forty bytes of a node name, where the source reads on; a word
  without its dash, at which the source aborts, counts as one that cannot be read.
- SlotRanges.PrintAndLoad: nothing of a node is printed but its slots.
- Append-only file: the effect of commands on a dataset is an abstract function, DISCARD and WATCH, which are never fed, count
  as commands like any other, and in `AofHandoff` a snapshot is any RDB file or list of entries that rebuilds the dataset at the
  fork.
- AofFeed.DoneEffect: a command is executed and fed at the same reading of the clock; `AofExpire.ReplayedDeadline` says what
  difference it makes otherwise.
- AofReplay.LoadAppendOnlyFile: the loader of RDB snapshots is a parameter, and an argument length too large to allocate counts
  as a short read.
- AofHandoff.InvRun: a rewrite started by a command inside EXEC, whose difference then begins in the middle of a transaction;
  the loader ignores the lone EXEC.
- AclUser.UserObject.Set: rules about passwords, patterns and flags are accepted without looking at what they set.
- AclFile.FileRoundTrip: of a user only its commands and subcommands; the other words of its line are any that are accepted.
- ACL: the bitmap's packing into 64-bit words and command tables with more than 1023 commands.
- PopCount.Popcount: the byte table is the function it tabulates, and the accumulator does not wrap at 2^64.
- Parsing of BITFIELD arguments and the width u64, which the command refuses.
- Blocked clients: clients blocked by modules, by WAIT and by CLIENT PAUSE, timeouts, the queue of clients to reprocess, the
  pending entries of consumer groups, and which element is popped from a sorted set. That nobody is overlooked is stated for
  lists and sorted sets; a stream is signalled by the command that adds to it, which is an event of its own.