# PilotGo: a verified model of the server and agent core

PilotGo is a platform in which one server operates many machines through an agent on each of them. This
project models, in Dafny, the parts of it that carry state, recursion or parsing, and proves what they
guarantee for every input and over every run. `dafny verify dfyconfig.toml` checks everything.

The model follows the code. Loops, recursions over pointers, buffers and tables that the code changes in
place are methods, proved against functions on values; what the code promises is proved about those functions.
Protocols between goroutines are state machines over their steps.

## The parts

**Wire protocol.** `Tlv` is the frame codec on bytes, with the 32-bit length conversion and the slice
panic written out. `Framing` says what the two read loops make of any byte stream cut in any way. `Readers` runs
the loops on a Go slice: `append` in place or into a new array, reslicing, dispatched payloads as windows of the
same memory. `Sender` runs the write loop against a connection that may answer anything. `Links` is one direction
of a connection from messages to bytes and back. `Session` interleaves callers of `sendMessage`, the
sender, the agent, both readers and the goroutines running `ProcessMessage`, over two byte streams, for the messages
the encoding carries; `SessionHistory` reads the order of messages off the actions alone, `SessionProgress` shows
that it comes to rest, and `SessionRuns` has such an encoding, a run in which a reply stays behind and one in which
replies overtake each other.

**Departments, machines, statistics.** `Forest` is the theory of a table with a parent column: descendants by
walking down, by climbing up, and their agreement. `Store` gives every operation on the tables as a function,
`Database` runs them statement by statement, `StoreEffects` says what each leaves column by column, `Inventory` proves
what they keep over runs, `InventoryRuns` reaches tables with three levels of departments and breaks them.
`DepartTree` builds and searches the linked tree. `Cluster` counts.

**Configuration file history.** `FileHistory` has updates, rollbacks and their "-latest" marker; `FileEffects` says
what each leaves in the two tables; `FileSafety` proves that no text is lost over whole runs; `FileRuns` has the runs
in which the marker fails.

**Interface configuration.** `Ifcfg` parses and prints, `IfcfgTheorems` and `IfcfgReadBack` prove the round
trips; `NetMask` turns a prefix length into a netmask.

**Smaller parts.** `Broadcast` is the websocket manager, `BroadcastHistory` the same seen from the actions alone,
`Crontab` the index of scheduled tasks, `BatchIds` the comma-joined id lists, `Paging` slice pagination.
`Strings` and `Numbers` hold the string and number functions.

## Where the code does not do what one would expect

Each is stated exactly, with the condition under which the expected property holds.

- The server cuts at most one frame per read. A reply that arrives in one read with another one stays in the
  buffer until something else arrives (`Framing.SecondFrameWaits`, `Framing.ServerLevelIff`). Without new calls and
  unasked messages everything comes to rest (`SessionProgress.ComesToRest`), and at rest a waiting call has returned if
  and only if no frame left in that buffer carries its UUID (`Session.QuietCallReturnedIff`), so all have returned if
  the last read left no whole frame (`SessionProgress.AllReturnedIff`); a run that ends with a call waiting for ever is
  `SessionRuns.SecondCallWaitsForEver`.
- A frame with an empty payload is recognised only when a byte of the next one has arrived, and a payload of
  2^31 bytes or more is not read back (`Tlv.EmptyPayloadWaits`, `Tlv.RoundTripIff`).
- The write loop never advances its offset before the last write, so on a connection that may write short
  without an error it sends bytes twice (`Sender.SuccessCarriesDataIff`, `Sender.ShortWriteRepeats`).
- The comment on `Insertdepartlist` (pkg/app/server/dao/departdao.go:110) says it adds the children to the rows to
  be deleted. Its result is discarded, so deleting a department removes it and its direct children only;
  deeper departments are cut off from the tree (`Inventory.DeleteKeepsTreeIff`). Only the department's own users go,
  not those of the children (`Inventory.DeletePlacesUsersIff`). All this happens in `InventoryRuns.DeletionsThatBreak`.
- Machines are moved to department 1 even while it is being deleted or when it is gone already, as it stays after the
  next start, which makes a root row with another id (`Inventory.DeletePlacesIff`); a new machine is stored there too
  (`Inventory.ConnectPlacesIff`). `InventoryRuns.WithoutDepartmentOne` reaches both.
  `Inventory.PlacedThroughoutIff` says which runs keep every machine in an existing department all the time.
- `Dept` builds a tree without asking for a root row; without one it recurses for ever
  (`DepartTree.LinkingEndsIff`), as after deleting department 1 of a new installation
  (`InventoryRuns.RootWithAnotherNumber`). Of several root rows only the last becomes a node
  (`DepartTree.RootAgreesIff`).
- A file name that starts with a dash or contains "latest" keeps its marker after an update
  (`FileSafety.MarkerClearedIff`, `FileRuns.LeadingDashKeepsMarker`, `FileRuns.NameIsTakenForMarker`), and a rollback
  that finds a marker does not save the current text (`FileSafety.MarkedRollbackKeepsIff`). So such a file loses a text
  although it is only rolled back to its own rows (`FileRuns.LeadingDashLosesText`, `FileRuns.NameWithWordLosesText`),
  and any file does after a rollback to a foreign row (`FileRuns.ForeignRollbackLosesText`).
  `FileSafety.NothingLostIff` says for every run whatsoever when nothing is lost.
- A static configuration lacks its address when the old file mentions "IPADDR" anywhere but in that key
  (`IfcfgReadBack.AddressReadBackIff`, `IfcfgReadBack.AddressNotWritten`), and its netmask counts for nothing when the
  old file has a PREFIX after its NETMASK (`IfcfgReadBack.MaskReadBackIff`, `IfcfgReadBack.PrefixWins`).
- The product of page size and page number is a 64-bit integer that may wrap: then a page far behind the list can be
  the whole list, a slice can start below zero and panic, or reading can fail (`Paging.AnswerIsPageIff`,
  `Paging.WrappedPages`, `Paging.WrappedToReadError`).
- A websocket client whose queue overflows has its queue closed but stays registered, and the next
  broadcast panics (`Broadcast.CrashIff`, `Broadcast.OneSlowClientCrashes`). Its reader runs before it is registered, and
  one whose disconnection is processed first stays registered (`BroadcastHistory.LeftTooEarly`;
  `BroadcastHistory.RegisteredIff` says for every run who is registered).
- A batch that does not exist, or was made from no machine, yields one empty UUID, not none (`BatchIds.UnknownBatch`,
  `BatchIds.BatchGivesItsMachines`).
- Every move to department 1 turns a Free machine into a Normal one and any other into a Free one, so a machine that is
  named twice in one request ends up as it was or Normal (`StoreEffects.ReassignAllMoves`).
- A stale index entry that refers to scheduler entry 0 is taken for a live one (`Crontab.CleanedIsLiveIff`,
  `Crontab.StaleZeroIsKept`).
- docs/protocol.md:13 calls the message identifier "message_id"; the code sends "message_uuid". The model has one
  field for it.

## Model

| member | source | states |
|---|---|---|
| `Tlv.BigEndianRoundTrip` | pkg/utils/message/protocol/tlvcodec.go:17-18 | reading back the length bytes gives the length modulo 2^32 (modulo 256^width for any width) |
| `Tlv.FrameLayout` | pkg/utils/message/protocol/tlvcodec.go:13-29 | a frame is the 26 characters of the tag, the length in four bytes of which the first counts most, and the payload |
| `Tlv.PanicIff` | pkg/utils/message/protocol/tlvcodec.go:32-55 | decoding panics exactly on more than 30 bytes that start with the tag and go on with a byte of at least 128 |
| `Tlv.RoundTripIff` | pkg/utils/message/protocol/tlvcodec.go:13-55 | decoding undoes encoding exactly on non-empty payloads shorter than 2^31 bytes |
| `Tlv.DecodedWasEncoded` | pkg/utils/message/protocol/tlvcodec.go:32-55 | whatever decodes, on any bytes, is the encoding of the payload returned |
| `Tlv.DecodeIsMonotone` | pkg/utils/message/protocol/tlvcodec.go:32-55 | bytes that follow never change a frame already recognised |
| `Tlv.DecodeCut` | pkg/utils/message/protocol/tlvcodec.go:32-55 | a frame that has not fully arrived is left alone, whatever its payload contains |
| `Tlv.EmptyPayloadWaits` | pkg/utils/message/protocol/tlvcodec.go:33-35 | an empty payload is recognised only with at least one byte after it |
| `Framing.AgentIgnoresChunking` | pkg/app/agent/network/client.go:86-112 | on every byte stream, however cut into reads, the agent dispatches what one drain of the whole stream yields and keeps the same rest |
| `Framing.DrainKeepsBytes` | pkg/app/agent/network/client.go:96-110 | payloads cut off, encoded again, followed by the rest, are the bytes given |
| `Framing.AgentDispatchesCompletePayloads` | pkg/app/agent/network/client.go:86-112 | for sendable payloads and every chunking, exactly the fully received payloads are dispatched in order and the buffer is the received part of the unfinished frame |
| `Framing.CompleteCounts` | pkg/app/agent/network/client.go:99-110 | the number of complete frames is the largest number that fits in the bytes received |
| `Framing.ServerLosesNothing` | pkg/app/server/agentmanager/agent.go:88-114 | what the server dispatched, followed by the frames still in its buffer, is what the agent's loop would have dispatched, with the same rest, on every byte stream that makes no panic |
| `Framing.ServerReadKeepsBacklog` | pkg/app/server/agentmanager/agent.go:103-113 | one read moves exactly the first frame of the backlog, if there is one, to the dispatched payloads |
| `Framing.ServerDispatchesPrefix` | pkg/app/server/agentmanager/agent.go:88-114 | the server has dispatched a prefix of the complete payloads, holds all others, and its buffer is what follows the dispatched frames |
| `Framing.ServerLevelIff` | pkg/app/server/agentmanager/agent.go:105-113 | after a read the server is level with a draining loop exactly when at most one whole frame was buffered |
| `Framing.SecondFrameWaits` | pkg/app/server/agentmanager/agent.go:105-113 | of two frames in one read the server dispatches the first only, the agent both |
| `Readers.FrameReader.Append` | pkg/app/agent/network/client.go:96 | the buffer grows by the bytes read, in place or in a new array, and no dispatched payload changes |
| `Readers.FrameReader.CutFrame` | pkg/app/agent/network/client.go:100-106 | one decode; on success the buffer loses the frame and the dispatched slice holds its payload |
| `Readers.FrameReader.AgentOnRead` | pkg/app/agent/network/client.go:88-111 | one read of the agent's loop does what `Framing.AgentRead` says, and earlier dispatched slices still hold their payloads |
| `Readers.FrameReader.ServerOnRead` | pkg/app/server/agentmanager/agent.go:89-113 | one read of the server's loop does what `Framing.ServerRead` says, and earlier dispatched slices still hold their payloads |
| `Readers.AgentListen` | pkg/app/agent/network/client.go:86-112 | the whole goroutine over any list of reads ends in the state of `Framing.AgentRun` |
| `Readers.ServerListen` | pkg/app/server/agentmanager/agent.go:88-114 | the same for the server, which ends in the state of `Framing.ServerRun` |
| `Sender.SendBytes` | pkg/utils/message/net/tool.go:21-35 | what the write loop puts on the connection and what it reports, for every way the connection answers |
| `Sender.FailedIff` | pkg/utils/message/net/tool.go:21-35 | a send fails exactly if the write that ends it reports an error or never comes |
| `Sender.SuccessCarriesDataIff` | pkg/utils/message/net/tool.go:21-35 | a successful send carried exactly the data iff every short write before the last took nothing |
| `Sender.ShortWriteRepeats` | pkg/utils/message/net/tool.go:21-35 | after one short write without an error the byte taken is sent twice and the send reports success |
| `Sender.ContractCarriesData` | pkg/utils/message/net/tool.go:21-35 | under the io.Writer contract a send carries the data on success and a prefix on failure |
| `Links.TransmitKeepsConsistent` | pkg/app/server/agentmanager/agent.go:55-61 | a message the encoding carries, sent over a connection that keeps the io.Writer contract and reports success, is added at the end of the messages on their way, and nothing else |
| `Links.ReadByAgentKeepsConsistent` | pkg/app/agent/network/client.go:99-110 | a read hands over a front part of the messages on their way, unchanged and in order, and leaves no whole frame |
| `Links.ReadByServerKeepsConsistent` | pkg/app/server/agentmanager/agent.go:105-113 | the same for the server's reader |
| `Links.AllRead` | pkg/app/server/agentmanager/agent.go:88-114 | when every byte has been read, the messages not dispatched are exactly the frames left in the buffer |
| `Session.StepInv` | pkg/app/server/agentmanager/agent.go:211-232 | every step of callers, senders, agent, readers and message goroutines keeps the protocol invariant, for every encoding that is faithful on the messages sent |
| `Session.ReturnedCallHoldsItsReply` | pkg/app/server/agentmanager/agent.go:217-227 | over every run a returned call holds the message with its UUID that the agent made for its own request |
| `Session.RepliesNeverReachHandlers` | pkg/utils/message/protocol/message.go:223-237 | `WaitMap` holds exactly the UUIDs of the waiting calls ever made, and no message with such a UUID reaches `handlerMap` |
| `Session.EveryMessageInOnePlace` | pkg/app/server/agentmanager/agent.go:211-232 | from enqueueing to return each call has exactly one request or reply somewhere on the way: nothing is lost or duplicated |
| `Session.QuietCallReturnedIff` | pkg/app/server/agentmanager/agent.go:88-114 | when nothing can move, a waiting call has returned iff no frame left in the server's buffer carries its UUID |
| `Session.OneReadHoldsBackSecondReply` | pkg/app/server/agentmanager/agent.go:105-113 | two replies in one read: the first goes on, the second stays |
| `SessionHistory.ChannelsAreQueues` | pkg/app/server/agentmanager/agent.go:51-61 | over every run, what each side has sent followed by what it still queues are the requests enqueued, or the messages the agent made, in that order; at most 50 and 100 are queued |
| `SessionHistory.DispatchedInOrder` | pkg/app/server/agentmanager/agent.go:88-114 | over every run each side has handed on the first of the messages sent to it, unchanged and in order |
| `SessionHistory.CanFollow` | pkg/app/server/agentmanager/agent.go:51-61 | exactly when a run goes on with an enqueueing, an answer to any request being processed, an unasked message or a read |
| `SessionProgress.StepIsCloser` | pkg/app/server/agentmanager/agent.go:46-115 | every step but a new call, an unasked message and an empty read brings the protocol closer to rest, so it cannot go on for ever |
| `SessionProgress.ComesToRest` | pkg/app/server/agentmanager/agent.go:46-115 | from every reachable state a quiet one is reached by such steps |
| `SessionProgress.AllReturnedIff` | pkg/app/server/agentmanager/agent.go:105-113 | at rest all waiting calls have returned if the last read left no whole frame, and only if where every message answers a waiting call |
| `SessionRuns.SecondCallWaitsForEver` | pkg/app/server/agentmanager/agent.go:105-113 | for any two short calls there is a run that ends with nothing left to do, the first call returned with its reply, the second waiting although its reply has arrived in full |
| `SessionRuns.SecondCallMayReturnFirst` | pkg/app/server/agentmanager/agent.go:211-232 | for any two short calls there is a run in which the second has returned while the first still waits, and one in which both then hold their own replies |
| `SessionRuns.SuchARunExists` | pkg/app/server/agentmanager/agent.go:211-232 | with an encoding given in full, such a run exists |
| `Forest.PreorderMember` | pkg/app/server/service/common/common.go:59-71 | walking down from an id lists exactly the rows from which climbing the parent column reaches it |
| `Forest.PreorderDistinct` | pkg/app/server/service/common/common.go:59-71 | each strict descendant is listed once |
| `Forest.PreorderBlock` | pkg/app/server/service/common/common.go:59-71 | every department in the walk is followed by exactly its own walk |
| `Forest.SiblingsInOrder` | pkg/app/server/service/common/common.go:59-71 | the walk meets siblings in table order |
| `Forest.SiblingsDisjoint` | pkg/app/server/service/cluster/cluster.go:96-101 | siblings are not under one another and nothing is under two of them |
| `Forest.OrderedWalkEnds` | pkg/app/server/service/depart/depart.go:70-78 | on a table whose parents are older the recursion ends within a bounded depth |
| `Inventory.UuidExistsIff` | pkg/app/server/dao/machinemanagerdao.go:61-65 | a row found has a department iff there is a row with that UUID |
| `Inventory.ConnectRegisters` | pkg/app/server/agentmanager/agentmanager.go:122-153 | afterwards the machine is listed once, Normal or Free by its department, and no other machine changed |
| `Inventory.DisconnectMarks` | pkg/app/server/dao/machinemanagerdao.go:75-81 | exactly the machine's state becomes OffLine |
| `Inventory.ReassignMoves` | pkg/app/server/dao/machinemanagerdao.go:133-158 | new department and state of the machine in every case; no other machine and no other column changes |
| `Inventory.RemoveMachineRemoves` | pkg/app/server/dao/machinemanagerdao.go:216-229 | exactly the machines with that UUID go |
| `Inventory.AddDepartKeeps` | pkg/app/server/service/depart/depart.go:179-232 | the only new row hangs below an existing, older one; ids stay unique; there is no second root |
| `Inventory.AddedIff` | pkg/app/server/service/depart/depart.go:179-232 | with some row marked as root, exactly when a department is added; the parent's name is not compared with the row of the parent id |
| `Inventory.DeleteDepartRemoves` | pkg/app/server/service/depart/depart.go:234-279 | exactly the department and its direct children go, exactly their machines move to department 1 as Free |
| `Inventory.DeletePlacesIff` | pkg/app/server/service/depart/depart.go:242-268 | for all tables: every machine's department still exists after a deletion iff no machine has to move, or department 1 is there and stays |
| `Inventory.ConnectPlacesIff` | pkg/app/server/agentmanager/agentmanager.go:122-153 | for all tables: a machine that connects is in an existing department iff it was known or department 1 is there |
| `Inventory.DeletePlacesUsersIff` | pkg/app/server/service/depart/depart.go:273-276 | exactly the users of the deleted department go; every user's department still exists iff no user was in a direct child |
| `Inventory.ReassignPlacesIff` | pkg/app/server/service/depart/depart.go:290-303 | every machine's department still exists after a reassignment iff the target exists, is 0, or no listed machine does |
| `Inventory.DeleteKeepsTreeIff` | pkg/app/server/service/depart/depart.go:114-133 | in a tree below any root id: all departments still hang below the root iff the deleted one had no grandchildren |
| `Inventory.EveryRunSound` | pkg/app/server/dao/machinemanagerdao.go:61-166 | after every run states are Normal, OffLine or Free, Free means department 1, no department is 0, machines are listed by increasing id, UUIDs are unique, parents are older |
| `Inventory.EveryRunUsersOk` | pkg/app/server/service/user/user.go:227-276 | after every run no email address is empty or registered twice |
| `Inventory.PlacedThroughoutIff` | pkg/app/server/service/depart/depart.go:234-303 | exactly which runs keep every machine in an existing department all the time |
| `Inventory.CarefulRunPlaces` | pkg/app/server/service/depart/depart.go:234-303 | after every run that reassigns to existing departments and does not delete department 1, there is one root and every machine's department exists |
| `Inventory.TidyRunIsTree` | pkg/app/server/service/depart/depart.go:179-279 | if also no deleted department had grandchildren, all departments form one tree |
| `StoreEffects.ConnectWrites` | pkg/app/server/dao/machinemanagerdao.go:84-106 | a known machine keeps every column but its state and, if a new one is given, its address; an unknown one gets one new row with all it told |
| `StoreEffects.DisconnectWrites` | pkg/app/server/dao/machinemanagerdao.go:75-81 | a disconnection writes the state of one machine and nothing else |
| `StoreEffects.ReassignAllMoves` | pkg/app/server/service/depart/depart.go:290-303 | what a list of ids, in which a machine may be named several times, does to every column of every machine |
| `StoreEffects.RemoveMachineTakes` | pkg/app/server/dao/machinemanagerdao.go:216-229 | exactly the machine with the UUID goes; an unknown UUID changes nothing |
| `StoreEffects.AddDepartAnswers` | pkg/app/server/service/depart/depart.go:179-232 | which of the five refusals is given when, and the row that is added otherwise, column by column |
| `StoreEffects.DeleteDepartTakes` | pkg/app/server/service/depart/depart.go:234-279 | a deletion writes departments, machines and users only, exactly the users of the department go, and an unknown department changes nothing |
| `StoreEffects.OrganizeIff` | pkg/app/server/dao/departdao.go:176-193 | a start makes the root row exactly if no row has parent 0 |
| `StoreEffects.RegisteredIff` | pkg/app/server/service/user/user.go:227-276 | a user is registered exactly if password and email address are given and nobody has that address |
| `InventoryRuns.BusyIsReached` | pkg/app/server/service/depart/depart.go:179-303 | a tidy run leads to departments three levels below the root with machines and a user in them |
| `InventoryRuns.DeletionsThatBreak` | pkg/app/server/service/depart/depart.go:234-303 | from there one deletion orphans a department and a user, one leaves machines in a department that is gone, and so does a reassignment to an unknown department |
| `InventoryRuns.WithoutDepartmentOne` | pkg/app/server/service/depart/depart.go:242-268 | runs after which a connecting machine, and the machine of a deleted department other than 1, end up in a department that does not exist |
| `InventoryRuns.RootWithAnotherNumber` | pkg/app/server/dao/departdao.go:176-193 | deleting department 1 of a new installation leaves no row; starting again makes a root row with another id |
| `Database.Db.SubDepartId` | pkg/app/server/dao/departdao.go:154-163 | the ids of the rows with the given parent, in table order |
| `Database.Db.ReturnSpecifiedDepart` | pkg/app/server/service/common/common.go:59-71 | appends the strict descendants, each followed by its own, to the list it is given |
| `Database.Db.ModifyMachineDepart` | pkg/app/server/dao/machinemanagerdao.go:133-158 | reads a machine, decides and writes what `Store.Reassign` says |
| `Database.Db.ReassignMachines` | pkg/app/server/service/depart/depart.go:290-303 | does so for every listed id in order |
| `Database.Db.AddAgent` | pkg/app/server/agentmanager/agentmanager.go:105-158 | registration and reconnection write what `Store.Connect` says |
| `Database.Db.AddDepartment` | pkg/app/server/service/depart/depart.go:179-232 | adds the row, or refuses with the error `Store.AddDepart` gives and changes nothing |
| `Database.Db.MoveOut` | pkg/app/server/service/depart/depart.go:242-251 | one statement per machine moves exactly the machines of a department to department 1 as Free |
| `Database.Db.DeleteDepartNode` | pkg/app/server/service/depart/depart.go:114-133 | the loop ends and removes exactly the listed rows |
| `Database.Db.DeleteDepartData` | pkg/app/server/service/depart/depart.go:234-279 | the whole deletion, machines, rows and users, does what `Store.DeleteDepart` says |
| `DepartTree.FindChild` | pkg/app/server/service/depart/depart.go:81-88 | the listed nodes with this parent, in order |
| `DepartTree.IsChildExist` | pkg/app/server/service/depart/depart.go:91-98 | whether there is one |
| `DepartTree.ReturnPtrChild` | pkg/app/server/service/depart/depart.go:40-67 | fresh nodes for the non-root rows behind a root node, each with the name of the row with its id; the root handed back is a different object |
| `DepartTree.MakeTree` | pkg/app/server/service/depart/depart.go:70-78 | links every node at or below the given one to exactly the listed nodes with its id as parent, and touches no other node |
| `DepartTree.LoopTree` | pkg/app/server/service/depart/depart.go:100-112 | finds the node with the id iff it lies below, else leaves the result alone |
| `DepartTree.IdsBelowIsPreorder` | pkg/app/server/service/depart/depart.go:100-112 | walking the linked nodes meets the ids of the table walk in the same order |
| `DepartTree.RootAgreesIff` | pkg/app/server/service/depart/depart.go:40-67 | the node list and the table have the same departments below the root, in the same order, iff no other root row lies below it |
| `DepartTree.EveryRunAgrees` | pkg/app/server/service/depart/depart.go:147-164 | after every run that leaves a root row, whatever its id, they do |
| `DepartTree.DepartInfo` | pkg/app/server/service/depart/depart.go:166-177 | refuses an empty table; else the linked root has below it exactly the departments of the node list, which are those of the table walk where the root is alone; every node bears the name of its row |
| `DepartTree.Dept` | pkg/app/server/service/depart/depart.go:147-164 | for any root id: answers a node iff the id is the root or below it; the ids below the node are those `ReturnSpecifiedDepart` appends, and its name is that of its row |
| `DepartTree.LinkingEndsIff` | pkg/app/server/service/depart/depart.go:147-154 | the linking recursion ends at some depth iff the table has a root row |
| `Cluster.AgentStatusCounts` | pkg/app/server/service/cluster/cluster.go:43-58 | the three counters are the numbers of machines in the three states |
| `Cluster.ClusterInfo` | pkg/app/server/service/cluster/cluster.go:61-86 | the overview of all machines, or the answer that there are none |
| `Cluster.OverviewAddsUp` | pkg/app/server/service/cluster/cluster.go:73-86 | after every run the three counts add up to the total |
| `Cluster.SomeDepartMachine` | pkg/app/server/dao/machinemanagerdao.go:191-201 | the machines of the listed departments, department by department |
| `Cluster.MachinesOfConcat` | pkg/app/server/dao/machinemanagerdao.go:191-201 | the answer for a list of departments is the answers for its parts, one after the other |
| `Cluster.JoinedCount` | pkg/app/server/dao/machinemanagerdao.go:191-201 | for distinct departments each machine is counted once |
| `Cluster.DepartClusterInfo` | pkg/app/server/service/cluster/cluster.go:89-120 | one entry per first-level department with the counts of its whole branch |
| `Cluster.DepartNameIff` | pkg/app/server/dao/departdao.go:134-138 | the name given for a department is that of the row with its id, or empty if there is none |
| `Cluster.BranchesAddUp` | pkg/app/server/service/cluster/cluster.go:96-109 | the counts of sibling branches add up to the count over all of them |
| `Cluster.OverviewIsSum` | pkg/app/server/service/cluster/cluster.go:73-120 | for every table the overview is the sum over first-level departments plus department 1 itself plus stray machines |
| `Cluster.CountsAgreeIff` | pkg/app/server/service/cluster/cluster.go:73-120 | for any sound tables the sum equals the overview in all three states iff every machine's department is department 1 or below it |
| `Cluster.TidyRunCountsAgree` | pkg/app/server/service/cluster/cluster.go:73-120 | after every tidy run the first-level departments and department 1 account for the whole overview |
| `InventoryRuns.BusyCounts` | pkg/app/server/service/cluster/cluster.go:73-120 | on reached tables with machines on two levels the branch has two Normal machines, department 1 the offline one |
| `FileSafety.UpdateMarks` | pkg/app/server/service/file/file.go:145-157 | an update saves the old text, takes this file's marker away and no other's, and loses no row |
| `FileSafety.ProperRunSound` | pkg/app/server/service/file/file.go:113-196 | after every proper run no file has two marked rows, and a marked file's current text is in its history |
| `FileSafety.NoTextLost` | pkg/app/server/service/file/file.go:126-196 | over every proper run each text an existing file ever had is current or in its history |
| `FileSafety.StepKeepsIff` | pkg/app/server/service/file/file.go:113-196 | for any tables and request: no text of a file is lost iff the request is not a rollback that finds a marker while the current text is not in the history |
| `FileSafety.NothingLostIff` | pkg/app/server/service/file/file.go:113-196 | over all runs, proper or not: a file never loses a text iff no rollback on the way was of that kind |
| `FileSafety.EveryRunNumbered` | pkg/app/server/dao/filedao.go:101-143 | over all runs no number is given twice, and both tables are listed by increasing id |
| `FileSafety.LatestRowIsBase` | pkg/app/server/service/file/file.go:172-196 | the marked row holds the text from before the first rollback since the last update, and exists iff there was one |
| `FileSafety.RollbackToLatestRestores` | pkg/app/server/service/file/file.go:172-196 | rolling back to the marked row restores that text |
| `FileSafety.MarkerClearedIff` | pkg/app/server/service/file/file.go:145-157 | exactly when an update takes the marker away, whatever the names and marks of all files |
| `FileSafety.MarkedRollbackKeepsIff` | pkg/app/server/service/file/file.go:181-195 | exactly when a rollback that finds a marker keeps the current text, for every file |
| `FileSafety.LatestRowNewest` | pkg/app/server/dao/filedao.go:87-99 | the marked row found is the last of the marked rows of the file |
| `FileEffects.UpdateWrites` | pkg/app/server/service/file/file.go:158-169 | after every run: an update gives its file the new name and text where they are not empty, leaves every other file alone, and changes no file if the id is unknown |
| `FileEffects.UpdateSavesRow` | pkg/app/server/service/file/file.go:126-157 | after every run: the file's old name and text go into a new last history row; then exactly the last marked row of the file takes its name up to the first dash, unless that is empty |
| `FileEffects.StrayUpdate` | pkg/app/server/service/file/file.go:126-144 | an update of an unknown file adds one history row without name or text and changes nothing else |
| `FileEffects.RollbackWrites` | pkg/app/server/service/file/file.go:172-196 | a rollback leaves every name alone and gives its file the text of the history row named, unless that is empty |
| `FileEffects.RollbackSavesRow` | pkg/app/server/service/file/file.go:181-188 | a rollback saves the file under its name with "-latest" behind it exactly if no row of the file is marked |
| `FileEffects.BeforeDashIff` | pkg/app/server/service/file/file.go:149-152 | the new name of the marked row is its front up to the first dash |
| `FileEffects.CreatedIff` | pkg/app/server/service/file/file.go:64-111 | a file is created exactly if name and text are not empty and no file has the name; the row created |
| `FileEffects.DeleteTakes` | pkg/app/server/service/file/file.go:113-125 | after every run: deleting takes the row of the file and its history and nothing else |
| `FileRuns.LeadingDashKeepsMarker` | pkg/app/server/service/file/file.go:145-157 | a run in which a file named "-a" keeps its marker after an update |
| `FileRuns.LeadingDashLosesText` | pkg/app/server/service/file/file.go:126-196 | a run in which the file "-a", rolled back only to its own first row, loses what its second update wrote |
| `FileRuns.NameIsTakenForMarker` | pkg/app/server/dao/filedao.go:87-99 | runs in which a file whose name contains "latest" counts as rolled back without a rollback |
| `FileRuns.NameWithWordLosesText` | pkg/app/server/service/file/file.go:126-196 | created, updated once and rolled back to its own only row, a file whose name contains "latest" has lost its text |
| `FileRuns.ForeignRollbackLosesText` | pkg/app/server/service/file/file.go:172-196 | a run in which rolling back to another file's row and then to an own one loses a text |
| `FileRuns.ProperRunRollsBack` | pkg/app/server/service/file/file.go:113-196 | a proper run with an update and a rollback, both texts in the history |
| `FileHistory.FileDb.IsExistFileLatest` | pkg/app/server/dao/filedao.go:87-99 | the newest row of the file whose name contains "latest", if any |
| `FileHistory.FileDb.SaveRow` | pkg/app/server/dao/filedao.go:101-133 | saves the file as it is in a new history row |
| `FileHistory.FileDb.UpdateService` | pkg/app/server/service/file/file.go:126-170 | an update writes what `FileHistory.Update` says and reports an unknown id |
| `FileHistory.FileDb.LastFileRollBack` | pkg/app/server/service/file/file.go:172-196 | a rollback writes what `FileHistory.Rollback` says |
| `Ifcfg.ParseConfig` | pkg/utils/os/baseos/network.go:142-158 | the entries of the lines with "=" whose key has no "#", in order |
| `Ifcfg.NetworkStatic` | pkg/utils/os/baseos/network.go:328-371 | the text printed from the rewritten entries and the added lines |
| `Ifcfg.NetworkDHCP` | pkg/utils/os/baseos/network.go:304-325 | the text printed without the static entries |
| `Ifcfg.ReadConfig` | pkg/utils/os/baseos/network.go:186-194 | the settings left by matching line after line |
| `IfcfgTheorems.ParsedIsPlain` | pkg/utils/os/baseos/network.go:142-158 | parsing any text yields only entries that print on one line with one "=" and no "#" in the key |
| `IfcfgTheorems.ParsePrintIff` | pkg/utils/os/baseos/network.go:142-158 | parsing undoes printing exactly on such entries |
| `IfcfgTheorems.StaticAndBack` | pkg/utils/os/baseos/network.go:304-371 | static and back to dynamic gives the dynamic configuration of the original, for every file and one-line arguments |
| `IfcfgTheorems.ParseLineIff` | pkg/utils/os/baseos/network.go:143-156 | a line gives exactly the text before its first "=" and the text up to the next; it is skipped iff it has no "=" or a "#" before the first |
| `IfcfgTheorems.ParseLinesAppend` | pkg/utils/os/baseos/network.go:143-157 | lines are parsed one by one, in order |
| `IfcfgTheorems.DynamicText` | pkg/utils/os/baseos/network.go:304-325 | the dynamic configuration, read again, has every entry that has nothing to do with addresses, in order, one BOOTPROTO=dhcp per BOOTPROTO of the file, and nothing else |
| `IfcfgTheorems.StaticText` | pkg/utils/os/baseos/network.go:328-371 | the static configuration, read again, has every entry that has nothing to do with addresses, in order |
| `IfcfgTheorems.AddedInOrder` | pkg/utils/os/baseos/network.go:348-369 | the entries of the file stay where they were; what is added stands behind them, in the order of the code and with the value given |
| `IfcfgReadBack.ReadOfPrint` | pkg/utils/os/baseos/network.go:186-194 | reading a printed configuration is matching its trimmed entries in order |
| `IfcfgReadBack.ReadBackFields` | pkg/utils/os/baseos/network.go:328-371 | what each setting is read back as, in every case |
| `IfcfgReadBack.StaticIsReadBack` | pkg/utils/os/baseos/network.go:328-371 | where the key names occur only as keys and no PREFIX follows NETMASK, exactly the settings written are read back |
| `IfcfgReadBack.DynamicFileIsReadBack` | pkg/utils/os/baseos/network.go:328-371 | from a file that asked for its address, all addresses in digits and dots are read back exactly |
| `IfcfgReadBack.AddressReadBackIff` | pkg/utils/os/baseos/network.go:348-351 | exactly when the address is read back |
| `IfcfgReadBack.AddressNotWritten` | pkg/utils/os/baseos/network.go:348-351 | with an interface named "IPADDR" no address but the empty one is read back |
| `IfcfgReadBack.MaskReadBackIff` | pkg/utils/os/baseos/network.go:352-355 | exactly when the netmask is read back |
| `IfcfgReadBack.PrefixWins` | pkg/utils/os/baseos/network.go:275-292 | from a file with NETMASK and then PREFIX=n the mask of n is read back, whatever netmask was written; it is the mask of n clamped to 0..32 |
| `NetMask.LenToSubNetMask` | pkg/utils/os/common/network.go:56-72 | for every integer, the text returned has four parts between dots, numbers below 256 without leading zeros, which read most significant first are 2^32 - 2^(32-k), with k the argument clamped to 0..32 |
| `NetMask.MaskIsPrefix` | pkg/utils/os/common/network.go:56-72 | the octets read as one number are 2^32 - 2^(32-k), with k the argument clamped to 0..32 |
| `NetMask.MaskText` | pkg/utils/os/common/network.go:65-70 | the same of the text that PREFIX entries leave |
| `Numbers.AtoiItoa` | pkg/utils/common.go:20-28 | every integer is read back from its text, up to the bounds of 64 bits |
| `Numbers.AtoiCases` | pkg/utils/common.go:20-28 | digits with or without a sign stand for their number cut to 64 bits, every other text for 0 |
| `BatchIds.BuildList` | pkg/app/server/service/batch/batch.go:79-90 | the append-and-trim loop builds the plain comma join |
| `BatchIds.String2Int` | pkg/utils/common.go:20-28 | a new array with the number each text stands for |
| `BatchIds.ReadBackIff` | pkg/app/server/dao/batchmanagerdao.go:60-65 | splitting and converting gives back the same ids in order iff there is at least one |
| `BatchIds.BatchIds2UUIDs` | pkg/app/server/dao/batchmanagerdao.go:73-93 | the UUIDs of the machines of the listed batches in order |
| `BatchIds.FindBatchIff` | pkg/app/server/dao/batchmanagerdao.go:75-79 | the row found has the id asked for if there is one, else it is empty |
| `BatchIds.BatchGivesItsMachines` | pkg/app/server/dao/batchmanagerdao.go:73-93 | a batch in the table gives the UUID of each machine it was made from, in order, an empty one for a machine that is gone, and a single empty one if it was made from none |
| `BatchIds.UnknownBatch` | pkg/app/server/dao/batchmanagerdao.go:75-90 | a batch that is not in the table gives a single empty UUID |
| `BatchIds.BatchesOneByOne` | pkg/app/server/dao/batchmanagerdao.go:73-93 | the answer for several batches is the answers one after the other |
| `Paging.DataPaging` | pkg/app/server/service/common/common.go:74-108 | a size below 1 stands for 10 and a page below 1 for 1; for the values before the call, if the page ends within 64 bits the answer is the items from size * (page - 1) on, at most size of them, or an error if that is behind the list; beyond 64 bits it is the page asked for iff its wrapped start is behind the list |
| `Paging.AnswerIsPageIff` | pkg/app/server/service/common/common.go:92-106 | the same for every list, size and page, on values |
| `Paging.ExactPageIs` | pkg/app/server/service/common/common.go:92-106 | where the page asked for starts and ends, and when it is refused |
| `Paging.WrappedPages` | pkg/app/server/service/common/common.go:92-106 | page 2^32 of size 2^32 is the whole list, page 3 of size 2^62 a panic, for every list |
| `Paging.WrappedToReadError` | pkg/app/server/service/common/common.go:92-106 | a size and page whose products wrap to a reading error, for every list of at least four items |
| `Paging.PagesPartition` | pkg/app/server/service/common/common.go:92-106 | no page is too long and the pages up to any number are the front of the list |
| `Paging.ItemIsOnItsPage` | pkg/app/server/service/common/common.go:92-106 | item i of the list is item i % size of the answer to page i / size + 1 |
| `Crontab.Crontab.AddByFunc` | pkg/utils/os/common/cron.go:87-100 | the step `Apply` on index and scheduler: adds a new id with a live entry of its own, or changes nothing |
| `Crontab.Crontab.DeleteByID` | pkg/utils/os/common/cron.go:73-84 | the step `Apply`: removes the id and its entry, or reports that there is none |
| `Crontab.Crontab.IDs` | pkg/utils/os/common/cron.go:44-60 | the step `Apply`, from any map: lists each id whose entry is found once and forgets the others; a sound index does not change |
| `Crontab.RunAgrees` | pkg/utils/os/common/cron.go:44-100 | after every run of these steps the index is a bijection onto the live entries and its ids are those added and not deleted |
| `Crontab.CleanedIsLiveIff` | pkg/utils/os/common/cron.go:49-58 | from any map, all ids left refer to live entries iff none referred to entry 0 |
| `Crontab.StaleZeroIsKept` | pkg/utils/os/common/cron.go:49-58 | an id that refers to entry 0 stays |
| `Broadcast.StepInv` | pkg/app/server/network/websocket/client_manager.go:85-106 | every event and every write keeps the manager's invariant |
| `Broadcast.ConsecutiveBroadcasts` | pkg/app/server/network/websocket/client_manager.go:85-106 | over every interleaving a client's written and queued messages are consecutive broadcasts, from the mark set when it registered to the one set when it overflowed or left, or to now, at most 100 of them queued |
| `BroadcastHistory.ChannelsAreQueues` | pkg/app/server/network/websocket/client_manager.go:85-106 | over every run the three channels hold what was sent and not taken, oldest first; every broadcast processed is in the history in order of submission; each client has written one message per turn of its writer |
| `BroadcastHistory.RegisteredIff` | pkg/app/server/network/websocket/client_manager.go:59-93 | over every run the clients registered are exactly those whose registration was processed and no disconnection since, each event taking the oldest entry of its channel |
| `BroadcastHistory.Marks` | pkg/app/server/network/websocket/client_manager.go:59-93 | the marks of a client are the numbers of broadcasts processed before its registration and before its leaving |
| `BroadcastHistory.Delivered` | pkg/app/server/network/websocket/client_manager.go:85-106 | over every run a registered client has written the first broadcasts since its registration, one per turn of its writer, and queues the next ones; unless its queue closed, these are all broadcasts up to now or up to its leaving, and never any after that |
| `BroadcastHistory.CanFollow` | pkg/app/server/network/websocket/client_manager.go:22-30 | exactly when a run goes on with each kind of action |
| `BroadcastHistory.LeftTooEarly` | pkg/app/server/controller/push_alarm.go:35-41 | a run in which a client's disconnection is processed before its registration, after which it stays registered |
| `Broadcast.ClosedOnlyWhenFull` | pkg/app/server/network/websocket/client_manager.go:97-103 | a queue is closed only when it holds 100 messages, at the first message it misses |
| `Broadcast.ClosedIffBehind` | pkg/app/server/network/websocket/client_manager.go:97-103 | over every run a registered client's queue is closed iff fewer messages were written or queued for it than broadcast since it registered |
| `Broadcast.CrashIff` | pkg/app/server/network/websocket/client_manager.go:97-103 | a step panics iff it processes a broadcast while some registered client is that far behind |
| `Broadcast.OneSlowClientCrashes` | pkg/app/server/network/websocket/client_manager.go:97-103 | one client that writes nothing out and 102 broadcasts are a run that panics |
| `Broadcast.ClientManager.OnBroadcast` | pkg/app/server/network/websocket/client_manager.go:94-104 | the loop over the clients, in any order, does what the broadcast step says or panics |

## Left out

- JSON encoding of messages: `Links.Codec` stands for any encoding with the set of messages it carries faithfully; a
  message outside that set is never sent in `Session`.
- Reconnection, socket errors, panics in the read loops of `Session`; malformed streams are covered in `Framing` only.
- Handlers of the agent: each request is answered once with its own UUID, in any order and at any time.
- Database errors: every statement succeeds, and a service call is one step except in `Session` and `Broadcast`.
- Text columns that are only carried along: user, type, batch and description columns of files.
- Renaming departments; the roles and names of users, and removing users one by one; registration is a function on values, `Store.Register`.
- The name, manager and department checks of batch creation.
- Files made from maps with several keys: the code then leaves the loop in an order the language does not fix.
- `SendMsg`, heartbeats and socket errors of websocket clients.
- Starting and stopping the scheduler, and when its tasks run; the scheduler is modelled by its contract.
- Web handlers, roles, tokens, plugins, logging, and commands that only read the output of other programs.
- Paging.DataPaging: only for a total equal to the length of the list, which is how it is called with its own list.
- Links.TransmitKeepsConsistent: only for sends that report success; a failed send ends the connection, which `Session` does not model.
- Crontab.Crontab.IDs: the order of the answer is the order of visiting the map, which is a parameter.
- DepartTree.Dept: only for tables with a root row, and likewise `DepartInfo`; without one the code recurses for ever, which is `DepartTree.LinkingEndsIff`.
