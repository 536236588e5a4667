# Verification of the 88E60xx switch simulator

The repository carries a register-level simulator of Marvell 88E60xx Ethernet switches
(`USER/MV88E63x/qdSim.c`). Driver code reads and writes 16-bit registers; behind them stand an address
table (ATU), a VLAN table (VTU), a small statistics unit, PHY control and interrupt registers. This
project models the simulator and proves properties of it over all inputs and all runs of accesses. It
also models the priority encoding of the interrupt controller (`CORE/core_cm4.h`).

## How it is built

| file | content |
|---|---|
| `Sequences`, `MacAddress` | first match and filtering; addresses, their numeric order and the byte-wise comparison |
| `SlotSpec`, `SlotList` | the index-linked list in a fixed array: as a value (visiting order and slot contents), and as a class over the node array |
| `AtuSpec`, `AtuFlush`, `AtuRuns`, `AtuKeys`, `AtuTable` | the address table: its operations as values, the flushes, runs of commands, when keys stay unique, and the in-place functions |
| `VtuSpec`, `VtuTable` | the VLAN table, likewise, and the finite map it maintains |
| `Registers`, `RegisterFile` | devices, reset values, packing of entries; the in-place register functions |
| `SimSpec`, `SimInvariant` | the whole simulator as a transition system, and the invariant of every reachable state |
| `SimHistory`, `SimInterrupts` | whole runs: PHY control and statistics, interrupts and status words |
| `SimTables`, `SimKeys`, `SimWalks` | whole runs: the tables, unique keys, Get-Next walks |
| `SimAddresses`, `SimVlans`, `SimAccess`, `SimReads`, `SimFixed` | the register interface by register numbers and bit masks: writes of the two table operation registers, plain writes, what reads show after any run, and what no access reaches |
| `Simulator` | the class whose methods are the entry points, each proved equal to its transition |
| `Nvic` | interrupt priority encoding |

Each table function exists twice: as a step on values (`Add`, `Del`, `FlushDb`, ...) about which the
theorems are proved, and as a method with the source's loops and in-place updates, proved to compute
exactly that step. The two copies of the list surgery in the source (one per table) are one class here,
generic in the entry, and the four device dispatchers are one, parameterised by the device family.

A run (`SimInvariant.Run`) is an initialisation followed by any sequence of register writes, register
reads, injected PHY and global interrupts, EEPROM reloads (a control register write) and further
initialisations, possibly as another device. `Run` carries the invariant `Inv`, so everything the
invariant says holds in every reachable state.

## Where code and expectation part

- A full table refuses even an overwrite: the capacity test comes before the search.
- The same-key check of a load looks at one entry only, so an address loaded for database 1, then 2, then
  1 again is stored twice under one key (`SimKeys.DuplicateThroughRegisters` gives the register writes). A
  load keeps keys unique if and only if its key is absent or stands first among the entries with an address
  at least as large (`LoadGuard`, checkable before the call); every other command keeps them unique, so a
  run does throughout if and only if each of its loads meets that guard.
- The unlocked flushes delete by key and can leave an unlocked entry behind when a key is stored twice. They
  are exact if and only if no two linked slots clash (`FlushSafe`): whenever two linked
  slots hold one key and the later one in the list is to be flushed, the earlier one is to be flushed too and
  lies at a lower slot number. The flush of one database is exact always.
- A Get-Next walk restarts instead of ending when the broadcast address (VLAN table: VLAN 0xFFF) is stored.
- `qdSimSetGlobalInt` and `qdSimSetPhyInt` raise their status bits in row 31, which no device uses as its
  global row and where every bit is set from the reset on. So an injected global interrupt changes nothing
  at all, in any reachable state. A status read shows a PHY interrupt exactly when the port summary was
  nonzero at the status read before it: the first read after a reset shows none, whatever was injected, and
  a bit read later may be stale.
- On the 88E6051 and 88E6052 a database flush takes the written nibble although every entry is of database
  0, so with any other nibble it removes nothing.
- The file header speaks of at most 32 addresses; the table has 0x800 slots.
- PHY interrupt status is 0x40 after reset while the port summary is 0.

## Model

| member | source | states |
|---|---|---|
| SlotList.WalkByCount | USER/MV88E63x/qdSim.c:80-93 | following links by count from the head visits distinct nodes, exactly those not marked free, and the stale last link (or stale head) still points into the array |
| SlotList.SlotList.FindFree | USER/MV88E63x/qdSim.c:325-330 | finds the lowest slot that no link reaches, or reports that there is none |
| SlotList.SlotList.Insert | USER/MV88E63x/qdSim.c:359-381 | the three linking cases keep the list consistent and put the slot at its place in the visiting order, for any stale head or tail link |
| SlotList.SlotList.Remove | USER/MV88E63x/qdSim.c:414-425 | the head, middle and tail cases keep the list consistent, drop exactly one slot from the visiting order and free it |
| SlotList.SlotList.Overwrite | USER/MV88E63x/qdSim.c:654-655 | replacing the entry of one node changes one element of the list |
| SlotList.SlotList.Clear | USER/MV88E63x/qdSim.c:480-492 | empties the list and all slots |
| SlotSpec.SlotsConserved | USER/MV88E63x/qdSim.c:322-335 | free and linked slots always add up to the array |
| SlotSpec.FreeSlotExists | USER/MV88E63x/qdSim.c:322-335 | a list that is not full has a free slot, so the second refusal of a load is unreachable |
| MacAddress.CmpEtherMac | USER/MV88E63x/qdSim.c:255-265 | the sign of the result is the order of the addresses as 48-bit numbers, zero exactly for equal addresses |
| MacAddress.NumInjective | USER/MV88E63x/qdSim.c:255-265 | addresses with the same number are the same address, so the order is total |
| AtuTable.FindNext | USER/MV88E63x/qdSim.c:271-310 | returns the node of the first entry of the database above the address (any, for the broadcast address), or the capacity |
| AtuTable.AddEntry | USER/MV88E63x/qdSim.c:316-383 | equals the step Add on the whole table, refusals included |
| AtuTable.DelEntry | USER/MV88E63x/qdSim.c:390-428 | equals the step Del on the whole table, refusals included |
| AtuTable.FlushUnlockedEntry | USER/MV88E63x/qdSim.c:431-445 | equals the scan that deletes by key for every linked unlocked unicast slot |
| AtuTable.FlushInDb | USER/MV88E63x/qdSim.c:447-458 | equals the scan that deletes by key for every slot of the database, freed slots included |
| AtuTable.FlushUnlockedInDb | USER/MV88E63x/qdSim.c:460-477 | equals the same scan as the unlocked flush, restricted to one database |
| AtuSpec.AddRefinesList | USER/MV88E63x/qdSim.c:316-383 | on the sorted list: refused exactly when full; otherwise the entry replaces the first one with its address if that has its database, else goes in just before all entries with an address at least as large; order is kept |
| AtuSpec.DelRefinesList | USER/MV88E63x/qdSim.c:390-428 | refused exactly when the key is absent; otherwise exactly the first match goes |
| AtuFlush.FlushDbExact | USER/MV88E63x/qdSim.c:447-458 | flushing a database removes all its entries and no other and keeps the order, duplicates or not |
| AtuFlush.FlushDbEmpties | USER/MV88E63x/qdSim.c:451-456 | the counting argument: if a key is linked at most as often as slots with it remain to be scanned, none is left at the end |
| AtuFlush.FlushWhereExactIff | USER/MV88E63x/qdSim.c:431-477 | an unlocked flush removes exactly the selected entries if and only if no duplicates clash |
| AtuFlush.FlushWhereExactOnUniqueKeys | USER/MV88E63x/qdSim.c:431-477 | with unique keys both unlocked flushes are exact |
| AtuRuns.DuplicateSurvivesFlush | USER/MV88E63x/qdSim.c:342-357 | three loads lead to a state with a duplicate key in which the unlocked flush leaves an unlocked entry behind |
| AtuRuns.RunSorted | USER/MV88E63x/qdSim.c:530-578 | after any run of table commands the list is in nondecreasing address order |
| AtuRuns.LoadLookup | USER/MV88E63x/qdSim.c:339-382 | a successful load becomes the first entry of its key and leaves the first entries of all other keys alone |
| AtuRuns.LastLoadWins | USER/MV88E63x/qdSim.c:545-550 | from any sorted table, over any run without a purge or unlocked flush of a key, the first entry of the key carries its last successful load since the last full flush, older duplicates notwithstanding |
| AtuKeys.AddKeepsUniqueIff | USER/MV88E63x/qdSim.c:339-357 | a load into a sorted table with unique keys keeps them unique if and only if the table is full, the key is absent, or it stands first among the entries with an address at least as large |
| AtuKeys.ApplyKeepsUniqueIff | USER/MV88E63x/qdSim.c:530-578 | every command keeps keys unique, except precisely the loads that fail the guard |
| AtuKeys.RunUniqueIff | USER/MV88E63x/qdSim.c:530-578 | a run of table commands keeps keys unique throughout if and only if each of its loads meets the guard |
| AtuRuns.ApplyKeepsStrict | USER/MV88E63x/qdSim.c:339-357 | while all entries are of one database every command keeps addresses strictly increasing |
| VtuTable.FindNextVlan | USER/MV88E63x/qdSim.c:588-612 | returns the node of the first VLAN above the id (any, for 0xFFF), or the capacity |
| VtuTable.AddVlanEntry | USER/MV88E63x/qdSim.c:618-680 | equals the step AddVlan on the whole table, with the device's table size |
| VtuTable.DelVlanEntry | USER/MV88E63x/qdSim.c:687-722 | equals the step DelVlan on the whole table |
| VtuTable.UpdateVlanEntry | USER/MV88E63x/qdSim.c:729-752 | equals the step UpdateVlan on the whole table |
| VtuSpec.AddRefinesMap | USER/MV88E63x/qdSim.c:618-680 | on the map from VLAN id to entry: refused exactly at the device's size, existing ids included; otherwise one key is inserted or replaced; ids stay strictly ascending |
| VtuSpec.DelRefinesMap | USER/MV88E63x/qdSim.c:687-722 | refused exactly when the id is absent; otherwise exactly that key goes |
| VtuSpec.UpdateRefinesMap | USER/MV88E63x/qdSim.c:729-752 | refused exactly when the id is absent; otherwise exactly that key is replaced |
| Registers.SetGetAtu | USER/MV88E63x/qdSim.c:494-517 | writing an entry to the registers and reading it back is the identity exactly for database numbers below 16 |
| Registers.GetSetAtu | USER/MV88E63x/qdSim.c:494-517 | reading the registers as an entry and writing it back changes no register |
| Registers.ResetGetAtu | USER/MV88E63x/qdSim.c:519-528 | the reset pattern reads as the broadcast address with zero data |
| Registers.SetGetVtu | USER/MV88E63x/qdSim.c:768-805 | writing a VLAN entry and reading it back gives its id with the valid bit, all ten tags, and its database merged into the old nibble |
| RegisterFile.WriteAtuInfo | USER/MV88E63x/qdSim.c:507-517 | updates registers 11 to 15 in place and no other |
| RegisterFile.WriteVtuInfo | USER/MV88E63x/qdSim.c:786-805 | updates registers 5 to 9 in place and no other |
| RegisterFile.InitRegs | USER/MV88E63x/qdSim.c:1011-1098 | sets every register to the device's reset value, 0xFFFF outside its rows |
| SimInvariant.StepKeepsInv | USER/MV88E63x/qdSim.c:1416-1928 | every access, interrupt and initialisation keeps the invariant: both tables consistent, sorted and within bounds, operation registers idle |
| SimTables.TraceRefines | USER/MV88E63x/qdSim.c:530-578 | after any run the address table is the run's table commands applied to the empty table |
| SimTables.RunLastLoadWins | USER/MV88E63x/qdSim.c:545-550 | over whole runs of register accesses the last successful load wins, counted from any table command after which the key is neither purged nor flushed as unlocked, whatever came before |
| SimKeys.RunKeepsUniqueIff | USER/MV88E63x/qdSim.c:339-357 | a run of register accesses keeps keys unique throughout if and only if each load it issues meets the guard |
| SimKeys.GuardedRunsFlushExactly | USER/MV88E63x/qdSim.c:431-477 | after a run whose loads all meet the guard both unlocked flushes are exact |
| SimKeys.DuplicateThroughRegisters | USER/MV88E63x/qdSim.c:339-357 | on an 88E6063 seven register writes, for any unicast address, reach a state with a duplicate key whose unlocked flush leaves unlocked entries behind |
| SimTables.SingleDatabaseDevices | USER/MV88E63x/qdSim.c:1445-1536 | on the 88E6051 and 88E6052 register 11 stays 0, every entry is of database 0, addresses strictly increase and keys are unique |
| SimTables.SingleDatabaseFlush | USER/MV88E63x/qdSim.c:431-445 | on those devices the unlocked flush is exact after any run |
| SimTables.VlanTableIsMap | USER/MV88E63x/qdSim.c:1955-2003 | after any run the VLAN table is an ascending map no larger than the device allows, and a load is refused exactly when it is that large |
| SimTables.SlotsAlwaysConserved | USER/MV88E63x/qdSim.c:322-335 | after any run free and linked slots add up to 0x800 and 0x40, and an address load is refused exactly when all 0x800 are linked |
| SimTables.NeverBusy | USER/MV88E63x/qdSim.c:814-826 | no read of an operation register ever shows busy or any bit above the low nibble |
| SimTables.ListingIs | USER/MV88E63x/qdSim.c:271-310 | the listing of a database is ascending, has the first entry of each address and misses none |
| SimTables.Successor | USER/MV88E63x/qdSim.c:271-310 | Get-Next from the k-th listed address finds the next one, from the last one nothing |
| SimWalks.AtuWalk | USER/MV88E63x/qdSim.c:552-565 | with any written nibble, which single-database devices ignore, and fed back through the registers, Get-Next shows the listing entry by entry, then the reset pattern, or starts over when the listing ends in the broadcast address |
| SimWalks.WalkEnds | USER/MV88E63x/qdSim.c:276-294 | the reset pattern follows if no entry of the database has the broadcast address; otherwise that is shown last and the walk restarts |
| SimWalks.VtuWalk | USER/MV88E63x/qdSim.c:855-869 | Get-Next from 0xFFF shows the map in ascending order with ids and tags exact and the database merged with the written nibble, then 0xFFF, or starts over when VLAN 0xFFF is stored |
| SimWalks.DatabaseShownExactly | USER/MV88E63x/qdSim.c:788 | the database shown is the stored one exactly when the written nibble adds no bit to it |
| SimInterrupts.InterruptHistory | USER/MV88E63x/qdSim.c:1158-1164 | interrupt status and summary bit of every PHY as functions of the history of injections, reads and resets |
| SimInterrupts.SummaryMeansStatus | USER/MV88E63x/qdSim.c:1930-1943 | a set summary bit means a nonzero status; the converse holds exactly when the PHY has been touched since the reset |
| SimInterrupts.SummaryNonzero | USER/MV88E63x/qdSim.c:1930-1943 | the port summary is nonzero exactly when the last event at some row below 16 since the reset was a nonzero injection, rows without a PHY included |
| SimInterrupts.GlobalStatusHistory | USER/MV88E63x/qdSim.c:1102-1113 | the whole global status word as a function of the history: its reset value until the first read, then bit 1 exactly when the summary was nonzero at the last read, stale bits included |
| SimInterrupts.FirstStatusRead | USER/MV88E63x/qdSim.c:1102-1113 | the first status read after a reset shows the reset value, whatever interrupts were injected before it |
| SimInterrupts.SecondStatusRead | USER/MV88E63x/qdSim.c:1102-1113 | every later status read shows bit 1 exactly when the summary was nonzero at the status read before it, whatever other accesses and interrupts lie between |
| SimFixed.GlobalIntsInvisible | USER/MV88E63x/qdSim.c:1945-1952 | a run ends in exactly the state of the same run without its injected global interrupts |
| SimFixed.FixedHistory | USER/MV88E63x/qdSim.c:1011-1098 | over every run each register that is neither writable nor changed by an operation, a status read or an injected PHY interrupt holds its reset value |
| SimFixed.QuietHistory | USER/MV88E63x/qdSim.c:1416-1928 | over every run each register that only plain writes change holds the last word written to it since the reset, or its reset value |
| SimFixed.ResetWordsShown | USER/MV88E63x/qdSim.c:1019-1076 | a read that follows a reset shows the reset word of the PHY, port or global register, written out |
| SimFixed.PortMapReset | USER/MV88E63x/qdSim.c:1050 | at reset the VLAN map of a port has every bit of the first seven but the port's own |
| SimFixed.SwitchIdShown | USER/MV88E63x/qdSim.c:1048 | after any run register 3 of every port row shows the id of the last initialised device, shifted by four |
| SimFixed.PhyIdShown | USER/MV88E63x/qdSim.c:1023-1024 | after any run registers 2 and 3 of every PHY show 0x0141 and 0x0C1F |
| SimReads.PhyControlShown | USER/MV88E63x/qdSim.c:1154-1155 | after any run a read of PHY control shows the word that the writes since the reset amount to |
| SimReads.PhyStatusShown | USER/MV88E63x/qdSim.c:1158-1161 | after any run a read of PHY interrupt status shows what was last injected since it was last read, or the reset value |
| SimReads.SummaryShown | USER/MV88E63x/qdSim.c:1162-1164 | after any run register 20 of every PHY shows the one port summary, bit q set exactly when row q is pending |
| SimReads.OwnCellShown | USER/MV88E63x/qdSim.c:1102-1170 | every other register shows its own content, and nothing is shown outside the file |
| SimReads.ReadsChangeNothing | USER/MV88E63x/qdSim.c:1102-1170 | only reads of global status and of PHY interrupt status change anything |
| SimReads.StatusReadClears | USER/MV88E63x/qdSim.c:1108-1113 | a status read clears the interrupt bits, sets bit 1 again if the summary is nonzero, and changes nothing else |
| SimReads.DeviceDescribed | USER/MV88E63x/qdSim.c:1955-2003 | the id of the last initialisation decides family, rows, ports, PHYs and VLAN room after any run |
| SimReads.VlanRoom | USER/MV88E63x/qdSim.c:624-637 | after any run a load of a VLAN is refused exactly when 16 VLANs (88E6021), 64 (88E6063, 88E6083, 0xF53) or none (0xF91, 0xF93) are the room and it is used up |
| SimHistory.ControlHistory | USER/MV88E63x/qdSim.c:938-976 | a PHY's control register as a function of the writes to it since the reset: mode bits of the last write with a command or leaving power-down, loopback and power of the last write |
| SimHistory.ControlShape | USER/MV88E63x/qdSim.c:935-976 | power-down, reset and restart are all set or all clear, and only writable bits are ever set |
| SimHistory.StatsHistory | USER/MV88E63x/qdSim.c:889-933 | captured port and flush flags as functions of the history, across initialisations |
| SimHistory.ReadCounter | USER/MV88E63x/qdSim.c:911-923 | after Read Counter a read of registers 30 and 31 shows zeros if the captured port was flushed at any earlier step, else the port and the low six bits of the operation word; the captured port stays inside the flag array |
| SimVlans.VlanWrite | USER/MV88E63x/qdSim.c:828-878 | a write of register 5 on the map, the answer and the registers, by bit masks: refused without the busy bit; code 1 empties; code 3 with the valid bit sets the id in register 6 to the entry of registers 5 and 7 to 9 or is refused at the device size, without it drops the id; code 7 reports port 1 and VLAN 1; other codes keep the map |
| SimVlans.VlanNextWrite | USER/MV88E63x/qdSim.c:855-869 | code 4 shows the mapped VLAN with the least id above the one in register 6, id, ten tags and merged database, or 0xFFF |
| SimVlans.VlanHistory | USER/MV88E63x/qdSim.c:828-878 | after any run the table is the map that the operation words written since the initialisation give one after another |
| SimVlans.TagsInPlace | USER/MV88E63x/qdSim.c:768-805 | writing back what was read keeps exactly the low half of each tag nibble |
| SimAddresses.FlushAllWrite | USER/MV88E63x/qdSim.c:537-540 | code 1 in register 11 leaves the empty list |
| SimAddresses.FlushUnlockedWrite | USER/MV88E63x/qdSim.c:541-543 | code 2 leaves exactly the entries with state 0xF or a multicast address, if and only if no duplicates clash, and so always on unique keys |
| SimAddresses.LoadWrite | USER/MV88E63x/qdSim.c:544-548 | code 3 with a nonzero state places the entry of registers 11 to 15 in the list, or is refused at 0x800 entries |
| SimAddresses.PurgeWrite | USER/MV88E63x/qdSim.c:549-551 | code 3 with state 0 drops exactly the first entry with the key in the registers, or is refused if there is none |
| SimAddresses.NextWrite | USER/MV88E63x/qdSim.c:552-565 | code 4 shows the first entry of the database after the address in registers 13 to 15, or the reset pattern, and changes no other register |
| SimAddresses.FlushDbWrite | USER/MV88E63x/qdSim.c:567-570 | code 5 leaves exactly the entries outside the written database, locked or not |
| SimAddresses.FlushUnlockedDbWrite | USER/MV88E63x/qdSim.c:571-573 | code 6 does in the written database what code 2 does in all |
| SimAddresses.IdleWrite | USER/MV88E63x/qdSim.c:574-577 | codes 0 and 7 succeed and change nothing but the entered database |
| SimAccess.WriteReadBack | USER/MV88E63x/qdSim.c:1534-1535 | a plain write is read back, through either alias of its row, as its low 16 bits (ATU control without bit 15), and disturbs nothing else |
| SimAccess.PortStatusWrite | USER/MV88E63x/qdSim.c:1607-1613 | where port status is writable its bit 9 takes the written value and nothing else changes |
| SimAccess.ReloadWrite | USER/MV88E63x/qdSim.c:1460-1467 | a control write with bit 9 resets all registers and leaves tables and statistics alone |
| SimAccess.RowAliases | USER/MV88E63x/qdSim.c:1900-1906 | addresses 0x20 to 0x3F reach the rows of 0 to 0x1F, higher ones nothing |
| SimAccess.ReadOnlyIsRejected | USER/MV88E63x/qdSim.c:1445-1897 | for every device: a write to any register not listed as writable, low port status included, or outside the file is refused and changes nothing; one to a writable register succeeds and changes only registers, the operation registers apart |
| Simulator.Simulator.constructor | USER/MV88E63x/qdSim.c:1955-2007 | the first initialisation yields the start state of a run |
| Simulator.Simulator.Init | USER/MV88E63x/qdSim.c:1955-2007 | a later initialisation resets everything but the statistics flags and the captured port |
| Simulator.Simulator.AtuOperation | USER/MV88E63x/qdSim.c:530-578 | updates tables and registers in place as the address operation step says |
| Simulator.Simulator.VtuOperation | USER/MV88E63x/qdSim.c:828-878 | updates tables and registers in place as the VLAN operation step says |
| Simulator.Simulator.StatsOperation | USER/MV88E63x/qdSim.c:889-933 | updates flags and registers in place as the statistics step says |
| Simulator.Simulator.WriteReg | USER/MV88E63x/qdSim.c:1900-1928 | a register write updates the whole state as its step says and keeps the invariant |
| Simulator.Simulator.ReadReg | USER/MV88E63x/qdSim.c:1416-1443 | a register read shows and changes what its step says and keeps the invariant |
| Simulator.Simulator.SetPhyInt | USER/MV88E63x/qdSim.c:1930-1943 | an injected interrupt changes status, summary and row 31 as its step says and keeps the invariant |
| Nvic.WidthsShare | CORE/core_cm4.h:1598-1599 | group g gives min(n, 7 - g) of the n implemented bits to the preempt part and the others to the sub part |
| Nvic.SetGetDecode | CORE/core_cm4.h:1550-1631 | decoding the value read back after setting an encoded priority yields the min(n, 7 - g) low bits of the preempt part and of the sub part as many as are left of n |
| Nvic.GroupSplitsCell | CORE/core_cm4.h:1592-1605 | in the stored byte the bits above bit g depend on the preempt part alone, bits 0 to g on the sub part alone |
| Nvic.StoredAtTop | CORE/core_cm4.h:1550-1556 | a stored priority fills its byte from the top, the 8 - n low bits are zero |
| Nvic.EncodeOfDecode | CORE/core_cm4.h:1592-1631 | encoding a decoded priority of the implemented width gives it back |
| Nvic.EncodingOrder | CORE/core_cm4.h:1592-1605 | the numeric order of encodings is the order of preempt part first, sub part second |
| Nvic.Controller.SetPriority | CORE/core_cm4.h:1550-1556 | changes exactly one byte, the system handler's or the device interrupt's, to the aligned priority |
| Nvic.Controller.GetPriority | CORE/core_cm4.h:1570-1577 | returns the stored priority of the interrupt, shifted down |

## Left out

- Base addresses other than 0: the only caller passes 0, and parts of the source fix PHY row 0, port row 8 and row 31.
- The simulator before its first initialisation, when all nodes and registers are zero and no device is selected.
- Injected interrupts on rows above 31, which the source would write outside the register array.
- Byte-wise memory copying, setting and comparing: value assignment and equality stand for them.
- The entry pointer passed to the deletion by the flushes: it is a value here; deletion never writes an entry, so the aliasing has no effect.
- Diagnostic output during initialisation.
- `qdSimStatsInit`, which nothing calls.
- Multi-address wiring, semaphores and hardware register access (`ev96122mii.c`, `msApiInit.c`, `osSem.c`).
- The rest of `core_cm4.h`: interrupt enabling, SysTick, trace and reset are single register writes.
- The priority registers of the reserved and fixed-priority core interrupts (numbers below -12), which the source would index outside their array.
