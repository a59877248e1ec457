# Verified model of a QL emulator

This project models the parts of a Sinclair QL emulator that are state machines and data
structures, and proves what they promise. `dafny verify dfyconfig.toml` takes all of it.

| file | models |
|---|---|
| Chains, Sectors, FileBytes, Store, Volume, Files | a QXL.WIN volume: the linked map, the write-back sector cache, and files as byte sequences above both |
| Floppy, Skew | a floppy disk: the packed allocation map, and the order of sectors on a cylinder |
| Beam | contention of the CPU with the ZX8301 for the RAM |
| Capture | the picture, captured line by line while the CPU runs |
| Limbs, Arithmetic | ADDX, SUBX, NEGX, ABCD, SBCD, NBCD: one limb, any number of limbs, numbers in memory |
| Shifts | shifts and rotates of data registers |
| Exceptions | interrupt lines, exception entry and RTE |
| OpcodeTable | the dispatch table made from patterns |
| Divide | the time of DIVU and DIVS |
| Tape | the microdrive tape and its receiver |
| Keyboard | the keyboard matrix of the IPC |
| Mcs48 | stack, interrupts and timer of the 8049 |
| Powers, Errors | powers of two, multiples and remainders, error codes |

The classes have the fields of the program and methods that change them; each method is
proved against a function of the state before it, and the lemmas are about those functions.
Where a claim is about a whole run it is about a list of states, each the next of the one before it.

## What the proofs say about the program

- The victim of the sector cache is always the last slot, because the slots behind the map
  are never locked: behind the map it is a cache of one sector. It is transparent all the same.
- A truncation keeps one cluster more than the length needs (QDisk.c:689-691).
- A write to a directory reports full success and writes nothing; a write that stops early
  reports an error only if nothing was written (QDisk.c:1521-1525, QDisk.c:1564).
- The native contention test goes wrong after an access a little in front of the frame start,
  because 2^64 is not a whole number of lines (`Beam.StaleLine`). `Beam.EarlyAccess` gives the
  exact distance: 256 cycles on PAL, 130 on NTSC, except in a frame that starts within that
  many cycles of the power-on, where nothing goes wrong. The scaled test lets every access in
  front of the frame start pass at once.
- ASR by more than the width clears carry and X where single steps would leave the sign
  (`Shifts.Register.AsrRegister`: the flags agree if and only if the count is at most the
  width or the sign is clear; `Shifts.AsrByNine` is a case where they do not).
- A byte in the tape receiver is lost exactly when it is overwritten, when a second byte time
  goes by behind the end of a block, or at the rewind (`Tape.LostIffLate`). So the last byte of
  a block may wait 16 ticks, but the last byte of the tape only five: a reader that is not
  there in them has lost it (`Tape.LastByteLost`, and `Tape.LostAtRewind` with numbers).
  One that polls in any 185 consecutive cycles loses nothing (`Tape.AttentiveIsInTime`).
- The captured picture is not the beam's to the cycle: a line is copied at the first look behind
  an instruction from its time on, so a write of that instruction to words already fetched is
  shown a frame too early (`Capture.OneWriteTooEarly`), and the last line is frozen at its copy.
  Nothing else differs (`Capture.WrongByOneInstruction`).
- Key changes are scheduled 2 ms apart, but when the firmware looks 2 ms late or more several
  are made in one look (`Keyboard.TwoAtOnce`; `Keyboard.SecondChange` says exactly when). Over
  a run they are no more frequent than that (`Keyboard.NoFasterThanSpacing`), and the 40 ms
  hold is real time.

## Assumptions

Writes of the host succeed, and the sectors it cannot read are a fixed set without map
sectors. A volume is small enough for byte positions to fit the machine's integers. An open
file comes with its directory entry, and is not its own directory. Cycle counters do not
reach 2^64, except where a difference wraps in `Beam`. Memory operands of the 68008 lie in
RAM, at even addresses for words, and the supervisor stack has room for a frame there. The
cycles of writes and of looks at the keyboard are given, in order.

## Model

| member | source | states |
|---|---|---|
| `Chains.StepKeepsSeparate` | QDisk.c:682-943 | every one of the four operations keeps the free list and all file lists duplicate-free and pairwise disjoint, and keeps the clusters as a whole |
| `Chains.RunKeepsSeparate` | QDisk.c:682-943 | the same over every sequence of operations |
| `Chains.LinksDistinct` | QDisk.c:694-704 | a zero-terminated list of links never visits a cluster twice, so every walk along it ends |
| `Chains.ChainUnique` | QDisk.c:694-704 | a map and a head have at most one list: what the map means is determined |
| `Chains.SixteenBits` | QDisk.c:715-715 | the free count fits the 16-bit header field |
| `Chains.CreateRepresents` | QDisk.c:792-820 | taking the head of the free list as the first cluster leaves map, head and count that mean the new lists |
| `Chains.AppendRepresents` | QDisk.c:823-869 | linking the head of the free list behind the last cluster does the same |
| `Chains.TruncateRepresents` | QDisk.c:682-724 | cutting a list and putting its tail in front of the free list does the same, also when nothing is released and both pointers are one |
| `Chains.DeleteRepresents` | QDisk.c:922-943 | putting a whole file in front of the free list does the same |
| `Sectors.SetFatWord` | QDisk.c:108-120 | storing a 16-bit map word in its sector changes that word of the map and no other word or header field |
| `Sectors.SetHeaderWord` | QDisk.c:108-120 | storing a header field changes no map word and no other field |
| `Sectors.LongStored` | QFilesPriv.h:177 | a length stored in a directory entry is read back as its low 32 bits |
| `Sectors.BigEndian` | QDisk.c:108-120 | fields have their high byte first |
| `Sectors.MapPlace` | QDisk.c:108-120 | map word w lies 64 + 2w bytes into the map sectors |
| `FileBytes.FilesApart` | QDisk.c:729-753 | files with disjoint clusters have disjoint sectors |
| `FileBytes.FileSectorsAt` | QDisk.c:729-753 | sector number to volume sector: the quotient picks the cluster and the remainder the sector in it, and there is none behind the last cluster |
| `FileBytes.FileSectorProduct` | QDisk.c:735-751 | the same with the product of cluster number and cluster size |
| `FileBytes.ClustersKeptIs` | QDisk.c:689-691 | the number of clusters a truncation keeps, by the formula of the program: one more than needed |
| `FileBytes.KeptIsEnough` | QDisk.c:689-691 | what is kept has more sectors than asked for |
| `FileBytes.SpliceReads` | QDisk.c:1513-1627 | what has been written at a position is what is found there, and all before and behind it is as it was |
| `Volumes.Volume.constructor` | QDisk.c:286-357 | opening a well-formed image gives a valid volume: map sectors in the first slots, locked, and the disk as what the machine sees |
| `Volumes.Volume.ViewIsSeen` | QDisk.c:597-652 | what the machine sees of a sector is its cached copy if there is one and the disk otherwise |
| `Volumes.Volume.Find` | QDisk.c:609-632 | a hit is the slot of the sector; on a miss no slot holds it, and the victim is always the last slot |
| `Volumes.Volume.WriteBack` | QDisk.c:635-637 | a changed victim reaches the disk before it is overwritten |
| `Volumes.Volume.Load` | QDisk.c:638-651 | a loaded slot holds the sector as seen; an unreadable sector leaves the slot free |
| `Volumes.Volume.GetSector` | QDisk.c:597-652 | the cache is transparent: with evictions, hits and read errors the view of every sector is unchanged, map slots are never victims and no two live slots share a sector |
| `Volumes.Volume.PutSector` | QDisk.c:654-664 | marks a slot as changed |
| `Volumes.Volume.WriteBlock0` | QDisk.c:666-680 | the map sectors on disk are those in the cache |
| `Volumes.Volume.FlushSectors` | QDisk.c:185-200 | after a flush the disk is what the machine sees, and nothing is waiting |
| `Volumes.Reopen` | QDisk.c:185-233 | a volume that is flushed and opened again is the same volume: every sector, every file and the free list |
| `Volumes.Volume.SetFat` | QDisk.c:706-713 | a map word changes in its slot, and nothing else that files see |
| `Volumes.Volume.Walk` | QDisk.c:694-697 | a walk along a file stops after the asked number of steps or at its last cluster, and terminates |
| `Volumes.Volume.WalkToEnd` | QDisk.c:702-704 | a walk to the end finds the last cluster and counts the steps |
| `Volumes.Volume.GetFileSectNum` | QDisk.c:729-753 | the volume sector of a sector of a file, or the error when it has no such sector |
| `Volumes.Volume.GetFileSector` | QDisk.c:1019-1030 | the slot of that sector, or the error of the lookup or of the host |
| `Volumes.Volume.KillFileTail` | QDisk.c:682-724 | the clusters behind the first ceil(sector / spc) + 1 go to the head of the free list, and nothing else changes that files see |
| `Volumes.Volume.KillFile` | QDisk.c:922-943 | the clusters of the file go to the head of the free list, the file is gone, and the map is written to the disk |
| `Volumes.Volume.GetFreeBlock0` | QDisk.c:792-820 | gives a new file the head of the free list, or reports a full disk |
| `Volumes.Volume.GetFreeBlock` | QDisk.c:823-869 | gives a file the head of the free list as its last cluster, or reports a full disk |
| `Volumes.Volume.StoreData` | QDisk.c:1538-1546 | bytes stored in a cached data sector change those bytes of the view and no map word |
| `Volumes.TruncateSound` | QDisk.c:682-724 | the two map words and the header words written by a truncation mean the truncated lists, inside the data part |
| `Volumes.AppendSound` | QDisk.c:823-869 | the words written by an append mean the longer list |
| `Volumes.CreateSound` | QDisk.c:792-820 | the words written for a first cluster mean the new file |
| `Volumes.DeleteSound` | QDisk.c:922-943 | the words written by a deletion mean the shorter set of files |
| `Store.WriteIsWritten` | QDisk.c:1513-1565 | a write puts exactly the bytes it reports into the file and leaves every other byte of every file; new clusters come only from the head of the free list and go only to the end of the file |
| `Store.WriteTheorem` | QDisk.c:1513-1565 | a whole write: the old bytes with the written ones spliced in, the length stored in the directory, and no sector of a third file changed |
| `Store.ReadBack` | QDisk.c:1513-1627 | what was written is what a read of the same place finds |
| `Store.WriteKeepsBytes` | QDisk.c:1513-1565 | another file keeps its clusters and all its bytes |
| `Store.WriteDirectory` | QDisk.c:1552-1562 | the directory changes only in the length of a file that has grown, and only if its sector can be read |
| `Store.WriteEnds` | QDisk.c:1526-1549 | a write ends at the end of the data, on a full disk with the file filled to its last cluster, or in front of an unreadable sector; only clusters it needed were added |
| `Store.WriteAmount` | QDisk.c:1526-1549 | on a readable medium the count written is the data, or exactly what there is room for |
| `Store.WriteReaches` | QDisk.c:1526-1549 | every sector a write has put bytes into can be read |
| `Store.WriteKeeps` | QDisk.c:1526-1549 | what both parts of a pass keep holds at the end of the write loop |
| `Store.CutTheorem` | QDisk.c:1863-1874 | a truncated file keeps its bytes up to the new end, and no other file changes |
| `Store.CutReleases` | QDisk.c:689-717 | what a cut frees: all clusters behind the first ceil(sectors / spc) + 1 go, in order, to the head of the free list |
| `Store.TruncateTheorem` | QDisk.c:1863-1874 | a truncation as a whole: bytes of the file up to the new end, length in the directory, no third file changed |
| `Store.SectorSlice` | QDisk.c:1580-1608 | bytes of one sector are bytes of the file |
| `Files.SectorForWrite` | QDisk.c:1529-1536 | the sector for a position at most at the end of the clusters, extended by one cluster when needed; refused with the error of the disk or the host |
| `Files.StorePass` | QDisk.c:1538-1546 | a pass stores the bytes up to the end of its sector |
| `Files.WriteLoop` | QDisk.c:1526-1549 | the loop computes the write as specified |
| `Files.RewriteLength` | QDisk.c:1552-1562 | the new length goes to the directory entry, or the read error is reported |
| `Files.QWrite` | QDisk.c:1513-1565 | count, error, position, length and volume after a write, also behind the end of the file; an error only when nothing was written; nothing happens for a directory, which reports success |
| `Files.ReadLoop` | QDisk.c:1576-1617 | the loop delivers the bytes of the file up to the wanted count, the end of the file or an unreadable sector |
| `Files.QRead` | QDisk.c:1567-1627 | min(wanted, what is left) bytes of the file unless a sector cannot be read; an error only if nothing was read; a position behind the end is moved back |
| `Files.Seek` | QDisk.c:1743-1751 | the position stays behind the header and at most at the end of the file |
| `Files.WriteAndReadBack` | QDisk.c:1513-1627 | writing, moving back and reading as much gives exactly the bytes the write counted, through the cache and the map, on a full disk and with unreadable sectors |
| `Files.TruncateHere` | QDisk.c:1863-1874 | the length is stored, then the clusters behind those kept go to the head of the free list; when the directory cannot be read they do not |
| `Floppy.EntryValue` | QDisk.c:770-780 | both packed forms of an entry compare equal to file and block exactly if the entry holds them |
| `Floppy.EvenForm` | QDisk.c:957-957 | the signed test of an even entry finds the file, for files below 2048 |
| `Floppy.OddForm` | QDisk.c:963-963 | the odd form gives file and block |
| `Floppy.AssignHolds` | QDisk.c:887-902 | what is stored in an entry is what is decoded from it, and it is not vacant |
| `Floppy.AssignKeeps` | QDisk.c:887-902 | neighbouring entries are untouched |
| `Floppy.LookupAssign` | QDisk.c:755-789 | a block just allocated is found in its entry, and every other block where it was |
| `Floppy.LookupRelease` | QDisk.c:945-1015 | after a deletion no block of the tail is found, and every other block where it was |
| `Floppy.AllocateEnters` | QDisk.c:873-920 | what an allocation does to the blocks that are found, through the operation with its count |
| `Floppy.DropDrops` | QDisk.c:945-1015 | what a deletion does to them |
| `Floppy.ApplyKeepsBalance` | QDisk.c:873-1015 | allocate, kill and kill-tail keep the count of free sectors in step with the vacant entries |
| `Floppy.RunKeepsBalance` | QDisk.c:873-1015 | so does every sequence of them |
| `Floppy.RunKeepsCount` | QDisk.c:873-1015 | on a disk of fewer than 65536 sectors the count stays exactly the sectors of the vacant entries, and allocation is refused exactly when no entry is vacant |
| `Floppy.FloppyMap.FileBlockSector` | QDisk.c:755-789 | the disk sector of a sector of a file: that of the first matching entry, or none |
| `Floppy.FloppyMap.GetFreeBlock` | QDisk.c:873-920 | the first vacant entry goes to the block, which is found there afterwards with every other block where it was, or the disk is full |
| `Floppy.FloppyMap.KillFile` | QDisk.c:945-973 | no block of the file is found any more, and every other block is where it was |
| `Floppy.FloppyMap.KillFileTail` | QDisk.c:978-1015 | no block of the file from the first one not kept is found any more, and every other block is where it was |
| `Skew.TablesAreFine` | QDisk.c:143-152 | both tables of the formats name every sector of a cylinder once |
| `Skew.Onto` | QDisk.c:2134-2161 | a table of distinct places has all of them |
| `Skew.FixLogical` | QDisk.c:2134-2161 | whatever the disk held, the table afterwards is a permutation; a good one is kept |
| `Skew.PhysicalInjective` | QDisk.c:514-551 | sectors stay on their cylinder and no two share a place, for any skew |
| `Skew.PhysicalOnto` | QDisk.c:514-551 | every sector of the disk is the place of a logical one |
| `Skew.FirstTrack` | QDisk.c:536-549 | the first track is as the table says |
| `Skew.NextTrack` | QDisk.c:536-549 | each further track is the same on each side, turned by the offset |
| `Skew.Drive.LoadLogSector` | QDisk.c:514-551 | reads the place of the sector |
| `Skew.Drive.WriteLogSector` | QDisk.c:553-593 | what is written is read back, and every other logical sector stays |
| `Beam.ScaledIsCover` | zx8301.c:162-186 | the test at any speed says exactly whether the CPU cycle covers a cycle of a QL on which an access may start |
| `Beam.FreeIs` | zx8301.c:147-202 | where in a line an access may start: at a multiple of 12, or behind 384 cycles of a visible line and 96 of another |
| `Beam.NextFreeIsFirst` | zx8301.c:147-159 | the next start of a chunk, or the cycle itself, is the first free one |
| `Beam.DelayBound` | zx8301.c:205-215 | the wait loop ends within ceil(11 * speed / 20) cycles at every speed |
| `Beam.DelayCovers` | zx8301.c:205-215 | it ends on the first cycle that covers a free one, and what it covers is the very first: no start of a chunk is stepped over |
| `Beam.NativeAgrees` | zx8301.c:147-202 | at native speed the test with the cached line, the scaled test and the definition agree for accesses from the frame start on, in any order |
| `Beam.StaleLine` | zx8301.c:147-202 | an access in front of the frame start can make a later one go wrong: a concrete one |
| `Beam.EarlyAccess` | zx8301.c:147-202 | exactly when it does: if and only if it lies no more than 2^64 modulo the line length in front of a frame start that is itself at least that late |
| `Beam.EarlyTest` | zx8301.c:147-202 | in front of the frame start the native test is that of a frame that had begun 2^64 cycles before |
| `Beam.EarlyWaitEnds` | zx8301.c:205-215 | a wait that begins in front of the frame start ends there |
| `Beam.Contention.Frame` | zx8301.c:137-145 | a new frame empties the line cache; at the unlimited speed 0 there is no contention |
| `Beam.Contention.CouldStart` | zx8301.c:189-202 | the test with its cache, at any cycle; from the frame start on it computes the scaled test and keeps the cache good |
| `Beam.Contention.Wait` | zx8301.c:205-215 | the wait states of an access, and their bound; in front of the frame start none, or at the speed of a QL those of a frame that had begun 2^64 cycles before |
| `Capture.FetchBeforeNextLine` | zx8301.c:116-135 | with floor division all words of a line are fetched no later than the next line starts |
| `Capture.LineTimeIsBeam` | zx8301.c:129-135 | at the speed of a QL line l is copied a cycle after line first + l of the frame has begun, which is the frame of the contention |
| `Capture.FetchIsBusy` | src/SDL2screen.c:155-177 | the fetch of every word lies in that line, at its place, and inside the chunks in which the ZX8301 has the RAM for itself |
| `Capture.FetchedInTime` | zx8301.c:116-135 | when the last line is copied every word of the other lines has been fetched |
| `Capture.LookedInTime` | iexl_general.c:497-509 | a line is copied less than one instruction after its time |
| `Capture.SeenIff` | src/SDL2screen.c:155-177 | which writes a fetch sees: those before the copy of its line or before the fetch |
| `Capture.ShowsAfterCopy` | src/SDL2screen.c:133-150 | copying a line keeps what is captured equal to what the beam fetches |
| `Capture.ShowsAfterCpuWrite` | src/SDL2screen.c:155-177 | so does a write by the CPU, patched into the line being scanned |
| `Capture.FrameSeen` | src/SDL2screen.c:133-247 | the same among the writes up to the presentation, also for a frame that was cut short |
| `Capture.FrameIsBeam` | src/SDL2screen.c:133-247 | every byte of a completed frame is the memory after the last write, among all writes of the machine, that precedes its own fetch or the look at which its line was copied, the first from the time of the line on; the last line is frozen at that look |
| `Capture.WrongByOneInstruction` | src/SDL2screen.c:133-247 | with a look behind every instruction the picture misses no write before a fetch, a write it shows too early comes less than one instruction after the time of the line and before the first look from then on, and words fetched later than that are exact |
| `Capture.OneWriteTooEarly` | src/SDL2screen.c:133-177 | a write at the cycle of a fetch that is shown all the same |
| `Capture.Screen.constructor` | src/SDL2screen.c:70-93 | no capture in progress |
| `Capture.Screen.CopyLine` | src/SDL2screen.c:133-150 | a line is copied and becomes the one being scanned |
| `Capture.Screen.ScreenWrite` | src/SDL2screen.c:155-177 | the written bytes whose words are not fetched yet go into the copy, and no others |
| `Capture.Screen.CpuWrite` | memaccess.c:162-242 | a write to memory keeps the capture what the beam sees |
| `Capture.Screen.Present` | src/SDL2screen.c:179-202 | the captured frame becomes the one to draw |
| `Capture.Screen.SnapshotLine` | src/SDL2screen.c:230-247 | at this look exactly the lines are copied whose time has come since the look before; the frame is completed exactly when the time of the last one has, and shows what the beam fetched |
| `Capture.Screen.AfterInstruction` | iexl_general.c:506-509 | the look behind an instruction: before the time of the next line it does nothing, and no line has become due |
| `Capture.Screen.FrameStart` | src/SDL2screen.c:205-226 | a frame cut short keeps the lines already copied, is completed with the memory of the moment, and a new one begins |
| `Limbs.AddxExact` | instructions_ao.c:351-464 | ADDX adds exactly with X as carry, V is signed overflow, C is X, N the sign, and Z stays set only for a zero, for all three sizes |
| `Limbs.SubxExact` | instructions_pz.c:492-605 | SUBX subtracts exactly with X as borrow, and the other flags likewise |
| `Limbs.NegxIsSubxFromZero` | instructions_ao.c:2251-2293 | NEGX is SUBX from 0, all flags included |
| `Limbs.NbcdIsSbcdFromZero` | instructions_ao.c:2192-2211 | NBCD is SBCD from 0, all flags included |
| `Limbs.AbcdExact` | instructions_ao.c:8-39 | ABCD on valid digits is the decimal sum with X as carry |
| `Limbs.SbcdExact` | instructions_pz.c:175-205 | SBCD on valid digits is the decimal difference with X as borrow |
| `Limbs.DecimalFlags` | instructions_ao.c:8-39 | C, N and Z of ABCD and SBCD on any operands |
| `Limbs.ChainExact` | instructions_ao.c:351-464 | any number of limbs: the result is exact, X is the final carry or borrow, Z is kept only if the whole result is zero |
| `Limbs.ChainSigned` | instructions_ao.c:351-464 | after the top limb N is the sign of the whole result and V says that it does not fit |
| `Arithmetic.MemoryArithmetic` | instructions_ao.c:409-464 | n instructions -(Ay),-(Ax) turn the number in memory into the sum or difference of the two, exactly, and touch no other memory; either operand size, binary or decimal |
| `Arithmetic.NumberIsBytes` | memaccess.c:71-242 | the limbs of a binary number in memory are one big-endian number of all their bytes |
| `Arithmetic.OperandsAt` | mmodes.c:134-142 | where the operands of -(Ay),-(Ax) lie and where the registers end, also when both are one |
| `Arithmetic.Decrement` | mmodes.c:134-142 | a register steps by the size of the operand, A7 by an even number |
| `Arithmetic.PutGet` | memaccess.c:71-242 | an operand stored is read back, and operands apart from it are unchanged |
| `Arithmetic.Cpu.ReadDown` | mmodes.c:134-142 | the address register steps down, bytes on A7 by two, and the operand there is read |
| `Arithmetic.Cpu.AddLimb` | instructions_ao.c:351-367 | result and flags of ADDX |
| `Arithmetic.Cpu.SubtractLimb` | instructions_pz.c:492-508 | result and flags of SUBX |
| `Arithmetic.Cpu.AddxRegister` | instructions_ao.c:351-407 | the register form for all sizes |
| `Arithmetic.Cpu.AddxMemory` | instructions_ao.c:409-464 | the memory form: source first, both registers stepped down |
| `Arithmetic.Cpu.SubxRegister` | instructions_pz.c:492-548 | the register form |
| `Arithmetic.Cpu.SubxMemory` | instructions_pz.c:550-605 | the memory form |
| `Arithmetic.Cpu.AddDecimal` | instructions_ao.c:8-39 | ABCD in both forms |
| `Arithmetic.Cpu.SubtractDecimal` | instructions_pz.c:175-205 | SBCD in both forms |
| `Arithmetic.Cpu.NegateLimb` | instructions_ao.c:2251-2293 | result and flags of NEGX are those of SUBX from 0 |
| `Arithmetic.Cpu.NegxRegister` | instructions_ao.c:2251-2293 | NEGX of a data register |
| `Arithmetic.Cpu.NegxMemory` | instructions_ao.c:2251-2293 | NEGX of an operand in memory |
| `Arithmetic.Cpu.NegateDigits` | instructions_ao.c:2192-2211 | result and flags of NBCD are those of SBCD from 0 |
| `Arithmetic.Cpu.NbcdRegister` | instructions_ao.c:2192-2211 | NBCD of a data register |
| `Arithmetic.Cpu.NbcdMemory` | instructions_ao.c:2192-2211 | NBCD of a byte in memory |
| `Shifts.AslSteps` | instructions_pz.c:708-985 | what any number of single-bit steps of ASL comes to: value, X and C, and V set exactly if the sign changes at some step |
| `Shifts.StepLeft` | instructions_pz.c:708-1774 | what one step to the left does to the number in the register and to X, C and V |
| `Shifts.StepRight` | instructions_pz.c:803-1753 | what one step to the right does |
| `Shifts.NoSteps` | instructions_pz.c:803-1774 | a count of 0 leaves the word and X, and clears C but for the rotates through X, which copy it |
| `Shifts.Count` | instructions_pz.c:708-723 | the field of an immediate form is the count modulo 8 |
| `Shifts.LslSteps` | instructions_pz.c:1014-1315 | what any number of single-bit steps of LSL comes to: value, X and C |
| `Shifts.LsrSteps` | instructions_pz.c:987-1286 | what any number of single-bit steps of LSR comes to: value, X and C |
| `Shifts.RolSteps` | instructions_pz.c:1329-1508 | what any number of single-bit steps of ROL comes to: value and C |
| `Shifts.RorSteps` | instructions_pz.c:1317-1489 | what any number of single-bit steps of ROR comes to: value and C |
| `Shifts.RoxlSteps` | instructions_pz.c:1534-1774 | what any number of single-bit steps of ROXL comes to: value, X and C |
| `Shifts.RoxrSteps` | instructions_pz.c:1510-1753 | what any number of single-bit steps of ROXR comes to: value, X and C |
| `Shifts.Register.AslRegister` | instructions_pz.c:829-985 | ASL by a register count equals that many steps, mask test included |
| `Shifts.Register.AsrRegister` | instructions_pz.c:803-949 | ASR gives the value of the steps; its flags agree if and only if the count is at most the width or the sign is clear |
| `Shifts.AsrByNine` | instructions_pz.c:803-828 | a byte and a count for which they do not agree |
| `Shifts.Register.LslRegister` | instructions_pz.c:1178-1315 | LSL by a register count |
| `Shifts.Register.LsrRegister` | instructions_pz.c:1151-1286 | LSR by a register count |
| `Shifts.Register.RolRegister` | instructions_pz.c:1415-1508 | ROL by a register count |
| `Shifts.Register.RorRegister` | instructions_pz.c:1396-1489 | ROR by a register count |
| `Shifts.Register.RoxlRegister` | instructions_pz.c:1659-1732 | ROXL on bytes and words |
| `Shifts.Register.RoxrRegister` | instructions_pz.c:1634-1707 | ROXR on bytes and words |
| `Shifts.Register.RoxlLong` | instructions_pz.c:1755-1774 | ROXL on long words, in 64 bits |
| `Shifts.Register.RoxrLong` | instructions_pz.c:1734-1753 | ROXR on long words, in 64 bits |
| `Shifts.Register.AslImmediate` | instructions_pz.c:708-801 | the immediate form, 0 standing for 8 |
| `Shifts.Register.LslImmediate` | instructions_pz.c:1014-1127 | the immediate form |
| `Shifts.Register.LsrImmediate` | instructions_pz.c:987-1103 | the immediate form |
| `Shifts.Register.RolImmediate` | instructions_pz.c:1329-1394 | the immediate form |
| `Shifts.Register.RorImmediate` | instructions_pz.c:1317-1380 | the immediate form |
| `Shifts.Register.RoxlImmediate` | instructions_pz.c:1534-1632 | the immediate form, with its own code for eight places of a byte |
| `Shifts.Register.RoxrImmediate` | instructions_pz.c:1510-1613 | the immediate form, with its own code for eight places of a byte |
| `Exceptions.UnpackPack` | iexl_general.c:190-223 | the status register survives the stack |
| `Exceptions.StatusBits` | iexl_general.c:190-202 | where the fields of the status register lie |
| `Exceptions.EntryWritesSix` | iexl_general.c:413-422 | entry writes the six bytes below the supervisor stack pointer and no others, loads the vector, sets S and the mask and clears T |
| `Exceptions.RteUndoesEntry` | instructions_pz.c:95-120 | after any handler that leaves the stacks and its frame alone RTE restores PC, SR with its mask and both stack pointers, from either mode |
| `Exceptions.RteTakesNext` | iexl_general.c:204-239 | an interrupt that RTE lets through is taken on the same frame, before the interrupted program runs |
| `Exceptions.AlwaysCoherent` | general.c:283-362 | in every reachable state the request is 7 for both sources until it is taken, 5 for P2.2 alone, 2 for P2.3 or a pending bit alone, and 0 otherwise |
| `Exceptions.EventKeeps` | general.c:283-362 | what each event does to the lines, the pending bits and the mask |
| `Exceptions.AcknowledgeClears` | general.c:348-362 | acknowledging clears the named bits and no others, and with the last of them the request they made |
| `Exceptions.SevenOncePerEdge` | general.c:286-321 | between two accepted level 7 interrupts the lines left level 7 |
| `Exceptions.NestedLevelsRise` | iexl_general.c:162-188 | while the mask is not loaded, accepted levels strictly rise, save level 7 on its next edge, and become the mask |
| `Exceptions.Processor.constructor` | iexl_general.c:565-579 | the state after power on |
| `Exceptions.Processor.UpdateLines` | general.c:286-306 | the request in terms of the lines and the pending bits, and the attention flag, after any change |
| `Exceptions.Processor.SetIpcLines` | general.c:308-313 | the IPC drives its two lines |
| `Exceptions.Processor.FrameInterrupt` | general.c:323-330 | the frame interrupt is latched once |
| `Exceptions.Processor.GapInterrupt` | general.c:343-346 | the gap interrupt |
| `Exceptions.Processor.WriteInt` | general.c:348-362 | the named bits are cleared and the request follows |
| `Exceptions.Processor.SetPC` | iexl_general.c:307-329 | an odd address is an address error and leaves the program counter |
| `Exceptions.Processor.SetVector` | iexl_general.c:249-275 | the jump through a vector |
| `Exceptions.Processor.EnterVector` | iexl_general.c:413-422 | the frame on the supervisor stack, the vector, supervisor mode |
| `Exceptions.Processor.ProcessInterrupts` | iexl_general.c:162-188 | a request above the mask, or level 7, enters vector 24 plus its level with the level as mask, unless an exception or a trace is pending |
| `Exceptions.Processor.AcceptInterrupt` | iexl_general.c:170-186 | the handler of the request is entered, its level becomes the mask, and a level 7 is noted as taken |
| `Exceptions.Processor.PutSR` | iexl_general.c:204-239 | the status register, the exchange of stacks and the interrupt it lets through |
| `Exceptions.Processor.Rte` | instructions_pz.c:95-120 | RTE in both modes |
| `Exceptions.Processor.TakeTrap` | instructions_pz.c:630-640 | TRAP #n and the exception processing behind it enter vector 32 + n before any interrupt, and RTE undoes it whatever the handler did |
| `Exceptions.Processor.ExceptionProcessing` | iexl_general.c:395-468 | a pending exception goes before an interrupt, and allows interrupts again; afterwards a request the mask lets through has the fetch loop look (`Noticed`), as after every other method that changes lines, mask or exceptions |
| `Tape.AdvanceFollows` | mdv.c:302-367 | address, kind of block, gap and word count stay coupled over a revolution, which starts anew after exactly 413n + 1 words |
| `Tape.AdvanceInSector` | mdv.c:328-367 | the words of one sector: gap, 14 header words, gap, 329 data words; the gap starts after the header and after the data |
| `Tape.NotBefore` | mdv.c:302-304 | the tape does not begin anew before |
| `Tape.WholeWord` | mdv.c:255-300 | a word takes 592 cycles, in which its bytes are completed, the upper one first |
| `Tape.OneRevolution` | mdv.c:255-380 | a reader that keeps up gets header words 6 to 13 and data words 6, 7 and 12 to 328 of every sector, in order, in exactly one revolution |
| `Tape.FirstRevolution` | mdv.c:115-171 | the same from a reset on |
| `Tape.LostIffLate` | mdv.c:264-304 | a byte is lost exactly if the reader is late: overwritten, stale for two byte times, or at the rewind |
| `Tape.CycleHears` | mdv.c:264-293 | while the reader is not late no byte is lost or made up |
| `Tape.LastByteLost` | mdv.c:297-304 | the last byte of the tape is lost by every reader that does not poll in the five ticks behind it |
| `Tape.AttentiveIsInTime` | mdv.c:255-304 | a reader that polls in any 185 consecutive cycles is never late |
| `Tape.AttentiveGetsAll` | mdv.c:115-380 | so it gets every sector from a reset on: the condition is about its polls alone |
| `Tape.LostAtRewind` | mdv.c:297-304 | a state one cycle before the rewind in which that happens |
| `Tape.StaleAfterTwo` | mdv.c:288-292 | behind a block a byte survives the first silent byte time and not the second |
| `Tape.Microdrive.constructor` | mdv.c:115-171 | a drive that has been reset |
| `Tape.Microdrive.PassWord` | mdv.c:328-367 | one word passes the head; the gap interrupt is raised where a gap begins |
| `Tape.Microdrive.NextWord` | mdv.c:297-380 | the next word is loaded, or the tape rewound |
| `Tape.Microdrive.ReceiveByte` | mdv.c:267-293 | a byte is latched, or a stale one dropped after two byte times |
| `Tape.Microdrive.Step` | mdv.c:255-380 | one CPU cycle |
| `Tape.Microdrive.ReadData` | mdv.c:453-479 | the byte, or the last one again |
| `Tape.ReadAgain` | mdv.c:453-479 | a second read gives the byte of the first |
| `Keyboard.InOrder` | ipc.c:446-521 | key changes are made in the order they were typed, each once |
| `Keyboard.ChangeDoes` | ipc.c:496-519 | a change presses or releases its own key and no other; before that of a modifier the other keys are released |
| `Keyboard.NotEarly` | ipc.c:468-478 | no change is made before the time the host asked for, one frame later |
| `Keyboard.ElapsedIs` | ipc.c:470-472 | the difference of the host's counters is right across a wrap |
| `Keyboard.HeldLongEnough` | ipc.c:479-515 | a key that enters the matrix stays for at least 40 ms, also when a modifier change releases it |
| `Keyboard.OneModifierState` | ipc.c:496-508 | as long as another key is in the matrix the modifiers do not change |
| `Keyboard.NoFasterThanSpacing` | ipc.c:477-519 | over a run, n changes behind one that was due take at least 2 ms each from then on |
| `Keyboard.SecondChange` | ipc.c:459-519 | a look makes a second change if and only if the first was at least 2 ms late and the second is held back by nothing else |
| `Keyboard.TwoAtOnce` | ipc.c:459-519 | two keys that enter the matrix in one look |
| `Keyboard.Matrix.ReportKey` | ipc.c:446-456 | a change joins the ring, or is dropped when it is full |
| `Keyboard.Matrix.Make` | ipc.c:496-519 | one change of the matrix |
| `Keyboard.Matrix.Apply` | ipc.c:459-521 | all changes that are due |
| `Mcs48.ReturnsHome` | mcs48.c:38-54 | whatever is nested in between, eight levels at most, the matching return resumes at the pushed 12-bit address, and RETR restores the flags |
| `Mcs48.InterruptsDoNotNest` | mcs48.c:181-198 | from the entry of an interrupt to RETR the flag stays up that keeps others out |
| `Mcs48.TimerCountsCycles` | mcs48.c:153-174 | between timer instructions, with interrupts taken or not, 32 * (256 * overflows + timer) + prescaler advances by the machine cycles |
| `Mcs48.FlagsTellWraps` | mcs48.c:168-172 | the flag, and with interrupts enabled the request, say that the timer has wrapped |
| `Mcs48.OneEntryAWrap` | mcs48.c:168-198 | between two of its interrupts the timer has wrapped |
| `Mcs48.FlagSinceJump` | mcs48.c:168-172 | the flag says whether the timer has wrapped since the last jump on it |
| `Mcs48.CounterCountsFalls` | mcs48.c:161-166 | as a counter it counts the falling edges of T1 |
| `Mcs48.Processor.Fetch` | mcs48.c:20-26 | the program counter stays within its 2K bank |
| `Mcs48.Processor.PushPc` | mcs48.c:38-44 | the return address and the flags go on the stack |
| `Mcs48.Processor.PullPc` | mcs48.c:46-54 | and come back |
| `Mcs48.Processor.Ret` | mcs48.c:351-351 | RET |
| `Mcs48.Processor.Retr` | mcs48.c:352-352 | RETR, which ends the interrupt |
| `Mcs48.Processor.JumpOrCall` | mcs48.c:75-83 | the target: the bank flip-flop counts except in interrupts |
| `Mcs48.Processor.TimerTick` | mcs48.c:153-174 | the timer over the cycles of an instruction |
| `Mcs48.Processor.EnterInterrupt` | mcs48.c:181-198 | the external interrupt goes before that of the timer, and none is entered inside one |
| `Divide.RestoringDivision` | cycles68k.c:820-842 | the loop is restoring division: the remainder stays below the divisor and nothing is lost |
| `Divide.QuotientBits` | cycles68k.c:820-842 | after 15 steps the subtractions are the quotient without its last bit |
| `Divide.WrappingStep` | cycles68k.c:828-839 | a step that wraps in 32 bits is a step of the division |
| `Divide.DivuCycles` | cycles68k.c:820-842 | 10 cycles on overflow, else 136 less two for each one among quotient bits 15 to 1 and for each of the 15 remainders with bit 31 set, which is 76 to 136 |
| `Divide.CostIs` | cycles68k.c:828-839 | the steps cost two units, less one for each quotient bit and one for each remainder with bit 31 set |
| `Divide.RemainderIs` | cycles68k.c:828-839 | the remainder before step k is that of the dividend times 2^k |
| `Divide.ZeroIsSlowest` | cycles68k.c:820-842 | a dividend of zero takes 136 cycles |
| `Divide.JustBelowIsFastest` | cycles68k.c:820-842 | with a divisor above 0x8000 the largest dividend without overflow takes 76 |
| `Divide.DivsCycles` | cycles68k.c:845-871 | 150, 152, 156 or 154 cycles by the signs, less two for each one among quotient bits 15 to 1; 16 or 18 when the quotient is too large |
| `Divide.ZerosAndOnes` | cycles68k.c:865-869 | the zeros counted and the ones are all the bits |
| `Divide.CountZeros` | cycles68k.c:865-869 | the loop counts those zeros |
| `OpcodeTable.OneRun` | Init.c:337-368 | what a pattern with one run of free bits matches is a stride |
| `OpcodeTable.TwoRuns` | Init.c:337-359 | what a pattern with two runs matches is a grid of two strides |
| `OpcodeTable.LastMatchDecides` | Init.c:383-685 | each opcode goes to the last listed pattern that matches it |
| `OpcodeTable.NoMatchKeeps` | Init.c:383-685 | an opcode that no pattern matches keeps its entry |
| `OpcodeTable.SetTable` | Init.c:315-369 | the handler is stored in exactly the entries that match |
| `OpcodeTable.ScanBits` | Init.c:326-332 | the number the fixed bits spell |
| `OpcodeTable.FillRun` | Init.c:362-367 | one run is filled |
| `OpcodeTable.FillGrid` | Init.c:350-359 | two runs are filled |
| `OpcodeTable.SetInvalEntries` | Init.c:373-378 | the default handler |
| `OpcodeTable.SetTabEntries` | Init.c:383-685 | the patterns are entered in order |

## Left out

- Finding and creating directory entries, and growing directories (QDisk.c:1103-1463): the entry is given.
- `fileNum` in a cache slot is recorded and never read, and is not modelled.
- Volumes.Volume.constructor: the signature, the error returns of a disk that is not a QL disk or whose map cannot be read, and the opening of floppies are not modelled; the image has to be well-formed.
- Volumes.Volume.WriteBack: a host write that fails is not modelled.
- Volumes.Volume.WriteBlock0: a host write that fails, and the early stop and the error behind it, are not modelled.
- Volumes.Volume.FlushSectors: host writes succeed.
- Volumes.Volume.KillFile: the error of a failed write of the map is not modelled.
- Files.RewriteLength: the entry is located by its number; the search for it and the other fields of a header are not modelled.
- Files.QWrite: a position behind the clusters of the file is not modelled. A string fetch to an address below 131072 can leave one (QDisk.c:1704-1707), and so can another channel that cuts the file; the program then stores the bytes in a cluster that is not the one of the position.
- Files.ReadLoop: reading up to a line feed is not modelled.
- Files.QRead: reading up to a line feed is not modelled.
- Floppy.FloppyMap.GetFreeBlock: the marks for changed map sectors and the fetch of the first sector are not modelled.
- Floppy.FloppyMap.KillFile: the write of the map behind it is not modelled.
- Floppy.FloppyMap.KillFileTail: the write of the map when something has changed is not modelled.
- Skew.Drive.WriteLogSector: the count of updates is a field of the drive; that it lies in sector 0, and goes to the disk when that sector is written, is not modelled.
- Beam.NativeAgrees: the times of an instruction's accesses (`zx8301_insn`, `zx8301_ram`) are inputs.
- Beam.Contention.Wait: what later accesses do with the line that an access in front of the frame start has left at the speed of a QL is in `Beam.EarlyAccess`, not in a contract of `Wait`.
- Capture.Screen.CopyLine: the display mode and the blank bit of each line are not captured, and the picture has 256 lines of 128 bytes.
- Capture.Screen.Present: the blank state and the display mode of the frame are not modelled.
- Arithmetic.Cpu.ReadDown: hardware registers, ROM and address errors as operands are not modelled.
- Arithmetic.Cpu.AddxMemory: operands lie in RAM, words at even addresses.
- Arithmetic.Cpu.SubxMemory: operands lie in RAM, words at even addresses.
- Arithmetic.Cpu.AddDecimal: operands in memory lie in RAM.
- Arithmetic.Cpu.SubtractDecimal: operands in memory lie in RAM.
- Arithmetic.Cpu.NegxMemory: the address of the operand is given; the addressing modes are not modelled.
- Arithmetic.Cpu.NbcdMemory: the address of the operand is given; the addressing modes are not modelled.
- Exceptions.Pack: the five condition codes are one number below 32.
- Exceptions.Processor.ProcessInterrupts: cycles and trace counters are not modelled.
- Exceptions.Processor.AcceptInterrupt: the cycles of an interrupt are not modelled.
- Exceptions.Processor.ExceptionProcessing: the trace exception and the frame of an address error are not modelled, so vectors are even; neither is the number of instructions left in a chunk.
- Exceptions.Processor.TakeTrap: a pending trace and vectors to odd addresses are not modelled.
- Shifts.Register.AslRegister: one data register as a list of bits; the memory forms by one place are not modelled.
- Tape.Microdrive.PassWord: reverse mode is not modelled.
- Tape.Microdrive.NextWord: reverse mode is not modelled.
- Tape.Microdrive.Step: reverse mode, the limit on cycles for one call, motor and drive selection are not modelled.
- Keyboard.Matrix.Apply: the matrix is a set of key codes; reading it row by row is not modelled.
- Mcs48.InterruptsDoNotNest: that the flag keeps others out is the test in `Mcs48.Processor.EnterInterrupt`, and a rule for the events of a run.
- Mcs48.Processor.EnterInterrupt: ports and the other instructions are not modelled; a run is of calls, returns, interrupts and instructions that leave the stack alone.
- Divide.DivsCycles: the other timing tables are not modelled.
- OpcodeTable.SetTable: patterns whose first two bits are fixed and that have at most two runs of free bits, as all patterns of the program are; another character than 0, 1 and x counts as 0.
- OpcodeTable.SetTabEntries: the list of patterns is an input, and so is what the table held before.
- Windows, sound, host files, sockets, serial lines and printers.
