# A verified model of the kajijOSta file system

The repository is a small 32-bit operating system. Its file system keeps a table of 512 cluster links (the
FAT) in memory and writes it through to cluster 1; directories are one-cluster tables of 64 packed 32-byte
entries; files are chains of 2048-byte clusters allocated first fit. This project models that file system on
the memory-backed block device, and the three pieces of code around it: the shell's `find` and `cd`, the 4 MiB
page-frame allocator, and the string routines that decide names.

## How the model is built

* `Machine`, `Layout`, `Disk`: integers, the byte layout of entries, tables and FAT, and the block device. A
  write of one 512-byte block is atomic and is recorded in a ghost log, so a crash is a prefix of the log.
* `Chains`: the links threaded through the FAT, how allocation builds a chain and how release clears one.
* `Volume`: what a volume means. `DirAt` and `Lookup` say which directory and which node (a folder, or a file
  with its size and bytes) each absolute path of names denotes. `Weak` says that everything reachable from the
  root is sound, while unreachable clusters may hold anything; `Strong` adds that no cluster is leaked.
* `Commit`, `Overwrite`: the two directory updates that change the tree, and overwriting a cluster that is no
  directory. `Operations`: result codes and block writes of each operation, as functions. `Crash`, `Atomic`: crash
  prefixes. `Runs`, `Recovery`, `Leaks`, `Reading`, `Undo`, `Conservation`, `Outcome`: the main theorems over single
  operations and over all runs. `Boundaries`, `Guard`, `DeleteGuard`: names, formats and parents the code does not
  check, with the exact conditions under which write and delete keep the volume. `Wire`: every result on the device by
  byte and literal value.
* `Driver`: the operations as imperative methods on the in-memory FAT (`fat`), the static directory buffer
  (`dirTableBuf`) and the device, proved to have exactly the effects in `Operations`.
* `Shell`, `Searching`, `Naming`, `Paging`, `Strings`: the code around it, in the same style.

The main results: crash atomicity of write and delete (`CrashAtomic`), and over runs of operations, crashes and
remounts (`RunRecovers`); each successful operation adds one node or removes one subtree and changes no other file
(`StepKeeps`); directories form a tree (`PathUnique`); read-after-write over any later run (`ReadAfterWrite`); delete
undoes write bit for bit (`DeleteUndoesWrite`); no cluster is lost in runs that delete only files and empty folders
(`RunConserves`); what a write and a delete need to keep the volume, in both directions (`WriteKeepsIff`,
`DeleteKeepsIff`); what a crash leaks (`CutWriteLeaks`, `CutDeleteLeaks`).

## What the model assumes, and where the code falls short

* A freshly formatted volume is not sound: `create_fat32` leaves the root's FAT entry zero, so the root refuses
  every read and write. `FormatUnusable` proves it and `FormatLacksOnlyRootMark` proves that this entry is the only
  thing missing; `MarkedFormatMounts` proves that one FAT write turns the device into a usable one. All other results
  start from a sound volume.
* `ceil` returns eight bits. It is exact if and only if the size is at most 255 clusters (`CeilExact`). Beyond, sizes
  that are no multiple of a cluster are truncated: such a write returns 0 with too short a chain (`OversizedAccepted`)
  and makes the volume unsound (`OversizedWrite`). `Sized` lists the sizes the model covers; up to 16 MiB they survive
  the conversion to `float` and the division by a power of two without rounding, so the quotient is a real.
* `write` copies whole clusters, so the source buffer must cover them (`Covers`).
* `read` and `delete` scan from slot 0, `write` from slot 2. A file may therefore be written under its directory's own
  name: `read` then answers that it is a folder (`ReadOwnName`, `ReadAfterWrite`), and deleting it frees the directory's
  own cluster (`DeleteUndoesWrite`). The all-zero name matches the empty slot 1, and `read` and `delete` follow its
  cluster number 0 out of the map (`ReadFits`, `DeletableIff`). `ReadReturns` and `DeleteSoundIff` give the exact
  conditions.
* The parent check of `read` and `write` accepts every end-of-chain cluster. `GuardAdmits` says which these are, and
  `WriteKeepsIff` which of them a write survives. A read through one follows whatever the cluster holds (`TailRead`).
* `delete` checks no parent at all: through any cluster it frees the chain of the entry it finds there and clears the
  entry. `DeleteKeepsIff` says for every parent when the volume and the other nodes survive.
* The interface comment of `delete` promises to refuse a folder that is not empty; the code does not look, and
  `DeleteKeepsStrong` says exactly when this leaks. The codes of `read` follow the code, not its comment (2 for not
  found, -1 for a buffer that is too small).
* `read_directory` compares eight name bytes and no extension (`ReadDirectoryReturns`, `ReadDirectoryAnswers`), and
  copies a whole table whatever the buffer size, so the caller's buffer is a whole table.
* The shell's walks assume zero extensions, zero-padded names, no entry named like its own directory (`WellNamed`, kept
  by every run that writes such names: `RunKeepsNames`), and a root self entry that carries the shell's starting name
  ("root", whereas formatting writes "ROOT"; see `RootAnswersIff`). The ghost parameters of `Find` and `Cd` name the path
  the proof speaks about.
* Static driver state is held in class fields, pointers are arrays and sequences, and some C functions are split into
  several methods. Names are compared as sequences in the driver; `Memcmp` proves that comparison equal to `memcmp`.

## Model

| member | source | states |
|---|---|---|
| Machine.Le32DecodesBack | src/header/cpu/fat32.h:52-55 | A 32-bit FAT link survives its four-byte image |
| Machine.Le32EncodesBack | src/header/cpu/fat32.h:52-55 | Every four bytes are the image of the link they decode to |
| Machine.Le32Bytes | src/header/cpu/fat32.h:52-55 | The four bytes are little-endian |
| Layout.MakeEntry | src/fat32.c:375-387 | Splitting a cluster number into two 16-bit halves and rejoining them gives it back; the name is the requested one |
| Layout.EntryOffsets | src/header/cpu/fat32.h:77-94 | Each field, the unused dates and times included, sits at its offset in the packed 32-byte entry |
| Layout.EntryDecodesBack | src/header/cpu/fat32.h:77-94 | Decoding the image of an entry returns the entry |
| Layout.EntryEncodesBack | src/header/cpu/fat32.h:77-94 | Every 32 bytes are the image of the entry they decode to |
| Layout.TableDecodesBack | src/header/cpu/fat32.h:97-100 | Decoding the 2048-byte image of a 64-entry table returns the table |
| Layout.TableEncodesBack | src/header/cpu/fat32.h:97-100 | Every cluster is the image of the table it decodes to |
| Layout.FatDecodesBack | src/header/cpu/fat32.h:52-55 | Decoding the image of a 512-entry FAT returns the FAT |
| Layout.FatEncodesBack | src/header/cpu/fat32.h:52-55 | Every cluster is the image of the FAT it decodes to |
| Disk.BlockDevice.ReadBlocks | src/external-inserter.c:14-23 | Returns the consecutive blocks asked for and changes nothing |
| Disk.BlockDevice.WriteBlocks | src/external-inserter.c:26-35 | Issues one write per block in ascending order; the device afterwards is the replay of those writes |
| Disk.ClusterWritten | src/fat32.c:146-154 | Writing a cluster replaces that cluster and no other |
| Disk.CutBlock | src/fat32.c:146-154 | A cluster write cut after n blocks has replaced exactly its first n blocks |
| Disk.OneBlockCommit | src/fat32.c:393 | If new and old contents differ in one block, the cluster changes in one step of its four writes |
| Disk.TableBlocks | src/header/cpu/fat32.h:97-100 | A block of a table image depends on its sixteen entries only |
| Disk.FatBlocks | src/header/cpu/fat32.h:52-55 | A FAT link depends on the one block that holds it |
| Disk.FatBlockLocal | src/header/cpu/fat32.h:52-55 | Changing one link changes the image in no other block |
| Chains.WalkDistinct | src/fat32.c:225-232 | A walk that reaches the end mark visits no cluster twice, so read's and delete's loops end |
| Chains.WalkFrame | src/fat32.c:225-232 | A walk depends only on the links of the clusters it visits |
| Chains.LinkedChain | src/fat32.c:360-371 | The links write stores make exactly the chosen clusters, in order, into one ended chain |
| Chains.ReleaseUndoesLink | src/fat32.c:413-419 | Freeing a chain built from empty entries restores the whole FAT |
| Volume.Scan | src/fat32.c:404-410 | The scan finds the first slot from its start whose name and extension match, or none |
| Volume.PathUnique | src/fat32.c:353-393 | In a sound volume no directory has two paths: directories form a tree |
| Volume.FolderNotInFile | src/fat32.c:353-393 | In a sound volume no file's chain runs through a directory |
| Volume.Frame | src/fat32.c:339-372 | Changes outside the clusters of reachable entries keep the volume sound and every path's node |
| Commit.AddCommits | src/fat32.c:374-393 | Storing one entry with a fresh chain in a free slot adds exactly that node, keeps the volume sound, and makes exactly the chain visible |
| Commit.RemoveCommits | src/fat32.c:421-423 | Clearing one live slot removes exactly the subtree it names, keeps the volume sound, and leaves its chain without an owner |
| Operations.CeilExact | src/fat32.c:182-187 | The eight-bit ceiling is the low byte of the number of clusters, and equals that number if and only if the size is at most 255 clusters |
| Operations.NeededBounds | src/fat32.c:313-320 | For every size whose count C defines, a write takes between 1 and 255 clusters: the low byte of the integer ceiling, which is the ceiling itself up to 255 clusters |
| Operations.ChainLinks | src/fat32.c:413-419 | A walk that ends visits distinct clusters, each linked to the next and the last to the end mark |
| Crash.HarmlessData | src/fat32.c:369 | Data written to an unowned cluster may be cut anywhere without visible change |
| Crash.HarmlessFat | src/fat32.c:367 | A FAT write that keeps visible links may be cut anywhere without visible change |
| Crash.HarmlessFile | src/fat32.c:359-372 | All the FAT and data writes that prepare a file are harmless in this sense |
| Crash.MixedFat | src/fat32.c:426 | A half-written FAT holds, link by link, the new or the old value |
| Crash.ChosenLowest | src/fat32.c:326-337 | The chosen clusters are empty, ascending, distinct, and lower than every empty cluster not chosen |
| Crash.FileWritten | src/fat32.c:359-372 | After the loop each chosen cluster holds its piece of the buffer and the FAT holds the links |
| Atomic.OneBlock | src/fat32.c:393 | Rewriting a directory with one changed entry takes effect in the single block of that entry |
| Atomic.StoreCommits | src/fat32.c:339-393 | A successful write leaves a sound volume with exactly the new node added and the FAT written through |
| Atomic.StoreAtomic | src/fat32.c:339-393 | Cut after n block writes, a write shows the old tree up to the commit block and the new tree from there on, and the volume is sound |
| Atomic.EraseAtomic | src/fat32.c:413-426 | Cut after n block writes, a delete shows the old tree up to the directory block and the new tree from there on, and the volume is sound |
| Atomic.EraseWritesThrough | src/fat32.c:413-426 | After a delete the FAT on disk is the one in memory and only the directory and FAT clusters changed |
| Runs.CrashAtomic | src/fat32.c:280-433 | For write and delete, any crash prefix leaves a sound volume; it shows exactly the new tree if the commit block is out and exactly the old one if it is not |
| Runs.RunCrashSafe | src/fat32.c:280-433 | The same after any run of operations, and the device can be mounted again |
| Recovery.EventKeeps | src/fat32.c:122-140 | An event, an operation that completes or is cut anywhere and followed by a mount, leaves the volume mounted and makes the operation's change if and only if it committed |
| Recovery.RunRecovers | src/fat32.c:122-433 | Over any run of completed operations and crashes the volume stays mounted, and every path names what the committed operations, in order, make of the first tree |
| Leaks.CutWriteLeaks | src/fat32.c:339-393 | A write cut after n block writes leaks exactly the chosen clusters whose links are among them, unless the commit block is too |
| Leaks.CutDeleteLeaks | src/fat32.c:413-426 | The delete of a file or an empty folder cut after n block writes leaks exactly the clusters of the chain whose FAT block is not among them, once the commit block is |
| Runs.StepKeeps | src/fat32.c:280-433 | A successful operation adds the one named node or removes the one named subtree and changes no other; a refused one changes nothing; the FAT is written through |
| Runs.RunKeepsMounted | src/fat32.c:130-140 | After any run the volume is sound, the cached FAT equals cluster 1, and the signature is intact |
| Runs.RunSpares | src/fat32.c:280-433 | A node that no delete of the run names or contains keeps its bytes and its directory cluster |
| Runs.FolderMark | src/fat32.c:193 | The parent check holds of every reachable directory |
| Reading.ReadReturns | src/fat32.c:190-238 | read answers as the tree does (not found, folder, buffer too small, or the file's bytes, which then fit) if and only if the name is not all zero, and is not the directory's own unless a folder there bears it |
| Reading.ReadOwnName | src/fat32.c:205-214 | Asked for the directory's own name, read answers that it is a folder |
| Reading.ReadNoName | src/fat32.c:205-233 | Asked for the all-zero name, read passes every check and follows a chain that does not end |
| Reading.ReadFits | src/fat32.c:219-232 | Once the checks pass, the chain read walks ends and its clusters fit the buffer, if and only if the name is not all zero or the directory itself bears the all-zero name |
| Reading.ReadAfterWrite | src/fat32.c:190-396 | After a successful write and any later run that deletes neither the file nor a directory above it, read succeeds if and only if the name is not the directory's own, and then yields the clusters written, in order |
| Reading.ReadDirectoryReturns | src/fat32.c:241-277 | read_directory opens the folder a path names if and only if no earlier slot carries the same eight name bytes |
| Reading.ReadDirectoryAnswers | src/fat32.c:241-277 | Its code for every name: 0 for the directory's own, 1 for the all-zero one, else 2 if and only if no extension makes the name a path, and 0 and 1 only where the name has a folder or a file |
| Undo.DeleteUndoesWrite | src/fat32.c:280-433 | A write followed by a delete of the same name succeeds, and restores the FAT in memory and on disk and the parent directory bit for bit, and the tree, if and only if the name is not the directory's own |
| Conservation.WriteKeepsStrong | src/fat32.c:326-372 | A write leaks no cluster |
| Conservation.LeakAfterRemove | src/fat32.c:399-433 | Deleting a folder that still lists something strands a used cluster no entry owns |
| Conservation.DeleteKeepsStrong | src/fat32.c:399-433 | A delete leaks nothing if and only if its target is a file or an empty folder |
| Conservation.Conserved | src/fat32.c:327-334 | Free entries, live chain lengths over the whole tree and three reserved entries add up to 512 |
| Conservation.RunConserves | src/fat32.c:280-433 | The same after any run that deletes only files and empty folders |
| Outcome.WriteOutcome | src/fat32.c:283-337 | The exact condition of each of write's four codes, in order of precedence, for every size whose cluster count C defines |
| Outcome.ReadOutcome | src/fat32.c:190-238 | For every map, table and request: 2 if and only if the parent's link is not 0x0FFFFFFF or none of the 64 slots has the key; else the first such slot decides between 1, -1 and 0 |
| Outcome.ReadDirectoryOutcome | src/fat32.c:241-277 | For every table and request: 2 if and only if no slot has the eight name bytes; else the first such slot decides between 1, -1 and 0 |
| Outcome.TakenIffNamed | src/fat32.c:295-308 | In a sound volume write reports a name as taken if and only if the tree has it, and the all-zero name if and only if a slot is empty |
| Outcome.DeleteOutcome | src/fat32.c:399-433 | delete answers 0 if and only if the tree has the name, or the name is all zero or the directory's own, and 1 otherwise |
| Outcome.WriteUsesLowest | src/fat32.c:295-390 | A successful write fills the lowest free slot and links the lowest free clusters in ascending order, and changes no other slot and no other link |
| Wire.WriteBytes | src/fat32.c:280-396 | By byte and literal value, for every parent the check admits: the first slot whose byte 12 is not 0xAA gets 32 bytes made of the request and the first of the lowest clusters with link 0, nothing else of the parent changes, and the links are stored ending in 0x0FFFFFFF |
| Wire.WriteData | src/fat32.c:359-372 | Each chosen cluster holds its 2048 bytes of the source buffer |
| Wire.WriteFolderBytes | src/fat32.c:339-356 | The chosen cluster of a folder holds its new table |
| Wire.FolderBytes | src/fat32.c:167-179 | A new table is its self entry, byte by byte, and zeros |
| Wire.WriteCodeBytes | src/fat32.c:283-337 | write's code in terms of the bytes of the parent's cluster and the links, for whatever the device holds |
| Wire.DeleteBytes | src/fat32.c:399-426 | The first slot whose eleven name bytes match becomes 32 zeros, exactly the links from the cluster number in its bytes 20, 21, 26 and 27 on become 0, and nothing else changes |
| Wire.DeleteMissesBytes | src/fat32.c:402-433 | Without such a slot delete answers 1 and changes nothing |
| Wire.LinkBytes | src/header/cpu/fat32.h:52-55 | A link is four bytes of cluster 1, least significant first |
| Wire.ClusterBytes | src/fat32.c:143-164 | Cluster c is the four blocks from 4c on |
| Wire.FormatBytes | src/fat32.c:96-119 | Formatting leaves the signature in block 0, the empty table in cluster 1 and the root in cluster 2, and no other block changes |
| Wire.SignatureBytes | src/fat32.c:8-91 | The 512 bytes of the signature by position |
| Wire.EmptyFatBytes | src/fat32.c:101-108 | The 2048 bytes of the empty table by position |
| Outcome.RunChains | src/fat32.c:280-433 | After any run every live entry's chain is in range, without repeats, ended, of the right length, and shared with no other entry |
| Boundaries.SelfDeleteUnsound | src/fat32.c:404-423 | Deleting a directory's own entry succeeds and makes the volume unsound |
| Boundaries.DeletableIff | src/fat32.c:412-419 | In a directory the loop of delete ends if and only if the name is not all zero or the directory itself bears the all-zero name |
| Boundaries.DeleteSoundIff | src/fat32.c:399-433 | In a directory a delete ends and keeps the volume mounted if and only if the name is neither all zero nor the directory's own |
| Guard.GuardAdmits | src/fat32.c:193-283 | The parent check admits exactly cluster 1, the directories, the last clusters of files, and stray ends no entry owns; these are disjoint, and a leak-free volume has no strays |
| Guard.TailWrite | src/fat32.c:283-393 | A write whose parent is the last cluster of a file changes that file's bytes and nothing else in the tree, and leaks the clusters it takes |
| Guard.StrayWrite | src/fat32.c:283-393 | A write through a stray end leaves the tree as it is and leaks the clusters it takes |
| Guard.FatClusterWrite | src/fat32.c:283-393 | After a write whose parent is cluster 1 the FAT in memory and the one on disk differ |
| Guard.OversizedWrite | src/fat32.c:182-393 | A write of more than 255 clusters into a directory makes the volume unsound |
| Guard.WriteKeepsIff | src/fat32.c:280-396 | An accepted write keeps the volume mounted and every node as it was if and only if its parent is neither cluster 1 nor the end of a file, and what goes into a directory has at most 255 clusters |
| Guard.TailRead | src/fat32.c:193-233 | A read of the all-zero name through a blank end of a file passes every check and follows a chain that does not end |
| DeleteGuard.DeleteElsewhere | src/fat32.c:399-433 | delete, which checks no parent, called with a cluster that is no directory: the volume stays mounted if and only if no entry owns, and nothing reserves, a cluster of the chain it frees, and then the tree stays unless the parent lies in a file |
| DeleteGuard.DeleteInFile | src/fat32.c:399-433 | If the parent lies in a file, that file's bytes change and nothing else in the tree |
| DeleteGuard.DeleteKeepsIff | src/fat32.c:399-433 | For every parent: a delete that finds an entry whose chain ends keeps the volume mounted, and every node outside what it names, if and only if, in a directory, the name is not the directory's own, and elsewhere no entry owns the parent or a cluster of that chain |
| Boundaries.FormatUnusable | src/fat32.c:96-119 | A formatted volume is not sound, and its root refuses every read and write |
| Boundaries.FormatLacksOnlyRootMark | src/fat32.c:96-119 | With the root's FAT entry marked, a formatted volume is sound, leak-free and empty |
| Boundaries.MarkedFormatMounts | src/fat32.c:96-140 | One more FAT write, marking that entry, makes a formatted device mount without a leak, and its root then accepts every first write whose cluster count C defines |
| Boundaries.OversizedAccepted | src/fat32.c:182-393 | 524289 bytes are accepted with one cluster, and the volume is sound no more |
| Driver.Fat32Driver.ReadCluster | src/fat32.c:157-164 | Returns the 2048 bytes of the cluster |
| Driver.Fat32Driver.WriteCluster | src/fat32.c:146-154 | Issues the four block writes of the cluster |
| Driver.Fat32Driver.Write | src/fat32.c:280-396 | Returns the code, leaves the FAT and issues the block writes that the write effect prescribes; keeps a mounted volume mounted |
| Driver.Fat32Driver.Admit | src/fat32.c:283-337 | Finds every reason to refuse before changing anything |
| Driver.Fat32Driver.ScanForWrite | src/fat32.c:293-311 | One pass finds a name clash and the lowest free slot |
| Driver.Fat32Driver.FindClusters | src/fat32.c:322-334 | The scan collects the lowest empty clusters, as many as required or fewer than required |
| Driver.Fat32Driver.Store | src/fat32.c:339-393 | Issues the chain's writes and then the directory's |
| Driver.Fat32Driver.WriteFolderCluster | src/fat32.c:340-356 | Writes the new directory's table, marks its cluster and writes the FAT through |
| Driver.Fat32Driver.WriteFileClusters | src/fat32.c:359-372 | For each cluster writes the FAT with its link, then its data |
| Driver.Fat32Driver.Delete | src/fat32.c:399-433 | If the chain it finds ends, returns the code, leaves the FAT and issues the block writes that the delete effect prescribes; keeps a mounted volume mounted |
| Driver.Fat32Driver.FreeChain | src/fat32.c:413-419 | The loop clears exactly the links of the chain it follows, and terminates |
| Driver.Fat32Driver.Read | src/fat32.c:190-238 | If the chain it finds ends within the buffer, returns read's code; on success the buffer starts with the chain's clusters in order and is otherwise unchanged |
| Driver.Fat32Driver.CopyChain | src/fat32.c:224-232 | The loop copies the chain's clusters one after another within the buffer |
| Driver.Fat32Driver.ReadDirectory | src/fat32.c:241-277 | For every parent and entry on the device returns read_directory's code; on success the buffer holds the table of the cluster the entry names |
| Driver.Fat32Driver.InitDirectoryTable | src/fat32.c:167-179 | Clears the buffered table and fills in its self entry |
| Driver.Fat32Driver.CreateFat32 | src/fat32.c:96-119 | Writes signature, empty FAT and root directory, in this order |
| Driver.Fat32Driver.Initialize | src/fat32.c:130-140 | Never reformats a signed device; mounting a sound device yields a mounted volume, and remounting a mounted one changes nothing |
| Shell.ReadDirectoryByTree | src/fat32.c:241-277 | In a well-named volume read_directory answers 2, 1 or 0 as the path names nothing, a file or a folder, whose table it opens, if and only if the name is neither all zero nor the directory's own |
| Shell.OpenSucceeds | src/user-shell.c:174-180 | A directory request made from a path is answered with that directory's cluster |
| Shell.RootAnswersIff | src/user-shell.c:26-30 | The root answers to the shell's starting name if and only if its self entry carries it |
| Shell.DepthBound | src/user-shell.c:190-192 | Paths are shorter than the number of clusters, so the recursion ends |
| Shell.PresentIffWithin | src/user-shell.c:181-195 | A name is present below a directory if and only if some slot has it or some listed folder has it below |
| Shell.UserShell.Find | src/user-shell.c:172-196 | The search ends and prints exactly the printout of the tree below the directory (see `Listing`): something if and only if some live entry there has the name, and only matches |
| Shell.PrintoutIff | src/user-shell.c:181-195 | The printout, slot by slot up to the first match with the folders before it searched in order, is not empty if and only if the name is present, and holds only matches |
| Searching.Listing | src/user-shell.c:172-196 | The printout has exactly one name for every shown path, none twice, in slot order along the paths: a path is shown if its entry matches, no live slot before it does, and the directories on the way are met like that without matching |
| Shell.UserShell.Visit | src/user-shell.c:183-194 | One live entry prints its name if and only if it matches, and otherwise, if it is a folder, the printout of that folder |
| Shell.UserShell.PushDirectory | src/user-shell.c:46-54 | Pushes unless the stack holds a hundred directories |
| Shell.UserShell.PopDirectory | src/user-shell.c:56-65 | Takes the last directory off the stack, or yields an empty one from an empty stack |
| Shell.UserShell.Cd | src/user-shell.c:198-232 | Leaves the current directory and the stack as the cd function says |
| Shell.CdKeepsPath | src/user-shell.c:198-232 | One cd keeps stack and current directory equal to the root-to-current path, unless it descends from a full stack |
| Shell.CdAnswers | src/user-shell.c:198-232 | Two dots lead up one directory; another name of at most eight bytes leads into the folder the path names, if there is one; everything else changes nothing |
| Shell.CdRunKeepsPath | src/user-shell.c:198-232 | The same along every run of cd that stays within a hundred levels |
| Shell.CdThereAndBack | src/user-shell.c:198-232 | Descending and going back up is the identity if and only if the stack was not full |
| Shell.StackDetermined | src/user-shell.c:32-33 | The path determines the stack and the current directory |
| Shell.StartsAtRoot | src/user-shell.c:26-33 | The initial state describes the root if and only if the root's self entry carries the starting name |
| Naming.WriteNamesIff | src/fat32.c:280-396 | A successful write keeps the conditions of the shell's walks if and only if its name has a zero extension, is zero-padded, and is not the parent's own |
| Naming.RunKeepsNames | src/fat32.c:280-433 | Over any run whose writes respect those conditions the volume stays well named, so `find` and `cd` work on every volume reached |
| Paging.MappedTranslates | src/paging.c:31-41 | An update maps or unmaps its own page, keeping the 22-bit offset, and no other page |
| Paging.RunCounts | src/paging.c:55-102 | The free count equals the number of free frames after any sequence of allocations and frees |
| Paging.BootRun | src/paging.c:55-79 | After n allocations from boot exactly frames 0 to min(n, 31) are taken and the k-th address is mapped to frame k + 1 |
| Paging.HandNext | src/paging.c:58-78 | The next allocation succeeds if and only if fewer than 31 were made |
| Paging.BootTranslates | src/paging.c:55-79 | Each page gets its own frame, never frame 0; the kernel mapping stays; calls from the 32nd on change nothing |
| Paging.BootAccess | src/paging.c:5-76 | After any allocations from boot, user code reads and writes frame k + 1 through the k-th page, and reaches nothing through page 0x300, through which the supervisor reaches frame 0 |
| Paging.ShellPage | src/kernel.c:56 | The kernel's first allocation opens page 0 to user code, as frame 1 |
| Paging.AllocateMaps | src/paging.c:55-79 | From any state: succeeds if and only if a frame is free, takes the lowest, opens it to every access through the address's page, and changes no other page |
| Paging.FreeUnmaps | src/paging.c:81-102 | From any state: succeeds if and only if the frame of the address's number was used, then closes the address's page to every access and changes no other page |
| Paging.BootWords | src/paging.c:5-29 | At boot frame 0 alone is taken, 31 frames are free, and entries 0 and 0x300 alone are present, mapping frame 0 for the supervisor |
| Paging.WordBits | src/header/cpu/paging.h:34-77 | Present, write, user and page size are bits 0, 1, 2 and 7 of the entry, and the frame its bits 31 to 22 |
| Paging.FreeUndoesAllocateIff | src/paging.c:81-102 | Freeing an address just mapped restores the frame map if and only if the address lies in the frame of the same number |
| Paging.PageManager.AllocateFrame | src/paging.c:55-79 | Takes the lowest free frame and maps it, or fails unchanged; keeps the count |
| Paging.PageManager.FreeFrame | src/paging.c:81-102 | Frees the frame of the address's number and unmaps the address, or fails unchanged; keeps the count |
| Paging.PageManager.UpdateDirectory | src/paging.c:31-41 | Replaces the one directory entry of the address's page |
| Strings.Memcmp | src/stdlib/string.c:22-35 | Returns the sign of the first difference, hence 0 if and only if the bytes are equal |
| Strings.CompareSign | src/stdlib/string.c:22-35 | At the first difference the smaller byte decides the sign |
| Strings.Strcmp | src/stdlib/string.c:55-71 | Returns 1 if and only if the two strings are equal, else 0 |
| Strings.Memmove | src/stdlib/string.c:37-53 | Copies the original source bytes for every overlap and changes nothing else |
| Strings.SplitJoins | src/stdlib/string.c:83-109 | Split is the inverse of joining with spaces, and its tokens hold no space |
| Strings.TokenOfSplit | src/stdlib/string.c:85-100 | Skipping idx tokens lands on the idx-th one, or on none when there are too few |
| Strings.LocateToken | src/stdlib/string.c:85-96 | The skipping loop finds where the idx-th token starts |
| Strings.HoldsCString | src/stdlib/string.c:83-109 | A terminated buffer holds exactly one string at each offset before its terminator |
| Strings.GetString | src/stdlib/string.c:83-109 | For every terminated buffer returns the idx-th token and zeroes exactly from its end to the old terminator, or, if and only if there are too few tokens, nothing with the buffer unchanged |
| Strings.ComparisonsAgree | src/stdlib/string.c:22-71 | On zero-padded names with a zero extension strcmp reports equality if and only if memcmp over eight bytes does |

## Left out

- CeilExact: the cluster count of sizes that are a multiple of a cluster beyond 255 clusters, where C leaves the conversion of the float to eight bits undefined, of sizes whose count truncates to zero, where the code reads an empty array, and of sizes above 16 MiB, where the conversion to float rounds, is not claimed of the C code.
- Outcome.WriteOutcome: says nothing about those sizes either.
- Driver.Fat32Driver.Write: is not run on those sizes either.
- Driver.Fat32Driver.Admit: is not run on those sizes either.
- Shell.UserShell.Find: started from the root directory only, because the shell passes the root's cluster together with the current directory's name.
- Paging.FreeUndoesAllocateIff: addresses from 128 MiB up, where the C code indexes past the frame map, are excluded.
- Parent cluster numbers from 512 up in `read`, `write` and `delete`: the first two index past the map with them.
- The ATA disk driver and port input/output: the device is the memory-backed one, bounded to its 4 MiB.
- Crash safety of formatting: the signature goes first, so a crash while formatting leaves a signed, unusable device.
- Aliasing between a caller's buffer and the driver's own memory, and the C layout of requests.
- The rest of the shell (`cp`, `mv`, `cat`, `ls`, `rm`, `mkdir`, command dispatch), the inline-assembly system call, and screen output other than the names `find` prints.
- `memset` and `memcpy` as separate routines; keyboard, framebuffer, interrupt and segment tables; TLB flushes; `paging_allocate_check`.
- The driver's unused cluster buffer, and the unused date and time fields beyond their place in the entry.
