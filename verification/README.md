# A verified model of the OUI-Spy C6 image tools and firmware cores

This project models the parts of the repository whose correctness rests on many steps agreeing with
each other, and proves what those parts promise. `dafny verify dfyconfig.toml` checks all of it with
Dafny 4.11.

## The FAT image builder and its reader

`components/fatfs` builds a FAT12/FAT16 volume in one byte array and reads such volumes back. The
model has three layers.

* Bytes. `Geometry`, `FatTable`, `Volume`, `BootSectorImage`: the layout of the image, bit-packed FAT
  entries (neighbouring 12-bit entries share a byte), and the view of an image as a table of FAT
  entries plus the bytes of every cluster. The classes `BootSectorState`, `FAT` and `FATFS` work on the
  byte array in place, with the loops of the original; their contracts tie each method to the layer
  above.
* The file system as a value. `FatChains` (allocator and chains), `DirectoryRecords` and `LongNames`
  (32-byte records, long-name groups), `FileSystem` (directories that grow, objects, the public
  operations as the function `Step`). Files and directories are kept in tables by id; `taken` is the
  set of slots whose in-memory entry is not marked empty. Ghost arguments record which object owns
  a cluster (`owner`) and which records were written to a directory (`logs`); `CoreInv` and `LogInv`
  are the invariants over them.
* The ideal file system of `NameTree`: a tree of names and a content per file, without clusters,
  entries or bytes.

The main results are in `ImageRuns`, for every run of operations from a fresh volume of every accepted
geometry: the volume always stands for the ideal file system after the same run, and every file holds what
was last written through a path that leads to it (`RoundTrip`); what the reader finds, or that it raises, is
determined by the run, and it is the ideal tree if and only if a stated condition holds (`ReadBack`), likewise
for the folder it makes on the host (`FolderMade`); chains are sound and disjoint (`ChainIntegrity`);
directories only grow (`DirectoriesOnlyGrow`). `Paths` says where a path leads without the search: along
directories, each time to the first entity called as the path says. `NameRuns` says which paths lead to a
created object at the end of a run, and when two short records of a directory on the volume have the same
name; `Aliases` is what short names are. `Reserved` adds the two reserved FAT entries, `Progress` when an
operation succeeds and how many clusters it uses up.
`Fatfs` carries the results to the byte array. On the side of the reader, `Traversal` treats the flag
that it switches on while reading, `FatParser` is its program on the bytes, `HostFolder` the folder.
`WearLevelling` adds and removes the wear-levelling layer, `LevelledImage` reads through it.

What the model found in the reader, with witnesses in `Counterexamples` for every accepted geometry:

* A long-name record whose byte 13 (the checksum of the alias) is 0 and whose bytes 20 and 21 are 0
  satisfies the constants of a short record, so `traverse_folder_tree` takes it for one; its name
  fields then lose their trailing zero bytes, and indexing eleven characters of them in `lfn_checksum`
  raises. This happens exactly when the full name has length 8 modulo 13 and the alias has checksum 0
  (`NewTraps`). Creating the file `A+AASZXY` on a fresh volume is enough (`TrapFileRaises`).
* It skips every directory that it shows as `.` or `..`, such as one called by a dot and a blank
  (`DotDirectoryMissed`).
* `create_file` and `create_directory` do not look for an object of the same name. Siblings shown under
  one name share an entry on the host: a second file replaces the first, also by nothing
  (`TwinsCollide`), and a directory makes `os.makedirs` raise. Such a younger twin is never found by a path
  (`CreatedFound`), and a name that ends in a dot is not found under itself (`CreatedReached`).
* The number that should make short names unique is a character. Aliases of names with the same first six
  characters do differ; those of two other names are the same exactly if one begins with one more tilde and the
  numbers are 126 and 32, the codes of the tilde and the blank (`AliasesUnique`).

`ReadBack` says that nothing else happens: the reader raises if and only if a trap lies outside every
skipped directory, and otherwise finds the ideal tree without the skipped directories. `FolderMade` adds
when making the folder raises, including on names that no host directory can hold (empty, with a slash,
`.` or `..`), and what is made otherwise.

Where the code and its comments disagree the code is followed: `_is_valid_sfn` applies its pattern to
the name twice and never to the extension (`fs_object.py:241`), and a cluster is one sector for
addressing and content whatever `sectors_per_cluster` is (`cluster.py:78-90`).

## The PNG row assembler, the zoom resolver

`PngFilters` proves the five in-place loops against the filters of RFC 2083, section 6, which are stated
apart from the code as equations with one solution. `PngStream` is the context that receives decompressed
bytes in chunks; its contract says what is on the display as a function of the concatenated stream, and
`PictureShows` what that is, pixel by pixel. `MapZoom` is the choice of a zoom level, with the centre of
the view as arbitrary real pixels per level.

## Fox Hunter

`FoxTable` is the table of 40 nearby devices as a function of the sightings, and its meaning: the
most recently seen addresses. `FoxRecency` adds what holds for times that repeat, as `uptime_ms` gives
them, and for any times. `FoxSelection` holds the three candidate sections and the view index,
`FoxHunter` the class with the arrays and loops.

## Position fusion and buttons

`GpsFusion` is exact over real numbers, with the distance function left uninterpreted. `Button` is the
gesture state machine with wrapping 32-bit time and an 8-bit click counter. The comments of
`button.c` and `button.h` give 1 s, 5 s and 7 s for the holds; the code, which is followed, uses 500,
3500 and 5000 ms.

## Model

| member | source | states |
|---|---|---|
| ImageRuns.RoundTrip | components/fatfs/fatfs_utils/fs_object.py:290-341 | after any run of successful create and write calls on a fresh volume, every file read from the volume through its record, chain and size is the content last written through a path that leads to it, whatever was done to other objects later |
| NameRuns.FoundByPath | components/fatfs/fatfs_utils/fs_object.py:162-169 | at the end of every run exactly these paths lead to a created object: those whose last part asks for its full name and whose parts before lead to the directory its creation named; none if an older entity of that directory has the name; what the volume holds for a file is what was last written by such a path |
| Paths.SearchIff | components/fatfs/fatfs_utils/fs_object.py:145-169 | the search finds an object if and only if ids from the start to it follow the path: each but the last is a directory, each next one its first entity called as the path says |
| Paths.SearchEnds | components/fatfs/fatfs_utils/fs_object.py:145-169 | a search that fails is stuck at one place: at a file, or at a directory that holds nothing called so |
| Paths.SplitMeans | components/fatfs/fatfs_utils/utils.py:141-143 | splitting a part of a path and building it again drops exactly a last dot that follows something other than dots behind the last slash |
| Paths.TargetIff | components/fatfs/fatfs_utils/fs_object.py:266 | the target of a new object is the directory that the path leads to, the root for no path |
| Paths.LeadsAfterAdd | components/fatfs/fatfs_utils/fs_object.py:290-325 | adding an object leaves all paths as they are and adds those to the new object |
| Paths.RunKeepsPaths | components/fatfs/fatfsgen.py:98-152 | on every run a path that leads to an object goes on leading to it, and no path comes to lead to an object that was there before |
| Paths.CreatedFound | components/fatfs/fatfs_utils/fs_object.py:290-325 | from its creation to the end of the run exactly the paths described lead to an object |
| Paths.CreatedReached | components/fatfs/fatfs_utils/fs_object.py:290-325 | the path of the creation and the full name lead to the object if and only if the name does not lose a last dot and no older sibling bears it |
| Paths.ContentByPath | components/fatfs/fatfs_utils/fs_object.py:327-341 | the content of a file at the end of a run is what was last written through a path that leads to it, or what it was at the start |
| NameRuns.ShortNamesOnVolume | components/fatfs/fatfs_utils/utils.py:115-117 | after every run the object records of a directory on the volume bear, in order, the short names of its links and entities; two of them have the same eleven bytes exactly if names and extensions are the same but for blanks at the end |
| NameRuns.AliasesUnique | components/fatfs/fatfs_utils/long_filename_utils.py:69-85 | after every run long-named siblings with the same first six characters have different short names on the volume; any two have the same one exactly if one name begins with one more tilde, the numbers are 126 and 32 and the extensions are the same but for blanks |
| Aliases.CountIsSize | components/fatfs/fatfs_utils/long_filename_utils.py:81-85 | the number of the alias is one more than the size of the set of older siblings that begin with the same six characters |
| Aliases.CreationBears | components/fatfs/fatfs_utils/fs_object.py:200-237 | creating an object keeps the short names of a directory and gives the object its own |
| Aliases.ShownAs | components/fatfs/fatfsparse.py:22-42 | a short name is shown without the blanks at the end of its parts, a long one with every upper-case letter in lower case |
| ImageRuns.ReadBack | components/fatfs/fatfsparse.py:45-87 | after any run, with or without the long-name option, the reader raises if and only if the run created a trap outside every directory that reads as a dot link, and otherwise finds exactly the objects of the run, with names, nesting, order and contents, without those directories and what is in them; it finds all of them exactly if there is no trap and no such directory |
| ImageRuns.FolderMade | components/fatfs/fatfsparse.py:45-87 | after any run, making the folder raises exactly if reading does or a tree found is bad where it stands, and otherwise each shown name has one entry, the last object called so; the folder has exactly one entry per object of the run if and only if no name was a trap, no two siblings are shown under one name, and every shown name is one a host directory can hold |
| HostFolder.ParseFolderIff | components/fatfs/fatfsparse.py:45-87 | in every state of the invariants the folder made is that of the file system if and only if there is no trap and the names are good, where making follows the code: `open` replaces a file and raises on a directory, `os.makedirs` raises on anything |
| HostFolder.MakeExactly | components/fatfs/fatfsparse.py:50-87 | making a list of trees raises exactly if one of them has a name that no host directory can hold, or a name taken before and not both are files, or children that raise; otherwise every name has one entry, the last tree called so |
| HostFolder.FolderUnique | components/fatfs/fatfsparse.py:50-87 | at most one host folder shows a given file system in this way |
| Counterexamples.TrapFileRaises | components/fatfs/fatfsparse.py:67-70 | on every fresh long-name volume the file `A+AASZXY` can be created, and then the reader raises |
| Counterexamples.DotDirectoryMissed | components/fatfs/fatfsparse.py:78-81 | with one free cluster a directory called by a dot and a blank can be created, and then the reader finds nothing |
| Counterexamples.TwinsCollide | components/fatfs/fatfsparse.py:71-77 | with one free cluster the run that creates `A`, writes one byte to it and creates `A` again succeeds, and the folder made holds a single empty file |
| ImageRuns.ChainIntegrity | components/fatfs/fatfs_utils/fat.py:54-100 | in every reachable state the on-disk link of each allocated cluster is its in-memory next cluster or the end marker, links climb, chains end, no two objects share a cluster, and the non-zero entries are exactly the ids up to the frontier |
| Reserved.ReservedEntries | components/fatfs/fatfs_utils/cluster.py:44-48 | after every run FAT entry 0 is 0xFF8 or 0xFFF8 and entry 1 the end marker 0xFFF or 0xFFFF, by the number of clusters |
| ImageRuns.DirectoriesOnlyGrow | components/fatfs/fatfs_utils/fs_object.py:125-197 | after any run, a further operation keeps every directory's chained content a list of slots, used ones first and zeros behind, and alters no used slot but for a size field |
| Progress.NextSucceeds | components/fatfs/fatfsgen.py:98-152 | after any run, the next operation succeeds if and only if a check on tree, names, empty entries and clusters left passes, and then uses up exactly the stated number of clusters |
| Progress.StepSucceeds | components/fatfs/fatfs_utils/fs_object.py:246-341 | the same in every state of the invariants |
| Progress.AllocateSucceeds | components/fatfs/fatfs_utils/fs_object.py:246-288 | an object can be allocated exactly if a cluster is left for it, the path leads to a directory, the name is accepted and its records find a place |
| Progress.PlaceSucceeds | components/fatfs/fatfs_utils/fs_object.py:171-237 | records find a place exactly if there are empty entries or the directory can grow; it grows by the quotient, rounded up, of the records without an entry and the entries of a cluster |
| Progress.ObtainSucceeds | components/fatfs/fatfs_utils/fs_object.py:171-197 | obtaining an entry fails exactly if none is empty and the directory cannot grow |
| Progress.RecordsBuilt | components/fatfs/fatfs_utils/entry.py:195-216 | the records of a name can be built exactly if a name that keeps to its short record holds none of the letters a to z and fits, or a long one has at most 126 older siblings with the same six characters; there is one record, or one more for every 13 characters |
| Progress.NewDirectorySucceeds | components/fatfs/fatfs_utils/fs_object.py:311-325 | once allocated, a directory can always be initialised: its dot links fit |
| Progress.WriteFileSucceeds | components/fatfs/fatfs_utils/fs_object.py:336-341 | a file can be written exactly if the size fits its field and enough fresh clusters are left, an empty file without a cluster only with nothing; rewriting takes fresh clusters each time |
| ImageRuns.StepKeeps | components/fatfs/fatfs_utils/fs_object.py:246-341 | each operation keeps the invariants and changes the volume as the ideal file system says; traps appear only by a trap name |
| ImageRuns.RunKeeps | components/fatfs/fatfsgen.py:98-152 | the same along every run, the ideal file system running in step |
| ImageRuns.InitialInv | components/fatfs/fatfsgen.py:42-97 | a fresh volume of any accepted geometry satisfies the invariants and stands for the empty file system |
| ImageRuns.NewTraps | components/fatfs/fatfs_utils/fs_object.py:200-237 | writing an object creates a record that makes the reader raise exactly when the length of its full name is 8 modulo 13 and its alias has checksum 0 |
| Traversal.ParseTreeExactly | components/fatfs/fatfsparse.py:45-87 | in every state that satisfies the invariants: the reader raises if a trap lies outside every directory that reads as a dot link, and otherwise finds the ideal tree without those directories |
| Traversal.ParseTreeIff | components/fatfs/fatfsparse.py:45-87 | so the reader's tree is the ideal tree if and only if there is no trap and no dot-named directory |
| Traversal.WalkIs | components/fatfs/fatfsparse.py:58-64 | the sticky long-name flag does not matter: whatever it was at the start, the reader finds what it finds with long names on |
| FatParser.Parser.GetObjName | components/fatfs/fatfsparse.py:22-42 | the backward loop with its dictionary and early exit yields the name that the scan defines |
| FatParser.Parser.Traverse | components/fatfs/fatfsparse.py:45-87 | on the bytes of any image whose followed chains end, the loop with its recursion and flag, reading through `get_chained_content`, yields the tree, the failure and the flag of the specification, children before later siblings |
| FatParser.InvFollowable | components/fatfs/fatfs_utils/fat.py:54-72 | in every state of the invariants all chains that reading can follow come to their end marker |
| FatParser.ParseImage | components/fatfs/fatfsparse.py:161-174 | root from its area, the rest along chains: the tree of the specification |
| FatParser.ReadImage | components/fatfs/fatfsparse.py:161-174 | the program on the byte array of a built image gives exactly that result; objects and folder are those of the file system exactly under the stated conditions |
| LevelledImage.ReadLevelled | components/fatfs/fatfsparse.py:155-174 | with the wear-levelling layer enabled the program removes the layer, or fails, and reads what is left |
| LevelledImage.ReadMoved | components/fatfs/fatfsparse.py:155-174 | a built image behind a layer that was moved any number of times, with any recorded dummy position, is read as without the layer |
| LevelledImage.LevelAndRead | components/fatfs/wl_fatfsgen.py:152-158 | likewise for the partition that the generator writes |
| Reader.ReadTreeExactly | components/fatfs/fatfsparse.py:45-87 | the same with the flag fixed, a trap making the reader raise through any nesting of directories that it enters |
| Reader.TrapRaises | components/fatfs/fatfs_utils/utils.py:120-129 | a long-name record that parses as a short one has fewer than eleven name characters left, so that the checksum raises |
| Reader.RecordsAreSlots | components/fatfs/fatfs_utils/entry.py:139-155 | the 32-byte records of a directory's chained content are its entry slots in order |
| Fatfs.FATFS.Create | components/fatfs/fatfsgen.py:42-97 | the constructor builds, on the byte array, the initial state with its invariants; the boot sector bytes are the given ones |
| Fatfs.FATFS.CreateFile | components/fatfs/fatfsgen.py:98-121 | the operation on the byte array is `Step` on its view, errors included, and adds the file, empty, to the directory that the path leads to; on return the second FAT mirrors the first, the invariants hold and the boot sector is unchanged |
| Fatfs.FATFS.CreateDirectory | components/fatfs/fatfsgen.py:122-146 | likewise for directories |
| Fatfs.FATFS.WriteContent | components/fatfs/fatfsgen.py:147-152 | likewise for writing: the file that the path leads to gets the content and no other changes |
| Fatfs.FATFS.ReadBack | components/fatfs/fatfsparse.py:71-77 | reading a file from the byte array through its record returns its ideal content |
| Fatfs.FATFS.Finish | components/fatfs/fatfsgen.py:28-33 | the decorator leaves the file system as it is and the second FAT equal to the first |
| Fatfs.FATFS.FindFreeEntry | components/fatfs/fatfs_utils/fs_object.py:171-175 | the loop finds the first entry that is not taken |
| Fatfs.FATFS.ExtendDirectory | components/fatfs/fatfs_utils/fs_object.py:177-185 | the walk to the last cluster and the link of a fresh one are the step of the specification on the view |
| Fatfs.FATFS.ObtainEntry | components/fatfs/fatfs_utils/fs_object.py:187-197 | a free entry, or the first one of the new cluster, or the error |
| Fatfs.FATFS.AllocateEntry | components/fatfs/fatfs_utils/entry.py:160-241 | exactly the 32 bytes of the slot are overwritten and the slot is taken |
| Fatfs.FATFS.PlaceRecords | components/fatfs/fatfs_utils/fs_object.py:200-237 | the records of an object go one after another into obtained entries, the last entry is returned |
| Fatfs.FATFS.LookupEntity | components/fatfs/fatfs_utils/fs_object.py:145-149 | the first entity with the full name, if any |
| Fatfs.FATFS.RecursiveSearch | components/fatfs/fatfs_utils/fs_object.py:162-169 | the object that the path leads to, or the error of the search |
| Fatfs.FATFS.AllocateObject | components/fatfs/fatfs_utils/fs_object.py:246-288 | the cluster, the entry and the directory of a new object, its record bearing its short name with the number after its older siblings, its kind, cluster and time stamps; of several errors the one the code meets first: cluster, path, entry, name, further entries |
| Fatfs.FATFS.NewFile | components/fatfs/fatfs_utils/fs_object.py:290-309 | creation on the byte array equals creation on the view |
| Fatfs.FATFS.NewDirectory | components/fatfs/fatfsgen.py:138-145 | likewise, with the dot entries; the parent is searched for before a cluster is taken |
| Fatfs.FATFS.InitDirectory | components/fatfs/fatfs_utils/fs_object.py:131-143 | the two dot records with the cluster of the directory and of its parent |
| Fatfs.FATFS.UpdateSize | components/fatfs/fatfs_utils/entry.py:243-252 | only the size field of the record changes |
| Fatfs.FATFS.SplitIntoSectors | components/fatfs/fatfs_utils/utils.py:163-169 | the loop cuts the content into sectors |
| Fatfs.FATFS.WriteParts | components/fatfs/fatfs_utils/fs_object.py:56-63 | the loop writes one part per cluster along the in-memory chain |
| Fatfs.FATFS.WriteFile | components/fatfs/fatfs_utils/fs_object.py:52-63 | chain, size and content of a rewritten file as specified |
| FileSystemRuns.NewFileKeeps | components/fatfs/fatfs_utils/fs_object.py:290-309 | creating a file keeps the invariants, adds one node with empty content and changes no content |
| FileSystemRuns.NewDirectoryKeeps | components/fatfs/fatfs_utils/fs_object.py:311-325 | creating a directory likewise, and writes its dot records |
| FileSystemRuns.WriteKeeps | components/fatfs/fatfs_utils/fs_object.py:327-341 | writing keeps the invariants and changes the content of that file alone, to the bytes given |
| FileSystemRuns.AllocateObjectKeeps | components/fatfs/fatfs_utils/fs_object.py:246-288 | allocating an object appends its records to the directory, takes a slot that was free, and owns a fresh zeroed cluster if it has one |
| FileSystemSteps.AllocKeeps | components/fatfs/fatfs_utils/fat.py:74-89 | taking a fresh cluster keeps every file readable as before |
| FileSystemSteps.ExtendKeeps | components/fatfs/fatfs_utils/fs_object.py:177-185 | growing a directory keeps its slots, adds the zeroed slots of one cluster and touches no other object |
| FileSystemSteps.PlaceKeeps | components/fatfs/fatfs_utils/fs_object.py:200-237 | writing the records of an object appends them to the directory in order |
| FileSystemInvariant.SlotContent | components/fatfs/fatfs_utils/fs_object.py:125-129 | the i-th entry slot of a directory is bytes 32i to 32i+32 of its chained content |
| ListingRuns.ObjectsKeepListing | components/fatfs/fatfsparse.py:54-87 | adding an object extends the listing of its directory by that object and leaves every other listing alone |
| ListingRuns.NewDirLists | components/fatfs/fatfs_utils/fs_object.py:131-143 | a new directory lists its two dot links, which read as dot names |
| DirectoryListing.NewNameRead | components/fatfs/fatfsparse.py:22-42 | the reader's name for a new object is its display name, whatever the directory held before |
| LongNames.LongNameRoundTrip | components/fatfs/fatfsparse.py:32-42 | for every ASCII name of 1 to 255 characters, multiples of 13 included, the backward scan over the written records, matched by checksum and ordered by ordinal, gives the lower-cased full name, whatever precedes the group |
| LongNames.ReadLongRecord | components/fatfs/fatfs_utils/entry.py:95-136 | parsing a built long-name record returns ordinal, last flag and the lower-cased piece |
| LongNames.LfnChecksum | components/fatfs/fatfs_utils/utils.py:120-129 | the loop computes the rotating checksum of the eleven characters |
| LongNames.RotatesRight | components/fatfs/fatfs_utils/utils.py:124-129 | one turn adds the character to the byte that gives the sum when its bits are turned left by one |
| ImageRuns.GroupLayout | components/fatfs/fatfs_utils/fs_object.py:210-231 | every byte of the long records of a name: one record for every 13 characters or part of them, the last part first and with the flag, orders from 1 on, one checksum, each character in its place in lower case, a zero behind the last one if there is room and 0xffff behind that |
| ImageRuns.LongRecordLayout | components/fatfs/fatfs_utils/entry.py:95-118 | every byte of a long-name record: order, flag, type, checksum, zeros and each character as two bytes in its place, letters in lower case, 0xffff for what is missing |
| DirectoryRecords.RecordBytes | components/fatfs/fatfs_utils/entry.py:49-64 | every byte of a short record: names, attribute, marker, zeros, and the little-endian time stamps, cluster and size |
| DirectoryRecords.ParseAfterBuild | components/fatfs/fatfs_utils/entry.py:49-64 | a built record parses back to its fields exactly if its two strings are ASCII and do not end in a zero byte |
| DirectoryRecords.BuildAfterParse | components/fatfs/fatfs_utils/entry.py:49-64 | a record that parses is, byte for byte, the record built from its fields, though parsing drops trailing zero bytes |
| DirectoryRecords.UpdateContentSize | components/fatfs/fatfs_utils/entry.py:243-253 | parsing, replacing the size and building again replaces the four size bytes only |
| Reader.FileRecordParses | components/fatfs/fatfs_utils/entry.py:251 | in every state of the invariants the record of a file parses, so updating its size never raises |
| DirectoryRecords.ShortRecordFields | components/fatfs/fatfs_utils/entry.py:160-241 | attribute, cluster, size 0, marker and padded names of an allocated record |
| DirectoryRecords.ShortRecordDescribes | components/fatfs/fatfs_utils/entry.py:219-235 | the bytes of an allocated record for kind, first cluster, size 0 and the time stamps of creation, access and writing |
| FatChains.ChainProperties | components/fatfs/fatfs_utils/fat.py:54-71 | a chain read from the table climbs strictly, stays allocated, belongs to one owner and ends at the end marker |
| FatChains.ChainsOfOwnersDisjoint | components/fatfs/fatfs_utils/fat.py:54-71 | chains of different owners share no cluster |
| FatChains.FindFreeEffect | components/fatfs/fatfs_utils/fat.py:74-89 | allocation succeeds exactly while a cluster is left, its "not empty" guard never fires, and the id was never used before |
| FatChains.AllocateChainEffect | components/fatfs/fatfs_utils/fat.py:91-100 | allocating a chain succeeds exactly if enough clusters are left; it replaces what followed the first cluster by fresh ones of the same owner and touches nothing else |
| FatChains.AllocationsUntilExhausted | components/fatfs/fatfs_utils/fat.py:74-89 | k allocations succeed exactly when k clusters are left, and then exactly the ids up to the new frontier are non-zero |
| FatTableObject.FreshAllocations | components/fatfs/fatfs_utils/fatfs_state.py:136-149 | on a fresh volume exactly data sectors divided by sectors per cluster allocations succeed |
| FatChains.WriteEffect | components/fatfs/fatfs_utils/fs_object.py:56-63 | writing the parts of a content along a chain that is long enough makes it a prefix of the chained content and changes no other cluster |
| FatTableObject.FAT.Init | components/fatfs/fatfs_utils/fat.py:24-31 | the new table on the byte array is the fresh state |
| FatTableObject.FAT.FindFreeCluster | components/fatfs/fatfs_utils/fat.py:74-89 | allocation on the byte array equals allocation on the view |
| FatTableObject.FAT.AllocateChain | components/fatfs/fatfs_utils/fat.py:91-100 | the loop on the byte array equals the specification on the view, errors included |
| FatTableObject.FAT.GetChainedContent | components/fatfs/fatfs_utils/fat.py:54-72 | the loop terminates on every chain that climbs to the end marker and returns its content, cut to the size |
| BootSectorImage.EmptyImageView | components/fatfs/fatfs_utils/boot_sector.py:61-96 | the generated image has the promised length, the given header, zero FAT entries, a zero root directory and 0xff in every data cluster |
| BootSectorImage.BootSectorState.GetFromFat | components/fatfs/fatfs_utils/cluster.py:109-133 | the byte arithmetic reads entry `id` of the view |
| BootSectorImage.BootSectorState.SetInFat | components/fatfs/fatfs_utils/cluster.py:143-193 | in place, exactly entry `id` of the view changes |
| BootSectorImage.BootSectorState.AllocateCluster | components/fatfs/fatfs_utils/cluster.py:204-211 | the entry becomes the end marker and the cluster's area is zeroed |
| BootSectorImage.BootSectorState.DuplicateFat | components/fatfs/fatfsgen.py:159-170 | the second FAT becomes equal to the first and no byte outside it changes |
| FatTable.GetAfterSet | components/fatfs/fatfs_utils/cluster.py:109-193 | for FAT12 and FAT16, reading entry j after setting entry i gives the value if i = j and the old value otherwise, neighbours sharing a byte included |
| FatTable.SetTouchesTwoBytes | components/fatfs/fatfs_utils/cluster.py:143-193 | no byte but the two of the entry changes |
| FatTable.SetWritesNibbles | components/fatfs/fatfs_utils/cluster.py:156-193 | setting an entry writes its own half bytes and no other bit |
| FatTable.GetReadsNibbles | components/fatfs/fatfs_utils/cluster.py:109-133 | reading an entry reads its own half bytes, least significant first |
| FatTable.HalfByteOperators | components/fatfs/fatfs_utils/utils.py:150-160 | the mask and shift operators on bytes are the divisions and remainders of the model |
| Volume.ViewAfterSetInFat | components/fatfs/fatfs_utils/cluster.py:143-193 | setting a FAT entry changes the view of the image at that entry and nothing else of the image |
| Volume.ViewAfterAreaWrite | components/fatfs/fatfs_utils/cluster.py:78-93 | a write inside the area of a cluster changes the view of that cluster and nothing else |
| Geometry.FatHoldsEveryEntry | components/fatfs/fatfs_utils/utils.py:78-94 | the FAT, sized from the number of sectors and so possibly under another FAT type, holds the entry of every cluster, and every id is below the reserved markers |
| Geometry.RegionsInOrder | components/fatfs/fatfs_utils/fatfs_state.py:126-171 | boot sector, FATs, root directory and data follow each other without gaps and fill the image |
| Geometry.AreaInBounds | components/fatfs/fatfs_utils/cluster.py:78-93 | every cluster's area lies behind the FATs and inside the image |
| Geometry.AreasDisjoint | components/fatfs/fatfs_utils/cluster.py:78-93 | areas of different clusters do not overlap |
| Geometry.AreasInOrder | components/fatfs/fatfs_utils/cluster.py:78-93 | the root area stands behind the FATs, cluster 2 behind it and every further cluster one sector behind the one before |
| Geometry.FatSized | components/fatfs/fatfs_utils/utils.py:86-94 | a FAT takes the fewest sectors that hold its bytes: one and a half or two for each sector of the volume, and three or four more |
| Geometry.AcceptedExactly | components/fatfs/fatfs_utils/utils.py:78-94 | of the sizes offered exactly those are accepted that have at most 65525 sectors and room for the boot sector, the FATs and the root directory |
| WearLevelling.RemovalUndoesLayout | components/fatfs/wl_fatfsgen.py:19-51 | for every plain image, move count and recorded dummy position, removing wear levelling from the rotated image with dummy, states and configuration gives the plain image |
| WearLevelling.RemoveWl | components/fatfs/wl_fatfsgen.py:19-51 | the slices, negative bounds included, and the counting loop compute the removal, or fail if the state header does not parse |
| WearLevelling.StateRoundTrip | components/fatfs/wl_fatfsgen.py:65-74 | a built state header parses back to all its fields, whatever follows |
| WearLevelling.StateRebuilt | components/fatfs/wl_fatfsgen.py:65-74 | a header that parses is built again from its fields, byte for byte |
| WearLevelling.WLFATFS.InitWl | components/fatfs/wl_fatfsgen.py:152-158 | dummy sector, plain image, two equal states with all header fields and blank records, configuration, in this order and of the size of the partition; removing the layer gives the plain image back |
| PngFilters.UnfilterInvertsFilter | main/map_tile.c:1159-1193 | unfiltering inverts each standard filter for every row, previous row or none, and number of bytes per pixel; the filtered row satisfies the decoding equations |
| PngFilters.FilterInvertsUnfilter | main/map_tile.c:1159-1193 | every row of filtered bytes comes from exactly one row |
| PngFilters.UndoneIsUnique | main/map_tile.c:1159-1193 | at most one row satisfies the decoding equations |
| PngFilters.UnfilteredDecodes | main/map_tile.c:1159-1193 | the unfiltered row satisfies the decoding equations: each byte is the filtered one plus the left byte, the byte above, half their sum, or the first of left, above and upper left that is nearest to left + above - upper left, modulo 256 |
| PngFilters.DecodesOnce | main/map_tile.c:1159-1193 | these equations have one solution |
| PngFilters.UnfilterSub | main/map_tile.c:1165-1168 | the in-place loop leaves the unfiltered row, which satisfies the decoding equations |
| PngFilters.UnfilterUp | main/map_tile.c:1169-1173 | likewise, with and without a previous row |
| PngFilters.UnfilterAverage | main/map_tile.c:1174-1180 | likewise for half the sum of two neighbours |
| PngFilters.UnfilterPaeth | main/map_tile.c:1181-1191 | likewise for the nearest of three neighbours |
| PngFilters.UnfilterRow | main/map_tile.c:1159-1193 | the dispatch over filter types leaves the row that satisfies the decoding equations, unknown types the row as it is |
| PngStream.PngContext.Feed | main/map_tile.c:1366-1435 | after every call the display shows the picture of all bytes fed so far, however they were cut |
| PngStream.PngContext.FeedAll | main/map_tile.c:1366-1435 | a stream in any number of pieces shows the picture of their concatenation |
| PngStream.PngContext.FinishRow | main/map_tile.c:1397-1427 | a complete row is unfiltered against the row before it, blitted if visible, and the buffers are swapped |
| PngStream.PngContext.DrawRow | main/map_tile.c:1411-1419 | the pixel loop crops the row, black outside the image |
| PngStream.EachVisibleRowOnce | main/map_tile.c:1407-1422 | the picture consists of each visible row once, in order, cropped and at its place |
| PngStream.PictureShows | main/map_tile.c:1366-1435 | the picture of a stream in terms of its bytes: row k decodes scanline k, which is one byte longer than its pixels, given row k - 1; the rows of the crop region are shown once each, in order and at their place, every pixel converted from the bytes of its column, black outside the image |
| PngStream.DecodeAppend | main/map_tile.c:1366-1435 | decoding goes on behind whole scanlines with the last of them as previous row |
| PngStream.PictureComplete | main/map_tile.c:1429-1433 | what follows the crop region adds nothing, so the early exit loses nothing |
| MapZoom.ResolveViewZoom | main/map_tile.c:1004-1082 | the zoom is that of a level that covers the centre if any does, else has a tile in view if any does, else of any level; no such level lies nearer to the request, and none as near above it if the zoom is below; the request itself without levels or for an empty viewport |
| MapZoom.CoverageCounts | main/map_tile.c:323-373 | the score is the number of cached tiles in view plus 8 if the centre is covered, and 1 for a covered centre without a tile; its flag says whether the pixel at the centre is on the cached tiles |
| MapZoom.TileHolds | main/map_tile.c:351-356 | tile t holds the pixels from 256 t on and below 256 (t + 1) |
| MapZoom.CentreOverlap | main/map_tile.c:323-373 | a level that covers the centre has a tile in view always for views of at least 2 x 2, and for a side of one pixel exactly if the pixel half a pixel before the centre is cached |
| MapZoom.OnePixelViewMisses | main/map_tile.c:369-371 | a level and a view one pixel wide for which centre coverage comes without overlap |
| FoxTable.TableTracks | main/fox_hunter.c:664-713 | with strictly increasing times, after every history the table holds exactly the at most 40 most recently seen distinct addresses, each once, with last time and strength, best strength, saturating count and first name of its stay |
| FoxTable.TableSize | main/fox_hunter.c:664-713 | for any times, the table has as many entries as addresses were seen, up to 40 |
| FoxTable.NameStrIs | main/fox_hunter.c:658-662 | the recorded name is the given one up to its first zero byte, cut to 31 bytes, and nothing less |
| FoxTable.StayIsMaximal | main/fox_hunter.c:672-711 | a stay begins at a sighting before which the address was not held, is unbroken, and consists of all sightings of the address since |
| FoxTable.SightedMacs | main/fox_hunter.c:680-711 | for any times: a known address keeps the set of addresses, a new one enters while there is room, and in a full table replaces the stalest entry exactly if that is older than the sighting |
| FoxTable.NothingDropped | main/fox_hunter.c:680-690 | for any times, the table holds only addresses that were seen, and while it is not full all of them |
| FoxRecency.TableRecent | main/fox_hunter.c:664-713 | for any times every entry carries the time of the last sighting of its address; if times never decrease, nothing left out was seen later than anything in the table |
| FoxRecency.TableDescribed | main/fox_hunter.c:664-713 | for any times every entry sums up the sightings of its address since it entered the table: last time and strength, best strength, saturating count, first name |
| FoxRecency.VisitIsMaximal | main/fox_hunter.c:664-713 | these begin where the address was not in the table and are all its sightings since, the address having stayed |
| FoxHunter.Hunter.ScanCb | main/fox_hunter.c:664-713 | the in-place update is the table of the extended history: up to date and described for any times, a choice of the most recent if times never decrease, exactly the most recent if they increase |
| FoxHunter.Hunter.Start | main/fox_hunter.c:1188-1193 | entering the mode empties the table and its history |
| FoxSelection.NearbyIsTop | main/fox_hunter.c:154-205 | the nearby section is a maximal choice by strength and best strength of the recent devices, sorted, ties by hits |
| FoxSelection.SectionIsTop | main/fox_hunter.c:254-304 | candidates, selection sort and prefix give a sorted maximal choice of the scored devices outside the excluded ones |
| FoxSelection.FollowScore | main/fox_hunter.c:207-239 | the sentinel is returned exactly for devices not seen within 12 seconds, for 20 seconds, four times and from near; real scores lie in -29 to 4150, far above it |
| FoxSelection.DetectedScore | main/fox_hunter.c:241-252 | likewise for the detected score and devices not seen within 30 seconds, in 0 to 1270 |
| FoxSelection.ScoreBoundsReached | main/fox_hunter.c:217-252 | the bounds of both scores are reached, so every part of a score gets its full weight |
| FoxSelection.FollowScoreMonotone | main/fox_hunter.c:207-239 | stronger, more often, longer or more recently seen never lowers the score of a device that is followed |
| FoxSelection.FollowBySignal | main/fox_hunter.c:220-229 | one dB more is worth three points between -95 and -15, of the best signal two, and every fourth hit below 600 one |
| FoxSelection.FollowBySpan | main/fox_hunter.c:212-218 | every whole second between first and last sighting is worth four points, up to 900 |
| FoxSelection.FollowByAge | main/fox_hunter.c:209-234 | every quarter of a second since the last sighting costs three points |
| FoxSelection.DetectedSteps | main/fox_hunter.c:241-252 | the same for the detected score: two points a dB, one a hit up to 200, three less every tenth of a second |
| FoxSelection.SnapshotSections | main/fox_hunter.c:362-397 | the three sections are sorted maximal choices of what qualifies and is not shown above, and no device is shown twice |
| FoxSelection.NearbyShown | main/fox_hunter.c:154-205 | the nearby section holds, of the devices seen within 8 seconds with at least -95 dBm, the four strongest, ties by the best signal, in this order and then by hits |
| FoxSelection.FollowingShown | main/fox_hunter.c:255-304 | the following section holds, of the other devices seen within 12 seconds, for 20 seconds, four times and from near, the four with the highest scores, in this order, ties by signal and hits |
| FoxSelection.DetectedShown | main/fox_hunter.c:307-360 | the detected section holds, of the other devices seen within 30 seconds, the six with the highest scores, in this order, ties by the later sighting and the signal |
| FoxSelection.ViewIsScreen | main/fox_hunter.c:1422-1459 | for a fixed table and time, exactly the indices below the view count select, in order, registry, nearby, following and detected rows, each row once |
| FoxHunter.Hunter.BuildLikelyNearby | main/fox_hunter.c:154-205 | the loops over the index array compute the nearby section |
| FoxHunter.Hunter.ExchangeSort | main/fox_hunter.c:188-203 | the exchange sort in place |
| FoxHunter.Hunter.BuildLikelyFollowing | main/fox_hunter.c:255-304 | the loops over the parallel arrays compute the following section |
| FoxHunter.Hunter.BuildDetected | main/fox_hunter.c:307-360 | likewise the detected section with both exclusions |
| FoxHunter.Hunter.BuildSnapshot | main/fox_hunter.c:363-397 | the three sections, each excluding the ones before |
| FoxHunter.Hunter.RegistryViewCount | main/fox_hunter.c:608-642 | the count is the number of rows of the screen |
| FoxHunter.Hunter.SelectViewIndex | main/fox_hunter.c:1422-1459 | an index on the screen makes the address of that row the target and closes the screen; any other changes nothing |
| GpsFusion.FoxIsWeightedMean | main/web_server.c:194-219 | after every sequence of samples the fox pin is their weighted mean with positive weights, the count saturates, and the radius lies in 6 to 110 |
| GpsFusion.FoxIgnoresOrder | main/web_server.c:194-219 | the pin does not depend on the order of the samples |
| GpsFusion.FoxInRange | main/web_server.c:194-219 | the fox pin lies in the bounding box of its samples |
| GpsFusion.SkyInRange | main/web_server.c:221-243 | the sky pin lies in the bounding box of its samples, its radius in 40 to 500 |
| GpsFusion.SkyConverges | main/web_server.c:221-243 | n equal samples leave at most 0.324 to the power n of the distance that was left, wherever the pin was |
| GpsFusion.FoxRadiusConverges | main/web_server.c:216-218 | while samples call for the same circle, assumed radius plus 0.42 of the distance, n of them leave exactly 0.78 to the power n of the difference in radius |
| GpsFusion.SkyRadiusConverges | main/web_server.c:240-242 | likewise for the sky pin with 0.9 of the distance and 0.72 |
| GpsFusion.FirstRadius | main/web_server.c:194-228 | the first sample sets the assumed radius |
| GpsFusion.ShareIs | main/web_server.c:233-234 | the share of a new sample in the sky pin grows linearly from 0.676 at -95 dBm to nine tenths |
| GpsFusion.StrongerIsNearer | main/web_server.c:167-182 | a stronger signal weighs more and assumes a smaller circle, linearly between -95 and -45 dBm and constant outside |
| GpsFusion.FusedPins.UpdateFox | main/web_server.c:194-219 | the fields hold the fox pin of the extended log |
| GpsFusion.FusedPins.UpdateSky | main/web_server.c:221-243 | the fields hold the sky pin of the extended log |
| Button.RunGrammatical | main/button.c:52-124 | on every run, with any times, each press emits a prefix of hold, warning, long hold, each at most once; it ends as a click or bounce only if none fired, as a hold only if one did; a dispatch directly follows an accepted click |
| Button.HoldsWhenDue | main/button.c:82-97 | in a press each hold event has fired exactly if some poll saw the button held for 500, 3500 or 5000 ms since the press began |
| Button.ReleaseOutcome | main/button.c:68-81 | a press ends as a hold if some poll saw it held for 500 ms, otherwise as a click if it lasted 50 ms, otherwise as a bounce; a hold forgets the pending clicks |
| Button.DispatchOutcome | main/button.c:100-122 | after an accepted click and while the button is up nothing is reported for 300 ms, then one event: click, double, triple or quintuple for one, two, three or four, or more clicks accepted since the last dispatch or hold |
| Button.GestureReported | main/button.c:48-126 | clean presses within the window, followed by 300 ms of silence, call the callback once, with click for one, double for two, triple for three and four, quintuple from five on |
| Button.CountIsPending | main/button.c:70-121 | the 8-bit counter is that number modulo 256, bounces included |
| Button.ClicksConserved | main/button.c:70-121 | accepted clicks are dispatched, forgotten by a hold, pending, or lost 256 at a time by counter overflow |
| Button.DispatchesClicks | main/button.c:108-122 | without overflow a dispatch never reports zero clicks |
| Button.SinceWraps | main/button.c:74-84 | the 32-bit difference measures elapsed time across the timer wrap |
| Button.PollTask.Round | main/button.c:48-126 | one pass gives each button with a pin its own level and time and leaves the others alone |
| Button.PollTask.Poll | main/button.c:56-124 | state and calls of a button are those of its own inputs, and no other button's are touched |
| Button.PollTask.HoldThresholds | main/button.c:84-96 | every threshold reached for the first time fires, in order |

## Left out

- Fatfs.FATFS.CreateFile: does not describe the image after a call that raises; a run ends there (likewise CreateDirectory and WriteContent).
- ImageRuns.ReadBack: asks for a nesting bound `depth` of at least the number of objects, where the original recursion has only Python's own limit.
- LongNames.LongNameRoundTrip: names are ASCII without NUL, and full names have at most 255 characters, a limit of the format that the program does not check; text outside ASCII, which the original encodes as UTF-16, is not modelled, and a reader meeting it is treated as a decoding error.
- FoxHunter.Hunter.ScanCb: the tracking of the active target before the lock, and calls that do not get the lock.
- FoxRecency.TableRecent: which devices are left out once the 32-bit time wraps, after 49 days.
- LevelledImage.ReadLevelled: the geometry is an argument; parsing the boot sector and detecting the wear-levelling layer from it are not modelled.
- GpsFusion.FoxIsWeightedMean: real numbers instead of float and double rounding; the distance formula is an arbitrary function.
- Button.PollTask.Poll: a callback is assumed to be registered.
- PngStream.PngContext.DrawRow: the conversion of a pixel's bytes to RGB565 is an arbitrary function; palettes are part of it.
- MapZoom.ResolveViewZoom: the projection from latitude and longitude to pixels; rounding of double arithmetic.
- The root directory growing out of its fixed area is an error of the model; the original reuses the size of the root area for a one-sector cluster there. A root directory of zero sectors is excluded.
- Starting from an existing image instead of an empty one.
- Reserved sector counts other than 1, FAT32, explicit FAT types, size detection and minimum-space computation.
- Time stamps, volume ids, checksum values of the wear-levelling state, its configuration header and the bytes of the boot sector are arguments.
- HostFolder.Make: a host directory is a map from names to entries; the file that a name with a slash would open elsewhere, case-insensitive hosts, limits on name lengths and what is left behind by a run that raises are not modelled.
- Walking a host folder to build an image, argument parsing; `fatfs_parser.py`.
- File, Directory, Cluster and Entry objects are rows of tables, so aliasing between Python references is not modelled beyond the shared image.
- Wear-levelling safe mode.
- PNG container parsing, inflate, display transfers, tile-cache scans and their concurrency.
- The registry of saved targets beyond its addresses, NVS, display, LED, buzzer, web handlers, Wi-Fi, BLE scanning.
