# Verification of modelwrap

A Dafny model of modelwrap's artifact format and packer, with proofs of what
its documentation and comments promise. `dafny verify dfyconfig.toml` checks
everything.

The parts, each with the modules that hold it:

- **The hash tree** (`Merkle`, `Geometry`, `HashPool`, `VerityFormat`). The
  salted tree is a short recursive function of the data (`Merkle.Root`,
  `Merkle.Tree`). The level builder is a pool of goroutines, a machine whose
  steps are claims on the shared counter and arbitrarily small pieces of reads
  and writes; every schedule of it gives the sequential level. The format
  operation is the imperative program over a file and over the workers' arrays,
  in uint64 and int64 arithmetic, proved equal to the recursive function. An
  image and another of the same size with one root yield a collision of the
  hash function, by a function that returns it.
- **The consumer** (`Consumer`, `Reference`, `Packer`). The explicit
  parameters, the reference grammar and a verifier that walks the layout; what
  the packer prints is what the consumer derives, every original block verifies,
  and a forged block that verifies yields a collision. The verifier is written
  from the layout; the kernel's is not part of the repository.
- **Encryption** (`Crypt`, `Streams`, `DiskImage`). A sector cipher is any keyed
  family of length-preserving bijections on 4096-byte data units indexed by the
  IV (the data units and tweaks of section 5.1 of IEEE Std 1619-2007); a
  concrete one shows the laws can be met. The chunked in-place stream over a
  source of any fragmentation, any length and any end equals the whole-buffer
  form, stays in its partition of the disk image and is undone by decryption.
- **The artifact store** (`Store`, `LockedSteps`, `ArtifactLock`,
  `StoreSafety`, `StoreOps`, `AcquireLock`, `Mixing`, `LostDirectory`). Any
  number of packers and deleters of one revision, as a machine over single
  filesystem operations with a crash possible between any two, including the
  advisory lock on a file that deleters unlink and the directory that they
  prune. An inode number is free for reuse only when no process has it open. The
  locked parts are also imperative methods; each of their file operations is
  tied to the one step of the machine that is next, so every prefix of a call is
  a run of it. A packing builds its image with the byte-level `Packer.BuildMwp`,
  and the reference it returns vouches for the bytes stored; an encrypted image
  is made with the byte-level `DiskImage.EncryptEmwp` and opens to those bytes.
  Taking the lock is the loop that does it, with turns of all other processes
  between its operations.
- **Several identities** (`StagedNames`, `Resolution`, `SharedDirectory`,
  `Neighbours`, `Prune`). The grammar of revisions, staged and published names;
  that what the gate accepts stays below its directories; what one revision's
  processes see of another's files; when the files and caches of two identities
  are apart; the removal of empty directories.
- **Seeding** (`Seeding`, `SeedingQuiet`, `SeedFiles`). Link first, verify
  after, by any number of workers, while anything happens to sibling paths.

Files, directories and sessions carry a flag `reliable`: on a reliable one no
operation that can be done fails; opening a file in a directory that is gone
cannot be done. Contracts say what holds whatever fails, and under that flag
also exactly when a call succeeds.

Five results are about where the code falls short:

- An acquirer that waits for a delete can fail although nothing goes wrong. It
  makes the directory of the lock file once, before its loop; the delete unlinks
  the lock and prunes the empty directory, and the acquirer's next open finds no
  directory. Where no operation fails that can be done, acquisition fails exactly
  if the directory is gone at one of its opens
  (`AcquireLock.AcquireArtifactLock`), which takes a removal after the acquirer
  made sure of it (`StoreSafety.MissingWasRemoved`);
  `LostDirectory.AcquirerLosesDirectory` gives a whole run. No file is lost: a
  process inside always has its directory (`StoreSafety.InsideHasDirectory`).
- A delete goes on after a removal that fails. If it fails to remove both
  `.mpk` and `.info` but removes the sidecar of a set of another schema than 1,
  a later packing under schema 1 reuses that set. `LockedSteps.ExactlyOrphaningSpoils`
  says that this is the only operation that spoils a set,
  `Store.FailedRemovals` which failures amount to it, and
  `Mixing.MixingHappens` gives a whole run.
- Two accepted revisions of which one is the other followed by `.emwp` share
  the path of a reference file while having different locks
  (`StagedNames.SharedPaths`, `StagedNames.SharedPathsAreAccepted`). Deleting the
  longer, of which nothing need have been packed, succeeds and removes the
  encrypted reference of the shorter (`SharedDirectory.DeleteReachesOver`). No
  other two revisions of a model see anything of each other
  (`SharedDirectory.OthersAreUnseen`).
- The cache of one accepted identity can lie inside that of another, as that of
  `m/x@y` in that of `m@x`, and deleting the other removes it under another lock
  (`Neighbours.CacheInCache`). `Neighbours.IdentitiesApart` says exactly when
  the files and caches of two identities are apart.
- A source that breaks off with the unexpected-end error is padded and reported
  as complete (`Streams.UnexpectedEndPassesForEnd`).

The comment on `FormatVerityHashTree` gives no upper bound for the hash offset
and the code checks none; the proofs need none either: where an offset would
leave int64, a read or write fails and so does the call
(`VerityFormat.FormatVerityHashTree`). The comment on `stagedPath` says that the
first `..` of a staged name ends the revision; for a revision that ends in one
dot it does not, and the names are unambiguous all the same
(`StagedNames.StagedIsolation`).

## Model

| member | source | states |
|---|---|---|
| Merkle.StoredDigest | verity_format.go:183-193 | the digest of block i stands at byte 32·i of the level above |
| Merkle.ParentAt | verity_format.go:183-193 | every byte of a level, by position alone: a digest byte, or padding after the last digest |
| Merkle.FindCollision | verity_format.go:100-135 | two different images of one size with equal roots give two different strings with one digest |
| Merkle.LevelCollision | verity_format.go:148-203 | different blocks packed into one and the same level give a collision |
| Merkle.SizeMattersForTheRoot | verity.go:55-75 | without the size in the reference integrity fails: the top tree block of a 2-to-128-block image has the same root as the image, for every hash function |
| Merkle.TopBlock | verity_format.go:126-135 | the root is the salted digest of the first block of the tree |
| Geometry.AtMostEightLevels | verity_format.go:60-62 | at most 8 levels for every accepted data area, and 8 for the largest |
| Geometry.TopIsOneBlock | verity_format.go:100-103 | the top level of a nonempty tree is a single block |
| Geometry.CountsStep | verity_format.go:100-103 | each level has the digests of the one below and is the base of the rest of the tree |
| Geometry.TreeIsSmall | verity_format.go:100-109 | a tree has at most half as many blocks as its data |
| Geometry.LevelsAreContiguous | verity_format.go:104-109 | levels lie end to end, the top one first, and fill the tree exactly |
| Geometry.LevelsAreDisjoint | verity_format.go:104-109 | no two levels share a byte, and none meets data or superblock |
| Geometry.OffsetsFitInt64 | verity_format.go:105-109 | with a hash offset up to 2^62 no offset of the layout leaves int64 |
| Geometry.TreeLength | verity_format.go:100-109 | the recursive tree has the length the geometry computes |
| HashPool.TaskBounds | verity_format.go:173-186 | slices of a worker stay in source and level, and the last one ends with the level |
| HashPool.Positions | verity_format.go:179-194 | computed file positions are exact, or negative throughout where the level does not fit |
| HashPool.TaskByte | verity_format.go:187-193 | a digest computed from a slice is the one the whole level has there |
| HashPool.StepKeeps | verity_format.go:168-198 | every atomic action of every goroutine keeps the invariant: claimed slices have one owner, written bytes are right, no write meets another |
| HashPool.RestingIsComplete | verity_format.go:201-202 | when all goroutines have returned and none reported an error, every slice is complete |
| HashPool.EveryScheduleIsSequential | verity_format.go:148-203 | for every number of workers and every schedule, a pool at rest without error left the sequential level and touched nothing else |
| HashPool.ExactlyOnce | verity_format.go:169-172 | no slice is claimed twice, all are claimed in a run without error, and the counter overshoots by at most one per worker |
| HashPool.StepDescends | verity_format.go:168-198 | every action decreases a well-founded measure, so every schedule ends |
| HashPool.LiveCanStep | verity_format.go:168-198 | a goroutine that has not returned can go on without error where the level fits |
| VerityFormat.VeritySuperblock | verity_format.go:205-224 | the superblock block has each field, little-endian, at its place |
| VerityFormat.SuperblockIsUnique | verity_format.go:205-224 | the layout determines every byte of it |
| VerityFormat.SuperblockReadsBack | verity_format.go:212-222 | a reader of the block gets version, block sizes, data blocks and salt back as they were given |
| VerityFormat.FillTask | verity_format.go:186-193 | what a worker leaves in its reused output buffer depends on its input only: packed digests, zeros after them |
| VerityFormat.LevelBlocks | verity_format.go:100-103 | the loop computes the sizes of the levels |
| VerityFormat.LevelOffsets | verity_format.go:104-109 | the loop computes the offset of every level, as int64 holds it |
| VerityFormat.RunPool | verity_format.go:155-202 | the goroutines over their real buffers and file follow the machine, end, and report exactly its errors |
| VerityFormat.VerityHashLevel | verity_format.go:148-203 | no error: the level stands in the file; error or not: nothing else has changed; no error on a reliable file where the level fits |
| VerityFormat.LevelFinished | verity_format.go:118-124 | after each level the file is the image with the end of the recursive tree written in |
| VerityFormat.BuiltAll | verity_format.go:126-135 | when no level is left, the digest of the block last written is the recursive root |
| VerityFormat.HashLevels | verity_format.go:118-124 | the level loop builds the whole recursive tree at its place, or fails with everything before it intact |
| VerityFormat.FormattedFrame | verity_format.go:111-124 | a successful format changes superblock slot and tree only; the length is the larger of the old one and the end of the tree |
| VerityFormat.FormatVerityHashTree | verity_format.go:53-141 | success: recursive root returned, superblock and recursive tree in place; rejected: file unchanged; always: nothing below the hash offset changes; succeeds on a reliable file exactly when accepted and the tree ends in int64 |
| Consumer.VerityParamsForArtifact | verity.go:61-75 | accepts exactly a 32-byte salt with a positive whole number of blocks up to 2^62 bytes; the data are the given offset over 4096, the tree starts one block after it |
| Consumer.WalkAccepts | verity.go:55-75 | at the derived offsets every block of the data and of its tree verifies |
| Consumer.TamperCollision | verity.go:55-75 | a block that verifies against a root is the original one, whatever else was changed, or two strings with one digest are returned |
| Consumer.FullCheckCollision | verity.go:55-75 | a file all of whose blocks verify holds the original data, or a collision is returned |
| Consumer.WalkSkipsSuperblock | verity.go:55-60 | verification does not depend on the superblock |
| Packer.ParamsAgreeWithFormatter | verity.go:61-75 | for a file laid out as data, superblock, tree the consumer accepts exactly what the formatter does, with its data size, and looks for the tree where the formatter puts the top level |
| Reference.ParseThenPrint | modelwrap.go:57-83 | what parses prints back unchanged, and only valid references parse |
| Reference.PrintThenParse | modelwrap.go:57-83 | exactly the valid references survive printing and parsing |
| Reference.ParsesExactly | modelwrap.go:41-83 | exactly the strings of 64 lower-case hex digits, a decimal number and a UUID, joined by underscores, parse |
| Reference.UuidGroups | modelwrap.go:44-44 | a UUID is five groups of 8, 4, 4, 4 and 12 lower-case hex digits joined by hyphens |
| Reference.DecimalRoundTrip | modelwrap.go:91-98 | a printed offset is read back as the same number |
| Reference.OffsetsAreUint64 | modelwrap.go:91-98 | an offset is had from exactly the digit strings that denote a uint64, and is what they denote |
| Reference.LeadingZeros | modelwrap.go:42-42 | references are not canonical: each has another valid spelling of the same offset |
| Reference.HexRoundTrip | wrap/wrap.go:493 | a printed root hash decodes to the digest |
| Reference.IdentityIsRootAndUuid | modelwrap.go:85-89 | the key-derivation identity tells valid references apart by root hash and UUID, and by nothing else |
| Reference.IdentitySplits | modelwrap.go:85-89 | the identity is root hash and UUID, in that order |
| Reference.KeyIsBound | modelwrap.go:102-107 | a key is derived from exactly the 64-byte master keys, salted with root hash and UUID of the reference |
| Packer.PrintedVouches | wrap/wrap.go:493 | the printed reference parses to the numbers the image was built with |
| Packer.BuildMwp | wrap/wrap.go:467-494 | a reference is returned only for an image it vouches for, and carries the UUID of the model, which with the salt stands in the superblock of the file; on a reliable file exactly for nonempty whole blocks up to 2^62 bytes |
| Packer.EveryBlockVerifies | wrap/wrap.go:604-634 | every data block of an artifact verifies by parameters derived from its reference alone |
| Packer.GenuineVerifies | wrap/wrap.go:604-634 | the blocks of an artifact verify with the digest of the model identity as salt and size, root hash and UUID as its reference gives them; its superblock names the same UUID |
| Packer.ForgedBlock | wrap/wrap.go:604-634 | a block of any other file that verifies under the reference is the original, or gives a collision |
| Packer.ArtifactIsWhole | crypt/crypt.go:101-104 | a finished artifact is a whole number of sectors |
| Crypt.RotationIsLawful | crypt/crypt.go:56-68 | the laws asked of the cipher can be met |
| Crypt.IvsAreDistinct | crypt/crypt.go:33-39 | no two sectors below 2^61 have one IV |
| Crypt.TransformConcat | crypt/crypt.go:56-68 | sectors are independent: a buffer can be cut between any two |
| Crypt.TransformRoundTrip | crypt/crypt.go:70-80 | each direction undoes the other on every whole buffer |
| Crypt.SectorAt | crypt/crypt.go:33-68 | sector i of the output is the cipher, in the wanted direction, of sector i of the input under the IV 8 times its number, exact below 2^61 sectors and modulo 2^64 beyond |
| Crypt.TransformInPlace | crypt/crypt.go:58-68 | the in-place loop puts the given bytes sector by sector through the cipher, each with an IV 8 further than the one before, is the whole-buffer form, and leaves the rest |
| Crypt.InMemory | crypt/crypt.go:82-94 | succeeds exactly for whole 4096-byte sectors and a 64-byte key; the result is the input sector by sector through the cipher, from IV 0 on |
| Streams.ReadFull | crypt/crypt.go:125-131 | fills the buffer as far as the content reaches whatever the fragmentation, and reports end, early end or error as io.ReadFull does |
| Streams.PadTail | crypt/crypt.go:138-147 | the tail of the last sector is zeroed whatever the buffer held |
| Streams.WantedStartsWith | crypt/crypt.go:124-155 | the whole chunks at the front of a source come first in the output however it ends |
| Streams.DeliveredStretch | crypt/crypt.go:116-160 | however a stream ends, it has written one stretch no longer than the padded source |
| Streams.UnexpectedEndPassesForEnd | crypt/crypt.go:127-135 | a source ending in the unexpected-end error is treated as complete; one ending in any other error never is |
| Streams.Chunks | crypt/crypt.go:124-159 | the loop delivers the whole-buffer form of the padded source, or after an error of the whole chunks before it, and counts it |
| Streams.Stream | crypt/crypt.go:116-160 | a finished stream has written the zero-padded source sector by sector through the cipher, from IV 0 on, for every content and fragmentation; a broken one its whole 4 MiB chunks; the outcome is determined by key, source and alignment when writing is reliable |
| DiskImage.ImageSizeIsExact | wrap/wrap.go:535-538 | for every int64 size the image size is exact or negative and refused; partition and trailer are where the geometry says |
| DiskImage.EncryptPayload | wrap/wrap.go:581-598 | no byte outside the partition changes whatever happens; success means the partition holds the encryption |
| DiskImage.EncryptEmwp | wrap/wrap.go:530-577 | a returned image carries the artifact under the key derived for its reference; exactly when it succeeds |
| DiskImage.DecryptPayload | wrap/wrap.go:668-688 | what is written is the decryption of the payload; the outcome is determined by key and alignment when files are reliable |
| DiskImage.RoundTrip | wrap/wrap.go:579-598 | the payload decrypts to the artifact and fewer than 4096 zeros, and to the artifact itself exactly when that is whole |
| DiskImage.ArtifactRoundTrip | wrap/wrap.go:637-664 | every finished artifact comes back byte for byte |
| DiskImage.ArtifactFits | wrap/wrap.go:535-538 | the image size of every artifact the packer makes is exact and can be had |
| DiskImage.SealedOpens | wrap/wrap.go:637-664 | a genuine artifact encrypted under the key of its encrypted reference decrypts to itself |
| Store.VerdictIsSafe | wrap/wrap.go:282-324 | on a sound set: reuse exactly for a complete build of the wanted schema, fresh exactly without artifacts |
| Store.FailedRemovals | wrap/delete.go:59-72 | of all sets of failing removals exactly the orphaning ones leave an unsound set |
| Store.OrphanIsMistaken | wrap/wrap.go:316-323 | an orphaned set is reused under schema 1 |
| LockedSteps.StageStep | wrap/wrap.go:379-391 | staging and filling a temporary keeps what the packer knows |
| LockedSteps.MoveStep | wrap/wrap.go:379-391 | each rename lands where nothing else was and keeps the set sound |
| LockedSteps.CheckStep | wrap/wrap.go:288-324 | the check and the backfill establish what the rest relies on |
| LockedSteps.BuildStep | wrap/wrap.go:448-516 | building and publishing the image keep the set sound |
| LockedSteps.EncryptStep | wrap/wrap.go:168-180 | encryption starts only from a complete set and adds to it |
| LockedSteps.RemovalKeepsChain | wrap/delete.go:59-72 | removing in this order never leaves an artifact without what it depends on |
| LockedSteps.HolderStep | wrap/wrap.go:110-188 | every operation of a lock holder keeps the invariant; soundness is lost only by orphaning, order only after a failed removal |
| LockedSteps.ExactlyOrphaningSpoils | wrap/delete.go:65-72 | of all operations on a sound set exactly the orphaning one spoils it |
| ArtifactLock.OpenKeeps | wrap/wrap.go:399-402 | opening or creating the lock file under any inode not in use keeps the invariant |
| ArtifactLock.StatKeeps | wrap/wrap.go:414-423 | the inode check passes only for the inode the path names, and fails only after an unlink since the open |
| ArtifactLock.WorkKeeps | wrap/wrap.go:107-188 | operations under the lock keep the invariant of the whole system |
| ArtifactLock.UnlinkKeeps | wrap/delete.go:94-98 | unlinking the lock file while holding it keeps the invariant for every waiting process |
| ArtifactLock.StepKeeps | wrap/wrap.go:393-430 | every step of every process, crashes included, keeps the invariant |
| ArtifactLock.PruneKeeps | wrap/delete.go:98-103 | pruning the directory keeps the invariant, and never takes it from a process inside |
| StoreSafety.KnownBeginnings | wrap/wrap.go:316-318 | an empty directory and a set from before sidecars are beginnings all results apply to |
| StoreSafety.AtMostOneInside | wrap/wrap.go:393-430 | in every run at most one process is inside, and the path names its inode |
| StoreSafety.SetsAreSound | wrap/wrap.go:496-516 | in every reachable state the artifacts come from one build, a complete set has its own sidecar, and each artifact has what it needs |
| StoreSafety.EveryStopIsSafe | wrap/wrap.go:282-324 | wherever processes stop, the next check reuses exactly a complete set of the wanted schema and starts afresh exactly without artifacts |
| StoreSafety.LockedCheckIsAtomic | wrap/wrap.go:288-312 | under the lock the file-by-file check decides as if it saw all files at once |
| StoreSafety.PackReturnsWhatIsStored | wrap/wrap.go:146-187 | a returned reference is that of the build stored, made under the wanted schema, and of its encryption |
| StoreSafety.OnlyTheHolderWrites | wrap/delete.go:94-98 | only a process inside changes files of the revision; one that has unlinked the lock does not |
| StoreSafety.StepPreserves | wrap/wrap.go:282-287 | no step replaces an artifact |
| StoreSafety.GoesOnlyByRemoval | wrap/delete.go:65-72 | of all steps only the removal of that very file by a delete touches an artifact, and it takes it away |
| StoreSafety.ArtifactsStay | wrap/wrap.go:282-287 | in every run an artifact stays as it is until a delete removes that very file |
| StoreSafety.DeletedMeansEmptied | wrap/delete.go:54-104 | a delete that reports success unlinked the lock when no file of the revision was left |
| StoreSafety.DeleteReportsTruly | wrap/delete.go:54-104 | from every beginning: a delete that returned without error unlinked the lock over an empty set |
| StoreSafety.FailuresLeaveAll | wrap/delete.go:95-102 | an unlink or a pruning that fails leaves path, files and directory as they were, and the delete whose unlink failed reports an error |
| StoreSafety.DeletingAgainChangesNothing | wrap/delete.go:19-22 | after that, deleters change no file |
| StoreSafety.SweepSparesTheLiving | wrap/delete.go:73-90 | the sweep never takes a temporary of a process still at work |
| StoreSafety.RetriesArePaidFor | wrap/wrap.go:397-429 | an acquirer starts over at most as often as the lock file was unlinked during its attempt |
| StoreSafety.MissingWasRemoved | wrap/wrap.go:397-402 | an acquirer that finds the directory of the lock gone had made sure of it, and it was removed in between |
| StoreSafety.InsideHasDirectory | wrap/wrap.go:103-114 | a process inside always has its directory |
| AcquireLock.OpensExactlyInDirectory | wrap/wrap.go:399-402 | the lock file can be opened or created exactly while its directory is there |
| AcquireLock.AcquireArtifactLock | wrap/wrap.go:397-430 | whatever others do between its operations: it ends inside, holding the inode the path names, or waits for a holder that takes no more steps, or fails; if no operation fails that can be done, it fails exactly if the directory was gone at one of its opens; the others have three turns in every attempt |
| AcquireLock.World.Lock | wrap/wrap.go:403-413 | waits until nobody else holds a lock on the inode opened |
| LostDirectory.AcquirerLosesDirectory | wrap/delete.go:94-103 | from any sound set a whole run without a failing operation in which a delete succeeds and the packer waiting for it fails for want of the directory |
| StoreOps.WorksPreserve | wrap/wrap.go:282-287 | a packer, however far it gets, leaves every artifact it found, and a sound set sound |
| StoreOps.WorksIsRun | wrap/wrap.go:107-188 | what a lock holder does is a run of the whole system |
| StoreOps.Session.CheckExistingArtifacts | wrap/wrap.go:288-324 | returns the verdict on the files present, changes none |
| StoreOps.Session.BackfillSchemaSidecar | wrap/wrap.go:347-352 | adds the sidecar exactly where there is none |
| StoreOps.Session.WriteStaged | wrap/wrap.go:381-391 | replaces one file and leaves no temporary, or changes no file |
| StoreOps.Session.BuildMwp | wrap/wrap.go:448-494 | success: the image is in a fresh temporary, its bytes an artifact its reference vouches for; on reliable files it succeeds exactly if the builder works and the formatter takes the image, and leaves no temporary otherwise |
| StoreOps.Session.PublishArtifacts | wrap/wrap.go:501-516 | sidecar, image and reference of one build are in place and the temporary is gone |
| StoreOps.Session.EncryptStored | wrap/wrap.go:155-180 | success: the encrypted image and its reference are in place, and an image made now carries the bytes of the stored one; reliable: succeeds exactly if the key loads and there is an encrypted image or sgdisk works and the size can be had, and else changes nothing |
| StoreOps.EntersRecord | wrap/wrap.go:123-136 | the image stored after a packing has a reference that vouches for its bytes: those just built where there was none, those on record where one was reused |
| StoreOps.Renders | wrap/wrap.go:146-187 | the printed reference is that of the artifact on record, or has its root hash and offset and the UUID of the encryption; an encrypted image made by the run holds that artifact from its first mebibyte on, sector by sector under the key derived for that root hash and UUID |
| StoreOps.OuterIsPrinted | wrap/wrap.go:160-187 | the reference of an encryption differs from that of the plaintext in its UUID only |
| StoreOps.Session.PackLocked | wrap/wrap.go:116-188 | success: the reference of the stored build of the wanted schema, vouching for the bytes stored, no temporary left, and an encrypted image made by the run opens to those bytes; refusal: nothing changed; always: artifacts found are kept; reliable: succeeds exactly if there is a set to reuse whose reference parses, or no artifact and the builder works and the formatter takes its image, and, when encrypting, the key loads and there is an encrypted image or sgdisk works; where only these last fail the plaintext set stays published |
| StoreOps.Session.DeleteLocked | wrap/delete.go:59-93 | exactly the files whose removal failed, as the operations record it, survive; the removal of the cache is tried in any case; success means that nothing failed, no file is left and the cache is gone; succeeds if reliable |
| StoreOps.Session.SweepStaged | wrap/delete.go:73-93 | temporaries are removed or kept unchanged, and then the cache is removed |
| Mixing.DeleteLeavesOrphans | wrap/delete.go:64-72 | a delete with two failing removals leaves a set without its sidecar |
| Mixing.PackTakesOrphans | wrap/wrap.go:316-323 | packing under schema 1 then returns the reference of that set |
| Mixing.MixingHappens | wrap/delete.go:59-72 | a whole run from a sound set in which a packer under schema 1 returns the reference of a build of another schema |
| StagedNames.SplitPinnedRoundTrip | wrap/delete.go:119-128 | exactly the pinned valid identities are accepted, and split into what they were made of |
| Resolution.AcceptedExactly | wrap/delete.go:135-157 | an identity is valid exactly if it has no pattern character or backslash, its revision is one element without two dots in a row, and the path of its cache resolves to itself wherever it is joined |
| Resolution.StaysExactly | wrap/delete.go:151-155 | a path resolves to itself everywhere exactly if none of its elements is empty, a dot or two dots |
| Resolution.AcceptedStaysBelow | wrap/delete.go:30-42 | every file of an accepted identity, its cache and the directory pruning starts from lie below the directories they are joined to |
| StagedNames.LeftoverExactly | wrap/delete.go:114-117 | a leftover is the revision, the token and at least one more character |
| StagedNames.OneContinuation | wrap/delete.go:107-113 | a name continues at most one accepted revision by two dots and a letter |
| StagedNames.StagedIsolation | wrap/delete.go:114-117 | a temporary of one accepted revision is a leftover of another exactly if they are the same |
| StagedNames.FilesAreNotLeftovers | wrap/delete.go:73-90 | no published file, lock or old temporary of any accepted revision passes for a leftover |
| StagedNames.SharedPaths | wrap/delete.go:64-68 | two revisions share a path exactly if one is the other followed by `.emwp` |
| StagedNames.SharedPathsAreAccepted | wrap/delete.go:135-157 | both of two such revisions are accepted, and have different locks |
| SharedDirectory.OthersAreUnseen | wrap/delete.go:107-113 | what is done to the files of one revision leaves what another sees unchanged, unless one is the other followed by `.emwp` |
| SharedDirectory.WhatTheLongerSees | wrap/delete.go:64-68 | of a set of the shorter revision the longer sees the encrypted reference alone, as its own reference |
| SharedDirectory.DeleteReachesOver | wrap/delete.go:54-104 | a whole run in which deleting the longer revision reports success and removes the encrypted reference of the shorter, whose lock is another file |
| Neighbours.IdentitiesApart | wrap/delete.go:119-157 | files and caches of two accepted identities are apart exactly if they are not two such revisions and neither name leads through a file or the cache of the other |
| Neighbours.CacheInCache | wrap/delete.go:91-93 | two accepted identities of which the cache of one lies in that of the other |
| StagedNames.TwoDotsWouldAlias | wrap/delete.go:142-147 | without the rule against two dots a published file would pass for a leftover |
| Prune.FileTree.PruneEmptyParents | wrap/delete.go:159-166 | terminates, removes only directories that held nothing but the one below, never stop, root or current directory, and stops only where it must |
| Seeding.LinkKeeps | wrap/seed.go:283-288 | a new link never meets a name that another worker holds |
| Seeding.VerifiedKeeps | wrap/seed.go:289-305 | a verified target names an inode with the wanted mode, size and hash |
| Seeding.UndoKeeps | wrap/seed.go:290-302 | what is removed is the link just made, never a verified or older target |
| Seeding.StepKeeps | wrap/seed.go:254-308 | every step of every worker and of the environment keeps the invariant |
| Seeding.SeedingIsSafe | wrap/seed.go:234-239 | whatever happens to siblings and whatever fails: older targets are untouched, and after a return without error every added target names an inode of the probed mode and of the size and, capitals lowered, the hash of a listed file of that path |
| Seeding.SiblingsAreUntouched | wrap/seed.go:41-48 | no step of a worker changes a sibling path |
| Seeding.FailuresChangeNothing | wrap/seed.go:266-302 | an operation that fails changes no link and records nothing; a failed check leads to the removal, and exactly a failed removal ends the seeding in error |
| Seeding.StepDescends | wrap/seed.go:254-308 | every step of a worker brings the end nearer, and nobody else puts it off |
| Seeding.EveryScheduleEnds | wrap/seed.go:254-312 | the workers of a run take a bounded number of steps whatever fails or happens in between, and one that has not returned can take another |
| SeedingQuiet.FirstGood | wrap/seed.go:269-305 | the sequential choice: a wanted copy, and none in an earlier sibling |
| SeedingQuiet.EveryScheduleAgrees | wrap/seed.go:234-239 | undisturbed, every schedule has a bounded number of steps, can go on until all workers have returned, and then is without error in the sequential outcome |
| SeedingQuiet.SettledIsUnique | wrap/seed.go:234-239 | the sequential outcome determines results and links |
| SeedingQuiet.SchedulesAgree | wrap/seed.go:234-239 | any two undisturbed runs end in the same results and links |
| SeedFiles.SeedTargetValid | wrap/seed.go:337-359 | true exactly for an inode of the probed mode and the listed size whose content was read to its end and has the listed hash, capitals lowered |
| SeedFiles.Totals | wrap/seed.go:314-330 | the count is that of the linked files, the size an int64, and the sources are the names at exactly the places in use, in order |
| SeedFiles.SizeIsOfLinked | wrap/seed.go:317-323 | the size is the sum over exactly the linked files |

## Left out

- DiskImage.EncryptEmwp: which tables sgdisk writes is not modelled, only that it writes around the partition; whether it works is a parameter.
- Packer.BuildMwp: the image is whatever bytes mkfs.erofs left in the staged file; its determinism, and the stability of the model directory while it runs, are not modelled.
- VerityFormat.RunPool: filling a worker's output buffer is one step of the machine, since the buffer is that worker's own; the method that does it is a loop over the buffer.
- Making the directory, with its parents, is one step; whether a prune finds files of other revisions in it is left open, so it may fail.
- Output and cache are taken to be different directories; a path of one is never compared with a path of the other.
- Fairness of lock acquisition: which waiting process gets a lock that becomes free is left open.
- The workers of seeding are steps of a machine, not methods with loops, since they run among each other and the environment; verifying one file and summing up are methods.
- The unlocked check before a download writes nothing and grants nothing; it is among the ways to stop before the lock.
- StoreOps.Session.PackLocked: the file under `.mpk` and the text under `.info` of a reused set are parameters, the text without surrounding blanks; what is said of their content needs that the record has them.
- Which master key an existing encrypted artifact was made with: packing reuses it unchecked, so it is only known to encrypt the stored build.
- The optional verification runs (veritysetup) between publishing and returning: they only read, or add and remove a temporary, and may stop a packer.
- Durability under power loss: renames are atomic and ordered, crashes are of processes.
- SHA-256, AES-XTS, HKDF (section 2 of RFC 5869), name-based UUIDs (section 4.3 of RFC 4122) and directory hashing are opaque functions.
- The kernel's verifier and dm-crypt, mkfs.erofs, cryptsetup, mount and the command-line wrappers around them.
- Downloading, the Hub API, paging and JSON; the file list is an input of seeding.
- Listing sibling directories by age and probing the download mode: both are inputs of seeding; a directory made for a target that was then not linked is not modelled.
- Path cleaning: pruning starts from cleaned paths.
- Schema registry, logging, size formatting, environment variables and argument parsing: they would add easy members only.
