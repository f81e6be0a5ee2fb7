# zlatan, verified

zlatan moves a person's Google data to Nextcloud and Immich. This project
models the parts of it that hold algorithms with state, and proves what they
promise. `dafny verify dfyconfig.toml` checks all of it.

- **SHA-256 in the page** (`Words`, `Blocks`, `Fips180`, `RunningHash`, `Hex`,
  `JsNumbers`, `WizardSha256`). FIPS 180-4 is written down once, one-shot and
  unsigned; its constants are checked against the roots of the primes they come
  from. The page's class keeps signed words, a carry buffer and a byte count,
  and is proved to give the standard's digest for every cut of the input.
- **Resumable uploads** (`Chunks`, `Names`, `UploadDisk`, `UploadInvariant`,
  `UploadRuns`, `UploadTransfer`, `UploadCrash`, `UploadStore`, `UploadAnswers`,
  `UploadClient`).
  `UploadDisk` says what each request makes of a person's directory;
  `UploadStore` is the store, method by method, proved against it;
  `UploadInvariant` is what ties manifest, data and running hash together, and
  `UploadRuns` what holds over whole runs on any names. `UploadAnswers` states what
  each request does and is answered, field by field. `UploadTransfer` and
  `UploadClient` put the page at the other end of a connection that loses, cuts,
  repeats and reorders. The store's running hash is the streaming SHA-256 above,
  so the page's hash and the store's are compared as the same function.
- **The runs** (`PhotosRow`, `Protocol`, `ProtocolRuns`, `ProtocolPaths`,
  `StrayWrites`, `RunnerOps`).
  The stamps the retention runs from; and every click, finished upload, sweep and
  detached run as a task that moves in single steps (take the lock, read, decide,
  write, let go; take a slot, work, close, give it back), any number of them
  interleaved, with restarts. `RunnerOps` has the runner's operations and its
  Photos and Drive runs themselves, branch by branch, and ties each to the steps
  of its task.
- **Files an import left out** (`ImmichLog`, `Extraction`, `ImportOutcome`,
  `RetryChains`). The log scan against what the log says, the copies and the way
  back from them, retries folded into the import they belong to, and chains of
  retries file by file.
- **Split exports and the Takeout watcher** (`Parts`, `Takeout`), **the signed
  OAuth state** (`StateToken`), **the Drive copy's progress** (`DriveTicks`).

`Decimal`, `Sets` and `Wrappers` hold numbers in decimal, sizes of sets and an
optional value.

## Where the code does not keep what it says

Each of these is a lemma, with the exact condition or the family of inputs.

- Content announced under a taken name goes on under a name made from its hash,
  which is not checked: if that is taken too, a finished archive is replaced
  (`UploadRuns.ApartIffNameFree`, `UploadTransfer.TakenNameLosesArchive`). A path
  separator in the announced name makes the two names one
  (`UploadTransfer.SeparatorUndoesPrefix`).
- Rewriting a consumed chunk with other bytes marks the hash stale only after the
  data is written: `UploadCrash.CrashOfWriteExact` says exactly which writes a
  crash can spoil, `UploadCrash.CrashInRewrite` what follows. The hash of a
  finished archive is recorded only after it is moved, and the data of a mismatch
  is removed before the manifest says so: `UploadCrash.CrashInCompleteExact` says
  exactly when completing again makes up for a crash, `UploadCrash.CutRecordForgets`
  what follows when it does not.
- Three writers move the Photos row without the lock or a claim: the reconnects
  of a wizard retry, the refusals of an export request, and the Takeout watcher
  after its listing. `ProtocolRuns.StepKeepsIffOrderly` says exactly when that is
  harmless. It is not always: from any quiet start, for every person and each of
  the three, one such write at the wrong time is enough for two unfinished imports
  of that person (`StrayWrites.OneStrayWriteIsEnough`).
- The browser's " (1)" is understood in a part's name, but not after the store
  has sanitized it (`Parts.StoredPartExact`); and a hash prefix can number a
  name that had no number (`Parts.PrefixNumbersExact`).
- A copy for a retry that breaks after its file is created is reported missing,
  and what it left is sent with the others. `Extraction.SplitExact` says exactly
  when the folder holds only what was copied, `Extraction.BreakingInput` gives the
  input.
- Such a leftover can stand in for a file that was sent and got no outcome, so
  that it is no longer counted: `RetryChains.RetryCountsExact` says exactly when,
  `RetryChains.LeftoverHidesFile` has a chain that ends in done with a file never
  settled.
- A file at the top of an archive is copied for a retry but never mapped back
  (`Extraction.OriginUndoesCopy`). A file that has an error and is still open is
  listed twice (`ImmichLog.ListedTwiceExact`).
- Names with a bar make different Takeout folders look alike
  (`Takeout.BarsDeceive`, `Takeout.MistakenExact`).
- The comment on `stuckAfterTicks` speaks of ticks in a row; the code counts the
  failing ticks since a file last got through, with others in between
  (`DriveTicks.QuietTicksBetween`). `DriveTicks.InARowExact` says exactly when the
  two are the same.

## Model

| member | source | states |
|---|---|---|
| WizardSha256.HashFile | internal/web/static/wizard.js:331-340 | The page's hash of a file, read in slices of 8 MiB, is the SHA-256 of the whole file in lowercase hexadecimal. |
| WizardSha256.EveryCutGivesSha256 | internal/web/static/wizard.js:139-201 | However a message is cut into pieces for update, finishing gives the SHA-256 of their concatenation. |
| WizardSha256.Sha256.constructor | internal/web/static/wizard.js:118-126 | A new hasher has consumed nothing: the initial value of section 5.3.3 of FIPS 180-4, an empty buffer. |
| WizardSha256.Sha256.Update | internal/web/static/wizard.js:139-158 | One more piece takes the hasher from having consumed a message to having consumed the longer one; between calls the buffer holds the bytes past the last whole block, fewer than 64. |
| WizardSha256.Sha256.TakeBlocks | internal/web/static/wizard.js:141-153 | Every whole block of what was waiting and the new piece is compressed, in order; what does not fill one is left in the buffer or at the end of the piece. |
| WizardSha256.Sha256.TopUp | internal/web/static/wizard.js:142-152 | Waiting bytes are topped up; a full buffer is one compression and leaves the buffer empty, otherwise nothing is compressed. |
| WizardSha256.Sha256.WholeBlocks | internal/web/static/wizard.js:153 | Every whole block left in the piece is compressed, in order, and fewer than 64 bytes remain. |
| WizardSha256.Sha256.Set | internal/web/static/wizard.js:145 | Bytes are copied to their place in the buffer and nothing else changes. |
| WizardSha256.Sha256.Block | internal/web/static/wizard.js:163-189 | The signed 32-bit block loop computes the compression of section 6.2.2, modulo 2^32, on the 64 bytes at the offset. |
| WizardSha256.Sha256.FillSchedule | internal/web/static/wizard.js:164-175 | The array w holds the message schedule of the block, word for word, read as unsigned. |
| WizardSha256.Sha256.RoundLoop | internal/web/static/wizard.js:176-186 | After the loop the eight locals, read as unsigned, are the working variables after all 64 rounds. |
| WizardSha256.OneRound | internal/web/static/wizard.js:178-185 | One pass of the loop body gives a and e the standard's T1 + T2 and d + T1, although it reduces to signed 32 bits at every step. |
| WizardSha256.NextWord | internal/web/static/wizard.js:170-175 | One step of the schedule recurrence, on signed words. |
| WizardSha256.LoadWord | internal/web/static/wizard.js:166-169 | Shifting and or-ing four bytes reads them as one big-endian word. |
| WizardSha256.Rotate | internal/web/static/wizard.js:172 | Two opposite shifts of a signed word are the rotation of section 3.2. |
| WizardSha256.PageTableIsK | internal/web/static/wizard.js:128-137 | The table the page spells out is the standard's. |
| WizardSha256.TableEntry | internal/web/static/wizard.js:128-137 | Its entries, held signed, stand for the constants of section 4.2.2. |
| WizardSha256.Sha256.AddInto | internal/web/static/wizard.js:187-188 | The words of the hash value grow by the working variables modulo 2^32. |
| WizardSha256.Sha256.AppendPadding | internal/web/static/wizard.js:191-199 | What hex appends finishes the message: the buffer is empty afterwards and the value is that of the padded message. |
| WizardSha256.PaddingLaidOut | internal/web/static/wizard.js:192-198 | The bytes hex builds, with the length split in two words, are the padding of section 5.1.1. |
| WizardSha256.SetUint32 | internal/web/static/wizard.js:196-198 | Four bytes are written most significant first, and no other. |
| WizardSha256.Sha256.ToHex | internal/web/static/wizard.js:191-201 | hex gives the digest of everything consumed. |
| WizardSha256.Sha256.WriteHex | internal/web/static/wizard.js:200 | Eight words, unsigned and padded to eight digits each, are the digest as it is written. |
| RunningHash.AnyCutGivesDigest | internal/web/static/wizard.js:139-201 | Keeping a value, a tail and a length across any cut of a message is keeping exactly that message's digest. |
| RunningHash.FinishIsDigest | internal/web/static/wizard.js:191-201 | Padding and compressing only the bytes kept gives the one-shot digest of the whole message. |
| Blocks.FeedExtends | internal/web/static/wizard.js:139-158 | Consuming a piece after a message is consuming their concatenation. |
| Blocks.AnyCut | internal/web/static/wizard.js:139-158 | The state kept depends on the concatenation alone, not on the cut. |
| Fips180.Padding | internal/web/static/wizard.js:191-198 | The padding of section 5.1.1: as many bytes as fill the last block and no more. |
| Fips180.PaddingFillsBlocks | internal/web/static/wizard.js:191-199 | A padded message is whole blocks, so nothing stays in the buffer. |
| Hex.PaddedWord | internal/web/static/wizard.js:200 | toString(16) padded with zeros to eight is the word in eight hexadecimal digits. |
| Hex.HexDigitExact | internal/web/static/wizard.js:200 | The digits are 0 to 9 and a to f. |
| Hex.HexDigestDetermines | internal/web/static/wizard.js:200 | Two digests written alike are the same digest, so comparing strings compares hashes. |
| JsNumbers.ShiftLeft | internal/web/static/wizard.js:168 | << on Numbers is the shift of a word, read signed. |
| JsNumbers.ShiftRight | internal/web/static/wizard.js:172 | >>> on Numbers divides the unsigned word by a power of two, rounding down. |
| JsNumbers.SumOfWords | internal/web/static/wizard.js:174 | Adding Numbers and truncating with | 0 is addition of words modulo 2^32. |
| Chunks.ChunkIsStretch | internal/upload/upload.go:387-395 | A chunk's offset and expected size describe the stretch between two cuts, never empty and never over the chunk size. |
| Chunks.ChunksPartition | internal/upload/upload.go:387-395 | Every byte of a file lies in exactly one chunk. |
| Chunks.CountBounds | internal/upload/upload.go:659-668 | There are as many chunks as the file needs, and one at least. |
| Names.SanitizedIsSafe | internal/upload/upload.go:640-657 | A sanitized name is one path element of letters, digits, dashes, underscores and dots with no dot at either end. |
| Names.SanitizeTwice | internal/upload/upload.go:640-657 | A name the store handed out leads back to the same file. |
| Names.SanitizedExact | internal/upload/upload.go:640-657 | Of any path only the last element comes through, without the dots around it; its letters, digits, dashes, underscores and dots stay, and anything else becomes an underscore. |
| Names.NothingLeft | internal/upload/upload.go:652-656 | A name of dots only becomes "upload". |
| UploadDisk.WriteAt | internal/upload/upload.go:281-284 | A write puts the body at its offset and leaves every other byte of the file; past the end it leaves a hole of zeros. |
| UploadStore.Store.constructor | internal/upload/upload.go:119-127 | An empty store, with the default caps where none is given. |
| UploadStore.Store.Begin | internal/upload/upload.go:157-224 | The disk after an announcement, and its answer: refused out of bounds; else the finished archive of this content, else its session, else the archive of this name, else the session that goes on or is new. Content under a name in use is stored beside it. |
| UploadStore.Store.GoOn | internal/upload/upload.go:189-223 | A session of the same size, chunks and a compatible hash is kept and takes a late hash; any other is replaced by an empty one. |
| UploadStore.Store.FindAssembled | internal/upload/upload.go:507-520 | A finished archive of this hash and size is found if and only if there is one, under any name. |
| UploadStore.Store.FindSession | internal/upload/upload.go:523-533 | A session of this hash, size and chunk size is found if and only if there is one. |
| UploadStore.Store.Report | internal/upload/upload.go:365-378 | The view lists exactly the missing chunks, in order, and counts the others. |
| UploadStore.Store.Status | internal/upload/upload.go:345-363 | A session answers for itself; without one the archive of that name does; otherwise there is nothing. |
| UploadStore.Store.WriteChunk | internal/upload/upload.go:230-299 | A whole chunk in range is stored and hashed; a short or broken body changes nothing; every refusal and answer. The store stays valid. |
| UploadStore.Store.PutInFile | internal/upload/upload.go:270-290 | The bytes are written unless they are there already; rewriting a chunk the hash has consumed marks the hash stale. |
| UploadStore.Store.Absorb | internal/upload/upload.go:304-331 | The loop feeds the running hash every chunk now in line, the one in memory and those read back, or fails to read one. |
| UploadStore.Store.Complete | internal/upload/upload.go:399-474 | The disk after a completion and its answer, on any disk: the first missing chunk, the archive already in place, the wrong sum, or the archive moved into place. A valid store stays valid. |
| UploadStore.Store.Sum | internal/upload/upload.go:479-487 | The running hash where it kept up, else a pass over the data. |
| UploadStore.Store.Abort | internal/upload/upload.go:490-498 | No session is left under the name; every other session, every archive and every recorded hash is as it was. |
| UploadAnswers.AbortExact | internal/upload/upload.go:345-363 | After an abort the name is answered by its archive, or not found, and nothing else has changed. |
| UploadAnswers.AbortedStartsAfresh | internal/upload/upload.go:157-223 | Announced afresh, an aborted upload starts with every chunk missing, none of its bytes and no hash. |
| UploadAnswers.AnnouncementExact | internal/upload/upload.go:189-223 | An announcement that is neither finished, nor under way, nor answered by name keeps the chunks that are there exactly when the sizes agree and no two hashes differ, a side without a hash taking the other's; otherwise it starts from nothing. |
| UploadAnswers.NameExact | internal/upload/upload.go:178-183 | It goes under its own name, or under that name behind the first twelve characters of its hash exactly when a finished archive not recorded with this hash has it. |
| UploadAnswers.KnownExact | internal/upload/upload.go:507-533 | Content is known exactly by its hash and size, and for a session its chunk size. |
| UploadAnswers.ViewExact | internal/upload/upload.go:365-378 | A session is reported as announced, with how many chunks have been received and exactly the missing ones, in order. |
| UploadAnswers.StatusExact | internal/upload/upload.go:345-363 | A session answers for itself, an archive as one complete chunk with its recorded hash, and without either the name is not found. |
| UploadAnswers.LeftoverExact | internal/upload/upload.go:425-432 | A session whose data is in place already is answered with the archive and removed. |
| UploadAnswers.CompletionExact | internal/upload/upload.go:399-474 | A completion names the first missing chunk, or the sum the bytes have when that is not the announced one and then leaves an empty session of the same announcement, or ends in place. |
| UploadAnswers.RefusedWrite | internal/upload/upload.go:230-265 | A body that is no whole chunk of a session changes nothing, and how each is answered. |
| UploadAnswers.KeptWrite | internal/upload/upload.go:268-299 | A whole chunk is received, in its place, every other received chunk stays byte for byte, and the answer shows it. |
| UploadInvariant.NewSessionOk | internal/upload/upload.go:216-219 | A new session is valid. |
| UploadInvariant.AbsorbFromOk | internal/upload/upload.go:312-329 | On a valid session feeding the hash never fails, and ends with the hash of exactly the chunks received in a row, as they are on disk. |
| UploadInvariant.AbsorbedOk | internal/upload/upload.go:304-331 | Feeding the hash keeps manifest, data and hash state in agreement. |
| UploadInvariant.StoredOk | internal/upload/upload.go:270-290 | Storing a chunk, first time or again, keeps them in agreement, and the chunk is on disk byte for byte. |
| UploadInvariant.WithChunkOk | internal/upload/upload.go:258-299 | So does a whole write; only that chunk becomes received, and an unspoilt hash has caught up with every chunk in a row. |
| UploadInvariant.WriteKeepsChunk | internal/upload/upload.go:281-284 | Writing one chunk does not touch the bytes of another. |
| UploadInvariant.AdoptedHashOk | internal/upload/upload.go:192-200 | A session begun without a hash may be given one late. |
| UploadInvariant.EmptiedOk | internal/upload/upload.go:444-453 | After a mismatch the session is again a valid empty one. |
| UploadInvariant.SumAgrees | internal/upload/upload.go:479-487 | On a complete valid session the running hash and the full pass give the same sum, and the data file has exactly the announced size. |
| UploadInvariant.PassStops | internal/upload/upload.go:548-558 | A pass over the data reads no further than the announced size. |
| UploadInvariant.BeginOk | internal/upload/upload.go:157-224 | Begin keeps the whole disk valid: every session, one session per content, every recorded hash true. |
| UploadInvariant.WriteOk | internal/upload/upload.go:230-299 | WriteChunk keeps the whole disk valid. |
| UploadInvariant.CompleteOk | internal/upload/upload.go:399-474 | Complete keeps the whole disk valid. |
| UploadInvariant.RemovedSession | internal/upload/upload.go:490-498 | Removing a session keeps the whole disk valid. |
| UploadRuns.ApartIffNameFree | internal/upload/upload.go:178-183 | Uploads and finished archives stay under different names exactly when the name made up for a taken one is free. |
| UploadRuns.StepOk | internal/upload/upload.go:157-498 | Every request keeps the store valid, given that name is free. |
| UploadRuns.RunKeepsArchives | internal/upload/upload.go:157-498 | No sequence of requests on any names changes or removes a finished archive or its recorded hash. |
| UploadRuns.VerdictExact | internal/upload/upload.go:399-453 | Completing fails for a missing chunk exactly when one is missing, for a mismatch exactly when the bytes do not have the announced hash, and otherwise succeeds. |
| UploadRuns.CompletedArchive | internal/upload/upload.go:454-474 | A completion adds exactly one archive: the bytes received, of the announced size and hash; completing again changes nothing. |
| UploadRuns.AnnouncedIsKnown | internal/upload/upload.go:169-223 | After an announcement with a hash its content is known, or an archive of that very hash and another size has the name. |
| UploadRuns.KnownResumesUnderAnyName | internal/upload/upload.go:169-176 | Known content is answered as it is under any name, and its session is the only one. |
| UploadRuns.FinishedStaysKnown | internal/upload/upload.go:507-520 | Finished content is recognised after any further requests. |
| UploadTransfer.PageSliceIsStretch | internal/upload/upload.go:387-395 | The page's slice of a chunk is the stretch the server expects. |
| UploadTransfer.AllPartsAreTheFile | internal/upload/upload.go:421-425 | When every chunk received is that chunk of a file and none is missing, the data file is the file. |
| UploadTransfer.RunFaithful | internal/upload/upload.go:226-299 | Over any sequence of lost, truncated, repeated or reordered requests what is kept under a name stays the file or part of it. |
| UploadTransfer.TransferIsExact | internal/upload/upload.go:226-474 | Such a sequence followed by a completion leaves the file byte for byte or no archive; with every chunk there and no wrong hash announced it does leave it. |
| UploadTransfer.WriteOnlyAdds | internal/upload/upload.go:230-299 | A write request never makes a received chunk missing, and one that fits makes its chunk received. |
| UploadTransfer.MissingFrom | internal/upload/upload.go:371-377 | The missing chunks: exactly those not received, in increasing order. |
| UploadTransfer.MissingOnlyShrinks | internal/upload/upload.go:230-299 | Over any write requests the missing set only shrinks. |
| UploadTransfer.TakenNameLosesArchive | internal/upload/upload.go:178-183 | When the made-up name is taken as well, announcing, sending and completing put the new content in place of the archive that had it. |
| UploadTransfer.MismatchCanSucceed | internal/upload/upload.go:443-453 | After a mismatch one whole pass over what is then missing, and a completion, leave the announced file. |
| UploadTransfer.TakenNameExists | internal/upload/upload.go:178-183 | Two archives without a recorded hash are enough for that. |
| UploadTransfer.SeparatorUndoesPrefix | internal/upload/upload.go:182 | With a path separator in the announced name the made-up name is the taken one. |
| UploadCrash.CrashOfWriteExact | internal/upload/upload.go:270-297 | A crash at any point of any write leaves manifest, data and hash in agreement exactly when the write spares the bytes the hash has consumed: the chunk is on disk already, the hash is stale, or has not come so far. Otherwise some crash leaves other bytes under the old hash. |
| UploadCrash.CrashInWriteOfFile | internal/upload/upload.go:270-297 | For a page that sends a file every write does: whatever the crash leaves is valid and holds part of the file. |
| UploadCrash.CrashInRewrite | internal/upload/upload.go:273-297 | What the other case can lead to: completing trusts the old hash and moves the other bytes into place. |
| UploadCrash.CrashInCompleteExact | internal/upload/upload.go:399-474 | Wherever completing a whole session was cut short, completing again leaves the same archives, and the very disk it would have left exactly when the record of the hash was not cut and, after a mismatch, the running hash had kept up. |
| UploadCrash.CutRecordForgets | internal/upload/upload.go:460-469 | With its record missing or cut, the archive is no longer recognised and the same content is stored a second time. |
| UploadTransfer.PassDelivers | internal/web/static/wizard.js:273-282 | A pass that arrives whole leaves none of its chunks missing. |
| UploadClient.PutChunk | internal/web/static/wizard.js:304-325 | The server sees only prefixes of this chunk; over a fair connection one of five attempts delivers it. |
| UploadClient.SendMissing | internal/web/static/wizard.js:273-282 | A pass sends only chunks of the file, and over a fair connection delivers all it was asked for. |
| UploadClient.SendAll | internal/web/static/wizard.js:265-293 | The passes and the completion: success leaves an archive with the file's hash, and the file itself if the session held only parts of it; a fair connection succeeds. |
| UploadClient.Upload | internal/web/static/wizard.js:244-293 | A whole upload against any valid store and any connection: success leaves an archive with the file's SHA-256; where nothing was received before, or only parts of this file, it leaves the file byte for byte in the session it was sent to before or under its name; finished archives are kept; and over a fair connection such an upload within the limits succeeds. |
| UploadClient.NewOrUnderWay | internal/web/static/wizard.js:157-224 | That covers a new upload, and one that was broken off and is resumed under any name. |
| UploadClient.OursBegins | internal/web/static/wizard.js:157-224 | The page is told to go on exactly there, and what is kept there is from this file. |
| UploadClient.LossyIsFair | internal/upload/upload.go:304-325 | A connection that loses four requests of five is fair. |
| UploadClient.SendsKeep | internal/upload/upload.go:230-299 | Any sequence of whole, cut or repeated chunks of a file keeps the session one of that file, with at least the chunks it had. |
| UploadClient.BeginTold | internal/upload/upload.go:157-224 | What the page is told names an archive with the file's hash, or a session of exactly this content. |
| UploadClient.EndTold | internal/upload/upload.go:399-474 | A completion that reports a path leaves an archive with the file's hash. |
| PhotosRow.Row.constructor | internal/store/repo.go:85-92 | A new row has not started and carries no stamp. |
| PhotosRow.Row.SetPhotosState | internal/store/repo.go:115-144 | The state, the wait stamp set only on entering the Takeout wait, and the ended stamp: set by a first terminal write, kept by later ones, cleared by any other. |
| PhotosRow.Row.StampFinished | internal/store/repo.go:401-410 | A missing stamp is set, one that is there is kept. |
| PhotosRow.WaitIsLastSet | internal/store/repo.go:115-144 | The date of a wait for a Takeout is the time of the last state written, exactly while that is the wait. |
| PhotosRow.StampIsTrue | internal/store/repo.go:115-144 | A stamp is the time of a step since which the row has been ended throughout. |
| PhotosRow.StampIsFirstTerminalWrite | internal/store/repo.go:123-135 | Among state writes there is a stamp exactly when the row has ended, and it is the first terminal write of the present ended stretch. |
| PhotosRow.Row.Sweep | internal/runner/purge.go:67-91 | The sweep stamps an ended row without a stamp and spares it, and picks for a purge exactly those that have ended and are past the retention. |
| PhotosRow.Row.Purge | internal/runner/purge.go:124-155 | The directory of a picked row is moved exactly when the row, judged again, has ended and is past the retention. |
| PhotosRow.PurgeRespectsRetention | internal/runner/purge.go:124-155 | Whenever a directory is moved aside, every state written since at least the retention ago was an ended one. |
| PhotosRow.StampStaysTrueExactly | internal/runner/purge.go:78-83 | Stamping keeps the stamp true exactly when the row has ended. |
| PhotosRow.StampOnRunningRow | internal/runner/purge.go:78-83 | Stamping a row that is running again leads to a purge at its next ending. |
| Protocol.UsesLock | internal/runner/runner.go:903-911 | A step takes the claim lock only for a task that does not hold it and lets go only one that does. |
| Protocol.UsesSlot | internal/runner/runner.go:1939-1940 | A step takes a slot only for a task that holds none and gives back only one that is held. |
| Protocol.ClaimsAndCloses | internal/runner/runner.go:877-960 | A track is claimed only by a task that has decided to under the lock, or by the watcher, and shows a run from then on; its owner's closing write ends that. |
| Protocol.OtherWrites | internal/runner/runner.go:550-562 | Every other write leaves the track at rest or waiting, and is made under the lock or by one of three unclaimed writers. |
| Protocol.DecidesUnderLock | internal/runner/runner.go:903-930 | A decision to write is made under the lock, on a track that shows no run. |
| Protocol.MovesDrive | internal/runner/runner.go:566-805 | A Drive copy's closing write ends its being shown as copied. |
| Protocol.RunsCloseAtRest | internal/runner/runner.go:1231-1545 | Whatever a run comes to, its closing write leaves its track at rest, and giving back its slot is all it still does. |
| ProtocolPaths.EveryRunEndsAtRest | internal/runner/runner.go:566-1545 | Every way a run can go to its end takes exactly one slot, gives exactly one back, and leaves its track at rest. |
| ProtocolRuns.ExclusiveStays | internal/runner/runner.go:868-960 | An orderly step keeps: at most one owner a person, and the track showing a run exactly while it has one. |
| ProtocolRuns.DecisionsStay | internal/runner/runner.go:903-930 | An orderly step keeps what a task has read under the lock true until it acts on it. |
| ProtocolRuns.SlotsStay | internal/runner/runner.go:1939-1940 | The slots in use stay those of the runs that hold one, within the limit. |
| ProtocolRuns.DrivesStay | internal/runner/runner.go:566-805 | A Drive shown as being copied has a copy running. |
| ProtocolRuns.StepKeepsIffOrderly | internal/runner/runner.go:896-1132 | Exactly the steps that are orderly keep the whole invariant: a write without a claim must find a track that shows no run, and the watcher's claim one that nobody is about to write. |
| ProtocolRuns.DisorderlyBreaks | internal/runner/runner.go:896-1132 | Any other such write or claim breaks it. |
| StrayWrites.CallIsARun | internal/runner/runner.go:877-960 | What a task does when nothing comes in between it does among any others in orderly steps, changing only its row, the lock and its slot. |
| StrayWrites.StepUnhindered | internal/runner/runner.go:877-960 | One step of a task that nothing hinders is orderly and leaves it unhindered. |
| StrayWrites.ImportLaunches | internal/runner/runner.go:836-960 | Sending the files, and all of them landing, launch an import of any person whose track shows none. |
| StrayWrites.StrayWriteGivesTwoRuns | internal/runner/runner.go:877-1138 | A task about to write without the lock: an import is launched, the write moves the track from under it, and a second import is launched beside the first. |
| StrayWrites.WriterArrives | internal/runner/runner.go:877-1138 | From any state with the lock free, each of the three unclaimed writers gets to where it is about to write. |
| StrayWrites.OneStrayWriteIsEnough | internal/runner/runner.go:877-1138 | From any quiet start, for every person and each of the three: one disorderly write, all other steps orderly, leads to two unfinished imports of that person. |
| ProtocolRuns.RestartKeeps | internal/runner/runner.go:252-275 | Recovery after a restart leaves no track shown as running, and everything free. |
| ProtocolRuns.EveryInterleavingKeeps | internal/runner/runner.go:877-960 | Over every interleaving of any number of tasks, restarts included, the invariant holds. |
| ProtocolRuns.OneRunPerPerson | internal/runner/runner.go:877-960 | From a quiet start, after any interleaving, two unfinished Photos runs of a person are one run, the track shows it, and slots are within the limit. |
| ProtocolRuns.RequestsCanCome | internal/runner/runner.go:836-1138 | Whatever goes on, every request, sweep and Drive copy of a known person can come; the watcher lists exactly those who wait. |
| ProtocolRuns.NothingRunsAtFirst | internal/runner/runner.go:156-188 | A start with no track shown as running satisfies the invariant. |
| ProtocolRuns.NoSecondSlot | internal/runner/runner.go:1276-1296 | No task asks for a slot while it has one. |
| ProtocolRuns.TasksEnd | internal/runner/runner.go:566-1545 | Without new requests whatever is under way takes a bounded number of steps. |
| ProtocolRuns.NeverStuck | internal/runner/runner.go:1939-1940 | While anything is under way, something can move: neither the lock nor the slots deadlock. |
| ProtocolRuns.RestAtTheEnd | internal/runner/runner.go:566-1545 | When nothing is under way every track is at rest or waits for the person or for Google, the lock is free and every slot given back. |
| ProtocolPaths.PurgePath | internal/runner/purge.go:124-155 | The sweep can move the directory of an ended row aside, and leave any. |
| ProtocolRuns.PurgeSparesRuns | internal/runner/purge.go:124-133 | The sweep never moves aside the archives of a run that has them or is queued for them. |
| ProtocolRuns.StartKeeps | internal/runner/parts.go:122-185 | A task that has just started claims nothing, so starting any number of them keeps the invariant. |
| RunnerOps.Runner.SetPhotosUnlessRunning | internal/runner/runner.go:922-930 | The track moves to its wait exactly when no run holds it, in the steps of the protocol. |
| RunnerOps.Runner.LaunchFromWizard | internal/runner/runner.go:877-899 | A retry is launched exactly when the check passes and the key works; a missing or refused key sends the track back to its start; in the steps of the protocol. |
| RunnerOps.Runner.CheckTakeout | internal/runner/runner.go:1079-1138 | What the watcher makes of a person listed as waiting: nothing, a failure, a reconnect or a claimed download, as the protocol's step. |
| RunnerOps.Runner.RunPhotosImport | internal/runner/runner.go:1278-1282 | The import of an upload, whatever each step comes to: at rest, done exactly when immich-go was started, judged and left nothing out, back to the start exactly when the key is refused; one slot taken and given back; in the steps of the protocol. |
| RunnerOps.Runner.RunPhotosImportHeld | internal/runner/runner.go:1292-1345 | The import on a held slot, branch by branch: no archives, none with a photo, no key, or what immich-go came to. |
| RunnerOps.ValidateArchives | internal/runner/runner.go:1599-1621 | A set of archives is let through exactly when one holds a photo or a video and looking into none before it was cut short; a rejection says whether one could not be read. |
| RunnerOps.Runner.RunTakeoutDownload | internal/runner/runner.go:1231-1274 | The same for the download and the import of what it brought, on one slot. |
| RunnerOps.Runner.ImportWithImmichGo | internal/runner/runner.go:1358-1420 | What an exit of immich-go comes to: refused, judged by its report, left out again, or unfinished. |
| RunnerOps.Runner.FinishPhotosImport | internal/runner/runner.go:1451-1545 | The record decides: done, failed with files left out, or an empty archive. |
| RunnerOps.Runner.RunDrive | internal/runner/runner.go:566-805 | A Drive copy, whatever each step comes to: at rest, done exactly when every step works and the comparison finds nothing wrong, back to the connections exactly when one is to be renewed; one slot taken and given back; in the steps of the protocol. |
| RunnerOps.Runner.CopyDrive | internal/runner/runner.go:573-805 | The copy on a held slot, branch by branch. |
| RunnerOps.Runner.PrepareDrive | internal/runner/runner.go:578-650 | The steps before rclone: the first that fails ends the copy, or asks for a connection. |
| RunnerOps.Runner.FollowTicks | internal/runner/runner.go:666-741 | Every stats line is followed; there is a reason at the end exactly when three ticks have failed since a file got through, the third's. |
| RunnerOps.Runner.RecoverInterrupted | internal/runner/runner.go:252-275 | Every row becomes what the protocol's restart makes of it: exactly the halves left mid-work go back to where they can be started again, and only those lose the mark of files left out. |
| RunnerOps.Runner.RunProblemsRetry | internal/runner/problems.go:90-140 | The retry of the files left out: at rest; done exactly when every file is found and copied, nothing is reported wrong and as many are processed or discarded; back to the start exactly when a file was copied and the run's key is refused; failed for good exactly without a key; when no file could be copied it stops with files left out, the counts as they were, every file marked missing, and no further retry; one slot; in the steps of the protocol. |
| RunnerOps.Runner.RetryHeld | internal/runner/problems.go:96-140 | The retry on a held slot, branch by branch, with the record each leaves: as it was, every file marked missing, or the outcome folded in; and it is one the chains of retries speak of, when the copies of a file break together. |
| RunnerOps.AllMissing | internal/runner/problems.go:123-133 | Nothing is to be sent exactly when no file of the list was copied. |
| RunnerOps.ReportedIsARetry | internal/runner/problems.go:96-140 | What the copying out of the archives reports makes it such a retry, whatever immich-go reports. |
| RunnerOps.Runner.AcceptPhotos | internal/runner/problems.go:48-61 | A result is accepted exactly when Photos stopped on files left out, in the steps of the protocol. |
| RunnerOps.Runner.ClaimForImport | internal/runner/parts.go:159-185 | The track is claimed exactly when it waits for an upload and every part is there, in the steps of the protocol. |
| RunnerOps.Runner.StartUploadedImport | internal/runner/parts.go:122-154 | A claimed track whose launch fails is left where the person can act next; one whose launch succeeds goes on as a queued run; nobody else's changes. |
| ProtocolPaths.Then | internal/runner/runner.go:877-960 | Steps of the protocol put one after the other are steps of the protocol. |
| ImmichLog.ImmichProblems | internal/runner/verify.go:326-389 | One pass over a log gives, cut at a hundred, the files with an error, each once and in order of its first, then the files left open in the order found, each with its last step. |
| ImmichLog.Scan | internal/runner/verify.go:341-381 | The loop over the lines keeps the errors so far, the files in the order found, and exactly the open ones with their last step. |
| ImmichLog.PendingInLabels | internal/runner/verify.go:358-387 | A file is listed as pending exactly when a line that is no error, labelled "discovered image" or "discovered video", names it and every later line about it is no error and is labelled one of these, "associated metadata" or "missing metadata"; the reason is the label of the last. |
| ImmichLog.ErrorsInLabels | internal/runner/verify.go:359-368 | A file is listed as an error exactly when a line of level ERR names it; the reason is the label of the first such line, followed by a space and the rest of the line when there is one. |
| ImmichLog.NamedInOrder | internal/runner/verify.go:341-387 | Errors come first, by their first lines; then the pending, by the lines that first discovered them. |
| ImmichLog.OpenStep | internal/runner/verify.go:358-381 | How one line opens, keeps open or closes a file. |
| ImmichLog.ErrorsExact | internal/runner/verify.go:359-368 | A file is listed as an error exactly when some error line names it, once, in the words of the first. |
| ImmichLog.ErrorsInOrder | internal/runner/verify.go:359-368 | The errors stand in the order of their lines. |
| ImmichLog.FoundInOrder | internal/runner/verify.go:369-374 | The files found stand in the order of their first discovery, each once. |
| ImmichLog.LeftOpenExact | internal/runner/verify.go:369-387 | A file is listed as pending exactly when it was discovered and nothing but metadata matching named it since; the reason is the last such step. |
| ImmichLog.ListedTwiceExact | internal/runner/verify.go:359-387 | A file is listed twice exactly when it has an error and is still open. |
| ImmichLog.ErrorThenDiscoveredAgain | internal/runner/verify.go:359-387 | So is one that errs and is discovered again. |
| Extraction.ExtractProblems | internal/runner/problems.go:158-236 | Each problem is either in its own numbered folder, byte for byte as in its archive, or reported missing, once; what a copy that broke left lies in the folder under its own number; nothing else does. |
| Extraction.GroupByArchive | internal/runner/problems.go:159-168 | Problems without an archive are reported; the others are grouped by theirs, each once. |
| Extraction.ExtractFrom | internal/runner/problems.go:188-236 | Out of one archive exactly the entries it holds and whose copying does not break are copied and reported as such; a broken one leaves what it had written, or nothing. |
| Extraction.SplitExact | internal/runner/problems.go:158-236 | The folder and the missing overlap in exactly what broken copies left: the folder holds only copied entries, and the two add up to the problems, exactly when no copy breaks after its file is created. |
| Extraction.BrokenCopyIsSentToo | internal/runner/problems.go:188-236 | A copy that breaks after its file is created is reported missing and its file lies in the folder that is sent. |
| Extraction.BreakingInput | internal/runner/problems.go:213-236 | Any entry of any archive is such an input when its copying breaks half way. |
| Extraction.WhatIsLeft | internal/runner/problems.go:213-236 | Leftovers are files of entries that were not copied, and the folder holds only copied entries exactly when there are none. |
| Extraction.SourceExact | internal/runner/problems.go:158-210 | A problem is looked up by the archive's name before the first colon and the path after it. |
| Extraction.OriginOfAny | internal/runner/problems.go:240-257 | A name without a folder is kept; any other is kept or mapped to a file of the list with the same last element. |
| Extraction.OriginOfCopy | internal/runner/problems.go:243-257 | Whatever comes before its folder, a copy's name leads back to its file as long as that file's last element is the name it was copied under; otherwise it is kept. |
| Extraction.FitsIffInFolder | internal/runner/problems.go:252-255 | That is so exactly when the file lies in a folder of its archive. |
| Extraction.OriginUndoesCopy | internal/runner/problems.go:243-257 | originOf undoes the copy of every file inside a folder of its archive, and of none at the top. |
| Extraction.SentOf | internal/runner/problems.go:260-272 | What was sent is the list without the files reported missing, in order. |
| ImportOutcome.Ledger.FinishPhotosImport | internal/runner/runner.go:1451-1545 | The record, the asset count and where the track stops, for an import and for a retry folded into it. |
| ImportOutcome.MapBack | internal/runner/runner.go:1501-1503 | Every name a retry gives is mapped back to its file. |
| ImportOutcome.DoneExact | internal/runner/runner.go:1451-1545 | A retry ends in done exactly when every file was found, nothing was reported wrong, and as many were processed or discarded as were left out. |
| ImportOutcome.DoneMeansAllIn | internal/runner/runner.go:1451-1545 | After a retry that the runner lets through, done means as many were processed or discarded as were left out, and the record says everything checked is in. |
| ImportOutcome.NothingDropped | internal/runner/runner.go:1504-1517 | The counts of a retry cover what was left out: as many are processed, discarded or still counted, when entries for one file share their fate. |
| ImportOutcome.SentAndMissing | internal/runner/runner.go:1504-1517 | What is sent and what is missing are as many as the list exactly when entries for one file share their fate. |
| ImportOutcome.TwiceListedIsDropped | internal/runner/runner.go:1504-1517 | A file listed twice of which one copy fails is counted once only. |
| RetryChains.ImportCountsExact | internal/runner/runner.go:1476-1490 | An import's record counts as in what was processed, as left out the errors and pending, and as checked all but the discarded and skipped. |
| RetryChains.RetryNamesAll | internal/runner/runner.go:1451-1545 | When the log names all that went wrong and nothing was skipped, or nothing recognised at all, the record after a retry names exactly the files left out and can be retried. |
| RetryChains.RetryCountsExact | internal/runner/runner.go:1451-1545 | A retry that reached its report counts at least the files truly left out (gone wrong, skipped without a word, or missing) exactly when no leftover of a broken copy stands in for a skipped one. |
| RetryChains.RetryCountsAll | internal/runner/runner.go:1451-1545 | Without leftovers it counts exactly those. |
| RetryChains.RetrySettlesOrKeeps | internal/runner/runner.go:1451-1545 | One retry without leftovers, file by file: each file of the list is settled or truly left out, the record counts exactly the latter and names none but them. |
| RetryChains.ChainSettlesEachFile | internal/runner/runner.go:1451-1545 | Over any chain of such retries every file the import left out is settled in exactly one of them or is left out now; a chain that ends in done has settled every single one. |
| RetryChains.LeftoverHidesFile | internal/runner/runner.go:1504-1517 | With a leftover that fails: for any three different files still to be found, the last named without a folder, there is a chain that ends in done while one of them was never settled. |
| RetryChains.ChainCounts | internal/runner/runner.go:1451-1545 | Over any chain of retries the runner lets through, leftovers or not, as many outcomes are counted, or files still left out, as the import left out. |
| RetryChains.ChainBalances | internal/runner/runner.go:1451-1545 | Over any chain of retries the files checked never change and matched plus mismatched always make them up. |
| RetryChains.AnyReportIsARetry | internal/runner/runner.go:1451-1545 | Whatever report a retry ends with, its record is one that such a chain can hold. |
| RetryChains.FatesSplitFiles | internal/runner/runner.go:1451-1545 | Every file sent is settled, went wrong or was skipped without a word, with how often it is listed. |
| ImportOutcome.Ledger.NothingFound | internal/runner/problems.go:123-133 | A retry that found none of its files keeps the counts and marks each file. |
| RetryChains.NoRetryOfNothing | internal/runner/problems.go:123-133 | After that no further retry is offered. |
| RetryChains.SentAndMissingFiles | internal/runner/problems.go:158-178 | What is sent and what is missing are the list, file by file, when entries for one file share their fate. |
| ImportOutcome.ReportedAreLost | internal/runner/problems.go:158-178 | What the copying reports missing are problems of the list, each once. |
| ImportOutcome.LostByFileExact | internal/runner/problems.go:158-236 | Entries for one file share their fate exactly when, for a file its archive holds, all of its copies break or none does. |
| ImportOutcome.CanRetryProblems | internal/core/core.go:302-312 | A retry is offered exactly when the list names as many files as were left out and one of them can still be found. |
| Parts.PartNumberExact | internal/core/parts.go:46 | A name carries a part number exactly when it is a prefix, a dash, one to four digits, perhaps a browser's mark, and .zip in any case; the number is those digits. |
| Parts.PartInWords | internal/core/parts.go:46 | A dash, one to four digits and .zip, with or without a browser's " (k)", make the part those digits say; five digits make none. |
| Parts.PrefixKeepsNumber | internal/core/parts.go:40-46 | Whatever is put before a part's name, it stays that part. |
| Parts.CountParts | internal/core/parts.go:49-101 | The measure of a set of names: by distinct numbers as soon as one name has one, by files otherwise, with the missing numbers and whether there is too much. |
| Parts.MeasureOfNumbers | internal/core/parts.go:58-100 | Once a name is numbered, or while there is none: distinct numbers count, the missing are exactly those from one to the declared count that no name has, in order, and there is too much exactly when a number is above it. |
| Parts.MeasureOfFiles | internal/core/parts.go:49-57 | Without a declared count nothing is said of the parts; without a number in any name, files count, and more than declared are too many. |
| Parts.CompleteExact | internal/core/parts.go:35-37 | Complete exactly when a count is declared and either some name is numbered and the numbers are one to it, or none is and there are as many files. |
| Parts.OrderDoesNotMatter | internal/core/parts.go:49-101 | The order of the names does not matter. |
| Parts.ResentPartDoesNotMatter | internal/core/parts.go:49-101 | A part sent again, under any prefix, changes nothing. |
| Parts.UnnumberedExtraDoesNotMatter | internal/core/parts.go:49-101 | Once one name is numbered, a file without a number changes nothing. |
| Parts.PrefixNumbersExact | internal/upload/upload.go:182 | A hash prefix makes a part of exactly the names that are one already or are nothing but a number. |
| Parts.PrefixMakesNumber | internal/upload/upload.go:182 | So a name that is nothing but a number is no part before and one after. |
| Parts.StoredPartExact | internal/upload/upload.go:640-657 | A part keeps its number when its name is sanitized exactly when no browser has marked it. |
| Parts.StoredCopyIsNoPart | internal/upload/upload.go:640-657 | One that is marked is no part any more. |
| Parts.WholeFolderExact | internal/runner/runner.go:1208-1223 | A folder measured against its own number of files is complete exactly when it has a file and either none is numbered or each carries its own number and the numbers are one to their count. |
| Takeout.Watcher.KeepWaiting | internal/runner/runner.go:1046-1065 | Listings of people who no longer wait are dropped, the others kept. |
| Takeout.Watcher.Ready | internal/runner/runner.go:1152-1225 | A folder is found ready exactly when it holds an archive, none is empty, the part numbers are one to their count or none is numbered, and it was listed alike last time in the same wait; an error is answered exactly when listing fails. |
| Takeout.Watcher.ReadListing | internal/runner/runner.go:1189-1200 | The archives of a listing, their items, and whether each has been written to. |
| Takeout.ArchiveExact | internal/runner/runner.go:1192 | An archive is what is named .zip, in any case. |
| Takeout.ZipsExact | internal/runner/runner.go:1191-1195 | The archives are kept as often as they are listed, and nothing else is. |
| Takeout.KeyExact | internal/runner/runner.go:1197-1202 | Two listings are remembered alike exactly when they hold the same archives and sizes in any order. |
| Takeout.RememberedIsLast | internal/runner/runner.go:1046-1207 | After any polls for any number of people, what the watcher remembers of one is the last listing of their present wait, and nothing if there is none. |
| Takeout.BarsDeceive | internal/runner/runner.go:1201-1202 | Two archives, and one whose name holds a bar, are remembered alike. |
| Takeout.MistakenExact | internal/runner/runner.go:1197-1202 | A listing in which no name holds a bar can be mistaken for another one exactly when it holds at least two archives. |
| Takeout.DownloadExact | internal/runner/runner.go:1046-1225 | Over any run of the watcher, a download starts exactly when the listing is remembered like the last one before it in the same wait, no archive is empty, and either each has its own number from one to their count or none is numbered. |
| DriveTicks.Copy.constructor | internal/runner/runner.go:655-663 | Before the first tick nothing has been seen. |
| DriveTicks.Copy.OnTick | internal/runner/runner.go:667-741 | One tick, field by field: the files that got through are added, the bytes unless the tick fails, and the reason is set at the third failing one and cleared when a file gets through. After any ticks: files recorded are the rises of the transfer counter, bytes the rises on ticks that do not fail, and a reason is shown exactly while three failing ticks have passed since a file got through, named by the third. |
| DriveTicks.BytesExact | internal/runner/runner.go:682-696 | Of a byte counter that never falls exactly the rises on failing ticks are not recorded. |
| DriveTicks.StuckExact | internal/runner/runner.go:697-730 | The reason is set exactly when three ticks have failed since a file got through, and is the one of the third. |
| DriveTicks.OneMoreTick | internal/runner/runner.go:682-707 | How one tick lengthens, ends or leaves the run of failing ticks. |
| DriveTicks.QuietTicksBetween | internal/runner/runner.go:698-707 | Failing ticks with quiet ones between them, no two in a row, set the reason. |
| DriveTicks.InARowIsCounted | internal/runner/runner.go:698-707 | Failing ticks in a row are among those counted. |
| DriveTicks.InARowExact | internal/runner/runner.go:657-707 | Those counted are as many as those in a row exactly when no counted tick is followed by one that does not fail. |
| DriveTicks.FilesAreTheCounter | internal/runner/runner.go:684-696 | A transfer counter that never falls is recorded as it stands. |
| DriveTicks.BytesWithinTheCounter | internal/runner/runner.go:684-696 | Bytes recorded never pass a counter that never falls, and equal it if no tick fails. |
| StateToken.Itoa | internal/web/oauth.go:82-95 | Every 64-bit integer: a positive one in decimal, zero as 0, a negative one as nothing; the buffer is long enough. |
| StateToken.ReadNumber | internal/web/oauth.go:97-109 | Digits only, and not none; the value wraps at 64 bits. |
| StateToken.ReadOfWritten | internal/web/oauth.go:82-109 | atoi undoes itoa on all positive 64-bit integers. |
| StateToken.ExpiryWraps | internal/web/oauth.go:97-109 | A number too large for 64 bits is not refused: it wraps. |
| StateToken.Base64Url | internal/web/oauth.go:76-80 | The unpadded base64url of section 5 of RFC 4648 holds no dot. |
| StateToken.AlphabetExact | internal/web/oauth.go:76-80 | The symbols are those of section 5 of RFC 4648. |
| StateToken.Base64UrlExact | internal/web/oauth.go:76-80 | Three bytes are written as the four digits of their number in base sixty-four; what is missing at the end is zero and left out. |
| StateToken.SignatureDetermines | internal/web/oauth.go:76-80 | Signatures are 43 characters and equal only for equal keyed hashes. |
| StateToken.StateSigner.Sign | internal/web/oauth.go:40-44 | The state of a user and the second it expires in. |
| StateToken.StateSigner.Verify | internal/web/oauth.go:47-74 | The user a state names, or why it is refused. |
| StateToken.VerdictWithoutDots | internal/web/oauth.go:47-74 | A state without a dot, or without one before its signature, is malformed. |
| StateToken.VerdictOfForged | internal/web/oauth.go:47-74 | Another signature than the payload's is refused as such. |
| StateToken.VerdictOfSigned | internal/web/oauth.go:47-74 | For every signed payload: a last part that is not digits, a second that has passed, and only then no user, are refused; every other names its user. |
| StateToken.SignedVerifies | internal/web/oauth.go:40-74 | A signed state names its user, dots and all, exactly until the second it holds has passed, or is one time.Unix cannot hold; no user is refused. |
| StateToken.InstantExact | internal/web/oauth.go:65 | time.Unix makes the same second of every number up to the last it can hold, and one long past of the rest. |
| StateToken.AcceptedExact | internal/web/oauth.go:47-74 | The accepted states are exactly a user, a decimal expiry whose second, as time.Unix makes it, has not passed, and the signature of the two. |

## Left out

- UploadStore.Store.Begin: the announced hash is taken as already trimmed and in lower case; the creation time, the user and the layout version are not kept, so sessions of an older layout are not modelled.
- UploadStore.Store.WriteChunk: requests run one at a time, so the manifest is the same before and after the lock is taken; input and output errors other than a broken body or an unreadable chunk are left out, and restoring a hash state always works.
- UploadStore.Store.Complete: errors of the truncation, the rename and the recording of the hash are left out, except as crashes.
- UploadRuns.RunKeepsArchives: one person's directory; assumes the made-up name is free, which is necessary (see above). Archive names ending in `.sha256` or `.parts` are left out.
- UploadCrash.CrashOfWriteExact: data is synced before the manifest and the manifest replaced as a whole, as the source does; a disk that reorders synced writes is left out.
- UploadClient.Upload: a resumed session that holds bytes of another file, or content already finished under another name, is promised by its hash only; no other client writes to the store between its requests; the hash is computed, not taken from the browser's cache; waiting between attempts is left out; the file is shorter than 2^53 - 128 bytes; the server never hands out an empty name, since blank ones are refused at the door. Success is proved where one in five requests for a chunk gets through and fewer fail in silence than there are passes.
- WizardSha256.Sha256.Block: the array w is made with the object rather than at first use.
- PhotosRow.Row.Purge: judging a row again and moving its directory are one step here; that no run holds the track in between is ProtocolRuns.PurgeSparesRuns.
- PhotosRow.PurgeRespectsRetention: assumes a clock that does not go back, and a sweep that stamps only rows still ended (PhotosRow.StampStaysTrueExactly shows that is necessary).
- ProtocolRuns.EveryInterleavingKeeps: assumes the three unclaimed writers are orderly (ProtocolRuns.StepKeepsIffOrderly shows that is necessary). Store writes succeed; a run ends before its deadline. What a check under the lock reads besides the state (the declared parts, the verification) may let it go on or refuse, freely.
- RunnerOps.Runner.RunPhotosImport: what each outside step comes to is an input, any of its outcomes; that a run waits for a free slot is its requirement. Nothing else moves the row between its steps: that is the protocol's part.
- ProtocolRuns.DrivesStay: starting a Drive copy takes no claim, so two copies of one person may run; only that a track shown as copied has one is proved.
- ImmichLog.ImmichProblems: starts from lines already cut into level, label, file and the rest; splitting them, and the pattern that ends an unquoted file name, are left out.
- Extraction.ExtractProblems: an archive is a map of its entries; which copies break, and with how many bytes left behind, is an input, any of it; dates and permissions are left out.
- Extraction.OriginUndoesCopy: for a path that is not made of slashes only, and fewer than 2^63 problems.
- ImportOutcome.Ledger.FinishPhotosImport: counts are not negative and do not overflow; the detail sentence, the notification and the release of credentials are left out.
- ImportOutcome.NothingDropped: compares counts, not files (that is RetryChains.ChainSettlesEachFile), and needs entries for one file to be all found or all missing (ImportOutcome.TwiceListedIsDropped shows why).
- RetryChains.ChainSettlesEachFile: for retries of which no copy breaks with a file left behind (RetryChains.LeftoverHidesFile shows why), and a log that names no file it should not.
- RunnerOps.Runner.RetryHeld: the record it starts from is the one the ledger holds; nothing else writes it while the retry runs.
- Parts.PartNumberExact: letters are folded in ASCII only, which is what the pattern's letters need.
- Takeout.KeyExact: names hold no bar, the character the remembered listing is joined with (Takeout.BarsDeceive shows why); Takeout.DownloadExact holds for all names.
- Takeout.DownloadExact: a missing trailing part cannot be seen on this route, as the source says.
- StateToken.StateSigner.Verify: the keyed hash is any function; its strength, and comparing in constant time, are left out.
- DriveTicks.Copy.OnTick: parsing the log line is left out; another writer of the last error is covered only by what the row holds when the reason is cleared.
- The HTTP handlers, templates, catalogues, polling and DOM code: user interface.
- rclone, immich-go, the Google, Nextcloud, Immich and ntfy clients, SQLite: their outcomes are free choices of the model.
- Sealing of credentials, the credential sweeps, quotas, the Drive verification and its sample, byte and number formatting: easy members, or not about state.
