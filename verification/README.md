# Verification of the TeamSpeak server manager

This project models four parts of the TeamSpeak 3 server manager and its WordPress plugin and proves what they are for.
`dafny verify dfyconfig.toml` checks all of it.

**The backup archive.** `Octal`, `TarHeader`, `TarArchive`: the hand-written writer and pull reader of the ustar format
(IEEE Std 1003.1, `pax` utility, section "ustar Interchange Format"): octal fields, the checksum over a blank field, the
prefix/name split, padding, the trailer of two zero blocks, and reads of a fixed size from chunks of any size. `Collect`,
`Backup`, `Restore`: choosing the files, the manifest, inspection, and restoring to a disk. `ForeignBackups` takes archives
that need not come from this program, `BackupExample` carries one file through all of it.

**The ServerQuery protocol.** `Escape`, `QueryProtocol`, `QueryRoundTrip`: escaping, key/value lines, commands, responses
and their round trip. `ConnectionModel` is the connection as a state machine, one event at a time; `ConnectionRuns`
proves what every run of it keeps, `ConnectionChunks` that only the lines received matter, and `QueryConnection` is the
object whose methods do those steps.

**Admission of requests.** `NonceStore`: the replay window behind the timestamp check. `RateLimit`: the token bucket.
`Pairing`: single-use pairing codes with requests that load the configuration, wait for their body and then act, next to
commands that read the configuration when they start and write it when they end.

**Identity verification.** `CodeTokens`, `ChallengeStore`, `Verifier`: the agent's cycles, which overlap at every await.
`IdentityMapping`, `Identity`: the plugin's mapping and its two request methods, interleaved at each access to the stored
mapping, with webhooks lost, repeated and reordered between the two parties.

Functions say what a step computes; methods and classes change state in place as the program does and are proved equal to
those functions; lemmas prove the properties. `Sequences` holds splitting, joining and trimming.

Where a promise turned out not to hold for all inputs, the exact condition is proved:

- An archive round trip needs names that keep their stored form: a base or prefix that ends in a NUL byte is cut, and a
  name of over 100 bytes may not split at a leading slash. A directory entry with a size does not read back.
- A backup that contains a root file with the manifest's name, or whose manifest exceeds 1 MiB, is created without an
  error but does not pass inspection, and so cannot be restored.
- At the root "/" the program cuts the first character of each name with the separator. With include "." and one file "/a"
  the name is empty and refused; a file "/etc/passwd" is listed as "tc/passwd", which is then not found. A backup of "/"
  never lists every file under its own path, and of any other root always.
- A key named `__proto__` is lost by assignment to a plain object, and a line of a response loses a blank outside the
  escaped set at the end of its last value; a first key that starts with `notify` turns the data line into a notification.
- A request repeated exactly twice the permitted skew later, from one end of its window to the other, is admitted again,
  and within the store's capacity no other repeat is.
- The token bucket grants the capacity and what the time passing forwards earns; this is the time elapsed, for all limits,
  exactly when the clock does not go back between a key's calls.
- The program's own `README.md`, line 47, promises a single use of a pairing code; a command of the administrator's tool
  and a request that overlap use it twice exactly when one of them writes its pairing after a credential was handed out for
  the code. Such an overlap can also enable an agent that has just been paired, or rotate the credential of one that awaits
  pairing. In all of this the last reading, changing and writing of the configuration file is taken as one step.
- A verified identity is kept only while no request writes on the strength of an older look at the mapping.

## Model

| member | source | states |
|---|---|---|
| Octal.OctalFieldInversion | apps/ts3-manager/src/system/backupEngine.ts:83-87 | reading a written octal field gives its number back if and only if the number has at most length - 1 octal digits; a longer one always reads as some smaller number, never as an error |
| Octal.FieldIsNumber | apps/ts3-manager/src/system/backupEngine.ts:125-127 | a field of any origin, its NULs left out, is the number behind its blanks: a sign if any, and octal digits as far as they go |
| Octal.EmptyFieldIsZero | apps/ts3-manager/src/system/backupEngine.ts:125-127 | a field of nothing but NULs and blanks is 0 |
| Octal.FieldIsNoNumber | apps/ts3-manager/src/system/backupEngine.ts:125-127 | a field with anything else behind its blanks is no number |
| Octal.WriteOctal | apps/ts3-manager/src/system/backupEngine.ts:83-87 | the field of the buffer holds the zero-padded digits and a final NUL, cut at the field; the rest of the buffer is untouched |
| TarHeader.HeaderInversion | apps/ts3-manager/src/system/backupEngine.ts:83-135 | a built header parses with a valid checksum to the same type and low twelve mode bits, to the same size and the same time if and only if they are at most `MAX_FILE_SIZE`, and to the same name if and only if its stored form ends in no NUL and its prefix is not empty; it is never an all-zero block |
| TarHeader.NameInversion | apps/ts3-manager/src/system/backupEngine.ts:89-135 | the prefix/name split loses the name exactly when `NameKept` fails, whatever the checksum field holds |
| TarHeader.UstarLayout | apps/ts3-manager/src/system/backupEngine.ts:89-119 | the built block field by field as ustar lays it out: name, mode, owner 0, size, time, checksum over blanks, type, magic and version, prefix, and zeros elsewhere |
| TarHeader.NameFitsIff | apps/ts3-manager/src/system/backupEngine.ts:93-99 | a name can be written if and only if it has at most 100 bytes or a slash with at most 155 before and at most 100 behind it |
| TarHeader.LongestPrefix | apps/ts3-manager/src/system/backupEngine.ts:94-102 | of all such splits the one with the longest prefix is taken |
| TarHeader.FindSplit | apps/ts3-manager/src/system/backupEngine.ts:93-104 | the split found is the latest slash that leaves at most 155 bytes before and 100 after it, and none is found only where there is none |
| TarHeader.SizeLimitIsElevenDigits | apps/ts3-manager/src/system/backupEngine.ts:26 | `MAX_FILE_SIZE` is exactly the largest number of eleven octal digits |
| TarHeader.ChecksumFits | apps/ts3-manager/src/system/backupEngine.ts:115-118 | the byte sum of any block has at most six octal digits, so the checksum field never truncates it |
| TarHeader.ByteChangeDetected | apps/ts3-manager/src/system/backupEngine.ts:121-135 | changing any single byte outside the checksum field of a valid header makes its checksum invalid |
| TarHeader.BuildTarHeader | apps/ts3-manager/src/system/backupEngine.ts:89-119 | filling the block in place, with the sum taken over a blank checksum field, gives the specified header, or the error for a name with no split |
| TarHeader.ParseTarHeader | apps/ts3-manager/src/system/backupEngine.ts:121-135 | the in-place parse with its summing loop equals the specified parse on every block |
| TarHeader.SumBytes | apps/ts3-manager/src/system/backupEngine.ts:115-117 | the loop adds up exactly the bytes of the block |
| TarArchive.RoundTrip | apps/ts3-manager/src/system/backupEngine.ts:143-300 | an entry list is written and read back with the same names, sizes, low mode bits, kinds and contents in the same order if and only if every entry has a storable, safe name, a size within the limit and a body as long as it was measured (directories carry none) |
| TarArchive.ReaderSoundAndComplete | apps/ts3-manager/src/system/backupEngine.ts:211-300 | for every byte string: the reader succeeds if and only if the string is admitted headers with bodies padded to 512 bytes, then 1024 zero bytes, then only zeros; and it then delivers exactly those members |
| TarArchive.PrefixAccepted | apps/ts3-manager/src/system/backupEngine.ts:222-300 | a prefix of an accepted archive is accepted if and only if it still holds the whole of the members and both trailer blocks |
| TarArchive.TruncationRejected | apps/ts3-manager/src/system/backupEngine.ts:143-300 | every strict prefix of a written archive is rejected |
| TarArchive.EntriesRead | apps/ts3-manager/src/system/backupEngine.ts:253-288 | every entry the reader delivers, even before an error, has a safe name, a size within the limit and a body of exactly that size |
| TarArchive.DeliveredFromSoundHeader | apps/ts3-manager/src/system/backupEngine.ts:121-135 | every entry that any reading delivers, even before an error, comes from a block whose checksum is that of its bytes and whose type byte says file or directory |
| TarArchive.HeaderDecides | apps/ts3-manager/src/system/backupEngine.ts:253-264 | which error a block in the place of a header gives, or which entry, for every block: checksum first, then unsafe path, links, other types and size |
| TarArchive.SoundHeaderReads | apps/ts3-manager/src/system/backupEngine.ts:265-294 | behind a sound header an entry is delivered exactly if its body is there, and reading goes on where its blocks end exactly if they are |
| TarArchive.EndDecides | apps/ts3-manager/src/system/backupEngine.ts:241-252 | behind a zero block nothing is delivered, and whether the archive ends well, is cut short, lacks its second zero block or has trailing data depends on exactly these bytes |
| TarArchive.DirectorySlashGoes | apps/ts3-manager/src/system/backupEngine.ts:255 | a directory is delivered without the slash at the end of its name, anything else under the name it has |
| TarArchive.UnsoundHeaderStops | apps/ts3-manager/src/system/backupEngine.ts:253-264 | a block that is no sound header, whether for its checksum, name, type or size, ends the reading behind any archivable entries with the error for its first fault, those entries and no other delivered |
| TarArchive.ForeignTypeStops | apps/ts3-manager/src/system/backupEngine.ts:259-264 | likewise a block of a link or of any type but file and directory, with the error for it |
| TarArchive.HeaderByteChanged | apps/ts3-manager/src/system/backupEngine.ts:121-300 | in a written archive of archivable entries, changing any one byte of any header outside its checksum field ends the reading with the checksum error, exactly the entries before it delivered |
| TarArchive.ReadsThrough | apps/ts3-manager/src/system/backupEngine.ts:238-294 | reading goes on behind any archivable entries as if it started there, whatever follows |
| TarArchive.ChunkReader.Read | apps/ts3-manager/src/system/backupEngine.ts:222-237 | for every cut of the stream into chunks, even empty ones: returns exactly the next `size` bytes and leaves the rest, or fails exactly when fewer are left |
| TarArchive.ChunkReader.RestIsZero | apps/ts3-manager/src/system/backupEngine.ts:245-250 | consumes the stream and reports whether only zeros were left |
| TarArchive.ChunkReader.ReadBody | apps/ts3-manager/src/system/backupEngine.ts:272-289 | a body read in pieces of at most 64 KiB is the next `size` bytes |
| TarArchive.ReadEndMarker | apps/ts3-manager/src/system/backupEngine.ts:241-252 | after one zero block the archive ends well exactly with a second zero block and nothing but zeros |
| TarArchive.ReadContent | apps/ts3-manager/src/system/backupEngine.ts:265-294 | body and padding are consumed and the entry delivered exactly when all its bytes are there |
| TarArchive.ReadMember | apps/ts3-manager/src/system/backupEngine.ts:240-294 | one turn of the loop: a whole member is consumed and delivered, or the archive ends, well or with the error, and nothing further is read |
| TarArchive.ReadTar | apps/ts3-manager/src/system/backupEngine.ts:238-300 | the reading loop terminates on every chunked stream and gives the result of the specified reader on the joined bytes, whose acceptance, errors and deliveries the rows above pin down; its invariant keeps it at the whole number of blocks that the entries delivered so far take up |
| TarArchive.ReaderStandsAtBlocks | apps/ts3-manager/src/system/backupEngine.ts:239-294 | on every input, accepted or not, each entry delivered is read from an offset divisible by 512, where the blocks of the entries before it end, and the rest of the result is that of the input from there |
| TarArchive.WriteTar | apps/ts3-manager/src/system/backupEngine.ts:143-170 | the writing loop produces the specified bytes, or the first name error |
| Collect.WalkFinds | apps/ts3-manager/src/system/backupEngine.ts:326-344 | a walk that succeeds lists a path if and only if it is a file reached past no excluded directory |
| Collect.WalkFails | apps/ts3-manager/src/system/backupEngine.ts:326-344 | a walk fails if and only if it meets a symbolic link past no excluded directory |
| Collect.CollectsTaken | apps/ts3-manager/src/system/backupEngine.ts:312-324 | a path is collected if and only if some include takes it |
| Collect.CollectFails | apps/ts3-manager/src/system/backupEngine.ts:312-324 | collection fails if and only if some include escapes the root or runs into a symbolic link |
| Collect.IncludeLeads | apps/ts3-manager/src/system/backupEngine.ts:315-319 | an include leads where its names do when it is read from its end, each `..` taking away the nearest name before it and the spare ones levels of the root; it is refused if and only if that lies outside the root |
| Collect.PlainIff | apps/ts3-manager/src/system/backupEngine.ts:316 | a path resolves to its parts one below the other if and only if none is empty, `.` or `..` |
| Collect.CollectedExactlyOnce | apps/ts3-manager/src/system/backupEngine.ts:312-353 | after de-duplication every file some include reaches is listed exactly once, though includes overlap, and nothing else is |
| Collect.FilesDoNotNest | apps/ts3-manager/src/system/backupEngine.ts:326-344 | no file lies below another file |
| Collect.WalkEntry | apps/ts3-manager/src/system/backupEngine.ts:333-343 | one directory entry appends to the list what the specification says |
| Collect.WalkDirectory | apps/ts3-manager/src/system/backupEngine.ts:333-343 | the loop over a directory appends its files in order, or stops at the first link |
| Collect.WalkInclude | apps/ts3-manager/src/system/backupEngine.ts:326-332 | the walk of an include that is itself a file, a directory or a link |
| Collect.CollectInto | apps/ts3-manager/src/system/backupEngine.ts:312-324 | the collecting loop computes the specified list or failure |
| Backup.CreatedManifest | apps/ts3-manager/src/system/backupEngine.ts:346-403 | the manifest of a successful backup has one line for each collected file, with its size and hash; every collected file is listed under its own path if and only if the root is not "/", and then each once and nothing else |
| Backup.SortedManifest | apps/ts3-manager/src/system/backupEngine.ts:346-385 | below any root but "/" sorting by path keeps one line per file with distinct paths |
| Backup.CutTakesOneUnit | apps/ts3-manager/src/system/backupEngine.ts:363-367 | at the root "/" the first UTF-16 unit of a name goes: a whole character, or half of one, of which U+FFFD is left |
| Backup.CreatedIsGood | apps/ts3-manager/src/system/backupEngine.ts:346-470 | the archive of a successful backup reads back as the manifest entry and then one entry per line with the files' bytes and modes if and only if the encoded manifest fits a file of `MAX_FILE_SIZE` and each file read has the size listed; it then passes inspection if and only if the manifest is within 1 MiB, no path is the manifest's name or listed twice, and each file read has the hash listed |
| Backup.CreatedIff | apps/ts3-manager/src/system/backupEngine.ts:346-403 | for every root, "/" included: a backup is created if and only if collecting succeeds with at least one file and every file has a relative name that is safe, fits a header and leads to a file, and a size within the limit |
| Backup.NamedBackupMatches | apps/ts3-manager/src/system/backupEngine.ts:358-376 | where paths lead back to their files, the sizes and hashes listed are those of the files read |
| Backup.OpenSources | apps/ts3-manager/src/system/backupEngine.ts:147-158 | the loop over the entries reads the file behind each path, up to the first that has none |
| Backup.DeclaredIff | apps/ts3-manager/src/system/backupEngine.ts:448-468 | a valid manifest declares the archive's hashes if and only if each line matches an entry and each entry is listed |
| Backup.Compare | apps/ts3-manager/src/system/backupEngine.ts:454-468 | the two comparing loops report no issue if and only if the manifest's map of path to hash and size equals that of the archive |
| Backup.Scan | apps/ts3-manager/src/system/backupEngine.ts:414-437 | the scan accepts exactly the entry lists with unique names and a manifest within its limit, and then gathers the manifest's bytes and the hash and size of every other file |
| Backup.Inspect | apps/ts3-manager/src/system/backupEngine.ts:405-470 | on any chunked archive, given that empty text is not JSON, the inspection says ok if and only if the archive reads without error, names are unique, the manifest is present, within its limit and well formed, and its map of path to hash and size equals that of the other file entries |
| Backup.DescribeFiles | apps/ts3-manager/src/system/backupEngine.ts:363-376 | the loop describes the files in order, named relative to the root as the program cuts the text, or stops at the first that cannot be described |
| Backup.CreateBackupArchive | apps/ts3-manager/src/system/backupEngine.ts:346-403 | collecting, describing, sorting and writing give the specified backup or error |
| Restore.RestoresAll | apps/ts3-manager/src/system/backupEngine.ts:497-524 | restoring flat entries into clear places succeeds, lists them in order and changes the files of the disk by exactly those entries |
| Restore.BackupThenRestore | apps/ts3-manager/src/system/backupEngine.ts:346-524 | a backup of any root but "/", restored into a target free of conflicts, succeeds, lists exactly the manifest's paths, puts every collected file at its place with the same bytes and permission bits, and changes no other file |
| Restore.RestoredIffConflictFree | apps/ts3-manager/src/system/backupEngine.ts:346-524 | such a backup is restored completely if and only if nothing in the target stands in the way of any collected file |
| Restore.RestoresIff | apps/ts3-manager/src/system/backupEngine.ts:497-524 | entries whose paths do not lead through one another are all restored if and only if nothing stands in the way of any |
| Restore.UnfitBackupRefused | apps/ts3-manager/src/system/backupEngine.ts:472-484 | a created backup that reads back, but whose manifest exceeds 1 MiB, lists the manifest's name, a path twice or a wrong hash, is refused and nothing on the disk changes |
| ForeignBackups.RestoreGuards | apps/ts3-manager/src/system/backupEngine.ts:472-494 | for every archive, disk and options: a target outside the allowed root, a bad archive, a dry run, a missing force and a blocked target each get exactly their answer, a dry run is ok if and only if the archive is good and the target exists and is writable, and in all these cases the disk is unchanged |
| ForeignBackups.GoodIff | apps/ts3-manager/src/system/backupEngine.ts:405-470 | any archive, whoever made it, passes inspection if and only if it reads to its end, names no file twice and holds a manifest within its limit that lists exactly the other files, each once, by name, size and hash |
| ForeignBackups.GoodBackupRestored | apps/ts3-manager/src/system/backupEngine.ts:472-524 | a forced restore of any good backup is complete if and only if no file of it leads through another and nothing on the disk stands in the way; it then changes exactly those files |
| ForeignBackups.ChangesOnlyFrom | apps/ts3-manager/src/system/backupEngine.ts:497-524 | even a restore that stops half-way has put nothing on the disk but the first entries, in order, at their places with their bytes and permission bits, and removed nothing |
| ForeignBackups.AllRestoredIff | apps/ts3-manager/src/system/backupEngine.ts:497-524 | entries of distinct names are all restored if and only if nothing stands in the way of any, on the disk or among themselves |
| ForeignBackups.SafeNameStaysBelow | apps/ts3-manager/src/system/backupEngine.ts:137-141 | a name is safe if and only if it has no backslash and no drive and joins to any target as its parts one below the other; it then leads strictly below the target |
| ForeignBackups.PermissionBitsOnly | apps/ts3-manager/src/system/backupEngine.ts:514-515 | a restored file has the bytes of its entry and only the nine permission bits of its mode |
| BackupExample.PlainIsSound | apps/ts3-manager/src/system/backupEngine.ts:346-470 | the assumptions on hashing, JSON and sorting can be met together: an environment that meets them |
| BackupExample.OneFileRestored | apps/ts3-manager/src/system/backupEngine.ts:346-524 | in that environment a backup of one file is created and its restore onto an empty disk puts exactly that file there |
| BackupExample.OneFileBelowSlashRefused | apps/ts3-manager/src/system/backupEngine.ts:363-367 | the file "/a", backed up from the root "/" with include ".", loses its whole name and is refused as unsafe |
| Restore.PlacedIsExact | apps/ts3-manager/src/system/backupEngine.ts:497-524 | the files placed are exactly the collected ones |
| Restore.Disk.MakeDirectories | apps/ts3-manager/src/system/backupEngine.ts:509 | creates every missing parent directory, or fails where a file stands in the way |
| Restore.Disk.WriteFile | apps/ts3-manager/src/system/backupEngine.ts:510-511 | one file is written, or nothing is, where a directory stands |
| Restore.Disk.RestoreEntry | apps/ts3-manager/src/system/backupEngine.ts:498-513 | one entry is put in its place below the target, and the manifest is skipped |
| Restore.RestoreEntries | apps/ts3-manager/src/system/backupEngine.ts:495-515 | the restoring loop restores entries in order up to the first failure |
| Restore.RestoreBackupArchive | apps/ts3-manager/src/system/backupEngine.ts:472-524 | checks of the target, inspection, dry run and force, then the second reading and its restore, give the specified result and files on every cut of both readings into chunks; without force, in a dry run, outside the allowed root or for a bad archive the disk is as it was |
| Escape.EscapeIsEach | apps/ts3-manager/src/ts3/escape.ts:1-14 | the eleven sequential replacements equal one substitution per character, on every string |
| Escape.UnescapeEscape | apps/ts3-manager/src/ts3/escape.ts:1-43 | unescaping undoes escaping on every string |
| Escape.EscapedIsClean | apps/ts3-manager/src/ts3/escape.ts:1-14 | no space, bar or control character of the escaped set is left, and the length at most doubles |
| Escape.UnescapeQueryValue | apps/ts3-manager/src/ts3/escape.ts:16-43 | the index loop computes the one-pass unescaping |
| Escape.ParseKeyValueLine | apps/ts3-manager/src/ts3/escape.ts:49-82 | the tokenizing loop computes the specified scan, escapes kept raw until a field ends |
| Escape.ParsePrinted | apps/ts3-manager/src/ts3/escape.ts:49-82 | parsing escaped key=value fields joined by spaces assigns them in order, on every list of fields with valid keys and any values, empty ones and ones containing `=` included |
| Escape.RawField | apps/ts3-manager/src/ts3/escape.ts:49-82 | in a line of any origin a key runs to the first `=`, spaces and all, and its value from there to the next space, further `=` and all; at the end of the line a field without both is none |
| Escape.RawKey | apps/ts3-manager/src/ts3/escape.ts:49-82 | a line without any `=` is one key without a value |
| Escape.AssignedHolds | apps/ts3-manager/src/ts3/escape.ts:49-82 | with distinct keys, every field is recovered and nothing else if and only if none is named `__proto__` |
| QueryProtocol.BuildCommand | apps/ts3-manager/src/ts3/serverQueryProtocol.ts:32-45 | accepts exactly valid names and keys and then returns the escaped line ending in a newline; otherwise names the first bad key |
| QueryProtocol.CommandIsOneLine | apps/ts3-manager/src/ts3/serverQueryProtocol.ts:32-45 | an accepted command has no newline before its last character and exactly one space per parameter |
| QueryProtocol.CommandRoundTrip | apps/ts3-manager/src/ts3/serverQueryProtocol.ts:32-45 | parsing the part after the name recovers the rendered parameters if and only if none is named `__proto__` |
| QueryProtocol.ParamsReadBack | apps/ts3-manager/src/ts3/serverQueryProtocol.ts:37-44 | the server then reads a text as it was, a flag as 1 or 0 and a number as its digits |
| QueryProtocol.NameIff | apps/ts3-manager/src/ts3/serverQueryProtocol.ts:33 | a command name is a key that starts with a letter and has no upper-case letter |
| QueryProtocol.AfterErrorIff | apps/ts3-manager/src/ts3/serverQueryProtocol.ts:48 | of an error line exactly the word and all white space after it go |
| QueryProtocol.ParseErrorLine | apps/ts3-manager/src/ts3/serverQueryProtocol.ts:47-58 | the loop over the parameters computes id, message and the further fields, which `QueryRoundTrip.ExtraKept` pins down |
| QueryProtocol.ParseNotification | apps/ts3-manager/src/ts3/serverQueryProtocol.ts:80-86 | the event is the text before the first space, its parameters the rest |
| QueryProtocol.ParseEntries | apps/ts3-manager/src/ts3/serverQueryProtocol.ts:87-89 | one record per bar-separated part, in order |
| QueryProtocol.ParseRawResponse | apps/ts3-manager/src/ts3/serverQueryProtocol.ts:65-96 | the loop over the lines computes the specified response, or none when no error line ends it |
| QueryRoundTrip.ErrorReadsBack | apps/ts3-manager/src/ts3/serverQueryProtocol.ts:47-58 | an error line with any further fields of distinct valid names parses to its id, its message and the further fields |
| QueryRoundTrip.ExtraKept | apps/ts3-manager/src/ts3/serverQueryProtocol.ts:47-58 | of the further fields the parsed error holds exactly those not named `__proto__` |
| QueryRoundTrip.ResponseReadsBack | apps/ts3-manager/src/ts3/serverQueryProtocol.ts:65-96 | what any printed response of data lines and notifications in any order, an error line with any further fields and whatever text after it parses to: everything in order up to the error line, with a trailing bare Unicode blank trimmed from the last value of each line, and a data line whose first key starts with `notify` taken for a notification |
| QueryRoundTrip.ResponseRoundTrip | apps/ts3-manager/src/ts3/serverQueryProtocol.ts:65-96 | records, notifications and the error with all its fields are recovered exactly if and only if no data line starts with a key that starts with `notify`, no key is `__proto__`, and no line ends in a blank that is not escaped |
| ConnectionRuns.RunKeeps | apps/ts3-manager/src/ts3/serverQueryConnection.ts:144-239 | every run of data, commands, timeouts, errors and closing keeps the queue in order, what was written a prefix of what was enqueued and at most one command ahead of the answers, every answer faithful, and the head alone armed |
| ConnectionRuns.ParsingNeverFails | apps/ts3-manager/src/ts3/serverQueryConnection.ts:203-215 | what an error line hands to the response parser always parses, to the gathered entries and that error |
| ConnectionRuns.NoQueueStall | apps/ts3-manager/src/ts3/serverQueryConnection.ts:144-239 | in every reachable state with a live socket and a waiting queue the head has been written, is the only command unanswered, and its timer is armed |
| ConnectionRuns.AnswersInOrder | apps/ts3-manager/src/ts3/serverQueryConnection.ts:195-239 | the i-th settlement is for the i-th command; if resolved, that command was written before the error line that answers it and after the previous answer, and its entries are exactly those of the data lines since the previous error line |
| ConnectionRuns.LineDoes | apps/ts3-manager/src/ts3/serverQueryConnection.ts:195-226 | in every state a run leads to with the connection up, an error line answers the command that waits with what was gathered since the last one and writes the next, a data line is gathered, a notification passed on, and nothing else happens |
| ConnectionRuns.RequestDoes | apps/ts3-manager/src/ts3/serverQueryConnection.ts:144-164 | a request joins the queue and is written at once exactly if it is alone on a live socket |
| ConnectionRuns.SettledForGood | apps/ts3-manager/src/ts3/serverQueryConnection.ts:220-239 | no later event changes a settlement, a write, a notification or a line handled |
| ConnectionRuns.NothingLeftWaiting | apps/ts3-manager/src/ts3/serverQueryConnection.ts:95-98 | when the socket closes every command enqueued so far has settled |
| ConnectionRuns.RejectedFor | apps/ts3-manager/src/ts3/serverQueryConnection.ts:95-103 | in every run a command is rejected only while it waits, by its timer running out, a socket error or the closing of the socket, and for that reason; never for an answer that could not be parsed |
| ConnectionRuns.ReasonRejectsAll | apps/ts3-manager/src/ts3/serverQueryConnection.ts:159-162 | such an event rejects everything that waits, in order and for its reason, writes nothing and leaves no live socket |
| ConnectionRuns.NothingRejected | apps/ts3-manager/src/ts3/serverQueryConnection.ts:166-178 | closing settles nothing and takes leave of a live socket; a connect timer only ends a handshake; a timer of an unarmed head does nothing |
| ConnectionChunks.ChunkIndependence | apps/ts3-manager/src/ts3/serverQueryConnection.ts:105-141 | however a text is cut into chunks, across the handover from the handshake to the command phase, the connection ends in the same state |
| ConnectionChunks.PumpTakesLines | apps/ts3-manager/src/ts3/serverQueryConnection.ts:185-193 | exactly the non-empty trimmed complete lines are handled, each once and in order, and the unfinished tail is kept |
| ConnectionChunks.HandshakeSucceeds | apps/ts3-manager/src/ts3/serverQueryConnection.ts:105-139 | the handshake succeeds if and only if the lines start with the banner, any number of welcome lines and two error lines of id 0; login and use are then written once each and later lines go to the command phase |
| ConnectionChunks.ConnectedByItsLines | apps/ts3-manager/src/ts3/serverQueryConnection.ts:68-193 | on any cut of any text the connection is up if and only if its lines start with a good handshake, and its state is the one those lines alone lead to |
| QueryConnection.IndexOfNewline | apps/ts3-manager/src/ts3/serverQueryConnection.ts:187 | the first newline, or -1 if there is none |
| QueryConnection.ServerQueryConnection.SendHead | apps/ts3-manager/src/ts3/serverQueryConnection.ts:156-164 | arms the head and writes it, if there are a head and a socket |
| QueryConnection.ServerQueryConnection.SettleHead | apps/ts3-manager/src/ts3/serverQueryConnection.ts:220-226 | the head is resolved with the response and the next command sent |
| QueryConnection.ServerQueryConnection.RejectHead | apps/ts3-manager/src/ts3/serverQueryConnection.ts:228-233 | the head is rejected and nothing is sent |
| QueryConnection.ServerQueryConnection.FailAll | apps/ts3-manager/src/ts3/serverQueryConnection.ts:235-239 | the loop rejects the whole queue in order |
| QueryConnection.ServerQueryConnection.HandleLine | apps/ts3-manager/src/ts3/serverQueryConnection.ts:195-218 | a line is a notification, data or the end of an answer |
| QueryConnection.ServerQueryConnection.TakeLine | apps/ts3-manager/src/ts3/serverQueryConnection.ts:188-191 | one complete line is taken from the buffer and handled, an empty one skipped |
| QueryConnection.ServerQueryConnection.ProcessBuffer | apps/ts3-manager/src/ts3/serverQueryConnection.ts:185-193 | the loop over the buffer takes every complete line |
| QueryConnection.ServerQueryConnection.OnData | apps/ts3-manager/src/ts3/serverQueryConnection.ts:180-183 | text is appended and its complete lines taken |
| QueryConnection.ServerQueryConnection.SettleWithError | apps/ts3-manager/src/ts3/serverQueryConnection.ts:78-86 | an open handshake fails and destroys the socket; a settled one stays |
| QueryConnection.ServerQueryConnection.Settle | apps/ts3-manager/src/ts3/serverQueryConnection.ts:87-92 | the text left by the handshake is handed over and its lines processed |
| QueryConnection.ServerQueryConnection.HandshakeLine | apps/ts3-manager/src/ts3/serverQueryConnection.ts:113-137 | one handshake line, branch by branch |
| QueryConnection.ServerQueryConnection.Handshake | apps/ts3-manager/src/ts3/serverQueryConnection.ts:105-139 | the handshake loop on a chunk |
| QueryConnection.ServerQueryConnection.OnChunk | apps/ts3-manager/src/ts3/serverQueryConnection.ts:105-183 | a chunk goes to the handshake or to the command phase, and nowhere once the socket is destroyed |
| QueryConnection.ServerQueryConnection.Command | apps/ts3-manager/src/ts3/serverQueryConnection.ts:144-154 | an accepted command joins the queue and is sent if alone; a refused one changes nothing |
| QueryConnection.ServerQueryConnection.OnConnectTimeout | apps/ts3-manager/src/ts3/serverQueryConnection.ts:74-76 | the connect timer fires |
| QueryConnection.ServerQueryConnection.OnCommandTimeout | apps/ts3-manager/src/ts3/serverQueryConnection.ts:159-162 | the head's timer fires: the queue fails and the socket is destroyed |
| QueryConnection.ServerQueryConnection.OnSocketError | apps/ts3-manager/src/ts3/serverQueryConnection.ts:95-99 | a socket error fails the handshake and the queue |
| QueryConnection.ServerQueryConnection.OnSocketClose | apps/ts3-manager/src/ts3/serverQueryConnection.ts:100-103 | a closed socket fails the queue |
| QueryConnection.ServerQueryConnection.Close | apps/ts3-manager/src/ts3/serverQueryConnection.ts:166-178 | quit is written to a live socket, which is then destroyed and let go |
| NonceStore.StoreIsWindow | apps/ts3-manager/src/security/nonceStore.ts:11-26 | with a clock that does not go back, what the store holds unexpired at any later moment is exactly the unexpired part of the newest accepted nonces, in order, and never more than its capacity |
| NonceStore.StoreIsExactlyWindow | apps/ts3-manager/src/security/nonceStore.ts:11-26 | after a call, with a positive lifetime, the store holds that window and nothing else |
| NonceStore.AcceptedIff | apps/ts3-manager/src/security/nonceStore.ts:11-20 | a nonce is accepted if and only if none of the newest accepted ones, within the capacity, has it and is still alive |
| NonceStore.RepeatsAreApart | apps/ts3-manager/src/security/nonceStore.ts:11-20 | within the capacity two acceptances of one nonce are at least a lifetime apart |
| NonceStore.AdmittedIff | apps/ts3-manager/src/agent/server.ts:187-197 | a request passes the timestamp and nonce checks if and only if it is within the permitted skew and its nonce is not alive in the store |
| NonceStore.ReplayOnlyAtTheEnds | apps/ts3-manager/src/agent/server.ts:187-197 | two admitted requests with the same timestamp and nonce, within the capacity, are exactly twice the skew apart, one at each end of the window |
| NonceStore.ReplayAdmittedIff | apps/ts3-manager/src/agent/server.ts:187-197 | within the capacity, a repeat of the latest admitted request with its nonce, with its timestamp too, is admitted if and only if the two come at the two ends of their window |
| NonceStore.ReplayAtTheEnds | apps/ts3-manager/src/agent/server.ts:187-197 | for every skew such a pair is admitted: the entry expires at the very moment the window still admits the second request |
| NonceStore.ReplayPastCapacity | apps/ts3-manager/src/security/nonceStore.ts:14-17 | beyond the capacity a nonce is forgotten at once and admitted again at the same moment |
| NonceStore.NonceStore.Prune | apps/ts3-manager/src/security/nonceStore.ts:22-26 | the loop deletes exactly the expired entries and keeps the order |
| NonceStore.NonceStore.CheckAndStore | apps/ts3-manager/src/security/nonceStore.ts:11-20 | the answer and the whole new content, and that nonces stay distinct |
| NonceStore.CheckReplay | apps/ts3-manager/src/agent/server.ts:187-197 | a request outside the window never touches the store; one inside is decided by it |
| RateLimit.TokensBounded | apps/ts3-manager/src/security/rateLimit.ts:16-30 | a key's tokens stay between 0 and the capacity, whatever the clock does |
| RateLimit.GrantsBounded | apps/ts3-manager/src/security/rateLimit.ts:16-30 | with a clock that does not go back, the calls of a key granted in any stretch of a run number at most the capacity plus what the stretch's duration earns |
| RateLimit.KeysAreIndependent | apps/ts3-manager/src/security/rateLimit.ts:16-30 | the answers to a key, and its bucket, are those of the run restricted to that key |
| RateLimit.SteadyCallerServed | apps/ts3-manager/src/security/rateLimit.ts:16-30 | a key calling no faster than the refill is never refused |
| RateLimit.GrantsBoundedForAnyClock | apps/ts3-manager/src/security/rateLimit.ts:16-30 | whatever the clock does, the calls of a key granted in any stretch of a run number at most the capacity plus what the time passing forwards between that key's own calls earns |
| RateLimit.GrantedIff | apps/ts3-manager/src/security/rateLimit.ts:16-30 | and nothing is refused without need: whatever the clock does, a call is granted if and only if that breaks this bound in no stretch of its key's calls |
| RateLimit.ElapsedBoundIffInOrder | apps/ts3-manager/src/security/rateLimit.ts:16-30 | for the calls of a key, the bound by the time elapsed holds for all limits if and only if the clock never goes back between them |
| RateLimit.ClockGoingBackBreaksTheBound | apps/ts3-manager/src/security/rateLimit.ts:22-24 | for any calls of a key between which the clock goes back there are limits under which more is granted than the time elapsed allows |
| RateLimit.TokenBucketLimiter.Consume | apps/ts3-manager/src/security/rateLimit.ts:16-30 | the answer and the new buckets of one call |
| RateLimit.TokenBucketLimiter.Reset | apps/ts3-manager/src/security/rateLimit.ts:32-34 | the limiter is as at the start of a run |
| Pairing.EachCodePairsOnce | apps/ts3-manager/src/agent/handlers.ts:253-277 | however requests and commands overlap, every credential is handed out for a code issued at most fifteen minutes before, and no two for one awaited code |
| Pairing.OldCredentialsAreDead | apps/ts3-manager/src/agent/handlers.ts:253-309 | no credential but the one handed out last is ever the agent's |
| Pairing.HandledIsSigned | apps/ts3-manager/src/agent/server.ts:109-211 | whatever a handler carries out in any run was asked for by a request signed with the credential the agent had when the request was received, or with the unexpired, unused code it awaited then |
| Pairing.ReplacedCredentialIsUseless | apps/ts3-manager/src/agent/server.ts:163-211 | so a request that is carried out, other than a pairing, was signed with the credential handed out last before it was received |
| Pairing.OnlyWritesChange | apps/ts3-manager/src/agent/server.ts:109-211 | a request whose signature is not that of the configuration it loaded is merely gone, and nothing but a write touches the configuration or hands out anything |
| Pairing.WritesDo | apps/ts3-manager/src/agent/handlers.ts:253-309 | what each write does to the configuration and to the record of codes issued and credentials handed out, whatever came between decision and write |
| Pairing.DecidedIff | apps/ts3-manager/src/cli/commands/api.ts:79-162 | what each command is allowed by the configuration it began with |
| Pairing.ExclusiveIffNotOvertaken | apps/ts3-manager/src/cli/commands/api.ts:79-146 | no state of a run has both a credential and an awaited pairing if and only if no command or request, deciding earlier and writing later, enables an agent paired meanwhile or rotates the credential of one that has come to await pairing |
| Pairing.AtomicCommandsAreSafe | apps/ts3-manager/src/agent/server.ts:95-141 | with commands done at once and none between a request's check and its write, whatever the requests do between loading the configuration and using it: never both a credential and an awaited pairing, and every credential goes to the code awaited at that moment |
| Pairing.OneCredentialPerCode | apps/ts3-manager/src/agent/handlers.ts:253-277 | with commands done so, each code yields at most one credential |
| Pairing.SingleUseIffNeverSpent | apps/ts3-manager/src/agent/handlers.ts:253-277 | each code yields at most one credential in a run if and only if no command or request, its code awaited when it looked, writes its pairing after a credential was already handed out for that code |
| Pairing.AwaitedCodesOnlyIffNeverTooLate | apps/ts3-manager/src/agent/handlers.ts:253-277 | every credential goes to the code awaited at that moment if and only if no command or request writes its pairing after its code ceased to be awaited |
| Pairing.RevokedUntilEnabled | apps/ts3-manager/src/agent/handlers.ts:293-309 | once unpaired or disabled, and with commands done so, the agent has no credential and awaits no code until it is enabled again, whatever requests were under way |
| Pairing.OvertakenCommandPairsAgain | apps/ts3-manager/src/cli/commands/api.ts:118-133 | a concrete run in which a pairing command that began earlier and a request both turn one code into a credential |
| Pairing.CommandWithinRequestPairsToo | apps/ts3-manager/src/agent/handlers.ts:253-277 | a concrete run in which a whole pairing command falls between a request's check and its write, and both do |
| Pairing.AgentState.PairHandler | apps/ts3-manager/src/agent/handlers.ts:253-277 | pairs exactly when the configuration, reloaded, still awaits the code |
| Pairing.AgentState.RotateSecretHandler | apps/ts3-manager/src/agent/handlers.ts:279-291 | replaces the credential of a paired agent only |
| Pairing.AgentState.UnpairHandler | apps/ts3-manager/src/agent/handlers.ts:293-300 | clears credential and pairing |
| Pairing.AgentState.DisableHandler | apps/ts3-manager/src/agent/handlers.ts:302-309 | clears both and disables |
| Pairing.AgentState.FinishRequest | apps/ts3-manager/src/agent/server.ts:109-136 | from the end of the body on: a request not signed as the configuration loaded before it demands, or that the one found now does not permit, is refused and changes nothing; any other changes exactly what its route says |
| Pairing.AgentState.ApiEnable | apps/ts3-manager/src/cli/commands/api.ts:79-96 | checks the configuration the command began with, writes into the one found at the end |
| Pairing.AgentState.ApiPair | apps/ts3-manager/src/cli/commands/api.ts:118-133 | likewise for pairing from the command line |
| Pairing.AgentState.ApiRotateSecret | apps/ts3-manager/src/cli/commands/api.ts:135-146 | likewise for rotating the credential |
| Pairing.AgentState.ApiUnpair | apps/ts3-manager/src/cli/commands/api.ts:148-154 | clears credential and pairing |
| Pairing.AgentState.ApiDisable | apps/ts3-manager/src/cli/commands/api.ts:156-162 | clears both and disables |
| CodeTokens.FoundIffMaximalRun | apps/ts3-manager/src/identity/verifier.ts:150-159 | a code is found in a text if and only if it stands there as a maximal run of six to sixty-four letters and digits |
| CodeTokens.TokensInOrder | apps/ts3-manager/src/identity/verifier.ts:150-159 | the codes are listed in the order in which they stand, once for each place, and no place is left out |
| CodeTokens.FindCodes | apps/ts3-manager/src/identity/verifier.ts:150-159 | the loop finds exactly those runs, in order |
| ChallengeStore.ChallengeStore.Register | apps/ts3-manager/src/identity/challengeStore.ts:28-30 | the challenge is stored under its hash |
| ChallengeStore.ChallengeStore.FindActive | apps/ts3-manager/src/identity/challengeStore.ts:36-42 | found exactly when stored, not consumed and not expired |
| ChallengeStore.ChallengeStore.MarkConsumed | apps/ts3-manager/src/identity/challengeStore.ts:44-47 | only the flag of that challenge changes |
| ChallengeStore.ChallengeStore.MarkDelivered | apps/ts3-manager/src/identity/challengeStore.ts:49-52 | only the flag of that challenge changes |
| ChallengeStore.ChallengeStore.Prune | apps/ts3-manager/src/identity/challengeStore.ts:54-58 | exactly the expired challenges go |
| Verifier.NotifiedAtMostOnce | apps/ts3-manager/src/identity/verifier.ts:60-103 | however cycles overlap, a registered challenge triggers at most one webhook |
| Verifier.AttemptsBounded | apps/ts3-manager/src/identity/verifier.ts:74-79 | attempts never exceed the limit by more than one, and only a consumed challenge exceeds it |
| Verifier.AttemptsAreCounted | apps/ts3-manager/src/identity/verifier.ts:60-99 | in every run the attempts of a stored challenge are exactly the times a player was seen showing its code first by a cycle that might still find something, and it is consumed if and only if it was sent out or tried more often than permitted |
| Verifier.AttemptOutcome | apps/ts3-manager/src/identity/verifier.ts:60-99 | each such attempt counts for that challenge alone; within the limit, and of a client with a unique identifier, it sends a finding and marks the challenge |
| Verifier.NoAttempt | apps/ts3-manager/src/identity/verifier.ts:60-79 | a look that is no such attempt changes nothing |
| Verifier.CandidatesAreShown | apps/ts3-manager/src/identity/verifier.ts:123-147 | a code is a candidate if and only if it stands as a maximal run in the nickname, description or away message, whichever fields are permitted |
| Verifier.AnswerOutcome | apps/ts3-manager/src/identity/verifier.ts:88-99 | an accepted webhook is a delivered result and marks the challenge, a network error a result not delivered, any other error ends the cycle |
| Verifier.BeginOutcome | apps/ts3-manager/src/identity/verifier.ts:44-45 | a cycle begins by forgetting exactly the expired challenges |
| Verifier.ResultsBounded | apps/ts3-manager/src/identity/verifier.ts:58-103 | each cycle returns at most its permitted number of results, for distinct challenges that were all sent out |
| Verifier.MarksAreTrue | apps/ts3-manager/src/identity/verifier.ts:87-99 | a stored challenge is marked verified if and only if a webhook was sent for it, and delivered only then |
| Verifier.RunKeeps | apps/ts3-manager/src/identity/verifier.ts:44-104 | the invariant behind these, over every interleaving of cycles |
| Verifier.ExtractCandidates | apps/ts3-manager/src/identity/verifier.ts:123-147 | the loop over the fields gathers the codes of the texts in order |
| Verifier.Examine | apps/ts3-manager/src/identity/verifier.ts:61-96 | one turn with a client: the new store and the finding sent out, if any |
| IdentityMapping.Mappings.Set | plugins/ts3pilot-wp/src/Identity/Mapping.php:52-58 | the fields given replace those of the user's mapping, an unknown status is dropped, and other users keep theirs |
| IdentityMapping.LegacyUntilWritten | plugins/ts3pilot-wp/src/Identity/Mapping.php:26-47 | a record under the former key counts until the first write and not after, and a user with neither is unbound |
| IdentityMapping.Mappings.MarkVerified | plugins/ts3pilot-wp/src/Identity/Mapping.php:60-72 | the user is verified with the sanitized identity |
| Identity.VerifiedMeansFound | plugins/ts3pilot-wp/src/Rest/AdminController.php:568-658 | in every run with lost, repeated and reordered messages and overlapping requests, a user newly verified is known to the plugin and has the sanitized identity of a client that its own node reported and some cycle, begun no later than the expiry sent, saw showing a code with the hash of one issued to that user |
| Identity.VerifiedMeansCodeShown | plugins/ts3pilot-wp/src/Rest/AdminController.php:568-658 | and, unless two codes of the run have one hash, the code shown is the very code issued to that user |
| Identity.ReportedOnce | apps/ts3-manager/src/identity/verifier.ts:44-104 | in the whole system, too, no challenge is reported twice |
| Identity.StaysIffNeverOvertaken | plugins/ts3pilot-wp/src/Rest/AdminController.php:643-655 | a verified identity never changes in a run if and only if no request writes for a user who has been verified, otherwise, since it looked |
| Identity.VerifiedForGood | plugins/ts3pilot-wp/src/Rest/AdminController.php:643-655 | and then whoever was verified at some moment has the same identity at every later one |
| Identity.AtOnceIsStable | plugins/ts3pilot-wp/src/Rest/AdminController.php:615-658 | with requests nothing comes between, repeated and reordered callbacks never change a verified identity |
| Identity.SettledUntouched | plugins/ts3pilot-wp/src/Rest/AdminController.php:573-580 | and no request touches the mapping of a user who is verified, revoked or of unknown status |
| Identity.JudgedIff | plugins/ts3pilot-wp/src/Rest/AdminController.php:633-650 | a report leads to a verification if and only if it comes from the configured node, if any, about a known user whose mapping is open, with an identifier of 1 to 128 bytes |
| Identity.RequestsBeginOpen | plugins/ts3pilot-wp/src/Rest/AdminController.php:573-650 | in every run each request under way began with an open mapping, of a user asking for a code not drawn before or of one a trusted report is about |
| Identity.UninterruptedIsAtOnce | plugins/ts3pilot-wp/src/Rest/AdminController.php:568-658 | a request whose steps nothing comes between does what it does at once |
| Identity.AtOnceDoes | plugins/ts3pilot-wp/src/Rest/AdminController.php:576-655 | at once, a user with an open mapping who asks is pending with a code to register, a trusted report about one verifies it with the reported identity, and nobody else's mapping changes |
| Identity.CodesDrawnOnce | plugins/ts3pilot-wp/src/Rest/AdminController.php:576-592 | in every run no two codes handed to the agent have one hash, and each belongs to a user |
| Identity.LateChallengeUndoesVerification | plugins/ts3pilot-wp/src/Rest/AdminController.php:577-589 | a concrete run in which a request for a code, overtaken by a callback, sets a verified user back to pending |
| Identity.IdentityMeChallenge | plugins/ts3pilot-wp/src/Rest/AdminController.php:568-613 | an open mapping becomes pending, keeps all else, and the code is registered for ten minutes; 401 or 409 for exactly its condition otherwise, and no change |
| Identity.IdentityCallback | plugins/ts3pilot-wp/src/Rest/AdminController.php:629-658 | 400, 403, 404, 409 and 200 each for exactly its condition; the whole new mapping of the user if it is verified, no change otherwise, and never of another mapping |

## Left out

- gzip (RFC 1952), Node streams, backpressure and temporary files: compression is the identity and a stream is a list of byte chunks.
- SHA-256, HMAC, random codes and JSON: uninterpreted functions and fresh values; a hash has 64 lower-case hex digits and decoding an encoded manifest gives it back, empty text is not JSON, and sorting only reorders (`Backup.Sound`).
- Names of archive entries are UTF-8 byte strings; decoding malformed UTF-8 is not modelled. Numeric header fields are ASCII: Unicode blanks in a foreign header are not trimmed.
- The SHA-256 exposed by the reader after each entry: it is the hash of the body that is proved to be delivered.
- Backup.CreatedIsGood: says nothing of the inspection of a backup whose encoded manifest exceeds `MAX_FILE_SIZE`, which does not read back as written; no JavaScript string is that long.
- Restore.RestoreBackupArchive: states the files of the disk in every case and its directories only for a restore that succeeds, because directories made before a failure are left behind.
- Restore.BackupThenRestore: assumes a file does not change between its measuring and its copying, and a target free of conflicts.
- A file cut short by a body that ends early, permissions of directories, and symbolic links found in the restore target or as an intermediate part of an include path: the disk is a map from path to bytes and mode.
- The order in which a directory is listed is given, as the program sorts it; the manifest's other fields (node, version, time) are carried by its encoding.
- Query text is decoded text cut at character boundaries, because each chunk is decoded on its own.
- One connection from its opened socket on: connecting again after a close is not modelled, though data lines gathered before a close would then carry over. Promises are settlements, timers are events, and a notification handler does not call back into the connection.
- QueryConnection.ServerQueryConnection.Command: models a command from the moment the connection is up; waiting for it is not modelled.
- The `webquery` and mock clients, SSH transport and command results beyond their raw response.
- RateLimit.GrantsBounded: over real numbers; rounding of floating-point tokens is not modelled.
- NonceStore.AdmittedIff: one reading of the clock per request and exact division by 1000; the signature, checked after the nonce is stored, is not part of it.
- HTTP parsing, body limits, routes and capabilities: a request is known by the secret its signature was made with, if it has a signature that is in time and not seen before.
- Configuration schema validation and the atomic file replacement: the last reading, changing and writing of the configuration in a command or handler is one step (`Pairing`); what is decided on before it is not.
- Pairing.EachCodePairsOnce: assumes that no code is drawn twice.
- Verifier.NotifiedAtMostOnce: assumes that each code hash is registered at most once, as the delivery mark is looked up by hash.
- Fetching the client list and its failures: a cycle looks at any clients, in any order, with any texts.
- Backup.CreateBackupArchive: at the root "/", a cut name that leads to a directory, a link or a special file counts as not found.
- Identity.VerifiedMeansFound: a client's unique identifier comes from the client list and its description and away message from a later request by client id; that the id was not given to another client in between is assumed. No administrator edits the mapping, the callback's signature is genuine, lengths are counted on byte strings, and the storing of one mapping record is one step.
- The plugin's other pages, the audit log, node registry and its legacy migration, installer, self-update, doctor, text interface, log tailing and the older directory copy of `apps/ts3-manager/src/services/backup.ts`: orchestration or easy members.
