# Zone editing in goddns: a verified model

goddns edits DNS zones in two ways. A static zone is edited as text: one record's line is removed or
added, the SOA serial is rewritten in place, and every other byte stays. A dynamic zone is edited by
sending one UPDATE message, after a snapshot that can undo it. Both ways promise that an edit changes
exactly what was asked, can be undone, and never loses anyone else's change. This project models that
promise and proves it, with the hypotheses it really needs; beside it, it models the stateful components
around the edits: the request limiter, the login throttle, the traffic flusher, the reload loop and the
TSIG keyring.

`dafny verify dfyconfig.toml` checks the whole project.

## How the modules fit

- **Text of a zone.** `Text` (splitting, decimal numbers, case), `Tokenizer` (`scanLine` and
  `tokenizeEntries`), `Resolver` (what a zone text means: owner, class and TTL inheritance of section 5.1
  of RFC 1035 and section 4 of RFC 2308, record data opaque), `ZoneFile` (`Parse`, `canDelete`, `Edit`,
  `SerialFloor`).
- **An edit as a change of text.** `Rescan` (a token replaced by digits rescans to the same entry),
  `Printing` (a printed record scans and resolves to itself), `Surgery` (dropping and adding lines drops
  and adds entries), `Preservation` (what resolving makes of that), `EditTheorem` (meaning preservation),
  `EditClosure` (the output opens again), `EditExact` (the hypotheses are exact), `Sessions` (edit after
  edit, as edits of the records), `EditSelects` (which records each operation takes and adds), `EditLayout`
  (what is refused and accepted, and where additions go), `Samples` and `Limits` (whole files the editor accepts on which the promise
  fails, and one on which every hypothesis holds), `Serial`.
- **Writing a static zone.** `ZoneContent` (the bytes `Apply` and `ReplaceRaw` write), `Retention`
  (keeping the newest), `FileZone` (the locked pipeline with an outside editor, as interleaved steps),
  `FileZoneSerial` (serial growth over runs), `Backups` (which backups stay), `Progress` (the pipeline never
  gets stuck, and settles every rename).
- **A dynamic zone.** `Update` (section 3.4.2 of RFC 2136), `Restore`, `DomainNames` and `Ownership` (names as
  labels), `Sorting`, `RecordMut`, `RestoreScope` (which record types a restore touches), `Preview`, `Undo` (snapshots over whole runs), `CanonicalForm`.
- **Around them.** `Limiter`, `ProxyTable`, `Throttle`, `Traffic`, `Reload`, `Keyring`.

Code that updates state is a class or a method with loops, proved against a function of the old state;
the theorems are about those functions. Theorems over runs are about `Step` and `Run` functions in which
steps of any number of participants interleave and may fail.

## What does not hold as it stands

Each of these is a lemma with a concrete input or an exact condition; the code is modelled as it is.

- A `$TTL` anywhere in the file counts as a default for every record (internal/zonefile/zonefile.go:76-77),
  so an accepted deletion can strand a TTL taken from the deleted record: `Limits.LateTtlStrands` (a whole
  file and edit), with the TTL before and after in `Limits.TtlAfterDeletion`. The exact condition
  on an edit is `KeepsTtls`; `EditClosure.BenignKeepsTtls` gives a condition on the file alone.
- A type written TYPE1, with data in the form of RFC 3597, hides from `hasExplicitTTL` that no TTL is stated:
  `Limits.GenericTypeHidesTtl`.
- An owner spelled `soa` makes `locateSerial` rewrite another datum of the SOA when both read the same
  number: `Limits.SoaOwnerMisleads`; `Preservation.SerialTokenExact` has the exact condition, and
  `EditExact.EditMeansIntended` carries it to the edit.
- `Edit` accepts an added SOA, which then is the one that counts: `EditClosure.EditCloses`, and
  `Limits.AddedSoaCounts` for a file and an SOA.
- The next serial is larger exactly below 2^32-1 (`Serial.NextSerialGrows`), and advances in the sense of
  RFC 1982 for every serial exactly while the date is at most in 2147 (`Serial.DatesThatAdvance`).
- A new backup is pruned at once if the clock has stepped back far enough: `Retention.AddedStays`.
- A restore is exact if and only if live and snapshot share an apex NS (or live has none) and the additions
  conflict with no CNAME of the snapshot: `Restore.RestoreExact`; `Restore.DisjointNsStays` is a failing input.
- A record of a type without a mnemonic, printed in the form of RFC 3597, keeps its header in its key, so a
  TTL-only difference is restored, unlike what internal/recordmut/recordmut.go:342 says:
  `RecordMut.TtlOnlyRestored` for two records, `RecordMut.GenericReplanned` for any, and
  `RecordMut.FaithfulExactly` for when keys identify what the server does.
- A preview lists apex SOA and NS records that the server will keep: `Preview.PreviewExact`, and
  `Preview.ApexPreviewOverstates` for an input.
- An outside save is overwritten in exactly two windows, and both are real: `FileZone.WindowsAreReal`.

## Model

| member | source | states |
|---|---|---|
| Text.JoinSplitOn | internal/zonefile/zonefile.go:63-63 | splitting a text into lines and rejoining them gives the text back |
| Text.SplitJoin | internal/zonefile/zonefile.go:231-231 | splitting joined lines gives back exactly those lines |
| Text.FoldsLetters | internal/zonefile/zonefile.go:324-331 | case folding pairs the 26 letters and leaves every other character alone |
| Tokenizer.ScanLine | internal/zonefile/zonefile.go:479-521 | the scanning loop returns the tokens, net parenthesis depth and leading blank of a line |
| Tokenizer.ScanPlaces | internal/zonefile/zonefile.go:479-521 | tokens are non-empty, in bounds, in order, never touch, and hold the text under their columns |
| Tokenizer.ScanExact | internal/zonefile/zonefile.go:474-521 | a column is inside a token if and only if an independent three-mode automaton (outside, quoted, comment) puts it there |
| Tokenizer.DepthExact | internal/zonefile/zonefile.go:479-521 | the depth a line adds is its opening less its closing parentheses outside quotes and comments, as the automaton places them |
| Tokenizer.TakeRecord | internal/zonefile/zonefile.go:455-466 | a record takes further lines exactly while its parentheses are open |
| Tokenizer.NextEntry | internal/zonefile/zonefile.go:438-470 | one turn of the loop returns the entry starting on a line, and where it ends |
| Tokenizer.TokenizeEntries | internal/zonefile/zonefile.go:436-472 | the loop returns all entries of the file |
| Tokenizer.EntriesPartition | internal/zonefile/zonefile.go:436-472 | entries cover every line exactly once, in order, and each token lies on a line of its own entry |
| Tokenizer.FlattenChunks | internal/zonefile/zonefile.go:436-472 | the lines of the entries, put together, are the file's lines |
| Tokenizer.ChunkDepths | internal/zonefile/zonefile.go:436-472 | an entry that is no record is one line; a record's parentheses are open after each of its lines but the last, and closed then unless the file ends |
| Tokenizer.ChunksFlatten | internal/zonefile/zonefile.go:436-472 | regrouping the lines of complete entries finds the same entries again |
| Rescan.RewriteKeepsEntry | internal/zonefile/zonefile.go:217-231 | replacing any token but the first of a record by digits keeps the entry, its nesting and all its other tokens |
| Printing.PrintScans | internal/zonefile/zonefile.go:190-192 | a printed record is one complete line whose tokens are its fields |
| Printing.PrintResolves | internal/zonefile/zonefile.go:190-192 | a printed record reads as itself in every context, its TTL stated |
| Printing.TtlDec | internal/zonefile/zonefile.go:388-402 | a printed 32-bit TTL reads back as itself |
| ZoneFile.HasExplicitTtl | internal/zonefile/zonefile.go:358-377 | the token loop answers whether a token before the type's mnemonic looks like a TTL |
| ZoneFile.LocateSerial | internal/zonefile/zonefile.go:334-344 | the third token after the first one spelled SOA, if there is one |
| ZoneFile.LooksLikeTtlIs | internal/zonefile/zonefile.go:388-404 | a TTL is digits and unit letters, at least one a digit |
| ZoneFile.ScanDirectives | internal/zonefile/zonefile.go:71-91 | which entry takes a file out of the safe subset, the last one winning, and whether any `$TTL` occurs |
| ZoneFile.ZipRecords | internal/zonefile/zonefile.go:116-126 | records paired with their spans; the last SOA and its serial token |
| ZoneFile.Parse | internal/zonefile/zonefile.go:62-134 | the file `Parse` returns: refused, unreadable, mismatched in count or serial, or open for editing |
| ZoneFile.FindTargets | internal/zonefile/zonefile.go:267-299 | the records an operation hits, in file order; an exact delete takes the first only |
| ZoneFile.SameKeyTells | internal/zonefile/zonefile.go:324-331 | two records have one key if and only if type and owner (without case) agree, and the data; or, for a type without a mnemonic, everything printed, the TTL included |
| ZoneFile.DeleteTargets | internal/zonefile/zonefile.go:193-213 | accepted if and only if every hit passes `canDelete`, and then exactly the hits' lines are marked |
| ZoneFile.CollectOps | internal/zonefile/zonefile.go:181-215 | all operations accepted if and only if each is well formed and all hits can be deleted; additions printed in order |
| ZoneFile.Edit | internal/zonefile/zonefile.go:177-233 | succeeds exactly when accepted, and returns the input lines with one token rewritten, the marked lines gone and the printed lines added |
| ZoneFile.SerialFloor | internal/zonefile/zonefile.go:148-161 | changes the serial token only, to the successor of the larger of file and floor |
| Preservation.ResolveConcat | internal/zonefile/zonefile.go:405-418 | reading a concatenation is reading its parts, the second in the context the first leaves |
| Preservation.ReserialFile | internal/zonefile/zonefile.go:217-221 | rewriting the serial token changes that record's serial and no other record |
| Preservation.ResolveKept | internal/zonefile/zonefile.go:236-256 | dropping records whose followers name their owner yields the survivors unchanged, if and only if no survivor loses its TTL |
| Preservation.TtlsSafeAlone | internal/zonefile/zonefile.go:249-253 | without `$TTL`, dropping records each followed by a stated TTL strands none |
| Preservation.TtlsSafeLed | internal/zonefile/zonefile.go:249-253 | with `$TTL` leading the records that need it, no deletion strands a TTL |
| Preservation.ExplicitTtlSound | internal/zonefile/zonefile.go:358-377 | with types spelled by mnemonic, a yes means the reader reads a TTL there |
| Preservation.SerialTokenExact | internal/zonefile/zonefile.go:334-344 | the located word is the record's type if and only if the type is written SOA and the owner is not |
| EditTheorem.Placed | internal/zonefile/zonefile.go:217-221 | in every file open for editing the serial token lies within its line, so the rewrite is in bounds |
| EditTheorem.DeletionMarks | internal/zonefile/zonefile.go:181-215 | the marked lines are exactly the lines of the deleted records' entries |
| EditTheorem.SerialLineStays | internal/zonefile/zonefile.go:181-231 | the line the serial is on is never among the deleted lines |
| EditTheorem.EditedEntries | internal/zonefile/zonefile.go:217-231 | the output's entries are the input's with the SOA's rewritten, the deleted ones gone and the printed ones at the end |
| EditTheorem.EditPreservesMeaning | internal/zonefile/zonefile.go:177-256 | with the SOA spelled plainly, the output resolves to the survivors in order with owner, TTL, type and data unchanged, only the SOA's serial new, then the added records, if and only if no survivor loses its TTL; `EditExact.EditMeansIntended` has it without the hypothesis |
| EditExact.EditMeansIntended | internal/zonefile/zonefile.go:177-256 | for every edit that succeeds and changes the serial, the output means what was asked if and only if the SOA is spelled so that the located token is its serial, and no survivor loses its TTL |
| EditExact.EditMeansIntendedToday | internal/zonefile/zonefile.go:177-256 | the same for the serial `Edit` itself writes on any date |
| EditExact.NextSerialDiffers | internal/zonefile/zonefile.go:314-322 | on every date the serial written differs from the old one |
| EditClosure.BenignKeepsTtls | internal/zonefile/zonefile.go:236-256 | on a file with spelled types and leading (or no) `$TTL`, every accepted edit keeps every TTL |
| EditClosure.PlainFileOpens | internal/zonefile/zonefile.go:62-134 | a readable file with no refused construct and a plainly spelled last SOA opens for editing |
| EditClosure.EditCloses | internal/zonefile/zonefile.go:177-233 | the output opens for editing again; its serial is the one written, or an added SOA's |
| EditClosure.EditKeepsSound | internal/zonefile/zonefile.go:177-256 | the step of every editing session: a sound file stays sound, means what was intended and carries the new serial |
| EditSelects.RrsetDeleted | internal/zonefile/zonefile.go:277-287 | after an accepted deletion of the RRset at a name and type, no record of that name (in any case) and type is left and every other one is there, in order, unchanged but for the SOA's serial |
| EditSelects.NameDeleted | internal/zonefile/zonefile.go:289-299 | after an accepted deletion of a name no record at it is left, and every other one is there |
| EditSelects.RecordDeleted | internal/zonefile/zonefile.go:267-275 | an accepted deletion of a record takes out the first with that owner, type and data, if there is one, and nothing else |
| EditSelects.RecordAdded | internal/zonefile/zonefile.go:190-192 | an accepted addition leaves every record and puts the added one last, as given |
| EditSelects.BatchTakes | internal/zonefile/zonefile.go:181-215 | over any batch: gone are exactly the records some operation takes, each looking at the zone before the batch; the additions follow in order |
| EditLayout.DirectivesRefused | internal/zonefile/zonefile.go:71-91 | a file is refused for its directives if and only if some entry begins with $INCLUDE or $GENERATE, in any case, or with $ORIGIN after a record |
| EditLayout.LastReason | internal/zonefile/zonefile.go:71-91 | the reason given is that of the last offending entry |
| EditLayout.TtlDirectiveIs | internal/zonefile/zonefile.go:76-77 | an open file has a default TTL if and only if some entry begins with $TTL |
| EditLayout.AcceptsExactly | internal/zonefile/zonefile.go:236-256 | a batch is accepted if and only if its operations are known and the line of every record they take can go: not the SOA's, the whole record, not beginning with a blank, the next record stating its owner, and its TTL unless a $TTL does |
| EditLayout.RegularAccepts | internal/zonefile/zonefile.go:236-256 | on a file with one record a line, owner and TTL stated, every batch is accepted that does not take the SOA |
| EditLayout.AddedAtTheEnd | internal/zonefile/zonefile.go:301-312 | the bytes of an edit are those of the lines kept and then a line for each addition, ending in a newline exactly if the lines kept did |
| Sessions.IntendedIs | internal/zonefile/zonefile.go:177-256 | what an edit asks for depends on the records alone: the last SOA's serial replaced, the records hit gone, the added ones last |
| Sessions.SessionMeansEdits | internal/zonefile/zonefile.go:177-256 | over every session of accepted edits from a sound file, the text means exactly what the same edits make of the list of records, and is sound |
| Limits.LateTtlStrands | internal/zonefile/zonefile.go:76-77 | a file with `$TTL` on its last line that opens, and a deletion that `Edit` accepts, after which the text does not mean what was asked: another record took its TTL from the deleted one |
| Limits.GenericTypeHidesTtl | internal/zonefile/zonefile.go:358-377 | the same without `$TTL`, when that record's type is written TYPE1: the length of its data passes for a TTL |
| Limits.TtlAfterDeletion | internal/zonefile/zonefile.go:236-256 | what such an edited file means: the record without a TTL of its own now has the SOA's 60, where it had 300 |
| Limits.SoaOwnerMisleads | internal/zonefile/zonefile.go:334-344 | a file that opens, the cross-check passing, in which the located token is not the serial; every edit that changes the serial gives a text that does not mean what was asked |
| Limits.HypothesesMeet | internal/zonefile/zonefile.go:177-256 | a file, a deletion and an addition in one edit that meet every hypothesis of the theorems at once, and the edited text means what was asked |
| Limits.AddedSoaCounts | internal/zonefile/zonefile.go:189-192 | a sound file and an SOA that `Edit` adds, after which the open file's serial is the added one's, whatever serial was written |
| Serial.NextSerialAdvances | internal/zonefile/zonefile.go:314-322 | every serial is followed, in the sense of section 3.2 of RFC 1982, if and only if the date base is below 2^31 |
| Serial.DatesThatAdvance | internal/zonefile/zonefile.go:314-322 | before the base itself wraps, that is exactly the dates up to 2147 |
| Serial.NextSerialGrows | internal/zonefile/zonefile.go:314-322 | the next serial is larger if and only if the serial is not 2^32-1 |
| Serial.NextSerialLeast | internal/zonefile/zonefile.go:314-322 | it is the least serial above the old one and not below the date |
| Serial.DateDigits | internal/zonefile/zonefile.go:314-322 | the date base has the digits of the date: year, month, day and two zeros |
| Serial.FloorSerialExceeds | internal/zonefile/zonefile.go:148-161 | the floored serial exceeds both file and floor if and only if neither is 2^32-1 |
| Serial.FloorSerialLeast | internal/zonefile/zonefile.go:148-161 | it is the least serial above both and not below the date |
| ZoneContent.ReadSerial | internal/filezone/filezone.go:339-348 | the first SOA's serial, even when a later line stops the reader |
| ZoneContent.Compute | internal/filezone/filezone.go:413-432 | refuses operations outside the zone, then returns the surgical edit |
| ZoneContent.InZoneIsUnder | internal/filezone/filezone.go:413-423 | a name is in the zone if and only if the zone is the root or its labels are the last ones of the name, in any case |
| ZoneContent.AppliedStaysInside | internal/filezone/filezone.go:413-423 | an operation on a name outside the zone is refused, so nothing outside is ever added |
| ZoneContent.NormalizeRawSerial | internal/filezone/filezone.go:322-334 | a surgical text is floored above the live serial, any other is taken only if already above |
| ZoneContent.NormalizedTakes | internal/filezone/filezone.go:322-334 | a text that opens is never refused; any other is taken as it is if and only if its serial is above the live one |
| ZoneContent.EditStaysTidy | internal/zonefile/zonefile.go:177-233 | an edit adding no SOA keeps one SOA and a sound file |
| ZoneContent.AppliedGrows | internal/filezone/filezone.go:219-243 | what `Apply` writes carries exactly the next serial and is tidy again |
| ZoneContent.NormalizedGrows | internal/filezone/filezone.go:322-334 | both branches land above the live serial, below the last serial |
| Retention.Prune | internal/filezone/filezone.go:484-499 | deleting from the oldest on leaves exactly the newest `keep` |
| Retention.NewestSize | internal/filezone/filezone.go:484-499 | exactly the smaller of `keep` and what there was stays |
| Retention.NewestOrder | internal/filezone/filezone.go:484-499 | every one that stays is newer than every one that goes |
| Retention.AddedStays | internal/filezone/filezone.go:471-482 | a backup just written survives the pruning if and only if fewer than `keep` others are newer |
| Retention.PruneStep | internal/store/snapshots.go:56-68 | pruning after each insertion keeps what pruning everything ever inserted would |
| FileZone.OutsideSavesSafe | internal/filezone/filezone.go:355-406 | in every run, two writers are never past the lock together, and a rename replaces exactly the bytes it was computed from (or, restoring, wrote) unless an outside save landed in its window |
| FileZone.SaveFates | internal/filezone/filezone.go:355-406 | every outside save of every run is still the file, or was replaced by the next outside save, or was met by a rename: in its window and lost, or as exactly the bytes the commit was computed from |
| FileZone.StaleWriterRefuses | internal/filezone/filezone.go:365-371 | a writer whose base is no longer the file's content gives up, the file untouched for as long as it holds the lock |
| FileZone.WindowsAreReal | internal/filezone/filezone.go:365-390 | from every content and for every request that is not refused, there are runs in which a save between re-read and rename, and one between rename and restoring rename, are overwritten |
| FileZone.CommitsSerializable | internal/filezone/filezone.go:219-287 | without outside saves each rename replaces exactly the bytes its text was computed from |
| FileZone.FileIsFold | internal/filezone/filezone.go:219-287 | without outside saves the file of every run is the fold of its surviving commits over the first content, undone ones cancelled, whatever failed, crashed or interleaved |
| FileZone.CommitsRise | internal/filezone/filezone.go:355-406 | without outside saves, any measure every covered request raises strictly rises along the commits, whatever failed or crashed |
| FileZone.CommitsBackedUp | internal/filezone/filezone.go:373-380 | in every run from the start whose stamps grow, at every rename the bytes it was based on are in a backup |
| Backups.NewestBackupsStay | internal/filezone/filezone.go:471-499 | in every run, whatever the clock does, the directory holds the newest `keep` of all backups taken (or all), each with its bytes, and none that went is newer than one that stayed |
| Backups.LastBackupsStay | internal/filezone/filezone.go:471-499 | in every run with growing stamps it holds exactly the last `keep` backups taken |
| Backups.RenamesAreSaved | internal/filezone/filezone.go:373-380 | at every point of such a run, a writer about to rename has the bytes it started from in a backup |
| Backups.BackupsAreTheFile | internal/filezone/filezone.go:373-376 | without outside saves each backup is the file as it was when the backup was taken |
| Progress.AloneGoesThrough | internal/filezone/filezone.go:355-406 | with the lock free, an idle writer left alone brings any request through: the computed text on a good reload, the old content on a failed one, the lock free again |
| Progress.CrashFrees | internal/filezone/filezone.go:437-460 | in every reachable state a crash of the lock's holder frees it |
| Progress.RenamesAreSettled | internal/filezone/filezone.go:382-395 | in every run that no crash or failing restore cuts short, what was renamed in and not undone is exactly what reloaded |
| FileZoneSerial.NewBytesGrow | internal/filezone/filezone.go:219-287 | what `Apply` and `ReplaceRaw` write is tidy with a larger serial |
| FileZoneSerial.SerialsGrow | internal/filezone/filezone.go:219-287 | along every run of successful commits below 2^32-1 the SOA serial strictly increases |
| Update.UpdatesKeep | internal/ddns/mutate.go:36-74 | section 3.4.2 of RFC 2136 keeps a zone free of CNAME conflicts and keeps an apex NS, whatever is sent |
| RecordMut.BuildUpdate | internal/ddns/mutate.go:38-59 | the whole batch, in order, in one message; or no message if any record is nil or action unknown |
| RecordMut.NumbersMean | internal/ddns/mutate.go:14-17 | the four action numbers by their effect on the server's zone |
| Restore.RestoreExact | internal/recordmut/recordmut.go:338-374 | performing the delta, in which some records common to both sides may be deleted and added anew, gives exactly the snapshot's operator records at owned names, touches nothing else and gives those redone the snapshot's TTL, if and only if an apex NS is shared and additions fit |
| Restore.DisjointNsStays | internal/recordmut/recordmut.go:338-374 | a snapshot and a live zone with different apex NS records, after whose restore both are there |
| Restore.SecondPlanEmpty | internal/recordmut/recordmut.go:276-279 | after an exact restore a second plan is empty |
| Ownership.EnclosingNested | internal/recordmut/recordmut.go:207-222 | of two zones enclosing a name, the shorter encloses the longer |
| Ownership.MostSpecificZone | internal/recordmut/recordmut.go:210-222 | the loop over the inventory returns the longest enclosing zone |
| Ownership.MostSpecificIs | internal/recordmut/recordmut.go:210-222 | the answer is a listed zone enclosing the name that every other such zone encloses, and empty only if there is none |
| Ownership.MostSpecificLabels | internal/recordmut/recordmut.go:210-222 | in labels: the listed zone sharing the most last labels with the name, all of its own |
| DomainNames.EndsInIsUnder | internal/recordmut/recordmut.go:215-215 | for any two names, the suffix test on strings is the suffix test on labels |
| Ownership.OwnerUnique | internal/recordmut/recordmut.go:210-222 | the owner does not depend on the inventory's order or repetitions |
| Sorting.SortSorts | internal/named/axfr.go:257-280 | sorting sorts and keeps the elements |
| Sorting.SamePlaceTies | internal/named/axfr.go:257-280 | in two sorted orders of the same elements, those in the same place are ties |
| Sorting.SortedLooksUnique | internal/named/axfr.go:257-280 | if ties look the same, any two sorted orders look the same, whatever the algorithm |
| RecordMut.KeysIdentify | internal/recordmut/recordmut.go:265-272 | on known types, equal keys are the same record to the server and conversely |
| RecordMut.KeysTell | internal/recordmut/recordmut.go:265-272 | on types with a mnemonic, equal keys are equal type, data and owner, the owner without case or trailing dot |
| RecordMut.Rfc3597Prints | internal/recordmut/recordmut.go:265-272 | a printer that follows section 5 of RFC 3597 meets that condition for every list of names without a tab |
| RecordMut.FaithfulExactly | internal/recordmut/recordmut.go:265-272 | with types without a mnemonic printed in the form of RFC 3597, keys are equal exactly for equal records among a list, if and only if no such record occurs in two dresses; records the server tells apart never share a key |
| RecordMut.GenericReplanned | internal/recordmut/recordmut.go:338-374 | the same record under another TTL or spelling is left alone if its type has a mnemonic, and deleted and added if not |
| RecordMut.TtlOnlyRestored | internal/recordmut/recordmut.go:338-374 | a TYPE65280 record with TTL 60 in the snapshot and 300 live: the only plan deletes it and adds it with 60 |
| RecordMut.KeySet | internal/recordmut/recordmut.go:346-359 | the operator's records by key, the last one winning |
| RecordMut.Minus | internal/recordmut/recordmut.go:360-372 | once each, sorted by text, the records whose key the other map lacks |
| RecordMut.RestoreOps | internal/recordmut/recordmut.go:345-374 | deletions of exactly what live gained, then additions of exactly what it lost |
| RestoreScope.PlanTypes | internal/recordmut/recordmut.go:407-414 | no operation of a plan is on an SOA, RRSIG, NSEC, DNSKEY, NSEC3, NSEC3PARAM, CDS or CDNSKEY record, for any lists |
| RestoreScope.PlanCovers | internal/recordmut/recordmut.go:345-374 | every record of another type that one list has and the other lacks is in the plan |
| RestoreScope.SideInOrder | internal/recordmut/recordmut.go:360-372 | each side of a plan is sorted by text |
| RestoreScope.RestorableIs | internal/recordmut/recordmut.go:330-338 | a snapshot is restorable if and only if it has a record of a type other than those eight |
| RestoreScope.PlanExactly | internal/recordmut/recordmut.go:280-374 | the plan, seen by the server: exactly the records at owned names, of types other than those eight, that one zone has and the other lacks or shows in another dress |
| RestoreScope.ServerTypesStay | internal/recordmut/recordmut.go:407-414 | for any snapshot and live zone, each record of those eight types is after the restore what it was before |
| RecordMut.FilterOwned | internal/recordmut/recordmut.go:319-327 | the records whose most specific zone is the target, in order |
| RecordMut.OwnedMembers | internal/recordmut/recordmut.go:319-327 | a record is kept if and only if it was there and the target owns its name |
| RecordMut.ValidateOps | internal/recordmut/recordmut.go:165-185 | accepted if and only if there are operations and the target owns each one's name |
| RecordMut.PlanValid | internal/recordmut/recordmut.go:308-316 | a plan's operations always pass `validateOps` |
| RecordMut.RestorePlan | internal/recordmut/recordmut.go:280-316 | refused if and only if the owned snapshot has nothing restorable; otherwise the plan, valid |
| RecordMut.PlanNeverEmpties | internal/recordmut/recordmut.go:298-304 | an accepted plan, performed exactly, leaves an operator record of ours |
| RecordMut.RestorePlanExact | internal/recordmut/recordmut.go:280-374 | from record lists to the server's zone: where each list shows a record in one dress, the plan restores exactly, if and only if an apex NS is shared and additions fit; records in another dress live are redone, with the snapshot's TTL; every operation valid |
| RecordMut.RestoreKnownTypes | internal/recordmut/recordmut.go:280-374 | on types with a mnemonic, any lists at all: the restore is exact, every kept record's TTL left alone, if and only if an apex NS is shared and additions fit |
| RecordMut.PrintedComparable | internal/recordmut/recordmut.go:265-272 | with the form of RFC 3597, the condition on the two lists is only that each shows a record in one dress |
| Preview.BuildResult | internal/recordmut/recordmut.go:226-261 | the texts of the added records and of the live records each deletion selects, in order |
| Preview.RestorePreview | internal/recordmut/recordmut.go:226-261 | for a restore, Added and Removed are exactly the two set differences and the records in another dress, whether previewed against the whole live zone or the owned part |
| Preview.RestorePreviewKnown | internal/recordmut/recordmut.go:226-261 | on types with a mnemonic, exactly the two set differences |
| Preview.PreviewExact | internal/recordmut/recordmut.go:223-261 | the preview of a list of deletions lists exactly what the message removes, if and only if it selects no apex SOA, and apex NS only by name and not all of them |
| Preview.ApexPreviewOverstates | internal/recordmut/recordmut.go:223-261 | deleting the apex NS RRset: the preview lists a record that the server keeps |
| Undo.SnapshotStore.Put | internal/store/snapshots.go:44-72 | a new highest id, then exactly the zone's newest `keep` rows and every other zone's rows |
| Undo.SnapshotStore.ById | internal/store/snapshots.go:34-38 | the row with that id, if there is one |
| Undo.SnapshotStore.Latest | internal/store/snapshots.go:26-31 | the zone's row with the highest id |
| Undo.RunKeepsInv | internal/recordmut/recordmut.go:52-81 | over every run the table holds, for each zone, exactly the newest `keep` of all snapshots taken, or all of them if `keep` is not positive, unaltered |
| Undo.ChangesAreSnapped | internal/recordmut/recordmut.go:52-81 | every change sent, accepted or refused, is preceded by a snapshot of its zone, and nothing else takes one |
| Undo.NewestSnapshotsStay | internal/store/snapshots.go:44-72 | in every run from an empty table it holds as many of a zone's snapshots as `keep` allows, and none that went is newer than one that stayed |
| Undo.InitialInv | internal/recordmut/recordmut.go:52-81 | before any snapshot, zones without CNAME conflicts satisfy the invariant of every run |
| Undo.UndoChange | internal/recordmut/recordmut.go:52-81 | while the snapshot before a change is among the newest `keep` (always, if `keep` is not positive), restoring it returns the operator records to that set, if and only if an apex NS is shared (and the snapshot is not refused as empty); touches no other zone; stores its own snapshot if there is anything to do |
| CanonicalForm.ReverseLabels | internal/named/axfr.go:299-305 | the swapping loop reverses the array in place |
| CanonicalForm.LessName | internal/named/axfr.go:289-297 | lexicographic order of the reversed labels |
| CanonicalForm.LabelsIdentify | internal/named/axfr.go:282-284 | two names have the same labels if and only if `sameName` holds |
| CanonicalForm.ZoneOrder | internal/named/axfr.go:257-280 | the comparator is a strict weak order whose ties print as identical lines |
| CanonicalForm.Dump | internal/named/axfr.go:216-225 | the canonical text is the sorted records' lines |
| CanonicalForm.CanonicalForgetsOrder | internal/named/axfr.go:216-225 | transfers of the same records in any order have the same text |
| CanonicalForm.CanonicalReadsBack | internal/named/axfr.go:216-225 | read line by line, the canonical text is the sorted records' texts |
| CanonicalForm.KindsInOrder | internal/named/axfr.go:257-280 | at a name SOA comes first, then NS, then MX, then the rest, each by text |
| CanonicalForm.LabelsInOrder | internal/named/axfr.go:289-297 | of two names whose top labels agree, the one with the smaller next label comes first |
| CanonicalForm.AnySortGivesCanonical | internal/named/axfr.go:257-280 | any correct sort gives the canonical lines |
| CanonicalForm.ParentFirst | internal/named/axfr.go:257-305 | every record of a name precedes every record below that name, whatever the letter case |
| Limiter.TokenLimiter.Allow | internal/proxy/limiter.go:47-85 | for every clock reading, the new buckets and sweep time, and whether a token was there to take |
| Limiter.DeleteIdle | internal/proxy/limiter.go:66-73 | the sweeping loop deletes exactly the idle buckets |
| Limiter.SweepUnobservable | internal/proxy/limiter.go:47-85 | for every sequence of calls in order of time, answers equal those of buckets never forgotten |
| Limiter.GrantsPaid | internal/proxy/limiter.go:54-84 | from any state, granted calls are paid for by what was available and what flowed in |
| Limiter.LimitHolds | internal/proxy/limiter.go:54-84 | in any window of any run spanning T, a key is granted at most 2 x rate + rate x T calls, in numbers |
| Limiter.GrantedExactly | internal/proxy/limiter.go:54-84 | in every run a call is granted if and only if it fits that bound in every window that ends with it |
| Limiter.BurstGranted | internal/proxy/limiter.go:54-84 | a key that is new or was idle for two seconds is granted 2 x rate calls at once |
| Limiter.TwoAtOnce | internal/proxy/limiter.go:24-45 | at one call a second: two at once, the third refused, one more after exactly a second |
| Limiter.MemoryBounded | internal/proxy/limiter.go:64-74 | in every run no client silent for twenty minutes has a bucket |
| ProxyTable.Proxy.Update | internal/proxy/proxy.go:170-198 | every new or changed rule compiles and the whole table is swapped, unchanged rules keeping their limiter; or nothing changes |
| ProxyTable.AllOrNothing | internal/proxy/proxy.go:170-198 | one new or changed rule that does not compile leaves the whole table; otherwise kept rules keep their limiter and the others get a new one |
| ProxyTable.LimiterSurvivesReloads | internal/proxy/proxy.go:176-184 | while a host's rule is unchanged its answers are those of one limiter, or of none |
| ProxyTable.LimitAcrossReloads | internal/proxy/proxy.go:170-184 | for a rule with a positive rate the window bound holds across reloads that keep it |
| ProxyTable.ExactAcrossReloads | internal/proxy/proxy.go:170-184 | and a request is granted if and only if it fits every window that ends with it |
| ProxyTable.NoRateNoLimit | internal/proxy/proxy.go:303-305 | a rule without a positive rate grants every request, across reloads that keep it |
| Throttle.LoginThrottle.Blocked | internal/admin/throttle.go:36-47 | the latest running lock of the keys, or open |
| Throttle.LoginThrottle.Fail | internal/admin/throttle.go:49-85 | a sweep if the map has grown, then one counted failure for each key |
| Throttle.LoginThrottle.Ok | internal/admin/throttle.go:87-93 | the keys are forgotten and no other |
| Throttle.ShiftFits | internal/admin/throttle.go:70-80 | the shifted delay fits a signed 64-bit duration for every count, and is capped at the window |
| Throttle.RowLocks | internal/admin/throttle.go:62-83 | seven failures in a row are free, the 8th locks for 1 minute, then 2, 4 and 8, and from the 12th on 15 minutes |
| Throttle.StartsOver | internal/admin/throttle.go:62-66 | a failure more than 15 minutes after the last, or after a success, starts over |
| Throttle.MemoryBounded | internal/admin/throttle.go:52-59 | with more than 4096 records a failure leaves those of the last 15 minutes and its own keys |
| Throttle.FailNeverShortens | internal/admin/throttle.go:49-93 | over every in-order run of failures of any keys, locked or not, and successes, from the empty map: a further failure, sweep included, leaves every key locked at every later moment at least as long |
| Throttle.SweepUnobservable | internal/admin/throttle.go:52-59 | for every sequence of attempts in order of time, the memory sweep changes no answer |
| Throttle.ElevenFailuresAWindow | internal/admin/admin.go:711-726 | attempts from one key without success: any twelve consecutive recorded failures span at least 15 minutes |
| Traffic.Flusher.Flush | cmd/goddns/serve.go:417-441 | each listed host's memory and stored total after a flush with any failing writes; other hosts unchanged |
| Traffic.NeverOvercounts | cmd/goddns/serve.go:414-441 | in every run from the start, with failing writes, dropped counters and restarts, a stored total never exceeds the traffic counted |
| Traffic.ExactWithoutRestarts | cmd/goddns/serve.go:414-441 | in every run from the start without counter restarts the stored total is the counter at the last flush whose write succeeded |
| Traffic.StoredAtMostPassed | cmd/goddns/serve.go:414-441 | in every run the stored requests and bytes are at most the sums of what passed |
| Traffic.StoredIsPassed | cmd/goddns/serve.go:414-441 | for a host that stays configured, after a successful flush they are exactly those sums, whatever flushes failed before |
| Reload.Reloader.ApplyProxy | cmd/goddns/serve.go:492-523 | the state after applying a configuration whose routes do or do not compile |
| Reload.Reloader.TakeTurn | cmd/goddns/serve.go:538-595 | one turn of the loop keeps the invariant and is `Next` |
| Reload.LoadedIsStored | cmd/goddns/serve.go:492-589 | a turn that loads a configuration stores it; disabled, it empties the table; compiling, its rules are the table |
| Reload.RoutesFollowLoads | cmd/goddns/serve.go:492-589 | in every run, computed from the turns alone: the stored configuration is the last loaded, and the table that of the last turn that took effect |
| Reload.AlwaysSynced | cmd/goddns/serve.go:489-596 | at every loop head an apply is owed or the live table is the stored configuration's |
| Reload.TurnAllOrNothing | cmd/goddns/serve.go:489-596 | a failed load changes no route; a turn swaps the whole table or none of it; exactly when an apply is owed |
| Reload.RoutesAreOneConfigs | cmd/goddns/serve.go:489-596 | the live routes are always those of one whole configuration, the last applied |
| Reload.RetryConverges | cmd/goddns/serve.go:540-547 | the first quiet turn whose routes compile brings the table to the stored configuration |
| Reload.DisablingEmpties | cmd/goddns/serve.go:496-505 | switching the proxy off empties the table at once, in every reachable state |
| Keyring.Parse | internal/tsig/tsig.go:35-48 | the keys of all matches of the block pattern, with the first algorithm and secret of each body |
| Keyring.BlockPattern | internal/tsig/tsig.go:27-31 | the matcher succeeds exactly on texts that split into the pattern's parts, and in one way |
| Keyring.AlgoPattern | internal/tsig/tsig.go:29-29 | the algorithm matcher is its pattern, part by part, quotes optional |
| Keyring.SecretPattern | internal/tsig/tsig.go:30-30 | the secret matcher is its pattern, part by part |
| Keyring.BlocksAre | internal/tsig/tsig.go:37-37 | the blocks are the leftmost match and then those of what follows it |
| Keyring.AbsentFields | internal/tsig/tsig.go:38-46 | a field that matches nowhere in the body is empty |
| Keyring.Render | internal/tsig/tsig.go:71-83 | the header and one block for each key |
| Keyring.Find | internal/tsig/tsig.go:60-68 | the first key of that name, a trailing dot aside |
| Keyring.RoundTrip | internal/tsig/tsig.go:35-83 | a ring with non-empty names reads back with defaults filled in, if and only if names, algorithms and secrets keep to their characters and no name ends in two dots |
| Keyring.ParsedWritable | internal/tsig/tsig.go:35-48 | whatever a key file holds, the keys read from it can be written |
| Keyring.EmptyNameLost | internal/tsig/tsig.go:71-83 | a block written for an empty name does not read as a key |
| Keyring.Rotation | cmd/goddns/rotatekey.go:44-70 | for every such key file, a rotation changes one secret and no other key, and the rollback reads as the old ring |

## Left out

- The DNS library's parser and printer: `Resolver` reads the tokenizer's own entries, so escaped quotes and quoted newlines, parentheses outside records, the expansion of `$GENERATE` and non-ASCII case folding are not modelled; record data goes through an abstract reader that ignores nothing but its scope.
- ZoneFile.Parse: takes what the library's reader made of the same text as a parameter; the theorems instantiate it with `Meaning`, the reading of the modelled language.
- EditTheorem.EditPreservesMeaning: assumes that an added record's text reads back as the record (`Printable`), which the library guarantees and the code does not check.
- FileZone.OutsideSavesSafe: `named-checkzone`, `rndc`, `flock` and the rename are steps that happen or fail; the rename is atomic, an abort after the rename is not possible, a crash releases the lock; the verification after the reload changes nothing and is left out.
- FileZone.CommitsBackedUp: backups are numbered by their time stamps and stamps are assumed to grow; file names and their digits are not modelled.
- Screening for panel-managed files, symbolic links, DNSSEC signing and inline signing: one-branch checks before the pipeline.
- Restore.RestoreExact: record data is compared as exact text and the server's case folding is that of names; TTLs of an RRset are kept per record, and whether one SOA is newer is a parameter (operator records never depend on it).
- Undo.UndoChange: the snapshot is the transferred zone itself; that canonical text parses back to the same records is assumed. Transfers, TSIG signing and the exchange are not modelled.
- Preview.PreviewExact: covers lists of deletions, with names fully qualified as the library gives them; a batch that mixes additions in is previewed operation by operation against the zone before it, except a restore, for which `Preview.RestorePreview` covers the whole plan.
- RecordMut.RestorePlanExact: assumes that NS has a mnemonic and that no list shows one record in two dresses, as a server that holds each record once gives it; on types with a mnemonic `RecordMut.RestoreKnownTypes` needs no such assumption.
- RecordMut.ValidateOps: the target's name is given in canonical form; finding the zone and the key in the configuration is not modelled.
- Sorting.SortList: inserts on sequences where the source calls a library sort in place; `CanonicalForm.AnySortGivesCanonical` makes the result independent of the algorithm.
- Limiter.LimitHolds: tokens are exact integers in billionths, so the rounding of the source's floating-point numbers is not modelled; its calls come in order of time, while `Limiter.TokenLimiter.Allow` takes any clock reading; the mapping of addresses to keys is left out.
- Throttle.ElevenFailuresAWindow: attempts are sequential; two attempts checked together before either is recorded are not modelled.
- Traffic.NeverOvercounts: totals are kept per host, not per day, and old days are not pruned; a flush sees all counters at one moment.
- Reload.AlwaysSynced: covers the TLS modes without certificate management, where `applyProxy` has no second failure; loading and the signature are inputs of each turn; console listeners, logging and the update backend are left out.
- Keyring.RoundTrip: requires names that are not empty, since a block written for an empty name is lost (`Keyring.EmptyNameLost`); the patterns are matched on characters, not bytes; writing the file atomically with its mode and owner is not modelled.
- The SQLite store beyond the snapshot table, the admin pages, sessions, the command line, `zoned`, the proxy's forwarding, virtual hosts and the ACME client: plumbing, or properties that follow from one body.
