# LinAudit: proofs about the host monitor

LinAudit is a host monitor written in Go: it logs shell prompts, executed commands and key
presses, watches input devices and network sockets, and serves a password-protected page. This
project models the parts of it that compute, remember or race, and proves what they promise.

Each file is one module, and follows one part of the program.

- Passwords: `words`, `bits`, `salsa`, `little_endian`, `strides`, `blockmix`, `romix` and `kdf` take the
  in-place scrypt of `web/auth.go` from single rotations up to the key, against the functions of
  RFC 7914 and RFC 8018, and `rfc_vectors` those functions against the test vectors of the RFC. `sessions` is the session table, `login` the throttle as sequential runs
  and `login_steps` the same with overlapping requests.
- Reverse DNS: `rdns_cache` is the LRU cache as a class, `rdns_runs` what any sequence of calls
  keeps, `rdns_protocol` the callers, queue and workers as interleaved steps, `rdns_host` the
  host-name filter.
- Input devices: `device_monitor` is the race between scanners and readers, `repr`, `fields` and
  `key_log` the record writer and its reader.
- Address tables: `octets`, `ranges`, `range_rows`, `asn_db` and `country_db` are the two interval
  indexes; `networks` and `classify` the address classifier.
- Sockets: `netlink` is the decoder, `netlink_wire` the kernel's encoder and the round trips,
  `decimal` its number printer. `bandwidth`, `bandwidth_laws`, `bandwidth_counts`, `tallies` and
  `lists` are the snapshot builder, its conservation laws and what its figures count, `sampler`
  whole runs of it.
- Reports: `timeline` holds both correlators, `utf8` and `timeline_repair` what separates them,
  `stable_sort` the sort they use, `cap_union` the row cap of the process list, `mounts` the
  mount-table reader.

Code that changes things in place is modelled by methods and classes that do the same, proved
against functions; the lemmas then say what those functions mean, in terms of their inputs alone. Where a promise does not hold
for all inputs, the exact condition is proved instead:

- the 32-bit mask of scryptROMix is the modulus of RFC 7914 exactly for N up to 2^32
  (`RoMix.MaskIsIntegerifyUpTo32`);
- ADDED and REMOVED records of a path alternate exactly when no ADDED overtakes a pending REMOVED,
  and the code allows that (`DeviceMonitor.AlternatesExactly`, `DeviceMonitor.AlternationFails`);
- the two line splitters agree on every text but a lone newline, and the command-line report
  panics exactly for negative n (`Timeline.LinesAgreeExactly`, `Timeline.BuildReport`). The
  comment on the web splitter promises to drop one trailing empty element, which turns a lone
  newline into one empty line; the model follows the code;
- the interval index gives the most specific range, in every order the unstable sort may leave,
  exactly when ranges that start inside another end inside it (`Ranges.MostSpecificExactly`),
  although the comments on find and lookup promise it without a condition;
- itoa is right for every 64-bit integer but the most negative one, which its only caller never
  passes (`Decimal.ItoaReadsBackExactly`, `Netlink.ErrorTextReadsBack`);
- scryptKey accepts parameters that RFC 7914 excludes (`Kdf.RfcAllowsExactly`);
- from a zero count the login throttle slows guessing to five passwords in 32 seconds exactly when
  requests come one at a time and none is accepted, since an accepted one resets the count
  (`LoginSteps.BoundHoldsExactly`); with r accepted passwords four more guesses each are free
  (`Login.GuessingIsSlow`), and k requests at a time cost a lock every 4 + k failures
  (`LoginSteps.FailuresCostLocks`);
- the two reports of the same logs show the same exactly when every detail shown is valid UTF-8
  (`TimelineRepair.ReportsAgreeExactly`);
- mount escapes decode exactly when the escaped bytes are unambiguous
  (`Mounts.UnescapeRestoresExactly`), and a line names the second piece of its device and target,
  pieces being cut at white space that is left raw, which the kernel leaves for all but blank, tab
  and newline. So for one-word devices the scan is right about every target exactly when no target
  holds such white space (`Mounts.ScanIsRightForWords`, `Mounts.RawReturnIsMisread`), and such
  white space in a device shifts the fields (`Mounts.ScanIsRightExactly`,
  `Mounts.DeviceReturnIsMisread`).

Check everything with `dafny verify dfyconfig.toml`.

## Model

| member | source | states |
|---|---|---|
| `Salsa.Salsa20Core8` | web/auth.go:266-315 | the unrolled in-place rounds plus the final addition are Salsa20/8 of section 3 of RFC 7914, given as a function on blocks |
| `Salsa.EightRoundsInPlace` | web/auth.go:269-310 | the loop that rewrites sixteen words computes exactly four double rounds |
| `Salsa.RowRoundIsTransposedColumnRound` | web/auth.go:270-309 | the row round is the column round on the transposed matrix |
| `Salsa.RoundsAreABijection` | web/auth.go:269-310 | any number of double rounds has an explicit two-sided inverse |
| `Salsa.ColumnRoundIs` | web/auth.go:270-290 | a column round changes each of the sixteen words once, by one add-rotate-xor step with 7, 9, 13 or 18 of words before or after the round |
| `Salsa.RowRoundIs` | web/auth.go:290-309 | the same for a row round |
| `Words.RotlValue` | web/auth.go:317 | for every amount below the width a rotation multiplies by 2^n modulo 2^32 and adds what left on the left again on the right |
| `RfcVectors.CoreVector` | web/auth.go:266-315 | the core maps the test block of section 8 of RFC 7914 to the result given there |
| `RfcVectors.BlockMixVector` | web/auth.go:245-263 | scryptBlockMix maps the two test blocks of section 9 of RFC 7914 to the results given there |
| `LittleEndian.WordsRoundTrip` | web/auth.go:326-337 | words written as bytes read back unchanged |
| `LittleEndian.BytesRoundTrip` | web/auth.go:326-337 | bytes read as words write back unchanged |
| `LittleEndian.ValueByWords` | web/auth.go:233-236 | the number a little-endian byte string denotes, word by word: what Integerify reads |
| `BlockMix.ScryptBlockMix` | web/auth.go:245-263 | for every r, mixing one stretch of a buffer into a disjoint stretch of the same buffer is scryptBlockMix of section 4 of RFC 7914 and touches nothing else |
| `BlockMix.AllPlaced` | web/auth.go:252-262 | storing each Y[i] at its place, even in the first half and odd in the second, gives the permuted output B' |
| `BlockMix.MixedIsShuffled` | web/auth.go:245-263 | whatever list of blocks meets the recurrence of section 4 of RFC 7914, B' is its even blocks and then its odd ones |
| `BlockMix.BlockXor` | web/auth.go:320-324 | the word loop is the blockwise exclusive or of the specification, and the rest of the destination is unchanged |
| `Words.MaskIsModulus` | web/auth.go:236 | masking a word with 2^k - 1 cut to 32 bits is reduction modulo 2^k |
| `RoMix.MaskIsIntegerify` | web/auth.go:233-236 | masking the first word of the last block equals the 64-byte little-endian Integerify modulo N for every N = 2^k with k <= 32 |
| `RoMix.MaskIsIntegerifyUpTo32` | web/auth.go:236 | the mask agrees with Integerify on all blocks if and only if k <= 32 |
| `RoMix.LargeModulusDiffers` | web/auth.go:236 | a concrete block on which the 32-bit mask and Integerify differ, for every N above 2^32 |
| `RoMix.MaskedIndexInRange` | web/auth.go:236-237 | the masked index always names a row of the table |
| `RoMix.MaskedRomixIsRomix` | web/auth.go:224-242 | the whole masked walk is scryptROMix of section 5 of RFC 7914 for N up to 2^32 |
| `RoMix.RomixIsRecurrence` | web/auth.go:224-242 | whatever lists meet the two recurrences of section 5 of RFC 7914, with Integerify modulo N as the index, the result is the last X |
| `RoMix.ScryptROMix` | web/auth.go:224-242 | both loops, over one reused buffer and a scratch table with arbitrary contents, compute ROMix of the first half of the buffer |
| `RoMix.Fill` | web/auth.go:228-232 | the first loop leaves V[0] to V[N-1] in the table and V[N] in the buffer |
| `Kdf.Pbkdf2Sha256` | web/auth.go:340-369 | the accumulating loops compute PBKDF2 of section 5.2 of RFC 8018 over any pseudorandom function, with an iteration count below one acting as one |
| `Kdf.KeysArePrefixes` | web/auth.go:343-368 | a shorter derived key is a prefix of a longer one |
| `Kdf.KeyOctet` | web/auth.go:350-368 | octet k of a key is octet k mod 32 of block T_i with i = k div 32 + 1 |
| `Kdf.IntIsBigEndian` | web/auth.go:353 | the four octets behind the salt write the block number modulo 2^32, most significant first |
| `Kdf.XorIsExclusive` | web/auth.go:362-364 | the blocks are combined by exclusive or |
| `Bits.PowerOfTwoExactly` | web/auth.go:190-192 | the test on n and n-1 accepts exactly the powers of two |
| `Kdf.LoadWords` | web/auth.go:326-330 | the words read from a stretch of bytes are its little-endian words |
| `Kdf.StoreWords` | web/auth.go:332-337 | the stretch receives the little-endian bytes and the rest of the buffer is unchanged |
| `Kdf.MixBlock` | web/auth.go:212-217 | each block is mixed independently of what the reused scratch held before |
| `Kdf.MaskedScryptIsScrypt` | web/auth.go:189-220 | with the mask in place of the modulus the key is still the key of section 6 of RFC 7914, for N up to 2^32 |
| `Kdf.ScryptByOctets` | web/auth.go:207-220 | section 6 of RFC 7914 octet by octet: whatever buffer is derived from password and salt, and whatever buffer holds its p blocks each put through scryptROMix, the key is derived from the password and the latter |
| `Kdf.ScryptKey` | web/auth.go:189-220 | the refusals in the order of the code, a panic when one of its 64-bit sizes wraps, and otherwise exactly the functions of section 6 of RFC 7914 when N <= 2^32 |
| `Kdf.WrappedSizesAreTooShort` | web/auth.go:201-217 | the panic is there if and only if the length computed for the p blocks or for the table of N blocks is less than they take |
| `Kdf.RfcAllowsExactly` | web/auth.go:190-203 | the parameters section 2 of RFC 7914 allows are exactly those the code does not refuse with N < 2^(16 r), dkLen <= (2^32 - 1) * 32 and r * p below 2^64 |
| `Kdf.AcceptsBeyondRfc` | web/auth.go:190-203 | N = 2^16 with r = 1, which the RFC excludes, is accepted |
| `Kdf.BlocksRepeat` | web/auth.go:350-355 | the block counter has 32 bits, so block i + 2^32 of a key repeats block i |
| `Words.FromNatWraps` | web/auth.go:353 | numbers that differ by a multiple of 2^32 convert to the same word |
| `Sessions.SessionStore.Create` | web/auth.go:135-145 | the token expires twelve hours after now; nothing changes when the random source fails |
| `Sessions.SessionStore.Ok` | web/auth.go:149-164 | the answer, and the eviction of an expired token |
| `Sessions.SessionStore.Drop` | web/auth.go:167-174 | logout removes the token and nothing else |
| `Sessions.AcceptedExactly` | web/auth.go:135-174 | over any run with a clock that never falls, a token is accepted if and only if its last login is at most twelve hours old and no logout followed; evictions change no answer |
| `Sessions.GrantedMeaning` | web/auth.go:135-174 | which login or logout of a run decides about a token |
| `Sessions.StoredExactly` | web/auth.go:135-174 | over any run, whatever the clock does, the table holds a token if and only if some login of it was followed by no logout and no showing more than twelve hours later, and holds it with the end of that session |
| `RdnsCache.Cache.CacheGet` | web/netmon/rdns.go:75-91 | map and list stay linked one to one; the list becomes the specified recency list and the answer is the specified one |
| `RdnsCache.Cache.CachePut` | web/netmon/rdns.go:95-120 | the same for a put: overwrite or push to the front, then evict from the back down to 4096 |
| `RdnsCache.Cache.Evict` | web/netmon/rdns.go:111-119 | only entries at the back of the list are dropped, and only while it is too long |
| `RdnsCache.Cache.MoveToFront` | web/netmon/rdns.go:89 | moving an element keeps map and list linked and every other element in order |
| `RdnsRuns.RunGood` | web/netmon/rdns.go:75-120 | over any sequence of gets and puts: distinct keys, recency order, every entry is the last result put for its key, at most 4096 entries, and a key that is gone expired or saw 4096 other keys used since |
| `RdnsRuns.HitsAreFresh` | web/netmon/rdns.go:75-91 | every hit returns the last value put for that address, within six hours for a name and sixty seconds for none |
| `RdnsRuns.MissesAreExplained` | web/netmon/rdns.go:75-120 | under a clock that never falls, a miss on a known key means it expired or 4096 other keys were used since |
| `RdnsRuns.HeldIfHit` | web/netmon/rdns.go:75-91 | after a get in any run the key is in the cache if and only if the get hit, so an expired entry is not kept |
| `RdnsProtocol.StepSafe` | web/netmon/rdns.go:125-160 | every atomic step of any caller or worker keeps the protocol invariant |
| `RdnsProtocol.EveryInterleavingIsSafe` | web/netmon/rdns.go:125-160 | in every interleaving the in-flight set is exactly the addresses being enqueued, queued or held by a worker, each once, and the queue stays within 256 |
| `RdnsProtocol.NoConcurrentLookups` | web/netmon/rdns.go:132-160 | two workers never look up the same address at the same time |
| `RdnsProtocol.StepWorks` | web/netmon/rdns.go:132-160 | every step other than a new resolve shrinks the work that is left |
| `RdnsProtocol.DrainingEnds` | web/netmon/rdns.go:152-160 | without new resolves no run is longer than the work that is left |
| `RdnsProtocol.NeverStuck` | web/netmon/rdns.go:132-160 | while an address is in flight some step other than a new resolve is possible |
| `RdnsProtocol.DrainsToEmpty` | web/netmon/rdns.go:152-160 | from any safe state the in-flight set can be drained to empty within the work that is left |
| `RdnsProtocol.StuckMeansEmpty` | web/netmon/rdns.go:132-160 | a run in which only new resolves remain possible has drained the in-flight set |
| `RdnsProtocol.ClaimsAreServed` | web/netmon/rdns.go:132-160 | over any run every claim of an address ends in one lookup or is given up, or is still pending |
| `RdnsProtocol.DrainedMeansServed` | web/netmon/rdns.go:132-160 | whenever nothing is in flight, every address claimed so far was looked up once a claim, or given up |
| `RdnsProtocol.DropsNeedAFullQueue` | web/netmon/rdns.go:140-146 | no address is given up in a run in which no send met a full queue |
| `RdnsProtocol.FirstInFirstOut` | web/netmon/rdns.go:140-153 | workers receive the addresses in the order in which they were sent |
| `RdnsHost.SanitizeHost` | web/netmon/rdns.go:182-198 | the loop computes the specified filtering, cap and trim |
| `RdnsHost.SanitizedIsClean` | web/netmon/rdns.go:180-198 | the result holds only allowed bytes, at most 253, without a final dot, and a name is left alone if and only if it already is so |
| `RdnsHost.OnlyDotsTrimmed` | web/netmon/rdns.go:192-197 | the result is a prefix of the allowed bytes, and what the trim drops within the cap is dots |
| `RdnsHost.HostBytesListed` | web/netmon/rdns.go:187-188 | the bytes kept are the letters, the digits, dot, underscore and hyphen |
| `DeviceMonitor.Reachable` | inputmon/inputmon.go:119-242 | every reachable state of scanners and readers has an exact known-set, balanced records and well-formed per-device histories |
| `DeviceMonitor.Conservation` | inputmon/inputmon.go:142-242 | in every interleaving, added plus registered but not yet logged, minus removed, minus deleted but not yet logged, is one if the path is known and zero otherwise |
| `DeviceMonitor.OwnRecords` | inputmon/inputmon.go:142-242 | the records of one device are ADDED, then KEYs, then at most one REMOVED, and a device that lost the race has none |
| `DeviceMonitor.KeyCapDecides` | inputmon/inputmon.go:173-181 | in every reachable state a device that is not key-capable has logged nothing or its ADDED only and has no reader, and a key-capable one whose ADDED is logged has or had a reader |
| `DeviceMonitor.LogFollowsEvents` | inputmon/inputmon.go:142-242 | in every interleaving the devices are the passed paths as they were opened, and the log is what the logging steps wrote, each for its own device, in their order |
| `DeviceMonitor.PathsAreConserved` | inputmon/inputmon.go:128-148 | every path that passed the check of scan is opened once, fails to open once, or still waits |
| `DeviceMonitor.RemovalNeverSkips` | inputmon/inputmon.go:228-238 | the early return of removeDevice is never taken by a reader: a device it removes is still the registered one |
| `DeviceMonitor.AlternatesExactly` | inputmon/inputmon.go:162-177 | ADDED and REMOVED of a path alternate in the log if and only if no ADDED was logged while a removal of the path waited to be logged |
| `DeviceMonitor.AlternationFails` | inputmon/inputmon.go:228-242 | a concrete interleaving in which the log has two ADDED in a row |
| `Repr.ReprSingle` | inputmon/inputmon.go:282-313 | the loop over the runes of the text prints the specified quoted form |
| `Repr.PrintedParses` | inputmon/inputmon.go:282-313 | a matching reader restores every text, whatever the print predicate answers |
| `Repr.PrintedIsInline` | inputmon/inputmon.go:290-310 | the printed form never holds a tab, a newline or a carriage return |
| `Repr.HexRoundTrip` | inputmon/inputmon.go:303-308 | fixed-width hexadecimal reads back |
| `Repr.EscapeForms` | inputmon/inputmon.go:290-310 | a rune stands for itself if and only if it is printable and not special, and is otherwise written in the shortest of the forms that can hold it |
| `Repr.PlainText` | inputmon/inputmon.go:282-313 | a text is printed unchanged between the quotes if and only if each of its runes is |
| `Repr.QuoteChoice` | inputmon/inputmon.go:283-286 | double quotes surround exactly the texts with single quotes and no double ones |
| `KeyLog.Log.LogFields` | inputmon/inputmon.go:247-254 | one record is appended as one tab-separated line and nothing else changes |
| `KeyLog.LogRoundTrip` | inputmon/inputmon.go:247-254 | a log of clean records reads back line by line and field by field |
| `KeyLog.KeyRecordIntact` | inputmon/inputmon.go:208-216 | a KEY record splits into exactly its seven fields if and only if none of the five other texts holds a tab; the device name may be anything |
| `KeyLog.KeyRecordReported` | web/data.go:356-374 | the report recovers device text, key, value and bus of a logged KEY record, and the device name from its text |
| `KeyLog.KeyRecordWithoutBus` | web/data.go:356-374 | a KEY record of six fields is reported without a bus |
| `KeyLog.DeviceRecordsReported` | web/data.go:375-382 | the DEVICE_ADDED and DEVICE_REMOVED records of any device are reported with its printed name, from which the name can be read back |
| `KeyLog.ShortDeviceRecord` | web/data.go:375-382 | a DEVICE record without a name still gives a row |
| `KeyLog.ShellRecordsReported` | web/data.go:325-352 | a line of a shell hook is reported on its own plane only, at its second time stamp, with its text up to the first tab |
| `KeyLog.ReportedExactly` | web/data.go:325-382 | which records of clean fields give a row at all |
| `Fields.JoinSplit` | inputmon/inputmon.go:248 | joining the parts of a split gives the text back |
| `Fields.SplitJoinExactly` | web/data.go:357 | splitting recovers the joined fields if and only if none holds the separator |
| `Timeline.LinesAgreeExactly` | cli/cli.go:793-800 | the two line splitters agree on every text except a lone newline |
| `Timeline.WebReport` | web/data.go:322-392 | the loops, the filter and the stable sort produce the specified timeline of the repaired logs |
| `Timeline.BuildReport` | cli/cli.go:662-723 | the second implementation produces the same timeline without kinds, and panics if and only if n is negative |
| `Timeline.TimelineMeaning` | web/data.go:338-385 | the timeline is the sorted permutation of the last n prompts and the EXEC, KEY and DEVICE rows not older than the first of them, ties in merge order |
| `Timeline.TimelineHolds` | web/data.go:322-385 | a row is on the timeline if and only if it is one of the prompts kept, or some line of the other logs gives it and it is not older than the first of them |
| `Timeline.PromptsMeaning` | web/data.go:332-334 | the prompts kept are the last n prompt rows, and all of them for a negative n |
| `Timeline.TailMeaning` | web/data.go:217-247 | the tail of a log is its last n lines, or all of them when there are fewer |
| `Timeline.ReportsAgree` | web/data.go:322-392 | for every n >= 0 and any logs, the web timeline is the command-line timeline of the repaired logs, whatever the repair |
| `TimelineRepair.WebShowsRepairedRows` | web/data.go:217-392 | with strings.ToValidUTF8 as the repair, the web timeline is the command-line timeline of the same raw logs with the texts of each row repaired |
| `TimelineRepair.ReportsAgreeExactly` | cli/cli.go:662-723 | the two reports of the same raw logs show the same, kinds aside, if and only if every detail shown is valid UTF-8 |
| `Utf8.RepairKeepsExactly` | web/data.go:217 | repairing leaves a text alone if and only if it is valid UTF-8 |
| `Utf8.SplitRepaired` | web/data.go:217-247 | cutting at an ASCII character and repairing commute |
| `Utf8.RuneWidthExactly` | web/data.go:217 | a rune of n bytes is read if and only if the n bytes are the form that section 3 of RFC 3629 gives to some code point other than a surrogate |
| `Utf8.ReplacementIsEncoded` | web/data.go:217 | the replacement is the form of U+FFFD |
| `Utf8.ValidFrontIsKept` | web/data.go:217 | valid text at the front is kept and does not change what is repaired behind it |
| `Utf8.BadRunIsReplacedOnce` | web/data.go:217 | a stretch of bytes that start no rune becomes one replacement, however long it is |
| `StableSort.SortSorted` | web/data.go:385 | the stable sort is a sorted permutation |
| `StableSort.SortStable` | web/data.go:385 | rows with equal keys keep their order |
| `StableSort.OnlyStableSort` | web/data.go:385 | no other function is sorted and keeps the order of equal keys |
| `StableSort.SortFilter` | web/procmon/procmon.go:359-391 | sorting what a filter keeps is filtering what was sorted |
| `CapUnion.CapUnionRows` | web/procmon/procmon.go:359-391 | for rows with distinct pids the output is the source-order subsequence of rows that lead by some metric; never a row that was not given |
| `CapUnion.LeadersKeepEveryTop` | web/procmon/procmon.go:359-391 | for each of the four metrics the first rows of the stable descending sort are those of the full input |
| `CapUnion.LeadersAreFew` | web/procmon/procmon.go:359-391 | at most four times the row limit is kept |
| `CapUnion.PublishRows` | web/procmon/procmon.go:331-335 | the rows build publishes and the total it reports |
| `CapUnion.PublishedLeaders` | web/procmon/procmon.go:331-335 | the published rows start with the true CPU leaders and hold the leaders by every other metric |
| `CapUnion.DroppedAreBeaten` | web/procmon/procmon.go:331-391 | for each row the cap drops, 300 published rows have at least its CPU, 300 its resident memory, 300 its video memory and 300 its threads |
| `Octets.CompareIsNumeric` | web/netmon/asn.go:104-106 | on keys of one width bytes.Compare is the order of the big-endian numbers |
| `RangeRows.ToFixedWidth` | web/netmon/geoip.go:38-63 | a key is as wide as its table, and no IPv4 address enters the IPv6 table in either form |
| `RangeRows.ReadRows` | web/netmon/asn.go:73-98 | the usable records are kept as rows, in file order; which those are is stated by FamilyRow and UsableExactly |
| `RangeRows.ToFixedExactly` | web/netmon/geoip.go:38-63 | toFixed gives the key k if and only if the address writes k: itself, or for IPv4 also in mapped form, which is no IPv6 address |
| `RangeRows.FamilyRow` | web/netmon/asn.go:85-98 | a record gives the row of its two ends if and only if both are addresses of the family of the table |
| `RangeRows.UsableExactly` | web/netmon/asn.go:100-102 | a file gives an empty table if and only if no record has both ends in the family |
| `RangeRows.FileAnswers` | web/netmon/asn.go:62-155 | for any order the sort leaves, the scan finds the label of a record that encloses the address, and finds nothing if and only if no record does |
| `RangeRows.SortedRanges` | web/netmon/asn.go:104-106 | rows sorted by bytes.Compare are sorted by numeric start |
| `RangeRows.MaxKeyValue` | web/netmon/asn.go:118-125 | the running maximum of end keys is the running maximum of the end numbers |
| `RangeRows.ScanFindsRow` | web/netmon/asn.go:135-155 | whatever order the sort leaves, a hit is a row of the file that contains the address and a miss means no row does |
| `Ranges.ScanMeaning` | web/netmon/asn.go:135-155 | the linear scan returns the greatest index whose range contains x |
| `Ranges.MostSpecificExactly` | web/netmon/asn.go:104-155 | in every ascending order the unstable sort may leave, every answer lies within every range that contains x, if and only if a range that starts inside another also ends inside it |
| `Ranges.EqualStartsAreAmbiguous` | web/netmon/asn.go:104-106 | an instance: two rows with one start are not nested both ways, and the answer depends on the order the sort left |
| `RangeRows.NestedRowsAnswerBest` | web/netmon/asn.go:104-155 | a file whose ranges are nested answers with the most specific row however it was sorted |
| `RangeRows.LookupsAnswerBestExactly` | web/netmon/geoip.go:110-161 | for every sort of the rows the lookups of all addresses answer with the most specific row, if and only if the ranges of the file are nested |
| `AsnTable.Fill` | web/netmon/asn.go:118-128 | the packed arrays hold the starts, the ends and the running maximum of the ends, row by row |
| `AsnTable.NewAsnDB` | web/netmon/asn.go:62-130 | none if and only if no record has both ends in the family of the table; otherwise the sorted rows of the file in the packed layout |
| `AsnTable.AsnDB.FirstAfter` | web/netmon/asn.go:139-141 | the binary search splits the packed starts at x |
| `AsnTable.AsnDB.Find` | web/netmon/asn.go:135-155 | the walk back over the packed columns returns what the linear scan returns, for overlapping, nested and inverted rows |
| `AsnTable.AsnState.Load` | web/netmon/asn.go:170-182 | both tables are published, and ready, if and only if each file has a record of its family |
| `AsnTable.AsnState.AsnLookup` | web/netmon/asn.go:194-225 | for either family the owner of a record of that file that encloses the address, bare or mapped, and no owner if and only if no record does; nothing before the files are loaded or for a text that is no address |
| `CountryTable.Fill` | web/netmon/geoip.go:116-134 | the slice columns hold the rows and the running maximum |
| `CountryTable.NewCountryDB` | web/netmon/geoip.go:68-134 | none if and only if no record has both ends in the family of the table; otherwise the sorted rows of the file |
| `CountryTable.CountryDB.Lookup` | web/netmon/geoip.go:138-161 | the second layout returns the label of the row the same linear scan finds |
| `CountryTable.GeoState.Load` | web/netmon/geoip.go:176-188 | both tables are published, and ready, if and only if each file has a record of its family |
| `CountryTable.GeoState.Country` | web/netmon/geoip.go:199-230 | for either family the country of a record of that file that encloses the address, bare or mapped, and none if and only if no record does; nothing before the files are loaded or for a text that is no address |
| `Decimal.FormatInt` | web/netmon/netlink.go:231-251 | the 20-byte buffer filled from the back always suffices and holds the decimal text |
| `Decimal.ItoaReadsBackExactly` | web/netmon/netlink.go:231-251 | the text reads back as the number if and only if it is not the most negative 64-bit integer |
| `Netlink.ErrorTextReadsBack` | web/netmon/netlink.go:144-154 | every error text ends in the negated code, whatever the payload |
| `Netlink.DiagSocket.ParseRtattrs` | web/netmon/netlink.go:192-212 | on arbitrary bytes the attribute walk ends in range and stores the counters of the last long enough INFO attribute |
| `Netlink.LastInfoMeaning` | web/netmon/netlink.go:200-209 | which attribute supplies the counters: the last one that is INFO and at least 136 bytes long |
| `Netlink.ParseDiagMsg` | web/netmon/netlink.go:168-188 | a payload of 72 bytes or more gives one socket with its decoded fields, a shorter one none |
| `Netlink.ParseDatagram` | web/netmon/netlink.go:133-163 | on arbitrary bytes the message walk ends in range; its calls and results are those of the recursive decoder |
| `Netlink.NetlinkDump` | web/netmon/netlink.go:109-126 | the receive loop concatenates the calls of the datagrams until DONE, an error or an empty read |
| `Netlink.DecodeIPMeaning` | web/netmon/netlink.go:216-228 | an IPv4 peer is the same four bytes under either family, and any other IPv6 field stays itself |
| `NetlinkWire.AttrsRoundTrip` | web/netmon/netlink.go:192-212 | decoding an encoded, padded attribute list gives the attributes |
| `NetlinkWire.DiagRoundTrip` | web/netmon/netlink.go:168-188 | decoding an encoded inet_diag message gives its fields; its counters are stated by CountersArrive |
| `NetlinkWire.CountersArrive` | web/netmon/netlink.go:192-212 | tx and rx are the numbers at bytes 120 and 128 of the last INET_DIAG_INFO attribute of at least 136 bytes, and unknown without one |
| `NetlinkWire.StreamRoundTrip` | web/netmon/netlink.go:133-163 | decoding an encoded message list means its messages, in order, up to the first DONE or ERROR |
| `NetlinkWire.SocketsInOrder` | web/netmon/netlink.go:133-163 | for a list of socket messages fn is called once a message, in order, with the encoded fields |
| `NetlinkWire.StreamThenTail` | web/netmon/netlink.go:133-163 | a stream decodes message by message whatever bytes follow it |
| `NetlinkWire.BadTailIsIgnored` | web/netmon/netlink.go:134-140 | a cut-off or malformed last message does not disturb the ones before it |
| `NetlinkWire.ErrorNamesErrno` | web/netmon/netlink.go:144-154 | an ERROR message with -errno yields a text naming errno, and zero yields no error |
| `NetlinkWire.ErrorOfOtherCode` | web/netmon/netlink.go:144-154 | a code that is not negative gives its negation, and the most negative 32-bit code, which has none, itself |
| `NetlinkWire.AnySplitGivesTheSameCalls` | web/netmon/netlink.go:108-128 | however a dump is cut into non-empty datagrams at message boundaries, the calls and the result are the same |
| `NetlinkWire.InterruptsAreSkipped` | web/netmon/netlink.go:109-116 | an interrupted receive, wherever it happens, changes neither the calls nor the result |
| `NetlinkWire.ReceiveEnds` | web/netmon/netlink.go:109-121 | a failed receive ends the dump with its error and an empty one without, and the calls so far stand |
| `NetlinkWire.DumpGoesOn` | web/netmon/netlink.go:108-128 | receipts go on where the ones before them left off, unless those ended the dump |
| `Bandwidth.Rates` | web/netmon/netmon.go:340-348 | a rate is the saturating growth over the time, and zero without both counters or without time |
| `Bandwidth.AccountSocket` | web/netmon/netmon.go:339-404 | one pass of the socket loop adds exactly one row, one tally of each kind and one contribution to a process |
| `Bandwidth.AddKeepsAccounts` | web/netmon/netmon.go:339-404 | such a pass keeps every accumulator equal to the counts and sums over the sockets met so far |
| `Bandwidth.AccountSockets` | web/netmon/netmon.go:339-404 | the whole loop, for any order in which the map yields its keys |
| `Bandwidth.AccountListeners` | web/netmon/netmon.go:406-416 | the listener loop adds names and listen rows without repeats |
| `Bandwidth.ListProcesses` | web/netmon/netmon.go:418-421 | one process row a pid, in whatever order the map yields them |
| `Bandwidth.Build` | web/netmon/netmon.go:312-440 | for every order of the maps the snapshot is the capped, stably sorted rows and the exact tallies |
| `BandwidthLaws.SocketsAreConserved` | web/netmon/netmon.go:358-380 | private peers plus categories add up to the number of sockets, and countries never exceed categories |
| `BandwidthLaws.ProcessesAreConserved` | web/netmon/netmon.go:398-404 | over the process rows, connections add up to the attributed sockets and rx and tx to their rates |
| `BandwidthLaws.OneRowPerProcess` | web/netmon/netmon.go:398-421 | exactly the pids of attributed sockets and listeners have a row, each has one, and its figures are the sums over its sockets |
| `BandwidthLaws.ListenListIsExact` | web/netmon/netmon.go:406-416 | the listen list of a process holds each of its listening sockets once and nothing else |
| `BandwidthLaws.NamedWhenKnown` | web/netmon/netmon.go:321-337 | a process carries a name that occurs, and a known one as soon as any of its sockets or listeners has one |
| `BandwidthLaws.NameIsFirstKnown` | web/netmon/netmon.go:321-337 | of the names its sockets and then its listeners give it, a process carries the first known one, and the first of all when none is known |
| `BandwidthCounts.CategoriesCountPeers` | web/netmon/netmon.go:361-377 | each category counts the sockets with a global peer whose known network is put there, and "unknown" also those with a global peer of no known network |
| `BandwidthCounts.CountriesCountPeers` | web/netmon/netmon.go:363-366 | each country counts the sockets with a global peer that the table puts there; an empty code is not counted |
| `BandwidthCounts.PrivateCountsPeers` | web/netmon/netmon.go:378-380 | the private count is the number of sockets whose peer is not global |
| `BandwidthCounts.ConnsCountSockets` | web/netmon/netmon.go:398-404 | the connections of a process are the sockets attributed to its pid |
| `BandwidthCounts.RowsSay` | web/netmon/netmon.go:350-396 | one row a socket before the cap, with its local end, peer, port and owner; host, country, network and category as the world gives them for a global peer, and empty for any other |
| `BandwidthLaws.PublishedRowsLead` | web/netmon/netmon.go:422-461 | no published process or connection has less bandwidth than one the cap dropped, and nothing is dropped below 512 rows |
| `BandwidthLaws.OrderDoesNotMatter` | web/netmon/netmon.go:339-421 | two walks of the same maps in different orders list the same connection rows and pids, and agree in every tally and in every process figure except the name |
| `Tallies.Partition` | web/netmon/netmon.go:398-404 | adding weights key by key gives the weight of everything that has a key |
| `Sampler.RunSampler` | web/netmon/netmon.go:186-217 | a run publishes one snapshot a successful tick, built from that tick and the last successful one |
| `Sampler.StepsAreTaken` | web/netmon/netmon.go:186-217 | publication i is made of the i-th successful turn, its listeners, the successful turn before it and the time between the two, or of the initial snapshot and its time for the first |
| `Sampler.RowsCarryTheRates` | web/netmon/netmon.go:382-396 | the connection row of a socket carries the rates of its two counters |
| `Sampler.RatesAddUpToGrowth` | web/netmon/netmon.go:186-217 | over any run whose clock advances, rate times time adds up to the growth between successive successful snapshots, so failed snapshots lose nothing |
| `Sampler.PublishedRowsAddUpToGrowth` | web/netmon/netmon.go:186-217 | over such a run the rows behind the published snapshots, before the cap, carry exactly the growth of the counters of every socket |
| `Sampler.GrowthTelescopesExactly` | web/netmon/netmon.go:442-447 | that growth is the last value minus the first if and only if the counter never falls, and more otherwise |
| `Sampler.RunTelescopes` | web/netmon/netmon.go:186-217 | over a run whose clock advances, a socket known in every successful snapshot with a counter that never falls is carried as exactly last minus first |
| `Bits.MaskClearsLowBits` | web/netmon/classify.go:64-72 | masking with leading ones clears the low bits |
| `Networks.MaskedValue` | web/netmon/classify.go:91-100 | masking the bytes of an address clears the bits of its number beyond the prefix |
| `Networks.ContainsIsInterval` | web/netmon/classify.go:91-100 | the byte-wise mask comparison holds if and only if the number lies in the interval of the network |
| `Classify.GlobalV6Exactly` | web/netmon/classify.go:22-107 | over all IPv6 addresses that are not IPv4-mapped, in numbers: global if and only if in one of six exceptions, or in 2000::/3 or fec0::/10 and outside four blocks |
| `Classify.GlobalV4Exactly` | web/netmon/classify.go:22-107 | over all IPv4 addresses, in numbers: global if and only if one of two exceptions, or outside the special and the standard blocks |
| `Classify.MappedIsBare` | web/netmon/classify.go:77-80 | an IPv4-mapped address (section 2.5.5.2 of RFC 4291) is classified as its bare IPv4 form |
| `Classify.LastTestIsRedundant` | web/netmon/classify.go:101-105 | the final test of isLAN never decides: whatever fails it was caught by an earlier test |
| `Classify.LowCovers` | web/netmon/classify.go:36-47 | seven listed blocks cover exactly the addresses below 2000:: |
| `Classify.HighCovers` | web/netmon/classify.go:43-46 | nine listed blocks cover exactly 4000:: up to fc00::, and fe00::/9 |
| `Classify.NoAddressIsLocal` | web/netmon/classify.go:8-12 | a text that is no address counts as local |
| `Login.Server.HandleLogin` | web/server.go:376-411 | the reply and the new count and lock time, in all branches, of a request that is served alone |
| `Login.CountStaysBelowFive` | web/server.go:397-408 | between requests the count stays below five |
| `Login.WrongAttemptsAreSpaced` | web/server.go:376-411 | in any sequential run wrong attempts are spaced by half a second, and by thirty seconds for every five, less four for each accepted password |
| `Login.GuessingIsSlow` | web/server.go:376-411 | in any sequential run with r accepted passwords the (5m+4r+1)-th wrong one starts at least 32 m + 2 r seconds after the first, for every m |
| `Login.TheBoundIsReached` | web/server.go:376-411 | for every m and r a run that meets the bound, so it cannot be improved |
| `Login.RightPasswordResets` | web/server.go:388-394 | with one accepted password among them the sixth wrong attempt comes two and a half seconds after the first |
| `LoginSteps.CountWithinSleeping` | web/server.go:397-408 | in every interleaving of overlapping requests the count exceeds four only by failures whose requests still sleep |
| `LoginSteps.FailuresCostLocks` | web/server.go:376-411 | in every interleaving with at most k requests at a time, the failures counted are at most 4 + k for each lock, each accepted password and once more |
| `LoginSteps.SerialRunsAreSequential` | web/server.go:376-411 | with one request at a time, the critical sections taken as separate steps follow the sequential model |
| `LoginSteps.SequentialRunsArePlayed` | web/server.go:376-411 | and every sequential run is played by such steps |
| `LoginSteps.SerialRunsAreSlow` | web/server.go:376-411 | with one request at a time and r accepted, the (5m+4r+1)-th counted failure starts at least 32 m + 2 r seconds after the first |
| `LoginSteps.TwoAtOnce` | web/server.go:380-408 | two requests that overlap around the fifth failure: a sixth is counted two seconds after the first |
| `LoginSteps.OneAccepted` | web/server.go:380-408 | one request at a time, one of them accepted: a sixth failure is counted two and a half seconds after the first |
| `LoginSteps.BoundHoldsExactly` | web/server.go:376-411 | with at most k requests at a time and at most r accepted, the (5m+1)-th failure comes 32 m seconds after the first or later in every interleaving, if and only if k is one and r zero, or k is zero |
| `Mounts.UnescapeMount` | storage/store.go:436-452 | the index loop computes the specified decoding on arbitrary bytes |
| `Mounts.EscapeExactly` | storage/store.go:442-448 | an escape is decoded if and only if a backslash and the three octal digits of some byte stand there |
| `Mounts.UnescapeRestoresExactly` | storage/store.go:433-452 | decoding undoes the escaping of every name if and only if the backslash, or each of the digits zero to three, is among the escaped bytes |
| `Mounts.MountpointFromProc` | storage/store.go:406-431 | a match if and only if some delivered line names the target, fields being cut at UTF-8 white space; not found if and only if there is no match and the table could not be read to its end |
| `Mounts.NoSpaceInsideRunes` | storage/store.go:418 | white space never starts inside a UTF-8 rune, so cutting byte by byte is cutting rune by rune |
| `Mounts.SpaceWidthExactly` | storage/store.go:418 | white space of n bytes is found if and only if the n bytes are the UTF-8 form of one of the 25 code points with the Unicode property White_Space |
| `Mounts.WordOfName` | storage/store.go:418-423 | the first word of an escaped name is the escaped name up to its first white space left raw |
| `Mounts.FieldsOfName` | storage/store.go:418 | splitting a rendered name gives its escaped pieces between white space left raw, then the fields of what follows |
| `Mounts.LineNames` | storage/store.go:418-423 | for any unambiguous escapes a rendered line names exactly the second of the pieces of its device, its target and the rest |
| `Mounts.LineNamesItselfExactly` | storage/store.go:418-423 | when a rendered line names its own target: behind a one-word device if and only if none of its white space is left raw, behind a longer one if and only if it equals the second piece of the device |
| `Mounts.TableNames` | storage/store.go:406-431 | in a rendered table some line names a target if and only if it is the second piece of some mount |
| `Mounts.ScanIsRightExactly` | storage/store.go:406-431 | the scan answers rightly for every target if and only if the lines name targets of the table only, and every one of them |
| `Mounts.ScanIsRightForWords` | storage/store.go:406-431 | when the devices are single words, it does if and only if no target holds white space left raw |
| `Mounts.RawReturnIsMisread` | storage/store.go:418-423 | with the escapes of /proc/mounts, a target with a carriage return is taken for its parent directory |
| `Mounts.DeviceReturnIsMisread` | storage/store.go:418-423 | and a device with a carriage return makes a path look mounted that is not, in place of a target without white space |

## Left out

- Kdf.ScryptKey: running out of memory is not modelled; tables below 2^63 words are always allocated.
- HMAC-SHA256 is any function from key and message to 32 bytes; base64, the random source and constant-time comparison are left out.
- loadAuth, saveAuth, verifyPw: file format and file permissions, input and output only.
- Integers of Go are taken as 64 bits wide; 32-bit builds are not modelled.
- container/list: the list is a sequence of element references, so its pointer surgery is not modelled; elements and the map entries pointing at them are.
- resolve: a disabled resolver and a cache hit change no shared state of the protocol and are not steps; the cache is treated as its own object.
- RdnsHost strings stand for byte strings; the DNS lookup itself is left out.
- inputmon devices: opening, ioctl queries, event decoding, the key-name table and the recover handlers are left out; the AUDIT_START record is no step either; scanners, readers and their log are.
- logFields: write errors are dropped by the program and do not occur in the model.
- Repr.ReprSingle: works on the decoded runes, so bytes that are not valid UTF-8 have already become the replacement character; unicode.IsPrint is any predicate.
- tail and tailLines: the 512 KiB window and the line standing for an unreadable file are left out; the log texts are arbitrary inputs.
- Timestamps and rates are real numbers: rounding, NaN and the printing of floats are not modelled, and strconv.ParseFloat is any partial function.
- net.ParseIP, net.ParseCIDR, encoding/csv and sort.Slice are library code: parsed addresses, networks, records and some sorting function are inputs. parseCIDRs is therefore represented by its result.
- The country and provider names, categorize, asnLookup and the resolver enter build as arbitrary functions.
- build: the aggregates are values in a map rather than objects behind pointers; the set used to find repeated listen rows is the row list itself.
- runSampler: panics, the sleeping and the lock around the published state are left out; a run is any finite number of turns.
- Netlink sockets: opening, binding and the request are left out; datagrams are arbitrary inputs of any length.
- Login.Server.HandleLogin: serves one request at a time; overlapping requests are the steps of LoginSteps.
- mountpointFromProc: the scanner's buffer limit shows only as an error flag.
- procmon: reading /proc, splitStat and the rounding of percentages would add only single-lookup facts.
- storage Up, Init and Down, the doctor, the installer, the toggles, the shell hooks, HTTP routing and the pages: thin wrappers over external tools, or user interface.
