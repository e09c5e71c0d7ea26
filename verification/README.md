# uwufetch, modelled in Dafny

This project models the text-processing core of uwufetch, a system-information
program that prints facts about the machine "uwu-ified". What remains of uwufetch.c
once the I/O is taken away is modelled here:

- **Stdio** (`stdio.dfy`) gives meaning to the C library calls the core relies on:
  - `fgets` is a function that chops a stream into chunks.
  - `sscanf` is an engine over format directives: literals, white space, `%[..]`
    scansets, `%s`, `%d`/`%i`/`%u` and `%N[^\n]`. It returns EOF (-1), 0 or the
    number of stored conversions, as C does.
  - `%d`/`%u` printing is `NatString`/`IntString`.
- **CStrings** (`text.dfy`) models the string utilities:
  - `strstr`/`strcasestr`;
  - the `replace` and `replace_ignorecase` loops;
  - `remove_brackets`, on a `char` array;
  - `truncate_name`;
  - the single-space `strsep`.
- **Theme** (`theme.dfy`) models the three theming functions:
  - `uwu_kernel` fills the 16 `splitted` slots and rebuilds the kernel string.
  - `uwu_name` is a whole-string lookup with the "unknown" fallback.
  - `uwu_hw` is a chain of case-insensitive replaces.
- **Cache** (`cache.dfy`) has `struct info` as the class `Info`, whose fields its
  methods update. It covers:
  - `write_cache`'s `key=value` format;
  - `read_cache`'s per-line `sscanf` fold;
  - the round trip between the two.
- **Config** (`config.dfy`) models two things:
  - `parse_config`'s per-line fold over the switches, `distro=` and `image="..."`;
  - the `UWUFETCH_CACHE_ENABLED` test in `main`.
- **Probes** (`probes.dfy`) models the line parsers of `get_info`. Each works on the
  lines its file or command would produce:
  - the os-release ID and the amogos check;
  - the host model;
  - cpuinfo's `model name`;
  - `free -m`'s `Mem:` line;
  - `xwininfo`'s Width and Height;
  - the GPU list filter;
  - the shell trim.
- **Packages** (`packages.dfy`) models `pkgman`'s loop, which sums the counts and
  builds `pkgman_name`.
- **Uptime** (`uptime.dfy`) models the day/hour/minute split of the UWUPTIME line,
  using C's truncating `/` and `%` on a `long`.

## Model

| member | source | states |
|---|---|---|
| Stdio.Fgets | uwufetch.c:259 | every chunk `fgets` hands back is non-empty and shorter than the buffer |
| Stdio.FgetsCoversStream | uwufetch.c:580 | the chunks, concatenated, are exactly the stream: nothing is lost or reordered |
| Stdio.FgetsOfShortLines | uwufetch.c:580 | a stream of lines that fit the buffer comes back one chunk per line, newline included |
| Stdio.Sscanf | uwufetch.c:581-593 | the return value is EOF (-1) with nothing stored, or the count of values stored, never more than the format's conversions |
| Stdio.RunStoresInOrder | uwufetch.c:581-593 | conversions only add values after those already stored, at most one per conversion directive |
| Stdio.SscanfAfterLiteral | uwufetch.c:581-593 | a literal key that the line starts with is consumed; input that ends inside the key gives EOF; a mismatch gives 0 |
| Stdio.RestOfLineStoresValue | uwufetch.c:581 | `%N[^\n]` on a non-empty value that fits the width stores the value without the newline |
| Stdio.TextLineStoresValue | uwufetch.c:581-593 | `key%N[^\n]` on `key<v>\n` stores `v`, or returns 0 when `v` is empty |
| Stdio.IntegerLineStoresValue | uwufetch.c:589-592 | `key%i` on `key<%d of n>\n` stores exactly `n`, negative numbers included |
| Stdio.NatString | uwufetch.c:353-354 | `%u` prints a non-empty run of digits with no leading zero |
| Stdio.NatStringValue | uwufetch.c:353-354 | the digits `%u` prints read back as the same number |
| Stdio.IntStringLength | uwufetch.c:546-554 | `%d` of a 32-bit int prints at most 11 characters |
| Stdio.ScanIntegerReadsIntString | uwufetch.c:589-592 | the integer conversion reads back what `%d` printed |
| Stdio.DecimalReads | uwufetch.c:945 | `%d` reads a run of decimal digits as its value and stops at the first non-digit |
| Stdio.SpacedNumberLine | uwufetch.c:1041-1042 | a blank followed by a printed number and a newline is read as that number |
| CStrings.Find | uwufetch.c:1100 | a match found by `strstr`/`strcasestr` lies inside the text |
| CStrings.FindSpec | uwufetch.c:1100 | the first match: it matches there, nothing matches before it, and no match anywhere is reported as none |
| CStrings.FindAfter | uwufetch.c:1100 | searching a text whose first `m` positions cannot match is searching from `m` on |
| CStrings.ReplaceEvery | uwufetch.c:1095-1127 | the replace loop (exact or case-insensitive) equals one left-to-right pass, leaves no occurrence of the term, and leaves a text without the term unchanged |
| CStrings.LengthWithin | uwufetch.c:1095-1127 | a longer replacer never shortens the text and a shorter one never lengthens it; once an occurrence is found, the length changes by at least the difference between replacer and term |
| CStrings.ReplaceAllLeavesNoMatch | uwufetch.c:1095-1127 | after replacement the term occurs nowhere, for replacers that cannot recreate it |
| CStrings.ReplaceAllLength | uwufetch.c:1095-1127 | each occurrence changes the length by the difference between replacer and term |
| CStrings.ReplaceAllNoMatch | uwufetch.c:1095-1127 | a text without the term is left as it is |
| CStrings.ReplacerWithTermKeepsMatching | uwufetch.c:1095-1127 | a replacer that contains the term puts it back after every pass, so such a loop never ends |
| CStrings.OverlappingReplacer | uwufetch.c:1095-1107 | a replacer that is not isolated from its term: the loop on "aab" with term "ab" and replacer "b" matches at 1, then at 0, then nowhere, ending at "b", while one left-to-right pass gives "ab" |
| CStrings.HelloWorld | uwufetch.c:1090-1094 | the documented example: "Hello World!" becomes "Hello everyone!" |
| CStrings.HelloWorldIsolated | uwufetch.c:1090-1094 | the documented example's replacer cannot recreate its term, so its loop ends |
| CStrings.IndexOf | uwufetch.c:1019-1027 | the position of the first occurrence of a character, or the length when it is absent |
| CStrings.WithoutBrackets | uwufetch.c:1448-1456 | removing brackets never lengthens a string |
| CStrings.WithoutBracketsAppend | uwufetch.c:1448-1456 | bracket removal works character by character: it distributes over concatenation |
| CStrings.WithoutBracketsHasNone | uwufetch.c:1448-1456 | no '[' or ']' is left |
| CStrings.WithoutBracketsCounts | uwufetch.c:1448-1456 | every other character keeps its count; the length drops by the number of brackets |
| CStrings.WithoutBracketsKeeps | uwufetch.c:1448-1456 | a string without brackets is unchanged |
| CStrings.WithoutBracketsIdempotent | uwufetch.c:1448-1456 | removing brackets twice is removing them once |
| CStrings.CLength | uwufetch.c:1449 | `strlen`: the position of the first NUL |
| CStrings.RemoveBrackets | uwufetch.c:1448-1456 | after the shifts, the C string holds the input with its brackets deleted and the rest in order, NUL-padded up to the old terminator; bytes beyond are untouched |
| CStrings.RemoveStep | uwufetch.c:1450-1455 | one pass of the outer loop keeps the invariant that the part before `i` plus the bracket-free rest is the input without brackets, and shrinks what is left to do |
| CStrings.ShiftLeft | uwufetch.c:1451-1453 | the inner loop moves the tail of the string one place left, over position `i`, shortening it by one |
| CStrings.TruncateName | uwufetch.c:1440-1445 | as written, `truncate_name` leaves the caller's buffer exactly as it was |
| CStrings.TruncateNameKeepsLongNames | uwufetch.c:1440-1445 | a C string longer than the target width, passed to `truncate_name`, still has its full length, above the width, while the intended truncation of it is exactly the width |
| CStrings.Truncate | uwufetch.c:1440-1445 | the evident intent: a prefix of the name, cut to the width when longer, the whole name otherwise |
| CStrings.Strsep | uwufetch.c:1273-1287 | the token has no space; token, one space and rest rebuild the input; without a space the token is the whole input; a null input gives a null token |
| CStrings.Split | uwufetch.c:1299-1302 | splitting with `strsep` always yields at least one token |
| CStrings.JoinSplit | uwufetch.c:1299-1302 | joining the tokens with single spaces rebuilds the string, empty tokens included |
| CStrings.SplitJoin | uwufetch.c:1299-1302 | splitting a join of space-free tokens gives the tokens back |
| CStrings.SplitTokensHaveNoSpace | uwufetch.c:1299-1302 | no token holds a space |
| CStrings.SplitCount | uwufetch.c:1299-1302 | there is one token more than there are spaces |
| Theme.LookupSpec | uwufetch.c:1306-1347 | the table lookup finds the first row with that key, or nothing when no row has it |
| Theme.LookupFirst | uwufetch.c:1389-1428 | a row whose key no earlier row has is the one found |
| Theme.KernelSlots | uwufetch.c:1294-1351 | there are always 16 slots, whatever the number of tokens |
| Theme.StrsepSlots | uwufetch.c:1299-1302 | the `strsep` loop fills a fresh 16-slot array with the tokens, then empty slots |
| Theme.UwuKernel | uwufetch.c:1290-1353 | the kernel string becomes the 16 slots, each token mapped through the table, joined with single spaces |
| Theme.KernelShape | uwufetch.c:1349-1350 | the result is the mapped tokens joined, then one space for each empty slot |
| Theme.KernelWithoutKeys | uwufetch.c:1306-1347 | a kernel with no token equal to a key comes back unchanged, followed by the trailing spaces |
| Theme.UnameSplit | uwufetch.c:1299-1302 | `sysname release machine` splits into its three fields |
| Theme.UnameKernel | uwufetch.c:1290-1353 | the uname kernel string is themed field by field and ends in 13 spaces |
| Theme.KernelKeysDistinct | uwufetch.c:1306-1347 | every kernel key occurs once, so a token matches at most one mapping |
| Theme.KernelWordRenames | uwufetch.c:1306-1347 | each key of the kernel table is mapped to its own themed word |
| Theme.UwuNameRenames | uwufetch.c:1389-1428 | each known distribution name becomes its themed name |
| Theme.UwuNameFallsBack | uwufetch.c:1430-1431 | any other name becomes "unknown" |
| Theme.UwuNameFits | uwufetch.c:1381-1438 | the themed name is never empty and fits the 64-byte `version_name` |
| Theme.UwuNameTwice | uwufetch.c:1381-1438 | theming an already themed name gives "unknown" |
| Theme.NameKeysLetters | uwufetch.c:1389-1428 | every distribution name of the table is made of letters and '-' |
| Theme.UwuNameForeignChar | uwufetch.c:1381-1438 | a name holding any other character, a quote say, becomes "unknown" |
| Theme.NameKeysDistinct | uwufetch.c:1389-1428 | every distribution name occurs once in the table |
| Theme.ThemedNamesAreNotKeys | uwufetch.c:1389-1428 | no themed name is itself a key |
| Theme.HwIsolated | uwufetch.c:1360-1375 | no replacer of `uwu_hw`, with its `\b` characters, can recreate its term, so each replace loop ends |
| Theme.HwToUwu | uwufetch.c:1355-1379 | one replace call of `uwu_hw`: its stage, with no occurrence of its term left |
| Theme.UwuHw | uwufetch.c:1355-1379 | `uwu_hw` applies the 17 replaces in table order |
| Theme.HwStageRemovesTerm | uwufetch.c:1355-1379 | right after its stage, a term occurs nowhere in the name |
| Theme.HwStagesKeep | uwufetch.c:1355-1379 | a name containing none of the terms passes through every stage unchanged |
| Theme.UwuHwKeepsPlainNames | uwufetch.c:1355-1379 | a name containing none of the terms is returned unchanged |
| Theme.BackspaceNeeded | uwufetch.c:1360-1375 | without the `\b`, the replacers "CCPUwU", "GGPUwU" and "Nyaapple" would contain their own terms |
| Cache.KeyedScanIsSscanf | uwufetch.c:581-593 | each `key=%..` scan of read_cache is the prefix case split KeyedScan |
| Cache.OtherKeyFails | uwufetch.c:581-593 | a line with one field's key is read by no other field's scan |
| Cache.ReadLinesAppend | uwufetch.c:580-594 | reading lines is a left fold: reading `a + b` is reading `b` after `a` |
| Cache.ReadLineGpun | uwufetch.c:587-588 | `gpun` grows by one exactly on a line whose `gpu=` scan returns non-zero |
| Cache.GpunGrows | uwufetch.c:580-594 | the GPU counter never goes back |
| Cache.Info.constructor | uwufetch.c:104-110 | a fresh, zeroed `struct info` with 64 empty GPU entries |
| Cache.Info.WriteCache | uwufetch.c:529-567 | the file text is the printed record: the scalar lines in order, then one `gpu=` line per GPU before the first empty entry |
| Cache.Info.ReadLineInto | uwufetch.c:581-593 | one turn of read_cache's loop updates the struct and counter as the line fold says |
| Cache.Info.ScanFirst | uwufetch.c:581-586 | user, host, version_name, host_model, kernel and cpu_model each take their scan's value when it stored one; nothing else changes |
| Cache.Info.ScanGpu | uwufetch.c:587-588 | a stored GPU goes into slot `gpun`; the counter grows whenever the scan is non-zero, EOF included |
| Cache.Info.ScanLast | uwufetch.c:589-593 | screen size, shell, pkgs and pkgman_name each take their scan's value when it stored one; nothing else changes |
| Cache.Info.ReadCache | uwufetch.c:570-598 | returns 0 and changes nothing without a file; otherwise returns 1 and holds what the line fold gives |
| Cache.ScanPrinted | uwufetch.c:546-593 | a scalar line as written is scanned back to its value; an empty text value scans as 0 |
| Cache.ReadScalarLine | uwufetch.c:546-593 | reading a written scalar line sets exactly that field and leaves every other field and the GPUs alone |
| Cache.CacheRoundTrip | uwufetch.c:529-598 | reading back what write_cache wrote, into a zeroed struct, restores every written field and the GPUs before the first empty one, with the counter at their number |
| Cache.CacheFileFits | uwufetch.c:529-598 | a written file never exceeds the 64 GPU slots nor overruns a 64-byte field when read back |
| Cache.UnknownLineIgnored | uwufetch.c:580-594 | a line that neither starts with a key nor is a prefix of one changes nothing (a last chunk such as "gpu" is a prefix of `gpu=` and is counted, Cache.TruncatedGpuLineCounted) |
| Cache.TruncatedGpuLineCounted | uwufetch.c:587-588 | a line cut inside `gpu=` makes the scan return EOF, so the counter grows with nothing stored |
| Cache.EmptyGpuNotCounted | uwufetch.c:587-588 | an empty `gpu=` value stores nothing and is not counted |
| Cache.OtherLineNotCounted | uwufetch.c:587-588 | a line with another field's key does not move the GPU counter |
| Cache.KeyedLineOverrun | uwufetch.c:583-593 | a keyed line whose value fits 64 bytes cannot overrun the narrow fields |
| Config.SetGet | uwufetch.c:245-299 | setting one switch changes that switch only |
| Config.DefaultsShowEverything | uwufetch.c:245-246 | the defaults show every field and select ascii mode |
| Config.SwitchScanAnswers | uwufetch.c:262-298 | a switch scan is non-zero exactly when the line answers that switch, and it stores the answer's word |
| Config.StepsDecide | uwufetch.c:276-298 | across the switch tests, a switch the line names is decided by its answer and every other switch keeps its value |
| Config.LineDecidesSwitch | uwufetch.c:259-300 | one config line sets each show switch from its own answer alone |
| Config.LineDecidesMode | uwufetch.c:262-275 | image mode follows a matched `image="..."` or `ascii=false` |
| Config.ImageLine | uwufetch.c:264-275 | `image="path"` selects image mode and expands a leading '~' to the user's home |
| Config.DistroLine | uwufetch.c:261 | `distro=<name>` sets version_name to the name |
| Config.KeyLine | uwufetch.c:276-298 | `<key>=<letters of truefalse>` answers with those letters |
| Config.LinesDecideSwitch | uwufetch.c:259-300 | over the whole file, a show switch is decided by its last answering line |
| Config.UserShownOnlyByTrue | uwufetch.c:276-277 | the user is shown exactly when no line answers `user=` or the last answer is exactly "true" |
| Config.HiddenOnlyByFalse | uwufetch.c:278-299 | any other show switch is off exactly when its last answer is exactly "false" |
| Config.TruncatedUserLineHides | uwufetch.c:276-277 | a line cut inside `user=` makes the scan return EOF, which hides the user |
| Config.RunSwitches | uwufetch.c:276-298 | the run of switch tests is the switch fold |
| Config.ParseChunk | uwufetch.c:260-299 | one turn of the loop is the line step |
| Config.ParseChunks | uwufetch.c:259-300 | the loop is the fold over the chunks |
| Config.ParseConfig | uwufetch.c:243-303 | parse_config is the fold over `fgets`'s chunks, or the defaults when the file cannot be opened |
| Config.CacheEnabledIff | uwufetch.c:158-169 | the cache is enabled exactly when the value starts with "true" or "TRUE", or is "1" not followed by another of the set's letters |
| Probes.IdScansAreSscanf | uwufetch.c:740-741 | the two os-release scans are the prefix case splits QuotedIdScan and PlainIdScan |
| Probes.ReadOsRelease | uwufetch.c:739-742 | the loop stops at the first line either scan accepts, EOF included, and keeps its ID |
| Probes.IdLine | uwufetch.c:740-741 | `ID=<id>` followed by a blank gives that id |
| Probes.QuotedIdMisses | uwufetch.c:740 | the quoted scan fails on an unquoted ID |
| Probes.PlainIdReads | uwufetch.c:741 | the plain scan reads an unquoted ID |
| Probes.QuotedIdLine | uwufetch.c:740 | a quoted ID keeps its closing quote, which `%s` swallows |
| Probes.QuotedIdUnknown | uwufetch.c:740 | as written, `ID="<key>"` for any key of uwu_name's table stores the key with its closing quote, which uwu_name turns into "unknown", while the bare key would be themed |
| Probes.UnquotingIdScanIsSscanf | uwufetch.c:740 | the corrected format `\nID="%[^"]"` is the prefix case split UnquotingIdScan |
| Probes.CorrectedQuotedIdLine | uwufetch.c:740 | corrected, `ID="<id>"` stops the search and stores the id without quotes |
| Probes.CorrectedPlainIdLine | uwufetch.c:741 | corrected, an unquoted `ID=<id>` is still read by the plain format |
| Probes.CorrectedQuotedIdThemed | uwufetch.c:740 | corrected, a quoted key of uwu_name's table is read as the key and themed |
| Probes.BlankLineStopsSearch | uwufetch.c:739-742 | a line of white space makes the scan return EOF, which stops the search with version_name unchanged |
| Probes.OtherLineSkipped | uwufetch.c:739-742 | a line whose first character is neither white space nor 'I' is passed over |
| Probes.Amogos | uwufetch.c:746-756 | the name becomes "amogos" exactly when it is debian or raspbian and the amogos theme exists, or already was amogos; otherwise it is kept |
| Probes.HostModelFirstLine | uwufetch.c:709-711 | the host model is the file's first line without its newline |
| Probes.HostModelWithoutNewline | uwufetch.c:709-711 | a file of at most 254 characters without a newline loses its last character |
| Probes.CpuScanIsSscanf | uwufetch.c:775 | the `model name` scan is the CpuScan step function |
| Probes.ReadCpuInfo | uwufetch.c:771-776 | the loop stops at the first line the scan accepts and keeps its model |
| Probes.CpuLine | uwufetch.c:775 | a cpuinfo `model name` line yields the model's name |
| Probes.MemScanIsSscanf | uwufetch.c:945 | the `Mem: %d %d` scan is the MemScan step function |
| Probes.ReadMemory | uwufetch.c:942-945 | the loop is the fold over the lines |
| Probes.MemLine | uwufetch.c:945 | a `Mem:` line of `free -m` gives its total and used columns |
| Probes.OtherLinesKeepMemory | uwufetch.c:942-945 | lines that do not start with 'M' leave the memory figures as they were |
| Probes.MemoryAppend | uwufetch.c:942-945 | the fold over the lines splits at any point, so the last matching line wins |
| Probes.DimensionScansAreSscanf | uwufetch.c:1041-1042 | the Width and Height scans are the DimensionScan step function |
| Probes.ReadResolution | uwufetch.c:1040-1043 | the loop is the fold over the lines |
| Probes.DimensionLine | uwufetch.c:1041-1042 | a `key n` line, after blanks, is read as `n` |
| Probes.WidthLine | uwufetch.c:1041 | an xwininfo Width line sets the width only |
| Probes.HeightLine | uwufetch.c:1042 | an xwininfo Height line sets the height only |
| Probes.GpuEntryOfChunk | uwufetch.c:1019-1027 | a line is taken exactly when it has no "Name", is not 2 characters long and does not start with a newline; it is taken up to its newline |
| Probes.ReadGpus | uwufetch.c:1019-1034 | the accepted lines fill the slots after `gpun` in order, and every used slot loses its brackets; the other slots are untouched |
| Probes.ReadGpuEntries | uwufetch.c:1019-1027 | the accepted lines fill the slots from `gpun` on, in order, and the counter ends at `gpun` plus their number; an accepted line that stored nothing leaves its slot as it was, and every other slot is untouched |
| Probes.ReadGpuChunk | uwufetch.c:1019-1027 | one pass over a line: a rejected line changes nothing; an accepted one advances the counter and writes its text, if the scan stored any, into slot `n` alone |
| Probes.StripGpuBrackets | uwufetch.c:1031-1034 | the first `gpun` slots lose their brackets; the rest are untouched |
| Probes.GpuEntriesGrow | uwufetch.c:1019-1027 | one more line adds at most one GPU, at the end |
| Probes.GpuEntriesPrefix | uwufetch.c:1019-1027 | fewer lines never give more GPUs |
| Probes.NameLineSkipped | uwufetch.c:1020-1021 | a line containing "Name" adds no GPU |
| Probes.GpuNamesHaveNoBrackets | uwufetch.c:1031-1034 | a stored GPU name has no brackets left |
| Probes.ShellTrim | uwufetch.c:830-837 | a shell of at most 16 characters is kept; a longer one loses its first 27; 17 to 26 characters leave nothing |
| Packages.Pkgman | uwufetch.c:306-360 | pkgman returns the sum of the counts and appends the summary to pkgman_name, changing no other field of the struct |
| Packages.CountPackages | uwufetch.c:333-360 | the loop adds each count to the total and appends `<count> <label>` for the non-zero ones, separated by ", " |
| Packages.EntriesStep | uwufetch.c:343-359 | one more manager: its count joins the total, and a non-zero one is appended after a separator when entries came before |
| Packages.CountScanOnce | uwufetch.c:343 | `fscanf` with one `%u` returns at most 1, so the `== 3` test never skips a manager |
| Packages.NothingInstalled | uwufetch.c:333-360 | the summary is empty exactly when every count is zero |
| Packages.EntriesEmpty | uwufetch.c:333-360 | there are no entries, and the total is zero, exactly when every count is zero |
| Packages.JoinedIsEmpty | uwufetch.c:349-359 | the joined summary is empty only when there are no entries |
| Packages.JoinedEnds | uwufetch.c:349-359 | the summary starts with the first entry and ends with the last: no leading or trailing separator |
| Packages.JoinedLength | uwufetch.c:349-359 | the summary's length is the entries' lengths plus two for each separator |
| Packages.EntriesAppend | uwufetch.c:333-360 | managers are independent: entries and totals of two stretches of the table concatenate and add |
| Packages.AllInstalled | uwufetch.c:333-360 | when every manager has packages, every manager appears, in table order |
| Packages.Entries | uwufetch.c:333-360 | there is at most one entry per manager, and no entry is empty |
| Uptime.Quot | uwufetch.c:500-518 | C's `/` by a positive divisor: the quotient is truncated toward zero |
| Uptime.Rem | uwufetch.c:500-518 | C's `%`: quotient times divisor plus remainder is the dividend, and the remainder takes the dividend's sign |
| Uptime.Split | uwufetch.c:500-518 | minutes exactly for 0 to 3599, hours and minutes for 3600 to 86399, days otherwise, negative uptimes included |
| Uptime.NestedQuotients | uwufetch.c:504-516 | dividing by 60 twice is dividing by 3600, and dividing that by 24 is dividing by 86400 |
| Uptime.SplitSeconds | uwufetch.c:500-518 | in every branch, the span shown is the uptime cut to whole minutes toward zero |
| Uptime.UptimeShown | uwufetch.c:500-518 | for a non-negative uptime, `d*86400 + h*3600 + m*60 <= uptime <` that plus 60; hours are under 24 (and at least 1 in the hours branch), minutes under 60, days at least 1 |
| Uptime.NegativeUptime | uwufetch.c:500-518 | a negative uptime shows days, hours and minutes that are all at most zero, the span being the uptime rounded up to the minute |

## Left out

- All actual I/O is outside the model and enters as parameters:
  - file and pipe contents (os-release, cpuinfo, `/sys` files, `lshw`, `lspci`, `free`, `xwininfo`, the package-manager commands);
  - environment variables;
  - whether a directory exists;
  - `uname`, `sysinfo` and `gethostname`.
- `fopen`/`popen` failures are an `Option`. `fclose`/`pclose` are not modelled.
- Packages.Pkgman: the count of each package manager is a parameter. What its command prints and the `fscanf` that reads it are not modelled, beyond CountScanOnce. An uninitialised `pkg_count` after a failed `fscanf` is not modelled.
- Packages.Pkgman: requires the total to fit a C `int` and `pkgman_name` to stay within its 64 bytes, instead of modelling the overflow.
- Rendering is not modelled: `print_info`'s ANSI output, `responsively_printf`'s clipping, `print_ascii`, `print_image`, `list`, `usage` and the colours. The uptime model stops at the numbers the three formats print.
- `getopt_long` handling in `main` (uwufetch.c:186-240) is not modelled.
- The Apple, FreeBSD and Windows branches are not modelled. This includes the Windows GPU filter's purpose and the FreeBSD/Apple `sysctl` host model. The Apple and FreeBSD branches use identifiers that are not declared, so they do not compile as written.
- The `lshw` GPU loop (uwufetch.c:993-995) and the choice of GPU command at uwufetch.c:998-1016 are not modelled. Probes.ReadGpus starts from any `gpun` and any array contents.
- The host model's second read (uwufetch.c:757-770) is not modelled. It lies outside every `#if`, and on Linux it reads `host_model_info` after `fclose` at uwufetch.c:712 closed it, which is undefined behaviour with no outcome to model; the `product_version` text it appends is only reached through that read.
- Theme.UwuName: the `print_image` side effect (uwufetch.c:1432-1435) is left out.
- Probes.ReadGpus: `truncate_name` is omitted from the loop. It leaves the buffer unchanged (CStrings.TruncateName).
- Corners that are undefined behaviour in C are not reproduced; the preconditions below rule them out.
- CStrings.ReplaceEvery: requires the 1024-byte buffer not to overflow, and a replacer that cannot recreate its term (Isolated). Isolated is sufficient, not necessary: for a replacer that can recreate its term, the loop may not end (CStrings.ReplacerWithTermKeepsMatching, when the replacer contains the term) or may end with a result other than one left-to-right pass (CStrings.OverlappingReplacer). Such calls are not modelled; every replace in `uwu_hw` is isolated (Theme.HwIsolated).
- Theme.UwuHw: requires every stage to be shorter than 256 bytes, because `replace_ignorecase` copies each result back into the 256-byte `cpu_model`, `host_model` or `gpu_model` entry (uwufetch.c:1124); an overflow of that member is not modelled.
- Theme.UwuKernel: requires at most 16 tokens of under 128 bytes each and a result that fits `kernel`.
- Probes.ReadGpus: requires the GPUs found to fit the 64-entry array.
- Cache.Info.ReadCache: requires the GPU counter to stay within 64 and no `%99[^\n]` value to overrun a 64-byte member; Cache.CacheFileFits proves both for any file write_cache produced.
- Cache.Info.WriteCache: requires an empty GPU entry, at which its loop stops; without one it reads past the array.
- Config.ParseConfig: requires every `%s`/`%[..]` value to fit its buffer (LinesFit).
- Probes.Shell, Probes.ShellTrim: require a value of at most 37 characters, because a longer one makes `memmove` read past the 64-byte buffer.
- Config.CacheEnabledIff: requires a value whose first letter is in the scanset; otherwise `buffer` stays uninitialised.
- Integer overflow of `%d`/`%i` conversions is not modelled: numbers are unbounded.
- Probes.HostModel: requires a non-empty file, because on an empty one `fgets` stores nothing and `strlen` reads the uninitialised `line` (uwufetch.c:709-710).
- CStrings.TruncateName: requires `0 < targetWidth <= name.Length`. When stdout is not a terminal, `ws_col` is 0 and `target_width` is -30 (uwufetch.c:683), so `char arr[target_width]` is undefined behaviour; a terminal of 30 columns or fewer does the same, and a width past the buffer makes the copy read past it. None of these is modelled.
- A NUL byte inside the board-name file, which would end `strlen` early, is not modelled (Probes.HostModel).
- Probes: the widths of version_name, cpu_model and host_model are not checked against what `%s` and `%[^\n]` store.
- Methods are split into several for verification:
  - `read_cache`'s loop body is split into ScanFirst, ScanGpu and ScanLast, in source order;
  - the GPU section is split into ReadGpuEntries and StripGpuBrackets;
  - `pkgman` is split into Pkgman and CountPackages.
- Probes.ReadOsRelease keeps the quoted format as written; the corrected test is Probes.CorrectedIdScan, proved about but not used by the loop, so that the loop stays the code's.
- Where the two differ, the model follows the code:
  - `read_cache` returns 1 for any file it can open, even an empty one;
  - a negative uptime takes C's truncating division into the default branch.

## Findings

| source | as written | input that shows it | evidently intended | confidence | as-written member | corrected member |
|---|---|---|---|---|---|---|
| uwufetch.c:1440-1445 | `truncate_name` assigns the shortened pointer to its own parameter, so the caller's GPU name is never cut | a GPU name of 40 characters with target width 10 is still 40 characters | the name is cut to the target width | not executed | CStrings.TruncateNameKeepsLongNames | CStrings.Truncate |
| uwufetch.c:740 | `\nID="%s"` reads the id with `%s`, which runs to white space and so takes the closing quote along; the literal `"` after it never matches, but the scan has already stored one value | `ID="opensuse-tumbleweed"` stores `opensuse-tumbleweed"`, which uwu_name turns into "unknown" although its table has "opensuse-tumbleweed" | the id without its quotes, as `%[^"]` reads it | not executed | Probes.QuotedIdUnknown | Probes.CorrectedQuotedIdThemed |
