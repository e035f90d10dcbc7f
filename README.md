# server_info in Dafny

A model of the parsing and arithmetic core of `server_info`. This is a Linux
tool that prints a one-screen report of the host: the motherboard model, the
CPU model, the network traffic over one second, and the OS release label.
The model covers the helpers and the steps of `main` that turn file contents
into report values:

- **Text helpers** (`text.dfy`, module `Text`): `trim`, `is_starts_with`, and
  the two C library searches the parsers use (`strchr`, `strsep`).
- **Line locator** (`locator.dfy`, `LineLocator`):
  `get_line_with_prefix_from_file`, over a file given as its lines.
- **Field extractors** (`extract.dfy`, `FieldExtractors`): `get_cpu_name`,
  `get_pretty_release_name`, and the quote stripping `main` applies to the
  release name.
- **`/proc/net/dev` parsing** (`netdev.dfy`, `NetDev`): device
  enumeration, column reading, and `strtoull` on the counters.
- **Traffic measurement** (`traffic.dfy`, `Traffic`): the two accumulation
  loops of `main` and the unsigned difference of their totals.
- **Motherboard model** (`motherboard.dfy`, `Motherboard`):
  `file_read_as_string` and `get_motherboad_name`.

How things are represented:

- A C string is the sequence of characters before its NUL.
- A file is read whole as a string, or line by line as a sequence of strings.
  Each line is as `getline` returns it, so it keeps its newline.
- A NULL result is `None`. `None` also stands for the places where the source
  aborts or faults instead of returning: strdup(NULL) in the extractors
  (main.c:99, main.c:121), the NULL dereferences at main.c:175 and
  main.c:282-283, and the assert of get_net_device_traffic (main.c:170).
- The report values are built from the corrected versions of three helpers
  (see "## Findings"): `Text.Trim`, `NetDev.NetDeviceTraffic` and
  `FieldExtractors.Unquote`. Each has an as-written twin proved to differ from
  it on a named input.
- `unsigned long` is `NetDev.U64`. Every `+=` and `-` on it is taken modulo
  2^64 through `Traffic.Wrap`.

The imperative parts of the source are methods with loops, each proved equal
to a specification function:

- the two index walks of `trim`;
- the scan of `is_starts_with`;
- the `getline` loop with its found flag;
- the count-then-fill array of `get_net_devices_names`;
- the `+=` loops of `main`.

The straight-line call chains are functions.

## Model

| member | source | states |
|---|---|---|
| Text.Trim | main.c:20-27 | the result has no white space at either end, and it is empty exactly when the input is all white space |
| Text.TrimPadded | main.c:20-27 | a trimmed value with any white space on both sides trims back to that value |
| Text.TrimIsCore | main.c:20-27 | the result is a contiguous slice of the input with only white space before and after it |
| Text.TrimKeepsAbsent | main.c:20-27 | trimming adds no character: a character absent from the input is absent from the result |
| Text.TrimIdempotent | main.c:20-27 | trimming a trimmed string changes nothing |
| Text.TrimWalk | main.c:20-27 | the backward walk over len, then the forward walk over str and len, then strndup(str, len), compute exactly Trim |
| Text.BackwardWalkAsWritten | main.c:23 | the unguarded backward walk stops at the last non-space character, and it runs below index 0 exactly when no character before len is a non-space |
| Text.ForwardWalkAsWritten | main.c:24 | the forward walk stops at the NUL or at the first non-space character, and skips only white space |
| Text.TrimAsWritten | main.c:20-27 | trim as written has undefined behaviour exactly on all-white-space input, and on every other input it returns Trim |
| Text.TrimOfNewlineReadsOutOfBounds | main.c:23 | a line holding only "\n" is the input where the unguarded walk reads str[-1], while the corrected trim yields "" |
| Text.IsStartsWith | main.c:30-38 | the byte-by-byte scan returns 1 exactly when prefix is a prefix of str; running into str's NUL counts as a mismatch |
| Text.FirstIndex | main.c:142 | strchr as an index: the first occurrence of c with no c before it, or the length when c is absent |
| Text.Strsep | main.c:93-96 | strsep returns the token before the first delimiter and advances the pointer past it; with no delimiter it returns the whole string and sets the pointer to NULL; a NULL pointer gives a NULL token |
| Text.StrsepJoin | main.c:93-96 | strsep undoes a join: on a + [d] + b with no d in a, it returns a and leaves b |
| LineLocator.FirstLineWithPrefix | main.c:69-86 | a found line is one of the file's lines and starts with the prefix; FirstLineWithPrefixIsFirst and FirstLineWithPrefixNone make it the first such line, or NULL when there is none |
| LineLocator.FirstIndexWithPrefix | main.c:69-86 | the index of the first line starting with the prefix: no earlier line starts with it, and the index is the line count when no line does |
| LineLocator.FirstLineWithPrefixIsFirst | main.c:69-86 | the first line in file order on which the prefix matches at column 0 is the line returned |
| LineLocator.FirstLineWithPrefixNone | main.c:85 | NULL is returned exactly when no line starts with the prefix |
| LineLocator.EmptyPrefixMatchesFirstLine | main.c:30-38 | an empty prefix matches, so the first line of a non-empty file is returned |
| LineLocator.GetLineWithPrefix | main.c:69-86 | the getline loop with its found flag returns a line exactly when some line starts with the prefix, and that line is the first such line |
| FieldExtractors.ExtractField | main.c:93-102 | two strsep calls then the corrected trim: the value exists exactly when the line holds the delimiter; it holds no delimiter and no white space at either end (the source's trim instead reads out of bounds on a blank value) |
| FieldExtractors.ExtractFieldOfJoin | main.c:93-102 | round trip: "key<d>value" followed by nothing or by "<d>..." extracts to Trim(value) |
| FieldExtractors.ExtractFieldSplits | main.c:93-102 | every line holding the delimiter splits as key, delimiter, value and tail, and the extractor returns Trim(value) |
| FieldExtractors.CpuName | main.c:89-109 | the cpu name is present exactly when the first "model name" line holds a ':'; it has no ':' and no white space at either end |
| FieldExtractors.CpuNameExample | main.c:89-109 | "model name\t: Intel(R) Core(TM) i7\n" after a "processor" line gives "Intel(R) Core(TM) i7" |
| FieldExtractors.PrettyReleaseName | main.c:111-131 | the release name is present exactly when the first "PRETTY_NAME" line holds an '='; it has no '=' and no white space at either end |
| FieldExtractors.PrettyReleaseNameOfLine | main.c:111-131 | the first PRETTY_NAME=value line with an already trimmed value gives exactly that value |
| FieldExtractors.StripQuotesAsWritten | main.c:282-283 | the stripping as written succeeds exactly when the value holds a '"' and another '"' after it; the result holds no '"' |
| FieldExtractors.StripQuotesOfQuoted | main.c:282-283 | the result is exactly the text strictly between the first '"' and the next one |
| FieldExtractors.UnquotedReleaseNameCrashes | main.c:282-283 | an unquoted PRETTY_NAME such as Debian makes the first strchr return NULL, while the intended stripping keeps the value |
| FieldExtractors.Unquote | main.c:282-283 | an unquoted value is kept as it is, and a quoted value loses its quotes as the source does; the result holds no '"' |
| FieldExtractors.UnquoteKeepsAbsent | main.c:282-283 | stripping the quotes adds no character: one absent from the value is absent from the label |
| FieldExtractors.UnquoteIdempotent | main.c:282-283 | stripping an already stripped label changes nothing |
| FieldExtractors.ReleaseLabel | main.c:278-283 | the printed release label holds neither '"' nor '=', and it exists only when PRETTY_NAME was found |
| FieldExtractors.UnquoteQuoted | main.c:282-283 | a value in double quotes, with no quote inside, is printed without its quotes |
| FieldExtractors.ReleaseLabelExample | main.c:278-283 | PRETTY_NAME="Arch Linux" after a NAME line gives Arch Linux |
| NetDev.NameOf | main.c:157 | a device name is the line's text before its first ':', untrimmed, with the ':' right after it |
| NetDev.DeviceNames | main.c:154-161 | the enumerated names hold no ':' and there are no more of them than lines |
| NetDev.CountLinesWithColon | main.c:140-146 | the first pass counts at most one per line; DeviceNamesCount makes it the number of names the second pass copies |
| NetDev.DeviceNamesCount | main.c:140-149 | the counting pass and the copying pass agree: one name per line that holds a ':' |
| NetDev.DeviceNamesAppend | main.c:154-161 | names are taken in file order: the names of a + b are the names of a followed by those of b |
| NetDev.EnumeratedNameSource | main.c:154-161 | every enumerated name is the text before the first ':' of some line that holds one |
| NetDev.NameIsEnumerated | main.c:154-161 | the text before the first ':' of every line that holds one is enumerated |
| NetDev.DeviceNamesMember | main.c:154-161 | a string is an enumerated name exactly when some line holds a ':' and has that string before its first ':' |
| NetDev.GetNetDevicesNames | main.c:133-166 | the count pass sets length, and the array it allocates is filled, in file order, with the name of every line that holds a ':' |
| NetDev.Fields | main.c:14 | the white-space separated tokens that sscanf's %s conversions read, each non-empty and free of white space |
| NetDev.FieldsOfColumns | main.c:14 | columns separated by any white space are read back as exactly those tokens |
| NetDev.ParseCounter | main.c:177-178 | a token without a leading digit reads as 0, a digit-only token as its decimal value, and one too large for 64 bits as ULLONG_MAX; ParseCounterOfShow gives the round trip |
| NetDev.ParseCounterOfShow | main.c:177-178 | strtoull on a counter as the kernel prints it (decimal) gives back that counter |
| NetDev.DecimalValueOfShow | main.c:177-178 | the decimal reading of a printed number is the number |
| NetDev.ParseTrafficLine | main.c:174-178 | a parsed line holds a ':'; ParseTrafficRow makes the counters column 1 and column 9 after it |
| NetDev.ParseTrafficRow | main.c:168-179 | a device row yields column 1 after the ':' as rx and column 9 as tx; every other column is ignored |
| NetDev.NameFieldMatch | main.c:168-169 | a line starts with name + ":" exactly when its name field is name |
| NetDev.NetDeviceTraffic | main.c:168-179 | no contract of its own; NetDeviceTrafficOfFirstLine makes it the parse of the first line starting with name + ":", NetDeviceTrafficOfRow the device's own counters whatever rows precede it |
| NetDev.NetDeviceTrafficOfFirstLine | main.c:168-179 | the traffic lookup parses exactly the line get_line_with_prefix_from_file returns for name + ":", and fails when there is none |
| NetDev.NetDeviceTrafficAsWritten | main.c:168-179 | the lookup by the bare name agrees with the intended lookup by name + ":" whenever the first line starting with the name goes on with ':' |
| NetDev.EnumeratedDeviceIsFound | main.c:133-179 | every enumerated device has a line the intended lookup finds, and that line carries the device's name |
| NetDev.NetDeviceTrafficOfRow | main.c:168-179 | a device's counters are those of the first row carrying its name, whatever rows for other devices come before it |
| NetDev.PrefixLookupReadsOtherDevice | main.c:169 | with "enp0s31f6:" listed before "enp0s3:", the lookup by the bare name "enp0s3" returns the enp0s31f6 line, while the intended lookup returns enp0s3's own line |
| NetDev.PrefixLookupReadsOtherCounters | main.c:168-179 | with full rows of nine or more columns, enp0s31f6's before enp0s3's, whose rx counters differ: the bare-name lookups of both enp0s3 and enp0s31f6 return enp0s31f6's counters, the intended lookup of enp0s3 returns enp0s3's own, and the two lookups of enp0s3 differ |
| Traffic.Samples | main.c:242-250 | the counters one sampling pass reads, one per listed device, each located by name + ":"; SamplesAreLookups, SamplesMissingDevice and CollectMissingPrefix pin down its value and when it fails |
| Traffic.SnapshotTotals | main.c:242-250 | total_in and total_out after one corrected pass: the wrapped sums of Samples; SampleTotals proves the += loop computes it and TrafficRateOfSnapshots that the traffic is the difference of two of them |
| Traffic.LookupsAsWritten | main.c:242-250 | the lookups of one pass as main.c:169 makes them, by bare name, one per listed device; LookupsAsWrittenAgree says when they equal the corrected lookups |
| Traffic.SnapshotTotalsAsWritten | main.c:242-250 | total_in and total_out after one pass as written; SnapshotTotalsAsWrittenAgree says when it equals SnapshotTotals, and PassOverTwo with NetDev.PrefixLookupReadsOtherCounters shows it counting enp0s31f6 twice |
| Traffic.SamplesAreLookups | main.c:242-250 | a successful pass holds every device's counters, in list order |
| Traffic.SamplesMissingDevice | main.c:170 | a pass fails only where some listed device has no usable line, the case where the assert aborts |
| Traffic.CollectMissingPrefix | main.c:242-250 | once one lookup of the pass has failed, the whole pass fails |
| Traffic.PassOverTwo | main.c:242-250 | a pass over two devices totals, modulo 2^64, whatever its two lookups return, for the pass as written (bare-name lookups) and for the corrected pass (name + ":" lookups), the two sets of lookups being independent |
| Traffic.LookupsAsWrittenAgree | main.c:244-249 | the lookups of a pass as written, by bare name, are the corrected lookups whenever every bare name first matches the same row as the name with its ':' |
| Traffic.SnapshotTotalsAsWrittenAgree | main.c:242-250 | under that condition the totals of the pass as written equal the totals SampleTotals computes |
| Traffic.Delta | main.c:241-268 | the same pass twice gives zero traffic; DeltaIsSumOfDeltas shows it is the sum of the per-device deltas modulo 2^64, DeltaOfWrappedTotals that wrapping inside the sums does not change it |
| Traffic.TrafficRate | main.c:241-268 | the same snapshot twice gives zero traffic; TrafficRateDefined says when it exists, TrafficRateOfSnapshots and MeasureTraffic that the two passes compute it |
| Traffic.SampleTotals | main.c:242-250 | the += loop leaves each total at the sum of the devices' counters modulo 2^64 |
| Traffic.Accumulate | main.c:248-249 | adding to a wrapped running total gives the wrapped exact sum |
| Traffic.RateOfTotals | main.c:267-268 | subtracting the wrapped start totals from the wrapped end totals gives the traffic, modulo 2^64 |
| Traffic.TrafficRateOfSnapshots | main.c:242-268 | the traffic equals the wrapped difference of the totals taken by the two sampling passes |
| Traffic.DeltaOfWrappedTotals | main.c:267-268 | the wrap-around inside the sums does not change their unsigned difference |
| Traffic.MeasureTraffic | main.c:242-268 | the start pass, the end pass over the same device list, and the unsigned differences compute exactly TrafficRate, the traffic with each device located by name + ":" |
| Traffic.MeasuredRate | main.c:267-268 | subtracting the start pass's totals from the end pass's totals, each modulo 2^64, gives TrafficRate; when either pass has no total, TrafficRate is None too |
| Traffic.NetTraffic | main.c:241-268 | the devices are enumerated from the start snapshot and then measured, which gives the traffic over that device list |
| Traffic.TrafficRateDefined | main.c:170 | a traffic figure exists exactly when every listed device has a usable line in both snapshots |
| Traffic.WrapSub | main.c:267-268 | the unsigned difference of wrapped values is the wrapped exact difference |
| Traffic.TotalsMinusTotals | main.c:242-268 | end sum minus start sum equals the sum of the per-device deltas |
| Traffic.DeltaIsSumOfDeltas | main.c:267-268 | the reported traffic is the sum of the per-device deltas modulo 2^64 |
| Traffic.DeltasBounded | main.c:242-268 | when no counter went backwards, the summed deltas lie between 0 and the end total |
| Traffic.DeltaOfGrowingCounters | main.c:267-268 | when no counter went backwards and the summed deltas fit in 64 bits, the traffic is exactly the summed deltas and is non-negative, even when the end totals themselves wrap |
| Traffic.DeltaOfShrinkingCounterWraps | main.c:267-268 | a counter that goes from 1 to 0 is not clamped: the difference wraps to 2^64 - 1 |
| Traffic.DeltaExample | main.c:267-268 | rx 1000 to 3000 and tx 500 to 1500 give 2000 and 1000 |
| Motherboard.FileReadAsString | main.c:40-61 | a file that cannot be opened, or that has length 0, reads as NULL; any other file reads as its whole content |
| Motherboard.MotherboardName | main.c:181-210 | the model is present exactly when both board files read; its length is the two trimmed lengths plus one for the separator, and it holds a space |
| Motherboard.MotherboardNameSplits | main.c:181-210 | round trip: if the vendor has no inner space, splitting the model at its first space gives back the trimmed vendor and the trimmed board name |
| Motherboard.MotherboardNameOfPadded | main.c:181-210 | a vendor and a board name padded with white space, such as the files' trailing newline, join as vendor + " " + name |
| Motherboard.MotherboardNameMissingFile | main.c:186-188 | a missing or empty board file gives NULL |
| Motherboard.MotherboardNameExample | main.c:181-210 | "ASUSTeK COMPUTER INC.\n" and "PRIME B450M-A\n" give "ASUSTeK COMPUTER INC. PRIME B450M-A" |

## Left out

- File and OS I/O are not modelled. This covers fopen, getline, fseek, ftell, fread and fclose. A file is a parameter: its lines, or its whole content (None when it cannot be opened). The fopen asserts of the line locator and the device enumeration are not modelled, because those files are then always present.
- gethostname and sysinfo (main.c:232, main.c:271-275) are not modelled. They are calls into the OS and return values the program only prints.
- sleep(1) (main.c:253) is not modelled. The two samples are parameters of `Traffic.MeasureTraffic`.
- The report printing (main.c:285-292) is not modelled, nor the float conversions B_TO_KB and B_TO_GB (main.c:10-11). The model stops at the values printed.
- Memory management is not modelled: malloc, free and strdup. Neither are the pointer faults that come with it, because they have no value semantics to state:
  - `free(line)` after strsep has moved `line` (main.c:105, main.c:127);
  - the missing NUL after fread (main.c:55);
  - strsep advancing the getline buffer before it is reused (main.c:157, main.c:154).
- Traffic.MeasureTraffic: each pass reads one snapshot of /proc/net/dev. The source reopens the file for every device, so a pass could see counters from different instants.
- NetDev.GetNetDevicesNames: the count pass and the fill pass read the same lines. In the source they are two reads of /proc/net/dev, separated by fseek(file, 0, SEEK_SET) (main.c:153), and the kernel regenerates the file for the second read. If a device appears between the passes, main.c:158 writes past the array of idx entries allocated at main.c:148. If one disappears, the last entries are never set. The model's `names[..] == DeviceNames(lines)` holds only when both reads see the same lines.
- Traffic.NetTraffic: the device names are read from the start snapshot. The source enumerates in a read of its own just before the first pass.
- NetDev.ParseCounter: strtoull with base 0 reads only leading decimal digits here. Octal and hex prefixes, signs and leading white space are not modelled; the kernel prints counters in plain decimal. Values above 2^64 - 1 saturate, as strtoull does.
- NetDev.ParseTrafficLine: the 63-character width of sscanf's %63s is not modelled. The buffers are char[4][64] (main.c:172), so nothing overflows: a stored column longer than 63 characters is cut there, the next conversion reads the rest of it, and every later column shifts. The case of fewer than nine columns (uninitialised buffers in the source) is None.
- Traffic.SampleTotals: reads each device through the corrected `NetDev.NetDeviceTraffic` (Findings row 2), which matches name + ":". The source matches the bare name, so with "enp0s31f6:" listed before "enp0s3:" it adds enp0s31f6's counters twice: `NetDev.PrefixLookupReadsOtherCounters` shows both bare-name lookups return enp0s31f6's counters, and `Traffic.PassOverTwo` sums what the lookups return. `Traffic.SnapshotTotalsAsWrittenAgree` gives the condition under which the two agree.
- Traffic.Samples: uses the corrected `NetDev.NetDeviceTraffic` (Findings row 2), not the bare-name lookup of main.c:169.
- Traffic.MeasureTraffic: both passes use the corrected `NetDev.NetDeviceTraffic` (Findings row 2); the traffic it computes is the source's only when the condition of `Traffic.SnapshotTotalsAsWrittenAgree` holds in both snapshots.
- Traffic.NetTraffic: measures through `Traffic.MeasureTraffic`, so it uses the corrected `NetDev.NetDeviceTraffic` (Findings row 2).
- FieldExtractors.ExtractField: uses the corrected `Text.Trim` (Findings row 1). On a blank value, such as the line "model name\t:\n", it gives "" where the source's trim reads str[-1].
- FieldExtractors.CpuName: extracts through `FieldExtractors.ExtractField`, so it uses the corrected `Text.Trim` (Findings row 1).
- FieldExtractors.PrettyReleaseName: extracts through `FieldExtractors.ExtractField`, so it uses the corrected `Text.Trim` (Findings row 1).
- FieldExtractors.ReleaseLabel: uses the corrected `FieldExtractors.Unquote` (Findings row 3), which keeps an unquoted value; the source dereferences NULL there.
- Motherboard.MotherboardName: uses the corrected `Text.Trim` (Findings row 1). A blank vendor file gives " " + the trimmed name here, where the source's trim reads str[-1].
- Motherboard.FileReadAsString: the size is the content's length. The value ftell reports for a sysfs file is not modelled.
- Embedded NUL characters are not modelled, because a C string ends at its first NUL.
- Two behaviours a reader might expect are not what main does; the model follows the code:
  - a counter that goes backwards is not clamped to zero, because the subtraction is unsigned and wraps (`Traffic.DeltaOfShrinkingCounterWraps`);
  - a device missing from a snapshot is not skipped, because the source's assert aborts the run. That is `None` here (`Traffic.TrafficRateDefined`).

## Findings

| source | as written | input that shows it | evidently intended | confidence | as-written member | corrected member |
|---|---|---|---|---|---|---|
| main.c:23 | the backward walk of trim has no lower bound and reads str[len - 1] at len == 0 | a blank value, such as a line holding only "\n" | stop at len == 0 and return "" | high, not executed | Text.TrimAsWritten, Text.TrimOfNewlineReadsOutOfBounds | Text.Trim, Text.TrimWalk |
| main.c:169 | the device line is located by the bare device name as a prefix | a table listing "enp0s31f6:" before "enp0s3:"; the lookup for enp0s3 returns enp0s31f6's line and counters | match the name followed by ':' | high, not executed | NetDev.NetDeviceTrafficAsWritten, NetDev.PrefixLookupReadsOtherDevice, NetDev.PrefixLookupReadsOtherCounters, Traffic.SnapshotTotalsAsWritten | NetDev.NetDeviceTraffic, NetDev.NetDeviceTrafficOfRow |
| main.c:282-283 | the quote stripping dereferences the result of strchr, which is NULL when PRETTY_NAME is unquoted | PRETTY_NAME=Debian | keep an unquoted value as it is | medium, not executed | FieldExtractors.StripQuotesAsWritten, FieldExtractors.UnquotedReleaseNameCrashes | FieldExtractors.Unquote, FieldExtractors.ReleaseLabel |
