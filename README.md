# Mayotte network monitor: a Dafny model of the backend utilities

This project models the three utility modules of the Mayotte network-status
backend, and proves properties of that model:

- `NetworkMonitor` (`backend/utils/networkMonitor.js`) checks whether each
  region (a city of Mayotte) is reachable. For each region it:
  - samples at most five addresses from each of the region's first three
    ranges that pass the filter;
  - opens a TCP connection to port 80 on each sampled address, five
    addresses at a time;
  - files a status record per region in a `Map`, which
    `getCurrentStatus` reads back.

  Regions are checked two at a time.
- `IPProcessor` (`backend/utils/ipprocessor.js`) does three things:
  - reads the geolocation CSV and keeps the Mayotte (`YT`) rows;
  - groups those rows by city in a plain object;
  - turns decimal range ends into dotted quads with `numberToIPv4`, in
    `getRangesList`.
- `loadIPRanges` (`backend/utils/csvReader.js`) reads the monitoring-ranges
  CSV into one region per city, grouped in a `Map`.

The modules of the model:

| module | file | models |
|---|---|---|
| `TcpCheck` | tcp_check.dfy | `checkTCP`'s `cleanup` closure as the class `Attempt` (the `resolved` flag, the settled result, the count of `socket.destroy()` calls); the socket's events as a sequence of signals; `checkIP` |
| `Sampler` | sampler.dfy | the range filter, `slice(0, 3)`, the `Set` of five candidates per range, the `${p3 + k}` neighbour text |
| `Monitor` | network_monitor.dfy | `checkCityStatus`, `monitorAll` and `getCurrentStatus` as methods of the class `NetworkMonitor`. The fields are `status` (a `map`) and `order` (the `Map`'s key insertion order). Each method is proved against the specification functions `CityStatus`, `Store`, `StoreOrder` and `Successes` |
| `IpProcessor` | ip_processor.dfy | `loadCSV` (the read loop, the `reduce` into `{}` and its TypeError for inherited keys, `Object.values`), `numberToIPv4` (BigInt shifts and masks), `getRangesList` (both loops) |
| `CsvReader` | csv_reader.dfy | `loadIPRanges`: the header skip, the blank-line skip, `Map` grouping |
| `Grouping` | grouping.dfy | group-by-key with first-seen order, shared by both readers |
| `JsObject`, `JsText`, `Ipv4Text`, `Seqs`, `Geo`, `Wrappers` | | JavaScript object-key order, `trim`/`split`/`join`/`String(n)`/`Number`/`BigInt` on decimal text, dotted quads, generic sequence facts |

The environment is passed in as parameters:

- **Probes.** A probe of one address is the function `probe` (the value
  `checkIP` settles to). `TcpCheck` models how `checkTCP` reaches that value
  from the events its socket delivers.
- **Throwing checks.** A region check that throws is the predicate `fails`.
- **Clock.** `new Date().toISOString()` is a clock parameter.

Where the code and the design description disagree, this model follows the
code:

- **The range filter.** `checkCityStatus` (`networkMonitor.js:54-56`) drops a
  range when it starts at `0.0.0.0` *or* ends at `255.255.255.255`. It does
  not require both conditions. `Sampler.ValidRangesMembers` states this.
- **The neighbour addresses.** The "+1, +2, +3" neighbours are built as text
  from the numeric parts of the start. Nothing carries into the next octet,
  so `10.0.0.254` gives `10.0.0.257` (`Sampler.NeighbourPastOctet`). They are
  not the next addresses of the range.
- **Empty samples.** A region with no usable range is probed zero times and
  reported `offline`. Its connectivity is `0 / 0 * 100`, which is `NaN`.
- **Pass structure.** There is no single-flight guard, no shutdown signal
  and no atomic snapshot. `monitorAll` updates each region's entry as soon
  as that region's check finishes.

## Model

| member | source | states |
|---|---|---|
| TcpCheck.Attempt.constructor | backend/utils/networkMonitor.js:24-26 | a fresh attempt is unresolved and has destroyed nothing |
| TcpCheck.Attempt.Cleanup | backend/utils/networkMonitor.js:28-34 | the first call resolves with its argument and destroys the socket once; every later call changes nothing |
| TcpCheck.Attempt.OnConnect | backend/utils/networkMonitor.js:39 | a connect event settles an unresolved attempt to true; an already settled result is kept; the socket has been destroyed exactly once |
| TcpCheck.Attempt.OnError | backend/utils/networkMonitor.js:40 | an error event settles an unresolved attempt to false; an already settled result is kept; exactly one destroy |
| TcpCheck.Attempt.OnTimeout | backend/utils/networkMonitor.js:41 | a timeout event settles an unresolved attempt to false; an already settled result is kept; exactly one destroy |
| TcpCheck.Attempt.OnConnectThrew | backend/utils/networkMonitor.js:43-47 | a throwing `socket.connect` settles an unresolved attempt to false; exactly one destroy |
| TcpCheck.Attempt.Deliver | backend/utils/networkMonitor.js:39-47 | any signal settles an unresolved attempt to that signal's result (true only for connect) and keeps an earlier result |
| TcpCheck.CheckTcp | backend/utils/networkMonitor.js:22-49 | the promise settles to the verdict of the first signal; it is true exactly when the first signal is a connection; the socket is destroyed once when some signal arrives and never otherwise |
| TcpCheck.CheckIp | backend/utils/networkMonitor.js:10-20 | a rejected check reports false; otherwise the result is `checkTCP`'s; true only when the first signal was a connection |
| Sampler.ValidRangesMembers | backend/utils/networkMonitor.js:54-56 | a range survives the filter exactly when it starts elsewhere than 0.0.0.0 and ends elsewhere than 255.255.255.255 |
| Sampler.ValidRangesAppend | backend/utils/networkMonitor.js:54-56 | the filter keeps the stored order of the ranges |
| Sampler.ValidRangesAll | backend/utils/networkMonitor.js:54-56 | a region whose ranges all pass keeps every range |
| Sampler.RangesToCheckPrefix | backend/utils/networkMonitor.js:61 | the checked ranges are the first min(3, n) surviving ranges; with at most three, all of them |
| Sampler.CandidatesFacts | backend/utils/networkMonitor.js:66-75 | a range's address set holds its start (listed first) and its end, has 1 to 5 distinct elements, all drawn from start, start+1, start+2, start+3, end |
| Sampler.NextAddressNoCarry | backend/utils/networkMonitor.js:66-73 | the "+k" neighbour of a dotted quad changes only the last octet's number, with no carry |
| Sampler.NeighbourPastOctet | backend/utils/networkMonitor.js:73 | "10.0.0.254" yields the neighbour "10.0.0.257" |
| Sampler.CandidatesOfDottedQuad | backend/utils/networkMonitor.js:66-75 | for a dotted-quad start the set has 4 elements when the end equals the start or one of its neighbours, and 5 otherwise |
| Sampler.SampleOfSize | backend/utils/networkMonitor.js:63-78 | each checked range contributes between one and five addresses |
| Sampler.SampleOfCount | backend/utils/networkMonitor.js:63-78 | the number of probed addresses is the sum of the set sizes; duplicates across ranges are probed again |
| Sampler.SampleOfMembers | backend/utils/networkMonitor.js:63-78 | an address is probed exactly when it is a candidate of some checked range |
| Sampler.RegionSampleBounds | backend/utils/networkMonitor.js:54-78 | a region check probes at most 15 addresses, and none exactly when no range survives the filter |
| Monitor.CityStatusFacts | backend/utils/networkMonitor.js:93-102 | the record carries the region's name, coordinates and full unfiltered ranges and the clock reading; total ≤ 15, responding ≤ total; online exactly when some address answered |
| Monitor.RespondingCount | backend/utils/networkMonitor.js:82-96 | respondingIPs counts the sampled addresses the probe answers; it equals the total exactly when all answer, and the region is offline exactly when none answers |
| Monitor.RespondingOrderFree | backend/utils/networkMonitor.js:85-91 | probing the same addresses in any order (the batches race) gives the same responding count |
| Monitor.StoreStepInvariant | backend/utils/networkMonitor.js:126 | one `status.set` keeps the store consistent: keys distinct and in insertion order, each entry filed under its own name |
| Monitor.StoreKeepsInvariant | backend/utils/networkMonitor.js:120-135 | any sequence of updates keeps the store consistent |
| Monitor.StoreUntouched | backend/utils/networkMonitor.js:124-131 | an entry that no successful check names keeps its record, or stays absent |
| Monitor.StoreLatest | backend/utils/networkMonitor.js:126 | a name's entry is the record of the last successful check of that name |
| Monitor.StoreOrderPrefix | backend/utils/networkMonitor.js:126 | keys already in the Map keep their place; new keys go after them |
| Monitor.PassEntry | backend/utils/networkMonitor.js:120-135 | with distinct region names, after a pass a region's entry is its new record when its check succeeded, and what it was before when its check threw |
| Monitor.SuccessesMembers | backend/utils/networkMonitor.js:134 | a record is returned exactly when some region's check produced it |
| Monitor.SuccessesAllSome | backend/utils/networkMonitor.js:134 | when no check fails, every outcome is returned, in order |
| Monitor.PassWithoutFailures | backend/utils/networkMonitor.js:113-138 | a pass in which no check throws returns every region's record, in region order |
| Monitor.NetworkMonitor.constructor | backend/utils/networkMonitor.js:5-8 | the monitor keeps the regions and starts with an empty, consistent status Map |
| Monitor.NetworkMonitor.CheckCityStatus | backend/utils/networkMonitor.js:51-111 | the record is `CityStatus` of the region; the probes run in consecutive batches of five over the sample |
| Monitor.NetworkMonitor.CollectChecks | backend/utils/networkMonitor.js:63-78 | the collected addresses are the candidate sets of the checked ranges, concatenated in range order |
| Monitor.NetworkMonitor.ProbeInBatches | backend/utils/networkMonitor.js:81-91 | the responding count is the number of addresses the probe answers; the batches are the consecutive chunks of five, which together visit every address once, in order (`Seqs.ChunksFlatten`), each holding one to five addresses (`Seqs.ChunksSizes`), ⌈n/5⌉ of them (`Seqs.ChunksCount`) |
| Monitor.NetworkMonitor.ProbeBatch | backend/utils/networkMonitor.js:86-90 | a batch adds the number of its addresses that answer |
| Monitor.NetworkMonitor.MonitorAll | backend/utils/networkMonitor.js:113-143 | the new status is the old one updated by every successful check in region order; the key order is updated the same way; the returned list is the successful records in order; the batches are the consecutive chunks of two, which together cover every region once, in order, each of one or two regions (`Seqs.ChunksFlatten`, `Seqs.ChunksSizes`); the store stays consistent |
| Monitor.NetworkMonitor.MonitorBatch | backend/utils/networkMonitor.js:121-134 | one region batch yields its regions' outcomes, with `null` for a throwing check, and applies their updates in order |
| Monitor.NetworkMonitor.MonitorRegion | backend/utils/networkMonitor.js:123-132 | the per-region callback returns the region's outcome and files a successful record under its name |
| Monitor.NetworkMonitor.CurrentStatus | backend/utils/networkMonitor.js:145-147 | one value per key, in key insertion order, each being that key's entry; exactly the Map's values |
| Seqs.ChunksFlatten | backend/utils/networkMonitor.js:85-86 | the slices `slice(i, i + k)` taken at `i += k` concatenate back to the whole list: every element is visited once, in order (also the region batches, lines 120-121) |
| Seqs.ChunksSizes | backend/utils/networkMonitor.js:85-86 | each slice holds one to k elements, and every slice but the last holds exactly k |
| Seqs.ChunksCount | backend/utils/networkMonitor.js:85-86 | there are ⌈n/k⌉ slices |
| IpProcessor.ShiftMask | backend/utils/ipprocessor.js:72-75 | `n >> s & 255` is an octet, below 256 |
| IpProcessor.OctetsCompose | backend/utils/ipprocessor.js:71-76 | the four octets recompose to n modulo 2^32, so BigInt's floor shift agrees with unsigned 32-bit reduction, also for negative n |
| IpProcessor.OctetsUnique | backend/utils/ipprocessor.js:71-76 | four octets are determined by the 32-bit number they form |
| IpProcessor.QuadOfModulo | backend/utils/ipprocessor.js:70-76 | numbers congruent modulo 2^32 give the same dotted quad |
| IpProcessor.QuadOfReadsBack | backend/utils/ipprocessor.js:70-76 | the dotted quad of n parses back to n modulo 2^32 |
| IpProcessor.QuadOfOctets | backend/utils/ipprocessor.js:70-76 | the number of four octets is printed as those four octets |
| IpProcessor.NumberToIPv4Cases | backend/utils/ipprocessor.js:68-81 | the result is null exactly when the input is undefined or not decimal integer text; otherwise it parses back to that integer modulo 2^32 |
| IpProcessor.NumberToIPv4OfNat | backend/utils/ipprocessor.js:68-76 | the decimal text of a natural number converts to its dotted quad |
| IpProcessor.DottedInputIsNull | backend/utils/ipprocessor.js:69-80 | a dotted-quad input (any '.' in the trimmed text) makes `BigInt` throw, so the result is null |
| IpProcessor.StripQuotes | backend/utils/ipprocessor.js:26 | `replace(/"/g, '')` leaves no double quote and never lengthens the field |
| IpProcessor.Fields | backend/utils/ipprocessor.js:24-26 | one field per comma piece of the line; no field holds a quote or a comma; joined with commas the fields are the line without its quotes, and they are the pieces of that unquoted line split at its commas (unquoting per field is unquoting the whole line) |
| IpProcessor.RowOf | backend/utils/ipprocessor.js:21-40 | a kept row's fields contain no double quote |
| IpProcessor.RowOfKeeps | backend/utils/ipprocessor.js:21-29 | a line gives a row exactly when it is not blank and its third field reads `YT` |
| IpProcessor.LineSkipped | backend/utils/ipprocessor.js:21-29 | a blank or non-Mayotte line does not change the result, wherever it stands |
| IpProcessor.CityEntry | backend/utils/ipprocessor.js:46-57 | a new city record starts with status "unknown" |
| IpProcessor.LoadCsv | backend/utils/ipprocessor.js:10-66 | `loadCSV` yields `CsvRecords` of the lines: the grouped records, or the TypeError it re-throws |
| IpProcessor.ReadRows | backend/utils/ipprocessor.js:20-42 | the read loop collects the Mayotte rows in line order |
| IpProcessor.GroupRows | backend/utils/ipprocessor.js:45-61 | the `reduce` and `Object.values` yield `GroupByCity` of the rows |
| IpProcessor.AddRow | backend/utils/ipprocessor.js:46-57 | the callback throws exactly when the city's key is not yet in the object and names an Object.prototype member; otherwise it opens the city's record if absent and appends the row's range, and a new key joins the creation order |
| IpProcessor.GroupByCityFails | backend/utils/ipprocessor.js:46-57 | the first row whose city names an Object.prototype member throws a TypeError naming that key |
| IpProcessor.GroupByCityListed | backend/utils/ipprocessor.js:45-61 | without such a row, the result is `Object.values` of the grouped object |
| IpProcessor.GroupByCityErr | backend/utils/ipprocessor.js:45-59 | the `reduce` throws exactly when some row's city names an Object.prototype member |
| IpProcessor.CsvRecordsFails | backend/utils/ipprocessor.js:20-65 | `loadCSV` throws exactly when some kept line's city names an Object.prototype member |
| IpProcessor.ObjectValuesGroups | backend/utils/ipprocessor.js:61 | `Object.values` lists the groups in the own-key order of the cities |
| IpProcessor.CsvRecordsFacts | backend/utils/ipprocessor.js:45-61 | one record per distinct city; each is named after the city of that city's first row, takes that row's coordinates, has status "unknown", and holds the ranges of all the city's rows in order |
| IpProcessor.CsvRecordsTotal | backend/utils/ipprocessor.js:30-57 | the records hold exactly as many ranges as there are kept rows |
| IpProcessor.CsvRecordsOrder | backend/utils/ipprocessor.js:61 | when no city key is an array index, the records come in first-appearance order |
| IpProcessor.RecordOfCases | backend/utils/ipprocessor.js:88-96 | a range gives a record exactly when both ends are decimal integer text; the record has the city's name and coordinates, and its ends parse back to those integers modulo 2^32 |
| IpProcessor.GetRangesList | backend/utils/ipprocessor.js:83-105 | the result is `RangesList` of the regions |
| IpProcessor.PushCityRanges | backend/utils/ipprocessor.js:86-102 | the inner loop appends the city's converted ranges, in range order |
| IpProcessor.ConvertRange | backend/utils/ipprocessor.js:87-97 | one iteration gives a record exactly when both ends are decimal integer text; the record has the city's name and coordinates, and its ends parse back to those integers modulo 2^32 |
| IpProcessor.RangesListMembers | backend/utils/ipprocessor.js:83-104 | a record is listed exactly when some range of some region converts to it |
| IpProcessor.CityRangesSize | backend/utils/ipprocessor.js:86-102 | a city yields at most one record per range, and one for each exactly when all its ranges convert |
| IpProcessor.RangesListSize | backend/utils/ipprocessor.js:83-104 | at most one record per range overall, with equality exactly when every range converts |
| IpProcessor.RangesListAppend | backend/utils/ipprocessor.js:85-104 | the list for concatenated regions is the concatenation of their lists |
| CsvReader.LoadIpRanges | backend/utils/csvReader.js:5-36 | `loadIPRanges` yields `Regions` of the lines after the header |
| CsvReader.AddLine | backend/utils/csvReader.js:14-34 | a blank line changes nothing; any other line opens its city's group on first sight and appends its range |
| CsvReader.ParseLine | backend/utils/csvReader.js:17-24 | a group is named after the city key it is filed under |
| CsvReader.HeaderDropped | backend/utils/csvReader.js:9 | whatever the header line holds, the data lines are the lines after it |
| CsvReader.BlankLineIgnored | backend/utils/csvReader.js:15 | a blank line does not change the result, wherever it stands |
| CsvReader.ParseLineKeeps | backend/utils/csvReader.js:15 | a line contributes a range exactly when it is not all whitespace |
| CsvReader.RegionsFacts | backend/utils/csvReader.js:12-36 | one group per distinct city, in first-appearance order; each takes the name and coordinates of its city's first line and holds the ranges of all its lines in order |
| CsvReader.RangeTotal | backend/utils/csvReader.js:14-34 | the groups hold as many ranges as there are non-blank lines |
| Grouping.GroupAllDomain | backend/utils/csvReader.js:19-25 | a key has a group exactly when some entry has that key |
| Grouping.GroupAllHead | backend/utils/csvReader.js:19-25 | a group's header comes from the first entry with its key |
| Grouping.GroupAllItems | backend/utils/csvReader.js:27-33 | a group holds the items of all entries with its key, in entry order |
| Grouping.KeyOrderFacts | backend/utils/csvReader.js:36 | the key order lists each key once, in first-appearance order |
| Grouping.ItemTotalAll | backend/utils/csvReader.js:27-33 | over all keys the groups hold exactly the entries' items |
| Grouping.FirstSeenGroups | backend/utils/csvReader.js:36 | the groups listed in key order are the first-seen groups with all their items |
| Grouping.ListedTotal | backend/utils/csvReader.js:36 | listing the groups loses and duplicates no item |
| JsObject.ObjectValues | backend/utils/ipprocessor.js:61 | `Object.values` has one value per own key |
| JsObject.OwnKeysFacts | backend/utils/ipprocessor.js:61 | the own-key order lists exactly the created keys, with array-index keys first in ascending value and the others after them |
| JsObject.OwnKeysWithoutIndices | backend/utils/ipprocessor.js:61 | without array-index keys, the own-key order is the creation order |
| JsText.TrimEmptyIffAllWhite | backend/utils/ipprocessor.js:21 | `!line.trim()` holds exactly when the line is all whitespace |
| JsText.DecimalIntegerValueOfNat | backend/utils/ipprocessor.js:70 | `BigInt` of the decimal text of n is n |
| JsText.NumberOfNat | backend/utils/networkMonitor.js:66 | `Number` of the decimal text of n is n |
| Ipv4Text.DottedQuadParts | backend/utils/ipprocessor.js:71-76 | a joined quad splits back into its four printed octets |
| Ipv4Text.DottedQuadInjective | backend/utils/ipprocessor.js:71-76 | different octets print as different dotted quads |

## Left out

- Sockets and timing: `net.Socket`, port 80 and the 500 ms timeout are not modelled. A probe's outcome is an input: the signal sequence in `TcpCheck`, the `probe` function in `Monitor`.
- Concurrency: `Promise.all` is modelled as checks that run one after the other, in order. The responding count does not depend on that order (`Monitor.RespondingOrderFree`). When two regions share a name, the one checked last wins in the model. Two regions whose names first enter the status Map in the same batch are added in the order their checks finish in the source, so `getCurrentStatus` lists them in that order. The model adds them in region order (`Monitor.NetworkMonitor.MonitorAll`'s `order`). The returned `updates` list is in region order in both, because `Promise.all` keeps the order of its inputs.
- Monitor.CityStatusFacts: the floating-point `connectivity` field is left out. It is `respondingIPs / totalIPsChecked * 100`, which is `NaN` when nothing was probed.
- The clock: `lastChecked` is a parameter (`clock(i)` for region i), not `new Date().toISOString()`.
- Logging: `console.log` and `console.error` output is not modelled.
- Throwing region checks: what makes `checkCityStatus` throw is not modelled. The predicate `fails` chooses which checks throw.
- The outer `catch` of `monitorAll` (`networkMonitor.js:139-142`) is not modelled: in the model nothing outside the per-region callback can throw.
- `parseFloat` and `parseInt` are opaque. A parsed value is identified by the field text it came from (`Geo.Float`, `CsvReader.Integer`).
- File I/O: `fs.readFile`, `fs.createReadStream` and `readline` are not modelled. `CsvReader.LoadIpRanges` takes the file text. `IpProcessor.LoadCsv` takes the lines readline would yield; readline's CR/LF handling is not modelled. No I/O error is modelled, so no re-thrown I/O error is either; the only re-thrown error is the TypeError of the `reduce`.
- IpProcessor.NumberToIPv4Cases: only decimal integer text (optional sign, surrounding whitespace, blank as 0) and `undefined` are modelled as inputs to `BigInt`. Hexadecimal, octal and binary literal text converts in JavaScript but is null here. Numeric (non-string) arguments are not modelled, since `getRangesList` passes the CSV's strings.
- `Number` in the neighbour template is modelled on decimal integer text. Blank text is 0, and a leading `+` or `-` sign is allowed, as in JavaScript. Any other part (fractional, exponent, hexadecimal, octal, binary or `Infinity` text) is treated as `NaN`, where JavaScript would give a number.
- Sampler.NextAddressNoCarry: `Sampler.NextAddress` computes `p3 + k` and prints it with exact unbounded integers, but JavaScript numbers are doubles. Above 2^53 JavaScript rounds the sum, and from 10^21 it prints in exponent form. The lemmas about the neighbour text match JavaScript only for parts below 2^53, which includes every octet of a real address.
- The `catch` in `getRangesList` (`ipprocessor.js:98-101`) is not modelled: `numberToIPv4` catches its own errors, and nothing else in the loop body can throw on the records `loadCSV` produces.
- The `IPProcessor` constructor's `this.regions` map is never read or written by the modelled methods. It is not modelled.
- Record fields that `getRangesList` ignores (`status`, and `region`, `zip` of the rows) are carried by the model but not reasoned about.
- `Monitor.Region` takes a string name and dotted-quad range ends. How `backend/index.js` connects `loadIPRanges`'s records to the monitor (where a short line leaves a field `undefined`) is not part of this model.
- Strings are sequences of Unicode characters rather than JavaScript's UTF-16 code units. Characters outside the Basic Multilingual Plane therefore count as one character, not two.
- The HTTP routes, the front end and the data-preparation scripts are not part of this model.
