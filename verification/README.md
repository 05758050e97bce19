# NetSleuth scanner core in Dafny

NetSleuth is a command-line network scanner. It discovers live hosts in an
IPv4 prefix block by ICMP probing, with the block cut into batches. It then
offers a four-entry menu. The menu scans either a fixed catalog of well-known
service ports or a port range, on every discovered host or on one entered
host.

This project models the scanner's orchestration logic in `src/main.rs`:
- the `"start-end"` port-range syntax (`PortRange::from_str`);
- the address enumeration of a prefix block (`IpIterator`, `get_collected_ips`);
- the batching (`get_ip_batches`);
- host discovery (`run_scan`);
- the menu (`execute_action`);
- the two port scans and the assembly of their result maps.

Every network call is an oracle parameter:
- `Scanner.Probe` stands for the ICMP liveness probe.
- `PortScan.Connector` stands for the TCP connect under a 100 ms timeout.
- `Menu` takes the IP-address text parser as a parameter `parseIp`.

Spawned tasks are modelled as a sequential map. In host discovery the
handles are awaited one at a time in spawn order, and each task's list is
appended as its handle is awaited; the tasks share no state, so this equals a
sequential map over the batches. The port scans await all their tasks with
`join_all` and then read the results in spawn order.

Modules, one per file:

| module | file | what |
|---|---|---|
| `Wrappers` | wrappers.dfy | `Option` and `Result` |
| `Text` | text.dfy | Rust's `str::trim`, `str::split(char)` and the radix-10 integer parsers (`u16`, `u32`, `i32`), plus decimal rendering |
| `Arith` | arith.dfy | Euclidean division facts behind the block arithmetic |
| `PortRange` | port_range.dfy | `PortRange::from_str` |
| `Addresses` | addresses.dfy | IPv4 values, network and broadcast addresses, `IpIterator`, `get_collected_ips` |
| `Batching` | batching.dfy | `slice::chunks` and its inverse, flattening |
| `Scanner` | scanner.dfy | `NetworkScanner`, `get_ip_batches`, `run_scan` |
| `Catalog` | catalog.dfy | the 109-entry port catalog and occurrence counting |
| `PortScan` | port_scan.dfy | one probe task, result assembly, the catalog scan and the range scan |
| `Menu` | menu.dfy | decoding the action line, the re-prompt loop, the follow-up inputs and the scans each action runs |

In these places the model follows the code, which a reader might expect to
behave differently:
- Discovery returns a list in batch and address order. The list is not
  deduplicated.
- A probe that panics fails its whole batch. It does not fail only that one
  address.
- A port scan's list keeps probe order and duplicates. It is not a set.
- There is no merging of the per-scan maps. Each scan builds its own map,
  prints it and drops it.
- Range ports are `u32` values. A port above 65535 is never reported,
  because the socket-address text does not parse.
- As written, a connect attempt that fails inside the time limit (a refused
  port, for example) is reported as open. `PortScan.AsWrittenListsRefusedPort`
  models that behaviour. The scans themselves use the corrected task
  `PortScan.PortTask`, which reports only established connections. See
  "Findings".
- As written, the address iterator overflows after yielding 255.255.255.255.
  `Addresses.CollectCheckedOverflow` models that behaviour. Collection itself
  uses the corrected iterator `Addresses.Collect`. See "Findings".

## Model

| member | source | states |
|---|---|---|
| Text.TrimSpec | src/main.rs:233 | `Text.Trim` (`str::trim`) keeps a contiguous part of the line with no whitespace at either end, and everything it drops is whitespace |
| Text.TrimPadded | src/main.rs:233 | trimming removes any whitespace padding around a trimmed text, the line terminator `read_line` keeps included |
| Text.Split | src/main.rs:32 | splitting on `-` gives one more piece than there are `-` characters, and no piece contains `-` |
| Text.JoinSplit | src/main.rs:32 | splitting loses nothing: joining the pieces with the separator restores the text |
| Text.ParseInt | src/main.rs:37-38 | a successful integer parse is inside the target type's range |
| Text.ParseIntShape | src/main.rs:37-38 | a parse succeeds only on a non-empty text that starts with a digit, a `+`, or (signed types only) a `-`, has at least one digit after a sign, and has only digits after its first character; an unsigned parse never accepts `-` |
| Text.ParseDecimal | src/main.rs:37-38 | every in-range value written in decimal parses back to itself |
| Text.ParsePlus | src/main.rs:233 | a leading `+` is accepted and does not change the value |
| PortRange.FromStr | src/main.rs:31-41 | "Invalid format" exactly when the text does not have exactly one `-`; on success both values are `u16` and are the parses of the text before and after the `-` |
| PortRange.FromStrRoundTrip | src/main.rs:31-41 | every pair of `u16` values written as `start-end` parses back to that pair, whether or not `start <= end` |
| PortRange.FromStrErrorOrder | src/main.rs:31-41 | with one `-`: a bad start piece is reported as "Invalid start port" whatever the end piece is; a good start with a bad end gives "Invalid end port"; two good pieces give exactly the range they spell |
| Addresses.Network | src/main.rs:130 | the network address is at most the target, a multiple of the block size, and in the target's block |
| Addresses.Broadcast | src/main.rs:131 | the broadcast address is at least the target, the last address of its block, and exactly block-size minus one above the network address |
| Addresses.BlockIsInterval | src/main.rs:129-131 | an address is in the target's block exactly when it lies between the network and broadcast addresses |
| Addresses.BlockExtremes | src/main.rs:129-131 | prefix 32 is the single target address, and prefix 0 is the whole 32-bit space |
| Addresses.NextChecked | src/main.rs:86-95 | each yielding step leaves fewer addresses to yield |
| Addresses.Collect | src/main.rs:83-95 | collecting the iterator yields every value from `current` to `end` once, ascending, and nothing when `current > end` |
| Addresses.CollectCheckedOverflow | src/main.rs:83-95 | the as-written iterator `Addresses.CollectChecked` overflows exactly when it must step past 255.255.255.255, and otherwise yields what `Collect` yields |
| Addresses.CollectedIps | src/main.rs:127-134 | the block text parses exactly for an IPv4 target with prefix at most 32; the list then holds `2^(32-prefix)` addresses, strictly ascending, from network to broadcast |
| Addresses.CollectedIpsMembers | src/main.rs:127-134 | the collected list holds exactly the addresses of the target's block |
| Addresses.CollectedIpsAsWrittenOverflows | src/main.rs:127-134 | as written, collection fails exactly for blocks whose broadcast address is 255.255.255.255 |
| Batching.Chunks | src/main.rs:138 | the batches are non-empty, all but the last hold exactly `batch_size` addresses, their number is the rounded-up quotient, and concatenated in order they give the list back |
| Batching.ChunksUnique | src/main.rs:138 | any batching with that shape which flattens to the list is `chunks`' batching |
| Scanner.GetIpBatches | src/main.rs:136-139 | an unparsable block and a zero batch size are each reported as their own error; otherwise the batches are well shaped and flatten to the collected addresses |
| Scanner.BatchTaskSpec | src/main.rs:177-186 | a batch's task `Scanner.BatchTask` fails exactly when one of its probes panics; otherwise it returns the hosts its probes reported, in address order |
| Scanner.RunBatchesAppend | src/main.rs:191-196 | the handle loop `Scanner.RunBatches` treats batches independently: results for a split list of batches are the two halves' results, one after the other |
| Scanner.FailedBatchIsolated | src/main.rs:191-196 | a failed batch removes exactly its own contribution and leaves the other batches' results unchanged |
| Scanner.RunBatchesFlatten | src/main.rs:168-199 | with no panicking probe, any batching reports the hosts of the flattened address list |
| Scanner.BatchSizeInvariant | src/main.rs:168-199 | with no panicking probe, discovery gives the same list for every batch size |
| Scanner.ReportedMembers | src/main.rs:177-186 | a host is reported exactly when some address's probe reported it |
| Scanner.RunScan | src/main.rs:168-199 | discovery aborts exactly when batching does; otherwise, with no panicking probe, it returns every probe's hosts in address order, duplicates kept |
| Scanner.DiscoveryExample | src/main.rs:127-199 | 10.0.0.0/30 in batches of two gives `[[.0, .1], [.2, .3]]`, and with only .1 and .3 answering, discovery returns `[10.0.0.1, 10.0.0.3]` |
| Catalog.CatalogPorts | src/main.rs:310-342 | the catalog concatenates groups of 7, 21, 28, 15 and 38 ports, 109 in all, each in 1..65535 |
| Catalog.Catalog8080Count | src/main.rs:310-342 | duplicates are kept: 8080 occurs six times in the catalog |
| Catalog.Catalog8080Multiplicity | src/main.rs:310-342 | the catalog, taken as a multiset, holds 8080 six times (through the helper `Catalog.OccurrencesMultiset`, which equates a port's count in any list with its multiplicity in the list's multiset) |
| PortScan.PortTask | src/main.rs:348-359 | a probe task reports a port exactly when the socket address parses and a connection is established, and then reports that same port; it fails exactly when the task panics |
| PortScan.AsWrittenReportsFailedConnects | src/main.rs:348-359 | the as-written task `PortScan.PortTaskAsWritten` differs from the corrected `PortTask` exactly on a connect that fails inside the time limit, which it reports as open |
| PortScan.AsWrittenListsRefusedPort | src/main.rs:346-376 | as written, a probed port that refuses the connection in time is in the assembled list although it is not open |
| PortScan.OpenPorts | src/main.rs:365-376 | the open list is non-empty exactly when some task reported an open port |
| PortScan.OpenPortsHas | src/main.rs:365-370 | every port a task reported is in the assembled list |
| PortScan.AssembleOpenPorts | src/main.rs:363-376 | the map's only possible key is the target, present exactly when some task reported an open port, with those ports in task order |
| PortScan.OpenPortsOfTasks | src/main.rs:346-376 | assembling the spawned tasks' results gives the open probed ports in probe order |
| PortScan.ScanPorts | src/main.rs:344-376 | the target is the only possible key; it is present exactly when some probed port is open, never with an empty list, and its list is the open probed ports in probe order |
| PortScan.OpenAmongCount | src/main.rs:365-376 | an open port appears as often as it was probed, and a closed one never |
| PortScan.OpenAmongMembers | src/main.rs:365-376 | the list holds exactly the probed ports that are open |
| PortScan.OpenAmongSubsequence | src/main.rs:363-376 | the list is the probed ports taken at ascending positions, so it keeps probe order |
| PortScan.OpenPortKept | src/main.rs:365-376 | an open port that was probed at least once is reported once per probe |
| PortScan.ScanCatalog | src/main.rs:307-390 | the catalog scan reports on the target only, is absent rather than empty when no catalog port is open, and lists the open catalog ports in catalog order |
| PortScan.CatalogDuplicatesKept | src/main.rs:310-376 | an open 8080 is listed six times |
| PortScan.ScanRange | src/main.rs:393-430 | the range scan probes `start..=end`, is empty when `start > end`, and reports on the target exactly when some port in the range is open |
| PortScan.ScanRangeContents | src/main.rs:400-430 | a range scan lists each open port of the range once, in ascending order, and never a port above 65535, so `port as u16` never truncates |
| PortScan.RangeScanExample | src/main.rs:393-430 | probing 1..1024 on a host where only 80 and 443 accept connections gives exactly `[80, 443]` |
| Menu.DecodeAction | src/main.rs:233-298 | a line selects an action exactly when its trimmed text parses as an `i32` from 1 to 4, and then the action is the one with that number; anything else re-prompts |
| Menu.DecodeActionSpec | src/main.rs:233-234 | a line selects a given action exactly when its trimmed text parses as an `i32` equal to that action's number |
| Menu.DecodeNumber | src/main.rs:233-294 | each action is selected by its number with any whitespace around it |
| Menu.DecodeRejects | src/main.rs:296-298 | "7", "abc" and an empty line select nothing |
| Menu.FirstDecoded | src/main.rs:217-300 | the menu loop (`Menu.FirstChoice` is this loop with the menu's decoder) stops at the first line that decodes, having skipped only lines that do not; it returns nothing exactly when no line decodes |
| Menu.FirstValidChoiceWins | src/main.rs:217-300 | only the first valid choice is acted on, however many invalid lines come before it and whatever follows it |
| Menu.FirstDecodedAt | src/main.rs:217-300 | for any line decoder, the loop stops right after the first line that decodes and takes that line's action |
| Menu.ReadIp | src/main.rs:245-246 | an address read succeeds exactly when the trimmed text parses as an address, and gives that address; otherwise it aborts with "Invalid IP address" |
| Menu.ReadPort | src/main.rs:256-264 | a port read succeeds exactly when the trimmed text parses as `u32`, and gives that number; otherwise it aborts with that prompt's own error |
| Menu.ReadPortDecimal | src/main.rs:256-264 | a port typed as its decimal number, with any whitespace around it, is read back as that number |
| Menu.Dispatch | src/main.rs:234-295 | actions 1 and 3 scan every discovered host once, in list order; actions 2 and 4 scan only the entered address; 1 and 2 scan the catalog, 3 and 4 the entered start and end ports, shared by every scan; the inputs are read address first, then start port, then end port, and the first that does not parse is the error; action 1 never fails |
| Menu.ExecuteAction | src/main.rs:216-301 | no action is taken exactly when no line decodes; a dispatched action is the first decoded one and runs the scans `Dispatch` states: every discovered host in list order for actions 1 and 3, exactly one host for 2 and 4, the catalog for 1 and 2, one shared range for 3 and 4 (which aborts each action can give is `Menu.AbortCause`; which host and ports the scans use, for any lines that follow, is `Menu.CatalogHostInputs`, `Menu.RangeInputs` and `Menu.RangeHostInputs`) |
| Menu.AbortCause | src/main.rs:241-294 | an abort follows a valid choice, an address error only after action 2 or 4, a port error only after action 3 or 4, so action 1 never aborts |
| Menu.RangeInputs | src/main.rs:252-270 | for action 3, an unparsable start port aborts before the end port is read, an unparsable end port aborts, and otherwise every host gets the entered range; lines after the end port are never read |
| Menu.CatalogHostInputs | src/main.rs:241-251 | for action 2, an unparsable address aborts; otherwise the entered address is the only host, scanned against the catalog; lines after the address are never read |
| Menu.RangeHostInputs | src/main.rs:272-294 | for action 4, the address, the start port and the end port are read in that order, the first that does not parse decides the abort, and otherwise the entered address is the only host, scanned over the entered range; lines after the end port are never read |
| Menu.RePromptChoice | src/main.rs:233-298 | after "7", "abc" and an empty line, the menu takes "2" as its fourth line |
| Menu.RePromptThenScan | src/main.rs:241-298 | the invalid lines are skipped with no scan, and then "2" with an entered address scans that one host's catalog |
| Menu.RunJob | src/main.rs:236-293 | each scan reports on its own target only |

## Left out

- `main` (src/main.rs:449-513) is not modelled. It covers the privilege check and `sudo` re-launch, exit codes, command-line parsing, local address lookup and the start-up prompts. This is process and I/O plumbing.
- `test_existence` and the netscan `HostScanner` are not modelled. They are foreign code, so the probe is an oracle that either returns a host list or panics. The function never returns `Err`, so the `Err` arm in `run_scan` is never taken.
- `TcpStream::connect`, the timeout, `tokio::spawn` and `join_all` become the `Connector` oracle and a sequential map in spawn order.
- Console output is left out: progress lines, the `{:<15}` and `", "` rendering, the screen clear, and the listing in `get_result`.
- The `ipnet` text parser is not modelled. Its outcome is modelled directly: `"{ip}/{prefix}"` parses exactly for an IPv4 address with prefix at most 32, and the network and broadcast addresses are computed arithmetically.
- The IP-address text parser is the `parseIp` parameter.
- Menu.ExecuteAction: at end of input, `read_line` returns an empty line and the source re-prompts forever. The model stops when the input lines run out.
- Menu.ReadIp: the model does not constrain `parseIp("")`. The standard address parser rejects the empty string, so when the input ends at the address prompt the source panics with "Invalid IP address"; the model gives `Aborted(InvalidIpAddress)` there only for a `parseIp` that also rejects it.
- Menu.ExecuteAction: a `read_line` I/O error (an `unwrap` panic) is not modelled.
- Menu.ExecuteAction: the result is the list of scans to run, not their maps; Menu.RunJob runs one scan.
- Addresses.CollectChecked: a release build wraps the counter to zero instead of panicking, and the iterator then never ends. Both outcomes are modelled as the one error `AddOverflow`.
- PortScan.SocketAddrParses: an IPv6 target is written without brackets, so its socket address never parses. The finer details of socket-address parsing are not modelled.
- PortScan.ScanPorts: uses the corrected task `PortTask`, which reports only established connections. As written, the source also lists ports whose connect fails inside the time limit (second row of "Findings", `PortScan.AsWrittenListsRefusedPort`).
- PortScan.OpenPortsOfTasks: uses the corrected task `PortTask`, which reports only established connections. As written, the source also lists ports whose connect fails inside the time limit (second row of "Findings", `PortScan.AsWrittenListsRefusedPort`).
- PortScan.ScanCatalog: uses the corrected task `PortTask`, which reports only established connections. As written, the source also lists ports whose connect fails inside the time limit (second row of "Findings", `PortScan.AsWrittenListsRefusedPort`).
- PortScan.ScanRange: uses the corrected task `PortTask`, which reports only established connections. As written, the source also lists ports whose connect fails inside the time limit (second row of "Findings", `PortScan.AsWrittenListsRefusedPort`).
- PortScan.ScanRangeContents: uses the corrected task `PortTask`, which reports only established connections. As written, the source also lists ports whose connect fails inside the time limit (second row of "Findings", `PortScan.AsWrittenListsRefusedPort`).
- PortScan.RangeScanExample: uses the corrected task `PortTask`, which reports only established connections. As written, the source also lists ports whose connect fails inside the time limit (second row of "Findings", `PortScan.AsWrittenListsRefusedPort`).
- Menu.RunJob: runs the catalog and range scans, so it too uses the corrected task `PortTask`.
- Addresses.CollectedIps: uses the corrected iterator `Collect`. As written, for every block whose broadcast address is 255.255.255.255, the source panics in a debug build and never ends in a release build (first row of "Findings", `Addresses.CollectedIpsAsWrittenOverflows`). For those blocks the model returns the block's addresses.
- Scanner.GetIpBatches: built on `CollectedIps`, so it uses the corrected iterator `Collect` too.
- Scanner.RunScan: built on `CollectedIps`, so it uses the corrected iterator `Collect` too.
- Scanner.DiscoveryExample: built on `CollectedIps`, so it uses the corrected iterator `Collect` too.
- `PortRange` is parsed but used nowhere else in the program, so it is modelled on its own.
- `NetworkScanner::init` and the `scan_all_ip`, `scan_ip` and `range` command-line fields are unused by the program and are not modelled.

## Findings

| source | as written | input that shows it | evidently intended | confidence | as-written member | corrected member |
|---|---|---|---|---|---|---|
| src/main.rs:86-95 | `self.current += 1` runs after yielding `end`, on a `u32` | any block whose broadcast is 255.255.255.255, such as 255.255.255.255/32 or any /0 block | yield the last address of the 32-bit space and stop | not executed | Addresses.CollectCheckedOverflow | Addresses.Collect |
| src/main.rs:351-355 | `timeout(..).await.is_ok()` is true whenever the connect attempt finished in time, also with an error; the range scan repeats the same test at src/main.rs:405-408 | a port that refuses the connection within 100 ms | report a port only when the connection was established | not executed | PortScan.AsWrittenListsRefusedPort | PortScan.PortTask |
