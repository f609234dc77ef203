# lium `dut` commands: a Dafny model

This project models the decision logic of `lium dut`. That command manages
a fleet of ChromiumOS test devices (DUTs) reached over SSH. The model covers
five pieces of logic:

- **Action dispatcher** (`lium dut do`). A fixed table maps three names to
  remote actions: `reboot`, `login` and `tail_messages`. Requested names are
  validated all together before anything runs. Then the actions run in the
  requested order, and the run stops at the first failure.
- **Fleet status pass** (`lium dut list --status/--update`). Every registered
  DUT is re-resolved by its identity and classified as Online, Offline or
  AddressReused. In update mode, exactly the AddressReused entries are
  removed from the registry.
- **Registry commands** (`lium dut list`). Six flags are tried in a fixed
  order: clear, ids, add, remove, status/update, and otherwise a plain listing.
- **Discovery** (`lium dut discover`). A remote host takes precedence, then a
  target list, then a local scan. The target-list text is trimmed, split on
  newlines, and each line is trimmed, with blank lines dropped. For a remote
  host, the program builds the command `~/lium dut discover <extra attrs>`.
- **Monitor** (`lium dut monitor`). The i-th DUT gets local port 4022 + i.
  Opening stops at the first DUT that cannot be opened. Each refresh prints a
  header, then one status line per DUT.

Modules:

| module | contents |
|---|---|
| `Results` | Option, Result and Outcome |
| `Text` | Rust's `str::trim` (Unicode White_Space), `split(char)` and `join`, and the keep-non-blank-lines filter with its white-space lemmas |
| `Seqs` | order-preserving merges of two sequences, plus small helpers for regrouping concatenations and for map extensionality (`SameMaps`) |
| `DutTypes` | `SshInfo`, `DutInfo` and the error type |
| `Actions` | the dispatcher |
| `Fleet` | the registry and the status pass |
| `Discover` | candidate selection and the remote command |
| `Monitor` | port allocation and the refresh |
| `Defaults` | the VNC ports and the default `info` keys |

Everything outside `src/cmd/dut.rs` becomes a parameter of the function that
needs it. That includes the SSH transport and `SshInfo::new`,
`DutInfo::new`, `MonitoredDut::new`, `discover_local_nodes`,
`fetch_dut_info_in_parallel`, file and standard-input reads, and the
testing-key installation. Each is a function value, either an "oracle" or
an outcome argument. The registry (`SSH_CACHE`) is an in-memory
`map<string, SshInfo>`. The order in which it yields its entries is an
argument `order` that lists every key exactly once.

Two behaviours of the program worth noting:
- `dut do` with no action names fails with the unknown-action error and an
  empty list of names.
- `dut list --clear` clears the registry without reading it first.

## Model

| member | source | states |
|---|---|---|
| Actions.DutActionNames | src/cmd/dut.rs:244-252 | the dispatch table holds exactly the names `reboot`, `login` and `tail_messages` |
| Actions.UnknownActions | src/cmd/dut.rs:280-284 | the reported names are exactly the requested names missing from the table; the result is empty iff every requested name is known |
| Actions.UnknownActionsKeepOrder | src/cmd/dut.rs:280-289 | the request is the known names merged with the unknown names, neither reordered, so unknown names are reported in request order |
| Actions.LookupActions | src/cmd/dut.rs:291-295 | the `flat_map` lookup yields only table actions and drops exactly as many names as there are unknown names |
| Actions.LookupActionsAligned | src/cmd/dut.rs:291-295 | when every name is known, the `flat_map` lookup drops nothing and its k-th action is the table entry of the k-th name |
| Actions.Zip | src/cmd/dut.rs:296 | `zip` stops at the shorter input, and its k-th pair is the k-th elements of both |
| Actions.ZipAligned | src/cmd/dut.rs:291-296 | when every name is known, zipping names with looked-up actions pairs each name with its own action and loses none |
| Actions.RunSteps | src/cmd/dut.rs:297-300 | the started steps are a prefix of the list; success means all steps ran and passed; a failure is the last started step, named in the error with its cause, after only passing steps |
| Actions.RunDutDo | src/cmd/dut.rs:267-279 | a key-setup failure or `--list-actions` returns before any action starts; the listing is the three table names |
| Actions.RunDutDoValidatesFirst | src/cmd/dut.rs:280-290 | an unknown name or an empty request fails before any action runs, whether or not `--dut` is given; the error lists exactly the unknown names |
| Actions.RunDutDoRunsInOrder | src/cmd/dut.rs:280-300 | if any action started, the request was non-empty and fully known, `--dut` was present and reachable, and the started actions are a prefix of the request |
| Actions.RunDutDoValidRequest | src/cmd/dut.rs:290-300 | a valid request runs: with the key ready and a non-empty request of known names, a missing `--dut` gives MissingDut and an unreachable DUT its connection error, both before any action starts; otherwise, if every action succeeds, all of them run in order and the command completes, and if some action fails, the run is the request up to the first failing action and the error names it with its cause |
| Actions.RunDutDoSuccess | src/cmd/dut.rs:291-300 | success means every requested action ran in the given order against the same DUT and passed |
| Actions.RunDutDoStopsAtFirstFailure | src/cmd/dut.rs:296-300 | a failing action is the last one started; the error names it and carries its cause; all earlier ones passed, and no later one started |
| Fleet.Classify | src/cmd/dut.rs:372-381 | failed resolution gives Offline; a reported `dut_id` equal to the registered id gives Online; anything else gives AddressReused, including a missing `dut_id` (each rule stated as an iff) |
| Fleet.ClassifyAll | src/cmd/dut.rs:368-384 | one row per visited entry; each row keeps the entry's id and cached connection and carries that entry's classification |
| Fleet.ClassifyAllOneRowPerEntry | src/cmd/dut.rs:368-384 | row ids are pairwise distinct, and every registry entry has a row with its id and cached connection |
| Fleet.FilterReused | src/cmd/dut.rs:386-394 | a row is selected iff it is in the input and its AddressReused-ness matches the request |
| Fleet.SplitForUpdate | src/cmd/dut.rs:385-398 | update mode: removed rows are exactly the AddressReused rows and kept rows exactly the others; status mode: nothing removed, all rows kept as is |
| Fleet.SplitForUpdatePartitions | src/cmd/dut.rs:385-398 | the rows are the kept and removed rows merged without reordering; the two counts add up, and the multisets add up |
| Fleet.FilterReusedInterleaves | src/cmd/dut.rs:386-395 | the two status filters split the rows into an order-preserving merge |
| Fleet.RemoveAll | src/cmd/dut.rs:402-407 | removing ids one by one leaves exactly the entries whose id is not listed, with their connections unchanged |
| Fleet.RemovedIdsAreReused | src/cmd/dut.rs:385-407 | in update mode an entry's id is among the removed ids iff the entry is classified AddressReused |
| Fleet.Reconcile | src/cmd/dut.rs:363-409 | the report is the classified rows split by the update filter; after update, the registry is the snapshot minus exactly the AddressReused ids; Online and Offline entries keep their cached connection; status mode changes nothing |
| Fleet.RemoveReusedIds | src/cmd/dut.rs:385-407 | removing the ids of the rows that the update filter selects removes exactly the entries classified AddressReused |
| Fleet.ReconcileIdempotent | src/cmd/dut.rs:363-409 | a second update pass with the same resolution results removes nothing more |
| Fleet.RunDutList | src/cmd/dut.rs:337-416 | flag precedence, and what each flag does: clear empties; an unreadable registry is an error; ids lists the keys; add stores the resolved identity; remove drops that one key and leaves every other entry as it was; status/update reports the classified rows split by the update filter and, in update mode, drops exactly the AddressReused entries; otherwise the entries are listed in registry order |
| Text.Trim | src/cmd/dut.rs:496-498 | the result has no white space at either end and is never longer than the input |
| Text.TrimSlice | src/cmd/dut.rs:496-498 | the result is the slice of the input between its leading and its trailing white-space runs, and both runs are all white space |
| Text.TrimAbsorbsWhitespace | src/cmd/dut.rs:496-498 | extra white space on either side of a string does not change its trim |
| Text.TrimUnique | src/cmd/dut.rs:496-498 | trim is determined by what it keeps: a core without edge white space, padded with white space, trims to that core |
| Text.TrimIdempotent | src/cmd/dut.rs:496-498 | trimming an already trimmed string changes nothing |
| Text.Split | src/cmd/dut.rs:497 | `split` always yields one more piece than there are separators, so the empty text is one empty piece |
| Text.JoinSplit | src/cmd/dut.rs:497 | joining the pieces of a split gives back the original text |
| Text.SplitJoin | src/cmd/dut.rs:479-483 | splitting a joined, separator-free, non-empty list gives back the list |
| Text.KeepNonBlank | src/cmd/dut.rs:498-500 | trimming each line and dropping the empty ones never yields more strings than there were lines |
| Text.KeepNonBlankMembership | src/cmd/dut.rs:498-500 | a string is kept iff it is non-empty and some line trims to it |
| Text.KeepNonBlankClean | src/cmd/dut.rs:498-499 | every kept string is non-empty and has no white space at either end |
| Discover.TargetList | src/cmd/dut.rs:495-501 | the parse equals the parse without the outer trim, so it is the non-blank trimmed lines of the text in order; each address is non-empty with no edge white space |
| Discover.KeepSplitIgnoresOuterTrim | src/cmd/dut.rs:495-499 | trimming the whole text before splitting changes no kept line |
| Text.KeepSplitDropsLeadingWhitespace | src/cmd/dut.rs:495-499 | white space before the text adds only blank lines or left padding, which the parse drops |
| Text.KeepSplitDropsTrailingWhitespace | src/cmd/dut.rs:495-499 | white space after the text adds only blank lines or right padding, which the parse drops |
| Discover.TargetListMembership | src/cmd/dut.rs:495-501 | an address is a candidate iff it is non-empty and some line of the text trims to it |
| Discover.AppendWordsJoins | src/cmd/dut.rs:479-483 | appending `" " + attr` for each extra attribute equals joining all words with single spaces |
| Discover.DiscoverCommand | src/cmd/dut.rs:479-483 | the remote command is the words `~/lium`, `dut`, `discover` and then the extra attributes, joined by single spaces |
| Discover.DiscoverCommandWords | src/cmd/dut.rs:479-483 | when no extra attribute contains a space, splitting the remote command on spaces recovers the fixed words followed by the attributes |
| Discover.Candidates | src/cmd/dut.rs:487-504 | with a target list, the candidates are the parsed non-blank trimmed lines (a read failure is an error); otherwise they are the local scan's result, and a scan failure is passed on as that scan's error |
| Discover.RunDiscover | src/cmd/dut.rs:469-513 | with a remote host: the executable path is looked up before the host is resolved (its failure is an I/O error), and the command succeeds iff the lookup, connecting, copying and running all succeed, with nothing probed locally; otherwise it succeeds iff the candidates and the batch fetch both succeed, returning exactly those; each failure (connecting, copying, running, scanning, fetching) is passed on with its own cause |
| Monitor.OpenMonitors | src/cmd/dut.rs:160-168 | on success the k-th DUT gets port 4022 + k, ports strictly increase, and every session opened; on failure the first DUT that did not open is reported, after all earlier ones opened |
| Monitor.StatusLines | src/cmd/dut.rs:181-183 | the status lines come in target order; a failed status read ends the refresh and reports that target's error |
| Monitor.Refresh | src/cmd/dut.rs:171-186 | a refresh is the header followed by the targets' status lines in order, and ends with the status pass's result |
| Monitor.RefreshComplete | src/cmd/dut.rs:171-186 | a refresh is complete iff every target's status can be read; otherwise it stops at the first unreadable target with that target's error, after the lines of all earlier targets |
| Defaults.VncForwarding | src/cmd/dut.rs:132-137 | forwards to the DUT's port 5900 for `kmsvnc`; the local port is the one given, or 5900 |
| Defaults.InfoKeys | src/cmd/dut.rs:431-443 | named keys are used as given; with none, the list `timestamp`, `dut_id`, `hwid`, `release`, `model`, `serial`, `mac`, all distinct |
| Defaults.RunDutInfo | src/cmd/dut.rs:429-449 | succeeds iff the DUT resolves and its keys can be fetched; the keys fetched are the chosen ones; a connection or fetch failure is passed on with its own cause |

## Left out

- `pull`, `push`, `shell`, `kernel_config` and `arc_info` are left out. Each
  resolves the DUT and then only issues transport calls, with no decision
  logic of its own: one call for `pull`, `push` and `kernel_config`; for
  `shell`, an optional autologin call followed by a shell or a command; for
  `arc_info`, four queries (architecture, ARC version, ARC device and image
  type).
- The polling loop of `vnc` is left out. It checks the forwarding process
  every five seconds and returns once that process exits, or with an error
  when its status cannot be read. Only the port choice is modelled
  (`Defaults.VncForwarding`).
- The endless loop of `monitor` is left out, including the five-second
  sleeps, the alternate screen and the clear/goto drawing. One monitor
  refresh is modelled as `Monitor.Refresh`.
- Printing and output formats are left out: `println!` widths, the JSON
  output of `serde_json`, and the text of the unknown-action message. The
  commands return structured values instead.
- The `--list-actions` listing is modelled as a set of names. Its order
  comes from HashMap iteration and is unspecified.
- Actions.RunSteps: the outcome of an action is a function of the DUT and
  the action only, so an action requested twice has the same outcome both
  times. On a real device a later action runs after the effects of the
  earlier ones and may behave differently; no property here depends on it.
- Fleet.RemoveAll: it removes every id. A registry write error part-way
  through, which would stop the source's removal loop, is not modelled.
  `SSH_CACHE` persistence is not modelled.
- Fleet.RunDutList: `set`, `remove` and `clear` are modelled as map updates
  that cannot fail. Only an unreadable registry is an error.
- The status pass runs in parallel in the source. It is modelled as a
  sequential per-entry map, because entries do not interact.
- Discover.RunDiscover: `fetch_dut_info_in_parallel` and
  `discover_local_nodes` are oracles, because they live in `lium::dut`,
  which is not part of this model. So the isolation of failed probes is not
  stated here.
- Reading the target list is one oracle. It covers a file, or standard input
  for `-`, including the UTF-8 check. The path of the running executable
  (`current_exe`) is an input that either holds a path or an error, and
  copying a file to the remote host is one oracle (`pushExecutable`).
- Monitor.OpenMonitors: ports are unbounded integers. The integer type of the
  port comes from `MonitoredDut::new`, which is not part of this model, so
  overflow past the type's maximum is not modelled.
- `SshInfo`, `DutInfo` and `MonitoredDut` are records holding only the fields
  the commands read. Their construction, and how `SshInfo::new` resolves an
  identity through the registry, are not part of this model.
