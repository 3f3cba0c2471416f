# Device discovery and wireless bridge of a scrcpy launcher

This project is a Dafny model of the engine in `app/scrcpy_runner.py`. The engine drives `adb` for a
Quest headset (a Meta VR headset) and has four parts:

- **Registry.** It reads the text of `adb devices -l`. It skips the header line and every line with
  fewer than two whitespace fields. It picks a primary device: the first network (IP-literal) serial,
  tagged `wifi`, else the first other serial, tagged `usb`. Alongside that it lists the serials in
  state `device` and finds the first wired device.
- **Classifier.** `status` maps the primary device to `none`, `pairing` or `ready` through a fixed
  table. `_map_renderer_name` maps a renderer label to an SDL driver name.
- **Address resolver.** `_wifi_ip` tries strategies in a fixed order:
  - it probes the default route (`ip route get 8.8.8.8`, the `src` address);
  - it scans the `wlan*` interfaces, UP ones first; each interface is tried by `ip addr`, then the
    DHCP property, then `ifconfig`;
  - it scans all properties for a `dhcp.wlan*` lease.
- **Bridge and teardown.** `wireless_auto` runs these steps in order:
  - it returns at once if the primary device is already wireless and ready;
  - it polls three times for a cabled device in state `device`;
  - it switches that device to `adb tcpip 5555`;
  - it resolves the address, retried once after a pause;
  - it runs `adb connect`, with the success test on the command's output.

  `wireless_disconnect` disconnects a network serial, then puts adb back on the cable.

## How the outside world is modelled

Every external effect of the engine is an `adb` invocation through `_run`, or a `time.sleep`.

- **The host.** `Runner.Host` is an oracle. It says whether the adb executable exists, and it answers
  each command. The answer is given the whole history of commands and pauses up to and including that
  command. Answers that ignore the history, grouped by argv only, are the special case `Runner.Canned`.
- **Specification functions.** Each operation has one, for example `Registry.QuestStateF`,
  `Resolver.WifiIpF` and `Wireless.WirelessAutoF`. It returns the operation's value together with the
  exact sequence of events it issues.
- **Procedures.** The procedures are methods on the class `Runner.Adb`, whose field `trace` records
  the events. They follow the source step by step, loops included. Each one is proved to return its
  specification function's value and to append exactly that function's events to `trace`.
- **Pure loops.** The loops over listing text are separate methods, proved against the selection
  functions: the `quest_state`, `adb_devices` and first-wired scans, and the `ip -o link show`
  partition.

Regular expressions are hand-coded matchers in `Patterns`. Their `re.search` semantics, the leftmost
match, is stated once for an arbitrary matcher in `Patterns.FirstMatchSpec`.

### Behaviour worth noting

The engine behaves as follows, and the model keeps each of these behaviours:

- **First wired device.** `first_usb_device_or_none` only takes rows in state `device`,
  `unauthorized` or `offline` (`app/scrcpy_runner.py:94`). It does not take the first wired row
  regardless of state.
- **Timeouts.** A command that exceeds `ADB_TIMEOUT_SEC` makes `subprocess.run` raise, and nothing
  in the engine catches that (`app/scrcpy_runner.py:38-47`). The engine does not return a failure
  record in that case.
- **The poll.** It looks only at `quest_state`'s pick (`app/scrcpy_runner.py:211-212`). A listed
  wireless row that is not ready therefore hides a ready cabled device (`Wireless.StaleWifiRowBlocks`).
- **The status.** It is decided by the primary row alone. It is not decided by all visible rows.
- **The pauses.** There is a one-second pause before the first address attempt as well as before
  the retry (`app/scrcpy_runner.py:225-229`).

## Model

| member | source | states |
|---|---|---|
| Patterns.IsIpSerialIff | app/scrcpy_runner.py:56-57 | `IsIpSerial`, the model of `_is_ip_serial(s)`, holds exactly when `s`, or `s` less one final newline (Python's `$`), is four groups of 1-3 digits joined by `.`, then `:`, then 2-5 digits; so every such string contains `:` |
| Patterns.IsIpSerialOfField | app/scrcpy_runner.py:56-57 | for a whitespace-free field, which is every serial a listing yields, the test is exactly the four-groups-colon-port shape |
| Patterns.QuadWithPortIsIpSerial | app/scrcpy_runner.py:56-57 | any dotted quad followed by `:` and 2-5 digits passes `_is_ip_serial` |
| Patterns.FirstMatchSpec | app/scrcpy_runner.py:142 | `re.search`: nothing is found exactly when no position matches; otherwise the result is the capture at the leftmost matching position |
| Patterns.Search | app/scrcpy_runner.py:171 | every address the route, `inet`, `ifconfig` and lease patterns capture is a dotted quad |
| Patterns.BareQuadOfStripped | app/scrcpy_runner.py:149-150 | for a stripped property value, the anchored bare-quad pattern (its `$` included) accepts exactly the dotted quads |
| Patterns.RouteSrcSound | app/scrcpy_runner.py:171 | a `src` match at a position is the word `src` after a non-word character, then whitespace, then the captured quad |
| Patterns.AddrInetSound | app/scrcpy_runner.py:142 | an `ip addr` match is the word `inet` after a non-word character, whitespace, the captured quad, then `/` |
| Patterns.RouteSrcComplete | app/scrcpy_runner.py:171 | conversely, the word `src` after a non-word character, then whitespace and a dotted quad not followed by a digit, is a route match capturing that quad |
| Patterns.IfconfigAddrComplete | app/scrcpy_runner.py:156 | the word `inet`, whitespace, `addr:` and a dotted quad not followed by a digit is an `ifconfig` match capturing that quad |
| Patterns.IfconfigBareComplete | app/scrcpy_runner.py:156 | the word `inet`, whitespace and a dotted quad not followed by a digit is an `ifconfig` match capturing that quad |
| Patterns.AddrInetComplete | app/scrcpy_runner.py:142 | conversely, the word `inet` after a non-word character, then whitespace, a dotted quad and `/`, is an `ip addr` match capturing that quad |
| Patterns.AddrInetExample | app/scrcpy_runner.py:142 | `inet 192.168.1.77/24` yields `192.168.1.77` |
| Patterns.AddrOrQuad | app/scrcpy_runner.py:156 | the `(?:\s+addr:|\s+)` alternative: a capture is a dotted quad, standing after `addr:` whenever a quad follows `addr:`, else right after the whitespace |
| Patterns.IfconfigInetSound | app/scrcpy_runner.py:156 | an `ifconfig` match is the word `inet` after a non-word character, whitespace, then that alternative |
| Patterns.LineScanSpec | app/scrcpy_runner.py:187 | the lazy `.*?` in front of a sub-pattern: what it finds is the sub-pattern at the first position where it matches, with no line break before it |
| Patterns.LeaseTail | app/scrcpy_runner.py:187 | a lease tail is `ipaddress]` followed by what `Bracketed` accepts, and its capture is a dotted quad |
| Patterns.Bracketed | app/scrcpy_runner.py:187 | `\s*:\s*\[(quad)\]`: whitespace, `:`, whitespace, `[`, the captured dotted quad and `]` |
| Patterns.LeaseFromFirst | app/scrcpy_runner.py:187 | after `dhcp.wlan`, `.*?` stops at the first position on the same line where a lease tail matches, and the capture is that tail's |
| Patterns.LeaseFromSound | app/scrcpy_runner.py:187 | after `dhcp.wlan`, the capture is the first lease tail on the same line |
| Patterns.DhcpLeaseSound | app/scrcpy_runner.py:187 | a lease match starts with `dhcp.wlan` and captures the quad of the first lease tail later on that line |
| Runner.DevicesOutputF | app/scrcpy_runner.py:51-54 | without the adb executable, the listing is the empty text and no command is issued; otherwise exactly one `devices -l` runs and its stdout is the listing |
| Runner.Adb.Run | app/scrcpy_runner.py:31-47 | the result is the host's answer to this command after the history so far, and the command is appended to the trace |
| Runner.Adb.DevicesOutput | app/scrcpy_runner.py:51-54 | returns the listing `DevicesOutputF` describes and appends exactly its events |
| Registry.RowOf | app/scrcpy_runner.py:64-67 | a line yields a row exactly when it has at least two whitespace fields; the row's serial is the first field, its state the second, and it is tagged wireless exactly when `_is_ip_serial` holds of the first field |
| Text.SplitLines | app/scrcpy_runner.py:62 | `str.splitlines()`: no line holds a line break, and an empty text has no lines |
| Text.SplitLinesCons | app/scrcpy_runner.py:62 | the first line is the text before the first line break; the rest is split after that break, with `\r\n` taken as one break |
| Text.SplitLinesLast | app/scrcpy_runner.py:62 | a non-empty text without a line break is a single line, so a trailing break adds no empty last line |
| Text.Fields | app/scrcpy_runner.py:64 | `str.split()`: every field is non-empty and free of whitespace (Python's `isspace` characters) |
| Text.FieldsWord | app/scrcpy_runner.py:64 | a non-empty text without whitespace splits into exactly itself |
| Text.FieldsSep | app/scrcpy_runner.py:64 | a whitespace character separates the fields before it from those after it; with these two laws and `"".split() == []` the fields are the maximal whitespace-free runs, in order |
| Registry.HeaderSkipped | app/scrcpy_runner.py:62-63 | the first line never reaches the row parser: the body of `header + "\n" + rest` is `rest.splitlines()` |
| Registry.ShortLineIgnored | app/scrcpy_runner.py:65-66 | a line with fewer than two fields contributes no row, wherever it stands |
| Registry.RowsTagged | app/scrcpy_runner.py:67-68 | every row is tagged wireless exactly when `_is_ip_serial` holds of its serial |
| Registry.PrimaryOfSpec | app/scrcpy_runner.py:59-74 | `PrimaryOf`, the value `quest_state` returns for a list of rows: no row is picked exactly when there are no rows; the pick is tagged `wifi` exactly when some row is a network serial; the pick is the first row of its kind, with its state and serial |
| Registry.PrimaryStable | app/scrcpy_runner.py:68-73 | rows read later never replace a `wifi` pick; a `usb` pick is kept, or replaced only by a `wifi` pick among the later rows (a later network row), never by a later cabled row |
| Registry.Visit | app/scrcpy_runner.py:64-73 | one pass of the loop body: `wifi_row` and `usb_row` each take the line's row only when still unset and the line is of their kind |
| Registry.SelectPrimary | app/scrcpy_runner.py:62-74 | the loop over the listing returns the pick `PrimaryOfSpec` characterises |
| Registry.QuestStateTagged | app/scrcpy_runner.py:59-74 | a picked serial is non-empty and tagged `wifi` exactly when it is a network serial; the pick is `wifi` exactly when some listed serial is |
| Registry.QuestState | app/scrcpy_runner.py:59-74 | `quest_state()` returns the pick of the current listing and issues at most that one listing |
| Registry.QuestStateF | app/scrcpy_runner.py:59-74 | `quest_state()` after a history issues exactly the listing's events, and picks nothing without the adb executable |
| Registry.ReadyMembership | app/scrcpy_runner.py:76-84 | a serial is in `adb_devices()` exactly when some row has that serial and state `device` |
| Registry.ReadyIsSubsequence | app/scrcpy_runner.py:76-84 | `adb_devices()` is a subsequence of the rows' first fields, in listing order |
| Registry.ReadyIndices | app/scrcpy_runner.py:80-83 | `ReadyOf`, the value of `adb_devices()` for a list of rows, is the serials of the state-`device` rows, one entry per such row, at strictly increasing row positions, so a serial listed twice is reported twice |
| Registry.ReadySerials | app/scrcpy_runner.py:78-84 | the loop with its appends returns the state-`device` serials in order |
| Registry.AdbDevices | app/scrcpy_runner.py:76-84 | `adb_devices()` returns those serials for the current listing and issues only that listing |
| Registry.FirstDeviceOf | app/scrcpy_runner.py:86-88 | a serial is returned exactly when a row was picked with a non-empty serial, and it is that serial |
| Registry.FirstDeviceOfRows | app/scrcpy_runner.py:86-88 | `None` exactly when there are no rows; else the serial of the first network row, or of the first row when there is none |
| Registry.FirstDevice | app/scrcpy_runner.py:86-88 | `first_device_or_none()` returns the picked serial of the current listing |
| Registry.FirstWiredSpec | app/scrcpy_runner.py:90-98 | `None` exactly when no row is a non-network serial in state device, unauthorized or offline; else the first such row's serial |
| Registry.FirstWiredNotNetwork | app/scrcpy_runner.py:96-97 | the serial returned is never of network form |
| Registry.FirstWired | app/scrcpy_runner.py:91-98 | the loop with its early return yields the serial `FirstWiredSpec` characterises |
| Registry.FirstUsb | app/scrcpy_runner.py:90-98 | `first_usb_device_or_none()` returns that serial for the current listing, issuing only the listing |
| Classifier.Status | app/scrcpy_runner.py:100-115 | the table: never `casting`; `pairing` exactly for a picked serial in state unauthorized; `ready` exactly for state device, with the connected message naming the serial and side; `none` for no serial and every other state |
| Classifier.StatusOfListing | app/scrcpy_runner.py:100-115 | `status()` is `ready` exactly when the first network row is in state device, or, with no network row, the first row is |
| Classifier.StatusOfRows | app/scrcpy_runner.py:100-115 | the same on any rows with non-empty serials |
| Classifier.StateName | app/scrcpy_runner.py:103-115 | the reported state name is `none`, `pairing`, `ready` or `casting` exactly for the matching tag of the status |
| Classifier.StateNameInjective | app/scrcpy_runner.py:103-115 | the four state names are distinct |
| Classifier.RendererName | app/scrcpy_runner.py:265-267 | the driver is always `opengl` or `direct3d` |
| Classifier.RendererNameSpec | app/scrcpy_runner.py:265-267 | no name gives `direct3d`; `opengl` exactly when the stripped name starts with `open` in any letter case |
| Resolver.WlanOf | app/scrcpy_runner.py:127-130 | a line names an interface exactly when it has at least three `:` parts and its stripped second part starts with `wlan` |
| Text.SplitOnJoin | app/scrcpy_runner.py:127 | `line.split(":")` loses nothing: joining the parts with `:` gives the line back |
| Text.Strip | app/scrcpy_runner.py:129 | `str.strip()` is a slice of its input with only whitespace before and after it, and it neither starts nor ends with whitespace: exactly the leading and trailing whitespace is removed |
| Resolver.ArrangedPermutation | app/scrcpy_runner.py:136 | UP ones followed by the rest is a permutation of the interfaces |
| Resolver.UpFirst | app/scrcpy_runner.py:132-136 | no interface that is not UP comes before one that is |
| Resolver.Stable | app/scrcpy_runner.py:132-136 | within the UP group and within the other group, input order is kept |
| Resolver.WlanOrderGroups | app/scrcpy_runner.py:124-136 | the names returned are the UP names in order, then the other names in order |
| Resolver.WlanOrderPermutation | app/scrcpy_runner.py:124-136 | the names returned are a permutation of the `wlan*` names of the listing |
| Resolver.WlanOrderPrefix | app/scrcpy_runner.py:128-130 | every name returned starts with `wlan` |
| Resolver.WlanOrder | app/scrcpy_runner.py:124-136 | the loop appending to `ifaces_up` and `ifaces_down` returns that arrangement |
| Resolver.WlanIfacesSpec | app/scrcpy_runner.py:117-136 | `WlanIfacesF`, `_list_wlan_ifaces(serial)`: one `ip -o link show`; no names when it fails; else a permutation of the listed `wlan*` names, all starting with `wlan` |
| Resolver.WlanIfaces | app/scrcpy_runner.py:117-136 | `_list_wlan_ifaces(serial)` returns those names and issues that one command |
| Resolver.Found | app/scrcpy_runner.py:141-144 | a strategy that fails its exit code finds nothing; on exit code 0 it is the leftmost capture of its pattern in stdout, a dotted quad |
| Resolver.PropFound | app/scrcpy_runner.py:147-151 | the DHCP property finds nothing on a non-zero exit code; on exit code 0 it returns the stripped value exactly when that value is a dotted quad |
| Resolver.IfaceIpF | app/scrcpy_runner.py:138-159 | any address found for an interface is a dotted quad |
| Resolver.IfaceIpOrder | app/scrcpy_runner.py:138-159 | the strategies run in the order ip-addr, getprop, ifconfig and stop at the first hit: an `ip addr` hit is the result after that one command; else a property hit after two commands; else the `ifconfig` result after all three |
| Resolver.IfaceIpEvents | app/scrcpy_runner.py:140-159 | one interface's attempt issues only per-interface shell commands on the serial, and has run `ifconfig` on that interface whenever it finds nothing |
| Resolver.IfaceIp | app/scrcpy_runner.py:138-159 | `_get_ip_from_iface` returns that address and issues exactly those commands |
| Resolver.FirstFoundQuad | app/scrcpy_runner.py:179-182 | scanning interfaces with an attempt that only finds dotted quads only finds dotted quads |
| Resolver.FirstFoundMiss | app/scrcpy_runner.py:179-182 | when the scan finds nothing, every interface was tried to its last sub-probe |
| Resolver.FirstFoundIssues | app/scrcpy_runner.py:179-182 | the scan issues only events its attempts issue |
| Resolver.FirstFoundHit | app/scrcpy_runner.py:179-182 | `FirstFound`, the `for iface in wlans` loop: an address found is the hit of the attempt on some interface `k`, made after every earlier interface was tried and missed, and the scan stops right after it |
| Resolver.FirstFoundNone | app/scrcpy_runner.py:179-182 | the scan finds nothing exactly when every attempt misses, and then its events are all of the attempts', in order |
| Resolver.IfaceAttemptFacts | app/scrcpy_runner.py:138-159 | `_get_ip_from_iface` finds only dotted quads, runs `ifconfig` when it misses, and issues only the per-interface shell commands |
| Resolver.ProbeSpec | app/scrcpy_runner.py:179-182 | a scan that misses has run `ifconfig` on every interface, and the scan issues only per-interface commands |
| Resolver.ProbeIfacesF | app/scrcpy_runner.py:179-182 | the address the `_wifi_ip` interface scan finds is a dotted quad |
| Resolver.ProbeHit | app/scrcpy_runner.py:179-182 | that address is `_get_ip_from_iface` on the first interface that yields one, after every earlier interface missed; the events end with that attempt's |
| Resolver.ScanIfaces | app/scrcpy_runner.py:179-182 | the loop with its early return yields the scan's result and events |
| Resolver.FallbackWlans | app/scrcpy_runner.py:176-178 | the interfaces scanned are the listed ones, or `wlan0`, `wlan1` when none are listed |
| Resolver.WifiIpF | app/scrcpy_runner.py:161-190 | any address `_wifi_ip` returns is a dotted quad |
| Resolver.RouteFirst | app/scrcpy_runner.py:169-173 | the route probe is the first command; it is the only one exactly when it finds an address, and that address is the result |
| Resolver.WifiIpPicks | app/scrcpy_runner.py:176-190 | after a missed route probe the interface scan's hit wins; when that also misses, the result is what the property scan, the last command, found |
| Resolver.LeaseScanLast | app/scrcpy_runner.py:184-189 | the property scan runs exactly when the route probe and the interface scan both missed, and then it is the last command |
| Resolver.RouteOnce | app/scrcpy_runner.py:169 | the default route is probed exactly once per `_wifi_ip` call |
| Resolver.WifiIpOnSerial | app/scrcpy_runner.py:161-190 | every command `_wifi_ip(serial)` issues is a shell command on that serial |
| Resolver.WifiIpMiss | app/scrcpy_runner.py:161-190 | nothing is found only when the route probe missed, every scanned interface was tried down to `ifconfig`, and the property scan ran |
| Resolver.WifiIp | app/scrcpy_runner.py:161-190 | `_wifi_ip(serial)` step by step returns the address and events `WifiIpF` describes |
| Wireless.PollingIssues | app/scrcpy_runner.py:210-215 | the poll issues nothing but listings and two-second pauses |
| Wireless.PollingLooks | app/scrcpy_runner.py:210-215 | the poll reads the listing at most as many times as it has rounds |
| Wireless.PollingAccepts | app/scrcpy_runner.py:211-214 | a device the poll returns was, at some look, the pick tagged `usb` in state `device` |
| Wireless.PollingBlocked | app/scrcpy_runner.py:209-217 | when no look can show a cabled ready pick, the poll finds nothing after spending all its rounds |
| Wireless.PollingIdle | app/scrcpy_runner.py:209-215 | with an adb that lists nothing, the poll is exactly three pauses and finds nothing |
| Wireless.PollShape | app/scrcpy_runner.py:209-215 | `PollF`, the three-round poll, issues only listings and pauses, at most three listings, and returns only a `usb` pick in state `device` |
| Wireless.Poll | app/scrcpy_runner.py:209-215 | the loop with its `break` returns the poll's device and issues its events |
| Wireless.ConnectSpec | app/scrcpy_runner.py:241-247 | `ConnectF`: `connect` succeeds exactly when its exit code is 0 and its output, lower-cased, holds `connected to` or `already connected`; success names the target `<ip>:5555` |
| Text.Lower | app/scrcpy_runner.py:243 | `str.lower()` keeps the length and lowers each character in place |
| Wireless.TargetIsIpSerial | app/scrcpy_runner.py:241 | the target built from a dotted quad and port 5555 is a network serial |
| Wireless.Connect | app/scrcpy_runner.py:241-247 | the connect step returns that verdict and issues the one command |
| Wireless.ResolveF | app/scrcpy_runner.py:225-229 | any address found after the pauses is a dotted quad |
| Wireless.WifiIpRoutes | app/scrcpy_runner.py:169 | one `_wifi_ip` call probes the route of its own device once and of no other device at all |
| Wireless.ResolveRoutes | app/scrcpy_runner.py:225-229 | resolution runs `_wifi_ip` at most twice: at most two route probes on any device |
| Wireless.ResolveSpec | app/scrcpy_runner.py:225-229 | the second pause and `_wifi_ip` run exactly when the first `_wifi_ip` finds nothing; the result is the first hit, else the retry's result; the route is probed once after a hit and twice after a miss |
| Wireless.Resolve | app/scrcpy_runner.py:225-229 | the pause, `_wifi_ip`, and the retry return the address and events `ResolveF` describes |
| Wireless.SwitchSpec | app/scrcpy_runner.py:219-247 | `SwitchF`, steps 3 to 5: `tcpip` comes first; it fails the run exactly when its exit code is non-zero, and then nothing else runs; the run reports no address exactly when `tcpip` succeeds and the resolution finds none; success is exactly an accepted `connect` as the last command, to the resolved address on port 5555, naming a network serial |
| Wireless.SwitchRoutes | app/scrcpy_runner.py:219-238 | steps 3 to 5 probe any device's route at most twice |
| Wireless.Switch | app/scrcpy_runner.py:219-247 | steps 3 to 5 return the outcome and events `SwitchF` describes |
| Wireless.ProceedSpec | app/scrcpy_runner.py:216-247 | `ProceedF`, after the poll: never `AlreadyWireless`; when the poll found no device the run fails for want of a cabled device with nothing more issued; that failure happens exactly when the poll found no device or an empty serial (`if not usb`); success is exactly an accepted `connect`; a `tcpip` failure is the single command after the poll |
| Wireless.WaitSpec | app/scrcpy_runner.py:204-215 | the first look and the poll issue only listings and pauses, at most four listings |
| Wireless.AutoShortCircuit | app/scrcpy_runner.py:203-206 | the run reports already-wireless exactly when the first pick is `wifi` in state `device`; it then succeeds after only the listing, without `tcpip` |
| Wireless.AutoNoUsb | app/scrcpy_runner.py:209-217 | when the first pick is not wireless and ready and the poll finds no device, the run fails for want of a cabled device after only the first look and the poll; it fails that way exactly then, having issued only listings and pauses |
| Wireless.AutoTcpipStops | app/scrcpy_runner.py:219-222 | a `tcpip` failure is the last command, its exit code was non-zero, and only listings and pauses came before it |
| Wireless.AutoRoutes | app/scrcpy_runner.py:224-229 | a whole run calls `_wifi_ip` at most twice: at most two route probes on any device |
| Wireless.AutoSuccess | app/scrcpy_runner.py:194-247 | `WirelessAutoF`: the run succeeds exactly when the first pick is wireless and ready, or its last command is an accepted `connect`; then it names a network serial |
| Wireless.AutoWithoutAdb | app/scrcpy_runner.py:194-217 | without the adb executable the run is three pauses and fails for want of a cabled device |
| Wireless.StaleWifiRowBlocks | app/scrcpy_runner.py:209-217 | with answers that ignore history, a `wifi` pick not in state `device` makes the run fail for want of a cabled device, whatever cabled rows are listed |
| Wireless.WirelessAuto | app/scrcpy_runner.py:194-247 | `wireless_auto()` step by step returns the outcome and events `WirelessAutoF` describes |
| Wireless.DisconnectSpec | app/scrcpy_runner.py:249-260 | `WirelessDisconnectF`: succeeds exactly when the listing holds a network serial; then `disconnect <serial>` and `usb` follow the listing; otherwise nothing follows it |
| Wireless.DisconnectFrom | app/scrcpy_runner.py:254-260 | the conditional step issues its two commands only for a network serial |
| Wireless.WirelessDisconnect | app/scrcpy_runner.py:249-260 | `wireless_disconnect()` step by step returns the outcome and events `WirelessDisconnectF` describes |

## Left out

- `resource_path`, the `ADB`, `SCRCPY` and `SCRCPY_SERVER` paths and `CREATE_NO_WINDOW`
  (`app/scrcpy_runner.py:4-27`): these probe the file system and the packaged build.
- `_run`'s subprocess details (`app/scrcpy_runner.py:31-47`): the working directory, the encoding,
  the creation flags and `ADB_TIMEOUT_SEC`. Every command is assumed to return a result.
  - A timeout raises `subprocess.TimeoutExpired`, and that exception is not modelled.
  - Nor is a missing executable when a command other than the listing is run.
  - Commands are modelled as argument lists without the executable path.
- `start_scrcpy` (`app/scrcpy_runner.py:269-287`): it launches a process and builds its environment.
- `app/ui.py` and `app/main.py` are not part of this model. They hold the Qt window, the status timer
  and the `casting` overlay.
- `time.sleep` keeps only its place in the trace and its length in milliseconds, not wall-clock time.
- The Hebrew message texts are kept abstract. Each message keeps the serial, target or captured
  output that it includes.
- The subject of `status()`: `Classifier.Status` is stated on the pick, and `Registry.QuestState`
  produces the pick. There is no separate procedure that chains the two.
- Character classes are ASCII-only:
  - `\d` is modelled as the ASCII digits, and `\b` uses ASCII word characters;
  - `.lower()` folds the ASCII letters only. Only U+0130 and U+212A lower to ASCII letters, and
    neither meets the phrases being searched for.
- Patterns.Search: its own contract says only that a captured address is a dotted quad. The
  leftmost-match semantics is stated in `Patterns.FirstMatchSpec`, for the matcher `Search` is built on.
- Patterns.DhcpLeaseSound: only this direction is proved for the lease pattern
  (`app/scrcpy_runner.py:187`). The converse, that `dhcp.wlan` followed on the same line by a
  first lease tail yields that tail's quad, is not stated: its proof unfolds the nested position
  matches of `Bracketed` and exceeds the verifier's resource bound.
- Wireless.StaleWifiRowBlocks: it is stated for hosts whose answers ignore history. With an arbitrary
  oracle, the listing may change between the first look and the poll.
