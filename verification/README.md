# dhcpTOstaticIP in Dafny

`dhcpTOstaticIP.py` turns the addresses a machine currently holds (its
addresses come from DHCP) into a static Netplan configuration. It has two
ethernet interfaces, `enp0s3` and `enp0s8`. For each one it reads the
output of `ip addr show <iface>` and `ip route show default dev <iface>`,
and extracts the IPv4 address, the prefix length and the default gateway.
It then builds a Netplan version 2 document from the two records:

- the first interface keeps its discovered gateway and gets the resolvers
  8.8.8.8 and 8.8.4.4;
- the second gets a fixed route to the host-only network 192.168.56.0/24
  and the resolvers 1.1.1.1 and 8.8.8.8.

The document is written to `/etc/netplan/01-netcfg.yaml`.

This project models the parsing and the document construction as pure
functions, and proves what they compute. The modules are:

- `Wrappers` (`wrappers.dfy`): `Option` and `Result`.
- `PyStrings` (`py_strings.dfy`): the Python `str` operations the parser
  uses, written out over `seq<char>`:
  - `splitlines()` (`SplitLines`);
  - `split()` with no argument (`Words`);
  - `split(sep)` (`SplitOn`);
  - `strip()` (`Strip`);
  - the substring test `p in s` (`Contains`).

  Each comes with an inverse or a characterisation by positions in the text.
- `InterfaceInfo` (`interface_info.dfy`): the parsing part of
  `get_interface_info`. The two command outputs are the inputs. The result
  is an `InterfaceConfig` or the exception the code would raise, as a
  `ParseError`:
  - `NoIpAddressFound` is the `ValueError` for a missing `inet ` line;
  - the other three are the `IndexError`s of the three list lookups.
- `NetplanConfig` (`netplan_config.dfy`): the dict literal of
  `create_netplan_config`, as a typed `Document`.
- `Provisioning` (`provisioning.dfy`): the order of `main`. It parses
  interface 1, then interface 2, then builds the document. A parse error
  ends the run with no document. It also includes one worked run on typical
  command output.

`subnet_mask` is the raw text after the first `/`. The code never converts
it to a number or checks its range, so the model keeps the text. The code
never checks the address syntax either, and the model adds no validation.

## Model

| member | source | states |
|---|---|---|
| PyStrings.SplitLines | dhcpTOstaticIP.py:19 | `splitlines()` yields lines that hold no line boundary, and yields no line exactly for the empty text |
| PyStrings.SplitLinesTerminated | dhcpTOstaticIP.py:19 | `splitlines()` gives back exactly the lines of a text whose lines each end in a newline (command output) |
| PyStrings.LinesContaining | dhcpTOstaticIP.py:19 | every line the comprehension yields is one of the given lines and contains the pattern, every given line that contains the pattern is yielded, and it never yields more lines than it was given |
| PyStrings.LinesContainingAppend | dhcpTOstaticIP.py:19 | the comprehension keeps the order of the lines: filtering two runs of lines one after the other is filtering each and concatenating the results |
| PyStrings.FirstContaining | dhcpTOstaticIP.py:19 | the comprehension's first element is the first line that contains the pattern |
| PyStrings.LinesContain | dhcpTOstaticIP.py:19-20 | for a non-empty pattern without line boundaries, some line contains it if and only if the whole text contains it |
| PyStrings.Words | dhcpTOstaticIP.py:23 | `split()` yields only non-empty words that hold no whitespace |
| PyStrings.WordsOfJoin | dhcpTOstaticIP.py:23 | `split()` gives back the words of a text made by joining non-empty, whitespace-free words with single spaces |
| PyStrings.WordsEmptyIffAllSpace | dhcpTOstaticIP.py:36-37 | `split()` yields no word if and only if the text is all whitespace |
| PyStrings.WordsSkipLeadingSpace | dhcpTOstaticIP.py:23 | leading whitespace (the indentation of `ip addr` lines) changes no word |
| PyStrings.WordsSkipTrailingSpace | dhcpTOstaticIP.py:37 | a trailing whitespace character changes no word |
| PyStrings.LStrip | dhcpTOstaticIP.py:34 | the result is a suffix of the text, what was removed is all whitespace, and the result does not start with whitespace |
| PyStrings.RStrip | dhcpTOstaticIP.py:34 | the result is a prefix of the text, what was removed is all whitespace, and the result does not end with whitespace |
| PyStrings.Strip | dhcpTOstaticIP.py:34 | the result is a slice of the text with only whitespace before and after it; it is empty exactly for an all-whitespace text, and otherwise starts and ends with non-whitespace |
| PyStrings.WordsOfStrip | dhcpTOstaticIP.py:34-37 | `split()` of the stripped text equals `split()` of the text |
| PyStrings.SplitOn | dhcpTOstaticIP.py:24 | `split(sep)` yields at least one piece, and no piece holds the separator |
| PyStrings.JoinSplitOn | dhcpTOstaticIP.py:24 | joining the pieces of `split(sep)` with the separator gives back the text |
| PyStrings.SplitOnJoin | dhcpTOstaticIP.py:24 | `split(sep)` of one or more separator-free pieces joined by the separator gives back those pieces |
| PyStrings.SplitOnCount | dhcpTOstaticIP.py:27 | `split(sep)` yields one piece more than the text has separators, so piece 1 exists exactly when the separator occurs |
| PyStrings.SplitOnFirstTwo | dhcpTOstaticIP.py:24-27 | with a separator present, piece 0 and piece 1 are the text before the first separator and the text from there to the next separator or the end |
| InterfaceInfo.GetInterfaceInfo | dhcpTOstaticIP.py:16-43 | an address error is raised before the route text is looked at; the call succeeds exactly when both parts do; the record holds the parsed address, prefix and gateway |
| InterfaceInfo.AddressLineOutcome | dhcpTOstaticIP.py:23-27 | `ParseAddressLine` makes a chosen line of fewer than two words, or an address word without '/', an error; otherwise the address is the word up to its first '/' and the prefix runs from there to the next '/' or the end |
| InterfaceInfo.AddressRoundTrip | dhcpTOstaticIP.py:24-27 | when the address word holds exactly one '/', address + "/" + prefix equals that word |
| InterfaceInfo.NoAddressIffNoMarker | dhcpTOstaticIP.py:19-21 | `ParseAddress` fails with "No IP address found" if and only if "inet " occurs nowhere in the address output |
| InterfaceInfo.FirstMarkedLineIsRead | dhcpTOstaticIP.py:19-23 | only the first line that contains "inet " is read, whatever lines follow it |
| InterfaceInfo.Inet6LineNeverQualifies | dhcpTOstaticIP.py:19 | a line in which every "inet" is followed by '6' never contains "inet " |
| InterfaceInfo.AddressLineOfWords | dhcpTOstaticIP.py:23-27 | an indented line "inet <addr>/<prefix> ..." yields that address and prefix |
| InterfaceInfo.AddressListingOfWords | dhcpTOstaticIP.py:19-27 | a one-line listing "<indent>inet <addr>/<prefix> ...\n" parses to that address and prefix |
| InterfaceInfo.GatewayOutcome | dhcpTOstaticIP.py:34-37 | `ParseGateway` gives no gateway if and only if the route text is all whitespace; a non-blank text of fewer than three words is an error; otherwise the gateway is the third word |
| InterfaceInfo.GatewayOfRouteLine | dhcpTOstaticIP.py:34-37 | a route line "default via <gw> dev <iface> ...\n" yields `<gw>` as the gateway |
| NetplanConfig.CreateNetplanConfig | dhcpTOstaticIP.py:53-83 | the document has version 2, its interfaces are exactly the two names given, and every interface has one address, one route and two resolvers |
| NetplanConfig.FirstInterfaceEntry | dhcpTOstaticIP.py:57-68 | when the two names differ, interface 1 gets its CIDR address, one route to 0.0.0.0/0 through its gateway (even when absent) and the resolvers 8.8.8.8 and 8.8.4.4; interface 2's record does not affect it |
| NetplanConfig.SecondInterfaceIgnoresGateway | dhcpTOstaticIP.py:69-80 | interface 2 gets its CIDR address, the route to 192.168.56.0/24 through 192.168.56.1 and the resolvers 1.1.1.1 and 8.8.8.8; its discovered gateway changes nothing in the document |
| NetplanConfig.SameNameKeepsSecond | dhcpTOstaticIP.py:56-80 | with the same name given twice, the document holds one interface configured as interface 2, and interface 1's record is dropped |
| Provisioning.Provision | dhcpTOstaticIP.py:106-118 | a document is produced exactly when both interfaces parse; interface 1's error takes precedence over interface 2's; the document's interfaces are enp0s3 and enp0s8, so it has exactly two entries |
| Provisioning.InterfaceNamesDiffer | dhcpTOstaticIP.py:103-104 | the two interface names differ, so neither entry overwrites the other |
| Provisioning.MissingAddressAborts | dhcpTOstaticIP.py:106-123 | an address listing without "inet " ends the run with "No IP address found" and no document: always for interface 1, and for interface 2 once interface 1 has parsed |
| Provisioning.DocumentAddressesRoundTrip | dhcpTOstaticIP.py:58-70 | each interface's written address is exactly the address word of the first "inet " line of its listing, whenever that word holds one '/' |
| Provisioning.DocumentGateways | dhcpTOstaticIP.py:59-75 | interface 1's route goes through the third word of its route text, or through no gateway for a blank text; interface 2's goes through 192.168.56.1 whatever its route text says |
| Provisioning.EndToEndScenario | dhcpTOstaticIP.py:102-118 | typical output for enp0s3 (10.0.2.15/24 via 10.0.2.2) and enp0s8 (192.168.56.10/24, no default route) yields the expected two-interface document |

## Left out

- Running `ip addr show` and `ip route show` (dhcpTOstaticIP.py:12-14, 30-32) is external process I/O. Their standard output texts are the parameters of `GetInterfaceInfo`.
- A failing command's `CalledProcessError` and its wrapping into `RuntimeError` (dhcpTOstaticIP.py:45-46) are left out for the same reason.
- Serialising the document with `yaml.dump` (dhcpTOstaticIP.py:88) is not modelled, because it is a foreign library. The model stops at the `Document` value; a Python `None` gateway is `via == None`.
- Writing the file, `chmod 0o600`, and removing `50-cloud-init.yaml` (dhcpTOstaticIP.py:85-99) are left out as filesystem side effects.
- All `print` calls (dhcpTOstaticIP.py:93, 99, 107-120) are console output. The catch-all handler (dhcpTOstaticIP.py:122-123) only prints, so a failed run is modelled as the `Failure` that carries the error. `InterfaceInfo.Message` gives the text Python would attach to each error.
- PyStrings.Words: whitespace is the ASCII subset of `str.isspace()` (space, 9-13 and 28-31). Non-ASCII whitespace such as U+00A0 is treated as an ordinary character, and the same holds for `Strip`.
