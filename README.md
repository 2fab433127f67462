# mdns plugin setup, in Dafny

This project models the configuration step of the CoreDNS `mdns` plugin, which
answers DNS queries for hosts discovered over multicast DNS. When the server
loads the plugin's block (`mdns <domain> { ... }`), `setup` walks the
directives inside the block. It either refuses the block with an error or builds
the plugin's settings:

- the domain, with one trailing dot removed;
- the service types to browse (default `_workstation._tcp`);
- the minimum number of SRV records (default 3);
- the filter text (default empty, which matches everything);
- the bind address (default empty).

The model takes the server's token cursor as plain input. The domain argument is
a string, and the block is an array of directives, each a name with the
arguments that followed it on its line.

- `wrappers.dfy` (module `Wrappers`): `Option` and `Result`.
- `strings.dfy` (module `Strings`): Go's `strings.HasSuffix` and `strings.TrimSuffix`.
- `strconv.dfy` (module `Strconv`): Go's `strconv.Atoi` for a 64-bit `int`, and
  `FormatInt`, whose decimal output `Atoi` parses back.
- `setup.dfy` (module `MdnsSetup`):
  - the validation rule of one directive (`Check`) and its effect (`Update`);
  - the walk over the block as a fold (`Scan`);
  - the whole step as a function (`Configure`);
  - `setup` itself as a method (`Setup`), a loop with early returns that is
    proved equal to `Configure`;
  - the lemmas that characterise `Configure`. The first refused directive decides
    the error, and nothing after it matters. On success, the last occurrence of
    each directive decides its setting, and unnamed settings keep their defaults.

An error is `SetupError(at, kind)`. `at` is the position of the refused
directive in the block; it stands in for the file and line that the server's
`Errf` puts in front of the message. `Message(kind)` is the message text.

## Model

| member | source | states |
|---|---|---|
| `Strings.TrimSuffix` | setup.go:86 | a string ending in the suffix loses exactly that one suffix (result + suffix is the input); any other string is unchanged |
| `Strings.TrimSuffixAppended` | setup.go:86 | trimming `s + suffix` gives back `s`, so only one copy of the suffix is removed |
| `Strconv.Atoi` | setup.go:47-50 | a parsed value fits in an int64; it comes from a non-empty string that is an optional sign followed by digits only; it is negative only after a `-` |
| `Strconv.AtoiSignedDigits` | setup.go:47-50 | conversely, an optional `+` or `-` followed by one or more digits parses exactly when its signed value fits in an int64, and then to that value |
| `Strconv.AtoiPaddedDigits` | setup.go:47-50 | every spelling with an optional sign and leading zeros (`+5`, `007`, `-0`) parses to the signed number it writes |
| `Strconv.AtoiExamples` | setup.go:47-50 | `+5`, `007` and `-0` parse to 5, 7 and 0; the empty string, a lone `-`, `1_000` and ` 1` are refused |
| `Strconv.AtoiFormatInt` | setup.go:47-51 | every int64, zero and negative ones included, written in decimal parses back to itself |
| `MdnsSetup.Message` | setup.go:39-65 | every setup error has a non-empty message |
| `MdnsSetup.MessageIdentifiesKind` | setup.go:39-65 | two errors with the same message have the same cause, so wrong arity and an unparsable `min_srv_records` are told apart |
| `MdnsSetup.Check` | setup.go:35-66 | an unknown property name is refused with `UnknownProperty(name)`; `type` without arguments with `TypeMissing`; `min_srv_records` with other than one argument with `MinSrvArity`, and with one unparsable argument with `MinSrvInvalid`; `filter_text` and `bind_address` with other than one argument with `FilterArity` and `BindAddressArity`; a directive is accepted exactly when its name is one of the four, `type` has at least one argument, the others exactly one, and the `min_srv_records` argument parses as an integer |
| `MdnsSetup.Update` | setup.go:36-63 | an accepted directive sets only its own setting: `type` to its arguments, `min_srv_records` to the parsed integer, `filter_text` and `bind_address` to their one argument; the other three settings are unchanged |
| `MdnsSetup.Scan` | setup.go:34-67 | a failed walk reports a position inside the block |
| `MdnsSetup.Configure` | setup.go:24-95 | setup fails exactly when the walk fails; on success the service-type list is never empty and the domain is the input minus one trailing dot when it has one, otherwise the input |
| `MdnsSetup.Setup` | setup.go:24-95 | the loop with its early returns computes exactly `Configure` of the block's contents |
| `MdnsSetup.ConfigureEmptyBlock` | setup.go:28-71 | an empty block gives `_workstation._tcp`, minimum 3, empty filter and empty bind address |
| `MdnsSetup.ScanStopsAtFirstRefusal` | setup.go:34-67 | the walk fails if and only if some directive is refused; the error names the first refused directive and its reason, and every directive before it was accepted |
| `MdnsSetup.ConfigureStopsAtFirstRefusal` | setup.go:34-67 | setup fails if and only if some directive is refused, and then reports the first one with its reason |
| `MdnsSetup.UnknownPropertyFails` | setup.go:64-65 | a directive name other than the four known ones makes setup fail, at that directive or at an earlier refused one, with `UnknownProperty` when it is the first |
| `MdnsSetup.ScanIgnoresAfterFailure` | setup.go:34-67 | once the walk has failed, directives appended after it do not change the result |
| `MdnsSetup.ConfigureIgnoresAfterFailure` | setup.go:34-67 | directives after a refused one are never examined: setup returns the same error whatever follows |
| `MdnsSetup.ScanKeepsLastOccurrence` | setup.go:34-67 | after a successful walk, each setting is that of the last directive naming it, or its initial value when none does |
| `MdnsSetup.ConfigureKeepsLastOccurrence` | setup.go:28-90 | on success: the service types are the arguments of the last `type` (else `_workstation._tcp`); the minimum is the parsed single argument of the last `min_srv_records` (else 3); the filter and bind address are the single argument of their last directive (else empty) |
| `MdnsSetup.ConfigureAppendAccepted` | setup.go:36-63 | appending an accepted directive sets its own setting (`type`: exactly its arguments, in order) and leaves the domain and every other setting unchanged |
| `MdnsSetup.ConfigureAppendRefused` | setup.go:34-66 | after directives that are all accepted, a refused directive makes setup fail at its own position with the reason `Check` gives |
| `MdnsSetup.EmptyTypeFails` | setup.go:36-40 | `type` with no argument makes setup fail, whatever precedes it; after accepted directives, at its own position with `TypeMissing` |
| `MdnsSetup.MinSrvAcceptsAnyInt64` | setup.go:47-51 | `min_srv_records` accepts any int64 in decimal, including 0 and negative values, with no range check, and changes only the minimum |
| `MdnsSetup.MinSrvErrors` | setup.go:42-50 | after any accepted directives, `min_srv_records` with other than one argument fails there with the arity error; with one unparsable argument it fails there with a different error, whose message differs too |
| `MdnsSetup.ConfigureStripsOneDot` | setup.go:86 | a domain given as `d + "."` is stored as `d`, even when `d` itself ends in a dot |

## Left out

- Registration of the plugin with the server (setup.go:17-22) and its insertion
  into the handler chain (setup.go:108-111): these are calls into the server
  framework.
- Reading the domain argument from the token cursor (setup.go:25-27),
  including what happens when it is missing: the domain is an input string.
- The file and line that `Errf` puts in front of each message: they are
  replaced by the directive's position in the block.
- Logging of the settings (setup.go:73-77): output only.
- The shared host, SRV and CNAME maps and their read/write lock
  (setup.go:79-84, setup.go:91-94): they exist only for the concurrent browse
  loop and query handler. The model keeps the scalar settings only.
- The cancellation context and the startup and shutdown hooks
  (setup.go:97-106): lifecycle and concurrency.
- `browseLoop` (setup.go:116-123): an endless loop of network browsing and
  five-second sleeps. The browse pass, query answering, filtering, the minimum
  SRV gate and CNAME handling are not part of this model.
- `Strconv.Atoi`: assumes Go's `int` is 64 bits wide. On a 32-bit platform
  the range check would be to int32 instead.

## Notes

- setup applies no range check to `min_srv_records`: 0 and negative values
  are accepted (`MinSrvAcceptsAnyInt64`).
