# bin config store, modelled in Dafny

This project models the `config` package of the `bin` tool, a manager of
locally installed binaries. The package keeps one process-wide record. The
record holds a default install directory and a registry of managed binaries,
keyed by install path. Each binary has a path, a remote name, a version, a
hash and a download URL. The package does four things:

- it loads the record from `~/.bin/config.json` and back-fills the default
  directory;
- it picks that directory by scanning `PATH`;
- it upserts and bulk-removes registry entries, writing the whole record
  back after each change;
- it reports the host's OS and architecture names.

Files:

- `wrappers.dfy` (module `Wrappers`): `Option`, which stands for Go's nil
  pointers and nil errors.
- `pathscan.dfy` (module `PathScan`): Go's `strings.Split` on `':'` and its
  inverse `Join`, and the first-match scan of `getDefaultPath` over a stat
  oracle.
- `platform.dfy` (module `Platform`): `GetArch` and `GetOS`, as functions of
  `GOARCH` and `GOOS`.
- `store.dfy` (module `Store`): the `Binary` and `Snapshot` values, and the
  registry operations as functions on maps (`Upserted`, `Removed`). It also
  holds loading as a transition on values (`Load`) and the class `Config`.
  `Config` is the Go global `cfg`. Its methods `CheckAndLoad`,
  `UpsertBinary`, `RemoveBinaries` and `Write` change its fields in place.

How the environment is represented:

- `os.Stat` is a parameter `stat: string -> Option<FileInfo>`. `None` means
  the stat failed. `FileInfo` carries the Go `FileMode` bits. `IsDir` is the
  `ModeDir` bit, and `Perm()` is the mode masked with `0o777`.
- `os.Getenv("PATH")`, `runtime.GOARCH` and `runtime.GOOS` are parameters.
- Opening the config file is an `openErr` parameter of `CheckAndLoad`.
  Decoding it is a `DecodeOutcome`: `Decoded(after)`, `Eof` or
  `Malformed(after, err)`. Here `after` is the record as the JSON decoder
  left it.
- `write()` is the method `Write(writeErr)`. It appends the snapshot it
  was called to encode to the ghost log `flushes`, whether or not the open or
  the encoding succeeded, and it returns `writeErr`, which stands
  for whatever opening or encoding would have reported. This is how the
  contracts can say that the map changes first, then exactly one write
  follows, and the write error is returned with the change kept.
- A Go panic has no counterpart in Dafny, and the model does not ignore it.
  The scan returns `Crash`, and `CheckAndLoad` returns the status `Panicked`
  with the record as decoding left it.

Two behaviours of the code are easy to misread, and the model follows the
code:

- The scan tests bit `1 << 7` of `Perm()`. That is `0o200`, write
  permission for the owner, not the world-write bit
  (`PathScan.WorldWriteBitIrrelevant`, `PathScan.OwnerWriteBitDecides`).
- The scan does not skip a piece whose stat fails. It calls `IsDir()` on the
  nil `FileInfo` and panics. This includes the empty piece that `PATH`
  yields at a `::` or at either end (`PathScan.ScanIsFirstStop`, the `Crash`
  case).
- So a first run picks the first qualifying piece only when every piece
  before it stats successfully (`Store.FirstRun`).

## Model

| member | source | states |
|---|---|---|
| `PathScan.Split` | pkg/config/config.go:62 | `strings.Split` on one separator: always at least one piece, and no piece contains the separator |
| `PathScan.JoinSplit` | pkg/config/config.go:62 | joining the pieces of any string with the separator gives the string back, so splitting drops and invents nothing, including around empty pieces |
| `PathScan.SplitJoin` | pkg/config/config.go:62 | splitting the join of a nonempty list of separator-free pieces gives that list back |
| `PathScan.Scan` | pkg/config/config.go:62-74 | a found path is one of the pieces, and its stat is a directory with bit 0o200 set |
| `PathScan.ScanIsFirstStop` | pkg/config/config.go:62-74 | a found path is at an index where every earlier piece stats successfully without qualifying. A crash is at a failed stat with the same condition on the earlier pieces. NotFound holds exactly when every piece stats successfully and none qualifies |
| `PathScan.ScanReaches` | pkg/config/config.go:62-72 | if every piece before index i is passed over, the scan returns piece i when it qualifies, crashes when its stat fails, and otherwise continues from piece i + 1 |
| `PathScan.DefaultPath` | pkg/config/config.go:59-76 | a path found in PATH is one of its `':'`-separated pieces, contains no `':'`, and stats as a directory with the owner-write bit |
| `PathScan.ReadonlyThenWritable` | pkg/config/config.go:62-69 | on PATH `/readonly:/writable` with modes 0o555 and 0o755, the scan returns `/writable` |
| `PathScan.WorldWriteBitIrrelevant` | pkg/config/config.go:67 | for every mode, flipping the world-write bit 0o002 does not change whether a file qualifies |
| `PathScan.OwnerWriteBitDecides` | pkg/config/config.go:67 | for every directory mode, the file qualifies exactly when bit 0o200, write permission for the owner, is set |
| `PathScan.WorldWritableAloneDoesNotQualify` | pkg/config/config.go:67 | a directory of mode 0o557 (world-writable, not owner-writable) does not qualify; one of mode 0o200 does |
| `Platform.GetArch` | pkg/config/config.go:125-133 | the first element is always GOARCH; there are two elements, the second being `x86_64`, exactly when GOARCH is `amd64`, and one otherwise |
| `Platform.GetOS` | pkg/config/config.go:137-139 | exactly one element, and it is GOOS |
| `Store.Upserted` | pkg/config/config.go:87 | the binary is stored under its path, the key set gains only that path, and every other entry is unchanged |
| `Store.UpsertIdempotent` | pkg/config/config.go:84-87 | upserting the same binary twice gives the same registry as once |
| `Store.UpsertOverwrites` | pkg/config/config.go:87 | upserting under an existing key replaces the whole entry and keeps the registry's size |
| `Store.Removed` | pkg/config/config.go:99-102 | the new key set is the old key set minus the named paths, and every surviving entry is unchanged |
| `Store.RemovedOrderIndependent` | pkg/config/config.go:97-102 | two path lists naming the same paths, in any order and with any repetition, remove the same entries |
| `Store.RemovedIgnoresAbsent` | pkg/config/config.go:100-102 | removing paths that are not registered leaves the registry unchanged |
| `Store.Load` | pkg/config/config.go:30-54 | an open error is returned with the record unchanged. Otherwise, whatever the decode outcome, the default path is replaced by the scan result exactly when it is empty after decoding. A scan panic happens only then. End of file empties the registry and returns nil. A decode error is returned after the back-fill |
| `Store.FirstRun` | pkg/config/config.go:39-52 | on a fresh record and an empty file, loading yields an empty registry, the first qualifying PATH piece as default path, and nil, provided every earlier piece stats successfully |
| `Store.Config.constructor` | pkg/config/config.go:15-20 | the zero record: empty default path, empty registry, nothing written yet |
| `Store.Config.CheckAndLoad` | pkg/config/config.go:30-54 | assigning the fields step by step, in the code's order, ends in the state and status that `Load` gives for the old record |
| `Store.Config.Write` | pkg/config/config.go:107-121 | one write encodes the current whole record and returns the write error |
| `Store.Config.UpsertBinary` | pkg/config/config.go:84-95 | a nil binary changes nothing, writes nothing and returns nil. Otherwise the registry becomes `Upserted` of the old one, and then exactly one write of the new record follows, whose error is returned with the change kept. The default path is untouched |
| `Store.Config.RemoveBinaries` | pkg/config/config.go:99-105 | the registry becomes `Removed` of the old one, processed path by path in a loop. Then exactly one write of the new record follows, even for an empty list, and its error is returned. The default path is untouched |

## Left out

- Opening the file, `user.Current` and the home-directory join (`.bin/config.json`): OS I/O. They are reduced to the `openErr` parameter and the `writeErr` parameter. The ignored `user.Current` error, and the panic on a nil user, are not modelled.
- JSON encoding and decoding: a foreign library. Decoding is the abstract `DecodeOutcome`, and encoding is the success or failure of `Write`. No JSON round trip is stated.
- Write truncation: `write()` opens without `O_TRUNC`, so stale trailing bytes of a longer old file can survive. This is an effect on the file, and the file is outside the model.
- Go's nil map versus empty map: the zero record `var cfg config` has a nil `Bins`, and so does a decoded file without `"bins"`; `UpsertBinary` called in either state (for instance before `CheckAndLoad`) panics on assignment. The model does not distinguish a nil map from an empty one, and `Store.Config.constructor` gives the empty map.
- Logging through `apex/log`: it has no effect on the record.
- `Get()` returns a pointer to the global record. In the model, callers hold the `Config` object itself.
- Pointer aliasing of the `*Binary` values stored in the map: entries are values.
- Concurrent use of the record or the file: the Go code takes no lock, and the model is sequential.
