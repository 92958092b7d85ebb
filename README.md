# Ansanet core, modelled in Dafny

Ansanet builds a fake corporate network out of host blueprints. This project
models four pieces of it and proves properties about them. Randomness and
file access become explicit inputs:

- **Host synthesizer** (`engine/host_generator.py`, module `HostGen`).
  - The catalogue is built by scanning a directory of already-parsed
    blueprint documents, in class `HostGen.HostGenerator`.
  - It fails fatally when no blueprint is valid.
  - `GenerateHost` is the per-host payload. It is either the fixed fallback
    or a projection of the chosen blueprint.
- **Topology planner** (`engine/network_generator.py`, module `NetworkGen`).
  - Rule validation.
  - Hostnames.
  - The generation pass: a drawn host count, a shuffled octet pool popped
    from the end, and a shuffled type list.
  - `save`: sorts the records in place by numeric octet list and attaches
    the metadata.
- **Covert log header** (`tests/heartbeat_generator.py`, module
  `Heartbeat`).
  - The 32-bit header is packed with shifts and ORs and serialised
    big-endian.
  - It is written into a noise buffer at a 4-byte-aligned offset.
- **Trap-host simulation** (`manager/ansa_manager.py`, module
  `AnsaManager`).
  - The status colour and activity level classifiers. Their ANSI colour
    codes come from `manager/tui_manager.py`, lines 24-31.
  - The in-place activity update of the host table, in class
    `AnsaManager.TrapHosts`.

Module `Text` models the bits of Python text handling the engine relies
on:
- `str(n)` and `f"{n:02d}"`;
- `int()` on digit strings;
- `str.split`;
- list comparison of the numeric octet lists.

Module `Common` holds `Option` and `Result`. Python exceptions become
`Failure` values.

Module `Bits` (in `heartbeat.dfy`) holds two facts about converting small
integers to bit-vectors and back.

How each random source enters the model:
- A `random.randint` draw is a parameter constrained to its range.
- A `random.shuffle` is any sequence with the same multiset as the list
  being shuffled.
- A `random.choice` is an index into the list.
- The heartbeat noise bytes are a parameter.

## Model

| member | source | states |
|---|---|---|
| HostGen.EmptyCatalogKeys | engine/host_generator.py:10-14 | the fresh catalogue has exactly the keys server, infra, workstation, each with an empty list, so nothing is found yet |
| HostGen.HostGenerator.constructor | engine/host_generator.py:26-28 | a new generator starts from the empty three-key catalogue over its directory |
| HostGen.Register | engine/host_generator.py:39-51 | one file leaves the key set unchanged. Its name is appended to the list of its declared type if that type is a key. Every other list is unchanged. A non-mapping, a document without `metadata.type`, or one with an unknown type changes nothing |
| HostGen.ScanKeys | engine/host_generator.py:47-51 | scanning never adds or removes a key of the catalogue: a file with an unknown type is skipped, not added |
| HostGen.ScanIsFilter | engine/host_generator.py:34-55 | `Scan` is the scan loop of `_index_blueprints`, one `Register` per file. For every key t, scanning appends to t's list exactly the names of the files declaring t, in scan order, after what was already there |
| HostGen.NamesMember | engine/host_generator.py:39-51 | a name is among the files declaring t iff some file of that name is a mapping whose `metadata.type` is t |
| HostGen.CatalogueContents | engine/host_generator.py:39-51 | the catalogue's keys are the three types. A name is listed under type t iff some file of that name declares t |
| HostGen.AcceptedIsListed | engine/host_generator.py:46-51 | an accepted file puts a name into its type's list, so that list is not empty |
| HostGen.ListedIsAccepted | engine/host_generator.py:51 | a non-empty list means some file of the directory was accepted |
| HostGen.CatalogueEmptyIff | engine/host_generator.py:57-59 | the catalogue is empty in all three lists iff no file of the directory is accepted. An empty single category is not fatal |
| HostGen.CatalogueIsSound | engine/host_generator.py:46-51 | every listed name belongs to a file of the directory that is a mapping with metadata declaring that type |
| HostGen.FindAt | engine/host_generator.py:74-77 | with distinct file names, opening the picked name yields the document of that file |
| HostGen.Available | engine/host_generator.py:67 | a host type missing from the catalogue has no available blueprint |
| HostGen.GenerateHost | engine/host_generator.py:65-85 | with no available blueprint the result is the fixed fallback payload, also for an unknown type. Otherwise `blueprint_orig` is the picked member of the type's list, and `os_name`, `emulated_services` and `file_tree` come from that file: `[]` or `{}` where the key is missing, `null` where it is present with a null value (`GetOr` is `.get(key, default)`) |
| HostGen.HostGenerator.IndexBlueprints | engine/host_generator.py:31-63 | the loop leaves the catalogue as the scan of the directory from the old catalogue. The result is false exactly when every list is empty |
| HostGen.HostGenerator.Create | engine/host_generator.py:26-29 | construction fails, with `NoValidBlueprints`, iff the directory's catalogue is empty in all three lists. Otherwise the new generator holds exactly that catalogue |
| NetworkGen.Repeat | engine/network_generator.py:52 | `[x] * n` is `max(n, 0)` copies of x |
| NetworkGen.RepeatCount | engine/network_generator.py:52 | `[x] * n` holds n occurrences of x when n is positive and none of any other type |
| NetworkGen.PoolCount | engine/network_generator.py:52 | `AssignmentPool` is the concatenation of the three repeats. The concatenated type list holds each type as often as its own repeat contributes |
| NetworkGen.GenerateHostname | engine/network_generator.py:27-30 | the hostname is the prefix SERV, INFR or WKST, the drawn one of FIN, HR, ENG, IT, SALES and the index, joined by dashes. It splits at its dashes back into exactly those three fields, and the index field is zero-padded to at least two digits and reads back as the index |
| NetworkGen.WorkstationsPositive | engine/network_generator.py:21-25 | `RulesValid` is the three assertions of `_validate_rules` (`servers_min <= servers_max`, `infra_min < infra_max`, `servers_max + infra_max < hosts_min`). Under them and in-range draws, the workstation remainder `Workstations` (`total_hosts - (num_servers + num_infra)`, line 50) is at least 1 |
| NetworkGen.PoolOctets | engine/network_generator.py:45-46 | a shuffled octet pool has 253 entries, each in [2, 254], pairwise distinct |
| NetworkGen.PoolCounts | engine/network_generator.py:52 | the unshuffled type list holds exactly the drawn number of each type |
| NetworkGen.AssembleNext | engine/network_generator.py:55-68 | appending the next slot's record to the records of the earlier slots gives the records of one more slot |
| NetworkGen.AssembleNodes | engine/network_generator.py:55-68 | the loop succeeds iff the pool has an octet for every slot. Otherwise it fails with pool exhaustion. Record k is the k-th slot's record, built from the k-th octet popped off the end of the pool |
| NetworkGen.GenerateFullNetwork | engine/network_generator.py:32-70 | invalid rules fail first, then an empty catalogue (with the generator's own error), then an empty host range, then an exhausted octet pool. The pass succeeds exactly when none of these happens and the pool suffices, and it then returns the network defined by `Network` |
| NetworkGen.Network | engine/network_generator.py:55-68 | the network has one record per entry of the shuffled type list, and record k is the record of slot k |
| NetworkGen.NetworkComposition | engine/network_generator.py:48-55 | the network has exactly the drawn numbers of servers and infra hosts, and the remainder (at least 1) of workstations. With non-negative counts it has `total_hosts` records, within [hosts_min, hosts_max] |
| NetworkGen.NetworkAddresses | engine/network_generator.py:56-60 | record k's ip is `base_ip.octet` for the k-th popped octet. Octets lie in [2, 254] and ips are pairwise distinct. For a numeric base, the sort key is the base key followed by the octet |
| NetworkGen.NetworkKinds | engine/network_generator.py:55-62 | the types of the records, in order, are exactly the shuffled type list |
| NetworkGen.RecordIdentity | engine/network_generator.py:58-63 | slot k's record has the k-th type, id `node-(k+1)`, status `online`, and a hostname that splits into its type's prefix, one of the five departments and index k+1 padded to at least two digits |
| NetworkGen.IdsDistinct | engine/network_generator.py:59 | records whose ids are `node-(k+1)` at every position k have pairwise distinct ids |
| NetworkGen.NetworkIdentities | engine/network_generator.py:55-63 | every record k of the network has the k-th type of the shuffled list, id `node-(k+1)`, status `online`, and a hostname made of that type's prefix, one of the five departments and the padded index that reads back as k+1. Ids are pairwise distinct |
| NetworkGen.NetworkPayloads | engine/network_generator.py:66-67 | a record whose type has no blueprint carries the fallback payload. Every other record names a blueprint listed under its type |
| NetworkGen.SortByIp | engine/network_generator.py:77 | the array ends sorted ascending by numeric octet list and is a permutation of its old contents |
| NetworkGen.InsertionSwap | engine/network_generator.py:77 | swapping an element with a larger left neighbour moves the insertion point left, keeps every key defined and keeps the multiset of records |
| NetworkGen.InsertionDone | engine/network_generator.py:77 | once the inserted element is not smaller than its left neighbour, the prefix up to the inserted position is sorted by key |
| NetworkGen.InsertLast | engine/network_generator.py:77 | one insertion step extends the sorted prefix by one element and keeps the contents a permutation |
| NetworkGen.Save | engine/network_generator.py:72-90 | save fails iff some address does not parse to an octet list, and the list is then unchanged. Otherwise the list is sorted, a permutation of the input, and `total_nodes` is its length |
| NetworkGen.SortedOctetsAscend | engine/network_generator.py:75-77 | under one numeric base with distinct octets, the sorted order is strictly ascending octet order (`.2` before `.10`) |
| Text.ShowNatRoundTrip | engine/network_generator.py:60 | `ShowNat` is `str(n)`. It is all digits and `int(str(n)) == n` for every natural n |
| Text.ShowNatInjective | engine/network_generator.py:59-60 | `str(m) == str(n)` only when m == n |
| Text.PrefixedDistinct | engine/network_generator.py:59-60 | distinct numbers after a common prefix give distinct strings, so ids and ips are distinct |
| Text.Pad2RoundTrip | engine/network_generator.py:30 | `Pad2` is `f"{n:02d}"`. It is all digits, at least two long, and reads back as n |
| Text.SplitNoSep | engine/network_generator.py:77 | `Split` is `str.split(sep)`. A string without the separator splits into a single piece, itself |
| Text.SplitAtSep | engine/network_generator.py:77 | splitting a concatenation joined at one separator gives the pieces of both parts |
| Text.SplitThree | engine/network_generator.py:30 | three separator-free fields joined by the separator split back into exactly those three fields |
| Text.ParseAllConcat | engine/network_generator.py:77 | converting the pieces of two lists succeeds iff both convert, and gives the concatenation of their numbers |
| Text.IpKeyAppend | engine/network_generator.py:60 | `IpKey` is the sort key `[int(octet) for octet in ip.split('.')]`, or nothing when some piece does not convert. The key of `base + "." + str(octet)` is the base key followed by the octet, and is missing exactly when the base key is |
| Text.LexLeTotalPreorder | engine/network_generator.py:77 | `LexLess` is Python's `<` on lists of integers. The comparison of octet lists is total and transitive, and agrees with strict-less-or-equal |
| Text.SameBaseOrder | engine/network_generator.py:77 | under one numeric base, the key order of two addresses is the numeric order of their last octets |
| Heartbeat.ActivityCode | tests/heartbeat_generator.py:12-16 | an activity code fits 4 bits and is 0 exactly for an unknown activity name |
| Heartbeat.ServiceCode | tests/heartbeat_generator.py:19-23 | a service code fits 4 bits and is 0 exactly for an unknown service name |
| Heartbeat.Pack | tests/heartbeat_generator.py:50-68 | the packed 32-bit word unpacks by shift and mask to exactly the six fields it was packed from |
| Heartbeat.PackUnpack | tests/heartbeat_generator.py:50-68 | every 32-bit word is the packing of its unpacked fields, so the six bit ranges cover the word |
| Heartbeat.LowOctet | tests/heartbeat_generator.py:62-65 | `id & 0xFF` is `id mod 256`, also for negative ids |
| Heartbeat.ToBytesBig | tests/heartbeat_generator.py:71 | big-endian serialisation gives 4 bytes, with bits 24-31 in byte 0 and bits 0-7 in byte 3 |
| Heartbeat.EncodeThenDecode | tests/heartbeat_generator.py:71 | decoding the big-endian bytes of a 32-bit word gives the word back |
| Heartbeat.DecodeThenEncode | tests/heartbeat_generator.py:71 | encoding the word that four bytes decode to gives those bytes back |
| Heartbeat.OffsetFits | tests/heartbeat_generator.py:45-47 | `MaxOffset` is `min(size // 4 - 1, 15)`. A drawn block offset fits the 4-bit pointer, and the 4 header bytes end within the payload |
| Heartbeat.ConfiguredSize | tests/heartbeat_generator.py:30-47 | the configured 48-byte payload passes the size check, and its largest drawn offset, block 11, puts the header in the last four bytes |
| Heartbeat.CovertHeader | tests/heartbeat_generator.py:45-71 | `MakeHeader` gives the six fields of lines 47-65: the offset, both codes, the reserved nibble and both ids masked with `0xFF`. Decoding the 4 header bytes recovers the offset, both codes, the reserved nibble, and both ids mod 256 |
| Heartbeat.Embed | tests/heartbeat_generator.py:84 | the slice write replaces bytes [start, start+4) with the header and leaves every other byte and the length unchanged |
| Heartbeat.GenerateCovertPayload | tests/heartbeat_generator.py:38-84 | a size below 4 fails. Otherwise the payload has the configured size, holds the header bytes at 4·offset, and equals the noise everywhere else |
| AnsaManager.StatusColor | manager/ansa_manager.py:26-32 | green exactly for ONLINE, yellow exactly for OFFLINE, reset for anything else |
| AnsaManager.ActivityLevel | manager/ansa_manager.py:34-42 | CRITICAL iff activity > 90, HIGH iff 50 < a ≤ 90, MEDIUM iff 10 < a ≤ 50, LOW iff a ≤ 10, each wrapped in its colour and reset |
| AnsaManager.ActivityLevelMonotone | manager/ansa_manager.py:34-42 | more activity never gives a lower level |
| AnsaManager.Clamp | manager/ansa_manager.py:57 | `max(0, min(100, v))` lies in [0, 100], is v inside that range, 0 below it and 100 above it |
| AnsaManager.Step | manager/ansa_manager.py:54-62 | one host update keeps name, service and status. An ONLINE host gets its clamped activity plus change, and any other host gets 0 |
| AnsaManager.SimulatedProperties | manager/ansa_manager.py:51-62 | `Simulated` applies `Step` to every host with its drawn change. After one round the table has the same ips, names, services and statuses. Every activity is in [0, 100]. Non-ONLINE hosts are at 0. An ONLINE host in range moves by -5 to +10 |
| AnsaManager.TrapHosts.constructor | manager/ansa_manager.py:18-22 | the table starts as the three ONLINE trap hosts with activity 0 |
| AnsaManager.TrapHosts.SimulateActivity | manager/ansa_manager.py:51-62 | the loop visits every host once, in any order, and leaves the table equal to the one-round simulation of its old value |

## Left out

- Blueprint loading is not modelled: YAML parsing, directory globbing and
  file reads. A directory is a fixed sequence of (file name, parsed
  document) pairs with distinct names. Two assumptions follow:
  - the file `generate_host` re-opens is the one the scan saw;
  - an `Unreadable` document stands for any error the scan absorbs.
- `generate_host` is not modelled on documents whose `emulation` section
  is present but not a mapping, `null` included. On those the source raises
  an uncaught error.
- A `services` or `file_tree` value that is missing, `null` or of the
  expected shape is modelled. A present value of another shape is copied
  into the record as-is by the source; the model has no such value.
- `print` warnings are left out.
- Reading `parameters/network.yml` is not modelled. The configuration is a
  datatype.
- The JSON write is left out. So is the `generated_at` timestamp, which is
  taken from the file's modification time.
- A failed Python `assert` in `_validate_rules` is modelled as an error
  result. Running Python with `-O` would skip those checks; that is not
  modelled.
- NetworkGen.NetworkComposition: the exact length `total_hosts` is stated
  only for non-negative server and infra counts. With a negative count,
  `[x] * n` yields nothing, so the list is longer than `total_hosts`. The
  per-type counts are still stated for every count.
- NetworkGen.SortByIp: the sort is not proved stable, although Python's
  `list.sort` is. Records with equal keys can end up in another order.
- NetworkGen.Save: its contract inherits the same gap. The order of records
  with equal keys is not stated.
- Text.IpKey: `int()` is modelled on ASCII digit strings only. Signs,
  surrounding whitespace, underscores and non-ASCII digits are treated as
  malformed.
- Packet construction and sending with scapy are not modelled. Neither are
  the interface, address constants and `sendp`.
- The heartbeat payload size is a parameter of
  `Heartbeat.GenerateCovertPayload` instead of the constant 48. This keeps
  the size-below-4 error path reachable.
- The alert branch of `simulate_activity` is left out: the float draw
  `random.random()`, `random.choice` over the services and `log_event`.
  It only writes to the console.
- `display_dashboard`, `main_loop`, the `__main__` blocks and the drawing
  functions of `manager/tui_manager.py` are left out. They are terminal
  I/O and sleep loops.
- `ansanet_cli.py` and `ansanet.py` are not part of this model. They are a
  socket client and a Telegram alert sender.
