# Multi-value service registry — Dafny model

This project models the core of a small service registry built on a
Kademlia DHT. Nodes publish speech services (`asr`, `tts`) on `cpu` or
`gpu` backends under the key `service/backend`. Each key holds the SET of
values `service/backend/address`, not one value.

The model covers:

- **The multi-value store** (`node.py`, `MultiStorage`). A class whose
  `data` field is a `map<K, set<V>>`, with `overwrite`, `storage[k] = v`,
  `storage[k]`, `get` and iteration. Its invariant is that a stored set is
  never empty.
- **The multi-value crawl's merge step**: the union of every peer's answer.
- **The local-versus-remote decision of `get_multi_value`.**
- **One liveness round, `ping_node_storage`**: snapshot, parse, validate,
  then write back only the confirmed values. The round takes the parse and
  validate hooks as parameters, so two nodes share one body:
  - the plain node, with its identity hooks;
  - the service node of `client_dc.py`, with its codec and a probe oracle.
- **The service side** (`client_dc.py`):
  - the enum conversions;
  - the key and value codec;
  - the loopback address filter;
  - the hooks' outcomes;
  - the choice made by `find_service_addr`;
  - the parsing of the `--neighbours` and `--services` command-line lists.

Modules:

- `Wrappers` (`wrappers.dfy`): `Option`, `Result`, `Outcome`, and the
  Python exceptions the code raises.
- `Strings` (`strings.dfy`): Python's `str.split` with one separator, the
  separator join that `"%s/%s/%s"` amounts to, `strip`, `int()` and `str()`
  on naturals.
- `Storage` (`storage.dfy`): `MultiStorage` and the functions that specify
  it.
- `Node` (`node.dfy`): the merge, the lookup, and `MultiValueNode` with its
  liveness round.
- `ClientDc` (`client_dc.py`'s model, `client_dc.dfy`): `DCNode` and the
  configuration parsing.

The DHT library is not modelled; its results are parameters:

- `digest` is the library's key hash.
- `remote` is what the iterative crawl answers.
- `probe(service, address)` says whether the HTTP probe of that address
  answered with JSON other than `null`.
- `random.choice` is an arbitrary index (`:|`).

Two behaviours of the code are worth stating plainly, and the model has
both:

- A stored value that decodes but names an unknown service or backend does
  not simply drop out of a liveness round. `ServiceType(service)` or
  `BackendType(backend)` raises inside the gather, so the whole round
  raises and nothing is pruned (`ClientDc.DcRoundRaises`). The exception
  also leaves `run`'s loop (node.py:96-101), so one such value ends that
  node's liveness rounds and re-bootstraps for good, not just for one
  round.
- An empty lookup in `find_service_addr` raises `IndexError` from
  `random.choice` (client_dc.py:44), not "invalid service address"
  (`ClientDc.DCNode.FindServiceAddr`).

## Model

| member | source | states |
|---|---|---|
| Storage.ListOf | node.py:38 | `list(s)` of a set holds each element of the set exactly once and nothing else |
| Storage.WithItemAsWritten | node.py:26-34 | `__setitem__` as written: the key always ends up present, holding its old set together with the item's values, and no other key changes |
| Storage.WithItem | node.py:26-34 | `__setitem__` with the invariant kept: the key's set becomes old set ∪ item values, no other key changes, the key is present iff it was or the item is non-empty, and non-emptiness of stored sets is preserved |
| Storage.Overwritten | node.py:17-23 | `overwrite` raises `KeyError` exactly when the list is empty and the key is missing; otherwise the key holds exactly `set(values)`, is removed for an empty list, and no other key changes |
| Storage.WithItemIdempotent | node.py:26-34 | putting the same item twice has the effect of putting it once |
| Storage.EmptyListBreaksInvariant | node.py:27-34 | as written, putting an empty list under a missing key stores an empty set |
| Storage.WithItemAgrees | node.py:26-34 | outside that case the corrected put and the put as written give the same store |
| Storage.MultiStorage.constructor | node.py:13-14 | a new store is empty |
| Storage.MultiStorage.Overwrite | node.py:17-23 | the store becomes `Overwritten(old store)`, or stays unchanged with `KeyError` when that raises; the invariant is kept |
| Storage.MultiStorage.SetItem | node.py:26-34 | the store becomes `WithItem(old store)`; the invariant is kept |
| Storage.MultiStorage.GetItem | node.py:37-38 | a missing key raises `KeyError`; otherwise the result lists exactly the key's values, once each |
| Storage.MultiStorage.Get | node.py:41-43 | `None` exactly for a missing key; otherwise a list of exactly the key's values; the store is unchanged |
| Storage.MultiStorage.Items | node.py:50-51 | one pair per stored key, no key twice, each with a list of exactly its values |
| Storage.MultiStorage.IterOlderThan | node.py:46-47 | the age is ignored: the same pairs as iteration |
| Strings.Split | client_dc.py:100 | `split(sep)` gives one piece more than there are separators, and no piece contains the separator |
| Strings.JoinSplit | client_dc.py:100 | re-joining the pieces with the separator gives the string back |
| Strings.SplitJoin | client_dc.py:170 | splitting separator-free pieces joined by the separator gives the pieces back |
| Strings.JoinThree | client_dc.py:170 | the join of three pieces is `a/b/c` |
| Strings.SplitThree | client_dc.py:170 | `"a/b/c".split("/")` is `[a, b, c]` for separator-free pieces |
| Strings.TrimLeft | client_dc.py:181 | dropping leading whitespace leaves a suffix, removes only whitespace, and leaves no leading whitespace |
| Strings.TrimRight | client_dc.py:181 | dropping trailing whitespace leaves a prefix, removes only whitespace, and leaves no trailing whitespace |
| Strings.Trim | client_dc.py:181 | trimming gives the middle of the string: what it removes before and after is all whitespace, and the result neither starts nor ends with whitespace; `host.strip()` trims the `str.isspace()` characters (`IsSpace`), `int()` only tab to carriage return and space (`IsIntSpace`) |
| Strings.Strip | client_dc.py:181 | `host.strip()`: `Trim` with the `str.isspace()` characters (`IsSpace`), so the result is the middle of the string, the removed ends are all whitespace, and it neither starts nor ends with whitespace |
| Strings.ParseSigned | client_dc.py:181 | what `int()` reads after trimming succeeds exactly for an optional sign followed by at least one digit, and has the sign it shows |
| Strings.ParseInt | client_dc.py:181 | `int()` succeeds exactly when the string, trimmed of tab to carriage return and space, is a non-empty run of digits, optionally after one sign; the result is non-negative unless the sign is `-` |
| Strings.IntKeepsSeparators | client_dc.py:181 | `strip()` removes U+001C, but a number preceded by U+001C does not parse with `int()` |
| Strings.TrimPadded | client_dc.py:181 | trimming `w1 + t + w2` gives back `t` when `w1`, `w2` are whitespace and `t` has none at its ends |
| Strings.ParseIntPadded | client_dc.py:181 | `int()` of a natural number written with surrounding whitespace, an optional `+` or `-` and any leading zeros is that number with that sign |
| Strings.StripUnpadded | client_dc.py:181 | a string that neither starts nor ends with whitespace is its own trim |
| Strings.DecimalOf | client_dc.py:181 | the writing side of the `int(port)` round trip (the program has no such function): `str(n)` is a non-empty string of decimal digits |
| Strings.ParseIntDecimal | client_dc.py:181 | `int(str(n)) == n` for every natural number |
| Node.UnionAllMembers | node.py:56-59 | a value is in the union of the lists exactly when some list holds it |
| Node.MergeFoundValues | node.py:55-61 | the merged list holds exactly the values that some peer answered with, each once |
| Node.LookupResult | node.py:107-121 | the lookup result always contains the local set; when the crawl runs it contains the crawl's answer; it holds nothing else |
| Node.ShallowHitIgnoresCrawl | node.py:110-111 | a shallow lookup with local values returns the local set, whatever the crawl would answer |
| Node.CrawledLookupIsUnion | node.py:113-121 | a lookup that crawls returns exactly the local values and the crawled ones, `None` counting as empty |
| Node.Checked | node.py:146-150 | `checked_list` holds every answer some parsed value's validation gave (its converse is `Node.CheckedMembers`) |
| Node.CheckedMembers | node.py:146-150 | a value is in `checked_list` exactly when some stored value parses and its validation answers with it |
| Node.Pruned | node.py:154-155 | after the write-back every key holds exactly its old values that were checked, keys left with none are gone, no key is added, and the invariant holds |
| Node.Filter | node.py:155 | the filtered list holds exactly the list's elements that are in the kept set |
| Node.PartlyPrunedStep | node.py:154-155 | one `overwrite` of the write-back never raises and prunes exactly one more key |
| Node.PartlyPrunedAll | node.py:154-155 | once every key has been overwritten the store is the pruned store |
| Node.MultiValueNode.constructor | node.py:71-80 | a node keeps its port, neighbours and seed items, with an empty store |
| Node.MultiValueNode.GetMultiValue | node.py:104-121 | the result lists exactly `LookupResult(local set, shallow, crawl answer)`, each value once |
| Node.MultiValueNode.SnapshotStorage | node.py:125-129 | `item_dict` copies every key with its values, and `sum_list` is the set of all stored values |
| Node.MultiValueNode.WriteBack | node.py:154-155 | the store becomes `Pruned(old store, checked_list)` |
| Node.MultiValueNode.PingNodeStorage | node.py:124-155 | a round raises exactly when some parsed value's validation raises, and then leaves the store unchanged; otherwise every key keeps exactly its confirmed values |
| Node.CheckValues | node.py:131-152 | the gather raises exactly when some parsed value's validation raises; otherwise the result is exactly the set of confirmed answers |
| Node.ParseStorageValue | node.py:158-159 | the plain node's parse hook accepts every value, unchanged |
| Node.ValidateStorageValue | node.py:162-163 | the plain node's validate hook confirms every parsed value with itself |
| Node.IdentityConfirmsAll | node.py:146-163 | with the identity hooks no validation raises and every stored value is confirmed |
| Node.IdentityRoundKeepsStorage | node.py:124-163 | with the plain node's identity hooks a round never raises and leaves the store unchanged |
| Node.UnconfirmedValueRemoved | node.py:154-155 | a value that is not confirmed is under no key after the write-back |
| ClientDc.BackendOf | client_dc.py:10-12 | `BackendType(v)` succeeds exactly for `cpu` and `gpu`, with that value; otherwise `ValueError` |
| ClientDc.ServiceOf | client_dc.py:15-17 | `ServiceType(v)` succeeds exactly for `asr` and `tts`, with that value; otherwise `ValueError` |
| ClientDc.ValidateServiceAddress | client_dc.py:91-95 | an address is refused exactly when it starts with `localhost` or `127.0.0.1` |
| ClientDc.GenerateServiceKey | client_dc.py:161-164 | the key `service/backend` splits on `/` back into the service's and the backend's value |
| ClientDc.GenerateServiceItem | client_dc.py:167-170 | the item's key is the service key, and its value is the key followed by `/` and the address |
| ClientDc.ParseStorageValue | client_dc.py:98-108 | a value decodes exactly when it has two `/` and (in debug mode, or) its address passes validation; the three pieces are separator-free and re-join to the value |
| ClientDc.ItemKeyIsServiceKey | client_dc.py:161-170 | the key of a generated item is the service key |
| ClientDc.ServiceKeyInjective | client_dc.py:161-164 | different `(service, backend)` pairs get different keys |
| ClientDc.ParseGeneratedItem | client_dc.py:98-108 | decoding the value generated for a service, backend and accepted separator-free address gives them back |
| ClientDc.GeneratedFromParsed | client_dc.py:167-170 | a value that decodes into known enum members is exactly the value generated from them |
| ClientDc.ValidateStorageValue | client_dc.py:139-158 | validation raises `ValueError` exactly for an unknown service or backend; otherwise it gives the re-encoded value exactly when the probe answers |
| ClientDc.DcCheckedIsLive | client_dc.py:139-158 | with the service hooks the confirmed values are exactly the live ones: they decode, name known members, and their probe answers |
| ClientDc.DcRoundRaises | client_dc.py:139-158 | with the service hooks a round raises exactly when some stored value decodes but names an unknown service or backend |
| ClientDc.DcRoundPrunesDead | node.py:124-155 | after a service node's round a stored value stays under a key exactly when it is live |
| ClientDc.DCNode.constructor | client_dc.py:21-25 | a service node is a fresh node with an empty store and the given debug flag |
| ClientDc.DCNode.FindServiceAddr | client_dc.py:37-49 | an empty lookup raises `IndexError`; a success is the address of some value found; a failure otherwise is "invalid service address", only when some value found does not decode; if all decode it succeeds |
| ClientDc.DCNode.PingNodeStorage | node.py:124-155 | a service node's round raises (changing nothing) exactly when a stored value is poisonous; otherwise every key keeps exactly its live values |
| ClientDc.NeighbourAsWritten | client_dc.py:178-181 | as written: raises `ValueError` exactly when the item lacks exactly one `:` or its port is not an integer; otherwise it always appends the stripped host and the port |
| ClientDc.AddrListAsWritten | client_dc.py:173-183 | as written: a non-empty list with an empty item raises |
| ClientDc.CollectEmptyRaises | client_dc.py:177-181 | as written, the loop raises on any list holding an empty item |
| ClientDc.Neighbour | client_dc.py:178-181 | an item is skipped exactly when it is empty; it raises `ValueError` exactly when it lacks exactly one `:` or its port is not an integer; otherwise it gives the stripped host and the port |
| ClientDc.EmptinessTestIsDead | client_dc.py:178-181 | as written, no item is ever skipped |
| ClientDc.TrailingComma | client_dc.py:176-181 | as written, a trailing comma raises, for every list including the empty one; with empty items skipped it parses like the list without it |
| ClientDc.CollectAgrees | client_dc.py:177-181 | wherever the loop as written succeeds, skipping empty items gives the same list |
| ClientDc.CollectAgreesNonEmpty | client_dc.py:177-181 | on a list with no empty item the loop as written and the corrected loop give the same result |
| ClientDc.AddrListAgrees | client_dc.py:173-183 | wherever `parse_addr_list` as written succeeds, the corrected one gives the same result |
| ClientDc.NeighbourOfFormat | client_dc.py:178-181 | `host:port` parses back into `(host, port)` for a host without `,`, `:` or surrounding whitespace |
| ClientDc.CollectFormatted | client_dc.py:177-181 | the loop over formatted neighbours gives back the neighbours in order |
| ClientDc.AddrListOfFormatted | client_dc.py:173-183 | a neighbour list (the empty one as the empty string) written as `host:port,host:port,...` parses back into the same pairs |
| ClientDc.AddrListAsWrittenOfFormatted | client_dc.py:173-183 | `parse_addr_list` as written reads a list written as `host:port,host:port,...` back into the same pairs |
| ClientDc.ParseAddrList | client_dc.py:173-183 | the loop computes `AddrList`: `[]` for an empty string, else one pair per non-empty item, stopping at the first error |
| ClientDc.CollectErrStays | client_dc.py:177-178 | once the loop has raised on a prefix, the whole list raises the same error |
| ClientDc.ParseNeighbours | client_dc.py:186-190 | built on the corrected list parse `AddrList` of the client_dc.py:178-180 finding, which skips empty items where the program raises: fails exactly when that parse fails; otherwise the parsed list with `("127.0.0.1", local_port)` appended last |
| ClientDc.ServiceEntry | client_dc.py:198-203 | one `--services` item raises only `ValueError`; an entry it gives has the item itself as its value |
| ClientDc.ServiceEntryAccepts | client_dc.py:198-203 | an item gives an entry exactly when it has two `/`, an accepted address, and a known service and backend; the entry's key is `service/backend` |
| ClientDc.ServicesFrom | client_dc.py:197-204 | the loop's exception is always the exception of one of the items |
| ClientDc.Services | client_dc.py:193-206 | `parse_services` raises only `ValueError` |
| ClientDc.ParseServices | client_dc.py:193-206 | the loop computes `Services`: empty for an empty string, else the entries of the items in order, stopping at the first error |
| ClientDc.ServicesErrStays | client_dc.py:197-203 | once the loop has raised on a prefix, the whole list raises the same error |
| ClientDc.ServiceEntryDecodes | client_dc.py:198-203 | a seed entry's value decodes outside debug mode, as its key followed by a non-loopback address |
| ClientDc.ServicesEntriesOk | client_dc.py:197-204 | the loop gets through exactly when every item gives an entry |
| ClientDc.ServicesKeys | client_dc.py:197-204 | the keys of the result are exactly the keys the items name |
| ClientDc.ServicesLastWins | client_dc.py:197-204 | a key holds the value of the last item naming it |
| ClientDc.ServicesFromItems | client_dc.py:197-204 | every entry of the result is the entry of some item |
| ClientDc.ServicesDecode | client_dc.py:193-206 | every seed `parse_services` accepts decodes in the liveness round as its key followed by its address |

## Left out

- The Kademlia library: `Server`, `listen`, `bootstrap`, routing, and the
  crawl's traversal. The crawl's answer (`remote`) and the key hash
  (`digest`) are parameters.
- The repair `call_store` of the crawl (node.py:62-65). It is a network
  write.
- `run`, `run_local`, `start_dht` and `stop_dht`. These are the
  publishing of the seed items, the 30-second loop, and task scheduling and
  cancellation.
- The concurrency of `asyncio.gather`. The validations run as one batch: if
  any raises, the round raises before writing anything.
- The HTTP probes and handlers: `query_asr_service`, `query_tts_service`,
  `asr`, `synthesize` and `create_app`. A probe is the oracle
  `probe(service, address)`.
- The re-publish `self.node.set(key, node)` in `find_service_addr`
  (client_dc.py:41-42). It is a network write through the DHT.
- Logging, argparse and `main`.
- client_user.py and dc_test.py are not part of this model.
- The `zip(sum_list, values)` pairing (node.py:148) is left out. It pairs
  values with the wrong answers, but only for logging. `checked_list`
  depends on the answers alone, and the model computes it from them.
- Strings.ParseInt: does not accept underscores or non-ASCII digits, which
  Python's `int()` accepts, and does not skip non-ASCII whitespace, which
  `int()` also skips in a string holding a non-ASCII character.
- Strings.Strip: removes the ASCII whitespace Python's `str.isspace()` accepts
  (tab to carriage return, U+001C to U+001F, space), but not non-ASCII
  whitespace such as U+0085 or U+00A0, which Python also strips.
- The order of Python dict and set iteration. Lists produced from sets are
  stated as sets, each element once, with no order promised.
- Storage.MultiStorage.Get: modelled only with the default `None`, the only
  default the program uses.
- Node.MergeFoundValues: requires a non-empty list of answers. The crawl
  calls it only once a peer has answered, and `values[0]` raises on an
  empty list.
- The values added to the store while the gather awaits (node.py:145), by
  an incoming `store` or by the re-publish of `find_service_addr`, are
  erased by the write-back (node.py:154-155), which overwrites each
  snapshotted key with its checked snapshot values. The model has no
  interleaving: `Node.MultiValueNode.WriteBack` requires the store to equal
  the snapshot, so this loss is not captured.

## Findings

| source | as written | input that shows it | evidently intended | confidence | as-written member | corrected member |
|---|---|---|---|---|---|---|
| node.py:26-34 | `storage[k] = []` stores `set()` under a missing key | `storage["k"] = []` on an empty store leaves `{"k": set()}` | a stored set is never empty (as `overwrite` ensures by deleting) | not executed | Storage.EmptyListBreaksInvariant | Storage.WithItem |
| client_dc.py:178-180 | the unpacking runs before `if len(neighbour) > 0`, so an empty item raises and the test is never false | `parse_addr_list("a:1,")` raises `ValueError` on the empty item after the comma | empty items (a trailing comma) are skipped | not executed | ClientDc.TrailingComma | ClientDc.Neighbour |
