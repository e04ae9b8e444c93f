# madefor.cc DNS registry linter, modelled in Dafny

madefor.cc keeps its subdomains in a static table (`dns/domains.py`). Each name maps to a
required CNAME target and an optional `cloudflare` proxy flag. A linter (`dns/lint.py`)
checks the table and exits with 0 when it passes and 1 otherwise. Without `--fetch-domains` (see
"## Left out"), the linter makes two checks:

- **Ordering.** The declared key order must equal its lexicographic sort. If it does not, the
  linter logs an error and prints a diff of the two orders. The diff is built from
  `difflib.SequenceMatcher` opcodes, one line per name, with a marker per opcode kind.
- **CNAME shape.** A CNAME that contains `/` looks like a URL. Every such entry is reported.
  A cleaned value is suggested: strip `https://`, then strip `http://`, then cut at the first
  `/` if it is not at index 0. The suggestion is shown only if no `/` is left.

The model has six modules, one file each:

| file | module | models |
|---|---|---|
| `wrappers.dfy` | `Wrappers` | the `Option` type used for optional values |
| `order.dfy` | `StrOrder` | Python's code-point order on `str`, and `sorted` as an insertion sort |
| `diff.dfy` | `Diff` | `write_diff`, the opcode loop, and what a diff that tiles both lists prints |
| `cname.dfy` | `Cname` | `removeprefix`, `index`, the suggestion, and the per-entry check |
| `domains.dfy` | `Domains` | the `Domain` record, the `domains` table, and its dictionary view |
| `lint.dfy` | `Lint` | `main` without `--fetch-domains`: validity, findings, and the exit code |

A Python dict keeps its keys in declaration order, and the ordering check is about that order.
So the registry is a sequence of `Entry(name, info)` values, and `Domains.AsMap` gives the
dictionary it denotes. The linter reads `domains.keys()` and `domains.items()`, and a dictionary's
items never repeat a name, so `Lint.Lint` and `Lint.CheckCnames` take a sequence with distinct
names (`Domains.DistinctKeys`). The shipped table meets this (`Domains.RegistryKeysDistinct`).
The registry is an immutable value, so the linter cannot change it.

`sorted` is modelled by an insertion sort. `StrOrder.SortIsUnique` proves that every ascending
permutation of a list equals `Sort` of it. The result therefore does not depend on the sorting
algorithm Python uses.

The opcodes are an input to `Lint.Lint`. It requires them to tile the declared and sorted lists
(`Diff.Tiles`) only when the two differ, which is the only case where `main` computes them. Each
printed line is a `Diff.Line(marker, name)`. The two `*` prefixes differ only by colour: red for
the declared side of a replaced run, green for the sorted side. They are kept apart as
`ReplacedOld` and `ReplacedNew`.

Two details of the code shape the model:

- The suggestion calls `removeprefix("https://")` and then `removeprefix("http://")`. So
  `https://http://a/b` is stripped to `a/b` and then suggested as `a`.
- A `replace` opcode prints both halves with `*`: the declared names in red, then the sorted
  names in green.

## Model

| member | source | states |
|---|---|---|
| `StrOrder.LessEq` | dns/lint.py:20 | Python's `<=` on `str`, which `sorted` uses: code points compared left to right; a prefix of a string (the string itself included) is `<=` it |
| `StrOrder.Less` | dns/domains.py:25 | strict `<` on Python strings: `<=` and not equal, the order the comment asks of the names (`"wolf" < "www"`) |
| `StrOrder.Ascending` | dns/lint.py:20-23 | every earlier name is `<=` every later one: the shape `sorted` gives, and the state in which the line-23 test does not fire |
| `StrOrder.StrictlyAscending` | dns/domains.py:25 | every earlier name is `<` every later one: sorted with no name twice |
| `StrOrder.LessEqTotal` | dns/lint.py:20 | any two names are comparable under Python's string order |
| `StrOrder.LessEqAntisymmetric` | dns/lint.py:20 | two names that are each `<=` the other are equal, so the sort has no ties to break |
| `StrOrder.LessEqTransitive` | dns/lint.py:20 | the string order is transitive |
| `StrOrder.Sort` | dns/lint.py:20 | `sorted(domain_list)` is ascending, is a permutation of the declared names, and has the same length |
| `StrOrder.Insert` | dns/lint.py:20 | inserting a name into an ascending list keeps it ascending and adds exactly that name |
| `StrOrder.AscendingPermutationsEqual` | dns/lint.py:20 | two ascending lists with the same elements are equal |
| `StrOrder.SortIsUnique` | dns/lint.py:20 | every ascending permutation of the names is `Sort` of them, so any correct sort gives the same list |
| `StrOrder.SortedIffAscending` | dns/lint.py:23 | `domain_list != sorted_domain_list` holds exactly when the declared names are not ascending |
| `Diff.Tagged` | dns/lint.py:12-13 | one line per name, in order, each with the same marker |
| `Diff.WriteDiff` | dns/lint.py:11-13 | `write_diff` emits `end - start` lines (none when `end <= start`); line `k` is `list[start + k]` with the given marker |
| `Diff.Segment` | dns/lint.py:30-38 | the lines one opcode prints, given its declared slice and its sorted slice: `insert` the sorted slice with `+`, `delete` the declared slice with `-`, `equal` the declared slice unmarked, `replace` the declared slice then the sorted slice with `*` |
| `Diff.RenderOp` | dns/lint.py:30-38 | the lines one opcode prints: its `Segment` over the declared slice `alo:ahi` and the sorted slice `blo:bhi` |
| `Diff.Render` | dns/lint.py:29-38 | the lines the opcode loop prints: each opcode's `Segment`, in opcode order |
| `Diff.WriteOpcode` | dns/lint.py:30-38 | one opcode prints `equal` as unchanged old names, `delete` as `-` old names, `insert` as `+` new names, and `replace` as old then new names, both `*` |
| `Diff.RenderDiff` | dns/lint.py:29-38 | the opcode loop prints each opcode's lines in opcode order |
| `Diff.TilesFrom` | dns/lint.py:28-29 | what `get_opcodes()` guarantees and the model assumes of its input: from positions `i` and `j`, the opcodes cover the rest of both lists left to right without gaps; `equal` runs match, `insert` consumes nothing of the declared list, `delete` nothing of the sorted list |
| `Diff.Tiles` | dns/lint.py:28-29 | the opcodes tile both lists from their starts (`TilesFrom` at 0, 0) |
| `Diff.OldSideSegment` | dns/lint.py:30-38 | the unchanged, deleted and old replaced lines of one opcode spell its slice of the declared list |
| `Diff.NewSideSegment` | dns/lint.py:30-38 | the unchanged, inserted and new replaced lines of one opcode spell its slice of the sorted list |
| `Diff.Reconstruct` | dns/lint.py:28-38 | for opcodes that tile both lists, the old-side lines give back the declared list and the new-side lines give back the sorted list |
| `Diff.RenderNonEmpty` | dns/lint.py:23-38 | an unsorted (so non-empty) list always prints at least one diff line |
| `Cname.RemovePrefix` | dns/lint.py:52 | `removeprefix` drops `p` exactly when `s` starts with `p`, and otherwise returns `s` |
| `Cname.FirstIndex` | dns/lint.py:53 | `index("/")` is the position of a `/` with no `/` before it |
| `Cname.StripScheme` | dns/lint.py:52 | drops a leading `https://`, then a leading `http://`, in all four combinations |
| `Cname.TruncateAtSlash` | dns/lint.py:53-54 | returns a prefix; if a `/` occurs after index 0 the result stops right before the first `/`, otherwise the string is unchanged |
| `Cname.Suggest` | dns/lint.py:52-57 | a suggestion exists exactly when the stripped CNAME does not start with `/`; it has no `/`, it is a prefix of the stripped CNAME, and it is either all of it or ends right before its first `/` |
| `Cname.CheckEntry` | dns/lint.py:42-50 | an entry is reported exactly when its CNAME contains `/`, with its name, CNAME and suggestion |
| `Cname.SuggestCutsAtFirstSlash` | dns/lint.py:53-54 | a first `/` at index `i > 0` gives the suggestion `stripped[..i]` |
| `Cname.SuggestWholeWithoutSlash` | dns/lint.py:56-57 | a stripped CNAME without `/` is suggested unchanged |
| `Cname.ExampleHttpsWithPath` | dns/lint.py:52-57 | `https://example.com/path` gives the suggestion `example.com` |
| `Cname.ExampleHttpsWithoutPath` | dns/lint.py:52-57 | `https://example.com` gives the suggestion `example.com` |
| `Cname.ExampleNoScheme` | dns/lint.py:52-57 | `example.com/path` gives the suggestion `example.com` |
| `Cname.ExampleBothSchemes` | dns/lint.py:52 | `https://http://a/b` is stripped to `a/b` and suggested as `a` |
| `Cname.ExampleNoSuggestion` | dns/lint.py:53-57 | `/foo` and `https:///x` get no suggestion |
| `Domains.Proxied` | dns/domains.py:10-14 | a record is proxied only when `cloudflare` is present and true; absent counts as false |
| `Domains.Keys` | dns/lint.py:19 | `list(domains.keys())` has one name per entry, in declaration order |
| `Domains.DistinctKeys` | dns/domains.py:24-28 | no name is declared twice, as holds for the keys of a dictionary; `Lint.Lint` takes the items on this premise |
| `Domains.AsMap` | dns/domains.py:24-28 | the dictionary the literal builds, item by item, a later item for a name replacing an earlier one |
| `Domains.AsMapLastWins` | dns/domains.py:24-28 | each name maps to the record of the last item that declares it |
| `Domains.AsMapKeys` | dns/domains.py:24-28 | the dictionary's keys are exactly the declared names |
| `Domains.AsMapLookup` | dns/domains.py:24-28 | with distinct names, the dictionary maps each declared name to its own record |
| `Domains.Registry` | dns/domains.py:24-28 | the `domains` table: `wolf` with CNAME `cc-wolf-os.github.io`, then `www` with CNAME `madefor.cc`, neither setting `cloudflare` |
| `Domains.RegistryKeysStrictlyAscending` | dns/domains.py:25-27 | the table's names are strictly ascending (`"wolf" < "www"`), as the comment asks |
| `Domains.RegistryKeysDistinct` | dns/domains.py:24-28 | no name appears twice in the table |
| `Domains.RegistryNotProxied` | dns/domains.py:26-27 | no entry sets `cloudflare`, so none is proxied |
| `Domains.RegistryAsMap` | dns/domains.py:24-28 | the table denotes the dictionary `{"wolf": cc-wolf-os.github.io, "www": madefor.cc}` |
| `Lint.CnameFindings` | dns/lint.py:41-57 | the findings the CNAME loop reports: each entry's `CheckEntry` result, in table order |
| `Lint.EntryFindings` | dns/lint.py:42-57 | what one iteration of the CNAME loop reports: one finding when the CNAME contains `/`, otherwise none |
| `Lint.CnamesValid` | dns/lint.py:41-44 | no item's CNAME passes the `"/" in info["cname"]` test |
| `Lint.RegistryValid` | dns/lint.py:17-44 | the run stays valid exactly when the names are ascending and no CNAME contains `/` |
| `Lint.ExitCode` | dns/lint.py:75 | the exit code is 0 exactly when the run is valid, and 1 otherwise |
| `Lint.CnameFindingsAppend` | dns/lint.py:41 | entries are checked independently: the findings for a joined table are the two parts' findings joined |
| `Lint.CnameFindingsEmptyIff` | dns/lint.py:43-44 | a table yields no CNAME finding exactly when no CNAME contains `/` |
| `Lint.CnameFindingsComplete` | dns/lint.py:41-50 | every entry whose CNAME contains `/` is reported with its suggestion, whatever came before it |
| `Lint.CnameFindingsSound` | dns/lint.py:41-50 | every finding names a table entry whose CNAME contains `/` |
| `Lint.CnamesValidStep` | dns/lint.py:43-44 | one more entry keeps the CNAMEs valid exactly when its CNAME has no `/` |
| `Lint.CnameFindingsStep` | dns/lint.py:41-57 | one more entry adds its finding, if any, at the end |
| `Lint.CheckCnames` | dns/lint.py:41-57 | over the items of a dictionary, the CNAME loop leaves `valid` set exactly when it was set before and no CNAME contains `/`; its findings are those of the whole table |
| `Lint.Lint` | dns/lint.py:16-75 | over the items of the `domains` dictionary: exit code 0 exactly when the names are ascending and no record of the dictionary has a CNAME containing `/`; the ordering error is logged exactly when the names are unsorted; an unsorted table prints the non-empty rendering of the opcodes; a sorted one prints no diff; the CNAME findings are those of the whole table |
| `Lint.CnamesValidOnDict` | dns/lint.py:41-44 | over a dictionary's items, "no CNAME contains `/`" holds exactly when no record in the dictionary has a `/` in its CNAME |
| `Lint.SortedRegistryValidity` | dns/lint.py:22-24 | for a sorted table the sort changes nothing, and validity depends only on the CNAME findings |
| `Lint.RegistryCnamesValid` | dns/domains.py:26-27 | no CNAME in the shipped table contains `/` |
| `Lint.RegistryPassesLint` | dns/domains.py:24-28 | the shipped table is its own sort, has no CNAME findings, and exits with 0 |
| `Lint.SwappedPairSorted` | dns/lint.py:20 | `sorted(["b", "a"])` is `["a", "b"]` |
| `Lint.SwappedPairDiff` | dns/lint.py:28-38 | the opcodes "insert a, equal b, delete a" tile `["b", "a"]` against `["a", "b"]` and print `+ a`, `  b`, `- a` |
| `Lint.ExampleSwappedPair` | dns/lint.py:19-24 | a table declared as `{"b": …, "a": …}` is unsorted and exits with 1 |

## Left out

- The `--fetch-domains` liveness check (dns/lint.py:59-73) performs HTTP requests with a timeout. Network I/O is outside the model, so `Lint.Lint` models `main(fetch_domains=False)`.
- `difflib.SequenceMatcher` is not part of this model. Its opcodes are an input, and only their tiling is assumed: equal runs match, inserts consume nothing of the declared list, and deletes consume nothing of the sorted list. The model does not prove that the unchanged lines form a longest common subsequence, because that depends on the matcher's algorithm and its junk heuristics.
- ANSI colour codes and the exact printed text are replaced by `Diff.Marker` values.
- Logging calls are not modelled as text. The ordering error is the `unsorted` result of `Lint.Lint`. Each CNAME error, with its suggestion if any, is a `Cname.Finding`.
- `dns.log.configure`, `argparse` and the `__main__` block are command-line glue.
- `sys.exit` is not modelled. `Lint.Lint` returns the exit code instead.
- The `Domain` TypedDict is not checked at run time. The model's `Domain` datatype always has a `cname`, so a record without one cannot be written.
- A dictionary literal that repeats a name is not linted as written. Python keeps such a name once, at its first position, with the record of its last item. `Lint.Lint` takes the dictionary's items, with distinct names. `Domains.AsMapLastWins` states which record the dictionary keeps.
