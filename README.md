# Embedded asset repository: a Dafny model

This project models the `Embed` derive macro of `embed/macro/lib.rs`. The macro turns a unit
struct annotated with `#[folder = "..."]` (and optionally `prefix`, `include`, `exclude`) into
an asset repository with two interchangeable backends that share one contract,
`get(path) -> Option<EmbeddedFile>` and `iter() -> names`:

- the **compiled backend** (`embedded`): at build time a loop over the discovered files fills a
  `BTreeMap` keyed by relative path and a list of public names; the map is emitted in key order
  as the constant table `ENTRIES`, and `get` strips the prefix, turns `\` into `/` and
  binary-searches that table;
- the **live backend** (`dynamic`): every `get` strips the prefix, normalises separators, joins
  the path onto the folder, canonicalises it, refuses anything not component-wise under the
  canonical folder, applies the include/exclude predicate and only then reads the file; every
  `iter` rediscovers the folder;
- the **validation** in `impl_rust_embed` and `find_attribute_values`, which decides whether a
  repository is generated at all.

Modules, leaves first:

| module | file | contents |
|---|---|---|
| `Wrappers` | wrappers.dfy | `Option`, `Result` |
| `Order` | order.dfy | Rust's `Ord for str` as lexicographic order on chars, proved a strict total order |
| `Paths` | paths.dfy | prefix stripping, separator normalisation, the lookup key, public names, `Path::join`, component-wise `starts_with` |
| `Assets` | assets.dfy | `EmbeddedFile`, discovery entries `FileEntry`, build errors, the public name list |
| `SortedTable` | sorted_table.dfy | the `BTreeMap` as a strictly sorted association list, `insert`, linear scan, binary search over an `array` |
| `Embedded` | embedded.dfy | the snapshot-building loop, the static `get` over an array, `iter` |
| `Dynamic` | dynamic.dfy | the live `get` as a chain of guards over an abstract file system, `iter` |
| `Derive` | derive.dfy | the derive input, attribute lookup, folder resolution, `generate_assets`, `impl_rust_embed` |

Rust compares `String`/`str` byte-wise on UTF-8. UTF-8 preserves code-point order, so this is
the lexicographic order on Unicode scalar values, which are Dafny's `char`s. The generator
(the `BTreeMap`) and the lookup (`binary_search_by_key`) use the same `Order.Cmp`. The
central theorem is that the binary search finds exactly what a linear scan of the same
strictly sorted table finds (`Embedded.Get`, `SortedTable.BinarySearch`).

Collaborators that are not part of this model become parameters:
- `BuildEnv` holds `CARGO_MANIFEST_DIR`, `shellexpand::full`, `Path::exists`, the build-time
  `get_files`, `read_file_from_fs` together with the metadata computed from it, and
  `canonicalize`.
- `LiveFs` holds `canonicalize`, `read_file_from_fs`, `is_path_included` and `get_files`, all as seen by one
  live call.

Passing the file system to each call models what the live backend promises: its answers
depend only on the disk at the time of the call. The build-time panics (`expect`/`unwrap` on
an unreadable file, a folder that does not canonicalise, an unset manifest directory) become
`Failure` values, because each of them aborts the build just as a compile error does.

Behaviour of the generated code worth noting:
- The prefix is stripped before backslashes are normalised (lib.rs:56, 75, 115, 150). A prefix
  written with `\` therefore does not match (`Paths.BackslashPrefixMisses`).
- `iter` yields names in discovery order, one per discovered file, not in table order.
- The table is sorted by key whatever the discovery order (`Embedded.ExampleSnapshot`).
- On Unix a file name may contain `\`. Such a file is embedded and listed, but `get` of its
  listed name looks up the slash form and misses (`Embedded.BackslashNameUnreachable`). For this
  reason `Embedded.IterNamesResolve` assumes relative paths without backslashes.

## Model

| member | source | states |
|---|---|---|
| `Order.CmpEq` | embed/macro/lib.rs:78 | the string comparison reports equality exactly for equal strings |
| `Order.CmpFlip` | embed/macro/lib.rs:78 | swapping the operands swaps less and greater |
| `Order.LessIrreflexive` | embed/macro/lib.rs:23 | no key is smaller than itself, so a strictly sorted table has no duplicate keys |
| `Order.LessTrans` | embed/macro/lib.rs:23 | the key order is transitive |
| `Order.LessTotal` | embed/macro/lib.rs:78 | any two distinct keys are ordered one way or the other |
| `Paths.StripPrefix` | embed/macro/lib.rs:56 | `strip_prefix` succeeds exactly when the path starts with the prefix, and prefix ++ rest is the path |
| `Paths.StripPrefixOfConcat` | embed/macro/lib.rs:56 | stripping `p` from `p ++ k` gives `k` |
| `Paths.Normalize` | embed/macro/lib.rs:75 | `replace("\\", "/")` keeps the length, leaves no backslash and changes no other character |
| `Paths.NormalizeNoBackslash` | embed/macro/lib.rs:75 | a path without backslashes is unchanged by normalisation |
| `Paths.NormalizeIdempotent` | embed/macro/lib.rs:75 | normalising twice is normalising once |
| `Paths.NormalizeSeparatorInsensitive` | embed/macro/lib.rs:75 | paths that differ only in `/` versus `\` normalise to the same key |
| `Paths.LookupKey` | embed/macro/lib.rs:54-57 | with no prefix the key is the normalised path; with a prefix a key exists exactly when the path starts with the prefix; no key contains a backslash |
| `Paths.LookupKeyPrefixed` | embed/macro/lib.rs:113-115 | with a prefix, the key of `prefix ++ k` is the prefix-less key of `k` |
| `Paths.LookupKeySeparatorInsensitive` | embed/macro/lib.rs:150 | the key does not depend on which separator is written after the prefix |
| `Paths.BackslashPrefixMisses` | embed/macro/lib.rs:56 | prefix `a/` does not match `a\b`, because stripping precedes normalisation |
| `Paths.PublicName` | embed/macro/lib.rs:43-47 | the key of a public name is the normalised relative path it was made from |
| `Paths.Join` | embed/macro/lib.rs:151 | an absolute relative part replaces the base; otherwise the result starts with the base, and a `/` is put between the two exactly when the base is non-empty and does not already end in `/` |
| `Paths.SiblingNotContained` | embed/macro/lib.rs:155 | containment compares whole components: `/srv/app-data/x` is not under `/srv/app` |
| `Assets.PublicNames` | embed/macro/lib.rs:43-47 | one name per discovered file, in discovery order, each the file's public name |
| `SortedTable.Find` | embed/macro/lib.rs:79 | the linear scan misses exactly when the key is not in the table, and a hit is the value at an index holding the key |
| `SortedTable.FindIsMapLookup` | embed/macro/lib.rs:79 | the linear scan is the lookup in the map the table stands for |
| `SortedTable.FindAtIndex` | embed/macro/lib.rs:78-79 | in a strictly sorted table the value at whatever index holds a key is the value the scan returns |
| `SortedTable.Insert` | embed/macro/lib.rs:33-41 | `BTreeMap::insert` adds exactly the inserted key to the key set |
| `SortedTable.InsertSorted` | embed/macro/lib.rs:33-41 | insertion keeps the table strictly ascending |
| `SortedTable.InsertIsMapUpdate` | embed/macro/lib.rs:33-41 | insertion is a map update: a later insert of the same key replaces the earlier value, other keys are untouched |
| `SortedTable.BinarySearch` | embed/macro/lib.rs:78 | on a strictly sorted array, `Found(i)` holds the key at `i`; `NotFound(i)` is the insertion point, with smaller keys before and larger keys after; not found exactly when the key is absent |
| `Embedded.TableOfSorted` | embed/macro/lib.rs:61-65 | the emitted table is strictly ascending by path |
| `Embedded.TableOfContents` | embed/macro/lib.rs:23-41 | the emitted table stands for the snapshot contents map |
| `Embedded.ContentsLastWins` | embed/macro/lib.rs:33-41 | a discovered path is in the snapshot, with the file read for its last occurrence |
| `Embedded.ContentsOnlyDiscovered` | embed/macro/lib.rs:28-41 | a path that no discovered file has is not in the snapshot |
| `Embedded.Generate` | embed/macro/lib.rs:23-50 | the build succeeds exactly when every discovered file is readable; otherwise it reports the first unreadable file; on success the table is strictly sorted, stands for the contents, and the name list is the public names with one entry per file |
| `Embedded.Get` | embed/macro/lib.rs:73-81 | the binary search returns what a linear scan of the same table returns; it finds a file exactly when the normalised key is a table key, and the file is the one stored with that key |
| `Embedded.LookupContents` | embed/macro/lib.rs:54-79 | over a built snapshot, `get` misses on a prefix mismatch and otherwise returns the contents under the normalised key |
| `Embedded.LookupPrefixed` | embed/macro/lib.rs:54-57 | with a prefix, `get(prefix ++ k)` is the prefix-less `get(k)`, and a path without the prefix misses |
| `Embedded.LookupSeparatorInsensitive` | embed/macro/lib.rs:75 | the separator written after the prefix does not change the static answer |
| `Embedded.IterNamesResolve` | embed/macro/lib.rs:84-91 | every name `iter` yields is found by `get`, which returns the file last discovered under that relative path |
| `Embedded.BackslashNameUnreachable` | embed/macro/lib.rs:43-47 | a discovered name containing `\` is listed and embedded but its listed name misses |
| `Embedded.ExampleSnapshot` | embed/macro/lib.rs:61-79 | discovery `index.html, css/site.css` yields the table `css/site.css, index.html`, and `secret/.env` misses |
| `Dynamic.Generate` | embed/macro/lib.rs:133-138 | generating the live backend fails exactly when the folder does not canonicalise, and otherwise records the canonical folder and the configuration |
| `Dynamic.Get` | embed/macro/lib.rs:144-165 | a returned file always comes from a canonical path under the canonical folder, that the patterns admit for the normalised relative path, read from that path |
| `Dynamic.GetReadsWhenAdmitted` | embed/macro/lib.rs:160-164 | once containment and patterns pass, `get` is the read of the canonical path, a read error being a miss |
| `Dynamic.EscapeMisses` | embed/macro/lib.rs:153-158 | a request that canonicalises outside the folder misses whatever the patterns say |
| `Dynamic.AbsoluteRequestIsNotJoined` | embed/macro/lib.rs:151 | an absolute request path is canonicalised as itself, not under the folder |
| `Dynamic.PrefixedGet` | embed/macro/lib.rs:113-115 | with a prefix, `get(prefix ++ k)` is the prefix-less `get(k)` |
| `Dynamic.PrefixMismatchMisses` | embed/macro/lib.rs:145 | with a prefix, a path not starting with it misses |
| `Dynamic.GetSeparatorInsensitive` | embed/macro/lib.rs:150 | the separator written after the prefix does not change the answer |
| `Dynamic.Iter` | embed/macro/lib.rs:168-176 | one name per file of a fresh discovery of the folder with the repository's patterns, in discovery order, each exactly `prefix ++ rel_path` (or `rel_path` without a prefix) and resolving back to its normalised relative path |
| `Derive.FindAttributeValues` | embed/macro/lib.rs:259-274 | a value is returned exactly when some attribute of that name carries it as a string literal |
| `Derive.FindAttributeValuesAppend` | embed/macro/lib.rs:259-274 | the values keep attribute order |
| `Derive.FindAttributeValuesNone` | embed/macro/lib.rs:262-271 | attributes of other names, or without a string literal, contribute nothing |
| `Derive.First` | embed/macro/lib.rs:304 | the first `prefix` value wins, and there is no prefix when none is given |
| `Derive.ResolveFolder` | embed/macro/lib.rs:313-322 | a relative folder becomes `manifest_dir/folder` (one separator between them unless the directory is empty or ends in one) and keeps its relative form; an absolute folder is used as it is, with no relative form; a relative folder without a manifest directory fails |
| `Derive.ResolvedFolderIsAbsolute` | embed/macro/lib.rs:313-322 | with an absolute manifest directory the resolved folder is absolute |
| `Derive.GenerateAssets` | embed/macro/lib.rs:192-221 | both backends are generated exactly when every discovered file is readable and the folder canonicalises; an unreadable file is reported first; the snapshot and the live repository share folder, prefix and patterns |
| `Derive.ImplRustEmbed` | embed/macro/lib.rs:276-342 | non-unit structs are refused, any number of `folder` values but one is refused, expansion errors, a missing manifest directory and a non-existent folder are errors in that order; otherwise the configuration has the first prefix and all includes and excludes in order, and on success the snapshot table, the name list and the live repository are those generated from that configuration |

## Left out

- Token generation (`quote!`, `syn` parsing, the `proc_macro` entry at lib.rs:344-352) is not modelled. The two backends are two modules over one contract. The `cfg` attributes that choose between them at build time (lib.rs:52, 141) are not modelled either.
- The `EmbeddedStruct` impls (lib.rs:94-102, 179-188) only delegate to `get`/`iter` and box the iterator, so they are not modelled separately.
- `Embedded.Iter` returns the stored name list. Its properties are stated by `Embedded.Generate` and `Embedded.IterNamesResolve`.
- `prest_embed_utils` is not part of this model. Discovery (`get_files`), `read_file_from_fs`, `sha256_hash`, `mimetype`, `last_modified` and `is_path_included` are parameters. No glob semantics are assumed.
- File system and environment effects are fields of `BuildEnv`/`LiveFs`: `canonicalize`, `exists`, `include_bytes!`, `shellexpand`, `CARGO_MANIFEST_DIR`. The live `get` is a function of the file system passed to the call.
- Non-Unicode paths are not modelled (`to_str().expect`/`unwrap`, lib.rs:136-138, 316-317), because paths are Dafny strings.
- Windows path forms (drive prefixes, `\` as a separator in `Path`) are not modelled. `Paths.Join` and `Paths.IsRelative` follow Unix `Path` semantics.
- Error messages are reduced to their kind. The current directory in the missing-folder message (lib.rs:325-329) is not modelled.
- `embed_file` ignores its folder and identifier arguments (lib.rs:223-227). The model passes only the canonical path to the reader.
- The `ENTRIES` constant is modelled as an `array` handed to `Embedded.Get`, with its sortedness as a precondition. `Embedded.Generate` proves that the emitted table is sorted.
- host/logs.rs, examples/scraping/src/main.rs, examples/step-3/src/lib.rs and examples/pwa/serve.rs are not part of this model. They hold logging I/O, network scraping and server wiring.
