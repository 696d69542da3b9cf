/** The compiled backend (`embedded`, lib.rs:12-104): at build time one pass over the
    discovered files fills the table and the name list; at run time `get` strips the
    prefix, normalises separators and binary-searches the table, and `iter` returns the
    name list. */
module Embedded {
  import opened Wrappers
  import opened Order
  import opened Paths
  import opened Assets
  import opened SortedTable

  /** What the derive emits for the compiled backend: the `ENTRIES` table, the `ITEMS`
      name list and the configured prefix. */
  datatype Snapshot = Snapshot(
    entries: seq<(string, EmbeddedFile)>,
    names: seq<string>,
    prefix: Option<string>)

  /** Every discovered file can be read (otherwise `embed_file` aborts the build). */
  predicate AllReadable(files: seq<FileEntry>, read: string -> Option<EmbeddedFile>) {
    forall i :: 0 <= i < |files| ==> read(files[i].fullCanonicalPath).Some?
  }

  /** The content of the snapshot as a map: each relative path to the file read for its
      last occurrence in discovery order. */
  function Contents(files: seq<FileEntry>, read: string -> Option<EmbeddedFile>): map<string, EmbeddedFile>
    requires AllReadable(files, read)
  {
    if |files| == 0 then map[]
    else
      var last := files[|files| - 1];
      Contents(files[..|files| - 1], read)[last.relPath := read(last.fullCanonicalPath).value]
  }

  /** The table the `match_values.insert` loop leaves behind (lib.rs:23, 33-41). */
  function TableOf(files: seq<FileEntry>, read: string -> Option<EmbeddedFile>): seq<(string, EmbeddedFile)>
    requires AllReadable(files, read)
  {
    if |files| == 0 then []
    else
      var last := files[|files| - 1];
      Insert(TableOf(files[..|files| - 1], read), last.relPath, read(last.fullCanonicalPath).value)
  }

  /** The emitted table is strictly ascending, as binary search needs. */
  lemma {:induction false} TableOfSorted(files: seq<FileEntry>, read: string -> Option<EmbeddedFile>)
    requires AllReadable(files, read)
    ensures StrictlySorted(TableOf(files, read))
  {
    if |files| > 0 {
      var last := files[|files| - 1];
      TableOfSorted(files[..|files| - 1], read);
      InsertSorted(TableOf(files[..|files| - 1], read), last.relPath, read(last.fullCanonicalPath).value);
    }
  }

  /** The emitted table stands for exactly the snapshot's contents. */
  lemma {:induction false} TableOfContents(files: seq<FileEntry>, read: string -> Option<EmbeddedFile>)
    requires AllReadable(files, read)
    ensures AsMap(TableOf(files, read)) == Contents(files, read)
  {
    if |files| > 0 {
      var last := files[|files| - 1];
      TableOfContents(files[..|files| - 1], read);
      InsertIsMapUpdate(TableOf(files[..|files| - 1], read), last.relPath, read(last.fullCanonicalPath).value);
    }
  }

  /** A relative path is in the snapshot iff some discovered file has it, and a later
      file with the same path replaces an earlier one. */
  lemma {:induction false} ContentsLastWins(files: seq<FileEntry>, read: string -> Option<EmbeddedFile>, i: nat)
    requires AllReadable(files, read)
    requires i < |files|
    requires forall j :: i < j < |files| ==> files[j].relPath != files[i].relPath
    ensures files[i].relPath in Contents(files, read)
    ensures Contents(files, read)[files[i].relPath] == read(files[i].fullCanonicalPath).value
  {
    if i < |files| - 1 {
      ContentsLastWins(files[..|files| - 1], read, i);
    }
  }

  lemma {:induction false} ContentsOnlyDiscovered(files: seq<FileEntry>, read: string -> Option<EmbeddedFile>, k: string)
    requires AllReadable(files, read)
    requires forall j :: 0 <= j < |files| ==> files[j].relPath != k
    ensures k !in Contents(files, read)
  {
    if |files| > 0 {
      ContentsOnlyDiscovered(files[..|files| - 1], read, k);
    }
  }

  /** One turn of the build loop extends the table and the name list by file `i`. */
  lemma GenerateStep(files: seq<FileEntry>, prefix: Option<string>, read: string -> Option<EmbeddedFile>, i: nat)
    requires i < |files|
    requires AllReadable(files[..i], read) && read(files[i].fullCanonicalPath).Some?
    ensures AllReadable(files[..i + 1], read)
    ensures TableOf(files[..i + 1], read) ==
      Insert(TableOf(files[..i], read), files[i].relPath, read(files[i].fullCanonicalPath).value)
    ensures PublicNames(prefix, files[..i + 1]) == PublicNames(prefix, files[..i]) + [PublicName(prefix, files[i].relPath)]
  {
    var done := files[..i + 1];
    assert done[..i] == files[..i] && done[i] == files[i];
  }

  /** The build-time half of `embedded` (lib.rs:23-50): reads every discovered file, in
      discovery order, inserting it into the table and appending its public name. The
      first unreadable file aborts the build. */
  method Generate(files: seq<FileEntry>, prefix: Option<string>, read: string -> Option<EmbeddedFile>)
    returns (r: Result<Snapshot, EmbedError>)
    ensures r.Success? <==> AllReadable(files, read)
    ensures r.Failure? ==>
      exists i :: 0 <= i < |files| && AllReadable(files[..i], read)
        && read(files[i].fullCanonicalPath).None? && r.error == FileUnreadable(files[i].fullCanonicalPath)
    ensures r.Success? ==>
      && r.value.entries == TableOf(files, read)
      && StrictlySorted(r.value.entries)
      && AsMap(r.value.entries) == Contents(files, read)
      && r.value.names == PublicNames(prefix, files)
      && |r.value.names| == |files|
      && r.value.prefix == prefix
  {
    var matchValues: seq<(string, EmbeddedFile)> := [];
    var listValues: seq<string> := [];
    var i := 0;
    while i < |files|
      invariant 0 <= i <= |files|
      invariant AllReadable(files[..i], read)
      invariant matchValues == TableOf(files[..i], read)
      invariant listValues == PublicNames(prefix, files[..i])
    {
      var entry := files[i];
      var file := read(entry.fullCanonicalPath);
      if file.None? {
        assert read(files[i].fullCanonicalPath).None?;
        return Failure(FileUnreadable(entry.fullCanonicalPath));
      }
      GenerateStep(files, prefix, read, i);
      matchValues := Insert(matchValues, entry.relPath, file.value);
      listValues := listValues + [PublicName(prefix, entry.relPath)];
      i := i + 1;
    }
    assert files[..i] == files;
    TableOfSorted(files, read);
    TableOfContents(files, read);
    return Success(Snapshot(matchValues, listValues, prefix));
  }

  /** What the generated static `get` answers, stated with a linear scan. */
  function Lookup(entries: seq<(string, EmbeddedFile)>, prefix: Option<string>, filePath: string): Option<EmbeddedFile> {
    match LookupKey(prefix, filePath)
    case None => None
    case Some(key) => Find(entries, key)
  }

  /** The generated static `get` (lib.rs:73-81) over the `ENTRIES` constant: the
      binary search answers what a linear scan of the same table answers, and finds a
      file exactly when the normalised key is one of the table's keys. */
  method Get(entries: array<(string, EmbeddedFile)>, prefix: Option<string>, filePath: string)
    returns (r: Option<EmbeddedFile>)
    requires StrictlySorted(entries[..])
    ensures r == Lookup(entries[..], prefix, filePath)
    ensures r.Some? <==> LookupKey(prefix, filePath).Some? && LookupKey(prefix, filePath).value in Keys(entries[..])
    ensures r.Some? ==> exists i :: 0 <= i < entries.Length && entries[i].0 == LookupKey(prefix, filePath).value && entries[i].1 == r.value
  {
    var key := LookupKey(prefix, filePath);
    if key.None? {
      return None;
    }
    var position := BinarySearch(entries, key.value);
    if position.Found? {
      assert entries[..][position.index] == entries[position.index];
      FindAtIndex(entries[..], position.index);
      r := Some(entries[position.index].1);
    } else {
      r := None;
    }
  }

  /** The generated `iter` (lib.rs:83-91): the precomputed name list. */
  function Iter(s: Snapshot): seq<string> {
    s.names
  }

  /** Over a built snapshot, the static lookup is the snapshot's contents under the
      normalised key: a prefix mismatch misses, `prefix ++ k` finds `k`. */
  lemma LookupContents(files: seq<FileEntry>, read: string -> Option<EmbeddedFile>, prefix: Option<string>, filePath: string)
    requires AllReadable(files, read)
    ensures Lookup(TableOf(files, read), prefix, filePath) ==
      match LookupKey(prefix, filePath)
      case None => None
      case Some(key) => if key in Contents(files, read) then Some(Contents(files, read)[key]) else None
  {
    if LookupKey(prefix, filePath).Some? {
      FindIsMapLookup(TableOf(files, read), LookupKey(prefix, filePath).value);
      TableOfContents(files, read);
    }
  }

  /** With a prefix configured, a path without it misses, and `prefix ++ k` is looked up
      as the prefix-less `k`. */
  lemma LookupPrefixed(entries: seq<(string, EmbeddedFile)>, p: string, k: string, filePath: string)
    ensures Lookup(entries, Some(p), p + k) == Lookup(entries, None, k)
    ensures !IsPrefix(p, filePath) ==> Lookup(entries, Some(p), filePath) == None
  {
    LookupKeyPrefixed(p, k);
  }

  /** The separator written after the prefix does not change the answer. */
  lemma LookupSeparatorInsensitive(entries: seq<(string, EmbeddedFile)>, prefix: Option<string>, s: string, t: string)
    requires SameUpToSeparators(s, t)
    ensures prefix.None? ==> Lookup(entries, prefix, s) == Lookup(entries, prefix, t)
    ensures prefix.Some? ==> Lookup(entries, prefix, prefix.value + s) == Lookup(entries, prefix, prefix.value + t)
  {
    LookupKeySeparatorInsensitive(prefix, s, t);
  }

  /** Every name `iter` yields is found by `get`, and `get` returns the file last
      discovered under that relative path, provided discovery reports relative paths
      with forward slashes only. */
  lemma IterNamesResolve(files: seq<FileEntry>, read: string -> Option<EmbeddedFile>, prefix: Option<string>, i: nat)
    requires AllReadable(files, read)
    requires i < |files|
    requires forall c :: 0 <= c < |files[i].relPath| ==> files[i].relPath[c] != '\\'
    requires forall j :: i < j < |files| ==> files[j].relPath != files[i].relPath
    ensures Lookup(TableOf(files, read), prefix, PublicNames(prefix, files)[i]) == Some(read(files[i].fullCanonicalPath).value)
  {
    NormalizeNoBackslash(files[i].relPath);
    LookupContents(files, read, prefix, PublicNames(prefix, files)[i]);
    ContentsLastWins(files, read, i);
  }

  /** On Unix a file name may contain `\`: such a file is embedded and listed by `iter`,
      but `get` of its listed name looks for the slash form and misses. */
  lemma BackslashNameUnreachable(f: EmbeddedFile)
    ensures var files := [FileEntry("a\\b", "/srv/a\\b")];
            var read := (p: string) => Some(f);
            PublicNames(None, files) == ["a\\b"] &&
            "a\\b" in Contents(files, read) &&
            Lookup(TableOf(files, read), None, "a\\b") == None
  {
    var files := [FileEntry("a\\b", "/srv/a\\b")];
    var read := (p: string) => Some(f);
    assert files[..0] == [];
    assert Normalize("a\\b") == "a/b";
    assert TableOf(files, read) == [("a\\b", f)];
    assert Keys([("a\\b", f)]) == {"a\\b"};
  }

  /** The table comes out in key order whatever the discovery order: for a folder holding
      `index.html` and `css/site.css` (a `secret/` directory excluded by the patterns), the
      table lists `css/site.css` first and `secret/.env` misses. */
  lemma ExampleSnapshot(read: string -> Option<EmbeddedFile>, index: EmbeddedFile, site: EmbeddedFile)
    requires read("/app/index.html") == Some(index) && read("/app/css/site.css") == Some(site)
    ensures var files := [FileEntry("index.html", "/app/index.html"), FileEntry("css/site.css", "/app/css/site.css")];
            && AllReadable(files, read)
            && TableOf(files, read) == [("css/site.css", site), ("index.html", index)]
            && Lookup(TableOf(files, read), None, "secret/.env") == None
  {
    var files := [FileEntry("index.html", "/app/index.html"), FileEntry("css/site.css", "/app/css/site.css")];
    var t := [("css/site.css", site), ("index.html", index)];
    ExampleTable(files, read, index, site);
    NormalizeNoBackslash("secret/.env");
    assert t[0].0 != "secret/.env" by { assert t[0].0[0] != "secret/.env"[0]; }
    assert t[1].0 != "secret/.env" by { assert t[1].0[0] != "secret/.env"[0]; }
    assert Find(t, "secret/.env") == None;
  }

  lemma ExampleTable(files: seq<FileEntry>, read: string -> Option<EmbeddedFile>, index: EmbeddedFile, site: EmbeddedFile)
    requires files == [FileEntry("index.html", "/app/index.html"), FileEntry("css/site.css", "/app/css/site.css")]
    requires read("/app/index.html") == Some(index) && read("/app/css/site.css") == Some(site)
    ensures AllReadable(files, read)
    ensures TableOf(files, read) == [("css/site.css", site), ("index.html", index)]
  {
    assert files[..1] == [files[0]] && files[..1][..0] == [];
    assert TableOf(files[..1], read) == [("index.html", index)];
    assert Cmp("index.html", "css/site.css") == Gt by { assert "css/site.css"[0] < "index.html"[0]; }
  }
}
