/** The live backend (`dynamic`, lib.rs:106-190): every `get` re-resolves the requested
    path on disk, refuses anything that canonicalises to a place outside the folder,
    applies the include/exclude patterns and only then reads the file; every `iter`
    runs a fresh discovery. The file system is the `LiveFs` passed to each call. */
module Dynamic {
  import opened Wrappers
  import opened Paths
  import opened Assets

  /** What the derive bakes into the generated live code: the folder as configured, its
      canonical form, the prefix and the patterns. */
  datatype LiveRepo = LiveRepo(
    folderPath: string,
    canonicalFolder: Path,
    prefix: Option<string>,
    includes: seq<string>,
    excludes: seq<string>)

  /** The file system as seen by one call: `Path::canonicalize`, `read_file_from_fs`
      on a canonical path, `is_path_included` on a relative path and the patterns, and
      `get_files` walking a folder with the patterns. */
  datatype LiveFs = LiveFs(
    canonicalize: string -> Option<Path>,
    readFile: Path -> Option<EmbeddedFile>,
    isPathIncluded: (string, seq<string>, seq<string>) -> bool,
    discover: (string, seq<string>, seq<string>) -> seq<FileEntry>)

  /** The build-time half of `dynamic` (lib.rs:133-138): the folder must canonicalise,
      otherwise the derive panics. */
  function Generate(folderPath: string, prefix: Option<string>, includes: seq<string>, excludes: seq<string>,
                    canonicalize: string -> Option<Path>): (r: Result<LiveRepo, EmbedError>)
    ensures r.Success? <==> canonicalize(folderPath).Some?
    ensures r.Failure? ==> r.error == FolderNotCanonical(folderPath)
    ensures r.Success? ==>
      && r.value.canonicalFolder == canonicalize(folderPath).value
      && r.value.folderPath == folderPath && r.value.prefix == prefix
      && r.value.includes == includes && r.value.excludes == excludes
  {
    match canonicalize(folderPath)
    case None => Failure(FolderNotCanonical(folderPath))
    case Some(canonical) => Success(LiveRepo(folderPath, canonical, prefix, includes, excludes))
  }

  /** The canonical path a request resolves to, if any (lib.rs:145-154). */
  function Resolve(repo: LiveRepo, filePath: string, fs: LiveFs): Option<Path> {
    match LookupKey(repo.prefix, filePath)
    case None => None
    case Some(rel) => fs.canonicalize(Join(repo.folderPath, rel))
  }

  /** The generated live `get` (lib.rs:144-165). A file is only ever returned when the
      request resolved to a canonical path under the canonical folder, the patterns
      accept the normalised relative path, and the file read from that path is it. */
  function Get(repo: LiveRepo, filePath: string, fs: LiveFs): (r: Option<EmbeddedFile>)
    ensures r.Some? ==> LookupKey(repo.prefix, filePath).Some?
    ensures r.Some? ==>
      && Resolve(repo, filePath, fs).Some?
      && StartsWith(Resolve(repo, filePath, fs).value, repo.canonicalFolder)
    ensures r.Some? ==> fs.isPathIncluded(LookupKey(repo.prefix, filePath).value, repo.includes, repo.excludes)
    ensures r.Some? ==> r == fs.readFile(Resolve(repo, filePath, fs).value)
  {
    match LookupKey(repo.prefix, filePath)
    case None => None
    case Some(rel) =>
      match fs.canonicalize(Join(repo.folderPath, rel))
      case None => None
      case Some(canonical) =>
        if !StartsWith(canonical, repo.canonicalFolder) then None
        else if fs.isPathIncluded(rel, repo.includes, repo.excludes) then fs.readFile(canonical)
        else None
  }

  /** Once every guard has passed, `get` is exactly the read of the canonical path; a
      read error is a miss. */
  lemma GetReadsWhenAdmitted(repo: LiveRepo, filePath: string, fs: LiveFs)
    requires LookupKey(repo.prefix, filePath).Some?
    requires Resolve(repo, filePath, fs).Some?
    requires StartsWith(Resolve(repo, filePath, fs).value, repo.canonicalFolder)
    requires fs.isPathIncluded(LookupKey(repo.prefix, filePath).value, repo.includes, repo.excludes)
    ensures Get(repo, filePath, fs) == fs.readFile(Resolve(repo, filePath, fs).value)
  {
  }

  /** Path traversal guard: a request whose canonical path leaves the folder misses,
      whatever the patterns say and whatever file lies there. */
  lemma EscapeMisses(repo: LiveRepo, filePath: string, fs: LiveFs)
    requires Resolve(repo, filePath, fs).Some?
    requires !StartsWith(Resolve(repo, filePath, fs).value, repo.canonicalFolder)
    ensures Get(repo, filePath, fs) == None
  {
  }

  /** An absolute path after the prefix replaces the folder in the join, so it reaches
      the file system only as that absolute path; the containment check still applies. */
  lemma AbsoluteRequestIsNotJoined(repo: LiveRepo, k: string, fs: LiveFs)
    requires repo.prefix.None?
    requires !IsRelative(Normalize(k))
    ensures Resolve(repo, k, fs) == fs.canonicalize(Normalize(k))
  {
  }

  /** With a prefix configured, a request without it misses, and `prefix ++ k` is
      answered as the prefix-less request `k`. */
  lemma PrefixedGet(repo: LiveRepo, k: string, fs: LiveFs)
    requires repo.prefix.Some?
    ensures Get(repo, repo.prefix.value + k, fs) == Get(repo.(prefix := None), k, fs)
  {
    LookupKeyPrefixed(repo.prefix.value, k);
  }

  lemma PrefixMismatchMisses(repo: LiveRepo, filePath: string, fs: LiveFs)
    requires repo.prefix.Some? && !IsPrefix(repo.prefix.value, filePath)
    ensures Get(repo, filePath, fs) == None
  {
  }

  /** The separator written in the part after the prefix does not change the answer. */
  lemma GetSeparatorInsensitive(repo: LiveRepo, s: string, t: string, fs: LiveFs)
    requires SameUpToSeparators(s, t)
    ensures repo.prefix.None? ==> Get(repo, s, fs) == Get(repo, t, fs)
    ensures repo.prefix.Some? ==> Get(repo, repo.prefix.value + s, fs) == Get(repo, repo.prefix.value + t, fs)
  {
    LookupKeySeparatorInsensitive(repo.prefix, s, t);
  }

  /** The generated live `iter` (lib.rs:168-176): a fresh discovery of the folder with the
      repository's patterns, each file named with the prefix. */
  function Iter(repo: LiveRepo, fs: LiveFs): (r: seq<string>)
    ensures |r| == |fs.discover(repo.folderPath, repo.includes, repo.excludes)|
    ensures forall i :: 0 <= i < |r| ==>
      var e := fs.discover(repo.folderPath, repo.includes, repo.excludes)[i];
      r[i] == if repo.prefix.Some? then repo.prefix.value + e.relPath else e.relPath
    ensures forall i :: 0 <= i < |r| ==>
      var e := fs.discover(repo.folderPath, repo.includes, repo.excludes)[i];
      LookupKey(repo.prefix, r[i]) == Some(Normalize(e.relPath))
  {
    PublicNames(repo.prefix, fs.discover(repo.folderPath, repo.includes, repo.excludes))
  }
}
