/** The values both repository backends hand out and the discovery output they are
    built from. */
module Assets {
  import opened Wrappers
  import opened Paths

  /** Metadata computed from a file's content: its SHA-256 digest, its optional
      modification time and its mimetype (lib.rs:231-238). */
  datatype Metadata = Metadata(hash: seq<bv8>, lastModified: Option<int>, mimetype: string)

  /** `prest::embed::EmbeddedFile`: the bytes of a file and its metadata. */
  datatype EmbeddedFile = EmbeddedFile(data: seq<bv8>, metadata: Metadata)

  /** One file found by discovery (`get_files`): its forward-slash path relative to
      the folder and its canonical absolute path. */
  datatype FileEntry = FileEntry(relPath: string, fullCanonicalPath: string)

  /** Why a derive produces a compile error instead of code. The last three stand for
      the panics of `unwrap`/`expect` at build time, which abort the build as well. */
  datatype EmbedError =
    | NotUnitStruct
    | FolderAttributeNotUnique
    | ExpandFailed(message: string)
    | FolderMissing(path: string)
    | ManifestDirUnset
    | FileUnreadable(path: string)
    | FolderNotCanonical(path: string)

  /** The names `iter` yields: one per discovered file, in discovery order, each
      carrying the prefix (lib.rs:43-47, 174-175). */
  function PublicNames(prefix: Option<string>, files: seq<FileEntry>): (r: seq<string>)
    ensures |r| == |files|
    ensures forall i :: 0 <= i < |files| ==> r[i] == PublicName(prefix, files[i].relPath)
  {
    if |files| == 0 then []
    else PublicNames(prefix, files[..|files| - 1]) + [PublicName(prefix, files[|files| - 1].relPath)]
  }
}
