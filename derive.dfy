/** The derive entry (`impl_rust_embed`, `find_attribute_values`, `generate_assets`,
    lib.rs:192-342): it checks the annotated item and its attributes, resolves the
    folder, and generates both backends over one configuration. Everything the derive
    learns from its environment comes in a `BuildEnv`. */
module Derive {
  import opened Wrappers
  import opened Paths
  import opened Assets
  import opened Embedded
  import opened Dynamic

  /** The parts of `syn::DeriveInput` the derive looks at. */
  datatype Fields = UnitFields | NamedFields | UnnamedFields
  datatype Data = StructData(fields: Fields) | EnumData | UnionData
  datatype Lit = StrLit(value: string) | OtherLit
  datatype Expr = LitExpr(lit: Lit) | OtherExpr
  /** `#[path]`, `#[path(...)]` and `#[path = value]`. */
  datatype Meta = PathMeta | ListMeta | NameValue(value: Expr)
  datatype Attribute = Attribute(path: seq<string>, meta: Meta)
  datatype DeriveInput = DeriveInput(ident: string, attrs: seq<Attribute>, data: Data)

  /** What the build environment answers: `CARGO_MANIFEST_DIR`, `shellexpand::full`,
      `Path::exists`, the build-time discovery `get_files`, `read_file_from_fs` with the
      metadata computed from it, and `Path::canonicalize`. */
  datatype BuildEnv = BuildEnv(
    manifestDir: Option<string>,
    expand: string -> Result<string, string>,
    pathExists: string -> bool,
    discover: (string, seq<string>, seq<string>) -> seq<FileEntry>,
    readFile: string -> Option<EmbeddedFile>,
    canonicalize: string -> Option<Path>)

  /** The validated configuration handed to `generate_assets`. */
  datatype AssetsConfig = AssetsConfig(
    relativeFolder: Option<string>,
    absoluteFolder: string,
    prefix: Option<string>,
    includes: seq<string>,
    excludes: seq<string>)

  /** Both backends generated for one struct. */
  datatype Generated = Generated(config: AssetsConfig, snapshot: Snapshot, live: LiveRepo)

  predicate IsUnitStruct(ast: DeriveInput) {
    ast.data.StructData? && ast.data.fields == UnitFields
  }

  /** The arm of the `filter_map`: the string of `name = "value"`; any other form of the
      attribute yields nothing. */
  function StringValue(a: Attribute): Option<string> {
    match a.meta
    case NameValue(LitExpr(StrLit(v))) => Some(v)
    case _ => None
  }

  /** `path().is_ident(name)` and a string value `v`. */
  predicate Carries(a: Attribute, name: string, v: string) {
    a.path == [name] && StringValue(a) == Some(v)
  }

  /** `find_attribute_values` (lib.rs:259-274): the string values of the attributes
      named `name`, in attribute order. */
  function FindAttributeValues(attrs: seq<Attribute>, name: string): (r: seq<string>)
    ensures |r| <= |attrs|
    ensures forall v :: v in r <==> exists a :: a in attrs && Carries(a, name, v)
  {
    if |attrs| == 0 then []
    else
      var rest := FindAttributeValues(attrs[1..], name);
      assert forall a :: a in attrs <==> a == attrs[0] || a in attrs[1..];
      if attrs[0].path == [name] && StringValue(attrs[0]).Some? then
        assert Carries(attrs[0], name, StringValue(attrs[0]).value);
        [StringValue(attrs[0]).value] + rest
      else rest
  }

  /** The values keep the order of the attributes they come from. */
  lemma {:induction false} FindAttributeValuesAppend(a: seq<Attribute>, b: seq<Attribute>, name: string)
    ensures FindAttributeValues(a + b, name) == FindAttributeValues(a, name) + FindAttributeValues(b, name)
  {
    if |a| > 0 {
      assert (a + b)[1..] == a[1..] + b;
      FindAttributeValuesAppend(a[1..], b, name);
    } else {
      assert a + b == b;
    }
  }

  /** Attributes with other names, or without a string value, do not contribute. */
  lemma {:induction false} FindAttributeValuesNone(attrs: seq<Attribute>, name: string)
    requires forall i :: 0 <= i < |attrs| ==> attrs[i].path != [name] || StringValue(attrs[i]).None?
    ensures FindAttributeValues(attrs, name) == []
  {
    if |attrs| > 0 {
      FindAttributeValuesNone(attrs[1..], name);
    }
  }

  /** `into_iter().next()`. */
  function First(values: seq<string>): (r: Option<string>)
    ensures r.Some? <==> |values| > 0
    ensures r.Some? ==> r.value == values[0]
  {
    if |values| == 0 then None else Some(values[0])
  }

  /** lib.rs:312-322: a relative folder is based on the manifest directory and keeps its
      relative form; an absolute folder is used as it is. */
  function ResolveFolder(folder: string, manifestDir: Option<string>): (r: Result<(Option<string>, string), EmbedError>)
    ensures r.Failure? <==> IsRelative(folder) && manifestDir.None?
    ensures r.Failure? ==> r.error == ManifestDirUnset
    ensures r.Success? ==> (r.value.0.Some? <==> IsRelative(folder))
    ensures r.Success? && IsRelative(folder) ==>
      && r.value.0 == Some(folder)
      && IsPrefix(manifestDir.value, r.value.1)
      && (|manifestDir.value| > 0 && manifestDir.value[|manifestDir.value| - 1] != '/' ==>
            r.value.1 == manifestDir.value + "/" + folder)
      && (|manifestDir.value| == 0 || manifestDir.value[|manifestDir.value| - 1] == '/' ==>
            r.value.1 == manifestDir.value + folder)
    ensures r.Success? && !IsRelative(folder) ==> r.value.1 == folder
  {
    if IsRelative(folder) then
      match manifestDir
      case None => Failure(ManifestDirUnset)
      case Some(dir) => Success((Some(folder), Join(dir, folder)))
    else Success((None, folder))
  }

  /** With an absolute manifest directory, the folder handed to the backends is
      absolute. */
  lemma ResolvedFolderIsAbsolute(folder: string, manifestDir: Option<string>)
    requires manifestDir.Some? ==> !IsRelative(manifestDir.value)
    requires ResolveFolder(folder, manifestDir).Success?
    ensures !IsRelative(ResolveFolder(folder, manifestDir).value.1)
  {
    if IsRelative(folder) {
      var dir := manifestDir.value;
      var abs := ResolveFolder(folder, manifestDir).value.1;
      assert abs[..|dir|] == dir;
      assert abs[0] == dir[0];
    }
  }

  /** The files the build-time discovery reports for a configuration. */
  function Discovered(config: AssetsConfig, env: BuildEnv): seq<FileEntry> {
    env.discover(config.absoluteFolder, config.includes, config.excludes)
  }

  /** Both backends can be generated: every discovered file is readable and the folder
      canonicalises. */
  predicate GenerationSucceeds(config: AssetsConfig, env: BuildEnv) {
    AllReadable(Discovered(config, env), env.readFile) && env.canonicalize(config.absoluteFolder).Some?
  }

  /** `generate_assets` (lib.rs:192-221): the compiled backend first, then the live one,
      both over the same folder, prefix and patterns. */
  method GenerateAssets(config: AssetsConfig, env: BuildEnv) returns (r: Result<Generated, EmbedError>)
    ensures r.Success? <==> GenerationSucceeds(config, env)
    ensures !AllReadable(Discovered(config, env), env.readFile) ==> r.Failure? && r.error.FileUnreadable?
    ensures AllReadable(Discovered(config, env), env.readFile) && env.canonicalize(config.absoluteFolder).None? ==>
      r == Failure(FolderNotCanonical(config.absoluteFolder))
    ensures r.Success? ==>
      && r.value.config == config
      && r.value.snapshot.entries == TableOf(Discovered(config, env), env.readFile)
      && r.value.snapshot.names == PublicNames(config.prefix, Discovered(config, env))
      && r.value.snapshot.prefix == config.prefix
      && r.value.live == LiveRepo(config.absoluteFolder, env.canonicalize(config.absoluteFolder).value,
                                  config.prefix, config.includes, config.excludes)
  {
    var files := env.discover(config.absoluteFolder, config.includes, config.excludes);
    var embedded := Embedded.Generate(files, config.prefix, env.readFile);
    if embedded.Failure? {
      return Failure(embedded.error);
    }
    var dynamic := Dynamic.Generate(config.absoluteFolder, config.prefix, config.includes, config.excludes, env.canonicalize);
    if dynamic.Failure? {
      return Failure(dynamic.error);
    }
    return Success(Generated(config, embedded.value, dynamic.value));
  }

  /** `impl_rust_embed` (lib.rs:276-342): only a unit struct with exactly one string
      `folder` attribute is accepted; the first `prefix` wins; `include` and `exclude`
      keep all their values in order; the folder has its shell variables expanded, is
      resolved against the manifest directory when relative, and must exist. */
  method ImplRustEmbed(ast: DeriveInput, env: BuildEnv) returns (r: Result<Generated, EmbedError>)
    ensures !IsUnitStruct(ast) ==> r == Failure(NotUnitStruct)
    ensures IsUnitStruct(ast) && |FindAttributeValues(ast.attrs, "folder")| != 1 ==> r == Failure(FolderAttributeNotUnique)
    ensures IsUnitStruct(ast) && |FindAttributeValues(ast.attrs, "folder")| == 1 ==>
      var expanded := env.expand(FindAttributeValues(ast.attrs, "folder")[0]);
      && (expanded.Failure? ==> r == Failure(ExpandFailed(expanded.error)))
      && (expanded.Success? ==>
            var resolved := ResolveFolder(expanded.value, env.manifestDir);
            && (resolved.Failure? ==> r == Failure(resolved.error))
            && (resolved.Success? && !env.pathExists(resolved.value.1) ==> r == Failure(FolderMissing(resolved.value.1)))
            && (resolved.Success? && env.pathExists(resolved.value.1) ==>
                  var config := AssetsConfig(resolved.value.0, resolved.value.1,
                                             First(FindAttributeValues(ast.attrs, "prefix")),
                                             FindAttributeValues(ast.attrs, "include"),
                                             FindAttributeValues(ast.attrs, "exclude"));
                  && (r.Success? <==> GenerationSucceeds(config, env))
                  && (r.Success? ==> r.value.config == config)))
    ensures r.Success? ==>
      && IsUnitStruct(ast)
      && |FindAttributeValues(ast.attrs, "folder")| == 1
      && env.pathExists(r.value.config.absoluteFolder)
    ensures r.Success? ==>
      var config := r.value.config;
      && r.value.snapshot.entries == TableOf(Discovered(config, env), env.readFile)
      && r.value.snapshot.names == PublicNames(config.prefix, Discovered(config, env))
      && r.value.snapshot.prefix == config.prefix
      && env.canonicalize(config.absoluteFolder).Some?
      && r.value.live == LiveRepo(config.absoluteFolder, env.canonicalize(config.absoluteFolder).value,
                                  config.prefix, config.includes, config.excludes)
  {
    if !ast.data.StructData? || ast.data.fields != UnitFields {
      return Failure(NotUnitStruct);
    }
    var folderPaths := FindAttributeValues(ast.attrs, "folder");
    if |folderPaths| != 1 {
      return Failure(FolderAttributeNotUnique);
    }
    var folderPath := folderPaths[0];

    var prefix := First(FindAttributeValues(ast.attrs, "prefix"));
    var includes := FindAttributeValues(ast.attrs, "include");
    var excludes := FindAttributeValues(ast.attrs, "exclude");

    var expanded := env.expand(folderPath);
    if expanded.Failure? {
      return Failure(ExpandFailed(expanded.error));
    }
    var resolved := ResolveFolder(expanded.value, env.manifestDir);
    if resolved.Failure? {
      return Failure(resolved.error);
    }
    var (relativePath, absoluteFolderPath) := resolved.value;
    if !env.pathExists(absoluteFolderPath) {
      return Failure(FolderMissing(absoluteFolderPath));
    }
    r := GenerateAssets(AssetsConfig(relativePath, absoluteFolderPath, prefix, includes, excludes), env);
  }
}
