/** The string and path manipulations the generated `get` and `iter` perform before
    touching the table or the file system: prefix stripping (`str::strip_prefix`),
    separator normalisation (`replace("\\", "/")`), prepending the prefix for public
    names, `Path::join` and component-wise `Path::starts_with`. */
module Paths {
  import opened Wrappers

  /** A canonical file-system path as its sequence of components. */
  type Path = seq<string>

  predicate IsPrefix(p: string, s: string) {
    |p| <= |s| && s[..|p|] == p
  }

  /** `s.strip_prefix(p)`: the rest of `s` when `s` starts with `p`. */
  function StripPrefix(s: string, p: string): (r: Option<string>)
    ensures r.Some? <==> IsPrefix(p, s)
    ensures r.Some? ==> p + r.value == s
  {
    if IsPrefix(p, s) then Some(s[|p|..]) else None
  }

  lemma StripPrefixOfConcat(p: string, k: string)
    ensures StripPrefix(p + k, p) == Some(k)
  {
    assert (p + k)[..|p|] == p;
    assert (p + k)[|p|..] == k;
  }

  /** `s.replace("\\", "/")`. */
  function Normalize(s: string): (r: string)
    ensures |r| == |s|
    ensures forall i :: 0 <= i < |s| ==> r[i] != '\\'
    ensures forall i :: 0 <= i < |s| && s[i] != '\\' ==> r[i] == s[i]
  {
    if |s| == 0 then []
    else [if s[0] == '\\' then '/' else s[0]] + Normalize(s[1..])
  }

  lemma {:induction false} NormalizeNoBackslash(s: string)
    requires forall i :: 0 <= i < |s| ==> s[i] != '\\'
    ensures Normalize(s) == s
  {
    if |s| > 0 {
      NormalizeNoBackslash(s[1..]);
    }
  }

  lemma NormalizeIdempotent(s: string)
    ensures Normalize(Normalize(s)) == Normalize(s)
  {
    NormalizeNoBackslash(Normalize(s));
  }

  /** Two strings that differ only in which of `/` and `\` stands at some positions. */
  predicate SameUpToSeparators(s: string, t: string) {
    |s| == |t| &&
    forall i :: 0 <= i < |s| ==> s[i] == t[i] || (s[i] in "/\\" && t[i] in "/\\")
  }

  /** Separator normalisation forgets which separator was written. */
  lemma {:induction false} NormalizeSeparatorInsensitive(s: string, t: string)
    requires SameUpToSeparators(s, t)
    ensures Normalize(s) == Normalize(t)
  {
    if |s| > 0 {
      assert SameUpToSeparators(s[1..], t[1..]) by {
        forall i | 0 <= i < |s| - 1
          ensures s[1..][i] == t[1..][i] || (s[1..][i] in "/\\" && t[1..][i] in "/\\")
        {
          assert s[1..][i] == s[i + 1] && t[1..][i] == t[i + 1];
        }
      }
      NormalizeSeparatorInsensitive(s[1..], t[1..]);
    }
  }

  /** The key both generated `get` functions look up: the optional prefix is stripped
      first (a mismatch ends the lookup), then every backslash of the rest becomes a
      slash (lib.rs:56, 75, 115, 150). */
  function LookupKey(prefix: Option<string>, filePath: string): (r: Option<string>)
    ensures prefix.None? ==> r == Some(Normalize(filePath))
    ensures prefix.Some? ==> (r.Some? <==> IsPrefix(prefix.value, filePath))
    ensures r.Some? ==> forall i :: 0 <= i < |r.value| ==> r.value[i] != '\\'
  {
    match prefix
    case None => Some(Normalize(filePath))
    case Some(p) =>
      match StripPrefix(filePath, p)
      case None => None
      case Some(rest) => Some(Normalize(rest))
  }

  /** With a prefix configured, looking up `prefix ++ k` is the prefix-less lookup of `k`. */
  lemma LookupKeyPrefixed(p: string, k: string)
    ensures LookupKey(Some(p), p + k) == LookupKey(None, k)
  {
    StripPrefixOfConcat(p, k);
  }

  /** The separators written after the prefix do not matter. */
  lemma LookupKeySeparatorInsensitive(prefix: Option<string>, s: string, t: string)
    requires SameUpToSeparators(s, t)
    ensures prefix.None? ==> LookupKey(prefix, s) == LookupKey(prefix, t)
    ensures prefix.Some? ==> LookupKey(prefix, prefix.value + s) == LookupKey(prefix, prefix.value + t)
  {
    NormalizeSeparatorInsensitive(s, t);
    if prefix.Some? {
      LookupKeyPrefixed(prefix.value, s);
      LookupKeyPrefixed(prefix.value, t);
    }
  }

  /** The prefix is matched before normalisation, so a prefix written with the other
      separator is not recognised: with prefix `a/`, the path `a\b` misses. */
  lemma BackslashPrefixMisses()
    ensures LookupKey(Some("a/"), "a\\b") == None
  {
    assert "a\\b"[..2] != "a/" by { assert "a\\b"[1] == '\\'; }
  }

  /** The public name of a discovered file: `format!("{}{}", prefix, rel_path)` or
      `rel_path` itself (lib.rs:43-47, 113-121). Looking it up gives back the
      normalised relative path. */
  function PublicName(prefix: Option<string>, relPath: string): (r: string)
    ensures LookupKey(prefix, r) == Some(Normalize(relPath))
  {
    match prefix
    case None => relPath
    case Some(p) =>
      LookupKeyPrefixed(p, relPath);
      p + relPath
  }

  /** Unix `Path::is_relative`: the path does not start at the root. */
  predicate IsRelative(path: string) {
    |path| == 0 || path[0] != '/'
  }

  /** Unix `Path::new(base).join(rel)`: an absolute `rel` replaces `base`; otherwise a
      separator is put between the two unless `base` is empty or already ends in one. */
  function Join(base: string, rel: string): (r: string)
    ensures !IsRelative(rel) ==> r == rel
    ensures IsRelative(rel) ==> IsPrefix(base, r)
    ensures IsRelative(rel) && |base| > 0 && base[|base| - 1] != '/' ==> r == base + "/" + rel
    ensures IsRelative(rel) && (|base| == 0 || base[|base| - 1] == '/') ==> r == base + rel
  {
    if !IsRelative(rel) then rel
    else if |base| == 0 || base[|base| - 1] == '/' then base + rel
    else assert (base + "/" + rel)[..|base|] == base; base + "/" + rel
  }

  /** `Path::starts_with`: whole components, not characters, are compared. */
  predicate StartsWith(path: Path, base: Path) {
    |base| <= |path| && path[..|base|] == base
  }

  /** Component comparison keeps a sibling directory whose name merely extends the
      folder's name out: `/srv/app-data/x` is not under `/srv/app`. */
  lemma SiblingNotContained()
    ensures !StartsWith(["srv", "app-data", "x"], ["srv", "app"])
  {
    assert ["srv", "app-data", "x"][..2][1] == "app-data";
  }
}
