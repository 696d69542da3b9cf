/** The lookup table of the embedded backend. At build time it is a `BTreeMap<String, _>`
    filled by `insert` and emitted in key order by `into_iter` (lib.rs:23, 33-41, 61-65);
    here a map is a sequence of pairs kept strictly ascending by key. At run time the
    emitted constant is searched with `binary_search_by_key` (lib.rs:78). */
module SortedTable {
  import opened Wrappers
  import opened Order

  /** Ascending by key with no key twice. */
  predicate StrictlySorted<V>(t: seq<(string, V)>) {
    forall i, j :: 0 <= i < j < |t| ==> Less(t[i].0, t[j].0)
  }

  function Keys<V>(t: seq<(string, V)>): set<string> {
    set i | 0 <= i < |t| :: t[i].0
  }

  lemma KeysCons<V>(x: (string, V), t: seq<(string, V)>)
    ensures Keys([x] + t) == {x.0} + Keys(t)
  {
    assert ([x] + t)[0].0 == x.0;
    forall k | k in Keys([x] + t) ensures k in {x.0} + Keys(t) {
      var i :| 0 <= i < |[x] + t| && ([x] + t)[i].0 == k;
      if i > 0 { assert t[i - 1].0 == k; }
    }
    forall k | k in Keys(t) ensures k in Keys([x] + t) {
      var i :| 0 <= i < |t| && t[i].0 == k;
      assert ([x] + t)[i + 1].0 == k;
    }
  }

  /** The map a table stands for. */
  function AsMap<V>(t: seq<(string, V)>): (m: map<string, V>)
    ensures m.Keys == Keys(t)
  {
    if |t| == 0 then map[]
    else
      var rest := AsMap(t[1..]);
      assert t == [t[0]] + t[1..];
      KeysCons(t[0], t[1..]);
      rest[t[0].0 := t[0].1]
  }

  /** Linear scan: the value of the first entry whose key is `key`. */
  function Find<V(==)>(t: seq<(string, V)>, key: string): (r: Option<V>)
    ensures r.None? <==> key !in Keys(t)
    ensures r.Some? ==> exists i :: 0 <= i < |t| && t[i].0 == key && t[i].1 == r.value
  {
    if |t| == 0 then None
    else if t[0].0 == key then Some(t[0].1)
    else
      var r := Find(t[1..], key);
      assert t == [t[0]] + t[1..];
      KeysCons(t[0], t[1..]);
      if r.Some? then
        var i :| 0 <= i < |t[1..]| && t[1..][i].0 == key && t[1..][i].1 == r.value;
        assert t[i + 1].0 == key && t[i + 1].1 == r.value;
        r
      else r
  }

  /** The linear scan agrees with the map the table stands for. */
  lemma {:induction false} FindIsMapLookup<V>(t: seq<(string, V)>, key: string)
    ensures Find(t, key) == if key in AsMap(t) then Some(AsMap(t)[key]) else None
  {
    if |t| > 0 && t[0].0 != key {
      FindIsMapLookup(t[1..], key);
    }
  }

  /** In a strictly sorted table a key occurs at one index only, so whatever index a
      search finds, the scan returns the value stored there. */
  lemma FindAtIndex<V>(t: seq<(string, V)>, i: nat)
    requires StrictlySorted(t)
    requires i < |t|
    ensures Find(t, t[i].0) == Some(t[i].1)
  {
    var r := Find(t, t[i].0);
    var j :| 0 <= j < |t| && t[j].0 == t[i].0 && t[j].1 == r.value;
    if j != i {
      LessIrreflexive(t[i].0);
    }
  }

  /** `BTreeMap::insert`: a new key goes to its place in the order, an existing key
      has its value replaced. */
  function Insert<V>(t: seq<(string, V)>, k: string, v: V): (r: seq<(string, V)>)
    ensures Keys(r) == Keys(t) + {k}
  {
    if |t| == 0 then
      KeysCons((k, v), t);
      [(k, v)]
    else
      assert t == [t[0]] + t[1..];
      KeysCons(t[0], t[1..]);
      match Cmp(t[0].0, k)
      case Lt =>
        var rest := Insert(t[1..], k, v);
        KeysCons(t[0], rest);
        [t[0]] + rest
      case Eq =>
        CmpEq(t[0].0, k);
        KeysCons((k, v), t[1..]);
        [(k, v)] + t[1..]
      case Gt =>
        KeysCons((k, v), t);
        [(k, v)] + t
  }

  /** Every key of the table is larger than `x`. */
  predicate Above<V>(x: string, t: seq<(string, V)>) {
    forall i :: 0 <= i < |t| ==> Less(x, t[i].0)
  }

  lemma AboveInsert<V>(x: string, t: seq<(string, V)>, k: string, v: V)
    requires Above(x, t) && Less(x, k)
    ensures Above(x, Insert(t, k, v))
  {
    var r := Insert(t, k, v);
    forall j | 0 <= j < |r| ensures Less(x, r[j].0) {
      assert r[j].0 in Keys(r);
      if r[j].0 != k {
        var i :| 0 <= i < |t| && t[i].0 == r[j].0;
      }
    }
  }

  lemma SortedCons<V>(x: (string, V), t: seq<(string, V)>)
    requires Above(x.0, t) && StrictlySorted(t)
    ensures StrictlySorted([x] + t)
  {
    forall i, j | 0 <= i < j < |t| + 1 ensures Less(([x] + t)[i].0, ([x] + t)[j].0) {
      if i > 0 { assert ([x] + t)[i] == t[i - 1]; }
      assert ([x] + t)[j] == t[j - 1];
    }
  }

  /** Inserting keeps the table strictly ascending. */
  lemma {:induction false} InsertSorted<V>(t: seq<(string, V)>, k: string, v: V)
    requires StrictlySorted(t)
    ensures StrictlySorted(Insert(t, k, v))
  {
    if |t| > 0 {
      assert Above(t[0].0, t[1..]) && StrictlySorted(t[1..]) by {
        forall j | 0 <= j < |t| - 1 ensures Less(t[0].0, t[1..][j].0) { assert t[1..][j] == t[j + 1]; }
      }
      match Cmp(t[0].0, k)
      case Lt =>
        InsertSorted(t[1..], k, v);
        AboveInsert(t[0].0, t[1..], k, v);
        SortedCons(t[0], Insert(t[1..], k, v));
      case Eq =>
        CmpEq(t[0].0, k);
        SortedCons((k, v), t[1..]);
      case Gt =>
        CmpFlip(t[0].0, k);
        assert Above(k, t) by {
          forall j | 0 <= j < |t| ensures Less(k, t[j].0) {
            if j > 0 { LessTrans(k, t[0].0, t[j].0); }
          }
        }
        SortedCons((k, v), t);
    }
  }

  lemma AsMapCons<V>(x: (string, V), t: seq<(string, V)>)
    ensures AsMap([x] + t) == AsMap(t)[x.0 := x.1]
  {
    assert ([x] + t)[1..] == t;
  }

  /** Inserting updates the map the table stands for: the new value replaces any
      earlier one for the same key, every other key keeps its value. */
  lemma {:induction false} InsertIsMapUpdate<V>(t: seq<(string, V)>, k: string, v: V)
    ensures AsMap(Insert(t, k, v)) == AsMap(t)[k := v]
  {
    if |t| == 0 {
      AsMapCons((k, v), t);
    } else {
      assert t == [t[0]] + t[1..];
      AsMapCons(t[0], t[1..]);
      var m := AsMap(t[1..]);
      match Cmp(t[0].0, k)
      case Lt =>
        CmpEq(t[0].0, k);
        InsertIsMapUpdate(t[1..], k, v);
        AsMapCons(t[0], Insert(t[1..], k, v));
        assert m[k := v][t[0].0 := t[0].1] == m[t[0].0 := t[0].1][k := v];
      case Eq =>
        CmpEq(t[0].0, k);
        AsMapCons((k, v), t[1..]);
        assert m[k := v] == m[k := t[0].1][k := v];
      case Gt =>
        AsMapCons((k, v), t);
    }
  }

  datatype Search = Found(index: nat) | NotFound(index: nat)

  /** `binary_search_by_key`: on a strictly sorted table, either the index of `key` or
      the place where it would be inserted, every key before it smaller and every key
      from it on larger. */
  method BinarySearch<V>(entries: array<(string, V)>, key: string) returns (r: Search)
    requires StrictlySorted(entries[..])
    ensures r.Found? ==> r.index < entries.Length && entries[r.index].0 == key
    ensures r.NotFound? ==> r.index <= entries.Length
    ensures r.NotFound? ==> forall i :: 0 <= i < r.index ==> Less(entries[i].0, key)
    ensures r.NotFound? ==> forall i :: r.index <= i < entries.Length ==> Less(key, entries[i].0)
    ensures r.NotFound? <==> key !in Keys(entries[..])
  {
    var lo, hi := 0, entries.Length;
    while lo < hi
      invariant 0 <= lo <= hi <= entries.Length
      invariant forall i :: 0 <= i < lo ==> Less(entries[i].0, key)
      invariant forall i :: hi <= i < entries.Length ==> Less(key, entries[i].0)
    {
      var mid := lo + (hi - lo) / 2;
      var c := Cmp(entries[mid].0, key);
      if c == Lt {
        forall i | 0 <= i <= mid ensures Less(entries[i].0, key) {
          if i < mid {
            assert entries[..][i].0 == entries[i].0 && entries[..][mid].0 == entries[mid].0;
            LessTrans(entries[i].0, entries[mid].0, key);
          }
        }
        lo := mid + 1;
      } else if c == Gt {
        CmpFlip(entries[mid].0, key);
        forall i | mid <= i < entries.Length ensures Less(key, entries[i].0) {
          if i > mid {
            assert entries[..][mid].0 == entries[mid].0 && entries[..][i].0 == entries[i].0;
            LessTrans(key, entries[mid].0, entries[i].0);
          }
        }
        hi := mid;
      } else {
        CmpEq(entries[mid].0, key);
        assert entries[..][mid].0 == key;
        return Found(mid);
      }
    }
    forall k | k in Keys(entries[..]) ensures k != key {
      var i :| 0 <= i < entries.Length && entries[..][i].0 == k;
      assert entries[i].0 == k;
      LessIrreflexive(key);
    }
    return NotFound(lo);
  }
}
