/** The total order on strings that both ends of the embedded table use: the table is
    built as a `BTreeMap<String, _>` and searched with `Ord for str`. Rust compares
    strings byte by byte on their UTF-8 form, and UTF-8 preserves code-point order, so
    the order is the lexicographic order on Unicode scalar values, i.e. on Dafny chars. */
module Order {

  datatype Ordering = Lt | Eq | Gt

  /** Lexicographic three-way comparison; a proper prefix is smaller. */
  function Cmp(a: string, b: string): Ordering
    decreases |a|
  {
    if |a| == 0 then (if |b| == 0 then Eq else Lt)
    else if |b| == 0 then Gt
    else if a[0] < b[0] then Lt
    else if b[0] < a[0] then Gt
    else Cmp(a[1..], b[1..])
  }

  predicate Less(a: string, b: string) {
    Cmp(a, b) == Lt
  }

  /** Cmp reports Eq exactly for equal strings. */
  lemma {:induction false} CmpEq(a: string, b: string)
    ensures Cmp(a, b) == Eq <==> a == b
    decreases |a|
  {
    if |a| > 0 && |b| > 0 && a[0] == b[0] {
      CmpEq(a[1..], b[1..]);
      assert a == [a[0]] + a[1..];
      assert b == [b[0]] + b[1..];
    }
  }

  /** Swapping the arguments flips Lt and Gt. */
  lemma {:induction false} CmpFlip(a: string, b: string)
    ensures Cmp(a, b) == Lt <==> Cmp(b, a) == Gt
    ensures Cmp(a, b) == Gt <==> Cmp(b, a) == Lt
    decreases |a|
  {
    if |a| > 0 && |b| > 0 && a[0] == b[0] {
      CmpFlip(a[1..], b[1..]);
    }
  }

  lemma LessIrreflexive(a: string)
    ensures !Less(a, a)
  {
    CmpEq(a, a);
  }

  lemma {:induction false} LessTrans(a: string, b: string, c: string)
    requires Less(a, b) && Less(b, c)
    ensures Less(a, c)
    decreases |a|
  {
    if |a| > 0 && a[0] == b[0] && b[0] == c[0] {
      LessTrans(a[1..], b[1..], c[1..]);
    }
  }

  /** Any two distinct strings are ordered one way or the other. */
  lemma LessTotal(a: string, b: string)
    requires a != b
    ensures Less(a, b) || Less(b, a)
  {
    CmpEq(a, b);
    CmpFlip(a, b);
  }
}
