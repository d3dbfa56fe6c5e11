/** The sort key of a saved prompt, `(favorite, timestamp)`, and the order
    Python's tuple and string comparisons put on it. */
module Ordering {

  /** Python's `a < b` on `str`: lexicographic by code point, a proper prefix first. */
  predicate StrLess(a: string, b: string)
  {
    if a == [] then b != []
    else if b == [] then false
    else if a[0] != b[0] then a[0] < b[0]
    else StrLess(a[1..], b[1..])
  }

  lemma {:induction false} StrLessIrreflexive(a: string)
    ensures !StrLess(a, a)
  {
    if a != [] {
      StrLessIrreflexive(a[1..]);
    }
  }

  lemma {:induction false} StrLessTransitive(a: string, b: string, c: string)
    requires StrLess(a, b) && StrLess(b, c)
    ensures StrLess(a, c)
  {
    if a != [] && a[0] == b[0] && b[0] == c[0] {
      StrLessTransitive(a[1..], b[1..], c[1..]);
    }
  }

  lemma {:induction false} StrLessTotal(a: string, b: string)
    ensures a == b || StrLess(a, b) || StrLess(b, a)
  {
    if a != [] && b != [] && a[0] == b[0] {
      StrLessTotal(a[1..], b[1..]);
      if a[1..] == b[1..] {
        assert a == [a[0]] + a[1..] && b == [b[0]] + b[1..];
      }
    }
  }

  /** The key `(p.get("favorite", False), p.get("timestamp", ""))` of a record. */
  datatype Key = Key(favorite: bool, timestamp: string)

  /** `a > b` under Python's tuple comparison, where `False < True`. */
  predicate Greater(a: Key, b: Key)
  {
    (a.favorite && !b.favorite) || (a.favorite == b.favorite && StrLess(b.timestamp, a.timestamp))
  }

  lemma GreaterIrreflexive(a: Key)
    ensures !Greater(a, a)
  {
    StrLessIrreflexive(a.timestamp);
  }

  lemma GreaterTransitive(a: Key, b: Key, c: Key)
    requires Greater(a, b) && Greater(b, c)
    ensures Greater(a, c)
  {
    if a.favorite == b.favorite == c.favorite {
      StrLessTransitive(c.timestamp, b.timestamp, a.timestamp);
    }
  }

  lemma GreaterAsymmetric(a: Key, b: Key)
    requires Greater(a, b)
    ensures !Greater(b, a)
  {
    if Greater(b, a) {
      GreaterTransitive(a, b, a);
      GreaterIrreflexive(a);
    }
  }

  /** Two keys are equal or one of them is greater: the order is total. */
  lemma GreaterTotal(a: Key, b: Key)
    ensures a == b || Greater(a, b) || Greater(b, a)
  {
    StrLessTotal(a.timestamp, b.timestamp);
  }

  /** "Not greater" is transitive, which is what keeps a sorted run sorted
      when one element is inserted into it. */
  lemma NotGreaterTransitive(a: Key, b: Key, c: Key)
    requires !Greater(a, b) && !Greater(b, c)
    ensures !Greater(a, c)
  {
    GreaterTotal(a, b);
    if Greater(a, c) && Greater(b, a) {
      GreaterTransitive(b, a, c);
    }
  }
}
