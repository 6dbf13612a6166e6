/** Small result types shared by the modules of this model. */
module Base {

  /** A value that may be absent: JavaScript's `undefined`, Python's `None`. */
  datatype Option<+T> = None | Some(value: T)

  /** The outcome of an operation that either yields a value or raises. */
  datatype Result<+T, +E> = Ok(value: T) | Err(error: E)

  /** The outcome of an operation that yields nothing but may raise. */
  datatype Outcome<+E> = Pass | Fail(error: E)

  /** Sequence helpers used by several modules. */

  function InsertAt<T>(s: seq<T>, i: nat, x: T): (r: seq<T>)
    requires i <= |s|
    ensures |r| == |s| + 1 && r[i] == x
    ensures forall j :: 0 <= j < i ==> r[j] == s[j]
    ensures forall j :: i < j < |r| ==> r[j] == s[j - 1]
  {
    s[..i] + [x] + s[i..]
  }

  function RemoveAt<T>(s: seq<T>, i: nat): (r: seq<T>)
    requires i < |s|
    ensures |r| == |s| - 1
    ensures forall j :: 0 <= j < i ==> r[j] == s[j]
    ensures forall j :: i <= j < |r| ==> r[j] == s[j + 1]
  {
    s[..i] + s[i + 1..]
  }

  lemma SliceOfConcatLeft<T>(x: seq<T>, y: seq<T>, i: nat, j: nat)
    requires i <= j <= |x|
    ensures (x + y)[i..j] == x[i..j]
  {
  }

  lemma SliceAfterPrefix<T>(x: seq<T>, y: seq<T>, i: nat, j: nat)
    requires i <= j <= |y|
    ensures (x + y)[|x| + i..|x| + j] == y[i..j]
  {
  }

  lemma SliceOfSlice<T>(x: seq<T>, a: nat, b: nat, i: nat, j: nat)
    requires a <= b <= |x| && i <= j <= b - a
    ensures x[a..b][i..j] == x[a + i..a + j]
  {
    forall k | 0 <= k < j - i ensures x[a..b][i..j][k] == x[a + i..a + j][k] {
      assert x[a..b][i..j][k] == x[a..b][i + k] == x[a + i + k];
    }
  }

  /** Inserting into a sequence at `i` is inserting into its slice `s..e` that holds `i`. */
  lemma SpliceInsertWithin<T>(x: seq<T>, s: nat, i: nat, e: nat, ins: seq<T>)
    requires s <= i <= e <= |x|
    ensures x[..i] + ins + x[i..] == x[..s] + (x[s..e][..i - s] + ins + x[s..e][i - s..]) + x[e..]
  {
    assert x[..i] == x[..s] + x[s..e][..i - s];
    assert x[i..] == x[s..e][i - s..] + x[e..];
  }

  /** Removing `d` elements at `i` is removing them from the slice `s..e` that holds them. */
  lemma SpliceRemoveWithin<T>(x: seq<T>, s: nat, i: nat, d: nat, e: nat)
    requires s <= i && i + d <= e <= |x|
    ensures x[..i] + x[i + d..] == x[..s] + (x[s..e][..i - s] + x[s..e][i - s + d..]) + x[e..]
  {
    assert x[..i] == x[..s] + x[s..e][..i - s];
    assert x[i + d..] == x[s..e][i - s + d..] + x[e..];
  }

  /** `reversed` and `Array.prototype.reverse`: the elements in the opposite order. */
  function Reverse<T>(s: seq<T>): (r: seq<T>)
    ensures |r| == |s| && forall k :: 0 <= k < |s| ==> r[k] == s[|s| - 1 - k]
  {
    seq(|s|, k requires 0 <= k < |s| => s[|s| - 1 - k])
  }

  /** Removing the element at `i` and inserting `x` there replaces it. */
  lemma InsertAfterRemove<T>(s: seq<T>, i: nat, x: T)
    requires i < |s|
    ensures InsertAt(RemoveAt(s, i), i, x) == s[i := x]
  {
  }

  /** Regrouping a concatenation of three sequences. */
  lemma AppendAssociative<T>(a: seq<T>, b: seq<T>, c: seq<T>)
    ensures (a + b) + c == a + (b + c)
  {
  }

  lemma AppendEmpty<T>(a: seq<T>)
    ensures a + [] == a && [] + a == a
  {
  }

  /** `s` after `acc`, its first element taken on its own. */
  lemma SplitFirst<T>(acc: seq<T>, s: seq<T>)
    requires |s| > 0
    ensures acc + [s[0]] + s[1..] == acc + s
  {
    assert acc + [s[0]] + s[1..] == acc + s;
  }

  predicate Distinct<T(==)>(s: seq<T>) {
    forall a, b :: 0 <= a < b < |s| ==> s[a] != s[b]
  }

  /** The elements of `s` once each, in first-seen order: the iteration order of a JavaScript `Set` built from `s`. */
  function Dedup<T(==)>(s: seq<T>): seq<T> {
    if |s| == 0 then []
    else
      var done := Dedup(s[..|s| - 1]);
      if s[|s| - 1] in done then done else done + [s[|s| - 1]]
  }

  lemma {:induction false} DedupIs<T>(s: seq<T>)
    ensures Distinct(Dedup(s))
    ensures forall x :: x in Dedup(s) <==> x in s
  {
    if |s| > 0 {
      var init := s[..|s| - 1];
      DedupIs(init);
      assert s == init + [s[|s| - 1]];
    }
  }

  /** The values of a sequence of results as a set, or the first error among them. */
  function CollectSet<U, E>(rs: seq<Result<U, E>>): Result<set<U>, E> {
    if |rs| == 0 then Ok({})
    else
      match CollectSet(rs[..|rs| - 1])
      case Err(e) => Err(e)
      case Ok(done) =>
        match rs[|rs| - 1]
        case Err(e) => Err(e)
        case Ok(x) => Ok(done + {x})
  }

  lemma {:induction false} CollectSetIs<U, E>(rs: seq<Result<U, E>>)
    ensures CollectSet(rs).Ok? <==> forall k :: 0 <= k < |rs| ==> rs[k].Ok?
    ensures CollectSet(rs).Ok? ==> forall x :: x in CollectSet(rs).value <==> Ok(x) in rs
  {
    if |rs| > 0 {
      var init := rs[..|rs| - 1];
      CollectSetIs(init);
      assert rs == init + [rs[|rs| - 1]];
    }
  }

  //
  // Dictionaries with string keys, as entry lists in insertion order
  //

  /** Some entry has key `key`. */
  predicate HasKey<V>(entries: seq<(string, V)>, key: string) {
    exists j :: 0 <= j < |entries| && entries[j].0 == key
  }

  /** No key appears twice. */
  predicate DistinctKeys<V>(entries: seq<(string, V)>) {
    forall a, b :: 0 <= a < b < |entries| ==> entries[a].0 != entries[b].0
  }

  /** `d[key] = value` on a dictionary given by its entries: an existing key keeps its place, a new one goes last. */
  function Put<V>(entries: seq<(string, V)>, key: string, value: V): seq<(string, V)> {
    if |entries| == 0 then [(key, value)]
    else if entries[0].0 == key then [(key, value)] + entries[1..]
    else [entries[0]] + Put(entries[1..], key, value)
  }
}
