/**
 * The Ruby data the library works on: parsed JSON and option hashes.
 * A Ruby Hash is an ordered list of entries (insertion order is the
 * iteration order of `each_value` / `each_key`); keys are strings, a
 * Symbol key standing for its name.
 */
module Values {
  import opened Wrappers

  datatype Value =
    | Nil
    | Bool(b: bool)
    | Int(i: int)
    | Str(s: string)
    | Arr(elems: seq<Value>)
    | Hash(entries: seq<Entry>)

  datatype Entry = Entry(key: string, val: Value)

  /** The keys of a hash, in iteration order. */
  function Keys(es: seq<Entry>): (ks: seq<string>)
    ensures |ks| == |es|
    ensures forall i :: 0 <= i < |es| ==> ks[i] == es[i].key
  {
    seq(|es|, i requires 0 <= i < |es| => es[i].key)
  }

  /** `hash.key?(k)` */
  predicate HasKey(es: seq<Entry>, k: string)
  {
    exists i | 0 <= i < |es| :: es[i].key == k
  }

  /** The entry stored under `k`, if any (the first one, should keys repeat). */
  function Lookup(es: seq<Entry>, k: string): (r: Option<Value>)
    ensures r.Some? <==> HasKey(es, k)
    ensures r.Some? ==> exists i | 0 <= i < |es| :: es[i].key == k && es[i].val == r.value
  {
    if |es| == 0 then None
    else if es[0].key == k then Some(es[0].val)
    else Lookup(es[1..], k)
  }

  /** `hash[k]`: the stored value, or `nil` when the key is absent. */
  function Get(es: seq<Entry>, k: string): (r: Value)
    ensures !HasKey(es, k) ==> r == Nil
  {
    match Lookup(es, k)
    case Some(v) => v
    case None => Nil
  }

  /** Ruby truthiness: everything but `nil` and `false`. */
  predicate Truthy(v: Value)
  {
    !v.Nil? && v != Bool(false)
  }

  /** Keys of a hash are pairwise distinct, as in every Ruby Hash. */
  predicate DistinctKeys(es: seq<Entry>)
  {
    forall i, j :: 0 <= i < j < |es| ==> es[i].key != es[j].key
  }

  /** A value every Ruby Hash inside of which has distinct keys. */
  predicate WellFormed(v: Value)
    decreases v
  {
    match v
    case Arr(xs) => forall i :: 0 <= i < |xs| ==> WellFormed(xs[i])
    case Hash(es) => DistinctKeys(es) && forall i :: 0 <= i < |es| ==> WellFormed(es[i].val)
    case _ => true
  }

  /**
   * Ruby's `eql?`, the equality `Array#uniq` uses: scalars of the same
   * class and value, arrays element by element, hashes with the same
   * keys (in any order) holding `eql?` values.
   */
  predicate Same(a: Value, b: Value)
    decreases a
  {
    match a
    case Nil => b.Nil?
    case Bool(x) => b == Bool(x)
    case Int(x) => b == Int(x)
    case Str(x) => b == Str(x)
    case Arr(xs) =>
      b.Arr? && |xs| == |b.elems| &&
      forall i :: 0 <= i < |xs| ==> Same(xs[i], b.elems[i])
    case Hash(es) =>
      b.Hash? && |es| == |b.entries| &&
      forall i :: 0 <= i < |es| ==> SameAt(es, i, b.entries)
  }

  /** Entry `i` of `es` is matched in `other` by an `eql?` value under the same key. */
  predicate SameAt(es: seq<Entry>, i: nat, other: seq<Entry>)
    requires i < |es|
    decreases Hash(es), 0
  {
    match Lookup(other, es[i].key)
    case Some(v) => Same(es[i].val, v)
    case None => false
  }

  lemma {:induction false} LookupDistinct(es: seq<Entry>, i: nat)
    requires DistinctKeys(es) && i < |es|
    ensures Lookup(es, es[i].key) == Some(es[i].val)
  {
    if i > 0 {
      assert es[0].key != es[i].key;
      assert es[1..][i - 1] == es[i];
      LookupDistinct(es[1..], i - 1);
    }
  }

  /** `eql?` is reflexive on every value a Ruby program can build. */
  lemma {:induction false} SameReflexive(v: Value)
    requires WellFormed(v)
    ensures Same(v, v)
    decreases v
  {
    match v
    case Arr(xs) =>
      forall i | 0 <= i < |xs| ensures Same(xs[i], xs[i]) {
        SameReflexive(xs[i]);
      }
    case Hash(es) =>
      forall i | 0 <= i < |es| ensures SameAt(es, i, es) {
        LookupDistinct(es, i);
        SameReflexive(es[i].val);
      }
    case _ =>
  }

  /** `eql?` is transitive through a value a Ruby program can build. */
  lemma {:induction false} SameTransitive(a: Value, b: Value, c: Value)
    requires WellFormed(b) && Same(a, b) && Same(b, c)
    ensures Same(a, c)
    decreases a
  {
    match a
    case Arr(xs) =>
      forall i | 0 <= i < |xs| ensures Same(xs[i], c.elems[i]) {
        SameTransitive(xs[i], b.elems[i], c.elems[i]);
      }
    case Hash(es) =>
      forall i | 0 <= i < |es| ensures SameAt(es, i, c.entries) {
        var k := es[i].key;
        assert SameAt(es, i, b.entries);
        var v := Lookup(b.entries, k).value;
        var j :| 0 <= j < |b.entries| && b.entries[j].key == k && b.entries[j].val == v;
        assert SameAt(b.entries, j, c.entries);
        var w := Lookup(c.entries, k).value;
        SameTransitive(es[i].val, v, w);
      }
    case _ =>
  }
}
