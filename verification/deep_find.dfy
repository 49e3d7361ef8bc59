/**
 * `Hash#deep_find(key, uniq: true)`: every value stored under `key` in a
 * hash and in the hashes below it, with `nil` and `[]` dropped, duplicates
 * optionally removed, and a single survivor returned unwrapped.
 *
 * The recursion descends into hash values and into the hash elements of
 * array values, one array level only. Each recursive call runs with the
 * default `uniq: true` and its whole result becomes ONE candidate: results
 * are not flattened.
 */
module DeepFind {
  import opened Wrappers
  import opened Values

  // ---------------------------------------------------------------------
  // Specification

  /** Candidates `compact.delete_if` keeps: neither `nil` nor an empty array. */
  predicate Kept(v: Value)
  {
    !v.Nil? && v != Arr([])
  }

  /** `result.compact.delete_if { |i| i.is_a?(Array) && i.empty? }` */
  function Compact(s: seq<Value>): (r: seq<Value>)
    decreases |s|
  {
    if |s| == 0 then []
    else
      var prefix := Compact(s[..|s| - 1]);
      if Kept(s[|s| - 1]) then prefix + [s[|s| - 1]] else prefix
  }

  /** Some element of `r` is `eql?` to `x`. */
  predicate Seen(r: seq<Value>, x: Value)
  {
    exists i | 0 <= i < |r| :: Same(r[i], x)
  }

  /** `Array#uniq`: the first of every group of `eql?` elements, in order. */
  function Uniq(s: seq<Value>): (r: seq<Value>)
    decreases |s|
  {
    if |s| == 0 then []
    else
      var prefix := Uniq(s[..|s| - 1]);
      if Seen(prefix, s[|s| - 1]) then prefix else prefix + [s[|s| - 1]]
  }

  /** `result.size == 1 ? result.first : result` */
  function Unwrap(s: seq<Value>): Value
  {
    if |s| == 1 then s[0] else Arr(s)
  }

  /** The value of `h.deep_find(key, uniq: uniq)`. */
  function Find(h: Value, key: string, uniq: bool): Value
    requires h.Hash?
    decreases h, 4
  {
    Unwrap(Matches(h, key, uniq))
  }

  /** The surviving candidates, before unwrapping. */
  function Matches(h: Value, key: string, uniq: bool): seq<Value>
    requires h.Hash?
    decreases h, 3
  {
    var kept := Compact(Raw(h, key));
    if uniq then Uniq(kept) else kept
  }

  /** The candidate list before filtering: `self[key]`, then one result per hash searched below. */
  function Raw(h: Value, key: string): seq<Value>
    requires h.Hash?
    decreases h, 2
  {
    [Get(h.entries, key)] + Nested(h, |h.entries|, key)
  }

  /** The recursive results contributed by the first `n` entries of `h`. */
  function Nested(h: Value, n: nat, key: string): seq<Value>
    requires h.Hash? && n <= |h.entries|
    decreases h, 1, n
  {
    if n == 0 then []
    else Nested(h, n - 1, key) + Children(h.entries[n - 1].val, key)
  }

  /** The recursive results contributed by one hash value `v`. */
  function Children(v: Value, key: string): seq<Value>
    decreases v, 6
  {
    if v.Arr? then Elems(v, |v.elems|, key)
    else if v.Hash? then [Find(v, key, true)]
    else []
  }

  /** The recursive results contributed by the first `n` elements of array `a`. */
  function Elems(a: Value, n: nat, key: string): seq<Value>
    requires a.Arr? && n <= |a.elems|
    decreases a, 5, n
  {
    if n == 0 then []
    else
      var e := a.elems[n - 1];
      Elems(a, n - 1, key) + (if e.Hash? then [Find(e, key, true)] else [])
  }

  // ---------------------------------------------------------------------
  // Implementation, following the source's loops

  /** What the inner loop has pushed after visiting `j` of the wrapped values of `v`. */
  ghost function Visited(v: Value, j: nat, key: string): seq<Value>
    requires if v.Arr? then j <= |v.elems| else j <= 1
  {
    if v.Arr? then Elems(v, j, key)
    else if j == 0 then []
    else Children(v, key)
  }

  method DeepFind(h: Value, key: string, uniq: bool := true) returns (r: Value)
    requires h.Hash?
    ensures r == Find(h, key, uniq)
    decreases h
  {
    var result := [Get(h.entries, key)];
    var i := 0;
    while i < |h.entries|
      invariant 0 <= i <= |h.entries|
      invariant result == [Get(h.entries, key)] + Nested(h, i, key)
    {
      var hashValue := h.entries[i].val;
      var values := if hashValue.Arr? then hashValue.elems else [hashValue];
      var j := 0;
      while j < |values|
        invariant 0 <= j <= |values|
        invariant result == [Get(h.entries, key)] + Nested(h, i, key) + Visited(hashValue, j, key)
      {
        var value := values[j];
        if value.Hash? {
          var found := DeepFind(value, key);
          result := result + [found];
        }
        j := j + 1;
      }
      i := i + 1;
    }
    assert result == Raw(h, key);

    var kept := [];
    var k := 0;
    while k < |result|
      invariant 0 <= k <= |result|
      invariant kept == Compact(result[..k])
    {
      assert result[..k + 1][..k] == result[..k];
      if Kept(result[k]) {
        kept := kept + [result[k]];
      }
      k := k + 1;
    }
    assert result[..|result|] == result;

    if uniq {
      var unique := [];
      k := 0;
      while k < |kept|
        invariant 0 <= k <= |kept|
        invariant unique == Uniq(kept[..k])
      {
        assert kept[..k + 1][..k] == kept[..k];
        if !Seen(unique, kept[k]) {
          unique := unique + [kept[k]];
        }
        k := k + 1;
      }
      assert kept[..|kept|] == kept;
      kept := unique;
    }
    r := if |kept| == 1 then kept[0] else Arr(kept);
  }

  // ---------------------------------------------------------------------
  // Properties of the filtering steps

  /** Some element of `s` survives `compact.delete_if`. */
  predicate AnyKept(s: seq<Value>)
  {
    exists i | 0 <= i < |s| :: Kept(s[i])
  }

  lemma {:induction false} AnyKeptConcat(a: seq<Value>, b: seq<Value>)
    ensures AnyKept(a + b) <==> AnyKept(a) || AnyKept(b)
  {
    if AnyKept(a + b) {
      var i :| 0 <= i < |a + b| && Kept((a + b)[i]);
      if i >= |a| { assert b[i - |a|] == (a + b)[i]; }
    }
    if AnyKept(a) {
      var i :| 0 <= i < |a| && Kept(a[i]);
      assert (a + b)[i] == a[i];
    }
    if AnyKept(b) {
      var i :| 0 <= i < |b| && Kept(b[i]);
      assert (a + b)[|a| + i] == b[i];
    }
  }

  lemma AnyKeptSingleton(x: Value)
    ensures AnyKept([x]) <==> Kept(x)
  {
    assert [x][0] == x;
  }

  /** What `compact.delete_if` keeps is drawn from its input and is neither `nil` nor `[]`. */
  lemma {:induction false} CompactSound(s: seq<Value>)
    ensures forall i :: 0 <= i < |Compact(s)| ==> Kept(Compact(s)[i]) && Compact(s)[i] in s
    decreases |s|
  {
    if |s| > 0 {
      var init := s[..|s| - 1];
      CompactSound(init);
      assert s == init + [s[|s| - 1]];
    }
  }

  /** Every candidate that is neither `nil` nor `[]` is kept. */
  lemma {:induction false} CompactComplete(s: seq<Value>)
    ensures forall i :: 0 <= i < |s| && Kept(s[i]) ==> s[i] in Compact(s)
    decreases |s|
  {
    if |s| > 0 {
      var init := s[..|s| - 1];
      CompactComplete(init);
      forall i | 0 <= i < |s| && Kept(s[i]) ensures s[i] in Compact(s) {
        if i < |s| - 1 { assert s[i] == init[i]; }
      }
    }
  }

  /** `compact.delete_if` leaves something exactly when some candidate is neither `nil` nor `[]`. */
  lemma CompactNonEmpty(s: seq<Value>)
    ensures Compact(s) != [] <==> AnyKept(s)
  {
    CompactSound(s);
    CompactComplete(s);
    if Compact(s) != [] {
      assert Compact(s)[0] in s;
    }
    if AnyKept(s) {
      var i :| 0 <= i < |s| && Kept(s[i]);
      assert s[i] in Compact(s);
    }
  }

  /** Order is kept: a first candidate that survives stays first. */
  lemma {:induction false} CompactFirst(s: seq<Value>)
    ensures |s| > 0 && Kept(s[0]) ==> |Compact(s)| > 0 && Compact(s)[0] == s[0]
    decreases |s|
  {
    if |s| > 0 {
      var init := s[..|s| - 1];
      CompactFirst(init);
      if |s| == 1 {
        assert init == [];
      } else {
        assert init[0] == s[0];
      }
    }
  }

  /** Nothing is dropped needlessly: a list of real candidates passes unchanged. */
  lemma {:induction false} CompactIdentity(s: seq<Value>)
    requires forall i :: 0 <= i < |s| ==> Kept(s[i])
    ensures Compact(s) == s
    decreases |s|
  {
    if |s| > 0 {
      var init := s[..|s| - 1];
      CompactIdentity(init);
      assert s == init + [s[|s| - 1]];
    }
  }

  /** `compact.delete_if` works element by element: it distributes over concatenation. */
  lemma {:induction false} CompactConcat(a: seq<Value>, b: seq<Value>)
    ensures Compact(a + b) == Compact(a) + Compact(b)
    decreases |b|
  {
    if |b| == 0 {
      assert a + b == a;
    } else {
      var init := b[..|b| - 1];
      CompactConcat(a, init);
      assert (a + b)[..|a + b| - 1] == a + init;
    }
  }

  lemma CompactSingleton(x: Value)
    ensures Compact([x]) == if Kept(x) then [x] else []
  {
    assert [x][..0] == [];
  }

  lemma UniqSingleton(x: Value)
    ensures Uniq([x]) == [x]
  {
    assert [x][..0] == [];
  }

  /** A leaf value: no hash inside it is searched. */
  predicate Leaf(v: Value)
  {
    !v.Hash? && (v.Arr? ==> forall i :: 0 <= i < |v.elems| ==> !v.elems[i].Hash?)
  }

  lemma {:induction false} LeafElems(a: Value, n: nat, key: string)
    requires a.Arr? && n <= |a.elems| && Leaf(a)
    ensures Elems(a, n, key) == []
  {
    if n > 0 { LeafElems(a, n - 1, key); }
  }

  /** A hash with one entry holding a leaf: its one raw candidate is what it holds under `key`. */
  lemma LeafEntryRaw(k: string, v: Value, key: string)
    requires Leaf(v)
    ensures Raw(Hash([Entry(k, v)]), key) == [if k == key then v else Nil]
  {
    var h := Hash([Entry(k, v)]);
    if v.Arr? { LeafElems(v, |v.elems|, key); }
    assert Children(v, key) == [];
    assert Nested(h, 1, key) == [];
    assert Get(h.entries, key) == if k == key then v else Nil;
  }

  /** A hash with one entry holding a leaf yields that value for its key, `[]` otherwise. */
  lemma LeafEntryFind(k: string, v: Value, key: string, uniq: bool)
    requires Leaf(v)
    ensures Find(Hash([Entry(k, v)]), key, uniq) == if k == key && Kept(v) then v else Arr([])
  {
    var h := Hash([Entry(k, v)]);
    var x := if k == key then v else Nil;
    LeafEntryRaw(k, v, key);
    CompactSingleton(x);
    if Kept(x) {
      UniqSingleton(x);
      assert Matches(h, key, uniq) == [x];
    } else {
      assert Matches(h, key, uniq) == [];
    }
  }

  /** No two elements of `s` are `eql?`, the later compared to the earlier. */
  predicate Distinct(s: seq<Value>)
  {
    forall i, j :: 0 <= i < j < |s| ==> !Same(s[i], s[j])
  }

  /** `uniq` returns elements of its input, no two `eql?`, never more than it was given. */
  lemma {:induction false} UniqSound(s: seq<Value>)
    ensures forall i :: 0 <= i < |Uniq(s)| ==> Uniq(s)[i] in s
    ensures Distinct(Uniq(s))
    ensures |Uniq(s)| <= |s|
    decreases |s|
  {
    if |s| > 0 {
      var init, last := s[..|s| - 1], s[|s| - 1];
      UniqSound(init);
      assert s == init + [last];
      var prefix := Uniq(init);
      if !Seen(prefix, last) {
        var r := prefix + [last];
        forall i, j | 0 <= i < j < |r| ensures !Same(r[i], r[j]) {
          if j == |prefix| {
            assert r[i] == prefix[i];
          } else {
            assert r[i] == prefix[i] && r[j] == prefix[j];
          }
        }
      }
    }
  }

  /** Every input element is represented by an `eql?` element of what `uniq` returns. */
  lemma {:induction false} UniqComplete(s: seq<Value>)
    requires forall i :: 0 <= i < |s| ==> WellFormed(s[i])
    ensures forall i :: 0 <= i < |s| ==> Seen(Uniq(s), s[i])
    decreases |s|
  {
    if |s| > 0 {
      var init, last := s[..|s| - 1], s[|s| - 1];
      UniqComplete(init);
      var prefix := Uniq(init);
      var r := Uniq(s);
      assert r == if Seen(prefix, last) then prefix else prefix + [last];
      forall i | 0 <= i < |s| ensures Seen(r, s[i]) {
        if i < |s| - 1 {
          assert s[i] == init[i];
          var k :| 0 <= k < |prefix| && Same(prefix[k], init[i]);
          assert r[k] == prefix[k];
          assert Same(r[k], s[i]);
        } else if !Seen(prefix, last) {
          assert r[|prefix|] == last;
          SameReflexive(last);
        } else {
          assert s[i] == last;
        }
      }
    }
  }

  /** `uniq` keeps the first element first. */
  lemma {:induction false} UniqFirst(s: seq<Value>)
    ensures |s| > 0 ==> |Uniq(s)| > 0 && Uniq(s)[0] == s[0]
    decreases |s|
  {
    if |s| > 0 {
      var init := s[..|s| - 1];
      UniqFirst(init);
      if |s| == 1 {
        assert init == [];
      } else {
        assert init[0] == s[0];
      }
    }
  }

  /** The positions `uniq` keeps: each element not `eql?` to one kept before it. */
  ghost function KeptPositions(s: seq<Value>): (pos: seq<nat>)
    ensures forall k :: 0 <= k < |pos| ==> pos[k] < |s|
    decreases |s|
  {
    if |s| == 0 then []
    else
      var init := s[..|s| - 1];
      if Seen(Uniq(init), s[|s| - 1]) then KeptPositions(init) else KeptPositions(init) + [|s| - 1]
  }

  /** `uniq` returns the input at the kept positions, which increase: the input order is kept. */
  lemma {:induction false} UniqAtKeptPositions(s: seq<Value>)
    ensures |KeptPositions(s)| == |Uniq(s)|
    ensures forall k :: 0 <= k < |KeptPositions(s)| ==>
      KeptPositions(s)[k] < |s| && Uniq(s)[k] == s[KeptPositions(s)[k]]
    ensures forall k, l :: 0 <= k < l < |KeptPositions(s)| ==> KeptPositions(s)[k] < KeptPositions(s)[l]
    decreases |s|
  {
    if |s| > 0 {
      var init := s[..|s| - 1];
      UniqAtKeptPositions(init);
      var pos0 := KeptPositions(init);
      assert forall k :: 0 <= k < |pos0| ==> s[pos0[k]] == init[pos0[k]];
    }
  }

  /** Each element `uniq` keeps has no `eql?` element before it in the input. */
  lemma {:induction false} UniqKeepsOnlyFirsts(s: seq<Value>)
    requires forall i :: 0 <= i < |s| ==> WellFormed(s[i])
    ensures forall k, j :: 0 <= k < |KeptPositions(s)| && 0 <= j < KeptPositions(s)[k] ==>
      !Same(s[j], s[KeptPositions(s)[k]])
    decreases |s|
  {
    if |s| > 0 {
      var init, last := s[..|s| - 1], s[|s| - 1];
      UniqKeepsOnlyFirsts(init);
      UniqAtKeptPositions(init);
      var prefix := Uniq(init);
      var pos0 := KeptPositions(init);
      var pos := KeptPositions(s);
      if !Seen(prefix, last) {
        UniqComplete(init);
        assert pos == pos0 + [|s| - 1];
        forall k, j | 0 <= k < |pos| && 0 <= j < pos[k] ensures !Same(s[j], s[pos[k]]) {
          if k == |pos0| {
            if Same(s[j], last) {
              assert s[j] == init[j];
              var m :| 0 <= m < |prefix| && Same(prefix[m], init[j]);
              SameTransitive(prefix[m], s[j], last);
              assert Seen(prefix, last);
            }
          } else {
            assert pos[k] == pos0[k] && s[j] == init[j] && s[pos[k]] == init[pos0[k]];
          }
        }
      }
    }
  }

  /** No element before position `i` is `eql?` to the one at `i`. */
  predicate FirstOfGroup(s: seq<Value>, i: nat)
    requires i < |s|
  {
    forall j :: 0 <= j < i ==> !Same(s[j], s[i])
  }

  /** Each element with no `eql?` element before it is kept by `uniq`. */
  lemma {:induction false} UniqKeepsEveryFirst(s: seq<Value>)
    ensures forall i :: 0 <= i < |s| && FirstOfGroup(s, i) ==> i in KeptPositions(s)
    decreases |s|
  {
    if |s| > 0 {
      var init, last := s[..|s| - 1], s[|s| - 1];
      UniqKeepsEveryFirst(init);
      UniqAtKeptPositions(init);
      var prefix := Uniq(init);
      var pos0 := KeptPositions(init);
      var pos := KeptPositions(s);
      assert pos == if Seen(prefix, last) then pos0 else pos0 + [|s| - 1];
      forall i | 0 <= i < |s| && FirstOfGroup(s, i) ensures i in pos {
        if i == |s| - 1 {
          assert pos[|pos0|] == i;
        } else {
          assert FirstOfGroup(init, i) by {
            forall j | 0 <= j < i ensures !Same(init[j], init[i]) {
              assert init[j] == s[j] && init[i] == s[i];
            }
          }
          var k :| 0 <= k < |pos0| && pos0[k] == i;
          assert pos[k] == i;
        }
      }
    }
  }

  /** `uniq` leaves a list without duplicates as it is. */
  lemma {:induction false} UniqIdentity(s: seq<Value>)
    requires Distinct(s)
    ensures Uniq(s) == s
    decreases |s|
  {
    if |s| > 0 {
      var init, last := s[..|s| - 1], s[|s| - 1];
      assert Distinct(init) by {
        forall i, j | 0 <= i < j < |init| ensures !Same(init[i], init[j]) {
          assert init[i] == s[i] && init[j] == s[j];
        }
      }
      UniqIdentity(init);
      assert !Seen(init, last);
      assert s == init + [last];
    }
  }

  /** Every candidate that survives is neither `nil` nor `[]`; with `uniq` no two are `eql?`. */
  lemma MatchesSpec(h: Value, key: string, uniq: bool)
    requires h.Hash?
    ensures forall i :: 0 <= i < |Matches(h, key, uniq)| ==> Kept(Matches(h, key, uniq)[i])
    ensures uniq ==> Distinct(Matches(h, key, uniq))
    ensures !uniq ==> Matches(h, key, uniq) == Compact(Raw(h, key))
    ensures Matches(h, key, uniq) != [] <==> AnyKept(Raw(h, key))
  {
    var kept := Compact(Raw(h, key));
    CompactSound(Raw(h, key));
    CompactNonEmpty(Raw(h, key));
    if uniq {
      UniqSound(kept);
      UniqFirst(kept);
      forall i | 0 <= i < |Uniq(kept)| ensures Kept(Uniq(kept)[i]) {
        var x := Uniq(kept)[i];
        var m :| 0 <= m < |kept| && kept[m] == x;
      }
    }
  }

  /** `result.size == 1 ? result.first : result` yields `[]` only for no candidates at all. */
  lemma UnwrapEmpty(s: seq<Value>)
    requires forall i :: 0 <= i < |s| ==> Kept(s[i])
    ensures Unwrap(s) == Arr([]) <==> s == []
    ensures Kept(Unwrap(s)) <==> s != []
  {
  }

  // ---------------------------------------------------------------------
  // Where the search looks, and what it finds

  /**
   * `key` holds a value other than `nil` and `[]` in `h` or in a hash the
   * search descends into: a hash value, or a hash element of an array value.
   */
  predicate Present(h: Value, key: string)
    requires h.Hash?
    decreases h, 4
  {
    Kept(Get(h.entries, key)) ||
    exists i | 0 <= i < |h.entries| :: PresentIn(h.entries[i].val, key)
  }

  /** `Present` for the hashes the search reaches through one hash value `v`. */
  predicate PresentIn(v: Value, key: string)
    decreases v, 6
  {
    match v
    case Hash(_) => Present(v, key)
    case Arr(xs) => exists j | 0 <= j < |xs| :: xs[j].Hash? && Present(xs[j], key)
    case _ => false
  }

  /** `key` is a key of `h` or of a hash the search descends into, whatever it holds. */
  predicate Occurs(h: Value, key: string)
    requires h.Hash?
    decreases h, 4
  {
    HasKey(h.entries, key) ||
    exists i | 0 <= i < |h.entries| :: OccursIn(h.entries[i].val, key)
  }

  predicate OccursIn(v: Value, key: string)
    decreases v, 6
  {
    match v
    case Hash(_) => Occurs(v, key)
    case Arr(xs) => exists j | 0 <= j < |xs| :: xs[j].Hash? && Occurs(xs[j], key)
    case _ => false
  }

  /** A recursive result is a real candidate exactly when something was found below. */
  lemma {:induction false} FindKept(h: Value, key: string)
    requires h.Hash?
    ensures Kept(Find(h, key, true)) <==> Present(h, key)
    decreases h, 4
  {
    MatchesSpec(h, key, true);
    UnwrapEmpty(Matches(h, key, true));
    NestedKept(h, |h.entries|, key);
    AnyKeptConcat([Get(h.entries, key)], Nested(h, |h.entries|, key));
    AnyKeptSingleton(Get(h.entries, key));
  }

  lemma {:induction false} NestedKept(h: Value, n: nat, key: string)
    requires h.Hash? && n <= |h.entries|
    ensures AnyKept(Nested(h, n, key)) <==> exists i | 0 <= i < n :: PresentIn(h.entries[i].val, key)
    decreases h, 1, n
  {
    if n > 0 {
      NestedKept(h, n - 1, key);
      ChildrenKept(h.entries[n - 1].val, key);
      AnyKeptConcat(Nested(h, n - 1, key), Children(h.entries[n - 1].val, key));
    }
  }

  lemma {:induction false} ChildrenKept(v: Value, key: string)
    ensures AnyKept(Children(v, key)) <==> PresentIn(v, key)
    decreases v, 6
  {
    if v.Arr? {
      ElemsKept(v, |v.elems|, key);
    } else if v.Hash? {
      FindKept(v, key);
      AnyKeptSingleton(Find(v, key, true));
    }
  }

  lemma {:induction false} ElemsKept(a: Value, n: nat, key: string)
    requires a.Arr? && n <= |a.elems|
    ensures AnyKept(Elems(a, n, key)) <==> exists j | 0 <= j < n :: a.elems[j].Hash? && Present(a.elems[j], key)
    decreases a, 5, n
  {
    if n > 0 {
      var e := a.elems[n - 1];
      ElemsKept(a, n - 1, key);
      var tail := if e.Hash? then [Find(e, key, true)] else [];
      AnyKeptConcat(Elems(a, n - 1, key), tail);
      if e.Hash? {
        FindKept(e, key);
        AnyKeptSingleton(Find(e, key, true));
      }
    }
  }

  /**
   * `deep_find` returns `[]` (never `nil`) exactly when no searched hash
   * holds a value other than `nil` or `[]` under `key`.
   */
  lemma FindEmptyIffAbsent(h: Value, key: string, uniq: bool)
    requires h.Hash?
    ensures Find(h, key, uniq) == Arr([]) <==> !Present(h, key)
  {
    MatchesSpec(h, key, uniq);
    UnwrapEmpty(Matches(h, key, uniq));
    NestedKept(h, |h.entries|, key);
    AnyKeptConcat([Get(h.entries, key)], Nested(h, |h.entries|, key));
    AnyKeptSingleton(Get(h.entries, key));
  }

  lemma {:induction false} NotOccursNotPresent(h: Value, key: string)
    requires h.Hash?
    ensures !Occurs(h, key) ==> !Present(h, key)
    decreases h, 4
  {
    forall i | 0 <= i < |h.entries| && !OccursIn(h.entries[i].val, key)
      ensures !PresentIn(h.entries[i].val, key)
    {
      NotOccursInNotPresentIn(h.entries[i].val, key);
    }
  }

  lemma {:induction false} NotOccursInNotPresentIn(v: Value, key: string)
    ensures !OccursIn(v, key) ==> !PresentIn(v, key)
    decreases v, 6
  {
    match v
    case Hash(_) => NotOccursNotPresent(v, key);
    case Arr(xs) =>
      forall j | 0 <= j < |xs| && xs[j].Hash? ensures !Occurs(xs[j], key) ==> !Present(xs[j], key) {
        NotOccursNotPresent(xs[j], key);
      }
    case _ =>
  }

  /** A key that occurs nowhere in the searched hashes yields the empty array. */
  lemma KeyNowhereIsEmpty(h: Value, key: string, uniq: bool)
    requires h.Hash? && !Occurs(h, key)
    ensures Find(h, key, uniq) == Arr([])
  {
    NotOccursNotPresent(h, key);
    FindEmptyIffAbsent(h, key, uniq);
  }

  /**
   * The top-level value at `key`, when it is neither `nil` nor `[]`, is the
   * first surviving candidate; when it is the only one it is returned as it
   * is (a Hash value included).
   */
  lemma TopLevelFirst(h: Value, key: string, uniq: bool)
    requires h.Hash? && Kept(Get(h.entries, key))
    ensures |Matches(h, key, uniq)| > 0 && Matches(h, key, uniq)[0] == Get(h.entries, key)
    ensures |Matches(h, key, uniq)| == 1 ==> Find(h, key, uniq) == Get(h.entries, key)
  {
    CompactFirst(Raw(h, key));
    CompactNonEmpty(Raw(h, key));
    AnyKeptSingleton(Get(h.entries, key));
    AnyKeptConcat([Get(h.entries, key)], Nested(h, |h.entries|, key));
    UniqFirst(Compact(Raw(h, key)));
  }

  // ---------------------------------------------------------------------
  // Every hit, flattened

  /**
   * Every value other than `nil` and `[]` that a searched hash holds under
   * `key`, in the order the search meets them: `h`'s own value first, then
   * what lies below each entry in turn. Unlike `deep_find` it flattens.
   */
  function Hits(h: Value, key: string): (r: seq<Value>)
    requires h.Hash?
    ensures forall i :: 0 <= i < |r| ==> Kept(r[i])
    decreases h, 4
  {
    (if Kept(Get(h.entries, key)) then [Get(h.entries, key)] else []) + NestedHits(h, |h.entries|, key)
  }

  function NestedHits(h: Value, n: nat, key: string): (r: seq<Value>)
    requires h.Hash? && n <= |h.entries|
    ensures forall i :: 0 <= i < |r| ==> Kept(r[i])
    decreases h, 1, n
  {
    if n == 0 then [] else NestedHits(h, n - 1, key) + ChildHits(h.entries[n - 1].val, key)
  }

  function ChildHits(v: Value, key: string): (r: seq<Value>)
    ensures forall i :: 0 <= i < |r| ==> Kept(r[i])
    decreases v, 6
  {
    if v.Arr? then ElemsHits(v, |v.elems|, key)
    else if v.Hash? then Hits(v, key)
    else []
  }

  function ElemsHits(a: Value, n: nat, key: string): (r: seq<Value>)
    requires a.Arr? && n <= |a.elems|
    ensures forall i :: 0 <= i < |r| ==> Kept(r[i])
    decreases a, 5, n
  {
    if n == 0 then []
    else
      var e := a.elems[n - 1];
      ElemsHits(a, n - 1, key) + (if e.Hash? then Hits(e, key) else [])
  }

  /** With at most one hit in total, the filtered candidates are exactly the hits. */
  lemma {:induction false} HitsMatch(h: Value, key: string)
    requires h.Hash?
    ensures |Hits(h, key)| <= 1 ==> Compact(Raw(h, key)) == Hits(h, key)
    decreases h, 4
  {
    if |Hits(h, key)| <= 1 {
      var own := Get(h.entries, key);
      NestedHitsMatch(h, |h.entries|, key);
      CompactConcat([own], Nested(h, |h.entries|, key));
      CompactSingleton(own);
    }
  }

  lemma {:induction false} NestedHitsMatch(h: Value, n: nat, key: string)
    requires h.Hash? && n <= |h.entries|
    ensures |NestedHits(h, n, key)| <= 1 ==> Compact(Nested(h, n, key)) == NestedHits(h, n, key)
    decreases h, 1, n
  {
    if n > 0 && |NestedHits(h, n, key)| <= 1 {
      var v := h.entries[n - 1].val;
      NestedHitsMatch(h, n - 1, key);
      ChildHitsMatch(v, key);
      CompactConcat(Nested(h, n - 1, key), Children(v, key));
    }
  }

  lemma {:induction false} ChildHitsMatch(v: Value, key: string)
    ensures |ChildHits(v, key)| <= 1 ==> Compact(Children(v, key)) == ChildHits(v, key)
    decreases v, 6
  {
    if v.Arr? {
      ElemsHitsMatch(v, |v.elems|, key);
    } else if v.Hash? {
      OneFound(v, key);
    }
  }

  lemma {:induction false} ElemsHitsMatch(a: Value, n: nat, key: string)
    requires a.Arr? && n <= |a.elems|
    ensures |ElemsHits(a, n, key)| <= 1 ==> Compact(Elems(a, n, key)) == ElemsHits(a, n, key)
    decreases a, 5, n
  {
    if n > 0 && |ElemsHits(a, n, key)| <= 1 {
      var e := a.elems[n - 1];
      ElemsHitsMatch(a, n - 1, key);
      var tail := if e.Hash? then [Find(e, key, true)] else [];
      CompactConcat(Elems(a, n - 1, key), tail);
      if e.Hash? {
        OneFound(e, key);
      }
    }
  }

  /** A searched hash with at most one hit contributes that hit, or nothing, to its parent. */
  lemma {:induction false} OneFound(c: Value, key: string)
    requires c.Hash?
    ensures |Hits(c, key)| <= 1 ==> Compact([Find(c, key, true)]) == Hits(c, key)
    decreases c, 5
  {
    if |Hits(c, key)| <= 1 {
      HitsMatch(c, key);
      var hs := Hits(c, key);
      if |hs| == 1 {
        UniqSingleton(hs[0]);
        assert hs == [hs[0]];
      }
      CompactSingleton(Find(c, key, true));
    }
  }

  /**
   * A key held by exactly one searched hash with a value other than `nil`
   * or `[]` (every other occurrence holding `nil` or `[]`) comes back as
   * that value itself, unwrapped, whatever `uniq` says; no hit at all comes
   * back as `[]`.
   */
  lemma SingleHitUnwrapped(h: Value, key: string, uniq: bool)
    requires h.Hash?
    ensures |Hits(h, key)| == 1 ==> Find(h, key, uniq) == Hits(h, key)[0]
    ensures Hits(h, key) == [] ==> Find(h, key, uniq) == Arr([])
  {
    HitsMatch(h, key);
    var hs := Hits(h, key);
    if |hs| == 1 {
      UniqSingleton(hs[0]);
      assert hs == [hs[0]];
    }
  }
}
