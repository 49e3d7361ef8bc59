/**
 * `deep_find` on the hashes of the library's own examples, and on small
 * hashes that show where the search looks and how results are grouped.
 */
module DeepFindExamples {
  import opened Values
  import opened DeepFind

  const DayDreamer := Arr([Str("Day Dreamer"), Str("Best for Last")])
  const Highest := Arr([Str("Highest in the Room"), Str("Franchise")])
  const ShapeOfYou := Arr([Str("Shape of You"), Str("Castle on the Hill")])

  const TravisScott := Hash([Entry("28", Highest)])
  const Adele := Hash([Entry("19", DayDreamer)])
  const EdSheeran := Hash([Entry("28", ShapeOfYou)])

  const Musicians := Hash([
    Entry("Travis Scott", TravisScott),
    Entry("Adele", Adele),
    Entry("Ed Sheeran", EdSheeran)
  ])

  lemma UniqPair(a: Value, b: Value)
    ensures Uniq([a, b]) == if Same(a, b) then [a] else [a, b]
  {
    assert [a, b][..1] == [a];
    UniqSingleton(a);
    assert Seen([a], b) <==> Same(a, b) by {
      assert [a][0] == a;
    }
  }

  /** The candidates for `musicians`: its own value at `key`, then one recursive result per artist. */
  lemma MusiciansRaw(key: string)
    ensures Raw(Musicians, key) ==
      [Get(Musicians.entries, key), Find(TravisScott, key, true), Find(Adele, key, true), Find(EdSheeran, key, true)]
  {
    assert Children(TravisScott, key) == [Find(TravisScott, key, true)];
    assert Children(Adele, key) == [Find(Adele, key, true)];
    assert Children(EdSheeran, key) == [Find(EdSheeran, key, true)];
    assert Nested(Musicians, 1, key) == [Find(TravisScott, key, true)];
    assert Nested(Musicians, 2, key) == [Find(TravisScott, key, true), Find(Adele, key, true)];
    assert Nested(Musicians, 3, key) ==
      [Find(TravisScott, key, true), Find(Adele, key, true), Find(EdSheeran, key, true)];
  }

  /** The filtered candidates of four raw ones. */
  lemma CompactFour(a: Value, b: Value, c: Value, d: Value)
    ensures Compact([a, b, c, d]) == Compact([a]) + Compact([b]) + Compact([c]) + Compact([d])
  {
    CompactConcat([a, b, c], [d]);
    CompactConcat([a, b], [c]);
    CompactConcat([a], [b]);
    assert [a, b, c] + [d] == [a, b, c, d];
    assert [a, b] + [c] == [a, b, c];
    assert [a] + [b] == [a, b];
  }

  lemma ArtistsFind(key: string)
    ensures Find(TravisScott, key, true) == if key == "28" then Highest else Arr([])
    ensures Find(Adele, key, true) == if key == "19" then DayDreamer else Arr([])
    ensures Find(EdSheeran, key, true) == if key == "28" then ShapeOfYou else Arr([])
  {
    LeafEntryFind("28", Highest, key, true);
    LeafEntryFind("19", DayDreamer, key, true);
    LeafEntryFind("28", ShapeOfYou, key, true);
  }

  /** `musicians.deep_find("19")` is the single array found, unwrapped. */
  lemma Find19(uniq: bool)
    ensures Find(Musicians, "19", uniq) == DayDreamer
  {
    MusiciansRaw("19");
    ArtistsFind("19");
    assert Get(Musicians.entries, "19") == Nil;
    CompactFour(Nil, Arr([]), DayDreamer, Arr([]));
    CompactSingleton(Nil);
    CompactSingleton(Arr([]));
    CompactSingleton(DayDreamer);
    assert Compact(Raw(Musicians, "19")) == [DayDreamer];
    UniqSingleton(DayDreamer);
  }

  /** `musicians.deep_find("28")` is both arrays, in order, with or without `uniq`. */
  lemma Find28(uniq: bool)
    ensures Find(Musicians, "28", uniq) == Arr([Highest, ShapeOfYou])
  {
    MusiciansRaw("28");
    ArtistsFind("28");
    assert Get(Musicians.entries, "28") == Nil;
    var raw := Raw(Musicians, "28");
    assert raw == [Nil, Highest, Arr([]), ShapeOfYou];
    CompactFour(Nil, Highest, Arr([]), ShapeOfYou);
    CompactSingleton(Nil);
    CompactSingleton(Arr([]));
    CompactSingleton(Highest);
    CompactSingleton(ShapeOfYou);
    var kept := [Highest, ShapeOfYou];
    assert Compact(raw) == kept;
    assert !Same(Highest, ShapeOfYou) by {
      assert !Same(Highest.elems[0], ShapeOfYou.elems[0]);
    }
    UniqPair(Highest, ShapeOfYou);
    assert Uniq(kept) == kept;
    assert Matches(Musicians, "28", uniq) == kept;
  }

  /** A key held at the top level only: its Hash value comes back as it is. */
  lemma FindAdele()
    ensures Find(Musicians, "Adele", true) == Adele
  {
    MusiciansRaw("Adele");
    ArtistsFind("Adele");
    assert Get(Musicians.entries, "Adele") == Adele by {
      assert "Travis Scott"[0] != "Adele"[0];
      assert Musicians.entries[1..][0] == Entry("Adele", Adele);
    }
    CompactFour(Adele, Arr([]), Arr([]), Arr([]));
    CompactSingleton(Adele);
    CompactSingleton(Arr([]));
    assert Compact(Raw(Musicians, "Adele")) == [Adele];
    UniqSingleton(Adele);
  }

  /** A key found nowhere gives the empty array, not `nil`. */
  lemma Find30()
    ensures Find(Musicians, "30", true) == Arr([])
  {
    MusiciansRaw("30");
    ArtistsFind("30");
    assert Get(Musicians.entries, "30") == Nil;
    CompactFour(Nil, Arr([]), Arr([]), Arr([]));
    CompactSingleton(Nil);
    CompactSingleton(Arr([]));
    assert Compact(Raw(Musicians, "30")) == [];
  }

  /** The candidates of a two-entry hash whose second entry is a hash. */
  lemma PairRaw(k: string, x: Value, c: string, inner: Value, key: string)
    requires Leaf(x) && inner.Hash?
    ensures Raw(Hash([Entry(k, x), Entry(c, inner)]), key) ==
      [Get([Entry(k, x), Entry(c, inner)], key), Find(inner, key, true)]
  {
    var h := Hash([Entry(k, x), Entry(c, inner)]);
    if x.Arr? { LeafElems(x, |x.elems|, key); }
    assert Children(x, key) == [];
    assert Nested(h, 1, key) == [];
    assert Nested(h, 2, key) == [Find(inner, key, true)];
  }

  /** The candidates of a hash holding a scalar `x` under `"a"` and a hash `inner` under `c`. */
  lemma PairCandidates(x: Value, c: string, inner: Value)
    requires Leaf(x) && !x.Arr? && inner.Hash? && c != "a"
    ensures Raw(Hash([Entry("a", x), Entry(c, inner)]), "a") == [x, Find(inner, "a", true)]
  {
    var es := [Entry("a", x), Entry(c, inner)];
    PairRaw("a", x, c, inner, "a");
    LookupDistinct(es, 0);
  }

  /** Two `eql?` candidates: one with `uniq`, both without. */
  lemma TwinMatches(h: Value, b: string)
    requires h.Hash? && Raw(h, "a") == [Str(b), Str(b)]
    ensures Find(h, "a", true) == Str(b)
    ensures Find(h, "a", false) == Arr([Str(b), Str(b)])
  {
    var raw := [Str(b), Str(b)];
    CompactIdentity(raw);
    UniqPair(Str(b), Str(b));
  }

  /** `{"a" => b, "c" => {"a" => b}}`: one `b` with `uniq`, both without. */
  lemma FindNewHash(b: string)
    ensures var newHash := Hash([Entry("a", Str(b)), Entry("c", Hash([Entry("a", Str(b))]))]);
      Find(newHash, "a", true) == Str(b) && Find(newHash, "a", false) == Arr([Str(b), Str(b)])
  {
    LeafEntryFind("a", Str(b), "a", true);
    PairCandidates(Str(b), "c", Hash([Entry("a", Str(b))]));
    TwinMatches(Hash([Entry("a", Str(b)), Entry("c", Hash([Entry("a", Str(b))]))]), b);
  }

  /**
   * `uniq: false` is not passed down: the middle hash is searched with
   * `uniq: true`, so its two `b` collapse into one candidate.
   */
  lemma UniqNotPassedDown(b: string)
    ensures var middle := Hash([Entry("a", Str(b)), Entry("d", Hash([Entry("a", Str(b))]))]);
      var outer := Hash([Entry("a", Str(b)), Entry("c", middle)]);
      Find(middle, "a", false) == Arr([Str(b), Str(b)]) && Find(outer, "a", false) == Arr([Str(b), Str(b)])
  {
    var middle := Hash([Entry("a", Str(b)), Entry("d", Hash([Entry("a", Str(b))]))]);
    var outer := Hash([Entry("a", Str(b)), Entry("c", middle)]);
    LeafEntryFind("a", Str(b), "a", true);
    PairCandidates(Str(b), "d", Hash([Entry("a", Str(b))]));
    TwinMatches(middle, b);
    PairCandidates(Str(b), "c", middle);
    TwinMatches(outer, b);
  }

  /** Two different candidates, none of them empty, come back as they are. */
  lemma PairMatches(h: Value, x: Value, y: Value)
    requires h.Hash? && Raw(h, "a") == [x, y] && Kept(x) && Kept(y) && !Same(x, y)
    ensures Find(h, "a", true) == Arr([x, y])
  {
    CompactIdentity([x, y]);
    UniqPair(x, y);
  }

  /** Recursive results are pushed whole: `{"a" => i, "c" => {"a" => j, "d" => {"a" => k}}}` gives `[i, [j, k]]`, not `[i, j, k]`. */
  lemma NotFlattened(i: int, j: int, k: int)
    requires j != k
    ensures var level1 := Hash([Entry("a", Int(j)), Entry("d", Hash([Entry("a", Int(k))]))]);
      var level0 := Hash([Entry("a", Int(i)), Entry("c", level1)]);
      Find(level0, "a", true) == Arr([Int(i), Arr([Int(j), Int(k)])])
  {
    var level1 := Hash([Entry("a", Int(j)), Entry("d", Hash([Entry("a", Int(k))]))]);
    var level0 := Hash([Entry("a", Int(i)), Entry("c", level1)]);
    LeafEntryFind("a", Int(k), "a", true);
    PairCandidates(Int(j), "d", Hash([Entry("a", Int(k))]));
    PairMatches(level1, Int(j), Int(k));
    var inner := Arr([Int(j), Int(k)]);
    PairCandidates(Int(i), "c", level1);
    assert Kept(inner) && !Same(Int(i), inner);
    PairMatches(level0, Int(i), inner);
  }

  /** A hash directly inside an array value is searched... */
  lemma OneArrayLevelSearched(v: Value)
    requires Kept(v) && Leaf(v)
    ensures Find(Hash([Entry("x", Arr([Hash([Entry("k", v)])]))]), "k", true) == v
  {
    var target := Hash([Entry("k", v)]);
    var h := Hash([Entry("x", Arr([target]))]);
    LeafEntryFind("k", v, "k", true);
    assert Elems(Arr([target]), 1, "k") == [v];
    assert Nested(h, 1, "k") == [v];
    assert Get(h.entries, "k") == Nil;
    var raw := [Nil, v];
    assert Raw(h, "k") == raw;
    CompactConcat([Nil], [v]);
    assert [Nil] + [v] == raw;
    CompactSingleton(Nil);
    CompactSingleton(v);
    UniqSingleton(v);
  }

  /** ...but one inside an array inside an array is not. */
  lemma NestedArrayNotSearched(v: Value)
    ensures Find(Hash([Entry("x", Arr([Arr([Hash([Entry("k", v)])])]))]), "k", true) == Arr([])
  {
    var inner := Arr([Hash([Entry("k", v)])]);
    var h := Hash([Entry("x", Arr([inner]))]);
    assert Elems(Arr([inner]), 1, "k") == [];
    assert Nested(h, 1, "k") == [];
    assert Get(h.entries, "k") == Nil;
    assert Raw(h, "k") == [Nil];
    CompactSingleton(Nil);
  }
}
