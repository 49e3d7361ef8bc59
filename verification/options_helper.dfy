/**
 * `Object#options_helper(options, arry)`: the query-string builder the
 * endpoints use. It walks the option keys in order with `each_key`, and
 * appends `&<key>=` for each key the allow-list `arry` includes. `each_key`
 * yields the key alone, so the block's `v` is always `nil` and every
 * segment's value part is empty.
 */
module OptionsHelper {
  import opened Values

  const Amp: char := '&'
  const Eq: char := '='

  /** The segment one allowed key contributes: `&<key>=`. */
  function Segment(k: string): string
  {
    [Amp] + k + [Eq]
  }

  /** The query string for `keys`, in order, keeping the keys `allowed` includes. */
  function Query(keys: seq<string>, allowed: seq<string>): string
  {
    if |keys| == 0 then ""
    else (if keys[0] in allowed then Segment(keys[0]) else "") + Query(keys[1..], allowed)
  }

  /** The keys of `keys` that `allowed` includes, in order. */
  function Filter(keys: seq<string>, allowed: seq<string>): seq<string>
  {
    if |keys| == 0 then []
    else (if keys[0] in allowed then [keys[0]] else []) + Filter(keys[1..], allowed)
  }

  /** `options_helper(options, arry)` */
  method BuildParams(options: seq<Entry>, arry: seq<string>) returns (params: string)
    ensures params == Query(Keys(options), arry)
    ensures |options| == 0 ==> params == ""
  {
    var keys := Keys(options);
    params := "";
    var i := 0;
    while i < |keys|
      invariant 0 <= i <= |keys|
      invariant params + Query(keys[i..], arry) == Query(keys, arry)
    {
      var k := keys[i];
      assert keys[i..][1..] == keys[i + 1..];
      if k in arry {
        params := params + Segment(k);
      }
      i := i + 1;
    }
    assert keys[i..] == [];
  }

  predicate NoAmp(s: string)
  {
    forall i :: 0 <= i < |s| ==> s[i] != Amp
  }

  /** The longest prefix of `s` without `&`. */
  function Field(s: string): (f: string)
    ensures |f| <= |s|
  {
    if |s| == 0 || s[0] == Amp then ""
    else [s[0]] + Field(s[1..])
  }

  /** The `&`-separated fields of a query string that starts with `&`; a field runs up to the next `&`. */
  function Fields(q: string): seq<string>
    decreases |q|
  {
    if |q| == 0 then []
    else
      var f := Field(q[1..]);
      [f] + Fields(q[1 + |f|..])
  }

  lemma {:induction false} FieldStopsAtAmp(x: string, rest: string)
    requires NoAmp(x)
    requires |rest| == 0 || rest[0] == Amp
    ensures Field(x + rest) == x
    decreases |x|
  {
    if |x| > 0 {
      assert (x + rest)[1..] == x[1..] + rest;
      FieldStopsAtAmp(x[1..], rest);
      assert x == [x[0]] + x[1..];
    } else {
      assert x + rest == rest;
    }
  }

  lemma QueryStart(keys: seq<string>, allowed: seq<string>)
    ensures |Query(keys, allowed)| == 0 || Query(keys, allowed)[0] == Amp
    decreases |keys|
  {
    if |keys| > 0 {
      QueryStart(keys[1..], allowed);
    }
  }

  /** Each key followed by `=` and an empty value. */
  function Assignments(ks: seq<string>): (r: seq<string>)
    ensures |r| == |ks|
    ensures forall i :: 0 <= i < |ks| ==> r[i] == ks[i] + [Eq]
  {
    if |ks| == 0 then [] else [ks[0] + [Eq]] + Assignments(ks[1..])
  }

  lemma NoAmpAssignment(k: string)
    requires NoAmp(k)
    ensures NoAmp(k + [Eq])
  {
    assert forall i :: 0 <= i < |k| ==> (k + [Eq])[i] == k[i];
  }

  lemma SegmentTail(k: string, rest: string)
    ensures |Segment(k) + rest| > 0
    ensures (Segment(k) + rest)[1..] == (k + [Eq]) + rest
    ensures (Segment(k) + rest)[1 + |k + [Eq]|..] == rest
  {
    var q := Segment(k) + rest;
    assert q == [Amp] + ((k + [Eq]) + rest);
  }

  /** One segment splits off as one field. */
  lemma FieldsOfSegment(k: string, rest: string)
    requires NoAmp(k)
    requires |rest| == 0 || rest[0] == Amp
    ensures Fields(Segment(k) + rest) == [k + [Eq]] + Fields(rest)
  {
    var f := k + [Eq];
    NoAmpAssignment(k);
    FieldStopsAtAmp(f, rest);
    SegmentTail(k, rest);
  }

  /**
   * Round trip: splitting the query back into its fields gives exactly the
   * allowed keys, in order, each followed by `=` and an empty value.
   */
  lemma {:induction false} FieldsOfQuery(keys: seq<string>, allowed: seq<string>)
    requires forall i :: 0 <= i < |keys| ==> NoAmp(keys[i])
    ensures Fields(Query(keys, allowed)) == Assignments(Filter(keys, allowed))
    decreases |keys|
  {
    if |keys| > 0 {
      var rest := Query(keys[1..], allowed);
      var tail := Filter(keys[1..], allowed);
      FieldsOfQuery(keys[1..], allowed);
      if keys[0] in allowed {
        var k := keys[0];
        assert Query(keys, allowed) == Segment(k) + rest;
        assert Filter(keys, allowed) == [k] + tail;
        QueryStart(keys[1..], allowed);
        FieldsOfSegment(k, rest);
        assert ([k] + tail)[1..] == tail;
      } else {
        assert Query(keys, allowed) == rest;
        assert Filter(keys, allowed) == tail;
      }
    }
  }

  /** Keys outside the allow-list contribute nothing: the query is built from the allowed keys alone. */
  lemma {:induction false} QueryOfFilter(keys: seq<string>, allowed: seq<string>)
    ensures Query(keys, allowed) == Query(Filter(keys, allowed), allowed)
    decreases |keys|
  {
    if |keys| > 0 {
      QueryOfFilter(keys[1..], allowed);
      var f := Filter(keys[1..], allowed);
      if keys[0] in allowed {
        var g := [keys[0]] + f;
        assert Filter(keys, allowed) == g;
        assert g[0] == keys[0] && g[1..] == f;
        assert Query(g, allowed) == Segment(keys[0]) + Query(f, allowed);
      } else {
        assert Filter(keys, allowed) == f;
      }
    }
  }

  /** The filtered keys are exactly the keys of `keys` that `allowed` includes. */
  lemma {:induction false} FilterAllowed(keys: seq<string>, allowed: seq<string>)
    ensures forall k :: k in Filter(keys, allowed) <==> k in keys && k in allowed
    decreases |keys|
  {
    if |keys| > 0 {
      FilterAllowed(keys[1..], allowed);
      assert keys == [keys[0]] + keys[1..];
    }
  }

  /** Total length of the segments of `ks`: each key plus its `&` and `=`. */
  function SegmentsLength(ks: seq<string>): nat
  {
    if |ks| == 0 then 0 else |ks[0]| + 2 + SegmentsLength(ks[1..])
  }

  /** The result length is the sum over allowed keys of the key's length plus two. */
  lemma {:induction false} QueryLength(keys: seq<string>, allowed: seq<string>)
    ensures |Query(keys, allowed)| == SegmentsLength(Filter(keys, allowed))
    decreases |keys|
  {
    if |keys| > 0 {
      QueryLength(keys[1..], allowed);
      var f := Filter(keys[1..], allowed);
      if keys[0] in allowed {
        var g := [keys[0]] + f;
        assert Filter(keys, allowed) == g;
        assert g[0] == keys[0] && g[1..] == f;
      } else {
        assert Filter(keys, allowed) == f;
      }
    }
  }

  /** Only allowed keys can appear: with no allowed key among the options the query is empty. */
  lemma {:induction false} QueryNoneAllowed(keys: seq<string>, allowed: seq<string>)
    requires forall i :: 0 <= i < |keys| ==> keys[i] !in allowed
    ensures Query(keys, allowed) == ""
    decreases |keys|
  {
    if |keys| > 0 {
      QueryNoneAllowed(keys[1..], allowed);
    }
  }
}
