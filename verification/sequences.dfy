/** Filtering a sequence while mapping what is kept: the shape of every
    "loop over the array, test, push" in the console's helpers. */
module Sequences {

  /** The positions of `s` whose element passes `keep`, in increasing order. */
  function KeptIndices<A>(s: seq<A>, keep: A -> bool): (idx: seq<nat>)
    ensures forall k :: 0 <= k < |idx| ==> idx[k] < |s| && keep(s[idx[k]])
    ensures forall k, l :: 0 <= k < l < |idx| ==> idx[k] < idx[l]
    ensures forall i :: 0 <= i < |s| && keep(s[i]) ==> i in idx
  {
    if |s| == 0 then []
    else
      var prev := KeptIndices(s[..|s| - 1], keep);
      assert forall i :: 0 <= i < |s| - 1 ==> s[..|s| - 1][i] == s[i];
      if keep(s[|s| - 1]) then prev + [|s| - 1] else prev
  }

  /** The first kept position is the first position whose element passes
      `keep`: none before it does. */
  lemma KeptIndicesStartAtFirstKept<A>(s: seq<A>, keep: A -> bool)
    ensures forall i :: 0 <= i < |s| && keep(s[i]) ==>
              |KeptIndices(s, keep)| > 0 && KeptIndices(s, keep)[0] <= i
  {
    var idx := KeptIndices(s, keep);
    forall i | 0 <= i < |s| && keep(s[i]) ensures |idx| > 0 && idx[0] <= i {
      assert i in idx;
      var k :| 0 <= k < |idx| && idx[k] == i;
      if k > 0 {
        assert idx[0] < idx[k];
      }
    }
  }

  /** `f` applied to the elements of `s` that pass `keep`, in the order of `s`. */
  function FilterMap<A, B>(s: seq<A>, keep: A -> bool, f: A -> B): seq<B>
  {
    if |s| == 0 then []
    else FilterMap(s[..|s| - 1], keep, f) + (if keep(s[|s| - 1]) then [f(s[|s| - 1])] else [])
  }

  /** FilterMap yields, in order, exactly the images of the kept elements:
      its k-th element is `f` of the k-th kept element of `s`. */
  lemma {:induction false} FilterMapIsKeptImage<A, B>(s: seq<A>, keep: A -> bool, f: A -> B)
    ensures |FilterMap(s, keep, f)| == |KeptIndices(s, keep)| <= |s|
    ensures forall k :: 0 <= k < |KeptIndices(s, keep)| ==>
              FilterMap(s, keep, f)[k] == f(s[KeptIndices(s, keep)[k]])
  {
    if |s| > 0 {
      var init := s[..|s| - 1];
      var last := s[|s| - 1];
      FilterMapIsKeptImage(init, keep, f);
      KeptIndicesBound(s, keep);
      var prev, pm := KeptIndices(init, keep), FilterMap(init, keep, f);
      var idx, r := KeptIndices(s, keep), FilterMap(s, keep, f);
      if keep(last) {
        assert idx == prev + [|s| - 1] && r == pm + [f(last)];
        forall k | 0 <= k < |idx| ensures r[k] == f(s[idx[k]]) {
          if k < |prev| {
            assert r[k] == pm[k] && idx[k] == prev[k] && init[prev[k]] == s[prev[k]];
          }
        }
      } else {
        assert idx == prev && r == pm;
        forall k | 0 <= k < |idx| ensures r[k] == f(s[idx[k]]) {
          assert init[prev[k]] == s[prev[k]];
        }
      }
    }
  }

  /** There are never more kept positions than positions. */
  lemma {:induction false} KeptIndicesBound<A>(s: seq<A>, keep: A -> bool)
    ensures |KeptIndices(s, keep)| <= |s|
  {
    if |s| > 0 {
      KeptIndicesBound(s[..|s| - 1], keep);
    }
  }

  /** The identity, for a filter that keeps elements as they are. */
  function Id<T>(x: T): T {
    x
  }

  /** Appending one element appends its image, if it is kept, and nothing
      else. */
  lemma FilterMapSnoc<A, B>(s: seq<A>, x: A, keep: A -> bool, f: A -> B)
    ensures FilterMap(s + [x], keep, f) == FilterMap(s, keep, f) + (if keep(x) then [f(x)] else [])
  {
    assert (s + [x])[..|s|] == s;
  }

  /** When every element is kept, FilterMap is the plain map of `f`. */
  lemma {:induction false} FilterMapAllKept<A, B>(s: seq<A>, keep: A -> bool, f: A -> B)
    requires forall i :: 0 <= i < |s| ==> keep(s[i])
    ensures |FilterMap(s, keep, f)| == |s|
    ensures forall i :: 0 <= i < |s| ==> FilterMap(s, keep, f)[i] == f(s[i])
  {
    if |s| > 0 {
      var init := s[..|s| - 1];
      assert forall i :: 0 <= i < |init| ==> init[i] == s[i];
      FilterMapAllKept(init, keep, f);
    }
  }

  /** Running `step` over `ds` from state `s`, in order, collecting what
      every step emits: the shape of "for each item, update the state and
      send events". */
  function FoldSteps<S, D, E>(step: (S, D) -> (S, seq<E>), s: S, ds: seq<D>): (S, seq<E>)
  {
    if |ds| == 0 then (s, [])
    else
      var prev := FoldSteps(step, s, ds[..|ds| - 1]);
      var last := step(prev.0, ds[|ds| - 1]);
      (last.0, prev.1 + last.1)
  }

  /** One more item: the state and events after the first `i + 1` items
      are those after the first `i`, followed by one step on item `i`. */
  lemma FoldStepsSnoc<S, D, E>(step: (S, D) -> (S, seq<E>), s0: S, ds: seq<D>, i: nat,
                               s: S, e0: seq<E>, e: seq<E>, s': S, e': seq<E>)
    requires i < |ds|
    requires s == FoldSteps(step, s0, ds[..i]).0 && e == e0 + FoldSteps(step, s0, ds[..i]).1
    requires s' == step(s, ds[i]).0 && e' == e + step(s, ds[i]).1
    ensures s' == FoldSteps(step, s0, ds[..i + 1]).0
    ensures e' == e0 + FoldSteps(step, s0, ds[..i + 1]).1
  {
    assert ds[..i + 1][..i] == ds[..i];
  }
}
