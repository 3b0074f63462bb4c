/** Order-preserving filtering of a sequence, and the exact characterisation of
    its result as the in-order subsequence of the kept elements.

    Both scans of the search (the lines of one note, the entries of the notes
    directory) keep some elements of a sequence, in order, and drop the rest.
    The definitions here recurse on the last element, which is the order in
    which a forward loop visits them. */
module Filter {

  datatype Option<+T> = None | Some(value: T)

  /** The values `f` keeps, in the order of `s`. */
  function FilterMap<A, B>(s: seq<A>, f: A -> Option<B>): (r: seq<B>)
    ensures |r| <= |s|
  {
    if |s| == 0 then []
    else
      var last := s[|s| - 1];
      FilterMap(s[..|s| - 1], f) + (if f(last).Some? then [f(last).value] else [])
  }

  /** The positions of `s` whose element `f` keeps, in increasing order. */
  function KeptIndices<A, B>(s: seq<A>, f: A -> Option<B>): (idx: seq<nat>)
    ensures |idx| <= |s|
    ensures forall k :: 0 <= k < |idx| ==> idx[k] < |s|
  {
    if |s| == 0 then []
    else KeptIndices(s[..|s| - 1], f) + (if f(s[|s| - 1]).Some? then [|s| - 1] else [])
  }

  ghost predicate StrictlyIncreasing(idx: seq<nat>) {
    forall i, j :: 0 <= i < j < |idx| ==> idx[i] < idx[j]
  }

  /** `r` is exactly what `f` keeps of `s`, taken at the positions `idx`:
      the positions increase, each names an element of `s` that `f` maps to
      the corresponding element of `r`, and every kept position is among them. */
  ghost predicate IsFilteredSubsequence<A, B>(s: seq<A>, f: A -> Option<B>, idx: seq<nat>, r: seq<B>) {
    && |idx| == |r|
    && StrictlyIncreasing(idx)
    && (forall k :: 0 <= k < |idx| ==> idx[k] < |s| && f(s[idx[k]]) == Some(r[k]))
    && (forall j :: 0 <= j < |s| && f(s[j]).Some? ==> j in idx)
  }

  /** Existence: FilterMap and KeptIndices are a filtered subsequence. */
  lemma {:induction false} FilterMapIsFilteredSubsequence<A, B>(s: seq<A>, f: A -> Option<B>)
    ensures IsFilteredSubsequence(s, f, KeptIndices(s, f), FilterMap(s, f))
  {
    if |s| > 0 {
      var init := s[..|s| - 1];
      FilterMapIsFilteredSubsequence(init, f);
      var idx, r := KeptIndices(s, f), FilterMap(s, f);
      var idx0, r0 := KeptIndices(init, f), FilterMap(init, f);
      forall k | 0 <= k < |idx0|
        ensures idx[k] < |s| && f(s[idx[k]]) == Some(r[k])
      {
        assert idx[k] == idx0[k] && r[k] == r0[k] && s[idx0[k]] == init[idx0[k]];
      }
      forall j | 0 <= j < |s| && f(s[j]).Some?
        ensures j in idx
      {
        if j < |s| - 1 {
          assert init[j] == s[j];
          assert j in idx0;
        } else {
          assert idx[|idx| - 1] == j;
        }
      }
    }
  }

  /** Uniqueness: any filtered subsequence of `s` under `f` is FilterMap's,
      taken at KeptIndices. */
  lemma {:induction false} FilteredSubsequenceUnique<A, B>(s: seq<A>, f: A -> Option<B>, idx: seq<nat>, r: seq<B>)
    requires IsFilteredSubsequence(s, f, idx, r)
    ensures idx == KeptIndices(s, f) && r == FilterMap(s, f)
  {
    if |s| == 0 {
      if |idx| > 0 {
        assert false;
      }
    } else if f(s[|s| - 1]).Some? {
      LastKept(s, f, idx, r);
      FilteredSubsequenceUnique(s[..|s| - 1], f, idx[..|idx| - 1], r[..|r| - 1]);
      assert idx == idx[..|idx| - 1] + [idx[|idx| - 1]];
      assert r == r[..|r| - 1] + [r[|r| - 1]];
    } else {
      LastDropped(s, f, idx, r);
      FilteredSubsequenceUnique(s[..|s| - 1], f, idx, r);
    }
  }

  /** When the last element is kept, it is the last selected one, and the
      rest is a filtered subsequence of the shorter sequence. */
  lemma LastKept<A, B>(s: seq<A>, f: A -> Option<B>, idx: seq<nat>, r: seq<B>)
    requires IsFilteredSubsequence(s, f, idx, r)
    requires |s| > 0 && f(s[|s| - 1]).Some?
    ensures |idx| > 0 && idx[|idx| - 1] == |s| - 1 && f(s[|s| - 1]) == Some(r[|r| - 1])
    ensures IsFilteredSubsequence(s[..|s| - 1], f, idx[..|idx| - 1], r[..|r| - 1])
  {
    var n := |s| - 1;
    assert n in idx;
    var p :| 0 <= p < |idx| && idx[p] == n;
    assert idx[|idx| - 1] < |s|;
    if p < |idx| - 1 {
      assert false;
    }
    var init, idx0, r0 := s[..n], idx[..|idx| - 1], r[..|r| - 1];
    forall k | 0 <= k < |idx0|
      ensures idx0[k] < |init| && f(init[idx0[k]]) == Some(r0[k])
    {
      assert idx0[k] < idx[p];
    }
    forall j | 0 <= j < |init| && f(init[j]).Some?
      ensures j in idx0
    {
      assert s[j] == init[j];
      var q :| 0 <= q < |idx| && idx[q] == j;
      assert idx0[q] == j;
    }
  }

  /** When the last element is dropped, no selected position names it. */
  lemma LastDropped<A, B>(s: seq<A>, f: A -> Option<B>, idx: seq<nat>, r: seq<B>)
    requires IsFilteredSubsequence(s, f, idx, r)
    requires |s| > 0 && f(s[|s| - 1]).None?
    ensures IsFilteredSubsequence(s[..|s| - 1], f, idx, r)
  {
    var init := s[..|s| - 1];
    forall k | 0 <= k < |idx|
      ensures idx[k] < |init| && f(init[idx[k]]) == Some(r[k])
    {
      assert idx[k] != |s| - 1;
    }
    forall j | 0 <= j < |init| && f(init[j]).Some?
      ensures j in idx
    {
      assert s[j] == init[j];
    }
  }

  /** Filtering distributes over concatenation. */
  lemma {:induction false} FilterMapAppend<A, B>(a: seq<A>, b: seq<A>, f: A -> Option<B>)
    ensures FilterMap(a + b, f) == FilterMap(a, f) + FilterMap(b, f)
  {
    if |b| > 0 {
      var b0 := b[..|b| - 1];
      FilterMapAppend(a, b0, f);
      assert (a + b)[..|a + b| - 1] == a + b0;
    } else {
      assert a + b == a;
    }
  }

  /** Nothing is kept exactly when `f` keeps no element. */
  lemma {:induction false} FilterMapEmpty<A, B>(s: seq<A>, f: A -> Option<B>)
    ensures FilterMap(s, f) == [] <==> forall j :: 0 <= j < |s| ==> f(s[j]).None?
  {
    if |s| > 0 {
      var init := s[..|s| - 1];
      FilterMapEmpty(init, f);
      assert forall j :: 0 <= j < |init| ==> init[j] == s[j];
    }
  }

  /** What `f` keeps of one element, as a sequence. */
  function Kept<A, B>(x: A, f: A -> Option<B>): seq<B> {
    if f(x).Some? then [f(x).value] else []
  }

  /** A three-element sequence keeps what `f` keeps of each element. */
  lemma FilterMapThree<A, B>(x: A, y: A, z: A, f: A -> Option<B>)
    ensures FilterMap([x, y, z], f) == Kept(x, f) + Kept(y, f) + Kept(z, f)
  {
    assert [x][..0] == [];
    assert FilterMap([x], f) == Kept(x, f);
    assert [x, y][..1] == [x];
    assert FilterMap([x, y], f) == Kept(x, f) + Kept(y, f);
    assert [x, y, z][..2] == [x, y];
  }

  /** A one-element sequence keeps its element exactly when `f` does. */
  lemma SingletonFilter<A, B>(x: A, f: A -> Option<B>)
    ensures FilterMap([x], f) == if f(x).Some? then [f(x).value] else []
  {
    assert [x][..0] == [];
  }
}
