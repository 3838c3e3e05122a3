/**
 * The loop shape both scripts use again and again: walk a list, skip some
 * entries, append a transformed value for the others.
 */
module Lists {
  import opened Wrappers

  function OptionToSeq<T>(o: Option<T>): seq<T> {
    if o.Some? then [o.value] else []
  }

  /**
   * Keeps `f(x).value` for every `x` with `f(x).Some?`, in input order.
   * Defined from the back so that it follows a loop that appends.
   */
  function FilterMap<A, B>(f: A -> Option<B>, xs: seq<A>): (r: seq<B>)
    ensures |r| <= |xs|
    decreases |xs|
  {
    if xs == [] then [] else FilterMap(f, xs[..|xs| - 1]) + OptionToSeq(f(xs[|xs| - 1]))
  }

  /** One more input processed: what a loop that appends adds in iteration `i`. */
  lemma FilterMapSnoc<A, B>(f: A -> Option<B>, xs: seq<A>, i: nat)
    requires i < |xs|
    ensures FilterMap(f, xs[..i + 1]) == FilterMap(f, xs[..i]) + OptionToSeq(f(xs[i]))
  {
    assert xs[..i + 1][..i] == xs[..i];
  }

  /** Input order is preserved: the result for a concatenation is the concatenation of the results. */
  lemma {:induction false} FilterMapAppend<A, B>(f: A -> Option<B>, xs: seq<A>, ys: seq<A>)
    ensures FilterMap(f, xs + ys) == FilterMap(f, xs) + FilterMap(f, ys)
    decreases |ys|
  {
    if ys == [] {
      assert xs + ys == xs;
    } else {
      var ys' := ys[..|ys| - 1];
      assert (xs + ys)[..|xs + ys| - 1] == xs + ys';
      FilterMapAppend(f, xs, ys');
    }
  }

  /** `y` is in the result exactly when some input maps to it. */
  lemma FilterMapMember<A, B>(f: A -> Option<B>, xs: seq<A>, y: B)
    ensures y in FilterMap(f, xs) <==> exists k :: 0 <= k < |xs| && f(xs[k]) == Some(y)
  {
    if y in FilterMap(f, xs) {
      FilterMapSource(f, xs, y);
    }
    if exists k :: 0 <= k < |xs| && f(xs[k]) == Some(y) {
      var k :| 0 <= k < |xs| && f(xs[k]) == Some(y);
      FilterMapKeeps(f, xs, k);
    }
  }

  /** Every output comes from some input. */
  lemma {:induction false} FilterMapSource<A, B>(f: A -> Option<B>, xs: seq<A>, y: B)
    requires y in FilterMap(f, xs)
    ensures exists k :: 0 <= k < |xs| && f(xs[k]) == Some(y)
    decreases |xs|
  {
    var n := |xs|;
    var init := xs[..n - 1];
    if y in FilterMap(f, init) {
      FilterMapSource(f, init, y);
      var k :| 0 <= k < |init| && f(init[k]) == Some(y);
      assert xs[k] == init[k];
    } else {
      assert f(xs[n - 1]) == Some(y);
    }
  }

  /** Every input that maps to a value contributes it. */
  lemma {:induction false} FilterMapKeeps<A, B>(f: A -> Option<B>, xs: seq<A>, k: nat)
    requires k < |xs| && f(xs[k]).Some?
    ensures f(xs[k]).value in FilterMap(f, xs)
    decreases |xs|
  {
    var n := |xs|;
    if k < n - 1 {
      var init := xs[..n - 1];
      assert init[k] == xs[k];
      FilterMapKeeps(f, init, k);
    }
  }

  /** When nothing is skipped the result is the plain map. */
  lemma {:induction false} FilterMapTotal<A, B>(f: A -> Option<B>, xs: seq<A>)
    requires forall k :: 0 <= k < |xs| ==> f(xs[k]).Some?
    ensures |FilterMap(f, xs)| == |xs|
    ensures forall k :: 0 <= k < |xs| ==> FilterMap(f, xs)[k] == f(xs[k]).value
    decreases |xs|
  {
    if xs != [] {
      var init := xs[..|xs| - 1];
      assert forall k :: 0 <= k < |init| ==> init[k] == xs[k];
      FilterMapTotal(f, init);
    }
  }

  /** An entry that maps to nothing can be removed without changing the result. */
  lemma SkippedContributesNothing<A, B>(f: A -> Option<B>, xs: seq<A>, x: A, ys: seq<A>)
    requires f(x).None?
    ensures FilterMap(f, xs + [x] + ys) == FilterMap(f, xs + ys)
  {
    var left := xs + [x];
    FilterMapAppend(f, left, ys);
    assert left[..|left| - 1] == xs;
    assert FilterMap(f, left) == FilterMap(f, xs);
    FilterMapAppend(f, xs, ys);
  }
}
