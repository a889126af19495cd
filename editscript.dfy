/** The edit script the adapter dispatches after filtering. The script itself
    comes from `DiffUtil.calculateDiff`, whose algorithm is not part of this
    model; here it is specified by its contract (old list = the buffer, new
    list = the filtered lines, items the same when structurally equal) and one
    script meeting that contract is constructed: since the new list is a
    subsequence of the old one, removals alone suffice. */
module EditScript {
  import opened Wrappers

  /** `a` is `b` with some elements left out, order kept. */
  predicate IsSubsequence<T(==)>(a: seq<T>, b: seq<T>)
    decreases |b|
  {
    a == [] ||
    (b != [] && ((a[0] == b[0] && IsSubsequence(a[1..], b[1..])) || IsSubsequence(a, b[1..])))
  }

  /** Applies removals one after another, each position read against the list
      as changed so far (the way RecyclerView receives `notifyItemRemoved`);
      `None` when a position is out of range. A script that succeeds takes
      away one element per position and adds nothing, so no removal-only
      script between two lists is shorter than their length difference. */
  function ApplyRemovals<T>(s: seq<T>, removals: seq<nat>): (r: Option<seq<T>>)
    decreases |removals|
    ensures removals == [] ==> r == Some(s)
    ensures r.Some? ==> |r.value| + |removals| == |s|
  {
    if removals == [] then Some(s)
    else if removals[0] < |s| then
      var k := removals[0];
      ApplyRemovals(s[..k] + s[k + 1..], removals[1..])
    else None
  }

  /** The removal script from `src` to `dst`, positions counted from `at`:
      keep the head when it is the next wanted item, otherwise remove it. */
  function RemovalsFrom<T(==)>(src: seq<T>, dst: seq<T>, at: nat): seq<nat>
    decreases |src|
  {
    if src == [] then []
    else if dst != [] && src[0] == dst[0] then RemovalsFrom(src[1..], dst[1..], at + 1)
    else [at] + RemovalsFrom(src[1..], dst, at)
  }

  /** The script transforming `src` into its subsequence `dst`. It meets
      DiffUtil's contract: applied to the old list it yields exactly the new
      list, removing exactly the surplus elements. */
  function Diff<T(==)>(src: seq<T>, dst: seq<T>): (r: seq<nat>)
    ensures IsSubsequence(dst, src) ==> ApplyRemovals(src, r) == Some(dst)
    ensures IsSubsequence(dst, src) ==> |r| == |src| - |dst|
  {
    if IsSubsequence(dst, src) then
      RemovalsFromApply([], src, dst);
      assert [] + src == src && [] + dst == dst;
      RemovalsFrom(src, dst, 0)
    else
      RemovalsFrom(src, dst, 0)
  }

  /** Leaving out the first element keeps a subsequence a subsequence. */
  lemma {:induction false} SubsequenceDropHead<T>(a: seq<T>, b: seq<T>)
    requires a != [] && IsSubsequence(a, b)
    ensures IsSubsequence(a[1..], b)
    decreases |b|
  {
    if a[0] == b[0] && IsSubsequence(a[1..], b[1..]) {
      if a[1..] != [] {
        assert a[1..] != [] && b != [] && IsSubsequence(a[1..], b[1..]);
      }
    } else {
      SubsequenceDropHead(a, b[1..]);
    }
  }

  /** Every sequence is a subsequence of itself. */
  lemma {:induction false} SubsequenceReflexive<T>(a: seq<T>)
    ensures IsSubsequence(a, a)
    decreases |a|
  {
    if a != [] {
      SubsequenceReflexive(a[1..]);
    }
  }

  /** A subsequence is no longer than the sequence it comes from. */
  lemma {:induction false} SubsequenceLength<T>(a: seq<T>, b: seq<T>)
    requires IsSubsequence(a, b)
    ensures |a| <= |b|
    decreases |b|
  {
    if a != [] {
      if a[0] == b[0] && IsSubsequence(a[1..], b[1..]) {
        SubsequenceLength(a[1..], b[1..]);
      } else {
        SubsequenceLength(a, b[1..]);
      }
    }
  }

  /** Every element of a subsequence is an element of the sequence. */
  lemma {:induction false} SubsequenceMembers<T>(a: seq<T>, b: seq<T>, x: T)
    requires IsSubsequence(a, b) && x in a
    ensures x in b
    decreases |b|
  {
    if a[0] == b[0] && IsSubsequence(a[1..], b[1..]) {
      if x != a[0] {
        SubsequenceMembers(a[1..], b[1..], x);
      }
    } else {
      SubsequenceMembers(a, b[1..], x);
    }
  }

  /** The constructed script, applied after an untouched prefix, turns
      `prefix + src` into `prefix + dst`. */
  lemma {:induction false} RemovalsFromApply<T>(prefix: seq<T>, src: seq<T>, dst: seq<T>)
    requires IsSubsequence(dst, src)
    ensures ApplyRemovals(prefix + src, RemovalsFrom(src, dst, |prefix|)) == Some(prefix + dst)
    ensures |RemovalsFrom(src, dst, |prefix|)| == |src| - |dst|
    decreases |src|
  {
    SubsequenceLength(dst, src);
    if src == [] {
    } else if dst != [] && src[0] == dst[0] {
      if !IsSubsequence(dst[1..], src[1..]) {
        SubsequenceDropHead(dst, src[1..]);
      }
      RemovalsFromApply(prefix + [src[0]], src[1..], dst[1..]);
      assert prefix + [src[0]] + src[1..] == prefix + src;
      assert prefix + [src[0]] + dst[1..] == prefix + dst;
    } else {
      var s := prefix + src;
      assert s[..|prefix|] + s[|prefix| + 1..] == prefix + src[1..];
      RemovalsFromApply(prefix, src[1..], dst);
    }
  }

  /** Diffing a list against itself yields the empty script. */
  lemma DiffOfSame<T>(s: seq<T>)
    ensures Diff(s, s) == []
  {
    SubsequenceReflexive(s);
  }
}
