/**
 * The array operations the pages build on: `filter`, `map` and `find` of JavaScript arrays,
 * as total functions on sequences, with the order facts the pages rely on.
 */
module Lists {
  import opened Types

  /** `xs` can be obtained from `ys` by deleting elements: same elements, same relative order. */
  ghost predicate IsSubsequence<T>(xs: seq<T>, ys: seq<T>)
    decreases |ys|
  {
    if xs == [] then true
    else if ys == [] then false
    else if xs[0] == ys[0] then IsSubsequence(xs[1..], ys[1..])
    else IsSubsequence(xs, ys[1..])
  }

  /** `Array.prototype.filter`: the elements satisfying `p`, in their original order. */
  function Filter<T>(p: T -> bool, s: seq<T>): (r: seq<T>)
    ensures |r| <= |s|
  {
    if s == [] then []
    else if p(s[0]) then [s[0]] + Filter(p, s[1..])
    else Filter(p, s[1..])
  }

  /** `Array.prototype.map`. */
  function Map<T, U>(f: T -> U, s: seq<T>): (r: seq<U>)
    ensures |r| == |s|
  {
    if s == [] then [] else [f(s[0])] + Map(f, s[1..])
  }

  /** `Array.prototype.find`: the first element satisfying `p`, if any. */
  function Find<T>(p: T -> bool, s: seq<T>): (r: Option<T>)
    ensures r.Some? ==> p(r.value) && r.value in s
  {
    if s == [] then None
    else if p(s[0]) then Some(s[0])
    else Find(p, s[1..])
  }

  /** How many elements of `s` satisfy `p`. */
  function Count<T>(p: T -> bool, s: seq<T>): (n: nat)
    ensures n <= |s|
  {
    if s == [] then 0 else (if p(s[0]) then 1 else 0) + Count(p, s[1..])
  }

  lemma {:induction false} SubsequenceRefl<T>(s: seq<T>)
    ensures IsSubsequence(s, s)
    decreases |s|
  {
    if s != [] {
      SubsequenceRefl(s[1..]);
    }
  }

  /** Being a subsequence is transitive: a selection of a selection is a selection. */
  lemma {:induction false} SubsequenceTrans<T>(xs: seq<T>, ys: seq<T>, zs: seq<T>)
    requires IsSubsequence(xs, ys) && IsSubsequence(ys, zs)
    ensures IsSubsequence(xs, zs)
    decreases |zs|
  {
    if xs != [] && zs != [] {
      assert ys != [];
      if ys[0] == zs[0] {
        if xs[0] == ys[0] {
          SubsequenceTrans(xs[1..], ys[1..], zs[1..]);
        } else {
          SubsequenceTrans(xs, ys[1..], zs[1..]);
        }
      } else {
        SubsequenceTrans(xs, ys, zs[1..]);
        if xs[0] == zs[0] {
          SubsequenceDropHead(xs, zs[1..]);
        }
      }
    }
  }

  /** Dropping the first element of a subsequence leaves a subsequence. */
  lemma {:induction false} SubsequenceDropHead<T>(xs: seq<T>, ys: seq<T>)
    requires xs != [] && IsSubsequence(xs, ys)
    ensures IsSubsequence(xs[1..], ys)
    decreases |ys|, 1
  {
    if xs[0] != ys[0] {
      SubsequenceDropHead(xs, ys[1..]);
    }
    SubsequenceWeaken(xs[1..], ys);
  }

  /** A subsequence of the tail of `ys` is a subsequence of `ys`. */
  lemma {:induction false} SubsequenceWeaken<T>(xs: seq<T>, ys: seq<T>)
    requires ys != [] && IsSubsequence(xs, ys[1..])
    ensures IsSubsequence(xs, ys)
    decreases |ys|, 0
  {
    if xs != [] && xs[0] == ys[0] {
      SubsequenceDropHead(xs, ys[1..]);
    }
  }

  /** Every prefix (a `slice(0, k)`) is a subsequence. */
  lemma {:induction false} PrefixIsSubsequence<T>(s: seq<T>, k: nat)
    requires k <= |s|
    ensures IsSubsequence(s[..k], s)
    decreases |s|
  {
    if k > 0 {
      assert s[..k][1..] == s[1..][..k - 1];
      PrefixIsSubsequence(s[1..], k - 1);
    }
  }

  /** Membership in a filter result: exactly the elements of `s` that satisfy `p`. */
  lemma {:induction false} FilterMembership<T>(p: T -> bool, s: seq<T>)
    ensures forall x :: x in Filter(p, s) <==> x in s && p(x)
    decreases |s|
  {
    if s != [] {
      FilterMembership(p, s[1..]);
      assert s == [s[0]] + s[1..];
    }
  }

  /** A filter result keeps the original order: it is a subsequence of its input. */
  lemma {:induction false} FilterIsSubsequence<T>(p: T -> bool, s: seq<T>)
    ensures IsSubsequence(Filter(p, s), s)
    decreases |s|
  {
    if s != [] {
      FilterIsSubsequence(p, s[1..]);
      if p(s[0]) {
        assert Filter(p, s)[1..] == Filter(p, s[1..]);
      } else if Filter(p, s) != [] {
        FilterMembership(p, s[1..]);
        assert Filter(p, s)[0] in Filter(p, s[1..]);
      }
    }
  }

  /** A filter drops exactly the elements that fail `p`. */
  lemma {:induction false} FilterLength<T>(p: T -> bool, s: seq<T>)
    ensures |Filter(p, s)| == Count(p, s)
    decreases |s|
  {
    if s != [] {
      FilterLength(p, s[1..]);
    }
  }

  /** A filter whose predicate every element satisfies returns its input unchanged. */
  lemma {:induction false} FilterAll<T>(p: T -> bool, s: seq<T>)
    requires forall x :: x in s ==> p(x)
    ensures Filter(p, s) == s
    decreases |s|
  {
    if s != [] {
      assert forall x :: x in s[1..] ==> x in s;
      FilterAll(p, s[1..]);
    }
  }

  /** Filtering twice by the same predicate is filtering once. */
  lemma {:induction false} FilterIdempotent<T>(p: T -> bool, s: seq<T>)
    ensures Filter(p, Filter(p, s)) == Filter(p, s)
    decreases |s|
  {
    if s != [] {
      FilterIdempotent(p, s[1..]);
      if p(s[0]) {
        assert Filter(p, s)[1..] == Filter(p, s[1..]);
      }
    }
  }

  /** Element-wise meaning of `map`. */
  lemma {:induction false} MapAt<T, U>(f: T -> U, s: seq<T>, i: nat)
    requires i < |s|
    ensures Map(f, s)[i] == f(s[i])
    decreases |s|
  {
    if i > 0 {
      MapAt(f, s[1..], i - 1);
    }
  }

  /** Mapping a function that fixes every element leaves the sequence unchanged. */
  lemma {:induction false} MapIdentity<T>(f: T -> T, s: seq<T>)
    requires forall x :: x in s ==> f(x) == x
    ensures Map(f, s) == s
    decreases |s|
  {
    if s != [] {
      assert forall x :: x in s[1..] ==> x in s;
      MapIdentity(f, s[1..]);
    }
  }

  /**
   * `find` returns the FIRST match: `None` exactly when nothing matches, otherwise the element
   * at some index `i` that matches while no earlier element does.
   */
  lemma {:induction false} FindFirst<T>(p: T -> bool, s: seq<T>)
    ensures Find(p, s).None? <==> forall i :: 0 <= i < |s| ==> !p(s[i])
    ensures Find(p, s).Some? ==>
      exists i :: 0 <= i < |s| && s[i] == Find(p, s).value && forall j :: 0 <= j < i ==> !p(s[j])
    decreases |s|
  {
    if s != [] {
      FindFirst(p, s[1..]);
      if !p(s[0]) && Find(p, s[1..]).Some? {
        var i :| 0 <= i < |s[1..]| && s[1..][i] == Find(p, s[1..]).value
          && forall j :: 0 <= j < i ==> !p(s[1..][j]);
        assert s[i + 1] == Find(p, s).value;
        assert forall j :: 0 <= j < i + 1 ==> !p(s[j]) by {
          forall j | 0 <= j < i + 1 ensures !p(s[j]) {
            if j > 0 { assert s[j] == s[1..][j - 1]; }
          }
        }
      }
      if Find(p, s).None? {
        forall i | 0 <= i < |s| ensures !p(s[i]) {
          if i > 0 { assert s[i] == s[1..][i - 1]; }
        }
      }
    }
  }
}
