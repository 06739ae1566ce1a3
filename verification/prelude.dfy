/** Shared vocabulary of the bridge model: optional values and results,
    the ASCII character classes the key synthesiser relies on, substring
    search in the style of Python's `in` and `str.split`, and an
    order-preserving filter over sequences. */
module Prelude {

  datatype Option<+T> = None | Some(value: T) {
    /** The value, or `default` when absent (Python's `d.get(k, default)`). */
    function GetOr(default: T): T {
      match this
      case Some(v) => v
      case None => default
    }
  }

  datatype Result<+T, +E> = Ok(value: T) | Err(error: E)

  // ---------------------------------------------------------------------
  // ASCII character classes. The model restricts `str.isupper`, `isalpha`,
  // `isdigit`, `upper` and `lower` to ASCII; every other code point is
  // neither a letter nor a digit and has no case.
  // ---------------------------------------------------------------------

  predicate IsUpper(c: char) { 'A' <= c <= 'Z' }
  predicate IsLower(c: char) { 'a' <= c <= 'z' }
  predicate IsAlpha(c: char) { IsUpper(c) || IsLower(c) }
  predicate IsDigit(c: char) { '0' <= c <= '9' }

  function ToUpper(c: char): char {
    if IsLower(c) then (c as int - 32) as char else c
  }

  function ToLower(c: char): char {
    if IsUpper(c) then (c as int + 32) as char else c
  }

  /** `s.lower()` restricted to ASCII. */
  function Lower(s: string): string {
    seq(|s|, i requires 0 <= i < |s| => ToLower(s[i]))
  }

  lemma LowerIdempotent(s: string)
    ensures Lower(Lower(s)) == Lower(s)
  {
  }

  // ---------------------------------------------------------------------
  // Substring search
  // ---------------------------------------------------------------------

  /** `pat` occurs in `s` starting at index `i`. */
  predicate OccursAt(s: string, pat: string, i: nat) {
    i + |pat| <= |s| && s[i..i + |pat|] == pat
  }

  function FindFrom(s: string, pat: string, i: nat): (r: Option<nat>)
    requires i <= |s|
    ensures r.Some? ==> i <= r.value && OccursAt(s, pat, r.value)
    ensures forall j: nat :: i <= j && (r.None? || j < r.value) ==> !OccursAt(s, pat, j)
    decreases |s| - i
  {
    if OccursAt(s, pat, i) then Some(i)
    else if |s| <= i + |pat| then None
    else FindFrom(s, pat, i + 1)
  }

  /** Index of the first occurrence of `pat` in `s` (`s.find(pat)`). */
  function Find(s: string, pat: string): (r: Option<nat>)
    ensures r.Some? ==> OccursAt(s, pat, r.value)
    ensures forall j: nat :: (r.None? || j < r.value) ==> !OccursAt(s, pat, j)
  {
    FindFrom(s, pat, 0)
  }

  /** Python's `pat in s`. */
  predicate Contains(s: string, pat: string) {
    Find(s, pat).Some?
  }

  /** Python's `pat in s` holds exactly when `pat` occurs somewhere in `s`. */
  lemma ContainsIffOccurs(s: string, pat: string)
    ensures Contains(s, pat) <==> exists i: nat :: OccursAt(s, pat, i)
  {
  }

  /** The first piece and, when the separator occurs, the rest of
      `s.split(sep, 1)`. Python refuses an empty separator. */
  function SplitFirst(s: string, sep: string): (r: (string, Option<string>))
    requires |sep| > 0
    ensures r.1.None? ==> r.0 == s && !Contains(s, sep)
    ensures r.1.Some? ==> s == r.0 + sep + r.1.value
    ensures forall j: nat :: j < |r.0| ==> !OccursAt(s, sep, j)
  {
    match Find(s, sep)
    case None => (s, None)
    case Some(i) =>
      assert s == s[..i] + sep + s[i + |sep|..];
      (s[..i], Some(s[i + |sep|..]))
  }

  /** If `sep` begins with a character absent from `a` and `b` begins
      with `sep`, the first `sep` in `a + b` is where `b` begins. */
  lemma SplitAtBoundary(a: string, b: string, sep: string)
    requires 0 < |sep| <= |b| && sep[0] !in a && b[..|sep|] == sep
    ensures Find(a + b, sep) == Some(|a|)
    ensures SplitFirst(a + b, sep) == (a, Some(b[|sep|..]))
  {
    var s := a + b;
    assert s[|a|..|a| + |sep|] == b[..|sep|];
    assert OccursAt(s, sep, |a|);
    forall j: nat | j < |a|
      ensures !OccursAt(s, sep, j)
    {
      assert s[j] == a[j] != sep[0];
      if j + |sep| <= |s| {
        assert s[j..j + |sep|][0] != sep[0];
      }
    }
    assert s[..|a|] == a;
    assert s[|a| + |sep|..] == b[|sep|..];
  }

  /** A non-empty sequence is its front followed by its last element. */
  lemma FrontLast<T>(s: seq<T>)
    requires |s| > 0
    ensures s[..|s| - 1] + [s[|s| - 1]] == s
  {
  }

  // ---------------------------------------------------------------------
  // Order-preserving filter (a Python list comprehension with an `if`)
  // ---------------------------------------------------------------------

  function Filter<T>(xs: seq<T>, p: T -> bool): (ys: seq<T>)
    ensures |ys| <= |xs|
    ensures forall y :: y in ys ==> y in xs && p(y)
  {
    if |xs| == 0 then [] else (if p(xs[0]) then [xs[0]] else []) + Filter(xs[1..], p)
  }

  /** Filtering distributes over concatenation: relative order is kept. */
  lemma {:induction false} FilterAppend<T>(xs: seq<T>, ys: seq<T>, p: T -> bool)
    ensures Filter(xs + ys, p) == Filter(xs, p) + Filter(ys, p)
  {
    if |xs| == 0 {
      assert xs + ys == ys;
    } else {
      assert (xs + ys)[1..] == xs[1..] + ys;
      FilterAppend(xs[1..], ys, p);
    }
  }

  /** Every element of `xs` that satisfies `p` is kept. */
  lemma {:induction false} FilterKeeps<T>(xs: seq<T>, p: T -> bool, i: nat)
    requires i < |xs| && p(xs[i])
    ensures xs[i] in Filter(xs, p)
  {
    if i > 0 {
      FilterKeeps(xs[1..], p, i - 1);
    }
  }

  /** The filter is empty exactly when no element satisfies `p`. */
  lemma {:induction false} FilterEmpty<T>(xs: seq<T>, p: T -> bool)
    ensures |Filter(xs, p)| == 0 <==> forall j :: 0 <= j < |xs| ==> !p(xs[j])
  {
    if |xs| > 0 {
      FilterEmpty(xs[1..], p);
      assert forall j :: 1 <= j < |xs| ==> xs[j] == xs[1..][j - 1];
    }
  }

  /** The head of the filter is the first element satisfying `p`. */
  lemma {:induction false} FilterFirst<T>(xs: seq<T>, p: T -> bool, i: nat)
    requires i < |xs| && p(xs[i])
    requires forall j :: 0 <= j < i ==> !p(xs[j])
    ensures |Filter(xs, p)| > 0 && Filter(xs, p)[0] == xs[i]
  {
    if i > 0 {
      FilterFirst(xs[1..], p, i - 1);
    }
  }

  /** A predicate every element satisfies keeps the whole sequence. */
  lemma {:induction false} FilterKeepsAll<T>(xs: seq<T>, p: T -> bool)
    requires forall x :: p(x)
    ensures Filter(xs, p) == xs
  {
    if |xs| > 0 {
      FilterKeepsAll(xs[1..], p);
    }
  }

  /** Filtering twice is filtering once by the conjunction. */
  lemma {:induction false} FilterFilter<T>(xs: seq<T>, p: T -> bool, q: T -> bool, pq: T -> bool)
    requires forall x :: pq(x) == (p(x) && q(x))
    ensures Filter(Filter(xs, p), q) == Filter(xs, pq)
  {
    if |xs| > 0 {
      FilterFilter(xs[1..], p, q, pq);
      var head := if p(xs[0]) then [xs[0]] else [];
      FilterAppend(head, Filter(xs[1..], p), q);
      if p(xs[0]) {
        assert Filter(head, q) == (if q(xs[0]) then [xs[0]] else []) by {
          assert head[1..] == [];
        }
      }
    }
  }

  // ---------------------------------------------------------------------
  // Flat map: the per-element observations of a sequence, concatenated
  // ---------------------------------------------------------------------

  function FlatMap<A, B>(xs: seq<A>, f: A -> seq<B>): seq<B> {
    if |xs| == 0 then [] else f(xs[0]) + FlatMap(xs[1..], f)
  }

  lemma {:induction false} FlatMapAppend<A, B>(xs: seq<A>, ys: seq<A>, f: A -> seq<B>)
    ensures FlatMap(xs + ys, f) == FlatMap(xs, f) + FlatMap(ys, f)
  {
    if |xs| == 0 {
      assert xs + ys == ys;
    } else {
      assert (xs + ys)[1..] == xs[1..] + ys;
      FlatMapAppend(xs[1..], ys, f);
    }
  }

  /** A flat map whose every element yields one value is a pointwise map. */
  lemma {:induction false} FlatMapSingletons<A, B>(xs: seq<A>, f: A -> seq<B>, g: A -> B)
    requires forall i :: 0 <= i < |xs| ==> f(xs[i]) == [g(xs[i])]
    ensures |FlatMap(xs, f)| == |xs|
    ensures forall i :: 0 <= i < |xs| ==> FlatMap(xs, f)[i] == g(xs[i])
  {
    if |xs| > 0 {
      FlatMapSingletons(xs[1..], f, g);
      assert forall i :: 1 <= i < |xs| ==> FlatMap(xs, f)[i] == FlatMap(xs[1..], f)[i - 1];
    }
  }

  /** Flat-mapping in two stages is flat-mapping by the composition, on
      every sequence whose elements agree with it. */
  lemma {:induction false} FlatMapCompose<A, B, C>(xs: seq<A>, f: A -> seq<B>, g: B -> seq<C>, h: A -> seq<C>)
    requires forall i :: 0 <= i < |xs| ==> h(xs[i]) == FlatMap(f(xs[i]), g)
    ensures FlatMap(xs, h) == FlatMap(FlatMap(xs, f), g)
  {
    if |xs| > 0 {
      FlatMapCompose(xs[1..], f, g, h);
      FlatMapAppend(f(xs[0]), FlatMap(xs[1..], f), g);
    }
  }

  /** A flat map whose every element yields three values lays them out
      in consecutive blocks of three. */
  lemma {:induction false} FlatMapTriples<A, B>(xs: seq<A>, f: A -> seq<B>)
    requires forall i :: 0 <= i < |xs| ==> |f(xs[i])| == 3
    ensures |FlatMap(xs, f)| == 3 * |xs|
    ensures forall k, j :: 0 <= k < |xs| && 0 <= j < 3 ==> FlatMap(xs, f)[3 * k + j] == f(xs[k])[j]
  {
    if |xs| > 0 {
      FlatMapTriples(xs[1..], f);
      var rest := FlatMap(xs[1..], f);
      forall k, j | 0 <= k < |xs| && 0 <= j < 3
        ensures FlatMap(xs, f)[3 * k + j] == f(xs[k])[j]
      {
        if k > 0 {
          assert FlatMap(xs, f)[3 * k + j] == rest[3 * (k - 1) + j];
          assert xs[1..][k - 1] == xs[k];
        }
      }
    }
  }

  lemma FlatMapTwo<A, B>(a: A, b: A, f: A -> seq<B>)
    ensures FlatMap([a, b], f) == f(a) + f(b)
  {
    assert [a, b][1..] == [b];
    assert [b][1..] == [];
    assert FlatMap([b], f) == f(b) + FlatMap([], f) == f(b);
  }

  lemma FlatMapFour<A, B>(a: A, b: A, c: A, d: A, f: A -> seq<B>)
    ensures FlatMap([a, b, c, d], f) == f(a) + f(b) + f(c) + f(d)
  {
    assert [a, b, c, d][1..] == [b, c, d];
    assert [b, c, d][1..] == [c, d];
    FlatMapTwo(c, d, f);
  }
}
