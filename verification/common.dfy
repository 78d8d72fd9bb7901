/**
 * Shared vocabulary of the model: optional values, the Python exceptions the
 * scripts raise or catch, the outcome of a call that may raise, and a few
 * facts about Python lists (order-preserving filters, occurrence counts).
 */
module Common {

  datatype Option<T> = None | Some(value: T)

  /** The exception classes the scripts distinguish in their handlers. */
  datatype PyException = RuntimeError | IndexError | KeyError | TypeError | AttributeError | OtherError

  /** The outcome of a Python call: a returned value or a propagating exception. */
  datatype Outcome<T> = Returned(value: T) | Raised(exc: PyException)

  /** Number of occurrences of `x` in `xs` (Python `xs.count(x)`). */
  function Count<T(==)>(xs: seq<T>, x: T): (n: nat)
    ensures n <= |xs|
    ensures n == 0 <==> x !in xs
  {
    if |xs| == 0 then 0 else (if xs[0] == x then 1 else 0) + Count(xs[1..], x)
  }

  lemma {:induction false} CountAppend<T>(xs: seq<T>, ys: seq<T>, x: T)
    ensures Count(xs + ys, x) == Count(xs, x) + Count(ys, x)
  {
    if |xs| == 0 {
      assert xs + ys == ys;
    } else {
      assert (xs + ys)[1..] == xs[1..] + ys;
      CountAppend(xs[1..], ys, x);
    }
  }

  /** `sub` is obtained from `xs` by deleting elements: the order is kept. */
  predicate IsSubsequence<T(==)>(sub: seq<T>, xs: seq<T>)
    decreases |xs|
  {
    if |sub| == 0 then true
    else if |xs| == 0 then false
    else if sub[0] == xs[0] then IsSubsequence(sub[1..], xs[1..])
    else IsSubsequence(sub, xs[1..])
  }

  lemma {:induction false} SubsequenceSnoc<T>(sub: seq<T>, xs: seq<T>, x: T, keep: bool)
    requires IsSubsequence(sub, xs)
    ensures IsSubsequence(if keep then sub + [x] else sub, xs + [x])
    decreases |xs|
  {
    if |xs| == 0 {
      assert |sub| == 0;
      if keep {
        assert (sub + [x])[1..] == [];
      } else {
        assert IsSubsequence(sub, [x][1..]);
      }
      assert xs + [x] == [x];
    } else if |sub| == 0 {
      if keep {
        SubsequenceSnoc(sub, xs[1..], x, keep);
        assert (xs + [x])[1..] == xs[1..] + [x];
        assert sub + [x] == [x];
      }
    } else {
      assert (xs + [x])[1..] == xs[1..] + [x];
      if sub[0] == xs[0] {
        SubsequenceSnoc(sub[1..], xs[1..], x, keep);
        if keep {
          assert (sub + [x])[1..] == sub[1..] + [x];
        }
      } else {
        SubsequenceSnoc(sub, xs[1..], x, keep);
      }
    }
  }

  /** The elements of `xs` for which `p` holds, in order (a list
    * comprehension with a condition, or a loop appending to a list). */
  function Keep<T>(xs: seq<T>, p: T -> bool): (r: seq<T>)
    ensures |r| <= |xs|
    decreases |xs|
  {
    if |xs| == 0 then []
    else Keep(xs[..|xs| - 1], p) + (if p(xs[|xs| - 1]) then [xs[|xs| - 1]] else [])
  }

  /** One more element considered by the filter. */
  lemma KeepStep<T>(xs: seq<T>, p: T -> bool, i: nat)
    requires i < |xs|
    ensures Keep(xs[..i + 1], p) == Keep(xs[..i], p) + (if p(xs[i]) then [xs[i]] else [])
  {
    assert xs[..i + 1][..i] == xs[..i];
  }

  /** A filter every element passes keeps the list as it is. */
  lemma {:induction false} KeepAll<T>(xs: seq<T>, p: T -> bool)
    requires forall k :: 0 <= k < |xs| ==> p(xs[k])
    ensures Keep(xs, p) == xs
    decreases |xs|
  {
    if |xs| > 0 {
      KeepAll(xs[..|xs| - 1], p);
      assert xs[..|xs| - 1] + [xs[|xs| - 1]] == xs;
    }
  }

  lemma {:induction false} KeepMembers<T>(xs: seq<T>, p: T -> bool)
    ensures forall x :: x in Keep(xs, p) <==> x in xs && p(x)
    ensures forall x :: x in Keep(xs, p) ==> p(x)
    decreases |xs|
  {
    if |xs| > 0 {
      var init := xs[..|xs| - 1];
      KeepMembers(init, p);
      assert xs == init + [xs[|xs| - 1]];
    }
  }

  lemma {:induction false} KeepSubsequence<T>(xs: seq<T>, p: T -> bool)
    ensures IsSubsequence(Keep(xs, p), xs)
    decreases |xs|
  {
    if |xs| == 0 {
    } else {
      var init := xs[..|xs| - 1];
      KeepSubsequence(init, p);
      SubsequenceSnoc(Keep(init, p), init, xs[|xs| - 1], p(xs[|xs| - 1]));
      assert init + [xs[|xs| - 1]] == xs;
      assert Keep(init, p) + [] == Keep(init, p);
    }
  }

  /** Filtering twice with the same condition changes nothing the second time. */
  lemma {:induction false} KeepIdempotent<T>(xs: seq<T>, p: T -> bool)
    ensures Keep(Keep(xs, p), p) == Keep(xs, p)
    decreases |xs|
  {
    if |xs| > 0 {
      var init := xs[..|xs| - 1];
      var last := xs[|xs| - 1];
      KeepIdempotent(init, p);
      if p(last) {
        var k := Keep(init, p) + [last];
        assert k[..|k| - 1] == Keep(init, p) && k[|k| - 1] == last;
        assert Keep(k, p) == Keep(Keep(init, p), p) + [last];
      } else {
        assert Keep(xs, p) == Keep(init, p) + [] == Keep(init, p);
      }
    }
  }

  /** Filtering by p and then by q keeps the elements satisfying both, in order. */
  lemma {:induction false} KeepThenKeep<T>(xs: seq<T>, p: T -> bool, q: T -> bool, pq: T -> bool)
    requires forall x :: pq(x) == (p(x) && q(x))
    ensures Keep(Keep(xs, p), q) == Keep(xs, pq)
    decreases |xs|
  {
    if |xs| > 0 {
      var init := xs[..|xs| - 1];
      var last := xs[|xs| - 1];
      KeepThenKeep(init, p, q, pq);
      if p(last) {
        var k := Keep(init, p) + [last];
        assert k[..|k| - 1] == Keep(init, p) && k[|k| - 1] == last;
        assert Keep(k, q) == Keep(Keep(init, p), q) + (if q(last) then [last] else []);
      } else {
        assert Keep(xs, p) == Keep(init, p) + [] == Keep(init, p);
      }
    }
  }

  lemma {:induction false} KeepCount<T>(xs: seq<T>, p: T -> bool, x: T)
    ensures Count(Keep(xs, p), x) == if p(x) then Count(xs, x) else 0
    decreases |xs|
  {
    if |xs| > 0 {
      var init := xs[..|xs| - 1];
      var last := xs[|xs| - 1];
      KeepCount(init, p, x);
      CountAppend(Keep(init, p), if p(last) then [last] else [], x);
      CountAppend(init, [last], x);
      assert init + [last] == xs;
    }
  }

  /** A loop over `xs` that appends what `f` yields for each element and
    * stops at the first exception; written by the last element so that it
    * follows the loop. */
  function Gather<T, U>(xs: seq<T>, f: T -> Outcome<seq<U>>): Outcome<seq<U>>
    decreases |xs|
  {
    if |xs| == 0 then Returned([])
    else Then(Gather(xs[..|xs| - 1], f), f(xs[|xs| - 1]))
  }

  /** Continue a gathered prefix with the outcome of one more element. */
  function Then<U>(acc: Outcome<seq<U>>, next: Outcome<seq<U>>): Outcome<seq<U>>
  {
    match acc
    case Raised(e) => Raised(e)
    case Returned(ys) =>
      match next
      case Raised(e) => Raised(e)
      case Returned(zs) => Returned(ys + zs)
  }

  lemma GatherStep<T, U>(xs: seq<T>, f: T -> Outcome<seq<U>>, i: nat)
    requires i < |xs|
    ensures Gather(xs[..i + 1], f) == Then(Gather(xs[..i], f), f(xs[i]))
  {
    assert xs[..i + 1][..i] == xs[..i];
  }

  lemma GatherAll<T, U>(xs: seq<T>, f: T -> Outcome<seq<U>>)
    ensures Gather(xs[..|xs|], f) == Gather(xs, f)
  {
    assert xs[..|xs|] == xs;
  }

  /** An exception in a prefix is the outcome of the whole loop. */
  lemma {:induction false} GatherRaisedStays<T, U>(xs: seq<T>, f: T -> Outcome<seq<U>>, n: nat, e: PyException)
    requires n <= |xs| && Gather(xs[..n], f) == Raised(e)
    ensures Gather(xs, f) == Raised(e)
    decreases |xs| - n
  {
    if n < |xs| {
      GatherStep(xs, f, n);
      GatherRaisedStays(xs, f, n + 1, e);
    } else {
      GatherAll(xs, f);
    }
  }

  /** The loop raises iff some element raises; otherwise it returns exactly
    * the yielded elements. */
  lemma {:induction false} GatherOutcome<T, U>(xs: seq<T>, f: T -> Outcome<seq<U>>)
    ensures Gather(xs, f).Raised? <==> exists k :: 0 <= k < |xs| && f(xs[k]).Raised?
    ensures Gather(xs, f).Returned? ==>
      forall y :: y in Gather(xs, f).value <==> exists k :: 0 <= k < |xs| && f(xs[k]).Returned? && y in f(xs[k]).value
    decreases |xs|
  {
    if |xs| > 0 {
      var init := xs[..|xs| - 1];
      GatherOutcome(init, f);
      assert forall k :: 0 <= k < |init| ==> init[k] == xs[k];
    }
  }

  /** No two positions of `xs` hold the same value. */
  predicate Distinct<T(==)>(xs: seq<T>)
  {
    forall i, j :: 0 <= i < j < |xs| ==> xs[i] != xs[j]
  }

  /** Python `xs[i]` for a possibly out-of-range index. */
  function At<T>(xs: seq<T>, i: nat): (r: Outcome<T>)
    ensures r.Returned? <==> i < |xs|
    ensures r.Raised? ==> r.exc == IndexError
    ensures i < |xs| ==> r.value == xs[i]
  {
    if i < |xs| then Returned(xs[i]) else Raised(IndexError)
  }

  /** The distinct elements of xs, each at its first occurrence. */
  function FirstOccurrences<T(==,!new)>(xs: seq<T>): (r: seq<T>)
    ensures forall x :: x in r <==> x in xs
  {
    if |xs| == 0 then []
    else
      var init := FirstOccurrences(xs[..|xs| - 1]);
      var x := xs[|xs| - 1];
      assert forall y :: y in xs <==> y in xs[..|xs| - 1] || y == x;
      if x in init then init else init + [x]
  }
  lemma FirstOccurrencesSnoc<T(!new)>(xs: seq<T>, x: T)
    ensures FirstOccurrences(xs + [x]) == if x in xs then FirstOccurrences(xs) else FirstOccurrences(xs) + [x]
  {
    assert (xs + [x])[..|xs|] == xs;
  }

}

/**
 * Python's dict: entries kept in insertion order, each key at most once;
 * assigning to a key already present replaces its value in place.
 */
module PyDict {
  import opened Common

  type Dict<K, V> = seq<(K, V)>

  predicate HasKey<K(==), V>(d: Dict<K, V>, k: K)
  {
    exists i :: 0 <= i < |d| && d[i].0 == k
  }

  /** The dict invariant: no key occurs twice. */
  predicate Valid<K(==), V>(d: Dict<K, V>)
  {
    forall i, j :: 0 <= i < j < |d| ==> d[i].0 != d[j].0
  }

  function Keys<K, V>(d: Dict<K, V>): (ks: seq<K>)
    ensures |ks| == |d| && forall i :: 0 <= i < |d| ==> ks[i] == d[i].0
  {
    seq(|d|, i requires 0 <= i < |d| => d[i].0)
  }

  /** `d.get(k)`. */
  function Get<K(==), V>(d: Dict<K, V>, k: K): (r: Option<V>)
    ensures r.Some? <==> HasKey(d, k)
    ensures r.Some? ==> (k, r.value) in d
  {
    if |d| == 0 then None
    else if d[0].0 == k then Some(d[0].1)
    else
      var r := Get(d[1..], k);
      assert HasKey(d[1..], k) ==> HasKey(d, k);
      r
  }

  lemma HasKeyInKeys<K, V>(d: Dict<K, V>, k: K)
    ensures HasKey(d, k) <==> k in Keys(d)
  {
    if HasKey(d, k) {
      var i :| 0 <= i < |d| && d[i].0 == k;
      assert Keys(d)[i] == k;
    }
  }

  lemma PutKeys<K, V>(d: Dict<K, V>, k: K, v: V)
    ensures Keys(Put(d, k, v)) == if HasKey(d, k) then Keys(d) else Keys(d) + [k]
  {
    if !HasKey(d, k) {
      assert Keys(d + [(k, v)]) == Keys(d) + [k];
    }
  }

  /** In a valid dict the entry at position i is what `d[key]` reads. */
  lemma {:induction false} GetAt<K, V>(d: Dict<K, V>, i: nat)
    requires Valid(d) && i < |d|
    ensures Get(d, d[i].0) == Some(d[i].1)
  {
    if i > 0 {
      GetAt(d[1..], i - 1);
    }
  }

  /** `d[k] = v`: a present key keeps its position, a new key is appended. */
  function Put<K(==), V>(d: Dict<K, V>, k: K, v: V): (r: Dict<K, V>)
    ensures HasKey(d, k) ==> |r| == |d| && forall i :: 0 <= i < |d| ==> r[i].0 == d[i].0
    ensures !HasKey(d, k) ==> r == d + [(k, v)]
  {
    if |d| == 0 then [(k, v)]
    else if d[0].0 == k then [(k, v)] + d[1..]
    else [d[0]] + Put(d[1..], k, v)
  }

  /** `d[k] = v` keeps keys unique, and reads back as expected. */
  lemma PutValid<K, V>(d: Dict<K, V>, k: K, v: V)
    requires Valid(d)
    ensures Valid(Put(d, k, v))
    ensures Get(Put(d, k, v), k) == Some(v)
    ensures forall k' :: k' != k ==> Get(Put(d, k, v), k') == Get(d, k')
  {
    var r := Put(d, k, v);
    PutKeepsValid(d, k, v);
    PutGet(d, k, v, k);
    forall k' | k' != k ensures Get(r, k') == Get(d, k') {
      PutGet(d, k, v, k');
    }
  }

  /** `d[k] = v` keeps keys unique. */
  lemma PutKeepsValid<K, V>(d: Dict<K, V>, k: K, v: V)
    requires Valid(d)
    ensures Valid(Put(d, k, v))
  {
    var r := Put(d, k, v);
    if !HasKey(d, k) {
      forall i, j | 0 <= i < j < |r| ensures r[i].0 != r[j].0 {
        if j == |d| {
          assert r[j].0 == k && r[i] == d[i];
        }
      }
    }
  }

  /** `Put` read back at one key, without the dict invariant. */
  lemma {:induction false} PutGet<K, V>(d: Dict<K, V>, k: K, v: V, k': K)
    ensures Get(Put(d, k, v), k') == if k' == k then Some(v) else Get(d, k')
  {
    if |d| > 0 && d[0].0 != k {
      PutGet(d[1..], k, v, k');
      assert Put(d, k, v)[1..] == Put(d[1..], k, v);
    } else if |d| > 0 {
      assert Put(d, k, v)[1..] == d[1..];
    }
  }

  /** Two writes read back at one key. */
  lemma PutPutGet<K, V>(d: Dict<K, V>, a: K, v: V, b: K, w: V, g: K)
    ensures Get(Put(Put(d, a, v), b, w), g) == if g == b then Some(w) else if g == a then Some(v) else Get(d, g)
  {
    PutGet(Put(d, a, v), b, w, g);
    PutGet(d, a, v, g);
  }

  /** After `d[k] = v` the keys are the old ones and k. */
  lemma PutHasKey<K, V>(d: Dict<K, V>, k: K, v: V, g: K)
    ensures HasKey(Put(d, k, v), g) <==> g == k || HasKey(d, g)
  {
    PutGet(d, k, v, g);
  }

  /** `d[k].append(x)` for a dict of lists; a missing key raises KeyError. */
  function AppendAt<K(==), X>(d: Dict<K, seq<X>>, k: K, x: X): (r: Outcome<Dict<K, seq<X>>>)
    ensures r.Returned? <==> HasKey(d, k)
    ensures r.Raised? ==> r.exc == KeyError
  {
    match Get(d, k)
    case None => Raised(KeyError)
    case Some(xs) => Returned(Put(d, k, xs + [x]))
  }
}
