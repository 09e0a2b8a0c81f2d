/**
 * The per-target result history: every probe result is pushed at the end of
 * the target's array and, once the array holds more than `MaxHistory`
 * results, the oldest one is shifted off the front.
 */
module History {

  /** The number of results kept per target. */
  const MaxHistory: nat := 50

  /** `healthCheckResults.get(id) || []`: the history of `id`, empty when there is none. */
  function HistoryOf<K, T>(results: map<K, seq<T>>, id: K): seq<T> {
    if id in results then results[id] else []
  }

  /** The most recent `n` elements of `s`, oldest first. */
  function LastN<T>(s: seq<T>, n: nat): (r: seq<T>)
    ensures |r| <= n
    ensures |r| < n ==> r == s
    ensures |r| <= |s| && r == s[|s| - |r|..]
  {
    if |s| <= n then s else s[|s| - n..]
  }

  /** One push onto a history within capacity: the bound holds, the new
      result is last, and only the oldest entry can be dropped (exactly when
      the history was full), the others keeping their order. */
  lemma AppendBounded<T>(h: seq<T>, x: T)
    requires |h| <= MaxHistory
    ensures var h' := LastN(h + [x], MaxHistory);
      && |h'| <= MaxHistory
      && |h'| > 0 && h'[|h'| - 1] == x
      && (if |h| < MaxHistory then h' == h + [x] else h' == h[1..] + [x])
  {
    if |h| == MaxHistory {
      assert (h + [x])[1..] == h[1..] + [x];
    }
  }

  /** Trimming to the last `n` before appending more changes nothing in the
      last `n` afterwards. */
  lemma LastNConcat<T>(a: seq<T>, b: seq<T>, n: nat)
    ensures LastN(LastN(a, n) + b, n) == LastN(a + b, n)
  {
    if |a| > n {
      var k := |a| - n;
      assert LastN(a, n) == a[k..];
      SuffixConcat(a, b, k);
      SuffixOfSuffix(a + b, k, n);
    }
  }

  /** Dropping a prefix of `a` from `a + b` leaves the rest of `a`, then `b`. */
  lemma SuffixConcat<T>(a: seq<T>, b: seq<T>, k: nat)
    requires k <= |a|
    ensures a[k..] + b == (a + b)[k..]
  {
  }

  /** The last `n` elements of a suffix at least `n` long are the last `n` of the whole. */
  lemma SuffixOfSuffix<T>(s: seq<T>, k: nat, n: nat)
    requires k + n <= |s|
    ensures LastN(s[k..], n) == LastN(s, n)
  {
    var u := s[k..];
    assert |u| >= n;
    assert u[|u| - n..] == s[|s| - n..];
  }

  /** The history after pushing the results `xs` one at a time. */
  function AppendAll<T>(h: seq<T>, xs: seq<T>): seq<T>
    decreases |xs|
  {
    if xs == [] then h else AppendAll(LastN(h + [xs[0]], MaxHistory), xs[1..])
  }

  /** After any number of pushes the history is exactly the most recent
      `MaxHistory` results, in the order they were pushed. */
  lemma {:induction false} AppendAllKeepsMostRecent<T>(h: seq<T>, xs: seq<T>)
    requires |h| <= MaxHistory
    ensures AppendAll(h, xs) == LastN(h + xs, MaxHistory)
    decreases |xs|
  {
    if xs == [] {
      assert h + xs == h;
    } else {
      var h' := LastN(h + [xs[0]], MaxHistory);
      AppendAllKeepsMostRecent(h', xs[1..]);
      LastNConcat(h + [xs[0]], xs[1..], MaxHistory);
      assert h + [xs[0]] + xs[1..] == h + xs;
    }
  }

  /** A history that starts empty holds one result per push until it is
      full, and `MaxHistory` from then on. */
  lemma AppendAllLength<T>(h: seq<T>, xs: seq<T>)
    requires |h| <= MaxHistory
    ensures |AppendAll(h, xs)| == if |h| + |xs| <= MaxHistory then |h| + |xs| else MaxHistory
  {
    AppendAllKeepsMostRecent(h, xs);
  }
}
