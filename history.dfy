/**
 * The rolling sample history kept per metric: each new sample is appended,
 * and when the count then exceeds the capacity the oldest one is removed.
 */
module History {

  function Min(a: int, b: int): int {
    if a <= b then a else b
  }

  /**
   * One update of a history: append `v`, then drop the first element if the
   * count is now above `cap`. Only the oldest samples are ever dropped
   * (the result is a suffix of h + [v]); below capacity nothing is removed;
   * at or below capacity the result stays within it and ends with `v`.
   */
  function AppendBounded<T>(h: seq<T>, v: T, cap: nat): (r: seq<T>)
    ensures |r| <= |h| + 1 && r == (h + [v])[|h| + 1 - |r|..]
    ensures |h| < cap ==> r == h + [v]
    ensures |h| <= cap ==> |r| == Min(|h| + 1, cap)
    ensures 0 < cap && |h| <= cap ==> r[|r| - 1] == v
  {
    var appended := h + [v];
    if |appended| > cap then appended[1..] else appended
  }

  /** Every element of an updated history was in the history before or is the new sample. */
  lemma AppendBoundedFrom<T>(h: seq<T>, v: T, cap: nat, x: T)
    requires x in AppendBounded(h, v, cap)
    ensures x in h || x == v
  {
    var r := AppendBounded(h, v, cap);
    var i :| 0 <= i < |r| && r[i] == x;
    assert x == (h + [v])[|h| + 1 - |r| + i];
  }

  /** The last min(|s|, n) elements of `s`, oldest first. */
  function Window<T>(s: seq<T>, n: nat): (r: seq<T>)
    ensures |r| == Min(|s|, n)
  {
    if |s| <= n then s else s[|s| - n..]
  }

  /** A sequence of samples recorded one after another. */
  function AppendAll<T>(h: seq<T>, vs: seq<T>, cap: nat): seq<T>
    decreases |vs|
  {
    if vs == [] then h else AppendAll(AppendBounded(h, vs[0], cap), vs[1..], cap)
  }

  /** Within capacity, one update leaves exactly the last `cap` elements of h + [v]. */
  lemma AppendBoundedIsWindow<T>(h: seq<T>, v: T, cap: nat)
    requires |h| <= cap
    ensures AppendBounded(h, v, cap) == Window(h + [v], cap)
  {
  }

  /** Cutting a sequence to its last `n` elements before extending it and cutting again changes nothing. */
  lemma {:induction false} WindowOfWindow<T>(s: seq<T>, t: seq<T>, n: nat)
    ensures Window(Window(s, n) + t, n) == Window(s + t, n)
  {
    var u := Window(s, n);
    assert u == s[|s| - |u|..];
    var k := Min(|s| + |t|, n);
    assert |Window(u + t, n)| == k;
    forall i | 0 <= i < k
      ensures Window(u + t, n)[i] == Window(s + t, n)[i]
    {
      var j := |u| + |t| - k + i;
      if j < |u| {
        assert (u + t)[j] == s[|s| - |u| + j];
        assert (s + t)[|s| + |t| - k + i] == s[|s| - |u| + j];
      } else {
        assert (u + t)[j] == t[j - |u|];
        assert (s + t)[|s| + |t| - k + i] == t[j - |u|];
      }
    }
  }

  /**
   * Starting within capacity, any run of updates leaves exactly the last
   * `cap` elements of everything recorded, in recording order.
   */
  lemma {:induction false} AppendAllIsWindow<T>(h: seq<T>, vs: seq<T>, cap: nat)
    requires |h| <= cap
    ensures AppendAll(h, vs, cap) == Window(h + vs, cap)
    decreases |vs|
  {
    if vs == [] {
      assert h + vs == h;
    } else {
      var h' := AppendBounded(h, vs[0], cap);
      AppendBoundedIsWindow(h, vs[0], cap);
      AppendAllIsWindow(h', vs[1..], cap);
      WindowOfWindow(h + [vs[0]], vs[1..], cap);
      assert h + [vs[0]] + vs[1..] == h + vs;
    }
  }

  /**
   * From an empty history, M samples leave min(M, cap) of them: all of them
   * when M <= cap, otherwise exactly the last `cap` in the order recorded.
   */
  lemma HistoryFromEmpty<T>(vs: seq<T>, cap: nat)
    ensures var r := AppendAll([], vs, cap);
      |r| == Min(|vs|, cap) &&
      (|vs| <= cap ==> r == vs) &&
      (|vs| > cap ==> r == vs[|vs| - cap..])
  {
    AppendAllIsWindow([], vs, cap);
    assert [] + vs == vs;
  }
}
