/** Python's `collections.deque(maxlen=n)` restricted to what the history
    windows use: appending on the right, which drops the leftmost element once
    the deque is full, and reading the leftmost element. */
module Deque {

  /** The last `n` elements of `s` (all of them when there are fewer). */
  function Last<T>(s: seq<T>, n: nat): (r: seq<T>)
    ensures |r| <= n && |r| <= |s|
    ensures |s| <= n ==> r == s
    ensures |s| > n ==> |r| == n
  {
    if |s| <= n then s else s[|s| - n..]
  }

  /** `append(x)` on a deque holding `h` with bound `maxlen`. A deque with
      bound zero stays empty. */
  function Append<T>(h: seq<T>, maxlen: nat, x: T): (r: seq<T>)
    requires |h| <= maxlen
    ensures r == Last(h + [x], maxlen)
    ensures |r| <= maxlen
    ensures maxlen > 0 ==> |r| > 0 && r[|r| - 1] == x
  {
    if maxlen == 0 then []
    else if |h| < maxlen then h + [x]
    else h[1..] + [x]
  }

  /** Appending the elements of `xs` in order to the deque holding `h`. */
  function AppendAll<T>(h: seq<T>, maxlen: nat, xs: seq<T>): (r: seq<T>)
    requires |h| <= maxlen
    ensures |r| <= maxlen
    decreases |xs|
  {
    if |xs| == 0 then h else AppendAll(Append(h, maxlen, xs[0]), maxlen, xs[1..])
  }

  /** A bounded deque always holds the newest `maxlen` elements of
      everything appended to it. */
  lemma {:induction false} AppendAllIsWindow<T>(h: seq<T>, maxlen: nat, xs: seq<T>)
    requires |h| <= maxlen
    ensures AppendAll(h, maxlen, xs) == Last(h + xs, maxlen)
    decreases |xs|
  {
    if |xs| > 0 {
      var g := h + [xs[0]];
      var rest := xs[1..];
      var h' := Append(h, maxlen, xs[0]);
      calc {
        AppendAll(h, maxlen, xs);
        AppendAll(h', maxlen, rest);
        { AppendAllIsWindow(h', maxlen, rest); }
        Last(h' + rest, maxlen);
        Last(Last(g, maxlen) + rest, maxlen);
        { LastAppend(g, maxlen, rest); }
        Last(g + rest, maxlen);
        { ConsTail(h, xs); }
        Last(h + xs, maxlen);
      }
    }
  }

  /** Element `i` of the window is element `|s| − |window| + i` of `s`. */
  lemma LastIndex<T>(s: seq<T>, n: nat, i: nat)
    requires i < |Last(s, n)|
    ensures Last(s, n)[i] == s[|s| - |Last(s, n)| + i]
  {
  }

  /** Appending the first element of `xs` and then the rest is appending `xs`. */
  lemma ConsTail<T>(h: seq<T>, xs: seq<T>)
    requires |xs| > 0
    ensures (h + [xs[0]]) + xs[1..] == h + xs
  {
  }

  /** Taking a window first and then appending gives the same window as
      appending first. */
  lemma LastAppend<T>(s: seq<T>, n: nat, t: seq<T>)
    ensures Last(Last(s, n) + t, n) == Last(s + t, n)
  {
    var l := Last(s, n);
    var a := l + t;
    var b := s + t;
    var x := Last(a, n);
    var y := Last(b, n);
    assert |x| == |y|;
    forall i | 0 <= i < |x|
      ensures x[i] == y[i]
    {
      var j := |a| - |x| + i;
      LastIndex(a, n, i);
      LastIndex(b, n, i);
      if j >= |l| {
        assert x[i] == t[j - |l|];
      } else {
        LastIndex(s, n, j);
        assert x[i] == l[j];
      }
    }
  }
}
