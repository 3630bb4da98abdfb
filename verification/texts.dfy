/** The two Kotlin standard-library string slices the overflow handler
    relies on: `String.take(n)` and `String.takeLast(n)`.
    Both throw `IllegalArgumentException` for a negative count and clamp a
    count larger than the string to its length. */
module Texts {

  import opened Outcomes

  function Min(a: int, b: int): int {
    if a <= b then a else b
  }

  /** `s` is a prefix of `t`. */
  predicate IsPrefix(s: seq<char>, t: seq<char>) {
    |s| <= |t| && t[..|s|] == s
  }

  /** `s` is a suffix of `t`. */
  predicate IsSuffix(s: seq<char>, t: seq<char>) {
    |s| <= |t| && t[|t| - |s|..] == s
  }

  /** Kotlin `take(n)`: the first `min(n, |s|)` elements; an error for n < 0. */
  function Take(s: seq<char>, n: int): (r: Result<seq<char>>)
    ensures r.Failure? <==> n < 0
    ensures r.Failure? ==> r.error == NegativeCount(n)
    ensures r.Success? ==> |r.value| == Min(n, |s|) && IsPrefix(r.value, s)
  {
    if n < 0 then Failure(NegativeCount(n))
    else if n <= |s| then Success(s[..n])
    else Success(s)
  }

  /** Kotlin `takeLast(n)`: the last `min(n, |s|)` elements; an error for n < 0. */
  function TakeLast(s: seq<char>, n: int): (r: Result<seq<char>>)
    ensures r.Failure? <==> n < 0
    ensures r.Failure? ==> r.error == NegativeCount(n)
    ensures r.Success? ==> |r.value| == Min(n, |s|) && IsSuffix(r.value, s)
  {
    if n < 0 then Failure(NegativeCount(n))
    else if n <= |s| then Success(s[|s| - n..])
    else Success(s)
  }

  /** Element-wise reference for `take`: Kotlin's iterable `take` copies
      elements one at a time from the front until it has n of them. */
  function TakeRef(s: seq<char>, n: nat): seq<char>
    decreases n
  {
    if n == 0 || |s| == 0 then [] else [s[0]] + TakeRef(s[1..], n - 1)
  }

  /** Element-wise reference for `takeLast`: copy elements from the back. */
  function TakeLastRef(s: seq<char>, n: nat): seq<char>
    decreases n
  {
    if n == 0 || |s| == 0 then [] else TakeLastRef(s[..|s| - 1], n - 1) + [s[|s| - 1]]
  }

  /** `Take` agrees with the element-wise reference on every count it accepts. */
  lemma {:induction false} TakeMatchesRef(s: seq<char>, n: nat)
    ensures Take(s, n) == Success(TakeRef(s, n))
    decreases n
  {
    if n == 0 || |s| == 0 {
    } else {
      TakeMatchesRef(s[1..], n - 1);
      var t := Take(s[1..], n - 1).value;
      assert [s[0]] + t == Take(s, n).value;
    }
  }

  /** `TakeLast` agrees with the element-wise reference on every count it accepts. */
  lemma {:induction false} TakeLastMatchesRef(s: seq<char>, n: nat)
    ensures TakeLast(s, n) == Success(TakeLastRef(s, n))
    decreases n
  {
    if n == 0 || |s| == 0 {
    } else {
      var init := s[..|s| - 1];
      TakeLastMatchesRef(init, n - 1);
      var t := TakeLast(init, n - 1).value;
      assert t + [s[|s| - 1]] == TakeLast(s, n).value;
    }
  }

  /** Taking a prefix and then the remaining suffix rebuilds the sequence:
      `take(k) + takeLast(|s| - k) == s` for every `0 <= k <= |s|`. */
  lemma TakeThenTakeLast(s: seq<char>, k: int)
    requires 0 <= k <= |s|
    ensures Take(s, k).value + TakeLast(s, |s| - k).value == s
  {
  }

  /** Taking twice takes the smaller count: `s.take(n).take(m) == s.take(min(n, m))`. */
  lemma TakeTake(s: seq<char>, n: int, m: int)
    requires 0 <= n && 0 <= m
    ensures Take(Take(s, n).value, m) == Take(s, Min(n, m))
  {
    var t := Take(s, n).value;
    if m <= |t| {
      assert t[..m] == s[..m];
    }
  }
}
