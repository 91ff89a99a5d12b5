/** Sums over sequences, used for counting threads, rows and statuses, and concatenation facts. */
module Sequences {
  lemma ConcatAssociative<T>(a: seq<T>, b: seq<T>, c: seq<T>)
    ensures (a + b) + c == a + (b + c)
  {
  }

  lemma ConcatParts<T>(a: seq<T>, b: seq<T>)
    ensures (a + b)[..|a|] == a && (a + b)[|a|..] == b
  {
  }

  lemma AppendAfterPrefix<T>(a: seq<T>, b: seq<T>, c: seq<T>)
    requires a <= b
    ensures a <= b + c && (b + c)[|a|..] == b[|a|..] + c
  {
  }

  /** The sum of the weights of the elements of s. */
  function Total<T>(s: seq<T>, weight: T -> int): int {
    if s == [] then 0 else weight(s[0]) + Total(s[1..], weight)
  }

  lemma {:induction false} TotalConcat<T>(a: seq<T>, b: seq<T>, weight: T -> int)
    ensures Total(a + b, weight) == Total(a, weight) + Total(b, weight)
  {
    if a == [] {
      assert a + b == b;
    } else {
      assert (a + b)[1..] == a[1..] + b;
      TotalConcat(a[1..], b, weight);
    }
  }

  lemma {:induction false} TotalUpdate<T>(s: seq<T>, i: nat, x: T, weight: T -> int)
    requires i < |s|
    ensures Total(s[i := x], weight) == Total(s, weight) - weight(s[i]) + weight(x)
  {
    if i == 0 {
      assert s[i := x][1..] == s[1..];
    } else {
      assert s[i := x][1..] == s[1..][i - 1 := x];
      TotalUpdate(s[1..], i - 1, x, weight);
    }
  }

  /** With weights 0 or more, the sum is 0 or more and at least each single weight. */
  lemma {:induction false} TotalNonNegative<T>(s: seq<T>, weight: T -> int)
    requires forall x :: x in s ==> weight(x) >= 0
    ensures Total(s, weight) >= 0
    ensures forall x :: x in s ==> weight(x) <= Total(s, weight)
  {
    if s != [] {
      TotalNonNegative(s[1..], weight);
    }
  }

  /** A sum of zeros is zero. */
  lemma {:induction false} TotalZero<T>(s: seq<T>, weight: T -> int)
    requires forall x :: x in s ==> weight(x) == 0
    ensures Total(s, weight) == 0
  {
    if s != [] {
      TotalZero(s[1..], weight);
    }
  }

  /** Weights of at most 1 sum to at most the length. */
  lemma {:induction false} TotalAtMostLength<T>(s: seq<T>, weight: T -> int)
    requires forall x :: x in s ==> weight(x) <= 1
    ensures Total(s, weight) <= |s|
  {
    if s != [] {
      TotalAtMostLength(s[1..], weight);
    }
  }
}
