/** The Fibonacci checker (validators/fibonacci.py): a submitted list of
    integers passes when it has at least three terms and every term from
    the third on is the sum of the two before it. */
module Fibonacci {
  /** Every term from the third on is the sum of the two before it. */
  predicate Recurrence(s: seq<int>)
  {
    forall i :: 2 <= i < |s| ==> s[i] == s[i - 1] + s[i - 2]
  }

  /** What the checker accepts. */
  predicate Accepted(s: seq<int>)
  {
    |s| >= 3 && Recurrence(s)
  }

  /** `is_fibonacci_sequence`: too short a list is rejected at once;
      otherwise the loop returns false at the first term that breaks the
      recurrence. */
  method IsFibonacciSequence(s: seq<int>) returns (ok: bool)
    ensures ok <==> Accepted(s)
  {
    if |s| < 3 {
      return false;
    }
    var i := 2;
    while i < |s|
      invariant 2 <= i <= |s|
      invariant forall j :: 2 <= j < i ==> s[j] == s[j - 1] + s[j - 2]
    {
      if s[i] != s[i - 1] + s[i - 2] {
        return false;
      }
      i := i + 1;
    }
    return true;
  }

  /** The list with first terms `a`, `b` and `n` terms in all. */
  function Generate(a: int, b: int, n: nat): (r: seq<int>)
    ensures |r| == n
    ensures n >= 1 ==> r[0] == a
    ensures n >= 2 ==> r[1] == b
    decreases n
  {
    if n == 0 then []
    else [a] + Generate(b, a + b, n - 1)
  }

  lemma {:induction false} GenerateRecurrence(a: int, b: int, n: nat)
    ensures Recurrence(Generate(a, b, n))
    decreases n
  {
    if n > 0 {
      var g := Generate(a, b, n);
      var rest := Generate(b, a + b, n - 1);
      GenerateRecurrence(b, a + b, n - 1);
      assert g == [a] + rest;
      forall i | 2 <= i < n ensures g[i] == g[i - 1] + g[i - 2] {
        if i == 2 {
          assert g[2] == rest[1] && g[1] == rest[0] == b;
        } else {
          assert g[i] == rest[i - 1] && g[i - 1] == rest[i - 2] && g[i - 2] == rest[i - 3];
        }
      }
    }
  }

  /** Two lists that obey the recurrence and agree on their first two
      terms agree everywhere they both reach. */
  lemma {:induction false} AgreeUpTo(s: seq<int>, t: seq<int>, i: nat)
    requires Recurrence(s) && Recurrence(t)
    requires |s| >= 2 && |t| >= 2 && s[0] == t[0] && s[1] == t[1]
    requires i < |s| && i < |t|
    ensures s[i] == t[i]
  {
    if i >= 2 {
      AgreeUpTo(s, t, i - 1);
      AgreeUpTo(s, t, i - 2);
    }
  }

  /** A list is accepted exactly when it has at least three terms and is
      the list its first two terms generate. */
  lemma AcceptedIffGenerated(s: seq<int>)
    ensures Accepted(s) <==> |s| >= 3 && s == Generate(s[0], s[1], |s|)
  {
    if |s| >= 3 {
      var g := Generate(s[0], s[1], |s|);
      GenerateRecurrence(s[0], s[1], |s|);
      if Recurrence(s) {
        forall i | 0 <= i < |s| ensures s[i] == g[i] {
          AgreeUpTo(s, g, i);
        }
      }
    }
  }

  /** An accepted list is determined by its first two terms and its
      length. */
  lemma Determined(s: seq<int>, t: seq<int>)
    requires Accepted(s) && Accepted(t)
    requires |s| == |t| && s[0] == t[0] && s[1] == t[1]
    ensures s == t
  {
    AcceptedIffGenerated(s);
    AcceptedIffGenerated(t);
  }

  /** Every prefix of at least three terms of an accepted list is
      accepted. */
  lemma PrefixAccepted(s: seq<int>, n: nat)
    requires Accepted(s) && 3 <= n <= |s|
    ensures Accepted(s[..n])
  {
    forall i | 2 <= i < n ensures s[..n][i] == s[..n][i - 1] + s[..n][i - 2] {
      assert s[..n][i] == s[i] && s[..n][i - 1] == s[i - 1] && s[..n][i - 2] == s[i - 2];
    }
  }

  /** Extending an accepted list keeps it accepted exactly when the new
      term is the sum of the last two. */
  lemma Extend(s: seq<int>, x: int)
    requires Accepted(s)
    ensures Accepted(s + [x]) <==> x == s[|s| - 1] + s[|s| - 2]
  {
    var t := s + [x];
    assert forall i :: 0 <= i < |s| ==> t[i] == s[i];
    assert t[|s|] == x;
  }
}
