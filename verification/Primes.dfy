/** The sieve of index.js, for every limit and count, and the first 64 primes. */
module Primes {

  ghost predicate IsPrime(n: nat) {
    n >= 2 && forall d: nat :: 2 <= d < n ==> n % d != 0
  }

  // ---- Divisibility ----

  lemma QuotientRemainder(x: nat, d: nat, q: nat, r: nat)
    requires r < d && x == d * q + r
    ensures x % d == r
  {
    var e := x / d - q;
    assert x == d * (x / d) + x % d;
    assert d * e == r - x % d;
    if e > 0 {
      MulAtLeast(d, e);
    } else if e < 0 {
      MulAtLeast(d, -e);
    }
  }

  lemma MulAtLeast(d: nat, e: nat)
    requires e > 0
    ensures d * e >= d
  {
  }

  lemma DividesTransitive(a: nat, b: nat, c: nat)
    requires a > 0 && b > 0 && b % a == 0 && c % b == 0
    ensures c % a == 0
  {
    var p, q := b / a, c / b;
    assert c == b * q == (a * p) * q == a * (p * q);
    QuotientRemainder(c, a, p * q, 0);
  }

  /** Every number above 1 that is not prime has a prime divisor whose square it reaches. */
  lemma {:induction false} SmallPrimeDivisor(n: nat) returns (p: nat)
    requires n >= 2 && !IsPrime(n)
    ensures IsPrime(p) && n % p == 0 && p < n && p * p <= n
  {
    var d: nat :| 2 <= d < n && n % d == 0;
    p := LeastDivisor(n, d);
    CofactorReaches(n, p);
  }

  lemma CofactorReaches(n: nat, p: nat)
    requires 2 <= p < n && n % p == 0
    requires forall e: nat :: 2 <= e < p ==> n % e != 0
    ensures p * p <= n
  {
    var q := n / p;
    assert n == p * q;
    assert q != 0 && q != 1;
    QuotientRemainder(n, q, p, 0);
    assert q >= p;
    MulMonotone(p, p, q);
  }

  lemma MulMonotone(p: nat, a: nat, b: nat)
    requires a <= b
    ensures p * a <= p * b
  {
  }

  lemma SquareMonotone(a: nat, b: nat)
    ensures a <= b ==> a * a <= b * b
  {
    if a <= b {
      MulMonotone(a, a, b);
      MulMonotone(b, a, b);
    }
  }

  lemma {:induction false} LeastDivisor(n: nat, d: nat) returns (p: nat)
    requires 2 <= d < n && n % d == 0
    ensures 2 <= p <= d && n % p == 0 && IsPrime(p)
    ensures forall e: nat :: 2 <= e < p ==> n % e != 0
    decreases d
  {
    if e: nat :| 2 <= e < d && n % e == 0 {
      p := LeastDivisor(n, e);
    } else {
      p := d;
      forall e: nat | 2 <= e < p ensures p % e != 0 {
        if p % e == 0 {
          DividesTransitive(e, p, n);
        }
      }
    }
  }

  // ---- The sieve ----

  /** What the loop takes for a prime: candidates at or above the limit are never marked. */
  ghost predicate Accepted(c: nat, limit: nat) {
    c >= 2 && (c >= limit || IsPrime(c))
  }

  predicate Increasing(s: seq<nat>) {
    forall i, j :: 0 <= i < j < |s| ==> s[i] < s[j]
  }

  /** s is increasing and holds exactly the accepted candidates below n. */
  ghost predicate ListsBelow(s: seq<nat>, limit: nat, n: nat) {
    && Increasing(s)
    && (forall i :: 0 <= i < |s| ==> Accepted(s[i], limit) && s[i] < n)
    && (forall c: nat :: Accepted(c, limit) && c < n ==> c in s)
  }

  /** The indices the loop has marked after visiting the candidates in s. */
  ghost predicate MarkedBy(marked: set<nat>, s: seq<nat>, limit: nat) {
    forall x: nat :: x in marked <==> x < limit && exists i :: 0 <= i < |s| && x % Positive(s[i]) == 0
  }

  function Positive(n: nat): (p: nat)
    ensures p > 0
  {
    if n == 0 then 1 else n
  }

  /** A candidate below the limit is unmarked when visited if and only if it is prime. */
  lemma UnmarkedIffPrime(marked: set<nat>, s: seq<nat>, limit: nat, candidate: nat)
    requires 2 <= candidate
    requires ListsBelow(s, limit, candidate) && MarkedBy(marked, s, limit)
    ensures candidate !in marked <==> Accepted(candidate, limit)
  {
    if candidate < limit {
      if candidate in marked {
        var i :| 0 <= i < |s| && candidate % Positive(s[i]) == 0;
        assert !IsPrime(candidate);
      }
      if !IsPrime(candidate) {
        var p := SmallPrimeDivisor(candidate);
        assert Accepted(p, limit) && p in s;
        var i :| 0 <= i < |s| && s[i] == p;
        assert candidate % Positive(s[i]) == 0;
      }
    }
  }

  /** The inner loop: mark every multiple of the candidate below the limit, from 0 on. */
  method Mark(marked: set<nat>, candidate: nat, limit: nat) returns (after: set<nat>)
    requires candidate >= 2
    ensures forall x: nat :: x in after <==> x in marked || (x < limit && x % candidate == 0)
  {
    after := marked;
    var i := 0;
    ghost var q := 0;
    while i < limit
      invariant i == candidate * q
      invariant forall x: nat :: x in after <==> x in marked || (x < limit && x < i && x % candidate == 0)
    {
      after := after + {i};
      QuotientRemainder(i, candidate, q, 0);
      forall x: nat | i < x < i + candidate ensures x % candidate != 0 {
        QuotientRemainder(x, candidate, q, x - i);
      }
      q := q + 1;
      i := i + candidate;
    }
  }

  lemma MarkedGrows(before: set<nat>, after: set<nat>, s: seq<nat>, candidate: nat, limit: nat)
    requires candidate >= 2 && MarkedBy(before, s, limit)
    requires forall x: nat :: x in after <==> x in before || (x < limit && x % candidate == 0)
    ensures MarkedBy(after, s + [candidate], limit)
  {
    var t := s + [candidate];
    forall x: nat | x in after ensures exists i :: 0 <= i < |t| && x % Positive(t[i]) == 0 {
      if x in before {
        var i :| 0 <= i < |s| && x % Positive(s[i]) == 0;
        assert x % Positive(t[i]) == 0;
      } else {
        assert x % Positive(t[|s|]) == 0;
      }
    }
    forall x: nat, i | x < limit && 0 <= i < |t| && x % Positive(t[i]) == 0 ensures x in after {
      if i < |s| {
        assert x % Positive(s[i]) == 0;
      }
    }
  }

  lemma ListGrows(s: seq<nat>, limit: nat, candidate: nat)
    requires ListsBelow(s, limit, candidate)
    ensures Accepted(candidate, limit) ==> ListsBelow(s + [candidate], limit, candidate + 1)
    ensures !Accepted(candidate, limit) ==> ListsBelow(s, limit, candidate + 1)
  {
    assert (s + [candidate])[|s|] == candidate;
    assert forall c :: c in s ==> c in s + [candidate];
  }

  // ---- The first 64 primes ----

  /** Two listings of the same length are equal. */
  lemma ListingUnique(s: seq<nat>, t: seq<nat>, limit: nat)
    requires |s| == |t| > 0
    requires ListsBelow(s, limit, s[|s| - 1] + 1) && ListsBelow(t, limit, t[|t| - 1] + 1)
    ensures s == t
  {
    forall i | 0 <= i < |s| ensures s[i] == t[i] {
      ListingUniqueAt(s, t, limit, i);
    }
  }

  lemma {:induction false} ListingUniqueAt(s: seq<nat>, t: seq<nat>, limit: nat, i: nat)
    requires |s| == |t| > 0 && i < |s|
    requires ListsBelow(s, limit, s[|s| - 1] + 1) && ListsBelow(t, limit, t[|t| - 1] + 1)
    ensures s[i] == t[i]
    decreases i
  {
    forall j | 0 <= j < i ensures s[j] == t[j] {
      ListingUniqueAt(s, t, limit, j);
    }
    EntryAtMost(s, t, limit, i);
    EntryAtMost(t, s, limit, i);
  }

  lemma EntryAtMost(s: seq<nat>, t: seq<nat>, limit: nat, i: nat)
    requires |s| == |t| > 0 && i < |s|
    requires ListsBelow(s, limit, s[|s| - 1] + 1) && ListsBelow(t, limit, t[|t| - 1] + 1)
    requires forall j :: 0 <= j < i ==> s[j] == t[j]
    ensures s[i] <= t[i]
  {
    assert Accepted(t[i], limit);
    assert t[i] <= s[|s| - 1] ==> t[i] in s;
  }

  predicate PassesTrial(n: nat) {
    && n >= 2
    && (n == 2 || n % 2 != 0) && (n == 3 || n % 3 != 0) && (n == 5 || n % 5 != 0) && (n == 7 || n % 7 != 0)
    && (n == 11 || n % 11 != 0) && (n == 13 || n % 13 != 0) && (n == 17 || n % 17 != 0)
  }

  lemma TrialIsPrime(n: nat)
    requires n < 361
    ensures PassesTrial(n) <==> IsPrime(n)
  {
    if PassesTrial(n) && !IsPrime(n) {
      var p := SmallPrimeDivisor(n);
      SquareMonotone(19, p);
      SmallestPrimes(p);
    }
  }

  lemma SmallestPrimes(p: nat)
    requires IsPrime(p) && p < 19
    ensures p == 2 || p == 3 || p == 5 || p == 7 || p == 11 || p == 13 || p == 17
  {
    assert 2 < p ==> p % 2 != 0;
    assert 3 < p ==> p % 3 != 0;
  }

  /** No odd number from n on, below q, passes. */
  predicate OddsFail(n: nat, q: nat)
    decreases q - n
  {
    n >= q || (!PassesTrial(n) && OddsFail(n + 2, q))
  }

  /** q is the first number above the odd number p that passes. */
  predicate Next(p: nat, q: nat) {
    p % 2 == 1 && p < q && PassesTrial(q) && OddsFail(p + 2, q)
  }

  lemma {:induction false} OddsFailMeans(n: nat, q: nat, k: nat)
    requires OddsFail(n, q) && n + 2 * k < q
    ensures !PassesTrial(n + 2 * k)
    decreases k
  {
    if k > 0 {
      OddsFailMeans(n + 2, q, k - 1);
    }
  }

  lemma EvenFails(n: nat)
    requires n > 2 && n % 2 == 0
    ensures !PassesTrial(n)
  {
  }

  function Primes0(): (p: seq<nat>)
    ensures |p| == 16
  {
    [2, 3, 5, 7, 11, 13, 17, 19, 23, 29, 31, 37, 41, 43, 47, 53]
  }

  function Primes1(): (p: seq<nat>)
    ensures |p| == 16
  {
    [59, 61, 67, 71, 73, 79, 83, 89, 97, 101, 103, 107, 109, 113, 127, 131]
  }

  function Primes2(): (p: seq<nat>)
    ensures |p| == 16
  {
    [137, 139, 149, 151, 157, 163, 167, 173, 179, 181, 191, 193, 197, 199, 211, 223]
  }

  function Primes3(): (p: seq<nat>)
    ensures |p| == 16
  {
    [227, 229, 233, 239, 241, 251, 257, 263, 269, 271, 277, 281, 283, 293, 307, 311]
  }

  lemma Primes0Consecutive()
    ensures forall i :: 1 <= i < 15 ==> Next(Primes0()[i], Primes0()[i + 1])
    ensures Primes0()[0] == 2 && Primes0()[15] == 53
  {
  }

  lemma Primes1Consecutive()
    ensures forall i :: 0 <= i < 15 ==> Next(Primes1()[i], Primes1()[i + 1])
    ensures Next(53, 59)
    ensures Primes1()[0] == 59 && Primes1()[15] == 131
  {
  }

  lemma Primes2Consecutive()
    ensures forall i :: 0 <= i < 15 ==> Next(Primes2()[i], Primes2()[i + 1])
    ensures Next(131, 137)
    ensures Primes2()[0] == 137 && Primes2()[15] == 223
  {
  }

  lemma Primes3Consecutive()
    ensures forall i :: 0 <= i < 15 ==> Next(Primes3()[i], Primes3()[i + 1])
    ensures Next(223, 227)
    ensures Primes3()[0] == 227 && Primes3()[15] == 311
  {
  }

  function First64Primes(): (p: seq<nat>)
    ensures |p| == 64
  {
    Primes0() + Primes1() + Primes2() + Primes3()
  }

  lemma First64Consecutive()
    ensures First64Primes()[0] == 2 && First64Primes()[1] == 3 && First64Primes()[63] == 311
    ensures forall i :: 1 <= i < 63 ==> Next(First64Primes()[i], First64Primes()[i + 1])
  {
    Primes0Consecutive();
    Primes1Consecutive();
    Primes2Consecutive();
    Primes3Consecutive();
  }

  lemma TwoAndThree()
    ensures ListsBelow([2, 3], 313, 4)
  {
    TrialIsPrime(2);
    TrialIsPrime(3);
    forall c: nat | Accepted(c, 313) && c < 4 ensures c in [2, 3] {
      assert c == 2 || c == 3;
    }
  }

  lemma GapFails(p: nat, q: nat, c: nat)
    requires Next(p, q) && 2 < p < c < q
    ensures !PassesTrial(c)
  {
    hide PassesTrial, OddsFail;
    if c % 2 == 0 {
      EvenFails(c);
    } else {
      var k := (c - p - 2) / 2;
      assert c == (p + 2) + 2 * k;
      OddsFailMeans(p + 2, q, k);
    }
  }

  lemma NextGrows(s: seq<nat>, p: nat, q: nat)
    requires ListsBelow(s, 313, p + 1) && Next(p, q) && 2 < p && q <= 311
    ensures ListsBelow(s + [q], 313, q + 1)
  {
    forall c: nat | p < c < q ensures !Accepted(c, 313) {
      TrialIsPrime(c);
      GapFails(p, q, c);
    }
    TrialIsPrime(q);
    assert ListsBelow(s, 313, q);
    ListGrows(s, 313, q);
  }

  lemma {:induction false} ConsecutiveListed(p: seq<nat>, n: nat)
    requires 2 <= n <= |p| && p[0] == 2 && p[1] == 3 && p[n - 1] <= 311
    requires forall i :: 1 <= i < n - 1 ==> Next(p[i], p[i + 1])
    ensures p[n - 1] > 2 && ListsBelow(p[..n], 313, p[n - 1] + 1)
    decreases n
  {
    if n == 2 {
      TwoAndThree();
      assert p[..n] == [2, 3];
    } else {
      assert Next(p[n - 2], p[n - 1]);
      ConsecutiveListed(p, n - 1);
      NextGrows(p[..n - 1], p[n - 2], p[n - 1]);
      assert p[..n] == p[..n - 1] + [p[n - 1]];
    }
  }

  /** With the limit 313 and the count 64 of index.js, the sieve lists the first 64 primes. */
  lemma SieveOf313(found: seq<nat>)
    requires |found| == 64 && ListsBelow(found, 313, found[63] + 1)
    ensures found == First64Primes()
    ensures forall i :: 0 <= i < 64 ==> IsPrime(found[i])
    ensures forall c: nat :: IsPrime(c) && c <= found[63] ==> c in found
  {
    First64Consecutive();
    ConsecutiveListed(First64Primes(), 64);
    assert First64Primes()[..64] == First64Primes();
    ListingUnique(found, First64Primes(), 313);
  }
}
