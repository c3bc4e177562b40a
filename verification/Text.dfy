/** Text helpers shared by the services: trimming, decimal numerals and slug candidates. */
module Text {

  /** The characters `str.strip` removes. */
  predicate IsSpace(c: char) {
    || '\U{9}' <= c <= '\U{D}' || '\U{1C}' <= c <= '\U{20}'
    || c == '\U{85}' || c == '\U{A0}' || c == '\U{1680}' || '\U{2000}' <= c <= '\U{200A}'
    || c == '\U{2028}' || c == '\U{2029}' || c == '\U{202F}' || c == '\U{205F}' || c == '\U{3000}'
  }

  function TrimLeft(s: string): string {
    if s != [] && IsSpace(s[0]) then TrimLeft(s[1..]) else s
  }

  function TrimRight(s: string): string {
    if s != [] && IsSpace(s[|s| - 1]) then TrimRight(s[..|s| - 1]) else s
  }

  function Trim(s: string): string {
    TrimRight(TrimLeft(s))
  }

  lemma {:induction false} TrimLeftIsSuffix(s: string) returns (i: nat)
    ensures i <= |s| && TrimLeft(s) == s[i..] && forall k :: 0 <= k < i ==> IsSpace(s[k])
    ensures i < |s| ==> !IsSpace(s[i])
    decreases |s|
  {
    i := 0;
    if s != [] && IsSpace(s[0]) {
      i := TrimLeftIsSuffix(s[1..]);
      i := i + 1;
    }
  }

  lemma {:induction false} TrimRightIsPrefix(s: string) returns (j: nat)
    ensures j <= |s| && TrimRight(s) == s[..j] && forall k :: j <= k < |s| ==> IsSpace(s[k])
    ensures 0 < j ==> !IsSpace(s[j - 1])
    decreases |s|
  {
    j := |s|;
    if s != [] && IsSpace(s[|s| - 1]) {
      j := TrimRightIsPrefix(s[..|s| - 1]);
    }
  }

  /** Trimming cuts off exactly the space on both sides. */
  lemma TrimIsCore(s: string) returns (i: nat, j: nat)
    ensures i <= j <= |s| && Trim(s) == s[i..j]
    ensures forall k :: 0 <= k < i || j <= k < |s| ==> IsSpace(s[k])
    ensures i < j ==> !IsSpace(s[i]) && !IsSpace(s[j - 1])
  {
    i := TrimLeftIsSuffix(s);
    var core := s[i..];
    var n := TrimRightIsPrefix(core);
    j := i + n;
    assert core[..n] == s[i..j];
    forall k | j <= k < |s| ensures IsSpace(s[k]) {
      assert s[k] == core[k - i];
    }
    assert n == 0 || core[n - 1] == s[j - 1];
  }

  /** Trimming again changes nothing. */
  lemma TrimIdempotent(s: string)
    ensures Trim(Trim(s)) == Trim(s)
  {
    var i, j := TrimIsCore(s);
    hide Trim, IsSpace;
    var m, n := TrimIsCore(s[i..j]);
    if i < j {
      assert !IsSpace(s[i..j][0]) && !IsSpace(s[i..j][j - i - 1]);
    }
  }

  function Digit(d: nat): char
    requires d < 10
  {
    '0' + d as char
  }

  function Decimal(n: nat): string {
    if n < 10 then [Digit(n)] else Decimal(n / 10) + [Digit(n % 10)]
  }

  /** The number that a row of decimal digits stands for. */
  function Value(digits: string): nat
    requires forall i :: 0 <= i < |digits| ==> '0' <= digits[i] <= '9'
  {
    if digits == [] then 0
    else 10 * Value(digits[..|digits| - 1]) + (digits[|digits| - 1] as int - '0' as int)
  }

  /** A numeral consists of digits, does not start with a zero unless it is "0", and reads back. */
  lemma {:induction false} DecimalReadsBack(n: nat)
    ensures Decimal(n) != [] && forall i :: 0 <= i < |Decimal(n)| ==> '0' <= Decimal(n)[i] <= '9'
    ensures Value(Decimal(n)) == n && (Decimal(n)[0] == '0' ==> n == 0)
    decreases n
  {
    if n < 10 {
    } else {
      DecimalReadsBack(n / 10);
      assert Decimal(n)[..|Decimal(n)| - 1] == Decimal(n / 10);
    }
  }

  lemma DecimalInjective(m: nat, n: nat)
    requires Decimal(m) == Decimal(n)
    ensures m == n
  {
    DecimalReadsBack(m);
    DecimalReadsBack(n);
  }

  /** The slugs tried for a base: the base itself, then base-2, base-3, ... */
  function Candidate(base: string, k: nat): string {
    if k == 0 then base else base + "-" + Decimal(k + 1)
  }

  lemma CandidateInjective(base: string, j: nat, k: nat)
    requires Candidate(base, j) == Candidate(base, k)
    ensures j == k
  {
    if j != 0 && k != 0 {
      assert (base + "-" + Decimal(j + 1))[|base| + 1..] == Decimal(j + 1);
      assert (base + "-" + Decimal(k + 1))[|base| + 1..] == Decimal(k + 1);
      DecimalInjective(j + 1, k + 1);
    }
  }

  /** Pigeonhole: `k` different candidates that are all taken need at least `k` taken slugs. */
  lemma {:induction false} TakenCandidates(taken: set<string>, base: string, k: nat)
    requires forall j: nat :: j < k ==> Candidate(base, j) in taken
    ensures k <= |taken|
    decreases k
  {
    if k == 0 {
    } else {
      var last := Candidate(base, k - 1);
      forall j: nat | j < k - 1 ensures Candidate(base, j) in taken - {last} {
        if Candidate(base, j) == last {
          CandidateInjective(base, j, k - 1);
        }
      }
      TakenCandidates(taken - {last}, base, k - 1);
    }
  }

  /** The first free candidate from the `k`-th on. */
  function FreeSlug(taken: set<string>, base: string, k: nat): string
    requires forall j: nat :: j < k ==> Candidate(base, j) in taken
    decreases |taken| + 1 - k
  {
    TakenCandidates(taken, base, k);
    if Candidate(base, k) in taken then FreeSlug(taken, base, k + 1) else Candidate(base, k)
  }

  /** The search ends within |taken| + 1 probes, at the first candidate that is not taken. */
  lemma {:induction false} FreeSlugIsFirst(taken: set<string>, base: string, k: nat) returns (n: nat)
    requires forall j: nat :: j < k ==> Candidate(base, j) in taken
    ensures FreeSlug(taken, base, k) == Candidate(base, n) && Candidate(base, n) !in taken
    ensures k <= n <= |taken| && forall j: nat :: j < n ==> Candidate(base, j) in taken
    decreases |taken| + 1 - k
  {
    TakenCandidates(taken, base, k);
    if Candidate(base, k) in taken {
      n := FreeSlugIsFirst(taken, base, k + 1);
    } else {
      n := k;
    }
  }

  /** The base itself when it is free, else base-2, base-3 and so on up to the first free one. */
  ghost predicate FirstFree(taken: set<string>, base: string, slug: string) {
    && slug !in taken
    && (base !in taken ==> slug == base)
    && (base in taken ==>
          exists n: nat ::
            && 2 <= n && slug == base + "-" + Decimal(n)
            && forall m: nat :: 2 <= m < n ==> base + "-" + Decimal(m) in taken)
  }

  lemma FreeSlugIsFirstFree(taken: set<string>, base: string)
    ensures FirstFree(taken, base, FreeSlug(taken, base, 0))
  {
    var n := FreeSlugIsFirst(taken, base, 0);
    hide FreeSlug, Decimal;
    if n != 0 {
      assert Candidate(base, 0) in taken;
      assert Candidate(base, n) == base + "-" + Decimal(n + 1);
      forall m: nat | 2 <= m < n + 1 ensures base + "-" + Decimal(m) in taken {
        assert Candidate(base, m - 1) in taken;
      }
    }
  }

  /** The probing loop. */
  method UniqueSlug(taken: set<string>, base: string) returns (slug: string)
    ensures slug == FreeSlug(taken, base, 0)
    ensures FirstFree(taken, base, slug)
  {
    hide FirstFree, Decimal;
    slug := base;
    var n := 2;
    while slug in taken
      invariant 2 <= n && slug == Candidate(base, n - 2)
      invariant forall j: nat :: j < n - 2 ==> Candidate(base, j) in taken
      invariant FreeSlug(taken, base, n - 2) == FreeSlug(taken, base, 0)
      decreases |taken| + 2 - n
    {
      TakenCandidates(taken, base, n - 2);
      slug := base + "-" + Decimal(n);
      n := n + 1;
      TakenCandidates(taken, base, n - 2);
    }
    FreeSlugIsFirstFree(taken, base);
  }
}
