/**
 * The search for an id that is not taken yet: the base itself, then the base
 * with -1, -2 and so on.
 */
module FreshIds {
  import opened Sequences
  import Decimal

  function Candidate(base: string, n: nat): string {
    if n == 0 then base else base + "-" + Decimal.Print(n)
  }

  lemma CandidatesDiffer(base: string, m: nat, n: nat)
    requires m < n
    ensures Candidate(base, m) != Candidate(base, n)
  {
    if m > 0 && Candidate(base, m) == Candidate(base, n) {
      var x, y := Decimal.Print(m), Decimal.Print(n);
      assert x == (base + "-" + x)[|base| + 1..] && y == (base + "-" + y)[|base| + 1..];
      Decimal.PrintInjective(m, n);
    }
  }

  ghost predicate TakenBelow(base: string, taken: set<string>, n: nat) {
    forall j: nat :: j < n ==> Candidate(base, j) in taken
  }

  /** The first candidate that is not taken, after `n` that are. */
  ghost predicate IsFirstFree(base: string, taken: set<string>, n: nat) {
    TakenBelow(base, taken, n) && Candidate(base, n) !in taken
  }

  ghost function FirstCandidates(base: string, n: nat): (s: set<string>)
    ensures forall x :: x in s <==> exists j: nat :: j < n && x == Candidate(base, j)
  {
    if n == 0 then {} else FirstCandidates(base, n - 1) + {Candidate(base, n - 1)}
  }

  lemma NextIsNew(base: string, n: nat)
    ensures Candidate(base, n) !in FirstCandidates(base, n)
  {
    if j: nat :| j < n && Candidate(base, n) == Candidate(base, j) {
      CandidatesDiffer(base, j, n);
    }
  }

  lemma {:induction false} CandidatesCounted(base: string, n: nat)
    ensures |FirstCandidates(base, n)| == n
  {
    if n > 0 {
      CandidatesCounted(base, n - 1);
      NextIsNew(base, n - 1);
    }
  }

  /** So many different candidates are taken only if there are so many ids. */
  lemma TakenFit(base: string, taken: set<string>, n: nat)
    requires TakenBelow(base, taken, n)
    ensures n <= |taken|
  {
    CandidatesCounted(base, n);
    SubsetCardinality(FirstCandidates(base, n), taken);
  }

  /** How many candidates are taken before the first free one. */
  ghost function TakenCount(base: string, taken: set<string>, from: nat): (n: nat)
    requires TakenBelow(base, taken, from)
    ensures IsFirstFree(base, taken, n) && n <= |taken|
    decreases |taken| + 1 - from
  {
    TakenFit(base, taken, from);
    if Candidate(base, from) in taken then
      TakenFit(base, taken, from + 1);
      TakenCount(base, taken, from + 1)
    else from
  }

  ghost function FreshId(base: string, taken: set<string>): (id: string)
    ensures id !in taken
    ensures base !in taken ==> id == base
  {
    Candidate(base, TakenCount(base, taken, 0))
  }

  lemma OneFirstFree(base: string, taken: set<string>, m: nat, n: nat)
    requires IsFirstFree(base, taken, m) && IsFirstFree(base, taken, n)
    ensures m == n
  {
  }

  /** If the base and the first numbered forms of it are taken, the fresh id is the next one. */
  lemma FreshIsNext(base: string, taken: set<string>, n: nat)
    requires n > 0 && base in taken && base + "-" + Decimal.Print(n) !in taken
    requires forall j: nat :: 0 < j < n ==> base + "-" + Decimal.Print(j) in taken
    ensures FreshId(base, taken) == base + "-" + Decimal.Print(n)
  {
    assert forall j: nat :: 0 < j ==> Candidate(base, j) == base + "-" + Decimal.Print(j);
    OneFirstFree(base, taken, n, TakenCount(base, taken, 0));
  }

  /** At most one more candidate is tried than there are ids. */
  method GenerateUniqueId(base: string, taken: set<string>) returns (candidate: string, probes: nat)
    ensures candidate == FreshId(base, taken)
    ensures 0 < probes <= |taken| + 1 && IsFirstFree(base, taken, probes - 1)
  {
    candidate, probes := base, 1;
    var suffix := 1;
    while candidate in taken
      invariant suffix == probes > 0 && candidate == Candidate(base, suffix - 1)
      invariant TakenBelow(base, taken, suffix - 1) && suffix <= |taken| + 1
      decreases |taken| + 1 - suffix
    {
      TakenFit(base, taken, suffix);
      candidate := base + "-" + Decimal.Print(suffix);
      suffix := suffix + 1;
      probes := probes + 1;
    }
  }
}
