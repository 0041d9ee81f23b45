/** Choosing an unused name for a symbol (simulatron-silk, linker.rs). */
module Names {
  import opened Bytes
  import opened Wrappers
  import opened ObjectData

  function Decimal(n: nat): (digits: string)
    ensures digits != ""
  {
    var last := ["0123456789"[n % 10]];
    if n < 10 then last else Decimal(n / 10) + last
  }

  lemma {:induction false} DecimalInjective(m: nat, n: nat)
    requires Decimal(m) == Decimal(n)
    ensures m == n
    decreases m
  {
    var a, b := Decimal(m), Decimal(n);
    assert a[|a| - 1] == "0123456789"[m % 10] && b[|b| - 1] == "0123456789"[n % 10];
    assert m % 10 == n % 10;
    assert |a| > 1 <==> m >= 10;
    assert |b| > 1 <==> n >= 10;
    if m >= 10 && n >= 10 {
      assert a[..|a| - 1] == Decimal(m / 10) && b[..|b| - 1] == Decimal(n / 10);
      DecimalInjective(m / 10, n / 10);
    }
  }

  function Candidate(base: string, suffix: nat): string { base + Decimal(suffix) }

  lemma CandidatesDistinct(base: string, i: nat, j: nat)
    requires Candidate(base, i) == Candidate(base, j)
    ensures i == j
  {
    assert Candidate(base, i)[|base|..] == Decimal(i) && Candidate(base, j)[|base|..] == Decimal(j);
    DecimalInjective(i, j);
  }

  /** A set holding the first `n` candidates has at least `n` elements. */
  lemma {:induction false} CandidatesNeedRoom(names: set<string>, base: string, n: nat)
    requires forall i :: 0 <= i < n ==> Candidate(base, i) in names
    ensures |names| >= n
    decreases n
  {
    if n > 0 {
      var rest := names - {Candidate(base, n - 1)};
      forall i | 0 <= i < n - 1 ensures Candidate(base, i) in rest {
        if Candidate(base, i) == Candidate(base, n - 1) {
          CandidatesDistinct(base, i, n - 1);
        }
      }
      CandidatesNeedRoom(rest, base, n - 1);
      assert names == rest + {Candidate(base, n - 1)};
    }
  }

  ghost predicate IsFirstUnused(symbols: SymbolTable, base: string, suffix: nat) {
    && suffix < WORD_LIMIT
    && Candidate(base, suffix) !in symbols
    && forall i :: 0 <= i < suffix ==> Candidate(base, i) in symbols
  }

  /** The first unused candidate. The search can only fail once the table holds 2^32 symbols. */
  method GenNonConflictingName(symbols: SymbolTable, base: string) returns (name: Option<string>)
    ensures name.Some? ==> name.value !in symbols
    ensures name.Some? ==> exists suffix: nat :: IsFirstUnused(symbols, base, suffix) && name.value == Candidate(base, suffix)
    ensures name.None? ==> |symbols.Keys| >= WORD_LIMIT
  {
    for suffix := 0 to WORD_LIMIT
      invariant forall i :: 0 <= i < suffix ==> Candidate(base, i) in symbols
    {
      var candidate := Candidate(base, suffix);
      if candidate !in symbols {
        assert IsFirstUnused(symbols, base, suffix);
        return Some(candidate);
      }
    }
    CandidatesNeedRoom(symbols.Keys, base, WORD_LIMIT);
    return None;
  }
}
