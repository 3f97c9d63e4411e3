/** The distribution calculator: a snapshot of scores shares a fixed reward
    pool in proportion to score, each share rounded down. */
module Payout {
  import opened Decimal
  import opened Sums
  import Ledger

  /** The reward pool of one payout, in the currency's smallest unit. */
  const PAYOUT: nat := 500000

  datatype PayoutError = DivisionByZero

  datatype Result<T, E> = Ok(value: T) | Err(error: E)

  /** The share of an address with score `s` when the scores total `total`. */
  function Share(s: nat, total: nat): (q: nat)
    requires total > 0
    ensures total * q <= s * PAYOUT < total * (q + 1)
  {
    s * PAYOUT / total
  }

  /** The payout of every address of a snapshot. */
  function Distribution(scores: map<string, nat>, total: nat): (r: map<string, nat>)
    requires total > 0
    ensures r.Keys == scores.Keys
  {
    map k | k in scores :: Share(scores[k], total)
  }

  /** The number of addresses with a positive score. */
  function NumPositive(m: map<string, nat>): nat {
    |set k | k in m && m[k] > 0|
  }

  /** The score file of a snapshot as read back: each decimal text value turned into its integer. */
  function ParseScores(file: map<string, string>): (scores: map<string, nat>)
    requires forall k :: k in file ==> IsDigitString(file[k])
    ensures scores.Keys == file.Keys
  {
    map k | k in file :: assert IsDigitString(file[k]); ParseDecimal(file[k])
  }

  /** Sums the scores, then computes each address's share of the pool as decimal
      text. A snapshot whose scores are all zero fails on its first division; an
      empty snapshot performs no division and yields no outputs. */
  method ComputePayouts(scores: map<string, nat>) returns (r: Result<map<string, string>, PayoutError>)
    ensures r.Err? <==> scores != map[] && SumValues(scores) == 0
    ensures r.Ok? ==> r.value.Keys == scores.Keys
    ensures r.Ok? && scores != map[] ==>
              SumValues(scores) > 0 &&
              forall k :: k in r.value ==>
                IsCanonical(r.value[k]) &&
                ParseDecimal(r.value[k]) == Distribution(scores, SumValues(scores))[k]
  {
    var scoreTotal := TotalScores(scores);
    if scoreTotal == 0 && scores != map[] {
      // The first division of the payout loop throws before any output is kept.
      return Err(DivisionByZero);
    }
    var outputs := RenderShares(scores, scoreTotal);
    r := Ok(outputs);
  }

  /** The second loop of the calculator: each address's share of the pool, as decimal text. */
  method RenderShares(scores: map<string, nat>, scoreTotal: nat) returns (outputs: map<string, string>)
    requires scoreTotal > 0 || scores == map[]
    ensures outputs.Keys == scores.Keys
    ensures forall k :: k in outputs ==>
              scoreTotal > 0 && IsCanonical(outputs[k]) && ParseDecimal(outputs[k]) == Share(scores[k], scoreTotal)
  {
    outputs := map[];
    var todo := scores.Keys;
    while todo != {}
      invariant todo <= scores.Keys
      invariant outputs.Keys == scores.Keys - todo
      invariant forall k :: k in outputs ==> scoreTotal > 0 && outputs[k] == FormatDecimal(Share(scores[k], scoreTotal))
      decreases |todo|
    {
      var k :| k in todo;
      outputs := outputs[k := FormatDecimal(Share(scores[k], scoreTotal))];
      todo := todo - {k};
    }
    forall k | k in outputs
      ensures ParseDecimal(outputs[k]) == Share(scores[k], scoreTotal)
    {
      ParseFormat(Share(scores[k], scoreTotal));
    }
  }

  /** The first loop of the calculator: the sum of the scores, one address at a time. */
  method TotalScores(scores: map<string, nat>) returns (scoreTotal: nat)
    ensures scoreTotal == SumValues(scores)
  {
    scoreTotal := 0;
    ghost var rest := scores;
    var keys := scores.Keys;
    while keys != {}
      invariant keys == rest.Keys
      invariant forall k :: k in rest ==> k in scores && rest[k] == scores[k]
      invariant scoreTotal + SumValues(rest) == SumValues(scores)
      decreases |keys|
    {
      var k :| k in keys;
      SumValuesRemove(rest, k);
      scoreTotal := scoreTotal + scores[k];
      rest := rest - {k};
      keys := keys - {k};
    }
    assert rest == map[];
  }

  /** One address's rounding: its exact share times the total is its payout times the total plus a remainder below the total, and zero for a zero score. */
  lemma ShareRemainder(s: nat, total: nat)
    requires total > 0
    ensures var rem := s * PAYOUT - total * Share(s, total);
            0 <= rem < total && (s == 0 ==> rem == 0)
  {
    var q := s * PAYOUT / total;
    assert s * PAYOUT == total * q + (s * PAYOUT) % total;
  }

  lemma NumPositiveRemove(m: map<string, nat>, k: string)
    requires k in m
    ensures NumPositive(m) == NumPositive(m - {k}) + (if m[k] > 0 then 1 else 0)
  {
    var all := set j | j in m && m[j] > 0;
    var rest := set j | j in m - {k} && (m - {k})[j] > 0;
    if m[k] > 0 {
      assert rest == all - {k};
    } else {
      assert rest == all;
    }
  }

  /** Summed over a snapshot, with the shares taken against a fixed total, the rounding loses between
      nothing and less than one unit of the total per address with a positive score. */
  lemma {:induction false} ShareSums(m: map<string, nat>, total: nat)
    requires total > 0
    ensures total * SumValues(Distribution(m, total)) <= PAYOUT * SumValues(m)
    ensures PAYOUT * SumValues(m) - total * SumValues(Distribution(m, total)) <= (total - 1) * NumPositive(m)
    decreases |m|
  {
    if m == map[] {
      assert Distribution(m, total) == map[];
      assert SumValues(m) == 0;
    } else {
      var k := Pick(m.Keys);
      var m' := m - {k};
      assert |m'.Keys| == |m.Keys| - 1 by { assert m'.Keys == m.Keys - {k}; }
      ShareSums(m', total);
      SumValuesRemove(m, k);
      DistributionRemove(m, k, total);
      NumPositiveRemove(m, k);
      ShareRemainder(m[k], total);
      StepArith(m[k], Share(m[k], total), SumValues(m'), SumValues(Distribution(m', total)), NumPositive(m'), total,
                SumValues(m), SumValues(Distribution(m, total)), NumPositive(m));
    }
  }

  lemma DistributionRemove(m: map<string, nat>, k: string, total: nat)
    requires total > 0 && k in m
    ensures SumValues(Distribution(m, total)) == Share(m[k], total) + SumValues(Distribution(m - {k}, total))
  {
    var d := Distribution(m, total);
    assert d - {k} == Distribution(m - {k}, total);
    SumValuesRemove(d, k);
  }

  /** The arithmetic of one step of ShareSums, with every sum named. */
  lemma StepArith(s: nat, q: nat, sm: nat, sd: nat, np: nat, total: nat, sumM: nat, sumD: nat, npM: nat)
    requires total > 0
    requires 0 <= s * PAYOUT - total * q < total
    requires s == 0 ==> s * PAYOUT - total * q == 0
    requires total * sd <= PAYOUT * sm
    requires PAYOUT * sm - total * sd <= (total - 1) * np
    requires sumM == s + sm && sumD == q + sd && npM == np + (if s > 0 then 1 else 0)
    ensures total * sumD <= PAYOUT * sumM
    ensures PAYOUT * sumM - total * sumD <= (total - 1) * npM
  {
    assert PAYOUT * sumM == s * PAYOUT + PAYOUT * sm;
    assert total * sumD == total * q + total * sd;
    assert (total - 1) * npM == (total - 1) * np + (if s > 0 then total - 1 else 0);
  }

  /** Each address with a positive score contributes at least one to the total. */
  lemma {:induction false} NumPositiveBound(m: map<string, nat>)
    ensures NumPositive(m) <= SumValues(m)
    ensures SumValues(m) > 0 ==> NumPositive(m) > 0
    decreases |m|
  {
    if m != map[] {
      var k := Pick(m.Keys);
      var m' := m - {k};
      assert |m'.Keys| == |m.Keys| - 1 by { assert m'.Keys == m.Keys - {k}; }
      NumPositiveBound(m');
      SumValuesRemove(m, k);
      NumPositiveRemove(m, k);
    }
  }

  /** The pool is never overspent, and what is left over is less than the number of
      addresses with a positive score, hence less than the score total. */
  lemma DistributionBounds(scores: map<string, nat>)
    requires SumValues(scores) > 0
    ensures var paid := SumValues(Distribution(scores, SumValues(scores)));
            paid <= PAYOUT &&
            PAYOUT - paid < NumPositive(scores) &&
            NumPositive(scores) <= SumValues(scores)
  {
    var total := SumValues(scores);
    ShareSums(scores, total);
    NumPositiveBound(scores);
    BoundsArith(total, SumValues(Distribution(scores, total)), NumPositive(scores));
  }

  /** From total * paid <= PAYOUT * total and PAYOUT * total - total * paid <= (total - 1) * n,
      with n >= 1: paid <= PAYOUT and PAYOUT - paid < n. */
  lemma BoundsArith(total: nat, paid: nat, n: nat)
    requires total > 0 && n > 0
    requires total * paid <= PAYOUT * total
    requires PAYOUT * total - total * paid <= (total - 1) * n
    ensures paid <= PAYOUT && PAYOUT - paid < n
  {
    var tp, pt, tn := total * paid, PAYOUT * total, total * n;
    if paid > PAYOUT {
      MulStrict(total, PAYOUT, paid);
    }
    assert (total - 1) * n == tn - n;
    if PAYOUT - paid >= n {
      MulMono(total, n, PAYOUT - paid);
    }
  }

  lemma MulStrict(c: nat, a: nat, b: nat)
    requires c > 0 && a < b
    ensures c * a < c * b
  {
  }

  lemma MulMono(c: nat, a: nat, b: nat)
    requires a <= b
    ensures c * a <= c * b
  {
  }

  /** A zero score is paid nothing, and a larger score is never paid less. */
  lemma ShareMonotone(s1: nat, s2: nat, total: nat)
    requires total > 0
    ensures Share(0, total) == 0
    ensures s1 <= s2 ==> Share(s1, total) <= Share(s2, total)
  {
    if s1 <= s2 {
      assert s1 * PAYOUT <= s2 * PAYOUT;
      DivMonotone(s1 * PAYOUT, s2 * PAYOUT, total);
    }
  }

  lemma DivMonotone(a: nat, b: nat, d: nat)
    requires d > 0 && a <= b
    ensures a / d <= b / d
  {
    var qa, qb := a / d, b / d;
    assert a == d * qa + a % d;
    assert b == d * qb + b % d;
    if qa > qb {
      MulMono(d, qb + 1, qa);
    }
  }

  /** Scores {A: 1, B: 3} share the pool as 125000 and 375000, with nothing left over. */
  lemma TwoAddressExample()
    ensures var scores := map["A" := 1, "B" := 3];
            SumValues(scores) == 4 &&
            Distribution(scores, 4) == map["A" := 125000, "B" := 375000] &&
            SumValues(Distribution(scores, 4)) == PAYOUT
  {
    var scores := map["A" := 1, "B" := 3];
    SumValuesRemove(scores, "A");
    assert scores - {"A"} == map["B" := 3];
    SumValuesRemove(map["B" := 3], "B");
    assert map["B" := 3] - {"B"} == map[];
    var d := Distribution(scores, 4);
    assert d == map["A" := 125000, "B" := 375000];
    SumValuesRemove(d, "A");
    assert d - {"A"} == map["B" := 375000];
    SumValuesRemove(map["B" := 375000], "B");
    assert map["B" := 375000] - {"B"} == map[];
  }

  /** A snapshot the engine wrote reads back as exactly the scores of the period table it was taken from. */
  lemma SnapshotReadsBack(t: Ledger.Table)
    ensures var file := Ledger.ScoreSnapshot(t);
            (forall k :: k in file ==> IsDigitString(file[k])) &&
            ParseScores(file) == map k | k in t :: t[k].score
  {
  }
}
