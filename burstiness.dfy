/** `calculate_burstiness`: the population variance of the per-word counts
    divided by the square of their mean, in exact rational arithmetic. */
module Burstiness {
  import opened Common
  import opened Seqs
  import opened FreqDist

  /** Real multiplication, kept behind a function so that a square `x * x`
      is only ever reasoned about through the lemmas below. */
  function Mul(a: real, b: real): real {
    a * b
  }

  /** `x ** 2` */
  function Square(x: real): real {
    Mul(x, x)
  }

  lemma MulSigns(a: real, b: real)
    ensures a > 0.0 && b > 0.0 ==> Mul(a, b) > 0.0
    ensures a < 0.0 && b < 0.0 ==> Mul(a, b) > 0.0
    ensures a == 0.0 ==> Mul(a, b) == 0.0
  {
    if a < 0.0 && b < 0.0 {
      assert a * b == (-a) * (-b);
    }
  }

  /** A square is never negative, and it is 0 exactly at 0. */
  lemma SquarePositive(x: real)
    ensures Square(x) >= 0.0
    ensures Square(x) == 0.0 <==> x == 0.0
  {
    MulSigns(x, x);
  }

  lemma QuotientZero(a: real, b: real)
    requires b > 0.0
    ensures a / b == 0.0 <==> a == 0.0
  {
    if a != 0.0 {
      assert (a / b) * b == a;
    }
  }

  lemma MeanOfEqual(values: seq<nat>, c: nat)
    requires |values| > 0
    requires forall i :: 0 <= i < |values| ==> values[i] == c
    ensures Mean(values) == c as real
  {
    SumOfEqual(values, c);
    DivCancel(Sum(values) as real, |values| as real, c as real);
  }

  lemma DivCancel(s: real, n: real, c: real)
    requires n > 0.0 && s == Mul(n, c)
    ensures s / n == c
  {
  }

  /** `sum((freq - m) ** 2 for freq in values)` */
  function SquaredDeviations(values: seq<nat>, m: real): (total: real)
    ensures total >= 0.0
  {
    if values == [] then 0.0
    else
      SquarePositive(values[|values| - 1] as real - m);
      SquaredDeviations(values[..|values| - 1], m) + Square(values[|values| - 1] as real - m)
  }

  /** `variance / avg_freq ** 2` over the counts `values`, where
      `avg_freq = sum(values) / len(values)` and
      `variance = sum((v - avg_freq) ** 2 for v in values) / len(values)`.
      Python raises ZeroDivisionError when there are no counts (the first
      division) or when their mean is 0 (the last one). */
  function Burstiness(values: seq<nat>): (r: Result<real>)
    ensures r.Ok? <==> Sum(values) > 0
    ensures r.Err? ==> r.error == ZeroDivisionError
    ensures r.Ok? ==> r.value >= 0.0
  {
    if |values| == 0 then Err(ZeroDivisionError)
    else if Mean(values) == 0.0 then Err(ZeroDivisionError)
    else
      SquarePositive(Mean(values));
      Ok(Variance(values) / Square(Mean(values)))
  }

  /** `avg_freq = sum(values) / len(values)` */
  function Mean(values: seq<nat>): (avg: real)
    requires |values| > 0
    ensures avg >= 0.0
    ensures avg == 0.0 <==> Sum(values) == 0
  {
    QuotientZero(Sum(values) as real, |values| as real);
    Sum(values) as real / |values| as real
  }

  /** `variance = sum((freq - avg_freq) ** 2 for freq in values) / len(values)` */
  function Variance(values: seq<nat>): (variance: real)
    requires |values| > 0
    ensures variance >= 0.0
    ensures variance == 0.0 <==> SquaredDeviations(values, Mean(values)) == 0.0
  {
    QuotientZero(SquaredDeviations(values, Mean(values)), |values| as real);
    SquaredDeviations(values, Mean(values)) / |values| as real
  }

  /** The deviations vanish exactly when every value equals `m`. */
  lemma {:induction false} SquaredDeviationsZero(values: seq<nat>, m: real)
    ensures SquaredDeviations(values, m) == 0.0 <==> forall i :: 0 <= i < |values| ==> values[i] as real == m
  {
    if values != [] {
      var prefix, x := values[..|values| - 1], values[|values| - 1];
      var d := x as real - m;
      SquaredDeviationsZero(prefix, m);
      SquarePositive(d);
      assert SquaredDeviations(values, m) == SquaredDeviations(prefix, m) + Square(d);
      assert forall i :: 0 <= i < |prefix| ==> prefix[i] == values[i];
      assert values == prefix + [x];
    }
  }

  lemma {:induction false} SumOfEqual(values: seq<nat>, c: nat)
    requires forall i :: 0 <= i < |values| ==> values[i] == c
    ensures Sum(values) as real == Mul(|values| as real, c as real)
  {
    if values == [] {
      MulSigns(0.0, c as real);
    } else {
      var k := |values| - 1;
      SumOfEqual(values[..k], c);
      MulSucc(k as real, c as real);
    }
  }

  lemma MulSucc(k: real, c: real)
    ensures Mul(k + 1.0, c) == Mul(k, c) + c
  {
  }

  /** Burstiness is 0 exactly when all counts are the same. */
  lemma BurstinessZeroIff(values: seq<nat>)
    requires Burstiness(values).Ok?
    ensures Burstiness(values).value == 0.0 <==>
      forall i, j :: 0 <= i < |values| && 0 <= j < |values| ==> values[i] == values[j]
  {
    SquarePositive(Mean(values));
    QuotientZero(Variance(values), Square(Mean(values)));
    SquaredDeviationsZero(values, Mean(values));
    AllAtMean(values);
  }

  /** Every count equals the mean exactly when all counts are equal. */
  lemma AllAtMean(values: seq<nat>)
    requires |values| > 0
    ensures (forall i :: 0 <= i < |values| ==> values[i] as real == Mean(values)) <==>
      forall i, j :: 0 <= i < |values| && 0 <= j < |values| ==> values[i] == values[j]
  {
    if forall i, j :: 0 <= i < |values| && 0 <= j < |values| ==> values[i] == values[j] {
      MeanOfEqual(values, values[0]);
    }
  }

  /** The burstiness of a filtered token list: over the counts of its tally. */
  function TokensBurstiness(tokens: seq<Token>): Result<real> {
    Burstiness(Values(Tally(tokens)))
  }

  /** Defined exactly when at least one token survived filtering; otherwise
      Python's mean divides by `len(word_freq) == 0`. */
  lemma TokensBurstinessDefined(tokens: seq<Token>)
    ensures TokensBurstiness(tokens).Ok? <==> tokens != []
    ensures tokens == [] ==> TokensBurstiness(tokens) == Err(ZeroDivisionError)
  {
    TallySum(tokens);
  }

  /** Burstiness of the tally is 0 exactly when every distinct token occurs equally often. */
  lemma TokensBurstinessZeroIff(tokens: seq<Token>)
    requires tokens != []
    ensures TokensBurstiness(tokens).Ok?
    ensures TokensBurstiness(tokens).value == 0.0 <==>
      forall a, b :: a in tokens && b in tokens ==> Count(tokens, a) == Count(tokens, b)
  {
    var fd := Tally(tokens);
    var vs := Values(fd);
    TokensBurstinessDefined(tokens);
    BurstinessZeroIff(vs);
    TallyKeys(tokens);
    TallyEntries(tokens);
    var allEqual := forall i, j :: 0 <= i < |vs| && 0 <= j < |vs| ==> vs[i] == vs[j];
    if allEqual {
      forall a, b | a in tokens && b in tokens ensures Count(tokens, a) == Count(tokens, b) {
        var i, j := IndexOf(Keys(fd), a), IndexOf(Keys(fd), b);
        assert fd[i].0 == a && fd[j].0 == b;
        assert vs[i] == vs[j];
      }
    } else {
      var i, j :| 0 <= i < |vs| && 0 <= j < |vs| && vs[i] != vs[j];
      assert fd[i].0 in tokens && fd[j].0 in tokens;
      assert Count(tokens, fd[i].0) != Count(tokens, fd[j].0);
    }
  }

  /** Every word appearing once gives burstiness 0. */
  lemma AllDistinctBurstinessZero(tokens: seq<Token>)
    requires tokens != []
    requires NoDuplicates(tokens)
    ensures TokensBurstiness(tokens) == Ok(0.0)
  {
    forall a | a in tokens ensures Count(tokens, a) == 1 {
      CountDistinct(tokens, a);
    }
    TokensBurstinessZeroIff(tokens);
  }

  /** One distinct word has burstiness 0, whatever its count. */
  lemma SingleCountBurstiness(c: nat)
    requires c > 0
    ensures Burstiness([c]) == Ok(0.0)
  {
    var vs := [c];
    assert Sum(vs) == c;
    assert vs[..0] == [];
    assert SquaredDeviations(vs, c as real) == Square(0.0);
    SquarePositive(0.0);
    SquarePositive(c as real);
    QuotientZero(0.0, Square(c as real));
  }

  /** Counts 7, 1, 1, 1 (one word dominating) give burstiness 27/25, above 1. */
  lemma BurstinessOfSkewedCounts()
    ensures Burstiness([7, 1, 1, 1]) == Ok(27.0 / 25.0)
  {
    var vs := [7, 1, 1, 1];
    assert vs[..3] == [7, 1, 1] && [7, 1, 1][..2] == [7, 1] && [7, 1][..1] == [7] && [7][..0] == [];
    assert Sum(vs) == 10;
    assert Mean(vs) == 2.5;
    assert SquaredDeviations(vs, 2.5) == Square(4.5) + Square(-1.5) + Square(-1.5) + Square(-1.5);
    assert Variance(vs) == 27.0 / 4.0;
  }

  /** Counts 2, 1, 1 give burstiness 1/8, below 1. */
  lemma BurstinessOfMildCounts()
    ensures Burstiness([2, 1, 1]) == Ok(1.0 / 8.0)
  {
    var vs := [2, 1, 1];
    assert vs[..2] == [2, 1] && [2, 1][..1] == [2] && [2][..0] == [];
    assert Sum(vs) == 4;
    assert Mean(vs) == 4.0 / 3.0;
    assert SquaredDeviations(vs, 4.0 / 3.0) == Square(2.0 / 3.0) + Square(-1.0 / 3.0) + Square(-1.0 / 3.0);
    assert Variance(vs) == 2.0 / 9.0;
  }

  /** No counts, or counts that are all 0, make Python divide by zero. */
  lemma BurstinessUndefined()
    ensures Burstiness([]) == Err(ZeroDivisionError)
    ensures Burstiness([0, 0]) == Err(ZeroDivisionError)
  {
    assert [0, 0][..1] == [0];
  }
}
