/**
  System losses after the PVWatts model: nine named loss percentages (soiling, wiring,
  availability, ...) combine multiplicatively into one total loss percentage, which is
  then applied to the DC power of a module.
*/
module SystemLoss {

  datatype Loss = Loss(name: string, percent: real)

  /** The loss table, in the order the entries are put into the map. */
  const SystemLosses: seq<Loss> := [
    Loss("soiling", 2.0),
    Loss("snow", 0.0),
    Loss("mismatch", 2.0),
    Loss("wiring", 2.0),
    Loss("connections", 0.5),
    Loss("light-induced degradation", 1.5),
    Loss("nameplate rating", 1.0),
    Loss("age", 0.0),
    Loss("availability", 3.0)
  ]

  function Percents(losses: seq<Loss>): (ps: seq<real>)
    ensures |ps| == |losses|
    ensures forall i :: 0 <= i < |losses| ==> ps[i] == losses[i].percent
  {
    seq(|losses|, i requires 0 <= i < |losses| => losses[i].percent)
  }

  /** The product of the factors `1 - loss / 100`. */
  function DerateFactor(percents: seq<real>): real {
    if |percents| == 0 then 1.0 else (1.0 - percents[0] / 100.0) * DerateFactor(percents[1..])
  }

  /** Every percentage lies in [0, 100). */
  predicate Proper(percents: seq<real>) {
    forall i :: 0 <= i < |percents| ==> 0.0 <= percents[i] < 100.0
  }

  lemma {:induction false} DerateFactorWithin(percents: seq<real>)
    requires Proper(percents)
    ensures 0.0 < DerateFactor(percents) <= 1.0
  {
    if |percents| > 0 {
      var rest := percents[1..];
      assert Proper(rest) by {
        forall i | 0 <= i < |rest| ensures 0.0 <= rest[i] < 100.0 {
          assert rest[i] == percents[i + 1];
        }
      }
      DerateFactorWithin(rest);
      var f, d := 1.0 - percents[0] / 100.0, DerateFactor(rest);
      assert 0.0 <= percents[0] < 100.0;
      assert 0.0 < f <= 1.0;
      ProductWithin(f, d);
      assert DerateFactor(percents) == f * d;
    }
  }

  lemma {:induction false} ProductWithin(f: real, d: real)
    requires 0.0 < f <= 1.0 && 0.0 < d <= 1.0
    ensures 0.0 < f * d <= d
  {
    assert d - f * d == (1.0 - f) * d;
  }

  lemma {:induction false} DerateFactorNoLoss(percents: seq<real>)
    requires forall i :: 0 <= i < |percents| ==> percents[i] == 0.0
    ensures DerateFactor(percents) == 1.0
  {
    if |percents| > 0 {
      DerateFactorNoLoss(percents[1..]);
    }
  }

  lemma {:induction false} DerateFactorFacts(percents: seq<real>)
    ensures Proper(percents) ==> 0.0 < DerateFactor(percents) <= 1.0
    ensures (forall i :: 0 <= i < |percents| ==> percents[i] == 0.0) ==> DerateFactor(percents) == 1.0
  {
    if Proper(percents) {
      DerateFactorWithin(percents);
    }
    if forall i :: 0 <= i < |percents| ==> percents[i] == 0.0 {
      DerateFactorNoLoss(percents);
    }
  }

  /** `calcTotalSystemLoss`: the iteration order of the hash map's values is `percents`. */
  function CalcTotalSystemLoss(percents: seq<real>): (total: real)
    ensures Proper(percents) ==> 0.0 <= total < 100.0
    ensures (forall i :: 0 <= i < |percents| ==> percents[i] == 0.0) ==> total == 0.0
    ensures |percents| == 1 ==> total == percents[0]
  {
    DerateFactorFacts(percents);
    if |percents| == 1 then
      assert DerateFactor(percents) == 1.0 - percents[0] / 100.0 by {
        assert DerateFactor(percents[1..]) == 1.0;
      }
      100.0 * (1.0 - DerateFactor(percents))
    else
      100.0 * (1.0 - DerateFactor(percents))
  }

  /** Removing one factor from anywhere in the product. */
  lemma {:induction false} DerateFactorRemove(percents: seq<real>, j: int)
    requires 0 <= j < |percents|
    ensures DerateFactor(percents)
         == (1.0 - percents[j] / 100.0) * DerateFactor(percents[..j] + percents[j + 1..])
  {
    if j > 0 {
      var rest := percents[1..];
      DerateFactorRemove(rest, j - 1);
      var without := percents[..j] + percents[j + 1..];
      assert without[0] == percents[0];
      assert without[1..] == rest[..j - 1] + rest[j..];
      var a, b, c := 1.0 - percents[0] / 100.0, 1.0 - percents[j] / 100.0, DerateFactor(without[1..]);
      assert a * (b * c) == b * (a * c);
    } else {
      assert percents[..j] + percents[j + 1..] == percents[1..];
    }
  }

  /** The total loss does not depend on the order in which the hash map hands out its values. */
  lemma {:induction false} TotalLossOrderIndependent(xs: seq<real>, ys: seq<real>)
    requires multiset(xs) == multiset(ys)
    ensures CalcTotalSystemLoss(xs) == CalcTotalSystemLoss(ys)
  {
    DerateFactorPermutation(xs, ys);
  }

  lemma {:induction false} DerateFactorPermutation(xs: seq<real>, ys: seq<real>)
    requires multiset(xs) == multiset(ys)
    ensures DerateFactor(xs) == DerateFactor(ys)
    decreases |xs|
  {
    if |xs| > 0 {
      assert xs[0] in multiset(ys);
      var j := IndexOf(ys, xs[0]);
      var rest := ys[..j] + ys[j + 1..];
      RemoveSameElement(xs, ys, j);
      DerateFactorPermutation(xs[1..], rest);
      SameFirstFactor(xs, ys, j);
    } else {
      assert |ys| == |multiset(ys)|;
    }
  }

  /** The inductive step: the first factor of `xs`, taken out of `ys` at `j`, leaves products
      that agree. */
  lemma {:induction false} SameFirstFactor(xs: seq<real>, ys: seq<real>, j: int)
    requires 0 < |xs| && 0 <= j < |ys| && ys[j] == xs[0]
    requires DerateFactor(xs[1..]) == DerateFactor(ys[..j] + ys[j + 1..])
    ensures DerateFactor(xs) == DerateFactor(ys)
  {
    DerateFactorFirst(xs);
    DerateFactorRemove(ys, j);
    EqualTimesEqual(1.0 - xs[0] / 100.0, DerateFactor(xs[1..]), DerateFactor(ys[..j] + ys[j + 1..]));
  }

  lemma {:induction false} DerateFactorFirst(ps: seq<real>)
    requires 0 < |ps|
    ensures DerateFactor(ps) == (1.0 - ps[0] / 100.0) * DerateFactor(ps[1..])
  {
  }

  lemma {:induction false} EqualTimesEqual(f: real, a: real, b: real)
    requires a == b
    ensures f * a == f * b
  {
  }

  /** The first position of `x` in `ys`. */
  function IndexOf(ys: seq<real>, x: real): (j: int)
    requires x in ys
    ensures 0 <= j < |ys| && ys[j] == x
    ensures forall k :: 0 <= k < j ==> ys[k] != x
  {
    if ys[0] == x then 0 else IndexOf(ys[1..], x) + 1
  }

  /** Taking the same value out of two permutations of each other leaves permutations. */
  lemma {:induction false} RemoveSameElement(xs: seq<real>, ys: seq<real>, j: int)
    requires multiset(xs) == multiset(ys)
    requires 0 < |xs| && 0 <= j < |ys| && ys[j] == xs[0]
    ensures multiset(xs[1..]) == multiset(ys[..j] + ys[j + 1..])
  {
    assert xs == [xs[0]] + xs[1..];
    assert ys == ys[..j] + [ys[j]] + ys[j + 1..];
    assert multiset(xs[1..]) == multiset(xs) - multiset{xs[0]};
    assert multiset(ys[..j] + ys[j + 1..]) == multiset(ys) - multiset{ys[j]};
  }

  /** The total system loss the service computes once, at construction. */
  const TotalSystemLoss: real := CalcTotalSystemLoss(Percents(SystemLosses))

  /** The table holds nine distinct names with proper percentages, and their combined loss
      is about 11.418 percent. */
  lemma TotalSystemLossValue()
    ensures |SystemLosses| == 9
    ensures forall i, j :: 0 <= i < j < |SystemLosses| ==> SystemLosses[i].name != SystemLosses[j].name
    ensures Proper(Percents(SystemLosses))
    ensures 11.418 < TotalSystemLoss < 11.419
  {
    LossNamesDistinct();
    PercentsOfTable();
    LossPercentsProduct();
    assert TotalSystemLoss == 100.0 * (1.0 - DerateFactor(LossPercents));
  }

  lemma LossNamesDistinct()
    ensures forall i, j :: 0 <= i < j < |SystemLosses| ==> SystemLosses[i].name != SystemLosses[j].name
  {
    var ns := seq(|SystemLosses|, i requires 0 <= i < |SystemLosses| => SystemLosses[i].name);
    assert ns == ["soiling", "snow", "mismatch", "wiring", "connections",
                  "light-induced degradation", "nameplate rating", "age", "availability"];
    forall i, j | 0 <= i < j < |SystemLosses| ensures SystemLosses[i].name != SystemLosses[j].name {
      assert SystemLosses[i].name == ns[i] && SystemLosses[j].name == ns[j];
    }
  }

  lemma PercentsOfTable()
    ensures Percents(SystemLosses) == LossPercents
    ensures Proper(LossPercents)
  {
  }

  const LossPercents: seq<real> := [2.0, 0.0, 2.0, 2.0, 0.5, 1.5, 1.0, 0.0, 3.0]

  lemma LossPercentsProduct()
    ensures DerateFactor(LossPercents) == 0.88581793104882
  {
    var ps := LossPercents;
    assert DerateFactor(ps[9..]) == 1.0;
    assert DerateFactor(ps[8..]) == 0.97;
    assert DerateFactor(ps[7..]) == 0.97;
    assert DerateFactor(ps[6..]) == 0.9603;
    assert DerateFactor(ps[5..]) == 0.9458955;
    assert DerateFactor(ps[4..]) == 0.9411660225;
    assert DerateFactor(ps[3..]) == 0.92234270205;
    assert DerateFactor(ps[2..]) == 0.903895848009;
    assert DerateFactor(ps[1..]) == 0.903895848009;
    assert DerateFactor(ps) == 0.88581793104882;
  }

  /** `getDCpowerWithSystemLosses`.  The source writes `dcPower * 1 - totalSystemLoss / 100`:
      the loss is subtracted as a constant of about 0.114 W, instead of scaling the power. */
  function GetDcPowerWithSystemLosses(dcPower: real): (p: real)
    ensures dcPower - 0.11419 < p < dcPower - 0.11418
  {
    TotalSystemLossValue();
    dcPower * 1.0 - TotalSystemLoss / 100.0
  }

  /** Adding power before the losses adds the same power after them. */
  lemma {:induction false} LossIsAnOffset(dcPower: real, extra: real)
    ensures GetDcPowerWithSystemLosses(dcPower + extra) == GetDcPowerWithSystemLosses(dcPower) + extra
  {
  }

  /** The percentage derating `dcPower * (1 - total / 100)` agrees with the function only
      at one watt; at no power at all the function returns a negative power. */
  lemma {:induction false} LossScalesOnlyAtOneWatt(dcPower: real)
    ensures GetDcPowerWithSystemLosses(dcPower) == dcPower * (1.0 - TotalSystemLoss / 100.0)
        <==> dcPower == 1.0
    ensures GetDcPowerWithSystemLosses(0.0) < 0.0
  {
    TotalSystemLossValue();
    var t, d := TotalSystemLoss / 100.0, dcPower - 1.0;
    var dt := dcPower * t;
    assert dcPower * (1.0 - t) == dcPower - dt;
    assert dt - t == d * t;
    if d != 0.0 {
      assert d * t != 0.0 by { if d > 0.0 { assert d * t > 0.0; } else { assert d * t < 0.0; } }
    }
  }
}
