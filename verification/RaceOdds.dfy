/** The odds of a race (GenerateOdds of internal/racegen/generators/odds.go): the WIN odds, then the FORECAST
    odds that are made from them. */
module RaceOdds {
  import opened CertifiedDraws
  import opened OddsVector
  import Coupling
  import Forecast
  import WinOdds

  /** The WIN odds of the race whose draws begin at position p. */
  ghost function WinAt(m: Analysis, c: WinOdds.Config, words: nat -> Word, p: nat, finishOrder: seq<int>)
    : (win: seq<real>)
    requires Fair(words)
    ensures |win| == c.n
  {
    var a := WinOdds.AttemptsAt(m, c, words, p);
    Coupling.Coupled(c.model, words, WinOdds.ChosenEnd(a), finishOrder, WinOdds.ChosenVector(a))
  }

  ghost function WinEnd(m: Analysis, c: WinOdds.Config, words: nat -> Word, p: nat, finishOrder: seq<int>): nat
    requires Fair(words)
  {
    var a := WinOdds.AttemptsAt(m, c, words, p);
    Coupling.CoupledEnd(c.model, words, WinOdds.ChosenEnd(a), finishOrder, c.n)
  }

  /** All odds of a race: one for each runner and one for each ordered pair, n * n in all, the pairs' factors
      drawn from where the WIN odds leave the word stream. */
  method GenerateOdds(m: Analysis, src: Source, c: WinOdds.Config, f: Forecast.Config, finishOrder: seq<int>)
      returns (out: seq<real>)
    requires Fair(src.words) && Forecast.ValidConfig(f, c.n)
    modifies src
    ensures |out| == c.n * c.n
    ensures var win := WinAt(m, c, src.words, old(src.pos), finishOrder);
            var p := WinEnd(m, c, src.words, old(src.pos), finishOrder);
            && Forecast.Inside(win, Forecast.Pairs(c.n))
            && out == win + Forecast.PairOdds(m.normal, f, src.words, p, win, Forecast.Pairs(c.n))
            && src.pos == Forecast.PairsEnd(m.normal, f, src.words, p, win, Forecast.Pairs(c.n))
  {
    hide *;
    WinIs(m, c, src.words, src.pos, finishOrder);
    var win := WinOdds.GenerateWinOdds(m, src, c, finishOrder);
    var forecast := Forecast.GenerateForecastOdds(m.normal, src, win, f);
    out := win + forecast;
    Square(c.n);
  }

  lemma {:induction false} WinIs(m: Analysis, c: WinOdds.Config, words: nat -> Word, p: nat, finishOrder: seq<int>)
    requires Fair(words)
    ensures var a := WinOdds.AttemptsAt(m, c, words, p);
            && WinAt(m, c, words, p, finishOrder) ==
                 Coupling.Coupled(c.model, words, WinOdds.ChosenEnd(a), finishOrder, WinOdds.ChosenVector(a))
            && WinEnd(m, c, words, p, finishOrder) ==
                 Coupling.CoupledEnd(c.model, words, WinOdds.ChosenEnd(a), finishOrder, c.n)
  {
    hide Fair, Coupling.Coupled, Coupling.CoupledEnd, WinOdds.ChosenEnd, WinOdds.ChosenVector, WinOdds.AttemptsAt;
  }

  lemma {:induction false} Square(n: nat)
    ensures n + n * (n - 1) == n * n
  {
  }
}
