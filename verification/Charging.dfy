/**
 * What a request is charged in micro-credits: each kind of token at its price, times the
 * multiplier, rounded up once; and what it must reserve before it starts.
 */
module Charging {
  import opened Pricing

  function CeilOf(x: real): (r: int)
    ensures r as real - 1.0 < x <= r as real
  {
    -((-x).Floor)
  }

  function Larger(a: int, b: int): int { if a < b then b else a }

  function PerMillion(tokens: nat, credits: nat): real { tokens as real * credits as real / 1000000.0 }

  /** What the tokens come to before the multiplier. */
  function Base(credits: Four<nat>, tokens: Four<nat>): real {
    PerMillion(tokens.input, credits.input) + PerMillion(tokens.output, credits.output)
    + PerMillion(tokens.cacheWrite, credits.cacheWrite) + PerMillion(tokens.cacheRead, credits.cacheRead)
  }

  /** Rounded up once. */
  function Charged(credits: Four<nat>, tokens: Four<nat>, multiplier: real): int {
    CeilOf(Base(credits, tokens) * multiplier)
  }

  /**
   * Prices are by the million: the tokens at their prices times the multiplier, rounded up by less than one
   * micro-credit.
   */
  method ChargeMicro(credits: Four<nat>, tokens: Four<nat>, multiplier: real) returns (micro: int)
    ensures micro == Charged(credits, tokens, multiplier)
    ensures var due := (tokens.input * credits.input + tokens.output * credits.output
                        + tokens.cacheWrite * credits.cacheWrite
                          + tokens.cacheRead * credits.cacheRead) as real * multiplier;
            due <= 1000000.0 * micro as real < due + 1000000.0
  {
    var total := 0.0;
    for kind := 0 to 4
      invariant total == if kind == 0 then 0.0
                         else if kind == 1 then PerMillion(tokens.input, credits.input)
                         else if kind == 2
                           then PerMillion(tokens.input, credits.input) + PerMillion(tokens.output, credits.output)
                         else if kind == 3 then Base(credits, tokens.(cacheRead := 0))
                         else Base(credits, tokens)
    {
      assert PerMillion(0, credits.cacheRead) == 0.0;
      total := total + PerMillion(Kind(tokens, kind), Kind(credits, kind));
    }
    micro := CeilOf(total * multiplier);
    ChargeIsDue(credits, tokens, multiplier);
  }

  lemma Product(tokens: nat, credits: nat)
    ensures 1000000.0 * PerMillion(tokens, credits) == (tokens * credits) as real
  {
    var t, c := tokens as real, credits as real;
    assert (tokens * credits) as real == t * c;
  }

  lemma UpToOne(x: real, due: real)
    requires due == 1000000.0 * x
    ensures due <= 1000000.0 * CeilOf(x) as real < due + 1000000.0
  {
  }

  lemma ScaledDue(total: real, sum: real, multiplier: real)
    requires sum == 1000000.0 * total
    ensures sum * multiplier == 1000000.0 * (total * multiplier)
  {
  }

  /** A million times the charge is what is due, or less than a million more. */
  lemma ChargeIsDue(credits: Four<nat>, tokens: Four<nat>, multiplier: real)
    ensures var due := (tokens.input * credits.input + tokens.output * credits.output
                        + tokens.cacheWrite * credits.cacheWrite
                          + tokens.cacheRead * credits.cacheRead) as real * multiplier;
            due <= 1000000.0 * Charged(credits, tokens, multiplier) as real < due + 1000000.0
  {
    Product(tokens.input, credits.input);
    Product(tokens.output, credits.output);
    Product(tokens.cacheWrite, credits.cacheWrite);
    Product(tokens.cacheRead, credits.cacheRead);
    var sum := (tokens.input * credits.input + tokens.output * credits.output
                + tokens.cacheWrite * credits.cacheWrite + tokens.cacheRead * credits.cacheRead) as real;
    var total := Base(credits, tokens);
    ScaledDue(total, sum, multiplier);
    UpToOne(total * multiplier, sum * multiplier);
  }

  /** A million tokens of one kind, at multiplier 1, cost exactly that kind's price. */
  lemma AMillionCosts(credits: Four<nat>)
    ensures Charged(credits, Four(1000000, 0, 0, 0), 1.0) == credits.input
    ensures Charged(credits, Four(0, 1000000, 0, 0), 1.0) == credits.output
    ensures Charged(credits, Four(0, 0, 1000000, 0), 1.0) == credits.cacheWrite
    ensures Charged(credits, Four(0, 0, 0, 1000000), 1.0) == credits.cacheRead
  {
    ChargeIsDue(credits, Four(1000000, 0, 0, 0), 1.0);
    ChargeIsDue(credits, Four(0, 1000000, 0, 0), 1.0);
    ChargeIsDue(credits, Four(0, 0, 1000000, 0), 1.0);
    ChargeIsDue(credits, Four(0, 0, 0, 1000000), 1.0);
  }

  /** All the input at the dearest input-side price, and the most output. */
  function StartMicro(credits: Four<nat>, input: nat, maxOutput: nat, multiplier: real): int {
    var dearest := Larger(credits.input, Larger(credits.cacheWrite, credits.cacheRead));
    CeilOf((PerMillion(input, dearest) + PerMillion(maxOutput, credits.output)) * multiplier)
  }

  /** One of the three input-side prices, and none of them dearer. */
  predicate IsDearest(credits: Four<nat>, dearest: nat) {
    && (dearest == credits.input || dearest == credits.cacheWrite || dearest == credits.cacheRead)
    && credits.input <= dearest && credits.cacheWrite <= dearest && credits.cacheRead <= dearest
  }

  /** The same of the reservation: all input at the dearest input-side price, the most output at its own. */
  lemma ReservationIsDue(credits: Four<nat>, input: nat, maxOutput: nat, multiplier: real, dearest: nat)
    requires IsDearest(credits, dearest)
    ensures var due := (input * dearest + maxOutput * credits.output) as real * multiplier;
            due <= 1000000.0 * StartMicro(credits, input, maxOutput, multiplier) as real < due + 1000000.0
  {
    Product(input, dearest);
    Product(maxOutput, credits.output);
    var sum, total := (input * dearest + maxOutput * credits.output) as real,
                      PerMillion(input, dearest) + PerMillion(maxOutput, credits.output);
    ScaledDue(total, sum, multiplier);
    UpToOne(total * multiplier, sum * multiplier);
  }

  // ---- The reservation covers the charge ---------------------------------------------------

  lemma CeilMonotone(a: real, b: real)
    requires a <= b
    ensures CeilOf(a) <= CeilOf(b)
  {
  }

  lemma ScaleMonotone(a: real, b: real, multiplier: real)
    requires a <= b && multiplier >= 0.0
    ensures a * multiplier <= b * multiplier
  {
    var d := b - a;
    assert b * multiplier == a * multiplier + d * multiplier;
  }

  lemma DearerMore(tokens: nat, more: nat, credits: nat, dearer: nat)
    requires tokens <= more && credits <= dearer
    ensures PerMillion(tokens, credits) <= PerMillion(more, dearer)
  {
    ScaleMonotone(tokens as real, more as real, credits as real);
    ScaleMonotone(credits as real, dearer as real, more as real);
  }

  /** Three kinds of input tokens cost no more than all of them at the dearest price. */
  lemma InputAtDearest(credits: Four<nat>, tokens: Four<nat>, dearest: nat)
    requires credits.input <= dearest && credits.cacheWrite <= dearest && credits.cacheRead <= dearest
    ensures PerMillion(tokens.input, credits.input) + PerMillion(tokens.cacheWrite, credits.cacheWrite)
        + PerMillion(tokens.cacheRead, credits.cacheRead)
            <= PerMillion(tokens.input + tokens.cacheWrite + tokens.cacheRead, dearest)
  {
    DearerMore(tokens.input, tokens.input, credits.input, dearest);
    DearerMore(tokens.cacheWrite, tokens.cacheWrite, credits.cacheWrite, dearest);
    DearerMore(tokens.cacheRead, tokens.cacheRead, credits.cacheRead, dearest);
    var d := dearest as real;
    var a, b, c := tokens.input as real, tokens.cacheWrite as real, tokens.cacheRead as real;
    assert (a + b + c) * d == a * d + b * d + c * d;
  }

  /**
   * What is reserved covers the charge, however at most `input` tokens fall into fresh, written to
   * the cache and read from it, and for at most `maxOutput` tokens of output.
   */
  lemma ReservationCovers(credits: Four<nat>, tokens: Four<nat>, input: nat, maxOutput: nat, multiplier: real)
    requires tokens.input + tokens.cacheWrite + tokens.cacheRead <= input && tokens.output <= maxOutput
        && multiplier >= 0.0
    ensures Charged(credits, tokens, multiplier) <= StartMicro(credits, input, maxOutput, multiplier)
  {
    var dearest := Larger(credits.input, Larger(credits.cacheWrite, credits.cacheRead));
    BaseCovered(credits, tokens, dearest, input, maxOutput);
    CeilScaled(Base(credits, tokens), PerMillion(input, dearest) + PerMillion(maxOutput, credits.output), multiplier);
  }

  lemma BaseCovered(credits: Four<nat>, tokens: Four<nat>, dearest: nat, input: nat, maxOutput: nat)
    requires tokens.input + tokens.cacheWrite + tokens.cacheRead <= input && tokens.output <= maxOutput
    requires credits.input <= dearest && credits.cacheWrite <= dearest && credits.cacheRead <= dearest
    ensures Base(credits, tokens) <= PerMillion(input, dearest) + PerMillion(maxOutput, credits.output)
  {
    InputAtDearest(credits, tokens, dearest);
    DearerMore(tokens.input + tokens.cacheWrite + tokens.cacheRead, input, dearest, dearest);
    DearerMore(tokens.output, maxOutput, credits.output, credits.output);
  }

  lemma CeilScaled(a: real, b: real, multiplier: real)
    requires a <= b && multiplier >= 0.0
    ensures CeilOf(a * multiplier) <= CeilOf(b * multiplier)
  {
    ScaleMonotone(a, b, multiplier);
    CeilMonotone(a * multiplier, b * multiplier);
  }

  /** No smaller reservation would do: some split costs exactly what is reserved. */
  lemma ReservationTight(credits: Four<nat>, input: nat, maxOutput: nat, multiplier: real) returns (tokens: Four<nat>)
    ensures tokens.input + tokens.cacheWrite + tokens.cacheRead == input && tokens.output == maxOutput
    ensures Charged(credits, tokens, multiplier) == StartMicro(credits, input, maxOutput, multiplier)
  {
    var dearest := Larger(credits.input, Larger(credits.cacheWrite, credits.cacheRead));
    if credits.input == dearest {
      tokens := Four(input, maxOutput, 0, 0);
    } else if credits.cacheWrite == dearest {
      tokens := Four(0, maxOutput, input, 0);
    } else {
      tokens := Four(0, maxOutput, 0, input);
    }
    assert PerMillion(0, credits.input) == 0.0 && PerMillion(0, credits.cacheWrite) == 0.0
      && PerMillion(0, credits.cacheRead) == 0.0;
    assert Base(credits, tokens) == PerMillion(input, dearest) + PerMillion(maxOutput, credits.output);
  }

  // ---- Charging in parts -------------------------------------------------------------------

  function Together(a: Four<nat>, b: Four<nat>): Four<nat> {
    Four(a.input + b.input, a.output + b.output, a.cacheWrite + b.cacheWrite, a.cacheRead + b.cacheRead)
  }

  lemma PerMillionAdds(a: nat, b: nat, credits: nat)
    ensures PerMillion(a + b, credits) == PerMillion(a, credits) + PerMillion(b, credits)
  {
    var x, y, c := a as real, b as real, credits as real;
    assert (x + y) * c == x * c + y * c;
  }

  lemma CeilAdds(a: real, b: real)
    ensures CeilOf(a + b) <= CeilOf(a) + CeilOf(b) <= CeilOf(a + b) + 1
  {
  }

  /** Two requests cost no less than one with the tokens of both, and at most one micro-credit more. */
  lemma ChargedInParts(credits: Four<nat>, a: Four<nat>, b: Four<nat>, multiplier: real)
    ensures var together := Charged(credits, Together(a, b), multiplier);
            together <= Charged(credits, a, multiplier) + Charged(credits, b, multiplier) <= together + 1
  {
    PerMillionAdds(a.input, b.input, credits.input);
    PerMillionAdds(a.output, b.output, credits.output);
    PerMillionAdds(a.cacheWrite, b.cacheWrite, credits.cacheWrite);
    PerMillionAdds(a.cacheRead, b.cacheRead, credits.cacheRead);
    var x, y := Base(credits, a), Base(credits, b);
    assert Base(credits, Together(a, b)) == x + y;
    assert (x + y) * multiplier == x * multiplier + y * multiplier;
    CeilAdds(x * multiplier, y * multiplier);
  }

  function AllTogether(parts: seq<Four<nat>>): Four<nat> {
    if parts == [] then Four(0, 0, 0, 0) else Together(parts[0], AllTogether(parts[1..]))
  }

  function SumOf(s: seq<int>): int {
    if s == [] then 0 else s[0] + SumOf(s[1..])
  }

  /** What each of the requests is charged. */
  function ChargedApart(credits: Four<nat>, parts: seq<Four<nat>>, multiplier: real): (r: seq<int>)
    ensures |r| == |parts| && forall k | 0 <= k < |r| :: r[k] == Charged(credits, parts[k], multiplier)
  {
    seq(|parts|, k requires 0 <= k < |parts| => Charged(credits, parts[k], multiplier))
  }

  /** However many requests the tokens are spread over, each after the first adds at most one micro-credit. */
  lemma {:induction false} ChargedInManyParts(credits: Four<nat>, parts: seq<Four<nat>>, multiplier: real)
    requires parts != []
    ensures var together := Charged(credits, AllTogether(parts), multiplier);
            together <= SumOf(ChargedApart(credits, parts, multiplier)) <= together + |parts| - 1
  {
    var rest, apart := parts[1..], ChargedApart(credits, parts, multiplier);
    assert apart[1..] == ChargedApart(credits, rest, multiplier);
    if rest == [] {
      assert parts == [parts[0]] && apart[1..] == [];
      OnePart(parts[0]);
    } else {
      ChargedInManyParts(credits, rest, multiplier);
      ChargedInParts(credits, parts[0], AllTogether(rest), multiplier);
    }
  }

  lemma OnePart(tokens: Four<nat>)
    ensures AllTogether([tokens]) == tokens
  {
    assert [tokens][1..] == [];
  }
}
