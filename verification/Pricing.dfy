/**
 * Time-versioned prices and how billing resolves them: the latest version from a time or before
 * of the first name that has one, else the table's `*`. And the one formula a price computed
 * from an official one follows, in exact arithmetic.
 */
module Pricing {
  import opened Options

  /** Input, output, cache write, cache read. */
  datatype Four<+T> = Four(input: T, output: T, cacheWrite: T, cacheRead: T)

  function Map4<A, B>(f: A -> B, x: Four<A>): Four<B> { Four(f(x.input), f(x.output), f(x.cacheWrite), f(x.cacheRead)) }

  function Kind<T>(four: Four<T>, kind: nat): T
    requires kind < 4
  {
    if kind == 0 then four.input else if kind == 1 then four.output else if kind == 2 then four.cacheWrite
      else four.cacheRead
  }

  /** What a price was computed from. `basis`: what the upstream bills instead of the official price. */
  datatype Block = Block(official: Four<real>, priceMultiplier: real, costMultiplier: real, basis: Option<Four<real>>,
                         usdCny: real, face: real)

  datatype Currency = CNY | USD
  datatype Mode = Fixed | CostPlus

  /** All that decides what a request is charged and what it costs. */
  datatype Charge = Charge(mode: Mode, currency: Currency, margin: real, perCall: int, credits: Four<int>,
    costs: Four<real>)

  datatype Version = Version(id: string, table: string, model: string, from: int, charge: Charge,
    official: Option<Block>)

  function RoundHalfUp(x: real): (r: int)
    ensures r as real - 0.5 <= x < r as real + 0.5
  {
    (x + 0.5).Floor
  }

  /** Our price, CNY per million tokens. */
  function YuanOf(usd: real, priceMultiplier: real, usdCny: real): real { usd * priceMultiplier * usdCny }

  /** Micro-credits per million tokens; a face value of 0 prices nothing. */
  function CreditsFor(usd: real, priceMultiplier: real, usdCny: real, face: real): int {
    if face == 0.0 then 0 else RoundHalfUp(YuanOf(usd, priceMultiplier, usdCny) / face * 1000000.0)
  }

  /** The CNY price in micro-credits, rounded to the nearest, up from the middle. */
  lemma CreditsAre(usd: real, priceMultiplier: real, usdCny: real, face: real)
    requires face != 0.0
    ensures var credits := CreditsFor(usd, priceMultiplier, usdCny, face) as real;
            credits - 0.5 <= usd * priceMultiplier * usdCny / face * 1000000.0 < credits + 0.5
  {
  }

  /** What micro-credits are worth, in CNY. */
  function Worth(credits: int, face: real): real { credits as real * face / 1000000.0 }

  /** Credits are worth the CNY price, to half a micro-credit. */
  lemma WorthOf(usd: real, priceMultiplier: real, usdCny: real, face: real)
    requires face > 0.0
    ensures var worth := Worth(CreditsFor(usd, priceMultiplier, usdCny, face), face);
            YuanOf(usd, priceMultiplier, usdCny) - face / 2000000.0 <= worth
              <= YuanOf(usd, priceMultiplier, usdCny) + face / 2000000.0
  {
    var yuan := YuanOf(usd, priceMultiplier, usdCny);
    var exact := yuan / face * 1000000.0;
    assert exact * face == yuan * 1000000.0;
    var credits := CreditsFor(usd, priceMultiplier, usdCny, face);
    assert credits == RoundHalfUp(exact);
    RoundedWorth(yuan, exact, credits as real, face);
  }

  lemma RoundedWorth(yuan: real, exact: real, r: real, face: real)
    requires exact * face == yuan * 1000000.0 && exact - 0.5 <= r <= exact + 0.5 && face > 0.0
    ensures yuan - face / 2000000.0 <= r * face / 1000000.0 <= yuan + face / 2000000.0
  {
    var above, below, scaled := r - exact + 0.5, exact + 0.5 - r, r * face;
    assert above * face >= 0.0 && below * face >= 0.0;
    assert scaled == yuan * 1000000.0 - 0.5 * face + above * face;
    assert scaled == yuan * 1000000.0 + 0.5 * face - below * face;
  }

  function CreditsOf(b: Block): Four<int> {
    Map4((usd: real) => CreditsFor(usd, b.priceMultiplier, b.usdCny, b.face), b.official)
  }

  function CostsOf(b: Block): Four<real> {
    Map4((usd: real) => usd * b.costMultiplier * b.usdCny, if b.basis.Some? then b.basis.value else b.official)
  }

  lemma KindOfMap<A, B>(f: A -> B, x: Four<A>, kind: nat)
    requires kind < 4
    ensures Kind(Map4(f, x), kind) == f(Kind(x, kind))
  {
  }

  lemma KindOfCredits(b: Block, kind: nat)
    requires kind < 4
    ensures Kind(CreditsOf(b), kind) == CreditsFor(Kind(b.official, kind), b.priceMultiplier, b.usdCny, b.face)
  {
    KindOfMap((usd: real) => CreditsFor(usd, b.priceMultiplier, b.usdCny, b.face), b.official, kind);
  }

  lemma KindOfCosts(b: Block, kind: nat)
    requires kind < 4
    ensures Kind(CostsOf(b), kind) ==
              Kind(if b.basis.Some? then b.basis.value else b.official, kind) * b.costMultiplier * b.usdCny
  {
    KindOfMap((usd: real) => usd * b.costMultiplier * b.usdCny, if b.basis.Some? then b.basis.value
      else b.official, kind);
  }

  const FREE := Four(0, 0, 0, 0)

  /** What a version computed from an official price charges and costs; a route's cost charges nothing. */
  function OfficialCharge(b: Block, routeCost: bool): Charge {
    Charge(Fixed, CNY, 1.0, 0, if routeCost then FREE else CreditsOf(b), CostsOf(b))
  }

  /** A fixed CNY price with no multiplier and no charge by call; of a kind of token, price and cost are the block's. */
  predicate IsChargeOf(b: Block, c: Charge, kind: nat)
    requires kind < 4
  {
    && c.mode == Fixed && c.currency == CNY && c.margin == 1.0 && c.perCall == 0
    && Kind(c.credits, kind) == CreditsFor(Kind(b.official, kind), b.priceMultiplier, b.usdCny, b.face)
    && Kind(c.costs, kind)
         == Kind(if b.basis.Some? then b.basis.value else b.official, kind) * b.costMultiplier * b.usdCny
  }

  lemma OfficialChargeIs(b: Block, kind: nat)
    requires kind < 4
    ensures IsChargeOf(b, OfficialCharge(b, false), kind)
  {
    KindOfCredits(b, kind);
    KindOfCosts(b, kind);
  }

  /** Publishing stamps a version from now with the time it is published. */
  function Stamped(v: Version, time: int): Version { if v.from == 0 then v.(from := time) else v }

  /** Two prices of one table and model from one time. */
  predicate SameStart(v: Version, w: Version) { v.table == w.table && v.model == w.model && v.from == w.from }

  /** The name a route's own settings and cost versions are kept under. */
  function RouteKey(provider: string, target: string): string { provider + "/" + target }

  predicate Applies(v: Version, table: string, name: string, at: int) {
    v.table == table && v.model == name && v.from <= at
  }

  /** The latest version of this name from `at` or before: the first in the list of those that start last. */
  function Latest(versions: seq<Version>, table: string, name: string, at: int): (r: Option<Version>)
  {
    if versions == [] then None
    else
      var last := versions[|versions| - 1];
      var before := Latest(versions[..|versions| - 1], table, name, at);
      if Applies(last, table, name, at) && (before.None? || last.from > before.value.from) then Some(last) else before
  }

  /** What the latest is: one that applies, none starting later; and there is one if any applies. */
  lemma {:induction false} LatestFacts(versions: seq<Version>, table: string, name: string, at: int)
    ensures var r := Latest(versions, table, name, at);
            && (r.Some? ==> r.value in versions && Applies(r.value, table, name, at))
            && forall v | v in versions && Applies(v, table, name, at) :: r.Some? && v.from <= r.value.from
  {
    if versions != [] {
      LatestFacts(versions[..|versions| - 1], table, name, at);
      assert forall v | v in versions :: v in versions[..|versions| - 1] || v == versions[|versions| - 1];
    }
  }

  /** Of those that start with it, the latest is the first in the list. */
  lemma {:induction false} LatestIsFirst(versions: seq<Version>, table: string, name: string, at: int) returns (k: nat)
    requires Latest(versions, table, name, at).Some?
    ensures k < |versions| && Latest(versions, table, name, at) == Some(versions[k])
    ensures forall j | 0 <= j < k && Applies(versions[j], table, name, at) :: versions[j].from < versions[k].from
  {
    var n := |versions| - 1;
    var front := versions[..n];
    LatestFacts(front, table, name, at);
    var before := Latest(front, table, name, at);
    assert forall j | 0 <= j < n :: versions[j] == front[j] && versions[j] in front;
    if Latest(versions, table, name, at) == before { k := LatestIsFirst(front, table, name, at); } else { k := n; }
  }

  /** The version a request naming `names` is priced at. */
  function InForce(versions: seq<Version>, table: string, names: seq<string>, at: int): (r: Option<Version>) {
    if names == [] then Latest(versions, table, "*", at)
    else if names[0] != "*" && Latest(versions, table, names[0], at).Some? then Latest(versions, table, names[0], at)
    else InForce(versions, table, names[1..], at)
  }

  lemma NoneInForce(versions: seq<Version>, table: string, at: int)
    ensures InForce(versions, table, [], at) == Latest(versions, table, "*", at)
  {
  }

  lemma OneInForce(versions: seq<Version>, table: string, name: string, at: int)
    ensures InForce(versions, table, [name], at) ==
              if name != "*" && Latest(versions, table, name, at).Some? then Latest(versions, table, name, at)
              else Latest(versions, table, "*", at)
  {
    assert [name][1..] == [];
    NoneInForce(versions, table, at);
  }

  /** A price in force is the latest of its own name. */
  lemma {:induction false} InForceIsLatest(versions: seq<Version>, table: string, names: seq<string>, at: int)
    ensures var r := InForce(versions, table, names, at);
            r.Some? ==>
              Latest(versions, table, r.value.model, at) == r && r.value in versions
              && Applies(r.value, table, r.value.model, at)
  {
    LatestFacts(versions, table, "*", at);
    if names != [] {
      LatestFacts(versions, table, names[0], at);
      InForceIsLatest(versions, table, names[1..], at);
    }
  }

  /** A version later than every other that applies is the latest, wherever it stands in the list. */
  lemma LatestIs(versions: seq<Version>, table: string, name: string, at: int, v: Version)
    requires v in versions && Applies(v, table, name, at)
    requires forall w | w in versions && Applies(w, table, name, at) :: w == v || w.from < v.from
    ensures Latest(versions, table, name, at) == Some(v)
  {
    LatestFacts(versions, table, name, at);
  }

  /** Nothing of this name starts in between: the latest stays the same. */
  lemma {:induction false} LatestSteady(versions: seq<Version>, table: string, name: string, at: int, later: int)
    requires at <= later
    requires forall v | v in versions && v.table == table && v.model == name :: v.from <= at || later < v.from
    ensures Latest(versions, table, name, later) == Latest(versions, table, name, at)
  {
    if versions != [] { LatestSteady(versions[..|versions| - 1], table, name, at, later); }
  }

  /** Versions that apply only later change nothing now. */
  lemma {:induction false} LatestIgnores(versions: seq<Version>, more: seq<Version>, table: string, name: string,
                                         at: int)
    requires forall v | v in more :: !Applies(v, table, name, at)
    ensures Latest(versions + more, table, name, at) == Latest(versions, table, name, at)
  {
    if more == [] {
      assert versions + more == versions;
    } else {
      var all := versions + more;
      assert all[..|all| - 1] == versions + more[..|more| - 1];
      LatestIgnores(versions, more[..|more| - 1], table, name, at);
    }
  }

  /** If two lists agree, up to a relation, on the latest of every name, they agree on the price in force. */
  lemma {:induction false} InForceRelates(before: seq<Version>, after: seq<Version>, table: string, names: seq<string>,
                                          at: int, later: int, related: (Version, Version) -> bool)
    requires forall name :: Related(Latest(before, table, name, at), Latest(after, table, name, later), related)
    ensures Related(InForce(before, table, names, at), InForce(after, table, names, later), related)
  {
    if names == [] {
      assert Related(Latest(before, table, "*", at), Latest(after, table, "*", later), related);
    } else {
      assert Related(Latest(before, table, names[0], at), Latest(after, table, names[0], later), related);
      InForceRelates(before, after, table, names[1..], at, later, related);
    }
  }

  predicate Related(a: Option<Version>, b: Option<Version>, related: (Version, Version) -> bool) {
    a.Some? == b.Some? && (a.Some? ==> related(a.value, b.value))
  }
}
