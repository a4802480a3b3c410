/**
 * The cost of a route as the console finds it, and that it is what the migration's own search,
 * which follows settlement, finds: two searches written apart.
 */
module RouteCosts {
  import opened Options
  import opened Pricing
  import KeepMargin
  import Migration

  datatype How = FromOfficial | FromVersion | Unknown
  datatype View = View(how: How, perM: Option<Four<real>>)

  /** The settings as the console reads them. */
  function Read(s: Migration.Settings): KeepMargin.Settings {
    var official, routes := Migration.OrEmpty(s.official), Migration.OrEmpty(s.routes);
    KeepMargin.Settings(Some(s.face), if s.usdCny.Some? then s.usdCny.value else 1.0,
                        s.defaultCost, Migration.OrEmpty(s.providers),
                        map name | name in official :: official[name].usd,
                        map key | key in routes :: KeepMargin.RouteSetting(routes[key].multiplier, routes[key].basis))
  }

  /**
   * The route's own cost version, else on the model's own target the version it is charged at, else the upstream
   * model's, else `*`.
   */
  function CostVersion(versions: seq<Version>, table: string, m: Migration.Mapping, r: Migration.Route,
                       at: int): Option<Version> {
    var route := Latest(versions, table, RouteKey(r.provider, r.target), at);
    if route.Some? then route
    else if m.provider == r.provider && m.target == r.target
      && InForce(versions, table, [m.exposed, m.target], at).Some? then
      InForce(versions, table, [m.exposed, m.target], at)
    else if Latest(versions, table, r.target, at).Some? then Latest(versions, table, r.target, at)
    else Latest(versions, table, "*", at)
  }

  predicate NoneNegative(costs: Four<real>) {
    costs.input >= 0.0 && costs.output >= 0.0 && costs.cacheWrite >= 0.0 && costs.cacheRead >= 0.0
  }

  /** `legacyRate`: CNY per dollar for versions priced in dollars, if it is set. */
  function CostView(s: KeepMargin.Settings, legacyRate: Option<real>, versions: seq<Version>, table: string,
                    m: Migration.Mapping, r: Migration.Route, at: int): View {
    var official := KeepMargin.RouteCost(s, KeepMargin.Mapping(m.exposed, r.provider, r.target, m.groupId));
    if official.Some? then View(FromOfficial, official)
    else
      var version := CostVersion(versions, table, m, r, at);
      if version.None? then View(Unknown, None)
      else
        var c := version.value.charge;
        var rate := if c.currency == CNY then Some(1.0) else legacyRate;
        if rate.None? || !NoneNegative(c.costs) then View(Unknown, None)
        else View(FromVersion, Some(Map4((x: real) => x * rate.value, c.costs)))
  }

  /** A kind of token is given a cost below 0. */
  predicate HasNegative(costs: Four<real>) { exists kind | 0 <= kind < 4 :: Kind(costs, kind) < 0.0 }

  lemma NoneNegativeExactly(costs: Four<real>)
    ensures NoneNegative(costs) <==> !HasNegative(costs)
  {
    assert Kind(costs, 0) == costs.input && Kind(costs, 1) == costs.output;
    assert Kind(costs, 2) == costs.cacheWrite && Kind(costs, 3) == costs.cacheRead;
  }

  /** What the console shows for an answer of settlement's. */
  predicate Shows(legacyRate: Option<real>, cost: Migration.Cost, view: View) {
    match cost.source
    case Official => view == View(FromOfficial, cost.perM)
    case Estimate => view == View(Unknown, None)
    case ByVersion => cost.perM.Some? && view == if HasNegative(cost.perM.value) then View(Unknown, None)
      else View(FromVersion, cost.perM)
    case ByUsdVersion =>
      cost.perM.Some? &&
      view == if legacyRate.Some? && !HasNegative(cost.perM.value)
              then View(FromVersion, Some(Map4((x: real) => x * legacyRate.value, cost.perM.value)))
                else View(Unknown, None)
  }

  lemma SameVersion(versions: seq<Version>, table: string, m: Migration.Mapping, r: Migration.Route, at: int)
    ensures CostVersion(versions, table, m, r, at) ==
            var own := Latest(versions, table, RouteKey(r.provider, r.target), at);
            var charged := if own.None? && Migration.Route(m.provider, m.target) == r
              then InForce(versions, table, [m.exposed, r.target], at) else own;
            var upstream := if charged.None? then Latest(versions, table, r.target, at) else charged;
            if upstream.None? then Latest(versions, table, "*", at) else upstream
  {
  }

  lemma MapOnce(costs: Four<real>)
    ensures Map4((x: real) => x * 1.0, costs) == costs
  {
  }

  /** For every configuration, mapping, route and time, the console shows what settlement costs. */
  lemma CostsAgree(s: Migration.Settings, legacyRate: Option<real>, versions: seq<Version>, table: string,
                   m: Migration.Mapping, r: Migration.Route, at: int)
    ensures Shows(legacyRate, Migration.CostOfRoute(s, versions, table, m, r, at),
        CostView(Read(s), legacyRate, versions, table, m, r, at))
  {
    var asked := KeepMargin.Mapping(m.exposed, r.provider, r.target, m.groupId);
    assert KeepMargin.BasisOf(Read(s), asked) == Migration.BasisOf(s, r);
    assert KeepMargin.MultiplierOf(Read(s), asked) == Migration.MultiplierOf(s, r);
    SameVersion(versions, table, m, r, at);
    var version := CostVersion(versions, table, m, r, at);
    if version.Some? {
      MapOnce(version.value.charge.costs);
      NoneNegativeExactly(version.value.charge.costs);
    }
  }
}
