/**
 * The migration that republishes every callable price with the official price it is computed from,
 * and fills the official price table. What it publishes charges and costs every request as before,
 * and doing it again does nothing.
 */
module Migration {
  import opened Options
  import opened Pricing
  import opened Verdicts
  import Decimals

  datatype Route = Route(provider: string, target: string)
  datatype Mapping = Mapping(exposed: string, provider: string, target: string, groupId: string, retired: bool,
                             multiplier: Option<real>, fallbacks: seq<Route>)
  datatype Group = Group(table: string, margin: Option<real>)
  datatype RouteCost = RouteCost(basis: Option<Four<real>>, multiplier: Option<real>)
  datatype OfficialPrice = OfficialPrice(usd: Four<real>, note: string, updatedAt: int)

  datatype Settings = Settings(
    face: real, legacyFace: Option<real>, usdCny: Option<real>, defaultPrice: Option<real>, defaultCost: Option<real>,
    providers: Option<map<string, real>>, routes: Option<map<string, RouteCost>>,
      official: Option<map<string, OfficialPrice>>)

  datatype Config = Config(groups: map<string, Group>, models: seq<Mapping>, versions: seq<Version>, settings: Settings)

  /** `basis` is by route, `provider/target`: what an upstream was measured to bill. */
  datatype Policy = Policy(
    prices: map<string, Four<real>>, pricedAs: map<string, string>, retail: real, modelRetail: map<string, real>,
    upstream: real, providerUpstream: map<string, real>, basis: map<string, Four<real>>)

  const OFFICIAL_USD_CNY := 1.0
  const OFFICIAL_NOTE := "官方价 · 迁移时写入"

  function Get<V>(m: map<string, V>, key: string, default: V): V { if key in m then m[key] else default }

  function OrEmpty<V>(m: Option<map<string, V>>): map<string, V> { if m.Some? then m.value else map[] }

  // ---- The official block of a mapping -----------------------------------------------------

  function OfficialBlock(m: Mapping, policy: Policy, face: real): Option<Block> {
    var pricedAs := Get(policy.pricedAs, m.exposed, m.exposed);
    if pricedAs !in policy.prices then None
    else
      var route := RouteKey(m.provider, m.target);
      Some(Block(policy.prices[pricedAs],
                 Get(policy.modelRetail, m.exposed, policy.retail),
                 Get(policy.providerUpstream, m.provider, policy.upstream),
                 if route in policy.basis then Some(policy.basis[route]) else None,
                 OFFICIAL_USD_CNY, face))
  }

  function Abs(x: real): real { if x < 0.0 then -x else x }
  function Max(x: real, y: real): real { if x < y then y else x }

  predicate Close(live: real, wanted: real) {
    Abs(live - wanted) <= Max(0.000000001 * Max(Abs(live), Abs(wanted)), 0.000000000001)
  }

  predicate CloseFour(a: Four<real>, b: Four<real>) {
    Close(a.input, b.input) && Close(a.output, b.output) && Close(a.cacheWrite, b.cacheWrite)
      && Close(a.cacheRead, b.cacheRead)
  }

  datatype Problem =
    | MultiplierNotOne(model: string) | NoPrice(model: string) | ChargedAs(model: string, other: string)
    | LaterScheduled(model: string) | NotFixedCny(model: string) | NoOfficialPrice(model: string)
    | CreditsDiffer(model: string) | CostsDiffer(model: string) | PricedDifferently(model: string)
    | RouteChanges(route: string, model: string)

  type PriceVerdict = Verdict<string, Version, Problem>

  predicate Scheduled(versions: seq<Version>, table: string, model: string, now: int) {
    exists v | v in versions :: v.table == table && v.model == model && v.from > now
  }

  function NewId(table: string, model: string, stamp: nat): string {
    "official-" + table + "-" + model + "-" + Decimals.NatText(stamp)
  }

  function MigratedVersion(m: Mapping, current: Option<Version>, scheduled: bool, policy: Policy, face: real,
                           stamp: nat): PriceVerdict {
    if current.None? then Refuse(NoPrice(m.exposed))
    else
      var c := current.value;
      if c.model != m.exposed then Refuse(ChargedAs(m.exposed, c.model))
      else if scheduled then Refuse(LaterScheduled(m.exposed))
      else if !(c.charge.mode == Fixed && c.charge.currency == CNY && c.charge.margin == 1.0 && c.charge.perCall == 0)
        then Refuse(NotFixedCny(m.exposed))
      else
        var block := OfficialBlock(m, policy, face);
        if block.None? then Refuse(NoOfficialPrice(m.exposed))
        else if c.charge.credits != CreditsOf(block.value) then Refuse(CreditsDiffer(m.exposed))
        else if !CloseFour(c.charge.costs, CostsOf(block.value)) then Refuse(CostsDiffer(m.exposed))
        else Republish(c.id, c.(id := NewId(c.table, m.exposed, stamp), from := stamp, official := block))
  }

  /** Every callable mapping's group exists, as the lookup of its table demands. */
  predicate Grouped(config: Config) {
    forall m | m in config.models && !m.retired :: m.groupId in config.groups
  }

  predicate Callable(config: Config, m: Mapping) { m in config.models && !m.retired && m.groupId in config.groups }

  function CurrentPrice(config: Config, m: Mapping, at: int): Option<Version>
    requires m.groupId in config.groups
  {
    InForce(config.versions, config.groups[m.groupId].table, [m.exposed, m.target], at)
  }

  function VerdictOn(config: Config, policy: Policy, now: int, stamp: nat, m: Mapping): PriceVerdict
    requires m.groupId in config.groups
  {
    var group := config.groups[m.groupId];
    if group.margin != Some(1.0) || m.multiplier != Some(1.0) then Refuse(MultiplierNotOne(m.exposed))
    else
      var current := CurrentPrice(config, m, now);
      if current.Some? && current.value.official.Some? then Already
      else MigratedVersion(m, current, Scheduled(config.versions, group.table, m.exposed, now), policy,
        config.settings.face, stamp)
  }

  // ---- Costs of routes ---------------------------------------------------------------------

  function RoutesOf(m: Mapping): seq<Route> { [Route(m.provider, m.target)] + m.fallbacks }

  datatype Source = Official | ByVersion | ByUsdVersion | Estimate
  datatype Cost = Cost(source: Source, perM: Option<Four<real>>)

  function BasisOf(s: Settings, r: Route): Option<Four<real>> {
    var routes, official := OrEmpty(s.routes), OrEmpty(s.official);
    var key := RouteKey(r.provider, r.target);
    if key in routes && routes[key].basis.Some? then routes[key].basis
    else if r.target in official then Some(official[r.target].usd)
    else None
  }

  function MultiplierOf(s: Settings, r: Route): Option<real> {
    var routes, providers := OrEmpty(s.routes), OrEmpty(s.providers);
    var key := RouteKey(r.provider, r.target);
    if key in routes && routes[key].multiplier.Some? then routes[key].multiplier
    else if r.provider in providers then Some(providers[r.provider])
    else s.defaultCost
  }

  /** What a request sent to this route costs, as settlement finds it. */
  function CostOfRoute(s: Settings, versions: seq<Version>, table: string, m: Mapping, r: Route, at: int): Cost {
    var basis, multiplier := BasisOf(s, r), MultiplierOf(s, r);
    if basis.Some? && multiplier.Some? then
      var rate := if s.usdCny.Some? then s.usdCny.value else OFFICIAL_USD_CNY;
      Cost(Official, Some(Map4((usd: real) => usd * multiplier.value * rate, basis.value)))
    else
      var own := Latest(versions, table, RouteKey(r.provider, r.target), at);
      var charged := if own.None? && Route(m.provider, m.target) == r
        then InForce(versions, table, [m.exposed, r.target], at) else own;
      var upstream := if charged.None? then Latest(versions, table, r.target, at) else charged;
      var version := if upstream.None? then Latest(versions, table, "*", at) else upstream;
      if version.None? then Cost(Estimate, None)
      else
        var source := if version.value.charge.currency == CNY then ByVersion else ByUsdVersion;
        Cost(source, Some(version.value.charge.costs))
  }

  /** Shown to cost the same: the very same answer, or the same CNY prices found another way. */
  predicate SameCost(was: Cost, will: Cost) {
    was == will
      || (was.source != ByUsdVersion && will.source != ByUsdVersion && was.perM.Some? && was.perM == will.perM)
  }

  // ---- The settings ------------------------------------------------------------------------

  function PolicyRoutes(policy: Policy): map<string, RouteCost> {
    map key | key in policy.basis ::
      RouteCost(Some(policy.basis[key]), Some(Get(policy.providerUpstream, ProviderOf(key), policy.upstream)))
  }

  /** What stands before the first slash of a route. */
  function ProviderOf(route: string): string {
    if route == "" || route[0] == '/' then "" else [route[0]] + ProviderOf(route[1..])
  }

  /** The live settings with the policy's defaults over them. */
  function WithDefaults(policy: Policy, s: Settings, table: map<string, OfficialPrice>): Settings {
    s.(legacyFace := if s.legacyFace.Some? && s.legacyFace.value != 0.0 then s.legacyFace else Some(s.face),
       usdCny := Some(OFFICIAL_USD_CNY),
       defaultPrice := Some(policy.retail),
       defaultCost := Some(policy.upstream),
       providers := Some(policy.providerUpstream),
       routes := Some(OrEmpty(s.routes) + PolicyRoutes(policy)),
       official := if table == map[] then s.official else Some(table))
  }

  /**
   * The route's own settings stay, but for one the policy has measured: its bill, at its provider's multiplier or the
   * policy's.
   */
  predicate RouteIs(policy: Policy, was: Settings, now: map<string, RouteCost>, route: string) {
    if route in policy.basis then
      && route in now && now[route].basis == Some(policy.basis[route])
      && exists k: nat ::
           && k <= |route| && (forall i | 0 <= i < k :: route[i] != '/') && (k == |route| || route[k] == '/')
           && now[route].multiplier ==
                Some(if route[..k] in policy.providerUpstream then policy.providerUpstream[route[..k]]
                  else policy.upstream)
    else
      match was.routes
      case None => route !in now
      case Some(routes) => (route in now <==> route in routes) && (route in routes ==> now[route] == routes[route])
  }

  lemma {:induction false} ProviderIs(route: string)
    ensures ProviderOf(route) <= route && (forall i | 0 <= i < |ProviderOf(route)| :: route[i] != '/')
    ensures |ProviderOf(route)| == |route| || route[|ProviderOf(route)|] == '/'
  {
    if route != "" && route[0] != '/' { ProviderIs(route[1..]); }
  }

  /**
   * The settings the plan leaves: the face value old credits are at, if it was not recorded, is the one
   * there is; the dollar is 1; the multipliers are the policy's; routes are added; and the table is put in.
   */
  lemma DefaultsExactly(policy: Policy, was: Settings, table: map<string, OfficialPrice>)
    ensures var now := WithDefaults(policy, was, table);
            && now.face == was.face
            && (match was.legacyFace
                case None => now.legacyFace == Some(was.face)
                case Some(face) => if face < 0.0 || face > 0.0 then now.legacyFace == was.legacyFace
                  else now.legacyFace == Some(was.face))
            && now.usdCny == Some(1.0) && now.defaultPrice == Some(policy.retail)
            && now.defaultCost == Some(policy.upstream)
            && now.providers == Some(policy.providerUpstream)
            && now.routes.Some? && (forall route :: RouteIs(policy, was, now.routes.value, route))
            && (if |table| > 0 then now.official == Some(table) else now.official == was.official)
  {
    var now := WithDefaults(policy, was, table);
    forall route ensures RouteIs(policy, was, now.routes.value, route) {
      ProviderIs(route);
      if route in policy.basis { assert route[..|ProviderOf(route)|] == ProviderOf(route); }
    }
  }

  ghost predicate IsTarget(config: Config, target: string) {
    exists m, r :: Callable(config, m) && r in RoutesOf(m) && r.target == target
  }

  /** The official price the policy gives an upstream model. */
  function PolicyPrice(policy: Policy, target: string): Option<OfficialPrice> {
    var pricedAs := Get(policy.pricedAs, target, target);
    if pricedAs in policy.prices then Some(OfficialPrice(policy.prices[pricedAs], OFFICIAL_NOTE, 0)) else None
  }

  /** The live table, and every target it lacks that the policy prices; `missing` are the rest. */
  ghost predicate IsOfficialTable(config: Config, policy: Policy, table: map<string, OfficialPrice>,
                                  missing: set<string>) {
    var live := OrEmpty(config.settings.official);
    && (forall name | name in live :: name in table && table[name] == live[name])
    && (forall name | name in table && name !in live :: IsTarget(config, name)
         && PolicyPrice(policy, name) == Some(table[name]))
    && (forall name :: IsTarget(config, name) && name !in live && PolicyPrice(policy, name).Some? ==> name in table)
    && (forall name :: name in missing <==> IsTarget(config, name) && name !in live && PolicyPrice(policy, name).None?)
  }

  // ---- The plan ----------------------------------------------------------------------------

  /** What is sent. `settings`: none when nothing in them changes. */
  datatype Update = Update(versions: seq<Version>, settings: Option<Settings>)

  /**
   * `update`: none when there is nothing to publish. `after`, `table`: the settings it leaves, the price table in
   * them.
   */
  datatype Plan = Plan(update: Option<Update>, problems: seq<Problem>, missing: set<string>, steady: set<string>,
                       versions: seq<Version>, after: Settings, table: map<string, OfficialPrice>)

  /** The verdict on every callable mapping. */
  ghost function VerdictsOn(config: Config, policy: Policy, now: int, stamp: nat): map<Mapping, PriceVerdict> {
    map m | m in config.models && Callable(config, m) :: VerdictOn(config, policy, now, stamp, m)
  }

  ghost predicate CostsShownSame(config: Config, after: Settings, versions: seq<Version>, now: int, stamp: int) {
    forall m, r | Callable(config, m) && r in RoutesOf(m) :: CostShownSame(config, after, versions, now, stamp, m, r)
  }

  predicate CostShownSame(config: Config, after: Settings, versions: seq<Version>, now: int, stamp: int, m: Mapping,
                          r: Route)
    requires m.groupId in config.groups
  {
    var table := config.groups[m.groupId].table;
    SameCost(CostOfRoute(config.settings, config.versions, table, m, r, now),
             CostOfRoute(after, config.versions + versions, table, m, r, stamp))
  }

  /** What the plan is of: it stops exactly when a price or a route's cost would change. */
  ghost predicate IsPlan(config: Config, policy: Policy, now: int, stamp: nat, p: Plan) {
    && IsOfficialTable(config, policy, p.table, p.missing)
    && p.after == WithDefaults(policy, config.settings, p.table)
    && var verdicts := VerdictsOn(config, policy, now, stamp);
    && AreRepublished(verdicts, p.versions) && OnePerThing(verdicts, p.versions)
    && (p.problems == [] <==> Clean(verdicts) && CostsShownSame(config, p.after, p.versions, now, stamp))
    && (p.problems == [] ==> AllRepublished(verdicts, p.versions))
    && (p.update.None? <==> p.versions == [] && p.after == config.settings)
    && (p.update.Some? ==>
         p.update.value == Update(p.versions, if p.after == config.settings then None else Some(p.after)))
  }

  method RepublishAll(config: Config, policy: Policy, now: int, stamp: nat)
    returns (versions: seq<Version>, problems: seq<Problem>)
    requires Grouped(config)
    ensures var verdicts := VerdictsOn(config, policy, now, stamp);
            && AreRepublished(verdicts, versions)
            && (problems == [] <==> Clean(verdicts))
            && (problems == [] ==> AllRepublished(verdicts, versions))
            && OnePerThing(verdicts, versions)
  {
    versions, problems := [], [];
    // What replaces each version in force, decided by the first mapping charged at it.
    var chosen: map<string, Version> := map[];
    ghost var verdicts := VerdictsOn(config, policy, now, stamp);
    ghost var done: set<Mapping>, owner: map<string, Mapping> := {}, map[];
    for i := 0 to |config.models|
      invariant done == CallableIn(config, config.models[..i])
      invariant Gathered(verdicts, done, chosen, owner, versions, problems) && ChosenOnce(verdicts, chosen, versions)
    {
      var m := config.models[i];
      if !m.retired {
        assert Callable(config, m);
        var verdict := VerdictOn(config, policy, now, stamp, m);
        GatherStep(verdicts, done, m, chosen, owner, versions, problems, PricedDifferently(m.exposed));
        ChosenOnceStep(verdicts, m, chosen, versions, problems, PricedDifferently(m.exposed));
        owner := Owner(verdict, m, chosen, owner);
        match verdict {
          case Already =>
          case Refuse(problem) => problems := problems + [problem];
          case Republish(id, version) =>
            if id !in chosen {
              chosen, versions := chosen[id := version], versions + [version];
            } else if chosen[id] != version {
              problems := problems + [PricedDifferently(m.exposed)];
            }
        }
        done := done + {m};
      }
    }
    assert config.models[..|config.models|] == config.models;
    GatheredIsClean(verdicts, chosen, owner, versions, problems);
  }

  ghost function CallableIn(config: Config, models: seq<Mapping>): set<Mapping> {
    set m | m in models && Callable(config, m)
  }

  method OfficialPriceTable(config: Config, policy: Policy)
    returns (table: map<string, OfficialPrice>, missing: set<string>)
    requires Grouped(config)
    ensures IsOfficialTable(config, policy, table, missing)
  {
    var live := OrEmpty(config.settings.official);
    table, missing := live, {};
    var targets := set m, r | m in config.models && !m.retired && r in RoutesOf(m) :: r.target;
    var todo := targets - live.Keys;
    ghost var all := todo;
    while todo != {}
      invariant todo <= all
      invariant forall name | name in live :: name in table && table[name] == live[name]
      invariant forall name | name in table && name !in live ::
                  name in all - todo && PolicyPrice(policy, name) == Some(table[name])
      invariant forall name | name in all - todo && PolicyPrice(policy, name).Some? :: name in table
      invariant forall name :: name in missing <==> name in all - todo && PolicyPrice(policy, name).None?
      decreases todo
    {
      var name :| name in todo;
      var price := PolicyPrice(policy, name);
      if price.None? {
        missing := missing + {name};
      } else {
        table := table[name := price.value];
      }
      todo := todo - {name};
    }
    forall name ensures name in targets <==> IsTarget(config, name) {
      if name in targets {
        var m, r :| m in config.models && !m.retired && r in RoutesOf(m) && r.target == name;
        assert Callable(config, m);
      }
    }
  }

  /** Some route of these is of this key and shown to cost the same. */
  ghost predicate SteadyOn(config: Config, after: Settings, versions: seq<Version>, now: int, stamp: int, m: Mapping,
                           routes: seq<Route>, key: string)
    requires m.groupId in config.groups
  {
    exists r :: r in routes && key == RouteKey(r.provider, r.target)
      && CostShownSame(config, after, versions, now, stamp, m, r)
  }

  ghost predicate IsSteady(config: Config, after: Settings, versions: seq<Version>, now: int, stamp: int, key: string) {
    exists m :: Callable(config, m) && SteadyOn(config, after, versions, now, stamp, m, RoutesOf(m), key)
  }

  /** The same of one of these mappings that is callable. */
  ghost predicate SteadyAmong(config: Config, after: Settings, versions: seq<Version>, now: int, stamp: int,
                              models: seq<Mapping>, key: string) {
    exists m :: m in models && Callable(config, m) && SteadyOn(config, after, versions, now, stamp, m, RoutesOf(m), key)
  }

  lemma SteadyMore(config: Config, after: Settings, versions: seq<Version>, now: int, stamp: int, models: seq<Mapping>,
                   m: Mapping, key: string)
    ensures SteadyAmong(config, after, versions, now, stamp, models + [m], key) <==>
              || SteadyAmong(config, after, versions, now, stamp, models, key)
              || (Callable(config, m) && SteadyOn(config, after, versions, now, stamp, m, RoutesOf(m), key))
  {
    assert forall n :: n in models + [m] <==> n in models || n == m;
  }

  ghost predicate RoutesShownSame(config: Config, after: Settings, versions: seq<Version>, now: int, stamp: int,
                                  m: Mapping, routes: seq<Route>)
    requires m.groupId in config.groups
  {
    forall r | r in routes :: CostShownSame(config, after, versions, now, stamp, m, r)
  }

  /** The routes of one mapping, costed before and after. */
  method CostRoutes(config: Config, after: Settings, versions: seq<Version>, now: int, stamp: int, m: Mapping)
    returns (steady: set<string>, problems: seq<Problem>)
    requires m.groupId in config.groups
    ensures problems == [] <==> RoutesShownSame(config, after, versions, now, stamp, m, RoutesOf(m))
    ensures forall key :: key in steady <==> SteadyOn(config, after, versions, now, stamp, m, RoutesOf(m), key)
  {
    steady, problems := {}, [];
    var routes := RoutesOf(m);
    for j := 0 to |routes|
      invariant problems == [] <==> RoutesShownSame(config, after, versions, now, stamp, m, routes[..j])
      invariant forall key :: key in steady <==> SteadyOn(config, after, versions, now, stamp, m, routes[..j], key)
    {
      assert forall r :: r in routes[..j + 1] <==> r in routes[..j] || r == routes[j];
      var r := routes[j];
      var key := RouteKey(r.provider, r.target);
      if CostShownSame(config, after, versions, now, stamp, m, r) {
        steady := steady + {key};
      } else {
        problems := problems + [RouteChanges(key, m.exposed)];
      }
    }
    assert routes[..|routes|] == routes;
  }

  /** Every route of every callable mapping, costed before and after. */
  method CostChanges(config: Config, after: Settings, versions: seq<Version>, now: int, stamp: int)
    returns (steady: set<string>, problems: seq<Problem>)
    requires Grouped(config)
    ensures problems == [] <==> CostsShownSame(config, after, versions, now, stamp)
    ensures forall key :: key in steady <==> IsSteady(config, after, versions, now, stamp, key)
  {
    steady, problems := {}, [];
    for i := 0 to |config.models|
      invariant problems == [] <==> forall m | m in config.models[..i] && Callable(config, m) ::
        RoutesShownSame(config, after, versions, now, stamp, m, RoutesOf(m))
      invariant forall key :: key in steady <==>
        SteadyAmong(config, after, versions, now, stamp, config.models[..i], key)
    {
      var m := config.models[i];
      assert config.models[..i + 1] == config.models[..i] + [m];
      forall key { SteadyMore(config, after, versions, now, stamp, config.models[..i], m, key); }
      if !m.retired {
        assert Callable(config, m);
        var same, changed := CostRoutes(config, after, versions, now, stamp, m);
        steady, problems := steady + same, problems + changed;
      }
    }
    assert config.models[..|config.models|] == config.models;
  }

  method MakePlan(config: Config, policy: Policy, now: int, stamp: nat) returns (p: Plan)
    requires Grouped(config)
    ensures IsPlan(config, policy, now, stamp, p)
    ensures forall key :: key in p.steady <==> IsSteady(config, p.after, p.versions, now, stamp, key)
  {
    var versions, problems := RepublishAll(config, policy, now, stamp);
    var table, missing := OfficialPriceTable(config, policy);
    var after := WithDefaults(policy, config.settings, table);
    var steady, changed := CostChanges(config, after, versions, now, stamp);
    var settings := if after == config.settings then None else Some(after);
    var update := if versions == [] && settings.None? then None else Some(Update(versions, settings));
    p := Plan(update, problems + changed, missing, steady, versions, after, table);
  }

  // ---- Nothing is charged differently ------------------------------------------------------

  predicate SameCharge(a: Version, b: Version) { b.charge == a.charge && b.table == a.table && b.model == a.model }

  /** `v` is the price in force of its name, from `stamp` on, and nothing else of that name is scheduled. */
  predicate Republishes(versions: seq<Version>, now: int, stamp: int, v: Version) {
    && v.from == stamp && v.official.Some?
    && !Scheduled(versions, v.table, v.model, now)
    && var current := Latest(versions, v.table, v.model, now);
    && current.Some? && SameCharge(current.value, v)
  }

  /** What a verdict says of the price in force. */
  lemma VerdictMeans(config: Config, policy: Policy, now: int, stamp: nat, m: Mapping)
    requires Callable(config, m)
    ensures var table, current := config.groups[m.groupId].table, CurrentPrice(config, m, now);
            match VerdictOn(config, policy, now, stamp, m)
            case Already => current.Some? && current.value.official.Some?
            case Republish(_, v) =>
              && current.Some? && current.value.model == m.exposed && !Scheduled(config.versions, table, m.exposed, now)
              && v == current.value.(id := v.id, from := stamp, official := v.official) && v.official.Some?
              && CreditsOf(v.official.value) == v.charge.credits && CloseFour(v.charge.costs, CostsOf(v.official.value))
              && v.official.value.face == config.settings.face
            case Refuse(_) => true
  {
  }

  lemma RepublishedRepublishes(config: Config, policy: Policy, now: int, stamp: nat, versions: seq<Version>)
    requires AreRepublished(VerdictsOn(config, policy, now, stamp), versions)
    ensures forall v | v in versions :: Republishes(config.versions, now, stamp, v)
  {
    var verdicts := VerdictsOn(config, policy, now, stamp);
    forall v | v in versions ensures Republishes(config.versions, now, stamp, v) {
      var m :| m in verdicts && IsVersion(verdicts[m], v);
      VerdictMeans(config, policy, now, stamp, m);
      InForceIsLatest(config.versions, config.groups[m.groupId].table, [m.exposed, m.target], now);
    }
  }

  /** With republished versions added, the latest of any name at any time charges the same. */
  lemma LatestUnchanged(versions: seq<Version>, more: seq<Version>, now: int, stamp: int, table: string, name: string,
                        at: int)
    requires now < stamp && forall v | v in more :: Republishes(versions, now, stamp, v)
    ensures Related(Latest(versions, table, name, at), Latest(versions + more, table, name, at), SameCharge)
  {
    if v :| v in more && Applies(v, table, name, at) {
      LatestSteady(versions, table, name, now, at);
      var will := Latest(versions + more, table, name, at);
      LatestFacts(versions + more, table, name, at);
      assert v in versions + more;
      assert will.value in more;
    } else {
      LatestIgnores(versions, more, table, name, at);
    }
  }

  /**
   * For every table, list of names and time, the version in force with what the migration publishes
   * has the credits, costs, currency, mode and multiplier of the one in force without it.
   */
  lemma ChargingUnchanged(config: Config, policy: Policy, now: int, stamp: nat, versions: seq<Version>,
                          table: string, names: seq<string>, at: int)
    requires now < stamp && AreRepublished(VerdictsOn(config, policy, now, stamp), versions)
    ensures Related(InForce(config.versions, table, names, at), InForce(config.versions + versions, table, names, at),
        SameCharge)
  {
    RepublishedRepublishes(config, policy, now, stamp, versions);
    forall name
      ensures Related(Latest(config.versions, table, name, at), Latest(config.versions + versions, table, name, at),
          SameCharge)
    {
      LatestUnchanged(config.versions, versions, now, stamp, table, name, at);
    }
    InForceRelates(config.versions, config.versions + versions, table, names, at, at, SameCharge);
  }

  /** The block a republished version carries gives its very credits, and its costs as the server compares them. */
  lemma BlocksReproduce(config: Config, policy: Policy, now: int, stamp: nat, versions: seq<Version>, v: Version)
    requires AreRepublished(VerdictsOn(config, policy, now, stamp), versions) && v in versions
    ensures v.official.Some? && CreditsOf(v.official.value) == v.charge.credits
    ensures CloseFour(v.charge.costs, CostsOf(v.official.value)) && v.official.value.face == config.settings.face
  {
    var verdicts := VerdictsOn(config, policy, now, stamp);
    var m :| m in verdicts && IsVersion(verdicts[m], v);
    VerdictMeans(config, policy, now, stamp, m);
  }

  // ---- Nothing costs differently -----------------------------------------------------------

  /** The settings as the plan leaves them give every callable route a basis and a multiplier. */
  lemma RoutesHavePrices(config: Config, policy: Policy, table: map<string, OfficialPrice>, m: Mapping, r: Route)
    requires IsOfficialTable(config, policy, table, {}) && Callable(config, m) && r in RoutesOf(m)
    ensures var after := WithDefaults(policy, config.settings, table);
            BasisOf(after, r).Some? && MultiplierOf(after, r).Some?
  {
    assert IsTarget(config, r.target);
    var live := OrEmpty(config.settings.official);
    assert r.target in table;
  }

  /**
   * When the plan shows no problem and misses no official price, every callable route, first or
   * fallback, costs at all times, whatever prices are scheduled, exactly what it cost before.
   */
  lemma CostsUnchanged(config: Config, policy: Policy, table: map<string, OfficialPrice>, versions: seq<Version>,
                       now: int, stamp: int, m: Mapping, r: Route, later: seq<Version>, at: int)
    requires IsOfficialTable(config, policy, table, {}) && Callable(config, m) && r in RoutesOf(m)
    requires CostsShownSame(config, WithDefaults(policy, config.settings, table), versions, now, stamp)
    ensures var rateCard := config.groups[m.groupId].table;
            var was := CostOfRoute(config.settings, config.versions, rateCard, m, r, now);
            var will := CostOfRoute(WithDefaults(policy, config.settings, table), later, rateCard, m, r, at);
            will.source == Official && will.perM.Some? && will.perM == was.perM && was.source != ByUsdVersion
  {
    RoutesHavePrices(config, policy, table, m, r);
    assert CostShownSame(config, WithDefaults(policy, config.settings, table), versions, now, stamp, m, r);
  }

  /**
   * What a plan without problems and missing prices publishes keeps everything: the price in force of
   * every table, names and time charges the same, and every callable route costs the same.
   */
  lemma PlanPreserves(config: Config, policy: Policy, now: int, stamp: nat, p: Plan)
    requires now < stamp && IsPlan(config, policy, now, stamp, p) && p.problems == [] && p.missing == {}
    ensures forall table, names, at ::
              Related(InForce(config.versions, table, names, at),
                InForce(config.versions + p.versions, table, names, at), SameCharge)
    ensures forall m, r, later, at | Callable(config, m) && r in RoutesOf(m) ::
              KeepsCost(config, p.after, m, r, now, later, at)
  {
    forall table, names, at
      ensures Related(InForce(config.versions, table, names, at),
          InForce(config.versions + p.versions, table, names, at), SameCharge)
    {
      ChargingUnchanged(config, policy, now, stamp, p.versions, table, names, at);
    }
    forall m, r, later, at | Callable(config, m) && r in RoutesOf(m)
      ensures KeepsCost(config, p.after, m, r, now, later, at)
    {
      CostsUnchanged(config, policy, p.table, p.versions, now, stamp, m, r, later, at);
    }
  }

  /** A route costs, whatever price versions there are later, what it cost before. */
  predicate KeepsCost(config: Config, after: Settings, m: Mapping, r: Route, now: int, later: seq<Version>, at: int)
    requires m.groupId in config.groups
  {
    var table := config.groups[m.groupId].table;
    var was, will := CostOfRoute(config.settings, config.versions, table, m, r, now),
        CostOfRoute(after, later, table, m, r, at);
    will.source == Official && will.perM.Some? && will.perM == was.perM && was.source != ByUsdVersion
  }

  // ---- Doing it again does nothing ---------------------------------------------------------

  /** The configuration read back once the plan is published. */
  function Published(config: Config, versions: seq<Version>, live: Settings): Config {
    config.(versions := config.versions + versions, settings := live)
  }

  /** The settings sent, as they are read back: the server stamps when each official price last changed. */
  predicate IsStamped(sent: Settings, live: Settings) {
    && live == sent.(official := live.official) && live.official.Some? == sent.official.Some?
    && (sent.official.Some? ==> SamePrices(sent.official.value, live.official.value))
  }

  predicate SamePrices(sent: map<string, OfficialPrice>, live: map<string, OfficialPrice>) {
    live.Keys == sent.Keys && forall name | name in sent :: live[name] == sent[name].(updatedAt := live[name].updatedAt)
  }

  lemma StampedCosts(sent: Settings, live: Settings, r: Route)
    requires IsStamped(sent, live)
    ensures BasisOf(live, r) == BasisOf(sent, r) && MultiplierOf(live, r) == MultiplierOf(sent, r)
  {
  }

  /** Nothing starts after `now` and up to `later`. */
  ghost predicate Quiet(versions: seq<Version>, now: int, later: int) {
    forall v | v in versions :: v.from <= now || later < v.from
  }

  /** A price in force is, once the plan is live, a republished one of its name if there is one, else the same. */
  lemma LatestAfter(versions: seq<Version>, more: seq<Version>, now: int, stamp: int, table: string, name: string,
                    later: int)
    requires now < stamp <= later && Quiet(versions, now, later)
    requires forall v | v in more :: Republishes(versions, now, stamp, v)
    ensures var was, will := Latest(versions, table, name, now), Latest(versions + more, table, name, later);
            && was.Some? == will.Some?
            && (was.Some? ==>
                 will.value in more || (will == was && forall v | v in more :: v.table != table || v.model != name))
  {
    LatestSteady(versions, table, name, now, later);
    if v :| v in more && v.table == table && v.model == name {
      LatestFacts(versions + more, table, name, later);
      assert v in versions + more && Applies(v, table, name, later);
    } else {
      LatestIgnores(versions, more, table, name, later);
    }
  }

  /** A callable mapping's price is already official, or its own name's and republished. */
  ghost predicate Settled(config: Config, now: int, versions: seq<Version>, m: Mapping)
    requires m.groupId in config.groups
  {
    var table, current := config.groups[m.groupId].table, CurrentPrice(config, m, now);
    && current.Some?
    && (current.value.official.Some?
        || (current.value.model == m.exposed && exists v | v in versions :: v.table == table && v.model == m.exposed))
  }

  lemma AllSettled(config: Config, policy: Policy, now: int, stamp: nat, versions: seq<Version>, m: Mapping)
    requires AllRepublished(VerdictsOn(config, policy, now, stamp), versions) && Callable(config, m)
    ensures Settled(config, now, versions, m)
  {
    var verdicts := VerdictsOn(config, policy, now, stamp);
    VerdictMeans(config, policy, now, stamp, m);
    InForceIsLatest(config.versions, config.groups[m.groupId].table, [m.exposed, m.target], now);
    assert m in verdicts && verdicts[m] == VerdictOn(config, policy, now, stamp, m);
    if !verdicts[m].Already? {
      var v := verdicts[m].version;
      assert v in versions && v.table == config.groups[m.groupId].table && v.model == m.exposed;
    }
  }

  /** A callable mapping's price, once the plan is live, has an official block. */
  lemma OfficialAfter(config: Config, now: int, stamp: int, versions: seq<Version>, after: Settings, m: Mapping,
                      later: int)
    requires now < stamp <= later && Quiet(config.versions, now, later) && Callable(config, m)
    requires forall v | v in versions :: Republishes(config.versions, now, stamp, v)
    requires Settled(config, now, versions, m)
    ensures var current := CurrentPrice(Published(config, versions, after), m, later);
            current.Some? && current.value.official.Some?
  {
    var table := config.groups[m.groupId].table;
    LatestFacts(config.versions, table, m.exposed, now);
    LatestFacts(config.versions, table, m.target, now);
    LatestFacts(config.versions, table, "*", now);
    LatestAfter(config.versions, versions, now, stamp, table, m.exposed, later);
    LatestAfter(config.versions, versions, now, stamp, table, m.target, later);
    LatestAfter(config.versions, versions, now, stamp, table, "*", later);
    PairInForce(config.versions, table, m.exposed, m.target, now);
    PairInForce(config.versions + versions, table, m.exposed, m.target, later);
  }

  /** A price in force of two names: the first that has a version, else the table's `*`. */
  lemma PairInForce(versions: seq<Version>, table: string, a: string, b: string, at: int)
    ensures InForce(versions, table, [a, b], at) ==
            if a != "*" && Latest(versions, table, a, at).Some? then Latest(versions, table, a, at)
            else if b != "*" && Latest(versions, table, b, at).Some? then Latest(versions, table, b, at)
            else Latest(versions, table, "*", at)
  {
    assert [a, b][1..] == [b] && [b][1..] == [];
    assert InForce(versions, table, [], at) == Latest(versions, table, "*", at);
    assert InForce(versions, table, [b], at) == if b != "*" && Latest(versions, table, b, at).Some?
      then Latest(versions, table, b, at) else Latest(versions, table, "*", at);
  }

  lemma SameTargets(config: Config, versions: seq<Version>, after: Settings)
    ensures forall name :: IsTarget(config, name) <==> IsTarget(Published(config, versions, after), name)
  {
    var config' := Published(config, versions, after);
    forall m: Mapping ensures Callable(config, m) <==> Callable(config', m) {}
  }

  lemma SameTable(config: Config, policy: Policy, table: map<string, OfficialPrice>, missing: set<string>,
                  config': Config, table': map<string, OfficialPrice>, missing': set<string>)
    requires IsOfficialTable(config, policy, table, missing) && IsOfficialTable(config', policy, table', missing')
    requires OrEmpty(config'.settings.official).Keys == table.Keys && forall name :: IsTarget(config, name) <==>
        IsTarget(config', name)
    ensures table' == OrEmpty(config'.settings.official) && missing' == missing
  {
    var live := OrEmpty(config'.settings.official);
    assert forall name | name in table' :: name in live;
    assert table'.Keys == live.Keys;
  }

  /** With the table filled and nothing in it missing, the defaults are already there. */
  lemma DefaultsSettled(config: Config, policy: Policy, table: map<string, OfficialPrice>, missing: set<string>,
                        versions: seq<Version>, live: Settings,
                        table': map<string, OfficialPrice>, missing': set<string>)
    requires IsOfficialTable(config, policy, table, missing)
        && IsStamped(WithDefaults(policy, config.settings, table), live)
    requires IsOfficialTable(Published(config, versions, live), policy, table', missing')
    ensures missing' == missing && WithDefaults(policy, live, table') == live
  {
    SameTargets(config, versions, live);
    assert OrEmpty(WithDefaults(policy, config.settings, table).official) == table;
    SameTable(config, policy, table, missing, Published(config, versions, live), table', missing');
    assert OrEmpty(live.routes) + PolicyRoutes(policy) == OrEmpty(live.routes);
  }

  /**
   * Planning again on what was published, once it is live, the added official prices stamped by the
   * server, and nothing else has started meanwhile, finds nothing to publish and no problem.
   */
  lemma PlanAgain(config: Config, policy: Policy, now: int, stamp: nat, p: Plan, live: Settings, later: int,
                  stamp': nat, q: Plan)
    requires now < stamp <= later && Quiet(config.versions, now, later)
    requires IsPlan(config, policy, now, stamp, p) && p.problems == [] && p.missing == {} && IsStamped(p.after, live)
    requires IsPlan(Published(config, p.versions, live), policy, later, stamp', q)
    ensures q.update.None? && q.problems == [] && q.missing == {}
  {
    var config' := Published(config, p.versions, live);
    var verdicts := VerdictsOn(config', policy, later, stamp');
    RepublishedRepublishes(config, policy, now, stamp, p.versions);
    forall m | m in verdicts ensures verdicts[m] == Already {
      AllSettled(config, policy, now, stamp, p.versions, m);
      OfficialAfter(config, now, stamp, p.versions, live, m, later);
      assert VerdictsOn(config, policy, now, stamp)[m] == VerdictOn(config, policy, now, stamp, m);
    }
    DefaultsSettled(config, policy, p.table, p.missing, p.versions, live, q.table, q.missing);
    NothingRepublished(verdicts, q.versions);
    forall m, r | Callable(config', m) && r in RoutesOf(m)
      ensures CostShownSame(config', q.after, q.versions, later, stamp', m, r)
    {
      assert Callable(config, m);
      RoutesHavePrices(config, policy, p.table, m, r);
      StampedCosts(p.after, live, r);
    }
  }
}
