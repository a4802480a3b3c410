/**
 * When a route's cost multiplier changes, prices can be moved along so that the margin on that
 * route stays: each gets a new version whose price multiplier moves in proportion, to 4 decimals,
 * from the first minute at which its table has no price of that name.
 */
module KeepMargin {
  import opened Options
  import opened Pricing
  import opened FreshIds

  datatype RouteSetting = RouteSetting(multiplier: Option<real>, basis: Option<Four<real>>)

  datatype Settings = Settings(face: Option<real>, usdCny: real, defaultCost: Option<real>,
                               providers: map<string, real>, official: map<string, Four<real>>,
                               routes: map<string, RouteSetting>)

  datatype Mapping = Mapping(exposed: string, provider: string, target: string, groupId: string)

  /** Settings before and after, each group's price table, the time now and the time asked for. */
  datatype Change = Change(before: Settings, after: Settings, groups: map<string, string>, versions: seq<Version>,
                           now: int, soon: int)

  /** `from` and `to`: the price multiplier before and after. */
  datatype Planned = Planned(version: Version, model: string, table: string, from: real, to: real)

  // ---- Starting times ----------------------------------------------------------------------

  /** A price of one of these tables and models starts at this time. */
  predicate TakenAt(versions: seq<Version>, prices: seq<(string, string)>, time: int) {
    exists v | v in versions :: v.from == time && (v.table, v.model) in prices
  }

  /** The first time, a minute at a time, at which none of these prices starts. */
  predicate IsFreeTime(versions: seq<Version>, prices: seq<(string, string)>, at: int, time: int) {
    && at <= time && (time - at) % 60 == 0 && !TakenAt(versions, prices, time)
    && forall t | at <= t < time && (t - at) % 60 == 0 :: TakenAt(versions, prices, t)
  }

  ghost function Ahead(versions: seq<Version>, time: int): set<int> {
    set v | v in versions && v.from >= time :: v.from
  }

  /** The search ends because only so many versions start later. */
  method FreeTime(versions: seq<Version>, prices: seq<(string, string)>, at: int) returns (time: int)
    ensures IsFreeTime(versions, prices, at, time)
  {
    time := at;
    while TakenAt(versions, prices, time)
      invariant at <= time && (time - at) % 60 == 0
      invariant forall t | at <= t < time && (t - at) % 60 == 0 :: TakenAt(versions, prices, t)
      decreases Ahead(versions, time)
    {
      assert time in Ahead(versions, time) && time !in Ahead(versions, time + 60);
      time := time + 60;
    }
  }

  // ---- Which prices move -------------------------------------------------------------------

  /** The route's own multiplier, else its provider's, else the default. */
  function MultiplierOf(s: Settings, m: Mapping): Option<real> {
    var key := RouteKey(m.provider, m.target);
    if key in s.routes && s.routes[key].multiplier.Some? then s.routes[key].multiplier
    else if m.provider in s.providers then Some(s.providers[m.provider])
    else s.defaultCost
  }

  /** What the route's upstream bills: the route's own basis, else its model's official price. */
  function BasisOf(s: Settings, m: Mapping): Option<Four<real>> {
    var key := RouteKey(m.provider, m.target);
    if key in s.routes && s.routes[key].basis.Some? then s.routes[key].basis
    else if m.target in s.official then Some(s.official[m.target])
    else None
  }

  /** What a request sent to the mapping's primary route costs, when both are known. */
  function RouteCost(s: Settings, m: Mapping): Option<Four<real>> {
    var basis, multiplier := BasisOf(s, m), MultiplierOf(s, m);
    if basis.None? || multiplier.None? then None
    else Some(Map4(CostAt(multiplier.value, s.usdCny), basis.value))
  }

  function CostAt(multiplier: real, usdCny: real): real -> real { usd => usd * multiplier * usdCny }

  function NamesOf(m: Mapping): seq<string> {
    if m.exposed == "" then (if m.target == "" then [] else [m.target])
    else if m.target == "" then [m.exposed] else [m.exposed, m.target]
  }

  function PriceNow(c: Change, m: Mapping): Option<Version>
    requires m.groupId in c.groups
  {
    InForce(c.versions, c.groups[m.groupId], NamesOf(m), c.now)
  }

  /** The latest version of the model's own name, else of its upstream model's, else of any model's. */
  lemma PriceNowIs(c: Change, m: Mapping)
    requires m.groupId in c.groups
    ensures var table := c.groups[m.groupId];
            var own, upstream := Latest(c.versions, table, m.exposed, c.now),
              Latest(c.versions, table, m.target, c.now);
            PriceNow(c, m) ==
              if |m.exposed| > 0 && m.exposed != "*" && own.Some? then own
              else if |m.target| > 0 && m.target != "*" && upstream.Some? then upstream
              else Latest(c.versions, table, "*", c.now)
  {
    var table := c.groups[m.groupId];
    assert [m.exposed, m.target][1..] == [m.target] && [m.target][1..] == [] && [m.exposed][1..] == [];
    NoneInForce(c.versions, table, c.now);
    OneInForce(c.versions, table, m.target, c.now);
    OneInForce(c.versions, table, m.exposed, c.now);
  }

  /** In proportion, to 4 decimals; a multiplier of 0 before gives no proportion. */
  function InProportion(price: real, was: real, will: real): real {
    if was == 0.0 then 0.0 else RoundHalfUp(price * will / was * 10000.0) as real / 10000.0
  }

  predicate MultiplierOk(x: real) { 0.0 < x <= 100.0 }

  predicate Moves(c: Change, m: Mapping) {
    && m.groupId in c.groups
    && var price, was, will := PriceNow(c, m), MultiplierOf(c.before, m), MultiplierOf(c.after, m);
    && price.Some? && price.value.official.Some? && was.Some? && will.Some? && was != will
    && BasisOf(c.before, m).Some? && BasisOf(c.after, m).Some?
    && MultiplierOk(InProportion(price.value.official.value.priceMultiplier, was.value, will.value))
  }

  /** The basis is left out when it is the official price itself. */
  function BilledBasis(s: Settings, m: Mapping, official: Four<real>): Option<Four<real>> {
    if BasisOf(s, m) == Some(official) then None else BasisOf(s, m)
  }

  function NewBlock(c: Change, m: Mapping): Block
    requires Moves(c, m)
  {
    var block, will := PriceNow(c, m).value.official.value, MultiplierOf(c.after, m).value;
    Block(block.official, InProportion(block.priceMultiplier, MultiplierOf(c.before, m).value, will), will,
          BilledBasis(c.after, m, block.official), c.after.usdCny,
          if c.after.face.Some? then c.after.face.value else block.face)
  }

  predicate IsPlanned(c: Change, m: Mapping, p: Planned) {
    Moves(c, m) &&
    var table, price, block := c.groups[m.groupId], PriceNow(c, m).value, NewBlock(c, m);
    && p.version == Version(p.version.id, table, price.model, p.version.from, OfficialCharge(block, false), Some(block))
    && IsFreeTime(c.versions, [(table, price.model)], c.soon, p.version.from)
    && p.model == m.exposed && p.table == table && p.from == price.official.value.priceMultiplier
    && p.to == block.priceMultiplier
  }

  predicate SameEntry(c: Change, m: Mapping, n: Mapping) {
    m.exposed == n.exposed && m.groupId in c.groups && n.groupId in c.groups
      && c.groups[m.groupId] == c.groups[n.groupId]
  }

  /** Mapping `i` is the first of its model in its price table, and its price moves. */
  predicate Decides(c: Change, mappings: seq<Mapping>, i: nat)
    requires i < |mappings|
  {
    Moves(c, mappings[i]) && forall j | 0 <= j < i :: !SameEntry(c, mappings[j], mappings[i])
  }

  /** The route's own cost multiplier, or else its provider's, or else the default. */
  predicate IsMultiplier(s: Settings, m: Mapping, r: real) {
    var route := m.provider + "/" + m.target;
    if route in s.routes && s.routes[route].multiplier != None then s.routes[route].multiplier == Some(r)
    else if m.provider in s.providers then s.providers[m.provider] == r
    else s.defaultCost == Some(r)
  }

  /** What the route was measured to bill, or else the official price of its model. */
  predicate IsBasis(s: Settings, m: Mapping, b: Four<real>) {
    var route := m.provider + "/" + m.target;
    if route in s.routes && s.routes[route].basis != None then s.routes[route].basis == Some(b)
    else m.target in s.official && s.official[m.target] == b
  }

  lemma MultiplierIs(s: Settings, m: Mapping)
    ensures forall r :: IsMultiplier(s, m, r) <==> MultiplierOf(s, m) == Some(r)
    ensures forall b :: IsBasis(s, m, b) <==> BasisOf(s, m) == Some(b)
  {
  }

  /** The nearest number of fourth decimals, up from the middle. */
  predicate IsNearest(k: int, price: real, was: real, will: real) {
    was != 0.0 && k as real - 0.5 <= price * will / was * 10000.0 < k as real + 0.5
  }

  /**
   * These multipliers move this price to so many fourth decimals: they differ, the old one is not 0,
   * and the new price multiplier is above 0 and at most 100.
   */
  predicate MovesTo(c: Change, m: Mapping, block: Block, was: real, will: real, k: int) {
    && IsMultiplier(c.before, m, was) && IsMultiplier(c.after, m, will) && (was < will || will < was)
    && IsNearest(k, block.priceMultiplier, was, will) && 0 < k <= 1000000
  }

  /**
   * A price moves exactly if it is an official one, its route is costed before and after, and the multipliers move
   * it.
   */
  lemma MovesExactly(c: Change, m: Mapping)
    ensures Moves(c, m) <==>
              && m.groupId in c.groups && PriceNow(c, m).Some? && PriceNow(c, m).value.official.Some?
              && (exists b :: IsBasis(c.before, m, b)) && (exists b :: IsBasis(c.after, m, b))
              && exists was, will, k :: MovesTo(c, m, PriceNow(c, m).value.official.value, was, will, k)
  {
    MultiplierIs(c.before, m);
    MultiplierIs(c.after, m);
    if m.groupId in c.groups && PriceNow(c, m).Some? && PriceNow(c, m).value.official.Some? {
      var block := PriceNow(c, m).value.official.value;
      if MultiplierOf(c.before, m).Some? && MultiplierOf(c.after, m).Some? {
        var was, will := MultiplierOf(c.before, m).value, MultiplierOf(c.after, m).value;
        var k := FourDecimals(block.priceMultiplier, was, will);
        Between(k);
        if was != 0.0 {
          NearestIs(block.priceMultiplier, was, will, k);
          if Moves(c, m) { assert MovesTo(c, m, block, was, will, k); }
        }
      }
      if was, will, k :| MovesTo(c, m, block, was, will, k) {
        NearestIs(block.priceMultiplier, was, will, k);
        Between(k);
      }
    }
  }

  lemma Between(k: int)
    ensures MultiplierOk(k as real / 10000.0) <==> 0 < k <= 1000000
  {
  }

  lemma NearestIs(price: real, was: real, will: real, k: int)
    requires was != 0.0
    ensures IsNearest(k, price, was, will) <==> InProportion(price, was, will) == k as real / 10000.0
  {
    var exact := price * will / was;
    assert InProportion(price, was, will) == RoundHalfUp(exact * 10000.0) as real / 10000.0;
    RoundsTo(exact * 10000.0, k);
  }

  /** The new price: the official price as it was, at the moved multiplier, the new cost, dollar and face value. */
  ghost predicate IsMoved(c: Change, m: Mapping, old': Block, b: Block) {
    && b.official == old'.official
    && (exists was, will, k ::
          MovesTo(c, m, old', was, will, k) && b.priceMultiplier == k as real / 10000.0 && b.costMultiplier == will)
    && IsBasis(c.after, m, if b.basis.Some? then b.basis.value else b.official)
    && (b.basis.Some? ==> b.basis.value != b.official)
    && b.usdCny == c.after.usdCny
    && b.face == (match c.after.face case Some(face) => face case None => old'.face)
  }

  lemma MovedIs(c: Change, m: Mapping)
    requires Moves(c, m)
    ensures IsMoved(c, m, PriceNow(c, m).value.official.value, NewBlock(c, m))
  {
    MultiplierIs(c.before, m);
    MultiplierIs(c.after, m);
    var block := PriceNow(c, m).value.official.value;
    var was, will := MultiplierOf(c.before, m).value, MultiplierOf(c.after, m).value;
    var k := FourDecimals(block.priceMultiplier, was, will);
    Between(k);
    NearestIs(block.priceMultiplier, was, will, k);
    assert MovesTo(c, m, block, was, will, k);
  }

  /** What is planned, in full: a fixed CNY price, charged and costed as its block says. */
  lemma PlannedExactly(c: Change, m: Mapping, p: Planned, kind: nat)
    requires IsPlanned(c, m, p) && kind < 4
    ensures var price, v := PriceNow(c, m).value, p.version;
            && v.table == c.groups[m.groupId] && v.model == price.model && v.official.Some?
            && IsMoved(c, m, price.official.value, v.official.value)
            && IsChargeOf(v.official.value, v.charge, kind)
            && p.model == m.exposed && p.table == v.table
            && p.from == price.official.value.priceMultiplier && p.to == v.official.value.priceMultiplier
  {
    MovedIs(c, m);
    OfficialChargeIs(p.version.official.value, kind);
  }

  /** The first mapping of each model in each price table decides: those whose price moves. */
  function Deciding(c: Change, mappings: seq<Mapping>, n: nat): seq<Mapping>
    requires n <= |mappings|
  {
    if n == 0 then []
      else Deciding(c, mappings, n - 1) + (if Decides(c, mappings, n - 1) then [mappings[n - 1]] else [])
  }

  /** One more mapping adds itself if it decides, and takes nothing away. */
  lemma DecidingKeeps(c: Change, mappings: seq<Mapping>, n: nat, m: Mapping)
    requires 0 < n <= |mappings|
    ensures m in Deciding(c, mappings, n) <==>
              m in Deciding(c, mappings, n - 1) || (Decides(c, mappings, n - 1) && m == mappings[n - 1])
  {
  }

  lemma {:induction false} DecidingHas(c: Change, mappings: seq<Mapping>, n: nat, i: nat)
    requires i < n <= |mappings| && Decides(c, mappings, i)
    ensures mappings[i] in Deciding(c, mappings, n)
  {
    if i < n - 1 { DecidingHas(c, mappings, n - 1, i); }
    DecidingKeeps(c, mappings, n, mappings[i]);
  }

  lemma {:induction false} DecidingFrom(c: Change, mappings: seq<Mapping>, n: nat, m: Mapping) returns (i: nat)
    requires n <= |mappings| && m in Deciding(c, mappings, n)
    ensures i < n && mappings[i] == m && Decides(c, mappings, i)
  {
    if m in Deciding(c, mappings, n - 1) {
      i := DecidingFrom(c, mappings, n - 1, m);
    } else {
      i := n - 1;
    }
  }

  /** Exactly those decide. */
  lemma DecidingExact(c: Change, mappings: seq<Mapping>, n: nat)
    requires n <= |mappings|
    ensures forall i | 0 <= i < n && Decides(c, mappings, i) :: mappings[i] in Deciding(c, mappings, n)
    ensures forall m | m in Deciding(c, mappings, n) ::
              exists i :: 0 <= i < n && mappings[i] == m && Decides(c, mappings, i)
  {
    forall i | 0 <= i < n && Decides(c, mappings, i) ensures mappings[i] in Deciding(c, mappings, n) {
      DecidingHas(c, mappings, n, i);
    }
    forall m | m in Deciding(c, mappings, n)
      ensures exists i :: 0 <= i < n && mappings[i] == m && Decides(c, mappings, i)
    {
      var i := DecidingFrom(c, mappings, n, m);
    }
  }

  ghost predicate OnePerEntry(c: Change, s: seq<Mapping>) {
    forall j, k | 0 <= j < k < |s| :: !SameEntry(c, s[j], s[k])
  }

  /** No two of them are of one model in one price table. */
  lemma {:induction false} DecidingDistinct(c: Change, mappings: seq<Mapping>, n: nat)
    requires n <= |mappings|
    ensures OnePerEntry(c, Deciding(c, mappings, n))
  {
    if n > 0 {
      DecidingDistinct(c, mappings, n - 1);
      if Decides(c, mappings, n - 1) {
        NewEntry(c, mappings, n - 1);
        OneMore(c, Deciding(c, mappings, n - 1), mappings[n - 1]);
      }
    }
  }

  lemma NewEntry(c: Change, mappings: seq<Mapping>, n: nat)
    requires n < |mappings| && Decides(c, mappings, n)
    ensures forall m | m in Deciding(c, mappings, n) :: !SameEntry(c, m, mappings[n])
  {
    DecidingExact(c, mappings, n);
    forall m | m in Deciding(c, mappings, n) ensures !SameEntry(c, m, mappings[n]) {
      var i :| 0 <= i < n && mappings[i] == m && Decides(c, mappings, i);
    }
  }

  lemma OneMore(c: Change, earlier: seq<Mapping>, last: Mapping)
    requires OnePerEntry(c, earlier) && forall m | m in earlier :: !SameEntry(c, m, last)
    ensures OnePerEntry(c, earlier + [last])
  {
    forall j | 0 <= j < |earlier| ensures !SameEntry(c, earlier[j], last) { assert earlier[j] in earlier; }
  }

  predicate IsMarginPlan(c: Change, deciding: seq<Mapping>, plan: seq<Planned>) {
    && |plan| == |deciding|
    && (forall k | 0 <= k < |plan| :: IsPlanned(c, deciding[k], plan[k]))
    && forall k | 0 <= k < |plan| :: IsNewId(c.versions, plan, k)
  }

  predicate IsNewId(versions: seq<Version>, plan: seq<Planned>, k: nat)
    requires k < |plan|
  {
    && (forall v | v in versions :: v.id != plan[k].version.id)
    && forall j | 0 <= j < k :: plan[j].version.id != plan[k].version.id
  }

  /** The entries the loop has decided: a price table and a model each. */
  function Entries(c: Change, mappings: seq<Mapping>): set<(string, string)> {
    set m | m in mappings && m.groupId in c.groups :: (c.groups[m.groupId], m.exposed)
  }

  ghost predicate AllTaken(versions: seq<Version>, plan: seq<Planned>, taken: set<string>) {
    (forall v | v in versions :: v.id in taken) && forall k | 0 <= k < |plan| :: plan[k].version.id in taken
  }

  /** The new version of the price that a deciding mapping is charged at. */
  method PlanOne(c: Change, m: Mapping, idBase: (string, int) -> string, taken: set<string>) returns (p: Planned)
    requires Moves(c, m)
    ensures IsPlanned(c, m, p) && p.version.id !in taken
    ensures IsNumbered(p.version.id, idBase(p.version.model, p.version.from))
  {
    var table, price, block := c.groups[m.groupId], PriceNow(c, m).value, NewBlock(c, m);
    var from := FreeTime(c.versions, [(table, price.model)], c.soon);
    var id := FreshId(idBase(price.model, from), taken);
    var version := Version(id, table, price.model, from, OfficialCharge(block, false), Some(block));
    p := Planned(version, m.exposed, table, price.official.value.priceMultiplier, block.priceMultiplier);
  }

  /** The plan with one more deciding mapping. */
  method PlanMore(c: Change, m: Mapping, idBase: (string, int) -> string, plan: seq<Planned>, taken: set<string>,
                  ghost deciding: seq<Mapping>)
    returns (more: seq<Planned>, ids: set<string>)
    requires Moves(c, m) && IsMarginPlan(c, deciding, plan) && AllTaken(c.versions, plan, taken)
    ensures IsMarginPlan(c, deciding + [m], more) && AllTaken(c.versions, more, ids)
  {
    var planned := PlanOne(c, m, idBase, taken);
    AddPlanned(c, deciding, plan, taken, m, planned);
    more, ids := plan + [planned], taken + {planned.version.id};
  }

  method KeepMarginPlan(c: Change, mappings: seq<Mapping>, idBase: (string, int) -> string) returns (plan: seq<Planned>)
    ensures IsMarginPlan(c, Deciding(c, mappings, |mappings|), plan)
  {
    plan := [];
    var taken := set v | v in c.versions :: v.id;
    var done: set<(string, string)> := {};
    for i := 0 to |mappings|
      invariant done == Entries(c, mappings[..i])
      invariant AllTaken(c.versions, plan, taken)
      invariant IsMarginPlan(c, Deciding(c, mappings, i), plan)
    {
      var m := mappings[i];
      Decided(c, mappings, i);
      if m.groupId in c.groups && (c.groups[m.groupId], m.exposed) !in done {
        done := done + {(c.groups[m.groupId], m.exposed)};
        if Moves(c, m) {
          plan, taken := PlanMore(c, m, idBase, plan, taken, Deciding(c, mappings, i));
        }
      }
    }
  }

  lemma AddPlanned(c: Change, deciding: seq<Mapping>, plan: seq<Planned>, taken: set<string>, m: Mapping, p: Planned)
    requires IsMarginPlan(c, deciding, plan) && AllTaken(c.versions, plan, taken)
    requires IsPlanned(c, m, p) && p.version.id !in taken
    ensures IsMarginPlan(c, deciding + [m], plan + [p]) && AllTaken(c.versions, plan + [p], taken + {p.version.id})
  {
    var longer := plan + [p];
    forall k | 0 <= k < |longer|
      ensures IsPlanned(c, (deciding + [m])[k], longer[k]) && IsNewId(c.versions, longer, k)
    {
      if k < |plan| { assert IsNewId(c.versions, plan, k); }
    }
  }

  /** The mapping is the first of its entry. */
  predicate IsFirst(c: Change, m: Mapping, done: set<(string, string)>) {
    m.groupId in c.groups && (c.groups[m.groupId], m.exposed) !in done
  }

  lemma EntriesMore(c: Change, mappings: seq<Mapping>, i: nat)
    requires i < |mappings|
    ensures var m := mappings[i];
            Entries(c, mappings[..i + 1]) == Entries(c, mappings[..i])
              + (if m.groupId in c.groups then {(c.groups[m.groupId], m.exposed)} else {})
  {
    assert mappings[..i + 1] == mappings[..i] + [mappings[i]];
  }

  lemma FirstIs(c: Change, mappings: seq<Mapping>, i: nat)
    requires i < |mappings| && mappings[i].groupId in c.groups
    ensures IsFirst(c, mappings[i], Entries(c, mappings[..i])) <==>
              forall j | 0 <= j < i :: !SameEntry(c, mappings[j], mappings[i])
  {
    var m, before := mappings[i], mappings[..i];
    if (c.groups[m.groupId], m.exposed) in Entries(c, before) {
      var n :| n in before && n.groupId in c.groups
               && (c.groups[n.groupId], n.exposed) == (c.groups[m.groupId], m.exposed);
      var j :| 0 <= j < i && before[j] == n;
      assert SameEntry(c, mappings[j], m);
    }
    forall j | 0 <= j < i && SameEntry(c, mappings[j], m) ensures !IsFirst(c, m, Entries(c, before)) {
      assert before[j] in before;
    }
  }

  /** What one more mapping changes: the entries decided, and those that decide. */
  lemma Decided(c: Change, mappings: seq<Mapping>, i: nat)
    requires i < |mappings|
    ensures var m, done := mappings[i], Entries(c, mappings[..i]);
            && (IsFirst(c, m, done) ==>
                 Entries(c, mappings[..i + 1]) == done + {(c.groups[m.groupId], m.exposed)})
            && (!IsFirst(c, m, done) ==> Entries(c, mappings[..i + 1]) == done)
            && Deciding(c, mappings, i + 1) ==
               if IsFirst(c, m, done) && Moves(c, m) then Deciding(c, mappings, i) + [m] else Deciding(c, mappings, i)
  {
    EntriesMore(c, mappings, i);
    if mappings[i].groupId in c.groups { FirstIs(c, mappings, i); }
    assert Deciding(c, mappings, i) + [] == Deciding(c, mappings, i);
  }

  // ---- The margin --------------------------------------------------------------------------

  /** The price multiplier over the cost multiplier stays, to half of a fourth decimal of the new price multiplier. */
  lemma RatioKept(c: Change, m: Mapping, p: Planned)
    requires IsPlanned(c, m, p) && MultiplierOf(c.before, m).value > 0.0 && MultiplierOf(c.after, m).value > 0.0
    ensures var was, will := MultiplierOf(c.before, m).value, MultiplierOf(c.after, m).value;
            p.from / was - 1.0 / (20000.0 * will) <= p.to / will <= p.from / was + 1.0 / (20000.0 * will)
  {
    ProportionKept(p.from, MultiplierOf(c.before, m).value, MultiplierOf(c.after, m).value);
  }

  lemma ProportionKept(price: real, was: real, will: real)
    requires was > 0.0 && will > 0.0
    ensures price / was - 1.0 / (20000.0 * will) <= InProportion(price, was, will) / will
        <= price / was + 1.0 / (20000.0 * will)
  {
    var exact, to := price * will / was, InProportion(price, was, will);
    var half := 1.0 / 20000.0;
    assert exact - half <= to <= exact + half;
    OverSum(exact, half, to, will);
    assert half / will == 1.0 / (20000.0 * will);
    Cancel(price, was, will);
  }

  lemma OverSum(exact: real, half: real, to: real, d: real)
    requires exact - half <= to <= exact + half && d > 0.0
    ensures exact / d - half / d <= to / d <= exact / d + half / d
  {
    var x, h, t := exact / d, half / d, to / d;
    assert (x - h) * d <= t * d <= (x + h) * d;
  }

  lemma Cancel(price: real, was: real, will: real)
    requires was > 0.0 && will > 0.0
    ensures price * will / was / will == price / was
  {
    var ratio := price / was;
    assert price == ratio * was;
    assert price * will == (ratio * will) * was;
    assert price * will / was == ratio * will;
  }

  /**
   * How far price over cost may move: half a fourth decimal of the price multiplier, half a micro-credit of each
   * price.
   */
  function Slack(usd: real, basis: real, multiplier: real, face: real, cost: real, newCost: real): real
    requires basis > 0.0 && multiplier > 0.0 && cost > 0.0 && newCost > 0.0
  {
    usd / basis * (1.0 / (20000.0 * multiplier)) + face / 2000000.0 / cost + face / 2000000.0 / newCost
  }

  /** Only cost multipliers change, and the price in force was computed under these settings. */
  predicate OnlyMultipliers(c: Change, m: Mapping)
    requires Moves(c, m)
  {
    var price := PriceNow(c, m).value;
    var block := price.official.value;
    && c.before.usdCny == c.after.usdCny == block.usdCny && block.usdCny > 0.0
    && BasisOf(c.before, m) == BasisOf(c.after, m)
    && block.face > 0.0 && (c.after.face.Some? ==> c.after.face.value == block.face)
    && price.charge.credits == CreditsOf(block)
    && MultiplierOf(c.before, m).value > 0.0 && MultiplierOf(c.after, m).value > 0.0
  }

  /** Two mappings of one price table charged at the very same price. */
  predicate ChargedAlike(c: Change, m: Mapping, n: Mapping) {
    && m.groupId in c.groups && n.groupId in c.groups && c.groups[n.groupId] == c.groups[m.groupId]
    && PriceNow(c, n).Some? && PriceNow(c, n) == PriceNow(c, m)
  }

  /** The mapping's primary route is costed before and after, of the same bill. */
  predicate Costed(c: Change, n: Mapping) {
    && MultiplierOf(c.before, n).Some? && MultiplierOf(c.before, n).value > 0.0
    && MultiplierOf(c.after, n).Some? && MultiplierOf(c.after, n).value > 0.0
    && BasisOf(c.before, n).Some? && BasisOf(c.before, n) == BasisOf(c.after, n)
  }

  /** The price multiplier that keeps this mapping's own margin. */
  function OwnMultiplier(c: Change, n: Mapping, price: real): real
    requires Costed(c, n)
  {
    InProportion(price, MultiplierOf(c.before, n).value, MultiplierOf(c.after, n).value)
  }

  /** The one multiplier over the other stays, to half of a fourth decimal of the price multiplier. */
  predicate RatioStays(price: real, was: real, to: real, will: real)
    requires was > 0.0 && will > 0.0
  {
    (to - 1.0 / 20000.0) / will <= price / was < (to + 1.0 / 20000.0) / will
  }

  /**
   * A planned version moves every mapping charged at the price. The ratio stays for exactly those
   * whose own cost multipliers ask for the same new price multiplier.
   */
  lemma RatioStaysExactly(c: Change, m: Mapping, p: Planned, n: Mapping)
    requires IsPlanned(c, m, p) && ChargedAlike(c, m, n) && Costed(c, n)
    ensures RatioStays(p.from, MultiplierOf(c.before, n).value, p.to, MultiplierOf(c.after, n).value) <==>
        OwnMultiplier(c, n, p.from) == p.to
  {
    var k := FourDecimals(p.from, MultiplierOf(c.before, m).value, MultiplierOf(c.after, m).value);
    Rounds(p.from, MultiplierOf(c.before, n).value, p.to, MultiplierOf(c.after, n).value, k);
  }

  lemma FourDecimals(price: real, was: real, will: real) returns (k: int)
    ensures InProportion(price, was, will) == k as real / 10000.0
  {
    k := if was == 0.0 then 0 else RoundHalfUp(price * will / was * 10000.0);
  }

  lemma Rounds(price: real, was: real, to: real, will: real, k: int)
    requires was > 0.0 && will > 0.0 && to == k as real / 10000.0
    ensures RatioStays(price, was, to, will) <==> InProportion(price, was, will) == to
  {
    var exact := Exactly(price, was, to, will);
    RoundsTo(exact * 10000.0, k);
  }

  lemma RoundsTo(x: real, k: int)
    ensures RoundHalfUp(x) == k <==> k as real - 0.5 <= x < k as real + 0.5
  {
  }

  /** The exact multiplier in proportion: the ratio stays if it is close, and the rounded one is rounded from it. */
  lemma Exactly(price: real, was: real, to: real, will: real) returns (exact: real)
    requires was > 0.0 && will > 0.0
    ensures RatioStays(price, was, to, will) <==> to - 1.0 / 20000.0 <= exact < to + 1.0 / 20000.0
    ensures InProportion(price, was, will) == RoundHalfUp(exact * 10000.0) as real / 10000.0
  {
    exact := Proportion(price, was, will);
    ScaledUp(price, was, will);
    OverLess(to - 1.0 / 20000.0, price / was, will, exact);
    OverLess(to + 1.0 / 20000.0, price / was, will, exact);
  }

  lemma Proportion(price: real, was: real, will: real) returns (exact: real)
    requires was > 0.0
    ensures exact == price * will / was
        && InProportion(price, was, will) == RoundHalfUp(exact * 10000.0) as real / 10000.0
  {
    exact := price * will / was;
  }

  lemma ScaledUp(price: real, was: real, will: real)
    requires was > 0.0
    ensures price * will / was == price / was * will
  {
    var ratio := price / was;
    assert price == ratio * was;
    assert price * will == (ratio * will) * was;
  }

  lemma OverLess(a: real, ratio: real, d: real, product: real)
    requires d > 0.0 && product == ratio * d
    ensures a / d <= ratio <==> a <= product
  {
    var q := a / d;
    assert a == q * d;
    if q <= ratio { assert (ratio - q) * d >= 0.0; } else { assert (q - ratio) * d > 0.0; }
  }

  /** The block in force and the planned one, side by side. */
  lemma PlannedBlock(c: Change, m: Mapping, p: Planned)
    requires IsPlanned(c, m, p) && OnlyMultipliers(c, m)
    ensures var block, now := PriceNow(c, m).value.official.value, p.version.official.value;
            && now.official == block.official && now.face == block.face && now.usdCny == block.usdCny
            && block.priceMultiplier == p.from && now.priceMultiplier == p.to
            && p.version.charge.credits == CreditsOf(now)
  {
  }

  /**
   * For each kind of token, what customers pay over what the primary route costs stays, to half a
   * fourth decimal of the price multiplier and half a micro-credit of each price, for every mapping
   * charged at the price whose own multipliers ask for the planned one.
   */
  lemma SharedMarginKept(c: Change, m: Mapping, p: Planned, n: Mapping, kind: nat)
    requires IsPlanned(c, m, p) && OnlyMultipliers(c, m) && kind < 4
    requires ChargedAlike(c, m, n) && Costed(c, n) && OwnMultiplier(c, n, p.from) == p.to
    requires Kind(p.version.official.value.official, kind) >= 0.0 && Kind(BasisOf(c.before, n).value, kind) > 0.0
    ensures var cost, newCost := Kind(RouteCost(c.before, n).value, kind), Kind(RouteCost(c.after, n).value, kind);
            && cost > 0.0 && newCost > 0.0
            && IsKept(Kind(p.version.official.value.official, kind), Kind(BasisOf(c.before, n).value, kind),
                      MultiplierOf(c.after, n).value, p.version.official.value.face,
                      Kind(PriceNow(c, n).value.charge.credits, kind), cost,
                      Kind(p.version.charge.credits, kind), newCost)
  {
    var block, now := PriceNow(c, m).value.official.value, p.version.official.value;
    var was, will, basis := MultiplierOf(c.before, n).value, MultiplierOf(c.after, n).value, BasisOf(c.before, n).value;
    var rate, usd, b := block.usdCny, Kind(block.official, kind), Kind(basis, kind);
    PlannedBlock(c, m, p);
    KindOfCredits(block, kind);
    KindOfCredits(now, kind);
    KindOfMap(CostAt(was, rate), basis, kind);
    KindOfMap(CostAt(will, rate), basis, kind);
    KindIsKept(usd, b, block.priceMultiplier, was, will, rate, block.face,
               Kind(PriceNow(c, n).value.charge.credits, kind), Kind(RouteCost(c.before, n).value, kind),
               Kind(p.version.charge.credits, kind), Kind(RouteCost(c.after, n).value, kind));
  }

  /** The mapping the plan was made for is one of them, and its new cost is the one recorded. */
  lemma MarginKept(c: Change, m: Mapping, p: Planned, kind: nat)
    requires IsPlanned(c, m, p) && OnlyMultipliers(c, m) && kind < 4
    requires Kind(p.version.official.value.official, kind) >= 0.0 && Kind(BasisOf(c.before, m).value, kind) > 0.0
    ensures var cost, newCost := Kind(RouteCost(c.before, m).value, kind), Kind(p.version.charge.costs, kind);
            && cost > 0.0 && newCost > 0.0
            && IsKept(Kind(p.version.official.value.official, kind), Kind(BasisOf(c.before, m).value, kind),
                      MultiplierOf(c.after, m).value, p.version.official.value.face,
                      Kind(PriceNow(c, m).value.charge.credits, kind), cost,
                      Kind(p.version.charge.credits, kind), newCost)
  {
    SharedMarginKept(c, m, p, m, kind);
    RecordedCostIsBilled(c, m, p);
  }

  /** Price over cost is what it was, to the slack there is. */
  predicate IsKept(usd: real, basis: real, multiplier: real, face: real, was: int, cost: real, will: int, newCost: real)
    requires basis > 0.0 && multiplier > 0.0 && cost > 0.0 && newCost > 0.0
  {
    var before, slack := Worth(was, face) / cost, Slack(usd, basis, multiplier, face, cost, newCost);
    before - slack <= Worth(will, face) / newCost <= before + slack
  }

  /** Price over cost, before and after, at these multipliers. */
  lemma KindIsKept(usd: real, basis: real, price: real, was: real, will: real, usdCny: real, face: real, credits: int,
                   cost: real, newCredits: int, newCost: real)
    requires usd >= 0.0 && basis > 0.0 && was > 0.0 && will > 0.0 && usdCny > 0.0 && face > 0.0
    requires credits == CreditsFor(usd, price, usdCny, face)
        && newCredits == CreditsFor(usd, InProportion(price, was, will), usdCny, face)
    requires cost == CostAt(was, usdCny)(basis) && newCost == CostAt(will, usdCny)(basis)
    ensures cost > 0.0 && newCost > 0.0 && IsKept(usd, basis, will, face, credits, cost, newCredits, newCost)
  {
    var to := InProportion(price, was, will);
    var half, x := PriceOverCost(usd, basis, price, was, usdCny, face, credits, cost);
    var newHalf, y := PriceOverCost(usd, basis, to, will, usdCny, face, newCredits, newCost);
    ProportionKept(price, was, will);
    var scale, e := usd / basis, 1.0 / (20000.0 * will);
    ScaledDifference(scale, price / was, to / will, e, x, y);
    Combined(Worth(credits, face) / cost, half, x, Worth(newCredits, face) / newCost, newHalf, y, scale * e);
  }

  lemma Combined(a: real, da: real, x: real, b: real, db: real, y: real, d: real)
    requires x - da <= a <= x + da && y - db <= b <= y + db && x - d <= y <= x + d
    ensures a - (d + da + db) <= b <= a + (d + da + db)
  {
  }

  /** Price over cost is official price over basis, times the one multiplier over the other, to half a micro-credit. */
  lemma PriceOverCost(usd: real, basis: real, price: real, multiplier: real, usdCny: real, face: real, credits: int,
                      cost: real)
    returns (half: real, exact: real)
    requires basis > 0.0 && multiplier > 0.0 && usdCny > 0.0 && face > 0.0
    requires credits == CreditsFor(usd, price, usdCny, face) && cost == CostAt(multiplier, usdCny)(basis)
    ensures cost > 0.0 && half == face / 2000000.0 / cost && exact == usd / basis * (price / multiplier)
    ensures exact - half <= Worth(credits, face) / cost <= exact + half
  {
    WorthOf(usd, price, usdCny, face);
    OverCost(usd, basis, price, multiplier, usdCny, cost);
    OverSum(YuanOf(usd, price, usdCny), face / 2000000.0, Worth(credits, face), cost);
    half, exact := face / 2000000.0 / cost, usd / basis * (price / multiplier);
  }

  lemma ProductPositive(a: real, b: real, c: real)
    requires a > 0.0 && b > 0.0 && c > 0.0
    ensures a * b * c > 0.0
  {
    var d := a * b;
    assert d > 0.0;
  }

  lemma OverCost(usd: real, basis: real, price: real, multiplier: real, usdCny: real, cost: real)
    requires basis > 0.0 && multiplier > 0.0 && usdCny > 0.0 && cost == basis * multiplier * usdCny
    ensures cost > 0.0 && YuanOf(usd, price, usdCny) / cost == usd / basis * (price / multiplier)
  {
    ProductPositive(basis, multiplier, usdCny);
    var q, r := usd / basis, price / multiplier;
    assert usd == q * basis && price == r * multiplier;
    assert usd * price * usdCny == (q * r) * (basis * multiplier * usdCny);
    Quotient(usd * price * usdCny, q * r, cost);
  }

  lemma Quotient(a: real, q: real, d: real)
    requires d > 0.0 && a == q * d
    ensures a / d == q
  {
  }

  lemma ScaledDifference(scale: real, a: real, b: real, e: real, x: real, y: real)
    requires scale >= 0.0 && a - e <= b <= a + e && x == scale * a && y == scale * b
    ensures x - scale * e <= y <= x + scale * e
  {
    assert scale * (b - a + e) >= 0.0 && scale * (a + e - b) >= 0.0;
  }

  /** The cost a planned version records is what billing will cost its primary route. */
  lemma RecordedCostIsBilled(c: Change, m: Mapping, p: Planned)
    requires IsPlanned(c, m, p)
    ensures RouteCost(c.after, m) == Some(p.version.charge.costs)
  {
  }

  // ---- Starting times of one plan ----------------------------------------------------------

  ghost predicate UniqueStarts(versions: seq<Version>) {
    forall i, j | 0 <= i < j < |versions| :: !SameStart(versions[i], versions[j])
  }

  /** Two mappings of one price table charged at the same name's price. */
  predicate ShareAPrice(c: Change, m: Mapping, n: Mapping) {
    && m.groupId in c.groups && n.groupId in c.groups && c.groups[m.groupId] == c.groups[n.groupId]
    && PriceNow(c, m).Some? && PriceNow(c, n).Some? && PriceNow(c, m).value.model == PriceNow(c, n).value.model
  }

  function VersionsOf(plan: seq<Planned>): (r: seq<Version>)
    ensures |r| == |plan| && forall k | 0 <= k < |r| :: r[k] == plan[k].version
  {
    seq(|plan|, k requires 0 <= k < |plan| => plan[k].version)
  }

  lemma FreeTimeUnique(versions: seq<Version>, prices: seq<(string, string)>, at: int, a: int, b: int)
    requires IsFreeTime(versions, prices, at, a) && IsFreeTime(versions, prices, at, b)
    ensures a == b
  {
  }

  lemma PlannedClash(c: Change, m: Mapping, p: Planned, n: Mapping, q: Planned)
    requires IsPlanned(c, m, p) && IsPlanned(c, n, q)
    ensures SameStart(p.version, q.version) <==> ShareAPrice(c, m, n)
  {
    if p.version.table == q.version.table && p.version.model == q.version.model {
      FreeTimeUnique(c.versions, [(p.version.table, p.version.model)], c.soon, p.version.from, q.version.from);
    }
  }

  /**
   * The server keeps one price per table, model and time. What is planned keeps to that exactly
   * when no two of the deciding mappings are charged at the same price: a free time is sought
   * among the published prices only, not among those already planned.
   */
  lemma PlannedStartsUnique(c: Change, deciding: seq<Mapping>, plan: seq<Planned>)
    requires IsMarginPlan(c, deciding, plan) && UniqueStarts(c.versions)
    ensures UniqueStarts(c.versions + VersionsOf(plan)) <==>
        forall j, k | 0 <= j < k < |deciding| :: !ShareAPrice(c, deciding[j], deciding[k])
  {
    var more := VersionsOf(plan);
    forall v, w | v in c.versions && w in more ensures !SameStart(v, w) {
      var k :| 0 <= k < |more| && w == more[k];
      assert IsPlanned(c, deciding[k], plan[k]);
      PlannedIsFree(c, deciding[k], plan[k], v);
    }
    UniqueAppend(c.versions, more);
    forall j, k | 0 <= j < k < |plan|
      ensures SameStart(more[j], more[k]) <==> ShareAPrice(c, deciding[j], deciding[k])
    {
      assert IsPlanned(c, deciding[j], plan[j]) && IsPlanned(c, deciding[k], plan[k]);
      PlannedClash(c, deciding[j], plan[j], deciding[k], plan[k]);
    }
  }

  lemma UniqueAppend(a: seq<Version>, b: seq<Version>)
    requires UniqueStarts(a) && forall v, w | v in a && w in b :: !SameStart(v, w)
    ensures UniqueStarts(a + b) <==> UniqueStarts(b)
  {
    var all := a + b;
    if UniqueStarts(all) {
      forall i, j | 0 <= i < j < |b| ensures !SameStart(b[i], b[j]) {
        assert !SameStart(all[|a| + i], all[|a| + j]);
      }
    }
  }

  lemma PlannedIsFree(c: Change, m: Mapping, p: Planned, v: Version)
    requires IsPlanned(c, m, p) && v in c.versions
    ensures !SameStart(v, p.version)
  {
    var prices := [(p.version.table, p.version.model)];
    assert (p.version.table, p.version.model) in prices;
    assert !TakenAt(c.versions, prices, p.version.from);
  }

  /** One price, of an upstream model; the default cost multiplier doubles. */
  function Doubled(): Change {
    var block := Block(Four(1.0, 1.0, 1.0, 1.0), 2.0, 1.0, None, 1.0, 1.0);
    var before := Settings(Some(1.0), 1.0, Some(1.0), map[], map["up" := Four(1.0, 1.0, 1.0, 1.0)], map[]);
    Change(before, before.(defaultCost := Some(2.0)), map["g" := "t"],
      [Version("p", "t", "up", 0, OfficialCharge(block, false), Some(block))], 10, 20)
  }

  function OfUp(name: string): Mapping { Mapping(name, "x", "up", "g") }

  lemma PricedAtUp(c: Change, name: string, provider: string)
    requires c.versions == Doubled().versions && c.groups == Doubled().groups && c.now == Doubled().now
    requires name != "" && name != "up" && name != "*"
    ensures PriceNow(c, Mapping(name, provider, "up", "g")) == Some(Doubled().versions[0])
  {
    var m := Mapping(name, provider, "up", "g");
    LatestOfOne(c.versions[0], "t", 10);
    assert NamesOf(m) == [name, "up"] && NamesOf(m)[1..] == ["up"];
    assert InForce(c.versions, "t", ["up"], 10) == Some(c.versions[0]);
  }

  lemma DoubledMoves(name: string)
    requires name != "" && name != "up" && name != "*"
    ensures PriceNow(Doubled(), OfUp(name)) == Some(Doubled().versions[0]) && Moves(Doubled(), OfUp(name))
  {
    PricedAtUp(Doubled(), name, "x");
    assert InProportion(2.0, 1.0, 2.0) == 4.0;
  }

  /** The same, but one provider has a multiplier of its own, which stays. */
  function OneStays(): Change {
    var c := Doubled();
    c.(before := c.before.(providers := map["y" := 1.0]), after := c.after.(providers := map["y" := 1.0]))
  }

  /** A model of the other provider at the shared price: its cost stays, its price doubles with the planned version. */
  lemma OtherMarginMoves(p: Planned)
    requires IsPlanned(OneStays(), OfUp("a"), p)
    ensures var c, n := OneStays(), Mapping("b", "y", "up", "g");
            && ChargedAlike(c, OfUp("a"), n) && Costed(c, n)
            && MultiplierOf(c.before, n) == MultiplierOf(c.after, n) == Some(1.0)
            && !RatioStays(p.from, 1.0, p.to, 1.0)
  {
    var c, n := OneStays(), Mapping("b", "y", "up", "g");
    assert "a"[0] != "u"[0] && "a"[0] != "*"[0] && "b"[0] != "u"[0] && "b"[0] != "*"[0];
    PricedAtUp(c, "a", "x");
    PricedAtUp(c, "b", "y");
    assert InProportion(2.0, 1.0, 2.0) == 4.0 && InProportion(2.0, 1.0, 1.0) == 2.0;
    RatioStaysExactly(c, OfUp("a"), p, n);
  }

  lemma BothDecide(c: Change, a: Mapping, b: Mapping)
    requires Moves(c, a) && Moves(c, b) && !SameEntry(c, a, b)
    ensures Deciding(c, [a, b], 2) == [a, b]
  {
    assert Deciding(c, [a, b], 1) == [a];
  }

  lemma TwoClash(c: Change, a: Mapping, b: Mapping, plan: seq<Planned>)
    requires IsMarginPlan(c, [a, b], plan) && ShareAPrice(c, a, b)
    ensures |plan| == 2 && SameStart(plan[0].version, plan[1].version)
  {
    assert IsPlanned(c, [a, b][0], plan[0]) && IsPlanned(c, [a, b][1], plan[1]);
    PlannedClash(c, a, plan[0], b, plan[1]);
  }

  /** Two models charged at their shared upstream model's price are both planned, at one time. */
  lemma SharedPriceClashes(plan: seq<Planned>)
    requires IsMarginPlan(Doubled(), Deciding(Doubled(), [OfUp("a"), OfUp("b")], 2), plan)
    ensures |plan| == 2 && SameStart(plan[0].version, plan[1].version)
  {
    DoubledMoves("a");
    DoubledMoves("b");
    assert "a"[0] != "b"[0];
    BothDecide(Doubled(), OfUp("a"), OfUp("b"));
    TwoClash(Doubled(), OfUp("a"), OfUp("b"), plan);
  }

  lemma LatestOfOne(v: Version, table: string, at: int)
    ensures forall name :: Latest([v], table, name, at) == if Applies(v, table, name, at) then Some(v) else None
  {
    forall name ensures Latest([v], table, name, at) == if Applies(v, table, name, at) then Some(v) else None {
      assert [v][..0] == [];
      assert Latest([], table, name, at) == None;
    }
  }

  // ---- What the plan puts in force ---------------------------------------------------------

  /** Of these names, and this one's own, none starts anew: another since `now`, this one since `from`. */
  predicate NoneAnew(versions: seq<Version>, table: string, names: seq<string>, model: string, now: int, from: int,
                     at: int) {
    forall v | v in versions && v.table == table && (v.model in names || v.model == model) ::
      v.from <= (if v.model == model then from else now) || at < v.from
  }

  /** If only the latest of the name in force changes, the price in force changes to it. */
  lemma {:induction false} InForceMoves(before: seq<Version>, after: seq<Version>, table: string, names: seq<string>,
                                        now: int, at: int, price: Version, next: Version)
    requires InForce(before, table, names, now) == Some(price) && Latest(after, table, price.model, at) == Some(next)
    requires forall name | name in names && name != price.model && Latest(before, table, name, now).None? ::
        Latest(after, table, name, at).None?
    requires forall name | Latest(before, table, name, now).Some? ::
        Latest(before, table, name, now).value.model == name
    ensures InForce(after, table, names, at) == Some(next)
  {
    if names != [] && (names[0] == "*" || Latest(before, table, names[0], now).None?) {
      assert names[0] in names && forall name | name in names[1..] :: name in names;
      InForceMoves(before, after, table, names[1..], now, at, price, next);
    }
  }

  /** A planned version's name has a price in its table now. */
  lemma PlannedHasPrice(c: Change, m: Mapping, p: Planned)
    requires IsPlanned(c, m, p)
    ensures Latest(c.versions, p.version.table, p.version.model, c.now).Some?
  {
    InForceIsLatest(c.versions, c.groups[m.groupId], NamesOf(m), c.now);
  }

  /**
   * From its starting time, and until another version of its names starts, every mapping charged at
   * the price that moves is charged at the planned version, if no two deciding mappings share a price.
   */
  lemma PlannedInForce(c: Change, deciding: seq<Mapping>, plan: seq<Planned>, k: nat, n: Mapping, at: int)
    requires IsMarginPlan(c, deciding, plan) && k < |plan| && c.now < c.soon && ChargedAlike(c, deciding[k], n)
    requires forall i, j | 0 <= i < j < |deciding| :: !ShareAPrice(c, deciding[i], deciding[j])
    requires var v := plan[k].version;
             v.from <= at && NoneAnew(c.versions, v.table, NamesOf(n), v.model, c.now, v.from, at)
    ensures var v := plan[k].version;
            InForce(c.versions + VersionsOf(plan), v.table, NamesOf(n), at) == Some(v)
  {
    var v, all, m := plan[k].version, c.versions + VersionsOf(plan), deciding[k];
    assert IsPlanned(c, m, plan[k]);
    var price := PriceNow(c, m).value;
    InForceIsLatest(c.versions, v.table, NamesOf(m), c.now);
    LatestPlanned(c, deciding, plan, k, at);
    forall name
      ensures Latest(c.versions, v.table, name, c.now).Some? ==>
          Latest(c.versions, v.table, name, c.now).value.model == name
    {
      LatestFacts(c.versions, v.table, name, c.now);
    }
    forall name | name in NamesOf(n) && name != price.model && Latest(c.versions, v.table, name, c.now).None?
      ensures Latest(all, v.table, name, at).None?
    {
      NothingOfName(c, deciding, plan, v.table, name, at);
    }
    InForceMoves(c.versions, all, v.table, NamesOf(n), c.now, at, price, v);
  }

  lemma OnlyOne(c: Change, deciding: seq<Mapping>, j: nat, k: nat)
    requires j < |deciding| && k < |deciding|
    requires forall i, j | 0 <= i < j < |deciding| :: !ShareAPrice(c, deciding[i], deciding[j])
    ensures ShareAPrice(c, deciding[j], deciding[k]) ==> j == k
  {
    assert ShareAPrice(c, deciding[j], deciding[k]) ==> ShareAPrice(c, deciding[k], deciding[j]);
  }

  /** From its starting time until another of its name starts, a planned version is the latest of its name. */
  lemma LatestPlanned(c: Change, deciding: seq<Mapping>, plan: seq<Planned>, k: nat, at: int)
    requires IsMarginPlan(c, deciding, plan) && k < |plan|
    requires forall i, j | 0 <= i < j < |deciding| :: !ShareAPrice(c, deciding[i], deciding[j])
    requires var v := plan[k].version;
             && v.from <= at
             && forall w | w in c.versions && w.table == v.table && w.model == v.model ::
                  w.from <= v.from || at < w.from
    ensures var v := plan[k].version; Latest(c.versions + VersionsOf(plan), v.table, v.model, at) == Some(v)
  {
    var v, all, m := plan[k].version, c.versions + VersionsOf(plan), deciding[k];
    assert IsPlanned(c, m, plan[k]);
    assert VersionsOf(plan)[k] == v;
    forall w | w in all && Applies(w, v.table, v.model, at) ensures w == v || w.from < v.from {
      if w in c.versions {
        PlannedIsFree(c, m, plan[k], w);
      } else {
        var j :| 0 <= j < |plan| && VersionsOf(plan)[j] == w;
        assert IsPlanned(c, deciding[j], plan[j]);
        OnlyOne(c, deciding, j, k);
      }
    }
    LatestIs(all, v.table, v.model, at, v);
  }

  /** A name without a price of which none starts still has none. */
  lemma NothingOfName(c: Change, deciding: seq<Mapping>, plan: seq<Planned>, table: string, name: string, at: int)
    requires IsMarginPlan(c, deciding, plan) && Latest(c.versions, table, name, c.now).None?
    requires forall v | v in c.versions && v.table == table && v.model == name :: v.from <= c.now || at < v.from
    ensures Latest(c.versions + VersionsOf(plan), table, name, at).None?
  {
    var all := c.versions + VersionsOf(plan);
    LatestFacts(all, table, name, at);
    LatestFacts(c.versions, table, name, c.now);
    forall w | w in all ensures !Applies(w, table, name, at) {
      if w in c.versions {
        assert !Applies(w, table, name, c.now);
      } else {
        var j :| 0 <= j < |plan| && VersionsOf(plan)[j] == w;
        assert IsPlanned(c, deciding[j], plan[j]);
        PlannedHasPrice(c, deciding[j], plan[j]);
      }
    }
  }
}
