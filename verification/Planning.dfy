/**
 * When the migration can be published, and what it then publishes, in terms of the configuration
 * and the pricing policy alone.
 */
module Planning {
  import opened Options
  import opened Pricing
  import opened Verdicts
  import opened Migration

  /** The first price the map gives, under the key, or else this one. */
  predicate GivenOr(prices: map<string, real>, key: string, otherwise: real, r: real) {
    if key in prices then r == prices[key] else r == otherwise
  }

  /** Nothing multiplies what customers pay. */
  predicate Unmultiplied(config: Config, m: Mapping) {
    m.groupId in config.groups && config.groups[m.groupId].margin == Some(1.0) && m.multiplier == Some(1.0)
  }

  /** A fixed price in CNY, with no multiplier and no charge by call. */
  predicate IsFixedCny(c: Charge) { c.mode == Fixed && c.currency == CNY && c.margin == 1.0 && c.perCall == 0 }

  /** The policy's official price of the model, under the name it is priced as. */
  predicate HasOfficial(policy: Policy, model: string, usd: Four<real>) {
    if model in policy.pricedAs
      then policy.pricedAs[model] in policy.prices && usd == policy.prices[policy.pricedAs[model]]
    else model in policy.prices && usd == policy.prices[model]
  }

  /** The block records the policy: the official price, its multipliers, and what the route was measured to bill. */
  predicate RecordsPolicy(policy: Policy, face: real, m: Mapping, b: Block) {
    && HasOfficial(policy, m.exposed, b.official)
    && GivenOr(policy.modelRetail, m.exposed, policy.retail, b.priceMultiplier)
    && GivenOr(policy.providerUpstream, m.provider, policy.upstream, b.costMultiplier)
    && (b.basis.Some? <==> m.provider + "/" + m.target in policy.basis)
    && (b.basis.Some? ==> b.basis.value == policy.basis[m.provider + "/" + m.target])
    && b.usdCny == 1.0 && b.face == face
  }

  /** To the nearest micro-credit; a face value of 0 prices nothing. */
  predicate IsCredits(credits: int, usd: real, multiplier: real, usdCny: real, face: real) {
    if face == 0.0 then credits == 0
    else credits as real - 0.5 <= usd * multiplier * usdCny / face * 1000000.0 < credits as real + 0.5
  }

  /** Apart by a billionth of either, or next to nothing. */
  predicate IsCost(live: real, usd: real, multiplier: real, usdCny: real) {
    var wanted := usd * multiplier * usdCny;
    var apart := if live <= wanted then wanted - live else live - wanted;
    || apart <= 0.000000000001
    || apart <= 0.000000001 * live || apart <= 0.000000001 * wanted
    || apart <= 0.000000001 * -live || apart <= 0.000000001 * -wanted
  }

  /** Of a kind of token: the price is the block's, and so, nearly, is the cost. */
  predicate KindGiven(b: Block, credits: int, cost: real, kind: nat)
    requires kind < 4
  {
    var billed := if b.basis.Some? then b.basis.value else b.official;
    && IsCredits(credits, Kind(b.official, kind), b.priceMultiplier, b.usdCny, b.face)
    && IsCost(cost, Kind(billed, kind), b.costMultiplier, b.usdCny)
  }

  predicate Reproduces(b: Block, c: Charge) {
    forall kind | 0 <= kind < 4 :: KindGiven(b, Kind(c.credits, kind), Kind(c.costs, kind), kind)
  }

  /** The policy's block reproduces the price. */
  ghost predicate PolicyGives(policy: Policy, face: real, m: Mapping, c: Charge) {
    exists b :: RecordsPolicy(policy, face, m, b) && Reproduces(b, c)
  }

  /** What can be published of a callable mapping: its price is official, or the policy's own. */
  ghost predicate IsReady(config: Config, policy: Policy, now: int, m: Mapping) {
    && Unmultiplied(config, m)
    && var table, price := config.groups[m.groupId].table, CurrentPrice(config, m, now);
    && price.Some?
    && (price.value.official.Some?
        || (&& price.value.model == m.exposed && IsFixedCny(price.value.charge)
            && (forall v | v in config.versions && v.table == table && v.model == m.exposed :: v.from <= now)
            && PolicyGives(policy, config.settings.face, m, price.value.charge)))
  }

  /** A callable mapping charged at a price that is not official yet. */
  predicate Unofficial(config: Config, now: int, m: Mapping) {
    && Callable(config, m)
    && CurrentPrice(config, m, now).Some? && CurrentPrice(config, m, now).value.official.None?
  }

  /** The policy gives both routes the same cost. */
  predicate BilledAlike(policy: Policy, m: Mapping, n: Mapping) {
    var a, b := m.provider + "/" + m.target, n.provider + "/" + n.target;
    && (a in policy.basis <==> b in policy.basis) && (a in policy.basis ==> policy.basis[a] == policy.basis[b])
    && (if m.provider in policy.providerUpstream then
          GivenOr(policy.providerUpstream, n.provider, policy.upstream, policy.providerUpstream[m.provider])
        else GivenOr(policy.providerUpstream, n.provider, policy.upstream, policy.upstream))
  }

  /** If the two share a price, they are billed alike. */
  predicate PairAlike(config: Config, policy: Policy, now: int, m: Mapping, n: Mapping) {
    Unofficial(config, now, m) && Unofficial(config, now, n) ==>
      var a, b := CurrentPrice(config, m, now).value, CurrentPrice(config, n, now).value;
      a.id == b.id ==> a == b && BilledAlike(policy, m, n)
  }

  lemma BlockIs(policy: Policy, face: real, m: Mapping, b: Block)
    ensures RecordsPolicy(policy, face, m, b) <==> OfficialBlock(m, policy, face) == Some(b)
  {
  }

  lemma CostExactly(live: real, usd: real, multiplier: real, usdCny: real, wanted: real)
    requires wanted == usd * multiplier * usdCny
    ensures IsCost(live, usd, multiplier, usdCny) <==> Close(live, wanted)
  {
  }

  lemma CreditsExactly(usd: real, priceMultiplier: real, usdCny: real, face: real, credits: int)
    ensures IsCredits(credits, usd, priceMultiplier, usdCny, face) <==>
        credits == CreditsFor(usd, priceMultiplier, usdCny, face)
  {
    if face != 0.0 { CreditsAre(usd, priceMultiplier, usdCny, face); }
  }

  lemma KindExactly(b: Block, credits: int, cost: real, kind: nat)
    requires kind < 4
    ensures KindGiven(b, credits, cost, kind) <==>
        credits == Kind(CreditsOf(b), kind) && Close(cost, Kind(CostsOf(b), kind))
  {
    KindOfCredits(b, kind);
    KindOfCosts(b, kind);
    CreditsExactly(Kind(b.official, kind), b.priceMultiplier, b.usdCny, b.face, credits);
    CostExactly(cost, Kind(if b.basis.Some? then b.basis.value else b.official, kind), b.costMultiplier, b.usdCny,
      Kind(CostsOf(b), kind));
  }

  lemma ReproducesExactly(b: Block, c: Charge)
    ensures Reproduces(b, c) <==> c.credits == CreditsOf(b) && CloseFour(c.costs, CostsOf(b))
  {
    var credits, costs := CreditsOf(b), CostsOf(b);
    forall kind | 0 <= kind < 4
      ensures KindGiven(b, Kind(c.credits, kind), Kind(c.costs, kind), kind) <==>
                Kind(c.credits, kind) == Kind(credits, kind) && Close(Kind(c.costs, kind), Kind(costs, kind))
    {
      KindExactly(b, Kind(c.credits, kind), Kind(c.costs, kind), kind);
    }
    ByKind(c.credits, credits);
    CloseByKind(c.costs, costs);
  }

  lemma ByKind<T>(a: Four<T>, b: Four<T>)
    ensures a == b <==> forall kind | 0 <= kind < 4 :: Kind(a, kind) == Kind(b, kind)
  {
    if forall kind | 0 <= kind < 4 :: Kind(a, kind) == Kind(b, kind) {
      assert Kind(a, 0) == Kind(b, 0) && Kind(a, 1) == Kind(b, 1) && Kind(a, 2) == Kind(b, 2)
        && Kind(a, 3) == Kind(b, 3);
    }
  }

  lemma CloseByKind(a: Four<real>, b: Four<real>)
    ensures CloseFour(a, b) <==> forall kind | 0 <= kind < 4 :: Close(Kind(a, kind), Kind(b, kind))
  {
    if forall kind | 0 <= kind < 4 :: Close(Kind(a, kind), Kind(b, kind)) {
      assert Close(Kind(a, 0), Kind(b, 0)) && Close(Kind(a, 1), Kind(b, 1));
      assert Close(Kind(a, 2), Kind(b, 2)) && Close(Kind(a, 3), Kind(b, 3));
    }
  }

  lemma GivesExactly(policy: Policy, face: real, m: Mapping, c: Charge)
    ensures PolicyGives(policy, face, m, c) <==>
              var block := OfficialBlock(m, policy, face);
              block.Some? && c.credits == CreditsOf(block.value) && CloseFour(c.costs, CostsOf(block.value))
  {
    var block := OfficialBlock(m, policy, face);
    if block.Some? {
      BlockIs(policy, face, m, block.value);
      ReproducesExactly(block.value, c);
    }
    if b :| RecordsPolicy(policy, face, m, b) && Reproduces(b, c) {
      BlockIs(policy, face, m, b);
      ReproducesExactly(b, c);
    }
  }

  /**
   * A callable mapping is refused exactly if it is not ready; else its price is official, or is republished as it is.
   */
  lemma ReadyIs(config: Config, policy: Policy, now: int, stamp: nat, m: Mapping)
    requires Callable(config, m)
    ensures var verdict, price := VerdictOn(config, policy, now, stamp, m), CurrentPrice(config, m, now);
            && (verdict.Refuse? <==> !IsReady(config, policy, now, m))
            && (IsReady(config, policy, now, m) ==> (verdict.Republish? <==> price.value.official.None?))
            && (verdict.Republish? ==>
                 verdict.instead == price.value.id
                 && IsMigrated(config, policy, stamp, m, price.value, verdict.version))
  {
    var table, price := config.groups[m.groupId].table, CurrentPrice(config, m, now);
    assert Scheduled(config.versions, table, m.exposed, now) <==>
             !forall v | v in config.versions && v.table == table && v.model == m.exposed :: v.from <= now;
    if price.Some? {
      GivesExactly(policy, config.settings.face, m, price.value.charge);
      var block := OfficialBlock(m, policy, config.settings.face);
      if block.Some? { BlockIs(policy, config.settings.face, m, block.value); }
    }
  }

  /** The price from the stamp on, unchanged but for the block that records the policy. */
  predicate IsMigrated(config: Config, policy: Policy, stamp: nat, m: Mapping, price: Version, v: Version) {
    && v.table == price.table && v.model == price.model && v.charge == price.charge && v.from == stamp
    && v.official.Some? && RecordsPolicy(policy, config.settings.face, m, v.official.value)
  }

  /** One price to a table and a name. */
  lemma SamePrice(config: Config, now: int, m: Mapping, n: Mapping)
    requires Unofficial(config, now, m) && Unofficial(config, now, n)
    ensures var a, b := CurrentPrice(config, m, now).value, CurrentPrice(config, n, now).value;
            a.table == b.table && a.model == b.model ==> a == b
  {
    InForceIsLatest(config.versions, config.groups[m.groupId].table, [m.exposed, m.target], now);
    InForceIsLatest(config.versions, config.groups[n.groupId].table, [n.exposed, n.target], now);
  }

  lemma PairIs(config: Config, policy: Policy, now: int, stamp: nat, m: Mapping, n: Mapping)
    requires Callable(config, m) && Callable(config, n) && IsReady(config, policy, now, m)
        && IsReady(config, policy, now, n)
    ensures Agree(VerdictOn(config, policy, now, stamp, m), VerdictOn(config, policy, now, stamp, n)) <==>
              PairAlike(config, policy, now, m, n)
  {
    ReadyIs(config, policy, now, stamp, m);
    ReadyIs(config, policy, now, stamp, n);
    if Unofficial(config, now, m) && Unofficial(config, now, n) {
      SamePrice(config, now, m, n);
      GivesExactly(policy, config.settings.face, m, CurrentPrice(config, m, now).value.charge);
      GivesExactly(policy, config.settings.face, n, CurrentPrice(config, n, now).value.charge);
    }
  }

  ghost predicate AllReady(config: Config, policy: Policy, now: int) {
    forall m | Callable(config, m) :: IsReady(config, policy, now, m)
  }

  /** Mappings that share a price are billed alike. */
  ghost predicate SharedAlike(config: Config, policy: Policy, now: int) {
    forall m, n | Callable(config, m) && Callable(config, n) :: PairAlike(config, policy, now, m, n)
  }

  lemma NoneRefused(config: Config, policy: Policy, now: int, stamp: nat)
    ensures var verdicts := VerdictsOn(config, policy, now, stamp);
            AllReady(config, policy, now) <==> forall m | m in verdicts :: !verdicts[m].Refuse?
  {
    var verdicts := VerdictsOn(config, policy, now, stamp);
    forall m ensures Callable(config, m) <==> m in verdicts {}
    forall m | m in verdicts ensures verdicts[m].Refuse? <==> !IsReady(config, policy, now, m) {
      ReadyIs(config, policy, now, stamp, m);
    }
  }

  lemma AllAgree(config: Config, policy: Policy, now: int, stamp: nat)
    requires AllReady(config, policy, now)
    ensures var verdicts := VerdictsOn(config, policy, now, stamp);
            SharedAlike(config, policy, now) <==>
              forall m, n | m in verdicts && n in verdicts :: Agree(verdicts[m], verdicts[n])
  {
    var verdicts := VerdictsOn(config, policy, now, stamp);
    forall m ensures Callable(config, m) <==> m in verdicts {}
    forall m, n | m in verdicts && n in verdicts
      ensures Agree(verdicts[m], verdicts[n]) <==> PairAlike(config, policy, now, m, n)
    {
      PairIs(config, policy, now, stamp, m, n);
    }
  }

  /** The price is entered for an upstream model exactly if the policy has one, dated to the beginning of time. */
  lemma PolicyPriceIs(policy: Policy, target: string, price: OfficialPrice)
    ensures PolicyPrice(policy, target) == Some(price) <==>
        HasOfficial(policy, target, price.usd) && price.note == "官方价 · 迁移时写入" && price.updatedAt == 0
    ensures PolicyPrice(policy, target).None? <==> !exists usd :: HasOfficial(policy, target, usd)
  {
    var name := if target in policy.pricedAs then policy.pricedAs[target] else target;
    if name in policy.prices { assert HasOfficial(policy, target, policy.prices[name]); }
  }

  /** Prices in CNY, whatever they were found by. */
  predicate InCny(c: Cost, perM: Four<real>) { !c.source.ByUsdVersion? && c.perM == Some(perM) }

  /** The very same cost, or the same CNY prices. */
  ghost predicate CostsAlike(was: Cost, will: Cost) {
    was == will || exists perM :: InCny(was, perM) && InCny(will, perM)
  }

  /** Every route of a callable mapping costs alike with the settings and versions the plan leaves. */
  ghost predicate RoutesAlike(config: Config, p: Plan, now: int, stamp: nat) {
    forall m, r | Callable(config, m) && r in RoutesOf(m) ::
      CostsAlike(CostOfRoute(config.settings, config.versions, config.groups[m.groupId].table, m, r, now),
        CostOfRoute(p.after, config.versions + p.versions, config.groups[m.groupId].table, m, r, stamp))
  }

  lemma SameCostExactly(was: Cost, will: Cost)
    ensures SameCost(was, will) <==> CostsAlike(was, will)
  {
    if was.perM.Some? && was.perM == will.perM && !was.source.ByUsdVersion? && !will.source.ByUsdVersion? {
      assert InCny(was, was.perM.value) && InCny(will, was.perM.value);
    }
  }

  lemma RoutesExactly(config: Config, p: Plan, now: int, stamp: nat)
    ensures CostsShownSame(config, p.after, p.versions, now, stamp) <==> RoutesAlike(config, p, now, stamp)
  {
    forall m, r | Callable(config, m) && r in RoutesOf(m)
      ensures
        var table := config.groups[m.groupId].table;
        CostShownSame(config, p.after, p.versions, now, stamp, m, r) <==>
          CostsAlike(CostOfRoute(config.settings, config.versions, table, m, r, now),
            CostOfRoute(p.after, config.versions + p.versions, table, m, r, stamp))
    {
      var table := config.groups[m.groupId].table;
      SameCostExactly(CostOfRoute(config.settings, config.versions, table, m, r, now),
        CostOfRoute(p.after, config.versions + p.versions, table, m, r, stamp));
    }
  }

  /**
   * A plan has no problem if and only if every callable mapping is ready, those that share a price are
   * billed alike, and every route costs alike.
   */
  lemma PlanExactly(config: Config, policy: Policy, now: int, stamp: nat, p: Plan)
    requires IsPlan(config, policy, now, stamp, p)
    ensures p.problems == [] <==>
              && AllReady(config, policy, now) && SharedAlike(config, policy, now)
              && RoutesAlike(config, p, now, stamp)
  {
    RoutesExactly(config, p, now, stamp);
    NoneRefused(config, policy, now, stamp);
    if AllReady(config, policy, now) { AllAgree(config, policy, now, stamp); }
  }

  /** What replaces a callable mapping's price. */
  predicate Replaces(config: Config, policy: Policy, now: int, stamp: nat, m: Mapping, v: Version) {
    Unofficial(config, now, m) && IsMigrated(config, policy, stamp, m, CurrentPrice(config, m, now).value, v)
  }

  lemma RepublishedReplaces(config: Config, policy: Policy, now: int, stamp: nat, m: Mapping)
    requires m in VerdictsOn(config, policy, now, stamp)
    ensures var verdict := VerdictsOn(config, policy, now, stamp)[m];
            && (verdict.Already? ==> !Unofficial(config, now, m))
            && (verdict.Republish? ==> Replaces(config, policy, now, stamp, m, verdict.version)
                                       && verdict.instead == CurrentPrice(config, m, now).value.id)
  {
    ReadyIs(config, policy, now, stamp, m);
  }

  /** Two versions that replace two things are of two tables or models. */
  lemma TwoPrices(config: Config, policy: Policy, now: int, stamp: nat, v: Version, w: Version)
    requires ComeApart(VerdictsOn(config, policy, now, stamp), v, w)
    ensures v.table != w.table || v.model != w.model
  {
    var verdicts := VerdictsOn(config, policy, now, stamp);
    var m, n :| m in verdicts && n in verdicts && IsVersion(verdicts[m], v) && IsVersion(verdicts[n], w)
                && verdicts[m].instead != verdicts[n].instead;
    RepublishedReplaces(config, policy, now, stamp, m);
    RepublishedReplaces(config, policy, now, stamp, n);
    SamePrice(config, now, m, n);
  }

  /** Without problems, exactly the prices that are not official are republished, each once. */
  lemma PlanPublishes(config: Config, policy: Policy, now: int, stamp: nat, p: Plan)
    requires IsPlan(config, policy, now, stamp, p) && p.problems == []
    ensures forall m | Unofficial(config, now, m) ::
              exists v :: v in p.versions && Replaces(config, policy, now, stamp, m, v)
    ensures forall v | v in p.versions :: exists m :: Replaces(config, policy, now, stamp, m, v)
    ensures forall i, j | 0 <= i < j < |p.versions| ::
              p.versions[i].table != p.versions[j].table || p.versions[i].model != p.versions[j].model
  {
    var verdicts := VerdictsOn(config, policy, now, stamp);
    forall m | Unofficial(config, now, m)
      ensures exists v :: v in p.versions && Replaces(config, policy, now, stamp, m, v)
    {
      assert m in verdicts;
      RepublishedReplaces(config, policy, now, stamp, m);
    }
    forall v | v in p.versions ensures exists m :: Replaces(config, policy, now, stamp, m, v) {
      var m :| m in verdicts && IsVersion(verdicts[m], v);
      RepublishedReplaces(config, policy, now, stamp, m);
    }
    forall i, j | 0 <= i < j < |p.versions|
      ensures p.versions[i].table != p.versions[j].table || p.versions[i].model != p.versions[j].model
    {
      TwoPrices(config, policy, now, stamp, p.versions[i], p.versions[j]);
    }
  }
}
