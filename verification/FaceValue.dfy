/**
 * A new face value or CNY per official dollar: one plan that reprices every price computed from an
 * official one, in force or scheduled, and leaves every other price alone.
 */
module FaceValue {
  import opened Options
  import opened Pricing
  import opened FreshIds

  /** The new CNY per credit and CNY per official dollar. */
  datatype Rates = Rates(face: real, usdCny: real)

  datatype FacePlan = FacePlan(versions: seq<Version>, cancelled: seq<string>, repriced: seq<(Version, Version)>,
    legacy: seq<Version>)

  /** In force at this time, or scheduled: no later one in force has superseded it. */
  predicate Live(versions: seq<Version>, v: Version, now: int) {
    v.from > now || !exists w | w in versions :: Supersedes(w, v, now)
  }

  predicate Supersedes(w: Version, v: Version, now: int) {
    w.table == v.table && w.model == v.model && v.from < w.from <= now
  }

  predicate Differs(b: Block, next: Rates) { b.face != next.face || b.usdCny != next.usdCny }

  /** A route's cost charges nothing, and keeps charging nothing. */
  function NewCharge(v: Version, block: Block): Charge { OfficialCharge(block, v.charge.credits == FREE) }

  /** The version repriced, from its own time if scheduled, else from now (0, which publishing stamps). */
  function Repriced(v: Version, next: Rates, now: int, id: string): Version
    requires v.official.Some?
  {
    var block := v.official.value.(face := next.face, usdCny := next.usdCny);
    Version(id, v.table, v.model, if v.from > now then v.from else 0, NewCharge(v, block), Some(block))
  }

  predicate MustReprice(versions: seq<Version>, v: Version, next: Rates, now: int) {
    Live(versions, v, now) && v.official.Some? && Differs(v.official.value, next)
  }

  /** The entry reprices a version that must be. */
  predicate IsRepricing(versions: seq<Version>, next: Rates, now: int, entry: (Version, Version)) {
    && entry.0 in versions && MustReprice(versions, entry.0, next, now)
    && entry.1 == Repriced(entry.0, next, now, entry.1.id)
  }

  function Ids(versions: seq<Version>): set<string> { set v | v in versions :: v.id }

  /** The versions that must be repriced, in the list's order. */
  function ToReprice(versions: seq<Version>, next: Rates, now: int, n: nat): seq<Version>
    requires n <= |versions|
  {
    if n == 0 then []
    else if MustReprice(versions, versions[n - 1], next, now)
      then ToReprice(versions, next, now, n - 1) + [versions[n - 1]]
    else ToReprice(versions, next, now, n - 1)
  }

  /** The live versions priced another way, in the list's order. */
  function Legacy(versions: seq<Version>, now: int, n: nat): seq<Version>
    requires n <= |versions|
  {
    if n == 0 then []
    else if Live(versions, versions[n - 1], now) && versions[n - 1].official.None?
      then Legacy(versions, now, n - 1) + [versions[n - 1]]
    else Legacy(versions, now, n - 1)
  }

  function Befores(entries: seq<(Version, Version)>): (r: seq<Version>)
    ensures |r| == |entries| && forall k | 0 <= k < |r| :: r[k] == entries[k].0
  {
    seq(|entries|, k requires 0 <= k < |entries| => entries[k].0)
  }

  function Afters(entries: seq<(Version, Version)>): (r: seq<Version>)
    ensures |r| == |entries| && forall k | 0 <= k < |r| :: r[k] == entries[k].1
  {
    seq(|entries|, k requires 0 <= k < |entries| => entries[k].1)
  }

  /** The scheduled versions repriced: each is withdrawn and added again at its own time. */
  function Withdrawn(entries: seq<(Version, Version)>, now: int): seq<string> {
    if entries == [] then []
    else
      var earlier, before := Withdrawn(entries[..|entries| - 1], now), entries[|entries| - 1].0;
      if before.from > now then earlier + [before.id] else earlier
  }

  predicate IsFacePlan(versions: seq<Version>, next: Rates, now: int, plan: FacePlan) {
    IsFacePlanOf(versions, next, now, |versions|, plan) && AreNewIds(plan.repriced, Ids(versions))
  }

  /** The plan of the first `n` versions. */
  predicate IsFacePlanOf(versions: seq<Version>, next: Rates, now: int, n: nat, plan: FacePlan)
    requires n <= |versions|
  {
    && Befores(plan.repriced) == ToReprice(versions, next, now, n)
    && plan.versions == Afters(plan.repriced)
    && plan.cancelled == Withdrawn(plan.repriced, now)
    && plan.legacy == Legacy(versions, now, n)
    && AreRepricings(versions, next, now, plan.repriced)
  }

  /** Each repriced version has an ID of its own, taken by none that stood before. */
  predicate AreNewIds(entries: seq<(Version, Version)>, ids: set<string>) {
    forall k | 0 <= k < |entries| :: entries[k].1.id !in ids
      && forall j | 0 <= j < k :: entries[j].1.id != entries[k].1.id
  }

  ghost predicate IsNamed(v: Version, id: string, now: int, idBase: (string, int) -> string) {
    IsNumbered(id, idBase(v.model, if now < v.from then v.from else now))
  }

  /** A repriced version is named after its model and the time it starts, if that is ahead, else the time now. */
  ghost predicate AreNamed(entries: seq<(Version, Version)>, now: int, idBase: (string, int) -> string) {
    forall k | 0 <= k < |entries| :: IsNamed(entries[k].0, entries[k].1.id, now, idBase)
  }

  method NewId(v: Version, now: int, idBase: (string, int) -> string, taken: set<string>) returns (id: string)
    ensures id !in taken && IsNamed(v, id, now, idBase)
  {
    id := FreshId(idBase(v.model, if v.from > now then v.from else now), taken);
  }

  /** `idBase`: the readable part of a new ID, from the model and the time. */
  method MakeFacePlan(versions: seq<Version>, next: Rates, now: int, idBase: (string, int) -> string)
    returns (plan: FacePlan)
    ensures IsFacePlan(versions, next, now, plan) && AreNamed(plan.repriced, now, idBase)
  {
    var added: seq<Version>, cancelled: seq<string>, legacy: seq<Version> := [], [], [];
    var repriced: seq<(Version, Version)> := [];
    var taken := Ids(versions);
    for i := 0 to |versions|
      invariant AreIdsTaken(repriced, Ids(versions), taken) && AreNamed(repriced, now, idBase)
      invariant IsFacePlanOf(versions, next, now, i, FacePlan(added, cancelled, repriced, legacy))
    {
      var v := versions[i];
      if MustReprice(versions, v, next, now) {
        var id := NewId(v, now, idBase, taken);
        var after := Repriced(v, next, now, id);
        AddId(repriced, (v, after), Ids(versions), taken, now, idBase);
        AddRepriced(versions, next, now, i, FacePlan(added, cancelled, repriced, legacy), after);
        added, repriced, taken := added + [after], repriced + [(v, after)], taken + {id};
        if v.from > now { cancelled := cancelled + [v.id]; }
      } else if Live(versions, v, now) && v.official.None? {
        legacy := legacy + [v];
      }
    }
    plan := FacePlan(added, cancelled, repriced, legacy);
  }

  predicate AreRepricings(versions: seq<Version>, next: Rates, now: int, entries: seq<(Version, Version)>) {
    forall k | 0 <= k < |entries| :: IsRepricing(versions, next, now, entries[k])
  }

  predicate AreIdsTaken(entries: seq<(Version, Version)>, ids: set<string>, taken: set<string>) {
    AreNewIds(entries, ids) && ids <= taken && forall k | 0 <= k < |entries| :: entries[k].1.id in taken
  }

  lemma AddId(entries: seq<(Version, Version)>, entry: (Version, Version), ids: set<string>, taken: set<string>,
              now: int, idBase: (string, int) -> string)
    requires AreIdsTaken(entries, ids, taken) && entry.1.id !in taken
    requires AreNamed(entries, now, idBase) && IsNamed(entry.0, entry.1.id, now, idBase)
    ensures AreIdsTaken(entries + [entry], ids, taken + {entry.1.id}) && AreNamed(entries + [entry], now, idBase)
  {
  }

  lemma AddRepriced(versions: seq<Version>, next: Rates, now: int, n: nat, plan: FacePlan, after: Version)
    requires n < |versions| && MustReprice(versions, versions[n], next, now)
        && IsFacePlanOf(versions, next, now, n, plan)
    requires after == Repriced(versions[n], next, now, after.id)
    ensures var v := versions[n];
            var cancelled := if v.from > now then plan.cancelled + [v.id] else plan.cancelled;
            IsFacePlanOf(versions, next, now, n + 1,
              FacePlan(plan.versions + [after], cancelled, plan.repriced + [(v, after)], plan.legacy))
  {
    var entries := plan.repriced + [(versions[n], after)];
    assert entries[..|plan.repriced|] == plan.repriced;
    assert Befores(entries) == Befores(plan.repriced) + [versions[n]];
    assert Afters(entries) == Afters(plan.repriced) + [after];
  }

  // ---- What publishing it makes ------------------------------------------------------------

  function Publish(versions: seq<Version>, plan: FacePlan, time: int): seq<Version> {
    Kept(versions, plan.cancelled)
      + seq(|plan.versions|, k requires 0 <= k < |plan.versions| => Stamped(plan.versions[k], time))
  }

  function Kept(versions: seq<Version>, cancelled: seq<string>): (r: seq<Version>)
    ensures forall v :: v in r <==> v in versions && v.id !in cancelled
  {
    if versions == [] then []
    else
      var earlier, last := Kept(versions[..|versions| - 1], cancelled), versions[|versions| - 1];
      if last.id in cancelled then earlier else earlier + [last]
  }

  ghost predicate UniqueIds(versions: seq<Version>) {
    forall v, w | v in versions && w in versions && v.id == w.id :: v == w
  }

  /** One price per table, model and time. */
  ghost predicate OnePricePerStart(versions: seq<Version>) {
    forall v, w | v in versions && w in versions && SameStart(v, w) :: v == w
  }

  /** Nothing starts between the plan and its publication, or at that very time. */
  ghost predicate NothingStarts(versions: seq<Version>, now: int, time: int) {
    forall v | v in versions :: (v.from <= now && v.from < time) || time < v.from
  }

  /** The same price, or its repricing at the new rates. */
  predicate IsRepriced(next: Rates, before: Version, after: Version) {
    if before.official.None? || !Differs(before.official.value, next) then after == before
    else
      var block := before.official.value.(face := next.face, usdCny := next.usdCny);
      after.table == before.table && after.model == before.model && after.official == Some(block)
        && after.charge == NewCharge(before, block)
  }

  lemma {:induction false} ToRepriceHas(versions: seq<Version>, next: Rates, now: int, n: nat)
    requires n <= |versions|
    ensures forall k | 0 <= k < n && MustReprice(versions, versions[k], next, now) ::
        versions[k] in ToReprice(versions, next, now, n)
  {
    if n > 0 { ToRepriceHas(versions, next, now, n - 1); }
  }

  lemma {:induction false} WithdrawnIs(entries: seq<(Version, Version)>, now: int, id: string)
    ensures id in Withdrawn(entries, now) <==>
        exists k :: 0 <= k < |entries| && entries[k].0.from > now && entries[k].0.id == id
  {
    if entries != [] {
      var front := entries[..|entries| - 1];
      WithdrawnIs(front, now, id);
      if k :| 0 <= k < |front| && front[k].0.from > now && front[k].0.id == id {
        assert entries[k] == front[k];
      }
    }
  }

  ghost predicate Publishes(versions: seq<Version>, next: Rates, now: int, plan: FacePlan, time: int) {
    0 <= now <= time && IsFacePlan(versions, next, now, plan)
    && UniqueIds(versions) && OnePricePerStart(versions) && NothingStarts(versions, now, time)
  }

  /** What is published was there and not withdrawn, or reprices what was there. */
  lemma PublishedFrom(versions: seq<Version>, next: Rates, now: int, plan: FacePlan, time: int, w: Version)
    returns (before: Version)
    requires Publishes(versions, next, now, plan, time) && w in Publish(versions, plan, time)
    ensures before in versions && before.table == w.table && before.model == w.model
    ensures IsKept(versions, next, now, before, w) || IsAdded(versions, next, now, time, before, w)
  {
    if w in Kept(versions, plan.cancelled) {
      if MustReprice(versions, w, next, now) && w.from > now {
        WithdrawnIs(plan.repriced, now, w.id);
        HasEntry(versions, next, now, plan, w);
      }
      return w;
    }
    var k :| 0 <= k < |plan.versions| && w == Stamped(plan.versions[k], time);
    assert IsRepricing(versions, next, now, plan.repriced[k]);
    return plan.repriced[k].0;
  }

  predicate IsKept(versions: seq<Version>, next: Rates, now: int, before: Version, w: Version) {
    w == before && (MustReprice(versions, w, next, now) ==> w.from <= now)
  }

  predicate IsAdded(versions: seq<Version>, next: Rates, now: int, time: int, before: Version, w: Version) {
    && MustReprice(versions, before, next, now) && IsRepriced(next, before, w)
    && w.from == if before.from > now then before.from else time
  }

  /** A version that must be repriced is, and what reprices it is published. */
  lemma HasEntry(versions: seq<Version>, next: Rates, now: int, plan: FacePlan, v: Version)
    requires IsFacePlan(versions, next, now, plan) && v in versions && MustReprice(versions, v, next, now)
    ensures exists k :: 0 <= k < |plan.repriced| && plan.repriced[k].0 == v
  {
    ToRepriceHas(versions, next, now, |versions|);
    var k :| 0 <= k < |versions| && versions[k] == v;
    assert v in Befores(plan.repriced);
  }

  lemma RepricingPublished(versions: seq<Version>, next: Rates, now: int, plan: FacePlan, time: int, v: Version)
    returns (p: Version)
    requires Publishes(versions, next, now, plan, time) && v in versions && MustReprice(versions, v, next, now)
    ensures p in Publish(versions, plan, time) && p.table == v.table && p.model == v.model
    ensures IsAdded(versions, next, now, time, v, p)
  {
    HasEntry(versions, next, now, plan, v);
    var k :| 0 <= k < |plan.repriced| && plan.repriced[k].0 == v;
    assert IsRepricing(versions, next, now, plan.repriced[k]);
    AddedPublished(versions, plan, time, k);
    p := Stamped(plan.versions[k], time);
  }

  lemma AddedPublished(versions: seq<Version>, plan: FacePlan, time: int, k: nat)
    requires k < |plan.versions|
    ensures Stamped(plan.versions[k], time) in Publish(versions, plan, time)
  {
    assert Publish(versions, plan, time)[|Kept(versions, plan.cancelled)| + k] == Stamped(plan.versions[k], time);
  }

  /** A version that need not be repriced, or that has started, stays. */
  lemma StaysPublished(versions: seq<Version>, next: Rates, now: int, plan: FacePlan, time: int, v: Version)
    requires Publishes(versions, next, now, plan, time) && v in versions
    requires v.from <= now || !MustReprice(versions, v, next, now)
    ensures v in Publish(versions, plan, time)
  {
    WithdrawnIs(plan.repriced, now, v.id);
    forall k | 0 <= k < |plan.repriced| ensures plan.repriced[k].0.from <= now || plan.repriced[k].0.id != v.id {
      assert IsRepricing(versions, next, now, plan.repriced[k]);
    }
  }

  lemma LiveIsLast(versions: seq<Version>, v: Version, now: int)
    ensures Live(versions, v, now) ==>
              v.from > now
                || forall w | w in versions && w.table == v.table && w.model == v.model && w.from <= now ::
                w.from <= v.from
  {
    assert forall w: Version | w.table == v.table && w.model == v.model && v.from < w.from <= now ::
      Supersedes(w, v, now);
  }

  /** What is live once the plan is published was live before. */
  lemma LiveBefore(versions: seq<Version>, next: Rates, now: int, plan: FacePlan, time: int, v: Version, later: int)
    requires Publishes(versions, next, now, plan, time) && time <= later && v in versions
    ensures Live(Publish(versions, plan, time), v, later) ==> Live(versions, v, now)
  {
    if w :| w in versions && Supersedes(w, v, now) {
      StaysPublished(versions, next, now, plan, time, w);
      assert Supersedes(w, v, later);
    }
  }

  /** From its publication on, the latest of every name is the same price or its repricing. */
  lemma LatestRepriced(versions: seq<Version>, next: Rates, now: int, plan: FacePlan, time: int,
                       table: string, name: string, at: int)
    requires Publishes(versions, next, now, plan, time) && time <= at
    ensures Related(Latest(versions, table, name, at), Latest(Publish(versions, plan, time), table, name, at),
                    (before, after) => IsRepriced(next, before, after))
  {
    var after := Publish(versions, plan, time);
    var was, will := Latest(versions, table, name, at), Latest(after, table, name, at);
    LatestFacts(versions, table, name, at);
    LatestFacts(after, table, name, at);
    if was.Some? {
      var v := was.value;
      if MustReprice(versions, v, next, now) {
        var p := RepricingPublished(versions, next, now, plan, time, v);
      } else {
        StaysPublished(versions, next, now, plan, time, v);
      }
    }
    if will.Some? {
      var before := PublishedFrom(versions, next, now, plan, time, will.value);
      assert Applies(before, table, name, at);
      LiveIsLast(versions, before, now);
      assert SameStart(before, was.value) ==> before == was.value;
    }
  }

  /**
   * From the publication on, the price in force for any table and names is the one in force
   * without it, or that price's repricing at the new face value and dollar.
   */
  lemma InForceRepriced(versions: seq<Version>, next: Rates, now: int, plan: FacePlan, time: int,
                        table: string, names: seq<string>, at: int)
    requires Publishes(versions, next, now, plan, time) && time <= at
    ensures Related(InForce(versions, table, names, at), InForce(Publish(versions, plan, time), table, names, at),
                    (before, after) => IsRepriced(next, before, after))
  {
    var related := (before, after) => IsRepriced(next, before, after);
    var after := Publish(versions, plan, time);
    forall name ensures Related(Latest(versions, table, name, at), Latest(after, table, name, at), related) {
      LatestRepriced(versions, next, now, plan, time, table, name, at);
    }
    InForceRelates(versions, after, table, names, at, at, related);
  }

  /** Nothing published has to be repriced again. */
  lemma NothingToReprice(versions: seq<Version>, next: Rates, now: int, plan: FacePlan, time: int, x: Version,
                         later: int)
    requires Publishes(versions, next, now, plan, time) && time <= later && x in Publish(versions, plan, time)
    ensures !MustReprice(Publish(versions, plan, time), x, next, later)
  {
    var before := PublishedFrom(versions, next, now, plan, time, x);
    if x == before {
      LiveBefore(versions, next, now, plan, time, x, later);
      if MustReprice(versions, x, next, now) {
        var p := RepricingPublished(versions, next, now, plan, time, x);
        assert Supersedes(p, x, later);
      }
    }
  }

  /** Once published, the same face value and dollar ask for nothing more. */
  lemma SecondPlanEmpty(versions: seq<Version>, next: Rates, now: int, plan: FacePlan, time: int, later: int)
    requires Publishes(versions, next, now, plan, time) && time <= later
    ensures forall second: FacePlan | IsFacePlan(Publish(versions, plan, time), next, later, second) ::
              second.versions == [] && second.cancelled == [] && second.repriced == []
  {
    var after := Publish(versions, plan, time);
    forall second: FacePlan | IsFacePlan(after, next, later, second) ensures second.repriced == [] {
      if second.repriced != [] {
        assert IsRepricing(after, next, later, second.repriced[0]);
        NothingToReprice(versions, next, now, plan, time, second.repriced[0].0, later);
      }
    }
  }

  /**
   * With the dollar as it was, what four credits are worth in CNY moves by at most half a
   * micro-credit at the old face value and half of one at the new.
   */
  lemma WorthKept(usd: real, priceMultiplier: real, usdCny: real, face: real, next: real)
    requires face > 0.0 && next > 0.0
    ensures var was, will := CreditsFor(usd, priceMultiplier, usdCny, face),
        CreditsFor(usd, priceMultiplier, usdCny, next);
            -(face + next) / 2000000.0 <= Worth(will, next) - Worth(was, face) <= (face + next) / 2000000.0
  {
    WorthOf(usd, priceMultiplier, usdCny, face);
    WorthOf(usd, priceMultiplier, usdCny, next);
  }

  /** The price computed from its block, at face values that price something, the dollar staying. */
  predicate SameDollar(v: Version, next: Rates) {
    && v.official.Some? && v.charge.credits == CreditsOf(v.official.value)
    && v.official.value.face > 0.0 && next.face > 0.0 && v.official.value.usdCny == next.usdCny
  }

  lemma RepricedWorth(next: Rates, v: Version, w: Version, kind: nat)
    requires IsRepriced(next, v, w) && SameDollar(v, next) && kind < 4
    ensures var face := v.official.value.face;
            && w.official.Some? && w.official.value.face == next.face
            && -(face + next.face) / 2000000.0
                 <= Worth(Kind(w.charge.credits, kind), next.face) - Worth(Kind(v.charge.credits, kind), face)
                 <= (face + next.face) / 2000000.0
  {
    var block, repriced := v.official.value, w.official.value;
    KindOfCredits(block, kind);
    KindOfCredits(repriced, kind);
    if w != v && v.charge.credits == FREE {
      assert Kind(w.charge.credits, kind) == Kind(FREE, kind) == 0;
    } else {
      WorthKept(Kind(block.official, kind), block.priceMultiplier, block.usdCny, block.face, next.face);
    }
  }

  /**
   * From the publication on, with the dollar as it was, what each kind of token is charged at under the
   * price in force is worth in CNY what it was without the plan, to those two half micro-credits.
   */
  lemma InForceWorthKept(versions: seq<Version>, next: Rates, now: int, plan: FacePlan, time: int,
                         table: string, names: seq<string>, at: int, kind: nat)
    requires Publishes(versions, next, now, plan, time) && time <= at && kind < 4
    requires var was := InForce(versions, table, names, at); was.Some? && SameDollar(was.value, next)
    ensures var v, will := InForce(versions, table, names, at).value,
        InForce(Publish(versions, plan, time), table, names, at);
            var face := v.official.value.face;
            && will.Some? && will.value.official.Some? && will.value.official.value.face == next.face
            && -(face + next.face) / 2000000.0
                 <= Worth(Kind(will.value.charge.credits, kind), next.face) - Worth(Kind(v.charge.credits, kind), face)
                 <= (face + next.face) / 2000000.0
  {
    InForceRepriced(versions, next, now, plan, time, table, names, at);
    RepricedWorth(next, InForce(versions, table, names, at).value,
      InForce(Publish(versions, plan, time), table, names, at).value, kind);
  }

  /** Each cost is what the upstream bills, times its multiplier, at the dollar. */
  predicate CostsBilled(costs: Four<real>, b: Block) {
    forall kind | 0 <= kind < 4 ::
      Kind(costs, kind) == Kind(if b.basis.Some? then b.basis.value else b.official, kind) * b.costMultiplier * b.usdCny
  }

  /** A price computed from its block, of which dollar and face value price something. */
  predicate Computed(v: Version, next: Rates) {
    && v.official.Some? && CostsBilled(v.charge.costs, v.official.value)
    && v.official.value.usdCny > 0.0 && v.official.value.face > 0.0 && next.usdCny > 0.0 && next.face > 0.0
  }

  /** The costs go with the dollar. */
  predicate CostsScaled(was: Four<real>, will: Four<real>, usdCny: real, next: real)
    requires usdCny > 0.0
  {
    forall kind | 0 <= kind < 4 :: Kind(will, kind) == Kind(was, kind) * (next / usdCny)
  }

  /** What the credits are worth goes with the dollar, to half a micro-credit at each face value. */
  predicate WorthScaled(was: Four<int>, will: Four<int>, usdCny: real, face: real, next: Rates)
    requires usdCny > 0.0
  {
    forall kind | 0 <= kind < 4 :: ScaledTo(Kind(was, kind), Kind(will, kind), next.usdCny / usdCny, face, next.face)
  }

  predicate ScaledTo(was: int, will: int, ratio: real, face: real, next: real) {
    var exact, slack := was as real * face / 1000000.0 * ratio, (face * ratio + next) / 2000000.0;
    exact - slack <= will as real * next / 1000000.0 <= exact + slack
  }

  /** A fixed price in CNY, with no multiplier and no charge by call. */
  predicate IsFixedCny(c: Charge) { c.mode == Fixed && c.currency == CNY && c.margin == 1.0 && c.perCall == 0 }

  lemma Product(a: real, was: real, will: real)
    requires was > 0.0
    ensures a * will == a * was * (will / was)
  {
    var ratio := will / was;
    assert will == was * ratio;
  }

  lemma CostsFollow(next: Rates, v: Version, w: Version)
    requires IsRepriced(next, v, w) && Computed(v, next)
    ensures CostsScaled(v.charge.costs, w.charge.costs, v.official.value.usdCny, next.usdCny)
  {
    var block := v.official.value.(face := next.face, usdCny := next.usdCny);
    if Differs(v.official.value, next) { CostsOfBlock(block, w.charge.costs); } else {
      assert block == v.official.value;
    }
    BilledScales(v.charge.costs, w.charge.costs, v.official.value, next);
  }

  lemma CostsOfBlock(b: Block, costs: Four<real>)
    requires costs == CostsOf(b)
    ensures CostsBilled(costs, b)
  {
  }

  lemma BilledScales(was: Four<real>, will: Four<real>, b: Block, next: Rates)
    requires b.usdCny > 0.0 && CostsBilled(was, b) && CostsBilled(will, b.(face := next.face, usdCny := next.usdCny))
    ensures CostsScaled(was, will, b.usdCny, next.usdCny)
  {
    forall kind | 0 <= kind < 4 ensures Kind(will, kind) == Kind(was, kind) * (next.usdCny / b.usdCny) {
      Product(Kind(if b.basis.Some? then b.basis.value else b.official, kind) * b.costMultiplier, b.usdCny,
        next.usdCny);
    }
  }

  lemma RatioPositive(a: real, b: real)
    requires a > 0.0 && b > 0.0
    ensures a / b > 0.0
  {
  }

  lemma Spread(worth: real, yuan: real, half: real, ratio: real, exact: real, worth': real, half': real)
    requires yuan - half <= worth <= yuan + half && exact == yuan * ratio && exact - half' <= worth' <= exact + half'
    requires ratio > 0.0
    ensures worth * ratio - (half * ratio + half') <= worth' <= worth * ratio + (half * ratio + half')
  {
    assert (worth - yuan + half) * ratio >= 0.0 && (yuan + half - worth) * ratio >= 0.0;
  }

  lemma KindFollows(usd: real, priceMultiplier: real, usdCny: real, face: real, next: Rates)
    requires usdCny > 0.0 && face > 0.0 && next.usdCny > 0.0 && next.face > 0.0
    ensures ScaledTo(CreditsFor(usd, priceMultiplier, usdCny, face),
        CreditsFor(usd, priceMultiplier, next.usdCny, next.face),
                     next.usdCny / usdCny, face, next.face)
  {
    WorthOf(usd, priceMultiplier, usdCny, face);
    WorthOf(usd, priceMultiplier, next.usdCny, next.face);
    var was, will := CreditsFor(usd, priceMultiplier, usdCny, face),
      CreditsFor(usd, priceMultiplier, next.usdCny, next.face);
    var ratio := next.usdCny / usdCny;
    RatioPositive(next.usdCny, usdCny);
    Product(usd * priceMultiplier, usdCny, next.usdCny);
    Spread(Worth(was, face), YuanOf(usd, priceMultiplier, usdCny), face / 2000000.0, ratio,
           YuanOf(usd, priceMultiplier, next.usdCny), Worth(will, next.face), next.face / 2000000.0);
  }

  lemma WorthFollows(next: Rates, v: Version, w: Version)
    requires IsRepriced(next, v, w) && Computed(v, next) && v.charge.credits == CreditsOf(v.official.value)
    ensures WorthScaled(v.charge.credits, w.charge.credits, v.official.value.usdCny, v.official.value.face, next)
  {
    var b := v.official.value;
    var now := b.(face := next.face, usdCny := next.usdCny);
    forall kind | 0 <= kind < 4
      ensures ScaledTo(Kind(v.charge.credits, kind), Kind(w.charge.credits, kind), next.usdCny / b.usdCny, b.face,
          next.face)
    {
      KindOfCredits(b, kind);
      KindOfCredits(now, kind);
      KindFollows(Kind(b.official, kind), b.priceMultiplier, b.usdCny, b.face, next);
      FreeFollows(next.usdCny, b.usdCny, b.face, next.face);
    }
  }

  lemma FreeFollows(usdCny: real, was: real, face: real, next: real)
    requires usdCny > 0.0 && was > 0.0 && face > 0.0 && next > 0.0
    ensures ScaledTo(0, 0, usdCny / was, face, next)
  {
    RatioPositive(usdCny, was);
    var ratio := usdCny / was;
    assert face * ratio > 0.0;
  }

  /**
   * From the publication on, the price in force for any table and names has its costs, and what its
   * credits are worth in CNY, as without the plan times the new dollar over the old; it is fixed and
   * in CNY as before, and one that charged nothing still does.
   */
  lemma InForceFollows(versions: seq<Version>, next: Rates, now: int, plan: FacePlan, time: int,
                       table: string, names: seq<string>, at: int)
    requires Publishes(versions, next, now, plan, time) && time <= at
    requires var was := InForce(versions, table, names, at);
             was.Some? && Computed(was.value, next) && IsFixedCny(was.value.charge)
    ensures var v, will := InForce(versions, table, names, at).value,
        InForce(Publish(versions, plan, time), table, names, at);
            var b := v.official.value;
            && will.Some? && IsFixedCny(will.value.charge)
            && CostsScaled(v.charge.costs, will.value.charge.costs, b.usdCny, next.usdCny)
            && (v.charge.credits == Four(0, 0, 0, 0) ==> will.value.charge.credits == Four(0, 0, 0, 0))
            && (v.charge.credits == CreditsOf(b) ==>
                  WorthScaled(v.charge.credits, will.value.charge.credits, b.usdCny, b.face, next))
            && will.value.official == Some(b.(face := next.face, usdCny := next.usdCny))
  {
    InForceRepriced(versions, next, now, plan, time, table, names, at);
    var v, w := InForce(versions, table, names, at).value,
      InForce(Publish(versions, plan, time), table, names, at).value;
    CostsFollow(next, v, w);
    if v.charge.credits == CreditsOf(v.official.value) { WorthFollows(next, v, w); }
  }
}
