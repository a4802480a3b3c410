/**
 * The price a newly listed model is published with: the one its price table already has, a new one
 * behind it from a later time, or the table's first one for it, in force at once.
 */
module FirstPrice {
  import opened Options
  import opened Pricing
  import opened FreshIds

  datatype Reason = NotInForceYet | NotLater | TimeTaken
  datatype Outcome = Priced(versions: seq<Version>) | Refused(why: Reason)

  predicate HasPrice(versions: seq<Version>, table: string, model: string) {
    exists v | v in versions :: v.table == table && v.model == model
  }

  function StampedAll(versions: seq<Version>, time: int): (r: seq<Version>)
    ensures |r| == |versions| && forall k | 0 <= k < |r| :: r[k] == Stamped(versions[k], time)
  {
    seq(|versions|, k requires 0 <= k < |versions| => Stamped(versions[k], time))
  }

  /**
   * What is asked for: the model and its upstream model, what they are priced at, and from when behind an existing
   * price.
   */
  datatype Request = Request(model: string, target: string, keep: bool, block: Block, now: int, soon: int)

  /** A new price is the table's first of this model, from now, or stands behind one in force, from later. */
  predicate IsNewPrice(versions: seq<Version>, q: Request, v: Version) {
    && v == Version(v.id, v.table, q.model, v.from, OfficialCharge(q.block, false), Some(q.block))
    && (if HasPrice(versions, v.table, q.model)
        then !q.keep && v.from == q.soon && (q.soon == 0 || q.soon > q.now)
          && InForce(versions, v.table, [q.model, q.target], q.now).Some?
        else v.from == 0)
    && forall w | w in versions :: w.id != v.id && !(w.table == v.table && w.model == v.model && w.from == v.from)
  }

  predicate StartsAt(versions: seq<Version>, table: string, model: string, time: int) {
    exists v | v in versions :: v.table == table && v.model == model && v.from == time
  }

  /**
   * A table without a price of the model gets one; with one it must be in force, and a new one start later, at a free
   * time.
   */
  predicate CanPrice(versions: seq<Version>, q: Request, table: string) {
    HasPrice(versions, table, q.model) ==>
      InForce(versions, table, [q.model, q.target], q.now).Some?
      && (q.keep || ((q.soon == 0 || q.soon > q.now) && !StartsAt(versions, table, q.model, q.soon)))
  }

  /** Some version of this table and one of these names is in force. */
  predicate Charges(versions: seq<Version>, table: string, names: set<string>, now: int) {
    exists v | v in versions :: v.table == table && v.model in names && v.from <= now
  }

  /**
   * A table can be priced exactly if it has no price of the model at all; or has one of the model's, its
   * upstream model's or any model's in force, and keeps it, or none of the model's at the time of the new
   * one, which is at once or later.
   */
  lemma CanPriceExactly(versions: seq<Version>, q: Request, table: string)
    ensures CanPrice(versions, q, table) <==>
              || (forall v | v in versions && v.table == table :: v.model != q.model)
              || (&& Charges(versions, table, {q.model, q.target, "*"}, q.now)
                  && (q.keep
                      || ((q.soon == 0 || q.soon > q.now)
                          && forall v | v in versions && v.table == table && v.model == q.model :: v.from != q.soon)))
  {
    var names := [q.model, q.target];
    assert names[1..] == [q.target] && [q.target][1..] == [];
    NoneInForce(versions, table, q.now);
    OneInForce(versions, table, q.target, q.now);
    LatestFacts(versions, table, q.model, q.now);
    LatestFacts(versions, table, q.target, q.now);
    LatestFacts(versions, table, "*", q.now);
    if v :| v in versions && v.table == table && v.model in {q.model, q.target, "*"} && v.from <= q.now {
      assert Applies(v, table, v.model, q.now);
    }
    var price := InForce(versions, table, names, q.now);
    if price.Some? {
      InForceIsLatest(versions, table, names, q.now);
      assert price.value.table == table && price.value.from <= q.now;
    }
  }

  /** Why a table cannot be priced: the reason found first. */
  predicate IsWhy(versions: seq<Version>, q: Request, table: string, why: Reason) {
    && HasPrice(versions, table, q.model)
    && var charged := InForce(versions, table, [q.model, q.target], q.now).Some?;
    match why
    case NotInForceYet => !charged
    case NotLater => charged && !q.keep && q.soon != 0 && q.soon <= q.now
    case TimeTaken =>
      && charged && !q.keep && (q.soon == 0 || q.soon > q.now)
      && StartsAt(versions, table, q.model, q.soon)
  }

  /** Named after the model and the time it starts; one that starts at once, after the time now. */
  method NewId(q: Request, from: int, idBase: (string, int) -> string, ids: set<string>) returns (id: string)
    ensures id !in ids && IsNumbered(id, idBase(q.model, if from == 0 then q.now else from))
  {
    id := FreshId(idBase(q.model, if from == 0 then q.now else from), ids);
  }

  /** This table needs no new price, or has one among those to publish. */
  predicate IsSettled(versions: seq<Version>, q: Request, more: seq<Version>, table: string) {
    if HasPrice(versions, table, q.model)
    then InForce(versions, table, [q.model, q.target], q.now).Some?
      && (!q.keep ==> exists v | v in more :: v.table == table)
    else exists v | v in more :: v.table == table
  }

  /** One new price to a table, under an ID of its own. */
  predicate AreNewPrices(versions: seq<Version>, q: Request, more: seq<Version>) {
    && (forall v | v in more :: IsNewPrice(versions, q, v))
    && forall i, j | 0 <= i < j < |more| :: more[i].table != more[j].table && more[i].id != more[j].id
  }

  method PriceTable(versions: seq<Version>, q: Request, table: string, idBase: (string, int) -> string,
                    ids: set<string>)
    returns (r: Outcome)
    requires forall v | v in versions :: v.id in ids
    ensures r.Priced? ==> |r.versions| <= 1 && IsSettled(versions, q, r.versions, table)
    ensures r.Priced? ==> forall v | v in r.versions :: IsNewPrice(versions, q, v) && v.table == table && v.id !in ids
    ensures r.Priced? <==> CanPrice(versions, q, table)
    ensures r.Refused? ==> IsWhy(versions, q, table, r.why)
    ensures r.Priced? ==>
        forall v | v in r.versions :: IsNumbered(v.id, idBase(q.model, if v.from == 0 then q.now else v.from))
  {
    var existing := HasPrice(versions, table, q.model);
    if existing {
      if InForce(versions, table, [q.model, q.target], q.now).None? { return Refused(NotInForceYet); }
      if q.keep { return Priced([]); }
    }
    var from := if existing then q.soon else 0;
    var id := NewId(q, from, idBase, ids);
    if from != 0 && from <= q.now { return Refused(NotLater); }
    if StartsAt(versions, table, q.model, from) { return Refused(TimeTaken); }
    var version := Version(id, table, q.model, from, OfficialCharge(q.block, false), Some(q.block));
    assert version in [version];
    r := Priced([version]);
  }

  predicate AreKnown(more: seq<Version>, ids: set<string>, tables: seq<string>) {
    forall v | v in more :: v.id in ids && v.table in tables
  }

  lemma MorePrices(versions: seq<Version>, q: Request, more: seq<Version>, one: seq<Version>, ids: set<string>,
                   tables: seq<string>, table: string)
    requires AreNewPrices(versions, q, more) && AreKnown(more, ids, tables) && |one| <= 1 && table !in tables
    requires forall v | v in one :: IsNewPrice(versions, q, v) && v.table == table && v.id !in ids
    ensures AreNewPrices(versions, q, more + one)
        && AreKnown(more + one, ids + set v | v in one :: v.id, tables + [table])
  {
    var all := more + one;
    assert forall v | v in all :: v in more || v in one;
    forall i, j | 0 <= i < j < |all| ensures all[i].table != all[j].table && all[i].id != all[j].id {
      assert i < |more| && all[i] in more;
      if j >= |more| { assert all[j] in one; }
    }
  }

  method PriceTables(versions: seq<Version>, q: Request, tables: seq<string>, idBase: (string, int) -> string)
    returns (r: Outcome)
    requires forall i, j | 0 <= i < j < |tables| :: tables[i] != tables[j]
    ensures r.Priced? <==> forall t | t in tables :: CanPrice(versions, q, t)
    ensures r.Priced? ==>
        AreNewPrices(versions, q, r.versions) && forall t | t in tables :: IsSettled(versions, q, r.versions, t)
    ensures r.Priced? ==> forall v | v in r.versions :: v.table in tables
    ensures r.Refused? ==> exists t :: t in tables && IsWhy(versions, q, t, r.why)
  {
    var more: seq<Version> := [];
    var ids := set v | v in versions :: v.id;
    for k := 0 to |tables|
      invariant AreNewPrices(versions, q, more)
      invariant forall v | v in versions :: v.id in ids
      invariant AreKnown(more, ids, tables[..k])
      invariant forall j | 0 <= j < k :: CanPrice(versions, q, tables[j]) && IsSettled(versions, q, more, tables[j])
    {
      var one := PriceTable(versions, q, tables[k], idBase, ids);
      if !one.Priced? { return one; }
      ghost var before := more;
      MorePrices(versions, q, more, one.versions, ids, tables[..k], tables[k]);
      more := more + one.versions;
      ids := ids + set v | v in one.versions :: v.id;
      assert tables[..k + 1] == tables[..k] + [tables[k]];
      forall j | 0 <= j < k + 1 ensures IsSettled(versions, q, more, tables[j]) {
        StaysSettled(versions, q, before, one.versions, tables[j]);
      }
    }
    r := Priced(more);
  }

  lemma StaysSettled(versions: seq<Version>, q: Request, a: seq<Version>, b: seq<Version>, table: string)
    ensures IsSettled(versions, q, a, table) || IsSettled(versions, q, b, table) ==>
        IsSettled(versions, q, a + b, table)
  {
    assert forall v | v in a :: v in a + b;
    assert forall v | v in b :: v in a + b;
  }

  // ---- A price in force --------------------------------------------------------------------

  /**
   * The moment it is published, a listed model is charged at a price: of each chosen table, at the
   * new one where it is the table's first, else at one in force there already.
   */
  lemma PricedAtOnce(versions: seq<Version>, q: Request, more: seq<Version>, table: string, time: int)
    requires AreNewPrices(versions, q, more) && IsSettled(versions, q, more, table) && q.model != "*" && q.now <= time
    ensures InForce(versions + StampedAll(more, time), table, [q.model, q.target], time).Some?
    ensures !HasPrice(versions, table, q.model) ==>
              exists v :: v in more && v.table == table
                && InForce(versions + StampedAll(more, time), table, [q.model, q.target], time)
                == Some(Stamped(v, time))
  {
    if HasPrice(versions, table, q.model) {
      StaysInForce(versions, StampedAll(more, time), table, [q.model, q.target], q.now, time);
    } else {
      var v :| v in more && v.table == table;
      var k :| 0 <= k < |more| && more[k] == v;
      FirstInForce(versions, q, more, k, time);
    }
  }

  lemma FirstInForce(versions: seq<Version>, q: Request, more: seq<Version>, k: nat, time: int)
    requires AreNewPrices(versions, q, more) && k < |more| && q.model != "*"
        && !HasPrice(versions, more[k].table, q.model)
    ensures InForce(versions + StampedAll(more, time), more[k].table, [q.model, q.target], time)
        == Some(Stamped(more[k], time))
  {
    var v, after := more[k], versions + StampedAll(more, time);
    assert IsNewPrice(versions, q, v);
    var s := StampedAll(more, time)[k];
    assert s in after;
    forall w | w in after && Applies(w, v.table, q.model, time) ensures w == s {
      if w in StampedAll(more, time) {
        var j :| 0 <= j < |more| && StampedAll(more, time)[j] == w;
        OnlyPrice(versions, q, more, j, k);
      }
    }
    LatestIs(after, v.table, q.model, time, s);
  }

  lemma OnlyPrice(versions: seq<Version>, q: Request, more: seq<Version>, j: nat, k: nat)
    requires AreNewPrices(versions, q, more) && j < |more| && k < |more|
    ensures more[j].table == more[k].table ==> j == k
  {
  }

  /** A price in force is still there later, or a later one is. */
  lemma {:induction false} StaysInForce(versions: seq<Version>, more: seq<Version>, table: string, names: seq<string>,
                                        at: int, later: int)
    requires at <= later && InForce(versions, table, names, at).Some?
    ensures InForce(versions + more, table, names, later).Some?
  {
    StaysLatest(versions, more, table, "*", at, later);
    if names != [] {
      StaysLatest(versions, more, table, names[0], at, later);
      if !(names[0] != "*" && Latest(versions, table, names[0], at).Some?) {
        StaysInForce(versions, more, table, names[1..], at, later);
      }
    }
  }

  lemma StaysLatest(versions: seq<Version>, more: seq<Version>, table: string, name: string, at: int, later: int)
    requires at <= later
    ensures Latest(versions, table, name, at).Some? ==> Latest(versions + more, table, name, later).Some?
  {
    LatestFacts(versions, table, name, at);
    LatestFacts(versions + more, table, name, later);
    if Latest(versions, table, name, at).Some? {
      var v := Latest(versions, table, name, at).value;
      assert v in versions + more && Applies(v, table, name, later);
    }
  }
}
