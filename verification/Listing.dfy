/**
 * Listing a new model as one publication: its entries, the place numbers that change, and its price
 * in each price table.
 */
module Listing {
  import opened Options
  import opened Pricing
  import Ordering
  import Placement
  import FirstPrice

  /** What is published, or which half of it is refused. */
  datatype Listing =
    | Listed(moved: seq<Ordering.Model>, mappings: seq<Ordering.Model>, versions: seq<Version>)
    | NotPlaced(place: Placement.Refusal)
    | NotPriced(price: FirstPrice.Reason)

  /** The price tables of the chosen groups, each once, in their order. */
  function TablesOf(groups: map<string, string>, chosen: seq<Placement.Choice>): (r: seq<string>)
    requires forall k | 0 <= k < |chosen| :: chosen[k].groupId in groups
    ensures forall t :: t in r <==> exists k :: 0 <= k < |chosen| && groups[chosen[k].groupId] == t
    ensures forall i, j | 0 <= i < j < |r| :: r[i] != r[j]
  {
    if chosen == [] then []
    else
      var earlier, table := TablesOf(groups, chosen[..|chosen| - 1]), groups[chosen[|chosen| - 1].groupId];
      assert forall k | 0 <= k < |chosen| - 1 :: chosen[..|chosen| - 1][k] == chosen[k];
      if table in earlier then earlier else earlier + [table]
  }

  predicate AllListable(models: seq<Ordering.Model>, groups: map<string, string>, tables: set<string>,
                        chosen: seq<Placement.Choice>, exposed: string) {
    Placement.DistinctGroups(chosen)
      && forall k | 0 <= k < |chosen| :: Placement.Listable(models, groups, tables, chosen[k], exposed)
  }

  /** Every new entry is charged at a price the moment it is published. */
  predicate ArePriced(models: seq<Ordering.Model>, groups: map<string, string>, chosen: seq<Placement.Choice>,
                      list: seq<Ordering.Model>, versions: seq<Version>, target: string, time: int)
  {
    |list| == |models| + |chosen|
      && forall k | 0 <= k < |chosen| :: IsPriced(groups, list[|models|..], k, versions, target, time)
  }

  predicate IsPriced(groups: map<string, string>, entries: seq<Ordering.Model>, k: nat, versions: seq<Version>,
                     target: string, time: int)
    requires k < |entries|
  {
    var m := entries[k];
    m.groupId in groups && InForce(versions, groups[m.groupId], [m.exposed, target], time).Some?
  }

  lemma ListedArePriced(models: seq<Ordering.Model>, groups: map<string, string>, chosen: seq<Placement.Choice>,
                        list: seq<Ordering.Model>,
                        versions: seq<Version>, q: FirstPrice.Request, more: seq<Version>, time: int)
    requires forall k | 0 <= k < |chosen| :: chosen[k].groupId in groups
    requires Placement.IsListed(models, chosen, |chosen|, list, q.model)
    requires FirstPrice.AreNewPrices(versions, q, more)
    requires forall t | t in TablesOf(groups, chosen) :: FirstPrice.IsSettled(versions, q, more, t)
    requires q.model != "*" && q.now <= time
    ensures ArePriced(models, groups, chosen, list, versions + FirstPrice.StampedAll(more, time), q.target, time)
  {
    forall k | 0 <= k < |chosen|
      ensures IsPriced(groups, list[|models|..], k, versions + FirstPrice.StampedAll(more, time), q.target, time)
    {
      assert Placement.IsInPlace(models, chosen[k], list, |models| + k, q.model);
      FirstPrice.PricedAtOnce(versions, q, more, groups[chosen[k].groupId], time);
    }
  }

  /**
   * It succeeds exactly when every chosen group can take the model and every table of theirs a
   * price; published then, the model is in its place in every group, and charged at a price there.
   */
  method BuildListing(models: seq<Ordering.Model>, groups: map<string, string>, tables: set<string>,
                      chosen: seq<Placement.Choice>, rest: string, head: string,
                      versions: seq<Version>, q: FirstPrice.Request, idBase: (string, int) -> string)
    returns (r: Listing)
    requires Placement.UniqueIds(models) && q.model != "*"
    ensures r.NotPlaced? <==> !AllListable(models, groups, tables, chosen, q.model)
    ensures r.NotPriced? <==> AllListable(models, groups, tables, chosen, q.model)
                              && exists k ::
                                   0 <= k < |chosen| && !FirstPrice.CanPrice(versions, q, groups[chosen[k].groupId])
    ensures r.Listed? ==>
              var list := Placement.Upsert(models, r.moved + r.mappings);
              && Placement.IsListed(models, chosen, |chosen|, list, q.model)
              && FirstPrice.AreNewPrices(versions, q, r.versions)
              && forall time | time >= q.now ::
                   ArePriced(models, groups, chosen, list, versions + FirstPrice.StampedAll(r.versions, time),
                             q.target, time)
  {
    var placed := Placement.PlaceModels(models, groups, tables, chosen, q.model, rest, head);
    if placed.Refused? { return NotPlaced(placed.why); }
    assert forall k | 0 <= k < |chosen| :: Placement.Listable(models, groups, tables, chosen[k], q.model);
    var priced := FirstPrice.PriceTables(versions, q, TablesOf(groups, chosen), idBase);
    if priced.Refused? { return NotPriced(priced.why); }
    r := Listed(placed.moved, placed.mappings, priced.versions);
    ghost var list := Placement.Upsert(models, r.moved + r.mappings);
    forall time | time >= q.now
      ensures ArePriced(models, groups, chosen, list, versions + FirstPrice.StampedAll(r.versions, time),
                        q.target, time)
    {
      ListedArePriced(models, groups, chosen, list, versions, q, r.versions, time);
    }
  }
}
