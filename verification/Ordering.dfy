/**
 * The order of a group's models, by their place numbers and, for equal ones, as the server lists
 * them; and moving one of them. A model is named by its index in the server's list.
 */
module Ordering {
  import opened Options

  /** `rest` is all that ordering does not look at. */
  datatype Model = Model(id: string, groupId: string, exposed: string, aliases: seq<string>, sortOrder: Option<int>,
    rest: string)

  function Order(m: Model): int { if m.sortOrder.Some? then m.sortOrder.value else 0 }

  predicate Before(models: seq<Model>, i: nat, j: nat) {
    i < |models| && j < |models|
      && (Order(models[i]) < Order(models[j]) || (Order(models[i]) == Order(models[j]) && i < j))
  }

  /** A stable sort: behind every one that is not greater. */
  function Insert(models: seq<Model>, s: seq<nat>, i: nat): seq<nat> {
    if s == [] || Before(models, s[|s| - 1], i) then s + [i]
    else Insert(models, s[..|s| - 1], i) + [s[|s| - 1]]
  }

  /** The group's models among the first `n`, in list order. */
  function GroupOrder(models: seq<Model>, g: string, n: nat): seq<nat>
    requires n <= |models|
  {
    if n == 0 then []
    else if models[n - 1].groupId == g then Insert(models, GroupOrder(models, g, n - 1), n - 1)
    else GroupOrder(models, g, n - 1)
  }

  function GroupModels(models: seq<Model>, g: string): seq<nat> { GroupOrder(models, g, |models|) }

  ghost predicate Sorted(models: seq<Model>, s: seq<nat>) {
    forall a, b | 0 <= a < b < |s| :: Before(models, s[a], s[b])
  }

  /** Exactly the group's models, each once, each before those it comes before. */
  ghost predicate IsGroupOrder(models: seq<Model>, g: string, s: seq<nat>) {
    Sorted(models, s) && forall i {:trigger i in s} :: i in s <==> 0 <= i < |models| && models[i].groupId == g
  }

  lemma {:induction false} InsertSorted(models: seq<Model>, s: seq<nat>, i: nat)
    requires Sorted(models, s) && i < |models| && forall x | x in s :: x < i
    ensures Sorted(models, Insert(models, s, i))
    ensures forall x :: x in Insert(models, s, i) <==> x in s || x == i
  {
    if s != [] && !Before(models, s[|s| - 1], i) {
      var front, last := s[..|s| - 1], s[|s| - 1];
      assert s == front + [last];
      assert forall x | x in front :: x in s;
      InsertSorted(models, front, i);
      var r := Insert(models, front, i) + [last];
      forall a, b | 0 <= a < b < |r| ensures Before(models, r[a], r[b]) {
        if b == |r| - 1 {
          assert r[a] in Insert(models, front, i);
          assert last in s;
          if r[a] in front {
            var k :| 0 <= k < |front| && front[k] == r[a];
            assert Before(models, s[k], s[|s| - 1]);
          }
        }
      }
    }
  }

  lemma GroupOrderMore(models: seq<Model>, g: string, n: nat, earlier: seq<nat>)
    requires 0 < n <= |models| && earlier == GroupOrder(models, g, n - 1) && Sorted(models, earlier)
    requires forall i {:trigger i in earlier} :: i in earlier <==> 0 <= i < n - 1 && models[i].groupId == g
    ensures Sorted(models, GroupOrder(models, g, n))
    ensures forall i {:trigger i in GroupOrder(models, g, n)} :: i in GroupOrder(models, g, n) <==>
        0 <= i < n && models[i].groupId == g
  {
    if models[n - 1].groupId == g { InsertSorted(models, earlier, n - 1); }
  }

  lemma {:induction false} GroupOrderSorted(models: seq<Model>, g: string, n: nat)
    requires n <= |models|
    ensures Sorted(models, GroupOrder(models, g, n))
    ensures forall i {:trigger i in GroupOrder(models, g, n)} :: i in GroupOrder(models, g, n) <==>
        0 <= i < n && models[i].groupId == g
  {
    if n > 0 {
      GroupOrderSorted(models, g, n - 1);
      GroupOrderMore(models, g, n, GroupOrder(models, g, n - 1));
    }
  }

  lemma HeadIn(s: seq<nat>)
    ensures s != [] ==> s[0] in s
  {
  }

  /** What is in this order is decided by its elements. */
  lemma {:induction false} SortedUnique(models: seq<Model>, s: seq<nat>, t: seq<nat>)
    requires Sorted(models, s) && Sorted(models, t) && forall x :: x in s <==> x in t
    ensures s == t
    decreases |s|
  {
    if s == [] {
      HeadIn(t);
    } else {
      assert s[0] in s && s[0] in t;
      assert t[0] in t && t[0] in s;
      var k :| 0 <= k < |t| && t[k] == s[0];
      var j :| 0 <= j < |s| && s[j] == t[0];
      assert s[0] == t[0];
      forall x ensures x in s[1..] <==> x in t[1..] {
        SortedRest(models, s, x);
        SortedRest(models, t, x);
      }
      SortedUnique(models, s[1..], t[1..]);
    }
  }

  lemma SortedRest(models: seq<Model>, s: seq<nat>, x: nat)
    requires Sorted(models, s) && s != []
    ensures x in s[1..] <==> x in s && x != s[0]
    ensures Sorted(models, s[1..])
  {
    if x in s[1..] {
      var k :| 0 <= k < |s| - 1 && s[1..][k] == x;
      assert Before(models, s[0], s[k + 1]);
    }
  }

  /** The list order is the one order there is. */
  lemma GroupModelsIs(models: seq<Model>, g: string, s: seq<nat>)
    ensures IsGroupOrder(models, g, s) <==> s == GroupModels(models, g)
  {
    GroupOrderSorted(models, g, |models|);
    if IsGroupOrder(models, g, s) {
      SortedUnique(models, s, GroupModels(models, g));
    }
  }

  /** The models, those without a number numbered 0. */
  function AllNumbered(models: seq<Model>): (r: seq<Model>)
    ensures |r| == |models|
    ensures forall i | 0 <= i < |r| :: r[i] == if models[i].sortOrder.Some? then models[i]
        else models[i].(sortOrder := Some(0))
  {
    seq(|models|, i requires 0 <= i < |models| =>
      if models[i].sortOrder.Some? then models[i] else models[i].(sortOrder := Some(0)))
  }

  /** A model without a number is placed as with the number 0. */
  lemma UnnumberedIsZero(models: seq<Model>, g: string)
    ensures GroupModels(models, g) == GroupModels(AllNumbered(models), g)
  {
    var s, numbered := GroupModels(models, g), AllNumbered(models);
    assert forall i, j :: Before(models, i, j) <==> Before(numbered, i, j);
    GroupModelsIs(models, g, s);
    GroupModelsIs(numbered, g, s);
  }

  // ---- Moving a model ----------------------------------------------------------------------

  datatype To = Up | Down | First

  function Without(s: seq<nat>, at: nat): seq<nat>
    requires at < |s|
  {
    s[..at] + s[at + 1..]
  }

  function Spliced(s: seq<nat>, at: nat, x: nat): seq<nat>
    requires at <= |s|
  {
    s[..at] + [x] + s[at..]
  }

  function NewPlace(from: nat, others: nat, to: To): (at: nat)
    requires from <= others
    ensures at <= others
  {
    match to
    case First => 0
    case Up => if from == 0 then 0 else from - 1
    case Down => if from + 1 <= others then from + 1 else others
  }

  function Moved(s: seq<nat>, from: nat, to: To): seq<nat>
    requires from < |s|
  {
    Spliced(Without(s, from), NewPlace(from, |s| - 1, to), s[from])
  }

  function Position(s: seq<nat>, x: nat): (k: nat)
    requires x in s
    ensures k < |s| && s[k] == x
  {
    if s[0] == x then 0 else 1 + Position(s[1..], x)
  }

  /** Every model, those in `next` numbered in its order. */
  function Numbered(models: seq<Model>, next: seq<nat>): (r: seq<Model>)
    ensures |r| == |models|
  {
    seq(|models|, i requires 0 <= i < |models| => if i in next then models[i].(sortOrder := Some(Position(next, i)))
      else models[i])
  }

  function Find(models: seq<Model>, id: string): (r: Option<nat>)
    ensures r.Some? ==>
        r.value < |models| && models[r.value].id == id && forall i | 0 <= i < r.value :: models[i].id != id
    ensures r.None? ==> forall m | m in models :: m.id != id
  {
    if models == [] then None
    else if models[0].id == id then Some(0)
    else
      var rest := Find(models[1..], id);
      if rest.None? then None else Some(rest.value + 1)
  }

  /** The group's order once its model of this ID is moved. */
  function NextOrder(models: seq<Model>, target: nat, to: To): seq<nat>
    requires target < |models| && target in GroupModels(models, models[target].groupId)
  {
    var ordered := GroupModels(models, models[target].groupId);
    Moved(ordered, Position(ordered, target), to)
  }

  lemma TargetInGroup(models: seq<Model>, target: nat)
    requires target < |models|
    ensures target in GroupModels(models, models[target].groupId)
  {
    GroupOrderSorted(models, models[target].groupId, |models|);
  }

  /** The place of each model in an order. */
  method PlacesIn(next: seq<nat>) returns (place: map<nat, nat>)
    requires Distinct(next)
    ensures forall i :: i in place <==> i in next
    ensures forall i | i in place :: place[i] == Position(next, i)
  {
    place := map[];
    for k := 0 to |next|
      invariant forall i :: i in place <==> i in next[..k]
      invariant forall i | i in place :: place[i] < |next| && next[place[i]] == i
    {
      assert next[..k + 1] == next[..k] + [next[k]];
      place := place[next[k] := k];
    }
    assert next[..|next|] == next;
  }

  predicate Distinct(s: seq<nat>) { forall a, b | 0 <= a < b < |s| :: s[a] != s[b] }

  method Reorder(models: seq<Model>, id: string, to: To) returns (r: seq<Model>)
    ensures var found := Find(models, id);
            if found.None? then r == models
            else
              && found.value in GroupModels(models, models[found.value].groupId)
              && r == Numbered(models, NextOrder(models, found.value, to))
  {
    var found := Find(models, id);
    if found.None? { return models; }
    var target := found.value;
    TargetInGroup(models, target);
    var ordered := GroupModels(models, models[target].groupId);
    var from := Position(ordered, target);
    var others := Without(ordered, from);
    var next := Spliced(others, NewPlace(from, |others|, to), target);
    MovedDistinct(models, models[target].groupId, from, to);
    var place := PlacesIn(next);
    r := NumberedFrom(models, place);
    NumberedFromIs(models, next, place);
  }

  lemma NumberedFromIs(models: seq<Model>, next: seq<nat>, place: map<nat, nat>)
    requires forall i :: i in place <==> i in next
    requires forall i | i in place :: place[i] == Position(next, i)
    ensures NumberedFrom(models, place) == Numbered(models, next)
  {
  }

  function NumberedFrom(models: seq<Model>, place: map<nat, nat>): (r: seq<Model>)
    ensures |r| == |models|
  {
    seq(|models|, i requires 0 <= i < |models| => if i in place then models[i].(sortOrder := Some(place[i]))
      else models[i])
  }

  /** Where what is at `k` after the move came from. */
  function Source(from: nat, at: nat, k: nat): nat {
    if k == at then from
    else if at < k <= from then k - 1
    else if from <= k < at then k + 1
    else k
  }

  lemma MovedIs(s: seq<nat>, from: nat, at: nat)
    requires from < |s| && at < |s|
    ensures var next := Spliced(Without(s, from), at, s[from]);
            |next| == |s| && forall k | 0 <= k < |s| :: Source(from, at, k) < |s| && next[k] == s[Source(from, at, k)]
  {
  }

  lemma MovedPermutes(s: seq<nat>, from: nat, at: nat)
    requires from < |s| && at < |s| && Distinct(s)
    ensures var next := Spliced(Without(s, from), at, s[from]); Distinct(next) && forall x :: x in next <==> x in s
  {
    var next := Spliced(Without(s, from), at, s[from]);
    MovedIs(s, from, at);
    forall a, b | 0 <= a < b < |s| ensures next[a] != next[b] {
      var i, j := Source(from, at, a), Source(from, at, b);
      assert i != j;
    }
    forall x ensures x in next <==> x in s {
      if x in s {
        var k :| 0 <= k < |s| && s[k] == x;
        assert next[Source(at, from, k)] == x;
      }
      if x in next {
        var k :| 0 <= k < |s| && next[k] == x;
        assert s[Source(from, at, k)] == x;
      }
    }
  }

  lemma SortedDistinct(models: seq<Model>, s: seq<nat>)
    requires Sorted(models, s)
    ensures Distinct(s)
  {
    forall a, b | 0 <= a < b < |s| ensures s[a] != s[b] { assert Before(models, s[a], s[b]); }
  }

  /** A move keeps the group's models, each once. */
  lemma MovedDistinct(models: seq<Model>, g: string, from: nat, to: To)
    requires from < |GroupModels(models, g)|
    ensures var s := GroupModels(models, g); var next := Moved(s, from, to);
            |next| == |s| && (forall x :: x in next <==> x in s) && Distinct(next)
  {
    var s := GroupModels(models, g);
    GroupOrderSorted(models, g, |models|);
    SortedDistinct(models, s);
    MovedPermutes(s, from, NewPlace(from, |s| - 1, to));
  }

  // ---- What a move does --------------------------------------------------------------------

  /** Numbering a group's models anew lists the group in that order, and changes nothing else. */
  lemma NumberedIs(models: seq<Model>, g: string, next: seq<nat>)
    requires Distinct(next) && forall x :: x in next <==> x in GroupModels(models, g)
    ensures var r := Numbered(models, next);
            && GroupModels(r, g) == next
            && (forall k | 0 <= k < |next| :: next[k] < |models| && r[next[k]].sortOrder == Some(k))
            && (forall i | 0 <= i < |models| :: r[i] == models[i].(sortOrder := r[i].sortOrder))
            && (forall i | 0 <= i < |models| && models[i].groupId != g :: r[i] == models[i])
            && (forall other | other != g :: GroupModels(r, other) == GroupModels(models, other))
  {
    var r := Numbered(models, next);
    GroupOrderSorted(models, g, |models|);
    forall k | 0 <= k < |next|
      ensures next[k] < |models| && models[next[k]].groupId == g && Position(next, next[k]) == k
    {
      assert next[k] in next;
      assert next[k] in GroupModels(models, g);
    }
    assert IsGroupOrder(r, g, next);
    GroupModelsIs(r, g, next);
    forall other | other != g ensures GroupModels(r, other) == GroupModels(models, other) {
      var s := GroupModels(models, other);
      GroupModelsIs(models, other, s);
      forall a, b | 0 <= a < b < |s| ensures Before(r, s[a], s[b]) {
        assert Before(models, s[a], s[b]) && s[a] in s && s[b] in s;
      }
      GroupModelsIs(r, other, s);
    }
  }

  /**
   * A move lists the group in the new order, numbered from 0, and leaves every other group, and
   * all but place numbers, as they were.
   */
  lemma ReorderMoves(models: seq<Model>, target: nat, to: To)
    requires target < |models|
    ensures var g := models[target].groupId;
            target in GroupModels(models, g) &&
            var next, r := NextOrder(models, target, to), Numbered(models, NextOrder(models, target, to));
            && GroupModels(r, g) == next
            && (forall k | 0 <= k < |next| :: next[k] < |models| && r[next[k]].sortOrder == Some(k))
            && (forall i | 0 <= i < |models| && models[i].groupId != g :: r[i] == models[i])
            && (forall i | 0 <= i < |models| :: r[i] == models[i].(sortOrder := r[i].sortOrder))
            && (forall other | other != g :: GroupModels(r, other) == GroupModels(models, other))
  {
    TargetInGroup(models, target);
    var g := models[target].groupId;
    MovedDistinct(models, g, Position(GroupModels(models, g), target), to);
    NumberedIs(models, g, NextOrder(models, target, to));
  }

  /** The models after moving one. */
  function After(models: seq<Model>, target: nat, to: To): seq<Model>
    requires target < |models|
  {
    TargetInGroup(models, target);
    Numbered(models, NextOrder(models, target, to))
  }

  lemma {:induction false} PositionIs(s: seq<nat>, x: nat, k: nat)
    requires Distinct(s) && k < |s| && s[k] == x
    ensures Position(s, x) == k
  {
  }

  /** Moving what was moved to `at` back to `from` undoes it. */
  lemma MovedBack(s: seq<nat>, from: nat, at: nat)
    requires from < |s| && at < |s|
    ensures var next := Spliced(Without(s, from), at, s[from]);
            |next| == |s| && next[at] == s[from] && Spliced(Without(next, at), from, next[at]) == s
  {
    var next := Spliced(Without(s, from), at, s[from]);
    MovedIs(s, from, at);
    MovedIs(next, at, from);
    var back := Spliced(Without(next, at), from, next[at]);
    forall k | 0 <= k < |s| ensures back[k] == s[k] {
      assert Source(from, at, Source(at, from, k)) == k;
    }
  }

  lemma UpDownLater(s: seq<nat>, from: nat)
    requires 0 < from < |s|
    ensures var up := Moved(s, from, Up); |up| == |s| && up[from - 1] == s[from] && Moved(up, from - 1, Down) == s
  {
    MovedBack(s, from, from - 1);
  }

  lemma UpDownFirst(s: seq<nat>)
    requires s != [] && Distinct(s)
    ensures Moved(s, 0, Up) == s
    ensures if |s| == 1 then Moved(s, 0, Down) == s
        else |Moved(s, 0, Down)| == |s| && Moved(s, 0, Down)[1] == s[0] && s[0] != s[1]
  {
    MovedBack(s, 0, 0);
    MovedIs(s, 0, NewPlace(0, |s| - 1, Down));
  }

  lemma UpDownOrder(s: seq<nat>, from: nat)
    requires from < |s| && Distinct(s)
    ensures var up, at := Moved(s, from, Up), NewPlace(from, |s| - 1, Up);
            |up| == |s| && up[at] == s[from] && (Moved(up, at, Down) == s <==> from > 0 || |s| == 1)
  {
    if from > 0 { UpDownLater(s, from); } else { UpDownFirst(s); }
  }

  /**
   * Moving a model up and then down restores its group's order exactly when it was not the first
   * of it, or is its only one: the first stays first going up, and comes second going down.
   */
  lemma UpThenDown(models: seq<Model>, target: nat)
    requires target < |models|
    ensures var g := models[target].groupId;
            var s, back := GroupModels(models, g), After(After(models, target, Up), target, Down);
            s != [] && (GroupModels(back, g) == s <==> s[0] != target || |s| == 1)
  {
    var g := models[target].groupId;
    var s := GroupModels(models, g);
    TargetInGroup(models, target);
    var from := Position(s, target);
    GroupOrderSorted(models, g, |models|);
    SortedDistinct(models, s);
    ReorderMoves(models, target, Up);
    var r := After(models, target, Up);
    ReorderMoves(r, target, Down);
    UpDownOrder(s, from);
    MovedDistinct(models, g, from, Up);
    PositionIs(Moved(s, from, Up), target, NewPlace(from, |s| - 1, Up));
    assert from == 0 <==> s[0] == target;
  }

  /** Two models of one group: the first, moved up and down, is second. */
  lemma FirstComesSecond(models: seq<Model>)
    requires |models| == 2 && models[0].groupId == models[1].groupId && Order(models[0]) < Order(models[1])
    ensures GroupModels(models, models[0].groupId) == [0, 1]
    ensures GroupModels(After(After(models, 0, Up), 0, Down), models[0].groupId) == [1, 0]
  {
    GroupModelsIs(models, models[0].groupId, [0, 1]);
    AfterOfTwo(models, Up);
    AfterOfTwo(After(models, 0, Up), Down);
  }

  lemma AfterOfTwo(models: seq<Model>, to: To)
    requires models != [] && GroupModels(models, models[0].groupId) == [0, 1]
    ensures After(models, 0, to)[0].groupId == models[0].groupId
    ensures to != First ==> GroupModels(After(models, 0, to), models[0].groupId) == if to == Down then [1, 0]
        else [0, 1]
  {
    ReorderMoves(models, 0, to);
    MovedOfTwo(GroupModels(models, models[0].groupId), to);
  }

  lemma MovedOfTwo(s: seq<nat>, to: To)
    requires s == [0, 1]
    ensures Position(s, 0) == 0
    ensures to == Up ==> Moved(s, 0, to) == [0, 1]
    ensures to == Down ==> Moved(s, 0, to) == [1, 0]
  {
  }
}
