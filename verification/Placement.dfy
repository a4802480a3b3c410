/**
 * Listing a new model: in each chosen group first, last, or right after another model, published
 * together with the models whose place numbers change.
 */
module Placement {
  import opened Options
  import opened Ordering
  import opened FreshIds

  datatype Place = AtFirst | AtLast | Behind(id: string)
  datatype Choice = Choice(groupId: string, place: Place)
  datatype Refusal = SameGroupTwice | NoSuchGroup | NoPriceTable | AlreadyListed | AnchorGone

  /** `models`: the rows sent, those moved first; `mappings`: the new ones among them. */
  datatype Placed = Placed(moved: seq<Model>, mappings: seq<Model>) | Refused(why: Refusal)

  ghost predicate UniqueIds(models: seq<Model>) { forall i, j | 0 <= i < j < |models| :: models[i].id != models[j].id }

  // ---- Publishing rows ---------------------------------------------------------------------

  /** A row replaces the model of its ID, or comes last. */
  function Put(models: seq<Model>, row: Model): seq<Model> {
    if HasId(models, row.id) then Replaced(models, row) else models + [row]
  }

  predicate HasId(models: seq<Model>, id: string) { exists i :: 0 <= i < |models| && models[i].id == id }

  function Replaced(models: seq<Model>, row: Model): seq<Model> {
    seq(|models|, i requires 0 <= i < |models| => if models[i].id == row.id then row else models[i])
  }

  function Upsert(models: seq<Model>, rows: seq<Model>): seq<Model> {
    if rows == [] then models else Put(Upsert(models, rows[..|rows| - 1]), rows[|rows| - 1])
  }

  lemma {:induction false} UpsertBoth(models: seq<Model>, a: seq<Model>, b: seq<Model>)
    ensures Upsert(models, a + b) == Upsert(Upsert(models, a), b)
  {
    if b == [] {
      assert a + b == a;
    } else {
      UpsertBoth(models, a, b[..|b| - 1]);
      assert (a + b)[..|a + b| - 1] == a + b[..|b| - 1];
    }
  }

  lemma PutAt(models: seq<Model>, i: nat, row: Model)
    requires UniqueIds(models) && i < |models| && models[i].id == row.id
    ensures Put(models, row) == models[i := row]
  {
    forall k | 0 <= k < |models| ensures Replaced(models, row)[k] == models[i := row][k] {
      assert k != i ==> models[k].id != models[i].id;
    }
  }

  /** New rows come last, in their order. */
  lemma {:induction false} UpsertNew(models: seq<Model>, rows: seq<Model>)
    requires UniqueIds(models + rows)
    ensures Upsert(models, rows) == models + rows
  {
    if rows != [] {
      var front, last := rows[..|rows| - 1], rows[|rows| - 1];
      forall i, j | 0 <= i < j < |models + front| ensures (models + front)[i].id != (models + front)[j].id {
        assert (models + rows)[i] == (models + front)[i] && (models + rows)[j] == (models + front)[j];
      }
      UpsertNew(models, front);
      forall m | m in models + front ensures m.id != last.id {
        var i :| 0 <= i < |models + front| && (models + front)[i] == m;
        assert (models + rows)[i] == m && (models + rows)[|models + front|] == last;
      }
      assert models + rows == models + front + [last];
    } else {
      assert models + rows == models;
    }
  }

  // ---- Numbering a group around the new model -----------------------------------------------

  /** The rows whose number changes when these are numbered 0, 1, 2 and on. */
  function Renumbered(ordered: seq<Model>, n: nat): seq<Model>
    requires n <= |ordered|
  {
    if n == 0 then []
    else if ordered[n - 1].sortOrder != Some(n - 1)
      then Renumbered(ordered, n - 1) + [ordered[n - 1].(sortOrder := Some(n - 1))]
    else Renumbered(ordered, n - 1)
  }

  function OthersThan(rows: seq<Model>, id: string): seq<Model> {
    if rows == [] then []
    else if rows[|rows| - 1].id == id then OthersThan(rows[..|rows| - 1], id)
    else OthersThan(rows[..|rows| - 1], id) + [rows[|rows| - 1]]
  }

  function At(models: seq<Model>, s: seq<nat>): (r: seq<Model>)
    requires forall k | 0 <= k < |s| :: s[k] < |models|
    ensures |r| == |s| && forall k | 0 <= k < |s| :: r[k] == models[s[k]]
  {
    seq(|s|, k requires 0 <= k < |s| => models[s[k]])
  }

  /** No more than place numbers are different in the models that were there. */
  predicate OnlyPlaces(models: seq<Model>, list: seq<Model>) {
    |models| <= |list| && forall i | 0 <= i < |models| :: list[i] == models[i].(sortOrder := list[i].sortOrder)
  }

  /** Those at `s[0]`, `s[1]` and on are numbered, the others as they were; one index may be beyond the models. */
  predicate IsNumbered(models: seq<Model>, s: seq<nat>, now: seq<Model>) {
    && |now| == |models| && OnlyPlaces(models, now)
    && (forall q | 0 <= q < |s| && s[q] < |models| :: now[s[q]].sortOrder == Some(q))
    && forall i | 0 <= i < |models| && i !in s :: now[i] == models[i]
  }

  predicate UpTo(s: seq<nat>, n: nat) { forall k | 0 <= k < |s| :: s[k] <= n }

  /** The group's models in the order of `s`, the new one in their midst. */
  predicate IsOrdered(models: seq<Model>, s: seq<nat>, mapping: Model, ordered: seq<Model>) {
    UpTo(s, |models|) && ordered == At(models + [mapping], s)
  }

  /** The rows of the first `n` places, put one after the other; none for this ID. */
  function PutRows(models: seq<Model>, ordered: seq<Model>, id: string, n: nat): seq<Model>
    requires n <= |ordered|
  {
    if n == 0 then models
    else
      var before, row := PutRows(models, ordered, id, n - 1), ordered[n - 1].(sortOrder := Some(n - 1));
      if row == ordered[n - 1] || row.id == id then before else Put(before, row)
  }

  lemma {:induction false} PutRowsUpserts(models: seq<Model>, ordered: seq<Model>, id: string, n: nat)
    requires n <= |ordered|
    ensures Upsert(models, OthersThan(Renumbered(ordered, n), id)) == PutRows(models, ordered, id, n)
    decreases n
  {
    if n > 0 {
      PutRowsUpserts(models, ordered, id, n - 1);
      PutRowUpserts(models, ordered, id, n);
    }
  }

  lemma PutRowUpserts(models: seq<Model>, ordered: seq<Model>, id: string, n: nat)
    requires 0 < n <= |ordered|
    requires Upsert(models, OthersThan(Renumbered(ordered, n - 1), id)) == PutRows(models, ordered, id, n - 1)
    ensures Upsert(models, OthersThan(Renumbered(ordered, n), id)) == PutRows(models, ordered, id, n)
  {
    var rows, row := OthersThan(Renumbered(ordered, n - 1), id), ordered[n - 1].(sortOrder := Some(n - 1));
    OneMoreRow(ordered, id, n - 1);
    if row != ordered[n - 1] && row.id != id {
      UpsertOneMore(models, rows, row, PutRows(models, ordered, id, n - 1));
    }
  }

  lemma UpsertOneMore(models: seq<Model>, rows: seq<Model>, row: Model, before: seq<Model>)
    requires Upsert(models, rows) == before
    ensures Upsert(models, rows + [row]) == Put(before, row)
  {
    assert (rows + [row])[..|rows|] == rows;
  }

  lemma OneMoreRow(ordered: seq<Model>, id: string, n: nat)
    requires n < |ordered|
    ensures var rows, row := OthersThan(Renumbered(ordered, n), id), ordered[n].(sortOrder := Some(n));
            OthersThan(Renumbered(ordered, n + 1), id) == if row == ordered[n] || row.id == id then rows
              else rows + [row]
  {
    var before, row := Renumbered(ordered, n), ordered[n].(sortOrder := Some(n));
    assert (before + [row])[..|before|] == before;
  }

  lemma {:induction false} PutRowsNumber(models: seq<Model>, s: seq<nat>, mapping: Model, ordered: seq<Model>, n: nat)
    requires UniqueIds(models + [mapping]) && Distinct(s) && n <= |s| && IsOrdered(models, s, mapping, ordered)
    ensures IsNumbered(models, s[..n], PutRows(models, ordered, mapping.id, n))
    decreases n
  {
    if n > 0 {
      PutRowsNumber(models, s, mapping, ordered, n - 1);
      PutRowNumbers(models, s, mapping, ordered, n, PutRows(models, ordered, mapping.id, n - 1));
    }
  }

  /** One more row, or none for the new model and for one that has its number already. */
  lemma PutRowNumbers(models: seq<Model>, s: seq<nat>, mapping: Model, ordered: seq<Model>, n: nat, before: seq<Model>)
    requires UniqueIds(models + [mapping]) && Distinct(s) && 0 < n <= |s| && IsOrdered(models, s, mapping, ordered)
    requires before == PutRows(models, ordered, mapping.id, n - 1) && IsNumbered(models, s[..n - 1], before)
    ensures IsNumbered(models, s[..n], PutRows(models, ordered, mapping.id, n))
  {
    var i, row := s[n - 1], ordered[n - 1].(sortOrder := Some(n - 1));
    assert ordered[n - 1] == (models + [mapping])[i];
    OneMoreNumbered(models, s, n, before);
    if i < |models| {
      assert (models + [mapping])[i].id != (models + [mapping])[|models|].id;
      SameIds(models, mapping, before);
      PutAt(before, i, row);
      if row == ordered[n - 1] { assert before[i := row] == before; }
    }
  }

  lemma OneMoreNumbered(models: seq<Model>, s: seq<nat>, n: nat, before: seq<Model>)
    requires Distinct(s) && 0 < n <= |s| && IsNumbered(models, s[..n - 1], before)
    ensures var i := s[n - 1];
            if i < |models|
              then before[i] == models[i]
              && IsNumbered(models, s[..n], before[i := models[i].(sortOrder := Some(n - 1))])
            else IsNumbered(models, s[..n], before)
  {
    assert s[..n] == s[..n - 1] + [s[n - 1]];
  }

  lemma SameIds(models: seq<Model>, mapping: Model, now: seq<Model>)
    requires UniqueIds(models + [mapping]) && |now| == |models| && OnlyPlaces(models, now)
    ensures UniqueIds(now)
  {
    forall a, b | 0 <= a < b < |now| ensures now[a].id != now[b].id {
      assert (models + [mapping])[a].id != (models + [mapping])[b].id;
    }
  }

  /** Publishing the renumbered rows numbers the group's models, the new one in their midst not among them. */
  lemma RowsNumber(models: seq<Model>, s: seq<nat>, mapping: Model, ordered: seq<Model>)
    requires UniqueIds(models + [mapping]) && Distinct(s) && IsOrdered(models, s, mapping, ordered)
    ensures IsNumbered(models, s, Upsert(models, OthersThan(Renumbered(ordered, |s|), mapping.id)))
  {
    PutRowsUpserts(models, ordered, mapping.id, |s|);
    PutRowsNumber(models, s, mapping, ordered, |s|);
    assert s[..|s|] == s;
  }

  // ---- Where the new model comes -----------------------------------------------------------

  function Anchor(models: seq<Model>, s: seq<nat>, id: string): (r: Option<nat>)
    ensures r.Some? ==> r.value < |s|
  {
    if s == [] then None
    else if s[0] < |models| && models[s[0]].id == id then Some(0)
    else
      var rest := Anchor(models, s[1..], id);
      if rest.None? then None else Some(rest.value + 1)
  }

  /** The first place in the order of the model with this ID. */
  lemma {:induction false} AnchorExactly(models: seq<Model>, s: seq<nat>, id: string)
    requires AllBelow(s, |models|)
    ensures var r := Anchor(models, s, id);
            && (r.Some? ==> models[s[r.value]].id == id)
            && forall k | 0 <= k < (if r.Some? then r.value else |s|) :: models[s[k]].id != id
  {
    if s != [] && models[s[0]].id != id { AnchorExactly(models, s[1..], id); }
  }

  /** The group's order with the new model in its place. */
  function WithNew(models: seq<Model>, c: Choice, index: nat): seq<nat> {
    var s := GroupModels(models, c.groupId);
    match c.place
    case AtFirst => [index] + s
    case AtLast => s + [index]
    case Behind(id) =>
      var at := Anchor(models, s, id);
      if at.None? then s else Spliced(s, at.value + 1, index)
  }

  /** Nothing of this group is different. */
  ghost predicate SameGroup(a: seq<Model>, b: seq<Model>, g: string) {
    && (forall i | 0 <= i < |a| && a[i].groupId == g :: i < |b| && b[i] == a[i])
    && (forall i | 0 <= i < |b| && b[i].groupId == g :: i < |a| && a[i].groupId == g)
  }

  lemma SameOrder(a: seq<Model>, b: seq<Model>, g: string)
    requires SameGroup(a, b, g)
    ensures GroupModels(a, g) == GroupModels(b, g)
  {
    var s := GroupModels(a, g);
    GroupModelsIs(a, g, s);
    forall i, j | 0 <= i < j < |s| ensures Before(b, s[i], s[j]) {
      assert s[i] in s && s[j] in s && Before(a, s[i], s[j]);
    }
    GroupModelsIs(b, g, s);
  }

  lemma FirstOrder(list: seq<Model>, m: Model)
    requires forall i | 0 <= i < |list| && list[i].groupId == m.groupId :: Order(m) < Order(list[i])
    ensures GroupModels(list + [m], m.groupId) == [|list|] + GroupModels(list, m.groupId)
  {
    var g, all := m.groupId, list + [m];
    var s := GroupModels(list, g);
    var t: seq<nat> := [|list|] + s;
    GroupModelsIs(list, g, s);
    forall a, b | 0 <= a < b < |t| ensures Before(all, t[a], t[b]) {
      assert s[b - 1] in s;
      if a > 0 { assert Before(list, s[a - 1], s[b - 1]); }
    }
    GroupModelsIs(all, g, t);
  }

  lemma LastOrder(list: seq<Model>, m: Model)
    requires forall i | 0 <= i < |list| && list[i].groupId == m.groupId :: Order(list[i]) <= Order(m)
    ensures GroupModels(list + [m], m.groupId) == GroupModels(list, m.groupId) + [|list|]
  {
    var g, all := m.groupId, list + [m];
    var s := GroupModels(list, g);
    var t: seq<nat> := s + [|list|];
    GroupModelsIs(list, g, s);
    forall a, b | 0 <= a < b < |t| ensures Before(all, t[a], t[b]) {
      assert s[a] in s;
      if b < |s| { assert Before(list, s[a], s[b]); }
    }
    GroupModelsIs(all, g, t);
  }

  /** A group whose members, the last among them, are numbered in this order is listed in it. */
  lemma NumberedOrder(list: seq<Model>, g: string, t: seq<nat>)
    requires forall i {:trigger i in t} :: i in t <==> 0 <= i < |list| && list[i].groupId == g
    requires forall q | 0 <= q < |t| :: t[q] < |list| && Order(list[t[q]]) == q
    ensures GroupModels(list, g) == t
  {
    GroupModelsIs(list, g, t);
  }

  lemma GroupSpliced(base: seq<Model>, g: string, at: nat)
    requires at <= |GroupModels(base, g)|
    ensures var t := Spliced(GroupModels(base, g), at, |base|);
            Distinct(t) && UpTo(t, |base|) && forall q | 0 <= q < |t| && t[q] < |base| :: base[t[q]].groupId == g
  {
    var s := GroupModels(base, g);
    GroupModelsIs(base, g, s);
    SortedDistinct(base, s);
    SplicedDistinct(s, at, |base|);
    SplicedHas(s, at, |base|);
    forall q | 0 <= q < |s| + 1 && Spliced(s, at, |base|)[q] < |base|
      ensures base[Spliced(s, at, |base|)[q]].groupId == g
    {
      assert Spliced(s, at, |base|)[q] in Spliced(s, at, |base|);
    }
  }

  predicate AllBelow(s: seq<nat>, n: nat) { forall k | 0 <= k < |s| :: s[k] < n }

  lemma PeersBelow(models: seq<Model>, g: string)
    ensures AllBelow(GroupModels(models, g), |models|)
  {
    var s := GroupModels(models, g);
    GroupModelsIs(models, g, s);
    forall k | 0 <= k < |s| ensures s[k] < |models| { assert s[k] in s; }
  }

  /** Behind another model: the group numbered around the new one, wherever the new one comes in the list. */
  lemma BehindOrder(base: seq<Model>, now: seq<Model>, tail: seq<Model>, m: Model, at: nat)
    requires at <= |GroupModels(base, m.groupId)| && m.sortOrder == Some(at)
    requires forall n | n in tail :: n.groupId != m.groupId
    requires IsNumbered(base, Spliced(GroupModels(base, m.groupId), at, |base|), now)
    ensures GroupModels(now + tail + [m], m.groupId) == Spliced(GroupModels(base, m.groupId), at, |base| + |tail|)
  {
    var g, s := m.groupId, GroupModels(base, m.groupId);
    var u := Spliced(s, at, |base| + |tail|);
    GroupModelsIs(base, g, s);
    SplicedHas(s, at, |base| + |tail|);
    AreMembers(base, now, tail, m, s, u);
    SplicedOrders(now, tail, m, s, at);
    NumberedOrder(now + tail + [m], g, u);
  }

  lemma SplicedOrders(now: seq<Model>, tail: seq<Model>, m: Model, s: seq<nat>, at: nat)
    requires at <= |s| && m.sortOrder == Some(at) && forall y | y in s :: y < |now|
    requires var t := Spliced(s, at, |now|); forall q | 0 <= q < |t| && t[q] < |now| :: now[t[q]].sortOrder == Some(q)
    ensures var u, list := Spliced(s, at, |now| + |tail|), now + tail + [m];
            forall q | 0 <= q < |u| :: u[q] < |list| && Order(list[u[q]]) == q
  {
    SplicedHas(s, at, |now|);
    SplicedHas(s, at, |now| + |tail|);
    var t, u, list := Spliced(s, at, |now|), Spliced(s, at, |now| + |tail|), now + tail + [m];
    forall q | 0 <= q < |u| ensures u[q] < |list| && Order(list[u[q]]) == q {
      if q != at { assert u[q] == t[q] && t[q] in s; }
    }
  }

  lemma AreMembers(base: seq<Model>, now: seq<Model>, tail: seq<Model>, m: Model, s: seq<nat>, u: seq<nat>)
    requires |now| == |base| && forall i | 0 <= i < |base| :: now[i].groupId == base[i].groupId
    requires forall n | n in tail :: n.groupId != m.groupId
    requires forall i {:trigger i in s} :: i in s <==> 0 <= i < |base| && base[i].groupId == m.groupId
    requires forall y {:trigger y in u} :: y in u <==> y in s || y == |base| + |tail|
    ensures forall i {:trigger i in u} :: i in u <==>
        0 <= i < |now + tail + [m]| && (now + tail + [m])[i].groupId == m.groupId
  {
    var list := now + tail + [m];
    forall i ensures i in u <==> 0 <= i < |list| && list[i].groupId == m.groupId {
      if |base| <= i < |list| - 1 { assert list[i] == tail[i - |base|] && tail[i - |base|] in tail; }
    }
  }

  lemma SplicedHas(s: seq<nat>, at: nat, x: nat)
    requires at <= |s|
    ensures forall y :: y in Spliced(s, at, x) <==> y in s || y == x
    ensures forall k | 0 <= k <= |s| :: Spliced(s, at, x)[k] == if k < at then s[k] else if k == at then x else s[k - 1]
  {
    assert s == s[..at] + s[at..];
  }

  lemma SplicedDistinct(s: seq<nat>, at: nat, x: nat)
    requires at <= |s| && Distinct(s) && forall y | y in s :: y < x
    ensures Distinct(Spliced(s, at, x)) && UpTo(Spliced(s, at, x), x)
  {
    SplicedHas(s, at, x);
    var t := Spliced(s, at, x);
    forall a, b | 0 <= a < b < |t| ensures t[a] != t[b] {
      if a == at { assert t[b] in s; }
      if b == at { assert t[a] in s; }
    }
    forall k | 0 <= k < |t| ensures t[k] <= x { assert t[k] in t; }
  }

  // ---- The listing -------------------------------------------------------------------------

  predicate InGroup(models: seq<Model>, g: string, exposed: string) {
    exists m | m in models :: m.groupId == g && (m.exposed == exposed || exposed in m.aliases)
  }

  /** The model can be listed in this group, at this place. */
  predicate Listable(models: seq<Model>, groups: map<string, string>, tables: set<string>, c: Choice, exposed: string) {
    && c.groupId in groups && groups[c.groupId] in tables && !InGroup(models, c.groupId, exposed)
    && (c.place.Behind? ==> Anchor(models, GroupModels(models, c.groupId), c.place.id).Some?)
  }

  /** In this group some entry is called so, or is also known so. */
  predicate IsNamed(models: seq<Model>, g: string, exposed: string, i: nat)
    requires i < |models|
  {
    models[i].groupId == g && exposed in [models[i].exposed] + models[i].aliases
  }

  /** Why a group cannot take the model: the first of these reasons that there is. */
  ghost predicate IsWhy(models: seq<Model>, groups: map<string, string>, tables: set<string>, c: Choice,
                        exposed: string,
                        why: Refusal) {
    var named := exists i: nat :: i < |models| && IsNamed(models, c.groupId, exposed, i);
    match why
    case SameGroupTwice => false
    case NoSuchGroup => c.groupId !in groups
    case NoPriceTable => c.groupId in groups && groups[c.groupId] !in tables
    case AlreadyListed => c.groupId in groups && groups[c.groupId] in tables && named
    case AnchorGone =>
      && c.groupId in groups && groups[c.groupId] in tables && !named
      && c.place.Behind? && forall m | m in models && m.groupId == c.groupId :: m.id != c.place.id
  }

  lemma NamedIs(models: seq<Model>, g: string, exposed: string)
    ensures InGroup(models, g, exposed) <==> exists i: nat :: i < |models| && IsNamed(models, g, exposed, i)
  {
    if m :| m in models && m.groupId == g && (m.exposed == exposed || exposed in m.aliases) {
      var i: nat :| i < |models| && models[i] == m;
      assert IsNamed(models, g, exposed, i);
    }
  }

  lemma AnchorIs(models: seq<Model>, g: string, id: string)
    ensures Anchor(models, GroupModels(models, g), id).None? <==> forall m | m in models && m.groupId == g :: m.id != id
  {
    var peers := GroupModels(models, g);
    PeersBelow(models, g);
    GroupModelsIs(models, g, peers);
    AnchorExactly(models, peers, id);
    var anchor := Anchor(models, peers, id);
    if anchor.Some? {
      assert peers[anchor.value] in peers && models[peers[anchor.value]] in models;
    }
    if m :| m in models && m.groupId == g && m.id == id {
      var i: nat :| i < |models| && models[i] == m;
      assert i in peers;
      var k :| 0 <= k < |peers| && peers[k] == i;
    }
  }

  /** A group can take the model exactly if there is no reason against it. */
  lemma ListableExactly(models: seq<Model>, groups: map<string, string>, tables: set<string>, c: Choice,
                        exposed: string)
    ensures Listable(models, groups, tables, c, exposed) <==>
        forall why :: !IsWhy(models, groups, tables, c, exposed, why)
  {
    NamedIs(models, c.groupId, exposed);
    if c.place.Behind? { AnchorIs(models, c.groupId, c.place.id); }
    assert IsWhy(models, groups, tables, c, exposed, NoSuchGroup) <==> c.groupId !in groups;
    if !Listable(models, groups, tables, c, exposed) {
      assert IsWhy(models, groups, tables, c, exposed, NoSuchGroup)
        || IsWhy(models, groups, tables, c, exposed, NoPriceTable)
             || IsWhy(models, groups, tables, c, exposed, AlreadyListed)
               || IsWhy(models, groups, tables, c, exposed, AnchorGone);
    }
  }

  /** The new entry: of its group, under its name alone, with what it is to carry. */
  predicate IsEntry(m: Model, c: Choice, exposed: string, rest: string) {
    m == Model(m.id, c.groupId, exposed, [], m.sortOrder, rest)
  }

  lemma SameName(models: seq<Model>, list: seq<Model>, g: string, exposed: string, i: nat)
    requires OnlyPlaces(models, list) && i < |models|
    ensures IsNamed(list, g, exposed, i) <==> IsNamed(models, g, exposed, i)
  {
    assert list[i] == models[i].(sortOrder := list[i].sortOrder);
  }

  /** In a chosen group the new entry, and no other, is called so. */
  lemma ListedOnce(models: seq<Model>, groups: map<string, string>, tables: set<string>, chosen: seq<Choice>,
                   list: seq<Model>, exposed: string, k: nat, i: nat)
    requires k < |chosen| && DistinctGroups(chosen) && IsListed(models, chosen, |chosen|, list, exposed)
    requires Listable(models, groups, tables, chosen[k], exposed) && i < |list|
    ensures IsNamed(list, chosen[k].groupId, exposed, i) <==> i == |models| + k
  {
    NamedIs(models, chosen[k].groupId, exposed);
    if i < |models| {
      SameName(models, list, chosen[k].groupId, exposed, i);
    } else {
      assert IsInPlace(models, chosen[i - |models|], list, i, exposed);
    }
  }

  predicate DistinctGroups(chosen: seq<Choice>) {
    forall i, j | 0 <= i < j < |chosen| :: chosen[i].groupId != chosen[j].groupId
  }

  predicate Chosen(chosen: seq<Choice>, k: nat, g: string)
    requires k <= |chosen|
  {
    exists j :: 0 <= j < k && chosen[j].groupId == g
  }

  /** The new model of a chosen group is in its place. */
  predicate IsInPlace(models: seq<Model>, c: Choice, list: seq<Model>, index: nat, exposed: string) {
    && index < |list| && list[index].groupId == c.groupId && list[index].exposed == exposed
    && GroupModels(list, c.groupId) == WithNew(models, c, index)
  }

  /** Of the first `k` chosen groups each has its new model in its place; no other model or group is different. */
  ghost predicate IsListed(models: seq<Model>, chosen: seq<Choice>, k: nat, list: seq<Model>, exposed: string)
    requires k <= |chosen|
  {
    && |list| == |models| + k && UniqueIds(list) && OnlyPlaces(models, list)
    && (forall j | 0 <= j < k :: IsInPlace(models, chosen[j], list, |models| + j, exposed))
    && (forall g | !Chosen(chosen, k, g) :: SameGroup(models, list, g))
  }

  /** One more model at the end, its group alone different. */
  ghost predicate IsStep(list: seq<Model>, more: seq<Model>, g: string) {
    && |more| == |list| + 1 && UniqueIds(more) && OnlyPlaces(list, more) && more[|list|].groupId == g
    && forall i | 0 <= i < |list| && list[i].groupId != g :: more[i] == list[i]
  }

  lemma StillInPlace(models: seq<Model>, c: Choice, list: seq<Model>, more: seq<Model>, g: string, index: nat,
                     exposed: string)
    requires IsStep(list, more, g) && c.groupId != g && IsInPlace(models, c, list, index, exposed)
    ensures IsInPlace(models, c, more, index, exposed)
  {
    SameOrder(list, more, c.groupId);
  }

  lemma ListedStep(models: seq<Model>, chosen: seq<Choice>, k: nat, list: seq<Model>, more: seq<Model>, exposed: string)
    requires k < |chosen| && DistinctGroups(chosen) && IsListed(models, chosen, k, list, exposed)
    requires IsStep(list, more, chosen[k].groupId) && IsInPlace(models, chosen[k], more, |list|, exposed)
    ensures IsListed(models, chosen, k + 1, more, exposed)
  {
    forall j | 0 <= j < k ensures IsInPlace(models, chosen[j], more, |models| + j, exposed) {
      StillInPlace(models, chosen[j], list, more, chosen[k].groupId, |models| + j, exposed);
    }
    forall g | !Chosen(chosen, k + 1, g) ensures SameGroup(models, more, g) {
      assert chosen[k].groupId != g;
      assert !Chosen(chosen, k, g);
      assert SameGroup(models, list, g);
      SameGroupOn(models, list, more, chosen[k].groupId, g);
    }
  }

  lemma SameGroupOn(models: seq<Model>, list: seq<Model>, more: seq<Model>, changed: string, g: string)
    requires SameGroup(models, list, g) && IsStep(list, more, changed) && g != changed
    ensures SameGroup(models, more, g)
  {
  }

  function Lowest(models: seq<Model>, s: seq<nat>): (r: int)
    requires s != [] && AllBelow(s, |models|)
    ensures forall k | 0 <= k < |s| :: r <= Order(models[s[k]])
  {
    if |s| == 1 then Order(models[s[0]])
    else
      var rest := Lowest(models, s[1..]);
      if Order(models[s[0]]) < rest then Order(models[s[0]]) else rest
  }

  function Highest(models: seq<Model>, s: seq<nat>): (r: int)
    requires s != [] && AllBelow(s, |models|)
    ensures forall k | 0 <= k < |s| :: r >= Order(models[s[k]])
  {
    if |s| == 1 then Order(models[s[0]])
    else
      var rest := Highest(models, s[1..]);
      if Order(models[s[0]]) > rest then Order(models[s[0]]) else rest
  }

  /** The new entry in a group: its place number, for a place at an end. */
  function EndOrder(models: seq<Model>, peers: seq<nat>, place: Place): int
    requires AllBelow(peers, |models|)
  {
    if peers == [] then 0 else if place.AtFirst? then Lowest(models, peers) - 1 else Highest(models, peers) + 1
  }

  /** Every model's number in the group, 0 for one without. */
  ghost function NumbersIn(models: seq<Model>, g: string): iset<int> {
    iset m | m in models && m.groupId == g :: match m.sortOrder { case None => 0 case Some(n) => n }
  }

  /** The number next to the outermost of these; 0 if there is none. */
  ghost predicate IsNextTo(numbers: iset<int>, place: Place, n: int) {
    if numbers == iset{} then n == 0
    else match place
         case AtFirst => n + 1 in numbers && forall k | k in numbers :: n < k
         case AtLast => n - 1 in numbers && forall k | k in numbers :: k < n
         case Behind(_) => true
  }

  /** The new entry's number, for a place at an end: one before the least of the group's, or behind the greatest. */
  ghost predicate HasNumber(models: seq<Model>, c: Choice, m: Model) {
    !c.place.Behind? ==> m.sortOrder.Some? && IsNextTo(NumbersIn(models, c.groupId), c.place, m.sortOrder.value)
  }

  lemma {:induction false} LowestReached(models: seq<Model>, s: seq<nat>) returns (k: nat)
    requires s != [] && AllBelow(s, |models|)
    ensures k < |s| && Order(models[s[k]]) == Lowest(models, s)
  {
    k := 0;
    if |s| > 1 {
      var later := LowestReached(models, s[1..]);
      if Order(models[s[0]]) >= Lowest(models, s[1..]) { k := later + 1; }
    }
  }

  lemma {:induction false} HighestReached(models: seq<Model>, s: seq<nat>) returns (k: nat)
    requires s != [] && AllBelow(s, |models|)
    ensures k < |s| && Order(models[s[k]]) == Highest(models, s)
  {
    k := 0;
    if |s| > 1 {
      var later := HighestReached(models, s[1..]);
      if Order(models[s[0]]) <= Highest(models, s[1..]) { k := later + 1; }
    }
  }

  lemma NumbersAre(models: seq<Model>, g: string)
    ensures var s := GroupModels(models, g);
            AllBelow(s, |models|) && forall n :: n in NumbersIn(models, g) <==>
              exists k :: 0 <= k < |s| && Order(models[s[k]]) == n
  {
    var s := GroupModels(models, g);
    PeersBelow(models, g);
    GroupModelsIs(models, g, s);
    forall n | n in NumbersIn(models, g) ensures exists k :: 0 <= k < |s| && Order(models[s[k]]) == n {
      var m :| m in models && m.groupId == g && n == match m.sortOrder { case None => 0 case Some(n) => n };
      var i :| 0 <= i < |models| && models[i] == m;
      assert i in s;
      var k :| 0 <= k < |s| && s[k] == i;
    }
    forall k | 0 <= k < |s| ensures Order(models[s[k]]) in NumbersIn(models, g) {
      assert s[k] in s;
      assert models[s[k]] in models && models[s[k]].groupId == g;
    }
  }

  lemma EndOrderIs(models: seq<Model>, g: string, place: Place)
    ensures AllBelow(GroupModels(models, g), |models|)
    ensures !place.Behind? ==> IsNextTo(NumbersIn(models, g), place, EndOrder(models, GroupModels(models, g), place))
  {
    var s := GroupModels(models, g);
    NumbersAre(models, g);
    if s == [] {
      assert NumbersIn(models, g) == iset{};
    } else {
      assert Order(models[s[0]]) in NumbersIn(models, g);
      var low := LowestReached(models, s);
      var high := HighestReached(models, s);
      assert Order(models[s[low]]) in NumbersIn(models, g) && Order(models[s[high]]) in NumbersIn(models, g);
    }
  }

  /** Where the work on the chosen groups stands: the models with the rows sent so far, then the new ones. */
  ghost predicate IsSoFar(models: seq<Model>, chosen: seq<Choice>, k: nat, base: seq<Model>, mappings: seq<Model>,
                          exposed: string, taken: set<string>)
    requires k <= |chosen|
  {
    |base| == |models| && |mappings| == k && IsListed(models, chosen, k, base + mappings, exposed)
    && forall m | m in base + mappings :: m.id in taken
  }

  lemma StepIds(list: seq<Model>, base: seq<Model>, mappings: seq<Model>, m: Model, taken: set<string>)
    requires |base| + |mappings| == |list| && UniqueIds(list) && m.id !in taken && forall n | n in list :: n.id in taken
    requires forall i | 0 <= i < |list| :: (base + mappings)[i].id == list[i].id
    ensures UniqueIds(base + mappings + [m]) && forall n | n in base + mappings + [m] :: n.id in taken + {m.id}
  {
    var all := base + mappings + [m];
    forall i | 0 <= i < |all|
      ensures all[i].id in taken + {m.id} && (i < |list| ==> all[i].id == list[i].id && all[i].id in taken)
    {
      if i < |list| { assert all[i] == (base + mappings)[i] && list[i] in list; }
    }
    forall i, j | 0 <= i < j < |all| ensures all[i].id != all[j].id {
      assert i < |list|;
    }
  }

  lemma UntouchedGroup(models: seq<Model>, chosen: seq<Choice>, k: nat, base: seq<Model>, mappings: seq<Model>,
                       exposed: string, taken: set<string>)
    requires k < |chosen| && DistinctGroups(chosen) && IsSoFar(models, chosen, k, base, mappings, exposed, taken)
    ensures var g := chosen[k].groupId;
            && SameGroup(models, base + mappings, g) && SameGroup(models, base, g)
            && (forall n | n in mappings :: n.groupId != g)
            && GroupModels(base + mappings, g) == GroupModels(models, g)
            && GroupModels(base, g) == GroupModels(models, g)
  {
    var g, list := chosen[k].groupId, base + mappings;
    assert !Chosen(chosen, k, g);
    assert SameGroup(models, list, g);
    assert forall i | 0 <= i < |base| :: list[i] == base[i];
    forall n | n in mappings ensures n.groupId != g {
      var j :| 0 <= j < |mappings| && mappings[j] == n;
      assert list[|models| + j] == n;
    }
    SameOrder(models, list, g);
    SameOrder(models, base, g);
  }

  lemma PlaceAtEnd(models: seq<Model>, chosen: seq<Choice>, k: nat, base: seq<Model>, mappings: seq<Model>,
                   exposed: string, taken: set<string>, m: Model)
    requires k < |chosen| && DistinctGroups(chosen) && IsSoFar(models, chosen, k, base, mappings, exposed, taken)
    requires m.groupId == chosen[k].groupId && m.exposed == exposed && m.id !in taken && !chosen[k].place.Behind?
    requires var peers := GroupModels(models, m.groupId);
             AllBelow(peers, |models|) && m.sortOrder == Some(EndOrder(models, peers, chosen[k].place))
    ensures IsSoFar(models, chosen, k + 1, base, mappings + [m], exposed, taken + {m.id})
  {
    var g, list := m.groupId, base + mappings;
    var peers := GroupModels(models, g);
    UntouchedGroup(models, chosen, k, base, mappings, exposed, taken);
    StepIds(list, base, mappings, m, taken);
    GroupModelsIs(models, g, peers);
    forall i | 0 <= i < |list| && list[i].groupId == g
      ensures i in peers && list[i] == models[i]
      ensures if chosen[k].place.AtFirst? then Order(m) < Order(list[i]) else Order(list[i]) <= Order(m)
    {
      assert i in peers;
    }
    if chosen[k].place.AtFirst? { FirstOrder(list, m); } else { LastOrder(list, m); }
    assert base + (mappings + [m]) == list + [m];
    ListedStep(models, chosen, k, list, list + [m], exposed);
  }

  /** The rows sent for a place behind another model. */
  function RowsBehind(models: seq<Model>, peers: seq<nat>, at: nat, m: Model): seq<Model>
    requires at <= |peers| && AllBelow(peers, |models|)
  {
    var t := Spliced(peers, at, |models|);
    OthersThan(Renumbered(At(models + [m], t), |t|), m.id)
  }

  lemma PlaceBehind(models: seq<Model>, chosen: seq<Choice>, k: nat, base: seq<Model>, mappings: seq<Model>,
                    exposed: string, taken: set<string>, m: Model, at: nat)
    requires k < |chosen| && DistinctGroups(chosen) && IsSoFar(models, chosen, k, base, mappings, exposed, taken)
    requires m.exposed == exposed && m.id !in taken && IsBehind(models, chosen[k], m, at)
    ensures IsSoFar(models, chosen, k + 1, Upsert(base, RowsBehind(models, GroupModels(models, m.groupId), at, m)),
        mappings + [m], exposed, taken + {m.id})
  {
    var now := Upsert(base, RowsBehind(models, GroupModels(models, m.groupId), at, m));
    UntouchedGroup(models, chosen, k, base, mappings, exposed, taken);
    UniqueBase(base, mappings, m, taken);
    RowsBehindDo(models, base, at, m);
    BehindFacts(models, base, now, mappings, chosen[k], m, at, taken);
    SoFarStep(models, chosen, k, base, now, mappings, exposed, taken, m);
  }

  /** The new entry is numbered to come right behind the model its place names. */
  predicate IsBehind(models: seq<Model>, c: Choice, m: Model, at: nat) {
    var peers := GroupModels(models, c.groupId);
    && AllBelow(peers, |models|) && m.groupId == c.groupId && m.sortOrder == Some(at) && c.place.Behind?
    && Anchor(models, peers, c.place.id).Some? && at == Anchor(models, peers, c.place.id).value + 1
  }

  lemma BehindFacts(models: seq<Model>, base: seq<Model>, now: seq<Model>, mappings: seq<Model>, c: Choice, m: Model,
                    at: nat, taken: set<string>)
    requires UniqueIds(base + mappings) && m.id !in taken && forall n | n in base + mappings :: n.id in taken
    requires IsBehind(models, c, m, at) && GroupModels(base, m.groupId) == GroupModels(models, m.groupId)
        && forall n | n in mappings :: n.groupId != m.groupId
    requires IsNumbered(base, Spliced(GroupModels(models, m.groupId), at, |base|), now)
    ensures var more := now + mappings + [m];
            && IsStep(base + mappings, more, m.groupId) && IsInPlace(models, c, more, |more| - 1, m.exposed)
            && forall n | n in more :: n.id in taken + {m.id}
  {
    var peers, more := GroupModels(models, m.groupId), now + mappings + [m];
    BehindMore(base, now, mappings, m, at, peers, more, taken);
    InPlaceBehind(models, c, more, at, peers, m.exposed);
  }

  lemma InPlaceBehind(models: seq<Model>, c: Choice, more: seq<Model>, at: nat, peers: seq<nat>, exposed: string)
    requires more != [] && more[|more| - 1].groupId == c.groupId && more[|more| - 1].exposed == exposed
        && c.place.Behind? && peers == GroupModels(models, c.groupId)
    requires Anchor(models, peers, c.place.id).Some? && at == Anchor(models, peers, c.place.id).value + 1
    requires GroupModels(more, c.groupId) == Spliced(peers, at, |more| - 1)
    ensures IsInPlace(models, c, more, |more| - 1, exposed)
  {
  }

  lemma SoFarStep(models: seq<Model>, chosen: seq<Choice>, k: nat, base: seq<Model>, now: seq<Model>,
                  mappings: seq<Model>, exposed: string,
                  taken: set<string>, m: Model)
    requires k < |chosen| && DistinctGroups(chosen) && IsSoFar(models, chosen, k, base, mappings, exposed, taken)
        && |now| == |base|
    requires IsStep(base + mappings, now + mappings + [m], chosen[k].groupId)
    requires IsInPlace(models, chosen[k], now + mappings + [m], |now + mappings|, exposed)
    requires forall n | n in now + mappings + [m] :: n.id in taken + {m.id}
    ensures IsSoFar(models, chosen, k + 1, now, mappings + [m], exposed, taken + {m.id})
  {
    assert now + (mappings + [m]) == now + mappings + [m];
    ListedStep(models, chosen, k, base + mappings, now + mappings + [m], exposed);
  }

  /** The list with the group numbered around the new entry. */
  lemma BehindMore(base: seq<Model>, now: seq<Model>, mappings: seq<Model>, m: Model, at: nat, peers: seq<nat>,
                   more: seq<Model>, taken: set<string>)
    requires UniqueIds(base + mappings) && m.id !in taken && forall n | n in base + mappings :: n.id in taken
    requires peers == GroupModels(base, m.groupId) && at <= |peers|
    requires m.sortOrder == Some(at) && forall n | n in mappings :: n.groupId != m.groupId
    requires IsNumbered(base, Spliced(peers, at, |base|), now) && more == now + mappings + [m]
    ensures IsStep(base + mappings, more, m.groupId) && more[|more| - 1] == m
    ensures GroupModels(more, m.groupId) == Spliced(peers, at, |more| - 1)
    ensures forall n | n in more :: n.id in taken + {m.id}
  {
    GroupSpliced(base, m.groupId, at);
    BehindOrder(base, now, mappings, m, at);
    StepIds(base + mappings, now, mappings, m, taken);
    OthersAsBefore(base, Spliced(peers, at, |base|), now, m.groupId);
    BehindStep(base, now, mappings, m);
  }

  lemma BehindStep(base: seq<Model>, now: seq<Model>, mappings: seq<Model>, m: Model)
    requires |now| == |base| && OnlyPlaces(base, now) && UniqueIds(now + mappings + [m])
    requires forall i | 0 <= i < |base| && base[i].groupId != m.groupId :: now[i] == base[i]
    ensures IsStep(base + mappings, now + mappings + [m], m.groupId)
  {
  }

  lemma RowsBehindDo(models: seq<Model>, base: seq<Model>, at: nat, m: Model)
    requires |base| == |models| && SameGroup(models, base, m.groupId) && UniqueIds(base + [m])
    requires GroupModels(base, m.groupId) == GroupModels(models, m.groupId)
    requires at <= |GroupModels(models, m.groupId)| && AllBelow(GroupModels(models, m.groupId), |models|)
    ensures IsNumbered(base, Spliced(GroupModels(models, m.groupId), at, |base|),
        Upsert(base, RowsBehind(models, GroupModels(models, m.groupId), at, m)))
  {
    var t := Spliced(GroupModels(models, m.groupId), at, |models|);
    GroupSpliced(models, m.groupId, at);
    SameRows(models, base, m.groupId, t, m);
    RowsNumber(base, t, m, At(base + [m], t));
  }

  lemma UniqueBase(base: seq<Model>, mappings: seq<Model>, m: Model, taken: set<string>)
    requires UniqueIds(base + mappings) && m.id !in taken && forall n | n in base + mappings :: n.id in taken
    ensures UniqueIds(base + [m])
  {
    forall i, j | 0 <= i < j < |base + [m]| ensures (base + [m])[i].id != (base + [m])[j].id {
      assert (base + mappings)[i] == base[i] && base[i] in base + mappings;
      if j < |base| { assert (base + mappings)[j] == base[j]; }
    }
  }

  lemma SameRows(models: seq<Model>, base: seq<Model>, g: string, t: seq<nat>, m: Model)
    requires |base| == |models| && SameGroup(models, base, g) && UpTo(t, |models|)
    requires forall q | 0 <= q < |t| && t[q] < |models| :: models[t[q]].groupId == g
    ensures At(models + [m], t) == At(base + [m], t)
  {
  }

  lemma OthersAsBefore(base: seq<Model>, t: seq<nat>, now: seq<Model>, g: string)
    requires IsNumbered(base, t, now) && forall q | 0 <= q < |t| && t[q] < |base| :: base[t[q]].groupId == g
    ensures forall i | 0 <= i < |base| && base[i].groupId != g :: now[i] == base[i]
  {
  }

  /** The new entry of one chosen group, and the rows its place moves. */
  method PlaceOne(models: seq<Model>, groups: map<string, string>, tables: set<string>, chosen: seq<Choice>, k: nat,
                  exposed: string, rest: string,
                  head: string, taken: set<string>, ghost base: seq<Model>, ghost mappings: seq<Model>)
    returns (why: Option<Refusal>, m: Model, rows: seq<Model>)
    requires k < |chosen| && DistinctGroups(chosen) && IsSoFar(models, chosen, k, base, mappings, exposed, taken)
    ensures why.None? <==> Listable(models, groups, tables, chosen[k], exposed)
    ensures why.None? ==> IsSoFar(models, chosen, k + 1, Upsert(base, rows), mappings + [m], exposed, taken + {m.id})
    ensures why.None? ==> IsEntry(m, chosen[k], exposed, rest) && HasNumber(models, chosen[k], m)
    ensures why.Some? ==> IsWhy(models, groups, tables, chosen[k], exposed, why.value)
  {
    NamedIs(models, chosen[k].groupId, exposed);
    if chosen[k].place.Behind? { AnchorIs(models, chosen[k].groupId, chosen[k].place.id); }
    var c := chosen[k];
    rows := [];
    var id := FreshId(head, taken);
    m := Model(id, c.groupId, exposed, [], Some(0), rest);
    why := None;
    if c.groupId !in groups { why := Some(NoSuchGroup); return; }
    if groups[c.groupId] !in tables { why := Some(NoPriceTable); return; }
    if InGroup(models, c.groupId, exposed) { why := Some(AlreadyListed); return; }
    var peers := GroupModels(models, c.groupId);
    PeersBelow(models, c.groupId);
    if c.place.Behind? {
      var anchor := Anchor(models, peers, c.place.id);
      if anchor.None? { why := Some(AnchorGone); return; }
      m := Model(id, c.groupId, exposed, [], Some(anchor.value + 1), rest);
      rows := RowsBehind(models, peers, anchor.value + 1, m);
      PlaceBehind(models, chosen, k, base, mappings, exposed, taken, m, anchor.value + 1);
    } else {
      EndOrderIs(models, c.groupId, c.place);
      m := Model(id, c.groupId, exposed, [], Some(EndOrder(models, peers, c.place)), rest);
      PlaceAtEnd(models, chosen, k, base, mappings, exposed, taken, m);
    }
  }

  /** The new entries of the first `k` chosen groups, each one that can be made, are as they are to be. */
  ghost predicate AreEntries(models: seq<Model>, groups: map<string, string>, tables: set<string>, chosen: seq<Choice>,
                             k: nat, exposed: string, rest: string, mappings: seq<Model>)
    requires k <= |chosen|
  {
    |mappings| == k && forall j | 0 <= j < k ::
      && Listable(models, groups, tables, chosen[j], exposed)
      && IsEntry(mappings[j], chosen[j], exposed, rest) && HasNumber(models, chosen[j], mappings[j])
  }

  lemma EntryMore(models: seq<Model>, groups: map<string, string>, tables: set<string>, chosen: seq<Choice>,
                  k: nat, exposed: string, rest: string, mappings: seq<Model>, m: Model)
    requires k < |chosen| && AreEntries(models, groups, tables, chosen, k, exposed, rest, mappings)
    requires Listable(models, groups, tables, chosen[k], exposed) && IsEntry(m, chosen[k], exposed, rest)
        && HasNumber(models, chosen[k], m)
    ensures AreEntries(models, groups, tables, chosen, k + 1, exposed, rest, mappings + [m])
  {
  }

  /** One chosen group after the other. */
  method PlaceEach(models: seq<Model>, groups: map<string, string>, tables: set<string>, chosen: seq<Choice>,
                   exposed: string, rest: string, head: string)
    returns (why: Option<Refusal>, moved: seq<Model>, mappings: seq<Model>)
    requires UniqueIds(models) && DistinctGroups(chosen)
    ensures why.None? ==> IsListed(models, chosen, |chosen|, Upsert(models, moved + mappings), exposed)
    ensures why.None? ==> AreEntries(models, groups, tables, chosen, |chosen|, exposed, rest, mappings)
    ensures why.Some? ==> why.value != SameGroupTwice
    ensures why.Some? ==>
        exists k ::
          && 0 <= k < |chosen| && IsWhy(models, groups, tables, chosen[k], exposed, why.value)
          && !Listable(models, groups, tables, chosen[k], exposed)
  {
    var taken := set m | m in models :: m.id;
    why, moved, mappings := None, [], [];
    StartsListed(models, chosen, exposed, taken);
    for k := 0 to |chosen|
      invariant why.None? && IsSoFar(models, chosen, k, Upsert(models, moved), mappings, exposed, taken)
      invariant AreEntries(models, groups, tables, chosen, k, exposed, rest, mappings)
    {
      var m, rows;
      why, m, rows :=
        PlaceOne(models, groups, tables, chosen, k, exposed, rest, head, taken, Upsert(models, moved), mappings);
      if why.Some? { return; }
      UpsertBoth(models, moved, rows);
      EntryMore(models, groups, tables, chosen, k, exposed, rest, mappings, m);
      moved, mappings, taken := moved + rows, mappings + [m], taken + {m.id};
    }
    UpsertBoth(models, moved, mappings);
    UpsertNew(Upsert(models, moved), mappings);
  }

  /** `head`: the readable part of the new entries' IDs; `rest`: what else the entries carry. */
  method PlaceModels(models: seq<Model>, groups: map<string, string>, tables: set<string>, chosen: seq<Choice>,
                     exposed: string, rest: string, head: string)
    returns (r: Placed)
    requires UniqueIds(models)
    ensures r.Placed? <==>
        DistinctGroups(chosen) && forall k | 0 <= k < |chosen| :: Listable(models, groups, tables, chosen[k], exposed)
    ensures r.Placed? ==>
        |r.mappings| == |chosen| && IsListed(models, chosen, |chosen|, Upsert(models, r.moved + r.mappings), exposed)
    ensures r.Placed? ==> forall k | 0 <= k < |chosen| :: IsEntry(r.mappings[k], chosen[k], exposed, rest)
    ensures r.Placed? ==> forall k | 0 <= k < |chosen| :: HasNumber(models, chosen[k], r.mappings[k])
    ensures r == Refused(SameGroupTwice) <==>
        exists i, j :: 0 <= i < |chosen| && 0 <= j < |chosen| && i != j && chosen[i].groupId == chosen[j].groupId
    ensures r.Refused? && DistinctGroups(chosen) ==>
        exists k :: 0 <= k < |chosen| && IsWhy(models, groups, tables, chosen[k], exposed, r.why)
  {
    if !DistinctGroups(chosen) { return Refused(SameGroupTwice); }
    var why, moved, mappings := PlaceEach(models, groups, tables, chosen, exposed, rest, head);
    r := if why.Some? then Refused(why.value) else Placed(moved, mappings);
  }

  lemma StartsListed(models: seq<Model>, chosen: seq<Choice>, exposed: string, taken: set<string>)
    requires UniqueIds(models) && forall m | m in models :: m.id in taken
    ensures IsSoFar(models, chosen, 0, models, [], exposed, taken)
  {
    assert models + [] == models;
  }
}
