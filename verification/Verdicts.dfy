/**
 * One verdict per item: it needs nothing, it is to be republished in place of what it has, or it is
 * refused. Two items that have the same thing must have it replaced by the same version.
 */
module Verdicts {
  datatype Verdict<K, V, P> = Already | Republish(instead: K, version: V) | Refuse(problem: P)

  predicate IsVersion<K, V(==), P>(verdict: Verdict<K, V, P>, v: V) { verdict.Republish? && verdict.version == v }

  /** Each new version is what some item has republished. */
  ghost predicate AreRepublished<M, K, V, P>(verdicts: map<M, Verdict<K, V, P>>, versions: seq<V>) {
    forall v | v in versions :: exists m :: m in verdicts && IsVersion(verdicts[m], v)
  }

  /** Both are republished, in place of two different things. */
  ghost predicate ComeApart<M, K, V, P>(verdicts: map<M, Verdict<K, V, P>>, v: V, w: V) {
    exists m, n :: m in verdicts && n in verdicts && IsVersion(verdicts[m], v) && IsVersion(verdicts[n], w)
      && verdicts[m].instead != verdicts[n].instead
  }

  /** No thing is replaced twice. */
  ghost predicate OnePerThing<M, K, V, P>(verdicts: map<M, Verdict<K, V, P>>, versions: seq<V>) {
    forall i, j | 0 <= i < j < |versions| :: ComeApart(verdicts, versions[i], versions[j])
  }

  ghost predicate FromChosen<M, K, V, P>(verdicts: map<M, Verdict<K, V, P>>, chosen: map<K, V>, v: V) {
    exists m :: m in verdicts && IsVersion(verdicts[m], v) && verdicts[m].instead in chosen
  }

  ghost predicate ChosenOnce<M, K, V, P>(verdicts: map<M, Verdict<K, V, P>>, chosen: map<K, V>, versions: seq<V>) {
    OnePerThing(verdicts, versions) && forall v | v in versions :: FromChosen(verdicts, chosen, v)
  }

  /** Every item needs nothing, or is republished. */
  ghost predicate AllRepublished<M, K, V, P>(verdicts: map<M, Verdict<K, V, P>>, versions: seq<V>) {
    forall m | m in verdicts :: verdicts[m].Already? || (verdicts[m].Republish? && verdicts[m].version in versions)
  }

  /** Nothing is refused, and two items that have the same thing would have it replaced alike. */
  ghost predicate Clean<M, K, V, P>(verdicts: map<M, Verdict<K, V, P>>) {
    && (forall m | m in verdicts :: !verdicts[m].Refuse?)
    && (forall m, n | m in verdicts && n in verdicts :: Agree(verdicts[m], verdicts[n]))
  }

  predicate Agree<K(==), V(==), P>(a: Verdict<K, V, P>, b: Verdict<K, V, P>) {
    a.Republish? && b.Republish? && a.instead == b.instead ==> a.version == b.version
  }

  /** Agrees with the version first chosen for what it has. */
  predicate Accepted<K(==), V(==), P>(verdict: Verdict<K, V, P>, chosen: map<K, V>) {
    !verdict.Refuse? && (verdict.Republish? ==> verdict.instead in chosen && chosen[verdict.instead] == verdict.version)
  }

  predicate Covered<K(==), V, P>(verdict: Verdict<K, V, P>, chosen: map<K, V>) {
    verdict.Republish? ==> verdict.instead in chosen
  }

  predicate Owns<M(==), K(==), V(==), P>(verdicts: map<M, Verdict<K, V, P>>, done: set<M>, chosen: map<K, V>,
                                         owner: map<K, M>, versions: seq<V>, k: K)
    requires k in chosen
  {
    k in owner && owner[k] in done && owner[k] in verdicts && verdicts[owner[k]] == Republish(k, chosen[k])
      && chosen[k] in versions
  }

  /** After the items `done`. `chosen[k]` is what replaces `k`, decided by the first item that has it, its owner. */
  ghost predicate Gathered<M, K, V, P>(verdicts: map<M, Verdict<K, V, P>>, done: set<M>, chosen: map<K, V>,
                                       owner: map<K, M>, versions: seq<V>, problems: seq<P>) {
    && done <= verdicts.Keys
    && AreRepublished(verdicts, versions)
    && (forall k {:trigger Owns(verdicts, done, chosen, owner, versions, k)} | k in chosen ::
         Owns(verdicts, done, chosen, owner, versions, k))
    && (forall m {:trigger Covered(verdicts[m], chosen)} | m in done :: Covered(verdicts[m], chosen))
    && (problems == [] <==>
         forall m {:trigger Accepted(verdicts[m], chosen)} | m in done :: Accepted(verdicts[m], chosen))
  }

  /** In the end there are problems exactly when something is refused or two items disagree. */
  lemma GatheredIsClean<M, K, V, P>(verdicts: map<M, Verdict<K, V, P>>, chosen: map<K, V>, owner: map<K, M>,
                                    versions: seq<V>, problems: seq<P>)
    requires Gathered(verdicts, verdicts.Keys, chosen, owner, versions, problems)
    ensures problems == [] <==> Clean(verdicts)
    ensures problems == [] ==> AllRepublished(verdicts, versions)
  {
    if Clean(verdicts) {
      forall m | m in verdicts ensures Accepted(verdicts[m], chosen) {
        assert Covered(verdicts[m], chosen);
        if verdicts[m].Republish? {
          var k := verdicts[m].instead;
          assert Owns(verdicts, verdicts.Keys, chosen, owner, versions, k);
          assert Agree(verdicts[m], verdicts[owner[k]]);
        }
      }
    }
    if problems == [] {
      forall m | m in verdicts
        ensures !verdicts[m].Refuse? && (verdicts[m].Republish? ==> verdicts[m].version in versions)
      {
        assert Accepted(verdicts[m], chosen);
        if verdicts[m].Republish? {
          assert Owns(verdicts, verdicts.Keys, chosen, owner, versions, verdicts[m].instead);
        }
      }
      forall m, n | m in verdicts && n in verdicts ensures Agree(verdicts[m], verdicts[n]) {
        assert Accepted(verdicts[m], chosen) && Accepted(verdicts[n], chosen);
      }
    }
  }

  /** One more item: refused, or in conflict with what was chosen, or the first that has its thing. */
  lemma GatherStep<M, K, V, P>(verdicts: map<M, Verdict<K, V, P>>, done: set<M>, m: M, chosen: map<K, V>,
                               owner: map<K, M>, versions: seq<V>, problems: seq<P>, conflict: P)
    requires m in verdicts && Gathered(verdicts, done, chosen, owner, versions, problems)
    ensures var (chosen', versions', problems') := Next(verdicts[m], chosen, versions, problems, conflict);
            Gathered(verdicts, done + {m}, chosen', Owner(verdicts[m], m, chosen, owner), versions', problems')
  {
    var d := verdicts[m];
    var (chosen', versions', problems') := Next(d, chosen, versions, problems, conflict);
    var owner', done' := Owner(d, m, chosen, owner), done + {m};
    assert versions' == versions || (versions' == versions + [d.version] && IsVersion(verdicts[m], d.version));
    forall k | k in chosen' ensures Owns(verdicts, done', chosen', owner', versions', k) {
      if k in chosen { assert Owns(verdicts, done, chosen, owner, versions, k); }
    }
    forall n | n in done' ensures Covered(verdicts[n], chosen') {
      if n in done { assert Covered(verdicts[n], chosen); }
    }
    forall n | n in done ensures Accepted(verdicts[n], chosen') <==> Accepted(verdicts[n], chosen) {
      assert Covered(verdicts[n], chosen);
    }
    assert problems' == [] <==> problems == [] && Accepted(verdicts[m], chosen');
    assert forall n | n in done' :: n in done || n == m;
    if problems' == [] {
      forall n | n in done' ensures Accepted(verdicts[n], chosen') {
        if n in done { assert Accepted(verdicts[n], chosen); }
      }
    } else if problems != [] {
      var n :| n in done && !Accepted(verdicts[n], chosen);
      assert !Accepted(verdicts[n], chosen');
    }
  }

  /** A version is added only for a thing that has none yet. */
  lemma ChosenOnceStep<M, K, V, P>(verdicts: map<M, Verdict<K, V, P>>, m: M, chosen: map<K, V>, versions: seq<V>,
                                   problems: seq<P>, conflict: P)
    requires ChosenOnce(verdicts, chosen, versions) && m in verdicts
    ensures var next := Next(verdicts[m], chosen, versions, problems, conflict); ChosenOnce(verdicts, next.0, next.1)
  {
    var next := Next(verdicts[m], chosen, versions, problems, conflict);
    var chosen', versions' := next.0, next.1;
    assert versions' == versions
      || (IsVersion(verdicts[m], verdicts[m].version) && versions' == versions + [verdicts[m].version]);
    forall v | v in versions' ensures FromChosen(verdicts, chosen', v) {
      if v in versions { StillChosen(verdicts, chosen, chosen', v); }
    }
    forall i, j | 0 <= i < j < |versions'| ensures ComeApart(verdicts, versions'[i], versions'[j]) {
      if j == |versions| {
        assert FromChosen(verdicts, chosen, versions[i]);
        var n :| n in verdicts && IsVersion(verdicts[n], versions[i]) && verdicts[n].instead in chosen;
      }
    }
  }

  lemma StillChosen<M, K, V, P>(verdicts: map<M, Verdict<K, V, P>>, chosen: map<K, V>, chosen': map<K, V>, v: V)
    requires FromChosen(verdicts, chosen, v) && chosen.Keys <= chosen'.Keys
    ensures FromChosen(verdicts, chosen', v)
  {
  }

  function Next<K(==), V(==), P>(d: Verdict<K, V, P>, chosen: map<K, V>, versions: seq<V>, problems: seq<P>,
                                 conflict: P)
    : (r: (map<K, V>, seq<V>, seq<P>))
  {
    match d
    case Already => (chosen, versions, problems)
    case Refuse(problem) => (chosen, versions, problems + [problem])
    case Republish(k, v) =>
      if k !in chosen then (chosen[k := v], versions + [v], problems)
      else if chosen[k] != v then (chosen, versions, problems + [conflict])
      else (chosen, versions, problems)
  }

  ghost function Owner<M, K, V, P>(d: Verdict<K, V, P>, m: M, chosen: map<K, V>, owner: map<K, M>): map<K, M> {
    if d.Republish? && d.instead !in chosen then owner[d.instead := m] else owner
  }

  lemma NothingRepublished<M, K, V, P>(verdicts: map<M, Verdict<K, V, P>>, versions: seq<V>)
    requires AreRepublished(verdicts, versions) && forall m | m in verdicts :: verdicts[m].Already?
    ensures versions == []
  {
    if versions != [] { HasMember(versions); }
  }

  lemma HasMember<V>(s: seq<V>)
    requires s != []
    ensures exists v :: v in s
  {
    assert s[0] in s;
  }
}
