/**
 * The backup directory over any number of nights: publications and removals, each stopped
 * anywhere, and which bundles in view verify after them.
 */
module Retention {
  import opened Options
  import opened Generations
  import opened Bundles

  type View = map<string, Item>

  datatype Action =
    | Publication(id: string, c: Committed, staging: string, time: int, done: bool)
    | Removal(cutoff: int, time: int, cut: Option<string>)

  /** What a publication or a removal, wherever it stopped, can have made of the directory. */
  ghost predicate Outcome(before: View, a: Action, after: View) {
    match a
    case Publication(id, c, staging, time, done) =>
      IsIdentifier(id) && IsCommitted(c) && !IsVisible(staging) && Published(before, after, id, c, staging, time, done)
    case Removal(cutoff, time, cut) => Pruned(before, after, cutoff, time, cut)
  }

  ghost predicate OutcomeAt(t: seq<View>, actions: seq<Action>, i: nat)
    requires |t| == |actions| + 1 && i < |actions|
  {
    Outcome(t[i], actions[i], t[i + 1])
  }

  /** The directory before, between and after these actions. */
  ghost predicate IsRun(t: seq<View>, actions: seq<Action>) {
    |t| == |actions| + 1 && forall i | 0 <= i < |actions| :: OutcomeAt(t, actions, i)
  }

  /** A removal that stopped between a bundle's first file and its directory. */
  predicate IsCut(a: Action) { a.Removal? && a.cut.Some? }

  // ---- A stopped removal -------------------------------------------------------------------

  /** An item whose bundle does not verify is never changed again. */
  lemma BrokenStays(before: View, a: Action, after: View, name: string)
    requires Outcome(before, a, after) && name in before && IsVisible(name) && !VerifiesAs(name, before[name])
    ensures name in after && after[name] == before[name]
  {
    if a.Removal? {
      assert a.cut != Some(name);
      assert LeftOrRemoved(before, after, name, a.cutoff);
    } else if !a.done {
      assert name in after - {a.staging};
    }
  }

  /** Over a whole run: a bundle that does not verify stays in view as it is, whatever is published or removed. */
  lemma {:induction false} BrokenIsForever(t: seq<View>, actions: seq<Action>, i: nat, k: nat, name: string)
    requires IsRun(t, actions) && i <= k < |t|
    requires name in t[i] && IsVisible(name) && !VerifiesAs(name, t[i][name])
    ensures name in t[k] && t[k][name] == t[i][name]
    decreases k - i
  {
    if i < k {
      assert OutcomeAt(t, actions, i);
      BrokenStays(t[i], actions[i], t[i + 1], name);
      BrokenIsForever(t, actions, i + 1, k, name);
    }
  }

  /**
   * A removal that stops after its first file: all in view verified, now the old bundle, without its
   * manifest, does not.
   */
  lemma RemovalCanBreak(id: string, c: Committed, old': int, cutoff: int, time: int)
    requires IsIdentifier(id) && IsCommitted(c) && old' < cutoff
    ensures var name, bundle := BundleName(id), Directory(BundleOf(id, c), old');
            var before, after := map[name := bundle], map[name := Unlinked(bundle, ManifestName(id), time)];
            && AllVerify(before) && Outcome(before, Removal(cutoff, time, Some(name)), after)
            && name in after && !VerifiesAs(name, after[name])
  {
    var name, bundle := BundleName(id), Directory(BundleOf(id, c), old');
    NewBundleVerifies(id, c);
    LessLeft(bundle, bundle, ManifestName(id), time);
  }

  // ---- Nights ------------------------------------------------------------------------------

  /** What is left of a bundle that was published under its name, all of it or not. */
  ghost predicate IsPart(name: string, item: Item)
    requires IsVisible(name)
  {
    item.Directory? && exists c :: IsCommitted(c) && SubFiles(item.files, BundleOf(name[|VISIBLE|..], c))
  }

  ghost predicate AllParts(items: View) {
    forall name | name in items && IsVisible(name) :: IsPart(name, items[name])
  }

  lemma PartsStay(before: View, a: Action, after: View)
    requires Outcome(before, a, after) && AllParts(before)
    ensures AllParts(after)
  {
    forall name | name in after && IsVisible(name) ensures IsPart(name, after[name]) {
      match a
      case Publication(id, c, staging, _, done) =>
        if done {
          NewBundleVerifies(id, c);
          assert name == BundleName(id) ==> SubFiles(after[name].files, BundleOf(id, c));
        } else {
          assert name in after - {staging};
        }
      case Removal(cutoff, _, cut) =>
        assert IsPart(name, before[name]);
        assert cut != Some(name) ==> LeftOrRemoved(before, after, name, cutoff);
    }
  }

  lemma {:induction false} OnlyParts(t: seq<View>, actions: seq<Action>, k: nat)
    requires IsRun(t, actions) && AllParts(t[0]) && k < |t|
    ensures AllParts(t[k])
  {
    if k > 0 {
      OnlyParts(t, actions, k - 1);
      assert OutcomeAt(t, actions, k - 1);
      PartsStay(t[k - 1], actions[k - 1], t[k]);
    }
  }

  /** From an empty directory on, a bundle in view is left of a published one and verifies exactly when it is whole. */
  lemma WholeOrBroken(t: seq<View>, actions: seq<Action>, k: nat, name: string) returns (c: Committed)
    requires IsRun(t, actions) && t[0] == map[] && k < |t| && name in t[k] && IsVisible(name)
    ensures IsCommitted(c) && t[k][name].Directory? && SubFiles(t[k][name].files, BundleOf(name[|VISIBLE|..], c))
    ensures VerifiesAs(name, t[k][name]) <==> t[k][name].files == BundleOf(name[|VISIBLE|..], c)
  {
    OnlyParts(t, actions, k);
    assert IsPart(name, t[k][name]);
    c :| IsCommitted(c) && SubFiles(t[k][name].files, BundleOf(name[|VISIBLE|..], c));
    PartVerifies(name[|VISIBLE|..], c, t[k][name].files);
  }

  /** A step that is not a removal cut short leaves nothing in view that does not verify; one that is does. */
  lemma VerifyStep(before: View, a: Action, after: View)
    requires Outcome(before, a, after) && AllVerify(before) && !IsCut(a)
    ensures AllVerify(after)
  {
    match a
    case Publication(id, c, staging, time, done) =>
      if done { BundleInView(before, id, c, time); } else { NothingInView(before, after, staging); }
    case Removal(cutoff, time, cut) => PrunedVerifies(before, after, cutoff, time, cut);
  }

  lemma CutBreaks(before: View, a: Action, after: View)
    requires Outcome(before, a, after) && AllParts(before) && IsCut(a)
    ensures IsVisible(a.cut.value) && a.cut.value in after && !VerifiesAs(a.cut.value, after[a.cut.value])
  {
    var name := a.cut.value;
    var id := name[|VISIBLE|..];
    assert IsPart(name, before[name]);
    var c :| IsCommitted(c) && SubFiles(before[name].files, BundleOf(id, c));
    PartVerifies(id, c, before[name].files);
    PartVerifies(id, c, after[name].files);
  }

  lemma CutIsForever(t: seq<View>, actions: seq<Action>, i: nat, k: nat)
    requires IsRun(t, actions) && t[0] == map[] && i < k < |t| && IsCut(actions[i])
    ensures !AllVerify(t[k])
  {
    OnlyParts(t, actions, i);
    assert OutcomeAt(t, actions, i);
    CutBreaks(t[i], actions[i], t[i + 1]);
    BrokenIsForever(t, actions, i + 1, k, actions[i].cut.value);
  }

  /**
   * Over a whole run from an empty directory, at every point: all bundles in view verify if and only if no
   * removal so far stopped between a bundle's first file and its directory.
   */
  lemma {:induction false} VerifyUntilCut(t: seq<View>, actions: seq<Action>, k: nat)
    requires IsRun(t, actions) && t[0] == map[] && k < |t|
    ensures AllVerify(t[k]) <==> forall i | 0 <= i < k :: !IsCut(actions[i])
  {
    if i :| 0 <= i < k && IsCut(actions[i]) {
      CutIsForever(t, actions, i, k);
    } else if k > 0 {
      VerifyUntilCut(t, actions, k - 1);
      assert OutcomeAt(t, actions, k - 1);
      VerifyStep(t[k - 1], actions[k - 1], t[k]);
    }
  }
}
