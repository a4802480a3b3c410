/**
 * The download server's store: artifacts that never change and the manifest of what clients are
 * offered, through publications that may stop at any step.
 */
module Publication {
  import opened Fates
  import opened Options
  import opened Versions

  datatype Target = Windows | MacArm | MacIntel

  /** SHA-256 as an injective function. */
  datatype Digest = Sha256(of: Data)

  /** `signed`: clients may install it by updating. */
  datatype Release = Release(target: Target, version: string, sha: Digest, signed: bool)

  datatype Data = Bytes(n: nat) | Manifest(releases: seq<Release>)

  /** Today's artifact names, the older ones that carry their digest, the manifest, and files being uploaded. */
  datatype Name = Artifact(target: Target, version: string) | Historic(target: Target, version: string, sha: Digest)
    | Releases | Temporary(n: nat)

  datatype Outcome = Published | HistoricConflict | InvalidManifest | DifferentDigest | WouldGoBack | UploadMismatch
    | ArtifactConflict | Broken

  predicate SameTarget(r: Release, item: Release) { r.target == item.target }

  /** Why the manifest cannot take the new entry, if it cannot. */
  function Refusal(releases: seq<Release>, item: Release): (r: Option<Outcome>)
    ensures r.Some? ==> r.value == DifferentDigest || r.value == WouldGoBack
  {
    if releases == [] then None
    else if SameTarget(releases[0], item) && releases[0].version == item.version && releases[0].sha != item.sha
      then Some(DifferentDigest)
    else if SameTarget(releases[0], item) && releases[0].signed && Newer(releases[0].version, item.version)
      then Some(WouldGoBack)
    else Refusal(releases[1..], item)
  }

  function Others(releases: seq<Release>, item: Release): (r: seq<Release>)
    ensures forall e :: e in r <==> e in releases && !SameTarget(e, item)
  {
    if releases == [] then []
    else if SameTarget(releases[|releases| - 1], item) then Others(releases[..|releases| - 1], item)
    else Others(releases[..|releases| - 1], item) + [releases[|releases| - 1]]
  }

  function Merged(releases: seq<Release>, item: Release): seq<Release> { Others(releases, item) + [item] }

  predicate OnePerTarget(releases: seq<Release>) {
    forall i, j | 0 <= i < j < |releases| :: !SameTarget(releases[i], releases[j])
  }

  lemma {:induction false} RefusalMeans(releases: seq<Release>, item: Release)
    ensures Refusal(releases, item).None? <==>
              forall e | e in releases && SameTarget(e, item) ::
                && (e.version == item.version ==> e.sha == item.sha)
                && (e.signed ==> NotBelow(item.version, e.version))
  {
    if releases != [] {
      NotBelowExactly(item.version, releases[0].version);
      RefusalMeans(releases[1..], item);
      assert forall e | e in releases :: e == releases[0] || e in releases[1..];
    }
  }

  lemma {:induction false} OthersDistinct(releases: seq<Release>, item: Release)
    requires OnePerTarget(releases)
    ensures OnePerTarget(Others(releases, item))
  {
    if releases != [] {
      var front := releases[..|releases| - 1];
      OthersDistinct(front, item);
      var others, last := Others(front, item), releases[|releases| - 1];
      forall i | 0 <= i < |others| ensures !SameTarget(others[i], last) {
        assert others[i] in others;
        var k :| 0 <= k < |front| && front[k] == others[i];
        assert !SameTarget(releases[k], releases[|releases| - 1]);
      }
    }
  }

  lemma MergedDistinct(releases: seq<Release>, item: Release)
    requires OnePerTarget(releases)
    ensures OnePerTarget(Merged(releases, item))
  {
    OthersDistinct(releases, item);
    var merged := Merged(releases, item);
    forall i, j | 0 <= i < j < |merged| ensures !SameTarget(merged[i], merged[j]) {
      assert merged[i] in Others(releases, item);
    }
  }

  /** A file of this version and target under an older name, with another digest. */
  predicate ConflictsWithHistory(files: map<Name, Data>, item: Release) {
    exists name | name in files :: name.Historic? && name.target == item.target && name.version == item.version
      && name.sha != item.sha
  }

  // ---- What holds of the store -------------------------------------------------------------

  predicate HasFile(files: map<Name, Data>, e: Release) {
    Artifact(e.target, e.version) in files && Sha256(files[Artifact(e.target, e.version)]) == e.sha
  }

  function Offered(files: map<Name, Data>): seq<Release> {
    if Releases in files && files[Releases].Manifest? then files[Releases].releases else []
  }

  /** At most one signed entry to a target, each with its artifact in the store. */
  ghost predicate Sound(files: map<Name, Data>) {
    && (Releases in files ==> files[Releases].Manifest?)
    && OnePerTarget(Offered(files))
    && forall e | e in Offered(files) :: e.signed && HasFile(files, e) && IsVersion(e.version)
  }

  /** No artifact is gone or different. */
  ghost predicate Kept(before: map<Name, Data>, after: map<Name, Data>) {
    forall name | name in before && (name.Artifact? || name.Historic?) :: name in after && after[name] == before[name]
  }

  /** No target is offered less than it was. */
  ghost predicate NeverBack(before: map<Name, Data>, after: map<Name, Data>) {
    forall e | e in Offered(before) ::
      exists n :: n in Offered(after) && SameTarget(n, e) && NotBelow(n.version, e.version)
  }

  lemma NeverBackThrough(a: map<Name, Data>, b: map<Name, Data>, c: map<Name, Data>)
    requires Sound(a) && Sound(b) && Sound(c) && NeverBack(a, b) && NeverBack(b, c)
    ensures NeverBack(a, c)
  {
    forall e | e in Offered(a)
      ensures exists n :: n in Offered(c) && SameTarget(n, e) && NotBelow(n.version, e.version)
    {
      var m :| m in Offered(b) && SameTarget(m, e) && NotBelow(m.version, e.version);
      var n :| n in Offered(c) && SameTarget(n, m) && NotBelow(n.version, m.version);
      NotBelowTransitive(n.version, m.version, e.version);
    }
  }

  lemma Unchanged(files: map<Name, Data>, after: map<Name, Data>)
    requires Sound(files) && Kept(files, after) && (Releases in after <==> Releases in files)
        && (Releases in files ==> after[Releases] == files[Releases])
    ensures Sound(after) && NeverBack(files, after)
  {
    assert Offered(after) == Offered(files);
    forall e | e in Offered(files) ensures HasFile(after, e) {
      assert HasFile(files, e);
    }
    NeverBackSame(files, after);
  }

  lemma NeverBackSame(files: map<Name, Data>, after: map<Name, Data>)
    requires Offered(after) == Offered(files)
    ensures NeverBack(files, after)
  {
    forall e | e in Offered(files)
      ensures exists n :: n in Offered(after) && SameTarget(n, e) && NotBelow(n.version, e.version)
    {
      NotBelowItself(e.version);
      assert SameTarget(e, e);
    }
  }

  lemma NewManifest(files: map<Name, Data>, item: Release, after: map<Name, Data>)
    requires Sound(files) && item.signed && IsVersion(item.version) && Refusal(Offered(files), item).None?
    requires Kept(files, after) && HasFile(after, item) && Releases in after
        && after[Releases] == Manifest(Merged(Offered(files), item))
    ensures Sound(after) && NeverBack(files, after) && item in Offered(after)
  {
    var merged := Merged(Offered(files), item);
    RefusalMeans(Offered(files), item);
    MergedDistinct(Offered(files), item);
    assert item == merged[|merged| - 1];
    forall e | e in Offered(files)
      ensures exists n :: n in Offered(after) && SameTarget(n, e) && NotBelow(n.version, e.version)
    {
      if SameTarget(e, item) {
        assert item in Offered(after) && SameTarget(item, e);
      } else {
        NotBelowItself(e.version);
        assert e in Others(Offered(files), item);
        assert e in Offered(after) && SameTarget(e, e);
      }
    }
  }

  // ---- Publishing --------------------------------------------------------------------------

  datatype Publication = Publication(item: Release, uploaded: Data, temporary: nat, manifestTemporary: nat, fate: Fate)

  /** Temporary names are made up for each publication. */
  predicate HasNewNames(files: map<Name, Data>, p: Publication) {
    p.temporary != p.manifestTemporary && Temporary(p.temporary) !in files && Temporary(p.manifestTemporary) !in files
  }

  predicate IsItem(item: Release) { item.signed && IsVersion(item.version) }

  /** Under a name of the older kind the version stands with another digest. */
  predicate WasOther(files: map<Name, Data>, item: Release) {
    exists name | name in files ::
      name.Historic? && name == Historic(item.target, item.version, name.sha) && name.sha != item.sha
  }

  /** There is no manifest, or one of at most a hundred releases. */
  predicate IsReadable(files: map<Name, Data>) {
    Releases in files ==> files[Releases].Manifest? && |files[Releases].releases| < 101
  }

  /** The manifest offers the version with another digest, or, to clients who update, one above it. */
  predicate IsTaken(files: map<Name, Data>, item: Release) {
    exists e | e in Offered(files) :: e.target == item.target && e.version == item.version && e.sha != item.sha
  }

  predicate IsAbove(files: map<Name, Data>, item: Release) {
    exists e | e in Offered(files) :: e.target == item.target && e.signed && !NotBelow(item.version, e.version)
  }

  /** How a publication ends, by what it finds, in the order it looks, and by how far it gets. */
  predicate IsOutcome(files: map<Name, Data>, p: Publication, r: Outcome) {
    var name := Artifact(p.item.target, p.item.version);
    if WasOther(files, p.item) then r == HistoricConflict
    else if !IsReadable(files) then r == InvalidManifest
    else if IsTaken(files, p.item) || IsAbove(files, p.item) then
      || (r == DifferentDigest && IsTaken(files, p.item)) || (r == WouldGoBack && IsAbove(files, p.item))
    else if name in files && Sha256(files[name]) != p.item.sha then r == ArtifactConflict
    else if name !in files && Reaches(p.fate, 1) && Sha256(p.uploaded) != p.item.sha then r == UploadMismatch
    else if name in files || Reaches(p.fate, 2) then r == if Reaches(p.fate, 4) then Published else Broken
    else r == Broken
  }

  lemma {:induction false} RefusalWhy(releases: seq<Release>, item: Release)
    ensures Refusal(releases, item) == Some(DifferentDigest) ==>
              exists e | e in releases :: e.target == item.target && e.version == item.version && e.sha != item.sha
    ensures Refusal(releases, item) == Some(WouldGoBack) ==>
              exists e | e in releases :: e.target == item.target && e.signed && !NotBelow(item.version, e.version)
  {
    if releases != [] {
      RefusalWhy(releases[1..], item);
      NotBelowExactly(item.version, releases[0].version);
      assert releases[0] in releases;
      assert forall e | e in releases[1..] :: e in releases;
    }
  }

  class Store {
    var files: map<Name, Data>

    constructor ()
      ensures files == map[]
    {
      files := map[];
    }

    /** The artifact in its place, if it can be: uploaded, or found there as it is to be. */
    method PlaceArtifact(p: Publication) returns (r: Outcome)
      requires HasNewNames(files, p)
      modifies this
      ensures Kept(old(files), files) && Temporary(p.manifestTemporary) !in files
      ensures (Releases in files <==> Releases in old(files))
          && (Releases in files ==> files[Releases] == old(files)[Releases])
      ensures r == Published ==> HasFile(files, p.item)
      ensures var there := Artifact(p.item.target, p.item.version) in old(files);
              if there then r == if HasFile(old(files), p.item) then Published else ArtifactConflict
              else if !Reaches(p.fate, 1) then r == Broken
              else if Sha256(p.uploaded) != p.item.sha then r == UploadMismatch
              else r == if Reaches(p.fate, 2) then Published else Broken
      ensures r != Published ==> files - {Temporary(p.temporary)} == old(files)
      ensures var name := Temporary(p.temporary);
              (name in files <==> Reaches(p.fate, 1) && r !in [Published, ArtifactConflict])
                && (name in files ==> files[name] == p.uploaded)
    {
      var name := Artifact(p.item.target, p.item.version);
      if name in files {
        return if Sha256(files[name]) != p.item.sha then ArtifactConflict else Published;
      }
      if !Reaches(p.fate, 1) { return Broken; }
      files := files[Temporary(p.temporary) := p.uploaded];
      if Sha256(files[Temporary(p.temporary)]) != p.item.sha { return UploadMismatch; }
      if !Reaches(p.fate, 2) { return Broken; }
      files := (files - {Temporary(p.temporary)})[name := p.uploaded];
      r := Published;
    }

    /**
     * Wherever it stops, no artifact changes, the manifest offers at most one release to a target,
     * each in the store with its digest, and no target is offered an older version than before.
     */
    method Publish(p: Publication) returns (r: Outcome)
      requires IsItem(p.item) && HasNewNames(files, p)
      modifies this
      ensures Kept(old(files), files)
      ensures old(Sound(files)) ==> Sound(files) && NeverBack(old(files), files)
      ensures old(Sound(files)) && r == Published ==> p.item in Offered(files)
      ensures r != Published ==> Offered(files) == Offered(old(files))
      ensures IsOutcome(old(files), p, r)
      ensures r == Published ==> Offered(files) == Merged(Offered(old(files)), p.item)
    {
      ghost var before := files;
      var refused := Refused(p.item);
      if refused.Some? {
        r := refused.value;
      } else {
        var merged := Merged(Offered(files), p.item);
        r := PlaceArtifact(p);
        if r == Published {
          assert Kept(before, files);
          r := ReplaceManifest(p, merged);
          if r == Published {
            if Sound(before) { NewManifest(before, p.item, files); }
            return;
          }
        }
      }
      if Sound(before) { Unchanged(before, files); }
    }

    /** Why the store cannot take the release, if it cannot. */
    method Refused(item: Release) returns (r: Option<Outcome>)
      ensures r.Some? ==> r.value != Published && forall p: Publication | p.item == item :: IsOutcome(files, p, r.value)
      ensures r.None? <==> !WasOther(files, item) && IsReadable(files) && !IsTaken(files, item) && !IsAbove(files, item)
      ensures r.None? ==> Refusal(Offered(files), item).None?
    {
      RefusalMeans(Offered(files), item);
      RefusalWhy(Offered(files), item);
      if ConflictsWithHistory(files, item) { return Some(HistoricConflict); }
      if Releases in files && (!files[Releases].Manifest? || |files[Releases].releases| > 100) {
        return Some(InvalidManifest);
      }
      r := Refusal(Offered(files), item);
    }

    /** The manifest written beside the one there is, and renamed over it. */
    method ReplaceManifest(p: Publication, merged: seq<Release>) returns (r: Outcome)
      requires Temporary(p.manifestTemporary) !in files
      modifies this
      ensures r == if Reaches(p.fate, 4) then Published else Broken
      ensures r == Published ==> files == old(files)[Releases := Manifest(merged)]
      ensures r != Published ==> files - {Temporary(p.manifestTemporary)} == old(files)
      ensures var name := Temporary(p.manifestTemporary);
              (name in files <==> Reaches(p.fate, 3) && !Reaches(p.fate, 4))
                && (name in files ==> files[name] == Manifest(merged))
    {
      r := Broken;
      if Reaches(p.fate, 3) {
        files := files[Temporary(p.manifestTemporary) := Manifest(merged)];
        if Reaches(p.fate, 4) {
          files := (files - {Temporary(p.manifestTemporary)})[Releases := Manifest(merged)];
          return Published;
        }
      }
    }

    /** The same over any number of publications. */
    method PublishAll(list: seq<Publication>)
      requires Sound(files) && forall p | p in list :: IsItem(p.item)
      modifies this
      ensures Sound(files) && Kept(old(files), files) && NeverBack(old(files), files)
    {
      Unchanged(files, files);
      for i := 0 to |list|
        invariant Sound(files) && Kept(old(files), files) && NeverBack(old(files), files)
      {
        ghost var before := files;
        if HasNewNames(files, list[i]) {
          var r := Publish(list[i]);
          NeverBackThrough(old(files), before, files);
        }
      }
    }
  }
}
