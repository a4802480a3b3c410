/**
 * The backup directory: a captured generation is published as a directory of five files, renamed
 * into view once all are written; a bundle is verified offline, and old ones that verify are pruned,
 * file by file under the name in view.
 */
module Bundles {
  import opened Options
  import opened Decimals
  import opened Fates
  import opened Generations

  datatype Entry = File(content: Content) | Symlink

  datatype Item = Directory(files: map<string, Entry>, mtime: int) | NotDirectory

  datatype Verdict = Verified(sequence: int, digest: Checksum) | Invalid

  // ---- Names -------------------------------------------------------------------------------

  predicate IsSafe(c: char) { 'A' <= c <= 'Z' || 'a' <= c <= 'z' || IsDigit(c) || c == '_' || c == '.' || c == '-' }

  predicate AllSafe(s: string) { forall i | 0 <= i < |s| :: IsSafe(s[i]) }

  predicate SafeName(name: string) { name != "" && AllSafe(name) && name != "." && name != ".." }

  /** A time to the second and 32 hexadecimal digits. */
  predicate IsIdentifier(id: string) {
    && |id| == 48 && AllDigits(id[..8]) && id[8] == '_' && AllDigits(id[9..15]) && id[15] == '_'
    && forall i | 16 <= i < 48 :: IsHexDigit(id[i])
  }

  /** Names are of ASCII letters, digits, underscore, dot and hyphen, and not one of the two directories. */
  lemma SafeExactly(name: string)
    ensures SafeName(name) <==>
              && name != "" && name != "." && name != ".."
              && forall i | 0 <= i < |name| ::
                   var n := name[i] as int;
                   65 <= n < 91 || 97 <= n < 123 || 48 <= n < 58 || n in {45, 46, 95}
  {
  }

  /** Eight digits, six digits and thirty-two hexadecimal ones in lower case, underscores between. */
  lemma IdentifierExactly(id: string)
    ensures IsIdentifier(id) <==>
              && |id| == 48 && id[8] == id[15] == '_'
              && (forall i | 0 <= i < 15 && i != 8 :: '0' <= id[i] <= '9')
              && forall i | 16 <= i < |id| :: '0' <= id[i] <= '9' || 'a' <= id[i] <= 'f'
  {
    if |id| == 48 {
      forall i | 0 <= i < 15 && i != 8
        ensures i < 8 ==> id[i] == id[..8][i]
        ensures i > 8 ==> id[i] == id[9..15][i - 9]
      {
      }
      assert AllDigits(id[..8]) <==> forall i | 0 <= i < 8 :: IsDigit(id[i]);
      assert AllDigits(id[9..15]) <==> forall i | 9 <= i < 15 :: IsDigit(id[i]) by {
        assert forall k | 0 <= k < 6 :: id[9..15][k] == id[9 + k];
        assert forall i | 9 <= i < 15 :: id[i] == id[9..15][i - 9];
      }
    }
  }

  /** In view are the directories of that name with an identifier. */
  lemma VisibleExactly(name: string)
    ensures IsVisible(name) <==> exists id :: IsIdentifier(id) && name == BundleName(id)
  {
    if IsVisible(name) { assert name == BundleName(name[|VISIBLE|..]); }
    if id :| IsIdentifier(id) && name == BundleName(id) { assert name[|VISIBLE|..] == id; }
  }

  const VISIBLE := "server-backup_"

  function BundleName(id: string): string { VISIBLE + id }

  predicate IsVisible(name: string) { VISIBLE <= name && IsIdentifier(name[|VISIBLE|..]) }

  function SnapshotName(id: string): string { "billing_state_" + id + ".json" }

  function ManifestName(id: string): string { "billing_state_" + id + ".manifest.json" }

  lemma {:induction false} IdentifierSafe(id: string)
    requires IsIdentifier(id)
    ensures AllSafe(id)
  {
    forall i | 0 <= i < |id| ensures IsSafe(id[i]) {
      if i < 8 { assert IsDigit(id[..8][i]); }
      else if 9 <= i < 15 { assert IsDigit(id[9..15][i - 9]); }
    }
  }

  lemma SafeJoin(a: string, b: string)
    requires AllSafe(a) && AllSafe(b)
    ensures AllSafe(a + b)
  {
  }

  lemma DigitsSafe(s: string)
    requires AllDigits(s)
    ensures AllSafe(s)
  {
    forall i | 0 <= i < |s| ensures IsSafe(s[i]) { assert IsDigit(s[i]); }
  }

  lemma NamesSafe(id: string, n: nat)
    requires IsIdentifier(id)
    ensures SafeName(SnapshotName(id)) && SafeName(SnapshotName(id) + ".anchor")
        && SafeName(SnapshotName(id) + ".sha256")
    ensures SafeName(ManifestName(id)) && SafeName(GenerationName(n))
  {
    IdentifierSafe(id);
    SafeJoin("billing_state_", id);
    SafeJoin("billing_state_" + id, ".json");
    SafeJoin("billing_state_" + id, ".manifest.json");
    SafeJoin(SnapshotName(id), ".anchor");
    SafeJoin(SnapshotName(id), ".sha256");
    DigitsSafe(NatText(n));
    SafeJoin("billing_state.json.gen_", NatText(n));
    assert |SnapshotName(id)| > 2 && |ManifestName(id)| > 2 && |GenerationName(n)| > 2;
  }

  /** The five files of a bundle have five names. */
  lemma NamesDiffer(id: string, n: nat)
    ensures var s, g := SnapshotName(id), GenerationName(n);
            && s != s + ".anchor" && s != s + ".sha256" && s != ManifestName(id) && s + ".anchor" != s + ".sha256"
            && s + ".anchor" != ManifestName(id) && s + ".sha256" != ManifestName(id)
            && g != s && g != s + ".anchor" && g != s + ".sha256" && g != ManifestName(id)
  {
    var s, g, m := SnapshotName(id), GenerationName(n), ManifestName(id);
    var a, h := s + ".anchor", s + ".sha256";
    assert g[13] == '.' && s[13] == '_' && a[13] == '_' && h[13] == '_' && m[13] == '_';
    var k := |id| + 15;
    assert s[k] == 'j' && a[k] == 'j' && h[k] == 'j' && m[k] == 'm';
    assert a[|s| + 1] == 'a' && h[|s| + 1] == 's';
  }

  // ---- Verifying ---------------------------------------------------------------------------

  function Read(files: map<string, Entry>, name: string): Option<Content> {
    if SafeName(name) && name in files && files[name].File? then Some(files[name].content) else None
  }

  predicate EndsWith(s: string, suffix: string) { |s| >= |suffix| && s[|s| - |suffix|..] == suffix }

  /** Byte integrity only: no keys, no restore. */
  function Verify(manifestName: string, files: map<string, Entry>): Verdict {
    var read := Read(files, manifestName);
    if read.None? || !read.value.Manifest? then Invalid
    else
      var manifest := read.value;
      var name := manifest.snapshotFile;
      if manifest.version != 1 || manifest.status != "completed" then Invalid
      else if !EndsWith(name, ".json") || manifestName != name[..|name| - 5] + ".manifest.json"
        || manifest.anchorFile != name + ".anchor" then Invalid
      else
        var payload, anchor := Read(files, name), Read(files, manifest.anchorFile);
        if payload.None? || anchor.None? then Invalid
        else if manifest.snapshotSha != Sha256(payload.value) || manifest.anchorSha != Sha256(anchor.value) then Invalid
        else if !Matches(anchor.value, payload.value) then Invalid
        else if Read(files, anchor.value.generation) != payload then Invalid
        else if Read(files, name + ".sha256") != Some(Sidecar(Sha256(payload.value), name)) then Invalid
        else Verified(anchor.value.sequence, Sha256(payload.value))
  }

  /**
   * What a bundle is to hold: its manifest names a snapshot and an anchor as it does itself, and gives their digests.
   */
  predicate Describes(manifestName: string, manifest: Content, base: string, payload: Content, anchor: Content) {
    && manifest.Manifest? && manifest.version == 1 && manifest.status == "completed"
    && manifestName == base + ".manifest.json"
    && manifest.snapshotFile == base + ".json" && manifest.anchorFile == base + ".json.anchor"
    && manifest.snapshotSha == Sha256(payload) && manifest.anchorSha == Sha256(anchor)
  }

  /** A file that is there as itself, under a name that is safe. */
  predicate Holds(files: map<string, Entry>, name: string, content: Content) {
    SafeName(name) && name in files && files[name] == File(content)
  }

  /** A committed snapshot and its anchor. */
  predicate Belong(payload: Content, anchor: Content, sequence: int) {
    && payload.Snapshot? && payload.version == 2 && payload.sequence == sequence
    && 1 <= sequence < 0x1_0000_0000_0000_0000
    && anchor == Anchor(2, sequence, GenerationName(sequence), Sha256(payload))
  }

  /** All five files are there and fit. */
  predicate FiveFit(manifestName: string, files: map<string, Entry>, base: string, manifest: Content, payload: Content,
                    sequence: int) {
    var anchor, name := Anchor(2, sequence, GenerationName(sequence), Sha256(payload)), base + ".json";
    && Describes(manifestName, manifest, base, payload, anchor) && Belong(payload, anchor, sequence)
    && Holds(files, manifestName, manifest) && Holds(files, name, payload)
    && Holds(files, name + ".anchor", anchor) && Holds(files, GenerationName(sequence), payload)
    && Holds(files, name + ".sha256", Sidecar(Sha256(payload), name))
  }

  lemma HoldsIsRead(files: map<string, Entry>, name: string, content: Content)
    ensures Holds(files, name, content) <==> Read(files, name) == Some(content)
  {
  }

  lemma EndsWithExactly(s: string, suffix: string)
    ensures EndsWith(s, suffix) <==> exists front :: s == front + suffix
    ensures EndsWith(s, suffix) ==> s == s[..|s| - |suffix|] + suffix
    ensures forall front | s == front + suffix :: front == s[..|s| - |suffix|]
  {
    if EndsWith(s, suffix) { assert s == s[..|s| - |suffix|] + suffix; }
  }

  lemma VerifiedFits(manifestName: string, files: map<string, Entry>)
    returns (base: string, manifest: Content, payload: Content)
    requires Verify(manifestName, files).Verified?
    ensures FiveFit(manifestName, files, base, manifest, payload, Verify(manifestName, files).sequence)
    ensures Verify(manifestName, files).digest == Sha256(payload)
  {
    manifest := Read(files, manifestName).value;
    var name := manifest.snapshotFile;
    EndsWithExactly(name, ".json");
    base, payload := name[..|name| - 5], Read(files, name).value;
  }

  lemma FitVerifies(manifestName: string, files: map<string, Entry>, base: string, manifest: Content, payload: Content,
                    sequence: int)
    requires FiveFit(manifestName, files, base, manifest, payload, sequence)
    ensures Verify(manifestName, files) == Verified(sequence, Sha256(payload))
  {
    EndsWithExactly(base + ".json", ".json");
    HoldsIsRead(files, manifestName, manifest);
    HoldsIsRead(files, base + ".json", payload);
  }

  /** A bundle verifies, with this sequence and digest, exactly if some five files are there and fit. */
  lemma VerifyExactly(manifestName: string, files: map<string, Entry>, sequence: int, digest: Checksum)
    ensures Verify(manifestName, files) == Verified(sequence, digest) <==>
              exists base, manifest, payload ::
                FiveFit(manifestName, files, base, manifest, payload, sequence) && digest == Sha256(payload)
  {
    if Verify(manifestName, files) == Verified(sequence, digest) {
      var base, manifest, payload := VerifiedFits(manifestName, files);
    }
    if base, manifest, payload :|
         FiveFit(manifestName, files, base, manifest, payload, sequence) && digest == Sha256(payload)
    {
      FitVerifies(manifestName, files, base, manifest, payload, sequence);
    }
  }

  predicate Matches(anchor: Content, payload: Content) {
    && anchor.Anchor? && ValidSequence(anchor.sequence) && anchor.version == 2
    && payload.Snapshot? && payload.version == 2 && ValidSequence(payload.sequence)
    && payload.sequence == anchor.sequence
    && anchor.checksum == Sha256(payload) && anchor.generation == GenerationName(anchor.sequence)
  }

  // ---- A bundle ----------------------------------------------------------------------------

  function ManifestOf(id: string, payload: Content, anchor: Content): Content {
    Manifest(1, id, SnapshotName(id), Sha256(payload), SnapshotName(id) + ".anchor", Sha256(anchor), "completed")
  }

  /** The files in the order they are written, the manifest last. */
  function FilesOf(id: string, payload: Content, anchor: Content, generation: string): seq<(string, Content)> {
    var name := SnapshotName(id);
    [(name, payload), (name + ".anchor", anchor), (generation, payload),
     (name + ".sha256", Sidecar(Sha256(payload), name)), (ManifestName(id), ManifestOf(id, payload, anchor))]
  }

  function Folder(files: seq<(string, Content)>): map<string, Entry> {
    if files == [] then map[] else Folder(files[..|files| - 1])[files[|files| - 1].0 := File(files[|files| - 1].1)]
  }

  function BundleOf(id: string, c: Committed): map<string, Entry> {
    var name := SnapshotName(id);
    map[name := File(c.payload), name + ".anchor" := File(AnchorOf(c)), GenerationName(c.sequence) := File(c.payload),
        name + ".sha256" := File(Sidecar(Sha256(c.payload), name)),
          ManifestName(id) := File(ManifestOf(id, c.payload, AnchorOf(c)))]
  }

  lemma FolderOfFiles(id: string, c: Committed)
    ensures Folder(FilesOf(id, c.payload, AnchorOf(c), GenerationName(c.sequence))) == BundleOf(id, c)
  {
    var files := FilesOf(id, c.payload, AnchorOf(c), GenerationName(c.sequence));
    FolderStep(files, 0);
    FolderStep(files, 1);
    FolderStep(files, 2);
    FolderStep(files, 3);
    FolderStep(files, 4);
    assert files[..5] == files;
    assert Folder(files[..0]) == map[];
  }

  lemma FolderStep(files: seq<(string, Content)>, k: nat)
    requires k < |files|
    ensures Folder(files[..k + 1]) == Folder(files[..k])[files[k].0 := File(files[k].1)]
  {
    assert files[..k + 1][..k] == files[..k];
  }

  predicate IsCommitted(c: Committed) { ValidSequence(c.sequence) && IsSnapshotOf(c.payload, c.sequence) }

  /**
   * With its manifest as published, a bundle verifies exactly when its four other files are as
   * published too; then with the captured generation's sequence and digest.
   */
  lemma VerifiesExactly(id: string, c: Committed, files: map<string, Entry>)
    requires IsIdentifier(id) && IsCommitted(c)
    requires ManifestName(id) in files && files[ManifestName(id)] == BundleOf(id, c)[ManifestName(id)]
    ensures Verify(ManifestName(id), files).Verified? <==>
        forall name | name in BundleOf(id, c) :: name in files && files[name] == BundleOf(id, c)[name]
    ensures Verify(ManifestName(id), files).Verified? ==>
        Verify(ManifestName(id), files) == Verified(c.sequence, Sha256(c.payload))
  {
    var name := SnapshotName(id);
    NamesSafe(id, c.sequence);
    NamesDiffer(id, c.sequence);
    assert EndsWith(name, ".json") && name[..|name| - 5] + ".manifest.json" == ManifestName(id);
    var bundle := BundleOf(id, c);
    assert Read(files, ManifestName(id)) == Some(ManifestOf(id, c.payload, AnchorOf(c)));
    if Verify(ManifestName(id), files).Verified? {
      assert Read(files, name) == Some(c.payload);
      assert Read(files, name + ".anchor") == Some(AnchorOf(c));
      assert Read(files, GenerationName(c.sequence)) == Some(c.payload);
    }
    assert bundle.Keys == {name, name + ".anchor", GenerationName(c.sequence), name + ".sha256", ManifestName(id)};
    if forall n | n in bundle :: n in files && files[n] == bundle[n] {
      assert name in bundle && name + ".anchor" in bundle && GenerationName(c.sequence) in bundle
        && name + ".sha256" in bundle;
    }
  }

  /** What is left of a directory's files. */
  predicate SubFiles(rest: map<string, Entry>, files: map<string, Entry>) {
    forall name | name in rest :: name in files && rest[name] == files[name]
  }

  /** The five files a verification reads. */
  function ReadBy(manifestName: string, files: map<string, Entry>): set<string>
    requires Verify(manifestName, files).Verified?
  {
    var manifest := files[manifestName].content;
    var name := manifest.snapshotFile;
    {manifestName, name, manifest.anchorFile, files[manifest.anchorFile].content.generation, name + ".sha256"}
  }

  /** What is left of a bundle verifies, as the same, exactly when none of the files read is gone. */
  lemma RemainderVerifies(manifestName: string, files: map<string, Entry>, rest: map<string, Entry>)
    requires Verify(manifestName, files).Verified? && SubFiles(rest, files)
    ensures Verify(manifestName, rest) == if ReadBy(manifestName, files) <= rest.Keys then Verify(manifestName, files)
        else Invalid
  {
    forall name ensures Read(rest, name) == if name in rest then Read(files, name) else None {}
  }

  /** What is left of a published bundle verifies exactly when it is all there. */
  lemma PartVerifies(id: string, c: Committed, files: map<string, Entry>)
    requires IsIdentifier(id) && IsCommitted(c) && SubFiles(files, BundleOf(id, c))
    ensures Verify(ManifestName(id), files).Verified? <==> files == BundleOf(id, c)
  {
    NewBundleVerifies(id, c);
    if ManifestName(id) in files {
      VerifiesExactly(id, c, files);
    } else {
      RemainderVerifies(ManifestName(id), BundleOf(id, c), files);
    }
  }

  lemma NewBundleVerifies(id: string, c: Committed)
    requires IsIdentifier(id) && IsCommitted(c)
    ensures Verify(ManifestName(id), BundleOf(id, c)) == Verified(c.sequence, Sha256(c.payload))
    ensures BundleName(id)[|VISIBLE|..] == id
  {
    VerifiesExactly(id, c, BundleOf(id, c));
  }

  // ---- The backup directory ----------------------------------------------------------------

  predicate VerifiesAs(name: string, item: Item)
    requires IsVisible(name)
  {
    item.Directory? && Verify(ManifestName(name[|VISIBLE|..]), item.files).Verified?
  }

  /** Every bundle in view verifies. */
  ghost predicate AllVerify(items: map<string, Item>) {
    forall name | name in items && IsVisible(name) :: VerifiesAs(name, items[name])
  }

  /** Retention removes a bundle of ours that is older than the cutoff and verifies. */
  predicate Prunable(name: string, item: Item, cutoff: int) {
    IsVisible(name) && item.Directory? && item.mtime < cutoff && VerifiesAs(name, item)
  }

  /** A publication: the new bundle is in view, whole, or nothing else than its staging directory is there. */
  predicate Published(before: map<string, Item>, after: map<string, Item>, id: string, c: Committed, staging: string,
                      now: int, done: bool) {
    if done then BundleName(id) !in before && after == before[BundleName(id) := Directory(BundleOf(id, c), now)]
    else after - {staging} == before
  }

  /** Some of a directory's files are gone, the last of them at this time. */
  predicate IsRemainder(was: Item, item: Item, now: int) {
    && was.Directory? && item.Directory? && item.mtime == now
    && SubFiles(item.files, was.files) && item.files.Keys < was.files.Keys
  }

  predicate IsLeftOf(was: Item, item: Item, now: int) {
    item.Directory? && (item == was || IsRemainder(was, item, now))
  }

  /** One file of a directory removed. */
  function Unlinked(item: Item, file: string, now: int): Item
    requires item.Directory?
  {
    Directory(item.files - {file}, now)
  }

  lemma LessLeft(was: Item, item: Item, file: string, now: int)
    requires IsLeftOf(was, item, now) && file in item.files
    ensures IsRemainder(was, Unlinked(item, file, now), now) && |Unlinked(item, file, now).files| == |item.files| - 1
  {
    assert file in was.files.Keys && file !in Unlinked(item, file, now).files.Keys;
    assert Unlinked(item, file, now).files.Keys == item.files.Keys - {file};
  }

  /** As it was; or gone, and it was to be removed. */
  predicate LeftOrRemoved(before: map<string, Item>, after: map<string, Item>, name: string, cutoff: int)
    requires name in before
  {
    if name in after then after[name] == before[name] else Prunable(name, before[name], cutoff)
  }

  /** A removal, wherever it stopped: at most one bundle, `cut`, that was to be removed is there in part. */
  ghost predicate Pruned(before: map<string, Item>, after: map<string, Item>, cutoff: int, now: int,
                         cut: Option<string>) {
    && after.Keys <= before.Keys
    && (forall name | name in before && cut != Some(name) :: LeftOrRemoved(before, after, name, cutoff))
    && (cut.Some? ==>
          && cut.value in before && cut.value in after
          && Prunable(cut.value, before[cut.value], cutoff) && IsRemainder(before[cut.value], after[cut.value], now))
  }

  /** None of the files that verifying the bundle read is gone. */
  predicate Intact(name: string, was: Item, item: Item)
    requires IsVisible(name) && VerifiesAs(name, was) && item.Directory?
  {
    ReadBy(ManifestName(name[|VISIBLE|..]), was.files) <= item.files.Keys
  }

  /**
   * After a removal all bundles in view still verify exactly when the one there in part, if any, lacks no file that
   * is read.
   */
  lemma PrunedVerifies(before: map<string, Item>, after: map<string, Item>, cutoff: int, now: int, cut: Option<string>)
    requires Pruned(before, after, cutoff, now, cut) && AllVerify(before)
    ensures AllVerify(after) <==> cut.None? || Intact(cut.value, before[cut.value], after[cut.value])
  {
    forall name | name in after && IsVisible(name) && cut != Some(name) ensures VerifiesAs(name, after[name]) {
      assert LeftOrRemoved(before, after, name, cutoff);
    }
    if cut.Some? {
      RemainderVerifies(ManifestName(cut.value[|VISIBLE|..]), before[cut.value].files, after[cut.value].files);
    }
  }

  /** The names in the directory, each once, in the order it lists them. */
  ghost predicate Lists(listing: seq<string>, items: map<string, Item>) {
    && (forall name :: name in listing <==> name in items)
    && forall i, j | 0 <= i < j < |listing| :: listing[i] != listing[j]
  }

  /** What is to be removed. */
  function Doomed(items: map<string, Item>, cutoff: int): set<string> {
    set name | name in items && Prunable(name, items[name], cutoff)
  }

  /** The steps an item takes: a removed bundle one for each of its files, then one for the directory. */
  function StepsOf(items: map<string, Item>, name: string, doomed: set<string>): nat {
    if name in items && name in doomed && items[name].Directory? then |items[name].files| + 1 else 0
  }

  function Steps(items: map<string, Item>, listing: seq<string>, doomed: set<string>): nat {
    if listing == [] then 0
    else Steps(items, listing[..|listing| - 1], doomed) + StepsOf(items, listing[|listing| - 1], doomed)
  }

  /** The items once the doomed among these are removed. */
  function Without(items: map<string, Item>, listing: seq<string>, doomed: set<string>): map<string, Item> {
    map name | name in items && !(name in listing && name in doomed) :: items[name]
  }

  class BackupDirectory {
    var items: map<string, Item>

    constructor ()
      ensures items == map[]
    {
      items := map[];
    }

    /**
     * `staging`: the temporary directory made for it, under a name that is not in view. Wherever it
     * stops, nothing else changes, and a new bundle is in view either whole or not at all.
     */
    method Publish(id: string, staging: string, payload: Content, anchor: Content, generation: string, now: int,
                   fate: Fate, ghost c: Committed)
      returns (done: bool)
      requires IsIdentifier(id) && staging !in items && !IsVisible(staging) && staging != BundleName(id)
      requires IsCommitted(c) && payload == c.payload && anchor == AnchorOf(c)
          && generation == GenerationName(c.sequence)
      modifies this
      ensures done <==> Reaches(fate, 7) && BundleName(id) !in old(items)
      ensures Published(old(items), items, id, c, staging, now, done)
      // Only a process that died leaves its staging directory.
      ensures !done && !fate.DiesAfter? ==> items == old(items)
      ensures !done && fate.DiesAfter? ==> (staging in items <==> fate.steps >= 1)
      ensures old(AllVerify(items)) ==> AllVerify(items)
    {
      ghost var were := items;
      done := WriteAll(staging, FilesOf(id, payload, anchor, generation), now, fate);
      if done {
        FolderOfFiles(id, c);
        done := Reaches(fate, 7) && BundleName(id) !in items;
        if done {
          items := (items - {staging})[BundleName(id) := items[staging]];
          BundleInView(were, id, c, now);
        } else if !fate.DiesAfter? {
          items := items - {staging};
        }
      }
      if !done { NothingInView(were, items, staging); }
    }

    /** Every file written into the staging directory; one left unfinished is removed unless the process died. */
    method WriteAll(staging: string, list: seq<(string, Content)>, now: int, fate: Fate) returns (done: bool)
      requires staging !in items
      modifies this
      ensures done <==> Reaches(fate, |list| + 1)
      ensures done ==> items == old(items)[staging := Directory(Folder(list), now)]
      ensures !done ==> items - {staging} == old(items)
      ensures !done && fate.FailsAfter? ==> items == old(items)
      ensures !done && fate.DiesAfter? ==> (staging in items <==> fate.steps >= 1)
    {
      if !Reaches(fate, 1) { return false; }
      ghost var were := items;
      items := items[staging := Directory(map[], now)];
      for k := 0 to |list|
        invariant Reaches(fate, k + 1)
        invariant staging in items && items == were[staging := Directory(Folder(list[..k]), now)]
      {
        if !Reaches(fate, k + 2) {
          if fate.FailsAfter? { items := items - {staging}; }
          return false;
        }
        FolderStep(list, k);
        items := items[staging := Directory(items[staging].files[list[k].0 := File(list[k].1)], now)];
      }
      assert list[..|list|] == list;
      return true;
    }

    /** One after the other, in any order, the files of a directory are removed, and then the directory. */
    method RemoveTree(name: string, now: int, fate: Fate, step: nat) returns (done: bool)
      requires name in items && items[name].Directory? && Reaches(fate, step)
      modifies this
      ensures done <==> Reaches(fate, step + |old(items)[name].files| + 1)
      ensures done ==> items == old(items) - {name}
      ensures !done ==> name in items && items == old(items)[name := items[name]]
      ensures !done ==> IsLeftOf(old(items)[name], items[name], now)
      ensures !done ==> step + |old(items)[name].files| - |items[name].files| == fate.steps
    {
      ghost var were := items;
      var item, next := items[name], step;
      while item.files != map[]
        invariant items == were[name := item] && IsLeftOf(were[name], item, now)
        invariant Reaches(fate, next) && step <= next == step + |were[name].files| - |item.files|
        decreases |item.files|
      {
        if !Reaches(fate, next + 1) { return false; }
        var file :| file in item.files;
        LessLeft(were[name], item, file, now);
        item := Unlinked(item, file, now);
        items, next := items[name := item], next + 1;
      }
      if !Reaches(fate, next + 1) { return false; }
      items := items - {name};
      return true;
    }

    /** One item: removed if it is to be, as far as that gets. */
    method PruneOne(name: string, cutoff: int, now: int, fate: Fate, step: nat, ghost doomed: set<string>)
      returns (done: bool, next: nat)
      requires name in items && Reaches(fate, step) && (name in doomed <==> Prunable(name, items[name], cutoff))
      modifies this
      ensures done <==> Reaches(fate, step + StepsOf(old(items), name, doomed))
      ensures done ==> next == step + StepsOf(old(items), name, doomed)
      ensures done ==> items == if name in doomed then old(items) - {name} else old(items)
      ensures !done ==> name in doomed && name in items && items == old(items)[name := items[name]]
      ensures !done ==> IsLeftOf(old(items)[name], items[name], now)
    {
      done, next := true, step;
      if IsVisible(name) && items[name].Directory? && items[name].mtime < cutoff {
        if Verify(ManifestName(name[|VISIBLE|..]), items[name].files).Verified? {
          next := step + |items[name].files| + 1;
          done := RemoveTree(name, now, fate, step);
        }
      }
    }

    /**
     * Goes through the directory and removes the old bundles that verify. Wherever it stops, every
     * item is as it was or wholly removed, except one at most, which keeps some of its files.
     */
    method Prune(listing: seq<string>, cutoff: int, now: int, fate: Fate)
      returns (done: bool, ghost cut: Option<string>)
      requires Lists(listing, items)
      modifies this
      ensures done <==> Reaches(fate, Steps(old(items), listing, Doomed(old(items), cutoff)))
      ensures done ==> items == old(items) - Doomed(old(items), cutoff)
      ensures Pruned(old(items), items, cutoff, now, cut) && (done ==> cut.None?)
      ensures old(AllVerify(items)) ==>
          (AllVerify(items) <==> cut.None? || Intact(cut.value, old(items)[cut.value], items[cut.value]))
    {
      ghost var were := items;
      done, cut := PruneListed(listing, cutoff, now, fate, Doomed(items, cutoff));
      if AllVerify(were) { PrunedVerifies(were, items, cutoff, now, cut); }
    }

    method PruneListed(listing: seq<string>, cutoff: int, now: int, fate: Fate, ghost doomed: set<string>)
      returns (done: bool, ghost cut: Option<string>)
      requires Lists(listing, items) && doomed == Doomed(items, cutoff)
      modifies this
      ensures done <==> Reaches(fate, Steps(old(items), listing, doomed))
      ensures done ==> cut.None? && items == old(items) - doomed
      ensures Pruned(old(items), items, cutoff, now, cut)
    {
      ghost var were := items;
      var step: nat := 0;
      for i := 0 to |listing|
        invariant items == Without(were, listing[..i], doomed)
        invariant step == Steps(were, listing[..i], doomed) && Reaches(fate, step)
      {
        var name := listing[i];
        WithoutNext(were, listing, i, doomed);
        done, step := PruneOne(name, cutoff, now, fate, step, doomed);
        if !done {
          cut := if items[name] == were[name] then None else Some(name);
          StoppedAt(were, listing, i, items[name], cutoff, now, cut);
          return;
        }
      }
      StoppedBetween(were, listing, cutoff, now);
      return true, None;
    }
  }

  lemma WithoutNext(items: map<string, Item>, listing: seq<string>, i: nat, doomed: set<string>)
    requires Lists(listing, items) && i < |listing|
    ensures var name, rest := listing[i], Without(items, listing[..i], doomed);
            && name in items && name in rest && rest[name] == items[name]
            && Without(items, listing[..i + 1], doomed) == (if name in doomed then rest - {name} else rest)
            && Steps(items, listing[..i + 1], doomed)
                 == Steps(items, listing[..i], doomed) + StepsOf(rest, name, doomed)
            && Steps(items, listing[..i + 1], doomed) <= Steps(items, listing, doomed)
  {
    assert listing[..i + 1][..i] == listing[..i] && listing[..i + 1] == listing[..i] + [listing[i]];
    MoreSteps(items, listing, i + 1, doomed);
  }

  lemma {:induction false} MoreSteps(items: map<string, Item>, listing: seq<string>, i: nat, doomed: set<string>)
    requires i <= |listing|
    ensures Steps(items, listing[..i], doomed) <= Steps(items, listing, doomed)
  {
    if i == |listing| {
      assert listing[..i] == listing;
    } else {
      MoreSteps(items, listing[..|listing| - 1], i, doomed);
      assert listing[..|listing| - 1][..i] == listing[..i];
    }
  }

  lemma StoppedBetween(items: map<string, Item>, listing: seq<string>, cutoff: int, now: int)
    requires Lists(listing, items)
    ensures var doomed := Doomed(items, cutoff);
            && listing[..|listing|] == listing && Without(items, listing, doomed) == items - doomed
            && Pruned(items, Without(items, listing, doomed), cutoff, now, None)
  {
  }

  lemma StoppedAt(items: map<string, Item>, listing: seq<string>, i: nat, item: Item, cutoff: int, now: int,
                  cut: Option<string>)
    requires i < |listing| && listing[i] in items && listing[i] in Doomed(items, cutoff)
    requires if cut.None? then item == items[listing[i]]
        else cut == Some(listing[i]) && IsRemainder(items[listing[i]], item, now)
    ensures Pruned(items, Without(items, listing[..i], Doomed(items, cutoff))[listing[i] := item], cutoff, now, cut)
  {
  }

  lemma NothingInView(before: map<string, Item>, after: map<string, Item>, staging: string)
    requires after - {staging} == before && !IsVisible(staging)
    ensures AllVerify(before) ==> AllVerify(after)
  {
    forall name | name in after && IsVisible(name) ensures name in before && before[name] == after[name] {
      assert name in after - {staging};
    }
  }

  lemma BundleInView(before: map<string, Item>, id: string, c: Committed, now: int)
    requires IsIdentifier(id) && IsCommitted(c)
    ensures AllVerify(before) ==> AllVerify(before[BundleName(id) := Directory(BundleOf(id, c), now)])
  {
    NewBundleVerifies(id, c);
  }

  /** A captured generation, once published, verifies as that very generation, not older than the synchronized one. */
  lemma BackupVerifies(log: seq<Committed>, from: int, synced: Synced, r: Capture, id: string)
    requires Ordered(log) && CapturedSince(log, from, synced, r) && IsIdentifier(id)
    ensures r.Captured? && r.anchor.Anchor? && r.anchor.sequence >= synced.sequence
    ensures Verify(ManifestName(id), Folder(FilesOf(id, r.payload, r.anchor, r.generation)))
        == Verified(r.anchor.sequence, Sha256(r.payload))
  {
    var i :| 0 <= i < |log| && from <= i && IsCaptured(log[i], synced, r);
    FolderOfFiles(id, log[i]);
    NewBundleVerifies(id, log[i]);
  }
}
