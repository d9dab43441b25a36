/** The two ends of an archive deletion: the verification of the copy on the NAS and the
    hash-gated pruning of the source day. */
module NasArchive {
  import opened Contracts
  import opened Sorting
  import opened Manifest

  const RECEIPT_FILES: set<string> := {".archive_manifest.sha256", ".archive_receipt.json"}

  datatype SourceManifest = SourceManifest(sha: Digest, fileCount: nat)

  /** The parsed receipt of a day; `schemaKnown` says that it names the supported schema. */
  datatype Receipt = Receipt(schemaKnown: bool, day: int, source: string, manifestSha: string, fileCount: int)

  function Payload(archive: Tree): Tree {
    archive - RECEIPT_FILES
  }

  // ----- the source side

  /** The files of a tree as the directory walk yields them, in any order. */
  ghost predicate IsWalk(pairs: seq<(string, Digest)>, tree: Tree, left: set<string>, hashing: Hashing) {
    && (forall i :: 0 <= i < |pairs| ==>
          pairs[i].0 in tree && pairs[i].0 !in left && pairs[i].1 == hashing.file(tree[pairs[i].0]))
    && (forall i, j :: 0 <= i < j < |pairs| ==> pairs[i].0 != pairs[j].0)
    && (forall name :: name in tree && name !in left ==> exists i :: 0 <= i < |pairs| && pairs[i].0 == name)
    && |pairs| + |left| == |tree|
  }

  lemma SortedWalk(pairs: seq<(string, Digest)>, tree: Tree, hashing: Hashing)
    requires IsWalk(pairs, tree, {}, hashing)
    ensures IsListing(SortBy(pairs, NameNotAfter), tree, hashing)
  {
    var files := SortBy(pairs, NameNotAfter);
    NamesAreOrdered();
    SortBySorted(pairs, NameNotAfter);
    SortByPermutes(pairs, NameNotAfter);
    assert forall i :: 0 <= i < |files| ==> files[i] in files && files[i] in pairs;
    assert forall i :: 0 <= i < |pairs| ==> pairs[i] in pairs && pairs[i] in files;
    DistinctNames(pairs, files);
  }

  lemma DistinctNames(pairs: seq<(string, Digest)>, files: seq<(string, Digest)>)
    requires forall i, j :: 0 <= i < j < |pairs| ==> pairs[i].0 != pairs[j].0
    requires multiset(files) == multiset(pairs)
    ensures forall i, j :: 0 <= i < j < |files| ==> files[i].0 != files[j].0
  {
    assert forall i, j :: 0 <= i < j < |pairs| ==> pairs[i].0 != pairs[j].0 && pairs[i] != pairs[j];
    DistinctPermutation(pairs, files);
    forall i, j | 0 <= i < j < |files| ensures files[i].0 != files[j].0 {
      assert files[i] in multiset(files) && files[j] in multiset(files);
      var a :| 0 <= a < |pairs| && pairs[a] == files[i];
      var b :| 0 <= b < |pairs| && pairs[b] == files[j];
    }
  }

  lemma WalkStep(pairs: seq<(string, Digest)>, tree: Tree, left: set<string>, name: string, hashing: Hashing)
    requires IsWalk(pairs, tree, left, hashing) && name in left && left <= tree.Keys
    ensures IsWalk(pairs + [(name, hashing.file(tree[name]))], tree, left - {name}, hashing)
  {
    var more := pairs + [(name, hashing.file(tree[name]))];
    assert more[|pairs|].0 == name;
    forall n | n in tree && n !in left - {name} ensures exists i :: 0 <= i < |more| && more[i].0 == n {
      if n !in left {
        var i :| 0 <= i < |pairs| && pairs[i].0 == n;
        assert more[i].0 == n;
      }
    }
  }

  method Walk(tree: Tree, hashing: Hashing) returns (pairs: seq<(string, Digest)>)
    ensures IsWalk(pairs, tree, {}, hashing)
  {
    pairs := [];
    var left := tree.Keys;
    while left != {}
      invariant left <= tree.Keys && IsWalk(pairs, tree, left, hashing)
      decreases left
    {
      var name :| name in left;
      WalkStep(pairs, tree, left, name, hashing);
      pairs := pairs + [(name, hashing.file(tree[name]))];
      left := left - {name};
    }
  }

  method PrintFiles(files: seq<(string, Digest)>) returns (text: string)
    ensures text == Print(files)
  {
    text := "";
    for i := 0 to |files|
      invariant text == Print(files[..i])
    {
      PrintAppend(files[..i], files[i]);
      assert files[..i + 1] == files[..i] + [files[i]];
      text := text + Line(files[i].1, files[i].0) + "\n";
    }
    assert files[..|files|] == files;
  }

  /** `build_source_manifest`; no result stands for the error on an empty day. */
  method BuildSourceManifest(
    tree: Tree, hashing: Hashing) returns (manifest: Option<SourceManifest>, ghost files: seq<(string, Digest)>)
    ensures manifest.None? <==> tree == map[]
    ensures IsListing(files, tree, hashing)
    ensures manifest.Some? ==> manifest.value == SourceManifest(hashing.text(Print(files)), |tree|)
  {
    var pairs := Walk(tree, hashing);
    var sorted := SortBy(pairs, NameNotAfter);
    SortedWalk(pairs, tree, hashing);
    files := sorted;
    if sorted == [] {
      assert |tree| == 0;
      return None, files;
    }
    assert |tree| != 0;
    var text := PrintFiles(sorted);
    manifest := Some(SourceManifest(hashing.text(text), |sorted|));
  }

  /** When a source day may be pruned. */
  ghost predicate MayPruneDay(
    days: map<int, Tree>, day: int, expected: string, count: int, today: int, hashing: Hashing,
    files: seq<(string, Digest)>)
  {
    && day < today && day in days && days[day] != map[] && count == |days[day]|
    && IsListing(files, days[day], hashing) && Lower(expected) == hashing.text(Print(files))
  }

  class SourceArchive {
    var days: map<int, Tree>

    constructor (days: map<int, Tree>)
      ensures this.days == days
    {
      this.days := days;
    }

    /** `prune_verified_redacted_day`: removes the day, or with `apply` off only says that it may. */
    method PruneVerifiedRedactedDay(day: int, expected: string, count: int, apply: bool, today: int, hashing: Hashing)
      returns (ok: bool, ghost files: seq<(string, Digest)>)
      modifies this
      ensures ok <==> MayPruneDay(old(days), day, expected, count, today, hashing, files)
      ensures ok ==> forall listing :: IsListing(listing, old(days)[day], hashing) ==> listing == files
      ensures days == if ok && apply then old(days) - {day} else old(days)
    {
      files := [];
      if day >= today {
        return false, files;
      }
      var expectedHash := Lower(expected);
      if !IsDigest(expectedHash) || count < 1 || day !in days {
        return false, files;
      }
      var observed;
      observed, files := BuildSourceManifest(days[day], hashing);
      if observed.None? || observed.value.sha != expectedHash || observed.value.fileCount != count {
        return false, files;
      }
      forall listing | IsListing(listing, days[day], hashing) ensures listing == files {
        ListingUnique(listing, files, days[day], hashing);
      }
      if apply {
        days := days - {day};
      }
      return true, files;
    }
  }

  // ----- the copy

  /** The entries of a manifest that the payload satisfies. */
  ghost predicate Matches(entries: map<string, Digest>, archive: Tree, hashing: Hashing) {
    forall name :: name in entries ==> name in archive && hashing.file(archive[name]) == entries[name]
  }

  ghost predicate CopyVerified(
    archive: Tree, receipt: Receipt, manifest: string, day: int, source: string, hashing: Hashing)
  {
    var entries := Parse(manifest);
    && entries.Some? && entries.value != map[] && Matches(entries.value, archive, hashing)
    && archive.Keys - {".archive_manifest.sha256", ".archive_receipt.json"} == entries.value.Keys
    && receipt == Receipt(true, day, source, hashing.text(manifest), |entries.value|)
  }

  lemma {:induction false} ParsePrefix(lines: seq<string>, k: nat)
    requires k <= |lines| && ParseLines(lines[..k]).None?
    ensures ParseLines(lines).None?
    decreases |lines| - k
  {
    if k == |lines| {
      assert lines[..k] == lines;
    } else {
      assert lines[..k + 1][..k] == lines[..k];
      ParsePrefix(lines, k + 1);
    }
  }

  lemma {:induction false} ParsedPrefix(lines: seq<string>, k: nat)
    requires k <= |lines| && ParseLines(lines).Some?
    ensures ParseLines(lines[..k]).Some?
    ensures forall name :: name in ParseLines(lines[..k]).value ==>
              name in ParseLines(lines).value && ParseLines(lines).value[name] == ParseLines(lines[..k]).value[name]
    decreases |lines|
  {
    if k == |lines| {
      assert lines[..k] == lines;
    } else {
      var front := lines[..|lines| - 1];
      ParsedPrefix(front, k);
      assert front[..k] == lines[..k];
    }
  }

  /** `verify_redacted_archive_receipt`; the result is the manifest's hash and file count. */
  method VerifyReceipt(archive: Tree, receipt: Receipt, manifest: string, day: int, source: string, hashing: Hashing)
    returns (verified: Option<(Digest, nat)>)
    ensures verified.Some? <==> CopyVerified(archive, receipt, manifest, day, source, hashing)
    ensures verified.Some? ==> verified.value == (hashing.text(manifest), |Parse(manifest).value|)
  {
    var lines, entries: map<string, Digest> := SplitLines(manifest), map[];
    for i := 0 to |lines|
      invariant ParseLines(lines[..i]) == Some(entries) && Matches(entries, archive, hashing)
    {
      assert lines[..i + 1][..i] == lines[..i];
      var entry := ParseLine(lines[i]);
      if entry.None? || entry.value.0 in entries {
        ParsePrefix(lines, i + 1);
        return None;
      }
      var (name, expected) := entry.value;
      if name !in archive || hashing.file(archive[name]) != expected {
        MismatchStays(lines, i + 1, archive, hashing, name);
        return None;
      }
      entries := entries[name := expected];
    }
    assert lines[..|lines|] == lines;
    if entries == map[] || Payload(archive).Keys != entries.Keys {
      return None;
    }
    if receipt != Receipt(true, day, source, hashing.text(manifest), |entries|) {
      return None;
    }
    assert |Payload(archive)| == |Payload(archive).Keys| == |entries.Keys|;
    return Some((hashing.text(manifest), |entries|));
  }

  lemma MismatchStays(lines: seq<string>, k: nat, archive: Tree, hashing: Hashing, name: string)
    requires k <= |lines| && ParseLines(lines[..k]).Some? && name in ParseLines(lines[..k]).value
    requires name !in archive || hashing.file(archive[name]) != ParseLines(lines[..k]).value[name]
    ensures ParseLines(lines).Some? ==> !Matches(ParseLines(lines).value, archive, hashing)
  {
    if ParseLines(lines).Some? {
      ParsedPrefix(lines, k);
    }
  }

  // ----- both together

  /** Equal hashes among these files mean equal contents. */
  ghost predicate NoCollision(hashing: Hashing, a: Tree, b: Tree) {
    forall x, y :: x in a && y in b && hashing.file(a[x]) == hashing.file(b[y]) ==> a[x] == b[y]
  }

  /** When the copy is verified against a manifest and the source day is pruned against the same
      manifest hash, the deleted tree and the copied payload are the same map, if and only if no
      deleted file name contains a line break. */
  lemma DeletedIsCopiedIff(
    days: map<int, Tree>, day: int, expected: string, count: int, today: int, files: seq<(string, Digest)>,
    archive: Tree, receipt: Receipt, manifest: string, source: string, hashing: Hashing)
    requires MayPruneDay(days, day, expected, count, today, hashing, files) && Named(days[day])
    requires CopyVerified(archive, receipt, manifest, day, source, hashing)
    requires Lower(expected) == receipt.manifestSha
    requires hashing.text(Print(files)) == hashing.text(manifest) ==> Print(files) == manifest
    requires NoCollision(hashing, days[day], archive)
    ensures days[day] == Payload(archive) <==> LineNames(days[day])
  {
    var tree, entries := days[day], Parse(manifest).value;
    assert Print(files) == manifest;
    RoundTripIff(files, tree, hashing);
    if LineNames(tree) {
      assert entries == Digests(tree, hashing);
      forall name | name in tree ensures name in Payload(archive) && tree[name] == archive[name] {
        assert name in entries && hashing.file(archive[name]) == entries[name] == hashing.file(tree[name]);
      }
    }
    if tree == Payload(archive) {
      ParsedNames(SplitLines(manifest));
    }
  }
}
