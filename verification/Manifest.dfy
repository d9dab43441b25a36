/** The manifest that gates the deletion of an archived day: one line per file, printed by the
    source host and parsed by the verification of the copy. Text stands for its UTF-8 bytes:
    encoding is injective and keeps the order of names. */
module Manifest {
  import opened Contracts
  import opened Sorting

  type Bytes = seq<bv8>

  /** A directory tree of regular files: relative path to content. */
  type Tree = map<string, Bytes>

  predicate IsHex(c: char) {
    '0' <= c <= '9' || 'a' <= c <= 'f'
  }

  predicate IsDigest(s: string) {
    |s| == 64 && forall i :: 0 <= i < |s| ==> IsHex(s[i])
  }

  /** A hexadecimal SHA-256. */
  type Digest = s: string | IsDigest(s) witness seq(64, i => '0')

  /** The two uses of the hash function: of a manifest and of a file. */
  datatype Hashing = Hashing(text: string -> Digest, file: Bytes -> Digest)

  // ----- printing

  function Line(digest: Digest, name: string): string {
    digest + "  ./" + name
  }

  function Print(files: seq<(string, Digest)>): string {
    if files == [] then [] else Line(files[0].1, files[0].0) + "\n" + Print(files[1..])
  }

  lemma {:induction false} PrintAppend(files: seq<(string, Digest)>, file: (string, Digest))
    ensures Print(files + [file]) == Print(files) + Line(file.1, file.0) + "\n"
    decreases |files|
  {
    if files == [] {
      assert files + [file] == [file] && [file][1..] == [];
    } else {
      assert (files + [file])[1..] == files[1..] + [file];
      PrintAppend(files[1..], file);
    }
  }

  // ----- splitting into lines

  /** The characters at which `str.splitlines` breaks a line. */
  predicate IsBreak(c: char) {
    || c == '\n' || c == '\r' || c == '\U{0B}' || c == '\U{0C}' || c == '\U{1C}' || c == '\U{1D}' || c == '\U{1E}'
    || c == '\U{85}' || c == '\U{2028}' || c == '\U{2029}'
  }

  predicate OneLine(text: string) {
    forall i :: 0 <= i < |text| ==> !IsBreak(text[i])
  }

  function FirstBreak(text: string): (at: nat)
    ensures at <= |text| && OneLine(text[..at]) && (at < |text| ==> IsBreak(text[at]))
  {
    if text == [] || IsBreak(text[0]) then 0
    else
      var rest := FirstBreak(text[1..]);
      assert text[..rest + 1] == [text[0]] + text[1..][..rest];
      rest + 1
  }

  /** A carriage return and the line feed after it are one break. */
  function BreakWidth(text: string, at: nat): (width: nat)
    requires at < |text|
    ensures 1 <= width <= |text| - at
  {
    if text[at] == '\r' && at + 1 < |text| && text[at + 1] == '\n' then 2 else 1
  }

  /** `str.splitlines`. */
  function SplitLines(text: string): (lines: seq<string>)
    ensures forall i :: 0 <= i < |lines| ==> OneLine(lines[i])
    decreases |text|
  {
    if text == [] then []
    else
      var at := FirstBreak(text);
      if at == |text| then
        assert text[..at] == text;
        [text]
      else [text[..at]] + SplitLines(text[at + BreakWidth(text, at)..])
  }

  lemma SplitFirst(line: string, rest: string)
    requires OneLine(line)
    ensures SplitLines(line + "\n" + rest) == [line] + SplitLines(rest)
  {
    var text := line + "\n" + rest;
    var at := FirstBreak(text);
    assert (forall i :: 0 <= i < |line| ==> text[i] == line[i]) && text[|line|] == '\n';
    assert forall i :: 0 <= i < at ==> text[..at][i] == text[i];
    assert at == |line|;
    assert text[..at] == line && text[at + 1..] == rest && text[at] == '\n';
  }

  /** Any break ends a line, a carriage return takes the line feed after it along, and what follows the
      last break is a line if it is not empty. */
  lemma SplitRules(line: string, c: char, rest: string)
    requires OneLine(line) && IsBreak(c)
    ensures SplitLines(line) == if line == "" then [] else [line]
    ensures SplitLines(line + [c] + rest)
         == [line] + SplitLines(if c == '\r' && rest != "" && rest[0] == '\n' then rest[1..] else rest)
  {
    var text := line + [c] + rest;
    var at := FirstBreak(text);
    assert (forall i :: 0 <= i < |line| ==> text[i] == line[i]) && text[|line|] == c;
    assert forall i :: 0 <= i < at ==> text[..at][i] == text[i];
    assert at == |line|;
    assert text[..at] == line && text[at + 1..] == rest;
    if c == '\r' && rest != "" && rest[0] == '\n' {
      assert text[at + 1] == '\n' && text[at + 2..] == rest[1..];
    }
  }

  // ----- parsing

  /** The line pattern: 64 hexadecimal digits, two spaces, `./` and a non-empty path. */
  function ParseLine(line: string): (entry: Option<(string, Digest)>)
    ensures entry.Some? ==> line == Line(entry.value.1, entry.value.0) && entry.value.0 != []
  {
    if |line| > 68 && IsDigest(line[..64]) && line[64..68] == "  ./" && '\n' !in line[68..] then
      assert line == line[..64] + line[64..68] + line[68..];
      var digest: Digest := line[..64];
      Some((line[68..], digest))
    else None
  }

  lemma ParsePrintedLine(digest: Digest, name: string)
    requires name != [] && OneLine(name)
    ensures ParseLine(Line(digest, name)) == Some((name, digest))
  {
    var line := Line(digest, name);
    assert line[..64] == digest && line[64..68] == "  ./" && line[68..] == name;
  }

  /** No result for an invalid line or a repeated path. */
  function ParseLines(lines: seq<string>): Option<map<string, Digest>> {
    if lines == [] then Some(map[])
    else
      var before, entry := ParseLines(lines[..|lines| - 1]), ParseLine(lines[|lines| - 1]);
      if before.None? || entry.None? || entry.value.0 in before.value then None
      else Some(before.value[entry.value.0 := entry.value.1])
  }

  function Parse(text: string): Option<map<string, Digest>> {
    ParseLines(SplitLines(text))
  }

  // ----- the round trip

  /** Code point order, which is the order of the UTF-8 bytes. */
  predicate NotAfter(a: string, b: string) {
    a == [] || (b != [] && (a[0] < b[0] || (a[0] == b[0] && NotAfter(a[1..], b[1..]))))
  }

  /** `lower()`, of ASCII letters. */
  function LowerChar(c: char): char {
    if 'A' <= c <= 'Z' then (c as int + 32) as char else c
  }

  function Lower(s: string): string {
    seq(|s|, i requires 0 <= i < |s| => LowerChar(s[i]))
  }

  /** The characters a line, a digest and lower-casing tell apart, by their code points. */
  lemma CharacterClasses(c: char)
    ensures IsBreak(c) <==> c as int in {10, 11, 12, 13, 28, 29, 30, 133, 8232, 8233}
    ensures IsHex(c) <==> 48 <= c as int <= 57 || 97 <= c as int <= 102
    ensures LowerChar(c) as int == c as int + if 65 <= c as int <= 90 then 32 else 0
  {
  }

  ghost predicate SmallerAt(a: string, b: string, k: int) {
    0 <= k < |a| && k < |b| && a[k] < b[k] && forall i :: 0 <= i < k ==> a[i] == b[i]
  }

  ghost predicate Smaller(a: string, b: string) {
    exists k :: SmallerAt(a, b, k)
  }

  lemma SmallerTail(a: string, b: string)
    requires a != [] && b != [] && a[0] == b[0]
    ensures Smaller(a, b) <==> Smaller(a[1..], b[1..])
  {
    if k :| SmallerAt(a, b, k) {
      assert SmallerAt(a[1..], b[1..], k - 1);
    }
    if k :| SmallerAt(a[1..], b[1..], k) {
      forall i | 0 < i < k + 1 ensures a[i] == b[i] {
        assert a[1..][i - 1] == b[1..][i - 1];
      }
      assert SmallerAt(a, b, k + 1);
    }
  }

  /** Equal, a prefix, or smaller at the first place they differ. */
  lemma {:induction false} NotAfterIff(a: string, b: string)
    ensures NotAfter(a, b) <==> a <= b || Smaller(a, b)
    decreases |a|
  {
    if a != [] && b != [] && a[0] == b[0] {
      NotAfterIff(a[1..], b[1..]);
      SmallerTail(a, b);
      assert a == [a[0]] + a[1..] && b == [b[0]] + b[1..];
    } else if a != [] && b != [] && a[0] < b[0] {
      assert SmallerAt(a, b, 0);
    }
  }

  lemma LowerAgain(s: string)
    ensures Lower(Lower(s)) == Lower(s)
  {
  }

  predicate NameBefore(a: (string, Digest), b: (string, Digest)) {
    NotAfter(a.0, b.0) && a.0 != b.0
  }

  predicate NameNotAfter(a: (string, Digest), b: (string, Digest)) {
    NotAfter(a.0, b.0)
  }

  /** The files of a tree with their digests, in the order of their names. */
  ghost predicate IsListing(files: seq<(string, Digest)>, tree: Tree, hashing: Hashing) {
    && StrictlySorted(files, NameBefore)
    && (forall i :: 0 <= i < |files| ==> files[i].0 in tree && files[i].1 == hashing.file(tree[files[i].0]))
    && (forall name :: name in tree ==> exists i :: 0 <= i < |files| && files[i].0 == name)
  }

  function Digests(tree: Tree, hashing: Hashing): map<string, Digest> {
    map name | name in tree :: hashing.file(tree[name])
  }

  ghost predicate LineNames(tree: Tree) {
    forall name :: name in tree ==> OneLine(name)
  }

  ghost predicate Named(tree: Tree) {
    forall name :: name in tree ==> name != []
  }

  lemma {:induction false} NotAfterTotal(a: string, b: string)
    ensures NotAfter(a, b) || NotAfter(b, a)
    ensures NotAfter(a, b) && NotAfter(b, a) ==> a == b
    decreases |a|
  {
    if a != [] && b != [] && a[0] == b[0] {
      NotAfterTotal(a[1..], b[1..]);
      assert a == [a[0]] + a[1..] && b == [b[0]] + b[1..];
    }
  }

  lemma {:induction false} NotAfterTransitive(a: string, b: string, c: string)
    requires NotAfter(a, b) && NotAfter(b, c)
    ensures NotAfter(a, c)
    decreases |a|
  {
    if a != [] && a[0] == b[0] == c[0] {
      NotAfterTransitive(a[1..], b[1..], c[1..]);
    }
  }

  lemma TextsAreOrdered()
    ensures TotalPreorder(NotAfter)
    ensures forall a, b :: NotAfter(a, b) && NotAfter(b, a) ==> a == b
  {
    forall a, b ensures (NotAfter(a, b) || NotAfter(b, a)) && (NotAfter(a, b) && NotAfter(b, a) ==> a == b) {
      NotAfterTotal(a, b);
    }
    forall a, b, c | NotAfter(a, b) && NotAfter(b, c) ensures NotAfter(a, c) {
      NotAfterTransitive(a, b, c);
    }
  }

  lemma NamesAreOrdered()
    ensures TotalPreorder(NameNotAfter)
    ensures forall a, b :: NameBefore(a, b) ==> !NameBefore(b, a) && a != b
  {
    forall a, b ensures NameNotAfter(a, b) || NameNotAfter(b, a) {
      NotAfterTotal(a.0, b.0);
    }
    forall a, b, c | NameNotAfter(a, b) && NameNotAfter(b, c) ensures NameNotAfter(a, c) {
      NotAfterTransitive(a.0, b.0, c.0);
    }
    forall a, b | NameBefore(a, b) ensures !NameBefore(b, a) {
      NotAfterTotal(a.0, b.0);
    }
  }

  /** A tree has one listing, so the manifest is a function of the tree. */
  lemma ListingUnique(a: seq<(string, Digest)>, b: seq<(string, Digest)>, tree: Tree, hashing: Hashing)
    requires IsListing(a, tree, hashing) && IsListing(b, tree, hashing)
    ensures a == b
  {
    NamesAreOrdered();
    ListingWithin(a, b, tree, hashing);
    ListingWithin(b, a, tree, hashing);
    StrictlySortedUnique(a, b, NameBefore);
  }

  lemma ListingWithin(a: seq<(string, Digest)>, b: seq<(string, Digest)>, tree: Tree, hashing: Hashing)
    requires IsListing(a, tree, hashing) && IsListing(b, tree, hashing)
    ensures forall i :: 0 <= i < |a| ==> a[i] in b
  {
    forall i | 0 <= i < |a| ensures a[i] in b {
      var j :| 0 <= j < |b| && b[j].0 == a[i].0;
      assert b[j] == a[i];
    }
  }

  function LinesOf(files: seq<(string, Digest)>): seq<string> {
    seq(|files|, i requires 0 <= i < |files| => Line(files[i].1, files[i].0))
  }

  lemma DigestIsOneLine(digest: Digest, name: string)
    ensures OneLine(Line(digest, name)) <==> OneLine(name)
  {
    var line := Line(digest, name);
    assert forall i :: 0 <= i < 64 ==> line[i] == digest[i] && IsHex(digest[i]);
    assert line[64..68] == "  ./" && forall i :: 0 <= i < |name| ==> line[68 + i] == name[i];
    assert line[64] == ' ' && line[65] == ' ' && line[66] == '.' && line[67] == '/';
    if OneLine(name) {
      forall i | 68 <= i < |line| ensures !IsBreak(line[i]) {
        assert line[i] == name[i - 68];
      }
    }
  }

  lemma {:induction false} SplitPrint(files: seq<(string, Digest)>)
    requires forall i :: 0 <= i < |files| ==> OneLine(files[i].0)
    ensures SplitLines(Print(files)) == LinesOf(files)
    decreases |files|
  {
    if files != [] {
      DigestIsOneLine(files[0].1, files[0].0);
      SplitFirst(Line(files[0].1, files[0].0), Print(files[1..]));
      SplitPrint(files[1..]);
      assert LinesOf(files) == [Line(files[0].1, files[0].0)] + LinesOf(files[1..]);
    }
  }

  lemma {:induction false} ParsePrinted(files: seq<(string, Digest)>)
    requires forall i :: 0 <= i < |files| ==> files[i].0 != [] && OneLine(files[i].0)
    requires forall i, j :: 0 <= i < j < |files| ==> files[i].0 != files[j].0
    ensures var parsed := ParseLines(LinesOf(files));
            && parsed.Some?
            && (forall i :: 0 <= i < |files| ==> files[i].0 in parsed.value && parsed.value[files[i].0] == files[i].1)
            && (forall name :: name in parsed.value ==> exists i :: 0 <= i < |files| && files[i].0 == name)
    decreases |files|
  {
    if files != [] {
      var front, last := files[..|files| - 1], files[|files| - 1];
      assert LinesOf(files)[..|files| - 1] == LinesOf(front);
      ParsePrinted(front);
      ParsePrintedLine(last.1, last.0);
    }
  }

  /** A parsed path is a part of one line. */
  lemma {:induction false} ParsedNames(lines: seq<string>)
    requires forall i :: 0 <= i < |lines| ==> OneLine(lines[i])
    ensures ParseLines(lines).Some? ==> forall name :: name in ParseLines(lines).value ==> name != [] && OneLine(name)
    decreases |lines|
  {
    if lines != [] {
      ParsedNames(lines[..|lines| - 1]);
      var entry := ParseLine(lines[|lines| - 1]);
      if entry.Some? {
        DigestIsOneLine(entry.value.1, entry.value.0);
      }
    }
  }

  lemma ListedDigests(files: seq<(string, Digest)>, tree: Tree, hashing: Hashing, parsed: map<string, Digest>)
    requires IsListing(files, tree, hashing)
    requires forall i :: 0 <= i < |files| ==> files[i].0 in parsed && parsed[files[i].0] == files[i].1
    requires forall name :: name in parsed ==> exists i :: 0 <= i < |files| && files[i].0 == name
    ensures parsed == Digests(tree, hashing)
  {
    forall name | name in tree ensures name in parsed && parsed[name] == hashing.file(tree[name]) {
      var i :| 0 <= i < |files| && files[i].0 == name;
    }
  }

  lemma RoundTrip(files: seq<(string, Digest)>, tree: Tree, hashing: Hashing)
    requires IsListing(files, tree, hashing) && Named(tree) && LineNames(tree)
    ensures Parse(Print(files)) == Some(Digests(tree, hashing))
  {
    SplitPrint(files);
    forall i, j | 0 <= i < j < |files| ensures files[i].0 != files[j].0 {
      assert NameBefore(files[i], files[j]);
    }
    ParsePrinted(files);
    ListedDigests(files, tree, hashing, ParseLines(LinesOf(files)).value);
  }

  /** Parsing the printed manifest gives back exactly the digests of the tree, if and only if no
      file name contains a line break. */
  lemma RoundTripIff(files: seq<(string, Digest)>, tree: Tree, hashing: Hashing)
    requires IsListing(files, tree, hashing) && Named(tree)
    ensures Parse(Print(files)) == Some(Digests(tree, hashing)) <==> LineNames(tree)
  {
    if LineNames(tree) {
      RoundTrip(files, tree, hashing);
    } else {
      var name :| name in tree && !OneLine(name);
      ParsedNames(SplitLines(Print(files)));
      assert name in Digests(tree, hashing);
    }
  }

  /** Hence trees without such names that print the same manifest have the same digests. */
  lemma PrintInjective(
    a: seq<(string, Digest)>, ta: Tree, b: seq<(string, Digest)>, tb: Tree, hashing: Hashing)
    requires IsListing(a, ta, hashing) && IsListing(b, tb, hashing) && Named(ta) && Named(tb)
    requires LineNames(ta) && LineNames(tb) && Print(a) == Print(b)
    ensures Digests(ta, hashing) == Digests(tb, hashing)
  {
    RoundTripIff(a, ta, hashing);
    RoundTripIff(b, tb, hashing);
  }

  /** With a line break in a name two different trees print the same manifest. */
  lemma BreaksAreAmbiguous(hashing: Hashing, x: Bytes, y: Bytes)
    ensures var odd := "a" + "\n" + Line(hashing.file(y), "b");
            && IsListing([("a", hashing.file(x)), ("b", hashing.file(y))], map["a" := x, "b" := y], hashing)
            && IsListing([(odd, hashing.file(x))], map[odd := x], hashing)
            && Print([("a", hashing.file(x)), ("b", hashing.file(y))]) == Print([(odd, hashing.file(x))])
  {
    var two, odd := [("a", hashing.file(x)), ("b", hashing.file(y))], "a" + "\n" + Line(hashing.file(y), "b");
    var one := [(odd, hashing.file(x))];
    assert two[1..] == [two[1]] && |one[1..]| == 0;
    assert NameBefore(two[0], two[1]) by {
      assert "a"[0] < "b"[0];
    }
    assert two[0].0 == "a" && two[1].0 == "b" && one[0].0 == odd;
    assert Print([two[1]]) == Line(hashing.file(y), "b") + "\n";
    assert Print(one) == Line(hashing.file(x), odd) + "\n";
    assert Line(hashing.file(x), odd) == Line(hashing.file(x), "a") + "\n" + Line(hashing.file(y), "b");
  }
}
