/** Deterministic evaluation of one knowledge area: hashes over direct files and child summaries,
    compared with the stored insight state. */
module Evaluation {
  import opened Basics
  import opened Strings
  import opened Topology

  /** A digest is never the empty text. */
  datatype Digest = Digest(first: char, rest: string) {
    function Hex(): string { [first] + rest }
  }

  /** SHA-256 as an arbitrary deterministic function. */
  type Sha = string -> Digest

  /** A readable direct file; text marks the extensions whose line endings are normalised. */
  datatype File = File(name: string, content: string, text: bool)

  datatype Area = Area(files: seq<File>, children: seq<string>)

  /** The knowledge directories and what each contains; it does not change during a batch. */
  type Tree = map<string, Area>

  datatype Meta = Meta(
    contentHash: Option<string>, summaryHash: Option<string>, structureHash: Option<string>, lastRegen: Option<int>)

  /** A directory listing names every child once, and every child directory is itself in the tree. */
  ghost predicate ValidTree(tree: Tree) {
    forall p :: p in tree ==> ValidArea(tree, p)
  }

  ghost predicate ValidArea(tree: Tree, p: string)
    requires p in tree
  {
    && Distinct(tree[p].children)
    && forall c :: c in tree[p].children ==> ValidName(c) && ChildPath(p, c) in tree
  }

  // ---------- hashing ----------

  /** \r\n and \r both become \n. */
  function UnixNewlines(s: string): string {
    if s == "" then ""
    else if s[0] == '\r' then
      "\n" + UnixNewlines(if |s| > 1 && s[1] == '\n' then s[2..] else s[1..])
    else [s[0]] + UnixNewlines(s[1..])
  }

  function HashedBytes(f: File): string {
    if f.text then UnixNewlines(f.content) else f.content
  }

  function Texts(pairs: seq<(string, string)>): (r: seq<string>)
    ensures |r| == |pairs| && forall i :: 0 <= i < |r| ==> r[i] == pairs[i].1
  {
    if pairs == [] then [] else [pairs[0].1] + Texts(pairs[1..])
  }

  predicate PairLe(a: (string, string), b: (string, string)) {
    if a.0 == b.0 then StrLe(a.1, b.1) else StrLe(a.0, b.0)
  }

  function Digests(sha: Sha, files: seq<File>): (r: seq<(string, string)>)
    ensures |r| == |files|
    ensures forall i :: 0 <= i < |r| ==> r[i] == (sha(HashedBytes(files[i])).Hex(), HashedBytes(files[i]))
  {
    if files == [] then []
    else [(sha(HashedBytes(files[0])).Hex(), HashedBytes(files[0]))] + Digests(sha, files[1..])
  }

  /** What the content hash is taken over: sorted child summaries, then file bodies in digest order. */
  function ContentBytes(sha: Sha, childTexts: seq<(string, string)>, files: seq<File>): string {
    Concat(Sort(Texts(childTexts), StrLe)) + Concat(Texts(Sort(Digests(sha, files), PairLe)))
  }

  function ContentHash(sha: Sha, childTexts: seq<(string, string)>, files: seq<File>): string {
    sha(ContentBytes(sha, childTexts, files)).Hex()
  }

  function FileNames(files: seq<File>): (r: seq<string>)
    ensures |r| == |files| && forall i :: 0 <= i < |r| ==> r[i] == files[i].name
  {
    if files == [] then [] else [files[0].name] + FileNames(files[1..])
  }

  function Prefixed(tag: string, names: seq<string>): seq<string> {
    if names == [] then [] else [tag + names[0]] + Prefixed(tag, names[1..])
  }

  /** What the structure hash is taken over: names only. */
  function StructureBytes(children: seq<string>, files: seq<File>): string {
    Concat(Prefixed("dir:", Sort(children, StrLe))) + Concat(Prefixed("file:", Sort(FileNames(files), StrLe)))
  }

  function StructureHash(sha: Sha, area: Area): string {
    sha(StructureBytes(area.children, area.files)).Hex()
  }

  /** Existing child summaries, in directory order. */
  function ChildTexts(summaries: map<string, string>, p: string, children: seq<string>): seq<(string, string)> {
    if children == [] then []
    else
      var rest := ChildTexts(summaries, p, children[1..]);
      var path := ChildPath(p, children[0]);
      if path in summaries then [(children[0], summaries[path])] + rest else rest
  }

  method CollectChildSummaries(summaries: map<string, string>, p: string, children: seq<string>)
    returns (texts: seq<(string, string)>)
    ensures texts == ChildTexts(summaries, p, children)
  {
    texts := [];
    var i := 0;
    while i < |children|
      invariant i <= |children|
      invariant texts + ChildTexts(summaries, p, children[i..]) == ChildTexts(summaries, p, children)
    {
      var path := ChildPath(p, children[i]);
      assert children[i..] == [children[i]] + children[i + 1..];
      if path in summaries {
        texts := texts + [(children[i], summaries[path])];
      }
      i := i + 1;
    }
  }

  method ComputeContentHash(sha: Sha, childTexts: seq<(string, string)>, files: seq<File>) returns (h: string)
    ensures h == ContentHash(sha, childTexts, files)
  {
    var input := Fold(Sort(Texts(childTexts), StrLe));
    var fileHashes := HashFiles(sha, files);
    var bodies := Fold(Texts(Sort(fileHashes, PairLe)));
    h := sha(input + bodies).Hex();
  }

  method HashFiles(sha: Sha, files: seq<File>) returns (fileHashes: seq<(string, string)>)
    ensures fileHashes == Digests(sha, files)
  {
    fileHashes := [];
    var i := 0;
    while i < |files|
      invariant i <= |files| && |fileHashes| == i
      invariant forall k :: 0 <= k < i ==> fileHashes[k] == Digests(sha, files)[k]
    {
      var content := HashedBytes(files[i]);
      fileHashes := fileHashes + [(sha(content).Hex(), content)];
      i := i + 1;
    }
  }

  method Fold(parts: seq<string>) returns (h: string)
    ensures h == Concat(parts)
  {
    h := "";
    var i := 0;
    while i < |parts|
      invariant i <= |parts|
      invariant h + Concat(parts[i..]) == Concat(parts)
    {
      assert parts[i..] == [parts[i]] + parts[i + 1..];
      h := h + parts[i];
      i := i + 1;
    }
  }

  lemma PairLeIsLinear()
    ensures LinearOrder(PairLe)
  {
    StrLeIsLinear();
    forall x, y ensures PairLe(x, y) || PairLe(y, x) {
      StrLeTotal(x.0, y.0);
      StrLeTotal(x.1, y.1);
    }
    forall x, y | PairLe(x, y) && PairLe(y, x) ensures x == y {
      if x.0 != y.0 {
        StrLeAntisymmetric(x.0, y.0);
      }
      StrLeAntisymmetric(x.1, y.1);
    }
    forall x, y, z | PairLe(x, y) && PairLe(y, z) ensures PairLe(x, z) {
      PairLeTransitive(x, y, z);
    }
  }

  lemma PairLeTransitive(x: (string, string), y: (string, string), z: (string, string))
    requires PairLe(x, y) && PairLe(y, z)
    ensures PairLe(x, z)
  {
    if x.0 == y.0 == z.0 {
      StrLeTransitive(x.1, y.1, z.1);
    } else if x.0 == z.0 {
      StrLeAntisymmetric(x.0, y.0);
    } else if x.0 != y.0 && y.0 != z.0 {
      StrLeTransitive(x.0, y.0, z.0);
    }
  }

  /** The content hash sees bodies only: renaming or reordering files and child areas keeps it. */
  lemma ContentHashIgnoresNames(
    sha: Sha, texts1: seq<(string, string)>, files1: seq<File>, texts2: seq<(string, string)>, files2: seq<File>)
    requires multiset(Texts(texts1)) == multiset(Texts(texts2))
    requires multiset(Digests(sha, files1)) == multiset(Digests(sha, files2))
    ensures ContentHash(sha, texts1, files1) == ContentHash(sha, texts2, files2)
  {
    StrLeIsLinear();
    PairLeIsLinear();
    SortCanonical(Texts(texts1), Texts(texts2), StrLe);
    SortCanonical(Digests(sha, files1), Digests(sha, files2), PairLe);
  }

  ghost predicate Injective(sha: Sha) {
    forall a, b :: sha(a).Hex() == sha(b).Hex() ==> a == b
  }

  function Lengths(parts: seq<string>): (r: seq<nat>)
    ensures |r| == |parts| && forall i :: 0 <= i < |r| ==> r[i] == |parts[i]|
  {
    if parts == [] then [] else [|parts[0]|] + Lengths(parts[1..])
  }

  /** The child summaries and the file bodies, each in the order in which they are hashed. */
  function HashedParts(sha: Sha, texts: seq<(string, string)>, files: seq<File>): (seq<string>, seq<string>) {
    (Sort(Texts(texts), StrLe), Texts(Sort(Digests(sha, files), PairLe)))
  }

  lemma CutOnce(a: string, b: string, x: string, y: string)
    requires a + x == b + y && |a| == |b|
    ensures a == b && x == y
  {
    assert a == (a + x)[..|a|] && x == (a + x)[|a|..];
    assert b == (b + y)[..|b|] && y == (b + y)[|b|..];
  }

  lemma NothingJoined(s: string)
    ensures Concat([]) + s == s
  {
  }

  lemma ConcatCons(parts: seq<string>, after: string)
    requires parts != []
    ensures Concat(parts) + after == parts[0] + (Concat(parts[1..]) + after)
  {
    assert parts[0] + Concat(parts[1..]) + after == parts[0] + (Concat(parts[1..]) + after);
  }

  /** Text glued together without separators falls apart in one way only, once the lengths are known. */
  lemma {:induction false} PartsDetermined(a: seq<string>, b: seq<string>, after: string, other: string)
    requires Concat(a) + after == Concat(b) + other && Lengths(a) == Lengths(b)
    ensures a == b && after == other
  {
    hide Concat;
    assert |a| == |Lengths(a)| == |Lengths(b)| == |b|;
    if a != [] {
      assert Lengths(a)[0] == |a[0]| && Lengths(b)[0] == |b[0]|;
      ConcatCons(a, after);
      ConcatCons(b, other);
      CutOnce(a[0], b[0], Concat(a[1..]) + after, Concat(b[1..]) + other);
      assert Lengths(a)[1..] == Lengths(a[1..]) && Lengths(b)[1..] == Lengths(b[1..]);
      PartsDetermined(a[1..], b[1..], after, other);
    } else {
      NothingJoined(after);
      NothingJoined(other);
    }
  }

  /** Digests of the same bodies, in the same order, are the same. */
  lemma DigestsDetermined(sha: Sha, f1: seq<File>, f2: seq<File>)
    requires Texts(Sort(Digests(sha, f1), PairLe)) == Texts(Sort(Digests(sha, f2), PairLe))
    ensures multiset(Digests(sha, f1)) == multiset(Digests(sha, f2))
  {
    var d1, d2 := Sort(Digests(sha, f1), PairLe), Sort(Digests(sha, f2), PairLe);
    SortKeepsElements(Digests(sha, f1), PairLe);
    SortKeepsElements(Digests(sha, f2), PairLe);
    SortMembers(Digests(sha, f1), PairLe);
    SortMembers(Digests(sha, f2), PairLe);
    assert |d1| == |Texts(d1)| == |Texts(d2)| == |d2|;
    forall i | 0 <= i < |d1| ensures d1[i] == d2[i] {
      assert d1[i] in d1 && d2[i] in d2;
      assert Texts(d1)[i] == d1[i].1 && Texts(d2)[i] == d2[i].1;
      DigestOfBody(sha, f1, d1[i]);
      DigestOfBody(sha, f2, d2[i]);
    }
    assert d1 == d2;
  }

  lemma DigestOfBody(sha: Sha, files: seq<File>, d: (string, string))
    requires d in Digests(sha, files)
    ensures d.0 == sha(d.1).Hex()
  {
  }

  /** An unchanged content hash means that only names and places changed, that is, the same summaries and
      the same bodies in whatever order, exactly when the parts it was taken over kept their lengths. The
      parts are glued together without separators, so the hash alone does not tell. */
  lemma SameContentExactlyWhen(
    sha: Sha, texts1: seq<(string, string)>, files1: seq<File>, texts2: seq<(string, string)>, files2: seq<File>)
    requires Injective(sha)
    ensures
      var p1, p2 := HashedParts(sha, texts1, files1), HashedParts(sha, texts2, files2);
      (multiset(Texts(texts1)) == multiset(Texts(texts2)) && multiset(Digests(sha, files1)) == multiset(Digests(sha, files2)))
      <==>
      && ContentHash(sha, texts1, files1) == ContentHash(sha, texts2, files2)
      && Lengths(p1.0) == Lengths(p2.0) && Lengths(p1.1) == Lengths(p2.1)
  {
    hide Texts, Digests, Lengths, Concat, Sort;
    var p1, p2 := HashedParts(sha, texts1, files1), HashedParts(sha, texts2, files2);
    if multiset(Texts(texts1)) == multiset(Texts(texts2)) && multiset(Digests(sha, files1)) == multiset(Digests(sha, files2)) {
      StrLeIsLinear();
      PairLeIsLinear();
      SortCanonical(Texts(texts1), Texts(texts2), StrLe);
      SortCanonical(Digests(sha, files1), Digests(sha, files2), PairLe);
    }
    if ContentHash(sha, texts1, files1) == ContentHash(sha, texts2, files2) && Lengths(p1.0) == Lengths(p2.0) && Lengths(p1.1) == Lengths(p2.1) {
      PartsDetermined(p1.0, p2.0, Concat(p1.1), Concat(p2.1));
      assert Concat(p1.1) + "" == Concat(p1.1) && Concat(p2.1) + "" == Concat(p2.1);
      PartsDetermined(p1.1, p2.1, "", "");
      SortKeepsElements(Texts(texts1), StrLe);
      SortKeepsElements(Texts(texts2), StrLe);
      DigestsDetermined(sha, files1, files2);
    }
  }

  lemma {:induction false} NoNewlines(s: string)
    requires forall i :: 0 <= i < |s| ==> s[i] != '\r'
    ensures UnixNewlines(s) == s
  {
    if s != "" {
      NoNewlines(s[1..]);
      assert s == [s[0]] + s[1..];
    }
  }

  lemma SortedPair(x: (string, string), y: (string, string))
    ensures PairLe(x, y) ==> Sort([x, y], PairLe) == [x, y]
    ensures Sort([x], PairLe) == [x]
  {
    assert [x][1..] == [] && [x, y][1..] == [y] && [y][1..] == [];
    assert Sort([y], PairLe) == [y] && Sort([x], PairLe) == [x];
  }

  /** Bodies are hashed in the order of their digests. */
  predicate HashedFirst(sha: Sha, x: string, y: string) {
    PairLe((sha(x).Hex(), x), (sha(y).Hex(), y))
  }

  /** A file cut in two keeps the content hash when the front part is hashed first. */
  lemma SplitFileKeepsHash(sha: Sha, x: string, y: string, name: string, first: string, second: string)
    requires '\r' !in x && '\r' !in y && HashedFirst(sha, x, y)
    ensures
      ContentHash(sha, [], [File(name, x + y, true)]) ==
      ContentHash(sha, [], [File(first, x, true), File(second, y, true)])
  {
    hide UnixNewlines, Texts, Concat, PairLe, Sort;
    var one, two := [File(name, x + y, true)], [File(first, x, true), File(second, y, true)];
    var dx, dy, dxy := (sha(x).Hex(), x), (sha(y).Hex(), y), (sha(x + y).Hex(), x + y);
    NoNewlines(x);
    NoNewlines(y);
    NoNewlines(x + y);
    assert Digests(sha, two) == [dx, dy] && Digests(sha, one) == [dxy];
    SortedPair(dx, dy);
    SortedPair(dxy, dxy);
    ConcatOfTexts(dx, dy);
    ConcatOfTexts(dxy, dxy);
  }

  lemma ConcatOfTexts(a: (string, string), b: (string, string))
    ensures Concat(Texts([a])) == a.1 && Concat(Texts([a, b])) == a.1 + b.1
  {
    assert Texts([a]) == [a.1] && Texts([a, b]) == [a.1] + [b.1];
    ConcatOne(a.1);
    ConcatSnoc([a.1], b.1);
  }

  /** Child directories and files, each sorted by name. */
  function SortedNames(area: Area): (seq<string>, seq<string>) {
    (Sort(area.children, StrLe), Sort(FileNames(area.files), StrLe))
  }

  lemma {:induction false} PrefixedDetermined(tag: string, a: seq<string>, b: seq<string>)
    requires Prefixed(tag, a) == Prefixed(tag, b)
    ensures a == b
  {
    if a != [] && b != [] {
      assert Prefixed(tag, a)[0] == tag + a[0] && Prefixed(tag, b)[0] == tag + b[0];
      CutOnce(tag, tag, a[0], b[0]);
      assert Prefixed(tag, a)[1..] == Prefixed(tag, a[1..]) && Prefixed(tag, b)[1..] == Prefixed(tag, b[1..]);
      PrefixedDetermined(tag, a[1..], b[1..]);
    }
  }

  lemma {:induction false} PrefixedLengths(tag: string, a: seq<string>, b: seq<string>)
    requires Lengths(a) == Lengths(b)
    ensures Lengths(Prefixed(tag, a)) == Lengths(Prefixed(tag, b))
  {
    assert |a| == |Lengths(a)| == |Lengths(b)| == |b|;
    if a != [] {
      assert Lengths(a)[0] == |a[0]| && Lengths(b)[0] == |b[0]|;
      assert Lengths(a)[1..] == Lengths(a[1..]) && Lengths(b)[1..] == Lengths(b[1..]);
      PrefixedLengths(tag, a[1..], b[1..]);
    }
  }

  /** The structure hash is that of another area exactly when both hold the same directories and the same
      files by name, in whatever order, as long as the names keep their lengths. */
  lemma SameStructureExactlyWhen(sha: Sha, one: Area, two: Area)
    requires Injective(sha)
    ensures
      var n1, n2 := SortedNames(one), SortedNames(two);
      (multiset(one.children) == multiset(two.children) && multiset(FileNames(one.files)) == multiset(FileNames(two.files)))
      <==>
      StructureHash(sha, one) == StructureHash(sha, two) && Lengths(n1.0) == Lengths(n2.0) && Lengths(n1.1) == Lengths(n2.1)
  {
    hide Lengths, Concat, Sort, Prefixed, FileNames;
    var n1, n2 := SortedNames(one), SortedNames(two);
    StrLeIsLinear();
    if multiset(one.children) == multiset(two.children) && multiset(FileNames(one.files)) == multiset(FileNames(two.files)) {
      SortCanonical(one.children, two.children, StrLe);
      SortCanonical(FileNames(one.files), FileNames(two.files), StrLe);
    }
    if StructureHash(sha, one) == StructureHash(sha, two) && Lengths(n1.0) == Lengths(n2.0) && Lengths(n1.1) == Lengths(n2.1) {
      var dirs1, dirs2 := Prefixed("dir:", n1.0), Prefixed("dir:", n2.0);
      var files1, files2 := Prefixed("file:", n1.1), Prefixed("file:", n2.1);
      PrefixedLengths("dir:", n1.0, n2.0);
      PrefixedLengths("file:", n1.1, n2.1);
      PartsDetermined(dirs1, dirs2, Concat(files1), Concat(files2));
      assert Concat(files1) + "" == Concat(files1) && Concat(files2) + "" == Concat(files2);
      PartsDetermined(files1, files2, "", "");
      PrefixedDetermined("dir:", n1.0, n2.0);
      PrefixedDetermined("file:", n1.1, n2.1);
      SortKeepsElements(one.children, StrLe);
      SortKeepsElements(two.children, StrLe);
      SortKeepsElements(FileNames(one.files), StrLe);
      SortKeepsElements(FileNames(two.files), StrLe);
    }
  }

  /** The same text with every line end written as end. */
  function WithLineEnds(s: string, end: string): string {
    if s == "" then "" else (if s[0] == '\n' then end else [s[0]]) + WithLineEnds(s[1..], end)
  }

  /** A text file counts the same under every convention for line ends; any other file as it is. */
  lemma LineEndsDoNotMatter(name: string, s: string)
    requires '\r' !in s
    ensures HashedBytes(File(name, WithLineEnds(s, "\r\n"), true)) == s
    ensures HashedBytes(File(name, WithLineEnds(s, "\r"), true)) == s
    ensures HashedBytes(File(name, s, true)) == s
    ensures forall t :: HashedBytes(File(name, t, false)) == t
  {
    LineEndsUndone(s);
    NoNewlines(s);
  }

  lemma {:induction false} LineEndsUndone(s: string)
    requires '\r' !in s
    ensures UnixNewlines(WithLineEnds(s, "\r\n")) == s && UnixNewlines(WithLineEnds(s, "\r")) == s
    ensures WithLineEnds(s, "\r") == "" || WithLineEnds(s, "\r")[0] != '\n'
  {
    if s != "" {
      LineEndsUndone(s[1..]);
      OneLineEnd(s[0], WithLineEnds(s[1..], "\r\n"), WithLineEnds(s[1..], "\r"));
      assert s == [s[0]] + s[1..];
    }
  }

  lemma OneLineEnd(c: char, dos: string, mac: string)
    requires mac == "" || mac[0] != '\n'
    ensures c == '\n' ==> UnixNewlines("\r\n" + dos) == "\n" + UnixNewlines(dos) && UnixNewlines("\r" + mac) == "\n" + UnixNewlines(mac)
    ensures c != '\n' && c != '\r' ==> UnixNewlines([c] + dos) == [c] + UnixNewlines(dos) && UnixNewlines([c] + mac) == [c] + UnixNewlines(mac)
  {
    assert ("\r\n" + dos)[2..] == dos && ("\r" + mac)[1..] == mac;
    assert ([c] + dos)[1..] == dos && ([c] + mac)[1..] == mac;
  }

  /** Summaries of child areas come first, then the bodies. */
  lemma SummariesBeforeBodies(sha: Sha, child: string, summary: string, f: File)
    ensures ContentBytes(sha, [(child, summary)], [f]) == summary + HashedBytes(f)
  {
    hide HashedBytes, Concat;
    var d := (sha(HashedBytes(f)).Hex(), HashedBytes(f));
    assert Texts([(child, summary)]) == [summary] && Sort([summary], StrLe) == [summary];
    assert Digests(sha, [f]) == [d];
    SortedPair(d, d);
    ConcatOfTexts(d, d);
    ConcatOne(summary);
  }

  // ---------- evaluation ----------

  datatype Verdict = MissingPath | NoContent | Unchanged | StructureOnly | ContentChanged | MetadataBackfill

  datatype Evaluation = Evaluation(
    outcome: Verdict, childTexts: seq<(string, string)>, contentHash: string, structureHash: string, meta: Option<Meta>)

  function MetaAt(metas: map<string, Meta>, p: string): Option<Meta> {
    if p in metas then Some(metas[p]) else None
  }

  /** `not meta or not meta.content_hash` */
  predicate NoStoredContentHash(meta: Option<Meta>) {
    meta == None || meta.value.contentHash == None || meta.value.contentHash == Some("")
  }

  function Classify(meta: Meta, contentHash: string, structureHash: string): Verdict {
    if meta.contentHash != Some(contentHash) then ContentChanged
    else if meta.structureHash != Some(structureHash) then StructureOnly
    else Unchanged
  }

  function EvaluateArea(
    sha: Sha, area: Area, texts: seq<(string, string)>, meta: Option<Meta>, hasSummary: bool): Evaluation
  {
    if texts == [] && area.files == [] then Evaluation(NoContent, [], "", "", meta)
    else
      var contentHash := ContentHash(sha, texts, area.files);
      var structureHash := StructureHash(sha, area);
      var outcome :=
        if NoStoredContentHash(meta) then ContentChanged
        else if meta.value.structureHash == None && hasSummary then MetadataBackfill
        else Classify(meta.value, contentHash, structureHash);
      Evaluation(outcome, texts, contentHash, structureHash, meta)
  }

  function Evaluate(sha: Sha, tree: Tree, summaries: map<string, string>, metas: map<string, Meta>, p: string): Evaluation {
    if p !in tree then Evaluation(MissingPath, [], "", "", None)
    else EvaluateArea(
      sha, tree[p], ChildTexts(summaries, p, tree[p].children), MetaAt(metas, p), p in summaries)
  }

  method EvaluateFolderState(
    sha: Sha, tree: Tree, summaries: map<string, string>, metas: map<string, Meta>, p: string)
    returns (e: Evaluation)
    ensures e == Evaluate(sha, tree, summaries, metas, p)
  {
    if p !in tree {
      return Evaluation(MissingPath, [], "", "", None);
    }
    var meta := if p in metas then Some(metas[p]) else None;
    var area := tree[p];
    if area.children == [] && area.files == [] {
      return Evaluation(NoContent, [], "", "", meta);
    }
    var texts := CollectChildSummaries(summaries, p, area.children);
    if texts == [] && area.files == [] {
      return Evaluation(NoContent, [], "", "", meta);
    }
    var contentHash := ComputeContentHash(sha, texts, area.files);
    var structureHash := StructureHash(sha, area);
    if NoStoredContentHash(meta) {
      return Evaluation(ContentChanged, texts, contentHash, structureHash, meta);
    }
    if meta.value.structureHash == None && p in summaries {
      return Evaluation(MetadataBackfill, texts, contentHash, structureHash, meta);
    }
    e := Evaluation(Classify(meta.value, contentHash, structureHash), texts, contentHash, structureHash, meta);
  }

  /** An area with one file, stored as regenerated, in which that file is then cut in two: only the names
      are found to have changed, or nothing when the structure hashes agree as well. */
  lemma SplitFileLooksRenamed(
    sha: Sha, p: string, x: string, y: string, name: string, first: string, second: string,
    summaries: map<string, string>, summaryHash: Option<string>, lastRegen: Option<int>)
    requires '\r' !in x && '\r' !in y && HashedFirst(sha, x, y)
    ensures
      var one, two := Area([File(name, x + y, true)], []), Area([File(first, x, true), File(second, y, true)], []);
      var stored := Meta(Some(ContentHash(sha, [], one.files)), summaryHash, Some(StructureHash(sha, one)), lastRegen);
      && Evaluate(sha, map[p := one], summaries, map[p := stored], p).outcome == Unchanged
      && Evaluate(sha, map[p := two], summaries, map[p := stored], p).outcome ==
           if StructureHash(sha, one) == StructureHash(sha, two) then Unchanged else StructureOnly
  {
    hide ContentHash, StructureHash, HashedFirst;
    SplitFileKeepsHash(sha, x, y, name, first, second);
    HashNotEmpty(sha, [File(name, x + y, true)]);
    assert ChildTexts(summaries, p, []) == [];
  }

  lemma HashNotEmpty(sha: Sha, files: seq<File>)
    ensures ContentHash(sha, [], files) != ""
  {
  }

  /** Such a body is "ba" for a hash under which "b" comes before "a", as under SHA-256, where their digests
      begin with 3e23 and ca97. Cut into "b" and "a" it counts as renamed. */
  lemma CutBodyLooksRenamed(sha: Sha)
    requires Injective(sha) && HashedFirst(sha, "b", "a")
    ensures
      var one, two := Area([File("ba.md", "ba", true)], []), Area([File("b.md", "b", true), File("a.md", "a", true)], []);
      var stored := Meta(Some(ContentHash(sha, [], one.files)), None, Some(StructureHash(sha, one)), None);
      Evaluate(sha, map["" := two], map[], map["" := stored], "").outcome == StructureOnly
  {
    hide ContentHash, StructureHash, HashedFirst, Evaluate;
    SplitFileLooksRenamed(sha, "", "b", "a", "ba.md", "b.md", "a.md", map[], None, None);
    assert "b" + "a" == "ba";
    DifferentNames(sha);
  }

  lemma DifferentNames(sha: Sha)
    requires Injective(sha)
    ensures
      StructureHash(sha, Area([File("ba.md", "ba", true)], [])) !=
      StructureHash(sha, Area([File("b.md", "b", true), File("a.md", "a", true)], []))
  {
    NamesLength(File("ba.md", "ba", true), File("ba.md", "ba", true));
    NamesLength(File("b.md", "b", true), File("a.md", "a", true));
  }

  lemma NamesLength(f: File, g: File)
    ensures |StructureBytes([], [f])| == 5 + |f.name|
    ensures |StructureBytes([], [f, g])| == 10 + |f.name| + |g.name|
  {
    hide StrLe;
    PrefixedLength("file:", f.name, g.name);
    PrefixedLength("file:", g.name, f.name);
    assert [f, g][1..] == [g] && [f][1..] == [];
    assert FileNames([f]) == [f.name] && FileNames([f, g]) == [f.name, g.name];
    assert [f.name][1..] == [] && [f.name, g.name][1..] == [g.name] && [g.name][1..] == [];
    assert Sort([f.name], StrLe) == [f.name] && Sort([g.name], StrLe) == [g.name];
    assert Sort([f.name, g.name], StrLe) == Insert(f.name, [g.name], StrLe);
    assert Insert(f.name, [g.name], StrLe) == if StrLe(f.name, g.name) then [f.name] + [g.name] else [g.name] + [f.name];
    assert [f.name] + [g.name] == [f.name, g.name] && [g.name] + [f.name] == [g.name, f.name];
  }

  lemma PrefixedLength(tag: string, u: string, v: string)
    ensures |Concat(Prefixed(tag, [u]))| == |tag| + |u|
    ensures |Concat(Prefixed(tag, [u, v]))| == 2 * |tag| + |u| + |v|
  {
    hide Concat;
    assert [u][1..] == [] && [u, v][1..] == [v] && [v][1..] == [];
    assert Prefixed(tag, [v]) == [tag + v] && Prefixed(tag, [u]) == [tag + u];
    assert Prefixed(tag, [u, v]) == [tag + u] + [tag + v];
    ConcatOne(tag + u);
    ConcatSnoc([tag + u], tag + v);
  }

  /** The verdict of an area with content, case by case over what is stored and what is on disk, and the
      hashes reported with it. */
  lemma VerdictExactly(sha: Sha, tree: Tree, summaries: map<string, string>, metas: map<string, Meta>, p: string)
    requires p in tree && HasContent(tree, summaries, p)
    ensures
      var e := Evaluate(sha, tree, summaries, metas, p);
      var texts := ChildTexts(summaries, p, tree[p].children);
      var content, structure := Some(ContentHash(sha, texts, tree[p].files)), Some(StructureHash(sha, tree[p]));
      && Some(e.contentHash) == content && Some(e.structureHash) == structure && e.childTexts == texts
      && (e.meta.Some? <==> p in metas) && (p in metas ==> e.meta.value == metas[p])
      && if p !in metas || metas[p].contentHash == None || metas[p].contentHash == Some("") then e.outcome == ContentChanged
         else if metas[p].structureHash == None && p in summaries then e.outcome == MetadataBackfill
         else
           && (e.outcome == ContentChanged <==> metas[p].contentHash != content)
           && (e.outcome == StructureOnly <==> metas[p].contentHash == content && metas[p].structureHash != structure)
           && (e.outcome == Unchanged <==> metas[p].contentHash == content && metas[p].structureHash == structure)
  {
    hide ContentHash, StructureHash;
    ChildTextsEmpty(summaries, p, tree[p].children);
  }

  /** The stored state says that the area was last regenerated over these summaries and files. */
  ghost predicate StoredOver(sha: Sha, meta: Meta, texts: seq<(string, string)>, files: seq<File>) {
    meta.contentHash == Some(ContentHash(sha, texts, files)) && meta.structureHash.Some?
  }

  /** With an injective hash a change is noticed exactly when the bytes hashed before and now differ. */
  lemma ChangeNoticedExactlyWhen(
    sha: Sha, tree: Tree, summaries: map<string, string>, metas: map<string, Meta>, p: string,
    texts: seq<(string, string)>, files: seq<File>)
    requires Injective(sha) && p in tree && HasContent(tree, summaries, p)
    requires p in metas && StoredOver(sha, metas[p], texts, files)
    ensures Evaluate(sha, tree, summaries, metas, p).outcome == ContentChanged <==>
      ContentBytes(sha, ChildTexts(summaries, p, tree[p].children), tree[p].files) != ContentBytes(sha, texts, files)
  {
    hide ContentBytes, Evaluate, HasContent;
    VerdictExactly(sha, tree, summaries, metas, p);
    HashIsText(sha, texts, files);
  }

  lemma HashIsText(sha: Sha, texts: seq<(string, string)>, files: seq<File>)
    ensures ContentHash(sha, texts, files) != ""
  {
  }

  /** Some file's bytes were edited; everything else that is hashed stayed. */
  ghost predicate Edited(before: seq<File>, after: seq<File>, i: nat) {
    && i < |before| == |after| && after == before[i := after[i]]
    && HashedBytes(after[i]) != HashedBytes(before[i])
  }

  /** The edit of a file is noticed when it changes the file's length, or leaves the order of the lengths
      in which the bodies are hashed as it was. */
  lemma EditIsNoticed(
    sha: Sha, tree: Tree, summaries: map<string, string>, metas: map<string, Meta>, p: string,
    before: seq<File>, i: nat)
    requires Injective(sha) && p in tree && Edited(before, tree[p].files, i)
    requires p in metas && StoredOver(sha, metas[p], ChildTexts(summaries, p, tree[p].children), before)
    requires
      var texts := ChildTexts(summaries, p, tree[p].children);
      || |HashedBytes(tree[p].files[i])| != |HashedBytes(before[i])|
      || Lengths(HashedParts(sha, texts, tree[p].files).1) == Lengths(HashedParts(sha, texts, before).1)
    ensures Evaluate(sha, tree, summaries, metas, p).outcome == ContentChanged
  {
    hide ContentBytes, Evaluate, HashedBytes, ContentHash, ChildTexts;
    var texts := ChildTexts(summaries, p, tree[p].children);
    var after := tree[p].files;
    ChangeNoticedExactlyWhen(sha, tree, summaries, metas, p, texts, before);
    if |HashedBytes(after[i])| != |HashedBytes(before[i])| {
      BytesLength(sha, texts, before);
      BytesLength(sha, texts, after);
      TotalOfEdit(before, after, i);
    } else {
      SameContentExactlyWhen(sha, texts, before, texts, after);
      EditChangesDigests(sha, before, after, i);
      SameBytesSameHash(sha, texts, before, after);
    }
  }

  lemma SameBytesSameHash(sha: Sha, texts: seq<(string, string)>, before: seq<File>, after: seq<File>)
    ensures ContentBytes(sha, texts, before) == ContentBytes(sha, texts, after) ==>
      ContentHash(sha, texts, before) == ContentHash(sha, texts, after)
  {
  }

  function TotalBytes(files: seq<File>): nat {
    if files == [] then 0 else |HashedBytes(files[0])| + TotalBytes(files[1..])
  }

  lemma {:induction false} TotalOfEdit(before: seq<File>, after: seq<File>, i: nat)
    requires i < |before| == |after| && after == before[i := after[i]]
    ensures TotalBytes(after) - TotalBytes(before) == |HashedBytes(after[i])| - |HashedBytes(before[i])|
    decreases i
  {
    hide HashedBytes;
    if i > 0 {
      assert after[1..] == before[1..][i - 1 := after[1..][i - 1]];
      TotalOfEdit(before[1..], after[1..], i - 1);
    } else {
      assert after[1..] == before[1..];
    }
  }

  function TextTotal(pairs: seq<(string, string)>): nat {
    if pairs == [] then 0 else |pairs[0].1| + TextTotal(pairs[1..])
  }

  lemma {:induction false} TextTotalOfInsert(x: (string, string), s: seq<(string, string)>)
    ensures TextTotal(Insert(x, s, PairLe)) == |x.1| + TextTotal(s)
  {
    hide PairLe;
    if s != [] && !PairLe(x, s[0]) {
      TextTotalOfInsert(x, s[1..]);
      var r := Insert(x, s[1..], PairLe);
      assert ([s[0]] + r)[1..] == r;
    } else {
      assert ([x] + s)[1..] == s;
    }
  }

  lemma {:induction false} TextTotalOfSort(s: seq<(string, string)>)
    ensures TextTotal(Sort(s, PairLe)) == TextTotal(s)
  {
    if s != [] {
      TextTotalOfSort(s[1..]);
      TextTotalOfInsert(s[0], Sort(s[1..], PairLe));
    }
  }

  lemma {:induction false} ConcatTotal(pairs: seq<(string, string)>)
    ensures |Concat(Texts(pairs))| == TextTotal(pairs)
  {
    if pairs != [] {
      ConcatTotal(pairs[1..]);
      assert Texts(pairs)[1..] == Texts(pairs[1..]);
    }
  }

  lemma {:induction false} DigestTotal(sha: Sha, files: seq<File>)
    ensures TextTotal(Digests(sha, files)) == TotalBytes(files)
  {
    hide HashedBytes;
    if files != [] {
      DigestTotal(sha, files[1..]);
      assert Digests(sha, files)[1..] == Digests(sha, files[1..]);
    }
  }

  lemma BytesLength(sha: Sha, texts: seq<(string, string)>, files: seq<File>)
    ensures |ContentBytes(sha, texts, files)| == |Concat(Sort(Texts(texts), StrLe))| + TotalBytes(files)
  {
    ConcatTotal(Sort(Digests(sha, files), PairLe));
    TextTotalOfSort(Digests(sha, files));
    DigestTotal(sha, files);
  }

  /** An edit changes how often the new body occurs. */
  lemma EditChangesDigests(sha: Sha, before: seq<File>, after: seq<File>, i: nat)
    requires Edited(before, after, i)
    ensures multiset(Digests(sha, before)) != multiset(Digests(sha, after))
  {
    hide HashedBytes;
    var d0, d1 := Digests(sha, before), Digests(sha, after);
    forall k | 0 <= k < |d0| && k != i ensures d1[k] == d0[k] {
      assert after[k] == before[k];
    }
    assert d1 == d0[i := d1[i]] && d1[i] != d0[i];
    OneMoreOf(d0, i, d1[i]);
  }

  lemma OneMoreOf(s: seq<(string, string)>, i: nat, x: (string, string))
    requires i < |s| && x != s[i]
    ensures multiset(s[i := x])[x] == multiset(s)[x] + 1
  {
  }

  /** Otherwise an edit can go unnoticed: bodies "aab" and "a", hashed in this order, and then "aba" in
      place of "aab", hashed after "a", as SHA-256 orders the three. Both times "aaba" is hashed. */
  lemma EditCanGoUnnoticed(sha: Sha, n: string, m: string)
    requires HashedFirst(sha, "aab", "a") && HashedFirst(sha, "a", "aba")
    ensures
      var before, after := [File(n, "aab", true), File(m, "a", true)], [File(n, "aba", true), File(m, "a", true)];
      Edited(before, after, 0) && ContentHash(sha, [], before) == ContentHash(sha, [], after)
  {
    hide HashedFirst, ContentHash;
    var before, after := [File(n, "aab", true), File(m, "a", true)], [File(n, "aba", true), File(m, "a", true)];
    NoNewlines("aab");
    NoNewlines("aba");
    assert after == before[0 := after[0]] && "aab"[1] != "aba"[1];
    SplitFileKeepsHash(sha, "aab", "a", n, n, m);
    SplitFileKeepsHash(sha, "a", "aba", n, m, n);
    assert "aab" + "a" == "aaba" == "a" + "aba";
    SwapFiles(sha, File(m, "a", true), File(n, "aba", true));
  }

  lemma SwapFiles(sha: Sha, f: File, g: File)
    ensures ContentHash(sha, [], [f, g]) == ContentHash(sha, [], [g, f])
  {
    hide HashedBytes, ContentHash;
    var df, dg := (sha(HashedBytes(f)).Hex(), HashedBytes(f)), (sha(HashedBytes(g)).Hex(), HashedBytes(g));
    assert Digests(sha, [f, g]) == [df, dg] && Digests(sha, [g, f]) == [dg, df];
    assert multiset([df, dg]) == multiset([dg, df]);
    ContentHashIgnoresNames(sha, [], [f, g], [], [g, f]);
  }

  // ---------- what being up to date means ----------

  predicate HasContent(tree: Tree, summaries: map<string, string>, p: string)
    requires p in tree
  {
    tree[p].files != [] || AnyChildSummary(summaries, p, tree[p].children)
  }

  predicate AnyChildSummary(summaries: map<string, string>, p: string, children: seq<string>) {
    exists c :: c in children && ChildPath(p, c) in summaries
  }

  /** Stored hashes match the direct files, the child names and the child summaries on disk, or the
      area has no content and no summary. */
  ghost predicate UpToDate(sha: Sha, tree: Tree, summaries: map<string, string>, metas: map<string, Meta>, p: string)
    requires p in tree
  {
    if HasContent(tree, summaries, p) then
      && p in metas
      && metas[p].contentHash == Some(ContentHash(sha, ChildTexts(summaries, p, tree[p].children), tree[p].files))
      && metas[p].structureHash == Some(StructureHash(sha, tree[p]))
    else p !in summaries
  }

  lemma {:induction false} ChildTextsEmpty(summaries: map<string, string>, p: string, children: seq<string>)
    ensures ChildTexts(summaries, p, children) == [] <==> !AnyChildSummary(summaries, p, children)
  {
    if children != [] {
      ChildTextsEmpty(summaries, p, children[1..]);
      assert children == [children[0]] + children[1..];
    }
  }

  /** Evaluation recognises exactly the up-to-date areas. */
  lemma EvaluationDecidesUpToDate(
    sha: Sha, tree: Tree, summaries: map<string, string>, metas: map<string, Meta>, p: string)
    requires p in tree
    ensures
      var outcome := Evaluate(sha, tree, summaries, metas, p).outcome;
      UpToDate(sha, tree, summaries, metas, p) <==>
        outcome == Unchanged || (outcome == NoContent && p !in summaries)
    ensures Evaluate(sha, tree, summaries, metas, p).outcome == NoContent <==> !HasContent(tree, summaries, p)
  {
    ChildTextsEmpty(summaries, p, tree[p].children);
  }

  lemma {:induction false} ChildTextsFrame(
    before: map<string, string>, after: map<string, string>, p: string, children: seq<string>)
    requires forall c :: c in children ==>
      (ChildPath(p, c) in before <==> ChildPath(p, c) in after) &&
      (ChildPath(p, c) in before ==> before[ChildPath(p, c)] == after[ChildPath(p, c)])
    ensures ChildTexts(before, p, children) == ChildTexts(after, p, children)
  {
    if children != [] {
      assert children[0] in children;
      assert forall c :: c in children[1..] ==> c in children;
      ChildTextsFrame(before, after, p, children[1..]);
    }
  }

  /** The two maps agree everywhere except possibly at p. */
  ghost predicate SameExcept<V>(before: map<string, V>, after: map<string, V>, p: string) {
    forall q :: q != p ==> (q in before <==> q in after) && (q in before ==> before[q] == after[q])
  }

  lemma ChildTextsUnaffected(tree: Tree, s0: map<string, string>, s1: map<string, string>, p: string, q: string)
    requires ValidTree(tree) && q in tree && SameExcept(s0, s1, p)
    requires p == "" || ParentPath(p) != q
    ensures ChildTexts(s0, q, tree[q].children) == ChildTexts(s1, q, tree[q].children)
  {
    assert ValidArea(tree, q);
    forall c | c in tree[q].children ensures ChildPath(q, c) != p {
      ParentOfChild(q, c);
    }
    ChildTextsFrame(s0, s1, q, tree[q].children);
  }

  /** An area's evaluation is unaffected by writes to areas that are neither it nor its children. */
  lemma EvaluateFrame(
    sha: Sha, tree: Tree, s0: map<string, string>, m0: map<string, Meta>,
    s1: map<string, string>, m1: map<string, Meta>, p: string, q: string)
    requires ValidTree(tree) && q != p
    requires SameExcept(s0, s1, p) && SameExcept(m0, m1, p)
    requires s0 == s1 || p == "" || ParentPath(p) != q
    ensures Evaluate(sha, tree, s0, m0, q) == Evaluate(sha, tree, s1, m1, q)
  {
    if q in tree && s0 != s1 {
      ChildTextsUnaffected(tree, s0, s1, p, q);
    }
    assert q in s0 <==> q in s1;
    assert MetaAt(m0, q) == MetaAt(m1, q);
  }
}
