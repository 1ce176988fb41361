/** Splitting an oversized markdown document at headings, then at paragraphs. */
module MarkdownChunks {
  import opened Basics
  import opened Strings

  /** The text without its newline characters. */
  function Strip(s: string): string {
    if s == "" then "" else (if s[0] == '\n' then "" else [s[0]]) + Strip(s[1..])
  }

  lemma {:induction false} StripAppend(a: string, b: string)
    ensures Strip(a + b) == Strip(a) + Strip(b)
  {
    if a == "" {
      assert a + b == b;
    } else {
      assert (a + b)[1..] == a[1..] + b;
      StripAppend(a[1..], b);
    }
  }

  lemma {:induction false} StripNewlines(s: string)
    requires forall i :: 0 <= i < |s| ==> s[i] == '\n'
    ensures Strip(s) == ""
  {
    if s != "" {
      StripNewlines(s[1..]);
    }
  }

  predicate HasBlankLine(s: string) {
    exists i :: 0 <= i < |s| - 1 && s[i] == '\n' && s[i + 1] == '\n'
  }

  // ---------- headings ----------

  predicate LineStart(s: string, i: nat)
    requires i <= |s|
  {
    i == 0 || s[i - 1] == '\n'
  }

  /** Length of the run of '#' from i on. */
  function Hashes(s: string, i: nat): (n: nat)
    requires i <= |s|
    ensures i + n <= |s|
    decreases |s| - i
  {
    if i < |s| && s[i] == '#' then 1 + Hashes(s, i + 1) else 0
  }

  /** `^#{1,level} ` matches at i. */
  predicate CutsAt(s: string, i: nat, level: nat)
    requires i <= |s|
  {
    var n := Hashes(s, i);
    LineStart(s, i) && 1 <= n <= level && i + n < |s| && s[i + n] == ' '
  }

  function NextCut(s: string, i: nat, level: nat): (k: nat)
    requires i <= |s|
    ensures i <= k <= |s|
    decreases |s| - i
  {
    if i == |s| || CutsAt(s, i, level) then i else NextCut(s, i + 1, level)
  }

  /** The non-empty pieces between cuts. */
  function Sections(s: string, level: nat): (r: seq<string>)
    ensures Concat(r) == s
    ensures forall p :: p in r ==> p != ""
    decreases |s|
  {
    if s == "" then []
    else
      var k := NextCut(s, 1, level);
      [s[..k]] + Sections(s[k..], level)
  }

  lemma {:induction false} HashesOfSuffix(s: string, k: nat, i: nat)
    requires k + i <= |s|
    ensures Hashes(s[k..], i) == Hashes(s, k + i)
    decreases |s| - i
  {
    if k + i < |s| && s[k + i] == '#' {
      HashesOfSuffix(s, k, i + 1);
    }
  }

  lemma NextCutCuts(s: string, i: nat, level: nat)
    requires i <= |s|
    ensures NextCut(s, i, level) < |s| ==> CutsAt(s, NextCut(s, i, level), level)
    decreases |s| - i
  {
    if i < |s| && !CutsAt(s, i, level) {
      NextCutCuts(s, i + 1, level);
    }
  }

  /** Every piece but the first begins with a heading of at most the given level. */
  lemma {:induction false} SectionsStartAtHeadings(s: string, level: nat, i: nat)
    requires 0 < i < |Sections(s, level)|
    ensures CutsAt(Sections(s, level)[i], 0, level)
    decreases i
  {
    var k := NextCut(s, 1, level);
    NextCutCuts(s, 1, level);
    HashesOfSuffix(s, k, 0);
    if i == 1 {
      var j := NextCut(s[k..], 1, level);
      assert Sections(s, level)[1] == s[k..][..j];
      FirstSectionKeepsHeading(s[k..], level);
    } else {
      SectionsStartAtHeadings(s[k..], level, i - 1);
    }
  }

  lemma FirstSectionKeepsHeading(s: string, level: nat)
    requires CutsAt(s, 0, level)
    ensures CutsAt(s[..NextCut(s, 1, level)], 0, level)
  {
    var j := NextCut(s, 1, level);
    var n := Hashes(s, 0);
    NextCutCuts(s, 1, level);
    HashRun(s, 0);
    if j < |s| {
      assert j > n;
    }
    HashesOfPrefix(s, j, 0);
  }

  lemma HashRun(s: string, i: nat)
    requires i <= |s|
    ensures forall k :: i <= k < i + Hashes(s, i) ==> s[k] == '#'
    decreases |s| - i
  {
    if i < |s| && s[i] == '#' {
      HashRun(s, i + 1);
    }
  }

  lemma {:induction false} HashesOfPrefix(s: string, j: nat, i: nat)
    requires i <= j <= |s| && i + Hashes(s, i) < j
    ensures Hashes(s[..j], i) == Hashes(s, i)
    decreases |s| - i
  {
    if s[i] == '#' {
      HashesOfPrefix(s, j, i + 1);
    }
  }

  predicate IsSpace(c: char) {
    c == ' ' || c == '\t' || c == '\n' || c == '\r' || c == '\U{0B}' || c == '\U{0C}'
  }

  /** Some character other than a newline is reached from i over at least one space: `\s+(.+)`. */
  predicate TitleFollows(s: string, i: nat)
    requires i <= |s|
    decreases |s| - i
  {
    i < |s| && IsSpace(s[i]) && i + 1 < |s| && (s[i + 1] != '\n' || TitleFollows(s, i + 1))
  }

  /** The level of the first line matching `^#{1,6}\s+(.+)`, or 1. */
  function FirstLevel(s: string, i: nat): (level: nat)
    requires i <= |s|
    ensures 1 <= level <= 6
    decreases |s| - i
  {
    if i == |s| then 1
    else
      var n := Hashes(s, i);
      if LineStart(s, i) && 1 <= n <= 6 && TitleFollows(s, i + n) then n else FirstLevel(s, i + 1)
  }

  // ---------- paragraphs ----------

  /** Position of the first blank-line separator at or after i, or |s|. */
  function FindSeparator(s: string, i: nat): (k: nat)
    requires i <= |s|
    ensures i <= k <= |s|
    ensures k < |s| ==> k + 1 < |s| && s[k] == '\n' && s[k + 1] == '\n'
    ensures forall j :: i <= j < k && j + 1 < |s| ==> !(s[j] == '\n' && s[j + 1] == '\n')
    decreases |s| - i
  {
    if i + 1 >= |s| then |s|
    else if s[i] == '\n' && s[i + 1] == '\n' then i
    else FindSeparator(s, i + 1)
  }

  /** content.split("\n\n") */
  function Paragraphs(s: string): (r: seq<string>)
    ensures |r| > 0
    ensures forall p :: p in r ==> !HasBlankLine(p)
    ensures Join("\n\n", r) == s
    decreases |s|
  {
    var k := FindSeparator(s, 0);
    if k == |s| then [s]
    else
      var rest := Paragraphs(s[k + 2..]);
      assert s == s[..k] + "\n\n" + s[k + 2..];
      var r := [s[..k]] + rest;
      assert r[1..] == rest;
      r
  }

  // ---------- chunks ----------

  /** A chunk is within the target or cannot be split at a blank line. */
  predicate Fits(chunk: string, target: int) {
    |chunk| <= target || !HasBlankLine(chunk)
  }

  /** The text begins with a heading that a split can cut at. */
  predicate Heads(s: string) {
    CutsAt(s, 0, 3)
  }

  /** The chunks with what was left out before, between and after them. */
  ghost function Weave(chunks: seq<string>, gaps: seq<string>): string
    requires |gaps| == |chunks| + 1
    decreases |chunks|
  {
    if chunks == [] then gaps[0] else gaps[0] + chunks[0] + Weave(chunks[1..], gaps[1..])
  }

  predicate OnlyNewlines(s: string) {
    forall i :: 0 <= i < |s| ==> s[i] == '\n'
  }

  /** The text is cut only in front of headings and at blank lines, and only newlines are left out. */
  ghost predicate CutCleanly(content: string, chunks: seq<string>, gaps: seq<string>) {
    && |gaps| == |chunks| + 1 && content == Weave(chunks, gaps)
    && (forall i :: 0 <= i < |gaps| ==> OnlyNewlines(gaps[i]))
    && (forall i :: 0 < i < |chunks| ==> |gaps[i]| >= 2 || Heads(chunks[i]))
  }

  /** A heading at the front of the text stays at the front. */
  ghost predicate KeepsHeading(text: string, chunks: seq<string>, gaps: seq<string>) {
    Heads(text) ==> chunks != [] && gaps != [] && gaps[0] == "" && Heads(chunks[0])
  }

  lemma {:induction false} WeaveSnoc(chunks: seq<string>, gaps: seq<string>, chunk: string, gap: string)
    requires |gaps| == |chunks| + 1
    ensures Weave(chunks + [chunk], gaps + [gap]) == Weave(chunks, gaps) + chunk + gap
    decreases |chunks|
  {
    if chunks == [] {
      assert (chunks + [chunk])[1..] == [] && (gaps + [gap])[1..] == [gap];
      assert Weave([], [gap]) == gap;
    } else {
      assert (chunks + [chunk])[1..] == chunks[1..] + [chunk] && (gaps + [gap])[1..] == gaps[1..] + [gap];
      WeaveSnoc(chunks[1..], gaps[1..], chunk, gap);
    }
  }

  /** The last gap of one weave and the first of the next one become one gap. */
  function Spliced(a: seq<string>, b: seq<string>): (r: seq<string>)
    requires a != [] && b != []
    ensures |r| == |a| + |b| - 1
  {
    a[..|a| - 1] + [a[|a| - 1] + b[0]] + b[1..]
  }

  lemma {:induction false} WeaveAppend(c1: seq<string>, g1: seq<string>, c2: seq<string>, g2: seq<string>)
    requires |g1| == |c1| + 1 && |g2| == |c2| + 1
    ensures Weave(c1 + c2, Spliced(g1, g2)) == Weave(c1, g1) + Weave(c2, g2)
    decreases |c1|
  {
    if c1 == [] {
      assert c1 + c2 == c2;
      WeaveFirst(c2, g2, g1[0]);
      assert Spliced(g1, g2) == [g1[0] + g2[0]] + g2[1..];
    } else {
      assert (c1 + c2)[1..] == c1[1..] + c2;
      assert Spliced(g1, g2)[1..] == Spliced(g1[1..], g2) && Spliced(g1, g2)[0] == g1[0];
      WeaveAppend(c1[1..], g1[1..], c2, g2);
    }
  }

  lemma WeaveFirst(c: seq<string>, g: seq<string>, more: string)
    requires |g| == |c| + 1
    ensures Weave(c, [more + g[0]] + g[1..]) == more + Weave(c, g)
  {
    assert ([more + g[0]] + g[1..])[1..] == g[1..];
  }

  /** The text added to the last gap comes last. */
  lemma WeaveLast(c: seq<string>, g: seq<string>, more: string)
    requires |g| == |c| + 1
    ensures Weave(c, Spliced(g, [more])) == Weave(c, g) + more
  {
    WeaveAppend(c, g, [], [more]);
    assert c + [] == c;
  }

  lemma {:induction false} StripWeave(chunks: seq<string>, gaps: seq<string>)
    requires |gaps| == |chunks| + 1 && forall i :: 0 <= i < |gaps| ==> OnlyNewlines(gaps[i])
    ensures Strip(Weave(chunks, gaps)) == Strip(Concat(chunks))
    decreases |chunks|
  {
    StripNewlines(gaps[0]);
    if chunks != [] {
      var rest := Weave(chunks[1..], gaps[1..]);
      StripWeave(chunks[1..], gaps[1..]);
      StripAppend(gaps[0] + chunks[0], rest);
      StripAppend(gaps[0], chunks[0]);
      StripAppend(chunks[0], Concat(chunks[1..]));
    }
  }

  lemma {:induction false} HashesOfExtension(a: string, b: string, i: nat)
    requires i <= |a| && i + Hashes(a, i) < |a|
    ensures Hashes(a + b, i) == Hashes(a, i)
    decreases |a| - i
  {
    if a[i] == '#' {
      HashesOfExtension(a, b, i + 1);
    }
  }

  lemma HeadsExtends(a: string, b: string)
    ensures Heads(a) ==> Heads(a + b)
  {
    if Heads(a) {
      HashesOfExtension(a, b, 0);
    }
  }

  lemma {:induction false} JoinSnoc(sep: string, parts: seq<string>, part: string)
    ensures Join(sep, parts + [part]) == if parts == [] then part else Join(sep, parts) + sep + part
    decreases |parts|
  {
    if parts == [] {
      assert parts + [part] == [part];
    } else {
      var rest := parts[1..];
      assert (parts + [part])[1..] == rest + [part];
      JoinSnoc(sep, rest, part);
      if rest != [] {
        assert parts[0] + sep + (Join(sep, rest) + sep + part) == parts[0] + sep + Join(sep, rest) + sep + part;
      }
    }
  }

  /** A heading is on one line, so it is whole in what precedes a line break. */
  lemma HeadsOfPrefix(s: string, k: nat)
    requires k <= |s| && (k < |s| ==> s[k] == '\n')
    ensures Heads(s) ==> Heads(s[..k])
  {
    if Heads(s) {
      var n := Hashes(s, 0);
      HashRun(s, 0);
      if k < |s| {
        assert k > n;
      }
      HashesOfPrefix(s, k, 0);
    }
  }

  lemma LowerLevel(s: string, level: nat)
    requires CutsAt(s, 0, level) && level <= 3
    ensures Heads(s)
  {
  }

  /** Every piece but the first begins with a heading. */
  predicate LaterHead(pieces: seq<string>) {
    forall i :: 0 < i < |pieces| ==> Heads(pieces[i])
  }

  lemma LaterHeadSnoc(pieces: seq<string>, piece: string)
    ensures LaterHead(pieces + [piece]) <==> LaterHead(pieces) && (pieces != [] ==> Heads(piece))
  {
    hide Heads;
    if LaterHead(pieces + [piece]) {
      assert pieces != [] ==> (pieces + [piece])[|pieces|] == piece;
      forall i | 0 < i < |pieces| ensures Heads(pieces[i]) {
        assert (pieces + [piece])[i] == pieces[i];
      }
    }
  }

  lemma LaterHeadAt(pieces: seq<string>, i: nat)
    requires 0 < i < |pieces| && LaterHead(pieces)
    ensures Heads(pieces[i])
  {
  }

  /** The merge loop over sections: adjacent sections are joined while they fit, so no two neighbouring
      chunks would have fitted together. */
  method MergeSections(sections: seq<string>, target: int) returns (chunks: seq<string>)
    requires forall p :: p in sections ==> p != ""
    ensures Concat(chunks) == Concat(sections)
    ensures chunks == Gathered(sections, target, "")
    ensures TooLong(chunks, target) && JoinedWithin(sections, chunks, target)
    ensures LaterHead(sections) ==> LaterHead(chunks)
    ensures sections != [] ==> chunks != [] && (Heads(sections[0]) ==> Heads(chunks[0]))
  {
    hide Gathering, Concat, Heads, LaterHead, TooLong;
    chunks := [];
    var current := "";
    StartGathering(sections, target);
    assert sections[0..] == sections;
    var i := 0;
    while i < |sections|
      invariant i <= |sections| && Gathering(sections, i, chunks, current, target)
      invariant chunks + Gathered(sections[i..], target, current) == Gathered(sections, target, "")
    {
      GatherOne(sections, i, chunks, current, target);
      assert sections[i..][1..] == sections[i + 1..];
      if current != "" && |current| + |sections[i]| > target {
        chunks := chunks + [current];
        current := sections[i];
      } else {
        current := current + sections[i];
      }
      i := i + 1;
    }
    EndGathering(sections, chunks, current, target);
    if current != "" {
      chunks := chunks + [current];
    }
  }

  /** The state of the merge loop after the first i sections. */
  ghost predicate Gathering(sections: seq<string>, i: nat, chunks: seq<string>, current: string, target: int)
    requires i <= |sections|
  {
    && (i == 0 ==> chunks == [] && current == "") && (i > 0 ==> current != "")
    && Concat(chunks) + current == Concat(sections[..i])
    && TooLong(chunks, target) && (chunks != [] ==> |chunks[|chunks| - 1]| + |current| > target)
    && (LaterHead(sections) ==> LaterHead(chunks) && (chunks != [] ==> Heads(current)))
    && JoinedWithin(sections, chunks, target) && (|current| > target ==> current == "" || current in sections)
    && (i > 0 && Heads(sections[0]) ==> if chunks == [] then Heads(current) else Heads(chunks[0]))
  }

  /** Sections are joined only within the target: a longer chunk is a single section. */
  predicate JoinedWithin(sections: seq<string>, chunks: seq<string>, target: int) {
    forall c :: c in chunks && |c| > target ==> c in sections
  }

  /** No two neighbouring chunks fit together. */
  predicate TooLong(chunks: seq<string>, target: int) {
    forall i :: 0 < i < |chunks| ==> |chunks[i - 1]| + |chunks[i]| > target
  }

  lemma TooLongSnoc(chunks: seq<string>, current: string, target: int)
    requires TooLong(chunks, target) && (chunks != [] ==> |chunks[|chunks| - 1]| + |current| > target)
    ensures TooLong(chunks + [current], target)
  {
  }

  lemma StartGathering(sections: seq<string>, target: int)
    ensures Gathering(sections, 0, [], "", target)
  {
    assert sections[..0] == [];
  }

  lemma GatherOne(sections: seq<string>, i: nat, chunks: seq<string>, current: string, target: int)
    requires i < |sections| && Gathering(sections, i, chunks, current, target)
    requires forall p :: p in sections ==> p != ""
    ensures current != "" && |current| + |sections[i]| > target ==>
      Gathering(sections, i + 1, chunks + [current], sections[i], target)
    ensures current == "" || |current| + |sections[i]| <= target ==>
      Gathering(sections, i + 1, chunks, current + sections[i], target)
  {
    hide Concat, Heads, LaterHead, TooLong;
    var section := sections[i];
    assert section in sections;
    assert sections[..i + 1] == sections[..i] + [section];
    ConcatSnoc(sections[..i], section);
    ConcatSnoc(chunks, current);
    HeadsExtends(current, section);
    LaterHeadSnoc(chunks, current);
    if i > 0 && LaterHead(sections) {
      LaterHeadAt(sections, i);
    }
    if current != "" && |current| + |section| > target {
      TooLongSnoc(chunks, current, target);
    } else {
      assert Concat(chunks) + (current + section) == Concat(chunks) + current + section;
      assert current == "" ==> current + section == section;
    }
  }

  lemma EndGathering(sections: seq<string>, chunks: seq<string>, current: string, target: int)
    requires Gathering(sections, |sections|, chunks, current, target)
    ensures
      var all := if current != "" then chunks + [current] else chunks;
      && Concat(all) == Concat(sections) && TooLong(all, target) && JoinedWithin(sections, all, target)
      && (LaterHead(sections) ==> LaterHead(all))
      && (sections != [] ==> all != [] && (Heads(sections[0]) ==> Heads(all[0])))
  {
    hide Concat, Heads, LaterHead, TooLong;
    assert sections[..|sections|] == sections;
    ConcatSnoc(chunks, current);
    LaterHeadSnoc(chunks, current);
    NothingAdded(Concat(chunks), current);
    if current != "" {
      TooLongSnoc(chunks, current, target);
    }
  }

  /** The first paragraph of a text that begins with a heading begins with it. */
  lemma FirstParagraphHeads(paragraphs: seq<string>)
    requires paragraphs != []
    ensures Heads(Join("\n\n", paragraphs)) ==> Heads(paragraphs[0])
  {
    var s := Join("\n\n", paragraphs);
    var k := |paragraphs[0]|;
    assert s[..k] == paragraphs[0];
    HeadsOfPrefix(s, k);
  }

  /** The merge loop over paragraphs: only blank-line separators can get lost. */
  method MergeParagraphs(paragraphs: seq<string>, target: int) returns (chunks: seq<string>, ghost gaps: seq<string>)
    requires paragraphs != [] && forall p :: p in paragraphs ==> !HasBlankLine(p)
    ensures CutCleanly(Join("\n\n", paragraphs), chunks, gaps)
    ensures KeepsHeading(Join("\n\n", paragraphs), chunks, gaps)
    ensures forall c :: c in chunks ==> Fits(c, target)
    ensures forall i :: 0 < i < |chunks| ==> |chunks[i - 1]| + 2 + |chunks[i]| > target
    ensures chunks == MergedParagraphs(paragraphs, target, "")
  {
    hide Merging, CutCleanly, KeepsHeading, Fits, HasBlankLine, Spliced, Joined;
    chunks, gaps := [], [""];
    var current := "";
    StartMerging(paragraphs, target);
    assert paragraphs[0..] == paragraphs;
    var i := 0;
    while i < |paragraphs|
      invariant i <= |paragraphs| && Merging(paragraphs, i, chunks, gaps, current, target)
      invariant chunks + MergedParagraphs(paragraphs[i..], target, current) == MergedParagraphs(paragraphs, target, "")
      invariant gaps != [] && Fits(current, target) && forall c :: c in chunks ==> Fits(c, target)
    {
      var paragraph := paragraphs[i];
      assert paragraphs[i..][1..] == paragraphs[i + 1..];
      var candidate := if current != "" then Joined(current, paragraph) else paragraph;
      MergeOne(paragraphs, i, chunks, gaps, current, target);
      ParagraphFits(paragraphs, i, target);
      CandidateFits(current, paragraph, target);
      if current != "" && |candidate| > target {
        chunks, gaps := chunks + [current], gaps + ["\n\n"];
        current := paragraph;
      } else {
        gaps := if current == "" && i > 0 then Spliced(gaps, ["\n\n"]) else gaps;
        current := candidate;
      }
      i := i + 1;
    }
    EndMerging(paragraphs, chunks, gaps, current, target);
    if current != "" {
      chunks, gaps := chunks + [current], gaps + [""];
    }
  }

  /** The state of the merge loop after the first i paragraphs. */
  ghost predicate Merging(
    paragraphs: seq<string>, i: nat, chunks: seq<string>, gaps: seq<string>, current: string, target: int)
    requires i <= |paragraphs|
  {
    && |gaps| == |chunks| + 1 && GoodGaps(gaps)
    && Weave(chunks, gaps) + current == Join("\n\n", paragraphs[..i])
    && FarApart(chunks, target) && (chunks != [] ==> |chunks[|chunks| - 1]| + 2 + |current| > target)
    && (i == 0 ==> chunks == [] && gaps == [""] && current == "")
    && (i > 0 && Heads(paragraphs[0]) ==> gaps[0] == "" && (if chunks == [] then Heads(current) else Heads(chunks[0])))
  }

  ghost predicate FarApart(chunks: seq<string>, target: int) {
    forall k :: 0 < k < |chunks| ==> |chunks[k - 1]| + 2 + |chunks[k]| > target
  }

  lemma StartMerging(paragraphs: seq<string>, target: int)
    ensures Merging(paragraphs, 0, [], [""], "", target) && Fits("", target)
  {
    assert paragraphs[..0] == [];
    assert Weave([], [""]) == "";
  }

  lemma MergeOne(
    paragraphs: seq<string>, i: nat, chunks: seq<string>, gaps: seq<string>, current: string, target: int)
    requires i < |paragraphs| && Merging(paragraphs, i, chunks, gaps, current, target)
    ensures current != "" && |Joined(current, paragraphs[i])| > target ==>
      Merging(paragraphs, i + 1, chunks + [current], gaps + ["\n\n"], paragraphs[i], target)
    ensures current != "" ==> Merging(paragraphs, i + 1, chunks, gaps, Joined(current, paragraphs[i]), target)
    ensures current == "" ==>
      Merging(paragraphs, i + 1, chunks, if i > 0 then Spliced(gaps, ["\n\n"]) else gaps, paragraphs[i], target)
  {
    hide Weave, Join, Joined, Heads, Spliced, GoodGaps, FarApart;
    if chunks == [] || |chunks[|chunks| - 1]| + 2 + |current| > target {
      LastFarApart(chunks, current, target);
    }
    assert paragraphs[..i + 1] == paragraphs[..i] + [paragraphs[i]];
    JoinSnoc("\n\n", paragraphs[..i], paragraphs[i]);
    JoinedText(Weave(chunks, gaps), current, paragraphs[i]);
    GapsGrow(gaps);
    EmptyHeadsNothing();
    WeaveSnoc(chunks, gaps, current, "\n\n");
    WeaveLast(chunks, gaps, "\n\n");
    assert i == 0 ==> Weave(chunks, gaps) == "" && paragraphs[..0] == [] && "" + paragraphs[i] == paragraphs[i] by {
      NothingWoven();
    }
  }

  lemma NothingWoven()
    ensures Weave([], [""]) == ""
  {
  }

  lemma ParagraphFits(paragraphs: seq<string>, i: nat, target: int)
    requires i < |paragraphs| && forall p :: p in paragraphs ==> !HasBlankLine(p)
    ensures Fits(paragraphs[i], target)
  {
  }

  lemma CandidateFits(current: string, paragraph: string, target: int)
    ensures |Joined(current, paragraph)| <= target ==> Fits(Joined(current, paragraph), target)
  {
  }

  lemma EndMerging(paragraphs: seq<string>, chunks: seq<string>, gaps: seq<string>, current: string, target: int)
    requires paragraphs != [] && Merging(paragraphs, |paragraphs|, chunks, gaps, current, target)
    ensures
      var all, ends := if current != "" then chunks + [current] else chunks, if current != "" then gaps + [""] else gaps;
      && CutCleanly(Join("\n\n", paragraphs), all, ends) && KeepsHeading(Join("\n\n", paragraphs), all, ends)
      && FarApart(all, target)
  {
    hide Weave, Join, Heads, OnlyNewlines, GoodGaps, FarApart;
    assert paragraphs[..|paragraphs|] == paragraphs;
    FirstParagraphHeads(paragraphs);
    EmptyHeadsNothing();
    GapsEnd(gaps);
    WeaveSnoc(chunks, gaps, current, "");
    NothingAdded(Weave(chunks, gaps), current);
    LastFarApart(chunks, current, target);
  }

  lemma NothingAdded(before: string, current: string)
    ensures before + "" == before && before + current + "" == before + current
  {
  }

  lemma LastFarApart(chunks: seq<string>, current: string, target: int)
    requires FarApart(chunks, target) && (chunks != [] ==> |chunks[|chunks| - 1]| + 2 + |current| > target)
    ensures FarApart(chunks + [current], target)
  {
  }

  /** Two paragraphs of one chunk. */
  function Joined(a: string, b: string): (r: string)
    ensures |r| == |a| + 2 + |b|
  {
    a + "\n\n" + b
  }

  lemma JoinedText(before: string, a: string, b: string)
    ensures before + Joined(a, b) == before + a + "\n\n" + b
    ensures before + "" == before && before + a + "\n\n" + b == before + a + ("\n\n" + b)
    ensures Heads(a) ==> Heads(Joined(a, b))
  {
    HeadsExtends(a, "\n\n" + b);
    assert a + ("\n\n" + b) == Joined(a, b);
  }

  /** Every gap but the first is at least one blank line. */
  ghost predicate GoodGaps(gaps: seq<string>) {
    && (forall k :: 0 <= k < |gaps| ==> OnlyNewlines(gaps[k]))
    && forall k :: 0 < k < |gaps| ==> |gaps[k]| >= 2
  }

  lemma GapsGrow(gaps: seq<string>)
    requires gaps != [] && GoodGaps(gaps)
    ensures GoodGaps(gaps + ["\n\n"]) && GoodGaps(Spliced(gaps, ["\n\n"]))
    ensures |gaps| > 1 ==> Spliced(gaps, ["\n\n"])[0] == gaps[0]
  {
  }

  lemma GapsEnd(gaps: seq<string>)
    requires gaps != [] && GoodGaps(gaps)
    ensures forall k :: 0 <= k < |gaps| ==> OnlyNewlines(gaps[k])
    ensures forall k :: 0 < k < |gaps| ==> |gaps[k]| >= 2
    ensures OnlyNewlines("")
  {
  }

  lemma EmptyHeadsNothing()
    ensures !Heads("")
  {
  }

  function Rank(level: Option<nat>): nat {
    if level == None then 4 else if level.value > 3 then 0 else 4 - level.value
  }

  // ---------- which chunks come out ----------

  /** Sections joined from the left as long as they fit. */
  function Gathered(sections: seq<string>, target: int, current: string): seq<string>
    decreases |sections|
  {
    if sections == [] then (if current == "" then [] else [current])
    else if current != "" && |current| + |sections[0]| > target
    then [current] + Gathered(sections[1..], target, sections[0])
    else Gathered(sections[1..], target, current + sections[0])
  }

  /** Paragraphs joined from the left as long as they fit; empty ones in front of a chunk are dropped. */
  function MergedParagraphs(paragraphs: seq<string>, target: int, current: string): seq<string>
    decreases |paragraphs|
  {
    if paragraphs == [] then (if current == "" then [] else [current])
    else if current == "" then MergedParagraphs(paragraphs[1..], target, paragraphs[0])
    else if |Joined(current, paragraphs[0])| > target
    then [current] + MergedParagraphs(paragraphs[1..], target, paragraphs[0])
    else MergedParagraphs(paragraphs[1..], target, Joined(current, paragraphs[0]))
  }

  /** The level to split at: the given one, or that of the first heading. */
  function SplitLevel(content: string, level: Option<nat>): nat {
    if level.Some? then level.value else FirstLevel(content, 0)
  }

  /** At headings when there is more than one section, otherwise at blank lines. */
  function Chunks(content: string, target: int, level: Option<nat>): seq<string>
    requires level.Some? ==> level.value >= 1
    decreases Rank(level), 0
  {
    var at := SplitLevel(content, level);
    if |content| <= target then [content]
    else if at <= 3 && |Sections(content, at)| > 1
    then ChunksOfAll(Gathered(Sections(content, at), target, ""), target, at + 1)
    else if |Paragraphs(content)| <= 1 then [content]
    else MergedParagraphs(Paragraphs(content), target, "")
  }

  function ChunksOfAll(merged: seq<string>, target: int, level: nat): seq<string>
    requires level >= 1
    decreases Rank(Some(level)), 1, |merged|
  {
    if merged == [] then []
    else
      (if |merged[0]| > target then Chunks(merged[0], target, Some(level)) else [merged[0]])
      + ChunksOfAll(merged[1..], target, level)
  }

  /** Each chunk that is still too long is split again one heading level deeper. */
  method SplitEach(merged: seq<string>, target: int, level: nat) returns (chunks: seq<string>, ghost gaps: seq<string>)
    requires level >= 1 && merged != [] && LaterHead(merged)
    ensures CutCleanly(Concat(merged), chunks, gaps) && KeepsHeading(merged[0], chunks, gaps)
    ensures forall c :: c in chunks ==> Fits(c, target)
    ensures chunks == ChunksOfAll(merged, target, level)
    decreases Rank(Some(level)), 2
  {
    hide Weave, Concat, HasBlankLine, Heads, CutCleanly, Fits, Chunks, ChunksOfAll;
    var i := 1;
    ConcatOne(merged[0]);
    assert merged[..1] == [merged[0]] && merged[0..] == merged;
    OneChunkAt(merged, 0, target, level);
    chunks, gaps := SplitOne(merged[0], target, level);
    while i < |merged|
      invariant 1 <= i <= |merged|
      invariant CutCleanly(Concat(merged[..i]), chunks, gaps) && KeepsHeading(merged[0], chunks, gaps)
      invariant chunks + ChunksOfAll(merged[i..], target, level) == ChunksOfAll(merged, target, level)
      invariant forall c :: c in chunks ==> Fits(c, target)
    {
      var pieces, inner := SplitOne(merged[i], target, level);
      OneChunkAt(merged, i, target, level);
      assert merged[..i + 1] == merged[..i] + [merged[i]];
      ConcatSnoc(merged[..i], merged[i]);
      CutCleanlyAppend(Concat(merged[..i]), chunks, gaps, merged[i], pieces, inner);
      chunks, gaps := chunks + pieces, Spliced(gaps, inner);
      i := i + 1;
    }
    assert merged[..i] == merged;
  }

  lemma OneChunkAt(merged: seq<string>, i: nat, target: int, level: nat)
    requires level >= 1 && i < |merged|
    ensures ChunksOfAll(merged[i..], target, level) ==
      (if |merged[i]| > target then Chunks(merged[i], target, Some(level)) else [merged[i]])
      + ChunksOfAll(merged[i + 1..], target, level)
    ensures ChunksOfAll(merged[|merged|..], target, level) == []
  {
    hide Chunks;
    assert merged[i..][1..] == merged[i + 1..];
  }

  method SplitOne(chunk: string, target: int, level: nat) returns (pieces: seq<string>, ghost gaps: seq<string>)
    requires level >= 1
    ensures CutCleanly(chunk, pieces, gaps) && KeepsHeading(chunk, pieces, gaps)
    ensures forall c :: c in pieces ==> Fits(c, target)
    ensures pieces == if |chunk| > target then Chunks(chunk, target, Some(level)) else [chunk]
    decreases Rank(Some(level)), 1
  {
    hide CutCleanly, HasBlankLine, Chunks;
    if |chunk| > target {
      pieces, gaps := SplitMarkdownChunks(chunk, target, Some(level));
    } else {
      WholeIsClean(chunk);
      pieces, gaps := [chunk], ["", ""];
    }
  }

  lemma WholeIsClean(content: string)
    ensures CutCleanly(content, [content], ["", ""]) && KeepsHeading(content, [content], ["", ""])
  {
    hide Heads;
    assert [content][1..] == [] && ["", ""][1..] == [""];
    assert Weave([], [""]) == "";
  }

  lemma CutCleanlyAppend(
    a: string, c1: seq<string>, g1: seq<string>, b: string, c2: seq<string>, g2: seq<string>)
    requires CutCleanly(a, c1, g1) && CutCleanly(b, c2, g2) && Heads(b) && KeepsHeading(b, c2, g2)
    ensures CutCleanly(a + b, c1 + c2, Spliced(g1, g2))
    ensures c1 != [] ==> (c1 + c2)[0] == c1[0] && Spliced(g1, g2)[0] == g1[0]
  {
    hide Heads, Weave;
    WeaveAppend(c1, g1, c2, g2);
    var gaps := Spliced(g1, g2);
    forall i | 0 <= i < |gaps| ensures OnlyNewlines(gaps[i]) {
      if i > |g1| - 1 {
        assert gaps[i] == g2[i - |g1| + 1];
      }
    }
    forall i | 0 < i < |c1 + c2| ensures |gaps[i]| >= 2 || Heads((c1 + c2)[i]) {
      if i > |c1| {
        assert gaps[i] == g2[i - |c1|] && (c1 + c2)[i] == c2[i - |c1|];
      }
    }
  }

  /** Nothing but newlines is lost, in order; cuts are only in front of headings and at blank lines; and
      every chunk is within the target or has no blank line to split at. The heading level rises with
      every recursion. */
  method SplitMarkdownChunks(content: string, target: int, level: Option<nat>)
    returns (chunks: seq<string>, ghost gaps: seq<string>)
    requires level.Some? ==> level.value >= 1
    ensures Strip(Concat(chunks)) == Strip(content)
    ensures CutCleanly(content, chunks, gaps) && KeepsHeading(content, chunks, gaps)
    ensures forall c :: c in chunks ==> Fits(c, target)
    ensures chunks == Chunks(content, target, level)
    decreases Rank(level), 0
  {
    hide Strip, Concat, HasBlankLine, Heads, CutCleanly, Gathered, MergedParagraphs, ChunksOfAll;
    WholeIsClean(content);
    if |content| <= target {
      CleanLosesNewlines(content, [content], ["", ""]);
      return [content], ["", ""];
    }
    var at := if level.Some? then level.value else FirstLevel(content, 0);
    if at <= 3 {
      var sections := Sections(content, at);
      if |sections| > 1 {
        forall i | 0 < i < |sections| ensures Heads(sections[i]) {
          SectionsStartAtHeadings(content, at, i);
          LowerLevel(sections[i], at);
        }
        if Heads(content) {
          FirstSectionHeads(content, at);
        }
        var merged := MergeSections(sections, target);
        chunks, gaps := SplitEach(merged, target, at + 1);
        CleanLosesNewlines(content, chunks, gaps);
        return;
      }
    }
    var paragraphs := Paragraphs(content);
    if |paragraphs| <= 1 {
      assert paragraphs[0] == content;
      CleanLosesNewlines(content, [content], ["", ""]);
      return [content], ["", ""];
    }
    chunks, gaps := MergeParagraphs(paragraphs, target);
    CleanLosesNewlines(content, chunks, gaps);
  }

  lemma FirstSectionHeads(content: string, level: nat)
    requires content != "" && Heads(content)
    ensures Heads(Sections(content, level)[0])
  {
    var k := NextCut(content, 1, level);
    NextCutCuts(content, 1, level);
    if k < |content| {
      HeadsOfPrefix(content, k - 1);
      HeadsExtends(content[..k - 1], [content[k - 1]]);
      assert content[..k - 1] + [content[k - 1]] == content[..k];
    } else {
      assert content[..k] == content;
    }
  }

  lemma CleanLosesNewlines(content: string, chunks: seq<string>, gaps: seq<string>)
    requires CutCleanly(content, chunks, gaps)
    ensures Strip(Concat(chunks)) == Strip(content)
  {
    StripWeave(chunks, gaps);
  }
}
