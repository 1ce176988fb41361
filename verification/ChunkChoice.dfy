/** Which chunks a markdown document is split into: headings go first, and everything is joined greedily from
    the left. */
module ChunkChoice {
  import opened Basics
  import opened Strings
  import opened MarkdownChunks

  // ---------- where a heading is ----------

  /** No piece has another heading of the level inside: every such heading cuts. */
  lemma {:induction false} SectionsAreWhole(s: string, level: nat, k: nat, i: nat)
    requires k < |Sections(s, level)| && 0 < i < |Sections(s, level)[k]|
    ensures !CutsAt(Sections(s, level)[k], i, level)
    decreases k
  {
    var j := NextCut(s, 1, level);
    if k == 0 {
      NoCutBefore(s, 1, level, i);
      CutOfPrefix(s, j, i, level);
    } else {
      SectionsAreWhole(s[j..], level, k - 1, i);
    }
  }

  lemma {:induction false} NoCutBefore(s: string, i: nat, level: nat, j: nat)
    requires i <= |s| && i <= j < NextCut(s, i, level)
    ensures !CutsAt(s, j, level)
    decreases |s| - i
  {
    if i < j {
      NoCutBefore(s, i + 1, level, j);
    }
  }

  lemma CutOfPrefix(s: string, k: nat, i: nat, level: nat)
    requires i < k <= |s|
    ensures CutsAt(s[..k], i, level) ==> CutsAt(s, i, level)
  {
    if CutsAt(s[..k], i, level) {
      assert s[..k] + s[k..] == s;
      HashesOfExtension(s[..k], s[k..], i);
    }
  }

  /** A text is cut where a line starts with one to level number signs and a space. */
  lemma CutsExactly(s: string, i: nat, level: nat)
    requires i <= |s|
    ensures CutsAt(s, i, level) <==> exists n: nat :: 1 <= n <= level && IsMark(s, i, n)
  {
    HashRun(s, i);
    if CutsAt(s, i, level) {
      assert IsMark(s, i, Hashes(s, i));
    }
    if n: nat :| 1 <= n <= level && IsMark(s, i, n) {
      MarkLength(s, i, n);
    }
  }

  predicate IsMark(s: string, i: nat, n: nat)
    requires i <= |s|
  {
    && (i > 0 ==> s[i - 1] == '\n') && i + n < |s| && s[i + n] == ' '
    && forall k :: i <= k < i + n ==> s[k] == '#'
  }

  lemma {:induction false} MarkLength(s: string, i: nat, n: nat)
    requires i + n < |s| && s[i + n] == ' ' && forall k :: i <= k < i + n ==> s[k] == '#'
    ensures Hashes(s, i) == n
    decreases n
  {
    if n > 0 {
      MarkLength(s, i + 1, n - 1);
    }
  }

  /** White space, and then something before the line ends. */
  lemma {:induction false} TitleExactly(s: string, i: nat)
    requires i <= |s|
    ensures TitleFollows(s, i) <==>
      exists j :: i < j < |s| && s[j] != '\n' && forall k :: i <= k < j ==> IsSpace(s[k])
    decreases |s| - i
  {
    if i < |s| && IsSpace(s[i]) && i + 1 < |s| {
      TitleExactly(s, i + 1);
    }
  }

  /** A heading of level one to six with a title. */
  predicate IsTitle(s: string, i: nat)
    requires i <= |s|
  {
    LineStart(s, i) && 1 <= Hashes(s, i) <= 6 && TitleFollows(s, i + Hashes(s, i))
  }

  /** The level is that of the first heading with a title, and 1 without any. */
  lemma {:induction false} FirstLevelIsTheFirst(s: string, from: nat) returns (first: nat)
    requires from <= |s|
    ensures from <= first <= |s| && forall i :: from <= i < first ==> !IsTitle(s, i)
    ensures if first < |s| then IsTitle(s, first) && FirstLevel(s, from) == Hashes(s, first) else FirstLevel(s, from) == 1
    decreases |s| - from
  {
    if from == |s| || IsTitle(s, from) {
      first := from;
    } else {
      first := FirstLevelIsTheFirst(s, from + 1);
    }
  }

  // ---------- joining from the left ----------

  /** The chunk is made of the sections from one cut to the next: two or more only within the target, and always
      as many as fit, since the next section would have been too much. */
  ghost predicate GreedyChunk(sections: seq<string>, chunk: string, from: nat, to: nat, target: int) {
    && from < to <= |sections| && chunk == Concat(sections[from..to])
    && (to > from + 1 ==> |chunk| <= target)
    && (to < |sections| ==> |chunk| + |sections[to]| > target)
  }

  ghost predicate LeftGreedy(sections: seq<string>, from: nat, chunks: seq<string>, cuts: seq<nat>, target: int)
    decreases |chunks|
  {
    if chunks == [] then from == |sections| && cuts == []
    else
      |cuts| == |chunks| && GreedyChunk(sections, chunks[0], from, cuts[0], target)
      && LeftGreedy(sections, cuts[0], chunks[1..], cuts[1..], target)
  }

  lemma {:induction false} GatheredFrom(sections: seq<string>, target: int, from: nat, to: nat) returns (cuts: seq<nat>)
    requires from < to <= |sections| && forall p :: p in sections ==> p != ""
    requires to > from + 1 ==> |Concat(sections[from..to])| <= target
    ensures LeftGreedy(sections, from, Gathered(sections[to..], target, Concat(sections[from..to])), cuts, target)
    decreases |sections| - to
  {
    hide Concat;
    var current := Concat(sections[from..to]);
    assert sections[from..to] == [sections[from]] + sections[from + 1..to];
    ConcatStarts(sections[from], sections[from + 1..to]);
    assert sections[from] in sections;
    if to == |sections| {
      cuts := [to];
      assert [current][1..] == [] && [to][1..] == [];
    } else {
      var rest := sections[to + 1..];
      assert sections[to..][1..] == rest;
      if |current| + |sections[to]| > target {
        assert sections[to..to + 1] == [sections[to]];
        ConcatOne(sections[to]);
        var later := GatheredFrom(sections, target, to, to + 1);
        cuts := [to] + later;
        var chunks := Gathered(rest, target, sections[to]);
        assert ([current] + chunks)[1..] == chunks && cuts[1..] == later;
      } else {
        assert sections[from..to + 1] == sections[from..to] + [sections[to]];
        ConcatSnoc(sections[from..to], sections[to]);
        cuts := GatheredFrom(sections, target, from, to + 1);
      }
    }
  }

  lemma ConcatStarts(first: string, rest: seq<string>)
    ensures |Concat([first] + rest)| >= |first|
  {
    assert ([first] + rest)[1..] == rest;
  }

  /** The sections are gathered greedily from the left. */
  lemma GatheredIsGreedy(sections: seq<string>, target: int) returns (cuts: seq<nat>)
    requires forall p :: p in sections ==> p != ""
    ensures LeftGreedy(sections, 0, Gathered(sections, target, ""), cuts, target)
  {
    if sections == [] {
      cuts := [];
    } else {
      assert sections[0..1] == [sections[0]] && "" + sections[0] == sections[0];
      ConcatOne(sections[0]);
      cuts := GatheredFrom(sections, target, 0, 1);
    }
  }

  /** The same of paragraphs, with blank lines between them; the ones in front of the chunk are empty. */
  ghost predicate GreedyParagraphs(
    paragraphs: seq<string>, chunk: string, from: nat, start: nat, end: nat, target: int)
  {
    && from <= start < end <= |paragraphs| && AllEmpty(paragraphs[from..start]) && paragraphs[start] != ""
    && chunk == Join("\n\n", paragraphs[start..end])
    && (end > start + 1 ==> |chunk| <= target)
    && (end < |paragraphs| ==> |chunk| + 2 + |paragraphs[end]| > target)
  }

  predicate AllEmpty(paragraphs: seq<string>) {
    forall k :: 0 <= k < |paragraphs| ==> paragraphs[k] == ""
  }

  ghost predicate LeftGreedyParagraphs(
    paragraphs: seq<string>, from: nat, chunks: seq<string>, cuts: seq<(nat, nat)>, target: int)
    decreases |chunks|
  {
    if chunks == [] then from <= |paragraphs| && AllEmpty(paragraphs[from..]) && cuts == []
    else
      |cuts| == |chunks| && GreedyParagraphs(paragraphs, chunks[0], from, cuts[0].0, cuts[0].1, target)
      && LeftGreedyParagraphs(paragraphs, cuts[0].1, chunks[1..], cuts[1..], target)
  }

  lemma {:induction false} MergedFrom(paragraphs: seq<string>, target: int, from: nat, start: nat, end: nat)
    returns (cuts: seq<(nat, nat)>)
    requires from <= start < end <= |paragraphs| && AllEmpty(paragraphs[from..start]) && paragraphs[start] != ""
    requires end > start + 1 ==> |Join("\n\n", paragraphs[start..end])| <= target
    ensures LeftGreedyParagraphs(paragraphs, from,
      MergedParagraphs(paragraphs[end..], target, Join("\n\n", paragraphs[start..end])), cuts, target)
    decreases |paragraphs| - end, 1
  {
    hide Join, Joined, AllEmpty;
    var current := Join("\n\n", paragraphs[start..end]);
    assert paragraphs[start..end] == [paragraphs[start]] + paragraphs[start + 1..end];
    JoinStarts(paragraphs[start], paragraphs[start + 1..end]);
    if end == |paragraphs| {
      cuts := [(start, end)];
      NoneLeft(paragraphs);
      assert [current][1..] == [] && cuts[1..] == [];
    } else {
      var next := paragraphs[end];
      assert paragraphs[end..][1..] == paragraphs[end + 1..];
      assert paragraphs[start..end + 1] == paragraphs[start..end] + [next];
      JoinSnoc("\n\n", paragraphs[start..end], next);
      JoinedIs(current, next);
      if |Joined(current, next)| > target {
        NoneLeft(paragraphs);
        var later := MergedAfter(paragraphs, target, end, end);
        var chunks := MergedParagraphs(paragraphs[end + 1..], target, next);
        cuts := [(start, end)] + later;
        assert ([current] + chunks)[1..] == chunks && cuts[1..] == later;
      } else {
        cuts := MergedFrom(paragraphs, target, from, start, end + 1);
      }
    }
  }

  lemma JoinedIs(a: string, b: string)
    ensures Joined(a, b) == a + "\n\n" + b
  {
  }

  lemma NoneLeft(paragraphs: seq<string>)
    ensures AllEmpty(paragraphs[|paragraphs|..])
    ensures forall i :: 0 <= i <= |paragraphs| ==> AllEmpty(paragraphs[i..i])
  {
  }

  lemma JoinStarts(first: string, rest: seq<string>)
    ensures |Join("\n\n", [first] + rest)| >= |first|
  {
    assert ([first] + rest)[1..] == rest;
  }

  /** The next chunk begins with the first paragraph that is not empty. */
  lemma {:induction false} MergedAfter(paragraphs: seq<string>, target: int, from: nat, to: nat)
    returns (cuts: seq<(nat, nat)>)
    requires from <= to < |paragraphs| && AllEmpty(paragraphs[from..to])
    ensures LeftGreedyParagraphs(paragraphs, from,
      MergedParagraphs(paragraphs[to + 1..], target, paragraphs[to]), cuts, target)
    decreases |paragraphs| - to, 0
  {
    hide Join, Joined;
    if paragraphs[to] != "" {
      JoinOfOne("\n\n", paragraphs[to]);
      assert paragraphs[to..to + 1] == [paragraphs[to]];
      cuts := MergedFrom(paragraphs, target, from, to, to + 1);
    } else if to + 1 == |paragraphs| {
      cuts := [];
      assert paragraphs[from..] == paragraphs[from..to] + [paragraphs[to]];
    } else {
      assert paragraphs[to + 1..][1..] == paragraphs[to + 2..];
      assert paragraphs[from..to + 1] == paragraphs[from..to] + [paragraphs[to]];
      cuts := MergedAfter(paragraphs, target, from, to + 1);
    }
  }

  /** Paragraphs are merged greedily from the left, and only empty ones are left out. */
  lemma MergedIsGreedy(paragraphs: seq<string>, target: int) returns (cuts: seq<(nat, nat)>)
    requires paragraphs != []
    ensures LeftGreedyParagraphs(paragraphs, 0, MergedParagraphs(paragraphs, target, ""), cuts, target)
  {
    NoneLeft(paragraphs);
    cuts := MergedAfter(paragraphs, target, 0, 0);
  }

  // ---------- what is never cut ----------

  /** Some chunk within the limit contains the piece. */
  ghost predicate KeptIn(chunks: seq<string>, piece: string, limit: int) {
    exists i :: 0 <= i < |chunks| && |chunks[i]| <= limit && Contains(chunks[i], piece)
  }

  lemma KeptLater(front: seq<string>, chunks: seq<string>, piece: string, limit: int)
    requires KeptIn(chunks, piece, limit)
    ensures KeptIn(front + chunks, piece, limit)
  {
    var i :| 0 <= i < |chunks| && |chunks[i]| <= limit && Contains(chunks[i], piece);
    assert (front + chunks)[|front| + i] == chunks[i];
  }

  lemma {:induction false} CurrentKept(sections: seq<string>, target: int, current: string, piece: string)
    requires current != "" && |current| <= target && Contains(current, piece)
    ensures KeptIn(Gathered(sections, target, current), piece, target)
    decreases |sections|
  {
    hide Contains;
    var chunks := Gathered(sections, target, current);
    if sections == [] || |current| + |sections[0]| > target {
      assert chunks[0] == current;
    } else {
      ContainsMore(current, sections[0], piece);
      CurrentKept(sections[1..], target, current + sections[0], piece);
    }
  }

  lemma ContainsMore(a: string, b: string, piece: string)
    requires Contains(a, piece)
    ensures Contains(a + b, piece)
  {
    ContainsInside("", a, b, piece);
    assert "" + a + b == a + b;
  }

  lemma ContainsEnd(a: string, b: string)
    ensures Contains(a + b, b)
  {
    assert (a + b)[|a|..] == b;
  }

  lemma {:induction false} SectionKept(sections: seq<string>, target: int, current: string, p: string)
    requires p in sections && p != "" && |p| <= target
    ensures KeptIn(Gathered(sections, target, current), p, target)
    decreases |sections|
  {
    hide Contains, KeptIn;
    var first, rest := sections[0], sections[1..];
    assert sections == [first] + rest;
    var flush := current != "" && |current| + |first| > target;
    if p == first {
      ContainsEnd(current, p);
      ContainsEnd("", p);
      assert "" + p == p;
      CurrentKept(rest, target, if flush then p else current + p, p);
      if flush {
        KeptLater([current], Gathered(rest, target, p), p, target);
      }
    } else {
      SectionKept(rest, target, if flush then first else current + first, p);
      if flush {
        KeptLater([current], Gathered(rest, target, first), p, target);
      }
    }
  }

  lemma {:induction false} KeptWhole(merged: seq<string>, target: int, level: nat, p: string)
    requires level >= 1 && KeptIn(merged, p, target)
    ensures KeptIn(ChunksOfAll(merged, target, level), p, target)
    decreases |merged|
  {
    hide Contains, Chunks;
    var i :| 0 <= i < |merged| && |merged[i]| <= target && Contains(merged[i], p);
    var chunks := ChunksOfAll(merged, target, level);
    if i == 0 {
      assert chunks[0] == merged[0];
    } else {
      assert merged[1..][i - 1] == merged[i];
      KeptWhole(merged[1..], target, level, p);
      KeptLater(if |merged[0]| > target then Chunks(merged[0], target, Some(level)) else [merged[0]],
        ChunksOfAll(merged[1..], target, level), p, target);
    }
  }

  /** Headings go first: with more than one section at its level, a text is split so that every section that is
      within the target ends up whole in one chunk within the target. */
  lemma SectionsSurvive(content: string, target: int, level: Option<nat>, p: string)
    requires (level.Some? ==> level.value >= 1) && |content| > target
    requires SplitLevel(content, level) <= 3 && |Sections(content, SplitLevel(content, level))| > 1
    requires p in Sections(content, SplitLevel(content, level)) && |p| <= target
    ensures KeptIn(Chunks(content, target, level), p, target)
  {
    hide Gathered, Sections, KeptIn, ChunksOfAll;
    var at := SplitLevel(content, level);
    SectionKept(Sections(content, at), target, "", p);
    KeptWhole(Gathered(Sections(content, at), target, ""), target, at + 1, p);
  }

  /** A gathered chunk within the target stays as it is, a longer one is split one heading level deeper. */
  lemma GatheredThenSplit(content: string, target: int, level: Option<nat>, c: string, d: string)
    requires (level.Some? ==> level.value >= 1) && |content| > target
    requires SplitLevel(content, level) <= 3 && |Sections(content, SplitLevel(content, level))| > 1
    requires c in Gathered(Sections(content, SplitLevel(content, level)), target, "")
    ensures |c| <= target ==> c in Chunks(content, target, level)
    ensures |c| > target && d in Chunks(c, target, Some(SplitLevel(content, level) + 1)) ==> d in Chunks(content, target, level)
  {
    hide Gathered, Sections, ChunksOfAll;
    var at := SplitLevel(content, level);
    EachIsSplit(Gathered(Sections(content, at), target, ""), target, at + 1, c, d);
  }

  lemma {:induction false} EachIsSplit(merged: seq<string>, target: int, level: nat, c: string, d: string)
    requires level >= 1 && c in merged
    ensures |c| <= target ==> c in ChunksOfAll(merged, target, level)
    ensures |c| > target && d in Chunks(c, target, Some(level)) ==> d in ChunksOfAll(merged, target, level)
    decreases |merged|
  {
    hide Chunks;
    if c != merged[0] {
      assert merged == [merged[0]] + merged[1..];
      EachIsSplit(merged[1..], target, level, c, d);
    }
  }

  /** Some chunk contains the piece. */
  ghost predicate Holds(chunks: seq<string>, piece: string) {
    exists i :: 0 <= i < |chunks| && Contains(chunks[i], piece)
  }

  lemma {:induction false} JoinedKept(paragraphs: seq<string>, target: int, current: string, piece: string)
    requires current != "" && Contains(current, piece)
    ensures Holds(MergedParagraphs(paragraphs, target, current), piece)
    decreases |paragraphs|
  {
    hide Contains;
    var chunks := MergedParagraphs(paragraphs, target, current);
    if paragraphs == [] || |Joined(current, paragraphs[0])| > target {
      assert chunks[0] == current;
    } else {
      ContainsMore(current, "\n\n" + paragraphs[0], piece);
      assert current + ("\n\n" + paragraphs[0]) == Joined(current, paragraphs[0]);
      JoinedKept(paragraphs[1..], target, Joined(current, paragraphs[0]), piece);
    }
  }

  lemma {:induction false} ParagraphKept(paragraphs: seq<string>, target: int, current: string, p: string)
    requires p in paragraphs && p != ""
    ensures Holds(MergedParagraphs(paragraphs, target, current), p)
    decreases |paragraphs|
  {
    hide Contains;
    var first, rest := paragraphs[0], paragraphs[1..];
    assert paragraphs == [first] + rest;
    var chunks := MergedParagraphs(paragraphs, target, current);
    var flush := current != "" && |Joined(current, first)| > target;
    var now := if current == "" || flush then first else Joined(current, first);
    var later := MergedParagraphs(rest, target, now);
    if p == first {
      ContainsEnd(if current == "" || flush then "" else current + "\n\n", p);
      assert "" + p == p && current + "\n\n" + p == Joined(current, p);
      JoinedKept(rest, target, now, p);
    } else {
      ParagraphKept(rest, target, now, p);
    }
    var i :| 0 <= i < |later| && Contains(later[i], p);
    assert flush ==> chunks[i + 1] == later[i];
  }

  /** Otherwise the text is split at blank lines, and no paragraph is cut. */
  lemma ParagraphsSurvive(content: string, target: int, level: Option<nat>, p: string)
    requires level.Some? ==> level.value >= 1
    requires SplitLevel(content, level) > 3 || |Sections(content, SplitLevel(content, level))| <= 1
    requires p in Paragraphs(content) && p != ""
    ensures Holds(Chunks(content, target, level), p)
  {
    hide Sections, Contains;
    if |content| <= target || |Paragraphs(content)| <= 1 {
      JoinContains("\n\n", Paragraphs(content), p);
      assert Chunks(content, target, level)[0] == content;
    } else {
      ParagraphKept(Paragraphs(content), target, "", p);
    }
  }
}
