/** Journal days: splitting a day's text into preamble sections and timed blocks, printing it again,
    and merging a legacy day into a current one. */
module Journal {
  import opened Basics
  import opened Strings
  import Evaluation

  predicate IsDigit(c: char) {
    '0' <= c <= '9'
  }

  predicate IsSpace(c: char) {
    c == ' ' || c == '\t' || c == '\r' || c == '\U{0B}' || c == '\U{0C}'
  }

  /** `^## \d{2}:\d{2}\s*$` on one line. */
  predicate IsHeading(l: string) {
    && |l| >= 8 && l[..3] == "## " && IsDigit(l[3]) && IsDigit(l[4]) && l[5] == ':' && IsDigit(l[6]) && IsDigit(l[7])
    && forall i :: 8 <= i < |l| ==> IsSpace(l[i])
  }

  // ---------- splitting ----------

  function DropLeading(ls: seq<string>): seq<string> {
    if ls != [] && ls[0] == "" then DropLeading(ls[1..]) else ls
  }

  function DropTrailing(ls: seq<string>): seq<string> {
    if ls != [] && ls[|ls| - 1] == "" then DropTrailing(ls[..|ls| - 1]) else ls
  }

  /** text.strip("\n") on lines. */
  function Trim(ls: seq<string>): seq<string> {
    DropTrailing(DropLeading(ls))
  }

  /** Position of the first heading, or the end. */
  function FirstHeading(ls: seq<string>): (k: nat)
    ensures k <= |ls|
  {
    if ls == [] || IsHeading(ls[0]) then 0 else 1 + FirstHeading(ls[1..])
  }

  function Text(ls: seq<string>): string {
    Join("\n", ls)
  }

  /** The text cut before every heading; the lines start with one. */
  function BlocksOf(ls: seq<string>): seq<string>
    decreases |ls|
  {
    if ls == [] then []
    else
      var k := 1 + FirstHeading(ls[1..]);
      [Text(DropTrailing(ls[..k]))] + BlocksOf(ls[k..])
  }

  function FirstEmpty(ls: seq<string>): (k: nat)
    ensures k <= |ls|
  {
    if ls == [] || ls[0] == "" then 0 else 1 + FirstEmpty(ls[1..])
  }

  /** Runs of non-empty lines. */
  function SectionsOf(ls: seq<string>): seq<string>
    decreases |ls|
  {
    if ls == [] then []
    else if ls[0] == "" then SectionsOf(ls[1..])
    else
      var k := FirstEmpty(ls);
      [Text(ls[..k])] + SectionsOf(ls[k..])
  }

  datatype Day = Day(sections: seq<string>, blocks: seq<string>)

  /** _split_journal_day followed by _split_journal_preamble_sections, on lines. */
  function ParseLines(lines: seq<string>): Day {
    var ls := Trim(lines);
    var k := FirstHeading(ls);
    Day(SectionsOf(Trim(ls[..k])), BlocksOf(ls[k..]))
  }

  function Parse(text: string): Day {
    ParseLines(Lines(text))
  }

  function Print(day: Day): string {
    var preamble := Join("\n\n", day.sections);
    var body := Join("\n\n", day.blocks);
    Join("\n\n", (if preamble == "" then [] else [preamble]) + (if body == "" then [] else [body]))
  }

  // ---------- merging ----------

  /** The time of a block's heading. */
  function Key(block: string): string {
    var l := Lines(block)[0];
    if |l| >= 8 then l[3..8] else l
  }

  predicate BlockLe(a: string, b: string) {
    Evaluation.PairLe((Key(a), a), (Key(b), b))
  }

  method MergeUniqueSections(groups: seq<seq<string>>) returns (merged: seq<string>)
    ensures merged == Unique(Flat(groups))
  {
    var seen: set<string> := {};
    merged := [];
    ghost var done: seq<string> := [];
    var g := 0;
    while g < |groups|
      invariant g <= |groups| && done + Flat(groups[g..]) == Flat(groups)
      invariant merged == Unique(done) && forall x :: x in seen <==> x in merged
    {
      hide Unique;
      assert groups[g..] == [groups[g]] + groups[g + 1..];
      merged, seen := MergeGroup(groups[g], merged, seen, done);
      done := done + groups[g];
      g := g + 1;
    }
    assert groups[g..] == [];
    assert done + [] == done;
  }

  /** The inner loop over one group. */
  method MergeGroup(group: seq<string>, before: seq<string>, seenBefore: set<string>, ghost done: seq<string>)
    returns (merged: seq<string>, seen: set<string>)
    requires before == Unique(done) && forall x :: x in seenBefore <==> x in before
    ensures merged == Unique(done + group) && forall x :: x in seen <==> x in merged
  {
    hide Unique;
    merged, seen := before, seenBefore;
    assert done + group[..0] == done;
    var i := 0;
    while i < |group|
      invariant i <= |group|
      invariant merged == Unique(done + group[..i]) && forall x :: x in seen <==> x in merged
    {
      UniqueSnoc(done + group[..i], group[i]);
      assert done + group[..i] + [group[i]] == done + group[..i + 1];
      if group[i] !in seen {
        merged := merged + [group[i]];
        seen := seen + {group[i]};
      }
      i := i + 1;
    }
    assert group[..i] == group;
  }

  lemma UniqueSnoc(s: seq<string>, x: string)
    ensures Unique(s + [x]) == if x in Unique(s) then Unique(s) else Unique(s) + [x]
  {
    assert (s + [x])[..|s + [x]| - 1] == s;
  }

  function Flat(groups: seq<seq<string>>): seq<string> {
    if groups == [] then [] else groups[0] + Flat(groups[1..])
  }

  /** Legacy first, each section and block once, blocks by time. */
  function MergeDays(target: Day, legacy: Day): Day {
    Day(Unique(legacy.sections + target.sections), Sort(Unique(legacy.blocks + target.blocks), BlockLe))
  }

  function Merge(target: string, legacy: string): string {
    Print(MergeDays(Parse(target), Parse(legacy)))
  }

  /** _merge_journal_day_text */
  method MergeJournalDayText(target: string, legacy: string) returns (text: string)
    ensures text == Merge(target, legacy)
  {
    var t, l := Parse(target), Parse(legacy);
    var sections := MergeUniqueSections([l.sections, t.sections]);
    var blocks := MergeUniqueSections([l.blocks, t.blocks]);
    FlatPair(l.sections, t.sections);
    FlatPair(l.blocks, t.blocks);
    text := Print(Day(sections, Sort(blocks, BlockLe)));
  }

  lemma FlatPair(a: seq<string>, b: seq<string>)
    ensures Flat([a, b]) == a + b
  {
    assert [a, b][1..] == [b] && [b][1..] == [];
    assert Flat([b]) == b + [];
  }

  // ---------- well-formed days ----------

  ghost predicate GoodSection(s: string) {
    forall l :: l in Lines(s) ==> l != "" && !IsHeading(l)
  }

  ghost predicate GoodBlock(s: string) {
    var ls := Lines(s);
    && IsHeading(ls[0]) && ls[|ls| - 1] != ""
    && forall i :: 0 < i < |ls| ==> !IsHeading(ls[i])
  }

  ghost predicate GoodDay(day: Day) {
    && (forall s :: s in day.sections ==> GoodSection(s))
    && (forall b :: b in day.blocks ==> GoodBlock(b))
  }

  predicate Plain(ls: seq<string>) {
    forall l :: l in ls ==> '\n' !in l
  }

  lemma {:induction false} DropTrailingKeeps(ls: seq<string>)
    ensures DropTrailing(ls) <= ls
    ensures DropTrailing(ls) != [] ==> DropTrailing(ls)[|DropTrailing(ls)| - 1] != ""
    ensures ls != [] && ls[0] != "" ==> DropTrailing(ls) != []
  {
    if ls != [] && ls[|ls| - 1] == "" {
      DropTrailingKeeps(ls[..|ls| - 1]);
    }
  }

  lemma {:induction false} BeforeHeading(ls: seq<string>, i: nat)
    requires i < FirstHeading(ls)
    ensures !IsHeading(ls[i])
  {
    if i > 0 {
      BeforeHeading(ls[1..], i - 1);
    }
  }

  lemma {:induction false} AtHeading(ls: seq<string>)
    ensures FirstHeading(ls) < |ls| ==> IsHeading(ls[FirstHeading(ls)])
  {
    if ls != [] && !IsHeading(ls[0]) {
      AtHeading(ls[1..]);
    }
  }

  lemma HeadingNotEmpty(l: string)
    ensures IsHeading(l) ==> l != ""
  {
  }

  lemma PlainPrefix(kept: seq<string>, ls: seq<string>)
    requires kept <= ls && Plain(ls)
    ensures Plain(kept)
  {
    forall l | l in kept ensures '\n' !in l {
      assert l in ls;
    }
  }

  lemma LinesOfText(ls: seq<string>)
    requires ls != [] && Plain(ls)
    ensures Lines(Text(ls)) == ls
  {
    hide Lines, Join;
    LinesOfJoin(ls);
  }

  lemma BlockIsGood(ls: seq<string>)
    requires ls != [] && IsHeading(ls[0]) && Plain(ls)
    requires forall i :: 0 < i < |ls| ==> !IsHeading(ls[i])
    ensures GoodBlock(Text(DropTrailing(ls)))
  {
    hide Lines, IsHeading, Text, Plain, DropTrailing, GoodBlock;
    DropTrailingKeeps(ls);
    HeadingNotEmpty(ls[0]);
    var kept := DropTrailing(ls);
    PlainPrefix(kept, ls);
    LinesOfText(kept);
    forall i | 0 < i < |kept| ensures !IsHeading(kept[i]) {
      assert kept[i] == ls[i];
    }
    GoodBlockByLines(Text(kept), kept);
  }

  lemma GoodBlockByLines(text: string, ls: seq<string>)
    requires Lines(text) == ls && ls != [] && IsHeading(ls[0]) && ls[|ls| - 1] != ""
    requires forall i :: 0 < i < |ls| ==> !IsHeading(ls[i])
    ensures GoodBlock(text)
  {
    hide Lines, IsHeading;
  }

  lemma {:induction false} BlocksAreGood(ls: seq<string>)
    requires Plain(ls) && (ls == [] || IsHeading(ls[0]))
    ensures forall b :: b in BlocksOf(ls) ==> GoodBlock(b)
    decreases |ls|
  {
    if ls != [] {
      var k := 1 + FirstHeading(ls[1..]);
      AtHeading(ls[1..]);
      forall i | 0 < i < k ensures !IsHeading(ls[..k][i]) {
        BeforeHeading(ls[1..], i - 1);
      }
      BlockIsGood(ls[..k]);
      BlocksAreGood(ls[k..]);
    }
  }

  lemma {:induction false} BeforeEmpty(ls: seq<string>, i: nat)
    requires i < FirstEmpty(ls)
    ensures ls[i] != ""
  {
    if i > 0 {
      BeforeEmpty(ls[1..], i - 1);
    }
  }

  lemma {:induction false} SectionsAreGood(ls: seq<string>)
    requires Plain(ls) && forall l :: l in ls ==> !IsHeading(l)
    ensures forall s :: s in SectionsOf(ls) ==> GoodSection(s)
    decreases |ls|
  {
    if ls != [] && ls[0] == "" {
      SectionsAreGood(ls[1..]);
    } else if ls != [] {
      var k := FirstEmpty(ls);
      forall i | 0 <= i < k ensures ls[i] != "" {
        BeforeEmpty(ls, i);
      }
      LinesOfJoin(ls[..k]);
      SectionsAreGood(ls[k..]);
    }
  }

  lemma {:induction false} DropLeadingKeeps(ls: seq<string>)
    ensures forall l :: l in DropLeading(ls) ==> l in ls
    ensures DropLeading(ls) != [] ==> DropLeading(ls)[0] != ""
  {
    if ls != [] && ls[0] == "" {
      DropLeadingKeeps(ls[1..]);
    }
  }

  lemma TrimKeeps(ls: seq<string>)
    ensures forall l :: l in Trim(ls) ==> l in ls
  {
    DropLeadingKeeps(ls);
    DropTrailingKeeps(DropLeading(ls));
  }

  /** Whatever the text, splitting yields sections without blank lines or headings, and blocks with
      exactly one heading, at the start, and no trailing blank line. */
  lemma ParseIsGood(text: string)
    ensures GoodDay(Parse(text))
  {
    var ls := Trim(Lines(text));
    var k := FirstHeading(ls);
    TrimKeeps(Lines(text));
    AtHeading(ls);
    BlocksAreGood(ls[k..]);
    TrimKeeps(ls[..k]);
    forall l | l in Trim(ls[..k]) ensures !IsHeading(l) {
      var i :| 0 <= i < k && ls[..k][i] == l;
      BeforeHeading(ls, i);
    }
    SectionsAreGood(Trim(ls[..k]));
  }

  // ---------- parsing what was printed ----------

  /** The lines of pieces separated by one blank line. */
  function Spread(pieces: seq<string>): seq<string> {
    if pieces == [] then []
    else if |pieces| == 1 then Lines(pieces[0])
    else Lines(pieces[0]) + [""] + Spread(pieces[1..])
  }

  lemma {:induction false} LinesOfPieces(pieces: seq<string>)
    requires pieces != []
    ensures Lines(Join("\n\n", pieces)) == Spread(pieces)
  {
    hide Lines;
    if |pieces| > 1 {
      LinesOfPieces(pieces[1..]);
      LinesAroundBlank(pieces[0], Join("\n\n", pieces[1..]));
    }
  }

  lemma LinesAroundBlank(a: string, b: string)
    ensures Lines(a + "\n\n" + b) == Lines(a) + [""] + Lines(b)
  {
    hide Lines;
    var rest := "" + "\n" + b;
    assert a + "\n\n" + b == a + "\n" + rest;
    LinesOfConcat(a, rest);
    LinesOfCons("", b);
    assert Lines(a) + ([""] + Lines(b)) == Lines(a) + [""] + Lines(b);
  }

  lemma {:induction false} JoinOfJoins(a: seq<string>, b: seq<string>)
    requires a != [] && b != []
    ensures Join("\n\n", a) + "\n\n" + Join("\n\n", b) == Join("\n\n", a + b)
  {
    if |a| == 1 {
      assert (a + b)[1..] == b;
    } else {
      assert (a + b)[1..] == a[1..] + b;
      JoinOfJoins(a[1..], b);
    }
  }

  lemma JoinNotEmpty(pieces: seq<string>)
    requires pieces != [] && pieces[0] != ""
    ensures Join("\n\n", pieces) != ""
  {
  }

  lemma JoinOfTwo(sep: string, a: string, b: string)
    ensures Join(sep, [a, b]) == a + sep + b
  {
    assert [a, b][1..] == [b];
  }

  lemma PrintedPieces(day: Day)
    requires GoodDay(day)
    ensures Print(day) == Join("\n\n", day.sections + day.blocks)
  {
    if day.sections != [] {
      PieceNotEmpty(day.sections[0]);
      JoinNotEmpty(day.sections);
    } else {
      assert day.sections + day.blocks == day.blocks;
    }
    if day.blocks != [] {
      PieceNotEmpty(day.blocks[0]);
      JoinNotEmpty(day.blocks);
    } else {
      assert day.sections + day.blocks == day.sections;
    }
    if day.sections != [] && day.blocks != [] {
      JoinOfTwo("\n\n", Join("\n\n", day.sections), Join("\n\n", day.blocks));
      JoinOfJoins(day.sections, day.blocks);
      assert [Join("\n\n", day.sections)] + [Join("\n\n", day.blocks)] == [Join("\n\n", day.sections), Join("\n\n", day.blocks)];
    }
  }

  lemma PieceNotEmpty(s: string)
    ensures GoodSection(s) || GoodBlock(s) ==> s != ""
  {
    LinesOfOne("");
    assert "" in [""];
  }

  lemma {:induction false} FirstHeadingOf(front: seq<string>, back: seq<string>)
    requires forall l :: l in front ==> !IsHeading(l)
    requires back == [] || IsHeading(back[0])
    ensures FirstHeading(front + back) == |front|
  {
    if front == [] {
      assert front + back == back;
    } else {
      assert front[0] in front;
      assert (front + back)[1..] == front[1..] + back;
      FirstHeadingOf(front[1..], back);
    }
  }

  lemma {:induction false} FirstEmptyOf(run: seq<string>, back: seq<string>)
    requires forall l :: l in run ==> l != ""
    requires back == [] || back[0] == ""
    ensures FirstEmpty(run + back) == |run|
  {
    if run == [] {
      assert run + back == back;
    } else {
      assert run[0] in run;
      assert (run + back)[1..] == run[1..] + back;
      assert forall l :: l in run[1..] ==> l in run;
      FirstEmptyOf(run[1..], back);
    }
  }

  lemma SpreadStep(piece: string, rest: seq<string>)
    ensures Spread([piece] + rest) == if rest == [] then Lines(piece) else Lines(piece) + [""] + Spread(rest)
  {
    hide Lines;
    assert ([piece] + rest)[1..] == rest;
  }

  /** Printed sections are read back. */
  lemma {:induction false} SectionsReadBack(pieces: seq<string>)
    requires forall s :: s in pieces ==> GoodSection(s)
    ensures SectionsOf(Spread(pieces)) == pieces
  {
    hide Lines, IsHeading;
    if pieces != [] {
      var rest := pieces[1..];
      assert pieces == [pieces[0]] + rest;
      assert pieces[0] in pieces;
      SpreadStep(pieces[0], rest);
      SectionsReadBack(rest);
      RunReadBack(Lines(pieces[0]), if rest == [] then [] else [""] + Spread(rest));
      JoinOfLines(pieces[0]);
      if rest == [] {
        assert Lines(pieces[0]) + [] == Lines(pieces[0]);
      } else {
        assert Spread(pieces) == Lines(pieces[0]) + ([""] + Spread(rest));
        assert ([""] + Spread(rest))[1..] == Spread(rest);
      }
    }
  }

  lemma RunReadBack(run: seq<string>, back: seq<string>)
    requires run != [] && forall l :: l in run ==> l != ""
    requires back == [] || back[0] == ""
    ensures SectionsOf(run + back) == [Text(run)] + SectionsOf(back)
  {
    FirstEmptyOf(run, back);
    assert run[0] in run;
    assert (run + back)[..|run|] == run && (run + back)[|run|..] == back;
  }

  lemma {:induction false} DropTrailingExact(ls: seq<string>, blank: seq<string>)
    requires ls != [] && ls[|ls| - 1] != ""
    requires forall l :: l in blank ==> l == ""
    ensures DropTrailing(ls + blank) == ls
    decreases |blank|
  {
    if blank == [] {
      assert ls + blank == ls;
    } else {
      assert blank[|blank| - 1] in blank;
      var fewer := blank[..|blank| - 1];
      forall l | l in fewer ensures l == "" {
        assert l in blank;
      }
      assert (ls + blank)[..|ls + blank| - 1] == ls + fewer;
      DropTrailingExact(ls, fewer);
    }
  }

  lemma BlockReadBack(block: string, blank: seq<string>, back: seq<string>)
    requires GoodBlock(block) && (forall l :: l in blank ==> l == "")
    requires back == [] || IsHeading(back[0])
    ensures BlocksOf(Lines(block) + blank + back) == [block] + BlocksOf(back)
  {
    hide Lines, IsHeading;
    var ls := Lines(block);
    var front := ls[1..] + blank;
    var whole := ls + blank + back;
    EmptyIsNoHeading();
    assert whole[1..] == front + back;
    FirstHeadingOf(front, back);
    assert whole[..1 + |front|] == ls + blank && whole[1 + |front|..] == back;
    DropTrailingExact(ls, blank);
    JoinOfLines(block);
  }

  lemma EmptyIsNoHeading()
    ensures !IsHeading("")
  {
  }

  lemma {:induction false} BlocksReadBack(pieces: seq<string>)
    requires forall b :: b in pieces ==> GoodBlock(b)
    ensures BlocksOf(Spread(pieces)) == pieces
    ensures pieces != [] ==> Spread(pieces) != [] && IsHeading(Spread(pieces)[0])
    ensures pieces != [] ==> Spread(pieces)[|Spread(pieces)| - 1] != ""
  {
    hide Lines, IsHeading;
    if pieces != [] {
      var rest := pieces[1..];
      assert pieces == [pieces[0]] + rest;
      assert pieces[0] in pieces;
      SpreadStep(pieces[0], rest);
      BlocksReadBack(rest);
      if rest == [] {
        BlockReadBack(pieces[0], [], []);
        assert Lines(pieces[0]) + [] + [] == Lines(pieces[0]);
      } else {
        BlockReadBack(pieces[0], [""], Spread(rest));
      }
    }
  }

  lemma {:induction false} SectionLines(pieces: seq<string>)
    requires forall s :: s in pieces ==> GoodSection(s)
    ensures forall l :: l in Spread(pieces) ==> !IsHeading(l)
    ensures pieces != [] ==> Spread(pieces) != [] && Spread(pieces)[0] != "" && Spread(pieces)[|Spread(pieces)| - 1] != ""
  {
    hide Lines, IsHeading;
    EmptyIsNoHeading();
    if pieces != [] {
      var rest := pieces[1..];
      var first := Lines(pieces[0]);
      assert pieces == [pieces[0]] + rest;
      assert pieces[0] in pieces && first[0] in first && first[|first| - 1] in first;
      SpreadStep(pieces[0], rest);
      SectionLines(rest);
    }
  }

  lemma {:induction false} SpreadAppend(a: seq<string>, b: seq<string>)
    requires a != [] && b != []
    ensures Spread(a + b) == Spread(a) + [""] + Spread(b)
  {
    hide Lines;
    assert a == [a[0]] + a[1..];
    assert a + b == [a[0]] + (a[1..] + b);
    SpreadStep(a[0], a[1..]);
    SpreadStep(a[0], a[1..] + b);
    if |a| == 1 {
      assert a[1..] + b == b;
    } else {
      SpreadAppend(a[1..], b);
    }
  }

  lemma TrimExact(ls: seq<string>, blank: seq<string>)
    requires ls != [] && ls[0] != "" && ls[|ls| - 1] != ""
    requires forall l :: l in blank ==> l == ""
    ensures Trim(ls + blank) == ls
  {
    DropTrailingExact(ls, blank);
    assert (ls + blank)[0] == ls[0];
  }

  /** Splitting what was printed gives back the same preamble sections and blocks. */
  lemma ParsePrint(day: Day)
    requires GoodDay(day)
    ensures Parse(Print(day)) == day
  {
    hide Lines, IsHeading, SectionsOf, BlocksOf, Spread, GoodSection, GoodBlock, Trim;
    var s, b := day.sections, day.blocks;
    PrintedPieces(day);
    SectionsReadBack(s);
    BlocksReadBack(b);
    SectionLines(s);
    NothingToRead();
    if s == [] && b == [] {
      assert s + b == [];
    } else {
      LinesOfPieces(s + b);
      if s == [] {
        assert s + b == b;
        ParseBlocksOnly(Spread(b));
      } else if b == [] {
        assert s + b == s;
        ParseSectionsOnly(Spread(s));
      } else {
        SpreadAppend(s, b);
        ParseBoth(Spread(s), Spread(b));
      }
    }
  }

  lemma NothingToRead()
    ensures Parse("") == Day([], []) && Join("\n\n", []) == ""
    ensures SectionsOf([]) == [] && BlocksOf([]) == [] && Trim([]) == []
  {
    LinesOfOne("");
    assert Trim([""]) == [];
  }

  lemma ParseBlocksOnly(b: seq<string>)
    requires b != [] && IsHeading(b[0]) && b[|b| - 1] != ""
    ensures ParseLines(b) == Day([], BlocksOf(b))
  {
    hide SectionsOf, BlocksOf;
    HeadingNotEmpty(b[0]);
    TrimExact(b, []);
    assert b + [] == b;
    NothingToRead();
    assert b[..0] == [] && b[0..] == b;
  }

  lemma ParseSectionsOnly(s: seq<string>)
    requires s != [] && s[0] != "" && s[|s| - 1] != "" && forall l :: l in s ==> !IsHeading(l)
    ensures ParseLines(s) == Day(SectionsOf(s), [])
  {
    hide IsHeading, SectionsOf, BlocksOf;
    TrimExact(s, []);
    assert s + [] == s;
    FirstHeadingOf(s, []);
    NothingToRead();
    assert s[..|s|] == s && s[|s|..] == [];
  }

  lemma ParseBoth(s: seq<string>, b: seq<string>)
    requires s != [] && s[0] != "" && s[|s| - 1] != "" && forall l :: l in s ==> !IsHeading(l)
    requires b != [] && IsHeading(b[0]) && b[|b| - 1] != ""
    ensures ParseLines(s + [""] + b) == Day(SectionsOf(s), BlocksOf(b))
  {
    hide IsHeading, SectionsOf, BlocksOf;
    var whole := s + [""] + b;
    TrimExact(whole, []);
    assert whole + [] == whole;
    EmptyIsNoHeading();
    FirstHeadingOf(s + [""], b);
    assert whole[..|s| + 1] == s + [""] && whole[|s| + 1..] == b;
    TrimExact(s, [""]);
  }

  // ---------- the merge ----------

  lemma BlockLeIsLinear()
    ensures LinearOrder(BlockLe)
  {
    Evaluation.PairLeIsLinear();
    forall a, b ensures BlockLe(a, b) || BlockLe(b, a) {
      assert Evaluation.PairLe((Key(a), a), (Key(b), b)) || Evaluation.PairLe((Key(b), b), (Key(a), a));
    }
    forall a, b | BlockLe(a, b) && BlockLe(b, a) ensures a == b {
      assert (Key(a), a) == (Key(b), b);
    }
    forall a, b, c | BlockLe(a, b) && BlockLe(b, c) ensures BlockLe(a, c) {
      Evaluation.PairLeTransitive((Key(a), a), (Key(b), b), (Key(c), c));
    }
  }

  /** Everything of both days, each piece exactly once, blocks in time order. */
  ghost predicate MergeOf(day: Day, target: Day, legacy: Day) {
    && Distinct(day.sections) && Distinct(day.blocks)
    && (forall s :: s in day.sections <==> s in target.sections || s in legacy.sections)
    && (forall b :: b in day.blocks <==> b in target.blocks || b in legacy.blocks)
    && Sorted(day.blocks, BlockLe)
  }

  lemma MergeDaysIsMerge(target: Day, legacy: Day)
    ensures MergeOf(MergeDays(target, legacy), target, legacy)
  {
    var blocks := Unique(legacy.blocks + target.blocks);
    BlockLeIsLinear();
    SortSorted(blocks, BlockLe);
    SortKeepsElements(blocks, BlockLe);
    SortMembers(blocks, BlockLe);
    PermutationDistinct(blocks, Sort(blocks, BlockLe));
  }

  /** The merge is lossless: reading the merged text back gives every preamble section and every block
      of both texts exactly once, blocks sorted by time, legacy sections first. */
  lemma MergeIsLossless(target: string, legacy: string)
    ensures MergeOf(Parse(Merge(target, legacy)), Parse(target), Parse(legacy))
    ensures Unique(Parse(legacy).sections) <= Parse(Merge(target, legacy)).sections
    ensures GoodDay(Parse(Merge(target, legacy)))
  {
    MergeReadBack(target, legacy);
    MergeDaysIsMerge(Parse(target), Parse(legacy));
    var _ := UniqueSplit(Parse(legacy).sections, Parse(target).sections);
  }

  lemma MergeReadBack(target: string, legacy: string)
    ensures Parse(Merge(target, legacy)) == MergeDays(Parse(target), Parse(legacy))
    ensures GoodDay(MergeDays(Parse(target), Parse(legacy)))
  {
    hide Parse, Print, GoodSection, GoodBlock;
    ParseIsGood(target);
    ParseIsGood(legacy);
    MergeDaysIsMerge(Parse(target), Parse(legacy));
    ParsePrint(MergeDays(Parse(target), Parse(legacy)));
  }

  lemma MergeDaysAgain(target: Day, legacy: Day)
    ensures MergeDays(MergeDays(target, legacy), legacy) == MergeDays(target, legacy)
  {
    UniqueAgain(legacy.sections, target.sections);
    var once := MergeDays(target, legacy);
    var twice := MergeDays(once, legacy);
    MergeDaysIsMerge(target, legacy);
    BlockLeIsLinear();
    var a, b := Unique(legacy.blocks + target.blocks), Unique(legacy.blocks + once.blocks);
    DistinctMultiset(a, b);
    SortCanonical(a, b, BlockLe);
  }

  /** Merging the same legacy text a second time returns the identical text. */
  lemma MergeIsIdempotent(target: string, legacy: string)
    ensures Merge(Merge(target, legacy), legacy) == Merge(target, legacy)
  {
    MergeReadBack(target, legacy);
    MergeDaysAgain(Parse(target), Parse(legacy));
  }

  // ---------- healing a legacy layout ----------

  /** text.strip("\n") */
  function StripText(text: string): string {
    Text(Trim(Lines(text)))
  }

  lemma {:induction false} DropTrailingAll(ls: seq<string>)
    ensures DropTrailing(DropTrailing(ls)) == DropTrailing(ls)
  {
    if ls != [] && ls[|ls| - 1] == "" {
      DropTrailingAll(ls[..|ls| - 1]);
    }
  }

  lemma {:induction false} TrimTwice(ls: seq<string>)
    ensures Trim(Trim(ls)) == Trim(ls)
  {
    DropLeadingKeeps(ls);
    DropTrailingKeeps(DropLeading(ls));
    DropTrailingAll(DropLeading(ls));
  }

  /** Stripping outer newlines loses no section and no block. */
  lemma StripKeepsDay(text: string)
    ensures Parse(StripText(text)) == Parse(text)
  {
    hide Lines, SectionsOf, BlocksOf, Trim, FirstHeading;
    var ls := Trim(Lines(text));
    TrimTwice(Lines(text));
    TrimKeeps(Lines(text));
    NothingToRead();
    if ls == [] {
      LinesOfOne("");
    } else {
      LinesOfJoin(ls);
    }
  }

  function HealedText(target: Option<string>, legacy: string): string {
    if target.Some? then Merge(target.value, legacy) else StripText(legacy)
  }

  /** Healing again after an interruption before the legacy tree was deleted: a merged day keeps its
      text; a day that had no target keeps its sections and blocks, and keeps its text exactly when the
      legacy text was already in merged form. */
  lemma HealingAgain(target: Option<string>, legacy: string)
    ensures
      var once := HealedText(target, legacy);
      var twice := HealedText(Some(once), legacy);
      && (target.Some? ==> twice == once)
      && (target.None? ==> MergeOf(Parse(twice), Parse(legacy), Parse(legacy)))
      && (target.None? ==> (twice == once <==> StripText(legacy) == Merge(legacy, legacy)))
  {
    if target.Some? {
      MergeIsIdempotent(target.value, legacy);
    } else {
      StripKeepsDay(legacy);
      MergeIsLossless(legacy, legacy);
    }
  }

  function TextAt(files: map<string, string>, path: string): Option<string> {
    if path in files then Some(files[path]) else None
  }

  /** The days after those in done have been healed. */
  ghost predicate Healed(before: map<string, string>, after: map<string, string>, found: map<string, string>, done: set<string>) {
    && after.Keys == before.Keys + done
    && forall d :: d in after ==>
      after[d] == if d in done && d in found then HealedText(TextAt(before, d), found[d]) else if d in before then before[d] else ""
  }

  lemma NothingHealed(before: map<string, string>, found: map<string, string>)
    ensures Healed(before, before, found, {})
  {
    hide HealedText;
  }

  lemma HealedOneMore(
    before: map<string, string>, after: map<string, string>, found: map<string, string>, done: set<string>, d: string)
    requires Healed(before, after, found, done) && d in found && d !in done
    ensures Healed(before, after[d := HealedText(TextAt(before, d), found[d])], found, done + {d})
    ensures TextAt(after, d) == TextAt(before, d)
  {
    hide HealedText;
  }

  /** One area's current and legacy journal files, by day. */
  class JournalStore {
    var days: map<string, string>
    var legacy: Option<map<string, string>>

    constructor (days: map<string, string>, legacy: Option<map<string, string>>)
      ensures this.days == days && this.legacy == legacy
    {
      this.days, this.legacy := days, legacy;
    }

    /** One legacy file: merge into an existing day, or start the day with it; write only a change. */
    method HealDay(d: string, legacyText: string)
      modifies this`days
      ensures days == old(days)[d := HealedText(TextAt(old(days), d), legacyText)]
    {
      hide Merge, StripText;
      var merged;
      if d in days {
        merged := MergeJournalDayText(days[d], legacyText);
      } else {
        merged := StripText(legacyText);
      }
      if d !in days || days[d] != merged {
        days := days[d := merged];
      }
    }

    method HealAll(found: map<string, string>)
      modifies this`days
      ensures Healed(old(days), days, found, found.Keys)
    {
      hide HealedText, TextAt, Healed;
      ghost var done: set<string> := {};
      var rest := found.Keys;
      NothingHealed(days, found);
      while rest != {}
        invariant rest !! done && rest + done == found.Keys
        invariant Healed(old(days), days, found, done)
        decreases |rest|
      {
        var d :| d in rest;
        HealedOneMore(old(days), days, found, done, d);
        rest := rest - {d};
        done := done + {d};
        HealDay(d, found[d]);
      }
    }

    /** heal_legacy_journal_layout */
    method HealLegacyJournalLayout() returns (healed: bool)
      modifies this
      ensures healed == old(legacy).Some? && legacy == None
      ensures !healed ==> days == old(days)
      ensures healed ==> Healed(old(days), days, old(legacy).value, old(legacy).value.Keys)
    {
      if legacy == None {
        return false;
      }
      hide Healed;
      HealAll(legacy.value);
      legacy := None;
      healed := true;
    }
  }
}
