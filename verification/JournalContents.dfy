/** What splitting and merging journal days keep: every line that is not blank, the order of the sections and
    the order of time. */
module JournalContents {
  import opened Basics
  import opened Strings
  import opened Journal
  import Evaluation

  // ---------- headings ----------

  /** A heading line is the mark, two digits, a colon, two digits and trailing white space. */
  lemma HeadingExactly(l: string)
    ensures IsHeading(l) <==> exists h: char, hh: char, m: char, mm: char, rest: string ::
      l == Heading(h, hh, m, mm, rest) && AreDigits(h, hh, m, mm) && forall i :: 0 <= i < |rest| ==> IsSpace(rest[i])
  {
    if IsHeading(l) {
      assert l == Heading(l[3], l[4], l[6], l[7], l[8..]);
    }
  }

  lemma DigitExactly(c: char)
    ensures IsDigit(c) <==> c in "0123456789"
  {
    assert "0123456789" == ['0', '1', '2', '3', '4', '5', '6', '7', '8', '9'];
    if c in "0123456789" {
      var i :| 0 <= i < 10 && "0123456789"[i] == c;
    }
  }

  function Heading(h: char, hh: char, m: char, mm: char, rest: string): string {
    ['#', '#', ' ', h, hh, ':', m, mm] + rest
  }

  predicate AreDigits(h: char, hh: char, m: char, mm: char) {
    IsDigit(h) && IsDigit(hh) && IsDigit(m) && IsDigit(mm)
  }

  // ---------- the time of a block ----------

  function Digit(c: char): int {
    c as int - '0' as int
  }

  /** Hours and minutes as one number. */
  function Clock(l: string): int
    requires |l| >= 8
  {
    Digit(l[3]) * 1000 + Digit(l[4]) * 100 + Digit(l[6]) * 10 + Digit(l[7])
  }

  lemma KeyIsTheTime(block: string)
    requires GoodBlock(block)
    ensures |Lines(block)[0]| >= 8 && Key(block) == Lines(block)[0][3..8]
  {
  }

  lemma TextOrderIsTimeOrder(a: string, b: string)
    requires IsHeading(a) && IsHeading(b) && StrLe(a[3..8], b[3..8])
    ensures Clock(a) <= Clock(b)
  {
    var x, y := a[3..8], b[3..8];
    StrLeUnrolled(x, y);
    assert x[0] == a[3] && x[1] == a[4] && x[2] == a[5] && x[3] == a[6] && x[4] == a[7];
    assert y[0] == b[3] && y[1] == b[4] && y[2] == b[5] && y[3] == b[6] && y[4] == b[7];
  }

  lemma StrLeUnrolled(x: string, y: string)
    requires |x| == |y| == 5 && StrLe(x, y)
    ensures
      || x[0] < y[0]
      || (x[0] == y[0] && x[1] < y[1])
      || (x[..2] == y[..2] && x[2] < y[2])
      || (x[..3] == y[..3] && x[3] < y[3])
      || (x[..4] == y[..4] && x[4] <= y[4])
  {
    if x[0] == y[0] {
      var x1, y1 := x[1..], y[1..];
      assert StrLe(x1, y1) && x[1] == x1[0] && y[1] == y1[0];
      if x1[0] == y1[0] {
        var x2, y2 := x1[1..], y1[1..];
        assert StrLe(x2, y2) && x[2] == x2[0] && y[2] == y2[0];
        if x2[0] == y2[0] {
          var x3, y3 := x2[1..], y2[1..];
          assert StrLe(x3, y3) && x[3] == x3[0] && y[3] == y3[0];
          if x3[0] == y3[0] {
            assert StrLe(x3[1..], y3[1..]) && x[4] == x3[1] && y[4] == y3[1];
          }
        }
      }
    }
  }

  /** In the merged day no block comes before an earlier one. */
  lemma BlocksByTime(target: string, legacy: string, i: nat, j: nat)
    requires i <= j < |Parse(Merge(target, legacy)).blocks|
    ensures
      var blocks := Parse(Merge(target, legacy)).blocks;
      && |Lines(blocks[i])[0]| >= 8 && |Lines(blocks[j])[0]| >= 8
      && Clock(Lines(blocks[i])[0]) <= Clock(Lines(blocks[j])[0])
  {
    hide Parse, Merge, Clock, Lines;
    var blocks := Parse(Merge(target, legacy)).blocks;
    MergeIsLossless(target, legacy);
    assert blocks[i] in blocks && blocks[j] in blocks;
    KeyIsTheTime(blocks[i]);
    KeyIsTheTime(blocks[j]);
    if i < j {
      assert BlockLe(blocks[i], blocks[j]);
      StrLeTotal(Key(blocks[i]), Key(blocks[j]));
      KeysInOrder(blocks[i], blocks[j]);
      TextOrderIsTimeOrder(Lines(blocks[i])[0], Lines(blocks[j])[0]);
    }
  }

  lemma KeysInOrder(a: string, b: string)
    requires BlockLe(a, b)
    ensures StrLe(Key(a), Key(b))
  {
    hide Key;
    StrLeTotal(Key(a), Key(b));
  }

  // ---------- the order of the sections ----------

  /** The positions of the first occurrences, in order. */
  ghost predicate FirstOccurrences(s: seq<string>, at: seq<nat>) {
    && (forall a, b :: 0 <= a < b < |at| ==> at[a] < at[b])
    && (forall k: nat :: k in at <==> k < |s| && s[k] !in s[..k])
  }

  /** The positions of what is kept. */
  ghost predicate PositionsOf(kept: seq<string>, s: seq<string>, at: seq<nat>) {
    |kept| == |at| && forall a :: 0 <= a < |at| ==> at[a] < |s| && kept[a] == s[at[a]]
  }

  lemma {:induction false} UniqueInOrder(s: seq<string>) returns (at: seq<nat>)
    ensures FirstOccurrences(s, at) && PositionsOf(Unique(s), s, at)
  {
    if s == [] {
      at := [];
    } else {
      hide FirstOccurrences, Distinct, Unique, PositionsOf;
      var front, last := s[..|s| - 1], s[|s| - 1];
      assert s == front + [last];
      var before := UniqueInOrder(front);
      UniqueSnoc(front, last);
      FirstOccurrencesSnoc(front, last, before);
      PositionsSnoc(Unique(front), front, last, before);
      at := if last in front then before else before + [|front|];
    }
  }

  lemma PositionsSnoc(kept: seq<string>, front: seq<string>, last: string, at: seq<nat>)
    requires PositionsOf(kept, front, at)
    ensures PositionsOf(kept, front + [last], at) && PositionsOf(kept + [last], front + [last], at + [|front|])
  {
  }

  lemma FirstOccurrencesSnoc(front: seq<string>, last: string, at: seq<nat>)
    requires FirstOccurrences(front, at)
    ensures last in front ==> FirstOccurrences(front + [last], at)
    ensures last !in front ==> FirstOccurrences(front + [last], at + [|front|])
  {
    var s, more: seq<nat> := front + [last], at + [|front|];
    assert s[..|front|] == front;
    forall k: nat | k < |front| ensures s[k] == front[k] && s[..k] == front[..k] {
    }
    forall k: nat ensures k in more <==> k in at || k == |front| {
      assert more[|at|] == |front|;
      assert k in at ==> k in at + [|front|];
    }
    forall a, b | 0 <= a < b < |more| ensures more[a] < more[b] {
      assert more[a] == at[a] && at[a] in at;
    }
  }

  /** Reading the merged day back gives the first occurrences of the sections of both days, the legacy ones
      first, in their order. */
  lemma SectionsInOrder(target: string, legacy: string) returns (at: seq<nat>)
    ensures
      var all, merged := Parse(legacy).sections + Parse(target).sections, Parse(Merge(target, legacy)).sections;
      FirstOccurrences(all, at) && PositionsOf(merged, all, at)
  {
    MergeReadBack(target, legacy);
    at := UniqueInOrder(Parse(legacy).sections + Parse(target).sections);
  }

  // ---------- splitting loses blank lines only ----------

  /** The lines that are not empty, in order. */
  function Written(ls: seq<string>): seq<string> {
    if ls == [] then [] else (if ls[0] == "" then [] else [ls[0]]) + Written(ls[1..])
  }

  lemma {:induction false} WrittenAppend(a: seq<string>, b: seq<string>)
    ensures Written(a + b) == Written(a) + Written(b)
  {
    if a == [] {
      assert a + b == b;
    } else {
      assert (a + b)[1..] == a[1..] + b;
      WrittenAppend(a[1..], b);
    }
  }

  lemma {:induction false} WrittenLeading(ls: seq<string>)
    ensures Written(DropLeading(ls)) == Written(ls)
  {
    if ls != [] && ls[0] == "" {
      WrittenLeading(ls[1..]);
    }
  }

  lemma {:induction false} WrittenTrailing(ls: seq<string>)
    ensures Written(DropTrailing(ls)) == Written(ls)
  {
    if ls != [] && ls[|ls| - 1] == "" {
      var front := ls[..|ls| - 1];
      WrittenTrailing(front);
      assert ls == front + [""];
      WrittenAppend(front, [""]);
      assert [""][1..] == [];
    }
  }

  lemma WrittenTrim(ls: seq<string>)
    ensures Written(Trim(ls)) == Written(ls)
  {
    WrittenLeading(ls);
    WrittenTrailing(DropLeading(ls));
  }

  /** The lines of all pieces one after the other. */
  function LinesOfAll(pieces: seq<string>): seq<string> {
    if pieces == [] then [] else Lines(pieces[0]) + LinesOfAll(pieces[1..])
  }

  lemma {:induction false} SectionsWritten(ls: seq<string>)
    requires Plain(ls)
    ensures Written(LinesOfAll(SectionsOf(ls))) == Written(ls)
    decreases |ls|
  {
    hide Lines, Join;
    if ls != [] && ls[0] == "" {
      SectionsWritten(ls[1..]);
    } else if ls != [] {
      var k := FirstEmpty(ls);
      var run, rest := ls[..k], ls[k..];
      assert ls == run + rest;
      SectionsWritten(rest);
      OnePieceMore(Text(run), run, SectionsOf(rest), rest);
    }
  }

  lemma OnePieceMore(piece: string, run: seq<string>, pieces: seq<string>, rest: seq<string>)
    requires piece == Text(run) && run != [] && Plain(run) && Written(LinesOfAll(pieces)) == Written(rest)
    ensures Written(LinesOfAll([piece] + pieces)) == Written(run) + Written(rest) == Written(run + rest)
  {
    hide Lines, Join;
    LinesOfText(run);
    assert ([piece] + pieces)[1..] == pieces;
    WrittenAppend(run, LinesOfAll(pieces));
    WrittenAppend(run, rest);
  }

  lemma {:induction false} BlocksWritten(ls: seq<string>)
    requires Plain(ls) && (ls == [] || IsHeading(ls[0]))
    ensures Written(LinesOfAll(BlocksOf(ls))) == Written(ls)
    decreases |ls|
  {
    hide Lines, Join;
    if ls != [] {
      var k := 1 + FirstHeading(ls[1..]);
      var run, rest := ls[..k], ls[k..];
      assert ls == run + rest;
      AtHeading(ls[1..]);
      HeadingNotEmpty(ls[0]);
      BlocksWritten(rest);
      DropTrailingKeeps(run);
      PlainPrefix(run, ls);
      PlainPrefix(DropTrailing(run), run);
      WrittenTrailing(run);
      OnePieceMore(Text(DropTrailing(run)), DropTrailing(run), BlocksOf(rest), rest);
      WrittenAppend(run, rest);
    }
  }

  lemma PlainPart(part: seq<string>, ls: seq<string>)
    requires Plain(ls) && forall l :: l in part ==> l in ls
    ensures Plain(part)
  {
  }

  lemma {:induction false} LinesOfAllAppend(a: seq<string>, b: seq<string>)
    ensures LinesOfAll(a + b) == LinesOfAll(a) + LinesOfAll(b)
  {
    hide Lines;
    if a == [] {
      assert a + b == b;
    } else {
      assert (a + b)[1..] == a[1..] + b;
      LinesOfAllAppend(a[1..], b);
    }
  }

  /** The sections and then the blocks of a day hold exactly the lines of its text that are not empty, in order. */
  lemma ParseLosesBlankLinesOnly(text: string)
    ensures Written(LinesOfAll(Parse(text).sections + Parse(text).blocks)) == Written(Lines(text))
  {
    hide Written, Lines, SectionsOf, BlocksOf, LinesOfAll, IsHeading, Trim;
    var ls := Trim(Lines(text));
    var k := FirstHeading(ls);
    var front, back := ls[..k], ls[k..];
    assert ls == front + back;
    TrimKeeps(Lines(text));
    PlainPart(ls, Lines(text));
    TrimKeeps(front);
    PlainPart(Trim(front), ls);
    PlainPart(back, ls);
    AtHeading(ls);
    SectionsWritten(Trim(front));
    BlocksWritten(back);
    WrittenTrim(front);
    WrittenTrim(Lines(text));
    WrittenAppend(front, back);
    LinesOfAllAppend(Parse(text).sections, Parse(text).blocks);
    WrittenAppend(LinesOfAll(Parse(text).sections), LinesOfAll(Parse(text).blocks));
  }

  // ---------- healing ----------

  /** Healing merges a legacy day into the day of the same date, starts a day that has none with the legacy
      text, and touches no other day. */
  lemma HealedTells(before: map<string, string>, after: map<string, string>, found: map<string, string>, d: string)
    requires Healed(before, after, found, found.Keys)
    ensures d in after <==> d in before || d in found
    ensures d in found && d in before ==>
      MergeOf(Parse(after[d]), Parse(before[d]), Parse(found[d])) && Unique(Parse(found[d]).sections) <= Parse(after[d]).sections
    ensures d in found && d !in before ==> Parse(after[d]) == Parse(found[d])
    ensures d !in found && d in before ==> after[d] == before[d]
  {
    hide Merge, StripText, Parse, MergeOf;
    if d in found && d in before {
      MergeIsLossless(before[d], found[d]);
    } else if d in found {
      StripKeepsDay(found[d]);
    }
  }
}
