/** String building blocks: joining, decimal numbers, substrings. */
module Strings {
  import opened Basics

  function Join(sep: string, parts: seq<string>): string {
    if parts == [] then ""
    else if |parts| == 1 then parts[0]
    else parts[0] + sep + Join(sep, parts[1..])
  }

  function Concat(parts: seq<string>): string {
    if parts == [] then "" else parts[0] + Concat(parts[1..])
  }

  lemma {:induction false} ConcatAppend(a: seq<string>, b: seq<string>)
    ensures Concat(a + b) == Concat(a) + Concat(b)
  {
    if a == [] {
      assert a + b == b;
    } else {
      assert (a + b)[1..] == a[1..] + b;
      ConcatAppend(a[1..], b);
    }
  }

  lemma ConcatOne(s: string)
    ensures Concat([s]) == s
  {
    assert Concat([s]) == s + Concat([s][1..]);
  }

  lemma ConcatSnoc(a: seq<string>, s: string)
    ensures Concat(a + [s]) == Concat(a) + s
  {
    ConcatAppend(a, [s]);
    ConcatOne(s);
  }

  function Decimal(n: nat): string {
    if n < 10 then ["0123456789"[n]] else Decimal(n / 10) + ["0123456789"[n % 10]]
  }

  /** part occurs in text as a contiguous piece. */
  predicate Contains(text: string, part: string) {
    exists i :: 0 <= i <= |text| && part <= text[i..]
  }

  lemma ContainsInside(before: string, text: string, after: string, part: string)
    requires Contains(text, part)
    ensures Contains(before + text + after, part)
  {
    var i :| 0 <= i <= |text| && part <= text[i..];
    var whole := before + text + after;
    assert whole[|before| + i..] == text[i..] + after;
    assert part <= whole[|before| + i..];
  }

  lemma ContainsTrans(a: string, b: string, c: string)
    requires Contains(a, b) && Contains(b, c)
    ensures Contains(a, c)
  {
    var i :| 0 <= i <= |a| && b <= a[i..];
    var j :| 0 <= j <= |b| && c <= b[j..];
    assert a[i..][j..] == a[i + j..];
    assert c <= a[i + j..];
  }

  lemma {:induction false} JoinContains(sep: string, parts: seq<string>, part: string)
    requires part in parts
    ensures Contains(Join(sep, parts), part)
  {
    var whole := Join(sep, parts);
    if parts[0] == part {
      assert part <= whole[0..];
    } else {
      assert parts == [parts[0]] + parts[1..];
      JoinContains(sep, parts[1..], part);
      ContainsInside(parts[0] + sep, Join(sep, parts[1..]), "", part);
      assert whole == (parts[0] + sep) + Join(sep, parts[1..]) + "";
    }
  }

  // ---------- lines ----------

  function FirstNewline(s: string): (k: nat)
    ensures k <= |s| && (k < |s| ==> s[k] == '\n')
    ensures '\n' !in s[..k]
  {
    if s == "" || s[0] == '\n' then 0
    else
      var rest := FirstNewline(s[1..]);
      assert s[..rest + 1] == [s[0]] + s[1..][..rest];
      rest + 1
  }

  /** s.split("\n") */
  function Lines(s: string): (r: seq<string>)
    ensures |r| > 0 && forall l :: l in r ==> '\n' !in l
    decreases |s|
  {
    var k := FirstNewline(s);
    if k == |s| then
      assert s[..k] == s;
      [s]
    else [s[..k]] + Lines(s[k + 1..])
  }

  lemma {:induction false} JoinOfLines(s: string)
    ensures Join("\n", Lines(s)) == s
    decreases |s|
  {
    hide FirstNewline, Join;
    var k := FirstNewline(s);
    if k == |s| {
      JoinOfOne("\n", s);
    } else {
      JoinOfLines(s[k + 1..]);
      assert Lines(s) == [s[..k]] + Lines(s[k + 1..]);
      JoinCons("\n", s[..k], Lines(s[k + 1..]));
      CutAtNewline(s, k);
    }
  }

  lemma JoinOfOne(sep: string, part: string)
    ensures Join(sep, [part]) == part
  {
  }

  lemma JoinCons(sep: string, part: string, rest: seq<string>)
    requires rest != []
    ensures Join(sep, [part] + rest) == part + sep + Join(sep, rest)
  {
    assert ([part] + rest)[1..] == rest;
  }

  lemma CutAtNewline(s: string, k: nat)
    requires k < |s| && s[k] == '\n'
    ensures s == s[..k] + "\n" + s[k + 1..]
  {
  }

  lemma {:induction false} FirstNewlineAt(a: string, b: string)
    requires '\n' !in a
    ensures FirstNewline(a + "\n" + b) == |a|
  {
    var s := a + "\n" + b;
    if a != "" {
      assert s[0] == a[0] && a[0] in a;
      assert s[1..] == a[1..] + "\n" + b;
      FirstNewlineAt(a[1..], b);
    }
  }

  lemma {:induction false} NoNewline(a: string)
    requires '\n' !in a
    ensures FirstNewline(a) == |a|
  {
    if a != "" {
      assert a[0] in a;
      NoNewline(a[1..]);
    }
  }

  lemma LinesOfCons(a: string, b: string)
    requires '\n' !in a
    ensures Lines(a + "\n" + b) == [a] + Lines(b)
  {
    var s := a + "\n" + b;
    FirstNewlineAt(a, b);
    assert s[..|a|] == a && s[|a| + 1..] == b;
  }

  lemma LinesOfOne(a: string)
    requires '\n' !in a
    ensures Lines(a) == [a]
  {
    NoNewline(a);
  }

  lemma {:induction false} LinesOfJoin(ls: seq<string>)
    requires ls != [] && forall l :: l in ls ==> '\n' !in l
    ensures Lines(Join("\n", ls)) == ls
  {
    assert ls[0] in ls;
    if |ls| == 1 {
      LinesOfOne(ls[0]);
    } else {
      LinesOfJoin(ls[1..]);
      LinesOfCons(ls[0], Join("\n", ls[1..]));
    }
  }

  lemma SplitFirst(a: string) returns (head: string, rest: string)
    requires '\n' in a
    ensures a == head + "\n" + rest && '\n' !in head
  {
    var k := FirstNewline(a);
    assert a[..|a|] == a;
    head, rest := a[..k], a[k + 1..];
  }

  lemma {:induction false} LinesOfConcat(a: string, b: string)
    ensures Lines(a + "\n" + b) == Lines(a) + Lines(b)
    decreases |a|
  {
    hide Lines;
    if '\n' !in a {
      LinesOfOne(a);
      LinesOfCons(a, b);
    } else {
      var head, rest := SplitFirst(a);
      LinesOfConcatStep(head, rest, b);
      LinesOfConcat(rest, b);
      assert [head] + (Lines(rest) + Lines(b)) == ([head] + Lines(rest)) + Lines(b);
    }
  }

  lemma LinesOfConcatStep(head: string, rest: string, b: string)
    requires '\n' !in head
    ensures Lines(head + "\n" + rest) == [head] + Lines(rest)
    ensures Lines(head + "\n" + rest + "\n" + b) == [head] + Lines(rest + "\n" + b)
  {
    LinesOfCons(head, rest);
    LinesOfCons(head, rest + "\n" + b);
    assert head + "\n" + rest + "\n" + b == head + "\n" + (rest + "\n" + b);
  }
}
