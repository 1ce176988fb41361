/** Child summaries and the budget of the whole prompt. */
module PromptBudget {
  import opened Basics
  import opened Strings
  import opened PromptPlanner
  import Evaluation

  // ---------- packing child summaries ----------

  type Child = (string, string)

  function ChildPart(child: Child): string {
    "\n### " + child.0 + "\n" + child.1
  }

  function ChildParts(children: seq<Child>): string {
    if children == [] then "" else ChildPart(children[0]) + ChildParts(children[1..])
  }

  function ChildNames(children: seq<Child>): seq<string> {
    if children == [] then [] else [children[0].0] + ChildNames(children[1..])
  }

  function ChildrenHeader(loaded: nat, omitted: nat, total: nat): string {
    if omitted > 0 then "Sub-area summaries (" + (Decimal(loaded) + " of " + Decimal(total) + " loaded") + "):" else "Sub-area summaries:"
  }

  function ChildrenFooter(omitted: nat): string {
    if omitted > 0 then "\n(" + (Decimal(omitted) + " sub-area summaries omitted") + " - prompt budget)" else ""
  }

  function RenderChildren(loaded: seq<Child>, omitted: nat, total: nat): string {
    if loaded == [] then ""
    else "\n" + ChildrenHeader(|loaded|, omitted, total) + ChildParts(loaded) + ChildrenFooter(omitted) + "\n"
  }

  /** Every loaded child summary is in the text, character for character. */
  lemma {:induction false} LoadedVerbatim(loaded: seq<Child>, omitted: nat, total: nat, i: nat)
    requires i < |loaded|
    ensures Contains(RenderChildren(loaded, omitted, total), ChildPart(loaded[i]))
  {
    hide ChildrenHeader, ChildrenFooter, ChildPart, Contains;
    var before := "\n" + ChildrenHeader(|loaded|, omitted, total);
    var after := ChildrenFooter(omitted) + "\n";
    ChildPartsContain(loaded, i);
    ContainsInside(before, ChildParts(loaded), after, ChildPart(loaded[i]));
    assert before + ChildParts(loaded) + after == RenderChildren(loaded, omitted, total);
  }

  /** The text tells how many of the children are loaded and how many are left out. */
  lemma ChildrenAreCounted(loaded: seq<Child>, omitted: nat, total: nat)
    requires loaded != [] && omitted > 0
    ensures Contains(RenderChildren(loaded, omitted, total), Decimal(|loaded|) + " of " + Decimal(total) + " loaded")
    ensures Contains(RenderChildren(loaded, omitted, total), Decimal(omitted) + " sub-area summaries omitted")
  {
    hide Contains, ChildParts, ChildrenHeader, ChildrenFooter, Decimal;
    var header, footer := ChildrenHeader(|loaded|, omitted, total), ChildrenFooter(omitted);
    HeaderCounts(|loaded|, omitted, total);
    PiecesInside("\n", header, ChildParts(loaded), footer, "\n");
    var text := RenderChildren(loaded, omitted, total);
    ContainsTrans(text, header, Decimal(|loaded|) + " of " + Decimal(total) + " loaded");
    ContainsTrans(text, footer, Decimal(omitted) + " sub-area summaries omitted");
  }

  lemma PiecesInside(before: string, first: string, middle: string, second: string, after: string)
    ensures Contains(before + first + middle + second + after, first)
    ensures Contains(before + first + middle + second + after, second)
  {
    hide Contains;
    CountInside(before, first, middle + second + after);
    CountInside(before + first + middle, second, after);
    assert before + first + (middle + second + after) == before + first + middle + second + after;
  }

  lemma HeaderCounts(loaded: nat, omitted: nat, total: nat)
    requires omitted > 0
    ensures Contains(ChildrenHeader(loaded, omitted, total), Decimal(loaded) + " of " + Decimal(total) + " loaded")
    ensures Contains(ChildrenFooter(omitted), Decimal(omitted) + " sub-area summaries omitted")
  {
    hide Contains, Decimal;
    CountInside("Sub-area summaries (", Decimal(loaded) + " of " + Decimal(total) + " loaded", "):");
    CountInside("\n(", Decimal(omitted) + " sub-area summaries omitted", " - prompt budget)");
  }

  lemma CountInside(before: string, count: string, after: string)
    ensures Contains(before + count + after, count)
  {
    hide Contains;
    ContainsItself(count);
    ContainsInside(before, count, after, count);
  }

  lemma {:induction false} ChildPartsContain(loaded: seq<Child>, i: nat)
    requires i < |loaded|
    ensures Contains(ChildParts(loaded), ChildPart(loaded[i]))
  {
    hide ChildPart;
    var first, rest := ChildPart(loaded[0]), ChildParts(loaded[1..]);
    if i == 0 {
      assert (first + rest)[0..] == first + rest;
      assert first <= (first + rest)[0..];
    } else {
      ChildPartsContain(loaded[1..], i - 1);
      ContainsInside(first, rest, "", ChildPart(loaded[i]));
      assert first + rest + "" == first + rest;
    }
  }

  function ChildTotal(children: seq<Child>): nat {
    if children == [] then 0 else Tokens(ChildPart(children[0])) + ChildTotal(children[1..])
  }

  lemma {:induction false} ChildTotalWithin(children: seq<Child>)
    ensures ChildTotal(children) <= Tokens(ChildParts(children))
  {
    if children != [] {
      ChildTotalWithin(children[1..]);
      TokensOfConcat(ChildPart(children[0]), ChildParts(children[1..]));
    }
  }

  lemma {:induction false} ChildTotalAppend(a: seq<Child>, b: seq<Child>)
    ensures ChildTotal(a + b) == ChildTotal(a) + ChildTotal(b)
  {
    if a == [] {
      assert a + b == b;
    } else {
      assert (a + b)[1..] == a[1..] + b;
      ChildTotalAppend(a[1..], b);
    }
  }

  lemma ChildTotalRendered(children: seq<Child>, total: nat)
    requires children != []
    ensures ChildTotal(children) <= Tokens(RenderChildren(children, 0, total))
  {
    hide ChildrenHeader, ChildrenFooter;
    ChildTotalWithin(children);
  }

  function ChildrenInOrder(children: seq<Child>): seq<Child> {
    Sort(children, Evaluation.PairLe)
  }

  /** The greedy pass over children in order: each one is taken exactly when it fits into what those taken
      before it leave. */
  function GreedyChildren(order: seq<Child>, remaining: int): seq<Child> {
    if order == [] then []
    else
      var last := order[|order| - 1];
      var before := GreedyChildren(order[..|order| - 1], remaining);
      if ChildTotal(before) + Tokens(ChildPart(last)) <= remaining then before + [last] else before
  }

  lemma {:induction false} GreedyChildrenMembers(order: seq<Child>, remaining: int)
    ensures forall c :: c in GreedyChildren(order, remaining) ==> c in order
    ensures Sorted(order, Evaluation.PairLe) ==> Sorted(GreedyChildren(order, remaining), Evaluation.PairLe)
    ensures |GreedyChildren(order, remaining)| <= |order|
    decreases |order|
  {
    hide ChildPart, ChildTotal, Tokens;
    if order != [] {
      var front, last := order[..|order| - 1], order[|order| - 1];
      GreedyChildrenMembers(front, remaining);
      assert order == front + [last];
      if Sorted(order, Evaluation.PairLe) {
        FrontSorted(order);
        forall c | c in GreedyChildren(front, remaining) ensures Evaluation.PairLe(c, last) {
          assert c in front;
        }
      }
    }
  }

  lemma FrontSorted(order: seq<Child>)
    requires order != [] && Sorted(order, Evaluation.PairLe)
    ensures Sorted(order[..|order| - 1], Evaluation.PairLe)
    ensures var front, last := order[..|order| - 1], order[|order| - 1];
      forall c :: c in front ==> Evaluation.PairLe(c, last)
  {
  }

  /** The text with the first m of them loaded and the others of the total omitted. */
  function FrontText(first: seq<Child>, m: nat, total: nat): string
    requires m <= |first| <= total
  {
    RenderChildren(first[..m], total - m, total)
  }

  /** The longest front part of first whose exact text fits, the others counted as omitted. */
  ghost predicate LongestFit(first: seq<Child>, loaded: seq<Child>, total: nat, remaining: int)
    requires |first| <= total
  {
    loaded <= first && NoneLongerFits(first, |loaded|, total, remaining)
  }

  ghost predicate NoneLongerFits(first: seq<Child>, n: nat, total: nat, remaining: int)
    requires |first| <= total
  {
    forall m :: n < m <= |first| ==> Tokens(FrontText(first, m, total)) > remaining
  }

  lemma OneShorter(first: seq<Child>, n: nat, total: nat, remaining: int)
    requires n < |first| <= total && NoneLongerFits(first, n + 1, total, remaining)
    requires Tokens(RenderChildren(first[..n + 1], total - n - 1, total)) > remaining
    ensures NoneLongerFits(first, n, total, remaining)
  {
    hide RenderChildren;
    assert FrontText(first, n + 1, total) == RenderChildren(first[..n + 1], total - n - 1, total);
  }

  lemma NothingLonger(first: seq<Child>, total: nat, remaining: int)
    ensures total >= |first| ==> NoneLongerFits(first, |first|, total, remaining)
  {
  }

  lemma NothingToRender(omitted: nat, total: nat)
    ensures RenderChildren([], omitted, total) == ""
  {
  }

  /** loaded and omitted split the children between them; both are in name order. What is loaded is the
      longest front part of the greedy choice whose exact text fits. */
  ghost predicate GoodChildPacking(children: seq<Child>, remaining: int, loaded: seq<Child>, omitted: seq<string>, text: string) {
    var greedy := GreedyChildren(ChildrenInOrder(children), remaining);
    && (forall c :: c in loaded ==> c in children) && Sorted(loaded, Evaluation.PairLe)
    && (remaining <= 0 ==> loaded == [])
    && |greedy| <= |children| && (remaining > 0 ==> LongestFit(greedy, loaded, |children|, remaining))
    && text == RenderChildren(loaded, |omitted|, |children|)
    && Tokens(text) <= Left(remaining, 0)
    && multiset(ChildNames(loaded)) + multiset(omitted) == multiset(ChildNames(children))
    && Sorted(omitted, StrLe)
    && (omitted == [] <==> remaining > 0 && Tokens(RenderChildren(ChildrenInOrder(children), 0, |children|)) <= remaining)
    && (omitted == [] ==> loaded == ChildrenInOrder(children))
  }

  lemma {:induction false} NamesOfInsert(x: Child, s: seq<Child>, le: (Child, Child) -> bool)
    ensures multiset(ChildNames(Insert(x, s, le))) == multiset(ChildNames(s)) + multiset{x.0}
  {
    if s != [] && !le(x, s[0]) {
      NamesOfInsert(x, s[1..], le);
      var r := Insert(x, s[1..], le);
      assert ([s[0]] + r)[1..] == r;
    } else {
      assert ([x] + s)[1..] == s;
    }
  }

  lemma {:induction false} NamesOfSort(s: seq<Child>, le: (Child, Child) -> bool)
    ensures multiset(ChildNames(Sort(s, le))) == multiset(ChildNames(s))
  {
    if s != [] {
      NamesOfSort(s[1..], le);
      NamesOfInsert(s[0], Sort(s[1..], le), le);
    }
  }

  lemma {:induction false} ChildNamesAppend(a: seq<Child>, c: Child)
    ensures ChildNames(a + [c]) == ChildNames(a) + [c.0]
  {
    if a != [] {
      assert (a + [c])[1..] == a[1..] + [c];
      ChildNamesAppend(a[1..], c);
    }
  }

  lemma NothingLoaded()
    ensures ChildNames([]) == [] && ChildTotal([]) == 0
  {
  }

  lemma ChildTotalOfOne(c: Child)
    ensures ChildTotal([c]) == Tokens(ChildPart(c))
  {
    hide ChildPart;
    assert [c][1..] == [];
  }

  lemma NothingGreedy(remaining: int)
    ensures GreedyChildren([], remaining) == []
  {
  }

  lemma GreedyOneMore(front: seq<Child>, c: Child, remaining: int)
    ensures
      var before := GreedyChildren(front, remaining);
      GreedyChildren(front + [c], remaining) ==
        if ChildTotal(before) + Tokens(ChildPart(c)) <= remaining then before + [c] else before
  {
    hide ChildTotal, ChildPart, Tokens;
    assert (front + [c])[..|front + [c]| - 1] == front;
  }

  /** The greedy loop over the sorted children. */
  method LoadChildren(order: seq<Child>, remaining: int) returns (loaded: seq<Child>, omitted: seq<string>)
    ensures loaded == GreedyChildren(order, remaining) && |loaded| + |omitted| == |order|
    ensures multiset(ChildNames(loaded)) + multiset(omitted) == multiset(ChildNames(order))
    ensures ChildTotal(order) <= remaining ==> omitted == []
    ensures omitted == [] ==> loaded == order
  {
    hide ChildNames, ChildTotal, ChildPart, GreedyChildren, Tokens;
    NothingGreedy(remaining);
    loaded, omitted := [], [];
    NothingLoaded();
    var used := 0;
    assert order[..0] == [];
    var i := 0;
    while i < |order|
      invariant i <= |order|
      invariant multiset(ChildNames(loaded)) + multiset(omitted) == multiset(ChildNames(order[..i]))
      invariant loaded == GreedyChildren(order[..i], remaining) && |loaded| + |omitted| == i
      invariant used == ChildTotal(loaded) <= ChildTotal(order[..i])
      invariant ChildTotal(order) <= remaining ==> omitted == []
      invariant omitted == [] ==> loaded == order[..i]
    {
      var cost := Tokens(ChildPart(order[i]));
      assert order[..i + 1] == order[..i] + [order[i]];
      GreedyOneMore(order[..i], order[i], remaining);
      ChildNamesAppend(order[..i], order[i]);
      ChildTotalAppend(order[..i], [order[i]]);
      ChildTotalOfOne(order[i]);
      ChildTotalAppend(order[..i + 1], order[i + 1..]);
      assert order[..i + 1] + order[i + 1..] == order;
      if used + cost > remaining {
        omitted := omitted + [order[i].0];
      } else {
        ChildNamesAppend(loaded, order[i]);
        ChildTotalAppend(loaded, [order[i]]);
        loaded := loaded + [order[i]];
        used := used + cost;
      }
      i := i + 1;
    }
    assert order[..i] == order;
  }

  /** Pops the last loaded child until the exact text fits. */
  method DropUntilFits(first: seq<Child>, dropped: seq<string>, remaining: int, total: nat)
    returns (loaded: seq<Child>, omitted: seq<string>, text: string)
    ensures text == RenderChildren(loaded, |omitted|, total)
    ensures loaded == [] || Tokens(text) <= remaining
    ensures multiset(ChildNames(loaded)) + multiset(omitted) == multiset(ChildNames(first)) + multiset(dropped)
    ensures Tokens(RenderChildren(first, |dropped|, total)) <= remaining ==> omitted == dropped
    ensures omitted == [] ==> loaded == first && dropped == []
    ensures total == |first| + |dropped| ==> LongestFit(first, loaded, total, remaining)
  {
    hide RenderChildren, ChildNames, Tokens, NoneLongerFits;
    assert total >= |first| ==> NoneLongerFits(first, |first|, total, remaining) by {
      NothingLonger(first, total, remaining);
    }
    loaded, omitted := first, dropped;
    text := RenderChildren(loaded, |omitted|, total);
    while loaded != [] && Tokens(text) > remaining
      invariant text == RenderChildren(loaded, |omitted|, total)
      invariant multiset(ChildNames(loaded)) + multiset(omitted) == multiset(ChildNames(first)) + multiset(dropped)
      invariant Tokens(RenderChildren(first, |dropped|, total)) <= remaining ==> omitted == dropped && loaded == first
      invariant omitted == [] ==> loaded == first && dropped == []
      invariant loaded <= first && |loaded| + |omitted| == |first| + |dropped|
      invariant total == |first| + |dropped| ==> NoneLongerFits(first, |loaded|, total, remaining)
      decreases |loaded|
    {
      var n := |loaded| - 1;
      assert first[..n + 1] == loaded;
      if total == |first| + |dropped| {
        OneShorter(first, n, total, remaining);
      }
      assert loaded == loaded[..n] + [loaded[n]];
      ChildNamesAppend(loaded[..n], loaded[n]);
      omitted := omitted + [loaded[n].0];
      loaded := loaded[..n];
      text := RenderChildren(loaded, |omitted|, total);
    }
  }

  /** _pack_child_summaries: within what remains, every child either loaded or reported, and nothing
      omitted unless the complete rendering does not fit. */
  method PackChildSummaries(children: seq<Child>, remaining: int)
    returns (text: string, omitted: seq<string>, tokens: nat, ghost loaded: seq<Child>)
    ensures children == [] ==> text == "" && omitted == [] && tokens == 0
    ensures children != [] ==> GoodChildPacking(children, remaining, loaded, omitted, text)
    ensures tokens == Tokens(text) <= Left(remaining, 0)
    ensures remaining <= 0 ==> text == ""
  {
    hide GoodChildPacking, GreedyChildren, ChildNames, ChildTotal, RenderChildren, Tokens, Sorted, LongestFit, Evaluation.PairLe;
    text, omitted, tokens, loaded := "", [], 0, [];
    EmptyIsFree();
    if children == [] {
      return;
    }
    var order := ChildrenInOrder(children);
    ChildOrder(children);
    if remaining <= 0 {
      NothingPacked(children, remaining);
      omitted := Sort(ChildNames(children), StrLe);
      return;
    }
    var first, dropped := LoadChildren(order, remaining);
    var kept;
    kept, omitted, text := DropUntilFits(first, dropped, remaining, |children|);
    SortedOmissions(omitted);
    NothingToRender(|omitted|, |children|);
    ChildrenPacked(children, remaining, first, dropped, kept, omitted, text);
    omitted := Sort(omitted, StrLe);
    loaded := kept;
    tokens := Tokens(text);
  }

  lemma SortedOmissions(omitted: seq<string>)
    ensures Sorted(Sort(omitted, StrLe), StrLe) && multiset(Sort(omitted, StrLe)) == multiset(omitted)
    ensures |Sort(omitted, StrLe)| == |omitted|
  {
    StrLeIsLinear();
    SortSorted(omitted, StrLe);
    SortKeepsElements(omitted, StrLe);
    SortMembers(omitted, StrLe);
  }

  lemma NothingPacked(children: seq<Child>, remaining: int)
    requires children != [] && remaining <= 0
    ensures GoodChildPacking(children, remaining, [], Sort(ChildNames(children), StrLe), "")
  {
    hide Evaluation.PairLe, ChildPart;
    ChildOrder(children);
    GreedyChildrenMembers(ChildrenInOrder(children), remaining);
    SortedOmissions(ChildNames(children));
  }

  /** What the two loops arrive at is a good packing. */
  lemma ChildrenPacked(
    children: seq<Child>, remaining: int, first: seq<Child>, dropped: seq<string>, kept: seq<Child>,
    omitted: seq<string>, text: string)
    requires children != [] && remaining > 0
    requires first == GreedyChildren(ChildrenInOrder(children), remaining) && |first| + |dropped| == |children|
    requires ChildTotal(ChildrenInOrder(children)) <= remaining ==> dropped == []
    requires dropped == [] ==> first == ChildrenInOrder(children)
    requires multiset(ChildNames(kept)) + multiset(omitted) == multiset(ChildNames(children))
    requires text == RenderChildren(kept, |omitted|, |children|) && Tokens(text) <= Left(remaining, 0)
    requires Tokens(RenderChildren(first, |dropped|, |children|)) <= remaining ==> omitted == dropped
    requires omitted == [] ==> kept == first && dropped == []
    requires LongestFit(first, kept, |children|, remaining)
    ensures GoodChildPacking(children, remaining, kept, Sort(omitted, StrLe), text)
  {
    hide Evaluation.PairLe, ChildPart, ChildTotal, ChildNames, RenderChildren, Tokens, GreedyChildren, LongestFit, ChildrenInOrder;
    var order := ChildrenInOrder(children);
    ChildOrder(children);
    GreedyChildrenMembers(order, remaining);
    SortedOmissions(omitted);
    ChildTotalRendered(order, |children|);
    FrontOfGreedy(first, kept, |children|, remaining);
  }

  lemma FrontOfGreedy(first: seq<Child>, kept: seq<Child>, total: nat, remaining: int)
    requires |first| <= total && LongestFit(first, kept, total, remaining) && Sorted(first, Evaluation.PairLe)
    ensures Sorted(kept, Evaluation.PairLe) && forall c :: c in kept ==> c in first
  {
    hide Evaluation.PairLe;
  }

  lemma ChildOrder(children: seq<Child>)
    ensures multiset(ChildNames(ChildrenInOrder(children))) == multiset(ChildNames(children))
    ensures |ChildrenInOrder(children)| == |children|
    ensures forall c :: c in ChildrenInOrder(children) <==> c in children
    ensures Sorted(ChildrenInOrder(children), Evaluation.PairLe)
  {
    Evaluation.PairLeIsLinear();
    SortSorted(children, Evaluation.PairLe);
    SortKeepsElements(children, Evaluation.PairLe);
    SortMembers(children, Evaluation.PairLe);
    NamesOfSort(children, Evaluation.PairLe);
  }

  // ---------- the whole prompt ----------

  /** The three assemblies of one build share everything before and after the two packed sections. */
  function AssemblePrompt(head: string, files: string, children: string, tail: string): string {
    head + files + children + tail
  }

  lemma SectionsInOrder(head: string, files: string, children: string, tail: string)
    ensures
      var text := AssemblePrompt(head, files, children, tail);
      && |text| == |head| + |files| + |children| + |tail|
      && text[..|head|] == head && text[|head|..|head| + |files|] == files
      && text[|head| + |files|..|head| + |files| + |children|] == children
  {
  }

  datatype PromptResult =
    | ScaffoldTooBig
    | FinalTooBig(tokens: nat)
    | Prompt(text: string, omittedFiles: seq<string>, deferred: seq<Decision>, omittedChildren: seq<string>)

  lemma PackedWithin(
    p: Packed, parts: seq<Part>, remaining: int, binaryNames: seq<string>, style: Placeholder,
    initialReason: string, overflowReason: string, included: set<string>)
    requires GoodPacking(p, parts, remaining, binaryNames, style, initialReason, overflowReason, included)
    ensures Tokens(p.text) <= Left(remaining, 0)
  {
  }

  /** The arithmetic of the two-stage budget over the lengths of the scaffold, the binary listing, the
      packed files and the packed children: each stage rounds down, and the losses add up to one token. */
  lemma OverBudgetByAtMostOne(scaffold: nat, empty: nat, files: nat, children: nat, budget: int)
    requires (scaffold + empty) / 3 <= budget
    requires files == empty || files / 3 <= budget - (scaffold + empty) / 3
    requires children / 3 <= Left(budget, (scaffold + files) / 3)
    requires (scaffold + files) / 3 >= budget ==> children == 0
    ensures (scaffold + files + children) / 3 <= budget + 1
    ensures (scaffold + files + children) / 3 > budget <==>
      || (scaffold + files) / 3 == budget + 1
      || ((scaffold + files) / 3 + children / 3 == budget && (scaffold + files) % 3 + children % 3 >= 3)
  {
  }

  /** The bound is tight for every budget that a child summary fits into: one that fits what remains
      pushes the prompt one token over, and the final check fails. */
  lemma BudgetCanBeExceededByOne(budget: nat, head: string)
    requires budget >= 9 && |head| == 3 * (budget - 9) + 2
    ensures
      var childText := RenderChildren([("a", "")], 0, 1);
      && Tokens(AssemblePrompt(head, "", "", "")) <= budget
      && Tokens(childText) <= budget - Tokens(AssemblePrompt(head, "", "", ""))
      && Tokens(AssemblePrompt(head, "", childText, "")) == budget + 1
  {
    var one: seq<Child> := [("a", "")];
    assert ChildParts(one[1..]) == "";
    assert |ChildPart(one[0])| == 7 && ChildParts(one) == ChildPart(one[0]) + "";
    assert |RenderChildren(one, 0, 1)| == 28;
  }

  datatype Capabilities = Capabilities(maxPromptTokens: int, extendedClass: bool)

  datatype Settings = Settings(maxPrompt: int, legacy: int, standard: int, extended: int)

  function Min(a: int, b: int): int {
    if a <= b then a else b
  }

  predicate IsSmaller(x: int, a: int, b: int) {
    x <= a && x <= b && (x == a || x == b)
  }

  /** resolve_effective_prompt_budget: an overridden setting wins; otherwise never above what the
      backend can take nor above the budget of its class. */
  function EffectiveBudget(capabilities: Option<Capabilities>, settings: Settings): (budget: int)
    ensures settings.maxPrompt != settings.legacy ==> budget == settings.maxPrompt
    ensures settings.maxPrompt == settings.legacy && capabilities.Some? ==> budget <= capabilities.value.maxPromptTokens
    ensures settings.legacy <= settings.standard <= settings.extended && settings.maxPrompt == settings.legacy ==>
      budget <= settings.extended
    ensures settings.maxPrompt == settings.legacy && capabilities == None ==> budget == settings.legacy
    ensures settings.maxPrompt == settings.legacy && capabilities.Some? ==>
      var most, extended := capabilities.value.maxPromptTokens, capabilities.value.extendedClass;
      && (extended || most >= 1000000 ==> IsSmaller(budget, most, settings.extended))
      && (!extended && 200000 <= most < 1000000 ==> IsSmaller(budget, most, settings.standard))
      && (!extended && most < 200000 ==> IsSmaller(budget, most, settings.legacy))
  {
    if settings.maxPrompt != settings.legacy then settings.maxPrompt
    else if capabilities == None then settings.legacy
    else
      var most := capabilities.value.maxPromptTokens;
      if capabilities.value.extendedClass || most >= 1000000 then Min(most, settings.extended)
      else if most >= 200000 then Min(most, settings.standard)
      else Min(most, settings.legacy)
  }

  /** A backend that can take more never gets a smaller budget. */
  lemma LargerWindowLargerBudget(small: Capabilities, large: Capabilities, settings: Settings)
    requires settings.legacy <= settings.standard <= settings.extended
    requires small.maxPromptTokens <= large.maxPromptTokens && (small.extendedClass ==> large.extendedClass)
    ensures EffectiveBudget(Some(small), settings) <= EffectiveBudget(Some(large), settings)
  {
  }

  /** The two sections a build arrives at, with the budget each was packed into. */
  ghost predicate GoodSections(
    head: string, tail: string, binaryNames: seq<string>, parts: seq<Part>, style: Placeholder,
    initialReason: string, overflowReason: string, children: seq<Child>, budget: int,
    packed: Packed, included: set<string>, childText: string, loaded: seq<Child>, omittedChildren: seq<string>)
  {
    var emptyFiles := AssembleFileParts([], BinaryText(binaryNames, false));
    var forFiles := Left(budget, Tokens(AssemblePrompt(head, emptyFiles, "", tail)));
    var forChildren := Left(budget, Tokens(AssemblePrompt(head, packed.text, "", tail)));
    && (parts == [] ==> packed == Packed([], [], [], emptyFiles, Tokens(emptyFiles)))
    && (parts != [] ==> GoodPacking(packed, parts, forFiles, binaryNames, style, initialReason, overflowReason, included))
    && (children == [] ==> childText == "" && omittedChildren == [])
    && (children != [] ==> GoodChildPacking(children, forChildren, loaded, omittedChildren, childText))
  }

  /** build_prompt and build_prompt_from_chunks after their parts are formatted: once the fixed scaffold
      fits, the final check can fail by exactly one token only. */
  method BuildWithinBudget(
    head: string, tail: string, binaryNames: seq<string>, parts: seq<Part>, style: Placeholder,
    initialReason: string, overflowReason: string, children: seq<Child>, budget: int)
    returns (r: PromptResult, ghost packed: Packed, ghost included: set<string>,
      ghost childText: string, ghost loaded: seq<Child>, ghost omittedChildren: seq<string>)
    requires DistinctNames(parts)
    ensures r.ScaffoldTooBig? <==>
      Tokens(AssemblePrompt(head, AssembleFileParts([], BinaryText(binaryNames, false)), "", tail)) > budget
    ensures !r.ScaffoldTooBig? ==> GoodSections(head, tail, binaryNames, parts, style, initialReason, overflowReason,
      children, budget, packed, included, childText, loaded, omittedChildren)
    ensures
      var text := AssemblePrompt(head, packed.text, childText, tail);
      && (r.FinalTooBig? ==> r.tokens == Tokens(text) == budget + 1)
      && (r.Prompt? ==> r == Prompt(text, packed.omitted, packed.deferred, omittedChildren) && Tokens(text) <= budget)
  {
    hide AssembleFileParts, BinaryText, GoodPacking, GoodChildPacking;
    packed, included, childText, loaded, omittedChildren := Packed([], [], [], "", 0), {}, "", [], [];
    var emptyFiles := AssembleFileParts([], BinaryText(binaryNames, false));
    var scaffold := AssemblePrompt(head, emptyFiles, "", tail);
    if Tokens(scaffold) > budget {
      r := ScaffoldTooBig;
      return;
    }
    var forFiles := Left(budget, Tokens(scaffold));
    var files;
    files, included := PackFormattedFileParts(parts, forFiles, binaryNames, style, initialReason, overflowReason);
    packed := files;
    var withFiles := AssemblePrompt(head, files.text, "", tail);
    var forChildren := Left(budget, Tokens(withFiles));
    var childSection, omitted, childTokens;
    childSection, omitted, childTokens, loaded := PackChildSummaries(children, forChildren);
    childText, omittedChildren := childSection, omitted;
    var prompt := AssemblePrompt(head, files.text, childSection, tail);
    if parts != [] {
      PackedWithin(files, parts, forFiles, binaryNames, style, initialReason, overflowReason, included);
    }
    OverBudgetByAtMostOne(|head| + |tail|, |emptyFiles|, |files.text|, |childSection|, budget);
    if Tokens(prompt) > budget {
      r := FinalTooBig(Tokens(prompt));
    } else {
      r := Prompt(prompt, files.omitted, files.deferred, omitted);
    }
  }
}
