/** Prompt planning under a token budget: greedy packing of files and child summaries, and the bound on
    the assembled prompt. */
module PromptPlanner {
  import opened Basics
  import opened Strings

  /** The planner's estimate: three characters a token, rounded down. */
  function Tokens(text: string): nat {
    |text| / 3
  }

  /** Rounding down loses at most one token per concatenation. */
  lemma TokensOfConcat(a: string, b: string)
    ensures Tokens(a + b) == Tokens(a) + Tokens(b) + if |a| % 3 + |b| % 3 >= 3 then 1 else 0
  {
  }

  datatype Part = Part(name: string, text: string)

  datatype Decision = Decision(name: string, tokens: nat, remainingBefore: nat, reason: string)

  /** parts_by_name is a dictionary: names do not repeat. */
  ghost predicate DistinctNames(parts: seq<Part>) {
    forall i, j :: 0 <= i < j < |parts| ==> parts[i].name != parts[j].name
  }

  // ---------- rendering the files section ----------

  function FilesHeader(): string {
    "The knowledge folder contains these files:\n"
  }

  function BinaryHeader(): string {
    "The folder also contains these binary files (not inlined):\n"
  }

  function CollapsedBinary(count: nat): string {
    "The folder also contains " + Decimal(count) + " binary files (not inlined)."
  }

  function CollapsedOmitted(count: nat): string {
    "(" + Decimal(count) + " files omitted due to prompt budget)"
  }

  function AssembleFileParts(fileParts: seq<string>, binaryText: string): string {
    var files := if fileParts == [] then [] else [FilesHeader() + Join("\n\n", fileParts)];
    var sections := if binaryText == "" then files else files + [binaryText];
    if sections == [] then "" else Join("\n\n", sections) + "\n"
  }

  function Bullets(names: seq<string>): seq<string> {
    if names == [] then [] else ["- " + names[0]] + Bullets(names[1..])
  }

  function BinaryText(binaryNames: seq<string>, collapse: bool): string {
    if binaryNames == [] then ""
    else if collapse then CollapsedBinary(|binaryNames|)
    else BinaryHeader() + Join("\n", Bullets(binaryNames))
  }

  function Inlined(parts: seq<Part>, included: set<string>): seq<string> {
    if parts == [] then []
    else (if parts[0].name in included then [parts[0].text] else []) + Inlined(parts[1..], included)
  }

  function Kept(parts: seq<Part>, included: set<string>): seq<string> {
    if parts == [] then []
    else (if parts[0].name in included then [parts[0].name] else []) + Kept(parts[1..], included)
  }

  function Omitted(parts: seq<Part>, included: set<string>): seq<string> {
    if parts == [] then []
    else (if parts[0].name in included then [] else [parts[0].name]) + Omitted(parts[1..], included)
  }

  /** The two texts a file can leave behind when it is not inlined. */
  datatype Placeholder = ChunkedFile | DroppedChunks

  function PlaceholderText(style: Placeholder, name: string): string {
    match style
    case ChunkedFile => "### " + name + "\n" + "(This file will be summarized in chunks - too large to inline)"
    case DroppedChunks => "### " + name + "\n" + "(Chunk summaries omitted from merge prompt - prompt budget)"
  }

  function Placeholders(style: Placeholder, names: seq<string>): seq<string> {
    if names == [] then [] else [PlaceholderText(style, names[0])] + Placeholders(style, names[1..])
  }

  function Render(
    parts: seq<Part>, included: set<string>, binaryNames: seq<string>, style: Placeholder,
    collapseOmitted: bool, collapseBinary: bool): string
  {
    var omitted := Omitted(parts, included);
    var placeholders :=
      if collapseOmitted && omitted != [] then [CollapsedOmitted(|omitted|)]
      else Placeholders(style, omitted);
    AssembleFileParts(Inlined(parts, included) + placeholders, BinaryText(binaryNames, collapseBinary))
  }

  // ---------- the greedy pass ----------

  function TokenTable(parts: seq<Part>): map<string, nat> {
    if parts == [] then map[] else TokenTable(parts[1..])[parts[0].name := Tokens(parts[0].text)]
  }

  function Size(tokens: map<string, nat>, name: string): nat {
    if name in tokens then tokens[name] else 0
  }

  /** The ordering key (tokens, name). */
  predicate KeyLe(tokens: map<string, nat>, a: string, b: string) {
    Size(tokens, a) < Size(tokens, b) || (Size(tokens, a) == Size(tokens, b) && StrLe(a, b))
  }

  lemma KeyLeTotal(tokens: map<string, nat>, a: string, b: string)
    ensures KeyLe(tokens, a, b) || KeyLe(tokens, b, a)
  {
    StrLeTotal(a, b);
  }

  lemma KeyLeTransitive(tokens: map<string, nat>, a: string, b: string, c: string)
    requires KeyLe(tokens, a, b) && KeyLe(tokens, b, c)
    ensures KeyLe(tokens, a, c)
  {
    if Size(tokens, a) == Size(tokens, b) == Size(tokens, c) {
      StrLeTransitive(a, b, c);
    }
  }

  function Names(parts: seq<Part>): seq<string> {
    if parts == [] then [] else [parts[0].name] + Names(parts[1..])
  }

  /** Largest first. */
  function PackingOrder(parts: seq<Part>): seq<string> {
    var tokens := TokenTable(parts);
    Sort(Names(parts), (a, b) => KeyLe(tokens, b, a))
  }

  function Left(remaining: int, used: nat): nat {
    if remaining > used then remaining - used else 0
  }

  /** The names the greedy pass takes from an order. */
  function Greedy(order: seq<string>, tokens: map<string, nat>, remaining: int, used: nat): set<string> {
    if order == [] then {}
    else if Size(tokens, order[0]) <= Left(remaining, used)
    then {order[0]} + Greedy(order[1..], tokens, remaining, used + Size(tokens, order[0]))
    else Greedy(order[1..], tokens, remaining, used)
  }

  function Total(order: seq<string>, tokens: map<string, nat>): nat {
    if order == [] then 0 else Size(tokens, order[0]) + Total(order[1..], tokens)
  }

  /** When everything fits, the greedy pass takes everything. */
  lemma {:induction false} GreedyTakesAll(order: seq<string>, tokens: map<string, nat>, remaining: int, used: nat)
    requires used + Total(order, tokens) <= remaining
    ensures forall n :: n in order ==> n in Greedy(order, tokens, remaining, used)
  {
    if order != [] {
      GreedyTakesAll(order[1..], tokens, remaining, used + Size(tokens, order[0]));
      assert order == [order[0]] + order[1..];
    }
  }

  // ---------- structure of the packing ----------

  lemma {:induction false} KeptOmittedMembers(parts: seq<Part>, included: set<string>)
    ensures forall n :: n in Kept(parts, included) <==> n in Names(parts) && n in included
    ensures forall n :: n in Omitted(parts, included) <==> n in Names(parts) && n !in included
    ensures |Kept(parts, included)| + |Omitted(parts, included)| == |parts|
  {
    if parts != [] {
      KeptOmittedMembers(parts[1..], included);
    }
  }

  lemma {:induction false} NamesMembers(parts: seq<Part>)
    ensures |Names(parts)| == |parts|
    ensures forall i :: 0 <= i < |parts| ==> Names(parts)[i] == parts[i].name
    ensures forall n :: n in TokenTable(parts) <==> n in Names(parts)
  {
    if parts != [] {
      NamesMembers(parts[1..]);
    }
  }

  lemma {:induction false} TableEntry(parts: seq<Part>, i: nat)
    requires DistinctNames(parts) && i < |parts|
    ensures parts[i].name in TokenTable(parts) && TokenTable(parts)[parts[i].name] == Tokens(parts[i].text)
  {
    if i > 0 {
      forall a, b | 0 <= a < b < |parts[1..]| ensures parts[1..][a].name != parts[1..][b].name {
        assert parts[a + 1].name != parts[b + 1].name;
      }
      TableEntry(parts[1..], i - 1);
      assert parts[0].name != parts[i].name;
    }
  }

  lemma {:induction false} InlinedHas(parts: seq<Part>, included: set<string>, i: nat)
    requires i < |parts| && parts[i].name in included
    ensures parts[i].text in Inlined(parts, included)
  {
    if i > 0 {
      InlinedHas(parts[1..], included, i - 1);
    }
  }

  /** Every included part is in the rendered text, character for character. */
  lemma IncludedVerbatim(
    parts: seq<Part>, included: set<string>, binaryNames: seq<string>, style: Placeholder,
    collapseOmitted: bool, collapseBinary: bool, i: nat)
    requires i < |parts| && parts[i].name in included
    ensures Contains(Render(parts, included, binaryNames, style, collapseOmitted, collapseBinary), parts[i].text)
  {
    var omitted := Omitted(parts, included);
    var placeholders :=
      if collapseOmitted && omitted != [] then [CollapsedOmitted(|omitted|)]
      else Placeholders(style, omitted);
    InlinedHas(parts, included, i);
    AssembledContains(Inlined(parts, included) + placeholders, BinaryText(binaryNames, collapseBinary), parts[i].text);
  }

  lemma AssembledContains(fileParts: seq<string>, binaryText: string, part: string)
    requires part in fileParts
    ensures Contains(AssembleFileParts(fileParts, binaryText), part)
  {
    hide FilesHeader, Contains, Join;
    var header := FilesHeader();
    var body := Join("\n\n", fileParts);
    var section := header + body;
    var sections := if binaryText == "" then [section] else [section] + [binaryText];
    JoinContains("\n\n", fileParts, part);
    ContainsAround(header, body, "", part);
    assert section + "" == section && section in sections;
    JoinContains("\n\n", sections, section);
    ContainsTrans(Join("\n\n", sections), section, part);
    ContainsAround("", Join("\n\n", sections), "\n", part);
    AssembledIs(fileParts, binaryText);
  }

  lemma ContainsAround(before: string, text: string, after: string, part: string)
    requires Contains(text, part)
    ensures Contains(before + text + after, part)
    ensures before == "" ==> Contains(text + after, part)
  {
    hide Contains;
    ContainsInside(before, text, after, part);
    assert "" + text + after == text + after;
  }

  lemma AssembledIs(fileParts: seq<string>, binaryText: string)
    requires fileParts != []
    ensures
      var section := FilesHeader() + Join("\n\n", fileParts);
      AssembleFileParts(fileParts, binaryText) ==
        Join("\n\n", if binaryText == "" then [section] else [section] + [binaryText]) + "\n"
  {
    hide FilesHeader, Join;
  }

  /** Every omitted file is named in the text that spells the omitted files out, by its placeholder. */
  lemma OmittedAreNamed(
    parts: seq<Part>, included: set<string>, binaryNames: seq<string>, style: Placeholder, collapseBinary: bool, name: string)
    requires name in Names(parts) && name !in included
    ensures Contains(Render(parts, included, binaryNames, style, false, collapseBinary), PlaceholderText(style, name))
    ensures Contains(PlaceholderText(style, name), "### " + name + "\n")
    ensures Contains(Render(parts, included, binaryNames, style, true, collapseBinary), CollapsedOmitted(|Omitted(parts, included)|))
  {
    hide Contains, AssembleFileParts, BinaryText, CollapsedOmitted;
    KeptOmittedMembers(parts, included);
    AssembledContains(
      Inlined(parts, included) + [CollapsedOmitted(|Omitted(parts, included)|)], BinaryText(binaryNames, collapseBinary),
      CollapsedOmitted(|Omitted(parts, included)|));
    PlaceholdersHave(style, Omitted(parts, included), name);
    AssembledContains(
      Inlined(parts, included) + Placeholders(style, Omitted(parts, included)), BinaryText(binaryNames, collapseBinary),
      PlaceholderText(style, name));
    PlaceholderNames(style, name);
  }

  lemma TitleComesFirst(title: string, rest: string)
    ensures Contains(title + rest, title)
  {
    assert title <= (title + rest)[0..];
  }

  lemma PlaceholderNames(style: Placeholder, name: string)
    ensures Contains(PlaceholderText(style, name), "### " + name + "\n")
  {
    hide Contains;
    match style
    case ChunkedFile => TitleComesFirst("### " + name + "\n", "(This file will be summarized in chunks - too large to inline)");
    case DroppedChunks => TitleComesFirst("### " + name + "\n", "(Chunk summaries omitted from merge prompt - prompt budget)");
  }

  lemma {:induction false} PlaceholdersHave(style: Placeholder, names: seq<string>, name: string)
    requires name in names
    ensures PlaceholderText(style, name) in Placeholders(style, names)
  {
    hide PlaceholderText;
    if names[0] != name {
      assert names == [names[0]] + names[1..];
      PlaceholdersHave(style, names[1..], name);
    }
  }

  /** Every binary file is named as well, unless the binaries are collapsed to their number. */
  lemma BinariesAreNamed(
    parts: seq<Part>, included: set<string>, binaryNames: seq<string>, style: Placeholder, collapseOmitted: bool, name: string)
    requires name in binaryNames
    ensures Contains(Render(parts, included, binaryNames, style, collapseOmitted, false), "- " + name)
    ensures Contains(Render(parts, included, binaryNames, style, collapseOmitted, true), CollapsedBinary(|binaryNames|))
  {
    hide Contains, BinaryHeader, CollapsedBinary, Join, AssembleFileParts, Omitted, Placeholders, Inlined;
    var bullets := Join("\n", Bullets(binaryNames));
    BulletsHave(binaryNames, name);
    JoinContains("\n", Bullets(binaryNames), "- " + name);
    ContainsAround(BinaryHeader(), bullets, "", "- " + name);
    assert BinaryHeader() + bullets + "" == BinaryText(binaryNames, false);
    SomeHeader();
    var omitted := Omitted(parts, included);
    var listed :=
      if collapseOmitted && omitted != [] then [CollapsedOmitted(|omitted|)]
      else Placeholders(style, omitted);
    AssembledHasBinaries(Inlined(parts, included) + listed, BinaryText(binaryNames, false), "- " + name);
    ContainsItself(CollapsedBinary(|binaryNames|));
    var collapsed := BinaryText(binaryNames, true);
    assert collapsed == CollapsedBinary(|binaryNames|);
    SomeCollapsed(|binaryNames|);
    AssembledHasBinaries(Inlined(parts, included) + listed, collapsed, collapsed);
  }

  lemma SomeHeader()
    ensures BinaryHeader() != ""
  {
  }

  lemma SomeCollapsed(count: nat)
    ensures CollapsedBinary(count) != ""
  {
  }

  lemma ContainsItself(text: string)
    ensures Contains(text, text)
  {
    assert text[0..] == text;
  }

  lemma {:induction false} BulletsHave(names: seq<string>, name: string)
    requires name in names
    ensures "- " + name in Bullets(names)
  {
    if names[0] != name {
      assert names == [names[0]] + names[1..];
      BulletsHave(names[1..], name);
    }
  }

  lemma AssembledHasBinaries(fileParts: seq<string>, binaryText: string, part: string)
    requires binaryText != "" && Contains(binaryText, part)
    ensures Contains(AssembleFileParts(fileParts, binaryText), part)
  {
    hide FilesHeader, Contains, Join;
    var files := if fileParts == [] then [] else [FilesHeader() + Join("\n\n", fileParts)];
    var sections := files + [binaryText];
    assert binaryText in sections;
    JoinContains("\n\n", sections, binaryText);
    ContainsTrans(Join("\n\n", sections), binaryText, part);
    ContainsAround("", Join("\n\n", sections), "\n", part);
    assert AssembleFileParts(fileParts, binaryText) == Join("\n\n", sections) + "\n";
  }

  /** The names of the parts that are in, or not in, the set, with their texts, in the order of the parts. */
  ghost predicate InPartOrder(parts: seq<Part>, chosen: seq<nat>, names: seq<string>, keep: set<string>, kept: bool) {
    && |names| == |chosen|
    && (forall a, b :: 0 <= a < b < |chosen| ==> chosen[a] < chosen[b])
    && (forall a :: 0 <= a < |chosen| ==> chosen[a] < |parts| && names[a] == parts[chosen[a]].name)
    && Chosen(parts, chosen, keep, kept)
  }

  /** Kept and omitted names both keep the order of the parts, and what is inlined for a name is its own text. */
  lemma {:induction false} KeptOrderIsKept(parts: seq<Part>, included: set<string>) returns (chosen: seq<nat>)
    ensures InPartOrder(parts, chosen, Kept(parts, included), included, true)
  {
    if parts == [] {
      chosen := [];
    } else {
      var later := KeptOrderIsKept(parts[1..], included);
      chosen := Shift(later);
      ShiftedOrder(parts, later, Kept(parts[1..], included), included, true);
      hide InPartOrder;
      chosen := (if parts[0].name in included then [0] else []) + chosen;
    }
  }

  lemma {:induction false} InlinedAreTheTexts(parts: seq<Part>, included: set<string>, a: nat)
    requires a < |Kept(parts, included)|
    ensures |Inlined(parts, included)| == |Kept(parts, included)|
    ensures Part(Kept(parts, included)[a], Inlined(parts, included)[a]) in parts
  {
    InlinedLength(parts, included);
    InlinedLength(parts[1..], included);
    assert parts == [parts[0]] + parts[1..];
    if parts[0].name !in included {
      InlinedAreTheTexts(parts[1..], included, a);
    } else if a > 0 {
      InlinedAreTheTexts(parts[1..], included, a - 1);
    }
  }

  lemma {:induction false} OmittedOrderIsKept(parts: seq<Part>, included: set<string>) returns (chosen: seq<nat>)
    ensures InPartOrder(parts, chosen, Omitted(parts, included), included, false)
  {
    if parts == [] {
      chosen := [];
    } else {
      var later := OmittedOrderIsKept(parts[1..], included);
      chosen := Shift(later);
      ShiftedOrder(parts, later, Omitted(parts[1..], included), included, false);
      hide InPartOrder;
      chosen := (if parts[0].name in included then [] else [0]) + chosen;
    }
  }

  function Shift(positions: seq<nat>): (r: seq<nat>)
    ensures |r| == |positions| && forall a :: 0 <= a < |r| ==> r[a] == positions[a] + 1
  {
    seq(|positions|, i requires 0 <= i < |positions| => positions[i] + 1)
  }

  lemma ShiftedMember(later: seq<nat>, i: nat)
    ensures i in Shift(later) <==> i > 0 && i - 1 in later
  {
    if i > 0 && i - 1 in later {
      var a :| 0 <= a < |later| && later[a] == i - 1;
      assert Shift(later)[a] == i;
    }
  }

  /** The chosen positions are those of the parts to keep. */
  ghost predicate Chosen(parts: seq<Part>, chosen: seq<nat>, keep: set<string>, kept: bool) {
    forall i: nat :: i < |parts| ==> (i in chosen <==> (parts[i].name in keep) == kept)
  }

  lemma ShiftedChosen(parts: seq<Part>, later: seq<nat>, keep: set<string>, kept: bool)
    requires parts != [] && Chosen(parts[1..], later, keep, kept)
    ensures (parts[0].name in keep) != kept ==> Chosen(parts, Shift(later), keep, kept)
    ensures (parts[0].name in keep) == kept ==> Chosen(parts, [0] + Shift(later), keep, kept)
  {
    forall i: nat | i < |parts|
      ensures i in Shift(later) <==> i > 0 && (parts[i].name in keep) == kept
      ensures i in [0] + Shift(later) <==> i == 0 || i in Shift(later)
    {
      ShiftedMember(later, i);
      if i > 0 {
        assert parts[1..][i - 1] == parts[i];
      }
    }
  }

  lemma ShiftedOrder(parts: seq<Part>, later: seq<nat>, names: seq<string>, keep: set<string>, kept: bool)
    requires parts != [] && InPartOrder(parts[1..], later, names, keep, kept)
    ensures (parts[0].name in keep) != kept ==> InPartOrder(parts, Shift(later), names, keep, kept)
    ensures (parts[0].name in keep) == kept ==>
      InPartOrder(parts, [0] + Shift(later), [parts[0].name] + names, keep, kept)
  {
    hide Chosen;
    ShiftedChosen(parts, later, keep, kept);
    forall a | 0 <= a < |later| ensures Shift(later)[a] < |parts| && names[a] == parts[Shift(later)[a]].name {
      assert later[a] < |parts[1..]|;
    }
  }

  /** A part's size is the estimate of its own text. */
  lemma SizeOfPart(parts: seq<Part>, i: nat)
    requires DistinctNames(parts) && i < |parts|
    ensures Size(TokenTable(parts), parts[i].name) == |parts[i].text| / 3
  {
    TableEntry(parts, i);
  }

  /** The packing goes through the parts from the largest to the smallest, equal sizes from the last name to
      the first. */
  lemma LargestFirst(parts: seq<Part>, a: nat, b: nat, i: nat, j: nat)
    requires DistinctNames(parts) && a < |parts| && b < |parts|
    requires i < j < |PackingOrder(parts)| && PackingOrder(parts)[i] == parts[a].name && PackingOrder(parts)[j] == parts[b].name
    ensures
      || |parts[a].text| / 3 > |parts[b].text| / 3
      || (|parts[a].text| / 3 == |parts[b].text| / 3 && StrLe(parts[b].name, parts[a].name))
  {
    hide TokenTable, Names, Size;
    var tokens := TokenTable(parts);
    var le := (x, y) => KeyLe(tokens, y, x);
    forall x, y ensures le(x, y) || le(y, x) {
      KeyLeTotal(tokens, x, y);
    }
    forall x, y, z | le(x, y) && le(y, z) ensures le(x, z) {
      KeyLeTransitive(tokens, z, y, x);
    }
    SortSorted(Names(parts), le);
    SizeOfPart(parts, a);
    SizeOfPart(parts, b);
    assert PackingOrder(parts) == Sort(Names(parts), le);
    assert le(PackingOrder(parts)[i], PackingOrder(parts)[j]);
  }

  /** With everything inlined and no binaries the text is the header and the parts, one blank line apart. */
  lemma PlainRendering(parts: seq<Part>, style: Placeholder, collapseOmitted: bool, collapseBinary: bool)
    requires parts != []
    ensures
      var all := NameSet(parts);
      Render(parts, all, [], style, collapseOmitted, collapseBinary) ==
        FilesHeader() + Join("\n\n", Inlined(parts, all)) + "\n"
  {
    hide FilesHeader, Join;
    var all := NameSet(parts);
    NothingOmittedFrom(parts, all);
    InlinedLength(parts, all);
    KeptOmittedMembers(parts, all);
    assert Inlined(parts, all) + [] == Inlined(parts, all);
    JoinOfOne("\n\n", FilesHeader() + Join("\n\n", Inlined(parts, all)));
  }

  // ---------- packing formatted file parts ----------

  datatype Packed = Packed(
    included: seq<string>, omitted: seq<string>, deferred: seq<Decision>, text: string, tokens: nat)

  /** One greedy pass: the order of the names, what is taken from it, and the two reasons for a deferral. */
  datatype Pass = Pass(
    order: seq<string>, tokens: map<string, nat>, remaining: int, taken: set<string>, initialReason: string,
    overflowReason: string)

  /** The k-th name of the order was not taken; what the taken ones before it left is recorded. */
  ghost predicate DeferredAt(d: Decision, pass: Pass, k: nat)
    requires k < |pass.order|
  {
    && pass.order[k] == d.name
    && d.remainingBefore == Left(pass.remaining, Spent(pass.order[..k], pass.taken, pass.tokens))
    && d.tokens > d.remainingBefore
  }

  /** The decision on an omitted name: one that was never taken records what was left for it, one that was
      taken and then evicted records 0. */
  ghost predicate Justified(d: Decision, name: string, pass: Pass) {
    && d.name == name && d.tokens == Size(pass.tokens, name)
    && if name in pass.taken then d.reason == pass.overflowReason && d.remainingBefore == 0
       else d.reason == pass.initialReason && exists k :: 0 <= k < |pass.order| && DeferredAt(d, pass, k)
  }

  ghost predicate AllJustified(deferred: map<string, Decision>, names: seq<string>, included: set<string>, pass: Pass) {
    forall n :: n in names && n !in included ==> n in deferred && Justified(deferred[n], n, pass)
  }

  /** What the taken ones of the names cost. */
  function Spent(names: seq<string>, taken: set<string>, tokens: map<string, nat>): nat {
    if names == [] then 0
    else
      var last := names[|names| - 1];
      Spent(names[..|names| - 1], taken, tokens) + if last in taken then Size(tokens, last) else 0
  }

  lemma SpentOneMore(names: seq<string>, name: string, taken: set<string>, tokens: map<string, nat>)
    ensures Spent(names + [name], taken, tokens) ==
      Spent(names, taken, tokens) + if name in taken then Size(tokens, name) else 0
  {
    hide Size;
    assert (names + [name])[..|names + [name]| - 1] == names;
  }

  lemma {:induction false} SpentFirst(name: string, rest: seq<string>, taken: set<string>, tokens: map<string, nat>)
    ensures Spent([name] + rest, taken, tokens) ==
      Spent(rest, taken, tokens) + if name in taken then Size(tokens, name) else 0
    decreases |rest|
  {
    hide Size;
    if rest == [] {
      assert [] + [name] == [name] + rest;
      SpentOneMore([], name, taken, tokens);
    } else {
      var front, last := rest[..|rest| - 1], rest[|rest| - 1];
      assert [name] + rest == ([name] + front) + [last] && rest == front + [last];
      SpentFirst(name, front, taken, tokens);
      SpentOneMore([name] + front, last, taken, tokens);
      SpentOneMore(front, last, taken, tokens);
    }
  }

  lemma {:induction false} SpentWithout(names: seq<string>, taken: set<string>, name: string, tokens: map<string, nat>)
    requires name !in names
    ensures Spent(names, taken + {name}, tokens) == Spent(names, taken, tokens)
  {
    hide Size;
    if names != [] {
      SpentWithout(names[..|names| - 1], taken, name, tokens);
    }
  }

  /** A name is taken exactly when it costs nothing or fits into what the taken ones before it leave. */
  lemma {:induction false} GreedyTakesWhatFits(order: seq<string>, tokens: map<string, nat>, remaining: int, used: nat, k: nat)
    requires Distinct(order) && k < |order|
    ensures
      var taken := Greedy(order, tokens, remaining, used);
      order[k] in taken <==>
        Size(tokens, order[k]) == 0 || used + Spent(order[..k], taken, tokens) + Size(tokens, order[k]) <= remaining
    decreases |order|
  {
    hide Size, Spent;
    var first, rest := order[0], order[1..];
    assert order == [first] + rest;
    var fits := Size(tokens, first) <= Left(remaining, used);
    var usedNow := if fits then used + Size(tokens, first) else used;
    var later := Greedy(rest, tokens, remaining, usedNow);
    GreedySubset(rest, tokens, remaining, usedNow);
    if k == 0 {
      assert order[..0] == [];
      SpentNothing(Greedy(order, tokens, remaining, used), tokens);
    } else {
      GreedyTakesWhatFits(rest, tokens, remaining, usedNow, k - 1);
      var front := rest[..k - 1];
      assert order[..k] == [first] + front;
      SpentFirst(first, front, Greedy(order, tokens, remaining, used), tokens);
      SpentWithout(front, later, first, tokens);
      assert {first} + later == later + {first};
    }
  }

  lemma SpentNothing(taken: set<string>, tokens: map<string, nat>)
    ensures Spent([], taken, tokens) == 0
  {
  }

  /** The greedy loop. */
  method DeferOversized(
    order: seq<string>, tokens: map<string, nat>, remaining: int, initialReason: string, ghost overflowReason: string)
    returns (included: set<string>, deferred: map<string, Decision>)
    requires Distinct(order)
    ensures included == Greedy(order, tokens, remaining, 0)
    ensures forall n :: n in included ==> n in order
    ensures AllJustified(deferred, order, included,
      Pass(order, tokens, remaining, included, initialReason, overflowReason))
  {
    hide Spent, Greedy, Size, Justified;
    ghost var taken := Greedy(order, tokens, remaining, 0);
    ghost var pass := Pass(order, tokens, remaining, taken, initialReason, overflowReason);
    included, deferred := {}, map[];
    var used: nat := 0;
    var i := 0;
    GreedySubset(order, tokens, remaining, 0);
    SpentNothing(taken, tokens);
    assert order[..0] == [];
    while i < |order|
      invariant i <= |order|
      invariant forall n :: n in included <==> n in order[..i] && n in taken
      invariant used == Spent(order[..i], taken, tokens) && (used == 0 || used <= remaining)
      invariant AllJustified(deferred, order[..i], included, pass)
    {
      var name := order[i];
      var left := Left(remaining, used);
      assert order[..i + 1] == order[..i] + [name];
      assert name !in order[..i];
      GreedyTakesWhatFits(order, tokens, remaining, 0, i);
      SpentOneMore(order[..i], name, taken, tokens);
      if Size(tokens, name) <= left {
        included := included + {name};
        used := used + Size(tokens, name);
      } else {
        deferred := deferred[name := Decision(name, Size(tokens, name), left, initialReason)];
        JustifiedNow(deferred[name], pass, i);
      }
      i := i + 1;
    }
    assert order[..i] == order;
    assert included == taken;
  }

  lemma JustifiedNow(d: Decision, pass: Pass, k: nat)
    requires k < |pass.order| && DeferredAt(d, pass, k) && d.name !in pass.taken
    requires d.tokens == Size(pass.tokens, d.name) && d.reason == pass.initialReason
    ensures Justified(d, d.name, pass)
  {
    hide DeferredAt;
  }

  /** max(included, key=(tokens, name)) */
  method LargestOf(included: set<string>, tokens: map<string, nat>) returns (largest: string)
    requires included != {}
    ensures largest in included && forall n :: n in included ==> KeyLe(tokens, n, largest)
  {
    largest :| largest in included;
    KeyLeTotal(tokens, largest, largest);
    var rest := included - {largest};
    while rest != {}
      invariant rest <= included && largest in included
      invariant forall n :: n in included - rest ==> KeyLe(tokens, n, largest)
      decreases |rest|
    {
      var n :| n in rest;
      KeyLeTotal(tokens, n, largest);
      KeyLeTotal(tokens, n, n);
      if !KeyLe(tokens, n, largest) {
        forall m | m in included - rest ensures KeyLe(tokens, m, n) {
          KeyLeTransitive(tokens, m, largest, n);
        }
        largest := n;
      }
      rest := rest - {n};
    }
  }

  /** Some evicted part whose return would break the budget again. */
  ghost predicate EvictionNeeded(
    parts: seq<Part>, taken: set<string>, included: set<string>, binaryNames: seq<string>, style: Placeholder, remaining: int)
  {
    exists n :: n in taken && n !in included && Tokens(Render(parts, included + {n}, binaryNames, style, false, false)) > remaining
  }

  /** The parts that are still there when it is n's turn: n itself and the smaller ones. */
  function UpTo(taken: set<string>, tokens: map<string, nat>, n: string): set<string> {
    set m | m in taken && KeyLe(tokens, m, n)
  }

  /** Largest first and no further than necessary: everything left is smaller than everything evicted, and
      with each evicted part and the smaller ones in place the text did not fit. */
  ghost predicate LargestEvicted(
    parts: seq<Part>, taken: set<string>, included: set<string>, tokens: map<string, nat>, binaryNames: seq<string>,
    style: Placeholder, remaining: int)
  {
    && (forall n, m :: n in taken && n !in included && m in included ==> KeyLe(tokens, m, n))
    && (forall n :: n in taken && n !in included ==>
          Tokens(Render(parts, UpTo(taken, tokens, n), binaryNames, style, false, false)) > remaining)
  }

  lemma KeyLeAntisymmetric(tokens: map<string, nat>, a: string, b: string)
    requires KeyLe(tokens, a, b) && KeyLe(tokens, b, a)
    ensures a == b
  {
    StrLeAntisymmetric(a, b);
  }

  lemma EvictLargest(
    parts: seq<Part>, taken: set<string>, included: set<string>, name: string, tokens: map<string, nat>,
    binaryNames: seq<string>, style: Placeholder, remaining: int)
    requires LargestEvicted(parts, taken, included, tokens, binaryNames, style, remaining) && included <= taken
    requires name in included && forall n :: n in included ==> KeyLe(tokens, n, name)
    requires Tokens(Render(parts, included, binaryNames, style, false, false)) > remaining
    ensures LargestEvicted(parts, taken, included - {name}, tokens, binaryNames, style, remaining)
  {
    hide Render, KeyLe, Tokens;
    forall m | m in UpTo(taken, tokens, name) ensures m in included {
      if m !in included {
        assert KeyLe(tokens, name, m);
        KeyLeAntisymmetric(tokens, m, name);
      }
    }
    assert UpTo(taken, tokens, name) == included;
  }

  lemma NothingEvicted(
    parts: seq<Part>, taken: set<string>, tokens: map<string, nat>, binaryNames: seq<string>, style: Placeholder,
    remaining: int)
    ensures LargestEvicted(parts, taken, taken, tokens, binaryNames, style, remaining)
  {
  }

  /** Which parts remain is determined: two outcomes that fit, or are empty, are the same. */
  lemma EvictionIsDetermined(
    parts: seq<Part>, taken: set<string>, a: set<string>, b: set<string>, tokens: map<string, nat>,
    binaryNames: seq<string>, style: Placeholder, remaining: int)
    requires a <= taken && LargestEvicted(parts, taken, a, tokens, binaryNames, style, remaining)
    requires b <= taken && LargestEvicted(parts, taken, b, tokens, binaryNames, style, remaining)
    requires a == {} || Tokens(Render(parts, a, binaryNames, style, false, false)) <= remaining
    requires b == {} || Tokens(Render(parts, b, binaryNames, style, false, false)) <= remaining
    ensures a == b
  {
    hide Render, Tokens;
    KeptIsSmaller(parts, taken, a, b, tokens, binaryNames, style, remaining);
    KeptIsSmaller(parts, taken, b, a, tokens, binaryNames, style, remaining);
  }

  lemma KeptIsSmaller(
    parts: seq<Part>, taken: set<string>, a: set<string>, b: set<string>, tokens: map<string, nat>,
    binaryNames: seq<string>, style: Placeholder, remaining: int)
    requires a <= taken && LargestEvicted(parts, taken, a, tokens, binaryNames, style, remaining)
    requires b <= taken && LargestEvicted(parts, taken, b, tokens, binaryNames, style, remaining)
    requires a == {} || Tokens(Render(parts, a, binaryNames, style, false, false)) <= remaining
    ensures a <= b
  {
    hide Render, KeyLe, Tokens;
    if n :| n in a && n !in b {
      var largest := Largest(a, tokens);
      if largest in b {
        assert KeyLe(tokens, largest, n) && KeyLe(tokens, n, largest);
        KeyLeAntisymmetric(tokens, largest, n);
      }
      UpToLargest(parts, taken, a, largest, tokens, binaryNames, style, remaining);
    }
  }

  lemma UpToLargest(
    parts: seq<Part>, taken: set<string>, a: set<string>, largest: string, tokens: map<string, nat>,
    binaryNames: seq<string>, style: Placeholder, remaining: int)
    requires a <= taken && LargestEvicted(parts, taken, a, tokens, binaryNames, style, remaining)
    requires largest in a && forall n :: n in a ==> KeyLe(tokens, n, largest)
    ensures UpTo(taken, tokens, largest) == a
  {
    hide Render, KeyLe, Tokens;
    forall m | m in UpTo(taken, tokens, largest) ensures m in a {
      if m !in a {
        assert KeyLe(tokens, largest, m);
        KeyLeAntisymmetric(tokens, m, largest);
      }
    }
  }

  lemma Largest(s: set<string>, tokens: map<string, nat>) returns (largest: string)
    requires s != {}
    ensures largest in s && forall n :: n in s ==> KeyLe(tokens, n, largest)
    decreases |s|
  {
    hide KeyLe;
    var x :| x in s;
    KeyLeTotal(tokens, x, x);
    largest := x;
    var rest := s - {x};
    assert s == rest + {x};
    if rest != {} {
      var other := Largest(rest, tokens);
      KeyLeTotal(tokens, x, other);
      if KeyLe(tokens, x, other) {
        largest := other;
      } else {
        forall n | n in rest ensures KeyLe(tokens, n, x) {
          KeyLeTransitive(tokens, n, other, x);
        }
      }
    }
  }

  /** The eviction loop: largest first, until the rendered text fits or nothing is left. */
  method EvictUntilFits(
    parts: seq<Part>, taken: set<string>, before: map<string, Decision>, tokens: map<string, nat>, remaining: int,
    binaryNames: seq<string>, style: Placeholder, overflowReason: string, ghost pass: Pass)
    returns (included: set<string>, deferred: map<string, Decision>, text: string)
    requires pass.tokens == tokens && pass.taken == taken && pass.overflowReason == overflowReason
    requires AllJustified(before, Names(parts), taken, pass)
    ensures included <= taken
    ensures text == Render(parts, included, binaryNames, style, false, false)
    ensures included == {} || Tokens(text) <= remaining
    ensures included != taken ==> EvictionNeeded(parts, taken, included, binaryNames, style, remaining)
    ensures LargestEvicted(parts, taken, included, tokens, binaryNames, style, remaining)
    ensures Tokens(Render(parts, taken, binaryNames, style, false, false)) <= remaining ==> included == taken
    ensures AllJustified(deferred, Names(parts), included, pass)
  {
    hide Render, KeyLe, Tokens, Names, LargestEvicted;
    NothingEvicted(parts, taken, tokens, binaryNames, style, remaining);
    included, deferred := taken, before;
    text := Render(parts, included, binaryNames, style, false, false);
    while included != {} && Tokens(text) > remaining
      invariant included <= taken && text == Render(parts, included, binaryNames, style, false, false)
      invariant included != taken ==> EvictionNeeded(parts, taken, included, binaryNames, style, remaining)
      invariant LargestEvicted(parts, taken, included, tokens, binaryNames, style, remaining)
      invariant included != taken ==> Tokens(Render(parts, taken, binaryNames, style, false, false)) > remaining
      invariant AllJustified(deferred, Names(parts), included, pass)
      decreases |included|
    {
      var name := LargestOf(included, tokens);
      assert included - {name} + {name} == included;
      EvictLargest(parts, taken, included, name, tokens, binaryNames, style, remaining);
      included := included - {name};
      deferred := deferred[name := Decision(name, Size(tokens, name), 0, overflowReason)];
      text := Render(parts, included, binaryNames, style, false, false);
    }
  }

  function DecisionsFor(deferred: map<string, Decision>, names: seq<string>): (r: seq<Decision>)
    requires forall n :: n in names ==> n in deferred
    ensures |r| == |names| && forall i :: 0 <= i < |r| ==> r[i] == deferred[names[i]]
  {
    if names == [] then [] else [deferred[names[0]]] + DecisionsFor(deferred, names[1..])
  }

  /** With nothing included: every omitted file named, then all of them in one line, then the binaries in
      one line as well. */
  function Collapsings(parts: seq<Part>, binaryNames: seq<string>, style: Placeholder): seq<string> {
    [Render(parts, {}, binaryNames, style, false, false), Render(parts, {}, binaryNames, style, true, false),
     Render(parts, {}, binaryNames, style, true, true)]
  }

  /** First the omitted files are collapsed and then the binaries. */
  lemma CollapsedInOrder(parts: seq<Part>, binaryNames: seq<string>, style: Placeholder, i: nat, k: nat)
    requires i < |parts| && k < |binaryNames|
    ensures
      var texts := Collapsings(parts, binaryNames, style);
      && Contains(texts[0], PlaceholderText(style, parts[i].name)) && Contains(texts[0], "- " + binaryNames[k])
      && Contains(texts[1], CollapsedOmitted(|parts|)) && Contains(texts[1], "- " + binaryNames[k])
      && Contains(texts[2], CollapsedOmitted(|parts|)) && Contains(texts[2], CollapsedBinary(|binaryNames|))
  {
    hide Contains, Render, PlaceholderText, CollapsedOmitted, CollapsedBinary;
    var name := binaryNames[k];
    NamesMembers(parts);
    NothingKept(parts);
    KeptOmittedMembers(parts, {});
    OmittedAreNamed(parts, {}, binaryNames, style, false, parts[i].name);
    OmittedAreNamed(parts, {}, binaryNames, style, true, parts[i].name);
    BinariesAreNamed(parts, {}, binaryNames, style, false, name);
    BinariesAreNamed(parts, {}, binaryNames, style, true, name);
  }

  predicate Fits(text: string, remaining: int) {
    Tokens(text) <= remaining
  }

  /** The first of the candidates that fits, or the empty text when none does. */
  ghost predicate FirstFit(text: string, candidates: seq<string>, remaining: int) {
    || (text == "" && forall i :: 0 <= i < |candidates| ==> !Fits(candidates[i], remaining))
    || (&& text in candidates && Fits(text, remaining)
        && exists k :: 0 <= k < |candidates| && candidates[k] == text && forall i :: 0 <= i < k ==> !Fits(candidates[i], remaining))
  }

  /** All that is promised of a packing of a non-empty set of parts. */
  ghost predicate GoodPacking(
    p: Packed, parts: seq<Part>, remaining: int, binaryNames: seq<string>, style: Placeholder,
    initialReason: string, overflowReason: string, included: set<string>)
  {
    var tokens := TokenTable(parts);
    var taken := Greedy(PackingOrder(parts), tokens, remaining, 0);
    var pass := Pass(PackingOrder(parts), tokens, remaining, taken, initialReason, overflowReason);
    && included <= taken
    && p.included == Kept(parts, included) && p.omitted == Omitted(parts, included)
    && p.tokens == Tokens(p.text) <= Left(remaining, 0)
    && (p.included != [] ==> p.text == Render(parts, included, binaryNames, style, false, false) && p.tokens <= remaining)
    && (Tokens(Render(parts, taken, binaryNames, style, false, false)) <= remaining ==> included == taken)
    && (included != taken ==> EvictionNeeded(parts, taken, included, binaryNames, style, remaining))
    && LargestEvicted(parts, taken, included, tokens, binaryNames, style, remaining)
    && |p.deferred| == |p.omitted|
    && (forall i :: 0 <= i < |p.omitted| ==> Justified(p.deferred[i], p.omitted[i], pass))
    && (p.text == "" ==> p.included == [] && Tokens(Render(parts, {}, binaryNames, style, true, true)) > remaining)
    && (included == {} ==> FirstFit(p.text, Collapsings(parts, binaryNames, style), remaining))
  }

  /** Pack formatted parts: greedy pass, exact re-rendering with eviction, then the collapsed renderings
      and finally nothing at all. */
  method PackFormattedFileParts(
    parts: seq<Part>, remaining: int, binaryNames: seq<string>, style: Placeholder,
    initialReason: string, overflowReason: string)
    returns (p: Packed, ghost included: set<string>)
    requires DistinctNames(parts)
    ensures parts == [] ==>
      p == Packed([], [], [], AssembleFileParts([], BinaryText(binaryNames, false)), Tokens(AssembleFileParts([], BinaryText(binaryNames, false))))
    ensures parts != [] ==> GoodPacking(p, parts, remaining, binaryNames, style, initialReason, overflowReason, included)
  {
    if parts == [] {
      included := {};
      var text := AssembleFileParts([], BinaryText(binaryNames, false));
      p := Packed([], [], [], text, Tokens(text));
      return;
    }
    p, included := PackSome(parts, remaining, binaryNames, style, initialReason, overflowReason);
  }

  method PackSome(
    parts: seq<Part>, remaining: int, binaryNames: seq<string>, style: Placeholder,
    initialReason: string, overflowReason: string)
    returns (p: Packed, ghost included: set<string>)
    requires DistinctNames(parts) && parts != []
    ensures GoodPacking(p, parts, remaining, binaryNames, style, initialReason, overflowReason, included)
  {
    hide LargestEvicted, FirstFit, Collapsings, Render, Names, Greedy, PackingOrder, TokenTable, EvictionNeeded, Justified, Kept, Omitted, AllJustified, Tokens;
    var tokens := TokenTable(parts);
    var order := PackingOrder(parts);
    OrderIsNames(parts);
    var taken, before := DeferOversized(order, tokens, remaining, initialReason, overflowReason);
    ghost var pass := Pass(order, tokens, remaining, taken, initialReason, overflowReason);
    JustifiedOverNames(parts, before, taken, pass);
    var kept, deferred, text := EvictUntilFits(
      parts, taken, before, tokens, remaining, binaryNames, style, overflowReason, pass);
    text := CollapseUntilFits(parts, kept, text, binaryNames, style, remaining);
    included := kept;
    OmittedJustified(parts, kept, deferred, pass);
    NothingKept(parts);
    p := Packed(Kept(parts, kept), Omitted(parts, kept), DecisionsFor(deferred, Omitted(parts, kept)), text, Tokens(text));
  }

  /** The fallbacks: one line for all omitted files, one line for all binaries, nothing. */
  method CollapseUntilFits(
    parts: seq<Part>, included: set<string>, before: string, binaryNames: seq<string>, style: Placeholder, remaining: int)
    returns (text: string)
    requires parts != [] && before == Render(parts, included, binaryNames, style, false, false)
    requires included == {} || Tokens(before) <= remaining
    ensures included != {} ==> text == before
    ensures Tokens(text) <= Left(remaining, 0)
    ensures text == "" ==> included == {} && Tokens(Render(parts, {}, binaryNames, style, true, true)) > remaining
    ensures included == {} ==> FirstFit(text, Collapsings(parts, binaryNames, style), remaining)
  {
    hide Render, Tokens;
    ghost var candidates := Collapsings(parts, binaryNames, style);
    ghost var k := 0;
    assert included == {} ==> before == candidates[0];
    RenderNotEmpty(parts, included, binaryNames, style);
    text := before;
    EmptyIsFree();
    if Tokens(text) > remaining {
      text, k := Render(parts, included, binaryNames, style, true, false), 1;
    }
    if Tokens(text) > remaining {
      text, k := Render(parts, included, binaryNames, style, true, true), 2;
    }
    if Tokens(text) > remaining {
      text, k := "", 3;
    }
    if included == {} && k < 3 {
      assert candidates[k] == text && forall i :: 0 <= i < k ==> !Fits(candidates[i], remaining);
    }
  }

  lemma EmptyIsFree()
    ensures Tokens("") == 0
  {
  }

  lemma JustifiedOverNames(parts: seq<Part>, deferred: map<string, Decision>, included: set<string>, pass: Pass)
    requires forall n :: n in pass.order <==> n in Names(parts)
    requires AllJustified(deferred, pass.order, included, pass)
    ensures AllJustified(deferred, Names(parts), included, pass)
  {
    hide Justified;
  }

  lemma OmittedJustified(parts: seq<Part>, included: set<string>, deferred: map<string, Decision>, pass: Pass)
    requires AllJustified(deferred, Names(parts), included, pass)
    ensures forall n :: n in Omitted(parts, included) ==> n in deferred && Justified(deferred[n], n, pass)
  {
    hide Justified;
    KeptOmittedMembers(parts, included);
  }

  lemma {:induction false} NothingKept(parts: seq<Part>)
    ensures Kept(parts, {}) == []
  {
    if parts != [] {
      NothingKept(parts[1..]);
    }
  }

  lemma OrderIsNames(parts: seq<Part>)
    requires DistinctNames(parts)
    ensures Distinct(PackingOrder(parts))
    ensures forall n :: n in PackingOrder(parts) <==> n in Names(parts)
  {
    var tokens := TokenTable(parts);
    var le := (a, b) => KeyLe(tokens, b, a);
    NamesMembers(parts);
    SortMembers(Names(parts), le);
    SortKeepsElements(Names(parts), le);
    PermutationDistinct(Names(parts), Sort(Names(parts), le));
  }

  /** A rendering of at least one part is never the empty text. */
  lemma RenderNotEmpty(parts: seq<Part>, included: set<string>, binaryNames: seq<string>, style: Placeholder)
    requires parts != []
    ensures forall a, b :: Render(parts, included, binaryNames, style, a, b) != ""
  {
    KeptOmittedMembers(parts, included);
    InlinedLength(parts, included);
    PlaceholdersLength(style, Omitted(parts, included));
  }

  lemma {:induction false} InlinedLength(parts: seq<Part>, included: set<string>)
    ensures |Inlined(parts, included)| == |Kept(parts, included)|
  {
    if parts != [] {
      InlinedLength(parts[1..], included);
    }
  }

  lemma {:induction false} PlaceholdersLength(style: Placeholder, names: seq<string>)
    ensures |Placeholders(style, names)| == |names|
  {
    if names != [] {
      PlaceholdersLength(style, names[1..]);
    }
  }

  // ---------- when nothing has to be omitted ----------

  lemma {:induction false} TotalOfInsert(x: string, s: seq<string>, le: (string, string) -> bool, tokens: map<string, nat>)
    ensures Total(Insert(x, s, le), tokens) == Size(tokens, x) + Total(s, tokens)
  {
    if s != [] && !le(x, s[0]) {
      TotalOfInsert(x, s[1..], le, tokens);
      var r := Insert(x, s[1..], le);
      assert ([s[0]] + r)[1..] == r;
    } else {
      assert ([x] + s)[1..] == s;
    }
  }

  lemma {:induction false} TotalOfSort(s: seq<string>, le: (string, string) -> bool, tokens: map<string, nat>)
    ensures Total(Sort(s, le), tokens) == Total(s, tokens)
  {
    if s != [] {
      TotalOfSort(s[1..], le, tokens);
      TotalOfInsert(s[0], Sort(s[1..], le), le, tokens);
    }
  }

  /** The parts' own estimates add up to at most the estimate of the rendered text. */
  lemma {:induction false} TotalAtMostJoined(parts: seq<Part>, all: seq<Part>, included: set<string>, k: nat)
    requires DistinctNames(all) && k <= |all| && parts == all[k..]
    requires forall i :: 0 <= i < |all| ==> all[i].name in included
    ensures Total(Names(parts), TokenTable(all)) <= Tokens(Join("\n\n", Inlined(parts, included)))
    decreases |parts|
  {
    if parts != [] {
      TableEntry(all, k);
      assert parts[0] == all[k] && parts[1..] == all[k + 1..];
      TotalAtMostJoined(parts[1..], all, included, k + 1);
      var rest := Inlined(parts[1..], included);
      assert Inlined(parts, included) == [parts[0].text] + rest;
      assert ([parts[0].text] + rest)[1..] == rest;
    }
  }

  lemma {:induction false} NothingOmitted(parts: seq<Part>, included: set<string>)
    requires forall i :: 0 <= i < |parts| ==> parts[i].name in included
    ensures Omitted(parts, included) == []
  {
    if parts != [] {
      NothingOmitted(parts[1..], included);
    }
  }

  function NameSet(parts: seq<Part>): set<string> {
    set n | n in Names(parts)
  }

  lemma InlinedWithinRender(parts: seq<Part>, binaryNames: seq<string>, style: Placeholder)
    requires parts != []
    ensures Tokens(Join("\n\n", Inlined(parts, NameSet(parts)))) <=
      Tokens(Render(parts, NameSet(parts), binaryNames, style, false, false))
  {
    hide FilesHeader;
    var all := NameSet(parts);
    NamesMembers(parts);
    forall i | 0 <= i < |parts| ensures parts[i].name in all {
      assert Names(parts)[i] in all;
    }
    NothingOmitted(parts, all);
    InlinedLength(parts, all);
    KeptOmittedMembers(parts, all);
    assert Inlined(parts, all) + [] == Inlined(parts, all);
  }

  lemma GreedySubset(order: seq<string>, tokens: map<string, nat>, remaining: int, used: nat)
    ensures forall n :: n in Greedy(order, tokens, remaining, used) ==> n in order
  {
  }

  /** Nothing is deferred exactly when the complete rendering fits the budget. */
  lemma NothingDeferredExactlyWhen(
    p: Packed, parts: seq<Part>, remaining: int, binaryNames: seq<string>, style: Placeholder,
    initialReason: string, overflowReason: string, included: set<string>)
    requires DistinctNames(parts) && parts != []
    requires GoodPacking(p, parts, remaining, binaryNames, style, initialReason, overflowReason, included)
    ensures p.omitted == [] <==> Tokens(Render(parts, NameSet(parts), binaryNames, style, false, false)) <= remaining
  {
    hide Render, Tokens, Greedy, PackingOrder, TokenTable, Kept, Omitted, Justified, EvictionNeeded;
    OrderIsNames(parts);
    NamesMembers(parts);
    GreedySubset(PackingOrder(parts), TokenTable(parts), remaining, 0);
    OmitsNothingExactlyWhen(parts, included);
    if p.omitted != [] && Tokens(Render(parts, NameSet(parts), binaryNames, style, false, false)) <= remaining {
      FullFitIsTaken(parts, remaining, binaryNames, style);
    }
  }

  lemma OmitsNothingExactlyWhen(parts: seq<Part>, included: set<string>)
    requires parts != [] && forall n :: n in included ==> n in Names(parts)
    ensures Omitted(parts, included) == [] <==> included == NameSet(parts)
    ensures included == NameSet(parts) ==> Kept(parts, included) != []
  {
    hide Kept, Omitted;
    KeptOmittedMembers(parts, included);
    NamesMembers(parts);
    if Omitted(parts, included) == [] {
      assert forall n :: n in Names(parts) ==> n in included;
      assert included == NameSet(parts);
    }
    if included == NameSet(parts) {
      assert Names(parts)[0] in Kept(parts, included);
      NothingOmittedFrom(parts, included);
    }
  }

  lemma NothingOmittedFrom(parts: seq<Part>, included: set<string>)
    requires included == NameSet(parts)
    ensures Omitted(parts, included) == []
  {
    NamesMembers(parts);
    forall i | 0 <= i < |parts| ensures parts[i].name in included {
      assert Names(parts)[i] in included;
    }
    NothingOmitted(parts, included);
  }

  lemma FullFitIsTaken(parts: seq<Part>, remaining: int, binaryNames: seq<string>, style: Placeholder)
    requires DistinctNames(parts) && parts != []
    requires Tokens(Render(parts, NameSet(parts), binaryNames, style, false, false)) <= remaining
    ensures Greedy(PackingOrder(parts), TokenTable(parts), remaining, 0) == NameSet(parts)
  {
    hide Render, Tokens;
    var all := NameSet(parts);
    var tokens := TokenTable(parts);
    OrderIsNames(parts);
    NamesMembers(parts);
    forall i | 0 <= i < |parts| ensures parts[i].name in all {
      assert Names(parts)[i] in all;
    }
    assert parts == parts[0..];
    TotalAtMostJoined(parts, parts, all, 0);
    InlinedWithinRender(parts, binaryNames, style);
    TotalOfSort(Names(parts), (a, b) => KeyLe(tokens, b, a), tokens);
    GreedySubset(PackingOrder(parts), tokens, remaining, 0);
    GreedyTakesAll(PackingOrder(parts), tokens, remaining, 0);
  }
}
