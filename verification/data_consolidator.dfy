/** `DataConsolidator` (src/data_processor.py): the scraped pages are grouped
    by loan type (`structure_by_product`) and written out as one markdown
    knowledge-base document (`consolidate_loan_data`). */
module DataConsolidator {
  import opened Wrappers
  import opened Text
  import opened DataCleaner

  /** One scraped page as the scraper's dictionary carries it; a key that is
      absent is `None`. */
  datatype RawPage = RawPage(
    success: Option<bool>,
    loanType: Option<string>,
    loanName: Option<string>,
    content: Option<string>,
    rawHtml: Option<string>,
    url: Option<string>)

  /** `item.get('success', False)`. */
  predicate Succeeded(p: RawPage) {
    p.success.GetOr(false)
  }

  /** The key a page is grouped under when no type was recorded. */
  const OtherLoans := "Other Loans"

  /** `item.get('loan_type', 'Other Loans')`: the recorded type, and
      "Other Loans" when the page records none. */
  function TypeOf(p: RawPage): (t: string)
    ensures p.loanType.Some? ==> t == p.loanType.value
    ensures p.loanType.None? ==> t == OtherLoans
  {
    p.loanType.GetOr(OtherLoans)
  }

  // ---------------------------------------------------------------------
  // structure_by_product: the specification
  // ---------------------------------------------------------------------

  /** The loan types of the successful pages of `data`. */
  function TypesOf(data: seq<RawPage>): set<string>
    decreases |data|
  {
    if data == [] then {}
    else
      var last := data[|data| - 1];
      TypesOf(data[..|data| - 1]) + (if Succeeded(last) then {TypeOf(last)} else {})
  }

  /** A type is among the types of `data` exactly when some successful page
      of `data` has it. */
  lemma {:induction false} TypesOfIff(data: seq<RawPage>, t: string)
    ensures t in TypesOf(data) <==> exists j :: 0 <= j < |data| && Succeeded(data[j]) && TypeOf(data[j]) == t
    decreases |data|
  {
    if data != [] {
      var init := data[..|data| - 1];
      TypesOfIff(init, t);
      if exists j :: 0 <= j < |data| && Succeeded(data[j]) && TypeOf(data[j]) == t {
        var j :| 0 <= j < |data| && Succeeded(data[j]) && TypeOf(data[j]) == t;
        if j < |data| - 1 { assert init[j] == data[j]; }
      }
      if t in TypesOf(init) {
        var j :| 0 <= j < |init| && Succeeded(init[j]) && TypeOf(init[j]) == t;
        assert data[j] == init[j];
      }
    }
  }

  /** The successful pages of type `t`, in their order in `data`: the list
      the grouping keeps under key `t`. */
  function Pages(data: seq<RawPage>, t: string): (r: seq<RawPage>)
    ensures r != [] <==> t in TypesOf(data)
    ensures forall p :: p in r ==> Succeeded(p) && TypeOf(p) == t
    decreases |data|
  {
    if data == [] then []
    else
      var last := data[|data| - 1];
      Pages(data[..|data| - 1], t) + (if Succeeded(last) && TypeOf(last) == t then [last] else [])
  }

  /** One entry of the sorted dictionary: a loan type and its pages. */
  datatype Group = Group(loanType: string, pages: seq<RawPage>)

  /** The keys of a grouping, in order. */
  function Keys(groups: seq<Group>): seq<string> {
    seq(|groups|, i requires 0 <= i < |groups| => groups[i].loanType)
  }

  /** The keys ascend strictly exactly when the groups are ordered by loan
      type. */
  lemma KeysSorted(groups: seq<Group>)
    ensures StrictlySorted(Keys(groups)) <==>
      forall i, j :: 0 <= i < j < |groups| ==> Less(groups[i].loanType, groups[j].loanType)
  {
    var r := Keys(groups);
    assert forall i :: 0 <= i < |r| ==> r[i] == groups[i].loanType;
  }

  /** `groups` is what `structure_by_product(data)` returns: one entry per
      loan type of a successful page, keys strictly ascending, and under each
      key exactly the successful pages of that type in their original order. */
  ghost predicate IsGrouping(data: seq<RawPage>, groups: seq<Group>) {
    && StrictlySorted(Keys(groups))
    && (forall t :: t in Keys(groups) <==> t in TypesOf(data))
    && (forall i :: 0 <= i < |groups| ==> groups[i].pages == Pages(data, groups[i].loanType))
  }

  /** The loan types of the successful pages, ascending. */
  function SortedTypes(data: seq<RawPage>): (r: seq<string>)
    ensures StrictlySorted(r)
    ensures forall t :: t in r <==> t in TypesOf(data)
    decreases |data|
  {
    if data == [] then []
    else
      var last := data[|data| - 1];
      var r := SortedTypes(data[..|data| - 1]);
      if Succeeded(last) then InsertSorted(r, TypeOf(last)) else r
  }

  /** The grouping of `data`. */
  function Grouping(data: seq<RawPage>): (r: seq<Group>)
    ensures IsGrouping(data, r)
  {
    var keys := SortedTypes(data);
    var r := seq(|keys|, i requires 0 <= i < |keys| => Group(keys[i], Pages(data, keys[i])));
    assert Keys(r) == keys;
    r
  }

  /** There is only one grouping of a list of pages. */
  lemma GroupingUnique(data: seq<RawPage>, a: seq<Group>, b: seq<Group>)
    requires IsGrouping(data, a) && IsGrouping(data, b)
    ensures a == b
  {
    StrictlySortedUnique(Keys(a), Keys(b));
    assert |a| == |Keys(a)| == |Keys(b)| == |b|;
    forall i | 0 <= i < |a| ensures a[i] == b[i] {
      assert a[i].loanType == Keys(a)[i] == Keys(b)[i] == b[i].loanType;
    }
  }

  /** Every successful page lands in the group of its type exactly as often
      as it occurs in the input, and in no other group; a failed page lands
      nowhere. */
  lemma {:induction false} PagesCount(data: seq<RawPage>, t: string, p: RawPage)
    ensures multiset(Pages(data, t))[p] == if Succeeded(p) && TypeOf(p) == t then multiset(data)[p] else 0
    decreases |data|
  {
    if data != [] {
      var init := data[..|data| - 1];
      PagesCount(init, t, p);
      MultisetOfInit(data);
    }
  }

  lemma MultisetOfInit(s: seq<RawPage>)
    requires s != []
    ensures multiset(s) == multiset(s[..|s| - 1]) + multiset{s[|s| - 1]}
  {
    assert s == s[..|s| - 1] + [s[|s| - 1]];
  }

  /** Grouping is compositional: the pages of `a + b` are those of `a`
      followed by those of `b`, so the original order survives. */
  lemma {:induction false} PagesAppend(a: seq<RawPage>, b: seq<RawPage>, t: string)
    ensures Pages(a + b, t) == Pages(a, t) + Pages(b, t)
    decreases |b|
  {
    if b == [] {
      assert a + b == a;
    } else {
      var b', last := b[..|b| - 1], b[|b| - 1];
      PagesAppend(a, b', t);
      var x := if Succeeded(last) && TypeOf(last) == t then [last] else [];
      assert (a + b)[..|a + b| - 1] == a + b' && (a + b)[|a + b| - 1] == last;
      assert Pages(a + b, t) == Pages(a + b', t) + x;
      assert Pages(b, t) == Pages(b', t) + x;
      assert (Pages(a, t) + Pages(b', t)) + x == Pages(a, t) + (Pages(b', t) + x);
    }
  }

  /** A failed page changes nothing in the grouping. */
  lemma FailedPageIgnored(data: seq<RawPage>, p: RawPage)
    requires !Succeeded(p)
    ensures Grouping(data + [p]) == Grouping(data)
  {
    var d := data + [p];
    assert d[..|d| - 1] == data;
    assert TypesOf(d) == TypesOf(data);
    forall t ensures Pages(d, t) == Pages(data, t) {
    }
    GroupingUnique(data, Grouping(d), Grouping(data));
  }

  // ---------------------------------------------------------------------
  // structure_by_product: the procedure
  // ---------------------------------------------------------------------

  /** `grouped` is the dictionary built from the first `i` pages. */
  ghost predicate GroupedPrefix(grouped: map<string, seq<RawPage>>, data: seq<RawPage>, i: nat)
    requires i <= |data|
  {
    && grouped.Keys == TypesOf(data[..i])
    && forall t :: t in grouped ==> grouped[t] == Pages(data[..i], t)
  }

  /** Appending page `i` to its type's list, when it succeeded, turns the
      dictionary of the first `i` pages into that of the first `i + 1`. */
  lemma GroupedStep(prev: map<string, seq<RawPage>>, grouped: map<string, seq<RawPage>>, data: seq<RawPage>, i: nat)
    requires i < |data| && GroupedPrefix(prev, data, i)
    requires !Succeeded(data[i]) ==> grouped == prev
    requires Succeeded(data[i]) ==> var t := TypeOf(data[i]);
      && grouped.Keys == prev.Keys + {t}
      && grouped[t] == (if t in prev then prev[t] else []) + [data[i]]
      && forall u :: u in prev && u != t ==> grouped[u] == prev[u]
    ensures GroupedPrefix(grouped, data, i + 1)
  {
    var item := data[i];
    assert data[..i + 1][..i] == data[..i];
    assert TypesOf(data[..i + 1]) == TypesOf(data[..i]) + (if Succeeded(item) then {TypeOf(item)} else {});
    forall t | t in grouped ensures grouped[t] == Pages(data[..i + 1], t) {
      assert Pages(data[..i + 1], t)
        == Pages(data[..i], t) + (if Succeeded(item) && TypeOf(item) == t then [item] else []);
      if Succeeded(item) && TypeOf(item) == t && t !in prev {
        assert t !in TypesOf(data[..i]);
      }
    }
  }

  /** The loop of `structure_by_product`: a dictionary from each loan type
      of a successful page to its pages, appended in input order. */
  method GroupByType(data: seq<RawPage>) returns (grouped: map<string, seq<RawPage>>)
    ensures grouped.Keys == TypesOf(data)
    ensures forall t :: t in grouped ==> grouped[t] == Pages(data, t)
  {
    grouped := map[];
    var i := 0;
    while i < |data|
      invariant 0 <= i <= |data|
      invariant GroupedPrefix(grouped, data, i)
    {
      var item := data[i];
      ghost var prev := grouped;
      if Succeeded(item) {
        var loanType := TypeOf(item);
        if loanType !in grouped {
          grouped := grouped[loanType := []];
        }
        grouped := grouped[loanType := grouped[loanType] + [item]];
      }
      GroupedStep(prev, grouped, data, i);
      i := i + 1;
    }
    assert data[..i] == data;
  }

  /** `sorted` over the dictionary's keys, which are distinct. */
  method SortKeys(keys: set<string>) returns (sorted: seq<string>)
    ensures StrictlySorted(sorted)
    ensures forall t :: t in sorted <==> t in keys
  {
    sorted := [];
    var rest := keys;
    while rest != {}
      invariant rest <= keys
      invariant StrictlySorted(sorted)
      invariant forall t :: t in sorted <==> t in keys && t !in rest
      decreases |rest|
    {
      var t :| t in rest;
      sorted := InsertSorted(sorted, t);
      rest := rest - {t};
    }
  }

  /** `structure_by_product(data)`: group, then list the entries by
      ascending key (`dict(sorted(grouped.items()))`). */
  method StructureByProduct(data: seq<RawPage>) returns (groups: seq<Group>)
    ensures IsGrouping(data, groups)
    ensures groups == Grouping(data)
  {
    var grouped := GroupByType(data);
    var keys := SortKeys(grouped.Keys);
    groups := [];
    var k := 0;
    while k < |keys|
      invariant 0 <= k <= |keys| && |groups| == k
      invariant forall j :: 0 <= j < k ==> groups[j] == Group(keys[j], grouped[keys[j]])
    {
      groups := groups + [Group(keys[k], grouped[keys[k]])];
      k := k + 1;
    }
    assert Keys(groups) == keys;
    GroupingUnique(data, groups, Grouping(data));
  }

  // ---------------------------------------------------------------------
  // consolidate_loan_data: the specification
  // ---------------------------------------------------------------------

  /** The first two lines of the document. */
  const Title := "# Bank of " + "Maharashtra " + "Loan Products " + "Knowledge Base\n\n"
  const Intro := "This document " + "contains " + "comprehensive " + "information " + "about various " + "loan products " + "offered by " + "Bank of " + "Maharashtra.\n\n"

  /** The page text after cleaning: the HTML when there is some, else the
      stored content, then `clean_text` (noise removal, then
      `normalize_text`). HTML parsing and noise removal are parameters. The
      result is normalised text: stripped and free of double spaces. */
  function CleanedContent(p: RawPage, cleanHtml: string -> string, removeNoise: string -> string): (c: string)
    ensures Stripped(c) && NoAdjacent(c, ' ')
  {
    var content := if p.rawHtml.Some? && p.rawHtml.value != "" then cleanHtml(p.rawHtml.value) else p.content.GetOr("");
    NormalizeTextShape(removeNoise(content));
    NormalizeText(removeNoise(content))
  }

  /** The end of a block: a blank line, the source line "Source: " with the
      page's URL, a blank line, and the separator. */
  function Trailer(url: string): (r: string)
    ensures |r| == |url| + 17
    ensures r[..10] == "\n\nSource: " && r[10..10 + |url|] == url
    ensures r[10 + |url|..] == "\n\n---\n\n" && r[|r| - 5..] == "---\n\n"
  {
    var r := "\n\nSource: " + url + "\n\n---\n\n";
    MiddleOf("\n\nSource: ", url, "\n\n---\n\n");
    assert r[10 + |url|..] == "\n\n---\n\n";
    r
  }

  /** The text of a block: the name after "### ", the content after the
      blank line, then the trailer with the URL; every piece at its offset. */
  function BlockText(name: string, content: string, url: string): (b: string)
    ensures |b| == 23 + |name| + |content| + |url|
    ensures Filled(b, "### ", name, "\n\n", content, Trailer(url))
    ensures b[16 + |name| + |content|..16 + |name| + |content| + |url|] == url
    ensures b[|b| - 5..] == "---\n\n"
  {
    var t := Trailer(url);
    var b := "### " + name + "\n\n" + content + t;
    FillSlices("### ", name, "\n\n", content, t);
    FilledTailSlice(b, "### ", name, "\n\n", content, t, 10, 10 + |url|);
    FilledTailSlice(b, "### ", name, "\n\n", content, t, |t| - 5, |t|);
    b
  }

  /** The `###` block written for one page: nothing exactly when the page
      failed or its cleaned text is empty; otherwise the page's name (or
      "Unknown Loan") after "### ", its cleaned text after the blank line,
      the source line with the page's URL (or "N/A"), and the separator at
      the end. */
  function LoanBlock(p: RawPage, cleanHtml: string -> string, removeNoise: string -> string): (b: string)
    ensures b == "" <==> !Succeeded(p) || CleanedContent(p, cleanHtml, removeNoise) == ""
    ensures b != "" ==>
      var name, content := p.loanName.GetOr("Unknown Loan"), CleanedContent(p, cleanHtml, removeNoise);
      var url := p.url.GetOr("N/A");
      && |b| == 23 + |name| + |content| + |url|
      && Filled(b, "### ", name, "\n\n", content, Trailer(url))
      && b[16 + |name| + |content|..16 + |name| + |content| + |url|] == url
      && b[|b| - 5..] == "---\n\n"
  {
    var content := CleanedContent(p, cleanHtml, removeNoise);
    if !Succeeded(p) || content == "" then ""
    else BlockText(p.loanName.GetOr("Unknown Loan"), content, p.url.GetOr("N/A"))
  }

  /** The blocks of a list of pages, in order. */
  function Blocks(pages: seq<RawPage>, cleanHtml: string -> string, removeNoise: string -> string): string
    decreases |pages|
  {
    if pages == [] then ""
    else Blocks(pages[..|pages| - 1], cleanHtml, removeNoise) + LoanBlock(pages[|pages| - 1], cleanHtml, removeNoise)
  }

  /** The blocks of the first `j + 1` pages: those of the first `j`, then
      page `j`'s. */
  lemma BlocksStep(pages: seq<RawPage>, j: nat, cleanHtml: string -> string, removeNoise: string -> string)
    requires j < |pages|
    ensures Blocks(pages[..j + 1], cleanHtml, removeNoise)
         == Blocks(pages[..j], cleanHtml, removeNoise) + LoanBlock(pages[j], cleanHtml, removeNoise)
  {
    assert pages[..j + 1][..j] == pages[..j];
  }

  /** The heading line of a group. */
  function Heading(loanType: string): string {
    "\n## " + loanType + "\n\n"
  }

  /** A group's heading followed by its blocks: a section opens with its
      group's heading. */
  function Section(g: Group, cleanHtml: string -> string, removeNoise: string -> string): (r: string)
    ensures Heading(g.loanType) <= r
  {
    Heading(g.loanType) + Blocks(g.pages, cleanHtml, removeNoise)
  }

  /** One section per group, in the order of the groups. */
  function SectionTexts(groups: seq<Group>, cleanHtml: string -> string, removeNoise: string -> string): seq<string> {
    seq(|groups|, k requires 0 <= k < |groups| => Section(groups[k], cleanHtml, removeNoise))
  }

  /** The sections of a list of groups, written one after another. */
  function Sections(groups: seq<Group>, cleanHtml: string -> string, removeNoise: string -> string): string {
    Concat(SectionTexts(groups, cleanHtml, removeNoise))
  }

  /** The sections of the first `i` groups are the first `i` sections. */
  lemma SectionTextsPrefix(groups: seq<Group>, i: nat, cleanHtml: string -> string, removeNoise: string -> string)
    requires i <= |groups|
    ensures SectionTexts(groups[..i], cleanHtml, removeNoise) == SectionTexts(groups, cleanHtml, removeNoise)[..i]
  {
  }

  /** The document written for a grouping; it opens with the title line and
      the introduction. */
  function Document(groups: seq<Group>, cleanHtml: string -> string, removeNoise: string -> string): (d: string)
    ensures Title + Intro <= d
  {
    Title + Intro + Sections(groups, cleanHtml, removeNoise)
  }

  // ---------------------------------------------------------------------
  // consolidate_loan_data: the procedure
  // ---------------------------------------------------------------------

  /** A successful page with cleaned text `content` gets the block built
      from its name, that text and its URL. */
  lemma LoanBlockOf(p: RawPage, cleanHtml: string -> string, removeNoise: string -> string, content: string)
    requires Succeeded(p) && content == CleanedContent(p, cleanHtml, removeNoise) && content != ""
    ensures LoanBlock(p, cleanHtml, removeNoise) == BlockText(p.loanName.GetOr("Unknown Loan"), content, p.url.GetOr("N/A"))
  {
  }

  /** One pass of the inner loop of `consolidate_loan_data`: page `loan`'s
      block, if it has one, appended to `text`. */
  method AppendBlock(text: string, loan: RawPage, cleanHtml: string -> string, removeNoise: string -> string)
    returns (out: string)
    ensures out == text + LoanBlock(loan, cleanHtml, removeNoise)
  {
    out := text;
    if !loan.success.GetOr(false) {
      return;
    }
    var loanName := loan.loanName.GetOr("Unknown Loan");
    var content := loan.content.GetOr("");
    if loan.rawHtml.Some? && loan.rawHtml.value != "" {
      content := cleanHtml(loan.rawHtml.value);
    }
    content := NormalizeText(removeNoise(content));
    assert content == CleanedContent(loan, cleanHtml, removeNoise);
    if content != "" {
      var block := BlockText(loanName, content, loan.url.GetOr("N/A"));
      LoanBlockOf(loan, cleanHtml, removeNoise, content);
      out := out + block;
    }
  }

  /** The inner loop of `consolidate_loan_data`: the blocks of one group's
      pages appended to `text`. */
  method AppendBlocks(text: string, loans: seq<RawPage>, cleanHtml: string -> string, removeNoise: string -> string)
    returns (out: string)
    ensures out == text + Blocks(loans, cleanHtml, removeNoise)
  {
    out := text;
    var j := 0;
    while j < |loans|
      invariant 0 <= j <= |loans|
      invariant out == text + Blocks(loans[..j], cleanHtml, removeNoise)
    {
      out := AppendBlock(out, loans[j], cleanHtml, removeNoise);
      BlocksStep(loans, j, cleanHtml, removeNoise);
      AppendAssoc(text, Blocks(loans[..j], cleanHtml, removeNoise), LoanBlock(loans[j], cleanHtml, removeNoise));
      j := j + 1;
    }
    assert loans[..j] == loans;
  }

  /** Appending group `g`'s heading and blocks extends the sections before
      it to the sections up to and including it. */
  lemma NextSection(prefix: string, groups: seq<Group>, g: nat, cleanHtml: string -> string, removeNoise: string -> string)
    requires g < |groups|
    ensures prefix + Sections(groups[..g + 1], cleanHtml, removeNoise)
         == prefix + Sections(groups[..g], cleanHtml, removeNoise) + Heading(groups[g].loanType)
            + Blocks(groups[g].pages, cleanHtml, removeNoise)
  {
    var parts := SectionTexts(groups, cleanHtml, removeNoise);
    var before := Sections(groups[..g], cleanHtml, removeNoise);
    var heading := Heading(groups[g].loanType);
    var blocks := Blocks(groups[g].pages, cleanHtml, removeNoise);
    SectionTextsPrefix(groups, g, cleanHtml, removeNoise);
    SectionTextsPrefix(groups, g + 1, cleanHtml, removeNoise);
    assert parts[..g + 1] == parts[..g] + [heading + blocks];
    ConcatAppend(parts[..g], heading + blocks);
    assert Sections(groups[..g + 1], cleanHtml, removeNoise) == before + (heading + blocks);
    AppendAssoc(prefix + before, heading, blocks);
    AppendAssoc(prefix, before, heading + blocks);
  }

  /** `consolidate_loan_data(raw_data)`: the document of the grouping of the
      pages. */
  method ConsolidateLoanData(rawData: seq<RawPage>, cleanHtml: string -> string, removeNoise: string -> string)
    returns (text: string)
    ensures text == Document(Grouping(rawData), cleanHtml, removeNoise)
  {
    var groups := StructureByProduct(rawData);
    text := Title;
    text := text + Intro;
    var g := 0;
    while g < |groups|
      invariant 0 <= g <= |groups|
      invariant text == Title + Intro + Sections(groups[..g], cleanHtml, removeNoise)
    {
      var heading := "\n## " + groups[g].loanType + "\n\n";
      text := text + heading;
      text := AppendBlocks(text, groups[g].pages, cleanHtml, removeNoise);
      NextSection(Title + Intro, groups, g, cleanHtml, removeNoise);
      g := g + 1;
    }
    assert groups[..g] == groups;
  }

  // ---------------------------------------------------------------------
  // Properties of the document
  // ---------------------------------------------------------------------

  /** Where the section of group `i` begins in the document. */
  function SectionOffset(groups: seq<Group>, i: nat, cleanHtml: string -> string, removeNoise: string -> string): nat
    requires i <= |groups|
  {
    |Title + Intro| + |Sections(groups[..i], cleanHtml, removeNoise)|
  }

  /** Group `i`'s heading opens its section, right after the sections of
      the groups before it. */
  lemma SectionHeadingAt(groups: seq<Group>, i: nat, cleanHtml: string -> string, removeNoise: string -> string)
    requires i < |groups|
    ensures var all, o, h := Sections(groups, cleanHtml, removeNoise), |Sections(groups[..i], cleanHtml, removeNoise)|, Heading(groups[i].loanType);
      o + |h| <= |all| && all[o..o + |h|] == h
  {
    var parts := SectionTexts(groups, cleanHtml, removeNoise);
    SectionTextsPrefix(groups, i, cleanHtml, removeNoise);
    ConcatPartAt(parts, i, Heading(groups[i].loanType), Blocks(groups[i].pages, cleanHtml, removeNoise));
  }

  /** The sections before a later group reach past group `i`'s heading. */
  lemma SectionsOrdered(groups: seq<Group>, i: nat, j: nat, cleanHtml: string -> string, removeNoise: string -> string)
    requires i < j <= |groups|
    ensures |Sections(groups[..i], cleanHtml, removeNoise)| + |Heading(groups[i].loanType)|
         <= |Sections(groups[..j], cleanHtml, removeNoise)|
  {
    var parts := SectionTexts(groups, cleanHtml, removeNoise);
    SectionTextsPrefix(groups, i, cleanHtml, removeNoise);
    SectionTextsPrefix(groups, j, cleanHtml, removeNoise);
    ConcatOrdered(parts, i, j);
  }

  /** Each group's heading stands at its offset in the document. */
  lemma DocumentHeadingAt(groups: seq<Group>, i: nat, cleanHtml: string -> string, removeNoise: string -> string)
    requires i < |groups|
    ensures var d, o, h := Document(groups, cleanHtml, removeNoise), SectionOffset(groups, i, cleanHtml, removeNoise), Heading(groups[i].loanType);
      o + |h| <= |d| && d[o..o + |h|] == h
  {
    HeadingAfter(Title + Intro, groups, i, cleanHtml, removeNoise);
  }

  /** Group `i`'s heading, behind any prefix `pre` of the sections. */
  lemma HeadingAfter(pre: string, groups: seq<Group>, i: nat, cleanHtml: string -> string, removeNoise: string -> string)
    requires i < |groups|
    ensures var d, o, h := pre + Sections(groups, cleanHtml, removeNoise), |pre| + |Sections(groups[..i], cleanHtml, removeNoise)|, Heading(groups[i].loanType);
      o + |h| <= |d| && d[o..o + |h|] == h
  {
    var h := Heading(groups[i].loanType);
    SectionHeadingAt(groups, i, cleanHtml, removeNoise);
    ShiftedSlice(pre, Sections(groups, cleanHtml, removeNoise), |Sections(groups[..i], cleanHtml, removeNoise)|, h);
  }

  /** The headings come in the order of the groups (for the grouping of the
      pages, ascending by loan type): a later group's section begins after
      an earlier group's heading. */
  lemma DocumentHeadingsOrdered(groups: seq<Group>, i: nat, j: nat, cleanHtml: string -> string, removeNoise: string -> string)
    requires i < j <= |groups|
    ensures SectionOffset(groups, i, cleanHtml, removeNoise) + |Heading(groups[i].loanType)|
         <= SectionOffset(groups, j, cleanHtml, removeNoise)
  {
    SectionsOrdered(groups, i, j, cleanHtml, removeNoise);
  }

  /** A page whose cleaned text is empty adds nothing to its section. */
  lemma EmptyContentSkipped(pages: seq<RawPage>, p: RawPage, cleanHtml: string -> string, removeNoise: string -> string)
    requires CleanedContent(p, cleanHtml, removeNoise) == ""
    ensures Blocks(pages + [p], cleanHtml, removeNoise) == Blocks(pages, cleanHtml, removeNoise)
  {
    assert (pages + [p])[..|pages|] == pages;
  }
}
