/**
 * The query as a context pack prints it: src/markdown.js puts a backslash before every character
 * that Markdown would read as markup, JSON does not, so Markdown can be the longer form.
 */
module PackMarkdown {
  import opened Common
  import opened ContextPacker
  import opened Decimal
  import opened JsonText
  import opened SizeAccounting

  const NEWLINE: Unit := 0x0a
  const RETURN: Unit := 0x0d
  const SPACE: Unit := 0x20
  const BACKSLASH: Unit := 0x5c
  const STAR: Unit := 0x2a

  /** All line ends become newlines. */
  function UnifiedLines(text: Text): Text {
    if text == [] then []
    else if text[0] == RETURN && |text| > 1 && text[1] == NEWLINE then [NEWLINE] + UnifiedLines(text[2..])
    else [if text[0] in [RETURN, 0x2028, 0x2029] then NEWLINE else text[0]] + UnifiedLines(text[1..])
  }

  predicate UnsafeControl(u: Unit) { u <= 0x08 || u == 0x0b || u == 0x0c || 0x0e <= u <= 0x1f || 0x7f <= u <= 0x9f }

  function HexDigit(n: nat): Unit
    requires n < 16
  {
    if n < 10 then 0x30 + n else 0x57 + n
  }

  /** Control characters are shown as escapes. */
  function VisibleControls(text: Text): Text {
    if text == [] then []
    else (if UnsafeControl(text[0]) then [BACKSLASH, 0x75, 0x30, 0x30, HexDigit(text[0] / 16), HexDigit(text[0] % 16)] else [text[0]])
         + VisibleControls(text[1..])
  }

  /** Every run of newlines becomes one space. */
  function OneLine(text: Text): Text {
    if text == [] then []
    else if text[0] != NEWLINE then [text[0]] + OneLine(text[1..])
    else if |text| > 1 && text[1] == NEWLINE then OneLine(text[1..])
    else [SPACE] + OneLine(text[1..])
  }

  /** The characters of \`*_{}[]()<>#+.!|- */
  predicate Markup(u: Unit) {
    u in [0x5c, 0x60, 0x2a, 0x5f, 0x7b, 0x7d, 0x5b, 0x5d, 0x28, 0x29, 0x3c, 0x3e, 0x23, 0x2b, 0x2e, 0x21, 0x7c, 0x2d]
  }

  function Escaped(text: Text): Text {
    if text == [] then [] else (if Markup(text[0]) then [BACKSLASH, text[0]] else [text[0]]) + Escaped(text[1..])
  }

  /** `markdownInline` */
  function Inline(text: Text): Text { Escaped(OneLine(VisibleControls(UnifiedLines(text)))) }

  predicate Plain(u: Unit) { u !in [NEWLINE, RETURN, 0x2028, 0x2029] && !UnsafeControl(u) }

  function CountMarkup(text: Text): nat {
    if text == [] then 0 else (if Markup(text[0]) then 1 else 0) + CountMarkup(text[1..])
  }

  lemma {:induction false} PlainUnchanged(text: Text)
    requires forall u :: u in text ==> Plain(u)
    ensures UnifiedLines(text) == text && VisibleControls(text) == text && OneLine(text) == text
  {
    if text != [] {
      assert text[0] in text;
      assert text == [text[0]] + text[1..];
      PlainUnchanged(text[1..]);
    }
  }

  lemma {:induction false} EscapedLength(text: Text)
    ensures |Escaped(text)| == |text| + CountMarkup(text)
  {
    if text != [] {
      EscapedLength(text[1..]);
    }
  }

  /** Text without line ends and control characters grows by one character for each markup character. */
  lemma InlineLength(text: Text)
    requires forall u :: u in text ==> Plain(u)
    ensures |Inline(text)| == |text| + CountMarkup(text)
  {
    PlainUnchanged(text);
    EscapedLength(text);
  }

  lemma {:induction false} AllMarkup(text: Text)
    requires forall u :: u in text ==> Markup(u)
    ensures CountMarkup(text) == |text|
  {
    if text != [] {
      assert text[0] in text;
      AllMarkup(text[1..]);
    }
  }

  // ---------- a pack's two forms ----------

  /** Lengths of one item in the two forms; the Markdown form always has a heading. */
  datatype ItemForms = ItemForms(json: Item -> nat, markdown: Item -> nat)

  function Sum(length: Item -> nat, items: seq<Item>): nat {
    if items == [] then 0 else Sum(length, items[..|items| - 1]) + length(items[|items| - 1])
  }

  ghost predicate HasHeadings(forms: ItemForms) { forall item: Item :: forms.markdown(item) >= 1 }

  /** Fixed text, the query in its own escaping, and the items; without printed counters and the `truncated` word. */
  function RendererOf(jsonFrame: nat, markdownFrame: nat, query: Text, forms: ItemForms): Renderer {
    Renderer(
      (items: seq<Item>) => jsonFrame + PrintedLength(query) + Sum(forms.json, items),
      (items: seq<Item>) => markdownFrame + |Inline(query)| + Sum(forms.markdown, items),
      (items: seq<Item>) => 0,
      (items: seq<Item>) => 0)
  }

  lemma OneItemMore(forms: ItemForms, item: Item)
    ensures Sum(forms.markdown, [item]) == forms.markdown(item) && Sum(forms.json, [item]) == forms.json(item)
  {
    assert [item][..0] == [];
  }

  lemma StarLengths(n: nat)
    ensures PrintedLength(Repeat(STAR, n)) == n && |Inline(Repeat(STAR, n))| == 2 * n
  {
    var stars := Repeat(STAR, n);
    InlineLength(stars);
    AllMarkup(stars);
    PrintedRun(STAR, n, []);
    assert stars + [] == stars;
  }

  // ---------- the last check ----------

  /** An empty pack that just fits stays empty: any item would be one heading too much. */
  lemma TightStaysEmpty(r: Renderer, limits: Limits, ranked: seq<string>, limit: nat)
    requires ranked != [] && limit >= 1 && limits == Limits(Settled(FramingOf(r, [], false), false).usedChars, Disabled)
    requires forall item: Item :: r.markdown([item]) > r.markdown([])
    requires r.markdown([]) + |"no"| >= r.json([]) + |"false"|
    ensures Chosen(r, limits, ranked, limit, [])
  {
    forall item: Item ensures !Fits(r, limits, [item]) {
      LongerForm(FramingOf(r, [], false), FramingOf(r, [item], false));
    }
    FullItemsSnoc(ranked, 0);
    assert FullItems(ranked, 0) == [] && [] + [FullItem(ranked, 0)] == [FullItem(ranked, 0)];
    assert StopsAt(r, limits, ranked, limit, 0);
    if ranked[0] != "" {
      assert [] + [Item(0, Shorten(ranked[0], 0))] == [Item(0, Shorten(ranked[0], 0))];
      assert ShortenedAt(r, limits, ranked, 0, None, []);
    }
    assert ChosenAt(r, limits, ranked, limit, [], 0);
  }

  /**
   * Main result: a query of enough asterisks, which the source accepts and answers with the newest
   * events, makes the last check fail: the empty pack just fits the budget, no item is added, and
   * marking the context pack truncated makes its Markdown form one character too long.
   */
  lemma LastCheckCanFail(jsonFrame: nat, markdownFrame: nat, stars: nat, forms: ItemForms, ranked: seq<string>,
                         limit: nat)
    requires HasHeadings(forms) && ranked != [] && limit >= 1
    requires stars + markdownFrame > jsonFrame + 2
    ensures var r := RendererOf(jsonFrame, markdownFrame, Repeat(STAR, stars), forms);
            var limits := Limits(Settled(FramingOf(r, [], false), false).usedChars, Disabled);
            && WithinBudget(limits, BudgetFor(r, limits, [], false))
            && LastCheckFails(r, limits, ranked, limit)
  {
    var r := RendererOf(jsonFrame, markdownFrame, Repeat(STAR, stars), forms);
    var limits := Limits(Settled(FramingOf(r, [], false), false).usedChars, Disabled);
    StarLengths(stars);
    forall item: Item ensures r.markdown([item]) > r.markdown([]) {
      OneItemMore(forms, item);
    }
    TightFails(r, limits, ranked, limit);
  }

  lemma TightFails(r: Renderer, limits: Limits, ranked: seq<string>, limit: nat)
    requires ranked != [] && limit >= 1 && limits == Limits(Settled(FramingOf(r, [], false), false).usedChars, Disabled)
    requires forall item: Item :: r.markdown([item]) > r.markdown([])
    requires r.markdown([]) + |"no"| >= r.json([]) + |"false"|
    ensures WithinBudget(limits, BudgetFor(r, limits, [], false)) && LastCheckFails(r, limits, ranked, limit)
  {
    TightStaysEmpty(r, limits, ranked, limit);
    LongerForm(FramingOf(r, [], false), FramingOf(r, [], true));
    assert |FullItems(ranked, |ranked|)| > 0;
    assert Truncated(ranked, []);
  }

  /**
   * The fixed text of an empty pack for a query without words, with default options and a budget of
   * four digits: 810 characters in JSON and 527 in Markdown.
   */
  const EMPTY_JSON := 810
  const EMPTY_MARKDOWN := 527

  const STARS := 4_000

  lemma FewDigits(u: nat)
    requires u < 10_000
    ensures Digits(u) <= 4 && Digits(Tokens(u)) <= 4
  {
    assert Pow10(4) == 10_000;
    DigitsAtMost(u, 4);
    DigitsAtMost(Tokens(u), 4);
  }

  /** A tight budget for 4,000 asterisks is one a caller may ask for, with its four digits. */
  lemma StarsNeedFourDigits(forms: ItemForms)
    ensures var r := RendererOf(EMPTY_JSON, EMPTY_MARKDOWN, Repeat(STAR, STARS), forms);
            1_000 <= Settled(FramingOf(r, [], false), false).usedChars < 10_000
  {
    var r := RendererOf(EMPTY_JSON, EMPTY_MARKDOWN, Repeat(STAR, STARS), forms);
    StarLengths(STARS);
    var c := FixedChars(FramingOf(r, [], false));
    assert c == EMPTY_MARKDOWN + 2 * STARS + 2;
    FewDigits(c + 8);
    ChainBelow(c, 1, 4, c + 8);
    assert Chain(c, 1, 4) == Next(c, 1, Chain(c, 1, 3));
  }
}
