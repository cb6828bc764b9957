/** The HTML of a Markdown tree, spelled out. */
module MarkedHtmlLaws {
  import opened Marked

  function LeafHtml(leaf: Leaf, s: Style): string {
    if leaf.Hr? then (if s.xhtml then "<hr/>\n" else "<hr>\n")
    else if leaf.Heading? then s.heading(s.inline(leaf.text), leaf.depth, leaf.text)
    else if leaf.CodeBlock? then s.code(leaf.text, leaf.lang)
    else if leaf.Table? then s.table(leaf.header, leaf.align, leaf.cells)
    else if leaf.Html? then (if leaf.pre || s.pedantic then leaf.text else s.inline(leaf.text))
    else if leaf.Space? then ""
    else "<p>" + s.inline(leaf.text) + "</p>\n"
  }

  /** A tree begins with the HTML of its first block. */
  lemma FirstRendered(first: Block, rest: Blocks, tight: bool, s: Style)
    requires !(first.Plain? && first.leaf.Text?)
    ensures var html, after := Render(Cons(first, rest), tight, s), Render(rest, tight, s);
      && (first.Quote? ==> html == "<blockquote>\n" + Render(first.body, false, s) + "</blockquote>\n" + after)
      && (first.List? && first.ordered ==> html == "<ol>\n" + RenderItems(first.items, s) + "</ol>\n" + after)
      && (first.List? && !first.ordered ==> html == "<ul>\n" + RenderItems(first.items, s) + "</ul>\n" + after)
      && (first.Plain? ==> html == LeafHtml(first.leaf, s) + after)
  {
    if first.List? {
      assert "<" + "ol" + ">\n" == "<ol>\n" && "<" + "ul" + ">\n" == "<ul>\n";
      assert ListHtml(RenderItems(first.items, s), true) == "<ol>\n" + RenderItems(first.items, s) + "</ol>\n";
      assert ListHtml(RenderItems(first.items, s), false) == "<ul>\n" + RenderItems(first.items, s) + "</ul>\n";
    }
  }

  /** Text with text after it is one text of two lines. */
  lemma TextsJoined(a: string, b: string, rest: Blocks, tight: bool, s: Style)
    ensures Render(Cons(Plain(Text(a)), Cons(Plain(Text(b)), rest)), tight, s)
         == Render(Cons(Plain(Text(a + "\n" + b)), rest), tight, s)
  {
    var second := Cons(Plain(Text(b)), rest);
    assert TextRun(a, second) == TextRun(a + "\n" + b, rest) && AfterRun(second) == AfterRun(rest);
  }

  /** Text that no other follows is a paragraph, but bare in a tight item. */
  lemma TextAlone(text: string, rest: Blocks, tight: bool, s: Style)
    requires !(rest.Cons? && rest.first.Plain? && rest.first.leaf.Text?)
    ensures Render(Cons(Plain(Text(text)), rest), tight, s)
         == (if tight then s.inline(text) else "<p>" + s.inline(text) + "</p>\n") + Render(rest, tight, s)
  {
  }

  lemma ItemsRendered(loose: bool, body: Blocks, rest: Items, tight: bool, s: Style)
    ensures Render(Nil, tight, s) == "" && RenderItems(NoItems, s) == ""
    ensures RenderItems(Item(loose, body, rest), s)
         == "<li>" + Render(body, !loose, s) + "</li>\n" + RenderItems(rest, s)
  {
  }

  /** So the text of a loose item is a paragraph, and that of a tight one is not. */
  lemma OneItem(loose: bool, text: string, s: Style)
    ensures RenderItems(Item(loose, Cons(Plain(Text(text)), Nil), NoItems), s)
         == "<li>" + (if loose then "<p>" + s.inline(text) + "</p>\n" else s.inline(text)) + "</li>\n"
  {
    var html := if loose then "<p>" + s.inline(text) + "</p>\n" else s.inline(text);
    TextAlone(text, Nil, !loose, s);
    ItemsRendered(loose, Cons(Plain(Text(text)), Nil), NoItems, !loose, s);
    assert html + "" == html && "<li>" + html + "</li>\n" + "" == "<li>" + html + "</li>\n";
  }
}
