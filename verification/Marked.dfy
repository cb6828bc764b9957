/** Markdown blocks: the tree they form, the bracketed token stream the block
    lexer emits for it, and the HTML the parser makes of it. */
module Marked {
  import opened Prelude

  datatype Leaf =
    | Space
    | Hr
    | Heading(depth: nat, text: string)
    | CodeBlock(text: string, lang: Option<string>)
    | Table(header: seq<string>, align: seq<Option<string>>, cells: seq<seq<string>>)
    | Html(text: string, pre: bool)
    | Paragraph(text: string)
    | Text(text: string)

  datatype Token =
    | LeafToken(leaf: Leaf)
    | BlockquoteStart
    | BlockquoteEnd
    | ListStart(ordered: bool)
    | ListEnd
    | ItemStart
    | LooseItemStart
    | ItemEnd

  datatype Block = Plain(leaf: Leaf) | Quote(body: Blocks) | List(ordered: bool, items: Items)

  datatype Blocks = Nil | Cons(first: Block, rest: Blocks)

  datatype Items = NoItems | Item(loose: bool, body: Blocks, rest: Items)

  predicate IsText(t: Token) {
    t.LeafToken? && t.leaf.Text?
  }

  predicate StartsWithText(blocks: Blocks) {
    blocks.Cons? && blocks.first.Plain? && blocks.first.leaf.Text?
  }

  // ---------- the token stream of a tree

  function FlattenBlock(b: Block): seq<Token>
    decreases b
  {
    match b
    case Plain(leaf) => [LeafToken(leaf)]
    case Quote(body) => [BlockquoteStart] + Flatten(body) + [BlockquoteEnd]
    case List(ordered, items) => [ListStart(ordered)] + FlattenItems(items) + [ListEnd]
  }

  function Flatten(blocks: Blocks): seq<Token>
    decreases blocks
  {
    match blocks
    case Nil => []
    case Cons(first, rest) => FlattenBlock(first) + Flatten(rest)
  }

  function FlattenItems(items: Items): seq<Token>
    decreases items
  {
    match items
    case NoItems => []
    case Item(loose, body, rest) =>
      [if loose then LooseItemStart else ItemStart] + Flatten(body) + [ItemEnd] + FlattenItems(rest)
  }

  lemma Bracketed(open: Token, body: seq<Token>, close: Token, after: seq<Token>)
    ensures ([open] + body + [close]) + after == [open] + (body + ([close] + after))
  {
  }

  // ---------- nesting, checked over the stream alone

  datatype Open = NoneOpen | Open(token: Token, below: Open)

  /** Which token may close the one opened last. */
  predicate Closes(close: Token, open: Token) {
    match open
    case BlockquoteStart => close == BlockquoteEnd
    case ListStart(_) => close == ListEnd
    case ItemStart => close == ItemEnd
    case LooseItemStart => close == ItemEnd
    case _ => false
  }

  predicate Opening(t: Token) {
    t.BlockquoteStart? || t.ListStart? || t.ItemStart? || t.LooseItemStart?
  }

  /** Items stand directly in lists, and nothing else does. */
  predicate Placed(t: Token, open: Open) {
    (t.ItemStart? || t.LooseItemStart?) <==> (open.Open? && open.token.ListStart?)
  }

  predicate Nested(tokens: seq<Token>, open: Open) {
    if tokens == [] then open.NoneOpen?
    else
      var t := tokens[0];
      if Opening(t) then Placed(t, open) && Nested(tokens[1..], Open(t, open))
      else if t.LeafToken? then Placed(t, open) && Nested(tokens[1..], open)
      else open.Open? && Closes(t, open.token) && Nested(tokens[1..], open.below)
  }

  lemma NestedStep(t: Token, tokens: seq<Token>, open: Open)
    ensures Nested([t] + tokens, open) ==
      if Opening(t) then Placed(t, open) && Nested(tokens, Open(t, open))
      else if t.LeafToken? then Placed(t, open) && Nested(tokens, open)
      else open.Open? && Closes(t, open.token) && Nested(tokens, open.below)
  {
    assert ([t] + tokens)[1..] == tokens;
  }

  /** A block opens and closes what it opens, whatever follows. */
  lemma {:induction false} BlockNests(b: Block, after: seq<Token>, open: Open)
    requires !(open.Open? && open.token.ListStart?)
    ensures Nested(FlattenBlock(b) + after, open) == Nested(after, open)
    decreases b
  {
    match b
    case Plain(leaf) => NestedStep(LeafToken(leaf), after, open);
    case Quote(body) =>
      var tail := [BlockquoteEnd] + after;
      Bracketed(BlockquoteStart, Flatten(body), BlockquoteEnd, after);
      NestedStep(BlockquoteStart, Flatten(body) + tail, open);
      BlocksNest(body, tail, Open(BlockquoteStart, open));
      NestedStep(BlockquoteEnd, after, Open(BlockquoteStart, open));
    case List(ordered, items) =>
      var tail := [ListEnd] + after;
      Bracketed(ListStart(ordered), FlattenItems(items), ListEnd, after);
      NestedStep(ListStart(ordered), FlattenItems(items) + tail, open);
      ItemsNest(items, tail, Open(ListStart(ordered), open));
      NestedStep(ListEnd, after, Open(ListStart(ordered), open));
  }

  lemma {:induction false} BlocksNest(blocks: Blocks, after: seq<Token>, open: Open)
    requires !(open.Open? && open.token.ListStart?)
    ensures Nested(Flatten(blocks) + after, open) == Nested(after, open)
    decreases blocks
  {
    match blocks
    case Nil => assert Flatten(blocks) + after == after;
    case Cons(first, rest) =>
      Assoc(FlattenBlock(first), Flatten(rest), after);
      BlockNests(first, Flatten(rest) + after, open);
      BlocksNest(rest, after, open);
  }

  lemma {:induction false} ItemsNest(items: Items, after: seq<Token>, open: Open)
    requires open.Open? && open.token.ListStart?
    ensures Nested(FlattenItems(items) + after, open) == Nested(after, open)
    decreases items
  {
    match items
    case NoItems => assert FlattenItems(items) + after == after;
    case Item(loose, body, rest) =>
      var start := if loose then LooseItemStart else ItemStart;
      var more := FlattenItems(rest) + after;
      Assoc([start] + Flatten(body) + [ItemEnd], FlattenItems(rest), after);
      Bracketed(start, Flatten(body), ItemEnd, more);
      NestedStep(start, Flatten(body) + ([ItemEnd] + more), open);
      BlocksNest(body, [ItemEnd] + more, Open(start, open));
      NestedStep(ItemEnd, more, Open(start, open));
      ItemsNest(rest, after, open);
  }

  lemma TreeIsNested(blocks: Blocks)
    ensures Nested(Flatten(blocks), NoneOpen)
  {
    BlocksNest(blocks, [], NoneOpen);
    assert Flatten(blocks) + [] == Flatten(blocks);
  }

  // ---------- the tree of a nested stream

  /** What is left of a nested stream once the blocks inside `open` are taken:
      nothing, or the token that closes it and what follows. */
  predicate Left(after: seq<Token>, open: Open) {
    if open.NoneOpen? then after == []
    else after != [] && Closes(after[0], open.token) && Nested(after[1..], open.below)
  }

  lemma {:induction false} TakeBlocks(tokens: seq<Token>, open: Open) returns (blocks: Blocks, after: seq<Token>)
    requires Nested(tokens, open) && !(open.Open? && open.token.ListStart?)
    ensures tokens == Flatten(blocks) + after && |after| <= |tokens| && Left(after, open)
    decreases |tokens|, 1
  {
    if tokens == [] || !(Opening(tokens[0]) || tokens[0].LeafToken?) {
      assert tokens == Flatten(Nil) + tokens;
      return Nil, tokens;
    }
    var first, more := TakeBlock(tokens, open);
    var rest;
    rest, after := TakeBlocks(more, open);
    Assoc(FlattenBlock(first), Flatten(rest), after);
    blocks := Cons(first, rest);
  }

  lemma {:induction false} TakeBlock(tokens: seq<Token>, open: Open) returns (b: Block, after: seq<Token>)
    requires Nested(tokens, open) && !(open.Open? && open.token.ListStart?)
    requires tokens != [] && (Opening(tokens[0]) || tokens[0].LeafToken?)
    ensures tokens == FlattenBlock(b) + after && |after| < |tokens| && Nested(after, open)
    decreases |tokens|, 0
  {
    var t, later := tokens[0], tokens[1..];
    assert tokens == [t] + later;
    if t.LeafToken? { return Plain(t.leaf), later; }
    if t.BlockquoteStart? {
      var body, rest := TakeBlocks(later, Open(t, open));
      after := rest[1..];
      assert rest == [BlockquoteEnd] + after;
      Bracketed(t, Flatten(body), BlockquoteEnd, after);
      return Quote(body), after;
    }
    var items, rest := TakeItems(later, Open(t, open));
    after := rest[1..];
    assert rest == [ListEnd] + after;
    Bracketed(t, FlattenItems(items), ListEnd, after);
    b := List(t.ordered, items);
  }

  lemma {:induction false} TakeItems(tokens: seq<Token>, open: Open) returns (items: Items, after: seq<Token>)
    requires Nested(tokens, open) && open.Open? && open.token.ListStart?
    ensures tokens == FlattenItems(items) + after && |after| <= |tokens| && Left(after, open)
    decreases |tokens|
  {
    if !Opening(tokens[0]) {
      assert tokens == FlattenItems(NoItems) + tokens;
      return NoItems, tokens;
    }
    var t := tokens[0];
    var body, rest := TakeBlocks(tokens[1..], Open(t, open));
    var later := rest[1..];
    var others;
    others, after := TakeItems(later, open);
    items := Item(t == LooseItemStart, body, others);
    assert tokens == [t] + tokens[1..] && rest == [ItemEnd] + later;
    Bracketed(t, Flatten(body), ItemEnd, later);
    Assoc([t] + Flatten(body) + [ItemEnd], FlattenItems(others), after);
  }

  /** The nested streams are those of trees. */
  lemma NestedIsTree(tokens: seq<Token>)
    ensures Nested(tokens, NoneOpen) <==> exists blocks :: tokens == Flatten(blocks)
  {
    if Nested(tokens, NoneOpen) {
      var blocks, after := TakeBlocks(tokens, NoneOpen);
      assert tokens == Flatten(blocks);
    }
    if blocks :| tokens == Flatten(blocks) { TreeIsNested(blocks); }
  }

  // ---------- the HTML of a tree

  /** What the tree's rendering takes from outside: the inline lexer, and the
      renderer's functions for single blocks. */
  datatype Style = Style(
    inline: string -> string,
    heading: (string, nat, string) -> string,
    code: (string, Option<string>) -> string,
    table: (seq<string>, seq<Option<string>>, seq<seq<string>>) -> string,
    pedantic: bool,
    xhtml: bool)

  function ParagraphHtml(text: string): string { "<p>" + text + "</p>\n" }

  function QuoteHtml(body: string): string { "<blockquote>\n" + body + "</blockquote>\n" }

  function ListHtml(body: string, ordered: bool): string {
    var tag := if ordered then "ol" else "ul";
    "<" + tag + ">\n" + body + "</" + tag + ">\n"
  }

  function ItemHtml(body: string): string { "<li>" + body + "</li>\n" }

  function RenderLeaf(leaf: Leaf, s: Style): string {
    match leaf
    case Space => ""
    case Hr => if s.xhtml then "<hr/>\n" else "<hr>\n"
    case Heading(depth, text) => s.heading(s.inline(text), depth, text)
    case CodeBlock(text, lang) => s.code(text, lang)
    case Table(header, align, cells) => s.table(header, align, cells)
    case Html(text, pre) => if !pre && !s.pedantic then s.inline(text) else text
    case Paragraph(text) => ParagraphHtml(s.inline(text))
    case Text(text) => ParagraphHtml(s.inline(text))
  }

  /** The text of a run of adjacent text blocks, one line each. */
  function TextRun(body: string, rest: Blocks): string
    decreases rest
  {
    if StartsWithText(rest) then TextRun(body + "\n" + rest.first.leaf.text, rest.rest) else body
  }

  function AfterRun(rest: Blocks): (after: Blocks)
    ensures after == rest || after < rest
    decreases rest
  {
    if StartsWithText(rest) then AfterRun(rest.rest) else rest
  }

  function RenderBlock(b: Block, s: Style): string
    decreases b
  {
    match b
    case Plain(leaf) => RenderLeaf(leaf, s)
    case Quote(body) => QuoteHtml(Render(body, false, s))
    case List(ordered, items) => ListHtml(RenderItems(items, s), ordered)
  }

  /** Adjacent text blocks are one paragraph; in a tight item they are not even that. */
  function Render(blocks: Blocks, tight: bool, s: Style): string
    decreases blocks
  {
    match blocks
    case Nil => ""
    case Cons(first, rest) =>
      if StartsWithText(blocks) then
        var text := s.inline(TextRun(first.leaf.text, rest));
        (if tight then text else ParagraphHtml(text)) + Render(AfterRun(rest), tight, s)
      else RenderBlock(first, s) + Render(rest, tight, s)
  }

  function RenderItems(items: Items, s: Style): string
    decreases items
  {
    match items
    case NoItems => ""
    case Item(loose, body, rest) => ItemHtml(Render(body, !loose, s)) + RenderItems(rest, s)
  }
}
