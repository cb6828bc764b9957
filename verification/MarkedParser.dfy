/** The parser of marked: it takes tokens off the end of a reversed array and
    folds them back into the HTML of the tree they came from. */
module MarkedParser {
  import opened Marked
  import opened Prelude
  import opened Strings

  function Reverse(s: seq<Token>): (r: seq<Token>)
    ensures |r| == |s|
  {
    if s == [] then [] else [s[|s| - 1]] + Reverse(s[..|s| - 1])
  }

  lemma {:induction false} ReverseCons(t: Token, s: seq<Token>)
    ensures Reverse([t] + s) == Reverse(s) + [t]
    decreases |s|
  {
    if s == [] {
      assert [t] + s == [t] && [t][..0] == [];
    } else {
      assert ([t] + s)[..|s|] == [t] + s[..|s| - 1];
      ReverseCons(t, s[..|s| - 1]);
    }
  }

  lemma {:induction false} ReverseTwice(s: seq<Token>)
    ensures Reverse(Reverse(s)) == s
    decreases |s|
  {
    if s != [] {
      var last, init := s[|s| - 1], s[..|s| - 1];
      assert s == init + [last];
      ReverseTwice(init);
      ReverseCons(last, Reverse(init));
    }
  }

  /** A stream that cannot add to a run of text tokens before it. */
  predicate Stops(after: seq<Token>) {
    after == [] || !IsText(after[0])
  }

  lemma FlattenTextHead(blocks: Blocks, after: seq<Token>)
    requires Stops(after)
    ensures Flatten(blocks) + after != [] && IsText((Flatten(blocks) + after)[0]) <==> StartsWithText(blocks)
  {
    if blocks.Cons? { assert FlattenBlock(blocks.first) != []; }
  }

  lemma SameHead(t: Token, upcoming: seq<Token>, t1: Token, upcoming1: seq<Token>)
    requires [t] + upcoming == [t1] + upcoming1
    ensures t == t1 && upcoming == upcoming1
  {
    assert ([t] + upcoming)[0] == t && ([t1] + upcoming1)[0] == t1;
    assert ([t] + upcoming)[1..] == upcoming && ([t1] + upcoming1)[1..] == upcoming1;
  }

  /** The first token of a block says which block it is, and the rest follows it. */
  lemma HeadAndTail(t: Token, upcoming: seq<Token>, blocks: Blocks, after: seq<Token>)
    requires blocks.Cons? && [t] + upcoming == Flatten(blocks) + after
    ensures match blocks.first
            case Plain(leaf) => t == LeafToken(leaf) && upcoming == Flatten(blocks.rest) + after
            case Quote(body) =>
              t == BlockquoteStart && upcoming == Flatten(body) + ([BlockquoteEnd] + (Flatten(blocks.rest) + after))
            case List(ordered, items) =>
              t == ListStart(ordered) && upcoming == FlattenItems(items) + ([ListEnd] + (Flatten(blocks.rest) + after))
  {
    var more := Flatten(blocks.rest) + after;
    Assoc(FlattenBlock(blocks.first), Flatten(blocks.rest), after);
    match blocks.first
    case Plain(leaf) => SameHead(t, upcoming, LeafToken(leaf), more);
    case Quote(body) =>
      Bracketed(BlockquoteStart, Flatten(body), BlockquoteEnd, more);
      SameHead(t, upcoming, BlockquoteStart, Flatten(body) + ([BlockquoteEnd] + more));
    case List(ordered, items) =>
      Bracketed(ListStart(ordered), FlattenItems(items), ListEnd, more);
      SameHead(t, upcoming, ListStart(ordered), FlattenItems(items) + ([ListEnd] + more));
  }

  /** The token after a block is the start of the next one or, with none left, what follows. */
  lemma CloseOrMore(t: Token, upcoming: seq<Token>, blocks: Blocks, tail: seq<Token>)
    requires [t] + upcoming == Flatten(blocks) + tail
    ensures blocks.Nil? ==> tail != [] && t == tail[0] && upcoming == tail[1..]
    ensures blocks.Cons? ==> t.LeafToken? || t.BlockquoteStart? || t.ListStart?
  {
    if blocks.Nil? {
      assert Flatten(blocks) + tail == tail;
      assert tail[0] == t && tail[1..] == upcoming;
    } else {
      HeadAndTail(t, upcoming, blocks, tail);
    }
  }

  lemma EndOrMore(t: Token, upcoming: seq<Token>, items: Items, after: seq<Token>)
    requires [t] + upcoming == FlattenItems(items) + ([ListEnd] + after)
    ensures items.NoItems? ==> t == ListEnd && upcoming == after
    ensures items.Item? ==>
      && t == (if items.loose then LooseItemStart else ItemStart)
      && upcoming == Flatten(items.body) + ([ItemEnd] + (FlattenItems(items.rest) + ([ListEnd] + after)))
  {
    var tail := [ListEnd] + after;
    if items.NoItems? {
      assert FlattenItems(items) + tail == tail;
      SameHead(t, upcoming, ListEnd, after);
    } else {
      var start := if items.loose then LooseItemStart else ItemStart;
      var more := FlattenItems(items.rest) + tail;
      Assoc([start] + Flatten(items.body) + [ItemEnd], FlattenItems(items.rest), tail);
      Bracketed(start, Flatten(items.body), ItemEnd, more);
      SameHead(t, upcoming, start, Flatten(items.body) + ([ItemEnd] + more));
    }
  }

  lemma RenderStep(blocks: Blocks, tight: bool, s: Style)
    requires blocks.Cons?
    ensures StartsWithText(blocks) ==>
      Render(blocks, tight, s)
      == (var text := s.inline(TextRun(blocks.first.leaf.text, blocks.rest));
          if tight then text else ParagraphHtml(text))
         + Render(AfterRun(blocks.rest), tight, s)
    ensures !StartsWithText(blocks) ==>
      Render(blocks, tight, s) == RenderBlock(blocks.first, s) + Render(blocks.rest, tight, s)
  {
  }

  /** The current token and those to come. */
  ghost predicate At(token: Option<Token>, upcoming: seq<Token>, stream: seq<Token>) {
    token.Some? && [token.value] + upcoming == stream
  }

  ghost function Remaining(blocks: Blocks): Blocks
    requires blocks.Cons?
  {
    if StartsWithText(blocks) then AfterRun(blocks.rest) else blocks.rest
  }

  lemma NothingAfter(blocks: Blocks)
    ensures Flatten(blocks) + [] == Flatten(blocks)
    ensures Flatten(blocks) == [] <==> blocks.Nil?
  {
    if blocks.Cons? { assert FlattenBlock(blocks.first) != []; }
  }

  // ---------- one tree for each stream

  /** A stream in which no block begins. */
  predicate Ends(after: seq<Token>) {
    after == [] || !(Opening(after[0]) || after[0].LeafToken?)
  }

  lemma HeadOf(s: seq<Token>) returns (t: Token, later: seq<Token>)
    requires s != []
    ensures [t] + later == s
  {
    t, later := s[0], s[1..];
  }

  lemma {:induction false} SameBlocks(a: Blocks, b: Blocks, x: seq<Token>, y: seq<Token>)
    requires Ends(x) && Ends(y) && Flatten(a) + x == Flatten(b) + y
    ensures a == b && x == y
    decreases a
  {
    if a.Nil? {
      NilEnds(a, b, x, y);
    } else if b.Nil? {
      NilEnds(b, a, y, x);
    } else {
      assert FlattenBlock(a.first) != [] && Flatten(a) != [];
      var t, later := HeadOf(Flatten(a) + x);
      HeadAndTail(t, later, a, x);
      HeadAndTail(t, later, b, y);
      match a.first {
        case Plain(_) =>
        case Quote(body) =>
          SameBlocks(body, b.first.body, [BlockquoteEnd] + (Flatten(a.rest) + x),
            [BlockquoteEnd] + (Flatten(b.rest) + y));
          SameHead(BlockquoteEnd, Flatten(a.rest) + x, BlockquoteEnd, Flatten(b.rest) + y);
        case List(_, items) =>
          SameItems(items, b.first.items, Flatten(a.rest) + x, Flatten(b.rest) + y);
      }
      SameBlocks(a.rest, b.rest, x, y);
    }
  }

  lemma NilEnds(a: Blocks, b: Blocks, x: seq<Token>, y: seq<Token>)
    requires a.Nil? && Ends(x) && Flatten(a) + x == Flatten(b) + y
    ensures a == b && x == y
  {
    assert Flatten(a) + x == x;
    if b.Cons? {
      Assoc(FlattenBlock(b.first), Flatten(b.rest), y);
      var t, later := HeadOf(FlattenBlock(b.first) + (Flatten(b.rest) + y));
      CloseOrMore(t, later, a, x);
      CloseOrMore(t, later, b, y);
    } else {
      assert Flatten(b) + y == y;
    }
  }

  lemma {:induction false} SameItems(a: Items, b: Items, x: seq<Token>, y: seq<Token>)
    requires FlattenItems(a) + ([ListEnd] + x) == FlattenItems(b) + ([ListEnd] + y)
    ensures a == b && x == y
    decreases a
  {
    var t, later := HeadOf(FlattenItems(a) + ([ListEnd] + x));
    EndOrMore(t, later, a, x);
    EndOrMore(t, later, b, y);
    if a.Item? {
      var after, after1 := FlattenItems(a.rest) + ([ListEnd] + x), FlattenItems(b.rest) + ([ListEnd] + y);
      SameBlocks(a.body, b.body, [ItemEnd] + after, [ItemEnd] + after1);
      SameHead(ItemEnd, after, ItemEnd, after1);
      SameItems(a.rest, b.rest, x, y);
    }
  }

  /** No two trees have the same stream. */
  lemma FlattenInjective(a: Blocks, b: Blocks)
    requires Flatten(a) == Flatten(b)
    ensures a == b
  {
    NothingAfter(a);
    NothingAfter(b);
    SameBlocks(a, b, [], []);
  }

  /** The one tree a nested stream is the stream of. */
  ghost function TreeOf(tokens: seq<Token>): (blocks: Blocks)
    requires Nested(tokens, NoneOpen)
    ensures tokens == Flatten(blocks)
  {
    NestedIsTree(tokens);
    var blocks :| tokens == Flatten(blocks);
    blocks
  }

  lemma TreeOfStream(blocks: Blocks)
    ensures Nested(Flatten(blocks), NoneOpen) && TreeOf(Flatten(blocks)) == blocks
  {
    TreeIsNested(blocks);
    FlattenInjective(TreeOf(Flatten(blocks)), blocks);
  }

  class Parser {
    const style: Style
    var tokens: seq<Token>
    var token: Option<Token>

    constructor (style: Style)
      ensures this.style == style
    {
      this.style := style;
      tokens, token := [], None;
    }

    /** The tokens still to come, next first. */
    ghost function Upcoming(): seq<Token>
      reads `tokens
    {
      Reverse(tokens)
    }

    /** `next`: undefined once the tokens have run out. */
    method Next()
      modifies `tokens, `token
      ensures old(Upcoming()) == [] ==> token.None? && tokens == old(tokens)
      ensures old(Upcoming()) != [] ==>
        token.Some? && [token.value] + Upcoming() == old(Upcoming()) && |tokens| == |old(tokens)| - 1
    {
      if tokens == [] {
        token := None;
      } else {
        token := Some(tokens[|tokens| - 1]);
        tokens := tokens[..|tokens| - 1];
      }
    }

    method PeekIsText() returns (text: bool)
      ensures text <==> Upcoming() != [] && IsText(Upcoming()[0])
    {
      text := tokens != [] && IsText(tokens[|tokens| - 1]);
    }

    /** Joins the current text token with the text tokens that follow it. */
    method ParseText(ghost rest: Blocks, ghost after: seq<Token>) returns (out: string)
      requires token.Some? && IsText(token.value)
      requires Upcoming() == Flatten(rest) + after && Stops(after)
      modifies `tokens, `token
      ensures out == style.inline(TextRun(old(token.value.leaf.text), rest))
      ensures Upcoming() == Flatten(AfterRun(rest)) + after && |tokens| <= |old(tokens)|
    {
      var body := token.value.leaf.text;
      ghost var left := rest;
      FlattenTextHead(left, after);
      var more := PeekIsText();
      while more
        invariant Upcoming() == Flatten(left) + after && |tokens| <= |old(tokens)|
        invariant more <==> StartsWithText(left)
        invariant TextRun(body, left) == TextRun(old(token.value.leaf.text), rest) && AfterRun(left) == AfterRun(rest)
        decreases left
      {
        Next();
        HeadAndTail(token.value, Upcoming(), left, after);
        body := body + "\n" + token.value.leaf.text;
        left := left.rest;
        FlattenTextHead(left, after);
        more := PeekIsText();
      }
      out := style.inline(body);
    }

    /** The current token and what belongs to it. */
    method Tok(ghost blocks: Blocks, ghost after: seq<Token>) returns (out: string)
      requires token.Some? && [token.value] + Upcoming() == Flatten(blocks) + after
      requires blocks.Cons? && Stops(after)
      modifies `tokens, `token
      ensures StartsWithText(blocks) ==>
        && out == ParagraphHtml(style.inline(TextRun(blocks.first.leaf.text, blocks.rest)))
        && Upcoming() == Flatten(AfterRun(blocks.rest)) + after
      ensures !StartsWithText(blocks) ==>
        out == RenderBlock(blocks.first, style) && Upcoming() == Flatten(blocks.rest) + after
      ensures |tokens| <= |old(tokens)|
      decreases |tokens|, 1
    {
      ghost var more := Flatten(blocks.rest) + after;
      HeadAndTail(token.value, Upcoming(), blocks, after);
      match token.value {
        case LeafToken(leaf) =>
          if leaf.Text? {
            var text := ParseText(blocks.rest, after);
            out := ParagraphHtml(text);
          } else {
            out := RenderLeaf(leaf, style);
          }
        case BlockquoteStart =>
          var body := Body(BlockquoteEnd, false, blocks.first.body, more);
          out := QuoteHtml(body);
        case ListStart(ordered) =>
          var body := ListBody(blocks.first.items, more);
          out := ListHtml(body, ordered);
      }
    }

    /** Everything up to the closing token: the inside of a quote or of an item. */
    method Body(close: Token, tight: bool, ghost blocks: Blocks, ghost after: seq<Token>) returns (body: string)
      requires close == BlockquoteEnd || close == ItemEnd
      requires Upcoming() == Flatten(blocks) + ([close] + after)
      modifies `tokens, `token
      ensures body == Render(blocks, tight, style)
      ensures Upcoming() == after && |tokens| <= |old(tokens)|
      decreases |tokens|, 0
    {
      body := "";
      ghost var left, tail := blocks, [close] + after;
      ghost var whole := Render(blocks, tight, style);
      Next();
      while token.value != close
        invariant At(token, Upcoming(), Flatten(left) + tail)
        invariant Along(body, Render(left, tight, style), whole)
        invariant |tokens| < |old(tokens)|
        decreases |tokens|
      {
        CloseOrMore(token.value, Upcoming(), left, tail);
        var out := BodyStep(tight, left, tail);
        AlongNext(body, out, Render(Remaining(left), tight, style), whole);
        body, left := body + out, Remaining(left);
        Next();
      }
      CloseOrMore(token.value, Upcoming(), left, tail);
    }

    /** In a tight item a run of text is not made a paragraph. */
    method BodyStep(tight: bool, ghost blocks: Blocks, ghost after: seq<Token>) returns (out: string)
      requires At(token, Upcoming(), Flatten(blocks) + after)
      requires blocks.Cons? && Stops(after)
      modifies `tokens, `token
      ensures Render(blocks, tight, style) == out + Render(Remaining(blocks), tight, style)
      ensures Upcoming() == Flatten(Remaining(blocks)) + after && |tokens| <= |old(tokens)|
      decreases |tokens|, 2
    {
      if tight && IsText(token.value) {
        HeadAndTail(token.value, Upcoming(), blocks, after);
        out := ParseText(blocks.rest, after);
      } else {
        HeadAndTail(token.value, Upcoming(), blocks, after);
        out := Tok(blocks, after);
      }
      RenderStep(blocks, tight, style);
    }

    /** The items of a list, up to its end. */
    method ListBody(ghost items: Items, ghost after: seq<Token>) returns (body: string)
      requires Upcoming() == FlattenItems(items) + ([ListEnd] + after)
      modifies `tokens, `token
      ensures body == RenderItems(items, style)
      ensures Upcoming() == after && |tokens| <= |old(tokens)|
      decreases |tokens|, 0
    {
      body := "";
      ghost var left, tail := items, [ListEnd] + after;
      ghost var whole := RenderItems(items, style);
      Next();
      while token.value != ListEnd
        invariant At(token, Upcoming(), FlattenItems(left) + tail)
        invariant Along(body, RenderItems(left, style), whole)
        invariant |tokens| < |old(tokens)|
        decreases |tokens|
      {
        EndOrMore(token.value, Upcoming(), left, after);
        var content := Body(ItemEnd, token.value == ItemStart, left.body, FlattenItems(left.rest) + tail);
        AlongNext(body, ItemHtml(content), RenderItems(left.rest, style), whole);
        body, left := body + ItemHtml(content), left.rest;
        Next();
      }
      EndOrMore(token.value, Upcoming(), left, after);
    }

    /** On any well-nested stream: every token is consumed, none is missed, and
        the result is the rendering of the tree. */
    method Parse(src: seq<Token>) returns (out: string)
      requires Nested(src, NoneOpen)
      modifies `tokens, `token
      ensures out == Render(TreeOf(src), false, style)
      ensures tokens == [] && token == None
    {
      ghost var blocks := TreeOf(src);
      tokens := Reverse(src);
      ReverseTwice(src);
      out := "";
      ghost var left, whole := blocks, Render(blocks, false, style);
      NothingAfter(blocks);
      Next();
      while token.Some?
        invariant token.None? ==> left == Nil && tokens == []
        invariant token.Some? ==> At(token, Upcoming(), Flatten(left) + [])
        invariant Along(out, Render(left, false, style), whole)
        decreases token.Some?, |tokens|
      {
        CloseOrMore(token.value, Upcoming(), left, []);
        var html := BodyStep(false, left, []);
        AlongNext(out, html, Render(Remaining(left), false, style), whole);
        out, left := out + html, Remaining(left);
        NothingAfter(left);
        Next();
      }
    }
  }
}
