/** The block lexer of marked, over matchers given from outside, and the whole
    way from text to HTML. */
module MarkedLexer {
  import opened Marked
  import opened Prelude
  import opened Splitting
  import MarkedParser

  datatype Link = Link(href: string, title: Option<string>)

  type Links = map<string, Link>

  datatype Match = Match(length: nat, leaf: Leaf)

  /** The block grammar: each matcher says how much of the text it takes, and
      what it makes of it. */
  datatype Rules = Rules(
    blankLines: string -> string,               // empties lines of spaces
    newline: string -> nat,
    code: string -> Option<Match>,
    fences: string -> Option<Match>,
    heading: string -> Option<Match>,
    nptable: string -> Option<Match>,
    lheading: string -> Option<Match>,
    hr: string -> Option<Match>,
    blockquote: string -> Option<(nat, string)>,          // and the text without its marks
    list: string -> Option<(nat, string, seq<string>)>,   // the first bullet, and the items
    html: string -> Option<Match>,
    def: string -> Option<(nat, string, Link)>,
    table: string -> Option<Match>,
    paragraph: string -> Option<Match>,
    text: string -> Option<Match>,
    bullet: string -> string,                   // of an item
    content: string -> string,                  // an item without its bullet, outdented
    blankLineInside: string -> bool,
    smartLists: bool)

  /** What the rules, tried in order, say to do next. */
  datatype Step =
    | Push(length: nat, leaf: Leaf)
    | Enter(length: nat, inner: string)
    | Itemize(length: nat, bullet: string, items: seq<string>)
    | Define(length: nat, name: string, link: Link)
    | Stuck

  function Next(r: Rules, src: string, top: bool, bq: bool): Step {
    if r.code(src).Some? then Push(r.code(src).value.length, r.code(src).value.leaf)
    else if r.fences(src).Some? then Push(r.fences(src).value.length, r.fences(src).value.leaf)
    else if r.heading(src).Some? then Push(r.heading(src).value.length, r.heading(src).value.leaf)
    else if top && r.nptable(src).Some? then Push(r.nptable(src).value.length, r.nptable(src).value.leaf)
    else if r.lheading(src).Some? then Push(r.lheading(src).value.length, r.lheading(src).value.leaf)
    else if r.hr(src).Some? then Push(r.hr(src).value.length, r.hr(src).value.leaf)
    else if r.blockquote(src).Some? then Enter(r.blockquote(src).value.0, r.blockquote(src).value.1)
    else if r.list(src).Some? then Itemize(r.list(src).value.0, r.list(src).value.1, r.list(src).value.2)
    else if r.html(src).Some? then Push(r.html(src).value.length, r.html(src).value.leaf)
    else if !bq && top && r.def(src).Some? then Define(r.def(src).value.0, r.def(src).value.1, r.def(src).value.2)
    else if top && r.table(src).Some? then Push(r.table(src).value.length, r.table(src).value.leaf)
    else if top && r.paragraph(src).Some? then Push(r.paragraph(src).value.length, r.paragraph(src).value.leaf)
    else if r.text(src).Some? then Push(r.text(src).value.length, r.text(src).value.leaf)
    else Stuck
  }

  ghost predicate Shorter(r: Rules, items: seq<string>, bound: nat) {
    && 0 < bound
    && (forall i | 0 <= i < |items| :: |r.content(items[i])| < bound)
    && (forall i: nat | 0 < i < |items| :: |JoinFrom(items, "\n", i)| < bound)
  }

  /** Every match takes some of the text, and what is lexed again is shorter
      than the match it came from. */
  ghost predicate Advances(r: Rules, src: string, step: Step) {
    match step
    case Push(n, _) => 0 < n <= |src|
    case Enter(n, inner) => |inner| < n <= |src|
    case Itemize(n, _, items) => n <= |src| && Shorter(r, items, n)
    case Define(n, _, _) => 0 < n <= |src|
    case Stuck => true
  }

  ghost predicate Progress(r: Rules) {
    && (forall s: string :: |r.blankLines(s)| <= |s|)
    && (forall s: string :: r.newline(s) <= |s|)
    && (forall s: string, top: bool, bq: bool :: Advances(r, s, Next(r, s, top, bq)))
  }

  // ---------- the tree of a text

  type Result = Option<(Blocks, Links)>

  function Prepend(b: Block, rest: Result): Result {
    if rest.None? then None else Some((Cons(b, rest.value.0), rest.value.1))
  }

  /** The items of a list, the links defined so far, and the text after the list. */
  type ListResult = Option<(Items, Links, string)>

  function PrependItem(loose: bool, body: Blocks, rest: ListResult): ListResult {
    if rest.None? then None else Some((Item(loose, body, rest.value.0), rest.value.1, rest.value.2))
  }

  /** The tree of a text whose lines of spaces are already empty, and the links
      defined in it; no result where the lexer would loop forever and throws. */
  function Lex(r: Rules, src: string, top: bool, bq: bool, links: Links): Result
    requires Progress(r)
    decreases |src|, 3, 0
  {
    if src == "" then Some((Nil, links)) else
      var n := r.newline(src);
      var rest := LexBlock(r, src[n..], top, bq, links);
      if n > 1 then Prepend(Plain(Space), rest) else rest
  }

  function LexBlock(r: Rules, src: string, top: bool, bq: bool, links: Links): Result
    requires Progress(r)
    decreases |src|, 2, 0
  {
    var step := Next(r, src, top, bq);
    assert Advances(r, src, step);
    match step
    case Push(n, leaf) => Prepend(Plain(leaf), Lex(r, src[n..], top, bq, links))
    case Enter(n, inner) =>
      var quoted := Lex(r, r.blankLines(inner), top, true, links);
      if quoted.None? then None
      else Prepend(Quote(quoted.value.0), Lex(r, src[n..], top, bq, quoted.value.1))
    case Itemize(n, bullet, items) =>
      var list := LexItems(r, items, 0, bullet, false, bq, links, src[n..], n);
      if list.None? then None
      else Prepend(List(|bullet| > 1, list.value.0), Lex(r, list.value.2, top, bq, list.value.1))
    case Define(n, name, link) => Lex(r, src[n..], top, bq, links[name := link])
    case Stuck => if src == "" then Some((Nil, links)) else None
  }

  /** With smart lists, a bullet of another kind ends the list: what is left is
      lexed again after it. */
  predicate Backpedals(r: Rules, items: seq<string>, i: nat, bullet: string)
    requires i < |items|
  {
    r.smartLists && i + 1 < |items| &&
    (var b := r.bullet(items[i + 1]); bullet != b && !(|bullet| > 1 && |b| > 1))
  }

  predicate EndsWithNewline(s: string) {
    s != "" && s[|s| - 1] == '\n'
  }

  /** The items from `i` on, and the text that follows the list. */
  function LexItems(r: Rules, items: seq<string>, i: nat, bullet: string, next: bool, bq: bool, links: Links,
                    rest: string,
                    bound: nat): (result: ListResult)
    requires Progress(r) && i <= |items| && Shorter(r, items, bound)
    ensures result.Some? ==> |result.value.2| < bound + |rest|
    decreases bound, 1, |items| - i
  {
    if i == |items| then Some((NoItems, links, rest))
    else
      var item := r.content(items[i]);
      var last := i + 1 == |items| || Backpedals(r, items, i, bullet);
      var ends := EndsWithNewline(item);
      var loose := next || r.blankLineInside(item) || (!last && ends);
      var body := Lex(r, r.blankLines(item), false, bq, links);
      if body.None? then None
      else if last then
        Some((Item(loose, body.value.0, NoItems), body.value.1,
              if i + 1 < |items| then JoinFrom(items, "\n", i + 1) + rest else rest))
      else PrependItem(loose, body.value.0, LexItems(r, items, i + 1, bullet, ends, bq, body.value.1, rest, bound))
  }

  // ---------- what the tree is like

  /** Whatever is left after the newlines is at least text. */
  ghost predicate Complete(r: Rules) {
    forall s: string | s != "" && r.newline(s) < |s| :: r.text(s[r.newline(s)..]).Some?
  }

  /** The lexer never throws when text is matched wherever newlines are not. */
  lemma {:induction false} NeverThrows(r: Rules, src: string, top: bool, bq: bool, links: Links)
    requires Progress(r) && Complete(r)
    ensures Lex(r, src, top, bq, links).Some?
    decreases |src|, 3, 0
  {
    if src != "" {
      BlockNeverThrows(r, src[r.newline(src)..], top, bq, links);
    }
  }

  lemma {:induction false} BlockNeverThrows(r: Rules, src: string, top: bool, bq: bool, links: Links)
    requires Progress(r) && Complete(r) && (src == "" || r.text(src).Some?)
    ensures LexBlock(r, src, top, bq, links).Some?
    decreases |src|, 2, 0
  {
    var step := Next(r, src, top, bq);
    assert Advances(r, src, step);
    match step
    case Push(n, _) => NeverThrows(r, src[n..], top, bq, links);
    case Enter(n, inner) =>
      NeverThrows(r, r.blankLines(inner), top, true, links);
      NeverThrows(r, src[n..], top, bq, Lex(r, r.blankLines(inner), top, true, links).value.1);
    case Itemize(n, bullet, items) =>
      ListNeverThrows(r, items, bullet, top, bq, links, src[n..], n);
    case Define(n, name, link) => NeverThrows(r, src[n..], top, bq, links[name := link]);
    case Stuck =>
  }

  lemma {:induction false} ListNeverThrows(r: Rules, items: seq<string>, bullet: string, top: bool, bq: bool,
                                           links: Links,
                                           rest: string, bound: nat)
    requires Progress(r) && Complete(r) && Shorter(r, items, bound)
    ensures var list := LexItems(r, items, 0, bullet, false, bq, links, rest, bound);
            list.Some? && Lex(r, list.value.2, top, bq, list.value.1).Some?
    decreases bound + |rest|, 1, |items| + 1
  {
    ItemsNeverThrow(r, items, 0, bullet, false, bq, links, rest, bound);
    var list := LexItems(r, items, 0, bullet, false, bq, links, rest, bound).value;
    NeverThrows(r, list.2, top, bq, list.1);
  }

  lemma {:induction false} ItemsNeverThrow(r: Rules, items: seq<string>, i: nat, bullet: string, next: bool, bq: bool,
                                           links: Links,
                                           rest: string, bound: nat)
    requires Progress(r) && Complete(r) && i <= |items| && Shorter(r, items, bound)
    ensures LexItems(r, items, i, bullet, next, bq, links, rest, bound).Some?
    decreases bound, 1, |items| - i
  {
    if i < |items| {
      var item := r.content(items[i]);
      NeverThrows(r, r.blankLines(item), false, bq, links);
      var links1 := Lex(r, r.blankLines(item), false, bq, links).value.1;
      ItemsNeverThrow(r, items, i + 1, bullet, EndsWithNewline(item), bq, links1, rest, bound);
    }
  }

  /** Links are defined at the top level only: neither in a quote nor in an item. */
  lemma {:induction false} LinksAtTopOnly(r: Rules, src: string, top: bool, bq: bool, links: Links, lexed: Result)
    requires Progress(r) && (bq || !top) && lexed == Lex(r, src, top, bq, links)
    ensures lexed.Some? ==> lexed.value.1 == links
    decreases |src|, 3, 0
  {
    if src != "" {
      var after := src[r.newline(src)..];
      BlockDefinesNothing(r, after, top, bq, links, LexBlock(r, after, top, bq, links));
    }
  }

  lemma {:induction false} BlockDefinesNothing(r: Rules, src: string, top: bool, bq: bool, links: Links, lexed: Result)
    requires Progress(r) && (bq || !top) && lexed == LexBlock(r, src, top, bq, links)
    ensures lexed.Some? ==> lexed.value.1 == links
    decreases |src|, 2, 0
  {
    var step := Next(r, src, top, bq);
    assert Advances(r, src, step);
    match step
    case Push(n, _) => LinksAtTopOnly(r, src[n..], top, bq, links, Lex(r, src[n..], top, bq, links));
    case Enter(n, inner) =>
      LinksAtTopOnly(r, r.blankLines(inner), top, true, links, Lex(r, r.blankLines(inner), top, true, links));
      LinksAtTopOnly(r, src[n..], top, bq, links, Lex(r, src[n..], top, bq, links));
    case Itemize(n, bullet, items) =>
      var list := LexItems(r, items, 0, bullet, false, bq, links, src[n..], n);
      ItemsDefineNothing(r, items, 0, bullet, false, bq, links, src[n..], n, list);
      if list.Some? { LinksAtTopOnly(r, list.value.2, top, bq, links, Lex(r, list.value.2, top, bq, links)); }
    case Stuck =>
  }

  lemma {:induction false} ItemsDefineNothing(r: Rules, items: seq<string>, i: nat, bullet: string, next: bool,
                                              bq: bool,
                                              links: Links, rest: string, bound: nat, list: ListResult)
    requires Progress(r) && i <= |items| && Shorter(r, items, bound)
    requires list == LexItems(r, items, i, bullet, next, bq, links, rest, bound)
    ensures list.Some? ==> list.value.1 == links
    decreases bound, 1, |items| - i
  {
    if i < |items| {
      var item := r.content(items[i]);
      LinksAtTopOnly(r, r.blankLines(item), false, bq, links, Lex(r, r.blankLines(item), false, bq, links));
      ItemsDefineNothing(r, items, i + 1, bullet, EndsWithNewline(item), bq, links, rest, bound,
                         LexItems(r, items, i + 1, bullet, EndsWithNewline(item), bq, links, rest, bound));
    }
  }

  function Count(items: Items): nat {
    match items case NoItems => 0 case Item(_, _, rest) => 1 + Count(rest)
  }

  /** The end of a list that has reached item `i`: a bullet of another kind, or the last item. */
  function EndOfList(r: Rules, items: seq<string>, i: nat, bullet: string): (end: nat)
    requires i < |items|
    ensures i < end <= |items|
    ensures forall j: nat | i <= j < end - 1 :: !Backpedals(r, items, j, bullet)
    ensures end < |items| ==> Backpedals(r, items, end - 1, bullet)
    decreases |items| - i
  {
    if i + 1 == |items| || Backpedals(r, items, i, bullet) then i + 1 else EndOfList(r, items, i + 1, bullet)
  }

  /** No item is lost: a list takes the items up to its end, and puts those
      after it, if any, back in front of the text. */
  lemma {:induction false} ItemsTaken(r: Rules, items: seq<string>, i: nat, bullet: string, next: bool, bq: bool,
                                      links: Links,
                                      rest: string, bound: nat)
    requires Progress(r) && i < |items| && Shorter(r, items, bound)
    requires LexItems(r, items, i, bullet, next, bq, links, rest, bound).Some?
    ensures var list := LexItems(r, items, i, bullet, next, bq, links, rest, bound).value;
            var end := EndOfList(r, items, i, bullet);
            Count(list.0) == end - i && list.2 == if end < |items| then JoinFrom(items, "\n", end) + rest else rest
    decreases |items| - i
  {
    if i + 1 < |items| && !Backpedals(r, items, i, bullet) {
      var item := r.content(items[i]);
      var links1 := Lex(r, r.blankLines(item), false, bq, links).value.1;
      ItemsTaken(r, items, i + 1, bullet, EndsWithNewline(item), bq, links1, rest, bound);
    }
  }

  lemma FirstItem(r: Rules, items: seq<string>, i: nat, bullet: string, next: bool, bq: bool, links: Links,
                  rest: string, bound: nat)
    requires Progress(r) && i < |items| && Shorter(r, items, bound)
    requires LexItems(r, items, i, bullet, next, bq, links, rest, bound).Some?
    ensures var list, item := LexItems(r, items, i, bullet, next, bq, links, rest, bound).value.0, r.content(items[i]);
      list.Item? && (list.loose <==>
        (next || r.blankLineInside(item) || (i + 1 < EndOfList(r, items, i, bullet) && EndsWithNewline(item))))
  {
  }

  lemma OtherItems(r: Rules, items: seq<string>, i: nat, bullet: string, next: bool, bq: bool, links: Links,
                   rest: string, bound: nat)
    requires Progress(r) && i < |items| && Shorter(r, items, bound)
    requires LexItems(r, items, i, bullet, next, bq, links, rest, bound).Some?
    requires Count(LexItems(r, items, i, bullet, next, bq, links, rest, bound).value.0) > 1
    ensures i + 1 < |items| && EndOfList(r, items, i, bullet) == EndOfList(r, items, i + 1, bullet)
    ensures var item := r.content(items[i]);
      var body := Lex(r, r.blankLines(item), false, bq, links);
      body.Some? &&
      var more := LexItems(r, items, i + 1, bullet, EndsWithNewline(item), bq, body.value.1, rest, bound);
      more.Some? && LexItems(r, items, i, bullet, next, bq, links, rest, bound).value.0.rest == more.value.0
  {
  }

  function LooseAt(items: Items, k: nat): bool
    requires k < Count(items)
  {
    if k == 0 then items.loose else LooseAt(items.rest, k - 1)
  }

  /** An item is loose if and only if there is a blank line in it, or between it
      and the item of the list before it, or between it and the one after it. */
  lemma {:induction false} LooseIff(r: Rules, items: seq<string>, i: nat, bullet: string, next: bool, bq: bool,
                                    links: Links,
                                    rest: string, bound: nat, k: nat)
    requires Progress(r) && i < |items| && Shorter(r, items, bound)
    requires LexItems(r, items, i, bullet, next, bq, links, rest, bound).Some?
    requires k < Count(LexItems(r, items, i, bullet, next, bq, links, rest, bound).value.0) && i + k < |items|
    ensures LooseAt(LexItems(r, items, i, bullet, next, bq, links, rest, bound).value.0, k) <==>
      (|| r.blankLineInside(r.content(items[i + k]))
       || (if k == 0 then next else EndsWithNewline(r.content(items[i + k - 1])))
       || (i + k + 1 < EndOfList(r, items, i, bullet) && EndsWithNewline(r.content(items[i + k]))))
    decreases k
  {
    if k == 0 {
      FirstItem(r, items, i, bullet, next, bq, links, rest, bound);
    } else {
      var item := r.content(items[i]);
      var links1 := Lex(r, r.blankLines(item), false, bq, links).value.1;
      OtherItems(r, items, i, bullet, next, bq, links, rest, bound);
      LooseIff(r, items, i + 1, bullet, EndsWithNewline(item), bq, links1, rest, bound, k - 1);
    }
  }

  // ---------- the lexer

  /** What has been pushed so far and what is still to be lexed make up the whole. */
  ghost predicate Extends(whole: Result, before: seq<Token>, part: Result, tokens: seq<Token>) {
    && (whole.Some? <==> part.Some?)
    && (whole.Some? ==>
         before + Flatten(whole.value.0) == tokens + Flatten(part.value.0) && whole.value.1 == part.value.1)
  }

  lemma ExtendsBlock(whole: Result, before: seq<Token>, b: Block, part: Result, tokens: seq<Token>)
    requires Extends(whole, before, Prepend(b, part), tokens)
    ensures Extends(whole, before, part, tokens + FlattenBlock(b))
  {
    if part.Some? { Assoc(tokens, FlattenBlock(b), Flatten(part.value.0)); }
  }

  lemma ExtendsNothing(whole: Result, before: seq<Token>, part: Result, tokens: seq<Token>)
    requires Extends(whole, before, part, tokens) && part.Some? && part.value.0 == Nil
    ensures whole.Some? && tokens == before + Flatten(whole.value.0) && part.value.1 == whole.value.1
  {
    assert tokens + Flatten(Nil) == tokens;
  }

  lemma ExtendsAll(whole: Result, tokens: seq<Token>)
    ensures Extends(whole, tokens, whole, tokens)
  {
  }

  /** The same for the items of one list. */
  ghost predicate ItemsExtend(whole: ListResult, before: seq<Token>, part: ListResult, tokens: seq<Token>) {
    && (whole.Some? <==> part.Some?)
    && (whole.Some? ==>
         && before + FlattenItems(whole.value.0) == tokens + FlattenItems(part.value.0)
         && whole.value.1 == part.value.1 && whole.value.2 == part.value.2)
  }

  lemma ItemsExtendItem(whole: ListResult, before: seq<Token>, loose: bool, body: Blocks, part: ListResult,
                        tokens: seq<Token>)
    requires ItemsExtend(whole, before, PrependItem(loose, body, part), tokens)
    ensures ItemsExtend(whole, before, part,
      tokens + [if loose then LooseItemStart else ItemStart] + Flatten(body) + [ItemEnd])
  {
    if part.Some? {
      var start := if loose then LooseItemStart else ItemStart;
      Assoc(tokens, [start] + Flatten(body) + [ItemEnd], FlattenItems(part.value.0));
      Wrapped(tokens, start, Flatten(body), ItemEnd);
    }
  }

  lemma Wrapped(before: seq<Token>, open: Token, body: seq<Token>, close: Token)
    ensures before + [open] + body + [close] == before + ([open] + body + [close])
  {
  }

  class Lexer {
    const rules: Rules
    var tokens: seq<Token>
    var links: Links

    constructor (rules: Rules)
      ensures this.rules == rules && tokens == [] && links == map[]
    {
      this.rules := rules;
      tokens, links := [], map[];
    }

    method Emit(t: Token)
      modifies `tokens
      ensures tokens == old(tokens) + [t]
    {
      tokens := tokens + [t];
    }

    /** `token`: pushes the tokens of a text; fails where the original throws. */
    method Token(text: string, top: bool, bq: bool) returns (ok: bool)
      requires Progress(rules)
      modifies this
      ensures ok <==> Lex(rules, rules.blankLines(text), top, bq, old(links)).Some?
      ensures ok ==>
        && tokens == old(tokens) + Flatten(Lex(rules, rules.blankLines(text), top, bq, old(links)).value.0)
        && links == Lex(rules, rules.blankLines(text), top, bq, old(links)).value.1
      decreases |text|, 3, 0
    {
      var src := rules.blankLines(text);
      ghost var whole, before := Lex(rules, src, top, bq, links), tokens;
      ExtendsAll(whole, before);
      while src != ""
        invariant |src| <= |text|
        invariant Extends(whole, before, Lex(rules, src, top, bq, links), tokens)
        decreases |src|
      {
        var n := rules.newline(src);
        src := src[n..];
        if n > 1 {
          ExtendsBlock(whole, before, Plain(Space), LexBlock(rules, src, top, bq, links), tokens);
          Emit(LeafToken(Space));
        }
        ok, src := NextBlock(src, top, bq, whole, before);
        if !ok { return; }
      }
      ok := true;
      ExtendsNothing(whole, before, Some((Nil, links)), tokens);
    }

    /** One round of the loop, after the newlines. */
    method NextBlock(src: string, top: bool, bq: bool, ghost whole: Result, ghost before: seq<Token>)
      returns (ok: bool, rest: string)
      requires Progress(rules)
      requires Extends(whole, before, LexBlock(rules, src, top, bq, links), tokens)
      modifies this
      ensures !ok ==> whole.None?
      ensures ok ==> Extends(whole, before, Lex(rules, rest, top, bq, links), tokens)
      ensures ok ==> |rest| < |src| || rest == src == ""
      decreases |src|, 2, 0
    {
      var step := Next(rules, src, top, bq);
      assert Advances(rules, src, step);
      ok, rest := true, src;
      match step {
        case Push(n, leaf) =>
          rest := src[n..];
          ExtendsBlock(whole, before, Plain(leaf), Lex(rules, rest, top, bq, links), tokens);
          Emit(LeafToken(leaf));
        case Enter(n, inner) =>
          rest := src[n..];
          ghost var t0, quoted := tokens, Lex(rules, rules.blankLines(inner), top, true, links);
          ok := Quotation(inner, top);
          if ok { ExtendsBlock(whole, before, Quote(quoted.value.0), Lex(rules, rest, top, bq, links), t0); }
        case Itemize(n, bullet, items) =>
          ghost var t0, list := tokens, LexItems(rules, items, 0, bullet, false, bq, links, src[n..], n);
          ok, rest := Listing(bullet, items, bq, src[n..], n);
          if ok { ExtendsBlock(whole, before, List(|bullet| > 1, list.value.0), Lex(rules, rest, top, bq, links), t0); }
        case Define(n, name, link) =>
          links := links[name := link];
          rest := src[n..];
        case Stuck => ok := src == "";
      }
    }

    method Quotation(inner: string, top: bool) returns (ok: bool)
      requires Progress(rules)
      modifies this
      ensures ok <==> Lex(rules, rules.blankLines(inner), top, true, old(links)).Some?
      ensures ok ==> var quoted := Lex(rules, rules.blankLines(inner), top, true, old(links)).value;
        tokens == old(tokens) + FlattenBlock(Quote(quoted.0)) && links == quoted.1
      decreases |inner|, 4, 0
    {
      ghost var body := Lex(rules, rules.blankLines(inner), top, true, links);
      ghost var before := tokens;
      Emit(BlockquoteStart);
      ok := Token(inner, top, true);
      if ok {
        Emit(BlockquoteEnd);
        Wrapped(before, BlockquoteStart, Flatten(body.value.0), BlockquoteEnd);
      }
    }

    method Listing(bullet: string, items: seq<string>, bq: bool, rest: string, ghost bound: nat)
      returns (ok: bool, after: string)
      requires Progress(rules) && Shorter(rules, items, bound)
      modifies this
      ensures ok <==> LexItems(rules, items, 0, bullet, false, bq, old(links), rest, bound).Some?
      ensures ok ==> var list := LexItems(rules, items, 0, bullet, false, bq, old(links), rest, bound).value;
        tokens == old(tokens) + FlattenBlock(List(|bullet| > 1, list.0)) && links == list.1 && after == list.2
      decreases bound, 1, 1
    {
      ghost var list := LexItems(rules, items, 0, bullet, false, bq, links, rest, bound);
      ghost var before := tokens;
      Emit(ListStart(|bullet| > 1));
      ok, after := ListItems(bullet, items, bq, rest, bound);
      if ok {
        Emit(ListEnd);
        Wrapped(before, ListStart(|bullet| > 1), FlattenItems(list.value.0), ListEnd);
      }
    }

    method PushItem(item: string, loose: bool, bq: bool) returns (ok: bool)
      requires Progress(rules)
      modifies this
      ensures ok <==> Lex(rules, rules.blankLines(item), false, bq, old(links)).Some?
      ensures ok ==> var body := Lex(rules, rules.blankLines(item), false, bq, old(links)).value;
        && tokens == old(tokens) + [if loose then LooseItemStart else ItemStart] + Flatten(body.0) + [ItemEnd]
        && links == body.1
      decreases |item|, 4, 0
    {
      Emit(if loose then LooseItemStart else ItemStart);
      ok := Token(item, false, bq);
      if ok { Emit(ItemEnd); }
    }

    /** The loop over the items of a list. */
    method ListItems(bullet: string, items: seq<string>, bq: bool, rest: string, ghost bound: nat)
      returns (ok: bool, after: string)
      requires Progress(rules) && Shorter(rules, items, bound)
      modifies this
      ensures ok <==> LexItems(rules, items, 0, bullet, false, bq, old(links), rest, bound).Some?
      ensures ok ==> var list := LexItems(rules, items, 0, bullet, false, bq, old(links), rest, bound).value;
        tokens == old(tokens) + FlattenItems(list.0) && links == list.1 && after == list.2
      decreases bound, 1, 0
    {
      ghost var whole := LexItems(rules, items, 0, bullet, false, bq, links, rest, bound);
      var i, next := 0, false;
      after := rest;
      ok := true;
      while i < |items|
        invariant 0 <= i <= |items|
        invariant ItemsExtend(whole, old(tokens),
                              LexItems(rules, items, i, bullet, next, bq, links, after, bound), tokens)
        invariant ok
        decreases |items| - i
      {
        var item := rules.content(items[i]);
        ghost var l0, t0 := links, tokens;
        ghost var body := Lex(rules, rules.blankLines(item), false, bq, links);
        var last := i + 1 == |items|;
        if Backpedals(rules, items, i, bullet) {
          after := JoinFrom(items, "\n", i + 1) + after;
          last := true;
        }
        var loose := next || rules.blankLineInside(item);
        if !last {
          next := EndsWithNewline(item);
          if !loose { loose := next; }
        }
        ok := PushItem(item, loose, bq);
        if !ok { return; }
        i := if last then |items| else i + 1;
        ItemsExtendItem(whole, old(tokens), loose, body.value.0,
          LexItems(rules, items, i, bullet, next, bq, links, after, bound), t0);
      }
      assert tokens + FlattenItems(NoItems) == tokens;
    }
  }

  /** From text to HTML: the stream is well nested, the parser consumes all of
      it, and the result is the HTML of the text's tree. */
  method Compile(text: string, rules: Rules, style: Style) returns (html: Option<string>)
    requires Progress(rules)
    ensures html ==
      var tree := Lex(rules, rules.blankLines(text), true, false, map[]);
      if tree.None? then None else Some(Render(tree.value.0, false, style))
    ensures Complete(rules) ==> html.Some?
  {
    var lexer := new Lexer(rules);
    var ok := lexer.Token(text, true, false);
    if Complete(rules) { NeverThrows(rules, rules.blankLines(text), true, false, map[]); }
    if !ok { return None; }
    ghost var blocks := Lex(rules, rules.blankLines(text), true, false, map[]).value.0;
    assert [] + Flatten(blocks) == Flatten(blocks);
    var parser := new MarkedParser.Parser(style);
    MarkedParser.TreeOfStream(blocks);
    var out := parser.Parse(lexer.tokens);
    html := Some(out);
  }
}
