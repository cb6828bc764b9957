/** The order of the block rules, stated of the tree and of the tokens. */
module MarkedLaws {
  import opened Marked
  import opened MarkedLexer
  import opened Prelude
  import opened Splitting

  datatype Rule =
    | Code | Fences | Heading | Nptable | Lheading | Hr | Blockquote | List | Html | Def | Table | Paragraph | Text

  function Rank(rule: Rule): nat {
    match rule
    case Code => 1
    case Fences => 2
    case Heading => 3
    case Nptable => 4
    case Lheading => 5
    case Hr => 6
    case Blockquote => 7
    case List => 8
    case Html => 9
    case Def => 10
    case Table => 11
    case Paragraph => 12
    case Text => 13
  }

  /** Tables, paragraphs and definitions only at the top, and definitions not in quotes. */
  predicate Allowed(rule: Rule, top: bool, bq: bool) {
    && (rule.Nptable? || rule.Table? || rule.Paragraph? ==> top)
    && (rule.Def? ==> top && !bq)
  }

  predicate Matches(r: Rules, rule: Rule, src: string) {
    match rule
    case Code => r.code(src).Some?
    case Fences => r.fences(src).Some?
    case Heading => r.heading(src).Some?
    case Nptable => r.nptable(src).Some?
    case Lheading => r.lheading(src).Some?
    case Hr => r.hr(src).Some?
    case Blockquote => r.blockquote(src).Some?
    case List => r.list(src).Some?
    case Html => r.html(src).Some?
    case Def => r.def(src).Some?
    case Table => r.table(src).Some?
    case Paragraph => r.paragraph(src).Some?
    case Text => r.text(src).Some?
  }

  ghost predicate Applies(r: Rules, rule: Rule, src: string, top: bool, bq: bool) {
    Allowed(rule, top, bq) && Matches(r, rule, src)
  }

  /** The rule applies, and none of a lower rank does. */
  ghost predicate First(r: Rules, rule: Rule, src: string, top: bool, bq: bool) {
    Applies(r, rule, src, top, bq) && forall other: Rule | Rank(other) < Rank(rule) :: !Applies(r, other, src, top, bq)
  }

  predicate MakesLeaf(rule: Rule) {
    !rule.Blockquote? && !rule.List? && !rule.Def?
  }

  function MatchOf(r: Rules, rule: Rule, src: string): Match
    requires MakesLeaf(rule) && Matches(r, rule, src)
  {
    match rule
    case Code => r.code(src).value
    case Fences => r.fences(src).value
    case Heading => r.heading(src).value
    case Nptable => r.nptable(src).value
    case Lheading => r.lheading(src).value
    case Hr => r.hr(src).value
    case Html => r.html(src).value
    case Table => r.table(src).value
    case Paragraph => r.paragraph(src).value
    case Text => r.text(src).value
  }

  /** What the first rule that applies says is what is done. */
  lemma NextIsFirst(r: Rules, rule: Rule, src: string, top: bool, bq: bool)
    requires First(r, rule, src, top, bq)
    ensures MakesLeaf(rule) ==>
      Next(r, src, top, bq) == Push(MatchOf(r, rule, src).length, MatchOf(r, rule, src).leaf)
    ensures rule.Blockquote? ==> Next(r, src, top, bq) == Enter(r.blockquote(src).value.0, r.blockquote(src).value.1)
    ensures rule.List? ==>
      Next(r, src, top, bq) == Itemize(r.list(src).value.0, r.list(src).value.1, r.list(src).value.2)
    ensures rule.Def? ==>
      Next(r, src, top, bq) == Define(r.def(src).value.0, r.def(src).value.1, r.def(src).value.2)
  {
    forall other: Rule | Rank(other) < Rank(rule) ensures !(Allowed(other, top, bq) && Matches(r, other, src)) {
      assert !Applies(r, other, src, top, bq);
    }
    LowerRanks(r, rule, src, top, bq);
  }

  /** The same, rule by rule. */
  lemma LowerRanks(r: Rules, rule: Rule, src: string, top: bool, bq: bool)
    requires forall other: Rule | Rank(other) < Rank(rule) :: !(Allowed(other, top, bq) && Matches(r, other, src))
    ensures Rank(rule) > 1 ==> r.code(src).None?
    ensures Rank(rule) > 2 ==> r.fences(src).None?
    ensures Rank(rule) > 3 ==> r.heading(src).None?
    ensures Rank(rule) > 4 && top ==> r.nptable(src).None?
    ensures Rank(rule) > 5 ==> r.lheading(src).None?
    ensures Rank(rule) > 6 ==> r.hr(src).None?
    ensures Rank(rule) > 7 ==> r.blockquote(src).None?
    ensures Rank(rule) > 8 ==> r.list(src).None?
    ensures Rank(rule) > 9 ==> r.html(src).None?
    ensures Rank(rule) > 10 && top && !bq ==> r.def(src).None?
    ensures Rank(rule) > 11 && top ==> r.table(src).None?
    ensures Rank(rule) > 12 && top ==> r.paragraph(src).None?
  {
    assert Rank(Code) == 1 && Rank(Fences) == 2 && Rank(Rule.Heading) == 3 && Rank(Nptable) == 4;
    assert Rank(Lheading) == 5 && Rank(Rule.Hr) == 6 && Rank(Blockquote) == 7 && Rank(Rule.List) == 8;
    assert Rank(Rule.Html) == 9 && Rank(Def) == 10;
    assert Rank(Rule.Table) == 11 && Rank(Rule.Paragraph) == 12;
  }

  // ---------- the tree

  /** The blocks of a text behind the newlines it begins with, which are one
      block themselves if there are several. */
  ghost predicate BehindNewlines(r: Rules, src: string, lexed: Blocks, blocks: Blocks) {
    if r.newline(src) > 1 then lexed == Cons(Plain(Space), blocks) else lexed == blocks
  }

  /** What the text behind the newlines begins with is the block of the first
      rule that applies to it, and what follows is the tree of what is left. */
  lemma FirstBlock(r: Rules, src: string, top: bool, bq: bool, links: Links, rule: Rule) returns (blocks: Blocks)
    requires Progress(r) && src != "" && Lex(r, src, top, bq, links).Some?
    requires First(r, rule, src[r.newline(src)..], top, bq)
    ensures BehindNewlines(r, src, Lex(r, src, top, bq, links).value.0, blocks)
    ensures var text := src[r.newline(src)..];
      && (MakesLeaf(rule) ==>
            var found := MatchOf(r, rule, text);
            found.length <= |text| && blocks.Cons? && blocks.first == Plain(found.leaf)
            && Lex(r, text[found.length..], top, bq, links).Some?
            && blocks.rest == Lex(r, text[found.length..], top, bq, links).value.0)
      && (rule.Blockquote? ==>
            var inner := Lex(r, r.blankLines(r.blockquote(text).value.1), top, true, links);
            inner.Some? && blocks.Cons? && blocks.first == Quote(inner.value.0))
      && (rule.List? ==> blocks.Cons? && blocks.first.List? && (blocks.first.ordered <==> |r.list(text).value.1| > 1))
      && (rule.Def? ==>
            var (length, name, link) := r.def(text).value;
            length <= |text| && Lex(r, text[length..], top, bq, links[name := link]).Some?
            && blocks == Lex(r, text[length..], top, bq, links[name := link]).value.0)
  {
    var text := src[r.newline(src)..];
    NextIsFirst(r, rule, text, top, bq);
    assert Advances(r, text, Next(r, text, top, bq));
    var lexed := LexBlock(r, text, top, bq, links);
    blocks := lexed.value.0;
    LexedByFirst(r, text, top, bq, links, rule, lexed);
  }

  lemma LexedByFirst(r: Rules, text: string, top: bool, bq: bool, links: Links, rule: Rule, lexed: Result)
    requires Progress(r) && lexed == LexBlock(r, text, top, bq, links) && lexed.Some?
    requires First(r, rule, text, top, bq) && Advances(r, text, Next(r, text, top, bq))
    ensures MakesLeaf(rule) ==>
      var found := MatchOf(r, rule, text);
      found.length <= |text| && lexed.value.0.Cons? && lexed.value.0.first == Plain(found.leaf)
      && Lex(r, text[found.length..], top, bq, links).Some?
      && lexed.value.0.rest == Lex(r, text[found.length..], top, bq, links).value.0
    ensures rule.Blockquote? ==>
      var inner := Lex(r, r.blankLines(r.blockquote(text).value.1), top, true, links);
      inner.Some? && lexed.value.0.Cons? && lexed.value.0.first == Quote(inner.value.0)
    ensures rule.List? ==>
      lexed.value.0.Cons? && lexed.value.0.first.List? && (lexed.value.0.first.ordered <==> |r.list(text).value.1| > 1)
    ensures rule.Def? ==>
      var (length, name, link) := r.def(text).value;
      length <= |text| && Lex(r, text[length..], top, bq, links[name := link]).Some?
      && lexed.value.0 == Lex(r, text[length..], top, bq, links[name := link]).value.0
  {
    NextIsFirst(r, rule, text, top, bq);
  }

  /** The matchers make the leaves they are for. */
  ghost predicate Typed(r: Rules) {
    forall s: string ::
      && (r.code(s).Some? ==> r.code(s).value.leaf.CodeBlock?)
      && (r.fences(s).Some? ==> r.fences(s).value.leaf.CodeBlock?)
      && (r.heading(s).Some? ==> r.heading(s).value.leaf.Heading?)
      && (r.lheading(s).Some? ==> r.lheading(s).value.leaf.Heading?)
      && (r.nptable(s).Some? ==> r.nptable(s).value.leaf.Table?) && (r.table(s).Some? ==> r.table(s).value.leaf.Table?)
      && (r.hr(s).Some? ==> r.hr(s).value.leaf.Hr?) && (r.html(s).Some? ==> r.html(s).value.leaf.Html?)
      && (r.paragraph(s).Some? ==> r.paragraph(s).value.leaf.Paragraph?)
      && (r.text(s).Some? ==> r.text(s).value.leaf.Text?)
  }

  lemma SomeRule(r: Rules, src: string, top: bool, bq: bool) returns (rule: Option<Rule>)
    ensures rule.Some? ==> First(r, rule.value, src, top, bq)
    ensures rule.None? ==>
      Next(r, src, top, bq).Stuck? && forall other: Rule :: !Applies(r, other, src, top, bq)
  {
    var rules := [Code, Fences, Rule.Heading, Nptable, Lheading, Rule.Hr, Blockquote, Rule.List, Rule.Html, Def,
                  Rule.Table, Rule.Paragraph, Rule.Text];
    var i := 0;
    while i < |rules|
      invariant 0 <= i <= |rules|
      invariant forall other: Rule | Rank(other) <= i :: !Applies(r, other, src, top, bq)
    {
      assert Rank(rules[i]) == i + 1;
      forall other: Rule | Rank(other) == i + 1 ensures other == rules[i] {}
      if Applies(r, rules[i], src, top, bq) { return Some(rules[i]); }
      i := i + 1;
    }
    rule := None;
    forall other: Rule ensures Rank(other) <= 13 && !(Allowed(other, top, bq) && Matches(r, other, src)) {
      assert !Applies(r, other, src, top, bq);
    }
    NoneLeft(r, src, top, bq);
  }

  lemma NoneLeft(r: Rules, src: string, top: bool, bq: bool)
    requires forall other: Rule :: !(Allowed(other, top, bq) && Matches(r, other, src))
    ensures Next(r, src, top, bq).Stuck?
  {
    LowerRanks(r, Rule.Text, src, top, bq);
    assert !(Allowed(Rule.Text, top, bq) && Matches(r, Rule.Text, src));
  }

  /** The block behind the newlines a text begins with. */
  function FirstBehind(r: Rules, src: string, lexed: Blocks): Option<Block> {
    var blocks := if r.newline(src) > 1 && lexed.Cons? then lexed.rest else lexed;
    if blocks.Cons? then Some(blocks.first) else None
  }

  predicate IsLeaf(b: Option<Block>) {
    b.Some? && b.value.Plain?
  }

  /** The first rule that applies, if one does. */
  ghost function Leading(r: Rules, src: string, top: bool, bq: bool): (rule: Option<Rule>)
    ensures rule.Some? ==> First(r, rule.value, src, top, bq)
  {
    if exists rule: Rule :: First(r, rule, src, top, bq)
    then
      var rule: Rule :| First(r, rule, src, top, bq);
      Some(rule)
    else None
  }

  lemma LeadingIff(r: Rules, src: string, top: bool, bq: bool)
    ensures forall rule: Rule :: First(r, rule, src, top, bq) <==> Leading(r, src, top, bq) == Some(rule)
    ensures Leading(r, src, top, bq).None? <==> forall rule: Rule :: !Applies(r, rule, src, top, bq)
  {
    forall rule: Rule | First(r, rule, src, top, bq) ensures Leading(r, src, top, bq) == Some(rule) {
      OnlyOneFirst(r, rule, Leading(r, src, top, bq).value, src, top, bq);
    }
    var _ := SomeRule(r, src, top, bq);
  }

  /** The kind of a block, told by the rule it came from and the other way round. */
  predicate Begins(rule: Option<Rule>, b: Option<Block>) {
    && (b.Some? && b.value.List? <==> rule == Some(Rule.List))
    && (b.Some? && b.value.Quote? <==> rule == Some(Blockquote))
    && (IsLeaf(b) && b.value.leaf.Hr? <==> rule == Some(Rule.Hr))
    && (IsLeaf(b) && b.value.leaf.Html? <==> rule == Some(Rule.Html))
    && (IsLeaf(b) && b.value.leaf.Paragraph? <==> rule == Some(Rule.Paragraph))
    && (IsLeaf(b) && b.value.leaf.Text? <==> rule == Some(Rule.Text))
    && (IsLeaf(b) && b.value.leaf.CodeBlock? <==> rule == Some(Code) || rule == Some(Fences))
    && (IsLeaf(b) && b.value.leaf.Heading? <==> rule == Some(Rule.Heading) || rule == Some(Lheading))
    && (IsLeaf(b) && b.value.leaf.Table? <==> rule == Some(Rule.Table) || rule == Some(Nptable))
    && (b.None? <==> rule.None?)
  }

  /** Behind the newlines, and unless a link is defined there, a text begins with
      a list, a quote, a horizontal rule and so on if and only if a rule for such
      is the first that applies; with nothing if and only if none applies. */
  lemma KindIff(r: Rules, src: string, top: bool, bq: bool, links: Links)
    requires Progress(r) && Typed(r) && src != "" && Lex(r, src, top, bq, links).Some?
    requires Leading(r, src[r.newline(src)..], top, bq) != Some(Def)
    ensures Begins(Leading(r, src[r.newline(src)..], top, bq),
                   FirstBehind(r, src, Lex(r, src, top, bq, links).value.0))
  {
    var text := src[r.newline(src)..];
    LeadingIff(r, text, top, bq);
    var rule := Leading(r, text, top, bq);
    if rule.Some? {
      KindGiven(r, src, top, bq, links, rule.value);
    } else {
      NoneGiven(r, src, top, bq, links);
    }
    BeginsByRule(rule, FirstBehind(r, src, Lex(r, src, top, bq, links).value.0));
  }

  /** The kind of block a rule is for. */
  predicate KindOf(rule: Rule, b: Option<Block>) {
    match rule
    case Code => IsLeaf(b) && b.value.leaf.CodeBlock?
    case Fences => IsLeaf(b) && b.value.leaf.CodeBlock?
    case Heading => IsLeaf(b) && b.value.leaf.Heading?
    case Lheading => IsLeaf(b) && b.value.leaf.Heading?
    case Nptable => IsLeaf(b) && b.value.leaf.Table?
    case Table => IsLeaf(b) && b.value.leaf.Table?
    case Hr => IsLeaf(b) && b.value.leaf.Hr?
    case Html => IsLeaf(b) && b.value.leaf.Html?
    case Paragraph => IsLeaf(b) && b.value.leaf.Paragraph?
    case Text => IsLeaf(b) && b.value.leaf.Text?
    case Blockquote => b.Some? && b.value.Quote?
    case List => b.Some? && b.value.List?
    case Def => false
  }

  lemma KindGiven(r: Rules, src: string, top: bool, bq: bool, links: Links, rule: Rule)
    requires Progress(r) && Typed(r) && src != "" && Lex(r, src, top, bq, links).Some?
    requires First(r, rule, src[r.newline(src)..], top, bq) && !rule.Def?
    ensures KindOf(rule, FirstBehind(r, src, Lex(r, src, top, bq, links).value.0))
  {
    var blocks := FirstBlock(r, src, top, bq, links, rule);
    assert FirstBehind(r, src, Lex(r, src, top, bq, links).value.0) == Some(blocks.first);
  }

  lemma NoneGiven(r: Rules, src: string, top: bool, bq: bool, links: Links)
    requires Progress(r) && src != "" && Lex(r, src, top, bq, links).Some?
    requires forall rule: Rule :: !Applies(r, rule, src[r.newline(src)..], top, bq)
    ensures FirstBehind(r, src, Lex(r, src, top, bq, links).value.0).None?
  {
    var rule := SomeRule(r, src[r.newline(src)..], top, bq);
  }

  lemma BeginsByRule(rule: Option<Rule>, b: Option<Block>)
    requires rule != Some(Def)
    requires if rule.Some? then KindOf(rule.value, b) else b.None?
    ensures Begins(rule, b)
  {
  }

  lemma OnlyOneFirst(r: Rules, a: Rule, b: Rule, src: string, top: bool, bq: bool)
    requires First(r, a, src, top, bq) && First(r, b, src, top, bq)
    ensures a == b
  {
    assert Rank(a) == Rank(b);
  }

  // ---------- lists

  /** With smart lists, an item with a bullet of another kind does not belong to
      the list: numbers are all of one kind, other bullets each of their own. */
  predicate OtherKind(r: Rules, bullet: string, item: string) {
    r.smartLists && r.bullet(item) != bullet && (|bullet| <= 1 || |r.bullet(item)| <= 1)
  }

  /** The list ends before the first item of another kind behind its first one. */
  ghost predicate ListEnds(r: Rules, bullet: string, items: seq<string>, n: nat) {
    && n <= |items| && (items != [] ==> n > 0)
    && (forall j | 0 < j < n :: !OtherKind(r, bullet, items[j]))
    && (n < |items| ==> n > 0 && OtherKind(r, bullet, items[n]))
  }

  predicate Ends(s: string) {
    |s| > 0 && s[|s| - 1] == '\n'
  }

  /** Loose: a blank line inside the item, or at its end with another item to
      follow, or at the end of the item before. */
  predicate IsLoose(r: Rules, items: seq<string>, n: nat, k: nat)
    requires k < n <= |items|
  {
    || r.blankLineInside(r.content(items[k]))
    || (k + 1 < n && Ends(r.content(items[k])))
    || (k > 0 && Ends(r.content(items[k - 1])))
  }

  /** A list has its items up to that end, each loose or tight by that rule, and
      the rest is lexed again in front of the text behind it. */
  lemma ListIs(r: Rules, text: string, top: bool, bq: bool, links: Links) returns (n: nat, after: Links)
    requires Progress(r) && First(r, Rule.List, text, top, bq) && LexBlock(r, text, top, bq, links).Some?
    ensures var (length, bullet, items) := r.list(text).value;
      var blocks := LexBlock(r, text, top, bq, links).value.0;
      && ListEnds(r, bullet, items, n) && length <= |text|
      && blocks.Cons? && blocks.first.List? && Count(blocks.first.items) == n
      && (forall k | 0 <= k < n :: LooseAt(blocks.first.items, k) <==> IsLoose(r, items, n, k))
      && blocks.rest == TreeOf(r, if n < |items| then JoinFrom(items, "\n", n) + text[length..] else text[length..],
                               top, bq, after)
  {
    var (length, bullet, items) := r.list(text).value;
    NextIsFirst(r, Rule.List, text, top, bq);
    assert Advances(r, text, Next(r, text, top, bq));
    var list := LexItems(r, items, 0, bullet, false, bq, links, text[length..], length);
    n, after := 0, list.value.1;
    if items != [] {
      n := EndOfList(r, items, 0, bullet);
      ItemsTaken(r, items, 0, bullet, false, bq, links, text[length..], length);
      EndIsRight(r, items, bullet);
      forall k: nat | k < n ensures LooseAt(list.value.0, k) <==> IsLoose(r, items, n, k) {
        LooseIsRight(r, items, bullet, bq, links, text[length..], length, k);
      }
    }
  }

  lemma EndIsRight(r: Rules, items: seq<string>, bullet: string)
    requires items != []
    ensures ListEnds(r, bullet, items, EndOfList(r, items, 0, bullet))
  {
    forall j | 0 < j < EndOfList(r, items, 0, bullet) ensures !OtherKind(r, bullet, items[j]) {
      assert !Backpedals(r, items, j - 1, bullet);
    }
  }

  lemma LooseIsRight(r: Rules, items: seq<string>, bullet: string, bq: bool, links: Links, rest: string, bound: nat,
                     k: nat)
    requires Progress(r) && items != [] && Shorter(r, items, bound)
    requires LexItems(r, items, 0, bullet, false, bq, links, rest, bound).Some?
    requires k < Count(LexItems(r, items, 0, bullet, false, bq, links, rest, bound).value.0)
    requires k < EndOfList(r, items, 0, bullet)
    ensures LooseAt(LexItems(r, items, 0, bullet, false, bq, links, rest, bound).value.0, k) <==>
      IsLoose(r, items, EndOfList(r, items, 0, bullet), k)
  {
    LooseIff(r, items, 0, bullet, false, bq, links, rest, bound, k);
  }

  /** The tree of a text that has one. */
  function TreeOf(r: Rules, src: string, top: bool, bq: bool, links: Links): Blocks
    requires Progress(r)
  {
    match Lex(r, src, top, bq, links) case Some((blocks, _)) => blocks case None => Nil
  }

  lemma NoText(r: Rules, top: bool, bq: bool, links: Links)
    requires Progress(r)
    ensures Lex(r, "", top, bq, links) == Some((Nil, links))
  {
  }

  // ---------- a grammar

  function NoMatch(s: string): Option<Match> { None }

  function AllText(s: string): Option<Match> {
    if s == "" then None else Some(Match(|s|, Leaf.Text(s)))
  }

  /** The grammar in which everything is text. */
  const PLAIN := Rules((s: string) => s, (s: string) => 0, NoMatch, NoMatch, NoMatch, NoMatch, NoMatch, NoMatch,
                       (s: string) => None, (s: string) => None, NoMatch, (s: string) => None, NoMatch, NoMatch,
                       AllText, (s: string) => "", (s: string) => s, (s: string) => false, false)

  /** It makes progress and is complete, and makes one block of any text. */
  lemma PlainText(src: string, top: bool, bq: bool, links: Links)
    requires src != ""
    ensures Progress(PLAIN) && Complete(PLAIN)
    ensures Lex(PLAIN, src, top, bq, links) == Some((Cons(Plain(Leaf.Text(src)), Nil), links))
  {
    assert src[0..] == src && src[|src|..] == "";
    assert Next(PLAIN, src, top, bq) == Push(|src|, Leaf.Text(src));
    assert Lex(PLAIN, "", top, bq, links) == Some((Nil, links));
  }
}
