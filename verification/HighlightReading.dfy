/** Reading markup back from the string it is written as. */
module HighlightReading {
  import opened Highlight
  import opened HighlightMerge
  import opened Prelude
  import opened Strings

  /** Markup as it can be read: nodes are known by name and attributes only. */
  datatype Piece =
    | Shown(text: string)
    | OpenTag(name: string, attributes: seq<(string, string)>)
    | CloseTag(name: string)

  datatype Pieces = Done | Next(first: Piece, rest: Pieces)

  // ---------- reading

  predicate Stops(s: string, stop: char) {
    s == "" || s[0] == stop
  }

  /** Text up to `stop`, with the three character references resolved, and the rest. */
  function ReadUntil(s: string, stop: char): (r: (string, string))
    ensures |r.1| <= |s| && Stops(r.1, stop)
    decreases |s|
  {
    if Stops(s, stop) then ("", s)
    else if StartsWith(s, "&amp;") then var r := ReadUntil(s[5..], stop); ("&" + r.0, r.1)
    else if StartsWith(s, "&lt;") then var r := ReadUntil(s[4..], stop); ("<" + r.0, r.1)
    else if StartsWith(s, "&gt;") then var r := ReadUntil(s[4..], stop); (">" + r.0, r.1)
    else var r := ReadUntil(s[1..], stop); ([s[0]] + r.0, r.1)
  }

  predicate InName(c: char) {
    c !in {' ', '=', '>', '/', '<', '"', '&'}
  }

  function ReadName(s: string): (r: (string, string))
    ensures |r.1| <= |s|
  {
    if s == "" || !InName(s[0]) then ("", s) else var r := ReadName(s[1..]); ([s[0]] + r.0, r.1)
  }

  /** The attributes of a tag and its end. */
  function ReadAttributes(s: string): (r: Option<(seq<(string, string)>, string)>)
    ensures r.Some? ==> |r.value.1| < |s|
    decreases |s|
  {
    if StartsWith(s, ">") then Some(([], s[1..]))
    else if !StartsWith(s, " ") then None
    else
      var name := ReadName(s[1..]);
      if !StartsWith(name.1, "=\"") then None
      else
        var value := ReadUntil(name.1[2..], '"');
        if value.1 == "" then None
        else
          match ReadAttributes(value.1[1..])
          case None => None
          case Some(others) => Some(([(name.0, value.0)] + others.0, others.1))
  }

  /** A tag, behind its first bracket. */
  function ReadTag(s: string): (r: Option<(Piece, string)>)
    ensures r.Some? ==> |r.value.1| < |s|
  {
    if StartsWith(s, "/") then
      var name := ReadName(s[1..]);
      if StartsWith(name.1, ">") then Some((CloseTag(name.0), name.1[1..])) else None
    else
      var name := ReadName(s);
      match ReadAttributes(name.1)
      case None => None
      case Some(others) => Some((OpenTag(name.0, others.0), others.1))
  }

  function Read(s: string): Option<Pieces>
    decreases |s|
  {
    if s == "" then Some(Done)
    else if s[0] == '<' then
      match ReadTag(s[1..])
      case None => None
      case Some(tag) => Put(tag.0, Read(tag.1))
    else
      var text := ReadUntil(s, '<');
      if |text.1| < |s| then Put(Shown(text.0), Read(text.1)) else None
  }

  function Put(first: Piece, rest: Option<Pieces>): Option<Pieces> {
    if rest.Some? then Some(Next(first, rest.value)) else None
  }

  // ---------- writing, from the front

  function DrawAttributes(attributes: seq<(string, string)>, tail: string): string {
    if attributes == [] then tail
    else
      " " + (attributes[0].0 + ("=\"" + (Escape(attributes[0].1) + ("\"" + DrawAttributes(attributes[1..], tail)))))
  }

  function Draw(ps: Pieces): string {
    match ps
    case Done => ""
    case Next(Shown(text), rest) => Escape(text) + Draw(rest)
    case Next(OpenTag(name, attributes), rest) => "<" + (name + DrawAttributes(attributes, ">" + Draw(rest)))
    case Next(CloseTag(name), rest) => "<" + ("/" + (name + (">" + Draw(rest))))
  }

  predicate NameOk(name: string) {
    name != "" && forall i | 0 <= i < |name| :: InName(name[i])
  }

  predicate NamesOk(p: Piece) {
    match p
    case Shown(_) => true
    case OpenTag(name, attributes) => NameOk(name) && AttributeNamesOk(attributes)
    case CloseTag(name) => NameOk(name)
  }

  predicate AttributeNamesOk(attributes: seq<(string, string)>) {
    forall i | 0 <= i < |attributes| :: NameOk(attributes[i].0)
  }

  predicate AnyQuote(attributes: seq<(string, string)>) {
    exists i | 0 <= i < |attributes| :: '"' in attributes[i].1
  }

  /** Names are names, and adjacent texts are one, and none is empty. */
  predicate Orderly(ps: Pieces) {
    ps.Next? ==>
      && NamesOk(ps.first) && Orderly(ps.rest)
      && (ps.first.Shown? ==> ps.first.text != "" && !(ps.rest.Next? && ps.rest.first.Shown?))
  }

  predicate QuoteFree(ps: Pieces) {
    ps.Next? ==> !(ps.first.OpenTag? && AnyQuote(ps.first.attributes)) && QuoteFree(ps.rest)
  }

  // ---------- reading what was written

  lemma {:induction false} EscapeFirst(s: string)
    requires s != ""
    ensures Escape(s) == EscapeChar(s[0]) + Escape(s[1..])
    decreases |s|
  {
    if |s| == 1 {
      assert s[..0] == "" && s[1..] == "";
      assert "" + EscapeChar(s[0]) == EscapeChar(s[0]) == EscapeChar(s[0]) + "";
    } else {
      var init, last := s[..|s| - 1], EscapeChar(s[|s| - 1]);
      EscapeFirst(init);
      assert init[1..] == s[1..][..|s| - 2];
      Assoc(EscapeChar(s[0]), Escape(init[1..]), last);
    }
  }

  lemma {:induction false} EscapeBoth(a: string, b: string)
    ensures Escape(a + b) == Escape(a) + Escape(b)
    decreases |a|
  {
    if a == "" {
      assert a + b == b;
    } else {
      assert (a + b)[1..] == a[1..] + b && (a + b)[0] == a[0];
      EscapeFirst(a + b);
      EscapeFirst(a);
      EscapeBoth(a[1..], b);
      Assoc(EscapeChar(a[0]), Escape(a[1..]), Escape(b));
    }
  }

  lemma Ahead(head: string, rest: string)
    ensures StartsWith(head + rest, head) && (head + rest)[|head|..] == rest
  {
  }

  lemma ReadPlain(c: char, stop: char, rest: string)
    requires c != stop && c != '&'
    ensures ReadUntil([c] + rest, stop) == ([c] + ReadUntil(rest, stop).0, ReadUntil(rest, stop).1)
  {
    var s := [c] + rest;
    assert s[0] == c && s[1..] == rest;
    assert !StartsWith(s, "&amp;") && !StartsWith(s, "&lt;") && !StartsWith(s, "&gt;");
  }

  lemma ReadAmp(stop: char, rest: string)
    requires stop in {'<', '"'}
    ensures ReadUntil("&amp;" + rest, stop) == ("&" + ReadUntil(rest, stop).0, ReadUntil(rest, stop).1)
  {
    Ahead("&amp;", rest);
    assert ("&amp;" + rest)[0] == '&';
  }

  lemma ReadLess(stop: char, rest: string)
    requires stop in {'<', '"'}
    ensures ReadUntil("&lt;" + rest, stop) == ("<" + ReadUntil(rest, stop).0, ReadUntil(rest, stop).1)
  {
    var s := "&lt;" + rest;
    Ahead("&lt;", rest);
    assert s[0] == '&' && s[1] == 'l';
    assert !StartsWith(s, "&amp;");
  }

  lemma ReadGreater(stop: char, rest: string)
    requires stop in {'<', '"'}
    ensures ReadUntil("&gt;" + rest, stop) == (">" + ReadUntil(rest, stop).0, ReadUntil(rest, stop).1)
  {
    var s := "&gt;" + rest;
    Ahead("&gt;", rest);
    assert s[0] == '&' && s[1] == 'g';
    assert !StartsWith(s, "&amp;") && !StartsWith(s, "&lt;");
  }

  /** One escaped character is read as what it was. */
  lemma ReadEscapedChar(c: char, stop: char, rest: string)
    requires stop == '<' || (stop == '"' && c != '"')
    ensures ReadUntil(EscapeChar(c) + rest, stop) == ([c] + ReadUntil(rest, stop).0, ReadUntil(rest, stop).1)
  {
    if c == '&' {
      ReadAmp(stop, rest);
    } else if c == '<' {
      ReadLess(stop, rest);
    } else if c == '>' {
      ReadGreater(stop, rest);
    } else {
      ReadPlain(c, stop, rest);
    }
  }

  lemma {:induction false} ReadEscaped(text: string, stop: char, rest: string)
    requires (stop == '<' || (stop == '"' && '"' !in text)) && Stops(rest, stop)
    ensures ReadUntil(Escape(text) + rest, stop) == (text, rest)
    decreases |text|
  {
    if text == "" {
      assert Escape(text) + rest == rest;
    } else {
      EscapeFirst(text);
      Assoc(EscapeChar(text[0]), Escape(text[1..]), rest);
      ReadEscaped(text[1..], stop, rest);
      ReadEscapedChar(text[0], stop, Escape(text[1..]) + rest);
      assert [text[0]] + text[1..] == text;
    }
  }

  /** A value with a quote in it is read up to the quote. */
  lemma {:induction false} ReadQuoted(value: string, rest: string)
    requires '"' in value
    ensures |ReadUntil(Escape(value) + rest, '"').0| < |value|
    decreases |value|
  {
    EscapeFirst(value);
    Assoc(EscapeChar(value[0]), Escape(value[1..]), rest);
    var later := Escape(value[1..]) + rest;
    if value[0] == '"' {
      assert (EscapeChar(value[0]) + later)[0] == '"';
    } else {
      ReadEscapedChar(value[0], '"', later);
      ReadQuoted(value[1..], rest);
    }
  }

  /** A string in which no name goes on. */
  predicate NameEnds(s: string) {
    s != "" && !InName(s[0])
  }

  lemma {:induction false} ReadNameOf(name: string, rest: string)
    requires NameEnds(rest) && forall i | 0 <= i < |name| :: InName(name[i])
    ensures ReadName(name + rest) == (name, rest)
    decreases |name|
  {
    if name == "" {
      assert name + rest == rest;
    } else {
      var s := name + rest;
      assert s[0] == name[0] && s[1..] == name[1..] + rest;
      ReadNameOf(name[1..], rest);
      assert [name[0]] + name[1..] == name;
    }
  }

  lemma DrawAttributesEnds(attributes: seq<(string, string)>, after: string)
    ensures NameEnds(DrawAttributes(attributes, ">" + after))
    ensures attributes == [] ==> StartsWith(DrawAttributes(attributes, ">" + after), ">")
    ensures attributes != [] ==> StartsWith(DrawAttributes(attributes, ">" + after), " ")
    ensures attributes != [] ==> !StartsWith(DrawAttributes(attributes, ">" + after), ">")
  {
    var s := DrawAttributes(attributes, ">" + after);
    if attributes == [] { assert s[..1] == ">"; } else { assert s[..1] == " "; }
  }

  /** What the first attribute is read as. */
  lemma ReadFirstAttribute(name: string, value: string, after: string)
    requires NameOk(name)
    ensures var s := " " + (name + ("=\"" + (Escape(value) + ("\"" + after))));
      var read := ReadUntil(Escape(value) + ("\"" + after), '"');
      ReadAttributes(s) ==
        if read.1 == "" then None
        else
          match ReadAttributes(read.1[1..])
          case None => None
          case Some(others) => Some(([(name, read.0)] + others.0, others.1))
  {
    var rest := Escape(value) + ("\"" + after);
    Ahead(" ", name + ("=\"" + rest));
    Ahead("=\"", rest);
    assert (" " + (name + ("=\"" + rest)))[0] == ' ' && ("=\"" + rest)[0] == '=';
    ReadNameOf(name, "=\"" + rest);
  }

  lemma AnyQuoteFirst(attributes: seq<(string, string)>)
    requires attributes != []
    ensures AnyQuote(attributes) <==> ('"' in attributes[0].1 || AnyQuote(attributes[1..]))
    ensures AttributeNamesOk(attributes) ==> NameOk(attributes[0].0) && AttributeNamesOk(attributes[1..])
  {
    if i :| 0 <= i < |attributes| && '"' in attributes[i].1 && i > 0 { assert '"' in attributes[1..][i - 1].1; }
    if i :| 0 <= i < |attributes[1..]| && '"' in attributes[1..][i].1 { assert '"' in attributes[i + 1].1; }
  }

  /** The attributes are read as they are, and the text behind the tag with
      them, if and only if no value holds a quote. */
  lemma {:induction false} AttributesReadIff(attributes: seq<(string, string)>, after: string)
    requires AttributeNamesOk(attributes)
    ensures var r := ReadAttributes(DrawAttributes(attributes, ">" + after));
      if AnyQuote(attributes) then r.None? || r.value.0 != attributes else r == Some((attributes, after))
    decreases |attributes|
  {
    DrawAttributesEnds(attributes, after);
    if attributes == [] {
      Ahead(">", after);
    } else {
      var (name, value) := attributes[0];
      var later := DrawAttributes(attributes[1..], ">" + after);
      AnyQuoteFirst(attributes);
      ReadFirstAttribute(name, value, later);
      if '"' in value {
        ReadQuoted(value, "\"" + later);
      } else {
        assert ("\"" + later)[0] == '"' && ("\"" + later)[1..] == later;
        ReadEscaped(value, '"', "\"" + later);
        AttributesReadIff(attributes[1..], after);
        assert [(name, value)] + attributes[1..] == attributes;
      }
    }
  }

  lemma NotSlash(name: string, rest: string)
    requires NameOk(name)
    ensures !StartsWith(name + rest, "/")
  {
    assert (name + rest)[0] == name[0] && InName(name[0]);
  }

  lemma OpenTagReadIff(name: string, attributes: seq<(string, string)>, after: string)
    requires NameOk(name) && AttributeNamesOk(attributes)
    ensures var r := ReadTag(name + DrawAttributes(attributes, ">" + after));
      if AnyQuote(attributes) then r.None? || r.value.0 != OpenTag(name, attributes)
      else r == Some((OpenTag(name, attributes), after))
  {
    var rest := DrawAttributes(attributes, ">" + after);
    NotSlash(name, rest);
    DrawAttributesEnds(attributes, after);
    ReadNameOf(name, rest);
    AttributesReadIff(attributes, after);
  }

  lemma CloseTagRead(name: string, after: string)
    requires NameOk(name)
    ensures ReadTag("/" + (name + (">" + after))) == Some((CloseTag(name), after))
  {
    Ahead("/", name + (">" + after));
    Ahead(">", after);
    ReadNameOf(name, ">" + after);
  }

  /** A bracket can only stand at the start of a tag. */
  lemma DrawStops(ps: Pieces)
    requires !(ps.Next? && ps.first.Shown?)
    ensures Stops(Draw(ps), '<')
  {
  }

  lemma ShownRead(text: string, ps: Pieces)
    requires text != "" && !(ps.Next? && ps.first.Shown?)
    ensures Read(Escape(text) + Draw(ps)) == Put(Shown(text), Read(Draw(ps)))
  {
    DrawStops(ps);
    ReadEscaped(text, '<', Draw(ps));
    EscapeFirst(text);
    var s := Escape(text) + Draw(ps);
    assert s[0] == EscapeChar(text[0])[0] != '<';
    assert |s| > |Draw(ps)|;
  }

  /** Orderly markup is read back from what it is written as if and only if no
      attribute value holds a quote. */
  lemma {:induction false} ReadBackIff(ps: Pieces)
    requires Orderly(ps)
    ensures Read(Draw(ps)) == Some(ps) <==> QuoteFree(ps)
  {
    match ps
    case Done =>
    case Next(Shown(text), rest) =>
      ShownRead(text, rest);
      ReadBackIff(rest);
    case Next(OpenTag(name, attributes), rest) =>
      var s := name + DrawAttributes(attributes, ">" + Draw(rest));
      assert ("<" + s)[0] == '<' && ("<" + s)[1..] == s;
      OpenTagReadIff(name, attributes, Draw(rest));
      ReadBackIff(rest);
    case Next(CloseTag(name), rest) =>
      var s := "/" + (name + (">" + Draw(rest)));
      assert ("<" + s)[0] == '<' && ("<" + s)[1..] == s;
      CloseTagRead(name, Draw(rest));
      ReadBackIff(rest);
  }

  // ---------- the markup that is written

  /** Another token in front: texts that meet are one, and empty text is nothing. */
  function Prefixed(t: Token, ps: Pieces): Pieces {
    match t
    case Open(node) => Next(OpenTag(node.name, node.attributes), ps)
    case Close(name) => Next(CloseTag(name), ps)
    case Text(text) =>
      if text == "" then ps
      else if ps.Next? && ps.first.Shown? then Next(Shown(text + ps.first.text), ps.rest)
      else Next(Shown(text), ps)
  }

  function PiecesOf(m: Markup, after: Pieces): Pieces {
    match m case Blank => after case Then(before, last) => PiecesOf(before, Prefixed(last, after))
  }

  lemma AttributesLast(init: seq<(string, string)>, name: string, value: string)
    ensures Attributes(init + [(name, value)]) == Attributes(init) + " " + name + "=\"" + Escape(value) + "\""
  {
    assert (init + [(name, value)])[..|init|] == init;
  }

  lemma {:induction false} AttributesDrawn(attributes: seq<(string, string)>, tail: string)
    ensures Attributes(attributes) + tail == DrawAttributes(attributes, tail)
    decreases |attributes|
  {
    if attributes == [] {
      assert Attributes(attributes) + tail == tail;
    } else {
      var init := attributes[..|attributes| - 1];
      var (name, value) := attributes[|attributes| - 1];
      assert init + [(name, value)] == attributes;
      AttributesDrawn(init, " " + (name + ("=\"" + (Escape(value) + ("\"" + tail)))));
      AttributesLast(init, name, value);
      LastAttribute(Attributes(init), name, value, tail);
      DrawnLast(init, name, value, tail);
    }
  }

  lemma LastAttribute(before: string, name: string, value: string, tail: string)
    ensures (before + " " + name + "=\"" + Escape(value) + "\"") + tail
         == before + (" " + (name + ("=\"" + (Escape(value) + ("\"" + tail)))))
  {
  }

  lemma {:induction false} DrawnLast(init: seq<(string, string)>, name: string, value: string, tail: string)
    ensures DrawAttributes(init + [(name, value)], tail)
         == DrawAttributes(init, " " + (name + ("=\"" + (Escape(value) + ("\"" + tail)))))
    decreases |init|
  {
    var all := init + [(name, value)];
    if init == [] {
      assert all == [(name, value)] && all[1..] == [];
    } else {
      assert all[0] == init[0] && all[1..] == init[1..] + [(name, value)];
      DrawnLast(init[1..], name, value, tail);
    }
  }

  lemma OpenDrawn(node: Node, after: Pieces)
    ensures RenderToken(Open(node)) + Draw(after) == Draw(Prefixed(Open(node), after))
  {
    AttributesDrawn(node.attributes, ">" + Draw(after));
    Regrouped(node.name, Attributes(node.attributes), Draw(after));
  }

  lemma Regrouped(name: string, attributes: string, after: string)
    ensures ("<" + name + attributes + ">") + after == "<" + (name + (attributes + (">" + after)))
  {
  }

  lemma TokenDrawn(t: Token, after: Pieces)
    ensures RenderToken(t) + Draw(after) == Draw(Prefixed(t, after))
  {
    match t
    case Open(node) => OpenDrawn(node, after);
    case Close(name) => assert ("</" + name + ">") + Draw(after) == "<" + ("/" + (name + (">" + Draw(after))));
    case Text(text) =>
      if text == "" {
        assert Escape(text) + Draw(after) == Draw(after);
      } else if after.Next? && after.first.Shown? {
        EscapeBoth(text, after.first.text);
        Assoc(Escape(text), Escape(after.first.text), Draw(after.rest));
      }
  }

  lemma {:induction false} MarkupDrawn(m: Markup, after: Pieces)
    ensures Render(m) + Draw(after) == Draw(PiecesOf(m, after))
  {
    match m
    case Blank => assert "" + Draw(after) == Draw(after);
    case Then(before, last) =>
      Assoc(Render(before), RenderToken(last), Draw(after));
      TokenDrawn(last, after);
      MarkupDrawn(before, Prefixed(last, after));
  }

  predicate TokenNamesOk(t: Token) {
    match t
    case Open(node) => NameOk(node.name) && AttributeNamesOk(node.attributes)
    case Close(name) => NameOk(name)
    case Text(_) => true
  }

  predicate MarkupNamesOk(m: Markup) {
    m.Then? ==> TokenNamesOk(m.last) && MarkupNamesOk(m.before)
  }

  predicate NoQuotes(m: Markup) {
    m.Then? ==> (m.last.Open? ==> !AnyQuote(m.last.node.attributes)) && NoQuotes(m.before)
  }

  lemma {:induction false} PiecesOrderly(m: Markup, after: Pieces)
    requires MarkupNamesOk(m) && Orderly(after)
    ensures Orderly(PiecesOf(m, after))
    ensures QuoteFree(PiecesOf(m, after)) <==> NoQuotes(m) && QuoteFree(after)
  {
    if m.Then? { PiecesOrderly(m.before, Prefixed(m.last, after)); }
  }

  /** The string written for some markup is read as that markup if and only if
      no attribute value holds a quote. */
  lemma MarkupReadBackIff(m: Markup)
    requires MarkupNamesOk(m)
    ensures Read(Render(m)) == Some(PiecesOf(m, Done)) <==> NoQuotes(m)
  {
    MarkupDrawn(m, Done);
    assert Render(m) + "" == Render(m);
    PiecesOrderly(m, Done);
    ReadBackIff(PiecesOf(m, Done));
  }

  function TextOfPieces(ps: Pieces): string {
    match ps
    case Done => ""
    case Next(Shown(text), rest) => text + TextOfPieces(rest)
    case Next(_, rest) => TextOfPieces(rest)
  }

  /** What is read has the text of the markup. */
  lemma {:induction false} TextOfRead(m: Markup, after: Pieces)
    ensures TextOfPieces(PiecesOf(m, after)) == TextOf(m) + TextOfPieces(after)
  {
    match m
    case Blank => assert "" + TextOfPieces(after) == TextOfPieces(after);
    case Then(before, last) =>
      TextOfRead(before, Prefixed(last, after));
      if last.Text? {
        if last.text == "" { assert TextOf(before) + last.text == TextOf(before); }
        Assoc(TextOf(before), last.text, TextOfPieces(after));
        if after.Next? && after.first.Shown? { Assoc(last.text, after.first.text, TextOfPieces(after.rest)); }
      }
  }

  predicate NodeNamesOk(n: Node) {
    NameOk(n.name) && AttributeNamesOk(n.attributes)
  }

  lemma LowerNameOk(name: string)
    requires NameOk(name)
    ensures NameOk(Lower(name))
  {
    forall i | 0 <= i < |name| ensures InName(Lower(name)[i]) { assert InName(name[i]); }
  }

  /** In nested markup every closing tag is named by a node that was opened. */
  lemma {:induction false} NestedNamesOk(m: Markup)
    requires OpenTags(m).Nested? && forall n | n in Tags(m) :: NodeNamesOk(n)
    ensures MarkupNamesOk(m)
  {
    if m.Then? {
      assert Tags(m.before) <= Tags(m);
      assert forall n | n in Tags(m.before) :: n in Tags(m);
      NestedNamesOk(m.before);
      if m.last.Open? { assert m.last.node in Tags(m); }
      if m.last.Close? {
        var open := OpenTags(m.before).open;
        var node := open[|open| - 1];
        OpenAreTags(m.before);
        assert node in Tags(m);
        LowerNameOk(node.name);
      }
    }
  }

  lemma {:induction false} QuotesIffTags(m: Markup)
    ensures NoQuotes(m) <==> forall n | n in Tags(m) :: !AnyQuote(n.attributes)
  {
    if m.Then? { QuotesIffTags(m.before); }
  }

  /** Nested markup is read back from the string it is written as if and only if
      none of its nodes has a quote in the value of an attribute. */
  lemma NestedReadBackIff(m: Markup)
    requires OpenTags(m).Nested? && forall n | n in Tags(m) :: NodeNamesOk(n)
    ensures Read(Render(m)) == Some(PiecesOf(m, Done)) <==> forall n | n in Tags(m) :: !AnyQuote(n.attributes)
  {
    NestedNamesOk(m);
    QuotesIffTags(m);
    MarkupReadBackIff(m);
  }

  lemma QuotedTag(before: Markup, node: Node)
    requires AnyQuote(node.attributes)
    ensures !NoQuotes(Then(before, Open(node)))
  {
  }

  lemma StillQuoted(before: Markup, t: Token)
    requires !NoQuotes(before)
    ensures !NoQuotes(Then(before, t))
  {
  }

  /** The value swallows the end of its own tag and the letter behind it. */
  lemma QuoteSwallows(id: int)
    ensures var m := Then(Then(Then(Blank, Open(Node(id, "b", [("t", "\" x=")]))), Text("a")), Close("b"));
      MarkupNamesOk(m) && Read(Render(m)) != Some(PiecesOf(m, Done))
  {
    var node := Node(id, "b", [("t", "\" x=")]);
    assert node.attributes[0].1[0] == '"' && AnyQuote(node.attributes);
    assert NameOk("b") && NameOk("t") && TokenNamesOk(Open(node));
    var tagged := Then(Blank, Open(node));
    var shown := Then(tagged, Text("a"));
    assert MarkupNamesOk(tagged) && MarkupNamesOk(shown);
    QuotedTag(Blank, node);
    StillQuoted(tagged, Text("a"));
    StillQuoted(shown, Close("b"));
    MarkupReadBackIff(Then(shown, Close("b")));
  }
}
