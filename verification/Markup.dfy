/** Lines of HTML: escaped text, tags that nest, and what a page shows of a line. */
module Markup {
  import opened Collections
  import opened Wrappers

  // ---------- Escaped text ----------

  predicate IsSpecial(c: char) {
    c == '&' || c == '<' || c == '>'
  }

  predicate Plain(text: string) {
    forall i | 0 <= i < |text| :: !IsSpecial(text[i])
  }

  function EscapeChar(c: char): string {
    if c == '&' then "&amp;"
    else if c == '<' then "&lt;"
    else if c == '>' then "&gt;"
    else [c]
  }

  function Escape(text: string): string {
    if text == [] then [] else EscapeChar(text[0]) + Escape(text[1..])
  }

  lemma {:induction false} EscapeAppend(a: string, b: string)
    ensures Escape(a + b) == Escape(a) + Escape(b)
  {
    if a == [] {
      assert a + b == b;
    } else {
      hide EscapeChar;
      EscapeAppend(a[1..], b);
      assert (a + b)[1..] == a[1..] + b;
      Associative(EscapeChar(a[0]), Escape(a[1..]), Escape(b));
    }
  }

  lemma {:induction false} PlainIsItsOwnEscape(text: string)
    requires Plain(text)
    ensures Escape(text) == text
  {
    if text != [] {
      PlainIsItsOwnEscape(text[1..]);
    }
  }

  /** The text that a page shows for escaped text; undefined if an ampersand starts no escape. */
  function Unescape(html: string): Option<string>
    decreases |html|, 0
  {
    if html == [] then Some([])
    else if html[0] != '&' then ThenUnescape(html[0], html[1..])
    else if "&amp;" <= html then ThenUnescape('&', html[5..])
    else if "&lt;" <= html then ThenUnescape('<', html[4..])
    else if "&gt;" <= html then ThenUnescape('>', html[4..])
    else None
  }

  function ThenUnescape(c: char, html: string): Option<string>
    decreases |html|, 1
  {
    match Unescape(html)
    case None => None
    case Some(text) => Some([c] + text)
  }

  /** Nothing is lost in escaping, and a page shows the text that was escaped. */
  lemma {:induction false} UnescapeEscape(text: string)
    ensures Unescape(Escape(text)) == Some(text)
  {
    if text != [] {
      UnescapeEscape(text[1..]);
      var html := Escape(text);
      assert html[|EscapeChar(text[0])|..] == Escape(text[1..]);
      assert text[0] == '<' ==> html[1] == 'l';
      assert text[0] == '>' ==> html[1] == 'g';
      assert [text[0]] + text[1..] == text;
    }
  }

  // ---------- Tags that nest ----------

  /** The text outside of the tags, and the names of the tags that are still open. */
  datatype Scanned = Scanned(text: string, open: seq<string>)

  function TagEnd(html: string): (n: nat)
    ensures n <= |html| && '>' !in html[..n]
    ensures n < |html| ==> html[n] == '>'
  {
    if html == [] || html[0] == '>' then 0
    else
      var n := TagEnd(html[1..]);
      assert html[..n + 1] == [html[0]] + html[1..][..n];
      n + 1
  }

  /** A tag's name, which ends where its attributes start. */
  function Name(tag: string): string {
    if tag == [] || tag[0] == ' ' then [] else [tag[0]] + Name(tag[1..])
  }

  /** The open tags after this one; undefined if it closes another tag than the innermost. */
  function Nest(tag: string, open: seq<string>): Option<seq<string>> {
    if tag == [] then None
    else if tag[0] != '/' then Some(open + [Name(tag)])
    else if open != [] && open[|open| - 1] == tag[1..] then Some(open[..|open| - 1])
    else None
  }

  /** Reads a line from its start; undefined if tags do not nest, or a bracket belongs to no tag. */
  function Scan(html: string, open: seq<string>): Option<Scanned> {
    if html == [] then Some(Scanned([], open))
    else if html[0] == '>' then None
    else if html[0] != '<' then
      match Scan(html[1..], open)
      case None => None
      case Some(rest) => Some(Scanned([html[0]] + rest.text, rest.open))
    else
      var n := TagEnd(html);
      if n == |html| then None
      else
        match Nest(html[1..n], open)
        case None => None
        case Some(inner) => Scan(html[n + 1..], inner)
  }

  lemma {:induction false} TagEndAppend(a: string, b: string)
    requires TagEnd(a) < |a|
    ensures TagEnd(a + b) == TagEnd(a)
  {
    if a[0] != '>' {
      TagEndAppend(a[1..], b);
      assert (a + b)[1..] == a[1..] + b;
    }
  }

  /** Reading two pieces is reading the first, and then the second inside of the tags that the first leaves open. */
  lemma {:induction false} ScanThen(a: string, b: string, open: seq<string>)
    requires Scan(a, open).Some?
    ensures var first := Scan(a, open).value;
      Scan(a + b, open) ==
        match Scan(b, first.open) case None => None case Some(second) => Some(Scanned(first.text + second.text, second.open))
    decreases |a|
  {
    if a == [] {
      assert a + b == b;
      assert forall text: string :: [] + text == text;
    } else if a[0] != '<' {
      ScanThen(a[1..], b, open);
      assert (a + b)[1..] == a[1..] + b;
      if Scan(b, Scan(a, open).value.open).Some? {
        Associative([a[0]], Scan(a[1..], open).value.text, Scan(b, Scan(a, open).value.open).value.text);
      }
    } else {
      var n := TagEnd(a);
      TagEndAppend(a, b);
      assert (a + b)[1..n] == a[1..n];
      assert (a + b)[n + 1..] == a[n + 1..] + b;
      ScanThen(a[n + 1..], b, Nest(a[1..n], open).value);
    }
  }

  /** What nests by itself also nests inside other tags. */
  lemma {:induction false} ScanInside(html: string, outer: seq<string>, open: seq<string>)
    requires Scan(html, open).Some?
    ensures var alone := Scan(html, open).value;
      Scan(html, outer + open) == Some(Scanned(alone.text, outer + alone.open))
    decreases |html|
  {
    if html != [] {
      if html[0] != '<' {
        ScanInside(html[1..], outer, open);
      } else {
        var n := TagEnd(html);
        var inner := Nest(html[1..n], open).value;
        assert (outer + open) + [Name(html[1..n])] == outer + (open + [Name(html[1..n])]);
        assert open != [] ==> (outer + open)[..|outer + open| - 1] == outer + open[..|open| - 1];
        ScanInside(html[n + 1..], outer, inner);
      }
    }
  }

  /** The line's tags are closed in the order that nesting asks for, and outside of them is exactly this text. */
  predicate Shows(html: string, text: string) {
    Scan(html, []) == Some(Scanned(text, []))
  }

  lemma ShowsAppend(a: string, b: string, first: string, second: string)
    requires Shows(a, first) && Shows(b, second)
    ensures Shows(a + b, first + second)
  {
    ScanThen(a, b, []);
  }

  lemma {:induction false} UntaggedShowsItself(html: string)
    requires '<' !in html && '>' !in html
    ensures Shows(html, html)
  {
    if html != [] {
      UntaggedShowsItself(html[1..]);
      assert [html[0]] + html[1..] == html;
    }
  }

  lemma {:induction false} EscapeHasNoTags(text: string)
    ensures '<' !in Escape(text) && '>' !in Escape(text)
  {
    if text != [] {
      EscapeHasNoTags(text[1..]);
    }
  }

  lemma EscapeShowsItself(text: string)
    ensures Shows(Escape(text), Escape(text))
  {
    EscapeHasNoTags(text);
    UntaggedShowsItself(Escape(text));
  }

  /** An opening tag and the tag that closes it. */
  predicate IsPair(prefix: string, suffix: string) {
    && |prefix| > 2 && prefix[0] == '<' && prefix[1] != '/' && TagEnd(prefix) == |prefix| - 1
    && suffix == "</" + Name(prefix[1..|prefix| - 1]) + ">"
  }

  lemma {:induction false} NameHasNoBracket(tag: string)
    requires '>' !in tag
    ensures '>' !in Name(tag)
  {
    if tag != [] {
      NameHasNoBracket(tag[1..]);
    }
  }

  lemma {:induction false} TagEndIs(html: string, n: nat)
    requires n < |html| && html[n] == '>' && '>' !in html[..n]
    ensures TagEnd(html) == n
  {
    if n > 0 {
      assert html[0] == html[..n][0];
      assert html[1..][..n - 1] == html[..n][1..];
      TagEndIs(html[1..], n - 1);
    }
  }

  /** The name of the element that an opening tag opens. */
  function Element(prefix: string): string
    requires |prefix| > 2
  {
    Name(prefix[1..|prefix| - 1])
  }

  lemma ElementHasNoBracket(prefix: string, suffix: string)
    requires IsPair(prefix, suffix)
    ensures '>' !in Element(prefix) && suffix == "</" + Element(prefix) + ">"
  {
    var tag := prefix[1..|prefix| - 1];
    assert '>' !in tag by {
      assert forall i | 0 <= i < |tag| :: tag[i] == prefix[..|prefix| - 1][i + 1];
    }
    NameHasNoBracket(tag);
  }

  lemma ScanPrefix(prefix: string, suffix: string, open: seq<string>)
    requires IsPair(prefix, suffix)
    ensures Scan(prefix, open) == Some(Scanned([], open + [Element(prefix)]))
  {}

  lemma ScanSuffix(name: string, open: seq<string>)
    requires '>' !in name
    ensures Scan("</" + name + ">", open + [name]) == Some(Scanned([], open))
  {
    var html, n := "</" + name + ">", |name| + 2;
    assert html[..n] == "</" + name;
    TagEndIs(html, n);
    assert html[1..n] == "/" + name;
    assert (open + [name])[..|open|] == open;
  }

  /** Behind an opening tag, the same is read inside of one more element. */
  lemma ScanOpened(prefix: string, suffix: string, html: string)
    requires IsPair(prefix, suffix) && Scan(html, []).Some?
    ensures var alone := Scan(html, []).value;
      Scan(prefix + html, []) == Some(Scanned(alone.text, [Element(prefix)] + alone.open))
  {
    ScanPrefix(prefix, suffix, []);
    hide Scan, Element, IsPair;
    assert [] + [Element(prefix)] == [Element(prefix)];
    ScanInside(html, [Element(prefix)], []);
    assert [Element(prefix)] + [] == [Element(prefix)];
    ScanThen(prefix, html, []);
    assert [] + Scan(html, []).value.text == Scan(html, []).value.text;
  }

  lemma WrappedShows(prefix: string, html: string, suffix: string, text: string)
    requires IsPair(prefix, suffix) && Shows(html, text)
    ensures Shows(prefix + html + suffix, text)
  {
    ElementHasNoBracket(prefix, suffix);
    hide Scan, Element, IsPair;
    ScanOpened(prefix, suffix, html);
    ScanSuffix(Element(prefix), []);
    assert [] + [Element(prefix)] == [Element(prefix)] + [];
    ScanThen(prefix + html, suffix, []);
    assert text + [] == text;
  }

  /** What a page shows of the line, if its tags nest. */
  function Displayed(html: string): Option<string> {
    match Scan(html, [])
    case None => None
    case Some(scanned) => if scanned.open == [] then Unescape(scanned.text) else None
  }

  lemma DisplayedIsSource(html: string, source: string)
    requires Shows(html, Escape(source))
    ensures Displayed(html) == Some(source)
  {
    UnescapeEscape(source);
  }
}
