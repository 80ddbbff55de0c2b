/**
 Reading sanitised text back into tokens, as an HTML tokenizer does: a less-than sign begins markup
 before a letter, an exclamation mark, a question mark or a slash that is not the last character, and
 is text otherwise; character references are decoded in text and in attribute values, each by a table
 of its own, since their rules differ.
 */
module HtmlReader {
  import opened Wrappers
  import opened LetterCase
  import opened Sequences
  import opened HtmlSanitizer

  predicate IsLetter(c: char) {
    'a' <= c <= 'z' || 'A' <= c <= 'Z'
  }

  predicate IsNameChar(c: char) {
    IsLetter(c) || '0' <= c <= '9' || c in {'-', '_', ':'}
  }

  predicate IsName(s: string) {
    s != "" && IsLetter(s[0]) && forall i :: 0 <= i < |s| ==> IsNameChar(s[i])
  }

  /** The reference at the beginning of a text, if there is one: what it stands for and its length. */
  type Table = string -> Option<(string, nat)>

  datatype Tables = Tables(text: Table, value: Table)

  /** References begin with an ampersand and are no shorter than what they stand for. */
  ghost predicate IsTable(table: Table) {
    forall s :: table(s).Some? ==>
      "&" <= s && 0 < table(s).value.1 <= |s| && |table(s).value.0| <= table(s).value.1
  }

  /** The table knows the five references that the escaper writes. */
  ghost predicate KnowsEscapes(table: Table) {
    forall c, tail: string :: |EscapeChar(c)| > 1 ==>
      table(EscapeChar(c) + tail) == Some(([c], |EscapeChar(c)|))
  }

  ghost predicate AreTables(tables: Tables) {
    IsTable(tables.text) && IsTable(tables.value) && KnowsEscapes(tables.value)
  }

  function Unescape(table: Table, s: string): string
    decreases |s|
  {
    if s == "" then ""
    else
      match table(s)
      case Some((text, n)) => if 0 < n <= |s| then text + Unescape(table, s[n..]) else s
      case None => [s[0]] + Unescape(table, s[1..])
  }

  predicate OpensMarkup(s: string) {
    |s| >= 2 && s[0] == '<' && (IsLetter(s[1]) || s[1] in {'!', '?'} || (s[1] == '/' && |s| > 2))
  }

  /** How many characters come before the next markup. */
  function TextLength(s: string): (n: nat)
    ensures n <= |s|
  {
    if s == "" || OpensMarkup(s) then 0 else 1 + TextLength(s[1..])
  }

  function NameLength(s: string): (n: nat)
    ensures n <= |s|
  {
    if s == "" || !IsNameChar(s[0]) then 0 else 1 + NameLength(s[1..])
  }

  function QuoteIndex(s: string): (n: nat)
    ensures n <= |s|
  {
    if s == "" || s[0] == '\"' then 0 else 1 + QuoteIndex(s[1..])
  }

  /** The attributes of an open tag, and what follows the tag. */
  function ReadAttrs(table: Table, s: string): (r: Option<(seq<Attr>, string)>)
    ensures r.Some? ==> |r.value.1| < |s|
    decreases |s|
  {
    if s == "" then None
    else if s[0] == '>' then Some(([], s[1..]))
    else if s[0] != ' ' then None
    else
      var n := NameLength(s[1..]);
      var value := s[1 + n..];
      if n == 0 || !("=\"" <= value) then None
      else
        var m := QuoteIndex(value[2..]);
        if 2 + m == |value| then None
        else
          match ReadAttrs(table, value[2 + m + 1..])
          case None => None
          case Some((attrs, rest)) => Some(([Attr(s[1..][..n], Unescape(table, value[2..][..m]))] + attrs, rest))
  }

  function Prepend(token: Token, tokens: Option<seq<Token>>): Option<seq<Token>> {
    if tokens.None? then None else Some([token] + tokens.value)
  }

  /** The tokens of a text, if it holds nothing but text and well-formed tags. */
  function Read(tables: Tables, s: string): Option<seq<Token>>
    decreases |s|
  {
    if s == "" then Some([])
    else if !OpensMarkup(s) then
      var n := TextLength(s);
      Prepend(TextToken(Unescape(tables.text, s[..n])), Read(tables, s[n..]))
    else if s[1] == '/' then
      var n := NameLength(s[2..]);
      if n == 0 || 2 + n == |s| || s[2 + n] != '>' then None
      else Prepend(Close(s[2..][..n]), Read(tables, s[2 + n + 1..]))
    else if IsLetter(s[1]) then
      var n := NameLength(s[1..]);
      match ReadAttrs(tables.value, s[1..][n..])
      case None => None
      case Some((attrs, rest)) => Prepend(Open(s[1..][..n], attrs), Read(tables, rest))
    else None
  }

  // ----- Attribute values -----

  lemma UnescapeOne(table: Table, c: char, tail: string)
    requires IsTable(table) && KnowsEscapes(table)
    ensures Unescape(table, EscapeChar(c) + tail) == [c] + Unescape(table, tail)
  {
    var e := EscapeChar(c);
    var s := e + tail;
    assert s[0] == e[0] && s[..|e|] == e && s[|e|..] == tail;
    if |e| == 1 {
      assert s[0] != '&';
      assert table(s) == None;
    }
  }

  /** Unescaping undoes escaping, with any table that knows the escapes. */
  lemma {:induction false} UnescapeEscape(table: Table, s: string)
    requires IsTable(table) && KnowsEscapes(table)
    ensures Unescape(table, EscapeText(s)) == s
  {
    hide IsTable, KnowsEscapes;
    if s != "" {
      UnescapeOne(table, s[0], EscapeText(s[1..]));
      UnescapeEscape(table, s[1..]);
    }
  }

  lemma {:induction false} UnescapeShortens(table: Table, s: string)
    requires IsTable(table)
    ensures |Unescape(table, s)| <= |s|
    decreases |s|
  {
    if s != "" {
      match table(s)
      case Some((text, n)) => UnescapeShortens(table, s[n..]);
      case None => UnescapeShortens(table, s[1..]);
    }
  }

  /** The least of such tables: the escapes and nothing else. */
  function OnlyEscapes(s: string): Option<(string, nat)> {
    if "&lt;" <= s then Some(("<", 4))
    else if "&gt;" <= s then Some((">", 4))
    else if "&amp;" <= s then Some(("&", 5))
    else if "&#39;" <= s then Some(("\'", 5))
    else if "&#34;" <= s then Some(("\"", 5))
    else None
  }

  lemma OnlyEscapesIsATable()
    ensures IsTable(OnlyEscapes) && KnowsEscapes(OnlyEscapes)
  {
    forall s | OnlyEscapes(s).Some? ensures "&" <= s {
      assert s[..1] == "&";
    }
    forall c, tail: string | |EscapeChar(c)| > 1 ensures OnlyEscapes(EscapeChar(c) + tail) == Some(([c], |EscapeChar(c)|)) {
      var e := EscapeChar(c);
      var s := e + tail;
      assert e <= s && s[1] == e[1] && s[2] == e[2] && s[3] == e[3];
    }
  }

  lemma {:induction false} QuoteAfterEscaped(s: string, rest: string)
    ensures QuoteIndex(EscapeText(s) + "\"" + rest) == |EscapeText(s)|
  {
    if s == "" {
      assert "" + "\"" + rest == "\"" + rest;
    } else {
      var e, tail := EscapeChar(s[0]), EscapeText(s[1..]) + "\"" + rest;
      QuoteAfterEscaped(s[1..], rest);
      assert EscapeText(s) + "\"" + rest == e + tail;
      QuoteSkips(e, tail);
    }
  }

  lemma {:induction false} QuoteSkips(e: string, tail: string)
    requires '\"' !in e
    ensures QuoteIndex(e + tail) == |e| + QuoteIndex(tail)
  {
    if e == "" {
      assert e + tail == tail;
    } else {
      assert (e + tail)[1..] == e[1..] + tail;
      QuoteSkips(e[1..], tail);
    }
  }

  lemma {:induction false} NameEnds(name: string, rest: string)
    requires forall i :: 0 <= i < |name| ==> IsNameChar(name[i])
    requires rest != "" && !IsNameChar(rest[0])
    ensures NameLength(name + rest) == |name|
  {
    if name == "" {
      assert name + rest == rest;
    } else {
      assert (name + rest)[1..] == name[1..] + rest;
      NameEnds(name[1..], rest);
    }
  }

  ghost predicate AttrsNamed(attrs: seq<Attr>) {
    forall i :: 0 <= i < |attrs| ==> IsName(attrs[i].key)
  }

  lemma Split(a: string, b: string)
    ensures (a + b)[..|a|] == a && (a + b)[|a|..] == b
  {
  }

  lemma SliceTwice(s: string, i: nat, j: nat)
    requires i + j <= |s|
    ensures s[i..][j..] == s[i + j..]
  {
  }

  lemma AttrShape(key: string, escaped: string, tail: string)
    ensures var s := " " + key + "=\"" + escaped + "\"" + tail;
      s[0] == ' ' && s[1..] == key + ("=\"" + (escaped + "\"" + tail))
  {
  }

  lemma ValueShape(escaped: string, tail: string)
    ensures var value := "=\"" + (escaped + "\"" + tail);
      && "=\"" <= value && value[2..] == escaped + "\"" + tail && value[2..][..|escaped|] == escaped
      && 2 + |escaped| < |value| && value[2 + |escaped| + 1..] == tail
  {
  }

  lemma ReadAttrsUnfolds(table: Table, s: string, value: string, n: nat, m: nat)
    requires s != "" && s[0] == ' ' && n > 0 && NameLength(s[1..]) == n && s[1 + n..] == value
    requires "=\"" <= value && QuoteIndex(value[2..]) == m && 2 + m < |value|
    ensures ReadAttrs(table, s) ==
      match ReadAttrs(table, value[2 + m + 1..])
      case None => None
      case Some((attrs, rest)) => Some(([Attr(s[1..][..n], Unescape(table, value[2..][..m]))] + attrs, rest))
  {
    hide NameLength, QuoteIndex, Unescape;
  }

  lemma ReadAttrStep(table: Table, s: string, key: string, value: string, escaped: string, tail: string)
    requires s != "" && s[0] == ' ' && key != "" && s[1..] == key + value && NameLength(s[1..]) == |key|
    requires "=\"" <= value && QuoteIndex(value[2..]) == |escaped| && value[2..][..|escaped|] == escaped
    requires 2 + |escaped| < |value| && value[2 + |escaped| + 1..] == tail
    ensures ReadAttrs(table, s) ==
      match ReadAttrs(table, tail)
      case None => None
      case Some((attrs, rest)) => Some(([Attr(key, Unescape(table, escaped))] + attrs, rest))
  {
    hide *;
    Split(key, value);
    SliceTwice(s, 1, |key|);
    ReadAttrsUnfolds(table, s, value, |key|, |escaped|);
  }

  lemma AttrReads(table: Table, attr: Attr, tail: string)
    requires IsTable(table) && KnowsEscapes(table) && IsName(attr.key)
    ensures ReadAttrs(table, RenderAttr(attr) + tail) ==
      match ReadAttrs(table, tail) case None => None case Some((attrs, rest)) => Some(([attr] + attrs, rest))
  {
    hide ReadAttrs, NameLength, QuoteIndex, Unescape, EscapeText, IsTable, KnowsEscapes;
    var escaped := EscapeText(attr.value);
    AttrShape(attr.key, escaped, tail);
    NameEnds(attr.key, "=\"" + (escaped + "\"" + tail));
    QuoteAfterEscaped(attr.value, tail);
    UnescapeEscape(table, attr.value);
    ValueShape(escaped, tail);
    ReadAttrStep(table, RenderAttr(attr) + tail, attr.key, "=\"" + (escaped + "\"" + tail), escaped, tail);
  }

  lemma {:induction false} AttrsRead(table: Table, attrs: seq<Attr>, rest: string)
    requires IsTable(table) && KnowsEscapes(table) && AttrsNamed(attrs)
    ensures ReadAttrs(table, RenderAttrs(attrs) + (">" + rest)) == Some((attrs, rest))
  {
    if attrs == [] {
      AttrsEnd(table, rest);
    } else {
      assert RenderAttrs(attrs) == RenderAttr(attrs[0]) + RenderAttrs(attrs[1..]);
      assert IsName(attrs[0].key) && AttrsNamed(attrs[1..]);
      hide *;
      var end := ">" + rest;
      AttrsRead(table, attrs[1..], rest);
      AttrReads(table, attrs[0], RenderAttrs(attrs[1..]) + end);
      Regroup(RenderAttr(attrs[0]), RenderAttrs(attrs[1..]), end);
      assert [attrs[0]] + attrs[1..] == attrs;
    }
  }

  lemma AttrsEnd(table: Table, rest: string)
    ensures ReadAttrs(table, RenderAttrs([]) + (">" + rest)) == Some(([], rest))
  {
    assert "" + (">" + rest) == ">" + rest;
    assert (">" + rest)[1..] == rest;
  }

  // ----- Tags -----

  ghost predicate Named(token: Token) {
    match token
    case TextToken(_) => true
    case Open(tag, attrs) => IsName(tag) && AttrsNamed(attrs)
    case Close(tag) => IsName(tag)
  }

  lemma RestOfTag(attrs: seq<Attr>, rest: string)
    ensures var tail := RenderAttrs(attrs) + (">" + rest); tail != "" && !IsNameChar(tail[0])
  {
  }

  /** A tag reads as itself, and opens markup. */
  lemma TagReads(tables: Tables, token: Token, rest: string)
    requires AreTables(tables) && Named(token) && !token.TextToken?
    ensures OpensMarkup(RenderToken(token) + rest)
    ensures Read(tables, RenderToken(token) + rest) == Prepend(token, Read(tables, rest))
  {
    match token
    case Open(tag, attrs) =>
      OpenReads(tables, tag, attrs, rest);
    case Close(tag) =>
      CloseReads(tables, tag, rest);
  }

  lemma OpenShape(tag: string, attrs: string, rest: string)
    requires tag != ""
    ensures var s := "<" + tag + attrs + ">" + rest;
      s[0] == '<' && s[1] == tag[0] && s[1..] == tag + (attrs + (">" + rest))
  {
  }

  lemma ReadOpenStep(tables: Tables, s: string, tag: string, attrs: seq<Attr>, tail: string, rest: string)
    requires OpensMarkup(s) && IsLetter(s[1]) && s[1..] == tag + tail && NameLength(s[1..]) == |tag|
    requires ReadAttrs(tables.value, tail) == Some((attrs, rest))
    ensures Read(tables, s) == Prepend(Open(tag, attrs), Read(tables, rest))
  {
    hide NameLength, ReadAttrs;
    Split(tag, tail);
  }

  lemma OpenReads(tables: Tables, tag: string, attrs: seq<Attr>, rest: string)
    requires AreTables(tables) && IsName(tag) && AttrsNamed(attrs)
    ensures var s := RenderToken(Open(tag, attrs)) + rest;
      OpensMarkup(s) && Read(tables, s) == Prepend(Open(tag, attrs), Read(tables, rest))
  {
    var s, tail := RenderToken(Open(tag, attrs)) + rest, RenderAttrs(attrs) + (">" + rest);
    RestOfTag(attrs, rest);
    NameEnds(tag, tail);
    AttrsRead(tables.value, attrs, rest);
    hide AreTables, RenderAttrs, ReadAttrs, NameLength, Read, AttrsNamed;
    OpenShape(tag, RenderAttrs(attrs), rest);
    ReadOpenStep(tables, s, tag, attrs, tail, rest);
  }

  lemma CloseReads(tables: Tables, tag: string, rest: string)
    requires IsName(tag)
    ensures var s := RenderToken(Close(tag)) + rest;
      OpensMarkup(s) && Read(tables, s) == Prepend(Close(tag), Read(tables, rest))
  {
    var s, tail := RenderToken(Close(tag)) + rest, ">" + rest;
    assert s == "</" + (tag + tail);
    NameEnds(tag, tail);
    hide NameLength, Unescape, TextLength, ReadAttrs;
    assert s[2..] == tag + tail;
    assert s[2..][..|tag|] == tag && s[2 + |tag|] == '>' && s[2 + |tag| + 1..] == rest;
  }

  // ----- Texts -----

  /** Nothing in the text begins markup. Text before a tag has the tag's first character after it. */
  predicate NoMarkup(text: string, last: bool) {
    var s := if last then text else text + "<";
    TextLength(s) == |s|
  }

  /** A text that reads as itself: no markup begins in it, and decoding leaves it as it is. */
  predicate Inert(table: Table, text: string, last: bool) {
    NoMarkup(text, last) && Unescape(table, text) == text
  }

  /** Text without less-than signs and ampersands is inert. */
  lemma PlainTextIsInert(table: Table, text: string, last: bool)
    requires IsTable(table) && '<' !in text && '&' !in text
    ensures Inert(table, text, last)
  {
    PlainHasNoMarkup(text);
    PlainHasNoMarkup(text + "<");
    PlainUnescapes(table, text);
  }

  lemma {:induction false} PlainHasNoMarkup(s: string)
    requires forall i :: 0 <= i < |s| - 1 ==> s[i] != '<'
    ensures TextLength(s) == |s|
  {
    if s != "" {
      PlainHasNoMarkup(s[1..]);
    }
  }

  lemma {:induction false} PlainUnescapes(table: Table, s: string)
    requires IsTable(table) && '&' !in s
    ensures Unescape(table, s) == s
  {
    if s != "" {
      assert s[0] != '&' && table(s) == None;
      PlainUnescapes(table, s[1..]);
    }
  }

  /** Markup that follows a text begins at its end, or the text has markup of its own before that. */
  lemma {:induction false} TextEnds(text: string, rest: string)
    requires rest == "" || OpensMarkup(rest)
    ensures TextLength(text + rest) <= |text|
    ensures TextLength(text + rest) == |text| <==> NoMarkup(text, rest == "")
  {
    if text == "" {
      assert text + rest == rest && "" + "<" == "<";
      assert TextLength("<") == 1 by {
        PlainHasNoMarkup("<");
      }
    } else {
      TextEnds(text[1..], rest);
      assert (text + rest)[1..] == text[1..] + rest && (text + "<")[1..] == text[1..] + "<";
      if rest != "" {
        SameOpening(text, rest);
      } else {
        assert text + rest == text;
      }
    }
  }

  lemma SameOpening(text: string, rest: string)
    requires text != "" && OpensMarkup(rest)
    ensures OpensMarkup(text + rest) <==> OpensMarkup(text + "<")
  {
  }

  lemma ReadText(tables: Tables, s: string)
    requires s != "" && !OpensMarkup(s)
    ensures var n := TextLength(s);
      n > 0 && Read(tables, s) == Prepend(TextToken(Unescape(tables.text, s[..n])), Read(tables, s[n..]))
  {
  }

  /** Markup never reads as text. */
  lemma ReadMarkup(tables: Tables, s: string)
    requires OpensMarkup(s)
    ensures TextLength(s) == 0
    ensures Read(tables, s).Some? ==> Read(tables, s).value != [] && !Read(tables, s).value[0].TextToken?
  {
    hide ReadAttrs, NameLength, Unescape;
  }

  lemma Slices(text: string, rest: string, n: nat)
    requires n <= |text|
    ensures (text + rest)[..n] == text[..n] && (text + rest)[n..] == text[n..] + rest
  {
  }

  /** A text before markup, or at the end, reads as itself if and only if it is inert. */
  lemma TextReadsIff(tables: Tables, text: string, rest: string)
    requires IsTable(tables.text) && text != "" && (rest == "" || OpensMarkup(rest))
    ensures var read := Read(tables, text + rest);
      if Inert(tables.text, text, rest == "") then read == Prepend(TextToken(text), Read(tables, rest))
      else read.Some? ==> read.value != [] && read.value[0] != TextToken(text)
  {
    hide Read, TextLength, Unescape, OpensMarkup, NoMarkup, IsTable;
    var s := text + rest;
    var n := TextLength(s);
    TextEnds(text, rest);
    if OpensMarkup(s) {
      ReadMarkup(tables, s);
    } else {
      ReadText(tables, s);
      Slices(text, rest, n);
      UnescapeShortens(tables.text, text[..n]);
      if n == |text| {
        assert text[..n] == text && text[n..] + rest == rest;
      }
    }
  }

  // ----- Streams -----

  /** The stream with neighbouring texts joined and empty ones dropped: what its text can show. */
  function Merged(tokens: seq<Token>): seq<Token> {
    if tokens == [] then []
    else
      var rest := Merged(tokens[1..]);
      if !tokens[0].TextToken? then [tokens[0]] + rest
      else if tokens[0].data == "" then rest
      else if rest != [] && rest[0].TextToken? then [TextToken(tokens[0].data + rest[0].data)] + rest[1..]
      else [tokens[0]] + rest
  }

  ghost predicate Normal(tokens: seq<Token>) {
    forall i :: 0 <= i < |tokens| && tokens[i].TextToken? ==>
      tokens[i].data != "" && (i + 1 < |tokens| ==> !tokens[i + 1].TextToken?)
  }

  ghost predicate AllNamed(tokens: seq<Token>) {
    forall i :: 0 <= i < |tokens| ==> Named(tokens[i])
  }

  lemma {:induction false} MergedRendersSame(tokens: seq<Token>)
    ensures Render(Merged(tokens)) == Render(tokens)
  {
    if tokens != [] {
      MergedRendersSame(tokens[1..]);
      var first, rest := tokens[0], Merged(tokens[1..]);
      if first.TextToken? && first.data != "" && rest != [] && rest[0].TextToken? {
        var joined := [TextToken(first.data + rest[0].data)] + rest[1..];
        assert joined[1..] == rest[1..];
        Regroup(first.data, rest[0].data, Render(rest[1..]));
      } else {
        assert ([first] + rest)[1..] == rest;
      }
    }
  }

  lemma {:induction false} MergedIsNormal(tokens: seq<Token>)
    ensures Normal(Merged(tokens))
    ensures AllNamed(tokens) ==> AllNamed(Merged(tokens))
  {
    if tokens != [] {
      MergedIsNormal(tokens[1..]);
    }
  }

  ghost predicate AllInert(table: Table, tokens: seq<Token>) {
    forall i :: 0 <= i < |tokens| && tokens[i].TextToken? ==> Inert(table, tokens[i].data, i == |tokens| - 1)
  }

  lemma {:induction false} NormalReadsBackIff(tables: Tables, tokens: seq<Token>)
    requires AreTables(tables) && AllNamed(tokens) && Normal(tokens)
    ensures Read(tables, Render(tokens)) == Some(tokens) <==> AllInert(tables.text, tokens)
  {
    if tokens != [] {
      hide Read, Inert, Named, OpensMarkup, RenderToken;
      var first, rest := tokens[0], tokens[1..];
      assert tokens == [first] + rest;
      NormalReadsBackIff(tables, rest);
      if first.TextToken? {
        RestAfterText(tables, rest);
        TextReadsIff(tables, first.data, Render(rest));
        TextRenders(first);
      } else {
        TagReads(tables, first, Render(rest));
      }
      AllInertSplits(tables.text, tokens);
      PrependIs(first, Read(tables, Render(rest)), rest);
    } else {
      assert Read(tables, Render([])) == Some([]);
    }
  }

  lemma TextRenders(token: Token)
    requires token.TextToken?
    ensures RenderToken(token) == token.data
  {
  }

  lemma AllInertSplits(table: Table, tokens: seq<Token>)
    requires tokens != []
    ensures AllInert(table, tokens) <==>
      (tokens[0].TextToken? ==> Inert(table, tokens[0].data, |tokens| == 1)) && AllInert(table, tokens[1..])
  {
    hide Inert;
    assert forall i :: 1 <= i < |tokens| ==> tokens[i] == tokens[1..][i - 1];
  }

  lemma RestAfterText(tables: Tables, rest: seq<Token>)
    requires AreTables(tables) && AllNamed(rest) && (rest != [] ==> !rest[0].TextToken?)
    ensures rest == [] <==> Render(rest) == ""
    ensures rest != [] ==> OpensMarkup(Render(rest))
  {
    if rest != [] {
      TagReads(tables, rest[0], Render(rest[1..]));
    }
  }

  lemma PrependIs(token: Token, read: Option<seq<Token>>, rest: seq<Token>)
    ensures Prepend(token, read) == Some([token] + rest) <==> read == Some(rest)
  {
    if read.Some? && [token] + read.value == [token] + rest {
      assert read.value == ([token] + read.value)[1..] == rest;
    }
  }

  /** With any tables: the text of a stream reads back as the stream if and only if every text in it is
      inert. */
  lemma ReadsBackIff(tables: Tables, tokens: seq<Token>)
    requires AreTables(tables) && AllNamed(tokens)
    ensures Read(tables, Render(tokens)) == Some(Merged(tokens)) <==> AllInert(tables.text, Merged(tokens))
  {
    MergedRendersSame(tokens);
    MergedIsNormal(tokens);
    NormalReadsBackIff(tables, Merged(tokens));
  }

  // ----- What a sanitised text holds -----

  /** A policy that allows names only, as every policy in use does. */
  ghost predicate AllowsNames(policy: Policy) {
    (forall tag :: tag in policy.tags ==> IsName(tag)) && (forall attr :: attr in policy.attrs ==> IsName(attr))
  }

  lemma LowerNameIsName(key: string)
    requires IsName(ToLower(key))
    ensures IsName(key)
  {
    forall i | 0 <= i < |key| ensures IsNameChar(key[i]) && (i == 0 ==> IsLetter(key[0])) {
      assert ToLower(key)[i] == LowerChar(key[i]);
    }
  }

  lemma AllowedIsNamed(policy: Policy, tokens: seq<Token>)
    requires AllowsNames(policy) && TokensAllowed(policy, tokens)
    ensures AllNamed(tokens)
  {
    forall i | 0 <= i < |tokens| ensures Named(tokens[i]) {
      assert TokenAllowed(policy, tokens[i]);
      if tokens[i].Open? {
        forall j | 0 <= j < |tokens[i].attrs| ensures IsName(tokens[i].attrs[j].key) {
          assert Qualifies(policy, tokens[i].attrs[j]);
          LowerNameIsName(tokens[i].attrs[j].key);
        }
      }
    }
  }

  lemma {:induction false} MergedIsAllowed(policy: Policy, tokens: seq<Token>)
    requires TokensAllowed(policy, tokens)
    ensures TokensAllowed(policy, Merged(tokens))
  {
    if tokens != [] {
      assert TokenAllowed(policy, tokens[0]);
      MergedIsAllowed(policy, tokens[1..]);
    }
  }

  /** With any tables: the sanitised text of a tree reads back as the sanitised stream, all of it
      allowed, if and only if every text in that stream is inert. */
  lemma SanitizedReadsBackIff(tables: Tables, policy: Policy, node: Node)
    requires AreTables(tables) && AllowsNames(policy)
    ensures var tokens := Merged(Sanitize(policy, node));
      && TokensAllowed(policy, tokens)
      && (Read(tables, Render(Sanitize(policy, node))) == Some(tokens) <==> AllInert(tables.text, tokens))
  {
    OutputIsAllowed(policy, node);
    AllowedIsNamed(policy, Sanitize(policy, node));
    MergedIsAllowed(policy, Sanitize(policy, node));
    ReadsBackIff(tables, Sanitize(policy, node));
  }

  /** Text is not escaped: one that spells a tag is read as that tag, allowed or not. */
  lemma TextCanReadAsTag(tables: Tables, policy: Policy, tag: string)
    requires AreTables(tables) && IsName(tag)
    ensures Read(tables, Render(Sanitize(policy, Text("<" + tag + ">")))) == Some([Open(tag, [])])
    ensures tag !in policy.tags ==> !TokensAllowed(policy, [Open(tag, [])])
  {
    var token, text := Open(tag, []), "<" + tag + ">";
    RenderOne(TextToken(text));
    RenderNothing();
    OpenReads(tables, tag, [], "");
    hide AreTables, IsName, OpensMarkup;
    assert RenderToken(token) + "" == text;
    assert Read(tables, "") == Some([]) && [token] + [] == [token];
    assert !TokenAllowed(policy, token) ==> !TokensAllowed(policy, [token]) by {
      assert [token][0] == token;
    }
  }
}
