/** Escaping of log values as KDL strings, and the reader that undoes it. */
module KdlEscape {
  import opened Wrappers
  import opened Sequences

  /** Every occurrence of a character replaced by a text. */
  function ReplaceAll(s: string, from: char, to: string): string {
    if s == "" then "" else (if s[0] == from then to else [s[0]]) + ReplaceAll(s[1..], from, to)
  }

  /** The five replacements, in the order the encoder makes them. */
  function Escape(s: string): string {
    ReplaceAll(ReplaceAll(ReplaceAll(ReplaceAll(ReplaceAll(
      s, '\\', "\\\\"), '\"', "\\\""), '\n', "\\n"), '\r', "\\r"), '\t', "\\t")
  }

  /** One character escaped on its own. */
  function EscapeChar(c: char): string {
    match c
    case '\\' => "\\\\"
    case '\"' => "\\\""
    case '\n' => "\\n"
    case '\r' => "\\r"
    case '\t' => "\\t"
    case _ => [c]
  }

  function EscapeEach(s: string): string {
    if s == "" then "" else EscapeChar(s[0]) + EscapeEach(s[1..])
  }

  /** The character a KDL escape letter stands for (String section of the KDL 1.0.0 specification). */
  function EscapeLetter(letter: char): Option<char> {
    match letter
    case '\\' => Some('\\')
    case '/' => Some('/')
    case '\"' => Some('\"')
    case 'n' => Some('\n')
    case 'r' => Some('\r')
    case 't' => Some('\t')
    case 'b' => Some('\U{8}')
    case 'f' => Some('\U{C}')
    case _ => None
  }

  /** Reads a string body up to its closing quote: the value, and what follows the quote. */
  function ReadString(s: string): Option<(string, string)>
    decreases |s|
  {
    if s == "" then None
    else if s[0] == '\"' then Some(("", s[1..]))
    else if s[0] == '\\' then
      if |s| == 1 || EscapeLetter(s[1]).None? then None
      else
        match ReadString(s[2..])
        case None => None
        case Some((value, rest)) => Some(([EscapeLetter(s[1]).value] + value, rest))
    else
      match ReadString(s[1..])
      case None => None
      case Some((value, rest)) => Some(([s[0]] + value, rest))
  }

  lemma {:induction false} ReplaceAllConcat(a: string, b: string, from: char, to: string)
    ensures ReplaceAll(a + b, from, to) == ReplaceAll(a, from, to) + ReplaceAll(b, from, to)
  {
    if a == "" {
      assert a + b == b;
    } else {
      ReplaceAllConcat(a[1..], b, from, to);
      var head := if a[0] == from then to else [a[0]];
      assert (a + b)[0] == a[0] && (a + b)[1..] == a[1..] + b;
      assert ReplaceAll(a + b, from, to) == head + ReplaceAll(a[1..] + b, from, to);
      assert ReplaceAll(a, from, to) == head + ReplaceAll(a[1..], from, to);
      Regroup(head, ReplaceAll(a[1..], from, to), ReplaceAll(b, from, to));
    }
  }

  lemma ReplaceOne(c: char, from: char, to: string)
    ensures ReplaceAll([c], from, to) == if c == from then to else [c]
  {
    assert [c][1..] == "";
  }

  lemma ReplaceTwo(a: char, b: char, from: char, to: string)
    requires a != from && b != from
    ensures ReplaceAll([a, b], from, to) == [a, b]
  {
    ReplaceOne(a, from, to);
    ReplaceOne(b, from, to);
    ReplaceAllConcat([a], [b], from, to);
    assert [a] + [b] == [a, b];
  }

  lemma EscapeConcat(a: string, b: string)
    ensures Escape(a + b) == Escape(a) + Escape(b)
  {
    ReplaceAllConcat(a, b, '\\', "\\\\");
    var a1, b1 := ReplaceAll(a, '\\', "\\\\"), ReplaceAll(b, '\\', "\\\\");
    ReplaceAllConcat(a1, b1, '\"', "\\\"");
    var a2, b2 := ReplaceAll(a1, '\"', "\\\""), ReplaceAll(b1, '\"', "\\\"");
    ReplaceAllConcat(a2, b2, '\n', "\\n");
    var a3, b3 := ReplaceAll(a2, '\n', "\\n"), ReplaceAll(b2, '\n', "\\n");
    ReplaceAllConcat(a3, b3, '\r', "\\r");
    ReplaceAllConcat(ReplaceAll(a3, '\r', "\\r"), ReplaceAll(b3, '\r', "\\r"), '\t', "\\t");
  }

  /** What one replacement writes, the later ones leave alone. */
  lemma EscapeOne(c: char)
    ensures Escape([c]) == EscapeChar(c)
  {
    forall from, to ensures ReplaceAll([c], from, to) == if c == from then to else [c] {
      ReplaceOne(c, from, to);
    }
    var escaped := EscapeChar(c);
    if |escaped| == 2 {
      forall from, to | escaped[0] != from && escaped[1] != from ensures ReplaceAll(escaped, from, to) == escaped {
        ReplaceTwo(escaped[0], escaped[1], from, to);
        assert escaped == [escaped[0], escaped[1]];
      }
    }
  }

  /** The successive global replacements are one pass that escapes each character on its own. */
  lemma {:induction false} EscapeIsOnePass(s: string)
    ensures Escape(s) == EscapeEach(s)
  {
    if s != "" {
      assert s == [s[0]] + s[1..];
      EscapeConcat([s[0]], s[1..]);
      EscapeOne(s[0]);
      EscapeIsOnePass(s[1..]);
    }
  }

  /** Of one character, only the backslash, the quote, and the three controls are changed. */
  lemma EscapeLeavesOthers(c: char)
    requires c !in {'\\', '\"', '\n', '\r', '\t'}
    ensures Escape([c]) == [c]
  {
    EscapeOne(c);
  }

  /** The reader takes an escaped character for the character. */
  lemma ReadOne(c: char, tail: string)
    ensures ReadString(EscapeChar(c) + tail) ==
      match ReadString(tail) case None => None case Some((value, rest)) => Some(([c] + value, rest))
  {
    assert (EscapeChar(c) + tail)[|EscapeChar(c)|..] == tail;
  }

  /** An escaped value between quotes reads back as itself, and the reader stops at the quote that
      closes it: no quote inside is taken for the end. */
  lemma {:induction false} EscapeReadsBack(s: string, rest: string)
    ensures ReadString(Escape(s) + "\"" + rest) == Some((s, rest))
  {
    EscapeIsOnePass(s);
    if s == "" {
      assert "" + "\"" + rest == "\"" + rest;
    } else {
      EscapeIsOnePass(s[1..]);
      EscapeReadsBack(s[1..], rest);
      hide Escape;
      var tail := EscapeEach(s[1..]) + "\"" + rest;
      assert EscapeEach(s) + "\"" + rest == EscapeChar(s[0]) + tail;
      ReadOne(s[0], tail);
      assert s == [s[0]] + s[1..];
    }
  }

  /** The output holds no raw line break, carriage return or tab. */
  lemma {:induction false} EscapeHasNoControls(s: string)
    ensures forall i :: 0 <= i < |Escape(s)| ==> Escape(s)[i] !in {'\n', '\r', '\t'}
  {
    EscapeIsOnePass(s);
    if s != "" {
      EscapeHasNoControls(s[1..]);
      EscapeIsOnePass(s[1..]);
    }
  }
}
