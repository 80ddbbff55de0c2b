/** White space in text: trimming, splitting into fields, and the one-pass normaliser. */
module Whitespace {
  /** The characters that Unicode calls white space. */
  predicate IsSpace(c: char): (space: bool)
    ensures space <==> c as int in {9, 10, 11, 12, 13, 32, 133, 160, 5760, 8232, 8233, 8239, 8287, 12288}
                       || 8192 <= c as int <= 8202
  {
    || c in {' ', '\t', '\n', '\r', '\U{B}', '\U{C}', '\U{85}', '\U{A0}', '\U{1680}'}
    || '\U{2000}' <= c <= '\U{200A}'
    || c in {'\U{2028}', '\U{2029}', '\U{202F}', '\U{205F}', '\U{3000}'}
  }

  function SkipSpaces(s: string): (t: string)
    ensures |t| <= |s|
    ensures t == "" || !IsSpace(t[0])
  {
    if s != "" && IsSpace(s[0]) then SkipSpaces(s[1..]) else s
  }

  function TrimRight(s: string): string {
    if s != "" && IsSpace(s[|s| - 1]) then TrimRight(s[..|s| - 1]) else s
  }

  function TrimSpace(s: string): string {
    TrimRight(SkipSpaces(s))
  }

  /** Only white space at the ends is cut off, and all of it. */
  lemma TrimSpaceIs(s: string) returns (from: nat, to: nat)
    ensures from <= to <= |s| && TrimSpace(s) == s[from..to]
    ensures forall i :: 0 <= i < |s| && (i < from || to <= i) ==> IsSpace(s[i])
    ensures from < to ==> !IsSpace(s[from]) && !IsSpace(s[to - 1])
  {
    from := SkipSpacesIs(s);
    var length := TrimRightIs(s[from..]);
    to := from + length;
    assert forall i :: to <= i < |s| ==> s[i] == s[from..][i - from];
  }

  lemma {:induction false} SkipSpacesIs(s: string) returns (from: nat)
    ensures from <= |s| && SkipSpaces(s) == s[from..]
    ensures forall i :: 0 <= i < from ==> IsSpace(s[i])
    ensures from < |s| ==> !IsSpace(s[from])
  {
    from := 0;
    if s != "" && IsSpace(s[0]) {
      from := SkipSpacesIs(s[1..]);
      assert forall i :: 0 < i <= from ==> s[i] == s[1..][i - 1];
      from := from + 1;
    }
  }

  lemma {:induction false} TrimRightIs(s: string) returns (to: nat)
    ensures to <= |s| && TrimRight(s) == s[..to]
    ensures forall i :: to <= i < |s| ==> IsSpace(s[i])
    ensures 0 < to ==> !IsSpace(s[to - 1])
  {
    to := |s|;
    if s != "" && IsSpace(s[|s| - 1]) {
      to := TrimRightIs(s[..|s| - 1]);
      assert forall i :: to <= i < |s| - 1 ==> s[i] == s[..|s| - 1][i];
    }
  }

  /** The longest beginning without white space. */
  function Word(s: string): (w: string)
    ensures w <= s && HasNoSpace(w)
    ensures |w| < |s| ==> IsSpace(s[|w|])
  {
    if s == "" || IsSpace(s[0]) then "" else [s[0]] + Word(s[1..])
  }

  predicate HasNoSpace(w: string) {
    forall i :: 0 <= i < |w| ==> !IsSpace(w[i])
  }

  /** The maximal runs without white space. */
  function Fields(s: string): seq<string>
    decreases |s|
  {
    var t := SkipSpaces(s);
    if t == "" then [] else [Word(t)] + Fields(t[|Word(t)|..])
  }

  function Join(words: seq<string>): string {
    if words == [] then ""
    else if |words| == 1 then words[0]
    else Join(words[..|words| - 1]) + " " + words[|words| - 1]
  }

  // ----- Fields of a text that grows -----

  predicate EndsInWord(s: string) {
    s != "" && !IsSpace(s[|s| - 1])
  }

  /** The fields after one more character: a space changes nothing, a character inside a word
      extends the last field, and one after a space starts another. */
  function Grown(fields: seq<string>, c: char, inWord: bool): seq<string> {
    if IsSpace(c) then fields
    else if inWord && fields != [] then fields[..|fields| - 1] + [fields[|fields| - 1] + [c]]
    else fields + [[c]]
  }

  lemma {:induction false} SkipSpacesAppend(s: string, c: char)
    ensures SkipSpaces(s + [c]) ==
      if SkipSpaces(s) != "" then SkipSpaces(s) + [c] else if IsSpace(c) then "" else [c]
    ensures SkipSpaces(s) != "" ==> EndsInWord(SkipSpaces(s)) == EndsInWord(s)
    ensures EndsInWord(s) ==> SkipSpaces(s) != ""
  {
    if s == "" {
      assert s + [c] == [c];
      if IsSpace(c) {
        assert SkipSpaces([c]) == SkipSpaces([c][1..]);
      }
    } else if IsSpace(s[0]) {
      assert (s + [c])[1..] == s[1..] + [c];
      SkipSpacesAppend(s[1..], c);
    }
  }

  lemma {:induction false} WordAppend(s: string, c: char)
    ensures Word(s + [c]) == if |Word(s)| == |s| && !IsSpace(c) then s + [c] else Word(s)
  {
    if s == "" {
      assert s + [c] == [c];
      assert [c][1..] == "";
      assert Word([c]) == if IsSpace(c) then "" else [c] + Word("");
    } else {
      assert (s + [c])[1..] == s[1..] + [c];
      WordAppend(s[1..], c);
    }
  }

  lemma FieldsAfterSpaces(s: string, t: string)
    requires SkipSpaces(s) == t
    ensures t == "" ==> Fields(s) == []
    ensures t != "" ==> Fields(s) == [Word(t)] + Fields(t[|Word(t)|..])
  {
  }

  lemma {:induction false} FieldsAppend(s: string, c: char)
    ensures Fields(s + [c]) == Grown(Fields(s), c, EndsInWord(s))
    ensures EndsInWord(s) ==> Fields(s) != []
    decreases |s|, 1
  {
    hide Fields, SkipSpaces, Word;
    var t := SkipSpaces(s);
    SkipSpacesAppend(s, c);
    FieldsAfterSpaces(s, t);
    if t == "" {
      FieldsOfOne(c);
      SpacesThenOne(s, c);
    } else {
      FieldsAfterSpaces(s + [c], t + [c]);
      WordAppend(t, c);
      if |Word(t)| < |t| {
        SpaceAfterWord(t, c);
      } else {
        WordGrows(t, c);
      }
    }
  }

  lemma SpacesThenOne(s: string, c: char)
    requires SkipSpaces(s) == "" && SkipSpaces(s + [c]) == (if IsSpace(c) then "" else [c])
    ensures Fields(s + [c]) == Fields([c])
  {
    SkipSpacesAppend("", c);
    assert "" + [c] == [c];
    FieldsAfterSpaces(s + [c], if IsSpace(c) then "" else [c]);
    FieldsAfterSpaces([c], if IsSpace(c) then "" else [c]);
  }

  /** The first word has ended before the new character: it changes what follows. */
  lemma SpaceAfterWord(t: string, c: char)
    requires t != "" && !IsSpace(t[0]) && |Word(t)| < |t| && Word(t + [c]) == Word(t)
    ensures [Word(t)] + Fields((t + [c])[|Word(t)|..]) ==
      Grown([Word(t)] + Fields(t[|Word(t)|..]), c, EndsInWord(t))
    decreases |t|, 0
  {
    var w, rest := Word(t), t[|Word(t)|..];
    SuffixOfLonger(t, c, |w|);
    assert |w| > 0;
    hide *;
    FieldsAppend(rest, c);
    GrownTail(w, Fields(rest), c, EndsInWord(rest));
  }

  lemma SuffixOfLonger(t: string, c: char, n: nat)
    requires n < |t|
    ensures (t + [c])[n..] == t[n..] + [c] && EndsInWord(t[n..]) == EndsInWord(t)
  {
  }

  /** The text is one word: the new character extends it or ends it. */
  lemma WordGrows(t: string, c: char)
    requires t != "" && Word(t) == t && Word(t + [c]) == if IsSpace(c) then t else t + [c]
    ensures [Word(t + [c])] + Fields((t + [c])[|Word(t + [c])|..]) == Grown([t] + Fields(t[|t|..]), c, EndsInWord(t))
  {
    assert t[|t|..] == "" && Fields("") == [];
    if IsSpace(c) {
      assert (t + [c])[|t|..] == [c];
      FieldsOfOne(c);
    } else {
      assert (t + [c])[|t| + 1..] == "";
    }
  }

  lemma FieldsOfOne(c: char)
    ensures Fields([c]) == if IsSpace(c) then [] else [[c]]
  {
    SkipSpacesAppend("", c);
    assert "" + [c] == [c];
    if !IsSpace(c) {
      WordAppend("", c);
      assert [c][1..] == "" && Fields("") == [];
    }
  }

  lemma GrownTail(w: string, fields: seq<string>, c: char, inWord: bool)
    requires inWord ==> fields != []
    ensures !inWord || fields != [] ==> Grown([w] + fields, c, inWord) == [w] + Grown(fields, c, inWord)
  {
    if inWord && !IsSpace(c) {
      var n := |fields| - 1;
      assert ([w] + fields)[..n + 1] == [w] + fields[..n];
      assert ([w] + fields)[n + 1] == fields[n];
    }
  }

  /** Every field is a word. */
  ghost predicate AreWords(words: seq<string>) {
    forall k :: 0 <= k < |words| ==> words[k] != "" && HasNoSpace(words[k])
  }

  lemma {:induction false} FieldsAreWords(s: string)
    ensures AreWords(Fields(s))
    decreases |s|
  {
    var t := SkipSpaces(s);
    if t != "" {
      FieldsAreWords(t[|Word(t)|..]);
    }
  }

  lemma JoinGrows(words: seq<string>, c: char, inWord: bool)
    requires !IsSpace(c)
    ensures Join(Grown(words, c, inWord)) ==
      if words == [] then [c] else if inWord then Join(words) + [c] else Join(words) + " " + [c]
  {
    if words != [] {
      var n := |words| - 1;
      var grown := Grown(words, c, inWord);
      if inWord {
        assert grown[..n] == words[..n];
      } else {
        assert grown[..n + 1] == words;
      }
    }
  }

  lemma {:induction false} JoinHasNoOuterSpace(words: seq<string>)
    requires AreWords(words) && words != []
    ensures var j := Join(words); j != "" && !IsSpace(j[0]) && !IsSpace(j[|j| - 1])
  {
    if |words| > 1 {
      JoinHasNoOuterSpace(words[..|words| - 1]);
    }
  }

  lemma TrimJoined(words: seq<string>, spaced: bool)
    requires AreWords(words) && (spaced ==> words != [])
    ensures TrimSpace(Join(words) + (if spaced then " " else "")) == Join(words)
  {
    var text := Join(words) + (if spaced then " " else "");
    if words != [] {
      JoinHasNoOuterSpace(words);
      assert SkipSpaces(text) == text;
      if spaced {
        assert text[..|text| - 1] == Join(words);
        assert TrimRight(text) == TrimRight(text[..|text| - 1]) == Join(words);
      } else {
        assert text == Join(words);
      }
    }
  }

  lemma EmptyHasNoFields()
    ensures Fields("") == [] && Join([]) == ""
  {
  }

  // ----- What a normalised text looks like -----

  /** White space is single blanks, each between two other characters. */
  ghost predicate SinglySpaced(s: string) {
    forall i :: 0 <= i < |s| && IsSpace(s[i]) ==>
      s[i] == ' ' && 0 < i < |s| - 1 && !IsSpace(s[i - 1]) && !IsSpace(s[i + 1])
  }

  lemma {:induction false} JoinIsSinglySpaced(words: seq<string>)
    requires AreWords(words)
    ensures SinglySpaced(Join(words))
  {
    if |words| == 1 {
      assert HasNoSpace(words[0]);
    } else if words != [] {
      var before, last := words[..|words| - 1], words[|words| - 1];
      assert words == before + [last];
      WordsBefore(before, last);
      JoinIsSinglySpaced(before);
      JoinHasNoOuterSpace(before);
      SpacedSnoc(Join(before), last);
    }
  }

  lemma SpacedSnoc(s: string, w: string)
    requires SinglySpaced(s) && s != "" && !IsSpace(s[|s| - 1]) && w != "" && HasNoSpace(w)
    ensures SinglySpaced(s + " " + w)
  {
    var t := s + " " + w;
    assert forall i :: |s| < i < |t| ==> t[i] == w[i - |s| - 1] && !IsSpace(t[i]);
    forall i | 0 <= i < |t| && IsSpace(t[i])
      ensures t[i] == ' ' && 0 < i < |t| - 1 && !IsSpace(t[i - 1]) && !IsSpace(t[i + 1])
    {
      if i < |s| {
        assert t[i] == s[i] && t[i - 1] == s[i - 1] && t[i + 1] == s[i + 1];
      } else {
        assert t[i - 1] == s[|s| - 1] && t[i + 1] == w[0];
      }
    }
  }

  /** The characters that are not white space, in order. */
  ghost function NonSpaces(s: string): string {
    if s == "" then "" else NonSpaces(s[..|s| - 1]) + (if IsSpace(s[|s| - 1]) then "" else [s[|s| - 1]])
  }

  ghost function Concat(words: seq<string>): string {
    if words == [] then "" else Concat(words[..|words| - 1]) + words[|words| - 1]
  }

  /** The fields hold every character but white space, in order. */
  lemma {:induction false} FieldsKeepText(s: string)
    ensures Concat(Fields(s)) == NonSpaces(s)
  {
    hide Fields;
    if s == "" {
      EmptyHasNoFields();
    } else {
      var before, c := s[..|s| - 1], s[|s| - 1];
      assert s == before + [c];
      FieldsKeepText(before);
      FieldsAppend(before, c);
      ConcatGrows(Fields(before), c, EndsInWord(before));
    }
  }

  lemma ConcatGrows(words: seq<string>, c: char, inWord: bool)
    ensures Concat(Grown(words, c, inWord)) == Concat(words) + (if IsSpace(c) then "" else [c])
  {
    if !IsSpace(c) {
      var grown := Grown(words, c, inWord);
      if inWord && words != [] {
        assert grown[..|grown| - 1] == words[..|words| - 1];
      } else {
        assert grown[..|grown| - 1] == words;
      }
    }
  }

  /** One pass with a flag is splitting into fields and joining them with single spaces. */
  method NormalizeWhitespace(s: string) returns (normalized: string)
    ensures normalized == Join(Fields(s))
    ensures SinglySpaced(normalized) && NonSpaces(normalized) == NonSpaces(s)
  {
    hide Fields, Join;
    EmptyHasNoFields();
    var buf := "";
    var inSpace := false;
    assert s[..0] == "";
    for i := 0 to |s|
      invariant buf == Join(Fields(s[..i])) + (if inSpace then " " else "")
      invariant inSpace <==> Fields(s[..i]) != [] && !EndsInWord(s[..i])
      invariant Fields(s[..i]) == [] ==> !EndsInWord(s[..i])
    {
      var before := s[..i];
      assert s[..i + 1] == before + [s[i]];
      FieldsAppend(before, s[i]);
      FieldsAreWords(before);
      if Fields(before) != [] {
        JoinHasNoOuterSpace(Fields(before));
      }
      if IsSpace(s[i]) {
        if !inSpace && |buf| > 0 {
          buf := buf + " ";
          inSpace := true;
        }
      } else {
        JoinGrows(Fields(before), s[i], EndsInWord(before));
        buf := buf + [s[i]];
        inSpace := false;
      }
    }
    assert s[..|s|] == s;
    FieldsAreWords(s);
    TrimJoined(Fields(s), inSpace);
    JoinIsSinglySpaced(Fields(s));
    FieldsKeepText(s);
    FieldsKeepText(Join(Fields(s)));
    FieldsOfJoin(Fields(s));
    normalized := TrimSpace(buf);
  }

  lemma {:induction false} FieldsOfJoin(words: seq<string>)
    requires AreWords(words)
    ensures Fields(Join(words)) == words
    ensures words != [] ==> EndsInWord(Join(words))
  {
    if |words| == 1 {
      OneField(words[0]);
    } else if words != [] {
      hide *;
      var before, last := words[..|words| - 1], words[|words| - 1];
      assert words == before + [last];
      WordsBefore(before, last);
      FieldsOfJoin(before);
      FieldsAppendSpaced(Join(before), last);
    }
  }

  lemma OneField(w: string)
    requires w != "" && HasNoSpace(w)
    ensures Fields(w) == [w] && EndsInWord(w)
  {
    FieldsAppendWord("", w);
    assert "" + w == w;
    EmptyHasNoFields();
  }

  lemma WordsBefore(before: seq<string>, last: string)
    requires AreWords(before + [last]) && before != []
    ensures AreWords(before) && last != "" && HasNoSpace(last)
    ensures Join(before + [last]) == Join(before) + " " + last
  {
    var words := before + [last];
    assert words[..|before|] == before && words[|before|] == last;
    assert forall k :: 0 <= k < |before| ==> before[k] == words[k];
  }

  lemma FieldsAppendSpaced(s: string, w: string)
    requires w != "" && HasNoSpace(w)
    ensures Fields(s + " " + w) == Fields(s) + [w] && EndsInWord(s + " " + w)
  {
    FieldsAppend(s, ' ');
    assert s + " " == s + [' '];
    FieldsAppendWord(s + " ", w);
  }

  lemma {:induction false} FieldsAppendWord(s: string, w: string)
    requires w != "" && HasNoSpace(w) && !EndsInWord(s)
    ensures Fields(s + w) == Fields(s) + [w] && EndsInWord(s + w)
    decreases |w|
  {
    hide Fields;
    var n := |w| - 1;
    var c, before := w[n], s + w[..n];
    assert s + w == before + [c] && w == w[..n] + [c];
    FieldsAppend(before, c);
    if n == 0 {
      assert before == s;
    } else {
      FieldsAppendWord(s, w[..n]);
      var fields := Fields(s) + [w[..n]];
      assert fields[..|fields| - 1] == Fields(s);
    }
  }

  /** Normalising a normalised text changes nothing. */
  lemma NormalizeTwice(s: string)
    ensures Join(Fields(Join(Fields(s)))) == Join(Fields(s))
  {
    FieldsAreWords(s);
    FieldsOfJoin(Fields(s));
  }
}
