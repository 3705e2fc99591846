/** A reader of shell command lines. */
module ShellReader {
  // The part of the shell language that the login-script compiler emits: words, single quotes, the escape
  // `\'`, pipes, semicolons and braces. It is conservative: whatever is special in some place makes it
  // give up anywhere, so that what it accepts reads the same in a POSIX shell. A text that it refuses may
  // still stand for itself where it stands (`a#b`, `a~b`, `a{b`, a pattern without a match).

  import opened Basics

  datatype Token = Word(text: string) | Pipe | Semi | Open | Close

  predicate Blank(c: char) { c == ' ' || c == '\t' }

  predicate Operator(c: char) { c == '|' || c == ';' || c == '{' || c == '}' }

  /** Special in some place. */
  predicate Special(c: char) {
    c == '&' || c == '<' || c == '>' || c == '(' || c == ')' || c == '$' || c == '`' || c == '"'
    || c == '*' || c == '?' || c == '[' || c == ']' || c == '#' || c == '~' || c == '!' || c == '\n'
  }

  /** A character that stands for itself outside quotes. */
  predicate Plain(c: char) {
    !Blank(c) && !Operator(c) && !Special(c) && c != '\'' && c != '\\'
  }

  function OperatorToken(c: char): Token
    requires Operator(c)
  {
    if c == '|' then Pipe else if c == ';' then Semi else if c == '{' then Open else Close
  }

  /** The word being read: None between words. */
  type Partial = Option<string>

  function Extend(word: Partial, text: string): Partial {
    Some((if word.Some? then word.value else []) + text)
  }

  function Flush(word: Partial): seq<Token> {
    if word.Some? then [Word(word.value)] else []
  }

  function Prepend(tokens: seq<Token>, rest: Option<seq<Token>>): Option<seq<Token>> {
    if rest.None? then None else Some(tokens + rest.value)
  }

  /** The tokens of s, or None where the reader gives up (a quote left open included). */
  function Lex(s: string, quoted: bool, word: Partial): Option<seq<Token>> {
    if s == [] then (if quoted then None else Some(Flush(word)))
    else if quoted then
      if s[0] == '\'' then Lex(s[1..], false, word) else Lex(s[1..], true, Extend(word, [s[0]]))
    else if s[0] == '\'' then Lex(s[1..], true, Extend(word, []))
    else if s[0] == '\\' then
      if |s| > 1 && s[1] == '\'' then Lex(s[2..], false, Extend(word, ['\''])) else None
    else if Blank(s[0]) then Prepend(Flush(word), Lex(s[1..], false, None))
    else if Operator(s[0]) then
      Prepend(Flush(word) + [OperatorToken(s[0])], Lex(s[1..], false, None))
    else if Special(s[0]) then None
    else Lex(s[1..], false, Extend(word, [s[0]]))
  }

  function Tokens(s: string): Option<seq<Token>> {
    Lex(s, false, None)
  }

  function Words(ws: seq<string>): (r: seq<Token>)
    ensures |r| == |ws| && forall i :: 0 <= i < |ws| ==> r[i] == Word(ws[i])
  {
    seq(|ws|, i requires 0 <= i < |ws| => Word(ws[i]))
  }

  /** Inside single quotes a quote is written by closing, escaping and reopening. */
  function Escape(s: string): string {
    if s == [] then [] else (if s[0] == '\'' then "'\\''" else [s[0]]) + Escape(s[1..])
  }

  function Quote(s: string): string {
    "'" + Escape(s) + "'"
  }

  /** A quote inside a quoted word: out of the quotes, the escaped quote, and back in. */
  lemma LexQuoteInside(tail: string, word: string)
    ensures Lex("'\\''" + tail, true, Some(word)) == Lex(tail, true, Some(word + ['\'']))
  {
    var all := "'\\''" + tail;
    assert all[1..] == "\\''" + tail;
    assert all[1..][2..] == "'" + tail;
    assert ("'" + tail)[1..] == tail;
    assert Lex(all, true, Some(word)) == Lex("\\''" + tail, false, Some(word));
    assert Lex("\\''" + tail, false, Some(word)) == Lex("'" + tail, false, Some(word + ['\'']));
    assert word + ['\''] + [] == word + ['\''];
  }

  lemma {:induction false} LexEscaped(s: string, rest: string, word: string)
    ensures Lex(Escape(s) + "'" + rest, true, Some(word)) == Lex(rest, false, Some(word + s))
  {
    if s == [] {
      assert Escape(s) + "'" + rest == "'" + rest;
      assert ("'" + rest)[1..] == rest;
      assert word + s == word;
    } else {
      var tail := Escape(s[1..]) + "'" + rest;
      LexEscaped(s[1..], rest, word + [s[0]]);
      assert word + s == (word + [s[0]]) + s[1..];
      if s[0] == '\'' {
        LexQuoteInside(tail, word);
        assert Escape(s) + "'" + rest == "'\\''" + tail;
      } else {
        assert Escape(s) + "'" + rest == [s[0]] + tail;
        assert ([s[0]] + tail)[1..] == tail;
      }
    }
  }

  /** Quoting is undone by reading, whatever the characters. */
  lemma LexQuoted(s: string, rest: string, word: Partial)
    ensures Lex(Quote(s) + rest, false, word) == Lex(rest, false, Extend(word, s))
  {
    var inner := Escape(s) + "'" + rest;
    assert Quote(s) + rest == "'" + inner;
    assert ("'" + inner)[1..] == inner;
    LexEscaped(s, rest, Extend(word, []).value);
    assert Extend(word, []).value + s == Extend(word, s).value;
  }

  // ---- Text outside quotes ----

  /** Reads as words only: no quote, no escape, no operator, nothing special. */
  predicate Clean(s: string) {
    forall c :: c in s ==> Plain(c) || Blank(c)
  }

  function FlushText(word: Partial): seq<string> {
    if word.Some? then [word.value] else []
  }

  function FieldsFrom(s: string, word: Partial): seq<string> {
    if s == [] then FlushText(word)
    else if Blank(s[0]) then FlushText(word) + FieldsFrom(s[1..], None)
    else FieldsFrom(s[1..], Extend(word, [s[0]]))
  }

  /** The pieces of s between blanks. */
  function Fields(s: string): seq<string> {
    FieldsFrom(s, None)
  }

  lemma WordsConcat(a: seq<string>, b: seq<string>)
    ensures Words(a + b) == Words(a) + Words(b)
  {
  }

  lemma {:induction false} LexClean(s: string, rest: string, word: Partial)
    requires Clean(s)
    ensures Lex(s + " " + rest, false, word)
            == Prepend(Words(FieldsFrom(s, word)), Lex(rest, false, None))
  {
    var all := s + " " + rest;
    if s == [] {
      assert all == " " + rest && all[1..] == rest;
      assert Words(FlushText(word)) == Flush(word);
    } else {
      assert s[0] in s && forall c :: c in s[1..] ==> c in s;
      assert all[1..] == s[1..] + " " + rest;
      if Blank(s[0]) {
        LexClean(s[1..], rest, None);
        WordsConcat(FlushText(word), FieldsFrom(s[1..], None));
        assert Words(FlushText(word)) == Flush(word);
        PrependTwice(Flush(word), Words(FieldsFrom(s[1..], None)), Lex(rest, false, None));
      } else {
        LexClean(s[1..], rest, Extend(word, [s[0]]));
      }
    }
  }

  lemma PrependTwice(a: seq<Token>, b: seq<Token>, rest: Option<seq<Token>>)
    ensures Prepend(a, Prepend(b, rest)) == Prepend(a + b, rest)
  {
    if rest.Some? {
      assert a + (b + rest.value) == (a + b) + rest.value;
    }
  }

  ghost predicate OnlyWords(tokens: Option<seq<Token>>) {
    tokens.Some? && forall t :: t in tokens.value ==> t.Word?
  }

  lemma OnlyWordsOfPrepend(a: seq<Token>, rest: Option<seq<Token>>)
    ensures OnlyWords(Prepend(a, rest)) <==> OnlyWords(rest) && forall t :: t in a ==> t.Word?
  {
    if rest.Some? {
      assert forall t :: t in a + rest.value <==> t in a || t in rest.value;
    }
  }

  lemma HeadAndTail<T>(s: seq<T>)
    requires s != []
    ensures forall c :: c in s <==> c == s[0] || c in s[1..]
  {
    assert s == [s[0]] + s[1..];
  }

  /** Text without quotes that still is not clean never reads as words only. */
  lemma {:induction false} LexUnclean(s: string, rest: string, word: Partial)
    requires '\'' !in s && !Clean(s)
    ensures !OnlyWords(Lex(s + " " + rest, false, word))
  {
    var all := s + " " + rest;
    assert all[1..] == s[1..] + " " + rest;
    HeadAndTail(s);
    if Plain(s[0]) {
      LexUnclean(s[1..], rest, Extend(word, [s[0]]));
    } else if Blank(s[0]) {
      LexUnclean(s[1..], rest, None);
      OnlyWordsOfPrepend(Flush(word), Lex(all[1..], false, None));
    } else if Operator(s[0]) {
      var head := Flush(word) + [OperatorToken(s[0])];
      assert OperatorToken(s[0]) in head;
      OnlyWordsOfPrepend(head, Lex(all[1..], false, None));
    }
  }

  // ---- Backslashes are conserved ----

  function Count(s: string, c: char): nat {
    if s == [] then 0 else (if s[0] == c then 1 else 0) + Count(s[1..], c)
  }

  lemma {:induction false} CountConcat(a: string, b: string, c: char)
    ensures Count(a + b, c) == Count(a, c) + Count(b, c)
  {
    if a == [] {
      assert a + b == b;
    } else {
      assert (a + b)[1..] == a[1..] + b;
      CountConcat(a[1..], b, c);
    }
  }

  /** Backslashes and quotes that the reader has produced. */
  function Weight(s: string): nat {
    Count(s, '\\') + Count(s, '\'')
  }

  lemma WeightConcat(a: string, b: string)
    ensures Weight(a + b) == Weight(a) + Weight(b)
  {
    CountConcat(a, b, '\\');
    CountConcat(a, b, '\'');
  }

  function TokensWeight(ts: seq<Token>): nat {
    if ts == [] then 0
    else (if ts[0].Word? then Weight(ts[0].text) else 0) + TokensWeight(ts[1..])
  }

  lemma {:induction false} TokensWeightConcat(a: seq<Token>, b: seq<Token>)
    ensures TokensWeight(a + b) == TokensWeight(a) + TokensWeight(b)
  {
    if a == [] {
      assert a + b == b;
    } else {
      assert (a + b)[1..] == a[1..] + b;
      TokensWeightConcat(a[1..], b);
    }
  }

  function PartialWeight(word: Partial): nat {
    if word.Some? then Weight(word.value) else 0
  }

  lemma ExtendWeight(word: Partial, text: string)
    ensures PartialWeight(Extend(word, text)) == PartialWeight(word) + Weight(text)
  {
    WeightConcat(if word.Some? then word.value else [], text);
  }

  lemma SingleWeight(c: char)
    ensures Count([c], '\\') == (if c == '\\' then 1 else 0)
    ensures Weight([c]) == (if c == '\\' || c == '\'' then 1 else 0)
  {
    assert [c][1..] == [];
    assert Count([c], '\\') == (if c == '\\' then 1 else 0) + Count([], '\\');
    assert Count([c], '\'') == (if c == '\'' then 1 else 0) + Count([], '\'');
  }

  lemma PrependWeight(a: seq<Token>, rest: Option<seq<Token>>)
    requires rest.Some?
    ensures TokensWeight(Prepend(a, rest).value) == TokensWeight(a) + TokensWeight(rest.value)
  {
    TokensWeightConcat(a, rest.value);
  }

  /** Every backslash of the input is either read inside quotes or has produced one quote. */
  lemma {:induction false} LexConservesBackslashes(s: string, quoted: bool, word: Partial)
    requires Lex(s, quoted, word).Some?
    ensures Count(s, '\\') + PartialWeight(word) == TokensWeight(Lex(s, quoted, word).value)
    decreases |s|
  {
    if s == [] {
    } else if quoted {
      SingleWeight(s[0]);
      if s[0] == '\'' {
        LexConservesBackslashes(s[1..], false, word);
      } else {
        LexConservesBackslashes(s[1..], true, Extend(word, [s[0]]));
        ExtendWeight(word, [s[0]]);
      }
    } else if s[0] == '\'' {
      LexConservesBackslashes(s[1..], true, Extend(word, []));
      ExtendWeight(word, []);
    } else if s[0] == '\\' {
      LexConservesBackslashes(s[2..], false, Extend(word, ['\'']));
      ExtendWeight(word, ['\'']);
      SingleWeight('\'');
      assert Count(s, '\\') == 1 + Count(s[1..], '\\');
      assert s[1..][1..] == s[2..];
    } else if Blank(s[0]) {
      LexConservesBackslashes(s[1..], false, None);
      PrependWeight(Flush(word), Lex(s[1..], false, None));
    } else if Operator(s[0]) {
      LexConservesBackslashes(s[1..], false, None);
      var t := [OperatorToken(s[0])];
      assert TokensWeight(t) == 0;
      TokensWeightConcat(Flush(word), t);
      PrependWeight(Flush(word) + t, Lex(s[1..], false, None));
    } else {
      LexConservesBackslashes(s[1..], false, Extend(word, [s[0]]));
      ExtendWeight(word, [s[0]]);
      SingleWeight(s[0]);
    }
  }

  lemma {:induction false} EscapeBackslashes(s: string)
    ensures Count(Escape(s), '\\') == Weight(s)
  {
    if s != [] {
      EscapeBackslashes(s[1..]);
      SingleWeight(s[0]);
      var head := if s[0] == '\'' then "'\\''" else [s[0]];
      CountConcat(head, Escape(s[1..]), '\\');
      assert Count("'\\''", '\\') == 1;
    }
  }

  lemma {:induction false} FieldsWeight(s: string, word: Partial)
    ensures TokensWeight(Words(FieldsFrom(s, word))) == Weight(s) + PartialWeight(word)
  {
    if s == [] {
      assert Words(FlushText(word)) == Flush(word);
    } else {
      assert s == [s[0]] + s[1..];
      WeightConcat([s[0]], s[1..]);
      SingleWeight(s[0]);
      if Blank(s[0]) {
        FieldsWeight(s[1..], None);
        WordsConcat(FlushText(word), FieldsFrom(s[1..], None));
        TokensWeightConcat(Words(FlushText(word)), Words(FieldsFrom(s[1..], None)));
        assert Words(FlushText(word)) == Flush(word);
      } else {
        FieldsWeight(s[1..], Extend(word, [s[0]]));
        ExtendWeight(word, [s[0]]);
      }
    }
  }

  lemma {:induction false} CountZero(s: string, c: char)
    ensures Count(s, c) == 0 <==> c !in s
  {
    if s != [] {
      CountZero(s[1..], c);
      assert s == [s[0]] + s[1..];
    }
  }

  // ---- Words that read as themselves ----

  predicate PlainWord(w: string) {
    w != [] && forall c :: c in w ==> Plain(c)
  }

  lemma {:induction false} FieldsOfPlain(w: string, word: Partial)
    requires forall c :: c in w ==> Plain(c)
    requires w != [] || word.Some?
    ensures FieldsFrom(w, word) == FlushText(Extend(word, w))
  {
    if w == [] {
      assert word.value + w == word.value;
    } else {
      HeadAndTail(w);
      assert w[0] in w && Plain(w[0]);
      FieldsOfPlain(w[1..], Extend(word, [w[0]]));
      var start := if word.Some? then word.value else [];
      assert start + [w[0]] + w[1..] == start + w;
      assert Extend(Extend(word, [w[0]]), w[1..]) == Extend(word, w);
    }
  }

  lemma {:induction false} LexPlain(w: string, rest: string, word: Partial)
    requires w != [] || word.Some?
    requires forall c :: c in w ==> Plain(c)
    ensures Lex(w + rest, false, word) == Lex(rest, false, Extend(word, w))
  {
    if w == [] {
      assert w + rest == rest && word.value + w == word.value;
    } else {
      HeadAndTail(w);
      assert w[0] in w && Plain(w[0]);
      assert (w + rest)[1..] == w[1..] + rest;
      LexPlain(w[1..], rest, Extend(word, [w[0]]));
      var start := if word.Some? then word.value else [];
      assert start + [w[0]] + w[1..] == start + w;
      assert Extend(Extend(word, [w[0]]), w[1..]) == Extend(word, w);
    }
  }

  lemma {:induction false} FieldsHaveNoBlanks(s: string, word: Partial)
    requires word.Some? ==> forall c :: c in word.value ==> !Blank(c)
    ensures forall f, c :: f in FieldsFrom(s, word) && c in f ==> !Blank(c)
  {
    if s != [] {
      FieldsHaveNoBlanks(s[1..], if Blank(s[0]) then None else Extend(word, [s[0]]));
    }
  }

  /** The words that survive unquoted, as one word. */
  lemma PlainWordExactly(w: string)
    ensures PlainWord(w) <==> Clean(w) && Fields(w) == [w]
  {
    if PlainWord(w) {
      FieldsOfPlain(w, None);
      assert [] + w == w;
    }
    if Clean(w) && Fields(w) == [w] {
      FieldsHaveNoBlanks(w, None);
      assert w in Fields(w);
    }
  }

  /** Words written one after the other, each followed by a space. */
  function Spaced(ws: seq<string>): string {
    if ws == [] then [] else ws[0] + " " + Spaced(ws[1..])
  }

  lemma {:induction false} LexSpaced(ws: seq<string>, rest: string)
    requires forall w :: w in ws ==> PlainWord(w)
    ensures Lex(Spaced(ws) + rest, false, None) == Prepend(Words(ws), Lex(rest, false, None))
  {
    if ws == [] {
      assert Spaced(ws) + rest == rest;
      assert Words(ws) == [];
      if Lex(rest, false, None).Some? {
        assert [] + Lex(rest, false, None).value == Lex(rest, false, None).value;
      }
    } else {
      HeadAndTail(ws);
      PlainWordExactly(ws[0]);
      var tail := Spaced(ws[1..]) + rest;
      assert Spaced(ws) + rest == ws[0] + " " + tail;
      LexClean(ws[0], tail, None);
      LexSpaced(ws[1..], rest);
      WordsConcat([ws[0]], ws[1..]);
      assert [ws[0]] + ws[1..] == ws;
      PrependTwice(Words([ws[0]]), Words(ws[1..]), Lex(rest, false, None));
    }
  }

  /** A quoted text that closes the line is its last word. */
  lemma LexLastQuoted(s: string)
    ensures Lex(Quote(s), false, None) == Some(Words([s]))
  {
    LexQuoted(s, [], None);
    assert Quote(s) + [] == Quote(s);
    assert [] + s == s;
    assert Words([s]) == [Word(s)];
    assert Lex([], false, Extend(None, s)) == Some(Flush(Some(s)));
  }

  /** A clean text read in the middle of a line. */
  lemma LexCleanPiece(s: string, rest: string)
    requires Clean(s)
    ensures Tokens(s + " " + rest) == Prepend(Words(Fields(s)), Tokens(rest))
  {
    LexClean(s, rest, None);
  }

  lemma WordsOfFieldsWeigh(s: string)
    ensures TokensWeight(Words(Fields(s))) == Weight(s)
    ensures TokensWeight(Words([s])) == Weight(s)
  {
    FieldsWeight(s, None);
    assert Words([s])[1..] == [];
  }

  /** Conversely: a text in the middle of a line whose characters are all read back as words, no
      backslash or quote gone, is clean. */
  lemma PieceReadBackIsClean(s: string, rest: string, words: seq<string>, tail: seq<string>)
    requires Tokens(s + " " + rest) == Some(Words(words + tail))
    requires TokensWeight(Words(words)) == Weight(s)
    requires Count(rest, '\\') == TokensWeight(Words(tail))
    ensures Clean(s)
  {
    var all := s + " " + rest;
    LexConservesBackslashes(all, false, None);
    CountConcat(s + " ", rest, '\\');
    CountConcat(s, " ", '\\');
    SingleWeight(' ');
    WordsConcat(words, tail);
    TokensWeightConcat(Words(words), Words(tail));
    CountZero(s, '\'');
    if !Clean(s) {
      LexUnclean(s, rest, None);
    }
  }
}
