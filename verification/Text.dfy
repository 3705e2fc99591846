/** The string operations of the host language that the models rely on. */
module Text {
  // Trimming, splitting, joining and decimal numerals, with the laws that tie each to its inverse.

  /** What `\s` matches and `trim` removes. */
  predicate IsSpace(c: char) {
    var n := c as int;
    9 <= n <= 13 || n == 32 || n == 0xa0 || n == 0x1680 || 0x2000 <= n <= 0x200a || n == 0x2028
    || n == 0x2029 || n == 0x202f || n == 0x205f || n == 0x3000 || n == 0xfeff
  }

  /** What `.` in a pattern does not match. */
  predicate IsLineBreak(c: char) {
    var n := c as int;
    n == 10 || n == 13 || n == 0x2028 || n == 0x2029
  }

  predicate IsDigit(c: char) {
    '0' <= c <= '9'
  }

  function LowerAscii(s: string): string {
    seq(|s|, i requires 0 <= i < |s| => if 'A' <= s[i] <= 'Z' then s[i] + ' ' else s[i])
  }

  /** The characters before the first white space. */
  function TakeWord(s: string): (w: string)
    ensures |w| <= |s|
    ensures s != [] && !IsSpace(s[0]) ==> w != []
  {
    if s == [] || IsSpace(s[0]) then [] else [s[0]] + TakeWord(s[1..])
  }

  function TrimStart(s: string): (r: string)
    ensures r == [] || !IsSpace(r[0])
    ensures |r| <= |s|
  {
    if s != [] && IsSpace(s[0]) then TrimStart(s[1..]) else s
  }

  lemma {:induction false} TrimStartIsSuffix(s: string)
    ensures TrimStart(s) == s[|s| - |TrimStart(s)|..]
  {
    if s != [] && IsSpace(s[0]) {
      TrimStartIsSuffix(s[1..]);
    }
  }

  function TrimEnd(s: string): (r: string)
    ensures r == [] || !IsSpace(r[|r| - 1])
    ensures r <= s
  {
    if s != [] && IsSpace(s[|s| - 1]) then TrimEnd(s[..|s| - 1]) else s
  }

  function Trim(s: string): (r: string)
    ensures r == [] || (!IsSpace(r[0]) && !IsSpace(r[|r| - 1]))
  {
    TrimEnd(TrimStart(s))
  }

  predicate Trimmed(s: string) {
    s == [] || (!IsSpace(s[0]) && !IsSpace(s[|s| - 1]))
  }

  lemma TrimmedIsFixed(s: string)
    requires Trimmed(s)
    ensures Trim(s) == s
  {
  }

  // ---- Words between white space ----

  predicate IsWord(s: string) {
    s != [] && forall c :: c in s ==> !IsSpace(c)
  }

  predicate Gap(s: string) {
    forall c :: c in s ==> IsSpace(c)
  }

  /** Words with gaps between them. */
  function Spread(words: seq<string>, gaps: seq<string>): string
    requires words != [] && |gaps| == |words| - 1
  {
    if |words| == 1 then words[0] else words[0] + gaps[0] + Spread(words[1..], gaps[1..])
  }

  /** The words between runs of white space. */
  function SpaceFields(s: string): seq<string>
    decreases |s|
  {
    var rest := TrimStart(s);
    if rest == [] then []
    else
      var word := TakeWord(rest);
      [word] + SpaceFields(rest[|word|..])
  }

  lemma {:induction false} TrimStartSkips(gap: string, s: string)
    requires Gap(gap) && s != [] && !IsSpace(s[0])
    ensures TrimStart(gap + s) == s
  {
    if gap == [] {
      assert gap + s == s;
    } else {
      assert gap[0] in gap && (gap + s)[1..] == gap[1..] + s;
      TrimStartSkips(gap[1..], s);
    }
  }

  lemma {:induction false} TrimEndSkips(s: string, gap: string)
    requires Gap(gap) && s != [] && !IsSpace(s[|s| - 1])
    ensures TrimEnd(s + gap) == s
  {
    if gap == [] {
      assert s + gap == s;
    } else {
      var n := |gap| - 1;
      assert gap[n] in gap && (s + gap)[..|s + gap| - 1] == s + gap[..n];
      TrimEndSkips(s, gap[..n]);
    }
  }

  lemma {:induction false} TakeWordTakes(word: string, rest: string)
    requires forall c :: c in word ==> !IsSpace(c)
    requires rest == [] || IsSpace(rest[0])
    ensures TakeWord(word + rest) == word
  {
    if word == [] {
      assert word + rest == rest;
    } else {
      assert word[0] in word && (word + rest)[1..] == word[1..] + rest;
      TakeWordTakes(word[1..], rest);
      assert [word[0]] + word[1..] == word;
    }
  }

  lemma OneWordFields(word: string)
    requires IsWord(word)
    ensures SpaceFields(word) == [word]
  {
    assert word[0] in word && word + [] == word;
    TakeWordTakes(word, []);
    assert SpaceFields([]) == [];
  }

  lemma WordThenFields(word: string, gap: string, rest: string)
    requires IsWord(word) && gap != [] && Gap(gap) && rest != [] && !IsSpace(rest[0])
    ensures SpaceFields(word + gap + rest) == [word] + SpaceFields(rest)
  {
    assert word[0] in word && gap[0] in gap;
    assert word + gap + rest == word + (gap + rest);
    TakeWordTakes(word, gap + rest);
    assert (word + gap + rest)[|word|..] == gap + rest;
    TrimStartSkips(gap, rest);
    SameFields(gap + rest, rest);
  }

  lemma SameFields(a: string, b: string)
    requires TrimStart(a) == TrimStart(b)
    ensures SpaceFields(a) == SpaceFields(b)
  {
  }

  lemma {:induction false} SpreadFields(words: seq<string>, gaps: seq<string>)
    requires words != [] && |gaps| == |words| - 1
    requires (forall w :: w in words ==> IsWord(w)) && forall g :: g in gaps ==> g != [] && Gap(g)
    ensures var text := Spread(words, gaps);
            && SpaceFields(text) == words
            && text != [] && !IsSpace(text[0]) && !IsSpace(text[|text| - 1])
  {
    assert words[0] in words;
    assert words[0][0] in words[0] && words[0][|words[0]| - 1] in words[0];
    if |words| == 1 {
      OneWordFields(words[0]);
    } else {
      assert gaps[0] in gaps;
      assert (forall w :: w in words[1..] ==> w in words) && forall g :: g in gaps[1..] ==> g in gaps;
      SpreadFields(words[1..], gaps[1..]);
      WordThenFields(words[0], gaps[0], Spread(words[1..], gaps[1..]));
      assert [words[0]] + words[1..] == words;
    }
  }

  lemma TrimmedText(before: string, text: string, after: string)
    requires Gap(before) && Gap(after) && text != [] && !IsSpace(text[0]) && !IsSpace(text[|text| - 1])
    ensures Trim(before + text + after) == text
  {
    assert before + text + after == before + (text + after);
    TrimStartSkips(before, text + after);
    TrimEndSkips(text, after);
  }

  lemma {:induction false} GapIsTrimmed(gap: string)
    requires Gap(gap)
    ensures TrimStart(gap) == []
  {
    if gap != [] {
      assert gap[0] in gap;
      GapIsTrimmed(gap[1..]);
    }
  }

  lemma {:induction false} TrimStartSplits(s: string) returns (gap: string)
    ensures Gap(gap) && s == gap + TrimStart(s)
  {
    if s != [] && IsSpace(s[0]) {
      var rest := TrimStartSplits(s[1..]);
      gap := [s[0]] + rest;
      assert s == [s[0]] + s[1..];
    } else {
      gap := [];
    }
  }

  lemma {:induction false} TrimEndSplits(s: string) returns (gap: string)
    ensures Gap(gap) && s == TrimEnd(s) + gap
  {
    if s != [] && IsSpace(s[|s| - 1]) {
      var rest := TrimEndSplits(s[..|s| - 1]);
      gap := rest + [s[|s| - 1]];
      assert s == s[..|s| - 1] + [s[|s| - 1]];
    } else {
      gap := [];
    }
  }

  /** Trimming leaves nothing of white space, and of nothing else. */
  lemma BlankExactly(s: string)
    ensures Trim(s) == [] <==> Gap(s)
  {
    var before := TrimStartSplits(s);
    var after := TrimEndSplits(TrimStart(s));
    assert s == before + (Trim(s) + after);
    if Gap(s) {
      GapIsTrimmed(s);
    }
  }

  predicate BeginsWith(text: string, gap: string, word: string, rest: string) {
    text == gap + word + rest && Gap(gap) && IsWord(word) && (rest == [] || IsSpace(rest[0]))
  }

  /** Text that consists of these words, with white space around and between them. */
  ghost predicate LaidOut(text: string, words: seq<string>)
    decreases |words|
  {
    if words == [] then Gap(text)
    else exists gap, rest :: BeginsWith(text, gap, words[0], rest) && LaidOut(rest, words[1..])
  }

  lemma {:induction false} TakeWordSplits(s: string)
    ensures var w := TakeWord(s);
            s == w + s[|w|..] && (forall c :: c in w ==> !IsSpace(c)) && (s[|w|..] == [] || IsSpace(s[|w|]))
  {
    if s != [] && !IsSpace(s[0]) {
      TakeWordSplits(s[1..]);
      assert s == [s[0]] + s[1..];
    }
  }

  lemma BeginningIsFirstField(text: string, gap: string, word: string, rest: string)
    requires BeginsWith(text, gap, word, rest)
    ensures SpaceFields(text) == [word] + SpaceFields(rest)
  {
    assert word[0] in word && gap + word + rest == gap + (word + rest);
    TrimStartSkips(gap, word + rest);
    TakeWordTakes(word, rest);
    assert (word + rest)[|word|..] == rest;
  }

  lemma WordBeforeWords(text: string, gap: string, word: string, rest: string, words: seq<string>)
    requires BeginsWith(text, gap, word, rest) && LaidOut(rest, words)
    ensures LaidOut(text, [word] + words)
  {
    var all := [word] + words;
    assert BeginsWith(text, gap, all[0], rest) && all[1..] == words;
  }

  lemma {:induction false} FieldsAreLaidOut(text: string)
    ensures LaidOut(text, SpaceFields(text))
    decreases |text|
  {
    var gap := TrimStartSplits(text);
    var rest := TrimStart(text);
    if rest == [] {
      assert text == gap + [];
    } else {
      var word := TakeWord(rest);
      TakeWordSplits(rest);
      FieldsAreLaidOut(rest[|word|..]);
      assert text == gap + word + rest[|word|..];
      WordBeforeWords(text, gap, word, rest[|word|..], SpaceFields(rest[|word|..]));
    }
  }

  lemma {:induction false} LaidOutOnce(text: string, words: seq<string>)
    requires LaidOut(text, words)
    ensures words == SpaceFields(text)
    decreases |words|
  {
    if words == [] {
      GapIsTrimmed(text);
    } else {
      var gap, rest :| BeginsWith(text, gap, words[0], rest) && LaidOut(rest, words[1..]);
      LaidOutOnce(rest, words[1..]);
      BeginningIsFirstField(text, gap, words[0], rest);
      assert words == [words[0]] + words[1..];
    }
  }

  // ---- Splitting, joining, numerals ----

  /** The pieces between occurrences of c, as `split` yields them. */
  function Split(s: string, c: char): (r: seq<string>)
    ensures |r| >= 1
  {
    if s == [] then [[]]
    else
      var rest := Split(s[1..], c);
      if s[0] == c then [[]] + rest else [[s[0]] + rest[0]] + rest[1..]
  }

  function Join(parts: seq<string>, c: char): string {
    if parts == [] then []
    else if |parts| == 1 then parts[0]
    else parts[0] + [c] + Join(parts[1..], c)
  }

  function DigitChar(d: nat): char
    requires d < 10
  {
    "0123456789"[d]
  }

  function Decimal(n: nat): (s: string)
    ensures s != [] && forall c :: c in s ==> IsDigit(c)
  {
    if n < 10 then [DigitChar(n)] else Decimal(n / 10) + [DigitChar(n % 10)]
  }

  function DigitsValue(s: string): nat
    requires forall c :: c in s ==> IsDigit(c)
  {
    if s == [] then 0
    else
      var last := s[|s| - 1];
      assert IsDigit(last);
      10 * DigitsValue(s[..|s| - 1]) + (last as int - '0' as int)
  }

  /** Printing a number and reading its digits gives it back. */
  lemma {:induction false} DecimalReads(n: nat)
    ensures DigitsValue(Decimal(n)) == n
    ensures |Decimal(n)| <= 2 <==> n < 100
  {
    if n < 10 {
      assert Decimal(n)[..0] == [];
    } else {
      var head := Decimal(n / 10);
      assert Decimal(n)[..|Decimal(n)| - 1] == head;
      DecimalReads(n / 10);
      if n >= 100 {
        assert |head| >= 2 by { assert |head| == |Decimal(n / 10 / 10)| + 1; }
      }
    }
  }

  lemma {:induction false} SplitWhole(s: string, c: char)
    requires c !in s
    ensures Split(s, c) == [s]
  {
    if s != [] {
      SplitWhole(s[1..], c);
      assert [s[0]] + s[1..] == s;
    }
  }

  lemma {:induction false} SplitFirst(a: string, rest: string, c: char)
    requires c !in a
    ensures Split(a + [c] + rest, c) == [a] + Split(rest, c)
  {
    var s := a + [c] + rest;
    if a == [] {
      assert s[1..] == rest;
    } else {
      assert s[1..] == a[1..] + [c] + rest;
      SplitFirst(a[1..], rest, c);
      assert [a[0]] + a[1..] == a;
    }
  }

  /** Splitting undoes joining. */
  lemma {:induction false} SplitJoin(parts: seq<string>, c: char)
    requires parts != [] && forall p :: p in parts ==> c !in p
    ensures Split(Join(parts, c), c) == parts
  {
    assert parts[0] in parts;
    if |parts| == 1 {
      SplitWhole(parts[0], c);
    } else {
      SplitJoin(parts[1..], c);
      SplitFirst(parts[0], Join(parts[1..], c), c);
      assert [parts[0]] + parts[1..] == parts;
    }
  }

  lemma {:induction false} FirstOccurrence(s: string, c: char) returns (i: nat)
    requires c in s
    ensures i < |s| && s[i] == c && c !in s[..i]
  {
    if s[0] == c {
      i := 0;
    } else {
      i := FirstOccurrence(s[1..], c);
      i := i + 1;
      assert s[..i] == [s[0]] + s[1..][..i - 1];
    }
  }

  lemma SplitBefore(p: string, q: string, b: string, c: char)
    requires c !in p && Split(q + [c] + b, c) == Split(q, c) + Split(b, c)
    ensures Split(p + [c] + q + [c] + b, c) == Split(p + [c] + q, c) + Split(b, c)
  {
    assert p + [c] + q + [c] + b == p + [c] + (q + [c] + b);
    SplitFirst(p, q + [c] + b, c);
    SplitFirst(p, q, c);
    assert [p] + (Split(q, c) + Split(b, c)) == ([p] + Split(q, c)) + Split(b, c);
  }

  /** Splitting distributes over an occurrence of the separator. */
  lemma {:induction false} SplitAround(a: string, b: string, c: char)
    ensures Split(a + [c] + b, c) == Split(a, c) + Split(b, c)
    decreases |a|
  {
    if c in a {
      var i := FirstOccurrence(a, c);
      var p, q := a[..i], a[i + 1..];
      assert a == p + [c] + q;
      SplitAround(q, b, c);
      SplitBefore(p, q, b, c);
    } else {
      SplitFirst(a, b, c);
      SplitWhole(a, c);
    }
  }

  lemma {:induction false} SplitPiecesAreWhole(s: string, c: char)
    ensures forall i :: 0 <= i < |Split(s, c)| ==> c !in Split(s, c)[i]
  {
    if s != [] {
      SplitPiecesAreWhole(s[1..], c);
    }
  }

  /** Joining undoes splitting. */
  lemma {:induction false} JoinSplit(s: string, c: char)
    ensures Join(Split(s, c), c) == s
  {
    if s != [] {
      JoinSplit(s[1..], c);
      var rest := Split(s[1..], c);
      assert [s[0]] + s[1..] == s;
      if s[0] == c {
        assert ([[]] + rest)[1..] == rest;
        assert [] + [c] + Join(rest, c) == [c] + Join(rest, c);
      } else {
        JoinGrows(s[0], rest, c);
      }
    }
  }

  lemma JoinGrows(first: char, parts: seq<string>, c: char)
    requires parts != []
    ensures Join([[first] + parts[0]] + parts[1..], c) == [first] + Join(parts, c)
  {
    var grown := [[first] + parts[0]] + parts[1..];
    assert grown[1..] == parts[1..];
    if |parts| > 1 {
      assert [first] + parts[0] + [c] + Join(parts[1..], c) == [first] + (parts[0] + [c] + Join(parts[1..], c));
    }
  }
}
