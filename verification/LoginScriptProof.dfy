/** Reading a compiled login-script command layer by layer gives the steps back. */
module LoginScriptProof {
  import opened Basics
  import opened Text
  import opened ShellReader
  import opened LoginScript

  // ---- The fixed words of the emitted forms ----

  predicate SettingChar(c: char) {
    'a' <= c <= 'z' || 'A' <= c <= 'Z' || '0' <= c <= '9' || c == '-' || c == '=' || c == ','
  }

  lemma SettingIsWord(s: string)
    requires s != [] && forall c :: c in s ==> SettingChar(c)
    ensures PlainWord(s)
  {
  }

  lemma HostKeysIsWord()
    ensures PlainWord(HOST_KEYS)
  {
    SettingIsWord(HOST_KEYS);
  }

  lemma ShortSettingsAreWords()
    ensures PlainWord(BATCH) && PlainWord(TIMEOUT)
  {
    SettingIsWord(BATCH);
    SettingIsWord(TIMEOUT);
  }

  lemma PreferredIsWord()
    ensures PlainWord(PREFERRED + OR_KEYBOARD)
  {
    SettingIsWord(PREFERRED);
    SettingIsWord(OR_KEYBOARD);
  }

  lemma OnePromptIsWord()
    ensures PlainWord(ONE_PROMPT)
  {
    SettingIsWord(ONE_PROMPT);
  }

  lemma {:induction false} FieldsOfPrefix(w: string, rest: string, word: Partial)
    requires forall c :: c in w ==> Plain(c)
    requires w != [] || word.Some?
    ensures FieldsFrom(w + rest, word) == FieldsFrom(rest, Extend(word, w))
  {
    if w == [] {
      assert w + rest == rest && word.value + w == word.value;
    } else {
      HeadAndTail(w);
      assert w[0] in w && Plain(w[0]);
      assert (w + rest)[1..] == w[1..] + rest;
      FieldsOfPrefix(w[1..], rest, Extend(word, [w[0]]));
      var start := if word.Some? then word.value else [];
      assert start + [w[0]] + w[1..] == start + w;
    }
  }

  lemma FirstField(a: string, rest: string)
    requires PlainWord(a)
    ensures Fields(a + " " + rest) == [a] + Fields(rest)
  {
    FieldsOfPrefix(a, " " + rest, None);
    assert a + " " + rest == a + (" " + rest) && [] + a == a;
    assert (" " + rest)[1..] == rest;
  }

  /** One setting in front of others. */
  lemma SettingFirst(setting: string, rest: string)
    requires PlainWord(setting) && Clean(rest)
    ensures Fields("-o " + setting + " " + rest) == ["-o", setting] + Fields(rest)
    ensures Clean("-o " + setting + " " + rest)
  {
    assert "-o " + setting + " " + rest == "-o" + " " + (setting + " " + rest);
    assert PlainWord("-o") && Blank(' ');
    FirstField("-o", setting + " " + rest);
    FirstField(setting, rest);
  }

  lemma LastSetting(setting: string)
    requires PlainWord(setting)
    ensures Fields("-o " + setting) == ["-o", setting] && Clean("-o " + setting)
  {
    assert "-o " + setting == "-o" + " " + setting && PlainWord("-o") && Blank(' ');
    FirstField("-o", setting);
    PlainWordExactly(setting);
  }

  lemma PlainOptionsAreListed()
    ensures Fields(EXEC_SSH_OPTS) == PLAIN_OPTIONS && Clean(EXEC_SSH_OPTS)
  {
    var last := "-o " + TIMEOUT;
    HostKeysIsWord();
    ShortSettingsAreWords();
    LastSetting(TIMEOUT);
    SettingFirst(BATCH, last);
    SettingFirst(HOST_KEYS, "-o " + BATCH + " " + last);
  }

  lemma PasswordOptionsAreListed()
    ensures Fields(EXEC_SSH_OPTS_PASSWORD) == PASSWORD_OPTIONS && Clean(EXEC_SSH_OPTS_PASSWORD)
  {
    var either, last := PREFERRED + OR_KEYBOARD, "-o " + ONE_PROMPT;
    HostKeysIsWord();
    ShortSettingsAreWords();
    PreferredIsWord();
    OnePromptIsWord();
    LastSetting(ONE_PROMPT);
    SettingFirst(either, last);
    SettingFirst(TIMEOUT, "-o " + either + " " + last);
    SettingFirst(HOST_KEYS, "-o " + TIMEOUT + " " + ("-o " + either + " " + last));
    assert either == "PreferredAuthentications=password,keyboard-interactive";
  }

  lemma {:induction false} TextsOfWords(ws: seq<string>)
    ensures Texts(Words(ws)) == Some(ws)
  {
    if ws != [] {
      assert Words(ws)[1..] == Words(ws[1..]);
      TextsOfWords(ws[1..]);
      assert [ws[0]] + ws[1..] == ws;
    }
  }

  lemma {:induction false} TextsMatch(ts: seq<Token>)
    requires Texts(ts).Some?
    ensures |Texts(ts).value| == |ts|
    ensures forall i :: 0 <= i < |ts| ==> ts[i] == Word(Texts(ts).value[i])
  {
    if ts != [] {
      TextsMatch(ts[1..]);
    }
  }

  lemma TextsOnlyOfWords(ts: seq<Token>)
    requires Texts(ts).Some?
    ensures ts == Words(Texts(ts).value)
  {
    TextsMatch(ts);
  }

  /** Words at the start of a line, then a quoted word, then more. */
  lemma TokensOfSpaced(ws: seq<string>, rest: string)
    requires forall w :: w in ws ==> PlainWord(w)
    ensures Tokens(Spaced(ws) + rest) == Prepend(Words(ws), Tokens(rest))
  {
    LexSpaced(ws, rest);
  }

  lemma TokensOfQuoted(s: string, rest: string)
    ensures Tokens(Quote(s) + " " + rest) == Prepend(Words([s]), Tokens(rest))
  {
    LexQuoted(s, " " + rest, None);
    assert Quote(s) + " " + rest == Quote(s) + (" " + rest);
    assert [] + s == s;
    assert (" " + rest)[1..] == rest;
    assert Flush(Some(s)) == Words([s]);
  }

  lemma WordsSuffix(a: seq<string>, b: seq<string>, ts: seq<Token>)
    ensures Words(a) + ts == Words(a + b) <==> ts == Words(b)
  {
    if Words(a) + ts == Words(a + b) {
      assert ts == (Words(a) + ts)[|a|..];
      assert Words(b) == Words(a + b)[|a|..];
    }
    WordsConcat(a, b);
  }

  lemma WordsSplit(a: seq<string>, b: seq<string>, tail: seq<string>)
    requires Words(a + tail) == Words(b + tail)
    ensures a == b
  {
    assert |a| == |b|;
    forall i | 0 <= i < |a|
      ensures a[i] == b[i]
    {
      assert Words(a + tail)[i] == Word(a[i]) && Words(b + tail)[i] == Word(b[i]);
    }
  }

  /** A text printed without quotes between fixed words reads as given words, none of its characters
      gone, exactly when it is clean and those words are its fields. */
  lemma PieceReadsExactly(pre: seq<string>, piece: string, words: seq<string>,
                          rest: string, tail: seq<string>)
    requires Tokens(rest) == Some(Words(tail))
    requires Count(rest, '\\') == TokensWeight(Words(tail))
    requires TokensWeight(Words(words)) == Weight(piece)
    ensures (Prepend(Words(pre), Tokens(piece + " " + rest)) == Some(Words(pre + (words + tail))))
            <==> Clean(piece) && Fields(piece) == words
  {
    var tokens := Tokens(piece + " " + rest);
    if Clean(piece) {
      LexCleanPiece(piece, rest);
      WordsConcat(Fields(piece), tail);
      assert tokens == Some(Words(Fields(piece) + tail));
    }
    if tokens.Some? {
      WordsSuffix(pre, words + tail, tokens.value);
      if tokens.value == Words(words + tail) {
        PieceReadBackIsClean(piece, rest, words, tail);
        WordsSplit(Fields(piece), words, tail);
      }
    }
  }

  lemma LastQuotedCounts(ws: seq<string>, s: string)
    requires forall w :: w in ws ==> PlainWord(w)
    ensures Tokens(Spaced(ws) + Quote(s)) == Some(Words(ws + [s]))
    ensures Count(Spaced(ws) + Quote(s), '\\') == TokensWeight(Words(ws + [s]))
  {
    TokensOfSpaced(ws, Quote(s));
    LexLastQuoted(s);
    WordsConcat(ws, [s]);
    LexConservesBackslashes(Spaced(ws) + Quote(s), false, None);
  }

  // ---- ssh ----

  lemma {:induction false} TextsAfterWords(ws: seq<string>, ts: seq<Token>)
    ensures Texts(Words(ws) + ts) == if Texts(ts).None? then None else Some(ws + Texts(ts).value)
  {
    if ws == [] {
      assert Words(ws) + ts == ts;
      assert Texts(ts).Some? ==> ws + Texts(ts).value == Texts(ts).value;
    } else {
      assert (Words(ws) + ts)[1..] == Words(ws[1..]) + ts;
      TextsAfterWords(ws[1..], ts);
      assert Texts(ts).Some? ==> [ws[0]] + (ws[1..] + Texts(ts).value) == ws + Texts(ts).value;
    }
  }

  /** `ssh OPTIONS` in front of the rest of a line. */
  lemma SshTokens(options: string, rest: string)
    requires Clean(options)
    ensures Tokens("ssh " + options + " " + rest)
            == Prepend(Words(["ssh"] + Fields(options)), Tokens(rest))
  {
    assert Spaced(["ssh"]) == "ssh " + "";
    assert "ssh " + options + " " + rest == Spaced(["ssh"]) + (options + " " + rest);
    TokensOfSpaced(["ssh"], options + " " + rest);
    LexCleanPiece(options, rest);
    PrependTwice(Words(["ssh"]), Words(Fields(options)), Tokens(rest));
    WordsConcat(["ssh"], Fields(options));
  }

  const SSHPASS := ["env", "LC_ALL=C", "sshpass", "-p"]

  lemma ShortWordsOfSshpass()
    ensures PlainWord("env") && PlainWord("-p")
  {
  }

  lemma LongWordsOfSshpass()
    ensures PlainWord("LC_ALL=C") && PlainWord("sshpass")
  {
  }

  lemma SpacedFour(a: string, b: string, c: string, d: string)
    ensures Spaced([a, b, c, d]) == a + " " + (b + " " + (c + " " + (d + " ")))
  {
    assert Spaced([d]) == d + " " + "";
    assert [c, d][1..] == [d] && Spaced([c, d]) == c + " " + Spaced([d]);
    assert [b, c, d][1..] == [c, d] && Spaced([b, c, d]) == b + " " + Spaced([c, d]);
    assert [a, b, c, d][1..] == [b, c, d] && Spaced([a, b, c, d]) == a + " " + Spaced([b, c, d]);
  }

  lemma SshpassIsPlain()
    ensures forall w :: w in SSHPASS ==> PlainWord(w)
    ensures Spaced(SSHPASS) == "env LC_ALL=C sshpass -p "
  {
    ShortWordsOfSshpass();
    LongWordsOfSshpass();
    SpacedFour("env", "LC_ALL=C", "sshpass", "-p");
  }

  lemma SshpassTokens(password: string, rest: string)
    ensures Tokens(SshpassPrefix(password) + rest)
            == Prepend(Words(SSHPASS + [password]), Tokens(rest))
  {
    SshpassIsPlain();
    assert SshpassPrefix(password) + rest == Spaced(SSHPASS) + (Quote(password) + " " + rest);
    TokensOfSpaced(SSHPASS, Quote(password) + " " + rest);
    TokensOfQuoted(password, rest);
    PrependTwice(Words(SSHPASS), Words([password]), Tokens(rest));
    WordsConcat(SSHPASS, [password]);
  }

  /** A call read from tokens, where it may not be words only. */
  function ReadCallTokens(ts: Option<seq<Token>>, password: Option<string>): Option<(Hop, string)> {
    if ts.None? || Texts(ts.value).None? then None else ReadCall(Texts(ts.value).value, password)
  }

  /** The words that such a call was read from. */
  lemma WordsRead(ts: Option<seq<Token>>, password: Option<string>) returns (ws: seq<string>)
    requires ReadCallTokens(ts, password).Some?
    ensures ts == Some(Words(ws)) && ReadCall(ws, password) == ReadCallTokens(ts, password)
  {
    ws := Texts(ts.value).value;
    TextsOnlyOfWords(ts.value);
  }

  lemma ReadSshSkips(options: seq<string>, ws: seq<string>, password: Option<string>)
    ensures ReadSsh(["ssh"] + options + ws, options, password) == ReadCall(ws, password)
  {
    var n, all := 1 + |options|, ["ssh"] + options + ws;
    assert all[..n] == ["ssh"] + options && all[n..] == ws;
  }

  lemma BareTokensRead(ts: seq<Token>)
    requires ts != [] && ts[0].Word? && ts[0] != Word("echo")
    ensures ReadTokens(ts) == ReadBare(ts)
  {
  }

  lemma PlainTokensRead(rest: seq<Token>)
    ensures ReadTokens(Words(["ssh"] + PLAIN_OPTIONS) + rest) == ReadCallTokens(Some(rest), None)
  {
    var words := ["ssh"] + PLAIN_OPTIONS;
    var ts := Words(words) + rest;
    assert ts[0] == Words(words)[0] == Word("ssh");
    BareTokensRead(ts);
    TextsAfterWords(words, rest);
    if Texts(rest).Some? {
      assert (words + Texts(rest).value)[0] == "ssh";
      ReadSshSkips(PLAIN_OPTIONS, Texts(rest).value, None);
    }
  }

  lemma PlainLineReads(rest: string)
    ensures ReadHop("ssh " + EXEC_SSH_OPTS + " " + rest) == ReadCallTokens(Tokens(rest), None)
  {
    PlainOptionsAreListed();
    SshTokens(EXEC_SSH_OPTS, rest);
    if Tokens(rest).Some? {
      PlainTokensRead(Tokens(rest).value);
    }
  }

  lemma SshpassLineTokens(password: string, rest: string)
    ensures Tokens(SshpassPrefix(password) + ("ssh " + EXEC_SSH_OPTS_PASSWORD + " " + rest)) ==
            Prepend(Words(SSHPASS + [password] + (["ssh"] + PASSWORD_OPTIONS)), Tokens(rest))
  {
    var call := ["ssh"] + PASSWORD_OPTIONS;
    PasswordOptionsAreListed();
    SshpassTokens(password, "ssh " + EXEC_SSH_OPTS_PASSWORD + " " + rest);
    SshTokens(EXEC_SSH_OPTS_PASSWORD, rest);
    PrependTwice(Words(SSHPASS + [password]), Words(call), Tokens(rest));
    WordsConcat(SSHPASS + [password], call);
  }

  lemma ReadSshpass(password: string, call: seq<string>, ts: seq<Token>)
    requires Texts(ts) == Some(SSHPASS + [password] + call)
    ensures ReadBare(ts) == ReadSsh(call, PASSWORD_OPTIONS, Some(password))
  {
    var ws := SSHPASS + [password] + call;
    assert ws[..4] == SSHPASS && ws[4] == password && ws[5..] == call;
  }

  lemma SshpassWordsRead(password: string, ts: seq<Token>, ws: seq<string>)
    requires Texts(ts) == Some(SSHPASS + [password] + (["ssh"] + PASSWORD_OPTIONS) + ws)
    ensures ReadBare(ts) == ReadCall(ws, Some(password))
  {
    var call := ["ssh"] + PASSWORD_OPTIONS;
    assert SSHPASS + [password] + call + ws == SSHPASS + [password] + (call + ws);
    ReadSshpass(password, call + ws, ts);
    ReadSshSkips(PASSWORD_OPTIONS, ws, Some(password));
  }

  lemma SshpassTokensRead(password: string, rest: seq<Token>)
    ensures ReadTokens(Words(SSHPASS + [password] + (["ssh"] + PASSWORD_OPTIONS)) + rest)
            == ReadCallTokens(Some(rest), Some(password))
  {
    var options := PASSWORD_OPTIONS;
    var words := SSHPASS + [password] + (["ssh"] + options);
    var ts := Words(words) + rest;
    assert ts[0] == Words(words)[0] == Word("env");
    BareTokensRead(ts);
    TextsAfterWords(words, rest);
    if Texts(rest).Some? {
      SshpassWordsRead(password, ts, Texts(rest).value);
    }
  }

  lemma SshpassLineReads(password: string, rest: string)
    ensures ReadHop(SshpassPrefix(password) + ("ssh " + EXEC_SSH_OPTS_PASSWORD + " " + rest))
            == ReadCallTokens(Tokens(rest), Some(password))
  {
    SshpassLineTokens(password, rest);
    if Tokens(rest).Some? {
      SshpassTokensRead(password, Tokens(rest).value);
    }
  }

  /** Whatever follows the options of an ssh line is read as the call it makes. */
  lemma SshLineReads(target: string, password: Option<string>, rest: string)
    ensures ReadHop(SshLine(target, password, rest))
            == ReadCallTokens(Tokens(target + " " + rest), Present(password))
  {
    if Present(password).Some? {
      SshpassLineReads(password.value, target + " " + rest);
    } else {
      PlainLineReads(target + " " + rest);
    }
  }

  lemma CleanCallReads(target: string, rest: string, tail: seq<string>, password: Option<string>)
    requires Clean(target) && Tokens(rest) == Some(Words(tail))
    ensures ReadCallTokens(Tokens(target + " " + rest), password) == ReadCall(Fields(target) + tail, password)
  {
    LexCleanPiece(target, rest);
    WordsConcat(Fields(target), tail);
    TextsOfWords(Fields(target) + tail);
  }

  lemma {:induction false} CallIsWhole(ws: seq<string>, at: SshArgs)
    requires SplitCall(ws, at).Some?
    ensures SplitCall(ws, at).value.own + SplitCall(ws, at).value.command == ws
  {
    if ws != [] && !StartsCommand(ws[0], at) {
      CallIsWhole(ws[1..], NextArg(ws[0], at).value);
    }
  }

  /** A call with more words behind it. */
  function Continued(call: Option<SshCall>, more: seq<string>): Option<SshCall> {
    if call.None? then None
    else if call.value.command != [] then Some(call.value.(command := call.value.command + more))
    else
      var rest := SplitCall(more, call.value.at);
      if rest.None? then None else Some(rest.value.(own := call.value.own + rest.value.own))
  }

  lemma KeptGoesOn(w: string, call: Option<SshCall>, more: seq<string>)
    ensures Continued(Kept(w, call), more) == Kept(w, Continued(call, more))
  {
    if call.Some? && call.value.command == [] {
      var rest := SplitCall(more, call.value.at);
      assert rest.Some? ==> [w] + (call.value.own + rest.value.own) == [w] + call.value.own + rest.value.own;
    }
  }

  lemma NothingGoesOn(more: seq<string>, at: SshArgs)
    ensures Continued(Some(SshCall([], at, [])), more) == SplitCall(more, at)
  {
    var rest := SplitCall(more, at);
    assert rest.Some? ==> [] + rest.value.own == rest.value.own;
  }

  lemma {:induction false} CallGoesOn(ws: seq<string>, more: seq<string>, at: SshArgs)
    ensures SplitCall(ws + more, at) == Continued(SplitCall(ws, at), more)
  {
    if ws == [] {
      assert ws + more == more;
      NothingGoesOn(more, at);
    } else if !StartsCommand(ws[0], at) && NextArg(ws[0], at).Some? {
      var next := NextArg(ws[0], at).value;
      assert (ws + more)[1..] == ws[1..] + more;
      CallGoesOn(ws[1..], more, next);
      KeptGoesOn(ws[0], SplitCall(ws[1..], next), more);
    }
  }

  /** A last word is taken as the command, and handed on as it is, if and only if the words before it
      name one host and it can be handed on at all. */
  lemma CommandIsTaken(words: seq<string>, inner: string, password: Option<string>)
    ensures ReadCall(words + [inner], password) == Some((SshHop(words, password), inner)) <==>
            NamesOneHost(words) && inner != [] && !ShellOption(inner)
  {
    var call := SplitCall(words, NO_ARGS);
    CallGoesOn(words, [inner], NO_ARGS);
    if call.Some? {
      CallIsWhole(words, NO_ARGS);
      LastWordIsTaken(words, inner, call.value);
    }
  }

  lemma LastWordIsTaken(words: seq<string>, inner: string, call: SshCall)
    requires call.own + call.command == words
    ensures var whole := Continued(Some(call), [inner]);
            && (call.command == [] && StartsCommand(inner, call.at) ==>
                  whole == Some(SshCall(words, call.at, [inner])))
            && (whole.Some? && whole.value.own == words && whole.value.command != [] ==>
                  call.command == [] && StartsCommand(inner, call.at))
  {
    assert call.command == [] ==> call.own == words && call.own + [] == words;
    assert call.command != [] ==> |call.own| < |words|;
  }

  lemma {:induction false} JoinWeighs(ws: seq<string>)
    ensures TokensWeight(Words(ws)) == Weight(Join(ws, ' '))
  {
    if |ws| == 1 {
      assert Words(ws)[1..] == [];
    } else if |ws| > 1 {
      JoinWeighs(ws[1..]);
      assert Words(ws)[1..] == Words(ws[1..]);
      WeightConcat(ws[0] + [' '], Join(ws[1..], ' '));
      WeightConcat(ws[0], [' ']);
      SingleWeight(' ');
    }
  }

  /** A target whose words come back whole, in front of a command that comes back whole, is clean. */
  lemma CallReadBackIsClean(target: string, password: Option<string>, inner: string)
    requires ReadCallTokens(Tokens(target + " " + Quote(inner)), password)
             == Some((SshHop(Fields(target), password), inner))
    ensures Clean(target)
  {
    var ts := Tokens(target + " " + Quote(inner)).value;
    var ws := Texts(ts).value;
    var call := SplitCall(ws, NO_ARGS).value;
    TextsOnlyOfWords(ts);
    CallIsWhole(ws, NO_ARGS);
    JoinWeighs(call.command);
    WordsOfFieldsWeigh(target);
    WordsOfFieldsWeigh(inner);
    LastQuotedCounts([], inner);
    assert Spaced([]) + Quote(inner) == Quote(inner) && [] + [inner] == [inner];
    PieceReadBackIsClean(target, Quote(inner), Fields(target), call.command);
  }

  lemma SshReads(target: string, password: Option<string>, inner: string)
    ensures (ReadHop(BuildSshHop(target, password, inner))
             == Some((SshHop(Fields(target), Present(password)), inner))) <==>
            Clean(target) && NamesOneHost(Fields(target)) && inner != [] && !ShellOption(inner)
  {
    var rest, given := Quote(inner), Present(password);
    SshLineReads(target, password, rest);
    if ReadCallTokens(Tokens(target + " " + rest), given) == Some((SshHop(Fields(target), given), inner)) {
      CallReadBackIsClean(target, given, inner);
    }
    if Clean(target) {
      LexLastQuoted(inner);
      CleanCallReads(target, rest, [inner], given);
      CommandIsTaken(Fields(target), inner, given);
    }
  }

  // ---- su ----

  lemma ReadSuExactly(ts: seq<Token>, user: string, inner: string, fed: Fed)
    requires ts != [] && ts[0] == Word("su")
    ensures ReadFed(ts, fed) == Some((SuHop(user, fed), inner)) <==>
            ts == Words(["su", user, "-c", inner]) && NoFlag(user) && !ShellOption(inner)
    ensures ReadBare(ts) == Some((SuHop(user, NotFed), inner)) <==>
            ts == Words(["su", user, "-c", inner]) && NoFlag(user) && !ShellOption(inner)
  {
    TextsOfWords(["su", user, "-c", inner]);
    if Texts(ts).Some? {
      TextsOnlyOfWords(ts);
    }
  }

  /** A name printed without quotes reads as itself exactly when it is one plain word. */
  lemma OneWordReadsExactly(pre: seq<string>, word: string, rest: string, tail: seq<string>)
    requires Tokens(rest) == Some(Words(tail))
    requires Count(rest, '\\') == TokensWeight(Words(tail))
    ensures (Prepend(Words(pre), Tokens(word + " " + rest)) == Some(Words(pre + ([word] + tail))))
            <==> PlainWord(word)
  {
    WordsOfFieldsWeigh(word);
    PieceReadsExactly(pre, word, [word], rest, tail);
    PlainWordExactly(word);
  }

  /** `su USER -c COMMAND` reads as itself exactly for users that are one plain word. */
  lemma SuTokens(user: string, inner: string)
    ensures var ts := Tokens("su " + user + " -c " + Quote(inner));
            && (ts.Some? ==> ts.value != [] && ts.value[0] == Word("su"))
            && (ts == Some(Words(["su", user, "-c", inner])) <==> PlainWord(user))
  {
    var rest := Spaced(["-c"]) + Quote(inner);
    assert Spaced(["-c"]) == "-c " + "" && Spaced(["su"]) == "su " + "";
    var line := "su " + user + " -c " + Quote(inner);
    assert line == Spaced(["su"]) + (user + " " + rest);
    TokensOfSpaced(["su"], user + " " + rest);
    LastQuotedCounts(["-c"], inner);
    var tail := ["-c"] + [inner];
    OneWordReadsExactly(["su"], user, rest, tail);
    assert ["su"] + ([user] + tail) == ["su", user, "-c", inner];
  }

  // ---- sudo ----

  /** The words `sudo` is called with in front of its command. */
  function SudoWords(fed: bool): seq<string> {
    if fed then ["sudo", "-S"] else ["sudo"]
  }

  function SudoLine(fed: bool, runAs: Option<string>, inner: string): string {
    (if fed then "sudo -S " else "sudo ")
    + (if runAs.Some? then "-u " + runAs.value + " " else "") + "bash -c " + Quote(inner)
  }

  function SudoCall(runAs: Option<string>, inner: string): seq<string> {
    (if runAs.Some? then ["-u", runAs.value] else []) + ["bash", "-c", inner]
  }

  lemma SpacedTwo(a: string, b: string)
    ensures Spaced([a, b]) == a + " " + (b + " ")
    ensures Spaced([a]) == a + " "
  {
    assert Spaced([b]) == b + " " + "" && Spaced([a]) == a + " " + "";
    assert [a, b][1..] == [b];
  }

  lemma SudoPrefix(fed: bool)
    ensures forall w :: w in SudoWords(fed) ==> PlainWord(w)
    ensures Spaced(SudoWords(fed)) == if fed then "sudo -S " else "sudo "
  {
    SpacedTwo("sudo", "-S");
    assert PlainWord("sudo") && PlainWord("-S");
  }

  lemma BashTail(inner: string)
    ensures Tokens("bash -c " + Quote(inner)) == Some(Words(["bash", "-c"] + [inner]))
    ensures Count("bash -c " + Quote(inner), '\\') == TokensWeight(Words(["bash", "-c"] + [inner]))
  {
    SpacedTwo("bash", "-c");
    assert PlainWord("bash") && PlainWord("-c");
    assert "bash -c " + Quote(inner) == Spaced(["bash", "-c"]) + Quote(inner);
    LastQuotedCounts(["bash", "-c"], inner);
  }

  lemma SudoLineTokens(fed: bool, rest: string)
    ensures Tokens((if fed then "sudo -S " else "sudo ") + rest) == Prepend(Words(SudoWords(fed)), Tokens(rest))
  {
    SudoPrefix(fed);
    TokensOfSpaced(SudoWords(fed), rest);
  }

  lemma SudoLineParts(fed: bool, runAs: Option<string>, inner: string)
    ensures SudoLine(fed, runAs, inner) ==
            (if fed then "sudo -S " else "sudo ")
            + ((if runAs.Some? then "-u " + runAs.value + " " else "") + ("bash -c " + Quote(inner)))
  {
  }

  lemma UserFlagTokens(user: string, rest: string)
    ensures Tokens("-u " + user + " " + rest) == Prepend(Words(["-u"]), Tokens(user + " " + rest))
  {
    SpacedTwo("-u", "");
    assert PlainWord("-u");
    assert "-u " + user + " " + rest == Spaced(["-u"]) + (user + " " + rest);
    TokensOfSpaced(["-u"], user + " " + rest);
  }

  lemma SudoUserTokens(fed: bool, user: string, inner: string)
    ensures var ts := Tokens(SudoLine(fed, Some(user), inner));
            && (ts.Some? ==> Words(SudoWords(fed)) <= ts.value)
            && (ts == Some(Words(SudoWords(fed) + SudoCall(Some(user), inner))) <==> PlainWord(user))
  {
    var pre, rest := SudoWords(fed) + ["-u"], "bash -c " + Quote(inner);
    SudoLineParts(fed, Some(user), inner);
    SudoLineTokens(fed, "-u " + user + " " + rest);
    UserFlagTokens(user, rest);
    PrependTwice(Words(SudoWords(fed)), Words(["-u"]), Tokens(user + " " + rest));
    WordsConcat(SudoWords(fed), ["-u"]);
    BashTail(inner);
    OneWordReadsExactly(pre, user, rest, ["bash", "-c"] + [inner]);
    assert pre + ([user] + (["bash", "-c"] + [inner])) == SudoWords(fed) + SudoCall(Some(user), inner);
  }

  lemma SudoRootTokens(fed: bool, inner: string)
    ensures Tokens(SudoLine(fed, None, inner)) == Some(Words(SudoWords(fed) + SudoCall(None, inner)))
  {
    var rest := "bash -c " + Quote(inner);
    SudoLineParts(fed, None, inner);
    assert "" + rest == rest;
    SudoLineTokens(fed, rest);
    BashTail(inner);
    assert SudoCall(None, inner) == ["bash", "-c"] + [inner];
    WordsConcat(SudoWords(fed), SudoCall(None, inner));
  }

  lemma ReadSudoExactly(ws: seq<string>, runAs: Option<string>, inner: string, fed: Fed)
    ensures ReadSudo(ws, fed) == Some((SudoHop(runAs, fed), inner)) <==>
            ws == SudoCall(runAs, inner) && !ShellOption(inner)
  {
    if runAs.Some? {
      assert SudoCall(runAs, inner) == ["-u", runAs.value, "bash", "-c", inner];
    } else {
      assert SudoCall(runAs, inner) == ["bash", "-c", inner];
    }
  }

  lemma WordsBegin(pre: seq<string>, ts: seq<Token>)
    requires Words(pre) <= ts
    ensures var rest := Texts(ts[|pre|..]);
            Texts(ts) == if rest.None? then None else Some(pre + rest.value)
  {
    TextsAfterWords(pre, ts[|pre|..]);
    assert ts == Words(pre) + ts[|pre|..];
  }

  /** A call read behind the words it begins with. */
  lemma WordsEqual(pre: seq<string>, ts: seq<Token>, call: seq<string>)
    requires Words(pre) <= ts && Texts(ts[|pre|..]).Some?
    ensures ts == Words(pre + call) <==> Texts(ts[|pre|..]).value == call
  {
    WordsBegin(pre, ts);
    TextsOnlyOfWords(ts);
    TextsOfWords(pre + call);
    var rest := Texts(ts[|pre|..]).value;
    assert (pre + rest)[|pre|..] == rest && (pre + call)[|pre|..] == call;
  }

  lemma ReadFedSudoExactly(ts: seq<Token>, runAs: Option<string>, inner: string, fed: Fed)
    requires Words(["sudo", "-S"]) <= ts
    ensures ReadFed(ts, fed) == Some((SudoHop(runAs, fed), inner)) <==>
            ts == Words(["sudo", "-S"] + SudoCall(runAs, inner)) && !ShellOption(inner)
  {
    var pre := ["sudo", "-S"];
    TextsOfWords(pre + SudoCall(runAs, inner));
    if Texts(ts).Some? {
      WordsBegin(pre, ts);
      WordsEqual(pre, ts, SudoCall(runAs, inner));
      var rest := Texts(ts[2..]).value;
      assert (pre + rest)[0] == "sudo" && (pre + rest)[1] == "-S" && (pre + rest)[2..] == rest;
      ReadSudoExactly(rest, runAs, inner, fed);
    }
  }

  lemma ReadBareSudoExactly(ts: seq<Token>, runAs: Option<string>, inner: string)
    requires Words(["sudo"]) <= ts
    ensures ReadBare(ts) == Some((SudoHop(runAs, NotFed), inner)) <==>
            ts == Words(["sudo"] + SudoCall(runAs, inner)) && !ShellOption(inner)
  {
    var pre := ["sudo"];
    TextsOfWords(pre + SudoCall(runAs, inner));
    if Texts(ts).Some? {
      WordsBegin(pre, ts);
      WordsEqual(pre, ts, SudoCall(runAs, inner));
      var rest := Texts(ts[1..]).value;
      assert (pre + rest)[0] == "sudo" && (pre + rest)[1..] == rest;
      ReadSudoExactly(rest, runAs, inner, NotFed);
    }
  }

  // ---- Passwords fed on standard input ----

  function FeedTokens(password: string, feed: Feed): seq<Token> {
    match feed
    case OneShot => [Word("echo"), Word(password), Pipe]
    case KeepStdin => [Open, Word("echo"), Word(password), Semi, Word("cat"), Semi, Close, Pipe]
  }

  /** One operator followed by a space. */
  lemma LexOperatorAndSpace(op: char, word: Partial, rest: string)
    requires Operator(op)
    ensures Lex([op] + " " + rest, false, word)
            == Prepend(Flush(word) + [OperatorToken(op)], Tokens(rest))
  {
    var line := [op] + " " + rest;
    assert line[1..] == " " + rest && (" " + rest)[1..] == rest;
    PrependTwice(Flush(word) + [OperatorToken(op)], [], Tokens(rest));
    assert Flush(word) + [OperatorToken(op)] + [] == Flush(word) + [OperatorToken(op)];
  }

  lemma OneShotTokens(password: string, cmd: string)
    ensures Tokens(FeedPassword(OneShot, password, cmd))
            == Prepend(FeedTokens(password, OneShot), Tokens(cmd))
  {
    var rest := "| " + cmd;
    SpacedTwo("echo", "");
    assert PlainWord("echo");
    assert FeedPassword(OneShot, password, cmd) == Spaced(["echo"]) + (Quote(password) + " " + rest);
    TokensOfSpaced(["echo"], Quote(password) + " " + rest);
    TokensOfQuoted(password, rest);
    assert rest == ['|'] + " " + cmd;
    LexOperatorAndSpace('|', None, cmd);
    assert Flush(None) + [Pipe] == [Pipe];
    PrependTwice(Words([password]), [Pipe], Tokens(cmd));
    PrependTwice(Words(["echo"]), Words([password]) + [Pipe], Tokens(cmd));
    assert Words(["echo"]) + (Words([password]) + [Pipe]) == FeedTokens(password, OneShot);
  }

  lemma LexCat(rest: string)
    ensures Tokens("cat; " + rest) == Prepend([Word("cat"), Semi], Tokens(rest))
  {
    var tail := [';'] + " " + rest;
    assert "cat; " + rest == "cat" + tail;
    LexPlain("cat", tail, None);
    assert [] + "cat" == "cat";
    LexOperatorAndSpace(';', Some("cat"), rest);
    assert Flush(Some("cat")) + [Semi] == [Word("cat"), Semi];
  }

  /** The end of the group and the pipe behind it. */
  lemma CatTokens(password: string, cmd: string)
    ensures Lex("; cat; } | " + cmd, false, Some(password)) ==
            Prepend([Word(password), Semi, Word("cat"), Semi, Close, Pipe], Tokens(cmd))
  {
    var bar := "| " + cmd;
    var close := "} " + bar;
    var cat := "cat; " + close;
    assert "; cat; } | " + cmd == [';'] + " " + cat;
    assert close == ['}'] + " " + bar && bar == ['|'] + " " + cmd;
    LexOperatorAndSpace(';', Some(password), cat);
    LexCat(close);
    LexOperatorAndSpace('}', None, bar);
    LexOperatorAndSpace('|', None, cmd);
    assert Flush(None) + [Close] == [Close] && Flush(None) + [Pipe] == [Pipe];
    assert Flush(Some(password)) + [Semi] == [Word(password), Semi];
    PrependTwice([Close], [Pipe], Tokens(cmd));
    PrependTwice([Word("cat"), Semi], [Close] + [Pipe], Tokens(cmd));
    PrependTwice([Word(password), Semi], [Word("cat"), Semi] + ([Close] + [Pipe]), Tokens(cmd));
    assert [Word(password), Semi] + ([Word("cat"), Semi] + ([Close] + [Pipe]))
        == [Word(password), Semi, Word("cat"), Semi, Close, Pipe];
  }

  lemma KeepStdinTokens(password: string, cmd: string)
    ensures Tokens(FeedPassword(KeepStdin, password, cmd))
            == Prepend(FeedTokens(password, KeepStdin), Tokens(cmd))
  {
    var semi := "; cat; } | " + cmd;
    var echo := Spaced(["echo"]) + (Quote(password) + semi);
    SpacedTwo("echo", "");
    assert PlainWord("echo");
    assert FeedPassword(KeepStdin, password, cmd) == ['{'] + " " + echo;
    LexOperatorAndSpace('{', None, echo);
    TokensOfSpaced(["echo"], Quote(password) + semi);
    LexQuoted(password, semi, None);
    assert [] + password == password;
    CatTokens(password, cmd);
    var last := [Word(password), Semi, Word("cat"), Semi, Close, Pipe];
    assert Flush(None) + [Open] == [Open];
    PrependTwice(Words(["echo"]), last, Tokens(cmd));
    PrependTwice([Open], Words(["echo"]) + last, Tokens(cmd));
    assert [Open] + (Words(["echo"]) + last) == FeedTokens(password, KeepStdin);
  }

  lemma FedLineReads(password: string, cmd: string, feed: Feed)
    ensures var ts := Tokens(cmd);
            ReadHop(FeedPassword(feed, password, cmd)) ==
            if ts.Some? then ReadFed(ts.value, Fed(password, feed)) else None
  {
    match feed
    case OneShot =>
      OneShotTokens(password, cmd);
      if Tokens(cmd).Some? {
        var all := FeedTokens(password, OneShot) + Tokens(cmd).value;
        assert all[3..] == Tokens(cmd).value;
      }
    case KeepStdin =>
      KeepStdinTokens(password, cmd);
      if Tokens(cmd).Some? {
        var all := FeedTokens(password, KeepStdin) + Tokens(cmd).value;
        assert all[8..] == Tokens(cmd).value;
        assert all[3..8] == [Semi, Word("cat"), Semi, Close, Pipe];
      }
  }

  // ---- Whole commands ----

  lemma SuReads(user: string, password: Option<string>, inner: string, feed: Feed)
    ensures (ReadHop(WrapSu(user, password, inner, feed))
             == Some((SuHop(user, FedBy(password, feed)), inner))) <==>
            PlainWord(user) && NoFlag(user) && !ShellOption(inner)
  {
    var cmd := "su " + user + " -c " + Quote(inner);
    SuTokens(user, inner);
    if Present(password).Some? {
      FedLineReads(password.value, cmd, feed);
    }
    if Tokens(cmd).Some? {
      ReadSuExactly(Tokens(cmd).value, user, inner, FedBy(password, feed));
    }
  }

  lemma SudoReads(runAs: Option<string>, password: Option<string>, inner: string, feed: Feed)
    ensures (ReadHop(WrapSudo(runAs, password, inner, feed))
             == Some((SudoHop(Present(runAs), FedBy(password, feed)), inner)))
            <==> (Present(runAs).Some? ==> PlainWord(runAs.value)) && !ShellOption(inner)
  {
    var user := Present(runAs);
    var fed := Present(password).Some?;
    var cmd := SudoLine(fed, user, inner);
    if user.Some? {
      SudoUserTokens(fed, user.value, inner);
    } else {
      SudoRootTokens(fed, inner);
      WordsConcat(SudoWords(fed), SudoCall(None, inner));
    }
    if fed {
      FedLineReads(password.value, cmd, feed);
      if Tokens(cmd).Some? {
        ReadFedSudoExactly(Tokens(cmd).value, user, inner, FedBy(password, feed));
      }
    } else if Tokens(cmd).Some? {
      assert Tokens(cmd).value[0] == Words(["sudo"])[0];
      ReadBareSudoExactly(Tokens(cmd).value, user, inner);
    }
  }

  /** One layer is read as the action it was printed from, with its exact password and the exact
      command it wraps, if and only if the name in it stands for itself in this reader, an ssh target
      leaves the command to its hop, and the command can be handed on. */
  lemma HopReadsExactly(a: Action, inner: string, feed: Feed)
    ensures (ReadHop(Wrap(a, inner, feed)) == Some((HopOf(a, feed), inner)))
            <==> NamesReadLiterally(a) && PassesOn(a, inner)
  {
    match a
    case Ssh(target, password) => SshReads(target, password, inner);
    case Su(user, password) => SuReads(user, password, inner, feed);
    case Sudo(runAs, password) => SudoReads(runAs, password, inner, feed);
  }

  /** Layer k of the compiled command is read as action k around layer k + 1. */
  ghost predicate LayerReadsBack(actions: seq<Action>, base: string, feed: Feed, k: nat)
    requires k < |actions|
  {
    ReadHop(Compile(actions[k..], base, feed))
    == Some((HopOf(actions[k], feed), Compile(actions[k + 1..], base, feed)))
  }

  ghost predicate AllReadBack(actions: seq<Action>, base: string, feed: Feed) {
    forall k: nat :: k < |actions| ==> LayerReadsBack(actions, base, feed, k)
  }

  /** Every name stands for itself, and the innermost layer can hand on the given command. */
  ghost predicate ReadsLiterally(actions: seq<Action>, base: string) {
    && (forall a :: a in actions ==> NamesReadLiterally(a))
    && (actions != [] ==> PassesOn(actions[|actions| - 1], base))
  }

  /** What a layer prints can be handed on by any layer. */
  lemma WrappedPassesOn(a: Action, inner: string, feed: Feed)
    ensures Wrap(a, inner, feed) != [] && !ShellOption(Wrap(a, inner, feed))
  {
    var line := Wrap(a, inner, feed);
    assert line[0] == 's' || line[0] == 'e' || line[0] == '{';
  }

  lemma OneLayerReads(actions: seq<Action>, base: string, feed: Feed, k: nat)
    requires k < |actions|
    ensures LayerReadsBack(actions, base, feed, k) <==>
            NamesReadLiterally(actions[k]) && (k == |actions| - 1 ==> PassesOn(actions[k], base))
  {
    assert actions[k..][1..] == actions[k + 1..];
    HopReadsExactly(actions[k], Compile(actions[k + 1..], base, feed), feed);
    if k < |actions| - 1 {
      var rest := actions[k + 1..];
      WrappedPassesOn(rest[0], Compile(rest[1..], base, feed), feed);
    }
  }

  /** Nested quoting preserves meaning: every layer reads back if and only if every unquoted name
      stands for itself and the innermost command can be handed on, at any depth and for any
      password. */
  lemma EveryLayerReadsExactly(actions: seq<Action>, base: string, feed: Feed)
    ensures AllReadBack(actions, base, feed) <==> ReadsLiterally(actions, base)
  {
    forall k: nat | k < |actions|
      ensures LayerReadsBack(actions, base, feed, k) <==>
              NamesReadLiterally(actions[k]) && (k == |actions| - 1 ==> PassesOn(actions[k], base))
    {
      OneLayerReads(actions, base, feed, k);
    }
    assert forall k: nat :: k < |actions| ==> actions[k] in actions;
    assert actions != [] && AllReadBack(actions, base, feed) ==>
        LayerReadsBack(actions, base, feed, |actions| - 1);
  }

  /** So peeling all layers yields the actions in order and the original command verbatim. */
  lemma {:induction false} PeelingGivesTheActions(actions: seq<Action>, base: string, feed: Feed)
    requires ReadsLiterally(actions, base)
    ensures ReadLayers(Compile(actions, base, feed), |actions|) == Some((HopsOf(actions, feed), base))
  {
    if actions != [] {
      HeadAndTail(actions);
      OneLayerReads(actions, base, feed, 0);
      assert actions[0..] == actions;
      PeelingGivesTheActions(actions[1..], base, feed);
    }
  }

  /** A compiled command is read as what it was compiled from exactly when it reads literally. */
  lemma CompiledMeaning(actions: seq<Action>, base: string, feed: Feed)
    ensures AllReadBack(actions, base, feed) <==> ReadsLiterally(actions, base)
    ensures AllReadBack(actions, base, feed) ==>
              ReadLayers(Compile(actions, base, feed), |actions|) == Some((HopsOf(actions, feed), base))
  {
    EveryLayerReadsExactly(actions, base, feed);
    if ReadsLiterally(actions, base) {
      PeelingGivesTheActions(actions, base, feed);
    }
  }

  lemma HasLastSsh(actions: seq<Action>)
    ensures ThroughLastSsh(actions) > 0 <==> exists a :: a in actions && a.Ssh?
  {
    var n := ThroughLastSsh(actions);
    if n > 0 {
      assert actions[n - 1] in actions;
    }
  }

  lemma HopsToLastSshMean(hops: seq<Action>, command: string, feed: Feed)
    requires hops != [] && hops[|hops| - 1].Ssh?
    ensures AllReadBack(hops, command, feed) <==>
            (forall a :: a in hops ==> NamesReadLiterally(a)) && command != [] && !ShellOption(command)
    ensures AllReadBack(hops, command, feed) ==>
              ReadLayers(Compile(hops, command, feed), |hops|) == Some((HopsOf(hops, feed), command))
  {
    CompiledMeaning(hops, command, feed);
  }

  /** A command is derived exactly when the script enters another host. It makes the parsed hops up to
      the last ssh, in order, and runs the given command behind them, if and only if the hops read
      literally and the command is neither empty nor an option. */
  lemma DerivedCommandMeaning(steps: seq<LoginStep>, command: string, feed: Feed)
    ensures var r := DeriveNested(steps, command, feed);
            var n := ThroughLastSsh(ParseActions(steps));
            var hops := ParseActions(steps)[..n];
            && (r.Some? <==> EntersAnotherHost(steps))
            && (r.Some? ==>
                  && hops[n - 1].Ssh?
                  && (AllReadBack(hops, command, feed) <==>
                      (forall a :: a in hops ==> NamesReadLiterally(a)) && command != [] && !ShellOption(command))
                  && (AllReadBack(hops, command, feed) ==>
                      ReadLayers(r.value, n) == Some((HopsOf(hops, feed), command))))
  {
    var actions := ParseActions(steps);
    var n := ThroughLastSsh(actions);
    HasLastSsh(actions);
    if n > 0 {
      HopsToLastSshMean(actions[..n], command, feed);
    }
  }

  // ---- Targets that are more than a host ----

  lemma TwoFields(a: string, b: string)
    requires PlainWord(a) && PlainWord(b)
    ensures Fields(a + " " + b) == [a, b] && Clean(a + " " + b)
  {
    FieldsOfPrefix(a, " " + b, None);
    assert a + " " + b == a + (" " + b) && [] + a == a;
    assert (" " + b)[1..] == b;
    PlainWordExactly(b);
  }

  /** A target that already holds words of a remote command gets the command of its hop behind them. */
  lemma RemoteWordsComeFirst(target: string, password: Option<string>, inner: string)
    requires Clean(target) && SplitCall(Fields(target), NO_ARGS).Some?
    requires var call := SplitCall(Fields(target), NO_ARGS).value;
             && |call.command| == 1 && ReachesHost(call.at) && 's' !in call.at.letters
             && call.command[0] != [] && !ShellOption(call.command[0])
    ensures var call := SplitCall(Fields(target), NO_ARGS).value;
            ReadHop(BuildSshHop(target, password, inner)) ==
            Some((SshHop(call.own, Present(password)), call.command[0] + " " + inner))
  {
    var call := SplitCall(Fields(target), NO_ARGS).value;
    SshLineReads(target, password, Quote(inner));
    LexLastQuoted(inner);
    CleanCallReads(target, Quote(inner), [inner], Present(password));
    CallGoesOn(Fields(target), [inner], NO_ARGS);
    var command := call.command + [inner];
    assert command[1..] == [inner];
    assert Join(command, ' ') == call.command[0] + [' '] + inner;
  }

  /** A target of two plain words names a host and the first word of a remote command. */
  lemma TypedCallSplits(host: string, word: string)
    requires PlainWord(host) && PlainWord(word) && NoFlag(host) && NoFlag(word)
    ensures var target := host + " " + word;
            && Clean(target)
            && SplitCall(Fields(target), NO_ARGS) == Some(SshCall([host], NO_ARGS.(host := Some(host)), [word]))
  {
    TwoFields(host, word);
    var named := NO_ARGS.(host := Some(host));
    assert [host, word][1..] == [word];
    assert SplitCall([word], named) == Some(SshCall([], named, [word]));
    assert SplitCall([host, word], NO_ARGS) == Some(SshCall([host] + [], named, [word]));
    assert [host] + [] == [host];
  }

  /** For instance the typed step `ssh web01 uptime`: the hop does not run the command of the layers
      inside it but `uptime` with that command as arguments. */
  lemma TypedRemoteCommandIsNotAHop(host: string, word: string, password: Option<string>, inner: string)
    requires PlainWord(host) && PlainWord(word) && NoFlag(host) && NoFlag(word) && word[0] != '+'
    ensures var a := Ssh(host + " " + word, password);
            && !NamesReadLiterally(a)
            && ReadHop(Wrap(a, inner, OneShot)) ==
               Some((SshHop([host], Present(password)), word + " " + inner))
  {
    TypedCallSplits(host, word);
    RemoteWordsComeFirst(host + " " + word, password, inner);
  }

  // ---- SFTP ----

  lemma SftpTail()
    ensures Tokens("-s sftp") == Some(Words(["-s", "sftp"]))
  {
    assert PlainWord("-s") && PlainWord("sftp");
    SpacedTwo("-s", "");
    assert "-s sftp" == Spaced(["-s"]) + "sftp";
    LexSpaced(["-s"], "sftp");
    LexPlain("sftp", [], None);
    assert "sftp" + [] == "sftp" && [] + "sftp" == "sftp";
    assert Words(["sftp"]) == [Word("sftp")];
    WordsConcat(["-s"], ["sftp"]);
    assert ["-s"] + ["sftp"] == ["-s", "sftp"];
  }

  /** The words of a target name a host and no remote command, and `-s` behind them asks for the
      subsystem: it is still an option (or the argument that the last option waits for, where the
      subsystem was asked for before). */
  predicate AsksForSftp(words: seq<string>) {
    var call := SplitCall(words, NO_ARGS);
    && call.Some? && call.value.command == []
    && TakesSubsystem(call.value.at)
  }

  predicate TakesSubsystem(at: SshArgs) {
    at.host.Some? && at.letters !! NO_COMMAND && if at.pending then 's' in at.letters else !at.closed
  }

  lemma SubsystemFlag(at: SshArgs)
    requires !at.pending && !at.closed
    ensures NextArg("-s", at) == Some(at.(letters := at.letters + {'s'}))
  {
    assert SSH_FLAGS[14] == 's';
    assert "-s"[1..] == "s" && "s"[1..] == "";
    assert OptionLetters("s", at) == OptionLetters("", at.(letters := at.letters + {'s'}));
  }

  /** Behind options `-s` is kept and `sftp` is the command. */
  ghost predicate SubsystemAsked(call: Option<SshCall>) {
    && call.Some? && call.value.own == ["-s"] && call.value.command == ["sftp"]
    && ReachesHost(call.value.at) && 's' in call.value.at.letters
  }

  lemma LastWordSplits(at: SshArgs)
    requires !at.pending
    ensures SplitCall(["sftp"], at) ==
            if at.host.Some? then Some(SshCall([], at, ["sftp"]))
            else Some(SshCall(["sftp"], at.(host := Some("sftp")), []))
  {
    assert ["sftp"][1..] == [] && ["sftp"] + [] == ["sftp"];
  }

  lemma SubsystemWords(at: SshArgs)
    ensures SubsystemAsked(SplitCall(["-s", "sftp"], at)) <==> TakesSubsystem(at)
  {
    assert ["-s", "sftp"][1..] == ["sftp"];
    if !StartsCommand("-s", at) {
      if at.pending {
        LastWordSplits(at.(pending := false));
      } else if !at.closed {
        SubsystemFlag(at);
        LastWordSplits(at.(letters := at.letters + {'s'}));
      }
      assert ["-s"] + [] == ["-s"] && ["-s"] + ["sftp"] != ["-s"];
    }
  }

  lemma SubsystemBehind(words: seq<string>, at: SshArgs, rest: SshCall, password: Option<string>)
    requires rest.own + rest.command == ["-s", "sftp"]
    ensures words + rest.own == words + ["-s"] && Join(rest.command, ' ') == "sftp" <==>
            rest.own == ["-s"] && rest.command == ["sftp"]
  {
    if words + rest.own == words + ["-s"] {
      assert rest.own == (words + rest.own)[|words|..] == (words + ["-s"])[|words|..] == ["-s"];
      assert rest.command == (rest.own + rest.command)[1..] == ["sftp"];
    }
  }

  /** `-s sftp` behind the words of a target is read as the request of the subsystem if and only if those
      words leave room for it. */
  lemma SubsystemIsTaken(words: seq<string>, password: Option<string>)
    ensures ReadCall(words + ["-s", "sftp"], password) == Some((SubsystemHop(words + ["-s"], password), "sftp"))
            <==> AsksForSftp(words)
  {
    var call := SplitCall(words, NO_ARGS);
    CallGoesOn(words, ["-s", "sftp"], NO_ARGS);
    if call.Some? {
      CallIsWhole(words, NO_ARGS);
      if call.value.command == [] {
        assert call.value.own + [] == call.value.own;
        var rest := SplitCall(["-s", "sftp"], call.value.at);
        SubsystemWords(call.value.at);
        if rest.Some? {
          CallIsWhole(["-s", "sftp"], call.value.at);
          SubsystemBehind(words, call.value.at, rest.value, password);
        }
      } else {
        assert |call.value.own| < |words|;
      }
    }
  }

  lemma SftpTailWeighs()
    ensures Count("-s sftp", '\\') == Weight("-s") + Weight("sftp")
  {
    SftpTail();
    LexConservesBackslashes("-s sftp", false, None);
    WordsConcat(["-s"], ["sftp"]);
    assert ["-s"] + ["sftp"] == ["-s", "sftp"];
    TokensWeightConcat(Words(["-s"]), Words(["sftp"]));
    WordsOfFieldsWeigh("-s");
    WordsOfFieldsWeigh("sftp");
  }

  lemma AskingWeighs(command: seq<string>)
    requires Join(command, ' ') == "sftp"
    ensures TokensWeight(Words(["-s"] + command)) == Count("-s sftp", '\\')
  {
    SftpTailWeighs();
    JoinWeighs(command);
    WordsConcat(["-s"], command);
    TokensWeightConcat(Words(["-s"]), Words(command));
    WordsOfFieldsWeigh("-s");
  }

  lemma AskingPieceIsClean(target: string, command: seq<string>)
    requires Tokens(target + " " + "-s sftp") == Some(Words(Fields(target) + (["-s"] + command)))
    requires Join(command, ' ') == "sftp"
    ensures Clean(target)
  {
    AskingWeighs(command);
    WordsOfFieldsWeigh(target);
    PieceReadBackIsClean(target, "-s sftp", Fields(target), ["-s"] + command);
  }

  /** What was read came from the words kept and the words of a command. */
  lemma AskingWords(ws: seq<string>, words: seq<string>, password: Option<string>)
    returns (command: seq<string>)
    requires ReadCall(ws, password) == Some((SubsystemHop(words + ["-s"], password), "sftp"))
    ensures ws == words + (["-s"] + command) && Join(command, ' ') == "sftp"
  {
    command := SplitCall(ws, NO_ARGS).value.command;
    CallIsWhole(ws, NO_ARGS);
    assert words + ["-s"] + command == words + (["-s"] + command);
  }

  /** A target whose words come back whole in front of the request is clean. */
  lemma SubsystemReadBackIsClean(target: string, ws: seq<string>, password: Option<string>)
    requires Tokens(target + " " + "-s sftp") == Some(Words(ws))
    requires ReadCall(ws, password) == Some((SubsystemHop(Fields(target) + ["-s"], password), "sftp"))
    ensures Clean(target)
  {
    var command := AskingWords(ws, Fields(target), password);
    AskingPieceIsClean(target, command);
  }

  /** The SFTP line of the last host is read as a request of that subsystem, with its exact password, if
      and only if its target is clean and leaves room for the request. */
  lemma SubsystemReads(target: string, password: Option<string>)
    ensures ReadHop(SftpSubsystem(target, password))
            == Some((SubsystemHop(Fields(target) + ["-s"], Present(password)), "sftp"))
            <==> Clean(target) && AsksForSftp(Fields(target))
  {
    var given := Present(password);
    var read := ReadCallTokens(Tokens(target + " " + "-s sftp"), given);
    SshLineReads(target, password, "-s sftp");
    if read == Some((SubsystemHop(Fields(target) + ["-s"], given), "sftp")) {
      var ws := WordsRead(Tokens(target + " " + "-s sftp"), given);
      SubsystemReadBackIsClean(target, ws, given);
    }
    if Clean(target) {
      SftpTail();
      CleanCallReads(target, "-s sftp", ["-s", "sftp"], given);
      SubsystemIsTaken(Fields(target), given);
    }
  }

  /** What SFTP is to reach: the hops to make and the command behind them. */
  function SftpGoal(actions: seq<Action>): (seq<Action>, string)
    requires actions != []
  {
    var last := actions[|actions| - 1];
    if last.Ssh? then (actions[..|actions| - 1], SftpSubsystem(last.target, last.password))
    else (actions, SFTP_SERVER_PROBE)
  }

  lemma SshLineStarts(target: string, password: Option<string>, rest: string)
    ensures SshLine(target, password, rest) != [] && !ShellOption(SshLine(target, password, rest))
  {
    var line := SshLine(target, password, rest);
    assert line[0] == 's' || line[0] == 'e';
  }

  lemma GoalPassesOn(actions: seq<Action>)
    requires actions != []
    ensures SftpGoal(actions).1 != [] && !ShellOption(SftpGoal(actions).1)
  {
    var last := actions[|actions| - 1];
    if last.Ssh? {
      SshLineStarts(last.target, last.password, "-s sftp");
    } else {
      assert SFTP_SERVER_PROBE[0] == 'i';
    }
  }

  /** Every hop on the way is made, and the line behind them asks the last host for its subsystem when
      the last step is an ssh. */
  ghost predicate SftpReached(actions: seq<Action>)
    requires actions != []
  {
    var (hops, line) := SftpGoal(actions);
    var last := actions[|actions| - 1];
    && AllReadBack(hops, line, KeepStdin)
    && (last.Ssh? ==>
          ReadHop(line) == Some((SubsystemHop(Fields(last.target) + ["-s"], Present(last.password)), "sftp")))
  }

  /** The names before the last ssh stand for themselves, and its own target leaves room for the request. */
  ghost predicate SftpReachable(actions: seq<Action>)
    requires actions != []
  {
    var last := actions[|actions| - 1];
    && (forall a :: a in SftpGoal(actions).0 ==> NamesReadLiterally(a))
    && (last.Ssh? ==> Clean(last.target) && AsksForSftp(Fields(last.target)))
  }

  /** The line that DeriveSftp prints for some actions is read as the hops to its goal. */
  lemma SftpGoalIsReached(actions: seq<Action>)
    requires actions != []
    ensures SftpReached(actions) <==> SftpReachable(actions)
    ensures var (hops, line) := SftpGoal(actions);
            SftpReached(actions) ==>
              ReadLayers(Compile(hops, line, KeepStdin), |hops|) == Some((HopsOf(hops, KeepStdin), line))
  {
    var (hops, line) := SftpGoal(actions);
    var last := actions[|actions| - 1];
    GoalPassesOn(actions);
    CompiledMeaning(hops, line, KeepStdin);
    if last.Ssh? {
      SubsystemReads(last.target, last.password);
    }
  }

  lemma SftpPrintsGoal(steps: seq<LoginStep>)
    ensures DeriveSftp(steps) ==
            if ParseActions(steps) == [] then None
            else Some(Compile(SftpGoal(ParseActions(steps)).0, SftpGoal(ParseActions(steps)).1, KeepStdin))
  {
  }

  /** SFTP reaches the user of the last step: through the subsystem of the last host when that step is an
      ssh, else by running the server binary, verbatim, behind every parsed hop; if and only if the hops
      before read literally and the target of a last ssh leaves room for the request. */
  lemma DerivedSftpMeaning(steps: seq<LoginStep>)
    ensures DeriveSftp(steps).None? <==> ParseActions(steps) == []
    ensures DeriveSftp(steps).Some? ==>
              var actions := ParseActions(steps);
              var (hops, line) := SftpGoal(actions);
              && (SftpReached(actions) <==> SftpReachable(actions))
              && (SftpReached(actions) ==>
                    ReadLayers(DeriveSftp(steps).value, |hops|) == Some((HopsOf(hops, KeepStdin), line)))
  {
    SftpPrintsGoal(steps);
    if ParseActions(steps) != [] {
      SftpGoalIsReached(ParseActions(steps));
    }
  }

  lemma JoinThree(word: string)
    ensures Join([word] + ["-s", "sftp"], ' ') == word + " -s sftp"
  {
    assert ([word] + ["-s", "sftp"])[1..] == ["-s", "sftp"] && ["-s", "sftp"][1..] == ["sftp"];
    assert Join(["-s", "sftp"], ' ') == "-s" + [' '] + "sftp";
  }

  /** For instance the typed step `ssh web01 uptime`, which runs `uptime -s sftp` and reaches no SFTP. */
  lemma TypedRemoteCommandIsNoSftp(host: string, word: string, password: Option<string>)
    requires PlainWord(host) && PlainWord(word) && NoFlag(host) && NoFlag(word) && word[0] != '+'
    ensures var target := host + " " + word;
            && ReadHop(SftpSubsystem(target, password)) ==
               Some((SshHop([host], Present(password)), word + " -s sftp"))
            && !SftpReached([Ssh(target, password)])
  {
    var target, tail := host + " " + word, ["-s", "sftp"];
    TypedCallSplits(host, word);
    SshLineReads(target, password, "-s sftp");
    SftpTail();
    CleanCallReads(target, "-s sftp", tail, Present(password));
    CallGoesOn(Fields(target), tail, NO_ARGS);
    JoinThree(word);
    SubsystemReads(target, password);
  }

  // ---- Standard input ----

  function FirstLine(s: string): string {
    if s == [] || s[0] == '\n' then [] else [s[0]] + FirstLine(s[1..])
  }

  function AfterFirstLine(s: string): string {
    if s == [] then [] else if s[0] == '\n' then s[1..] else AfterFirstLine(s[1..])
  }

  function FedOf(h: Hop): Fed {
    if h.SuHop? || h.SudoHop? then h.fed else NotFed
  }

  /** `-n` and `-f` in a target make ssh read nothing. */
  predicate CutsStdin(h: Hop) {
    h.SshHop? &&
    var call := SplitCall(h.args, NO_ARGS);
    call.Some? && ('n' in call.value.at.letters || 'f' in call.value.at.letters)
  }

  /** What each su/sudo reads as its password, and what is left for the command behind all hops,
      when a fed hop reads one line of what it is given. */
  function Deliver(hops: seq<Hop>, stdin: string): (seq<string>, string) {
    if hops == [] then ([], stdin)
    else
      var fed := FedOf(hops[0]);
      if fed.NotFed? then Deliver(hops[1..], if CutsStdin(hops[0]) then "" else stdin)
      else
        var given := fed.password + "\n" + (if fed.feed.KeepStdin? then stdin else "");
        var rest := Deliver(hops[1..], AfterFirstLine(given));
        ([FirstLine(given)] + rest.0, rest.1)
  }

  function FedPasswords(hops: seq<Hop>): seq<string> {
    if hops == [] then []
    else (if FedOf(hops[0]).Fed? then [FedOf(hops[0]).password] else []) + FedPasswords(hops[1..])
  }

  lemma {:induction false} OneLineExactly(password: string, rest: string)
    ensures FirstLine(password + "\n" + rest) == password <==> '\n' !in password
    ensures '\n' !in password ==> AfterFirstLine(password + "\n" + rest) == rest
  {
    var given := password + "\n" + rest;
    if password != [] {
      assert given[1..] == password[1..] + "\n" + rest;
      HeadAndTail(password);
      OneLineExactly(password[1..], rest);
      assert password == [password[0]] + password[1..];
    } else {
      assert given[1..] == rest;
    }
  }

  /** Whether standard input gets through to the command behind all hops. */
  ghost predicate KeepsStdin(hops: seq<Hop>, feed: Feed) {
    (feed.KeepStdin? || FedPasswords(hops) == []) && forall h :: h in hops ==> !CutsStdin(h)
  }

  lemma FirstPasswordRead(first: string, rest: seq<string>, password: string, others: seq<string>)
    ensures [first] + rest == [password] + others <==> first == password && rest == others
  {
    if [first] + rest == [password] + others {
      assert ([first] + rest)[0] == first && ([first] + rest)[1..] == rest;
      assert ([password] + others)[0] == password && ([password] + others)[1..] == others;
    }
  }

  /** Every su/sudo reads its own password if and only if no password holds a line break; the
      stream form then hands standard input on untouched unless an ssh was told to read nothing, the
      one-shot form cuts it off as soon as one password was fed. */
  lemma {:induction false} StdinLaw(hops: seq<Hop>, stdin: string, feed: Feed)
    requires forall h :: h in hops && FedOf(h).Fed? ==> FedOf(h).feed == feed
    ensures Deliver(hops, stdin).0 == FedPasswords(hops) <==>
            forall p :: p in FedPasswords(hops) ==> '\n' !in p
    ensures Deliver(hops, stdin).0 == FedPasswords(hops) ==>
            Deliver(hops, stdin).1 == if KeepsStdin(hops, feed) then stdin else ""
    decreases |hops|
  {
    if hops != [] {
      HeadAndTail(hops);
      var fed, tail := FedOf(hops[0]), FedPasswords(hops[1..]);
      if fed.NotFed? {
        StdinLaw(hops[1..], if CutsStdin(hops[0]) then "" else stdin, feed);
        assert FedPasswords(hops) == tail;
      } else {
        var kept := if fed.feed.KeepStdin? then stdin else "";
        var given := fed.password + "\n" + kept;
        OneLineExactly(fed.password, kept);
        StdinLaw(hops[1..], AfterFirstLine(given), feed);
        assert FedPasswords(hops) == [fed.password] + tail;
        FirstPasswordRead(FirstLine(given), Deliver(hops[1..], AfterFirstLine(given)).0, fed.password, tail);
      }
    }
  }

  /** The passwords of the su and sudo steps among some actions. */
  function AccountPasswords(actions: seq<Action>): seq<string> {
    if actions == [] then []
    else
      var a := actions[0];
      (if !a.Ssh? && Present(a.password).Some? then [a.password.value] else []) + AccountPasswords(actions[1..])
  }

  lemma {:induction false} HopsAreFedAlike(actions: seq<Action>, feed: Feed)
    ensures FedPasswords(HopsOf(actions, feed)) == AccountPasswords(actions)
    ensures forall h :: h in HopsOf(actions, feed) && FedOf(h).Fed? ==> FedOf(h).feed == feed
  {
    if actions != [] {
      HopsAreFedAlike(actions[1..], feed);
      assert HopsOf(actions, feed)[1..] == HopsOf(actions[1..], feed);
      HeadAndTail(HopsOf(actions, feed));
    }
  }

  /** So for the hops that a shell reads out of a derived command: each su/sudo step gets the password
      typed for it if and only if none of these holds a line break, and then the given command gets
      standard input whole or not at all. */
  lemma DerivedStdin(steps: seq<LoginStep>, command: string, feed: Feed, stdin: string)
    requires DeriveNested(steps, command, feed).Some?
    requires ReadsLiterally(ParseActions(steps)[..ThroughLastSsh(ParseActions(steps))], command)
    ensures var n := ThroughLastSsh(ParseActions(steps));
            var passwords := AccountPasswords(ParseActions(steps)[..n]);
            var read := ReadLayers(DeriveNested(steps, command, feed).value, n);
            && read.Some? && read.value.1 == command
            && var got := Deliver(read.value.0, stdin);
               && (got.0 == passwords <==> forall p :: p in passwords ==> '\n' !in p)
               && (got.0 == passwords ==> got.1 == if KeepsStdin(read.value.0, feed) then stdin else "")
  {
    var n := ThroughLastSsh(ParseActions(steps));
    var actions := ParseActions(steps)[..n];
    PeelingGivesTheActions(actions, command, feed);
    HopsAreFedAlike(actions, feed);
    StdinLaw(HopsOf(actions, feed), stdin, feed);
  }

  // ---- The tunnel command ----

  lemma {:induction false} DecimalIsPlain(n: nat)
    ensures PlainWord(Decimal(n))
  {
  }

  lemma MarkerIsPlain(hex: string)
    requires forall c :: c in hex ==> IsDigit(c) || 'a' <= c <= 'f'
    ensures PlainWord(Marker(hex))
  {
  }

  lemma SafeHostIsPlain(host: string)
    requires ShellSafeHost(host)
    ensures PlainWord(host)
  {
  }

  lemma NcTail(host: string, port: string)
    requires PlainWord(host) && PlainWord(port)
    ensures Tokens(Spaced(["exec", "nc", host]) + port) == Some(Words(["exec", "nc", host, port]))
  {
    var run := ["exec", "nc", host];
    assert PlainWord("exec") && PlainWord("nc");
    LexSpaced(run, port);
    LexPlain(port, [], None);
    assert port + [] == port && [] + port == port;
    WordsConcat(run, [port]);
    assert run + [port] == ["exec", "nc", host, port];
    assert Words([port]) == [Word(port)];
  }

  lemma NcText(marker: string, host: string, port: string)
    ensures "printf %s " + marker + "; exec nc " + host + " " + port
            == Spaced(["printf", "%s"]) + (marker + ([';'] + " " + (Spaced(["exec", "nc", host]) + port)))
  {
    SpacedTwo("printf", "%s");
    SpacedTwo("nc", host);
    assert ["exec", "nc", host][1..] == ["nc", host];
    assert Spaced(["exec", "nc", host]) == "exec " + Spaced(["nc", host]);
  }

  lemma NcHead(marker: string, tail: string)
    requires PlainWord(marker)
    ensures Tokens(Spaced(["printf", "%s"]) + (marker + ([';'] + " " + tail)))
            == Prepend(Words(["printf", "%s", marker]) + [Semi], Tokens(tail))
  {
    var rest := marker + ([';'] + " " + tail);
    assert PlainWord("printf") && PlainWord("%s");
    LexSpaced(["printf", "%s"], rest);
    LexPlain(marker, [';'] + " " + tail, None);
    assert [] + marker == marker;
    LexOperatorAndSpace(';', Some(marker), tail);
    PrependTwice(Words(["printf", "%s"]), [Word(marker), Semi], Tokens(tail));
    assert Words(["printf", "%s"]) + [Word(marker), Semi] == Words(["printf", "%s", marker]) + [Semi];
    assert Flush(Some(marker)) + [Semi] == [Word(marker), Semi];
  }

  /** A tunnel leaves the native route only for a script that enters another host and a destination
      that reads literally: the deepest shell then runs exactly `nc` on that host and port. */
  lemma NcCommandReads(destHost: string, steps: seq<LoginStep>, hex: string, port: nat)
    requires ChooseRoute(destHost, steps) != NativeRoute
    requires forall c :: c in hex ==> IsDigit(c) || 'a' <= c <= 'f'
    ensures EntersAnotherHost(steps)
    ensures Tokens(NcCommand(Marker(hex), destHost, port)) ==
            Some(Words(["printf", "%s", "ICTUN" + hex]) + [Semi]
                 + Words(["exec", "nc", destHost, Decimal(port)]))
    ensures forall a :: PassesOn(a, NcCommand(Marker(hex), destHost, port))
  {
    var p, marker := Decimal(port), Marker(hex);
    assert NcCommand(marker, destHost, port)[0] == 'p';
    MarkerIsPlain(hex);
    DecimalIsPlain(port);
    SafeHostIsPlain(destHost);
    NcTail(destHost, p);
    NcHead(marker, Spaced(["exec", "nc", destHost]) + p);
    NcText(marker, destHost, p);
  }

  // ---- Which way a tunnel goes ----

  /** Letters, digits, dots, colons and dashes, at least one of them. */
  predicate SafeText(host: string) {
    host != "" && forall c :: c in host ==>
      'a' <= c <= 'z' || 'A' <= c <= 'Z' || '0' <= c <= '9' || c in {'.', ':', '-'}
  }

  /** The same letter, upper or lower. */
  predicate SameLetter(c: char, lower: char) {
    c == lower || c as int == lower as int - 32
  }

  predicate IsLocalhost(host: string) {
    |host| == 9 && forall i :: 0 <= i < 9 ==> SameLetter(host[i], "localhost"[i])
  }

  lemma LowerIsLocalhost(host: string)
    ensures LowerAscii(host) == "localhost" <==> IsLocalhost(host)
  {
    if LowerAscii(host) == "localhost" {
      forall i | 0 <= i < 9
        ensures SameLetter(host[i], "localhost"[i])
      {
        assert LowerAscii(host)[i] == "localhost"[i];
      }
    }
    if IsLocalhost(host) {
      forall i | 0 <= i < 9
        ensures LowerAscii(host)[i] == "localhost"[i]
      {
        assert SameLetter(host[i], "localhost"[i]) && 'a' <= "localhost"[i] <= 'z';
      }
    }
  }

  /** A tunnel goes through the script exactly when some step enters another host and the destination can
      be written into a command; and then never natively exactly when the destination is that host itself. */
  lemma RouteExactly(destHost: string, steps: seq<LoginStep>)
    ensures var enters := exists a :: a in ParseActions(steps) && a.Ssh?;
            var itself := IsLocalhost(destHost) || destHost == "127.0.0.1" || destHost == "::1";
            ChooseRoute(destHost, steps) ==
            if !enters || !SafeText(destHost) then NativeRoute
            else if itself then ScriptRoute
            else ScriptThenNativeRoute
  {
    LowerIsLocalhost(destHost);
  }
}
