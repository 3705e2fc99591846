/** What the typed steps of a login script mean. */
module LoginSteps {
  import opened Basics
  import opened Text
  import opened LoginScript

  // ---- What a line says, on its text ----

  /** `name` and the rest of a line, which does not lengthen the name. */
  predicate Names(raw: string, name: string, args: string) {
    raw == name + args && (args == [] || !IsWordChar(args[0])) && forall c :: c in args ==> !IsLineBreak(c)
  }

  predicate IsFlag(word: string) {
    word != [] && word[0] == '-'
  }

  /** The last word that is not a flag; root when there is none. */
  ghost predicate LastIsUser(words: seq<string>, user: string) {
    || (user == "root" && forall w :: w in words ==> IsFlag(w))
    || exists i :: 0 <= i < |words| && words[i] == user && !IsFlag(user)
                   && forall j :: i < j < |words| ==> IsFlag(words[j])
  }

  ghost predicate SuSays(args: string, user: string) {
    exists words :: LaidOut(args, words) && LastIsUser(words, user)
  }

  /** `-u`, white space and a whole word, behind `head`. */
  predicate UserFlag(args: string, head: string, gap: string, user: string, tail: string) {
    args == head + "-u" + gap + user + tail && gap != [] && Gap(gap) && IsWord(user)
    && (tail == [] || IsSpace(tail[0]))
  }

  /** The word behind the first `-u`, which need not stand alone. */
  ghost predicate SudoSays(args: string, user: Option<string>) {
    match user
    case None => forall head, gap, u, tail :: !UserFlag(args, head, gap, u, tail)
    case Some(name) =>
      exists head, gap, tail :: UserFlag(args, head, gap, name, tail)
        && forall h, g, u, t :: UserFlag(args, h, g, u, t) ==> |head| <= |h|
  }

  /** Everything behind `ssh` and white space, on one line. */
  ghost predicate SshSays(raw: string, target: string) {
    target != [] && !IsSpace(target[0]) && (forall c :: c in target ==> !IsLineBreak(c))
    && exists gap :: gap != [] && Gap(gap) && raw == "ssh" + gap + target
  }

  ghost predicate Says(raw: string, password: Option<string>, action: Option<Action>) {
    match action
    case Some(Sudo(user, p)) => p == password && exists args :: Names(raw, "sudo", args) && SudoSays(args, user)
    case Some(Su(user, p)) => p == password && exists args :: Names(raw, "su", args) && SuSays(args, user)
    case Some(Ssh(target, p)) => p == password && SshSays(raw, target)
    case None =>
      && (forall args :: !Names(raw, "sudo", args) && !Names(raw, "su", args))
      && forall target :: !SshSays(raw, target)
  }

  /** White space around a line does not matter. */
  ghost predicate Bare(send: string, raw: string) {
    Trimmed(raw) && exists before, after :: Gap(before) && Gap(after) && send == before + raw + after
  }

  ghost predicate LineMeans(send: string, password: Option<string>, action: Option<Action>) {
    exists raw :: Bare(send, raw) && Says(raw, password, action)
  }

  // ---- The patterns find what the text says ----

  lemma CommandIsNamed(raw: string, name: string, args: string)
    ensures CommandArgs(raw, name) == Some(args) <==> Names(raw, name, args)
  {
    if name <= raw {
      assert raw == name + raw[|name|..];
    }
    if raw == name + args {
      assert raw[|name|..] == args;
    }
  }

  lemma TrimIsBare(send: string, raw: string)
    ensures Bare(send, raw) <==> raw == Trim(send)
  {
    var before := TrimStartSplits(send);
    var after := TrimEndSplits(TrimStart(send));
    assert send == before + Trim(send) + after;
    if Bare(send, raw) {
      var a, b :| Gap(a) && Gap(b) && send == a + raw + b;
      if raw == [] {
        GapIsTrimmed(a + raw + b);
      } else {
        TrimmedText(a, raw, b);
      }
    }
  }

  lemma {:induction false} LastPlainIsUser(words: seq<string>)
    ensures LastIsUser(words, LastPlain(words))
  {
    if words != [] {
      var n := |words| - 1;
      if IsFlag(words[n]) {
        LastPlainIsUser(words[..n]);
        assert words == words[..n] + [words[n]];
      } else {
        assert words[n] == LastPlain(words);
      }
    }
  }

  lemma {:induction false} UserIsLastPlain(words: seq<string>, user: string)
    requires LastIsUser(words, user)
    ensures user == LastPlain(words)
  {
    if words != [] {
      var n := |words| - 1;
      assert words[n] in words;
      if IsFlag(words[n]) {
        assert words == words[..n] + [words[n]];
        UserIsLastPlain(words[..n], user);
      }
    }
  }

  lemma SuIsMeant(args: string, user: string)
    ensures SuSays(args, user) <==> user == LastPlain(SpaceFields(args))
  {
    FieldsAreLaidOut(args);
    LastPlainIsUser(SpaceFields(args));
    if SuSays(args, user) {
      var words :| LaidOut(args, words) && LastIsUser(words, user);
      LaidOutOnce(args, words);
      UserIsLastPlain(words, user);
    }
  }

  lemma FlagStarts(args: string, gap: string, user: string, tail: string)
    requires UserFlag(args, [], gap, user, tail)
    ensures |args| >= 3 && args[0] == '-' && args[1] == 'u' && IsSpace(args[2])
    ensures TakeWord(TrimStart(args[2..])) == user
  {
    assert user[0] in user && gap[0] in gap;
    assert args == ['-', 'u'] + (gap + (user + tail));
    var rest := args[2..];
    assert rest == gap + (user + tail);
    TrimStartSkips(gap, user + tail);
    TakeWordTakes(user, tail);
  }

  lemma FlagHere(args: string, gap: string, user: string, tail: string)
    requires UserFlag(args, [], gap, user, tail)
    ensures SudoUser(args) == Some(user)
  {
    FlagStarts(args, gap, user, tail);
  }

  lemma FlagShifts(args: string, head: string, gap: string, user: string, tail: string)
    requires head != [] && UserFlag(args, head, gap, user, tail)
    ensures UserFlag(args[1..], head[1..], gap, user, tail)
  {
    assert args == [head[0]] + (head[1..] + "-u" + gap + user + tail);
  }

  lemma FlagGrows(args: string, head: string, gap: string, user: string, tail: string)
    requires args != [] && UserFlag(args[1..], head, gap, user, tail)
    ensures UserFlag(args, [args[0]] + head, gap, user, tail)
  {
    assert args == [args[0]] + args[1..];
    assert [args[0]] + (head + "-u" + gap + user + tail) == ([args[0]] + head) + "-u" + gap + user + tail;
  }

  predicate FlagAtHead(args: string) {
    |args| >= 3 && args[0] == '-' && args[1] == 'u' && IsSpace(args[2]) && TakeWord(TrimStart(args[2..])) != []
  }

  lemma HeadFlagIsFound(args: string) returns (gap: string, tail: string)
    requires FlagAtHead(args)
    ensures UserFlag(args, [], gap, TakeWord(TrimStart(args[2..])), tail)
  {
    gap := TrimStartSplits(args[2..]);
    var rest := TrimStart(args[2..]);
    TakeWordSplits(rest);
    tail := rest[|TakeWord(rest)|..];
    assert args == ['-', 'u'] + args[2..];
  }

  lemma LaterFlagShifts(args: string, h: string, g: string, u: string, t: string)
    requires UserFlag(args, h, g, u, t) && !FlagAtHead(args)
    ensures h != [] && UserFlag(args[1..], h[1..], g, u, t)
  {
    if h == [] {
      FlagStarts(args, g, u, t);
    } else {
      FlagShifts(args, h, g, u, t);
    }
  }

  /** What the search finds is the first flag there is. */
  lemma {:induction false} SudoUserIsFirst(args: string) returns (head: string, gap: string, tail: string)
    ensures SudoUser(args).Some? ==> UserFlag(args, head, gap, SudoUser(args).value, tail)
    ensures forall h, g, u, t :: UserFlag(args, h, g, u, t) ==> SudoUser(args).Some? && |head| <= |h|
  {
    head, gap, tail := [], [], [];
    if FlagAtHead(args) {
      gap, tail := HeadFlagIsFound(args);
    } else if |args| >= 3 {
      head, gap, tail := SudoUserIsFirst(args[1..]);
      forall h, g, u, t | UserFlag(args, h, g, u, t)
        ensures h != [] && UserFlag(args[1..], h[1..], g, u, t)
      {
        LaterFlagShifts(args, h, g, u, t);
      }
      if SudoUser(args).Some? {
        FlagGrows(args, head, gap, SudoUser(args).value, tail);
      }
      head := [args[0]] + head;
    }
  }

  lemma SameHeadSameUser(args: string, head: string, gap: string, user: string, tail: string, h: string, g: string,
                         u: string, t: string)
    requires UserFlag(args, head, gap, user, tail) && UserFlag(args, h, g, u, t) && |h| == |head|
    ensures u == user
  {
    var rest := args[|h|..];
    assert rest == [] + "-u" + gap + user + tail && rest == [] + "-u" + g + u + t;
    FlagHere(rest, gap, user, tail);
    FlagHere(rest, g, u, t);
  }

  lemma SudoIsMeant(args: string, user: Option<string>)
    ensures SudoSays(args, user) <==> user == SudoUser(args)
  {
    var head, gap, tail := SudoUserIsFirst(args);
    if SudoSays(args, user) && user.Some? {
      var h, g, t :| UserFlag(args, h, g, user.value, t)
                     && forall h', g', u', t' :: UserFlag(args, h', g', u', t') ==> |h| <= |h'|;
      SameHeadSameUser(args, head, gap, SudoUser(args).value, tail, h, g, user.value, t);
    }
  }

  lemma SshIsMeant(raw: string, target: string)
    ensures SshSays(raw, target) <==> SshTarget(raw) == Some(target)
  {
    if SshSays(raw, target) {
      var gap :| gap != [] && Gap(gap) && raw == "ssh" + gap + target;
      assert gap[0] in gap && raw[3..] == gap + target;
      TrimStartSkips(gap, target);
    }
    if SshTarget(raw) == Some(target) {
      var gap := TrimStartSplits(raw[3..]);
      assert raw == "ssh" + raw[3..];
      assert raw[3..] == gap + target;
    }
  }

  lemma SaysReads(send: string, password: Option<string>, action: Option<Action>)
    requires Says(Trim(send), password, action)
    ensures ActionOf(send, password) == action
  {
    var raw := Trim(send);
    match action
    case Some(Sudo(user, _)) =>
      var args :| Names(raw, "sudo", args) && SudoSays(args, user);
      CommandIsNamed(raw, "sudo", args);
      SudoIsMeant(args, user);
    case Some(Su(user, _)) =>
      var args :| Names(raw, "su", args) && SuSays(args, user);
      CommandIsNamed(raw, "su", args);
      SuIsMeant(args, user);
    case Some(Ssh(target, _)) => SshIsMeant(raw, target);
    case None =>
      forall args
        ensures CommandArgs(raw, "sudo") != Some(args) && CommandArgs(raw, "su") != Some(args)
                && SshTarget(raw) != Some(args)
      {
        CommandIsNamed(raw, "sudo", args);
        CommandIsNamed(raw, "su", args);
        SshIsMeant(raw, args);
      }
  }

  lemma ReadsSays(send: string, password: Option<string>)
    ensures Says(Trim(send), password, ActionOf(send, password))
  {
    var raw := Trim(send);
    forall args
      ensures (CommandArgs(raw, "sudo") == Some(args) <==> Names(raw, "sudo", args))
              && (CommandArgs(raw, "su") == Some(args) <==> Names(raw, "su", args))
              && (SshTarget(raw) == Some(args) <==> SshSays(raw, args))
    {
      CommandIsNamed(raw, "sudo", args);
      CommandIsNamed(raw, "su", args);
      SshIsMeant(raw, args);
    }
    match ActionOf(send, password)
    case Some(Sudo(user, _)) => SudoIsMeant(CommandArgs(raw, "sudo").value, user);
    case Some(Su(user, _)) => SuIsMeant(CommandArgs(raw, "su").value, user);
    case _ =>
  }

  /** A typed line is read as what its text says, and as nothing else: the user of `su`, the user of
      `sudo -u`, the target of `ssh`; any other line is no action. */
  lemma LineIsReadAsMeant(send: string, password: Option<string>, action: Option<Action>)
    ensures LineMeans(send, password, action) <==> ActionOf(send, password) == action
  {
    TrimIsBare(send, Trim(send));
    ReadsSays(send, password);
    if LineMeans(send, password, action) {
      var raw :| Bare(send, raw) && Says(raw, password, action);
      TrimIsBare(send, raw);
      SaysReads(send, password, action);
    }
  }

  // ---- Lines as users type them ----

  lemma WordIsOneLine(word: string)
    requires IsWord(word)
    ensures !IsSpace(word[0]) && !IsSpace(word[|word| - 1]) && forall c :: c in word ==> !IsLineBreak(c)
  {
    assert word[0] in word && word[|word| - 1] in word;
  }

  lemma BareItself(raw: string)
    requires Trimmed(raw)
    ensures Bare(raw, raw)
  {
    assert Gap([]) && raw == [] + raw + [];
  }

  lemma SuLineMeans(args: string, words: seq<string>, user: string, password: Option<string>)
    requires args == [] || (IsSpace(args[0]) && !IsSpace(args[|args| - 1]))
    requires forall c :: c in args ==> !IsLineBreak(c)
    requires LaidOut(args, words) && LastIsUser(words, user)
    ensures LineMeans("su" + args, password, Some(Su(user, password)))
  {
    var raw := "su" + args;
    BareItself(raw);
    assert Names(raw, "su", args);
    assert SuSays(args, user);
  }

  lemma SudoLineMeans(args: string, user: Option<string>, password: Option<string>)
    requires args == [] || (IsSpace(args[0]) && !IsSpace(args[|args| - 1]))
    requires (forall c :: c in args ==> !IsLineBreak(c)) && SudoSays(args, user)
    ensures LineMeans("sudo" + args, password, Some(Sudo(user, password)))
  {
    var raw := "sudo" + args;
    BareItself(raw);
    assert Names(raw, "sudo", args);
  }

  lemma SshLineMeans(target: string, password: Option<string>)
    requires target != [] && Trimmed(target) && forall c :: c in target ==> !IsLineBreak(c)
    ensures LineMeans("ssh " + target, password, Some(Ssh(target, password)))
  {
    var raw := "ssh " + target;
    BareItself(raw);
    assert Gap(" ") && raw == "ssh" + " " + target;
    assert SshSays(raw, target);
  }

  lemma OneWordLaidOut(word: string)
    requires IsWord(word)
    ensures LaidOut(" " + word, [word])
  {
    assert " " + word == " " + word + [] && LaidOut([], []);
    WordBeforeWords(" " + word, " ", word, [], []);
    assert [word] + [] == [word];
  }

  lemma TwoWordsLaidOut(first: string, second: string)
    requires IsWord(first) && IsWord(second)
    ensures LaidOut(" " + first + (" " + second), [first, second])
  {
    OneWordLaidOut(second);
    WordBeforeWords(" " + first + (" " + second), " ", first, " " + second, [second]);
    assert [first] + [second] == [first, second];
  }

  /** `su U` names U. */
  lemma SuNamesUser(user: string, password: Option<string>)
    requires IsWord(user) && user[0] != '-'
    ensures LineMeans("su " + user, password, Some(Su(user, password)))
  {
    WordIsOneLine(user);
    OneWordLaidOut(user);
    SuLineMeans(" " + user, [user], user, password);
    assert "su" + (" " + user) == "su " + user;
  }

  lemma DashAndUser(user: string)
    ensures "su" + (" " + "-" + (" " + user)) == "su - " + user
  {
  }

  /** `su - U` names U. */
  lemma SuLoginNamesUser(user: string, password: Option<string>)
    requires IsWord(user) && user[0] != '-'
    ensures LineMeans("su - " + user, password, Some(Su(user, password)))
  {
    WordIsOneLine(user);
    TwoWordsLaidOut("-", user);
    SuLineMeans(" " + "-" + (" " + user), ["-", user], user, password);
    DashAndUser(user);
  }

  /** `su` and `su -` name root. */
  lemma SuAloneNamesRoot(password: Option<string>)
    ensures LineMeans("su", password, Some(Su("root", password)))
    ensures LineMeans("su -", password, Some(Su("root", password)))
  {
    OneWordLaidOut("-");
    assert LaidOut([], []);
    SuLineMeans([], [], "root", password);
    SuLineMeans(" " + "-", ["-"], "root", password);
    assert "su" + [] == "su" && "su" + (" " + "-") == "su -";
  }

  lemma FlagBehindBlank(user: string)
    requires IsWord(user)
    ensures SudoSays(" -u " + user, Some(user))
  {
    var args := " -u " + user;
    assert args == " " + "-u" + " " + user + [];
    assert Gap(" ") && UserFlag(args, " ", " ", user, []);
    forall h, g, u, t | UserFlag(args, h, g, u, t)
      ensures 1 <= |h|
    {
      if h == [] {
        FlagStarts(args, g, u, t);
      }
    }
  }

  /** `sudo -u U` names U; `sudo` names nobody; `ssh T` names T. */
  lemma SudoAndSshName(user: string, password: Option<string>)
    requires IsWord(user)
    ensures LineMeans("sudo -u " + user, password, Some(Sudo(Some(user), password)))
    ensures LineMeans("sudo", password, Some(Sudo(None, password)))
    ensures LineMeans("ssh " + user, password, Some(Ssh(user, password)))
  {
    WordIsOneLine(user);
    FlagBehindBlank(user);
    SudoLineMeans(" -u " + user, Some(user), password);
    SudoLineMeans([], None, password);
    SshLineMeans(user, password);
    assert "sudo" + (" -u " + user) == "sudo -u " + user && "sudo" + [] == "sudo";
  }

  /** So every line that users type for another user or another host is read. */
  lemma TypedLinesAreRead(user: string, password: Option<string>)
    requires IsWord(user) && user[0] != '-'
    ensures ActionOf("su " + user, password) == ActionOf("su - " + user, password) == Some(Su(user, password))
    ensures ActionOf("su", password) == ActionOf("su -", password) == Some(Su("root", password))
    ensures ActionOf("sudo -u " + user, password) == Some(Sudo(Some(user), password))
    ensures ActionOf("sudo", password) == Some(Sudo(None, password))
    ensures ActionOf("ssh " + user, password) == Some(Ssh(user, password))
  {
    SuNamesUser(user, password);
    SuLoginNamesUser(user, password);
    SuAloneNamesRoot(password);
    SudoAndSshName(user, password);
    LineIsReadAsMeant("su " + user, password, Some(Su(user, password)));
    LineIsReadAsMeant("su - " + user, password, Some(Su(user, password)));
    LineIsReadAsMeant("su", password, Some(Su("root", password)));
    LineIsReadAsMeant("su -", password, Some(Su("root", password)));
    LineIsReadAsMeant("sudo -u " + user, password, Some(Sudo(Some(user), password)));
    LineIsReadAsMeant("sudo", password, Some(Sudo(None, password)));
    LineIsReadAsMeant("ssh " + user, password, Some(Ssh(user, password)));
  }

  predicate BeginsName(raw: string, name: string) {
    name <= raw && (|raw| == |name| || !IsWordChar(raw[|name|]))
  }

  lemma NamedBeginsName(raw: string, name: string, args: string)
    ensures Names(raw, name, args) ==> BeginsName(raw, name)
  {
  }

  lemma SshBeginsName(raw: string, target: string)
    ensures SshSays(raw, target) ==> "ssh" <= raw && |raw| > 3 && IsSpace(raw[3])
  {
    if SshSays(raw, target) {
      var gap :| gap != [] && Gap(gap) && raw == "ssh" + gap + target;
      assert raw[3] == gap[0] && gap[0] in gap;
    }
  }

  lemma OtherNameSaysNothing(raw: string, password: Option<string>)
    requires !BeginsName(raw, "sudo") && !BeginsName(raw, "su")
    requires !("ssh" <= raw && |raw| > 3 && IsSpace(raw[3]))
    ensures Says(raw, password, None)
  {
    forall args
      ensures !Names(raw, "sudo", args) && !Names(raw, "su", args) && !SshSays(raw, args)
    {
      NamedBeginsName(raw, "sudo", args);
      NamedBeginsName(raw, "su", args);
      SshBeginsName(raw, args);
    }
  }

  lemma {:induction false} TrimEndKeeps(s: string, k: nat)
    requires k < |s| && !IsSpace(s[k])
    ensures |TrimEnd(s)| > k
  {
    if IsSpace(s[|s| - 1]) {
      TrimEndKeeps(s[..|s| - 1], k);
    }
  }

  /** White space at the end leaves a line with its first characters. */
  lemma TrimKeepsHead(head: string, c: char, rest: string)
    requires head != [] && !IsSpace(head[0]) && !IsSpace(c)
    ensures head + [c] <= Trim(head + [c] + rest)
  {
    var line := head + [c] + rest;
    TrimEndKeeps(line, |head|);
    assert Trim(line) == line[..|TrimEnd(line)|];
    assert line[..|head| + 1] == head + [c];
  }

  lemma LongerName(name: string, c: char, rest: string, password: Option<string>)
    requires 'a' <= c <= 'z' || 'A' <= c <= 'Z' || '0' <= c <= '9' || c == '_'
    requires name == "sudo" || name == "ssh" || (name == "su" && c != 'd')
    ensures Says(Trim(name + [c] + rest), password, None)
  {
    var raw := Trim(name + [c] + rest);
    TrimKeepsHead(name, c, rest);
    assert raw[1] == name[1] && raw[|name|] == c;
    OtherNameSaysNothing(raw, password);
  }

  /** A longer name is another command. */
  lemma LongerNamesAreNoAction(c: char, rest: string, password: Option<string>)
    requires 'a' <= c <= 'z' || 'A' <= c <= 'Z' || '0' <= c <= '9' || c == '_'
    ensures ActionOf("sudo" + [c] + rest, password) == None
    ensures ActionOf("ssh" + [c] + rest, password) == None
    ensures c != 'd' ==> ActionOf("su" + [c] + rest, password) == None
  {
    LongerName("sudo", c, rest, password);
    SaysReads("sudo" + [c] + rest, password, None);
    LongerName("ssh", c, rest, password);
    SaysReads("ssh" + [c] + rest, password, None);
    if c != 'd' {
      LongerName("su", c, rest, password);
      SaysReads("su" + [c] + rest, password, None);
    }
  }

  lemma OtherCommandsAreNoAction(line: string, password: Option<string>)
    requires !("su" <= Trim(line)) && !("ssh" <= Trim(line))
    ensures ActionOf(line, password) == None
  {
    assert "sudo"[..2] == "su";
    OtherNameSaysNothing(Trim(line), password);
    SaysReads(line, password, None);
  }

  // ---- The actions of all steps ----

  /** What step i alone says: nothing when it is secret, else its action with the password that the
      step right after gives. */
  function StepAction(read: StepReader, steps: seq<LoginStep>, i: nat): Option<Action>
    requires i < |steps|
  {
    if steps[i].secret then None
    else
      read(steps[i].send,
           if i + 1 < |steps| && steps[i + 1].secret then Some(Trim(steps[i + 1].send)) else None)
  }

  function StepActions(read: StepReader, steps: seq<LoginStep>): seq<Option<Action>> {
    seq(|steps|, i requires 0 <= i < |steps| => StepAction(read, steps, i))
  }

  function CountSome(xs: seq<Option<Action>>, n: nat): nat
    requires n <= |xs|
  {
    if n == 0 then 0 else CountSome(xs, n - 1) + if xs[n - 1].Some? then 1 else 0
  }

  /** The values among the first n. */
  function Picked(xs: seq<Option<Action>>, n: nat): seq<Action>
    requires n <= |xs|
  {
    if n == 0 then [] else Picked(xs, n - 1) + OptionToSeq(xs[n - 1])
  }

  lemma {:induction false} PickedInPlace(xs: seq<Option<Action>>, n: nat)
    requires n <= |xs|
    ensures |Picked(xs, n)| == CountSome(xs, n)
    ensures forall i: nat :: i < n && xs[i].Some? ==>
              CountSome(xs, i) < |Picked(xs, n)| && Picked(xs, n)[CountSome(xs, i)] == xs[i].value
  {
    if n > 0 {
      PickedInPlace(xs, n - 1);
    }
  }

  /** How many steps the loop takes at step i: its password goes with it. */
  function Taken(steps: seq<LoginStep>, i: nat): nat
    requires i < |steps|
  {
    if !steps[i].secret && i + 1 < |steps| && steps[i + 1].secret then 2 else 1
  }

  lemma SecretIsNotPicked(read: StepReader, steps: seq<LoginStep>, i: nat)
    requires i < |steps| && steps[i].secret
    ensures Picked(StepActions(read, steps), i + 1) == Picked(StepActions(read, steps), i)
  {
    var xs := StepActions(read, steps);
    assert xs[i] == None && Picked(xs, i) + [] == Picked(xs, i);
  }

  lemma ParsesOneStep(read: StepReader, steps: seq<LoginStep>, i: nat)
    requires i < |steps|
    ensures var xs, next := StepActions(read, steps), i + Taken(steps, i);
            ParseFrom(read, steps, i, Picked(xs, i)) == ParseFrom(read, steps, next, Picked(xs, next))
  {
    if steps[i].secret {
      SecretIsNotPicked(read, steps, i);
    } else if Taken(steps, i) == 2 {
      SecretIsNotPicked(read, steps, i + 1);
    }
  }

  lemma {:induction false} ParseFromPicks(read: StepReader, steps: seq<LoginStep>, i: nat)
    requires i <= |steps|
    ensures var xs := StepActions(read, steps);
            ParseFrom(read, steps, i, Picked(xs, i)) == Picked(xs, |steps|)
    decreases |steps| - i
  {
    if i < |steps| {
      ParsesOneStep(read, steps, i);
      ParseFromPicks(read, steps, i + Taken(steps, i));
    }
  }

  /** The password that the step right after gives. */
  predicate GivesPassword(steps: seq<LoginStep>, i: nat, password: Option<string>)
    requires i < |steps|
  {
    if i + 1 < |steps| && steps[i + 1].secret then password == Some(Trim(steps[i + 1].send)) else password == None
  }

  /** What step i means: nothing when it is secret, else what its text says. */
  ghost predicate StepMeans(steps: seq<LoginStep>, i: nat, action: Option<Action>)
    requires i < |steps|
  {
    if steps[i].secret then action == None
    else exists password :: GivesPassword(steps, i, password) && LineMeans(steps[i].send, password, action)
  }

  lemma StepIsReadAsMeant(steps: seq<LoginStep>, i: nat)
    requires i < |steps|
    ensures StepMeans(steps, i, StepAction(ActionOf, steps, i))
  {
    if !steps[i].secret {
      var password := if i + 1 < |steps| && steps[i + 1].secret then Some(Trim(steps[i + 1].send)) else None;
      assert GivesPassword(steps, i, password);
      LineIsReadAsMeant(steps[i].send, password, ActionOf(steps[i].send, password));
    }
  }

  ghost predicate MeantInPlace(steps: seq<LoginStep>, meant: seq<Option<Action>>, actions: seq<Action>)
    requires |meant| == |steps|
  {
    && (forall i: nat :: i < |steps| ==> StepMeans(steps, i, meant[i]))
    && |actions| == CountSome(meant, |steps|)
    && forall i: nat :: i < |steps| && meant[i].Some? ==>
         CountSome(meant, i) < |actions| && actions[CountSome(meant, i)] == meant[i].value
  }

  /** The parsed actions are, in order and each in its place, exactly what the steps that are not secret
      mean, with the password of the step right after each. */
  lemma ParsedActionsExactly(steps: seq<LoginStep>)
    ensures exists meant: seq<Option<Action>> :: |meant| == |steps| && MeantInPlace(steps, meant, ParseActions(steps))
  {
    var meant := StepActions(ActionOf, steps);
    ParseFromPicks(ActionOf, steps, 0);
    PickedInPlace(meant, |steps|);
    forall i: nat | i < |steps|
      ensures StepMeans(steps, i, meant[i])
    {
      StepIsReadAsMeant(steps, i);
    }
    assert MeantInPlace(steps, meant, ParseActions(steps));
  }
}
