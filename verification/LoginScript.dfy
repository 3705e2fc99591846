/** The login-script compiler. */
module LoginScript {
  // Typed steps (ssh, su, sudo, each with an optional password step) become one non-interactive shell
  // command, one layer of quoting per hop.

  import opened Basics
  import opened Text
  import opened ShellReader

  datatype LoginStep = LoginStep(send: string, secret: bool)

  datatype Action =
    | Ssh(target: string, password: Option<string>)
    | Su(user: string, password: Option<string>)
    | Sudo(runAs: Option<string>, password: Option<string>)

  // ---- Reading the steps ----

  predicate IsWordChar(c: char) {
    'a' <= c <= 'z' || 'A' <= c <= 'Z' || IsDigit(c) || c == '_'
  }

  /** `^name\b(.*)$`: the rest of the line after a command name, if the step is that command. */
  function CommandArgs(raw: string, name: string): Option<string> {
    if name <= raw && (|raw| == |name| || !IsWordChar(raw[|name|]))
       && forall c :: c in raw[|name|..] ==> !IsLineBreak(c)
    then Some(raw[|name|..]) else None
  }

  /** `^ssh\s+(.+)$` on trimmed text. */
  function SshTarget(raw: string): Option<string> {
    if "ssh" <= raw && |raw| > 3 && IsSpace(raw[3]) then
      var target := TrimStart(raw[3..]);
      if target != [] && forall c :: c in target ==> !IsLineBreak(c) then Some(target) else None
    else None
  }

  /** The first match of `-u\s+(\S+)`. */
  function SudoUser(args: string): Option<string> {
    if |args| < 3 then None
    else
      var name := TakeWord(TrimStart(args[2..]));
      if args[0] == '-' && args[1] == 'u' && IsSpace(args[2]) && name != [] then Some(name)
      else SudoUser(args[1..])
  }

  /** The last word that is not a flag, or root. */
  function LastPlain(words: seq<string>): string {
    if words == [] then "root"
    else if "-" <= words[|words| - 1] then LastPlain(words[..|words| - 1])
    else words[|words| - 1]
  }

  function ActionOf(send: string, password: Option<string>): Option<Action> {
    var raw := Trim(send);
    var sudo := CommandArgs(raw, "sudo");
    var su := CommandArgs(raw, "su");
    var ssh := SshTarget(raw);
    if sudo.Some? then Some(Sudo(SudoUser(sudo.value), password))
    else if su.Some? then Some(Su(LastPlain(SpaceFields(su.value)), password))
    else if ssh.Some? then Some(Ssh(ssh.value, password))
    else None
  }

  function OptionToSeq<T>(x: Option<T>): seq<T> {
    if x.Some? then [x.value] else []
  }

  /** The action of a typed line and its password, if it is one. */
  type StepReader = (string, Option<string>) -> Option<Action>

  /** A secret step right after another step is its password, whatever that step is; any other
      secret step is skipped. */
  function ParseFrom(read: StepReader, steps: seq<LoginStep>, i: nat, parsed: seq<Action>): seq<Action>
    decreases |steps| - i
  {
    if i >= |steps| then parsed
    else if steps[i].secret then ParseFrom(read, steps, i + 1, parsed)
    else if i + 1 < |steps| && steps[i + 1].secret then
      var password := Some(Trim(steps[i + 1].send));
      ParseFrom(read, steps, i + 2, parsed + OptionToSeq(read(steps[i].send, password)))
    else ParseFrom(read, steps, i + 1, parsed + OptionToSeq(read(steps[i].send, None)))
  }

  function ParseActions(steps: seq<LoginStep>): seq<Action> {
    ParseFrom(ActionOf, steps, 0, [])
  }

  method ParseLoginActions(steps: seq<LoginStep>) returns (actions: seq<Action>)
    ensures actions == ParseActions(steps)
  {
    actions := [];
    var i := 0;
    while i < |steps|
      invariant ParseFrom(ActionOf, steps, i, actions) == ParseActions(steps)
    {
      var step := steps[i];
      i := i + 1;
      if step.secret {
        continue;
      }
      var password := None;
      if i < |steps| && steps[i].secret {
        password := Some(Trim(steps[i].send));
        i := i + 1;
      }
      var action := ActionOf(step.send, password);
      actions := actions + OptionToSeq(action);
    }
  }

  /** The number of actions up to and including the last ssh; 0 when there is none. */
  function ThroughLastSsh(actions: seq<Action>): (n: nat)
    ensures n <= |actions|
    ensures n > 0 ==> actions[n - 1].Ssh?
    ensures forall i :: n <= i < |actions| ==> !actions[i].Ssh?
  {
    if actions == [] then 0
    else if actions[|actions| - 1].Ssh? then |actions|
    else ThroughLastSsh(actions[..|actions| - 1])
  }

  predicate EntersAnotherHost(steps: seq<LoginStep>) {
    exists a :: a in ParseActions(steps) && a.Ssh?
  }

  // ---- Printing the command ----

  const HOST_KEYS := "StrictHostKeyChecking=no"
  const BATCH := "BatchMode=yes"
  const TIMEOUT := "ConnectTimeout=10"
  const PREFERRED := "PreferredAuthentications=password"
  const OR_KEYBOARD := ",keyboard-interactive"
  const ONE_PROMPT := "NumberOfPasswordPrompts=1"

  const EXEC_SSH_OPTS := "-o " + HOST_KEYS + " " + ("-o " + BATCH + " " + ("-o " + TIMEOUT))

  const EXEC_SSH_OPTS_PASSWORD :=
    "-o " + HOST_KEYS + " "
    + ("-o " + TIMEOUT + " " + ("-o " + (PREFERRED + OR_KEYBOARD) + " " + ("-o " + ONE_PROMPT)))

  /** How su and sudo get their password: with the rest of standard input behind it, or alone. */
  datatype Feed = OneShot | KeepStdin

  function FeedPassword(feed: Feed, password: string, cmd: string): string {
    match feed
    case KeepStdin => "{ echo " + Quote(password) + "; cat; } | " + cmd
    case OneShot => "echo " + Quote(password) + " | " + cmd
  }

  /** An empty password counts as none. */
  function Effective(text: Option<string>): Option<string> {
    if text.Some? && text.value == [] then None else text
  }

  function WrapSu(user: string, password: Option<string>, inner: string, feed: Feed): string {
    var cmd := "su " + user + " -c " + Quote(inner);
    if Effective(password).Some? then FeedPassword(feed, password.value, cmd) else cmd
  }

  function WrapSudo(user: Option<string>, password: Option<string>, inner: string, feed: Feed): string {
    var userFlag := if Effective(user).Some? then "-u " + user.value + " " else "";
    if Effective(password).Some?
    then FeedPassword(feed, password.value, "sudo -S " + userFlag + "bash -c " + Quote(inner))
    else "sudo " + userFlag + "bash -c " + Quote(inner)
  }

  function SshpassPrefix(password: string): string {
    "env LC_ALL=C sshpass -p " + Quote(password) + " "
  }

  /** `ssh OPTIONS TARGET` in front of the rest of a line. */
  function SshLine(target: string, password: Option<string>, rest: string): string {
    if Effective(password).Some?
    then SshpassPrefix(password.value) + ("ssh " + EXEC_SSH_OPTS_PASSWORD + " " + (target + " " + rest))
    else "ssh " + EXEC_SSH_OPTS + " " + (target + " " + rest)
  }

  function BuildSshHop(target: string, password: Option<string>, inner: string): string {
    SshLine(target, password, Quote(inner))
  }

  function Wrap(a: Action, inner: string, feed: Feed): string {
    match a
    case Ssh(target, password) => BuildSshHop(target, password, inner)
    case Su(user, password) => WrapSu(user, password, inner, feed)
    case Sudo(runAs, password) => WrapSudo(runAs, password, inner, feed)
  }

  /** The first action is the outermost layer. */
  function Compile(actions: seq<Action>, base: string, feed: Feed): string {
    if actions == [] then base else Wrap(actions[0], Compile(actions[1..], base, feed), feed)
  }

  // ---- Reading the command back ----

  datatype Fed = NotFed | Fed(password: string, feed: Feed)

  /** One layer as a shell sees it; `args` are the words that ssh keeps for itself. */
  datatype Hop =
    | SshHop(args: seq<string>, password: Option<string>)
    | SubsystemHop(args: seq<string>, password: Option<string>)
    | SuHop(user: string, fed: Fed)
    | SudoHop(runAs: Option<string>, fed: Fed)

  function Texts(ts: seq<Token>): Option<seq<string>> {
    if ts == [] then Some([])
    else
      var rest := Texts(ts[1..]);
      if ts[0].Word? && rest.Some? then Some([ts[0].text] + rest.value) else None
  }

  /** The next shell takes such a line for an option of its own, not for a command. */
  predicate ShellOption(line: string) {
    line != [] && (line[0] == '-' || line[0] == '+')
  }

  function HandOn(hop: Hop, line: string): Option<(Hop, string)> {
    if ShellOption(line) then None else Some((hop, line))
  }

  // `ssh [options] destination [options] [command [argument ...]]`, as OpenSSH reads its words.

  const SSH_FLAGS := "46AaCfGgKkMNnqsTtVvXxYy"
  const SSH_SETTINGS := "BbcDEeFIiJLlmOoPpQRSWw"

  /** With one of these letters ssh runs no command. */
  const NO_COMMAND := {'G', 'N', 'O', 'Q', 'V', 'W'}

  /** What the words so far amount to: the host if it was named, whether `--` has closed the options,
      whether an option still waits for its argument, and the letters of the options. */
  datatype SshArgs = SshArgs(host: Option<string>, closed: bool, pending: bool, letters: set<char>)

  const NO_ARGS := SshArgs(None, false, false, {})

  predicate IsOption(w: string) {
    |w| > 1 && w[0] == '-'
  }

  /** The letters behind one dash: flags, then at most one option with its argument attached or to
      come. None for a letter that ssh refuses. */
  function OptionLetters(w: string, at: SshArgs): Option<SshArgs> {
    if w == [] then Some(at)
    else
      var seen := at.(letters := at.letters + {w[0]});
      if w[0] in SSH_FLAGS then OptionLetters(w[1..], seen)
      else if w[0] in SSH_SETTINGS then Some(seen.(pending := |w| == 1))
      else None
  }

  function NextArg(w: string, at: SshArgs): Option<SshArgs> {
    if at.pending then Some(at.(pending := false))
    else if !at.closed && IsOption(w) then
      if w == "--" then Some(at.(closed := true)) else OptionLetters(w[1..], at)
    else if w == [] || w[0] == '-' then None
    else Some(at.(host := Some(w)))
  }

  predicate StartsCommand(w: string, at: SshArgs) {
    at.host.Some? && !at.pending && (at.closed || !IsOption(w))
  }

  datatype SshCall = SshCall(own: seq<string>, at: SshArgs, command: seq<string>)

  /** A call with one more word that ssh keeps for itself in front. */
  function Kept(w: string, call: Option<SshCall>): Option<SshCall> {
    if call.None? then None else Some(call.value.(own := [w] + call.value.own))
  }

  /** The words ssh keeps for itself, and from the first one that is neither host nor option on the
      words of the remote command. */
  function SplitCall(ws: seq<string>, at: SshArgs): Option<SshCall> {
    if ws == [] || StartsCommand(ws[0], at) then Some(SshCall([], at, ws))
    else
      var next := NextArg(ws[0], at);
      if next.None? then None else Kept(ws[0], SplitCall(ws[1..], next.value))
  }

  predicate ReachesHost(at: SshArgs) {
    at.host.Some? && !at.pending && at.letters !! NO_COMMAND
  }

  /** The words of a remote command reach the next shell as one line, joined by spaces; without any,
      ssh opens an interactive shell, which is not a hop. */
  function ReadCall(ws: seq<string>, password: Option<string>): Option<(Hop, string)> {
    var call := SplitCall(ws, NO_ARGS);
    if call.None? || !ReachesHost(call.value.at) then None
    else
      var SshCall(own, at, command) := call.value;
      var line := Join(command, ' ');
      if line == [] then None
      else if 's' in at.letters then Some((SubsystemHop(own, password), line))
      else HandOn(SshHop(own, password), line)
  }

  /** Host keys are not asked about, nothing is prompted for, and connecting takes at most 10 seconds. */
  const PLAIN_OPTIONS := ["-o", "StrictHostKeyChecking=no", "-o", "BatchMode=yes", "-o", "ConnectTimeout=10"]

  /** The same, but the password is prompted for, once. */
  const PASSWORD_OPTIONS :=
    ["-o", "StrictHostKeyChecking=no", "-o", "ConnectTimeout=10", "-o",
     "PreferredAuthentications=password,keyboard-interactive", "-o", "NumberOfPasswordPrompts=1"]

  /** An ssh whose first words are one of the two known lists of options. */
  function ReadSsh(ws: seq<string>, options: seq<string>, password: Option<string>): Option<(Hop, string)> {
    var n := 1 + |options|;
    if |ws| >= n && ws[..n] == ["ssh"] + options then ReadCall(ws[n..], password) else None
  }

  function ReadSudo(ws: seq<string>, fed: Fed): Option<(Hop, string)> {
    if |ws| == 5 && ws[0] == "-u" && ws[2] == "bash" && ws[3] == "-c"
    then HandOn(SudoHop(Some(ws[1]), fed), ws[4])
    else if |ws| == 3 && ws[0] == "bash" && ws[1] == "-c" then HandOn(SudoHop(None, fed), ws[2])
    else None
  }

  predicate NoFlag(user: string) {
    user != [] && user[0] != '-'
  }

  function ReadSu(ws: seq<string>, fed: Fed): Option<(Hop, string)> {
    if |ws| == 4 && NoFlag(ws[1]) && ws[2] == "-c" then HandOn(SuHop(ws[1], fed), ws[3]) else None
  }

  /** A command whose standard input starts with a password. */
  function ReadFed(ts: seq<Token>, fed: Fed): Option<(Hop, string)> {
    var texts := Texts(ts);
    if texts.None? || |texts.value| < 2 then None
    else
      var ws := texts.value;
      if ws[0] == "su" then ReadSu(ws, fed)
      else if ws[0] == "sudo" && ws[1] == "-S" then ReadSudo(ws[2..], fed)
      else None
  }

  function ReadBare(ts: seq<Token>): Option<(Hop, string)> {
    var texts := Texts(ts);
    if texts.None? || texts.value == [] then None
    else
      var ws := texts.value;
      if ws[0] == "ssh" then ReadSsh(ws, PLAIN_OPTIONS, None)
      else if |ws| >= 5 && ws[..4] == ["env", "LC_ALL=C", "sshpass", "-p"]
      then ReadSsh(ws[5..], PASSWORD_OPTIONS, Some(ws[4]))
      else if ws[0] == "su" then ReadSu(ws, NotFed)
      else if ws[0] == "sudo" then ReadSudo(ws[1..], NotFed)
      else None
  }

  function ReadTokens(ts: seq<Token>): Option<(Hop, string)> {
    if |ts| >= 3 && ts[0] == Word("echo") && ts[1].Word? && ts[2] == Pipe
    then ReadFed(ts[3..], Fed(ts[1].text, OneShot))
    else if |ts| >= 8 && ts[0] == Open && ts[1] == Word("echo") && ts[2].Word?
            && ts[3..8] == [Semi, Word("cat"), Semi, Close, Pipe]
    then ReadFed(ts[8..], Fed(ts[2].text, KeepStdin))
    else ReadBare(ts)
  }

  /** The hop a command line makes, and the command line it hands to the next shell. */
  function ReadHop(line: string): Option<(Hop, string)> {
    var tokens := Tokens(line);
    if tokens.None? then None else ReadTokens(tokens.value)
  }

  /** Peels n layers. */
  function ReadLayers(line: string, n: nat): Option<(seq<Hop>, string)>
    decreases n
  {
    if n == 0 then Some(([], line))
    else
      var hop := ReadHop(line);
      if hop.None? then None
      else
        var rest := ReadLayers(hop.value.1, n - 1);
        if rest.None? then None else Some(([hop.value.0] + rest.value.0, rest.value.1))
  }

  // ---- What the layers should be ----

  /** A text that is there and not empty. */
  function Present(text: Option<string>): Option<string> {
    if text == Some("") then None else text
  }

  function FedBy(password: Option<string>, feed: Feed): Fed {
    if Present(password).Some? then Fed(password.value, feed) else NotFed
  }

  function HopOf(a: Action, feed: Feed): Hop {
    match a
    case Ssh(target, password) => SshHop(Fields(target), Present(password))
    case Su(user, password) => SuHop(user, FedBy(password, feed))
    case Sudo(runAs, password) => SudoHop(Present(runAs), FedBy(password, feed))
  }

  function HopsOf(actions: seq<Action>, feed: Feed): seq<Hop> {
    if actions == [] then [] else [HopOf(actions[0], feed)] + HopsOf(actions[1..], feed)
  }

  /** The words of a target are options, host and options, and leave the command to whoever adds it. */
  predicate NamesOneHost(words: seq<string>) {
    var call := SplitCall(words, NO_ARGS);
    && call.Some? && call.value.command == []
    && ReachesHost(call.value.at) && 's' !in call.value.at.letters
  }

  /** The part of an action that is printed without quotes stands for itself in the conservative shell
      reader, and an ssh target names a host and no remote command of its own. */
  predicate NamesReadLiterally(a: Action) {
    match a
    case Ssh(target, _) => Clean(target) && NamesOneHost(Fields(target))
    case Su(user, _) => PlainWord(user) && NoFlag(user)
    case Sudo(runAs, _) => Present(runAs).Some? ==> PlainWord(runAs.value)
  }

  /** A command line that a layer can hand on. */
  predicate PassesOn(a: Action, line: string) {
    !ShellOption(line) && (a.Ssh? ==> line != [])
  }

  // ---- The entry points ----

  /** The command that runs `command` behind the last ssh hop; None when there is no such hop. */
  function DeriveNested(steps: seq<LoginStep>, command: string, feed: Feed): Option<string> {
    var actions := ParseActions(steps);
    var n := ThroughLastSsh(actions);
    if n == 0 then None else Some(Compile(actions[..n], command, feed))
  }

  method LastSshIndex(actions: seq<Action>) returns (n: nat)
    ensures n == ThroughLastSsh(actions)
  {
    n := |actions|;
    while n > 0 && !actions[n - 1].Ssh?
      invariant n <= |actions| && ThroughLastSsh(actions[..n]) == ThroughLastSsh(actions)
    {
      assert actions[..n][..n - 1] == actions[..n - 1];
      n := n - 1;
    }
  }

  /** Wraps the layers from the innermost outwards. */
  method WrapOutwards(actions: seq<Action>, innermost: string, feed: Feed) returns (cmd: string)
    ensures cmd == Compile(actions, innermost, feed)
  {
    cmd := innermost;
    for i := |actions| downto 0
      invariant cmd == Compile(actions[i..], innermost, feed)
    {
      assert actions[i..][1..] == actions[i + 1..];
      cmd := Wrap(actions[i], cmd, feed);
    }
  }

  method DeriveNestedCommand(steps: seq<LoginStep>, command: string, feed: Feed)
    returns (r: Option<string>)
    ensures r == DeriveNested(steps, command, feed)
  {
    var actions := ParseLoginActions(steps);
    var n := LastSshIndex(actions);
    if n == 0 {
      return None;
    }
    var cmd := WrapOutwards(actions[..n], command, feed);
    r := Some(cmd);
  }

  const SFTP_SERVER_PROBE :=
    "if " + "[ -x /usr/libexec/openssh/sftp-server ]; then exec /usr/libexec/openssh/sftp-server; "
    + ("elif [ -x /usr/lib/openssh/sftp-server ]; then exec /usr/lib/openssh/sftp-server; "
       + ("elif [ -x /usr/lib/ssh/sftp-server ]; then exec /usr/lib/ssh/sftp-server; "
          + ("elif [ -x /usr/libexec/sftp-server ]; then exec /usr/libexec/sftp-server; "
             + "else echo sftp-server-not-found 1>&2; exit 127; fi")))

  function SftpSubsystem(target: string, password: Option<string>): string {
    SshLine(target, password, "-s sftp")
  }

  /** What su/sudo after the last ssh (or without any) changes: the server binary is run directly. */
  function DeriveSftp(steps: seq<LoginStep>): Option<string> {
    var actions := ParseActions(steps);
    var n := ThroughLastSsh(actions);
    if actions == [] then None
    else if n == |actions| then
      var last := actions[n - 1];
      Some(Compile(actions[..n - 1], SftpSubsystem(last.target, last.password), KeepStdin))
    else Some(Compile(actions, SFTP_SERVER_PROBE, KeepStdin))
  }

  lemma {:induction false} CompileSplit(actions: seq<Action>, n: nat, base: string, feed: Feed)
    requires n <= |actions|
    ensures Compile(actions, base, feed) == Compile(actions[..n], Compile(actions[n..], base, feed), feed)
  {
    if n == 0 {
      assert actions[0..] == actions;
    } else {
      assert actions[..n][1..] == actions[1..][..n - 1] && actions[1..][n - 1..] == actions[n..];
      CompileSplit(actions[1..], n - 1, base, feed);
    }
  }

  method DeriveSftpExec(steps: seq<LoginStep>) returns (r: Option<string>)
    ensures r == DeriveSftp(steps)
  {
    var actions := ParseLoginActions(steps);
    if actions == [] {
      return None;
    }
    var n := LastSshIndex(actions);
    var trailing := actions[n..];
    var cmd;
    if |trailing| == 0 {
      var last := actions[n - 1];
      cmd := WrapOutwards(actions[..n - 1], SftpSubsystem(last.target, last.password), KeepStdin);
    } else {
      cmd := WrapOutwards(trailing, SFTP_SERVER_PROBE, KeepStdin);
      cmd := WrapOutwards(actions[..n], cmd, KeepStdin);
      CompileSplit(actions, n, SFTP_SERVER_PROBE, KeepStdin);
    }
    r := Some(cmd);
  }

  // ---- Which way a tunnel goes ----

  datatype TunnelRoute = NativeRoute | ScriptRoute | ScriptThenNativeRoute

  predicate ShellSafeHost(host: string) {
    host != [] && forall c :: c in host ==>
      IsDigit(c) || 'a' <= c <= 'z' || 'A' <= c <= 'Z' || c == '.' || c == ':' || c == '-'
  }

  predicate Loopback(host: string) {
    LowerAscii(host) == "localhost" || host == "127.0.0.1" || host == "::1"
  }

  function ChooseRoute(destHost: string, steps: seq<LoginStep>): TunnelRoute {
    if !EntersAnotherHost(steps) then NativeRoute
    else if !ShellSafeHost(destHost) then NativeRoute
    else if Loopback(destHost) then ScriptRoute
    else ScriptThenNativeRoute
  }

  /** The marker of a connection: a fixed prefix and random bytes in hexadecimal. */
  function Marker(hex: string): string {
    "ICTUN" + hex
  }

  /** The command that the deepest host runs for a tunnel. */
  function NcCommand(marker: string, host: string, port: nat): string {
    "printf %s " + marker + "; exec nc " + host + " " + Decimal(port)
  }
}
