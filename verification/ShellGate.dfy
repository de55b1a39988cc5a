/** The command gate: which rule a command line selects, and the forced command that names the gate. */
module ShellGate {
  import opened Bytes
  import opened Text
  import opened ShellWords

  datatype Rule = Rule(command: seq<string>, exec: seq<string>)

  const MAX_RULES: nat := 32
  const MAX_EXEC: nat := 16

  predicate Alphanumeric(c: char) {
    'a' <= c <= 'z' || 'A' <= c <= 'Z' || '0' <= c <= '9'
  }

  predicate PathChar(c: char) {
    Alphanumeric(c) || c == '_' || c == '.' || c == '/' || c == '-'
  }

  /** An absolute path that cleaning leaves alone: no empty, dot or dot-dot component and no trailing slash. */
  predicate CleanPath(s: string) {
    && |s| >= 2 && s[0] == '/' && (forall i :: 0 <= i < |s| ==> PathChar(s[i]))
    && var parts := Split(s[1..], '/');
       forall i :: 0 <= i < |parts| ==> parts[i] != "" && parts[i] != "." && parts[i] != ".."
  }

  function Base(path: string): string
    requires path != ""
  {
    var parts := Split(path[1..], '/');
    parts[|parts| - 1]
  }

  const INTERPRETERS: set<string> :=
    {"sh", "bash", "dash", "zsh", "ksh", "csh", "fish", "env", "python", "python3", "node", "perl", "ruby"}

  predicate RuleWord(v: string) {
    v != "" && Utf8(v) <= MAX_WORD && SafeText(v)
  }

  /** No character that shells treat as an operator, an expansion or an escape. */
  predicate Literal(v: string) {
    forall i :: 0 <= i < |v| ==> v[i] !in ";$`|&<>\\(){}"
  }

  predicate RuleValid(r: Rule) {
    && 1 <= |r.command| <= MAX_WORDS && 1 <= |r.exec| <= MAX_EXEC && CleanPath(r.exec[0])
    && Base(r.exec[0]) !in INTERPRETERS
    && (forall i :: 0 <= i < |r.command| ==> RuleWord(r.command[i]))
    && (forall i :: 0 <= i < |r.exec| ==> RuleWord(r.exec[i]))
    && (forall i :: 0 <= i < |r.command| ==> Literal(r.command[i]))
  }

  /** One to thirty-two valid rules, no two for the same command. */
  predicate RulesValid(rules: seq<Rule>) {
    && 1 <= |rules| <= MAX_RULES
    && (forall i :: 0 <= i < |rules| ==> RuleValid(rules[i]))
    && (forall i, j :: 0 <= i < j < |rules| ==> rules[i].command != rules[j].command)
  }

  /** The text under which a command is remembered. */
  function Key(command: seq<string>): string {
    Join(command, ['\0'])
  }

  lemma KeysDiffer(a: Rule, b: Rule)
    requires RuleValid(a) && RuleValid(b)
    ensures Key(a.command) == Key(b.command) <==> a.command == b.command
  {
    NoNul(a);
    NoNul(b);
    SplitJoin(a.command, '\0');
    SplitJoin(b.command, '\0');
  }

  lemma NoNul(a: Rule)
    requires RuleValid(a)
    ensures forall i :: 0 <= i < |a.command| ==> '\0' !in a.command[i]
  {
    forall i | 0 <= i < |a.command|
      ensures '\0' !in a.command[i]
    {
      assert RuleWord(a.command[i]) && Control('\0');
    }
  }

  /** The first i rules are valid and distinct, and their keys are what was seen. */
  ghost predicate Checked(rules: seq<Rule>, i: nat, seen: set<string>)
    requires i <= |rules|
  {
    && (forall j :: 0 <= j < i ==> RuleValid(rules[j]))
    && (forall j, k :: 0 <= j < k < i ==> rules[j].command != rules[k].command)
    && seen == set j | 0 <= j < i :: Key(rules[j].command)
  }

  lemma CheckedStep(rules: seq<Rule>, i: nat, seen: set<string>)
    requires i < |rules| && Checked(rules, i, seen) && RuleValid(rules[i])
    ensures Key(rules[i].command) in seen ==> !RulesValid(rules)
    ensures Key(rules[i].command) !in seen ==> Checked(rules, i + 1, seen + {Key(rules[i].command)})
  {
    forall j | 0 <= j < i
      ensures Key(rules[j].command) == Key(rules[i].command) <==> rules[j].command == rules[i].command
    {
      KeysDiffer(rules[j], rules[i]);
    }
  }

  method ValidateRules(rules: seq<Rule>) returns (ok: bool)
    ensures ok <==> RulesValid(rules)
  {
    if |rules| == 0 || |rules| > 32 {
      return false;
    }
    var seen: set<string> := {};
    var i := 0;
    while i < |rules|
      invariant 0 <= i <= |rules| && Checked(rules, i, seen)
    {
      var valid := RuleValid(rules[i]);
      if !valid {
        return false;
      }
      var key := Key(rules[i].command);
      CheckedStep(rules, i, seen);
      if key in seen {
        return false;
      }
      seen := seen + {key};
      i := i + 1;
    }
    return true;
  }

  /** What a rule list runs for a word list: the program of the rule with exactly that command. */
  ghost predicate Runs(rules: seq<Rule>, argv: seq<string>, exec: seq<string>) {
    exists i :: 0 <= i < |rules| && rules[i].command == argv && rules[i].exec == exec
  }

  method Authorize(rules: seq<Rule>, argv: seq<string>) returns (r: Option<seq<string>>)
    ensures r.Some? ==> RulesValid(rules) && Runs(rules, argv, r.value)
    ensures r.None? ==> !RulesValid(rules) || forall exec :: !Runs(rules, argv, exec)
  {
    var ok := ValidateRules(rules);
    if !ok {
      return None;
    }
    var i := 0;
    while i < |rules|
      invariant 0 <= i <= |rules|
      invariant forall j :: 0 <= j < i ==> rules[j].command != argv
    {
      if rules[i].command == argv {
        return Some(rules[i].exec);
      }
      i := i + 1;
    }
    return None;
  }

  /** At most one program runs for a word list. */
  lemma RunsOnce(rules: seq<Rule>, argv: seq<string>, a: seq<string>, b: seq<string>)
    requires RulesValid(rules) && Runs(rules, argv, a) && Runs(rules, argv, b)
    ensures a == b
  {
    var i :| 0 <= i < |rules| && rules[i].command == argv && rules[i].exec == a;
    var j :| 0 <= j < |rules| && rules[j].command == argv && rules[j].exec == b;
    assert i <= j && j <= i;
  }

  /** The gate's decision on a command line. */
  method Gate(rules: seq<Rule>, original: string) returns (r: Option<seq<string>>)
    ensures r.Some? ==> Admits(rules, original, r.value)
    ensures r.None? ==> forall exec :: !Admits(rules, original, exec)
  {
    var argv := Parse(original);
    if argv.None? {
      return None;
    }
    r := Authorize(rules, argv.value);
  }

  ghost predicate Admits(rules: seq<Rule>, original: string, exec: seq<string>) {
    RulesValid(rules) && Parsed(original).Some? && Runs(rules, Parsed(original).value, exec)
  }

  /** The shell reads any quoted argument list back, whatever its length. */
  lemma {:induction false} RemoteIsPosix(words: seq<string>)
    ensures PosixWords(Remote(words)) == Some(words)
    decreases |words|
  {
    if words != [] {
      RemoteSplits(words);
      var tail := words[1..];
      RemoteIsPosix(tail);
      RestIsPosix(tail);
      FirstIsPosix(words[0], RemoteRest(tail), tail);
      assert [words[0]] + tail == words;
    }
  }

  lemma RestIsPosix(tail: seq<string>)
    requires PosixWords(Remote(tail)) == Some(tail)
    ensures PosixWords(RemoteRest(tail)) == Some(tail)
  {
    if tail != [] {
      assert RemoteRest(tail)[1..] == Remote(tail);
    }
  }

  lemma FirstIsPosix(w: string, rest: string, words: seq<string>)
    requires (rest == "" || rest[0] == ' ') && PosixWords(rest) == Some(words)
    ensures PosixWords(Quote(w) + rest) == Some([w] + words)
  {
    QuoteReadsBack(w, rest);
    WordIsPosix(Quote(w) + rest);
    assert (Quote(w) + rest)[0] == '\'';
  }

  /**
   The client's quoting and the gate agree: a rule runs for a list of arguments exactly when it is the rule's command
   and its quoted form fits.
   */
  lemma GateUndoesQuoting(rules: seq<Rule>, words: seq<string>, exec: seq<string>)
    requires RulesValid(rules)
    ensures Admits(rules, Remote(words), exec) <==> Runs(rules, words, exec) && Utf8(Remote(words)) <= MAX_TEXT
  {
    var s := Remote(words);
    RemoteIsPosix(words);
    if Parsed(s).Some? {
      AcceptedAsInShell(s);
    }
    if Runs(rules, words, exec) {
      var i :| 0 <= i < |rules| && rules[i].command == words && rules[i].exec == exec;
      assert forall j :: 0 <= j < |words| ==> RuleWord(words[j]);
      QuotingRoundTrip(words);
    }
  }

  /** Whatever is admitted, a shell would have read the same words, and they are a rule's command. */
  lemma AdmittedIsARule(rules: seq<Rule>, original: string, exec: seq<string>)
    requires Admits(rules, original, exec)
    ensures exists i :: && 0 <= i < |rules| && PosixWords(original) == Some(rules[i].command) && rules[i].exec == exec
                        && CleanPath(exec[0]) && Base(exec[0]) !in INTERPRETERS
  {
    AcceptedAsInShell(original);
    var i :| 0 <= i < |rules| && rules[i].command == Parsed(original).value && rules[i].exec == exec;
    assert RuleValid(rules[i]);
  }

  /** Rules cannot name an interpreter, in whatever directory it lies. */
  lemma InterpretersRefused(r: Rule, dir: string, name: string)
    requires |r.exec| > 0 && r.exec[0] == dir + "/" + name && '/' !in name
    requires name in ["sh", "bash", "dash", "zsh", "ksh", "csh", "fish", "env", "python", "python3", "node", "perl",
                      "ruby"]
    ensures !RuleValid(r)
  {
    if CleanPath(r.exec[0]) {
      BaseIsLast(dir, name);
    }
  }

  lemma BaseIsLast(dir: string, name: string)
    requires '/' !in name && |dir + "/" + name| >= 1
    ensures Base(dir + "/" + name) == name
  {
    var path := dir + "/" + name;
    IndexOfPrefix(name, '/', "");
    if dir == "" {
      assert path[1..] == name;
    } else {
      assert path[1..] == dir[1..] + ['/'] + name;
      SplitAround(dir[1..], '/', name);
    }
  }

  /** A rule for a safe command and a program that is no interpreter runs that program, with the rule's arguments. */
  lemma SafeRuleRuns(command: seq<string>, program: string, arguments: seq<string>)
    requires 1 <= |command| <= MAX_WORDS && Utf8(Remote(command)) <= MAX_TEXT
    requires forall i :: 0 <= i < |command| ==> RuleWord(command[i]) && Literal(command[i])
    requires CleanPath(program) && RuleWord(program) && Base(program) !in INTERPRETERS
    requires |arguments| < MAX_EXEC && forall i :: 0 <= i < |arguments| ==> RuleWord(arguments[i])
    ensures var rules := [Rule(command, [program] + arguments)];
            RulesValid(rules) && Admits(rules, Remote(command), [program] + arguments)
  {
    var rule := Rule(command, [program] + arguments);
    assert RuleValid(rule);
    assert [rule][0].command == command && Runs([rule], command, rule.exec);
    GateUndoesQuoting([rule], command, rule.exec);
  }

  // ----- the forced command

  datatype Authority = Authority(binary: string, policyFile: string, rules: seq<Rule>, fixture: bool)
  datatype Scope = Scope(workspace: string, host: string, role: string, user: string)

  predicate Identifier(s: string) {
    && 1 <= |s| <= 64 && Alphanumeric(s[0])
    && forall i :: 0 <= i < |s| ==> Alphanumeric(s[i]) || s[i] == '_' || s[i] == '-'
  }

  predicate Usable(a: Authority, s: Scope) {
    && CleanPath(a.binary) && CleanPath(a.policyFile) && RulesValid(a.rules)
    && Identifier(s.workspace) && Identifier(s.host) && Identifier(s.role) && Identifier(s.user) && s.user != "root"
  }

  /** A collision-free digest written in hexadecimal. */
  ghost predicate Fingerprint(digest: seq<Rule> -> string) {
    && (forall rules: seq<Rule> :: digest(rules) != "" && forall i :: 0 <= i < |digest(rules)| ==>
        Alphanumeric(digest(rules)[i]))
    && (forall x: seq<Rule>, y: seq<Rule> :: digest(x) == digest(y) ==> x == y)
  }

  function Argument(flag: string, value: string): string {
    " " + flag + " " + value
  }

  function Options(binary: string, policy: string, s: Scope, digest: string): string {
    binary + Argument("ssh", "gate") + Argument("--policy", policy) + Argument("--workspace", s.workspace)
    + Argument("--host", s.host) + Argument("--role", s.role) + Argument("--user", s.user)
    + Argument("--rules-digest", digest)
  }

  /** The words the login shell is to pass to the gate binary. */
  function OptionWords(binary: string, policy: string, s: Scope, digest: string): seq<string> {
    [binary, "ssh", "gate", "--policy", policy, "--workspace", s.workspace, "--host", s.host, "--role", s.role,
     "--user", s.user, "--rules-digest", digest]
  }

  function ForcedCommand(a: Authority, s: Scope, digest: seq<Rule> -> string): Option<string> {
    if !Usable(a, s) then None
    else Some(Options(a.binary, a.policyFile, s, digest(a.rules)) + if a.fixture then " --dev-fixture" else "")
  }

  function ForcedWords(a: Authority, s: Scope, digest: seq<Rule> -> string): seq<string> {
    OptionWords(a.binary, a.policyFile, s, digest(a.rules)) + if a.fixture then ["--dev-fixture"] else []
  }

  predicate PlainWord(w: string) {
    w != "" && forall i :: 0 <= i < |w| ==> PlainChar(w[i])
  }

  lemma {:induction false} PlainWordIsPosix(w: string, rest: string)
    requires forall i :: 0 <= i < |w| ==> PlainChar(w[i])
    requires rest == "" || rest[0] == ' '
    ensures PosixWord(w + rest) == Some((w, rest))
    decreases |w|
  {
    if w == "" {
      assert w + rest == rest;
      PosixWordEnds(rest);
    } else {
      PlainWordIsPosix(w[1..], rest);
      assert w + rest == [w[0]] + (w[1..] + rest);
      PlainStepIsPosix(w[0], w[1..] + rest);
      GluedBack(w, rest);
    }
  }

  lemma PosixWordEnds(rest: string)
    requires rest == "" || rest[0] == ' '
    ensures PosixWord(rest) == Some(("", rest))
  {
  }

  lemma GluedBack(w: string, rest: string)
    requires w != ""
    ensures Glue([w[0]], Some((w[1..], rest))) == Some((w, rest))
  {
    assert [w[0]] + w[1..] == w;
  }

  lemma PlainStepIsPosix(c: char, rest: string)
    requires PlainChar(c)
    ensures PosixWord([c] + rest) == Glue([c], PosixWord(rest))
  {
    assert ([c] + rest)[1..] == rest;
  }

  lemma {:induction false} PlainWordsArePosix(words: seq<string>)
    requires forall i :: 0 <= i < |words| ==> PlainWord(words[i])
    ensures PosixWords(Join(words, " ")) == Some(words)
    decreases |words|
  {
    if words != [] {
      var w, tail := words[0], words[1..];
      var rest := if tail == [] then "" else " " + Join(tail, " ");
      assert Join(words, " ") == w + rest;
      PlainWordIsPosix(w, rest);
      PlainWordsArePosix(tail);
      if tail != [] {
        assert rest[1..] == Join(tail, " ");
      }
      assert (w + rest)[0] == w[0] && PlainChar(w[0]);
      assert [w] + tail == words;
    }
  }

  lemma FlagsArePlain()
    ensures PlainWord("ssh") && PlainWord("gate") && PlainWord("--policy") && PlainWord("--workspace")
            && PlainWord("--host")
    ensures PlainWord("--role") && PlainWord("--user") && PlainWord("--rules-digest") && PlainWord("--dev-fixture")
  {
  }

  lemma NamesArePlain(s: string)
    requires CleanPath(s) || Identifier(s)
    ensures PlainWord(s)
  {
  }

  lemma {:induction false} JoinAppend(words: seq<string>, w: string)
    requires words != []
    ensures Join(words + [w], " ") == Join(words, " ") + (" " + w)
    decreases |words|
  {
    if |words| == 1 {
      assert (words + [w])[1..] == [w];
      assert words[0] + " " + w == words[0] + (" " + w);
    } else {
      assert (words + [w])[1..] == words[1..] + [w];
      JoinAppend(words[1..], w);
      var j := Join(words[1..], " ");
      assert words[0] + " " + (j + (" " + w)) == (words[0] + " " + j) + (" " + w);
    }
  }

  lemma OptionAppends(text: string, words: seq<string>, flag: string, value: string)
    requires words != [] && text == Join(words, " ")
    ensures text + Argument(flag, value) == Join(words + [flag, value], " ")
  {
    JoinAppend(words, flag);
    JoinAppend(words + [flag], value);
    assert words + [flag] + [value] == words + [flag, value];
    assert text + Argument(flag, value) == text + (" " + flag) + (" " + value);
  }

  /** The forced command is those words with single spaces between them. */
  lemma ForcedIsJoin(a: Authority, s: Scope, digest: seq<Rule> -> string)
    requires Usable(a, s)
    ensures ForcedCommand(a, s, digest) == Some(Join(ForcedWords(a, s, digest), " "))
  {
    var d := digest(a.rules);
    OptionsJoin(a.binary, a.policyFile, s, d);
    var text := Options(a.binary, a.policyFile, s, d);
    var words := OptionWords(a.binary, a.policyFile, s, d);
    if a.fixture {
      JoinAppend(words, "--dev-fixture");
      assert " " + "--dev-fixture" == " --dev-fixture";
    } else {
      assert words + [] == words && text + "" == text;
    }
  }

  lemma OptionsJoin(binary: string, policy: string, s: Scope, digest: string)
    ensures Options(binary, policy, s, digest) == Join(OptionWords(binary, policy, s, digest), " ")
  {
    var (t0, w0) := Appended(binary, [binary], "ssh", "gate");
    var (t1, w1) := Appended(t0, w0, "--policy", policy);
    var (t2, w2) := Appended(t1, w1, "--workspace", s.workspace);
    var (t3, w3) := Appended(t2, w2, "--host", s.host);
    var (t4, w4) := Appended(t3, w3, "--role", s.role);
    var (t5, w5) := Appended(t4, w4, "--user", s.user);
    var (t6, w6) := Appended(t5, w5, "--rules-digest", digest);
    assert w6 == OptionWords(binary, policy, s, digest);
  }

  /** The text and the words with one more option and its value. */
  function Appended(text: string, words: seq<string>, flag: string, value: string): (r: (string, seq<string>))
    requires words != [] && text == Join(words, " ")
    ensures r.1 != [] && r.0 == Join(r.1, " ")
  {
    OptionAppends(text, words, flag, value);
    (text + Argument(flag, value), words + [flag, value])
  }

  /** A login shell reads the forced command as exactly the gate's argument list. */
  lemma ForcedIsPosix(a: Authority, s: Scope, digest: seq<Rule> -> string)
    requires Usable(a, s) && Fingerprint(digest)
    ensures PosixWords(ForcedCommand(a, s, digest).value) == Some(ForcedWords(a, s, digest))
  {
    ForcedIsJoin(a, s, digest);
    FlagsArePlain();
    NamesArePlain(a.binary);
    NamesArePlain(a.policyFile);
    NamesArePlain(s.workspace);
    NamesArePlain(s.host);
    NamesArePlain(s.role);
    NamesArePlain(s.user);
    assert PlainWord(digest(a.rules));
    PlainWordsArePosix(ForcedWords(a, s, digest));
  }

  /**
   Two certificates carry the same forced command only for the same binary, policy file, rules, fixture flag and scope.
   */
  lemma ForcedDetermines(a: Authority, s: Scope, b: Authority, t: Scope, digest: seq<Rule> -> string)
    requires Usable(a, s) && Usable(b, t) && Fingerprint(digest)
    ensures ForcedCommand(a, s, digest) == ForcedCommand(b, t, digest) ==> a == b && s == t
  {
    ForcedIsPosix(a, s, digest);
    ForcedIsPosix(b, t, digest);
    var x, y := ForcedWords(a, s, digest), ForcedWords(b, t, digest);
    if ForcedCommand(a, s, digest) == ForcedCommand(b, t, digest) {
      assert x == y;
      assert x[0] == y[0] && x[4] == y[4] && x[6] == y[6] && x[8] == y[8] && x[10] == y[10] && x[12] == y[12]
             && x[14] == y[14];
    }
  }
}
