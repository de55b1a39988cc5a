/** The literal command grammar of the gate, the client's quoting, and a reference shell tokeniser. */
module ShellWords {
  import opened Bytes
  import opened Text

  /** Length in UTF-8. */
  function Utf8(s: string): nat {
    if s == "" then 0
    else Utf8(s[1..]) + if s[0] < '\U{80}' then 1 else if s[0] < '\U{800}' then 2 else if s[0] < '\U{10000}' then 3
      else 4
  }

  /** Control characters. */
  predicate Control(c: char) {
    c < ' ' || '\U{7F}' <= c <= '\U{9F}'
  }

  /** Invisible format characters, the Unicode category Cf. */
  predicate Format(c: char) {
    || c == '\U{AD}' || '\U{600}' <= c <= '\U{605}' || c == '\U{61C}' || c == '\U{6DD}' || c == '\U{70F}'
    || '\U{890}' <= c <= '\U{891}' || c == '\U{8E2}' || c == '\U{180E}' || '\U{200B}' <= c <= '\U{200F}'
    || '\U{202A}' <= c <= '\U{202E}' || '\U{2060}' <= c <= '\U{2064}' || '\U{2066}' <= c <= '\U{206F}'
    || c == '\U{FEFF}'
    || '\U{FFF9}' <= c <= '\U{FFFB}' || c == '\U{110BD}' || c == '\U{110CD}' || '\U{13430}' <= c <= '\U{1343F}'
    || '\U{1BCA0}' <= c <= '\U{1BCA3}' || '\U{1D173}' <= c <= '\U{1D17A}' || c == '\U{E0001}'
    || '\U{E0020}' <= c <= '\U{E007F}'
  }

  predicate SafeText(s: string) {
    forall i :: 0 <= i < |s| ==> !Control(s[i]) && !Format(s[i])
  }

  predicate PlainChar(c: char) {
    || 'a' <= c <= 'z' || 'A' <= c <= 'Z' || '0' <= c <= '9' || c == '/' || c == '_' || c == '.' || c == ',' || c == ':'
    || c == '@' || c == '%' || c == '+' || c == '=' || c == '-'
  }

  const QUOTED_QUOTE: string := ['"', '\'', '"']

  /** The word at the start of s, up to a blank or the end: plain characters, quoted runs and quoted quotes. */
  function WordAt(s: string): (r: Option<(string, string)>)
    ensures r.Some? ==> |r.value.1| <= |s| && (s != "" && s[0] != ' ' ==> |r.value.1| < |s|)
    decreases |s|
  {
    if s == "" || s[0] == ' ' then Some(("", s))
    else if s[0] == '\'' then
      var n := IndexOf(s[1..], '\'');
      if n == |s| - 1 then None else Glue(s[1..1 + n], WordAt(s[n + 2..]))
    else if s[0] == '"' then
      if |s| < 3 || s[..3] != QUOTED_QUOTE then None else Glue("'", WordAt(s[3..]))
    else if PlainChar(s[0]) then Glue([s[0]], WordAt(s[1..]))
    else None
  }

  function Glue(front: string, rest: Option<(string, string)>): Option<(string, string)> {
    match rest
    case None => None
    case Some((w, more)) => Some((front + w, more))
  }

  const MAX_WORDS: nat := 8
  const MAX_WORD: nat := 256
  const MAX_TEXT: nat := 2048

  /** The words of s after n earlier ones. */
  function WordsFrom(s: string, n: nat): Option<seq<string>>
    decreases |s|
  {
    if s == "" then Some([])
    else if s[0] == ' ' then WordsFrom(s[1..], n)
    else
      match WordAt(s)
      case None => None
      case Some((w, rest)) =>
        if Utf8(w) > MAX_WORD || n >= MAX_WORDS then None
        else
          match WordsFrom(rest, n + 1)
          case None => None
          case Some(words) => Some([w] + words)
  }

  function Parsed(s: string): Option<seq<string>> {
    if s == "" || Utf8(s) > MAX_TEXT || !SafeText(s) then None
    else
      match WordsFrom(s, 0)
      case None => None
      case Some(words) => if words == [] then None else Some(words)
  }

  /** One single-quoted run, quoted quote or plain character, read at i. */
  method ReadPiece(s: string, i: nat) returns (ok: bool, piece: string, next: nat)
    requires i < |s| && s[i] != ' '
    ensures !ok ==> WordAt(s[i..]).None?
    ensures ok ==> i < next <= |s| && WordAt(s[i..]) == Glue(piece, WordAt(s[next..]))
  {
    ok, piece, next := false, "", i;
    if s[i] == '\'' {
      next := RunEnd(s, i + 1);
      RunAt(s, i, next);
      if next < |s| {
        ok, piece, next := true, s[i + 1..next], next + 1;
      }
    } else if s[i] == '"' {
      QuotedQuoteAt(s, i);
      ok := i + 2 < |s| && s[i..i + 3] == QUOTED_QUOTE;
      piece, next := "'", if ok then i + 3 else i;
    } else {
      PlainAt(s, i);
      ok, piece, next := PlainChar(s[i]), [s[i]], i + 1;
    }
  }

  method RunEnd(s: string, begin: nat) returns (end: nat)
    requires begin <= |s|
    ensures begin <= end <= |s| && '\'' !in s[begin..end] && (end < |s| ==> s[end] == '\'')
  {
    end := begin;
    while end < |s| && s[end] != '\''
      invariant begin <= end <= |s| && '\'' !in s[begin..end]
    {
      end := end + 1;
    }
  }

  lemma PlainAt(s: string, i: nat)
    requires i < |s| && s[i] != ' ' && s[i] != '\'' && s[i] != '"'
    ensures WordAt(s[i..]) == if PlainChar(s[i]) then Glue([s[i]], WordAt(s[i + 1..])) else None
  {
    assert s[i..][1..] == s[i + 1..];
  }

  lemma RunAt(s: string, i: nat, j: nat)
    requires i < j <= |s| && s[i] == '\'' && '\'' !in s[i + 1..j] && (j < |s| ==> s[j] == '\'')
    ensures WordAt(s[i..]) == if j == |s| then None else Glue(s[i + 1..j], WordAt(s[j + 1..]))
  {
    if j < |s| {
      assert s[i..] == ['\''] + s[i + 1..j] + ['\''] + s[j + 1..];
      WordAtRun(s[i + 1..j], s[j + 1..]);
    } else {
      assert s[i..] == ['\''] + s[i + 1..j];
      WordAtOpenRun(s[i + 1..j]);
    }
  }

  lemma WordAtRun(a: string, rest: string)
    requires '\'' !in a
    ensures WordAt(['\''] + a + ['\''] + rest) == Glue(a, WordAt(rest))
  {
    var s := ['\''] + a + ['\''] + rest;
    assert s[1..] == a + ['\''] + rest;
    IndexOfPrefix(a, '\'', rest);
    assert s[1..1 + |a|] == a && s[|a| + 2..] == rest;
  }

  lemma WordAtOpenRun(a: string)
    requires '\'' !in a
    ensures WordAt(['\''] + a).None?
  {
    assert (['\''] + a)[1..] == a;
    IndexOfPrefix(a, '\'', []);
  }

  lemma QuotedQuoteAt(s: string, i: nat)
    requires i < |s| && s[i] == '"'
    ensures WordAt(s[i..]) == if i + 2 >= |s| || s[i..i + 3] != QUOTED_QUOTE then None
            else Glue("'", WordAt(s[i + 3..]))
  {
    if i + 2 < |s| {
      assert s[i..][..3] == s[i..i + 3] && s[i..][3..] == s[i + 3..];
    }
  }

  method ReadWord(s: string, start: nat) returns (ok: bool, word: string, next: nat)
    requires start < |s| && s[start] != ' '
    ensures !ok ==> WordAt(s[start..]).None?
    ensures ok ==> start < next <= |s| && WordAt(s[start..]) == Some((word, s[next..]))
  {
    ok, word, next := true, "", start;
    GlueNothing(WordAt(s[start..]));
    while next < |s| && s[next] != ' '
      invariant start <= next <= |s| && (next == start ==> s[next] != ' ')
      invariant WordAt(s[start..]) == Glue(word, WordAt(s[next..]))
    {
      var fine, piece, after := ReadPiece(s, next);
      if !fine {
        ok := false;
        return;
      }
      GlueGlue(word, piece, WordAt(s[after..]));
      word, next := word + piece, after;
    }
    GlueEnd(word, s[next..]);
  }

  lemma GlueNothing(rest: Option<(string, string)>)
    ensures Glue("", rest) == rest
  {
    if rest.Some? {
      assert "" + rest.value.0 == rest.value.0;
    }
  }

  lemma GlueEnd(word: string, rest: string)
    requires rest == "" || rest[0] == ' '
    ensures Glue(word, WordAt(rest)) == Some((word, rest))
  {
    assert WordAt(rest) == Some(("", rest)) && word + "" == word;
  }

  /** What all the words are, given the ones read before i. */
  ghost predicate Splitting(s: string, i: nat, words: seq<string>) {
    i <= |s| && WordsFrom(s, 0) == After(words, WordsFrom(s[i..], |words|))
  }

  lemma SplitStart(s: string)
    ensures Splitting(s, 0, [])
  {
    assert s[0..] == s;
    AfterNothing(WordsFrom(s, 0));
  }

  lemma SplitBlank(s: string, i: nat, words: seq<string>)
    requires Splitting(s, i, words) && i < |s| && s[i] == ' '
    ensures Splitting(s, i + 1, words)
  {
    assert s[i..][1..] == s[i + 1..];
  }

  lemma FirstWord(t: string, n: nat, word: string, rest: string)
    requires t != "" && t[0] != ' ' && WordAt(t) == Some((word, rest))
    ensures var more := WordsFrom(rest, n + 1);
            WordsFrom(t, n) ==
            if Utf8(word) > MAX_WORD || n >= MAX_WORDS || more.None? then None else Some([word] + more.value)
  {
  }

  lemma SplitWord(s: string, i: nat, words: seq<string>, word: string, next: nat)
    requires Splitting(s, i, words) && i < |s| && s[i] != ' ' && i < next <= |s|
             && WordAt(s[i..]) == Some((word, s[next..]))
    ensures Utf8(word) > MAX_WORD || |words| >= MAX_WORDS ==> WordsFrom(s, 0).None?
    ensures Utf8(word) <= MAX_WORD && |words| < MAX_WORDS ==> Splitting(s, next, words + [word])
  {
    FirstWord(s[i..], |words|, word, s[next..]);
    AfterOne(words, word, WordsFrom(s[next..], |words| + 1));
  }

  lemma SplitFails(s: string, i: nat, words: seq<string>)
    requires Splitting(s, i, words) && i < |s| && s[i] != ' ' && WordAt(s[i..]).None?
    ensures WordsFrom(s, 0).None?
  {
  }

  lemma SplitEnd(s: string, words: seq<string>)
    requires Splitting(s, |s|, words)
    ensures WordsFrom(s, 0) == Some(words)
  {
    assert s[|s|..] == [];
    AfterEnd(words);
  }

  method Parse(s: string) returns (r: Option<seq<string>>)
    ensures r == Parsed(s)
  {
    if |s| == 0 || Utf8(s) > 2048 || !SafeText(s) {
      return None;
    }
    var words: seq<string> := [];
    var i := 0;
    SplitStart(s);
    while i < |s|
      invariant 0 <= i <= |s| && Splitting(s, i, words)
    {
      while i < |s| && s[i] == ' '
        invariant 0 <= i <= |s| && Splitting(s, i, words)
      {
        SplitBlank(s, i, words);
        i := i + 1;
      }
      if i == |s| {
        break;
      }
      var ok, word, next := ReadWord(s, i);
      if !ok {
        SplitFails(s, i, words);
        return None;
      }
      SplitWord(s, i, words, word, next);
      if Utf8(word) > 256 || |words| >= 8 {
        return None;
      }
      words, i := words + [word], next;
    }
    SplitEnd(s, words);
    return if words == [] then None else Some(words);
  }

  lemma AfterEnd(words: seq<string>)
    ensures After(words, WordsFrom([], |words|)) == Some(words)
  {
    assert words + [] == words;
  }

  function After(done: seq<string>, more: Option<seq<string>>): Option<seq<string>> {
    match more
    case None => None
    case Some(words) => Some(done + words)
  }

  lemma AfterNothing(more: Option<seq<string>>)
    ensures After([], more) == more
  {
    if more.Some? {
      assert [] + more.value == more.value;
    }
  }

  lemma AfterOne(done: seq<string>, w: string, more: Option<seq<string>>)
    ensures After(done, if more.None? then None else Some([w] + more.value)) == After(done + [w], more)
  {
    if more.Some? {
      assert done + ([w] + more.value) == (done + [w]) + more.value;
    }
  }

  lemma GlueGlue(a: string, b: string, rest: Option<(string, string)>)
    ensures Glue(a, Glue(b, rest)) == Glue(a + b, rest)
  {
    if rest.Some? {
      assert a + (b + rest.value.0) == (a + b) + rest.value.0;
    }
  }

  // ----- the client's quoting

  /** Every quote leaves the quoted run, appears in double quotes, and enters a new run. */
  function Body(w: string): string {
    if w == "" then "" else (if w[0] == '\'' then ['\'', '"', '\'', '"', '\''] else [w[0]]) + Body(w[1..])
  }

  function Quote(w: string): string {
    ['\''] + Body(w) + ['\'']
  }

  function QuoteAll(words: seq<string>): seq<string> {
    seq(|words|, i requires 0 <= i < |words| => Quote(words[i]))
  }

  /** The remote command line for an argument list. */
  function Remote(words: seq<string>): string {
    Join(QuoteAll(words), " ")
  }

  /** The arguments of the client with the remote command line, if there is one, as the last. */
  method RemoteArgument(args: seq<string>, words: seq<string>) returns (r: Option<seq<string>>)
    ensures r == if exists i :: 0 <= i < |words| && '\0' in words[i] then None
                 else Some(args + if words == [] then [] else [Remote(words)])
  {
    if words == [] {
      assert args + [] == args;
      return Some(args);
    }
    var quoted: seq<string> := [];
    var i := 0;
    while i < |words|
      invariant 0 <= i <= |words| && quoted == QuoteAll(words)[..i]
      invariant forall j :: 0 <= j < i ==> '\0' !in words[j]
    {
      if '\0' in words[i] {
        return None;
      }
      quoted := quoted + [Quote(words[i])];
      i := i + 1;
    }
    assert quoted == QuoteAll(words);
    return Some(args + [Join(quoted, " ")]);
  }

  lemma {:induction false} BodyOfPlain(a: string)
    requires '\'' !in a
    ensures Body(a) == a
  {
    if a != "" {
      BodyOfPlain(a[1..]);
    }
  }

  lemma {:induction false} BodyAppend(a: string, b: string)
    ensures Body(a + b) == Body(a) + Body(b)
  {
    if a == "" {
      assert a + b == b;
    } else {
      assert (a + b)[0] == a[0] && (a + b)[1..] == a[1..] + b;
      BodyAppend(a[1..], b);
    }
  }

  lemma WordAtQuotedQuote(rest: string)
    ensures WordAt(QUOTED_QUOTE + rest) == Glue("'", WordAt(rest))
  {
    var s := QUOTED_QUOTE + rest;
    assert s[..3] == QUOTED_QUOTE && s[3..] == rest;
  }

  /** What is quoted after a quote: the run before it closes, the quote follows, and the rest is quoted. */
  lemma QuoteSplits(a: string, b: string)
    requires '\'' !in a
    ensures Quote(a + ['\''] + b) == ['\''] + a + ['\''] + (QUOTED_QUOTE + Quote(b))
  {
    var q := ['\''] + b;
    assert q[1..] == b && a + ['\''] + b == a + q;
    BodyOfPlain(a);
    BodyAppend(a, q);
    assert Body(q) == ['\''] + QUOTED_QUOTE + ['\''] + Body(b);
    Flatten(a, Body(b));
  }

  lemma Flatten(a: string, b: string)
    ensures ['\''] + (a + (['\''] + QUOTED_QUOTE + ['\''] + b)) + ['\''] ==
            ['\''] + a + ['\''] + (QUOTED_QUOTE + (['\''] + b + ['\'']))
  {
  }

  lemma PlainReadsBack(w: string, rest: string)
    requires '\'' !in w && (rest == "" || rest[0] == ' ')
    ensures WordAt(Quote(w) + rest) == Some((w, rest))
  {
    BodyOfPlain(w);
    assert Quote(w) + rest == ['\''] + w + ['\''] + rest;
    WordAtRun(w, rest);
    GlueEnd(w, rest);
  }

  lemma SplitReadsBack(a: string, b: string, rest: string)
    requires '\'' !in a && WordAt(Quote(b) + rest) == Some((b, rest))
    ensures WordAt(Quote(a + ['\''] + b) + rest) == Some((a + ['\''] + b, rest))
  {
    QuoteSplits(a, b);
    var tail := QUOTED_QUOTE + (Quote(b) + rest);
    Regroup(a, Quote(b), rest);
    WordAtRun(a, tail);
    WordAtQuotedQuote(Quote(b) + rest);
    assert a + (['\''] + b) == a + ['\''] + b;
  }

  lemma Regroup(a: string, q: string, rest: string)
    ensures ['\''] + a + ['\''] + (QUOTED_QUOTE + q) + rest == ['\''] + a + ['\''] + (QUOTED_QUOTE + (q + rest))
  {
    assert (QUOTED_QUOTE + q) + rest == QUOTED_QUOTE + (q + rest);
    var p := ['\''] + a + ['\''];
    assert p + (QUOTED_QUOTE + q) + rest == p + ((QUOTED_QUOTE + q) + rest);
  }

  /** The gate reads a quoted word back. */
  lemma {:induction false} QuoteReadsBack(w: string, rest: string)
    requires rest == "" || rest[0] == ' '
    ensures WordAt(Quote(w) + rest) == Some((w, rest))
    decreases |w|
  {
    var n := IndexOf(w, '\'');
    if n == |w| {
      assert w[..n] == w;
      PlainReadsBack(w, rest);
    } else {
      assert w == w[..n] + ['\''] + w[n + 1..];
      QuoteReadsBack(w[n + 1..], rest);
      SplitReadsBack(w[..n], w[n + 1..], rest);
    }
  }

  lemma FirstReadsBack(w: string, rest: string, n: nat, words: seq<string>)
    requires rest == "" || rest[0] == ' '
    requires Utf8(w) <= MAX_WORD && n < MAX_WORDS && WordsFrom(rest, n + 1) == Some(words)
    ensures WordsFrom(Quote(w) + rest, n) == Some([w] + words)
  {
    QuoteReadsBack(w, rest);
    assert (Quote(w) + rest)[0] == '\'';
  }

  lemma RemoteSplits(words: seq<string>)
    requires words != []
    ensures Remote(words) == Quote(words[0]) + RemoteRest(words[1..])
  {
    assert QuoteAll(words)[1..] == QuoteAll(words[1..]);
    if |words| == 1 {
      assert Quote(words[0]) + "" == Quote(words[0]);
    } else {
      var q, r := Quote(words[0]), Remote(words[1..]);
      assert q + " " + r == q + (" " + r);
    }
  }

  predicate ShortWords(words: seq<string>) {
    forall i :: 0 <= i < |words| ==> Utf8(words[i]) <= MAX_WORD
  }

  lemma ShortTail(words: seq<string>)
    requires words != [] && ShortWords(words)
    ensures Utf8(words[0]) <= MAX_WORD && ShortWords(words[1..])
  {
  }

  lemma {:induction false} RemoteReadsBack(words: seq<string>, n: nat)
    requires ShortWords(words) && n + |words| <= MAX_WORDS
    ensures WordsFrom(Remote(words), n) == Some(words)
    decreases |words|
  {
    if words != [] {
      var tail := words[1..];
      ShortTail(words);
      RemoteSplits(words);
      RemoteReadsBack(tail, n + 1);
      RestReadsBack(tail, n + 1);
      FirstReadsBack(words[0], RemoteRest(tail), n, tail);
      assert [words[0]] + tail == words;
    }
  }

  /** What follows the first word. */
  function RemoteRest(tail: seq<string>): string {
    if tail == [] then "" else " " + Remote(tail)
  }

  lemma RestReadsBack(tail: seq<string>, n: nat)
    requires WordsFrom(Remote(tail), n) == Some(tail)
    ensures WordsFrom(RemoteRest(tail), n) == Some(tail)
  {
    if tail != [] {
      BlankSkipped(Remote(tail), n);
    }
  }

  lemma BlankSkipped(s: string, n: nat)
    ensures WordsFrom(" " + s, n) == WordsFrom(s, n)
  {
    assert (" " + s)[1..] == s;
  }

  lemma {:induction false} SafeBody(w: string)
    ensures SafeText(Body(w)) <==> SafeText(w)
  {
    if w != "" {
      SafeBody(w[1..]);
      var front := if w[0] == '\'' then ['\'', '"', '\'', '"', '\''] else [w[0]];
      SafeAppend(front, Body(w[1..]));
      SafeAppend([w[0]], w[1..]);
      assert [w[0]] + w[1..] == w;
    }
  }

  lemma SafeAppend(a: string, b: string)
    ensures SafeText(a + b) <==> SafeText(a) && SafeText(b)
  {
    forall i | 0 <= i < |b| && SafeText(a + b)
      ensures !Control(b[i]) && !Format(b[i])
    {
      assert (a + b)[|a| + i] == b[i];
    }
    forall i | 0 <= i < |a| && SafeText(a + b)
      ensures !Control(a[i]) && !Format(a[i])
    {
      assert (a + b)[i] == a[i];
    }
  }

  lemma {:induction false} SafeRemote(words: seq<string>)
    ensures SafeText(Remote(words)) <==> forall i :: 0 <= i < |words| ==> SafeText(words[i])
    decreases |words|
  {
    if words != [] {
      var tail := words[1..];
      assert QuoteAll(words)[1..] == QuoteAll(tail);
      SafeBody(words[0]);
      SafeAppend(['\''], Body(words[0]));
      SafeAppend(['\''] + Body(words[0]), ['\'']);
      SafeRemote(tail);
      assert forall i :: 1 <= i < |words| ==> words[i] == tail[i - 1];
      if tail != [] {
        SafeAppend(Quote(words[0]) + " ", Remote(tail));
        SafeAppend(Quote(words[0]), " ");
      }
    }
  }

  /**
   The gate recovers an argument list from its quoted form exactly when there are one to eight words of safe text,
   each of at most 256 bytes, and the quoted form has at most 2048 bytes.
   */
  lemma QuotingRoundTrip(words: seq<string>)
    ensures Parsed(Remote(words)) == Some(words) <==>
            && 1 <= |words| <= MAX_WORDS && Utf8(Remote(words)) <= MAX_TEXT
            && forall i :: 0 <= i < |words| ==> SafeText(words[i]) && Utf8(words[i]) <= MAX_WORD
  {
    SafeRemote(words);
    if 1 <= |words| <= MAX_WORDS && ShortWords(words) {
      RemoteReadsBack(words, 0);
      assert QuoteAll(words)[0] == Quote(words[0]);
    }
    if Parsed(Remote(words)) == Some(words) {
      WordsAreBounded(Remote(words), 0);
    }
  }

  lemma {:induction false} WordsAreBounded(s: string, n: nat)
    requires WordsFrom(s, n).Some?
    ensures var words := WordsFrom(s, n).value;
            (words != [] ==> n + |words| <= MAX_WORDS) && forall i :: 0 <= i < |words| ==> Utf8(words[i]) <= MAX_WORD
    decreases |s|
  {
    if s != "" {
      if s[0] == ' ' {
        WordsAreBounded(s[1..], n);
      } else {
        WordsAreBounded(WordAt(s).value.1, n + 1);
      }
    }
  }

  // ----- a reference tokeniser

  /** The rest of a double-quoted run; expansions inside it are not literal text. */
  function DoubleQuoted(s: string): (r: Option<(string, string)>)
    ensures r.Some? ==> |r.value.1| < |s|
    decreases |s|
  {
    if s == "" || s[0] == '$' || s[0] == '`' then None
    else if s[0] == '"' then Some(("", s[1..]))
    else if s[0] == '\\' && |s| >= 2 then
      if s[1] == '\n' then DoubleQuoted(s[2..])
      else if s[1] == '$' || s[1] == '`' || s[1] == '"' || s[1] == '\\' then Glue([s[1]], DoubleQuoted(s[2..]))
      else Glue([s[0]], DoubleQuoted(s[1..]))
    else Glue([s[0]], DoubleQuoted(s[1..]))
  }

  /** Operators, expansions, patterns, comments, history and newlines. */
  predicate Special(c: char) {
    || c == '|' || c == '&' || c == ';' || c == '<' || c == '>' || c == '(' || c == ')' || c == '$' || c == '`'
    || c == '*'
    || c == '?' || c == '[' || c == '#' || c == '~' || c == '!' || c == '{' || c == '}' || c == '\n'
  }

  /** One shell word with its quotes removed; None for operators, expansions, patterns and comments. */
  function PosixWord(s: string): (r: Option<(string, string)>)
    ensures r.Some? ==> |r.value.1| <= |s| && (s != "" && s[0] != ' ' && s[0] != '\t' ==> |r.value.1| < |s|)
    decreases |s|
  {
    if s == "" || s[0] == ' ' || s[0] == '\t' then Some(("", s))
    else if Special(s[0]) then None
    else if s[0] == '\'' then
      var n := IndexOf(s[1..], '\'');
      if n == |s| - 1 then None else Glue(s[1..1 + n], PosixWord(s[n + 2..]))
    else if s[0] == '"' then
      match DoubleQuoted(s[1..])
      case None => None
      case Some((text, rest)) => Glue(text, PosixWord(rest))
    else if s[0] == '\\' then
      if |s| < 2 then None
      else if s[1] == '\n' then PosixWord(s[2..])
      else Glue([s[1]], PosixWord(s[2..]))
    else Glue([s[0]], PosixWord(s[1..]))
  }

  function PosixWords(s: string): Option<seq<string>>
    decreases |s|
  {
    if s == "" then Some([])
    else if s[0] == ' ' || s[0] == '\t' then PosixWords(s[1..])
    else
      match PosixWord(s)
      case None => None
      case Some((w, rest)) =>
        match PosixWords(rest)
        case None => None
        case Some(words) => Some([w] + words)
  }

  lemma {:induction false} WordIsPosix(s: string)
    requires WordAt(s).Some?
    ensures PosixWord(s) == WordAt(s)
    decreases |s|
  {
    if s != "" && s[0] != ' ' {
      if s[0] == '\'' {
        WordIsPosix(s[IndexOf(s[1..], '\'') + 2..]);
      } else if s[0] == '"' {
        QuotedQuoteIsPosix(s);
        WordIsPosix(s[3..]);
      } else {
        WordIsPosix(s[1..]);
      }
    }
  }

  lemma QuotedQuoteIsPosix(s: string)
    requires |s| >= 3 && s[..3] == QUOTED_QUOTE
    ensures DoubleQuoted(s[1..]) == Some(("'", s[3..]))
  {
    var t := s[1..];
    assert s[1] == s[..3][1] == '\'' && s[2] == s[..3][2] == '"';
    assert t[0] == '\'' && t[1..][0] == '"' && t[1..][1..] == s[3..];
    assert DoubleQuoted(t[1..]) == Some(("", s[3..]));
    assert DoubleQuoted(t) == Glue(['\''], DoubleQuoted(t[1..]));
    assert ['\''] + "" == "'";
  }

  lemma {:induction false} WordsArePosix(s: string, n: nat)
    requires WordsFrom(s, n).Some?
    ensures PosixWords(s) == WordsFrom(s, n)
    decreases |s|
  {
    if s != "" {
      if s[0] == ' ' {
        WordsArePosix(s[1..], n);
      } else {
        WordIsPosix(s);
        WordsArePosix(WordAt(s).value.1, n + 1);
      }
    }
  }

  /** What the gate accepts is split and unquoted as a shell would. */
  lemma AcceptedAsInShell(s: string)
    requires Parsed(s).Some?
    ensures PosixWords(s) == Parsed(s)
  {
    WordsArePosix(s, 0);
  }
}
