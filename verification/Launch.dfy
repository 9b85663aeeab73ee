/**
 Launching an agent from a shell: the command text, the shell's reading of it, and
 the launcher's reading of the words it is then given.
 */
module Launch {
  import opened Wrappers

  datatype AgentType = Claude | Codex {
    function AsStr(): string { if Claude? then "claude" else "codex" }
  }

  datatype LaunchMode = Real | Mock

  /** A process argument. Only some are text. */
  datatype OsArg = Utf8(text: string) | NotUtf8(bytes: seq<bv8>)

  datatype LauncherConfig = LauncherConfig(agent: AgentType, mode: LaunchMode, args: seq<OsArg>)

  datatype LaunchError =
    | ArgNotUtf8 | MissingValue(option: string) | UnknownAgent(raw: string) | UnknownMode(raw: string)
    | UnknownArg(arg: string) | TypeRequired

  /******* The shell *******/

  /** A token after quote removal. */
  datatype Token = Word(text: string) | Operator(text: string)

  function Flush(word: Option<string>): seq<Token> { if word.Some? then [Word(word.value)] else [] }

  predicate IsBlank(c: char) { c == ' ' || c == '\t' }

  /** The length of the operator a text starts with, by the longest match. */
  function OperatorLength(s: string): (n: nat)
    ensures n <= |s|
  {
    if |s| >= 3 && s[..3] == "<<-" then 3
    else if |s| >= 2 && s[..2] in {"&&", "||", ";;", "<<", ">>", "<&", ">&", "<>", ">|"} then 2
    else if |s| >= 1 && s[0] in "&|;<>()\n" then 1
    else 0
  }

  /** Unquoted, these ask for something other than sections 2.2.1, 2.2.2 and 2.3 describe. */
  predicate Expands(c: char) { c in "$`\"*?[~{!" }

  /** The rest of a line. */
  function SkipComment(s: string): (r: string)
    ensures |r| <= |s|
  {
    if s == "" || s[0] == '\n' then s else SkipComment(s[1..])
  }

  /**
   Token recognition and quote removal by the Shell Command Language of POSIX.1-2017,
   sections 2.2.1, 2.2.2 and 2.3. `word` is the token under way. There is no result
   for an unfinished quotation, nor where other sections would apply.
   */
  function Lex(s: string, word: Option<string>, quoted: bool): Option<seq<Token>>
    decreases |s|
  {
    if s == "" then
      if quoted then None else Some(Flush(word))
    else if quoted then
      if s[0] == '\'' then Lex(s[1..], word, false)
      else Lex(s[1..], Some(word.GetOr("") + [s[0]]), true)
    else if s[0] == '\\' then
      if |s| == 1 then None
      else if s[1] == '\n' then Lex(s[2..], word, false)
      else Lex(s[2..], Some(word.GetOr("") + [s[1]]), false)
    else if s[0] == '\'' then Lex(s[1..], Some(word.GetOr("")), true)
    else if IsBlank(s[0]) then Emit(Flush(word), Lex(s[1..], None, false))
    else if OperatorLength(s) > 0 then
      var n := OperatorLength(s);
      Emit(Flush(word) + [Operator(s[..n])], Lex(s[n..], None, false))
    else if s[0] == '#' && word.None? then Lex(SkipComment(s[1..]), None, false)
    else if Expands(s[0]) then None
    else Lex(s[1..], Some(word.GetOr("") + [s[0]]), false)
  }

  function Emit(tokens: seq<Token>, more: Option<seq<Token>>): Option<seq<Token>> {
    if more.Some? then Some(tokens + more.value) else None
  }

  /** A command is passed as a C string, so one with a NUL never reaches the shell. */
  function Shell(command: string): Option<seq<Token>> {
    if '\0' in command then None else Lex(command, None, false)
  }

  /** The words of the first simple command. */
  function FirstCommand(tokens: seq<Token>): seq<string> {
    if tokens == [] || tokens[0].Operator? then [] else [tokens[0].text] + FirstCommand(tokens[1..])
  }

  /******* The command text *******/

  function EscapeQuotes(s: string): string {
    if s == "" then "" else (if s[0] == '\'' then "'\\''" else [s[0]]) + EscapeQuotes(s[1..])
  }

  function ShellQuote(s: string): string { "'" + EscapeQuotes(s) + "'" }

  function QuoteAll(args: seq<string>): seq<string> { seq(|args|, i requires 0 <= i < |args| => ShellQuote(args[i])) }

  /** `parts.join(" ")`, each part after the first preceded by a space. */
  function Spaced(parts: seq<string>): string {
    if parts == [] then "" else " " + parts[0] + Spaced(parts[1..])
  }

  function LaunchCommand(binary: string, agent: AgentType, args: seq<string>, thenBash: bool): string {
    ShellQuote(binary) +
    Spaced(["agent-launcher", "--type", agent.AsStr(), "--mode", "real", "--"] + QuoteAll(args)) +
    if thenBash then " ; exec bash" else ""
  }

  method AgentLaunchShellCommand(binary: string, agent: AgentType, args: seq<string>, thenBash: bool)
    returns (command: string)
    ensures command == LaunchCommand(binary, agent, args, thenBash)
  {
    var parts := ["agent-launcher", "--type", agent.AsStr(), "--mode", "real", "--"];
    for i := 0 to |args|
      invariant parts == ["agent-launcher", "--type", agent.AsStr(), "--mode", "real", "--"] + QuoteAll(args)[..i]
    {
      parts := parts + [ShellQuote(args[i])];
    }
    assert QuoteAll(args)[..|args|] == QuoteAll(args);
    command := ShellQuote(binary) + Spaced(parts);
    if thenBash {
      command := command + " ; exec bash";
    }
  }

  /** What each agent is launched with if nothing else is asked for. */
  function DefaultArgs(agent: AgentType): seq<string> {
    if agent.Claude? then ["--dangerously-skip-permissions"] else ["--yolo"]
  }

  /******* The lexer's rules, one at a time *******/

  lemma CloseQuote(rest: string, word: Option<string>)
    ensures Lex("'" + rest, word, true) == Lex(rest, word, false)
  {
    assert ("'" + rest)[1..] == rest;
  }

  lemma OpenQuote(rest: string, word: Option<string>)
    ensures Lex("'" + rest, word, false) == Lex(rest, Some(word.GetOr("")), true)
  {
    assert ("'" + rest)[1..] == rest;
  }

  lemma InQuotes(c: char, rest: string, word: Option<string>)
    requires c != '\''
    ensures Lex([c] + rest, word, true) == Lex(rest, Some(word.GetOr("") + [c]), true)
  {
    assert ([c] + rest)[1..] == rest;
  }

  lemma EscapedQuote(rest: string, word: Option<string>)
    ensures Lex("\\'" + rest, word, false) == Lex(rest, Some(word.GetOr("") + "'"), false)
  {
    var s := "\\'" + rest;
    assert s[2..] == rest && s[0] == '\\' && [s[1]] == "'";
  }

  lemma Blank(rest: string, word: Option<string>)
    ensures Lex(" " + rest, word, false) == Emit(Flush(word), Lex(rest, None, false))
  {
    assert (" " + rest)[1..] == rest;
  }

  predicate Plain(c: char) { 'a' <= c <= 'z' || c == '-' }

  lemma PlainIsNoOperator(s: string)
    requires s != "" && Plain(s[0])
    ensures OperatorLength(s) == 0
  {
    assert |s| >= 3 ==> s[..3][0] == s[0];
    assert |s| >= 2 ==> s[..2][0] == s[0];
  }

  lemma PlainChar(c: char, rest: string, word: Option<string>)
    requires Plain(c)
    ensures Lex([c] + rest, word, false) == Lex(rest, Some(word.GetOr("") + [c]), false)
  {
    var s := [c] + rest;
    PlainIsNoOperator(s);
    hide OperatorLength, SkipComment, Emit;
    assert s[1..] == rest && s[0] == c;
  }

  lemma Semicolon(rest: string)
    requires rest != "" && rest[0] == ' '
    ensures Lex(";" + rest, None, false) == Emit([Operator(";")], Lex(rest, None, false))
  {
    var s := ";" + rest;
    assert s[1..] == rest && s[..1] == ";";
    assert s[..2] == "; ";
    assert |s| >= 3 ==> s[..3][0] == ';';
    assert OperatorLength(s) == 1;
    assert Flush(None) + [Operator(";")] == [Operator(";")];
    hide OperatorLength, SkipComment;
  }

  lemma LexEnd(word: string)
    ensures Lex("", Some(word), false) == Some([Word(word)])
  {
  }

  /******* What the shell makes of quoted and plain text *******/

  lemma Longer(w: string, v: string)
    requires v != ""
    ensures w + [v[0]] + v[1..] == w + v
  {
    assert [v[0]] + v[1..] == v;
  }

  lemma {:induction false} LexEscaped(v: string, rest: string, w: string)
    ensures Lex(EscapeQuotes(v) + "'" + rest, Some(w), true) == Lex(rest, Some(w + v), false)
  {
    hide Lex;
    if v == "" {
      assert EscapeQuotes(v) + "'" + rest == "'" + rest;
      CloseQuote(rest, Some(w));
      assert w + v == w;
    } else {
      var more := EscapeQuotes(v[1..]) + "'" + rest;
      LexEscaped(v[1..], rest, w + [v[0]]);
      Longer(w, v);
      if v[0] == '\'' {
        assert EscapeQuotes(v) + "'" + rest == "'" + ("\\'" + ("'" + more));
        CloseQuote("\\'" + ("'" + more), Some(w));
        EscapedQuote("'" + more, Some(w));
        OpenQuote(more, Some(w + "'"));
        assert w + [v[0]] == w + "'";
      } else {
        assert EscapeQuotes(v) + "'" + rest == [v[0]] + more;
        InQuotes(v[0], more, Some(w));
      }
    }
  }

  /** A quoted text is read as the text itself. */
  lemma LexQuoted(v: string, rest: string, word: Option<string>)
    ensures Lex(ShellQuote(v) + rest, word, false) == Lex(rest, Some(word.GetOr("") + v), false)
  {
    hide Lex;
    assert ShellQuote(v) + rest == "'" + (EscapeQuotes(v) + "'" + rest);
    OpenQuote(EscapeQuotes(v) + "'" + rest, word);
    LexEscaped(v, rest, word.GetOr(""));
  }

  lemma {:induction false} LexPlain(v: string, rest: string, w: string)
    requires forall c | c in v :: Plain(c)
    ensures Lex(v + rest, Some(w), false) == Lex(rest, Some(w + v), false)
  {
    hide Lex;
    if v == "" {
      assert v + rest == rest && w + v == w;
    } else {
      assert v + rest == [v[0]] + (v[1..] + rest);
      PlainChar(v[0], v[1..] + rest, Some(w));
      LexPlain(v[1..], rest, w + [v[0]]);
      Longer(w, v);
    }
  }

  lemma LexPlainWord(v: string, rest: string)
    requires v != "" && forall c | c in v :: Plain(c)
    ensures Lex(v + rest, None, false) == Lex(rest, Some(v), false)
  {
    hide Lex;
    assert v + rest == [v[0]] + (v[1..] + rest);
    PlainChar(v[0], v[1..] + rest, None);
    assert "" + [v[0]] == [v[0]];
    LexPlain(v[1..], rest, [v[0]]);
    assert [v[0]] + v[1..] == v;
  }

  /** A part of the command, and the word the shell reads there. */
  ghost predicate Spells(part: string, word: string) {
    (part == word && word != "" && forall c | c in word :: Plain(c)) || part == ShellQuote(word)
  }

  lemma LexPart(part: string, word: string, rest: string)
    requires Spells(part, word)
    ensures Lex(part + rest, None, false) == Lex(rest, Some(word), false)
  {
    hide Lex, ShellQuote;
    if part == ShellQuote(word) {
      LexQuoted(word, rest, None);
      assert "" + word == word;
    } else {
      LexPlainWord(word, rest);
    }
  }

  function Words(texts: seq<string>): (r: seq<Token>)
    ensures |r| == |texts|
  {
    seq(|texts|, i requires 0 <= i < |texts| => Word(texts[i]))
  }

  /** After any word under way, `rest` ends that word and then reads as `tail`. */
  ghost predicate Continues(rest: string, tail: seq<Token>) {
    forall w :: Lex(rest, Some(w), false) == Some([Word(w)] + tail)
  }

  lemma {:induction false} LexSpaced(parts: seq<string>, words: seq<string>, rest: string, tail: seq<Token>)
    requires |parts| == |words| && forall i | 0 <= i < |parts| :: Spells(parts[i], words[i])
    requires Continues(rest, tail)
    ensures Continues(Spaced(parts) + rest, Words(words) + tail)
  {
    hide Lex, Spells, Emit, Flush;
    if parts == [] {
      assert Spaced(parts) + rest == rest && Words(words) + tail == tail;
    } else {
      var more, after := Spaced(parts[1..]) + rest, Words(words[1..]) + tail;
      LexSpaced(parts[1..], words[1..], rest, tail);
      assert Spaced(parts) + rest == " " + (parts[0] + more);
      assert Words(words) + tail == [Word(words[0])] + after;
      LexPart(parts[0], words[0], more);
      BlankContinues(parts[0] + more, [Word(words[0])] + after);
    }
  }

  lemma BlankContinues(rest: string, tail: seq<Token>)
    requires Lex(rest, None, false) == Some(tail)
    ensures Continues(" " + rest, tail)
  {
    hide Lex, Emit, Flush;
    forall w ensures Lex(" " + rest, Some(w), false) == Some([Word(w)] + tail) {
      Blank(rest, Some(w));
      FlushThen(w, tail);
    }
  }

  lemma FlushThen(w: string, tokens: seq<Token>)
    ensures Emit(Flush(Some(w)), Some(tokens)) == Some([Word(w)] + tokens)
    ensures Emit(Flush(None), Some(tokens)) == Some(tokens)
    ensures Emit([Operator(";")], Some(tokens)) == Some([Operator(";")] + tokens)
  {
    assert [] + tokens == tokens;
  }

  /** The words after the binary's name. */
  function LauncherWords(agent: AgentType, args: seq<string>): seq<string> {
    ["agent-launcher", "--type", agent.AsStr(), "--mode", "real", "--"] + args
  }

  lemma PartsSpell(agent: AgentType, args: seq<string>, i: nat)
    requires i < |args| + 6
    ensures var parts := ["agent-launcher", "--type", agent.AsStr(), "--mode", "real", "--"] + QuoteAll(args);
      |parts| == |LauncherWords(agent, args)| == |args| + 6 && Spells(parts[i], LauncherWords(agent, args)[i])
  {
    hide ShellQuote;
    var parts := ["agent-launcher", "--type", agent.AsStr(), "--mode", "real", "--"] + QuoteAll(args);
    if i >= 6 {
      assert parts[i] == QuoteAll(args)[i - 6] == ShellQuote(args[i - 6]);
    }
  }

  /** What may follow the launch. */
  function Tail(thenBash: bool): seq<Token> {
    if thenBash then [Operator(";"), Word("exec"), Word("bash")] else []
  }

  lemma TailReads(thenBash: bool)
    ensures Continues(if thenBash then " ; exec bash" else "", Tail(thenBash))
  {
    hide Lex, Emit, Flush;
    if thenBash {
      var s := " exec bash";
      assert " ; exec bash" == " " + (";" + s);
      Semicolon(s);
      assert s == " " + ("exec" + (" " + ("bash" + "")));
      Blank("exec" + (" " + ("bash" + "")), None);
      LexPlainWord("exec", " " + ("bash" + ""));
      Blank("bash" + "", Some("exec"));
      LexPlainWord("bash", "");
      LexEnd("bash");
      FlushThen("exec", [Word("bash")]);
      FlushThen("", [Word("exec")] + [Word("bash")]);
      forall w ensures Lex(" ; exec bash", Some(w), false) == Some([Word(w)] + Tail(true)) {
        Blank(";" + s, Some(w));
        FlushThen(w, [Operator(";")] + ([Word("exec")] + [Word("bash")]));
        assert [Operator(";")] + ([Word("exec")] + [Word("bash")]) == Tail(true);
      }
    } else {
      forall w ensures Lex("", Some(w), false) == Some([Word(w)] + []) {
        LexEnd(w);
        assert [Word(w)] + [] == [Word(w)];
      }
    }
  }

  /** The tokens the shell reads, whatever the binary and the arguments hold. */
  lemma CommandLexes(binary: string, agent: AgentType, args: seq<string>, thenBash: bool)
    ensures Lex(LaunchCommand(binary, agent, args, thenBash), None, false) ==
            Some(Words([binary] + LauncherWords(agent, args)) + Tail(thenBash))
  {
    hide Lex, ShellQuote, Spells, Spaced, Tail, Words, Continues;
    var parts := ["agent-launcher", "--type", agent.AsStr(), "--mode", "real", "--"] + QuoteAll(args);
    var words := LauncherWords(agent, args);
    var tail := if thenBash then " ; exec bash" else "";
    assert LaunchCommand(binary, agent, args, thenBash) == ShellQuote(binary) + (Spaced(parts) + tail);
    assert |parts| == |words|;
    forall i | 0 <= i < |words| ensures Spells(parts[i], words[i]) {
      PartsSpell(agent, args, i);
    }
    TailReads(thenBash);
    LexAll(binary, parts, words, tail, Tail(thenBash));
  }

  lemma LexAll(first: string, parts: seq<string>, words: seq<string>, rest: string, tail: seq<Token>)
    requires |parts| == |words| && forall i | 0 <= i < |parts| :: Spells(parts[i], words[i])
    requires Continues(rest, tail)
    ensures Lex(ShellQuote(first) + (Spaced(parts) + rest), None, false) == Some(Words([first] + words) + tail)
  {
    hide Lex, ShellQuote, Spells, Spaced;
    LexSpaced(parts, words, rest, tail);
    LexQuoted(first, Spaced(parts) + rest, None);
    assert "" + first == first;
    assert Words([first] + words) + tail == [Word(first)] + (Words(words) + tail);
  }

  lemma {:induction false} NulShows(s: string)
    ensures '\0' in EscapeQuotes(s) <==> '\0' in s
  {
    if s != "" {
      NulShows(s[1..]);
      assert s == [s[0]] + s[1..];
    }
  }

  lemma {:induction false} NulInSpaced(args: seq<string>)
    ensures '\0' in Spaced(QuoteAll(args)) <==> HasNul(args)
  {
    hide EscapeQuotes;
    if args == [] {
      assert Spaced(QuoteAll(args)) == "";
    } else {
      NulShows(args[0]);
      NulInSpaced(args[1..]);
      assert QuoteAll(args)[1..] == QuoteAll(args[1..]);
      assert args == [args[0]] + args[1..];
    }
  }

  /** Some text holds a NUL. */
  predicate HasNul(texts: seq<string>) { exists s | s in texts :: '\0' in s }

  lemma {:induction false} SpacedConcat(a: seq<string>, b: seq<string>)
    ensures Spaced(a + b) == Spaced(a) + Spaced(b)
  {
    if a == [] {
      assert a + b == b;
    } else {
      assert (a + b)[1..] == a[1..] + b;
      SpacedConcat(a[1..], b);
    }
  }

  predicate AllPlain(s: string) { forall c | c in s :: Plain(c) }

  lemma {:induction false} NoNulInPlain(parts: seq<string>)
    requires forall i | 0 <= i < |parts| :: AllPlain(parts[i])
    ensures '\0' !in Spaced(parts)
  {
    if parts != [] {
      assert AllPlain(parts[0]);
      assert !Plain('\0');
      NoNulInPlain(parts[1..]);
    }
  }

  lemma NulInCommand(binary: string, agent: AgentType, args: seq<string>, thenBash: bool)
    ensures '\0' in LaunchCommand(binary, agent, args, thenBash) <==> '\0' in binary || HasNul(args)
  {
    hide EscapeQuotes, Spaced, HasNul, AllPlain;
    var fixed := ["agent-launcher", "--type", agent.AsStr(), "--mode", "real", "--"];
    NulShows(binary);
    SpacedConcat(fixed, QuoteAll(args));
    NulInSpaced(args);
    assert '\0' !in Spaced(fixed) by {
      FixedIsPlain(agent);
      NoNulInPlain(fixed);
    }
  }

  lemma FixedIsPlain(agent: AgentType)
    ensures var fixed := ["agent-launcher", "--type", agent.AsStr(), "--mode", "real", "--"];
      forall i | 0 <= i < |fixed| :: AllPlain(fixed[i])
  {
  }

  /******* The launcher *******/

  function ParseAgent(raw: string): Result<AgentType, LaunchError> {
    match raw
    case "claude-code" => Ok(Claude)
    case "claude" => Ok(Claude)
    case "codex" => Ok(Codex)
    case other => Err(UnknownAgent(other))
  }

  function ParseMode(raw: string): Result<LaunchMode, LaunchError> {
    match raw
    case "real" => Ok(Real)
    case "mock" => Ok(Mock)
    case other => Err(UnknownMode(other))
  }

  /** What is left to read, given the options so far. */
  function ParseFrom(args: seq<OsArg>, agent: Option<AgentType>, mode: LaunchMode): Result<LauncherConfig, LaunchError> {
    if args == [] || args[0] == Utf8("--") then
      if agent.None? then Err(TypeRequired)
      else Ok(LauncherConfig(agent.value, mode, if args == [] then [] else args[1..]))
    else match args[0]
      case NotUtf8(_) => Err(ArgNotUtf8)
      case Utf8(option) =>
        if option != "--type" && option != "--mode" then Err(UnknownArg(option))
        else if |args| == 1 || args[1].NotUtf8? then Err(MissingValue(option))
        else if option == "--type" then
          var agent := ParseAgent(args[1].text);
          if agent.Err? then Err(agent.error) else ParseFrom(args[2..], Some(agent.value), mode)
        else
          var mode := ParseMode(args[1].text);
          if mode.Err? then Err(mode.error) else ParseFrom(args[2..], agent, mode.value)
  }

  method ParseLauncherArgs(args: seq<OsArg>) returns (r: Result<LauncherConfig, LaunchError>)
    ensures r == ParseFrom(args, None, Real)
  {
    hide ParseAgent, ParseMode;
    var agent: Option<AgentType> := None;
    var mode := Real;
    var rest: seq<OsArg> := [];
    var i := 0;
    while i < |args|
      invariant i <= |args| && rest == []
      invariant ParseFrom(args[i..], agent, mode) == ParseFrom(args, None, Real)
    {
      if args[i].NotUtf8? {
        return Err(ArgNotUtf8);
      }
      var arg := args[i].text;
      if arg == "--" {
        rest := args[i + 1..];
        break;
      }
      if arg != "--type" && arg != "--mode" {
        return Err(UnknownArg(arg));
      }
      if i + 1 == |args| || args[i + 1].NotUtf8? {
        return Err(MissingValue(arg));
      }
      assert args[i..][2..] == args[i + 2..];
      if arg == "--type" {
        var parsed := ParseAgent(args[i + 1].text);
        if parsed.Err? {
          return Err(parsed.error);
        }
        agent := Some(parsed.value);
      } else {
        var parsed := ParseMode(args[i + 1].text);
        if parsed.Err? {
          return Err(parsed.error);
        }
        mode := parsed.value;
      }
      i := i + 2;
    }
    if agent.None? {
      return Err(TypeRequired);
    }
    return Ok(LauncherConfig(agent.value, mode, rest));
  }

  /******* Which arguments the launcher accepts *******/

  datatype Setting = Setting(option: string, value: string)

  predicate Understood(o: Setting) {
    (o.option == "--type" && ParseAgent(o.value).Ok?) || (o.option == "--mode" && ParseMode(o.value).Ok?)
  }

  /** Two names for Claude, one for Codex, and two modes; of the settings so far the newest counts. */
  lemma UnderstoodExactly(o: Setting, agent: Option<AgentType>, mode: LaunchMode)
    ensures Understood(o) <==>
            || (o.option == "--type" && (o.value == "claude" || o.value == "claude-code" || o.value == "codex"))
            || (o.option == "--mode" && (o.value == "real" || o.value == "mock"))
    ensures o.option == "--type" && Understood(o) ==>
              AgentAfter(o, agent) == Some(if o.value == "codex" then Codex else Claude) && ModeAfter(o, mode) == mode
    ensures o.option == "--mode" && Understood(o) ==>
              ModeAfter(o, mode) == (if o.value == "mock" then Mock else Real) && AgentAfter(o, agent) == agent
  {
  }

  function Spelled(settings: seq<Setting>): seq<OsArg> {
    if settings == [] then []
    else [Utf8(settings[0].option), Utf8(settings[0].value)] + Spelled(settings[1..])
  }

  function AgentAfter(o: Setting, before: Option<AgentType>): Option<AgentType> {
    if o.option == "--type" && ParseAgent(o.value).Ok? then Some(ParseAgent(o.value).value) else before
  }

  function ModeAfter(o: Setting, before: LaunchMode): LaunchMode {
    if o.option == "--mode" && ParseMode(o.value).Ok? then ParseMode(o.value).value else before
  }

  /** The last setting of each kind counts. */
  function AgentSet(settings: seq<Setting>, before: Option<AgentType>): Option<AgentType> {
    if settings == [] then before else AgentSet(settings[1..], AgentAfter(settings[0], before))
  }

  function ModeSet(settings: seq<Setting>, before: LaunchMode): LaunchMode {
    if settings == [] then before else ModeSet(settings[1..], ModeAfter(settings[0], before))
  }

  /** Settings, and then nothing or `--` and anything. */
  ghost predicate IsSpelling(args: seq<OsArg>, settings: seq<Setting>, tail: seq<OsArg>) {
    && (forall o | o in settings :: Understood(o))
    && args == Spelled(settings) + tail && (tail == [] || tail[0] == Utf8("--"))
  }

  lemma {:induction false} SpellingParses(
    args: seq<OsArg>, settings: seq<Setting>, tail: seq<OsArg>, agent: Option<AgentType>, mode: LaunchMode)
    requires IsSpelling(args, settings, tail)
    ensures ParseFrom(args, agent, mode) ==
            if AgentSet(settings, agent).None? then Err(TypeRequired)
            else Ok(LauncherConfig(AgentSet(settings, agent).value, ModeSet(settings, mode), if tail == [] then [] else tail[1..]))
  {
    hide ParseAgent, ParseMode;
    if settings == [] {
      assert args == tail;
    } else {
      var o := settings[0];
      assert Understood(o);
      assert args[0] == Utf8(o.option) && args[1] == Utf8(o.value);
      assert args[2..] == Spelled(settings[1..]) + tail;
      SpellingParses(args[2..], settings[1..], tail, AgentAfter(o, agent), ModeAfter(o, mode));
    }
  }

  lemma SpelledCons(o: Setting, settings: seq<Setting>)
    ensures Spelled([o] + settings) == [Utf8(o.option), Utf8(o.value)] + Spelled(settings)
  {
    assert ([o] + settings)[1..] == settings;
  }

  /** An accepted list that is not at its end starts with an understood setting. */
  lemma FirstSetting(args: seq<OsArg>, agent: Option<AgentType>, mode: LaunchMode) returns (o: Setting)
    requires ParseFrom(args, agent, mode).Ok? && args != [] && args[0] != Utf8("--")
    ensures Understood(o) && |args| >= 2 && args[..2] == [Utf8(o.option), Utf8(o.value)]
    ensures ParseFrom(args, agent, mode) == ParseFrom(args[2..], AgentAfter(o, agent), ModeAfter(o, mode))
  {
    hide ParseAgent, ParseMode;
    o := Setting(args[0].text, args[1].text);
  }

  lemma {:induction false} ParsedIsSpelled(args: seq<OsArg>, agent: Option<AgentType>, mode: LaunchMode)
    returns (settings: seq<Setting>, tail: seq<OsArg>)
    requires ParseFrom(args, agent, mode).Ok?
    ensures IsSpelling(args, settings, tail)
  {
    hide ParseFrom, Understood, Spelled, AgentAfter, ModeAfter;
    if args == [] || args[0] == Utf8("--") {
      settings, tail := [], args;
      NothingSpelled(args);
    } else {
      var o := FirstSetting(args, agent, mode);
      settings, tail := ParsedIsSpelled(args[2..], AgentAfter(o, agent), ModeAfter(o, mode));
      SpelledCons(o, settings);
      assert args == args[..2] + args[2..];
      assert args[..2] + (Spelled(settings) + tail) == args[..2] + Spelled(settings) + tail;
      settings := [o] + settings;
    }
  }

  lemma NothingSpelled(args: seq<OsArg>)
    ensures Spelled([]) + args == args
  {
  }

  /** Accepted are exactly understood settings, one of them a type, then `--` and anything at all. */
  lemma LauncherAcceptsExactly(args: seq<OsArg>)
    ensures ParseFrom(args, None, Real).Ok? <==>
            exists settings, tail :: IsSpelling(args, settings, tail) && AgentSet(settings, None).Some?
  {
    hide IsSpelling, AgentSet;
    if ParseFrom(args, None, Real).Ok? {
      var settings, tail := ParsedIsSpelled(args, None, Real);
      SpellingParses(args, settings, tail, None, Real);
    }
    if exists settings, tail :: IsSpelling(args, settings, tail) && AgentSet(settings, None).Some? {
      var settings, tail :| IsSpelling(args, settings, tail) && AgentSet(settings, None).Some?;
      SpellingParses(args, settings, tail, None, Real);
    }
  }

  /** What is wrong with the arguments after some understood settings, if they are not at their end. */
  ghost predicate WrongAt(rest: seq<OsArg>, error: LaunchError) {
    && rest != [] && rest[0] != Utf8("--")
    && match error
       case ArgNotUtf8 => rest[0].NotUtf8?
       case UnknownArg(arg) => rest[0] == Utf8(arg) && arg != "--type" && arg != "--mode"
       case MissingValue(option) =>
         rest[0] == Utf8(option) && (option == "--type" || option == "--mode") && (|rest| == 1 || rest[1].NotUtf8?)
       case UnknownAgent(raw) =>
         |rest| > 1 && rest[0] == Utf8("--type") && rest[1] == Utf8(raw) && !Understood(Setting("--type", raw))
       case UnknownMode(raw) =>
         |rest| > 1 && rest[0] == Utf8("--mode") && rest[1] == Utf8(raw) && !Understood(Setting("--mode", raw))
       case TypeRequired => false
  }

  /** Every refusal names the first thing that is wrong; a missing type is found at the end. */
  lemma {:induction false} RefusedExactly(args: seq<OsArg>, agent: Option<AgentType>, mode: LaunchMode)
    returns (settings: seq<Setting>, rest: seq<OsArg>)
    requires ParseFrom(args, agent, mode).Err?
    ensures (forall o | o in settings :: Understood(o)) && args == Spelled(settings) + rest
    ensures var error := ParseFrom(args, agent, mode).error;
      WrongAt(rest, error) ||
      (error == TypeRequired && AgentSet(settings, agent).None? && (rest == [] || rest[0] == Utf8("--")))
  {
    hide ParseAgent, ParseMode;
    if args != [] && args[0].Utf8? && |args| > 1 && args[1].Utf8? && Understood(Setting(args[0].text, args[1].text)) {
      var o := Setting(args[0].text, args[1].text);
      OptionIsSetting(o);
      settings, rest := RefusedExactly(args[2..], AgentAfter(o, agent), ModeAfter(o, mode));
      SpelledCons(o, settings);
      assert args == [args[0], args[1]] + args[2..];
      assert [args[0], args[1]] + (Spelled(settings) + rest) == [args[0], args[1]] + Spelled(settings) + rest;
      settings := [o] + settings;
    } else {
      settings, rest := [], args;
      NothingSpelled(args);
      ParserErrors(args);
    }
  }

  lemma OptionIsSetting(o: Setting)
    requires Understood(o)
    ensures o.option == "--type" || o.option == "--mode"
    ensures o.option != "--"
  {
    hide ParseAgent, ParseMode;
  }

  lemma ParserErrors(args: seq<OsArg>)
    ensures |args| > 1 && args[1].Utf8? ==>
              && (ParseAgent(args[1].text).Err? ==> ParseAgent(args[1].text).error == UnknownAgent(args[1].text))
              && (ParseMode(args[1].text).Err? ==> ParseMode(args[1].text).error == UnknownMode(args[1].text))
  {
  }

  function Texts(words: seq<string>): (r: seq<OsArg>)
    ensures |r| == |words|
  {
    seq(|words|, i requires 0 <= i < |words| => Utf8(words[i]))
  }

  lemma {:induction false} WordsOf(words: seq<string>, tail: seq<Token>)
    requires tail != [] ==> tail[0].Operator?
    ensures FirstCommand(Words(words) + tail) == words
  {
    if words == [] {
      assert Words(words) + tail == tail;
    } else {
      WordsOf(words[1..], tail);
      assert (Words(words) + tail)[1..] == Words(words[1..]) + tail;
      assert words == [words[0]] + words[1..];
    }
  }

  /** The options the command carries, then everything after `--` untouched. */
  lemma LauncherReads(agent: AgentType, args: seq<string>)
    ensures ParseFrom(Texts(LauncherWords(agent, args)[1..]), None, Real) == Ok(LauncherConfig(agent, Real, Texts(args)))
  {
    var given := Texts(LauncherWords(agent, args)[1..]);
    assert given[0] == Utf8("--type") && given[1] == Utf8(agent.AsStr());
    assert given[2] == Utf8("--mode") && given[3] == Utf8("real") && given[4] == Utf8("--");
    assert given[2..][2..] == given[4..] && given[4..][1..] == Texts(args);
    assert given[2..][0] == given[2] && given[2..][1] == given[3] && given[4..][0] == given[4];
    assert ParseAgent(agent.AsStr()) == Ok(agent);
    assert ParseFrom(given[4..], Some(agent), Real) == Ok(LauncherConfig(agent, Real, Texts(args)));
    assert ParseFrom(given[2..], Some(agent), Real) == ParseFrom(given[4..], Some(agent), Real);
  }

  /**
   Round trip: for every agent and every argument list, the shell reads the command
   and runs the binary with words from which the launcher recovers that agent, real
   mode, and exactly those arguments; it cannot, exactly when a text holds a NUL.
   */
  lemma LaunchRoundTrip(binary: string, agent: AgentType, args: seq<string>, thenBash: bool)
    ensures var tokens := Shell(LaunchCommand(binary, agent, args, thenBash));
      && (tokens.Some? <==> '\0' !in binary && !HasNul(args))
      && (tokens.Some? ==>
            var words := FirstCommand(tokens.value);
            && words == [binary, "agent-launcher", "--type", if agent == Claude then "claude" else "codex",
                         "--mode", "real", "--"] + args
            && ParseFrom(Texts(words[2..]), None, Real) == Ok(LauncherConfig(agent, Real, Texts(args)))
            && |words| <= |tokens.value|
            && tokens.value[|words|..] == if thenBash then [Operator(";"), Word("exec"), Word("bash")] else [])
  {
    hide Lex, LaunchCommand, ParseFrom, HasNul;
    NulInCommand(binary, agent, args, thenBash);
    CommandLexes(binary, agent, args, thenBash);
    var tail := Tail(thenBash);
    var words := [binary] + LauncherWords(agent, args);
    WordsOf(words, tail);
    LauncherReads(agent, args);
    assert words[2..] == LauncherWords(agent, args)[1..];
    assert (Words(words) + tail)[|words|..] == tail;
    assert words == [binary, "agent-launcher", "--type", if agent == Claude then "claude" else "codex",
                     "--mode", "real", "--"] + args;
  }

  /** A default launch reaches the launcher as that agent, with permissions skipped. */
  lemma DefaultLaunch(binary: string, agent: AgentType, thenBash: bool)
    requires '\0' !in binary
    ensures var tokens := Shell(LaunchCommand(binary, agent, DefaultArgs(agent), thenBash));
      && tokens.Some? && |FirstCommand(tokens.value)| == 8
      && ParseFrom(Texts(FirstCommand(tokens.value)[2..]), None, Real) ==
         Ok(LauncherConfig(agent, Real, [Utf8(if agent == Claude then "--dangerously-skip-permissions" else "--yolo")]))
  {
    hide Shell, LaunchCommand, ParseFrom, FirstCommand;
    LaunchRoundTrip(binary, agent, DefaultArgs(agent), thenBash);
    assert |DefaultArgs(agent)| == 1 && '\0' !in DefaultArgs(agent)[0];
    assert Texts(DefaultArgs(agent)) == [Utf8(DefaultArgs(agent)[0])];
  }
}
