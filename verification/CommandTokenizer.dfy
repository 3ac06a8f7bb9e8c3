/**
 The quote-aware command tokenizer (pr_agent/agent/pr_agent.py) and the printer it undoes.
 */
module CommandTokenizer {
  import opened PythonStrings
  import opened Sequences
  import opened Wrappers

  datatype Token = Token(text: string, quoted: bool)

  datatype Quote = Outside | InSingle | InDouble

  datatype State = State(
    tokens: seq<Token>, token: string, quote: Quote, quoted: bool, equalsSeen: bool, started: bool)

  const INITIAL := State([], "", Outside, false, false, false)

  datatype Failure = NoEscapedCharacter | NoClosingQuotation

  function Flush(s: State): State {
    State(if s.started then s.tokens + [Token(s.token, s.quoted)] else s.tokens, "", s.quote, false, false, false)
  }

  function Put(s: State, text: string): State { s.(token := s.token + text, started := true) }

  function Open(s: State, q: Quote): State { s.(quote := q, quoted := s.equalsSeen, started := true) }

  /** What a backslash and the character after it mean between double quotes. */
  function Escaped(c: char): string {
    if c == '"' || c == '\\' || c == '$' || c == '`' then [c] else if c == '\n' then "" else ['\\', c]
  }

  /** Reading on from a state; `prev` is the character before. A backslash at the end reads nothing. */
  function Feed(rest: string, prev: char, s: State): Option<State>
    decreases |rest|
  {
    if rest == "" then Some(s)
    else
      var c := rest[0];
      match s.quote
      case Outside =>
        if IsSpace(c) then Feed(rest[1..], c, Flush(s))
        else if c == '\\' then
          if |rest| < 2 then None else Feed(rest[2..], rest[1], Put(s, [rest[1]]))
        else if c == '=' then Feed(rest[1..], c, Put(s, [c]).(equalsSeen := true))
        else if c == '"' then Feed(rest[1..], c, Open(s, InDouble))
        else if c == '\'' && (!s.started || prev == '=') then Feed(rest[1..], c, Open(s, InSingle))
        else Feed(rest[1..], c, Put(s, [c]))
      case InSingle =>
        Feed(rest[1..], c, if c == '\'' then s.(quote := Outside) else s.(token := s.token + [c]))
      case InDouble =>
        if c == '"' then Feed(rest[1..], c, s.(quote := Outside))
        else if c == '\\' then
          if |rest| < 2 then None else Feed(rest[2..], rest[1], s.(token := s.token + Escaped(rest[1])))
        else Feed(rest[1..], c, s.(token := s.token + [c]))
  }

  function Finish(s: Option<State>): Result<seq<Token>, Failure> {
    if s.None? then Err(NoEscapedCharacter)
    else if s.value.quote != Outside then Err(NoClosingQuotation)
    else Ok(Flush(s.value).tokens)
  }

  function Split(command: string): Result<seq<Token>, Failure> { Finish(Feed(command, ' ', INITIAL)) }

  /** The tokenizer's loop. */
  method SplitCommand(command: string) returns (r: Result<seq<Token>, Failure>)
    ensures r == Split(command)
  {
    var tokens: seq<Token>, token := [], "";
    var quote := Outside;
    var quoted, equalsSeen, started := false, false, false;
    var index := 0;
    assert command[0..] == command;
    while index < |command|
      invariant 0 <= index <= |command| && (index == 0 ==> !started && quote == Outside)
      invariant Feed(command[index..], if index == 0 then ' ' else command[index - 1],
                     State(tokens, token, quote, quoted, equalsSeen, started)) == Feed(command, ' ', INITIAL)
    {
      var c := command[index];
      assert command[index..][1..] == command[index + 1..];
      assert index + 2 <= |command| ==> command[index..][2..] == command[index + 2..];
      match quote {
        case Outside =>
          if IsSpace(c) {
            if started {
              tokens := tokens + [Token(token, quoted)];
            }
            token, equalsSeen, started, quoted := "", false, false, false;
          } else if c == '\\' {
            if index + 1 >= |command| {
              return Err(NoEscapedCharacter);
            }
            token := token + [command[index + 1]];
            started := true;
            index := index + 1;
          } else if c == '=' {
            token := token + [c];
            equalsSeen, started := true, true;
          } else if c == '"' {
            quote := InDouble;
            quoted, started := equalsSeen, true;
          } else if c == '\'' && (!started || command[index - 1] == '=') {
            quote := InSingle;
            quoted, started := equalsSeen, true;
          } else {
            token := token + [c];
            started := true;
          }
        case InSingle =>
          if c == '\'' {
            quote := Outside;
          } else {
            token := token + [c];
          }
        case InDouble =>
          if c == '"' {
            quote := Outside;
          } else if c == '\\' {
            if index + 1 >= |command| {
              return Err(NoEscapedCharacter);
            }
            var escaped := command[index + 1];
            assert token + "" == token;
            if escaped == '"' || escaped == '\\' || escaped == '$' || escaped == '`' {
              token := token + [escaped];
            } else if escaped != '\n' {
              token := token + ['\\', escaped];
            }
            index := index + 1;
          } else {
            token := token + [c];
          }
      }
      index := index + 1;
    }
    if quote != Outside {
      return Err(NoClosingQuotation);
    }
    if started {
      tokens := tokens + [Token(token, quoted)];
    }
    r := Ok(tokens);
  }

  // ----- reading in pieces -----

  function LastOf(s: string, prev: char): char { if s == "" then prev else s[|s| - 1] }

  lemma {:induction false} FeedConcat(a: string, b: string, prev: char, s: State)
    requires Feed(a, prev, s).Some?
    ensures Feed(a + b, prev, s) == Feed(b, LastOf(a, prev), Feed(a, prev, s).value)
    decreases |a|
  {
    if a == "" {
      assert a + b == b;
    } else {
      assert (a + b)[0] == a[0] && (a + b)[1..] == a[1..] + b;
      assert LastOf(a, prev) == LastOf(a[1..], a[0]);
      if a[0] == '\\' && s.quote != InSingle && !(s.quote == Outside && IsSpace(a[0])) {
        assert (a + b)[1] == a[1] && (a + b)[2..] == a[2..] + b;
        assert LastOf(a, prev) == LastOf(a[2..], a[1]);
        var next := if s.quote == Outside then Put(s, [a[1]]) else s.(token := s.token + Escaped(a[1]));
        FeedConcat(a[2..], b, a[1], next);
      } else {
        FeedConcat(a[1..], b, a[0], Step(a[0], prev, s));
      }
    }
  }

  /** Reading one character that is not an escaping backslash. */
  function Step(c: char, prev: char, s: State): State {
    match s.quote
    case Outside =>
      if IsSpace(c) then Flush(s)
      else if c == '=' then Put(s, [c]).(equalsSeen := true)
      else if c == '"' then Open(s, InDouble)
      else if c == '\'' && (!s.started || prev == '=') then Open(s, InSingle)
      else Put(s, [c])
    case InSingle => if c == '\'' then s.(quote := Outside) else s.(token := s.token + [c])
    case InDouble => if c == '"' then s.(quote := Outside) else s.(token := s.token + [c])
  }

  // ----- the printer -----

  function EscapeText(text: string): string {
    if text == "" then ""
    else (if text[0] in "\"\\$`" then ['\\', text[0]] else [text[0]]) + EscapeText(text[1..])
  }

  function Quoted(text: string): string { "\"" + EscapeText(text) + "\"" }

  /** An argument to print: any text, or a setting whose value must stay a string. */
  datatype Argument = Text(text: string) | Setting(key: string, value: string)

  predicate PlainKey(key: string) {
    forall k :: 0 <= k < |key| ==> !IsSpace(key[k]) && key[k] !in "\\\"="
  }

  function PrintOne(a: Argument): string {
    match a
    case Text(text) => Quoted(text)
    case Setting(key, value) => "--" + key + "=" + Quoted(value)
  }

  function Print(arguments: seq<Argument>): string {
    if arguments == [] then ""
    else if |arguments| == 1 then PrintOne(arguments[0])
    else PrintOne(arguments[0]) + " " + Print(arguments[1..])
  }

  function Meaning(a: Argument): Token {
    match a
    case Text(text) => Token(text, false)
    case Setting(key, value) => Token("--" + key + "=" + value, true)
  }

  function Meanings(arguments: seq<Argument>): seq<Token> {
    if arguments == [] then [] else [Meaning(arguments[0])] + Meanings(arguments[1..])
  }

  predicate Printable(a: Argument) { a.Setting? ==> PlainKey(a.key) }

  // ----- the tokenizer undoes the printer -----

  lemma {:induction false} FeedEscaped(text: string, rest: string, prev: char, s: State)
    requires s.quote == InDouble
    ensures Feed(EscapeText(text) + "\"" + rest, prev, s)
            == Feed(rest, '"', s.(token := s.token + text, quote := Outside))
    decreases |text|
  {
    var whole := EscapeText(text) + "\"" + rest;
    if text == "" {
      assert whole == "\"" + rest && whole[1..] == rest;
      assert s.token + text == s.token;
    } else {
      var c, tail := text[0], EscapeText(text[1..]) + "\"" + rest;
      assert s.token + [c] + text[1..] == s.token + text;
      if c in "\"\\$`" {
        assert whole == ['\\', c] + tail && whole[2..] == tail && whole[1] == c;
        FeedEscaped(text[1..], rest, c, s.(token := s.token + [c]));
      } else {
        assert whole == [c] + tail && whole[1..] == tail;
        assert c != '"' && c != '\\' by {
          assert "\"\\$`"[0] == '"' && "\"\\$`"[1] == '\\';
        }
        FeedEscaped(text[1..], rest, c, s.(token := s.token + [c]));
      }
    }
  }

  lemma FeedQuoted(text: string, rest: string, prev: char, s: State)
    requires s.quote == Outside
    ensures Feed(Quoted(text) + rest, prev, s)
            == Feed(rest, '"', s.(token := s.token + text, quoted := s.equalsSeen, started := true))
  {
    var whole := Quoted(text) + rest;
    assert whole[0] == '"' && whole[1..] == EscapeText(text) + "\"" + rest;
    FeedEscaped(text, rest, '"', Open(s, InDouble));
  }

  lemma {:induction false} FeedKey(key: string, rest: string, prev: char, s: State)
    requires PlainKey(key) && s.quote == Outside && s.started && prev != '='
    ensures Feed(key + rest, prev, s) == Feed(rest, LastOf(key, prev), s.(token := s.token + key))
    ensures LastOf(key, prev) != '='
    decreases |key|
  {
    if key == "" {
      assert key + rest == rest && s.token + key == s.token;
    } else {
      var c := key[0];
      assert (key + rest)[0] == c && (key + rest)[1..] == key[1..] + rest;
      assert c != '\\' && c != '"' && c != '=' by {
        assert "\\\"="[0] == '\\' && "\\\"="[1] == '"' && "\\\"="[2] == '=';
      }
      FeedKey(key[1..], rest, c, Put(s, [c]));
      assert s.token + [c] + key[1..] == s.token + key;
      assert LastOf(key, prev) == LastOf(key[1..], c);
    }
  }

  /** The state after a printed argument: its token is complete, not yet flushed. */
  function After(a: Argument, tokens: seq<Token>): State {
    State(tokens, Meaning(a).text, Outside, Meaning(a).quoted, a.Setting?, true)
  }

  lemma FeedSetting(key: string, value: string, rest: string, prev: char, tokens: seq<Token>)
    requires PlainKey(key)
    ensures Feed(PrintOne(Setting(key, value)) + rest, prev, INITIAL.(tokens := tokens))
            == Feed(rest, '"', After(Setting(key, value), tokens))
  {
    hide PlainKey, Quoted;
    var s := INITIAL.(tokens := tokens);
    var after := "=" + (Quoted(value) + rest);
    var whole := PrintOne(Setting(key, value)) + rest;
    assert whole == "--" + (key + after);
    var dashes := Put(Put(s, "-"), "-");
    assert dashes.token == "--";
    FeedDashes(key + after, prev, s);
    FeedKey(key, after, '-', dashes);
    var named := dashes.(token := "--" + key);
    FeedEquals(Quoted(value) + rest, LastOf(key, '-'), named);
    FeedQuoted(value, rest, '=', Put(named, "=").(equalsSeen := true));
    assert "--" + key + "=" + value == ("--" + key) + "=" + value;
  }

  lemma FeedDashes(rest: string, prev: char, s: State)
    requires s.quote == Outside
    ensures Feed("--" + rest, prev, s) == Feed(rest, '-', Put(Put(s, "-"), "-"))
  {
    var whole := "--" + rest;
    assert whole[1..] == "-" + rest && whole[1..][1..] == rest;
  }

  lemma FeedEquals(rest: string, prev: char, s: State)
    requires s.quote == Outside
    ensures Feed("=" + rest, prev, s) == Feed(rest, '=', Put(s, "=").(equalsSeen := true))
  {
    assert ("=" + rest)[1..] == rest;
  }

  /** Reading one printed argument from between tokens gives its token. */
  lemma FeedArgument(a: Argument, rest: string, prev: char, tokens: seq<Token>)
    requires Printable(a)
    ensures Feed(PrintOne(a) + rest, prev, INITIAL.(tokens := tokens)) == Feed(rest, '"', After(a, tokens))
  {
    match a
    case Text(text) =>
      hide Feed;
      FeedQuoted(text, rest, prev, INITIAL.(tokens := tokens));
      assert "" + text == text;
    case Setting(key, value) =>
      FeedSetting(key, value, rest, prev, tokens);
  }

  lemma PrintParts(arguments: seq<Argument>)
    requires arguments != []
    ensures Print(arguments)
            == PrintOne(arguments[0]) + (if |arguments| == 1 then "" else " " + Print(arguments[1..]))
  {}

  lemma {:induction false} FeedPrinted(arguments: seq<Argument>, prev: char, tokens: seq<Token>)
    requires forall k :: 0 <= k < |arguments| ==> Printable(arguments[k])
    ensures Finish(Feed(Print(arguments), prev, INITIAL.(tokens := tokens))) == Ok(tokens + Meanings(arguments))
    decreases |arguments|
  {
    hide Feed, Print, PrintOne, Meaning, Printable;
    if arguments == [] {
      assert tokens + [] == tokens;
      FeedNothing(prev, INITIAL.(tokens := tokens));
      PrintNothing();
    } else {
      var a, rest := arguments[0], arguments[1..];
      PrintParts(arguments);
      var s := After(a, tokens);
      assert Flush(s) == INITIAL.(tokens := tokens + [Meaning(a)]);
      if |arguments| == 1 {
        FeedArgument(a, "", prev, tokens);
        FeedNothing('"', s);
        assert Meanings(rest) == [] && [Meaning(a)] + [] == [Meaning(a)];
      } else {
        FeedArgument(a, " " + Print(rest), prev, tokens);
        FeedSpace(Print(rest), '"', s);
        FeedPrinted(rest, ' ', tokens + [Meaning(a)]);
        Reassoc(tokens, [Meaning(a)], Meanings(rest));
      }
    }
  }

  lemma PrintNothing()
    ensures Print([]) == ""
  {}

  lemma FeedNothing(prev: char, s: State)
    ensures Feed("", prev, s) == Some(s)
  {}

  lemma FeedSpace(rest: string, prev: char, s: State)
    requires s.quote == Outside
    ensures Feed(" " + rest, prev, s) == Feed(rest, ' ', Flush(s))
  {
    assert (" " + rest)[1..] == rest;
  }

  /** Any list of arguments, empty texts included, survives printing and tokenizing. */
  lemma SplitUndoesPrint(arguments: seq<Argument>)
    requires forall k :: 0 <= k < |arguments| ==> Printable(arguments[k])
    ensures Split(Print(arguments)) == Ok(Meanings(arguments))
  {
    FeedPrinted(arguments, ' ', []);
    assert [] + Meanings(arguments) == Meanings(arguments);
  }

  // ----- failures -----

  /** Reading fails only on a last backslash: with one more character it does not. */
  lemma {:induction false} OnlyALastBackslashFails(a: string, c: char, prev: char, s: State)
    requires Feed(a, prev, s).None?
    ensures a != "" && a[|a| - 1] == '\\'
    ensures Feed(a + [c], prev, s).Some?
    decreases |a|
  {
    assert (a + [c])[0] == a[0] && (a + [c])[1..] == a[1..] + [c];
    if a[0] == '\\' && s.quote != InSingle {
      if |a| == 1 {
        assert (a + [c])[1] == c && (a + [c])[2..] == "";
      } else {
        assert (a + [c])[1] == a[1] && (a + [c])[2..] == a[2..] + [c];
        var next := if s.quote == Outside then Put(s, [a[1]]) else s.(token := s.token + Escaped(a[1]));
        OnlyALastBackslashFails(a[2..], c, a[1], next);
      }
    } else {
      OnlyALastBackslashFails(a[1..], c, a[0], Step(a[0], prev, s));
    }
  }

  function QuoteMark(q: Quote): string {
    match q
    case Outside => ""
    case InSingle => "'"
    case InDouble => "\""
  }

  lemma CloseQuote(prev: char, s: State)
    ensures Finish(Feed(QuoteMark(s.quote), prev, s)).Ok?
  {}

  /** What is missing from a command that fails: the character after a last backslash, then the quote. */
  function Missing(command: string): string {
    var patch := if Feed(command, ' ', INITIAL).None? then "\\" else "";
    var s := Feed(command + patch, ' ', INITIAL);
    patch + (if s.None? then "" else QuoteMark(s.value.quote))
  }

  /**
   A command fails exactly when it ends inside a quote or in an escaping backslash, and completing that
   makes it succeed; nothing else is ever refused.
   */
  lemma FailuresAreIncomplete(command: string)
    ensures Split(command) == Err(NoEscapedCharacter) ==> command != "" && command[|command| - 1] == '\\'
    ensures |Missing(command)| <= 2 && Split(command + Missing(command)).Ok?
    ensures Split(command).Ok? <==> Missing(command) == ""
  {
    var patch := if Feed(command, ' ', INITIAL).None? then "\\" else "";
    if Feed(command, ' ', INITIAL).None? {
      OnlyALastBackslashFails(command, '\\', ' ', INITIAL);
    } else {
      assert command + patch == command;
    }
    var s := Feed(command + patch, ' ', INITIAL).value;
    FeedConcat(command + patch, QuoteMark(s.quote), ' ', INITIAL);
    CloseQuote(LastOf(command + patch, ' '), s);
    assert command + patch + QuoteMark(s.quote) == command + Missing(command);
  }

  // ----- preparing arguments -----

  predicate IsSetting(t: Token) { t.quoted && |t.text| >= 2 && t.text[..2] == "--" && '=' in t.text }

  function FirstEquals(text: string): nat
    requires '=' in text
    ensures FirstEquals(text) < |text|
  {
    if text[0] == '=' then 0 else 1 + FirstEquals(text[1..])
  }

  /** A quoted setting value is written as a JSON string, so that it stays a string. */
  function Normalise(json: string -> string, t: Token): string {
    if IsSetting(t) then
      var k := FirstEquals(t.text);
      t.text[..k] + "=" + json(t.text[k + 1..])
    else t.text
  }

  lemma {:induction false} KeyEndsAtEquals(key: string, value: string)
    requires '=' !in key
    ensures '=' in key + "=" + value && FirstEquals(key + "=" + value) == |key|
  {
    var text := key + "=" + value;
    assert text[|key|] == '=';
    if key != "" {
      assert text[0] == key[0] && text[1..] == key[1..] + "=" + value;
      KeyEndsAtEquals(key[1..], value);
    }
  }

  function Normalised(json: string -> string, tokens: seq<Token>): seq<string> {
    if tokens == [] then [] else [Normalise(json, tokens[0])] + Normalised(json, tokens[1..])
  }

  /** The action's text as it is, then the arguments; nothing for an empty command. */
  function Prepared(json: string -> string, r: Result<seq<Token>, Failure>): Result<seq<string>, Failure> {
    match r
    case Err(e) => Err(e)
    case Ok(tokens) => Ok(if tokens == [] then [] else [tokens[0].text] + Normalised(json, tokens[1..]))
  }

  method PrepareCommand(json: string -> string, command: string) returns (r: Result<seq<string>, Failure>)
    ensures r == Prepared(json, Split(command))
  {
    hide Split;
    var split := SplitCommand(command);
    if split.Err? {
      return Err(split.error);
    }
    var tokens := split.value;
    if tokens == [] {
      return Ok([]);
    }
    var arguments: seq<string> := [];
    var rest := tokens[1..];
    var k := 0;
    assert rest[0..] == rest && [] + Normalised(json, rest) == Normalised(json, rest);
    while k < |rest|
      invariant 0 <= k <= |rest|
      invariant arguments + Normalised(json, rest[k..]) == Normalised(json, rest)
    {
      assert rest[k..][1..] == rest[k + 1..];
      var t := rest[k];
      var argument := t.text;
      if t.quoted && |argument| >= 2 && argument[..2] == "--" && '=' in argument {
        var n := FirstEquals(argument);
        argument := argument[..n] + "=" + json(argument[n + 1..]);
      }
      Reassoc(arguments, [argument], Normalised(json, rest[k + 1..]));
      arguments := arguments + [argument];
      k := k + 1;
    }
    assert arguments + [] == arguments;
    r := Ok([tokens[0].text] + arguments);
  }

  lemma KeyHasNoEquals(key: string)
    requires PlainKey(key)
    ensures '=' !in "--" + key
  {
    forall k | 0 <= k < |"--" + key| ensures ("--" + key)[k] != '=' {
      if k >= 2 {
        assert ("--" + key)[k] == key[k - 2];
        assert "\\\"="[2] == '=';
      }
    }
  }

  /** A printed setting reaches the settings parser as its key and its value, the value as a JSON string. */
  lemma SettingsKeepTheirText(json: string -> string, a: Argument)
    requires Printable(a)
    ensures Normalise(json, Meaning(a)) == match a
      case Text(text) => text
      case Setting(key, value) => "--" + key + "=" + json(value)
  {
    if a.Setting? {
      var key := "--" + a.key;
      KeyHasNoEquals(a.key);
      var text := key + "=" + a.value;
      KeyEndsAtEquals(key, a.value);
      assert Meaning(a).text == text && text[..2] == "--" && text[..|key|] == key && text[|key| + 1..] == a.value;
    }
  }

  function Wanted(json: string -> string, arguments: seq<Argument>): seq<string> {
    if arguments == [] then []
    else
      var first := match arguments[0]
        case Text(text) => text
        case Setting(key, value) => "--" + key + "=" + json(value);
      [first] + Wanted(json, arguments[1..])
  }

  lemma {:induction false} SettingsKeepTheirTexts(json: string -> string, arguments: seq<Argument>)
    requires forall k :: 0 <= k < |arguments| ==> Printable(arguments[k])
    ensures Normalised(json, Meanings(arguments)) == Wanted(json, arguments)
  {
    hide Normalise, Meaning, Printable;
    if arguments != [] {
      SettingsKeepTheirText(json, arguments[0]);
      SettingsKeepTheirTexts(json, arguments[1..]);
      assert ([Meaning(arguments[0])] + Meanings(arguments[1..]))[1..] == Meanings(arguments[1..]);
    }
  }

  /** A printed command is prepared to its action and exactly the arguments that were printed. */
  lemma PrepareUndoesPrint(json: string -> string, action: string, arguments: seq<Argument>)
    requires forall k :: 0 <= k < |arguments| ==> Printable(arguments[k])
    ensures Prepared(json, Split(Print([Text(action)] + arguments))) == Ok([action] + Wanted(json, arguments))
  {
    hide Split, Print, Normalised, Wanted;
    var all := [Text(action)] + arguments;
    SplitUndoesPrint(all);
    assert all[1..] == arguments;
    SettingsKeepTheirTexts(json, arguments);
    assert ([Token(action, false)] + Meanings(arguments))[1..] == Meanings(arguments);
  }
}
