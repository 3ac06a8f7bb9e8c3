/**
 What a command means, piece by piece, against the quote-aware tokenizer (pr_agent/agent/pr_agent.py): a command
 splits exactly when it is made of such pieces, and then into what they mean.
 */
module CommandWords {
  import opened CommandTokenizer
  import opened PythonStrings
  import opened Sequences
  import opened Wrappers

  /** Between double quotes: a character, or a backslash and a character. */
  datatype Unit = Plain(c: char) | Backslash(c: char)

  /** A piece of a word: a bare character, one behind a backslash, or a quoted stretch. */
  datatype Bit = Bare(c: char) | Behind(c: char) | Single(text: string) | Double(units: seq<Unit>)

  // ----- how pieces are written -----

  function UnitText(u: Unit): string {
    match u
    case Plain(c) => [c]
    case Backslash(c) => ['\\', c]
  }

  function UnitsText(units: seq<Unit>): string {
    if units == [] then "" else UnitText(units[0]) + UnitsText(units[1..])
  }

  function BitText(b: Bit): string {
    match b
    case Bare(c) => [c]
    case Behind(c) => ['\\', c]
    case Single(text) => "'" + (text + "'")
    case Double(units) => "\"" + (UnitsText(units) + "\"")
  }

  function BitsText(bits: seq<Bit>): string {
    if bits == [] then "" else BitText(bits[0]) + BitsText(bits[1..])
  }

  /** An apostrophe opens a quote at the start of a word and right after an equals sign, and nowhere else. */
  predicate Opens(started: bool, prev: char) { !started || prev == '=' }

  ghost predicate Fits(b: Bit, started: bool, prev: char) {
    match b
    case Bare(c) => !IsSpace(c) && c != '\\' && c != '"' && (c == '\'' ==> !Opens(started, prev))
    case Behind(_) => true
    case Single(text) => Opens(started, prev) && '\'' !in text
    case Double(units) => forall u :: u in units && u.Plain? ==> u.c != '"' && u.c != '\\'
  }

  ghost predicate AllFit(bits: seq<Bit>, started: bool, prev: char) {
    bits == [] || (Fits(bits[0], started, prev) && AllFit(bits[1..], true, LastOf(BitText(bits[0]), prev)))
  }

  // ----- what they mean -----

  /** A backslash between double quotes goes only before a quote, a backslash, a dollar or a backtick. */
  function UnitMeans(u: Unit): string {
    match u
    case Plain(c) => [c]
    case Backslash(c) =>
      match c
      case '"' => "\""
      case '\\' => "\\"
      case '$' => "$"
      case '`' => "`"
      case '\n' => ""
      case _ => ['\\', c]
  }

  function UnitsMean(units: seq<Unit>): string {
    if units == [] then "" else UnitMeans(units[0]) + UnitsMean(units[1..])
  }

  function BitMeans(b: Bit): string {
    match b
    case Bare(c) => [c]
    case Behind(c) => [c]
    case Single(text) => text
    case Double(units) => UnitsMean(units)
  }

  function BitsMean(bits: seq<Bit>): string {
    if bits == [] then "" else BitMeans(bits[0]) + BitsMean(bits[1..])
  }

  predicate IsQuote(b: Bit) { b.Single? || b.Double? }

  /** A quoted stretch stands somewhere behind a bare equals sign. */
  ghost predicate QuotesValue(bits: seq<Bit>) {
    exists i, j :: 0 <= i < j < |bits| && bits[i] == Bare('=') && IsQuote(bits[j])
  }

  ghost predicate Denotes(bits: seq<Bit>, t: Token) { t.text == BitsMean(bits) && (t.quoted <==> QuotesValue(bits)) }

  // ----- words and the white space around them -----

  ghost predicate Blank(s: string) { forall k :: 0 <= k < |s| ==> IsSpace(s[k]) }

  function Lay(words: seq<seq<Bit>>, pads: seq<string>): string
    requires |pads| == |words| + 1
  {
    if words == [] then pads[0] else pads[0] + (BitsText(words[0]) + Lay(words[1..], pads[1..]))
  }

  /** Non-empty words of fitting pieces, with white space between them and perhaps around. */
  ghost predicate WellLaid(words: seq<seq<Bit>>, pads: seq<string>) {
    && |pads| == |words| + 1 && (forall k :: 0 <= k < |pads| ==> Blank(pads[k]))
    && (forall k :: 0 < k < |words| ==> pads[k] != "")
    && (forall k :: 0 <= k < |words| ==> words[k] != [] && AllFit(words[k], false, ' '))
  }

  ghost predicate AllDenote(words: seq<seq<Bit>>, tokens: seq<Token>) {
    |tokens| == |words| && forall k :: 0 <= k < |words| ==> Denotes(words[k], tokens[k])
  }

  // ----- reading pieces -----

  function QuotedAfter(bits: seq<Bit>, quoted: bool, equals: bool): bool {
    if bits == [] then quoted
    else QuotedAfter(bits[1..], if IsQuote(bits[0]) then equals else quoted, equals || bits[0] == Bare('='))
  }

  function EqualsAfter(bits: seq<Bit>, equals: bool): bool { equals || Bare('=') in bits }

  function Read(bits: seq<Bit>, s: State): State {
    State(s.tokens, s.token + BitsMean(bits), s.quote, QuotedAfter(bits, s.quoted, s.equalsSeen),
          EqualsAfter(bits, s.equalsSeen), s.started || bits != [])
  }

  lemma {:induction false} FeedSingle(text: string, rest: string, prev: char, s: State)
    requires s.quote == InSingle && '\'' !in text
    ensures Feed(text + ("'" + rest), prev, s) == Feed(rest, '\'', s.(token := s.token + text, quote := Outside))
    decreases |text|
  {
    var whole := text + ("'" + rest);
    if text == "" {
      assert whole == "'" + rest && whole[1..] == rest && s.token + text == s.token;
    } else {
      assert whole[0] == text[0] && whole[1..] == text[1..] + ("'" + rest);
      assert text[0] in text;
      FeedSingle(text[1..], rest, text[0], s.(token := s.token + [text[0]]));
      assert s.token + [text[0]] + text[1..] == s.token + text;
    }
  }

  lemma UnitIsEscaped(c: char)
    ensures UnitMeans(Backslash(c)) == Escaped(c)
  {}

  lemma {:induction false} FeedUnits(units: seq<Unit>, rest: string, prev: char, s: State)
    requires s.quote == InDouble && forall u :: u in units && u.Plain? ==> u.c != '"' && u.c != '\\'
    ensures Feed(UnitsText(units) + ("\"" + rest), prev, s)
            == Feed(rest, '"', s.(token := s.token + UnitsMean(units), quote := Outside))
    decreases |units|
  {
    var whole := UnitsText(units) + ("\"" + rest);
    if units == [] {
      assert whole == "\"" + rest && whole[1..] == rest && s.token + "" == s.token;
    } else {
      hide Escaped, UnitMeans;
      var u, tail := units[0], UnitsText(units[1..]) + ("\"" + rest);
      assert u in units;
      UnitIsEscaped(u.c);
      PlainMeans(u.c);
      assert whole == UnitText(u) + tail;
      FeedUnits(units[1..], rest, u.c, s.(token := s.token + UnitMeans(u)));
      Reassoc(s.token, UnitMeans(u), UnitsMean(units[1..]));
      if u.Plain? {
        assert whole[1..] == tail;
      } else {
        assert whole[1] == u.c && whole[2..] == tail;
      }
    }
  }

  lemma PlainMeans(c: char)
    ensures UnitMeans(Plain(c)) == [c]
  {}

  function ReadOne(b: Bit, s: State): State {
    State(s.tokens, s.token + BitMeans(b), Outside, if IsQuote(b) then s.equalsSeen else s.quoted,
          s.equalsSeen || b == Bare('='), true)
  }

  lemma FeedBare(c: char, rest: string, prev: char, s: State)
    requires s.quote == Outside && Fits(Bare(c), s.started, prev)
    ensures Feed([c] + rest, prev, s) == Feed(rest, c, ReadOne(Bare(c), s))
  {
    var whole := [c] + rest;
    assert whole[0] == c && whole[1..] == rest;
  }

  lemma FeedBehind(c: char, rest: string, prev: char, s: State)
    requires s.quote == Outside
    ensures Feed(['\\', c] + rest, prev, s) == Feed(rest, c, ReadOne(Behind(c), s))
  {
    var whole := ['\\', c] + rest;
    assert whole[0] == '\\' && whole[1] == c && whole[2..] == rest;
  }

  lemma FeedOpening(rest: string, prev: char, s: State)
    requires s.quote == Outside
    ensures Feed("\"" + rest, prev, s) == Feed(rest, '"', Open(s, InDouble))
    ensures Opens(s.started, prev) ==> Feed("'" + rest, prev, s) == Feed(rest, '\'', Open(s, InSingle))
  {
    assert ("\"" + rest)[1..] == rest && ("'" + rest)[1..] == rest;
  }

  lemma FeedBit(b: Bit, rest: string, prev: char, s: State)
    requires s.quote == Outside && Fits(b, s.started, prev)
    ensures Feed(BitText(b) + rest, prev, s) == Feed(rest, LastOf(BitText(b), prev), ReadOne(b, s))
  {
    hide Feed;
    match b
    case Bare(c) => FeedBare(c, rest, prev, s);
    case Behind(c) => FeedBehind(c, rest, prev, s);
    case Single(text) =>
      QuotedParts("'", text, "'", rest);
      FeedOpening(text + ("'" + rest), prev, s);
      FeedSingle(text, rest, '\'', Open(s, InSingle));
    case Double(units) =>
      QuotedParts("\"", UnitsText(units), "\"", rest);
      FeedOpening(UnitsText(units) + ("\"" + rest), prev, s);
      FeedUnits(units, rest, '"', Open(s, InDouble));
  }

  lemma QuotedParts(a: string, text: string, b: string, rest: string)
    ensures a + (text + b) + rest == a + (text + (b + rest))
  {}

  lemma {:induction false} FeedBits(bits: seq<Bit>, rest: string, prev: char, s: State)
    requires s.quote == Outside && AllFit(bits, s.started, prev)
    ensures Feed(BitsText(bits) + rest, prev, s) == Feed(rest, LastOf(BitsText(bits), prev), Read(bits, s))
    decreases |bits|
  {
    hide Feed, Fits, BitText, BitMeans;
    if bits == [] {
      assert BitsText(bits) + rest == rest && s.token + "" == s.token;
    } else {
      var b, more := bits[0], BitsText(bits[1..]);
      var s' := ReadOne(b, s);
      Reassoc(BitText(b), more, rest);
      FeedBit(b, more + rest, prev, s);
      FeedBits(bits[1..], rest, LastOf(BitText(b), prev), s');
      Reassoc(s.token, BitMeans(b), BitsMean(bits[1..]));
      LastOfConcat(BitText(b), more, prev);
      assert Bare('=') in bits <==> b == Bare('=') || Bare('=') in bits[1..];
    }
  }

  lemma LastOfConcat(a: string, b: string, prev: char)
    ensures LastOf(a + b, prev) == LastOf(b, LastOf(a, prev))
  {
    if b == "" {
      assert a + b == a;
    }
  }

  /** The flag at the end says whether some quote was opened behind a bare equals sign. */
  lemma {:induction false} QuotedMeans(bits: seq<Bit>, quoted: bool, equals: bool)
    requires quoted ==> equals
    ensures QuotedAfter(bits, quoted, equals)
            <==> quoted || QuotesValue(bits) || (equals && exists j :: 0 <= j < |bits| && IsQuote(bits[j]))
    decreases |bits|
  {
    if bits != [] {
      hide IsQuote;
      var b, tail := bits[0], bits[1..];
      QuotedMeans(tail, if IsQuote(b) then equals else quoted, equals || b == Bare('='));
      QuoteIn(bits);
      ValueIn(bits);
      BareIsNoQuote();
    }
  }

  lemma BareIsNoQuote()
    ensures !IsQuote(Bare('='))
  {}

  lemma QuoteIn(bits: seq<Bit>)
    requires bits != []
    ensures (exists j :: 0 <= j < |bits| && IsQuote(bits[j]))
            <==> IsQuote(bits[0]) || exists j :: 0 <= j < |bits[1..]| && IsQuote(bits[1..][j])
  {
    hide IsQuote;
    var tail := bits[1..];
    if j :| 0 <= j < |bits| && IsQuote(bits[j]) {
      if j > 0 {
        assert tail[j - 1] == bits[j];
      }
    }
    if j :| 0 <= j < |tail| && IsQuote(tail[j]) {
      assert bits[j + 1] == tail[j];
    }
  }

  lemma ValueIn(bits: seq<Bit>)
    requires bits != []
    ensures QuotesValue(bits)
            <==> QuotesValue(bits[1..])
                 || (bits[0] == Bare('=') && exists j :: 0 <= j < |bits[1..]| && IsQuote(bits[1..][j]))
  {
    hide IsQuote;
    var tail := bits[1..];
    if QuotesValue(bits) {
      var i, j :| 0 <= i < j < |bits| && bits[i] == Bare('=') && IsQuote(bits[j]);
      assert tail[j - 1] == bits[j];
      if i > 0 {
        assert tail[i - 1] == bits[i];
      }
    }
    if QuotesValue(tail) {
      var i, j :| 0 <= i < j < |tail| && tail[i] == Bare('=') && IsQuote(tail[j]);
      assert bits[i + 1] == Bare('=') && IsQuote(bits[j + 1]);
    }
    if bits[0] == Bare('=') && exists j :: 0 <= j < |tail| && IsQuote(tail[j]) {
      var j :| 0 <= j < |tail| && IsQuote(tail[j]);
      assert IsQuote(bits[j + 1]);
    }
  }

  lemma {:induction false} FeedBlank(pad: string, rest: string, prev: char, s: State)
    requires Blank(pad) && s.quote == Outside
    ensures Feed(pad + rest, prev, s) == Feed(rest, LastOf(pad, prev), if pad == "" then s else Flush(s))
    decreases |pad|
  {
    if pad == "" {
      assert pad + rest == rest;
    } else {
      var whole := pad + rest;
      assert whole[0] == pad[0] && whole[1..] == pad[1..] + rest;
      FeedBlank(pad[1..], rest, pad[0], Flush(s));
      assert LastOf(pad, prev) == LastOf(pad[1..], pad[0]);
    }
  }

  // ----- every laid out command is read back -----

  function WordToken(bits: seq<Bit>): Token { Token(BitsMean(bits), QuotedAfter(bits, false, false)) }

  lemma WordDenotes(bits: seq<Bit>)
    ensures Denotes(bits, WordToken(bits))
  {
    QuotedMeans(bits, false, false);
  }

  function WordTokens(words: seq<seq<Bit>>): seq<Token> {
    if words == [] then [] else [WordToken(words[0])] + WordTokens(words[1..])
  }

  lemma {:induction false} WordsDenote(words: seq<seq<Bit>>)
    ensures AllDenote(words, WordTokens(words))
  {
    if words != [] {
      hide Denotes, WordToken;
      WordDenotes(words[0]);
      WordsDenote(words[1..]);
    }
  }

  /** What is fitting at the start of a word does not depend on what stood before it. */
  lemma FitsAtStart(bits: seq<Bit>, prev: char)
    requires AllFit(bits, false, ' ') && bits != []
    ensures AllFit(bits, false, prev)
  {
    assert BitText(bits[0]) != "";
  }

  lemma {:induction false} FeedLaid(words: seq<seq<Bit>>, pads: seq<string>, prev: char, s: State)
    requires WellLaid(words, pads) && s.quote == Outside && (!s.started ==> s == INITIAL.(tokens := s.tokens))
    requires s.started && words != [] ==> pads[0] != ""
    ensures Finish(Feed(Lay(words, pads), prev, s)) == Ok(Flush(s).tokens + WordTokens(words))
    decreases |words|
  {
    hide Feed, AllFit, Blank, BitsText, WordToken, Read;
    var pad := pads[0];
    if words == [] {
      assert pad + "" == pad;
      FeedBlank(pad, "", prev, s);
      FeedNothing(LastOf(pad, prev), if pad == "" then s else Flush(s));
      assert Flush(Flush(s)) == Flush(s);
      assert Flush(s).tokens + [] == Flush(s).tokens;
    } else {
      var bits, rest := words[0], Lay(words[1..], pads[1..]);
      var u := if pad == "" then s else Flush(s);
      var r := Read(bits, u);
      FeedBlank(pad, BitsText(bits) + rest, prev, s);
      FitsAtStart(bits, LastOf(pad, prev));
      FeedBits(bits, rest, LastOf(pad, prev), u);
      ReadWord(bits, u);
      TailLaid(words, pads);
      FeedLaid(words[1..], pads[1..], LastOf(BitsText(bits), LastOf(pad, prev)), r);
      Reassoc(u.tokens, [WordToken(bits)], WordTokens(words[1..]));
    }
  }

  lemma ReadWord(bits: seq<Bit>, u: State)
    requires bits != [] && u == INITIAL.(tokens := u.tokens)
    ensures var r := Read(bits, u);
            r.quote == Outside && r.started && Flush(r).tokens == u.tokens + [WordToken(bits)]
  {
    assert "" + BitsMean(bits) == BitsMean(bits);
  }

  lemma TailLaid(words: seq<seq<Bit>>, pads: seq<string>)
    requires WellLaid(words, pads) && words != []
    ensures WellLaid(words[1..], pads[1..]) && (words[1..] != [] ==> pads[1..][0] != "")
  {
    hide AllFit, Blank;
  }

  /** Any words of bare, escaped and quoted pieces, however spaced, are split into what they mean. */
  lemma SplitReadsWords(words: seq<seq<Bit>>, pads: seq<string>)
    requires WellLaid(words, pads)
    ensures Split(Lay(words, pads)).Ok? && AllDenote(words, Split(Lay(words, pads)).value)
  {
    hide Feed, Denotes;
    FeedLaid(words, pads, ' ', INITIAL);
    WordsDenote(words);
    assert [] + WordTokens(words) == WordTokens(words);
  }

  // ----- and every command that splits is so laid out -----

  /** A single quote that closes at all closes at its first apostrophe. */
  lemma {:induction false} ParseSingle(rest: string, prev: char, s: State) returns (text: string, more: string)
    requires s.quote == InSingle && Finish(Feed(rest, prev, s)).Ok?
    ensures rest == text + ("'" + more) && '\'' !in text
    decreases |rest|
  {
    if rest[0] == '\'' {
      text, more := "", rest[1..];
    } else {
      var tail;
      tail, more := ParseSingle(rest[1..], rest[0], s.(token := s.token + [rest[0]]));
      text := [rest[0]] + tail;
    }
  }

  lemma {:induction false} ParseDouble(rest: string, prev: char, s: State) returns (units: seq<Unit>, more: string)
    requires s.quote == InDouble && Finish(Feed(rest, prev, s)).Ok?
    ensures rest == UnitsText(units) + ("\"" + more)
    ensures forall u :: u in units && u.Plain? ==> u.c != '"' && u.c != '\\'
    decreases |rest|
  {
    if rest[0] == '"' {
      units, more := [], rest[1..];
    } else {
      hide Escaped;
      var tail, u;
      if rest[0] == '\\' {
        u := Backslash(rest[1]);
        tail, more := ParseDouble(rest[2..], rest[1], s.(token := s.token + Escaped(rest[1])));
        assert rest == UnitText(u) + rest[2..];
      } else {
        u := Plain(rest[0]);
        tail, more := ParseDouble(rest[1..], rest[0], s.(token := s.token + [rest[0]]));
        assert rest == UnitText(u) + rest[1..];
      }
      units := [u] + tail;
      Reassoc(UnitText(u), UnitsText(tail), "\"" + more);
    }
  }

  /** The next piece, when neither the end nor white space comes next. */
  lemma ParseBit(rest: string, prev: char, s: State) returns (b: Bit, more: string)
    requires s.quote == Outside && rest != "" && !IsSpace(rest[0]) && Finish(Feed(rest, prev, s)).Ok?
    ensures Fits(b, s.started, prev) && rest == BitText(b) + more && |more| < |rest|
  {
    var c := rest[0];
    if c == '\\' {
      b, more := Behind(rest[1]), rest[2..];
    } else if c == '"' {
      var units, tail := ParseDouble(rest[1..], c, Open(s, InDouble));
      b, more := Double(units), tail;
      QuotedParts("\"", UnitsText(units), "\"", more);
      assert rest == "\"" + rest[1..];
    } else if c == '\'' && Opens(s.started, prev) {
      var text, tail := ParseSingle(rest[1..], c, Open(s, InSingle));
      b, more := Single(text), tail;
      QuotedParts("'", text, "'", more);
      assert rest == "'" + rest[1..];
    } else {
      b, more := Bare(c), rest[1..];
    }
  }

  /** The pieces up to the end or the next white space. */
  lemma {:induction false} ParseBits(rest: string, prev: char, s: State) returns (bits: seq<Bit>, more: string)
    requires s.quote == Outside && Finish(Feed(rest, prev, s)).Ok?
    ensures AllFit(bits, s.started, prev) && rest == BitsText(bits) + more
    ensures more == "" || IsSpace(more[0])
    ensures rest != "" && !IsSpace(rest[0]) ==> bits != [] && |more| < |rest|
    ensures Finish(Feed(more, LastOf(BitsText(bits), prev), Read(bits, s))).Ok?
    decreases |rest|
  {
    hide Feed, Fits, BitText, Read, ReadOne;
    if rest == "" || IsSpace(rest[0]) {
      bits, more := [], rest;
      assert "" + rest == rest;
      FeedBits([], rest, prev, s);
    } else {
      var b, next := ParseBit(rest, prev, s);
      FeedBit(b, next, prev, s);
      StaysOutside(b, s);
      var tail;
      tail, more := ParseBits(next, LastOf(BitText(b), prev), ReadOne(b, s));
      bits := [b] + tail;
      Reassoc(BitText(b), BitsText(tail), more);
      FeedBits(bits, more, prev, s);
    }
  }

  lemma StaysOutside(b: Bit, s: State)
    ensures ReadOne(b, s).quote == Outside && ReadOne(b, s).started
  {}

  lemma {:induction false} ParseBlank(rest: string) returns (pad: string, more: string)
    ensures rest == pad + more && Blank(pad) && (more == "" || !IsSpace(more[0]))
    ensures rest != "" && IsSpace(rest[0]) ==> pad != ""
  {
    if rest == "" || !IsSpace(rest[0]) {
      pad, more := "", rest;
    } else {
      var tail;
      tail, more := ParseBlank(rest[1..]);
      pad := [rest[0]] + tail;
      assert rest == [rest[0]] + rest[1..];
    }
  }

  lemma {:induction false} ParseLaid(rest: string, prev: char, s: State)
    returns (words: seq<seq<Bit>>, pads: seq<string>)
    requires s.quote == Outside && Finish(Feed(rest, prev, s)).Ok? && (!s.started ==> s == INITIAL.(tokens := s.tokens))
    requires s.started ==> rest == "" || IsSpace(rest[0])
    ensures WellLaid(words, pads) && Lay(words, pads) == rest && (s.started && words != [] ==> pads[0] != "")
    decreases |rest|
  {
    hide Feed, AllFit, Blank, BitsText, Read;
    var pad, next := ParseBlank(rest);
    var u := if pad == "" then s else Flush(s);
    FeedBlank(pad, next, prev, s);
    if next == "" {
      words, pads := [], [pad];
      assert pad + "" == pad;
    } else {
      var bits, more := ParseBits(next, LastOf(pad, prev), u);
      ReadStarts(bits, u);
      var w, p := ParseLaid(more, LastOf(BitsText(bits), LastOf(pad, prev)), Read(bits, u));
      words, pads := [bits] + w, [pad] + p;
      FitsAnywhere(bits, LastOf(pad, prev));
      LaidMore(bits, pad, w, p);
    }
  }

  lemma ReadStarts(bits: seq<Bit>, u: State)
    requires bits != []
    ensures Read(bits, u).started && Read(bits, u).quote == u.quote
  {}

  lemma FitsAnywhere(bits: seq<Bit>, prev: char)
    requires AllFit(bits, false, prev) && bits != []
    ensures AllFit(bits, false, ' ')
  {
    assert BitText(bits[0]) != "";
  }

  lemma LaidMore(bits: seq<Bit>, pad: string, words: seq<seq<Bit>>, pads: seq<string>)
    requires WellLaid(words, pads) && bits != [] && AllFit(bits, false, ' ') && Blank(pad)
    requires words != [] ==> pads[0] != ""
    ensures WellLaid([bits] + words, [pad] + pads)
    ensures Lay([bits] + words, [pad] + pads) == pad + (BitsText(bits) + Lay(words, pads))
  {
    hide AllFit, Blank, BitsText;
    assert ([bits] + words)[1..] == words && ([pad] + pads)[1..] == pads;
  }

  /** So a command splits exactly when it is laid out so, and its tokens are then what its words mean. */
  lemma SplitIsReading(command: string)
    ensures Split(command).Ok?
            <==> exists words, pads :: WellLaid(words, pads) && Lay(words, pads) == command
    ensures forall words, pads :: WellLaid(words, pads) && Lay(words, pads) == command ==>
              Split(command).Ok? && AllDenote(words, Split(command).value)
  {
    hide Feed, Denotes, AllFit, Lay;
    if Split(command).Ok? {
      var words, pads := ParseLaid(command, ' ', INITIAL);
    }
    forall words, pads | WellLaid(words, pads) && Lay(words, pads) == command
      ensures Split(command).Ok? && AllDenote(words, Split(command).value)
    {
      SplitReadsWords(words, pads);
    }
  }

  // ----- what reaches the settings parser -----

  /** A long option with a quoted value goes on with that value as a JSON string; any other word as what it means. */
  ghost predicate Delivered(json: string -> string, bits: seq<Bit>, argument: string) {
    var text := BitsMean(bits);
    if QuotesValue(bits) && "--" <= text && '=' in text then
      forall key, value :: '=' !in key && text == key + "=" + value ==> argument == key + "=" + json(value)
    else argument == text
  }

  lemma DeliversToken(json: string -> string, bits: seq<Bit>, t: Token)
    requires Denotes(bits, t)
    ensures Delivered(json, bits, Normalise(json, t))
    ensures IsSetting(t) ==> exists key, value :: '=' !in key && t.text == key + "=" + value
  {
    hide BitsMean, QuotesValue;
    if IsSetting(t) {
      var k := FirstEquals(t.text);
      FirstEqualsIs(t.text);
      assert t.text == t.text[..k] + "=" + t.text[k + 1..];
      forall key, value | '=' !in key && t.text == key + "=" + value
        ensures Normalise(json, t) == key + "=" + json(value)
      {
        KeyEndsAtEquals(key, value);
        assert t.text[..k] == key && t.text[k + 1..] == value;
      }
    }
  }

  lemma {:induction false} FirstEqualsIs(text: string)
    requires '=' in text
    ensures var k := FirstEquals(text); text[k] == '=' && '=' !in text[..k]
  {
    if text[0] != '=' {
      FirstEqualsIs(text[1..]);
      var k := FirstEquals(text);
      assert text[..k] == [text[0]] + text[1..][..k - 1];
    }
  }

  lemma {:induction false} NormalisedAt(json: string -> string, tokens: seq<Token>, k: nat)
    requires k < |tokens|
    ensures |Normalised(json, tokens)| == |tokens| && Normalised(json, tokens)[k] == Normalise(json, tokens[k])
  {
    hide Normalise;
    if |tokens| > 1 {
      NormalisedAt(json, tokens[1..], if k > 0 then k - 1 else 0);
    }
  }

  /** Of any laid out command: its first word as the action, and every other delivered, in order. */
  lemma PrepareDelivers(json: string -> string, words: seq<seq<Bit>>, pads: seq<string>)
    requires WellLaid(words, pads)
    ensures var r := Prepared(json, Split(Lay(words, pads)));
            && r.Ok? && |r.value| == |words|
            && (words != [] ==> r.value[0] == BitsMean(words[0]))
            && (forall k :: 1 <= k < |words| ==> Delivered(json, words[k], r.value[k]))
  {
    hide Split, Lay, AllFit, Normalise, BitsMean, QuotesValue, Delivered, Normalised;
    SplitReadsWords(words, pads);
    var tokens := Split(Lay(words, pads)).value;
    var r := Prepared(json, Split(Lay(words, pads)));
    if words != [] {
      assert Denotes(words[0], tokens[0]);
      NoneNormalised(json);
      forall k | 1 <= k < |words| ensures |r.value| == |words| && Delivered(json, words[k], r.value[k]) {
        NormalisedAt(json, tokens[1..], k - 1);
        assert Denotes(words[k], tokens[k]);
        DeliversToken(json, words[k], tokens[k]);
      }
      if |words| == 1 {
        assert tokens[1..] == [];
      } else {
        NormalisedAt(json, tokens[1..], 0);
      }
    }
  }

  lemma NoneNormalised(json: string -> string)
    ensures Normalised(json, []) == []
  {}
}
