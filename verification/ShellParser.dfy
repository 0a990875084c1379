/** The interactive shell's command parser (buster/shell/parser.py): quote-aware tokens, options and arguments. */
module ShellParser {
  import opened Text

  predicate IsQuote(c: char) { c == '"' || c == '\'' }

  // ---------------------------------------------------------------- tokens

  /** The tokens of the rest of a line, with a token begun in `buffer` and possibly an open quote. */
  function Scan(line: string, buffer: string, quote: Option<char>): seq<string>
    decreases |line|
  {
    if line == "" then (if buffer == "" then [] else [buffer])
    else
      var (ch, rest) := (line[0], line[1..]);
      if quote.Some? then Scan(rest, buffer + [ch], if ch == quote.value then None else quote)
      else if IsQuote(ch) then Scan(rest, buffer + [ch], Some(ch))
      else if IsSpace(ch) then (if buffer == "" then [] else [buffer]) + Scan(rest, "", None)
      else Scan(rest, buffer + [ch], None)
  }

  function Tokens(line: string): seq<string> { Scan(line, "", None) }

  method Tokenize(line: string) returns (tokens: seq<string>)
    ensures tokens == Tokens(line)
  {
    hide IsSpace, IsQuote;
    tokens := [];
    var buffer := "";
    var quote: Option<char> := None;
    var i := 0;
    assert line[0..] == line;
    while i < |line|
      invariant 0 <= i <= |line|
      invariant Tokens(line) == tokens + Scan(line[i..], buffer, quote)
    {
      var ch := line[i];
      assert line[i..][0] == ch && line[i..][1..] == line[i + 1..];
      if quote.Some? {
        buffer := buffer + [ch];
        if ch == quote.value { quote := None; }
      } else if IsQuote(ch) {
        quote := Some(ch);
        buffer := buffer + [ch];
      } else if IsSpace(ch) {
        if buffer != "" {
          tokens := tokens + [buffer];
          buffer := "";
        }
      } else {
        buffer := buffer + [ch];
      }
      i := i + 1;
    }
    assert line[i..] == "";
    if buffer != "" { tokens := tokens + [buffer]; }
  }

  // ---------------------------------------------------------------- what tokens are

  /** The quote open after `s`, if `quote` is open before it. */
  function OpenAfter(s: string, quote: Option<char>): Option<char> {
    if s == "" then quote
    else
      OpenAfter(s[1..],
        if quote.Some? then (if s[0] == quote.value then None else quote)
        else if IsQuote(s[0]) then Some(s[0]) else None)
  }

  /** No whitespace outside quotes. */
  predicate Solid(s: string, quote: Option<char>) {
    s == ""
    || ((quote.Some? || IsQuote(s[0]) || !IsSpace(s[0])) && Solid(s[1..], OpenAfter([s[0]], quote)))
  }

  /** The line without the whitespace outside quotes. */
  function Visible(s: string, quote: Option<char>): string {
    if s == "" then ""
    else
      (if quote.Some? || IsQuote(s[0]) || !IsSpace(s[0]) then [s[0]] else "")
      + Visible(s[1..], OpenAfter([s[0]], quote))
  }

  function Concat(tokens: seq<string>): string {
    if tokens == [] then "" else tokens[0] + Concat(tokens[1..])
  }

  lemma OpenAfterOne(c: char, quote: Option<char>)
    ensures OpenAfter([c], quote) ==
              if quote.Some? then (if c == quote.value then None else quote) else if IsQuote(c) then Some(c) else None
  {
    assert [c][1..] == "";
  }

  lemma {:induction false} OpenAfterAppend(s: string, t: string, quote: Option<char>)
    ensures OpenAfter(s + t, quote) == OpenAfter(t, OpenAfter(s, quote))
  {
    hide IsQuote;
    if s == "" {
      assert s + t == t;
    } else {
      assert (s + t)[1..] == s[1..] + t;
      OpenAfterOne(s[0], quote);
      OpenAfterAppend(s[1..], t, OpenAfter([s[0]], quote));
    }
  }

  lemma {:induction false} SolidAppend(s: string, t: string, quote: Option<char>)
    requires Solid(s, quote) && Solid(t, OpenAfter(s, quote))
    ensures Solid(s + t, quote)
  {
    hide IsQuote, IsSpace;
    if s == "" {
      assert s + t == t;
    } else {
      assert (s + t)[1..] == s[1..] + t;
      OpenAfterOne(s[0], quote);
      SolidAppend(s[1..], t, OpenAfter([s[0]], quote));
    }
  }

  /** Reading over solid text only fills the buffer. */
  lemma {:induction false} ScanSolid(s: string, rest: string, buffer: string, quote: Option<char>)
    requires Solid(s, quote)
    ensures Scan(s + rest, buffer, quote) == Scan(rest, buffer + s, OpenAfter(s, quote))
    decreases |s|
  {
    hide IsQuote, IsSpace;
    if s == "" {
      assert s + rest == rest && buffer + s == buffer;
    } else {
      assert (s + rest)[0] == s[0] && (s + rest)[1..] == s[1..] + rest;
      OpenAfterOne(s[0], quote);
      var quote' := OpenAfter([s[0]], quote);
      assert Scan(s + rest, buffer, quote) == Scan(s[1..] + rest, buffer + [s[0]], quote');
      ScanSolid(s[1..], rest, buffer + [s[0]], quote');
      assert buffer + [s[0]] + s[1..] == buffer + s;
    }
  }

  /** A token: not empty, solid, and with its quotes closed if another token follows. */
  ghost predicate TokenList(tokens: seq<string>) {
    forall i :: 0 <= i < |tokens| ==>
      tokens[i] != "" && Solid(tokens[i], None) && (i < |tokens| - 1 ==> OpenAfter(tokens[i], None) == None)
  }

  lemma {:induction false} ScanGivesTokens(line: string, buffer: string, quote: Option<char>)
    requires Solid(buffer, None) && OpenAfter(buffer, None) == quote
    ensures TokenList(Scan(line, buffer, quote))
    decreases |line|
  {
    hide IsQuote, IsSpace;
    if line != "" {
      var (ch, rest) := (line[0], line[1..]);
      OpenAfterOne(ch, quote);
      OpenAfterAppend(buffer, [ch], None);
      if quote.Some? || IsQuote(ch) || !IsSpace(ch) {
        assert [ch][1..] == "";
        SolidAppend(buffer, [ch], None);
        ScanGivesTokens(rest, buffer + [ch], OpenAfter([ch], quote));
      } else {
        ScanGivesTokens(rest, "", None);
      }
    }
  }

  lemma {:induction false} ScanJoined(tokens: seq<string>)
    requires TokenList(tokens)
    ensures Tokens(JoinWith(tokens, " ")) == tokens
  {
    hide Solid, OpenAfter;
    if |tokens| == 1 {
      assert tokens[0] + "" == tokens[0] && "" + tokens[0] == tokens[0];
      ScanSolid(tokens[0], "", "", None);
    } else if |tokens| > 1 {
      var rest := " " + JoinWith(tokens[1..], " ");
      assert JoinWith(tokens, " ") == tokens[0] + rest && "" + tokens[0] == tokens[0];
      ScanSolid(tokens[0], rest, "", None);
      assert rest[1..] == JoinWith(tokens[1..], " ");
      assert Scan(rest, tokens[0], None) == [tokens[0]] + Tokens(JoinWith(tokens[1..], " "));
      assert TokenList(tokens[1..]);
      ScanJoined(tokens[1..]);
    }
  }

  /** Tokenizing the tokens of any line joined by spaces, unclosed quotes included, gives the same tokens. */
  lemma TokenizeAgain(line: string)
    ensures Tokens(JoinWith(Tokens(line), " ")) == Tokens(line)
  {
    hide Scan;
    ScanGivesTokens(line, "", None);
    ScanJoined(Tokens(line));
  }

  lemma ConcatAppend(first: string, tokens: seq<string>)
    ensures Concat((if first == "" then [] else [first]) + tokens) == first + Concat(tokens)
  {
    if first == "" {
      assert [] + tokens == tokens;
    } else {
      assert ([first] + tokens)[1..] == tokens;
    }
  }

  lemma {:induction false} ScanKeepsText(line: string, buffer: string, quote: Option<char>)
    ensures Concat(Scan(line, buffer, quote)) == buffer + Visible(line, quote)
    decreases |line|
  {
    hide IsQuote, IsSpace;
    if line == "" {
      ConcatAppend(buffer, []);
      assert (if buffer == "" then [] else [buffer]) + [] == (if buffer == "" then [] else [buffer]);
    } else {
      var (ch, rest) := (line[0], line[1..]);
      OpenAfterOne(ch, quote);
      if quote.Some? || IsQuote(ch) || !IsSpace(ch) {
        ScanKeepsText(rest, buffer + [ch], OpenAfter([ch], quote));
        assert Visible(line, quote) == [ch] + Visible(rest, OpenAfter([ch], quote));
        assert buffer + [ch] + Visible(rest, OpenAfter([ch], quote)) == buffer + Visible(line, quote);
      } else {
        ScanKeepsText(rest, "", None);
        ConcatAppend(buffer, Scan(rest, "", None));
        assert Visible(line, quote) == "" + Visible(rest, None);
        assert "" + Visible(rest, None) == Visible(rest, None);
      }
    }
  }

  /** The tokens together are the line without the whitespace outside quotes: nothing else is lost or added. */
  lemma TokensKeepText(line: string)
    ensures Concat(Tokens(line)) == Visible(line, None)
  {
    hide Scan;
    ScanKeepsText(line, "", None);
    assert "" + Visible(line, None) == Visible(line, None);
  }

  // ---------------------------------------------------------------- commands

  /** What `coerce` makes of an option's text; a float stays the text that is read as one. An option without a value
      is true. */
  datatype OptionValue = Truth(b: bool) | Number(n: int) | Decimal(text: string) | Word(text: string)

  function Coerce(value: string): OptionValue {
    if Lower(value) == "true" then Truth(true)
    else if Lower(value) == "false" then Truth(false)
    else if ReadInt(value).Some? then Number(ReadInt(value).value)
    else if IsFloat(Strip(value)) then Decimal(value)
    else Word(value)
  }

  /** What Python's `float` reads, in ASCII and without outer whitespace. */
  predicate IsFloat(s: string) {
    var t := if s != "" && s[0] in "+-" then s[1..] else s;
    Lower(t) in ["inf", "infinity", "nan"] || IsDecimal(t)
  }

  predicate IsDigits(s: string) { ReadNat(s).Some? }

  predicate IsDecimal(t: string) {
    var (mantissa, hasExponent, exponent) := Partition(Lower(t), 'e');
    var (whole, hasPoint, fraction) := Partition(mantissa, '.');
    && (if hasPoint then
          (whole != "" || fraction != "") && (whole == "" || IsDigits(whole)) && (fraction == "" || IsDigits(fraction))
        else IsDigits(whole))
    && (hasExponent ==> IsDigits(if exponent != "" && exponent[0] in "+-" then exponent[1..] else exponent))
  }

  /** Natural numbers come through exactly, and a text option unchanged. */
  lemma CoerceKeeps(n: nat, value: string)
    ensures Coerce(Digits(n)) == Number(n)
    ensures Coerce(value).Word? ==> Coerce(value).text == value
  {
    hide IsFloat, Digits, ReadInt;
    ReadIntOfDigits(n);
    DigitsNoWord(Digits(n));
  }

  lemma DigitsNoWord(d: string)
    requires AllDigits(d)
    ensures Lower(d) != "true" && Lower(d) != "false"
  {
    assert Lower(d)[0] == d[0];
  }

  datatype Command = Command(name: string, args: seq<string>, options: map<string, OptionValue>)

  predicate IsLong(token: string) { |token| >= 2 && token[0] == '-' && token[1] == '-' }

  predicate IsShort(token: string) { |token| == 2 && token[0] == '-' }

  /** The value part of `key="value"`, when its quotes are `quote`. */
  function Unquoted(rest: string, quote: char): Option<string> {
    if rest != "" && rest[0] == quote && rest[|rest| - 1] == quote then
      Some(if |rest| == 1 then "" else rest[1..|rest| - 1])
    else None
  }

  function StripOuterQuotes(token: string): string {
    if |token| >= 2 && IsQuote(token[0]) && token[|token| - 1] == token[0] then token[1..|token| - 1]
    else
      var (key, eq, rest) := Partition(token, '=');
      var double := if '"' in token && eq then Unquoted(rest, '"') else None;
      var single := if '\'' in token && eq then Unquoted(rest, '\'') else None;
      if double.Some? then key + "=" + double.value
      else if single.Some? then key + "=" + single.value
      else token
  }

  function StripAll(tokens: seq<string>): seq<string> {
    if tokens == [] then [] else [StripOuterQuotes(tokens[0])] + StripAll(tokens[1..])
  }

  function Interpret(tokens: seq<string>, command: Command): Command
    decreases |tokens|
  {
    if tokens == [] then command
    else
      var token := tokens[0];
      if IsLong(token) && '=' in token then
        var (key, _, value) := Partition(token[2..], '=');
        Interpret(tokens[1..], command.(options := command.options[key := Coerce(value)]))
      else if IsLong(token) then
        if |tokens| > 1 && !IsLong(tokens[1]) then
          Interpret(tokens[2..], command.(options := command.options[token[2..] := Coerce(tokens[1])]))
        else
          Interpret(tokens[1..], command.(options := command.options[token[2..] := Truth(true)]))
      else if IsShort(token) then
        Interpret(tokens[1..], command.(options := command.options[[token[1]] := Truth(true)]))
      else
        Interpret(tokens[1..], command.(args := command.args + [token]))
  }

  function Meaning(line: string): Option<Command> {
    var tokens := StripAll(Tokens(Strip(line)));
    if tokens == [] then None else Some(Interpret(tokens[1..], Command(tokens[0], [], map[])))
  }

  method Parse(line: string) returns (result: Option<Command>)
    ensures result == Meaning(line)
  {
    hide Strip, StripOuterQuotes, Partition;
    var stripped := Strip(line);
    if stripped == "" { return None; }
    var raw := Tokenize(stripped);
    var tokens := StripAll(raw);
    if tokens == [] { return None; }
    var command := Command(tokens[0], [], map[]);
    var i := 1;
    while i < |tokens|
      invariant 1 <= i <= |tokens|
      invariant Interpret(tokens[1..], Command(tokens[0], [], map[])) == Interpret(tokens[i..], command)
    {
      var token := tokens[i];
      assert tokens[i..][0] == token && tokens[i..][1..] == tokens[i + 1..];
      if IsLong(token) && '=' in token {
        var (key, _, value) := Partition(token[2..], '=');
        command := command.(options := command.options[key := Coerce(value)]);
        i := i + 1;
      } else if IsLong(token) {
        if i + 1 < |tokens| && !IsLong(tokens[i + 1]) {
          assert tokens[i..][1] == tokens[i + 1] && tokens[i..][2..] == tokens[i + 2..];
          command := command.(options := command.options[token[2..] := Coerce(tokens[i + 1])]);
          i := i + 2;
        } else {
          assert |tokens[i..]| > 1 ==> tokens[i..][1] == tokens[i + 1];
          command := command.(options := command.options[token[2..] := Truth(true)]);
          i := i + 1;
        }
      } else if IsShort(token) {
        command := command.(options := command.options[[token[1]] := Truth(true)]);
        i := i + 1;
      } else {
        command := command.(args := command.args + [token]);
        i := i + 1;
      }
    }
    return Some(command);
  }

  // ---------------------------------------------------------------- quoted words

  function Quote(word: string, q: char): string { [q] + word + [q] }

  function QuoteAll(words: seq<string>, q: char): seq<string> {
    if words == [] then [] else [Quote(words[0], q)] + QuoteAll(words[1..], q)
  }

  predicate OptionLike(word: string) { IsLong(word) || IsShort(word) }

  lemma {:induction false} InsideQuotes(word: string, q: char)
    requires Lacks(word, q)
    ensures Solid(word, Some(q)) && OpenAfter(word, Some(q)) == Some(q)
  {
    if word != "" {
      OpenAfterOne(word[0], Some(q));
      InsideQuotes(word[1..], q);
    }
  }

  lemma QuotedSolid(word: string, q: char)
    requires IsQuote(q) && Lacks(word, q)
    ensures Solid(Quote(word, q), None) && OpenAfter(Quote(word, q), None) == None
  {
    var text := Quote(word, q);
    InsideQuotes(word, q);
    var tail := word + [q];
    assert text[1..] == tail;
    OpenAfterOne(q, None);
    OpenAfterOne(q, Some(q));
    OpenAfterAppend(word, [q], Some(q));
    assert [q][1..] == "";
    SolidAppend(word, [q], Some(q));
  }

  lemma QuotedIsToken(word: string, q: char)
    requires IsQuote(q) && Lacks(word, q)
    ensures var text := Quote(word, q);
      text != "" && Solid(text, None) && OpenAfter(text, None) == None && StripOuterQuotes(text) == word
  {
    hide Partition, Unquoted, Solid, OpenAfter;
    var text := Quote(word, q);
    QuotedSolid(word, q);
    assert text[1..|text| - 1] == word;
  }

  lemma {:induction false} JoinedQuotes(words: seq<string>, q: char)
    requires words != []
    ensures var s := JoinWith(QuoteAll(words, q), " "); s != "" && s[0] == q && s[|s| - 1] == q
  {
    if |words| > 1 { JoinedQuotes(words[1..], q); }
  }

  lemma {:induction false} QuotedTokenList(words: seq<string>, q: char)
    requires IsQuote(q) && forall i :: 0 <= i < |words| ==> Lacks(words[i], q)
    ensures TokenList(QuoteAll(words, q)) && StripAll(QuoteAll(words, q)) == words
  {
    hide Solid, OpenAfter, StripOuterQuotes, Quote, Lacks;
    if words != [] {
      QuotedIsToken(words[0], q);
      QuotedTokenList(words[1..], q);
    }
  }

  lemma QuotedTokens(words: seq<string>, q: char)
    requires IsQuote(q) && words != [] && forall i :: 0 <= i < |words| ==> Lacks(words[i], q)
    ensures StripAll(Tokens(Strip(JoinWith(QuoteAll(words, q), " ")))) == words
  {
    hide Strip, Tokens, TokenList, StripAll, Lacks, QuoteAll, JoinWith;
    var s := JoinWith(QuoteAll(words, q), " ");
    JoinedQuotes(words, q);
    assert !IsSpace('"') && !IsSpace('\'');
    StripTight(s);
    QuotedTokenList(words, q);
    ScanJoined(QuoteAll(words, q));
  }

  lemma {:induction false} PlainArguments(tokens: seq<string>, command: Command)
    requires forall i :: 0 <= i < |tokens| ==> !OptionLike(tokens[i])
    ensures Interpret(tokens, command) == command.(args := command.args + tokens)
    decreases |tokens|
  {
    hide IsLong, IsShort;
    if tokens == [] {
      assert command.args + tokens == command.args;
    } else {
      PlainArguments(tokens[1..], command.(args := command.args + [tokens[0]]));
      assert command.args + [tokens[0]] + tokens[1..] == command.args + tokens;
    }
  }

  /** Each option-like token makes the arguments fewer. */
  lemma {:induction false} OptionsAreNotArguments(tokens: seq<string>, command: Command)
    ensures |Interpret(tokens, command).args| <= |command.args| + |tokens|
    ensures (exists i :: 0 <= i < |tokens| && OptionLike(tokens[i]))
            ==> |Interpret(tokens, command).args| < |command.args| + |tokens|
    decreases |tokens|
  {
    hide Partition;
    if tokens != [] {
      var token := tokens[0];
      if IsLong(token) && '=' in token {
        var (key, _, value) := Partition(token[2..], '=');
        OptionsAreNotArguments(tokens[1..], command.(options := command.options[key := Coerce(value)]));
      } else if IsLong(token) && |tokens| > 1 && !IsLong(tokens[1]) {
        OptionsAreNotArguments(tokens[2..], command.(options := command.options[token[2..] := Coerce(tokens[1])]));
      } else if IsLong(token) {
        OptionsAreNotArguments(tokens[1..], command.(options := command.options[token[2..] := Truth(true)]));
      } else if IsShort(token) {
        OptionsAreNotArguments(tokens[1..], command.(options := command.options[[token[1]] := Truth(true)]));
      } else {
        OptionsAreNotArguments(tokens[1..], command.(args := command.args + [token]));
        if i :| 0 <= i < |tokens| && OptionLike(tokens[i]) { assert tokens[1..][i - 1] == tokens[i]; }
      }
    }
  }

  lemma ArgumentsOnly(tokens: seq<string>, name: string)
    ensures Interpret(tokens, Command(name, [], map[])) == Command(name, tokens, map[]) <==>
            forall i :: 0 <= i < |tokens| ==> !OptionLike(tokens[i])
  {
    hide Interpret, OptionLike;
    OptionsAreNotArguments(tokens, Command(name, [], map[]));
    if forall i :: 0 <= i < |tokens| ==> !OptionLike(tokens[i]) {
      PlainArguments(tokens, Command(name, [], map[]));
      assert [] + tokens == tokens;
    }
  }

  /** Words in quotes of either kind, joined by spaces, parse back to a command with that name and those arguments and no
      options, exactly when no word after the first looks like an option: quoting does not protect `--x` or `-x`. */
  lemma QuotedWordsParse(words: seq<string>, q: char)
    requires IsQuote(q) && words != [] && forall i :: 0 <= i < |words| ==> Lacks(words[i], q)
    ensures Meaning(JoinWith(QuoteAll(words, q), " ")) == Some(Command(words[0], words[1..], map[])) <==>
            forall i :: 1 <= i < |words| ==> !OptionLike(words[i])
  {
    hide Tokens, Strip, StripAll, JoinWith, QuoteAll, Interpret, OptionLike, Lacks;
    QuotedTokens(words, q);
    ArgumentsOnly(words[1..], words[0]);
    assert forall i :: 1 <= i < |words| ==> words[1..][i - 1] == words[i];
  }

  /** A word that needs no quotes. */
  predicate PlainWord(w: string) { w != "" && forall i :: 0 <= i < |w| ==> !IsSpace(w[i]) && !IsQuote(w[i]) }

  lemma {:induction false} PlainSolid(w: string)
    requires forall i :: 0 <= i < |w| ==> !IsSpace(w[i]) && !IsQuote(w[i])
    ensures Solid(w, None) && OpenAfter(w, None) == None
  {
    hide IsSpace;
    if w != "" {
      OpenAfterOne(w[0], None);
      PlainSolid(w[1..]);
    }
  }

  lemma PlainUnstripped(w: string)
    requires forall i :: 0 <= i < |w| ==> !IsQuote(w[i])
    ensures StripOuterQuotes(w) == w
  {
    hide Partition, Unquoted;
  }

  lemma {:induction false} PlainTokenList(words: seq<string>)
    requires forall i :: 0 <= i < |words| ==> PlainWord(words[i])
    ensures TokenList(words) && StripAll(words) == words
  {
    hide Solid, OpenAfter, StripOuterQuotes, IsSpace, IsQuote;
    if words != [] {
      PlainSolid(words[0]);
      PlainUnstripped(words[0]);
      PlainTokenList(words[1..]);
    }
  }

  /** Words without whitespace and quotes, joined by spaces, are the tokens, as they are. */
  lemma PlainWordsAreTokens(words: seq<string>)
    requires forall i :: 0 <= i < |words| ==> PlainWord(words[i])
    ensures Tokens(JoinWith(words, " ")) == words && StripAll(words) == words
  {
    hide Tokens, TokenList, StripAll, JoinWith;
    PlainTokenList(words);
    ScanJoined(words);
  }

  // ---------------------------------------------------------------- options

  /** An option as one writes it: `--key`, `--key=value`, `--key value` or `-c`. */
  datatype OptionWord = Flag(key: string) | Assigned(key: string, value: string) | Spaced(key: string, value: string)
                      | Letter(c: char)

  predicate ValidOption(o: OptionWord) {
    match o
    case Flag(key) => Lacks(key, '=')
    case Assigned(key, value) => Lacks(key, '=')
    case Spaced(key, value) => Lacks(key, '=') && !IsLong(value)
    case Letter(c) => c != '-'
  }

  function OptionWords(o: OptionWord): seq<string> {
    match o
    case Flag(key) => ["--" + key]
    case Assigned(key, value) => ["--" + (key + ['='] + value)]
    case Spaced(key, value) => ["--" + key, value]
    case Letter(c) => [['-', c]]
  }

  /** The options in order, a later one of the same key winning. */
  function Chosen(options: seq<OptionWord>, before: map<string, OptionValue>): map<string, OptionValue>
    decreases |options|
  {
    if options == [] then before
    else
      var o := options[0];
      Chosen(options[1..],
             match o
             case Flag(key) => before[key := Truth(true)]
             case Assigned(key, value) => before[key := Coerce(value)]
             case Spaced(key, value) => before[key := Coerce(value)]
             case Letter(c) => before[[c] := Truth(true)])
  }

  lemma InterpretOne(o: OptionWord, rest: seq<string>, command: Command)
    requires ValidOption(o) && (o.Flag? && rest != [] ==> IsLong(rest[0]))
    ensures Interpret(OptionWords(o) + rest, command) == Interpret(rest, command.(options := Chosen([o], command.options)))
  {
    hide Partition, Lacks;
    var words := OptionWords(o);
    assert (words + rest)[|words|..] == rest;
    match o
    case Flag(key) => PlainKey(key);
    case Assigned(key, value) =>
      assert words[0][2..] == key + ['='] + value;
      PartitionAt(key, value, '=');
      assert words[0][2 + |key|] == '=';
    case Spaced(key, value) => PlainKey(key);
    case Letter(_) =>
  }

  lemma PlainKey(key: string)
    requires Lacks(key, '=')
    ensures IsLong("--" + key) && '=' !in "--" + key && ("--" + key)[2..] == key
  {
  }

  /** What follows a command's name. */
  datatype Item = Arg(word: string) | Opt(o: OptionWord)

  function ItemWords(item: Item): seq<string> { if item.Arg? then [item.word] else OptionWords(item.o) }

  function AllWords(items: seq<Item>): seq<string> { if items == [] then [] else ItemWords(items[0]) + AllWords(items[1..]) }

  function ArgsOf(items: seq<Item>): seq<string> {
    if items == [] then [] else (if items[0].Arg? then [items[0].word] else []) + ArgsOf(items[1..])
  }

  function OptionsOf(items: seq<Item>): seq<OptionWord> {
    if items == [] then [] else (if items[0].Opt? then [items[0].o] else []) + OptionsOf(items[1..])
  }

  predicate ValidItem(item: Item) { if item.Arg? then !OptionLike(item.word) else ValidOption(item.o) }

  /** A flag takes the next word as its value unless that begins with `--`. */
  predicate Ordered(items: seq<Item>) {
    forall i :: 0 < i < |items| && items[i - 1].Opt? && items[i - 1].o.Flag? ==> items[i].Opt? && !items[i].o.Letter?
  }

  lemma LongFirst(item: Item, rest: seq<Item>)
    ensures AllWords([item] + rest) != [] && (item.Opt? && !item.o.Letter? ==> IsLong(AllWords([item] + rest)[0]))
  {
  }

  lemma ChosenOne(o: OptionWord, rest: seq<OptionWord>, before: map<string, OptionValue>)
    ensures Chosen([o] + rest, before) == Chosen(rest, Chosen([o], before))
  {
    hide Coerce;
    assert ([o] + rest)[1..] == rest && [o][1..] == [];
  }

  lemma InterpretNothing(command: Command)
    ensures Interpret([], command) == command
  {
  }

  lemma InterpretArg(word: string, rest: seq<string>, command: Command)
    requires !OptionLike(word)
    ensures Interpret([word] + rest, command) == Interpret(rest, command.(args := command.args + [word]))
  {
    hide IsLong, IsShort;
    assert ([word] + rest)[1..] == rest;
  }

  lemma {:induction false} InterpretItems(items: seq<Item>, command: Command)
    requires Ordered(items) && forall i :: 0 <= i < |items| ==> ValidItem(items[i])
    ensures Interpret(AllWords(items), command) ==
              command.(args := command.args + ArgsOf(items), options := Chosen(OptionsOf(items), command.options))
    decreases |items|
  {
    hide Interpret, ValidOption, OptionLike, Chosen, OptionWords, IsLong;
    if items == [] {
      InterpretNothing(command);
      assert command.args + [] == command.args;
      NothingChosen(command.options);
    } else {
      var (item, rest) := (items[0], items[1..]);
      assert Ordered(rest);
      if rest != [] { LongFirst(rest[0], rest[1..]); }
      if item.Arg? {
        InterpretArg(item.word, AllWords(rest), command);
        InterpretItems(rest, command.(args := command.args + [item.word]));
        ArgFirst(items, command.args);
      } else {
        InterpretOne(item.o, AllWords(rest), command);
        InterpretItems(rest, command.(options := Chosen([item.o], command.options)));
        OptionFirst(items, command.options);
      }
    }
  }

  lemma ArgFirst(items: seq<Item>, args: seq<string>)
    requires items != [] && items[0].Arg?
    ensures args + ArgsOf(items) == (args + [items[0].word]) + ArgsOf(items[1..]) && OptionsOf(items) == OptionsOf(items[1..])
    ensures AllWords(items) == [items[0].word] + AllWords(items[1..])
  {
    assert ArgsOf(items) == [items[0].word] + ArgsOf(items[1..]) && OptionsOf(items) == [] + OptionsOf(items[1..]);
    hide ArgsOf, OptionsOf, AllWords, OptionWords;
    Regrouped(args, items[0].word, ArgsOf(items[1..]));
    NothingInFront(OptionsOf(items[1..]));
  }

  lemma Regrouped(a: seq<string>, b: string, c: seq<string>)
    ensures a + ([b] + c) == (a + [b]) + c
  {
  }

  lemma NothingInFront(options: seq<OptionWord>)
    ensures [] + options == options
  {
  }

  lemma OptionFirst(items: seq<Item>, before: map<string, OptionValue>)
    requires items != [] && items[0].Opt?
    ensures Chosen(OptionsOf(items), before) == Chosen(OptionsOf(items[1..]), Chosen([items[0].o], before))
    ensures ArgsOf(items) == ArgsOf(items[1..]) && AllWords(items) == OptionWords(items[0].o) + AllWords(items[1..])
  {
    hide Chosen, OptionWords;
    ChosenOne(items[0].o, OptionsOf(items[1..]), before);
  }

  lemma NothingChosen(before: map<string, OptionValue>)
    ensures Chosen([], before) == before
  {
  }

  /** The words of the items can stand in quotes of the kind. */
  predicate Quotable(words: seq<string>, q: char) { forall i :: 0 <= i < |words| ==> Lacks(words[i], q) }

  /** A command written as quoted words, arguments and options of all forms in any order, reads back as that command. */
  lemma CommandRoundTrip(name: string, items: seq<Item>, q: char)
    requires IsQuote(q) && Quotable([name] + AllWords(items), q)
    requires Ordered(items) && forall i :: 0 <= i < |items| ==> ValidItem(items[i])
    ensures Meaning(JoinWith(QuoteAll([name] + AllWords(items), q), " "))
         == Some(Command(name, ArgsOf(items), Chosen(OptionsOf(items), map[])))
  {
    hide Tokens, Strip, StripAll, JoinWith, QuoteAll, Interpret, ValidItem, AllWords, Chosen, Lacks;
    var words := [name] + AllWords(items);
    QuotedTokens(words, q);
    assert words[1..] == AllWords(items);
    InterpretItems(items, Command(name, [], map[]));
    assert [] + ArgsOf(items) == ArgsOf(items);
  }

  // ---------------------------------------------------------------- as one types it

  /** `key="value"`, with quotes of either kind around the value only. */
  function Assignment(front: string, value: string, q: char): string { front + ("=" + Quote(value, q)) }

  lemma AssignmentToken(front: string, value: string, q: char)
    requires IsQuote(q) && Lacks(value, q) && PlainWord(front) && Lacks(front, '=')
    ensures var token := Assignment(front, value, q);
      token != "" && Solid(token, None) && OpenAfter(token, None) == None && StripOuterQuotes(token) == front + "=" + value
  {
    hide IsSpace;
    var token := Assignment(front, value, q);
    PlainSolid(front + "=") by { EqualsPlain(); }
    QuotedSolid(value, q);
    assert token == (front + "=") + Quote(value, q);
    OpenAfterAppend(front + "=", Quote(value, q), None);
    SolidAppend(front + "=", Quote(value, q), None);
    AssignmentStripped(front, value, q);
  }

  lemma EqualsPlain()
    ensures !IsSpace('=') && !IsQuote('=')
  {
  }

  lemma AssignmentStripped(front: string, value: string, q: char)
    requires IsQuote(q) && Lacks(value, q) && PlainWord(front) && Lacks(front, '=')
    ensures StripOuterQuotes(Assignment(front, value, q)) == front + "=" + value
  {
    hide IsSpace, Solid, OpenAfter;
    var (token, rest) := (Assignment(front, value, q), Quote(value, q));
    assert token == front + ['='] + rest && token[0] == front[0];
    PartitionAt(front, rest, '=');
    assert rest[1..|rest| - 1] == value && rest[0] == q == rest[|rest| - 1];
    assert token[|token| - 1] == q && q in token;
  }

  /** `name --key="value"` reads as that option, whatever the value holds besides its quote. */
  lemma TypedAssignment(name: string, key: string, value: string, q: char)
    requires IsQuote(q) && Lacks(value, q) && PlainWord(name) && PlainWord("--" + key) && Lacks(key, '=')
    ensures Meaning(name + (" " + Assignment("--" + key, value, q))) == Some(Command(name, [], map[key := Coerce(value)]))
  {
    hide Tokens, Strip, Interpret, IsSpace, Coerce, StripOuterQuotes, Solid, OpenAfter, PlainWord, Assignment;
    var token := Assignment("--" + key, value, q);
    assert Lacks("--" + key, '=');
    AssignmentToken("--" + key, value, q);
    PlainParts(name);
    var tokens := [name, token];
    TwoTokens(name, token);
    ScanJoined(tokens);
    LineTight(name, token, "--" + key, value, q);
    var line := name + (" " + token);
    assert JoinWith(tokens, " ") == line by { TwoJoined(name, token); }
    StripTight(line);
    TwoStripped(name, token);
    var word := "--" + (key + ['='] + value);
    assert word == "--" + key + "=" + value;
    InterpretOne(OptionWord.Assigned(key, value), [], Command(name, [], map[])) by { assert Lacks(key, '='); }
    assert OptionWords(OptionWord.Assigned(key, value)) + [] == [word];
    InterpretNothing(Command(name, [], Chosen([OptionWord.Assigned(key, value)], map[])));
    assert [name, word][1..] == [word];
  }

  lemma PlainParts(name: string)
    requires PlainWord(name)
    ensures name != "" && Solid(name, None) && OpenAfter(name, None) == None && StripOuterQuotes(name) == name
    ensures Tight(name)
  {
    hide IsSpace;
    PlainSolid(name);
    PlainUnstripped(name);
  }

  lemma TwoTokens(a: string, b: string)
    requires a != "" && Solid(a, None) && OpenAfter(a, None) == None
    requires b != "" && Solid(b, None) && OpenAfter(b, None) == None
    ensures TokenList([a, b])
  {
    hide Solid, OpenAfter;
  }

  lemma TwoJoined(a: string, b: string)
    ensures JoinWith([a, b], " ") == a + (" " + b)
  {
    assert [a, b][1..] == [b];
  }

  lemma TwoStripped(a: string, b: string)
    ensures StripAll([a, b]) == [StripOuterQuotes(a), StripOuterQuotes(b)]
  {
    hide StripOuterQuotes;
    assert [a, b][1..] == [b] && [b][1..] == [];
    assert StripAll([b]) == [StripOuterQuotes(b)];
    assert [StripOuterQuotes(a)] + [StripOuterQuotes(b)] == [StripOuterQuotes(a), StripOuterQuotes(b)];
  }

  lemma LineTight(name: string, token: string, front: string, value: string, q: char)
    requires PlainWord(name) && IsQuote(q) && token == Assignment(front, value, q)
    ensures Tight(name + (" " + token))
  {
    assert !IsSpace('"') && !IsSpace('\'');
    var line := name + (" " + token);
    assert token == (front + ("=" + ([q] + value))) + [q];
    assert line[0] == name[0] && line[|line| - 1] == q;
  }

  /** Truth values in any case. */
  lemma TruthsRead()
    ensures Coerce("true") == Coerce("True") == Coerce("TRUE") == Truth(true)
    ensures Coerce("false") == Coerce("False") == Coerce("FALSE") == Truth(false)
  {
    hide ReadInt, IsFloat, Strip;
    assert Lower("true") == Lower("True") == Lower("TRUE") == "true";
    assert Lower("false") == Lower("False") == Lower("FALSE") == "false";
  }

  /** Negative integers come through exactly too. */
  lemma NegativesRead(n: nat)
    ensures Coerce("-" + Digits(n)).Number? && Coerce("-" + Digits(n)).n + n == 0
  {
    hide IsFloat, Digits;
    var (d, s) := (Digits(n), "-" + Digits(n));
    assert IsDigit(d[|d| - 1]) && s[|s| - 1] == d[|d| - 1];
    StripTight(s);
    assert s[1..] == d;
    ReadNatOfDigits(d);
    DigitsValueOfDigits(n);
    MinusNoWord(s);
  }

  lemma MinusNoWord(s: string)
    requires s != "" && s[0] == '-'
    ensures Lower(s) != "true" && Lower(s) != "false"
  {
    assert Lower(s)[0] == '-';
  }

  /** A number with a point is no integer but a decimal. */
  lemma DecimalsRead(m: nat, n: nat)
    ensures Coerce(Digits(m) + "." + Digits(n)) == Decimal(Digits(m) + "." + Digits(n))
  {
    hide Digits, IsFloat, ReadInt, Strip;
    var (a, b) := (Digits(m), Digits(n));
    PointedPlain(a, b);
    PointedTight(a, b);
    PointedNoInteger(a, b);
    IsDecimalText(a, b);
  }

  lemma PointedTight(a: string, b: string)
    requires AllDigits(a) && AllDigits(b)
    ensures var s := a + "." + b; Tight(s) && Strip(s) == s && s != "" && IsDigit(s[0]) && s != "true" && s != "false"
  {
    var s := a + "." + b;
    assert s[|s| - 1] == b[|b| - 1] && s[0] == a[0];
    StripTight(s);
  }

  lemma PointedNoInteger(a: string, b: string)
    requires AllDigits(a) && AllDigits(b)
    ensures ReadInt(a + "." + b).None?
  {
    hide ReadNat, Strip;
    PointedTight(a, b);
    PointNoNumber(a, b);
  }

  lemma {:induction false} LowerPlain(s: string)
    requires forall i :: 0 <= i < |s| ==> !('A' <= s[i] <= 'Z')
    ensures Lower(s) == s
  {
    if s != "" { LowerPlain(s[1..]); }
  }

  lemma PointedPlain(a: string, b: string)
    requires AllDigits(a) && AllDigits(b)
    ensures Lower(a + "." + b) == a + "." + b
  {
    LowerPlain(a + "." + b);
  }

  lemma {:induction false} PointNoNumber(a: string, b: string)
    requires AllDigits(a) && AllDigits(b)
    ensures ReadNat(a + "." + b).None?
    decreases |b|
  {
    var t := a + "." + b;
    if |b| == 1 {
      assert t[..|t| - 1] == a + ".";
      assert ReadNat(a + ".").None?;
    } else {
      assert t[..|t| - 1] == a + "." + b[..|b| - 1];
      PointNoNumber(a, b[..|b| - 1]);
    }
  }

  lemma IsDecimalText(a: string, b: string)
    requires AllDigits(a) && AllDigits(b)
    ensures IsFloat(a + "." + b)
  {
    hide ReadNat, Strip;
    var t := a + "." + b;
    PointedTight(a, b);
    PointedPlain(a, b);
    PartitionNone(t, 'e');
    assert t == a + ['.'] + b;
    PartitionAt(a, b, '.');
    ReadNatOfDigits(a);
    ReadNatOfDigits(b);
  }

  /** A word is read as an option only if it begins with two dashes or is a dash and one more character: `-ab` and `-`
      are arguments. */
  lemma DashesExactly(word: string, command: Command)
    ensures OptionLike(word) <==> "--" <= word || exists c: char :: word == ['-', c]
    ensures |word| > 2 && word[0] == '-' && word[1] != '-' ==>
              Interpret([word], command) == command.(args := command.args + [word])
    ensures Interpret(["-"], command) == command.(args := command.args + ["-"])
  {
    assert word != "" ==> [word][1..] == [];
    assert ["-"][1..] == [];
    if |word| == 2 && word[0] == '-' { assert word == ['-', word[1]]; }
    assert "--" <= word <==> IsLong(word);
    InterpretNothing(command.(args := command.args + [word]));
    InterpretNothing(command.(args := command.args + ["-"]));
  }
}
