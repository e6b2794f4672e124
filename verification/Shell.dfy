/** The shell line a guest runs: assignments, command and arguments joined into
    one line, and the way a POSIX shell takes such a line apart again. */
module Shell {
  import opened Types
  import opened Ordering

  const QUOTE := '\''
  const BACKSLASH := '\\'

  // ---------------------------------------------------------------------
  // Joining
  // ---------------------------------------------------------------------

  /** Every single quote closed, escaped and opened again. */
  function Escape(word: string): string {
    if word == "" then ""
    else if word[0] == QUOTE then [QUOTE, BACKSLASH, QUOTE, QUOTE] + Escape(word[1..])
    else [word[0]] + Escape(word[1..])
  }

  function Quote(word: string): string {
    [QUOTE] + Escape(word) + [QUOTE]
  }

  function Join(parts: seq<string>): string {
    if parts == [] then "" else if |parts| == 1 then parts[0] else parts[0] + " " + Join(parts[1..])
  }

  function Assignments(names: seq<string>, env: map<string, string>): seq<string>
    requires forall i | 0 <= i < |names| :: names[i] in env
  {
    seq(|names|, i requires 0 <= i < |names| => names[i] + "=" + Quote(env[names[i]]))
  }

  function QuoteAll(words: seq<string>): seq<string> {
    seq(|words|, i requires 0 <= i < |words| => Quote(words[i]))
  }

  lemma ListedKeys(env: map<string, string>)
    ensures forall i | 0 <= i < |Listing(env.Keys)| :: Listing(env.Keys)[i] in env
  {
    ListingEnumerates(env.Keys);
    assert forall i | 0 <= i < |Listing(env.Keys)| :: Listing(env.Keys)[i] in Listing(env.Keys);
  }

  /** The line for a command: assignments in key order, command, arguments. */
  ghost function LineFor(command: string, args: seq<string>, env: map<string, string>): string {
    ListedKeys(env);
    Join(Assignments(Listing(env.Keys), env) + [Quote(command)] + QuoteAll(args))
  }

  method SortedNames(env: map<string, string>) returns (names: seq<string>)
    ensures names == Listing(env.Keys) && forall i | 0 <= i < |names| :: names[i] in env
  {
    names := AnyOrder(env.Keys);
    SortIsListing(names, env.Keys);
    names := Sort(Self, names);
    ListedKeys(env);
  }

  method AssignmentParts(env: map<string, string>) returns (parts: seq<string>)
    ensures forall k | 0 <= k < |Listing(env.Keys)| :: Listing(env.Keys)[k] in env
    ensures parts == Assignments(Listing(env.Keys), env)
  {
    hide Quote, Assignments;
    var names := SortedNames(env);
    parts := [];
    assert names[..0] == [];
    NoParts(env);
    var i := 0;
    while i < |names|
      invariant 0 <= i <= |names| && parts == Assignments(names[..i], env)
    {
      OneMoreAssignment(names, env, i);
      parts := parts + [names[i] + "=" + Quote(env[names[i]])];
      i := i + 1;
    }
    assert names[..i] == names;
  }

  /** Collect the parts, whatever order the environment is delivered in. */
  method ShellJoin(command: string, args: seq<string>, env: map<string, string>) returns (line: string)
    ensures line == LineFor(command, args, env)
  {
    hide Quote, Join, Assignments, QuoteAll, Listing;
    var parts := AssignmentParts(env);
    parts := parts + [Quote(command)];
    ghost var front := parts;
    NoParts(env);
    assert args[..0] == [];
    var i := 0;
    while i < |args|
      invariant 0 <= i <= |args| && parts == front + QuoteAll(args[..i])
    {
      OneMoreArgument(args, i);
      parts := parts + [Quote(args[i])];
      i := i + 1;
    }
    assert args[..i] == args;
    line := Join(parts);
  }

  lemma NoParts(env: map<string, string>)
    ensures Assignments([], env) == [] && QuoteAll([]) == []
  {
  }

  lemma OneMoreAssignment(names: seq<string>, env: map<string, string>, i: nat)
    requires i < |names| && forall k | 0 <= k < |names| :: names[k] in env
    ensures Assignments(names[..i + 1], env) == Assignments(names[..i], env) + [names[i] + "=" + Quote(env[names[i]])]
  {
  }

  lemma OneMoreArgument(args: seq<string>, i: nat)
    requires i < |args|
    ensures QuoteAll(args[..i + 1]) == QuoteAll(args[..i]) + [Quote(args[i])]
  {
  }

  /** Quoting puts a word between single quotes and turns each single quote in it into
      four characters: it ends the quotes, adds an escaped one and opens them again. */
  lemma QuoteSplits(a: string, b: string)
    ensures '\'' !in a ==> Quote(a) == "'" + a + "'"
    ensures Quote(a + "'" + b) == Quote(a) + "\\'" + Quote(b)
  {
    hide Escape;
    if '\'' !in a {
      EscapePlain(a);
    }
    EscapeConcat(a + "'", b);
    EscapeConcat(a, "'");
    EscapeQuote();
    assert "'" + (Escape(a) + "'\\''" + Escape(b)) + "'" == "'" + Escape(a) + "'" + "\\'" + ("'" + Escape(b) + "'");
  }

  lemma EscapeQuote()
    ensures Escape("'") == "'\\''"
  {
    assert "'"[1..] == "";
  }

  lemma {:induction false} EscapeConcat(a: string, b: string)
    ensures Escape(a + b) == Escape(a) + Escape(b)
  {
    if a == "" {
      assert a + b == b;
    } else {
      assert (a + b)[1..] == a[1..] + b;
      EscapeConcat(a[1..], b);
    }
  }

  lemma {:induction false} EscapePlain(a: string)
    requires '\'' !in a
    ensures Escape(a) == a
  {
    if a != "" {
      assert a[0] in a;
      EscapePlain(a[1..]);
      assert a == [a[0]] + a[1..];
    }
  }

  // ---------------------------------------------------------------------
  // Splitting as a shell does
  // ---------------------------------------------------------------------

  /** A character of a word, and whether it was quoted. */
  datatype Symbol = Symbol(c: char, quoted: bool)

  type Word = seq<Symbol>

  function Marked(text: string, quoted: bool): Word {
    seq(|text|, i requires 0 <= i < |text| => Symbol(text[i], quoted))
  }

  function TextOf(word: Word): string {
    seq(|word|, i requires 0 <= i < |word| => word[i].c)
  }

  function TextsOf(words: seq<Word>): seq<string> {
    seq(|words|, i requires 0 <= i < |words| => TextOf(words[i]))
  }

  predicate IsBlank(c: char) {
    c == ' ' || c == '\t'
  }

  /** Characters that mean something else unless quoted (section 2.2 of XCU,
      POSIX.1-2017). A line that uses one unquoted is outside the splitter. */
  predicate IsSpecial(c: char) {
    c in "|&;<>()$`\"\n*?[#~"
  }

  function FirstQuote(text: string): (i: nat)
    ensures i <= |text| && (i < |text| ==> text[i] == QUOTE)
  {
    if text == "" || text[0] == QUOTE then 0 else 1 + FirstQuote(text[1..])
  }

  function InWord(word: Option<Word>): Word {
    if word.Some? then word.value else []
  }

  function Before(word: Word, words: Option<seq<Word>>): Option<seq<Word>> {
    if words.Some? then Some([word] + words.value) else None
  }

  /** The words of a line. A backslash quotes the next character, except that it
      joins lines before a newline (section 2.2.1); single quotes quote
      everything up to the next single quote (section 2.2.2); unquoted blanks
      separate words. `word` is the word being read, if any. */
  function Scan(line: string, word: Option<Word>): Option<seq<Word>>
    decreases |line|
  {
    if line == "" then Some(if word.Some? then [word.value] else []) else
      var c, rest := line[0], line[1..];
      if IsBlank(c) then
        if word.Some? then Before(word.value, Scan(rest, None)) else Scan(rest, None)
      else if c == QUOTE then
        var i := FirstQuote(rest);
        if i == |rest| then None else Scan(rest[i + 1..], Some(InWord(word) + Marked(rest[..i], true)))
      else if c == BACKSLASH then
        if rest == "" then None
        else if rest[0] == '\n' then Scan(rest[1..], word)
        else Scan(rest[1..], Some(InWord(word) + [Symbol(rest[0], true)]))
      else if IsSpecial(c) then None
      else Scan(rest, Some(InWord(word) + [Symbol(c, false)]))
  }

  predicate IsNameChar(c: char) {
    'a' <= c <= 'z' || 'A' <= c <= 'Z' || '0' <= c <= '9' || c == '_'
  }

  /** Section 3.235 of XBD, POSIX.1-2017. */
  predicate IsName(text: string) {
    text != "" && !('0' <= text[0] <= '9') && forall i | 0 <= i < |text| :: IsNameChar(text[i])
  }

  function FirstEquals(word: Word): (i: nat)
    ensures i <= |word| && (i < |word| ==> word[i] == Symbol('=', false))
  {
    if word == [] || word[0] == Symbol('=', false) then 0 else 1 + FirstEquals(word[1..])
  }

  /** An assignment: an unquoted name, an unquoted equals sign, a value. */
  predicate IsAssignment(word: Word) {
    var i := FirstEquals(word);
    i < |word| && IsName(TextOf(word[..i])) && word[..i] == Marked(TextOf(word[..i]), false)
  }

  datatype Command = Command(env: seq<(string, string)>, command: string, args: seq<string>)

  /** Leading assignments, then the command, then its arguments. */
  function Interpret(words: seq<Word>): (r: Option<Command>)
    ensures r.Some? ==> forall i | 0 <= i < |r.value.env| :: IsName(r.value.env[i].0)
  {
    if words == [] then None
    else if IsAssignment(words[0]) then
      var i := FirstEquals(words[0]);
      match Interpret(words[1..])
      case None => None
      case Some(command) =>
        Some(command.(env := [(TextOf(words[0][..i]), TextOf(words[0][i + 1..]))] + command.env))
    else
      Some(Command([], TextOf(words[0]), TextsOf(words[1..])))
  }

  function Parse(line: string): (r: Option<Command>)
    ensures r.Some? ==> forall i | 0 <= i < |r.value.env| :: IsName(r.value.env[i].0)
  {
    match Scan(line, None)
    case None => None
    case Some(words) => Interpret(words)
  }

  // ---------------------------------------------------------------------
  // Quoting survives splitting
  // ---------------------------------------------------------------------

  lemma {:induction false} FirstQuoteAt(text: string, rest: string)
    requires QUOTE !in text
    ensures FirstQuote(text + [QUOTE] + rest) == |text|
  {
    if text != "" {
      assert text[0] in text;
      assert (text + [QUOTE] + rest)[1..] == text[1..] + [QUOTE] + rest;
      FirstQuoteAt(text[1..], rest);
    }
  }

  lemma {:induction false} NoQuoteBefore(text: string)
    ensures QUOTE !in text[..FirstQuote(text)]
  {
    if text != "" && text[0] != QUOTE {
      NoQuoteBefore(text[1..]);
      assert text[..FirstQuote(text)] == [text[0]] + text[1..][..FirstQuote(text[1..])];
    }
  }

  lemma PlainFirst(text: string)
    requires text != "" && text[0] != QUOTE
    ensures FirstQuote(text) == 1 + FirstQuote(text[1..]) && Escape(text) == [text[0]] + Escape(text[1..])
  {
  }

  lemma {:induction false} EscapeUpTo(text: string)
    ensures var i := FirstQuote(text);
            Escape(text) ==
              text[..i] + if i == |text| then "" else [QUOTE, BACKSLASH, QUOTE, QUOTE] + Escape(text[i + 1..])
  {
    hide FirstQuote, Escape;
    if text == "" || text[0] == QUOTE {
      QuoteFirst(text);
      assert text[..0] == "";
    } else {
      PlainFirst(text);
      EscapeUpTo(text[1..]);
      EscapeBehind(text[0], text[1..], FirstQuote(text[1..]));
      assert text == [text[0]] + text[1..];
    }
  }

  lemma QuoteFirst(text: string)
    requires text == "" || text[0] == QUOTE
    ensures FirstQuote(text) == 0
    ensures Escape(text) == if text == "" then "" else [QUOTE, BACKSLASH, QUOTE, QUOTE] + Escape(text[1..])
  {
  }

  /** A character in front moves the cut by one. */
  lemma EscapeBehind(c: char, rest: string, i: nat)
    requires i <= |rest|
    ensures ([c] + rest)[..i + 1] == [c] + rest[..i]
    ensures i < |rest| ==> ([c] + rest)[i + 2..] == rest[i + 1..]
  {
  }

  /** A stretch between single quotes. */
  lemma ScanStretch(text: string, rest: string, word: Option<Word>)
    requires QUOTE !in text
    ensures Scan([QUOTE] + text + [QUOTE] + rest, word) == Scan(rest, Some(InWord(word) + Marked(text, true)))
  {
    FirstQuoteAt(text, rest);
    var line := [QUOTE] + text + [QUOTE] + rest;
    assert line[1..] == text + [QUOTE] + rest;
    assert line[1..][..|text|] == text;
    assert line[1..][|text| + 1..] == rest;
  }

  lemma QuoteWhole(text: string, rest: string)
    requires FirstQuote(text) == |text|
    ensures Quote(text) + rest == [QUOTE] + text + [QUOTE] + rest
  {
    hide Escape, FirstQuote;
    EscapeUpTo(text);
    assert text[..|text|] + "" == text;
  }

  /** A quoted string up to its first single quote. */
  lemma QuoteUpTo(text: string, rest: string, front: string, back: string)
    requires FirstQuote(text) < |text|
    requires front == text[..FirstQuote(text)] && back == text[FirstQuote(text) + 1..]
    ensures Quote(text) + rest == [QUOTE] + front + [QUOTE] + ([BACKSLASH, QUOTE] + (Quote(back) + rest))
  {
    hide Escape, FirstQuote;
    EscapeUpTo(text);
    assert Escape(text) == front + ([QUOTE, BACKSLASH, QUOTE, QUOTE] + Escape(back));
    Regroup(front, Escape(back), rest);
  }

  lemma Regroup(front: string, back: string, rest: string)
    ensures [QUOTE] + (front + ([QUOTE, BACKSLASH, QUOTE, QUOTE] + back)) + [QUOTE] + rest
         == [QUOTE] + front + [QUOTE] + ([BACKSLASH, QUOTE] + ([QUOTE] + back + [QUOTE] + rest))
  {
  }

  lemma MarkedConcat(word: Word, a: string, b: string, quoted: bool)
    ensures word + Marked(a, quoted) + Marked(b, quoted) == word + Marked(a + b, quoted)
  {
  }

  /** A quoted string is read back as itself, every character quoted. */
  lemma {:induction false} ScanQuoted(text: string, rest: string, word: Option<Word>)
    ensures Scan(Quote(text) + rest, word) == Scan(rest, Some(InWord(word) + Marked(text, true)))
    decreases |text|
  {
    hide Scan, Quote, Marked, FirstQuote;
    var i := FirstQuote(text);
    NoQuoteBefore(text);
    if i == |text| {
      QuoteWhole(text, rest);
      assert text[..i] == text;
      ScanStretch(text, rest, word);
    } else {
      var front, back := text[..i], text[i + 1..];
      QuoteUpTo(text, rest, front, back);
      ScanStretch(front, [BACKSLASH, QUOTE] + (Quote(back) + rest), word);
      var read := InWord(word) + Marked(front, true);
      ScanEscape(Quote(back) + rest, read);
      ScanQuoted(back, rest, Some(read + Marked([QUOTE], true)));
      MarkedConcat(InWord(word), front, [QUOTE], true);
      MarkedConcat(InWord(word), front + [QUOTE], back, true);
      assert front + [QUOTE] + back == text;
    }
  }

  lemma ScanEscape(rest: string, word: Word)
    ensures Scan([BACKSLASH, QUOTE] + rest, Some(word)) == Scan(rest, Some(word + Marked([QUOTE], true)))
  {
    assert Marked([QUOTE], true) == [Symbol(QUOTE, true)];
    var line := [BACKSLASH, QUOTE] + rest;
    assert line[1..][1..] == rest;
  }

  lemma ScanPlain(c: char, rest: string, word: Option<Word>)
    requires IsNameChar(c) || c == '='
    ensures Scan([c] + rest, word) == Scan(rest, Some(InWord(word) + [Symbol(c, false)]))
  {
    assert ([c] + rest)[1..] == rest;
  }

  lemma {:induction false} ScanName(name: string, rest: string, word: Word)
    requires forall i | 0 <= i < |name| :: IsNameChar(name[i])
    ensures Scan(name + rest, Some(word)) == Scan(rest, Some(word + Marked(name, false)))
    decreases |name|
  {
    hide Scan;
    if name == "" {
      assert name + rest == rest && word + Marked(name, false) == word;
    } else {
      assert name + rest == [name[0]] + (name[1..] + rest);
      ScanPlain(name[0], name[1..] + rest, Some(word));
      ScanName(name[1..], rest, word + [Symbol(name[0], false)]);
      assert word + [Symbol(name[0], false)] + Marked(name[1..], false) == word + Marked(name, false);
    }
  }

  /** The word an assignment is read as. */
  function AssignmentWord(name: string, value: string): Word {
    Marked(name, false) + [Symbol('=', false)] + Marked(value, true)
  }

  lemma ScanAssignment(name: string, value: string, rest: string)
    requires IsName(name)
    ensures Scan(name + "=" + Quote(value) + rest, None) == Scan(rest, Some(AssignmentWord(name, value)))
  {
    hide Scan, Quote;
    var tail := ['='] + (Quote(value) + rest);
    var head, marked := Marked(name[..1], false), Marked(name, false);
    assert name + "=" + Quote(value) + rest == [name[0]] + (name[1..] + tail);
    ScanPlain(name[0], name[1..] + tail, None);
    assert InWord(None) + [Symbol(name[0], false)] == head;
    ScanName(name[1..], tail, head);
    assert head + Marked(name[1..], false) == marked;
    ScanPlain('=', Quote(value) + rest, Some(marked));
    ScanQuoted(value, rest, Some(marked + [Symbol('=', false)]));
  }

  /** `part` is read as `word`, whatever comes after it. */
  ghost predicate ReadAs(part: string, word: Word) {
    forall rest :: Scan(part + rest, None) == Scan(rest, Some(word))
  }

  lemma ScanBlank(rest: string, word: Word)
    ensures Scan(" " + rest, Some(word)) == Before(word, Scan(rest, None))
  {
    assert (" " + rest)[1..] == rest;
  }

  lemma {:induction false} ScanJoined(parts: seq<string>, words: seq<Word>)
    requires |parts| == |words| && forall i | 0 <= i < |parts| :: ReadAs(parts[i], words[i])
    ensures Scan(Join(parts), None) == Some(words)
    decreases |parts|
  {
    if parts != [] {
      if |parts| == 1 {
        assert ReadAs(parts[0], words[0]);
        assert Scan(parts[0] + "", None) == Scan("", Some(words[0]));
        assert parts[0] + "" == parts[0] && words == [words[0]];
      } else {
        var rest := " " + Join(parts[1..]);
        assert ReadAs(parts[0], words[0]);
        assert Join(parts) == parts[0] + rest;
        assert Scan(parts[0] + rest, None) == Scan(rest, Some(words[0]));
        ScanJoined(parts[1..], words[1..]);
        ScanBlank(Join(parts[1..]), words[0]);
        assert words == [words[0]] + words[1..];
      }
    }
  }

  // ---------------------------------------------------------------------
  // Assignments and commands are told apart
  // ---------------------------------------------------------------------

  lemma {:induction false} FirstEqualsAt(name: string, word: Word)
    requires forall i | 0 <= i < |name| :: IsNameChar(name[i])
    ensures FirstEquals(Marked(name, false) + [Symbol('=', false)] + word) == |name|
  {
    if name != "" {
      var all := Marked(name, false) + [Symbol('=', false)] + word;
      assert all[0] == Symbol(name[0], false);
      assert all[1..] == Marked(name[1..], false) + [Symbol('=', false)] + word;
      FirstEqualsAt(name[1..], word);
    }
  }

  lemma AssignmentRecognised(name: string, value: string)
    requires IsName(name)
    ensures var word := AssignmentWord(name, value); var i := FirstEquals(word);
            IsAssignment(word) && TextOf(word[..i]) == name && TextOf(word[i + 1..]) == value
  {
    FirstEqualsAt(name, Marked(value, true));
    var word := AssignmentWord(name, value);
    assert word[..|name|] == Marked(name, false);
    assert word[|name| + 1..] == Marked(value, true);
    assert TextOf(Marked(name, false)) == name && TextOf(Marked(value, true)) == value;
  }

  lemma {:induction false} QuotedIsNoAssignment(text: string)
    ensures !IsAssignment(Marked(text, true)) && TextOf(Marked(text, true)) == text
  {
    assert forall i | 0 <= i < |text| :: Marked(text, true)[i].quoted;
  }

  function WordsOf(names: seq<string>, env: map<string, string>, command: string, args: seq<string>): seq<Word>
    requires forall i | 0 <= i < |names| :: names[i] in env
  {
    seq(|names|, i requires 0 <= i < |names| => AssignmentWord(names[i], env[names[i]]))
    + [Marked(command, true)]
    + seq(|args|, i requires 0 <= i < |args| => Marked(args[i], true))
  }

  function PairsOf(names: seq<string>, env: map<string, string>): seq<(string, string)>
    requires forall i | 0 <= i < |names| :: names[i] in env
  {
    seq(|names|, i requires 0 <= i < |names| => (names[i], env[names[i]]))
  }

  lemma {:induction false} InterpretWords(names: seq<string>, env: map<string, string>,
                                          command: string, args: seq<string>)
    requires forall i | 0 <= i < |names| :: names[i] in env && IsName(names[i])
    ensures Interpret(WordsOf(names, env, command, args)) == Some(Command(PairsOf(names, env), command, args))
    decreases |names|
  {
    hide IsAssignment, FirstEquals;
    var words := WordsOf(names, env, command, args);
    if names == [] {
      QuotedIsNoAssignment(command);
      assert words[0] == Marked(command, true) && PairsOf(names, env) == [];
      forall i | 0 <= i < |args| ensures TextOf(words[1..][i]) == args[i] {
        QuotedIsNoAssignment(args[i]);
      }
      assert TextsOf(words[1..]) == args;
    } else {
      AssignmentRecognised(names[0], env[names[0]]);
      assert words[0] == AssignmentWord(names[0], env[names[0]]);
      assert words[1..] == WordsOf(names[1..], env, command, args);
      assert PairsOf(names, env) == [(names[0], env[names[0]])] + PairsOf(names[1..], env);
      InterpretWords(names[1..], env, command, args);
    }
  }

  // ---------------------------------------------------------------------
  // The round trip
  // ---------------------------------------------------------------------

  lemma PartsAreRead(names: seq<string>, env: map<string, string>, command: string, args: seq<string>)
    requires forall i | 0 <= i < |names| :: names[i] in env && IsName(names[i])
    ensures Scan(Join(Assignments(names, env) + [Quote(command)] + QuoteAll(args)), None)
            == Some(WordsOf(names, env, command, args))
  {
    hide Scan;
    var parts := Assignments(names, env) + [Quote(command)] + QuoteAll(args);
    var words := WordsOf(names, env, command, args);
    forall i | 0 <= i < |parts| ensures ReadAs(parts[i], words[i]) {
      forall rest ensures Scan(parts[i] + rest, None) == Scan(rest, Some(words[i])) {
        if i < |names| {
          ScanAssignment(names[i], env[names[i]], rest);
        } else {
          var text := if i == |names| then command else args[i - |names| - 1];
          ScanQuoted(text, rest, None);
          assert [] + Marked(text, true) == Marked(text, true);
        }
      }
    }
    ScanJoined(parts, words);
  }

  /** The line a guest gets means the command it was made from, whatever
      characters the command, the arguments and the values contain, exactly when
      every environment name is a name. */
  lemma LineRoundTripIff(command: string, args: seq<string>, env: map<string, string>)
    ensures (forall i | 0 <= i < |Listing(env.Keys)| :: Listing(env.Keys)[i] in env)
    ensures Parse(LineFor(command, args, env)) == Some(Command(PairsOf(Listing(env.Keys), env), command, args))
            <==> forall name | name in env :: IsName(name)
  {
    hide Scan, Interpret, IsName, Join, Quote, WordsOf;
    ListedKeys(env);
    ListingEnumerates(env.Keys);
    var names := Listing(env.Keys);
    if forall name | name in env :: IsName(name) {
      PartsAreRead(names, env, command, args);
      InterpretWords(names, env, command, args);
    } else {
      BadNameIsLost(names, env, command, args, LineFor(command, args, env));
    }
  }

  /** A splitter never reports an assignment to what is not a name. */
  lemma BadNameIsLost(names: seq<string>, env: map<string, string>, command: string, args: seq<string>, line: string)
    requires (forall i | 0 <= i < |names| :: names[i] in env) && (forall name | name in env :: name in names)
    requires exists name :: name in env && !IsName(name)
    ensures Parse(line) != Some(Command(PairsOf(names, env), command, args))
  {
    hide Scan, Interpret, IsName;
    var name :| name in env && !IsName(name);
    assert name in names;
    var i :| 0 <= i < |names| && names[i] == name;
    assert PairsOf(names, env)[i].0 == name;
  }
}
