/**
 * Rendering an argv as a shell line (kit/proc/option.go, kit/runner/runner.go, kit/ssh/ssh.go) and
 * reading it back. A string is a sequence of bytes, one character each.
 */
module Shell {
  import opened Wrappers

  /** The characters of `shellSafe`. */
  predicate Safe(c: char) {
    'a' <= c <= 'z' || 'A' <= c <= 'Z' || '0' <= c <= '9' || c in "@%+=:,./-_"
  }

  // ----- The printer -----

  /** `strings.ReplaceAll(s, "'", "'\\''")`. */
  function EscapeQuotes(s: string): string {
    if s == "" then ""
    else (if s[0] == '\'' then "'\\''" else [s[0]]) + EscapeQuotes(s[1..])
  }

  /** `ssh.Quote`. */
  function Quote(s: string): string {
    "'" + EscapeQuotes(s) + "'"
  }

  predicate AllSafe(s: string) {
    forall c <- s :: Safe(c)
  }

  /** `shellWord`: quotes only when something in the word needs it. */
  function ShellWord(s: string): string {
    if s == "" then "''"
    else if AllSafe(s) then s
    else "'" + EscapeQuotes(s) + "'"
  }

  /** The argv rendered word by word, one space apart. */
  function Joined(word: string -> string, argv: seq<string>): string
    requires argv != []
  {
    if |argv| == 1 then word(argv[0])
    else Joined(word, argv[..|argv| - 1]) + " " + word(argv[|argv| - 1])
  }

  method CommandLine(name: string, args: seq<string>) returns (line: string)
    ensures line == Joined(ShellWord, [name] + args)
  {
    line := ShellWord(name);
    for i := 0 to |args|
      invariant line == Joined(ShellWord, [name] + args[..i])
    {
      line := line + " ";
      line := line + ShellWord(args[i]);
      assert ([name] + args[..i + 1])[..i + 1] == [name] + args[..i];
    }
    assert args[..|args|] == args;
  }

  /** The command `Remote.Run` hands to ssh: every word quoted. */
  method RemoteCommand(name: string, args: seq<string>) returns (command: string)
    ensures command == Joined(Quote, [name] + args)
  {
    command := Quote(name);
    for i := 0 to |args|
      invariant command == Joined(Quote, [name] + args[..i])
    {
      command := command + (" " + Quote(args[i]));
      assert ([name] + args[..i + 1])[..i + 1] == [name] + args[..i];
    }
    assert args[..|args|] == args;
  }

  // ----- The reader: token recognition and quote removal of the Shell Command Language -----

  /** `Between` words, in a word, inside single quotes, or right after an unquoted backslash. */
  datatype Mode = Between | InWord | InQuote | Escaped(inWord: bool)

  /**
   * Printable ASCII that the shell takes as itself outside quotations. Section 2.2 of the Shell Command
   * Language, IEEE Std 1003.1-2017, names the characters that must be quoted, and those that must be in
   * some places; braces, brackets, `!` and `^` mean something to common shells. All these are refused.
   */
  predicate TakenAsItself(c: char) {
    ' ' < c <= '~' && c !in "|&;<>()$`\\\"'*?[]{}!#~^"
  }

  /**
   * Sections 2.2.1, 2.2.2, 2.3 and 2.6.7 of that standard, restricted to input whose unquoted characters
   * are blanks, backslashes, single quotes or taken as themselves: anything else unquoted is refused, and
   * so is input that ends inside a quotation.
   */
  function Tokens(s: string, mode: Mode, word: string): Option<seq<string>> {
    if s == "" then
      match mode
      case Between => Some([])
      case InWord => Some([word])
      case _ => None
    else
      var c, rest := s[0], s[1..];
      match mode
      case InQuote =>
        if c == '\'' then Tokens(rest, InWord, word) else Tokens(rest, InQuote, word + [c])
      case Escaped(inWord) =>
        // A backslash before a newline is a line continuation, and both disappear.
        if c == '\n' then Tokens(rest, if inWord then InWord else Between, word)
        else Tokens(rest, InWord, word + [c])
      case _ =>
        if c in " \t" then
          if mode.Between? then Tokens(rest, Between, "")
          else
            match Tokens(rest, Between, "")
            case Some(words) => Some([word] + words)
            case None => None
        else if c == '\'' then Tokens(rest, InQuote, word)
        else if c == '\\' then Tokens(rest, Escaped(mode.InWord?), word)
        else if TakenAsItself(c) then Tokens(rest, InWord, word + [c])
        else None
  }

  function Tokenise(line: string): Option<seq<string>> {
    Tokens(line, Between, "")
  }

  // ----- The reader undoes the printer -----

  /** A quote inside a quoted word: close, escape, reopen. */
  lemma ReadQuoteMark(tail: string, word: string)
    ensures Tokens("'\\''" + tail, InQuote, word) == Tokens(tail, InQuote, word + ['\''])
  {
    var t0 := "'\\''" + tail;
    var t1 := "\\''" + tail;
    var t2 := "''" + tail;
    var t3 := "'" + tail;
    assert t0[1..] == t1 && t1[1..] == t2 && t2[1..] == t3 && t3[1..] == tail;
    assert Tokens(t3, InWord, word + ['\'']) == Tokens(tail, InQuote, word + ['\'']);
    assert Tokens(t2, Escaped(true), word) == Tokens(t3, InWord, word + ['\'']);
    assert Tokens(t1, InWord, word) == Tokens(t2, Escaped(true), word);
    assert Tokens(t0, InQuote, word) == Tokens(t1, InWord, word);
  }

  lemma {:induction false} ReadEscaped(s: string, rest: string, word: string)
    ensures Tokens(EscapeQuotes(s) + rest, InQuote, word) == Tokens(rest, InQuote, word + s)
  {
    if s == "" {
      assert EscapeQuotes(s) + rest == rest && word + s == word;
    } else {
      var tail := EscapeQuotes(s[1..]) + rest;
      ReadEscaped(s[1..], rest, word + [s[0]]);
      assert word + [s[0]] + s[1..] == word + s;
      if s[0] == '\'' {
        assert EscapeQuotes(s) + rest == "'\\''" + tail;
        ReadQuoteMark(tail, word);
      } else {
        assert EscapeQuotes(s) + rest == [s[0]] + tail && ([s[0]] + tail)[1..] == tail;
      }
    }
  }

  lemma ReadQuote(s: string, rest: string, mode: Mode, word: string)
    requires mode.Between? || mode.InWord?
    ensures Tokens(Quote(s) + rest, mode, word) == Tokens(rest, InWord, word + s)
  {
    var text := Quote(s) + rest;
    assert text[0] == '\'' && text[1..] == EscapeQuotes(s) + ("'" + rest);
    ReadEscaped(s, "'" + rest, word);
    assert ("'" + rest)[1..] == rest;
  }

  /** The characters the printer leaves bare are exactly those the shell takes as themselves. */
  lemma SafeIsTakenAsItself(c: char)
    ensures Safe(c) <==> TakenAsItself(c)
    ensures Safe(c) ==> c !in " \t'\\"
  {
  }

  lemma {:induction false} ReadSafe(s: string, rest: string, mode: Mode, word: string)
    requires s != "" && AllSafe(s) && (mode.Between? || mode.InWord?)
    ensures Tokens(s + rest, mode, word) == Tokens(rest, InWord, word + s)
  {
    var text := s + rest;
    assert text[0] == s[0] && text[1..] == s[1..] + rest && Safe(s[0]);
    SafeIsTakenAsItself(s[0]);
    assert Tokens(text, mode, word) == Tokens(text[1..], InWord, word + [s[0]]);
    if |s| == 1 {
      assert s[1..] + rest == rest && word + [s[0]] == word + s;
    } else {
      ReadSafe(s[1..], rest, InWord, word + [s[0]]);
      assert word + [s[0]] + s[1..] == word + s;
    }
  }

  lemma ReadWord(s: string, rest: string)
    ensures Tokens(ShellWord(s) + rest, Between, "") == Tokens(rest, InWord, s)
  {
    assert "" + s == s;
    if s == "" {
      ReadQuote(s, rest, Between, "");
    } else if AllSafe(s) {
      ReadSafe(s, rest, Between, "");
    } else {
      ReadQuote(s, rest, Between, "");
    }
  }

  lemma ReadQuoted(s: string, rest: string)
    ensures Tokens(Quote(s) + rest, Between, "") == Tokens(rest, InWord, s)
  {
    assert "" + s == s;
    ReadQuote(s, rest, Between, "");
  }

  /** A printer whose every word reads back as itself, up to the blank that ends it. */
  ghost predicate Readable(word: string -> string) {
    forall s, rest {:trigger Tokens(word(s) + rest, Between, "")} ::
      Tokens(word(s) + rest, Between, "") == Tokens(rest, InWord, s)
  }

  lemma {:induction false} ReadJoined(word: string -> string, argv: seq<string>, rest: string)
    requires argv != [] && Readable(word)
    ensures Tokens(Joined(word, argv) + rest, Between, "") ==
            Prepend(argv[..|argv| - 1], Tokens(rest, InWord, argv[|argv| - 1]))
  {
    var n := |argv| - 1;
    if n == 0 {
      var more := Tokens(rest, InWord, argv[0]);
      assert more.Some? ==> argv[..0] + more.value == more.value;
    } else {
      var front, last := argv[..n], argv[n];
      var tail := word(last) + rest;
      JoinedLast(word, argv, rest);
      ReadJoined(word, front, " " + tail);
      ReadBlank(tail, front[n - 1]);
      PrependTwice(front[..n - 1], [front[n - 1]], Tokens(tail, Between, ""));
      assert argv[..n] == front[..n - 1] + [front[n - 1]];
    }
  }

  lemma JoinedLast(word: string -> string, argv: seq<string>, rest: string)
    requires |argv| > 1
    ensures Joined(word, argv) + rest == Joined(word, argv[..|argv| - 1]) + (" " + (word(argv[|argv| - 1]) + rest))
  {
  }

  lemma ReadBlank(tail: string, word: string)
    ensures Tokens(" " + tail, InWord, word) == Prepend([word], Tokens(tail, Between, ""))
  {
    assert (" " + tail)[1..] == tail;
  }

  function Prepend(words: seq<string>, more: Option<seq<string>>): Option<seq<string>> {
    match more
    case Some(tail) => Some(words + tail)
    case None => None
  }

  lemma PrependTwice(a: seq<string>, b: seq<string>, more: Option<seq<string>>)
    ensures Prepend(a, Prepend(b, more)) == Prepend(a + b, more)
  {
    if more.Some? {
      assert a + (b + more.value) == (a + b) + more.value;
    }
  }

  lemma ReadBack(word: string -> string, argv: seq<string>)
    requires argv != [] && Readable(word)
    ensures Tokenise(Joined(word, argv)) == Some(argv)
  {
    ReadJoined(word, argv, "");
    assert Joined(word, argv) + "" == Joined(word, argv);
    assert Tokens("", InWord, argv[|argv| - 1]) == Some([argv[|argv| - 1]]);
    assert argv[..|argv| - 1] + [argv[|argv| - 1]] == argv;
  }

  /** Pasting the printed line into a shell runs exactly the argv that was printed. */
  lemma CommandLineRoundTrip(name: string, args: seq<string>)
    ensures Tokenise(Joined(ShellWord, [name] + args)) == Some([name] + args)
  {
    forall s, rest {:trigger Tokens(ShellWord(s) + rest, Between, "")}
      ensures Tokens(ShellWord(s) + rest, Between, "") == Tokens(rest, InWord, s)
    {
      ReadWord(s, rest);
    }
    ReadBack(ShellWord, [name] + args);
  }

  /** The remote login shell sees exactly the argv the caller passed. */
  lemma RemoteRoundTrip(name: string, args: seq<string>)
    ensures Tokenise(Joined(Quote, [name] + args)) == Some([name] + args)
  {
    forall s, rest {:trigger Tokens(Quote(s) + rest, Between, "")}
      ensures Tokens(Quote(s) + rest, Between, "") == Tokens(rest, InWord, s)
    {
      ReadQuoted(s, rest);
    }
    ReadBack(Quote, [name] + args);
  }

  /** Different commands never print alike, locally or remotely. */
  lemma PrintersAreInjective(name: string, args: seq<string>, name': string, args': seq<string>)
    requires || Joined(ShellWord, [name] + args) == Joined(ShellWord, [name'] + args')
             || Joined(Quote, [name] + args) == Joined(Quote, [name'] + args')
    ensures name == name' && args == args'
  {
    CommandLineRoundTrip(name, args);
    CommandLineRoundTrip(name', args');
    RemoteRoundTrip(name, args);
    RemoteRoundTrip(name', args');
    var a, b := [name] + args, [name'] + args';
    assert a == b;
    assert name == a[0] == b[0] && args == a[1..] == b[1..];
  }

  /** The fast path is taken exactly for a word the shell reads unchanged: letters, digits and these marks. */
  lemma BareOnlyWhenSafe(s: string)
    ensures ShellWord(s) == s <==>
              && s != ""
              && forall c <- s :: 'a' <= c <= 'z' || 'A' <= c <= 'Z' || '0' <= c <= '9' || c in "@%+=:,./-_"
    ensures ShellWord(s) == s <==> Tokens(s, Between, "") == Some([s])
  {
    if s != "" && !AllSafe(s) {
      EscapeGrows(s);
      var c :| c in s && !Safe(c);
      SafeIsTakenAsItself(c);
      ReadingLoses(s, Between, "", c);
      assert [s][1..] == [] && Total([s]) == |s|;
    } else if s != "" {
      ReadWord(s, "");
      assert s + "" == s;
    }
  }

  function Total(words: seq<string>): nat {
    if words == [] then 0 else |words[0]| + Total(words[1..])
  }

  /** Modes in which no word has been begun. */
  predicate NoWordYet(mode: Mode) {
    mode.Between? || (mode.Escaped? && !mode.inWord)
  }

  /** Reading never makes text: quotations and blanks are dropped, everything else is kept. */
  lemma {:induction false} ReadingKeepsAtMost(s: string, mode: Mode, word: string)
    requires NoWordYet(mode) ==> word == ""
    ensures Tokens(s, mode, word).Some? ==> Total(Tokens(s, mode, word).value) <= |word| + |s|
  {
    if s == "" {
      assert [word][1..] == [];
    } else {
      var c, rest := s[0], s[1..];
      match mode
      case InQuote =>
        ReadingKeepsAtMost(rest, InWord, word);
        ReadingKeepsAtMost(rest, InQuote, word + [c]);
      case Escaped(inWord) =>
        ReadingKeepsAtMost(rest, if inWord then InWord else Between, word);
        ReadingKeepsAtMost(rest, InWord, word + [c]);
      case _ =>
        ReadingKeepsAtMost(rest, Between, "");
        ReadingKeepsAtMost(rest, InQuote, word);
        ReadingKeepsAtMost(rest, Escaped(mode.InWord?), word);
        ReadingKeepsAtMost(rest, InWord, word + [c]);
        EndWord(word, rest);
    }
  }

  lemma EndWord(word: string, rest: string)
    ensures Tokens(rest, Between, "").Some? ==>
              Total([word] + Tokens(rest, Between, "").value) == |word| + Total(Tokens(rest, Between, "").value)
  {
    if Tokens(rest, Between, "").Some? {
      assert ([word] + Tokens(rest, Between, "").value)[1..] == Tokens(rest, Between, "").value;
    }
  }

  /** And an unquoted character that means something to the shell is lost. */
  lemma {:induction false} ReadingLoses(s: string, mode: Mode, word: string, c: char)
    requires c in s && !TakenAsItself(c) && (mode.Between? || mode.InWord?) && (mode.Between? ==> word == "")
    ensures Tokens(s, mode, word).Some? ==> Total(Tokens(s, mode, word).value) < |word| + |s|
  {
    var rest := s[1..];
    if s[0] in " \t" {
      ReadingKeepsAtMost(rest, Between, "");
      EndWord(word, rest);
    } else if s[0] == '\'' {
      ReadingKeepsAtMost(rest, InQuote, word);
    } else if s[0] == '\\' {
      ReadingKeepsAtMost(rest, Escaped(mode.InWord?), word);
    } else if TakenAsItself(s[0]) {
      ReadingLoses(rest, InWord, word + [s[0]], c);
    }
  }

  lemma {:induction false} EscapeGrows(s: string)
    ensures |EscapeQuotes(s)| >= |s|
  {
    if s != "" {
      EscapeGrows(s[1..]);
    }
  }
}
