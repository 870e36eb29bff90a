/** The slash commands of a chat line, whatever white space is around their parts. */
module ChatCommands {
  import opened ChatProtocol
  import opened Options

  predicate AllSpace(s: string) {
    forall i :: 0 <= i < |s| ==> IsSpace(s[i])
  }

  /** No white space at either end. */
  predicate Trimmed(s: string) {
    s != "" ==> !IsSpace(s[0]) && !IsSpace(s[|s|-1])
  }

  predicate NoBlank(s: string) {
    forall i :: 0 <= i < |s| ==> s[i] != ' '
  }

  lemma {:induction false} TrimStartPadded(before: string, s: string)
    requires AllSpace(before) && (s != "" ==> !IsSpace(s[0]))
    ensures TrimStart(before + s) == s
    decreases |before|
  {
    if before == "" {
      assert before + s == s;
    } else {
      TrimStartPadded(before[1..], s);
      assert (before + s)[1..] == before[1..] + s;
    }
  }

  lemma {:induction false} TrimEndPadded(s: string, after: string)
    requires AllSpace(after) && (s != "" ==> !IsSpace(s[|s|-1]))
    ensures TrimEnd(s + after) == s
    decreases |after|
  {
    if after == "" {
      assert s + after == s;
    } else {
      TrimEndPadded(s, after[..|after|-1]);
      assert (s + after)[..|s + after|-1] == s + after[..|after|-1];
    }
  }

  /** Blanks, tabs, line ends and the other white space of ECMA-262 section 12.2 are; printing characters are not. */
  lemma {:induction false} WhiteSpace(c: char)
    ensures c in [' ', '\t', '\n', '\r', '\U{A0}', '\U{2028}', '\U{2029}', '\U{FEFF}'] ==> IsSpace(c)
    ensures '!' <= c <= '~' ==> !IsSpace(c)
  {}

  /** Trimming takes off the white space around a text, all of it and nothing else. */
  lemma {:induction false} TrimPadded(before: string, s: string, after: string)
    requires AllSpace(before) && AllSpace(after) && Trimmed(s) && s != ""
    ensures Trim(before + s + after) == s
  {
    assert before + s + after == before + (s + after) && (s + after)[0] == s[0];
    TrimStartPadded(before, s + after);
    TrimEndPadded(s, after);
  }

  lemma {:induction false} TrimsToNothing(s: string)
    requires AllSpace(s)
    ensures Trim(s) == ""
  {
    TrimStartPadded(s, "");
    assert s + "" == s;
  }

  /** Two texts with a blank between them. */
  function Spaced(word: string, rest: string): string {
    word + [' '] + rest
  }

  lemma {:induction false} SpacedIs(word: string, rest: string)
    ensures var s := Spaced(word, rest);
            && |s| == |word| + 1 + |rest| && s[..|word|] == word && s[|word|] == ' ' && s[|word| + 1..] == rest
            && (word != "" ==> s[0] == word[0]) && (rest != "" ==> s[|s|-1] == rest[|rest|-1])
  {}

  lemma {:induction false} FirstBlankAfter(word: string, rest: string)
    requires NoBlank(word)
    ensures FirstBlank(Spaced(word, rest)) == Some(|word|) && FirstBlank(word) == None
  {
    var s := Spaced(word, rest);
    SpacedIs(word, rest);
    assert forall j :: 0 <= j < |word| ==> s[j] == word[j];
  }

  /** A text with white space before it. */
  lemma {:induction false} TrimIndented(between: string, s: string)
    requires AllSpace(between) && Trimmed(s)
    ensures Trim(between + s) == s
  {
    if s == "" {
      assert between + s == between;
      TrimsToNothing(between);
    } else {
      TrimPadded(between, s, "");
      assert between + s + "" == between + s;
    }
  }

  ghost predicate CommandWord(word: string) {
    word != "" && word[0] == '/' && NoBlank(word) && Trimmed(word)
  }

  /** A word that begins with a slash, and white space around it. */
  ghost predicate WordLine(input: string, word: string) {
    && CommandWord(word)
    && exists before, after :: AllSpace(before) && AllSpace(after) && input == before + word + after
  }

  /** The word and what follows it, with white space around both. */
  ghost predicate ArgsLine(input: string, word: string, args: string) {
    && CommandWord(word) && Trimmed(args) && args != ""
    && exists before, between, after ::
         && AllSpace(before) && AllSpace(between) && AllSpace(after)
         && input == before + Spaced(word, between + args) + after
  }

  ghost predicate Line(input: string, word: string, args: string) {
    if args == "" then WordLine(input, word) else ArgsLine(input, word, args)
  }

  lemma {:induction false} SplitsAtBlank(input: string, word: string, args: string)
    requires ArgsLine(input, word, args)
    ensures var trimmed := Trim(input);
            && trimmed != "" && trimmed[0] == '/' && FirstBlank(trimmed) == Some(|word|)
            && |word| < |trimmed| && trimmed[..|word|] == word && Trim(trimmed[|word| + 1..]) == args
  {
    var before, between, after :| && AllSpace(before) && AllSpace(between) && AllSpace(after)
                                  && input == before + Spaced(word, between + args) + after;
    var line, rest := Spaced(word, between + args), between + args;
    SpacedIs(word, rest);
    assert rest[|rest|-1] == args[|args|-1];
    TrimPadded(before, line, after);
    FirstBlankAfter(word, rest);
    TrimIndented(between, args);
  }

  /** What a line is split into. */
  lemma {:induction false} SplitsInto(input: string, word: string, args: string)
    requires Line(input, word, args)
    ensures var trimmed := Trim(input);
            && trimmed != "" && trimmed[0] == '/'
            && match FirstBlank(trimmed)
               case None => trimmed == word && args == ""
               case Some(blank) => trimmed[..blank] == word && Trim(trimmed[blank + 1..]) == args
  {
    if args == "" {
      var before, after :| AllSpace(before) && AllSpace(after) && input == before + word + after;
      TrimPadded(before, word, after);
      FirstBlankAfter(word, "");
    } else {
      SplitsAtBlank(input, word, args);
    }
  }

  /** The four commands that take at most the name of a room. */
  lemma {:induction false} RoomCommands(input: string, args: string)
    ensures Line(input, "/join", args) ==>
              ParseCommand(input) == Some(Command("join", "", "", if args == "" then "general" else args))
    ensures Line(input, "/leave", args) ==> ParseCommand(input) == Some(Command("leave", "", "", ""))
    ensures Line(input, "/list", args) ==> ParseCommand(input) == Some(Command("list", "", "", ""))
    ensures Line(input, "/quit", args) ==> ParseCommand(input) == Some(Command("quit", "", "", ""))
  {
    if Line(input, "/join", args) { OneRoomCommand(input, "/join", args); }
    if Line(input, "/leave", args) { OneRoomCommand(input, "/leave", args); }
    if Line(input, "/list", args) { OneRoomCommand(input, "/list", args); }
    if Line(input, "/quit", args) { OneRoomCommand(input, "/quit", args); }
  }

  lemma {:induction false} OneRoomCommand(input: string, word: string, args: string)
    requires Line(input, word, args) && word in {"/join", "/leave", "/list", "/quit"}
    ensures ParseCommand(input) ==
            Some(Command(if word == "/join" then "join" else if word == "/leave" then "leave"
                         else if word == "/list" then "list" else "quit",
                         "", "", if word != "/join" then "" else if args == "" then GENERAL else args))
  {
    SplitsInto(input, word, args);
  }

  /** A private message takes a nickname without blanks, and the text behind the blank. */
  lemma {:induction false} PrivateCommand(input: string, nick: string, between: string, text: string)
    requires NoBlank(nick) && AllSpace(between) && Trimmed(text)
    requires Line(input, "/msg", Spaced(nick, between + text))
    ensures ParseCommand(input) == Some(Command("privmsg", nick, text, ""))
  {
    SplitsInto(input, "/msg", Spaced(nick, between + text));
    SpacedIs(nick, between + text);
    FirstBlankAfter(nick, between + text);
    TrimIndented(between, text);
  }

  /** Without a text it is no command; nor is any other word, or a line that does not begin with a slash. */
  lemma {:induction false} NoCommand(input: string, word: string, args: string)
    ensures Line(input, "/msg", args) && NoBlank(args) ==> ParseCommand(input) == None
    ensures Line(input, word, args) && word !in {"/msg", "/join", "/leave", "/list", "/quit"} ==>
              ParseCommand(input) == None
    ensures (Trim(input) == "" || Trim(input)[0] != '/') ==> ParseCommand(input) == None
  {
    if Line(input, "/msg", args) && NoBlank(args) {
      SplitsInto(input, "/msg", args);
      FirstBlankAfter(args, "");
      assert FirstBlank("") == None;
    }
    if Line(input, word, args) { SplitsInto(input, word, args); }
  }
}
