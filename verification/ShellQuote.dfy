/**
 Quoting a payload command for the session script, against the shell that reads it: the token
 recognition of the POSIX Shell Command Language, sections 2.2.1 (escape character), 2.2.2 (single
 quotes) and 2.3, for words made of those.
 */
module ShellQuote {
  import opened Bytes

  /** `s` with every single quote replaced by quote, backslash, quote, quote. */
  function Escaped(s: string): string {
    if s == [] then [] else (if s[0] == '\'' then "'\\''" else [s[0]]) + Escaped(s[1..])
  }

  function Quote(s: string): string { "'" + Escaped(s) + "'" }

  /** The quoted arguments, separated by single spaces. */
  function Joined(args: seq<string>): string {
    if args == [] then ""
    else if |args| == 1 then Quote(args[0])
    else Quote(args[0]) + " " + Joined(args[1..])
  }

  function ExecLine(args: seq<string>): string { "exec " + Joined(args) + "\n" }

  // The shell's side.

  /** Where the reader is: between words, in one, in single quotes, or after a backslash. */
  datatype Mode = Between | Word | Single | Escape(inWord: bool)

  /** A command's words and what follows its line. */
  datatype Command = Command(words: seq<string>, rest: string)

  /** Unquoted characters that mean more than themselves, none of which this lexer reads. */
  predicate Special(c: char) {
    c in {'|', '&', ';', '<', '>', '(', ')', '$', '`', '"', '*', '?', '[', ']', '~', '=', '%', '!', '{', '}', '\r'}
  }

  /** Nothing is a command with a NUL in it, an unfinished quote, or an unquoted special character. */
  function Lex(s: string, mode: Mode, word: string, words: seq<string>): Option<Command>
    decreases |s|
  {
    if s == [] then
      (match mode
       case Between => Some(Command(words, []))
       case Word => Some(Command(words + [word], []))
       case _ => None)
    else if s[0] == '\0' then None
    else
      var c, t := s[0], s[1..];
      match mode
      case Single => if c == '\'' then Lex(t, Word, word, words) else Lex(t, Single, word + [c], words)
      case Escape(inWord) =>
        if c == '\n' then Lex(t, if inWord then Word else Between, word, words)
        else Lex(t, Word, word + [c], words)
      case Between =>
        if c == '\n' then Some(Command(words, t))
        else if c == ' ' || c == '\t' then Lex(t, Between, "", words)
        else if c == '\'' then Lex(t, Single, "", words)
        else if c == '\\' then Lex(t, Escape(false), "", words)
        else if c == '#' || Special(c) then None
        else Lex(t, Word, [c], words)
      case Word =>
        if c == '\n' then Some(Command(words + [word], t))
        else if c == ' ' || c == '\t' then Lex(t, Between, "", words + [word])
        else if c == '\'' then Lex(t, Single, word, words)
        else if c == '\\' then Lex(t, Escape(true), word, words)
        else if Special(c) then None
        else Lex(t, Word, word + [c], words)
  }

  predicate NulFree(s: string) { '\0' !in s }

  /** The text of an escaped string, inside quotes, is the string. */
  lemma {:induction false} LexEscaped(s: string, rest: string, word: string, words: seq<string>)
    requires NulFree(s)
    ensures Lex(Escaped(s) + "'" + rest, Single, word, words) == Lex(rest, Word, word + s, words)
  {
    if s == [] {
      assert Escaped(s) + "'" + rest == ['\''] + rest;
      assert word + s == word;
    } else {
      var tail := Escaped(s[1..]) + "'" + rest;
      assert word + s == word + [s[0]] + s[1..];
      if s[0] == '\'' {
        LexQuoteMark(tail, word, words);
        assert Escaped(s) + "'" + rest == "'\\''" + tail;
      } else {
        assert Escaped(s) + "'" + rest == [s[0]] + tail;
        assert ([s[0]] + tail)[1..] == tail;
      }
      LexEscaped(s[1..], rest, word + [s[0]], words);
    }
  }

  /** Leaving the quotes, an escaped quote mark, and entering them again. */
  lemma LexQuoteMark(t: string, word: string, words: seq<string>)
    ensures Lex("'\\''" + t, Single, word, words) == Lex(t, Single, word + ['\''], words)
  {
    assert ("'\\''" + t)[1..] == "\\''" + t;
    assert ("\\''" + t)[1..] == "''" + t;
    assert ("''" + t)[1..] == "'" + t;
    assert ("'" + t)[1..] == t;
    assert Lex("'" + t, Word, word + ['\''], words) == Lex(t, Single, word + ['\''], words);
    assert Lex("''" + t, Escape(true), word, words) == Lex("'" + t, Word, word + ['\''], words);
    assert Lex("\\''" + t, Word, word, words) == Lex("''" + t, Escape(true), word, words);
  }

  lemma LexQuoted(s: string, rest: string, words: seq<string>)
    requires NulFree(s)
    ensures Lex(Quote(s) + rest, Between, "", words) == Lex(rest, Word, s, words)
  {
    var body := Escaped(s) + "'" + rest;
    assert Quote(s) + rest == ['\''] + body;
    assert (['\''] + body)[1..] == body;
    LexEscaped(s, rest, "", words);
    assert "" + s == s;
  }

  lemma LexEndsWord(t: string, word: string, words: seq<string>)
    ensures Lex("\n" + t, Word, word, words) == Some(Command(words + [word], t))
    ensures Lex("\n" + t, Between, "", words) == Some(Command(words, t))
    ensures Lex(" " + t, Word, word, words) == Lex(t, Between, "", words + [word])
  {
    assert ("\n" + t)[1..] == t && (" " + t)[1..] == t;
  }

  /** The text after the first argument: a space and the other arguments, or the end of the line. */
  function AfterFirst(args: seq<string>, tail: string): string
    requires args != []
  {
    if |args| == 1 then "\n" + tail else " " + (Joined(args[1..]) + "\n" + tail)
  }

  lemma JoinedParts(args: seq<string>, tail: string)
    requires args != []
    ensures Joined(args) + "\n" + tail == Quote(args[0]) + AfterFirst(args, tail)
  {
    hide Quote;
  }

  lemma {:induction false} LexJoined(args: seq<string>, tail: string, words: seq<string>)
    requires forall a <- args :: NulFree(a)
    ensures Lex(Joined(args) + "\n" + tail, Between, "", words) == Some(Command(words + args, tail))
  {
    hide Quote, Lex, Joined, NulFree;
    if args == [] {
      LexEndsWord(tail, "", words);
      NoArguments(tail);
      assert words + args == words;
    } else {
      LexQuoted(args[0], AfterFirst(args, tail), words);
      JoinedParts(args, tail);
      if |args| == 1 {
        LexEndsWord(tail, args[0], words);
        assert words + [args[0]] == words + args;
      } else {
        LexEndsWord(Joined(args[1..]) + "\n" + tail, args[0], words);
        LexJoined(args[1..], tail, words + [args[0]]);
        assert words + [args[0]] + args[1..] == words + args;
      }
    }
  }

  lemma NoArguments(tail: string)
    ensures Joined([]) + "\n" + tail == "\n" + tail
  {}

  // A NUL spoils the command wherever it stands.

  lemma EscapedKeepsNul(s: string)
    requires !NulFree(s)
    ensures '\0' in Escaped(s)
  {}

  lemma {:induction false} JoinedKeepsNul(args: seq<string>, i: nat)
    requires i < |args| && !NulFree(args[i])
    ensures '\0' in Joined(args)
  {
    if i == 0 {
      EscapedKeepsNul(args[0]);
    } else {
      JoinedKeepsNul(args[1..], i - 1);
    }
  }

  /** A command's words and rest are all of the text, so no NUL is passed over. */
  lemma {:induction false} LexStopsAtNul(s: string, mode: Mode, word: string, words: seq<string>)
    ensures var r := Lex(s, mode, word, words);
            r.Some? ==> |r.value.rest| <= |s| && s[|s| - |r.value.rest|..] == r.value.rest
                        && NulFree(s[..|s| - |r.value.rest|])
    decreases |s|
  {
    if s != [] && s[0] != '\0' {
      var c, t := s[0], s[1..];
      var r := Lex(s, mode, word, words);
      if r.Some? {
        assert s == [c] + t;
        var done := (mode.Between? || mode.Word?) && c == '\n';
        if !done {
          var (m, w, ws) := NextState(c, mode, word, words);
          NextIsLex(s, mode, word, words);
          LexStopsAtNul(t, m, w, ws);
          var n := |t| - |r.value.rest|;
          assert s[..n + 1] == [c] + t[..n];
        }
      }
    }
  }

  /** One character's effect where the command goes on. */
  function NextState(c: char, mode: Mode, word: string, words: seq<string>): (Mode, string, seq<string>) {
    match mode
    case Single => if c == '\'' then (Word, word, words) else (Single, word + [c], words)
    case Escape(inWord) =>
      if c == '\n' then (if inWord then Word else Between, word, words) else (Word, word + [c], words)
    case Between =>
      if c == ' ' || c == '\t' then (Between, "", words)
      else if c == '\'' then (Single, "", words)
      else if c == '\\' then (Escape(false), "", words)
      else (Word, [c], words)
    case Word =>
      if c == ' ' || c == '\t' then (Between, "", words + [word])
      else if c == '\'' then (Single, word, words)
      else if c == '\\' then (Escape(true), word, words)
      else (Word, word + [c], words)
  }

  lemma NextIsLex(s: string, mode: Mode, word: string, words: seq<string>)
    requires s != [] && Lex(s, mode, word, words).Some? && !((mode.Between? || mode.Word?) && s[0] == '\n')
    ensures var (m, w, ws) := NextState(s[0], mode, word, words);
            Lex(s, mode, word, words) == Lex(s[1..], m, w, ws)
  {}

  predicate Plain(c: char) { c !in {'\0', '\n', ' ', '\t', '\'', '\\', '#'} && !Special(c) }

  lemma {:induction false} LexPlain(plain: string, rest: string, word: string, words: seq<string>)
    requires forall i :: 0 <= i < |plain| ==> Plain(plain[i])
    ensures Lex(plain + rest, Word, word, words) == Lex(rest, Word, word + plain, words)
  {
    if plain == [] {
      assert plain + rest == rest && word + plain == word;
    } else {
      assert (plain + rest)[1..] == plain[1..] + rest;
      LexPlain(plain[1..], rest, word + [plain[0]], words);
      assert word + [plain[0]] + plain[1..] == word + plain;
    }
  }

  lemma LexExec(rest: string)
    ensures Lex("exec " + rest, Between, "", []) == Lex(rest, Between, "", ["exec"])
  {
    assert ("exec " + rest)[1..] == "xec" + (" " + rest);
    LexPlain("xec", " " + rest, "e", []);
    assert "e" + "xec" == "exec" && [] + ["exec"] == ["exec"];
    LexEndsWord(rest, "exec", []);
  }

  /**
   The shell reads the exec line as exactly the payload's arguments, whatever text follows it, if and
   only if no argument contains a NUL: quotes, backslashes, spaces, newlines, empty arguments and
   all other characters survive.
   */
  lemma QuotingRoundTrip(args: seq<string>, tail: string)
    ensures Lex(ExecLine(args) + tail, Between, "", []) == Some(Command(["exec"] + args, tail))
            <==> forall a <- args :: NulFree(a)
  {
    hide Lex, Joined;
    var rest := Joined(args) + "\n" + tail;
    assert ExecLine(args) + tail == "exec " + rest;
    if forall a <- args :: NulFree(a) {
      LexExec(rest);
      LexJoined(args, tail, ["exec"]);
    } else {
      var i: nat :| i < |args| && !NulFree(args[i]);
      JoinedKeepsNul(args, i);
      NulSpoils(args, tail);
    }
  }

  lemma NulSpoils(args: seq<string>, tail: string)
    requires '\0' in Joined(args)
    ensures Lex(ExecLine(args) + tail, Between, "", []) != Some(Command(["exec"] + args, tail))
  {
    hide Lex, Joined;
    var s := ExecLine(args) + tail;
    LexStopsAtNul(s, Between, "", []);
    assert s[..|s| - |tail|] == ExecLine(args);
    assert '\0' in ExecLine(args);
  }

  /** Different argument lists give different command lines. */
  lemma QuotingInjective(a: seq<string>, b: seq<string>)
    requires (forall x <- a :: NulFree(x)) && (forall x <- b :: NulFree(x)) && ExecLine(a) == ExecLine(b)
    ensures a == b
  {
    hide Lex, Joined, ExecLine;
    QuotingRoundTrip(a, "");
    QuotingRoundTrip(b, "");
    assert (["exec"] + a)[1..] == a && (["exec"] + b)[1..] == b;
  }
}
