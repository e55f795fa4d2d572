/**
 * How `/bin/sh` cuts a simple command line into words, for the plain lines
 * the script builds: blanks separate words, a pair of double quotes groups
 * text (blanks included) into one word and is itself removed. Outside quotes
 * only letters, digits and `-_./:=,+@%` are taken as they are; any other
 * character may start a shell feature (expansion, globbing, redirection,
 * escapes, ...), so a line holding one is not plain and scans to `None`.
 * The scanner cuts words only: what the shell then does with a first word
 * that is a variable assignment (`A=b`) or a reserved word (`if`) is outside
 * it, so the statements about commands below ask for a plain command name.
 */
module Shell {
  import opened Wrappers

  /** Characters the shell takes literally outside double quotes. */
  predicate SafeChar(c: char)
  {
    || 'a' <= c <= 'z' || 'A' <= c <= 'Z' || '0' <= c <= '9'
    || c == '-' || c == '_' || c == '.' || c == '/' || c == ':'
    || c == '=' || c == ',' || c == '+' || c == '@' || c == '%'
  }

  /** The POSIX shell's reserved words that can be written with safe characters. */
  const ReservedWords: set<string> :=
    {"case", "do", "done", "elif", "else", "esac", "fi", "for", "if", "in", "then", "until", "while"}

  /** A first word the shell runs as a command: plain, no assignment, not a reserved word. */
  predicate CommandName(w: string)
  {
    PlainWord(w) && '=' !in w && w !in ReservedWords
  }

  /** Characters the shell treats specially inside double quotes. */
  predicate SpecialInQuotes(c: char)
  {
    c == '"' || c == '$' || c == '`' || c == '\\'
  }

  /** Text the shell passes on unchanged as one unquoted word. */
  predicate PlainWord(w: string)
  {
    |w| > 0 && forall i :: 0 <= i < |w| ==> SafeChar(w[i])
  }

  /** Text the shell passes on unchanged as one word between double quotes. */
  predicate QuotableText(w: string)
  {
    forall i :: 0 <= i < |w| ==> !SpecialInQuotes(w[i])
  }

  /** Scanner state: the finished words, the word being built, whether one is open, whether inside quotes. */
  datatype Lexer = Lexer(done: seq<string>, word: string, inWord: bool, quoted: bool)

  function Flush(st: Lexer): (words: seq<string>)
  {
    if st.inWord then st.done + [st.word] else st.done
  }

  function Scan(s: string, st: Lexer): (words: Option<seq<string>>)
    decreases |s|
  {
    if |s| == 0 then
      if st.quoted then None else Some(Flush(st))
    else
      var c := s[0];
      if c == '"' then Scan(s[1..], st.(inWord := true, quoted := !st.quoted))
      else if st.quoted then
        if SpecialInQuotes(c) then None else Scan(s[1..], st.(word := st.word + [c]))
      else if c == ' ' then Scan(s[1..], Lexer(Flush(st), "", false, false))
      else if SafeChar(c) then Scan(s[1..], st.(word := st.word + [c], inWord := true))
      else None
  }

  /** The words the shell passes to the command, or `None` for a line that is not plain. */
  function ShellWords(line: string): (words: Option<seq<string>>)
  {
    Scan(line, Lexer([], "", false, false))
  }

  /** One argument as the script writes it into a command line: bare, or between double quotes. */
  datatype Arg = Bare(text: string) | Quoted(text: string)

  predicate WellFormed(a: Arg)
  {
    match a
    case Bare(t) => PlainWord(t)
    case Quoted(t) => QuotableText(t)
  }

  function RenderArg(a: Arg): (text: string)
  {
    match a
    case Bare(t) => t
    case Quoted(t) => "\"" + t + "\""
  }

  /** The arguments written out, separated by single blanks. */
  function Render(args: seq<Arg>): (line: string)
    decreases |args|
  {
    if |args| == 0 then ""
    else if |args| == 1 then RenderArg(args[0])
    else RenderArg(args[0]) + " " + Render(args[1..])
  }

  function Texts(args: seq<Arg>): (texts: seq<string>)
    ensures |texts| == |args|
    ensures forall i :: 0 <= i < |args| ==> texts[i] == args[i].text
    decreases |args|
  {
    if |args| == 0 then [] else [args[0].text] + Texts(args[1..])
  }

  lemma PlainIsQuotable(w: string)
    requires PlainWord(w)
    ensures QuotableText(w)
  {
    forall i | 0 <= i < |w| ensures !SpecialInQuotes(w[i]) {
      assert SafeChar(w[i]);
    }
  }

  lemma QuotableConcat(a: string, b: string)
    requires QuotableText(a) && QuotableText(b)
    ensures QuotableText(a + b)
  {
    forall i | 0 <= i < |a + b| ensures !SpecialInQuotes((a + b)[i]) {
      if i >= |a| {
        assert (a + b)[i] == b[i - |a|];
      }
    }
  }

  lemma {:induction false} ScanPlain(t: string, rest: string, done: seq<string>, word: string, inWord: bool)
    requires forall i :: 0 <= i < |t| ==> SafeChar(t[i])
    ensures Scan(t + rest, Lexer(done, word, inWord, false))
         == Scan(rest, Lexer(done, word + t, inWord || |t| > 0, false))
    decreases |t|
  {
    if |t| == 0 {
      assert t + rest == rest;
      assert word + t == word;
    } else {
      assert SafeChar(t[0]);
      assert (t + rest)[0] == t[0];
      assert (t + rest)[1..] == t[1..] + rest;
      ScanPlain(t[1..], rest, done, word + [t[0]], true);
      assert word + [t[0]] + t[1..] == word + t;
    }
  }

  lemma {:induction false} ScanQuoted(t: string, rest: string, done: seq<string>, word: string)
    requires QuotableText(t)
    ensures Scan(t + rest, Lexer(done, word, true, true)) == Scan(rest, Lexer(done, word + t, true, true))
    decreases |t|
  {
    if |t| == 0 {
      assert t + rest == rest;
      assert word + t == word;
    } else {
      assert !SpecialInQuotes(t[0]);
      assert (t + rest)[0] == t[0];
      assert (t + rest)[1..] == t[1..] + rest;
      ScanQuoted(t[1..], rest, done, word + [t[0]]);
      assert word + [t[0]] + t[1..] == word + t;
    }
  }

  /** A well-formed argument scans to exactly its text. */
  lemma ScanArg(a: Arg, rest: string, done: seq<string>)
    requires WellFormed(a)
    ensures Scan(RenderArg(a) + rest, Lexer(done, "", false, false)) == Scan(rest, Lexer(done, a.text, true, false))
  {
    match a
    case Bare(t) =>
      ScanPlain(t, rest, done, "", false);
      assert "" + t == t;
    case Quoted(t) =>
      var s := RenderArg(a) + rest;
      assert s == "\"" + (t + ("\"" + rest));
      assert s[1..] == t + ("\"" + rest);
      ScanQuoted(t, "\"" + rest, done, "");
      assert "" + t == t;
      assert ("\"" + rest)[1..] == rest;
  }

  /** A blank after a finished word closes it. */
  lemma ScanBlank(rest: string, done: seq<string>, word: string)
    ensures Scan(" " + rest, Lexer(done, word, true, false)) == Scan(rest, Lexer(done + [word], "", false, false))
  {
    assert (" " + rest)[0] == ' ';
    assert (" " + rest)[1..] == rest;
  }

  /** The first argument, then a blank, then the rest. */
  lemma RenderCons(args: seq<Arg>)
    requires |args| > 1
    ensures Render(args) == RenderArg(args[0]) + (" " + Render(args[1..]))
  {
  }

  /** Scanning one more argument in front of a line that scans to `words`. */
  lemma ScanCons(a: Arg, rest: string, done: seq<string>, words: seq<string>)
    requires WellFormed(a)
    requires Scan(rest, Lexer(done + [a.text], "", false, false)) == Some(done + [a.text] + words)
    ensures Scan(RenderArg(a) + (" " + rest), Lexer(done, "", false, false)) == Some(done + ([a.text] + words))
  {
    ScanArg(a, " " + rest, done);
    ScanBlank(rest, done, a.text);
    assert done + [a.text] + words == done + ([a.text] + words);
  }

  lemma {:induction false} ScanRender(args: seq<Arg>, done: seq<string>)
    requires |args| > 0
    requires forall i :: 0 <= i < |args| ==> WellFormed(args[i])
    ensures Scan(Render(args), Lexer(done, "", false, false)) == Some(done + Texts(args))
    decreases |args|
  {
    var t := args[0].text;
    assert WellFormed(args[0]);
    if |args| == 1 {
      assert Render(args) == RenderArg(args[0]) + "";
      ScanArg(args[0], "", done);
      assert Texts(args) == [t];
    } else {
      var tail := args[1..];
      assert forall i :: 0 <= i < |tail| ==> WellFormed(tail[i]) by {
        forall i | 0 <= i < |tail| ensures WellFormed(tail[i]) {
          assert tail[i] == args[i + 1];
        }
      }
      ScanRender(tail, done + [t]);
      RenderCons(args);
      ScanCons(args[0], Render(tail), done, Texts(tail));
      assert Texts(args) == [t] + Texts(tail);
    }
  }

  /**
   * A command line written out from well-formed arguments, the first a
   * command name, reaches the command as exactly those arguments, one word each.
   */
  lemma ShellWordsOfRender(args: seq<Arg>)
    requires |args| > 0 && args[0].Bare? && CommandName(args[0].text)
    requires forall i :: 0 <= i < |args| ==> WellFormed(args[i])
    ensures ShellWords(Render(args)) == Some(Texts(args))
  {
    ScanRender(args, []);
    assert [] + Texts(args) == Texts(args);
  }
}
