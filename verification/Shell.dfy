/**
 Quoting for the startup script. The printer is the operator's, the parser is the POSIX shell's:
 the round trip says that what the operator puts on the command line is what the server gets.

 Models shellQuote and the STATIC_ARGS line of entrypointScript in
 internal/controller/entrypoint.go. The lexer follows sections 2.2.1 (escape character) and 2.2.2
 (single-quotes) of the Shell Command Language, IEEE Std 1003.1-2017, and section 2.3 for blanks;
 any other special character outside quotes is refused.
 */
module Shell {
  import opened Options

  const NUL: char := '\0'
  const QUOTE: char := '\''
  const BACKSLASH: char := '\\'

  // ---------- the printer ----------

  /** strings.ReplaceAll of every single quote by quote, backslash, quote, quote. */
  function Escape(s: string): string {
    if s == "" then ""
    else (if s[0] == QUOTE then [QUOTE, BACKSLASH, QUOTE, QUOTE] else [s[0]]) + Escape(s[1..])
  }

  function ShellQuote(s: string): string {
    [QUOTE] + Escape(s) + [QUOTE]
  }

  /** strings.Join with a space. */
  function Joined(words: seq<string>): string {
    if words == [] then ""
    else if |words| == 1 then words[0]
    else words[0] + " " + Joined(words[1..])
  }

  function QuoteAll(args: seq<string>): (qs: seq<string>)
    ensures |qs| == |args|
    ensures forall k :: 0 <= k < |args| ==> qs[k] == ShellQuote(args[k])
  {
    seq(|args|, k requires 0 <= k < |args| => ShellQuote(args[k]))
  }

  /** What the script's STATIC_ARGS=( ) holds. */
  function ArgsLine(args: seq<string>): string {
    Joined(QuoteAll(args))
  }

  // ---------- the parser ----------

  /** Between words, inside a word, or inside single quotes. */
  datatype Mode = Between | InWord | InQuotes

  predicate IsBlank(ch: char) {
    ch == ' ' || ch == '\t' || ch == '\n'
  }

  /** Characters that mean something else to the shell when they are not quoted. */
  predicate IsSpecial(ch: char) {
    ch in "|&;<>()$`\"*?[#~"
  }

  /** The words of NUL-free input; None when it is unterminated or needs more of the shell than quoting. */
  function Lex(s: string, mode: Mode, word: string, words: seq<string>): Option<seq<string>>
    decreases |s|
  {
    if s == "" then
      match mode
      case Between => Some(words)
      case InWord => Some(words + [word])
      case InQuotes => None
    else if mode == InQuotes then
      if s[0] == QUOTE then Lex(s[1..], InWord, word, words) else Lex(s[1..], InQuotes, word + [s[0]], words)
    else if IsBlank(s[0]) then
      Lex(s[1..], Between, "", if mode == InWord then words + [word] else words)
    else if s[0] == QUOTE then Lex(s[1..], InQuotes, word, words)
    else if s[0] == BACKSLASH then
      if |s| == 1 then None
      else if s[1] == '\n' then Lex(s[2..], mode, word, words)
      else Lex(s[2..], InWord, word + [s[1]], words)
    else if IsSpecial(s[0]) then None
    else Lex(s[1..], InWord, word + [s[0]], words)
  }

  /** The words of any input. The shell's input is text, which has no NUL. */
  function Words(s: string): Option<seq<string>> {
    if NUL in s then None else Lex(s, Between, "", [])
  }

  // ---------- reading a quoted line ----------

  lemma LexPlain(ch: char, after: string, word: string, words: seq<string>)
    requires ch != QUOTE
    ensures Lex([ch] + after, InQuotes, word, words)
            == Lex(after, InQuotes, word + [ch], words)
  {
  }

  /** The four characters that stand for a quote: out of the quotes, an escaped quote, and back in. */
  lemma LexEscapedQuote(after: string, word: string, words: seq<string>)
    ensures Lex([QUOTE, BACKSLASH, QUOTE, QUOTE] + after, InQuotes, word, words)
            == Lex(after, InQuotes, word + [QUOTE], words)
  {
    var a, b, c := [QUOTE, BACKSLASH, QUOTE, QUOTE] + after, [BACKSLASH, QUOTE, QUOTE] + after, [QUOTE] + after;
    assert a[1..] == b && b[2..] == c && c[1..] == after;
    assert Lex(a, InQuotes, word, words) == Lex(b, InWord, word, words);
    assert Lex(b, InWord, word, words) == Lex(c, InWord, word + [QUOTE], words);
  }

  lemma {:induction false} LexEscaped(s: string, rest: string, word: string, words: seq<string>)
    ensures Lex(Escape(s) + [QUOTE] + rest, InQuotes, word, words)
            == Lex(rest, InWord, word + s, words)
  {
    var text := Escape(s) + [QUOTE] + rest;
    if s == "" {
      assert text[0] == QUOTE && text[1..] == rest;
      assert word + s == word;
    } else {
      var after := Escape(s[1..]) + [QUOTE] + rest;
      LexEscaped(s[1..], rest, word + [s[0]], words);
      assert word + [s[0]] + s[1..] == word + s;
      if s[0] == QUOTE {
        assert text == [QUOTE, BACKSLASH, QUOTE, QUOTE] + after;
        LexEscapedQuote(after, word, words);
      } else {
        assert text == [s[0]] + after;
        LexPlain(s[0], after, word, words);
      }
    }
  }

  lemma LexQuoted(s: string, rest: string, mode: Mode, word: string, words: seq<string>)
    requires mode != InQuotes
    ensures Lex(ShellQuote(s) + rest, mode, word, words)
            == Lex(rest, InWord, word + s, words)
  {
    var text := ShellQuote(s) + rest;
    assert text[1..] == Escape(s) + [QUOTE] + rest;
    LexEscaped(s, rest, word, words);
  }

  /** The first word of a line of several. */
  lemma LexFirst(first: string, tail: string, words: seq<string>)
    ensures Lex(ShellQuote(first) + (" " + tail), Between, "", words)
            == Lex(tail, Between, "", words + [first])
  {
    LexQuoted(first, " " + tail, Between, "", words);
    assert "" + first == first;
    assert (" " + tail)[0] == ' ' && (" " + tail)[1..] == tail;
  }

  lemma LexOnly(only: string, words: seq<string>)
    ensures Lex(ShellQuote(only), Between, "", words) == Some(words + [only])
  {
    LexQuoted(only, "", Between, "", words);
    assert "" + only == only;
    assert ShellQuote(only) + "" == ShellQuote(only);
  }

  lemma {:induction false} LexLine(args: seq<string>, words: seq<string>)
    ensures Lex(ArgsLine(args), Between, "", words) == Some(words + args)
  {
    if args == [] {
      assert words + args == words;
    } else {
      var first, rest := args[0], args[1..];
      assert QuoteAll(args)[0] == ShellQuote(first) && QuoteAll(args)[1..] == QuoteAll(rest);
      assert words + [first] + rest == words + args;
      if rest == [] {
        assert args == [first];
        LexOnly(first, words);
      } else {
        LexFirst(first, ArgsLine(rest), words);
        assert ArgsLine(args) == ShellQuote(first) + (" " + ArgsLine(rest));
        LexLine(rest, words + [first]);
      }
    }
  }

  // ---------- NUL ----------

  predicate NoNuls(args: seq<string>) {
    forall k :: 0 <= k < |args| ==> NUL !in args[k]
  }

  lemma {:induction false} QuotingKeepsNul(s: string)
    ensures NUL in Escape(s) <==> NUL in s
  {
    if s != "" {
      QuotingKeepsNul(s[1..]);
      assert NUL in s <==> s[0] == NUL || NUL in s[1..];
    }
  }

  lemma {:induction false} LineKeepsNuls(args: seq<string>)
    ensures NUL in ArgsLine(args) <==> !NoNuls(args)
  {
    if args != [] {
      var rest := args[1..];
      QuotingKeepsNul(args[0]);
      LineKeepsNuls(rest);
      assert QuoteAll(args)[1..] == QuoteAll(rest);
      assert NoNuls(args) <==> NUL !in args[0] && NoNuls(rest);
      assert rest != [] ==> ArgsLine(args) == ShellQuote(args[0]) + " " + ArgsLine(rest);
    }
  }

  // ---------- the round trip ----------

  /**
   The shell reads back exactly the arguments the operator quoted, whatever they contain: empty
   ones, quotes, backslashes, newlines, every special character. It fails only for the NUL
   character, which no argument of a process can hold.
   */
  lemma ShellReadsBack(args: seq<string>)
    ensures Words(ArgsLine(args)) == Some(args) <==> NoNuls(args)
  {
    LexLine(args, []);
    LineKeepsNuls(args);
    assert [] + args == args;
  }

  /** No two argument lists at all give the same line. */
  lemma LineDeterminesArgs(a: seq<string>, b: seq<string>)
    ensures ArgsLine(a) == ArgsLine(b) <==> a == b
  {
    LexLine(a, []);
    LexLine(b, []);
    assert [] + a == a && [] + b == b;
  }

  /** entrypointScript's loop over the arguments. */
  method QuoteLoop(args: seq<string>) returns (line: string)
    ensures line == ArgsLine(args)
  {
    var quoted: seq<string> := [];
    for i := 0 to |args|
      invariant quoted == QuoteAll(args[..i])
    {
      quoted := quoted + [ShellQuote(args[i])];
    }
    assert args[..|args|] == args;
    line := Joined(quoted);
  }
}
