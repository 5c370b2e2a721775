/** internal/controller/claudetask_controller.go: the quoting of the prompt in the shell command,
    against the lexing rules of section 2.2 of the POSIX.1-2017 Shell Command Language. */
module ShellQuoting {

  /** strings.ReplaceAll(prompt, "'", "'\\''"). */
  function Escaped(prompt: string): string {
    if prompt == "" then ""
    else (if prompt[0] == '\'' then "'\\''" else [prompt[0]]) + Escaped(prompt[1..])
  }

  /** The argument as it stands in the command line. */
  function Argument(prompt: string): string {
    "'" + Escaped(prompt) + "'"
  }

  datatype Quote = Unquoted | AfterBackslash | SingleQuoted

  /** A word, what follows it, and how the lexer ended. */
  datatype Lexed =
    | Word(text: string, rest: string)
    | Unterminated
    | Unsupported // an unquoted character with a meaning this lexer does not have

  predicate EndsWord(c: char) {
    c == ' ' || c == '\t' || c == '\n' || c == '|' || c == '&' || c == ';'
    || c == '<' || c == '>' || c == '(' || c == ')'
  }

  predicate IsSpecial(c: char) {
    c == '$' || c == '`' || c == '"' || c == '*' || c == '?' || c == '[' || c == '#' || c == '~'
    || c == '=' || c == '%' || c == '{' || c == '}' || c == '!'
  }

  /** Section 2.2.1: an unquoted backslash preserves the next character (a newline is removed).
      Section 2.2.2: every character between single-quotes is literal. */
  function Lex(s: string, quote: Quote, word: string): Lexed
    decreases s
  {
    match quote
    case Unquoted =>
      if s == "" || EndsWord(s[0]) then Word(word, s)
      else if s[0] == '\'' then Lex(s[1..], SingleQuoted, word)
      else if s[0] == '\\' then Lex(s[1..], AfterBackslash, word)
      else if IsSpecial(s[0]) then Unsupported
      else Lex(s[1..], Unquoted, word + [s[0]])
    case AfterBackslash =>
      if s == "" then Unterminated
      else if s[0] == '\n' then Lex(s[1..], Unquoted, word)
      else Lex(s[1..], Unquoted, word + [s[0]])
    case SingleQuoted =>
      if s == "" then Unterminated
      else if s[0] == '\'' then Lex(s[1..], Unquoted, word)
      else Lex(s[1..], SingleQuoted, word + [s[0]])
  }

  /** `'\\''` closes the literal, adds a quote and opens the literal again. */
  lemma LexQuote(t: string, word: string)
    ensures Lex("'\\''" + t, SingleQuoted, word) == Lex(t, SingleQuoted, word + "'")
  {
    var s0, s1, s2, s3 := "'\\''" + t, "\\''" + t, "''" + t, "'" + t;
    assert s0[1..] == s1 && s1[1..] == s2 && s2[1..] == s3 && s3[1..] == t;
    assert Lex(s2, AfterBackslash, word) == Lex(s3, Unquoted, word + "'");
  }

  lemma LexPlain(c: char, t: string, word: string)
    requires c != '\''
    ensures Lex([c] + t, SingleQuoted, word) == Lex(t, SingleQuoted, word + [c])
  {
    assert ([c] + t)[1..] == t;
  }

  /** Inside single quotes, an escaped prompt adds exactly itself to the word. */
  lemma {:induction false} LexEscaped(prompt: string, t: string, word: string)
    ensures Lex(Escaped(prompt) + t, SingleQuoted, word) == Lex(t, SingleQuoted, word + prompt)
    decreases prompt
  {
    hide Lex;
    if prompt == "" {
      assert Escaped(prompt) + t == t && word + prompt == word;
    } else {
      var c, rest := prompt[0], Escaped(prompt[1..]) + t;
      if c == '\'' {
        assert Escaped(prompt) + t == "'\\''" + rest;
        LexQuote(rest, word);
      } else {
        assert Escaped(prompt) + t == [c] + rest;
        LexPlain(c, rest, word);
      }
      LexEscaped(prompt[1..], t, word + [c]);
      assert word + [c] + prompt[1..] == word + prompt;
    }
  }

  /** The shell reads the argument back as one word, the prompt itself, and is unquoted after it. */
  lemma QuotingRoundTrip(prompt: string, rest: string)
    requires rest == "" || EndsWord(rest[0])
    ensures Lex(Argument(prompt) + rest, Unquoted, "") == Word(prompt, rest)
  {
    var s := Argument(prompt) + rest;
    assert s[1..] == Escaped(prompt) + ("'" + rest);
    LexEscaped(prompt, "'" + rest, "");
    assert "" + prompt == prompt;
    assert ("'" + rest)[1..] == rest;
  }

  /** Different prompts give different arguments. */
  lemma QuotingInjective(p: string, q: string)
    requires Argument(p) == Argument(q)
    ensures p == q
  {
    QuotingRoundTrip(p, "");
    QuotingRoundTrip(q, "");
  }
}
