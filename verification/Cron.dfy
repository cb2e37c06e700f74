/** Printing a scheduled command into a crontab, and the two readers that undo it: cron, which looks for
    percent signs, and the POSIX shell, which removes quotes. */
module Cron {
  import opened Faults
  import opened Text

  const SETTINGS := "SHELL=/bin/sh\nPATH=/usr/local/bin:/usr/bin:/bin\n\n"

  // ----- printing -----

  function CronQuote(value: string): string {
    "'" + ReplaceAll(ReplaceAll(value, '%', "\\%"), '\'', "'\\''") + "'"
  }

  function Join(parts: seq<string>): string {
    if parts == [] then "" else if |parts| == 1 then parts[0] else parts[0] + " " + Join(parts[1..])
  }

  function Quoted(command: seq<string>): (r: seq<string>)
    ensures |r| == |command| && forall i :: 0 <= i < |r| ==> r[i] == CronQuote(command[i])
  {
    seq(|command|, i requires 0 <= i < |command| => CronQuote(command[i]))
  }

  method RenderCronFile(expression: string, username: string, command: seq<string>) returns (file: string)
    ensures file == MANAGED_MARKER + SETTINGS + expression + " " + username + " " + Join(Quoted(command)) + "\n"
  {
    var quoted := new string[|command|];
    for i := 0 to |command|
      invariant forall k :: 0 <= k < i ==> quoted[k] == CronQuote(command[k])
    {
      quoted[i] := CronQuote(command[i]);
    }
    assert quoted[..] == Quoted(command);
    file := MANAGED_MARKER + SETTINGS + expression + " " + username + " " + Join(quoted[..]) + "\n";
  }

  // ----- reading: cron -----

  /** The command that cron hands to the shell: a backslash in front of a percent sign is dropped, any
      other escaped pair is kept, and a bare percent sign ends the command. */
  function CronCommand(s: string, escaped: bool): string {
    if s == "" then (if escaped then "\\" else "")
    else if escaped then (if s[0] == '%' then "%" else "\\" + [s[0]]) + CronCommand(s[1..], false)
    else if s[0] == '\\' then CronCommand(s[1..], true)
    else if s[0] == '%' then ""
    else [s[0]] + CronCommand(s[1..], false)
  }

  // ----- reading: the shell -----

  datatype Mode = Between | InWord(word: string) | InQuotes(word: string)

  predicate Plain(c: char) {
    'a' <= c <= 'z' || 'A' <= c <= 'Z' || '0' <= c <= '9' || c == '/' || c == '.' || c == '_' || c == '+' || c == '-'
  }

  /** Field splitting and quote removal (POSIX.1-2017 XCU sections 2.2.1 and 2.2.2). None: a quote is left
      open, or a character outside quotes would mean something else to the shell. */
  function ShellWords(s: string, mode: Mode, words: seq<string>): Option<seq<string>>
    decreases |s|
  {
    if s == "" then
      match mode
      case Between => Some(words)
      case InWord(w) => Some(words + [w])
      case InQuotes(_) => None
    else if mode.InQuotes? then
      ShellWords(s[1..], if s[0] == '\'' then InWord(mode.word) else InQuotes(mode.word + [s[0]]), words)
    else
      var w := if mode.InWord? then mode.word else "";
      if s[0] == ' ' then ShellWords(s[1..], Between, if mode.InWord? then words + [w] else words)
      else if s[0] == '\'' then ShellWords(s[1..], InQuotes(w), words)
      else if s[0] == '\\' then if |s| == 1 then None else ShellWords(s[2..], InWord(w + [s[1]]), words)
      else if Plain(s[0]) then ShellWords(s[1..], InWord(w + [s[0]]), words)
      else None
  }

  // ----- the condition -----

  /** How many backslashes stand directly in front of position i. */
  function RunBefore(s: string, i: nat): (n: nat)
    requires i <= |s|
    ensures n <= i
  {
    if i == 0 || s[i - 1] != '\\' then 0 else 1 + RunBefore(s, i - 1)
  }

  predicate PercentsEven(s: string) {
    forall i :: 0 <= i < |s| && s[i] == '%' ==> RunBefore(s, i) % 2 == 0
  }

  /** Whether the run of backslashes in front of position i is odd, when odd says the same of the text before s. */
  predicate OddBefore(s: string, odd: bool, i: nat)
    requires i <= |s|
  {
    (RunBefore(s, i) + (if odd && RunBefore(s, i) == i then 1 else 0)) % 2 == 1
  }

  /** The same condition read from left to right; odd says that an odd run of backslashes came before. */
  predicate Readable(s: string, odd: bool) {
    s == "" || (!(s[0] == '%' && odd) && Readable(s[1..], s[0] == '\\' && !odd))
  }

  lemma {:induction false} RunsBehindFirst(s: string, i: nat)
    requires 0 < i <= |s|
    ensures RunBefore(s, i)
         == RunBefore(s[1..], i - 1) + (if RunBefore(s[1..], i - 1) == i - 1 && s[0] == '\\' then 1 else 0)
    decreases i
  {
    if i > 1 {
      assert s[1..][i - 2] == s[i - 1];
      if s[i - 1] == '\\' { RunsBehindFirst(s, i - 1); }
    }
  }

  lemma OddBehindFirst(s: string, odd: bool, i: nat)
    requires 0 < i <= |s|
    ensures OddBefore(s, odd, i) == OddBefore(s[1..], s[0] == '\\' && !odd, i - 1)
  {
    RunsBehindFirst(s, i);
  }

  lemma {:induction false} ReadableMeansEven(s: string, odd: bool)
    ensures Readable(s, odd) <==> forall i :: 0 <= i < |s| && s[i] == '%' ==> !OddBefore(s, odd, i)
  {
    hide OddBefore;
    if s != "" {
      var rest, next := s[1..], s[0] == '\\' && !odd;
      ReadableMeansEven(rest, next);
      forall i | 0 < i < |s| ensures rest[i - 1] == s[i] && OddBefore(s, odd, i) == OddBefore(rest, next, i - 1) {
        OddBehindFirst(s, odd, i);
      }
      assert OddBefore(s, odd, 0) == odd by { OddAtStart(s, odd); }
      if Readable(s, odd) {
        forall i | 0 <= i < |s| && s[i] == '%' ensures !OddBefore(s, odd, i) {
          if i > 0 { assert rest[i - 1] == '%'; }
        }
      }
      if forall i :: 0 <= i < |s| && s[i] == '%' ==> !OddBefore(s, odd, i) {
        forall i | 0 <= i < |rest| && rest[i] == '%' ensures !OddBefore(rest, next, i) {
          assert s[i + 1] == '%';
        }
      }
    }
  }

  lemma OddAtStart(s: string, odd: bool)
    ensures OddBefore(s, odd, 0) == odd
  {
  }

  lemma EvenIsReadable(s: string)
    ensures PercentsEven(s) <==> Readable(s, false)
  {
    ReadableMeansEven(s, false);
    assert forall i :: 0 <= i < |s| ==> (OddBefore(s, false, i) <==> RunBefore(s, i) % 2 == 1);
  }

  // ----- one argument -----

  function EscapeChar(c: char): string {
    if c == '%' then "\\%" else if c == '\'' then "'\\''" else [c]
  }

  function Escaped(value: string): string {
    if value == "" then "" else EscapeChar(value[0]) + Escaped(value[1..])
  }

  /** The two replacements do not disturb each other. */
  lemma {:induction false} QuoteByCharacter(value: string)
    ensures CronQuote(value) == "'" + Escaped(value) + "'"
  {
    EscapedTwice(value);
  }

  lemma {:induction false} EscapedTwice(value: string)
    ensures ReplaceAll(ReplaceAll(value, '%', "\\%"), '\'', "'\\''") == Escaped(value)
  {
    if value != "" {
      EscapedTwice(value[1..]);
      var rest := ReplaceAll(value[1..], '%', "\\%");
      if value[0] == '%' {
        TwoPlain('\\', '%', rest);
      } else {
        var t := [value[0]] + rest;
        assert t[1..] == rest;
      }
    }
  }

  lemma TwoPlain(a: char, b: char, rest: string)
    requires a != '\'' && b != '\''
    ensures ReplaceAll([a, b] + rest, '\'', "'\\''") == [a, b] + ReplaceAll(rest, '\'', "'\\''")
  {
    var t := [a, b] + rest;
    assert t[1..] == [b] + rest && t[1..][1..] == rest;
    assert [a] + ([b] + ReplaceAll(rest, '\'', "'\\''")) == [a, b] + ReplaceAll(rest, '\'', "'\\''");
  }

  lemma CronPlain(c: char, rest: string, odd: bool)
    requires c != '%' && c != '\\'
    ensures CronCommand([c] + rest, odd) == (if odd then "\\" else "") + [c] + CronCommand(rest, false)
  {
    assert ([c] + rest)[1..] == rest;
  }

  lemma CronBackslash(rest: string, odd: bool)
    ensures CronCommand("\\" + rest, odd) == if odd then "\\\\" + CronCommand(rest, false) else CronCommand(rest, true)
  {
    assert ("\\" + rest)[1..] == rest;
  }

  lemma CronPercent(rest: string, odd: bool)
    ensures CronCommand("%" + rest, odd) == if odd then "%" + CronCommand(rest, false) else ""
  {
    assert ("%" + rest)[1..] == rest;
  }

  /** What a shell-quoted text without percent escapes looks like. */
  function ShellChar(c: char): string {
    if c == '\'' then "'\\''" else [c]
  }

  function ShellEscaped(value: string): string {
    if value == "" then "" else ShellChar(value[0]) + ShellEscaped(value[1..])
  }

  /** One escaped character through cron. */
  lemma CronChar(c: char, rest: string, odd: bool)
    requires c != '%' && c != '\\'
    ensures CronCommand(EscapeChar(c) + rest, odd)
        == (if odd then "\\" else "") + ShellChar(c) + CronCommand(rest, false)
  {
    if c == '\'' {
      assert "'\\''" + rest == ['\''] + ("\\" + (['\''] + (['\''] + rest)));
      CronPlain('\'', "\\" + (['\''] + (['\''] + rest)), odd);
      CronBackslash(['\''] + (['\''] + rest), false);
      CronPlain('\'', ['\''] + rest, true);
      CronPlain('\'', rest, false);
    } else {
      CronPlain(c, rest, odd);
    }
  }

  /** One step of an argument through cron: what the three kinds of character leave behind. */
  lemma CronStep(c: char, tail: string, odd: bool)
    requires !(c == '%' && odd)
    ensures CronCommand(EscapeChar(c) + tail, odd)
         == (if c == '\\' then (if odd then "\\\\" else "") else (if odd then "\\" else "") + ShellChar(c))
          + CronCommand(tail, c == '\\' && !odd)
  {
    hide CronCommand;
    if c == '%' {
      assert EscapeChar(c) + tail == "\\" + ("%" + tail);
      CronBackslash("%" + tail, odd);
      CronPercent(tail, true);
    } else if c == '\\' {
      CronBackslash(tail, odd);
    } else {
      CronChar(c, tail, odd);
    }
  }

  /** Puts the pieces of one step back in order. */
  lemma Regroup(c: char, odd: bool, more: string, q: string)
    ensures (if c == '\\' then (if odd then "\\\\" else "") else (if odd then "\\" else "") + ShellChar(c))
          + ((if c == '\\' && !odd then "\\" else "") + (more + q))
         == (if odd then "\\" else "") + ((ShellChar(c) + more) + q)
  {
    var all := more + q;
    assert (ShellChar(c) + more) + q == ShellChar(c) + all;
    if c == '\\' {
      if odd { assert "\\\\" + all == "\\" + ("\\" + all); }
    } else {
      Associate(if odd then "\\" else "", ShellChar(c), all);
    }
  }

  /** A readable argument comes out of cron as the shell-quoted argument, up to its closing quote. */
  lemma {:induction false} CronKeepsArgument(value: string, rest: string, odd: bool)
    requires Readable(value, odd)
    ensures CronCommand(Escaped(value) + ("'" + rest), odd)
         == (if odd then "\\" else "") + (ShellEscaped(value) + ("'" + CronCommand(rest, false)))
  {
    hide CronCommand, EscapeChar, ShellChar;
    if value == "" {
      assert Escaped(value) + ("'" + rest) == ['\''] + rest;
      CronPlain('\'', rest, odd);
      assert ShellEscaped(value) + ("'" + CronCommand(rest, false)) == "'" + CronCommand(rest, false);
    } else {
      var c, more := value[0], value[1..];
      var tail := Escaped(more) + ("'" + rest);
      Associate(EscapeChar(c), Escaped(more), "'" + rest);
      CronStep(c, tail, odd);
      CronKeepsArgument(more, rest, c == '\\' && !odd);
      Regroup(c, odd, ShellEscaped(more), "'" + CronCommand(rest, false));
    }
  }

  lemma CronStops(tail: string)
    ensures CronCommand(EscapeChar('%') + tail, true) == "\\" + ShellEscaped("\\")
  {
    hide CronCommand;
    assert EscapeChar('%') + tail == "\\" + ("%" + tail);
    CronBackslash("%" + tail, true);
    CronPercent(tail, false);
    assert "\\"[1..] == "" && ShellEscaped("\\") == ShellChar('\\') + ShellEscaped("");
  }

  /** An argument that is not readable stops cron at a percent sign, inside the quotes: nothing after the
      returned prefix reaches the shell, and the prefix holds no closing quote of the argument. */
  lemma {:induction false} CronCutsArgument(value: string, rest: string, odd: bool) returns (kept: string)
    requires !Readable(value, odd)
    ensures CronCommand(Escaped(value) + rest, odd) == (if odd then "\\" else "") + ShellEscaped(kept)
  {
    hide CronCommand, EscapeChar, ShellChar;
    var c, more := value[0], value[1..];
    var tail := Escaped(more) + rest;
    Associate(EscapeChar(c), Escaped(more), rest);
    if c == '%' && odd {
      CronStops(tail);
      kept := "\\";
    } else {
      CronStep(c, tail, odd);
      var behind := CronCutsArgument(more, rest, c == '\\' && !odd);
      kept := [c] + behind;
      assert kept[1..] == behind;
      Regroup(c, odd, ShellEscaped(behind), "");
      assert ShellEscaped(behind) + "" == ShellEscaped(behind);
      assert (ShellChar(c) + ShellEscaped(behind)) + "" == ShellEscaped(kept);
    }
  }

  // ----- one argument through the shell -----

  lemma ShellQuote(rest: string, mode: Mode, words: seq<string>)
    ensures ShellWords("'" + rest, mode, words)
         == ShellWords(rest,
                       if mode.InQuotes? then InWord(mode.word) else InQuotes(if mode.InWord? then mode.word else ""),
                       words)
  {
    assert ("'" + rest)[1..] == rest;
  }

  lemma ShellSpace(rest: string, word: string, words: seq<string>)
    ensures ShellWords(" " + rest, InWord(word), words) == ShellWords(rest, Between, words + [word])
  {
    assert (" " + rest)[1..] == rest;
  }

  lemma ShellBackslash(c: char, rest: string, word: string, words: seq<string>)
    ensures ShellWords("\\" + ([c] + rest), InWord(word), words) == ShellWords(rest, InWord(word + [c]), words)
  {
    var s := "\\" + ([c] + rest);
    assert s[2..] == rest;
  }

  lemma ShellKept(c: char, rest: string, word: string, words: seq<string>)
    ensures ShellWords(ShellChar(c) + rest, InQuotes(word), words) == ShellWords(rest, InQuotes(word + [c]), words)
  {
    if c == '\'' {
      hide ShellWords;
      assert ShellChar(c) + rest == "'" + ("\\" + (['\''] + ("'" + rest)));
      ShellQuote("\\" + (['\''] + ("'" + rest)), InQuotes(word), words);
      ShellBackslash('\'', "'" + rest, word, words);
      ShellQuote(rest, InWord(word + [c]), words);
    } else {
      assert (ShellChar(c) + rest)[1..] == rest;
    }
  }

  /** Quote removal gives the argument back. */
  lemma {:induction false} ShellReadsBack(value: string, rest: string, word: string, words: seq<string>)
    ensures ShellWords(ShellEscaped(value) + ("'" + rest), InQuotes(word), words)
        == ShellWords(rest, InWord(word + value), words)
  {
    hide ShellWords, ShellChar;
    if value == "" {
      assert ShellEscaped(value) + ("'" + rest) == "'" + rest && word + value == word;
      ShellQuote(rest, InQuotes(word), words);
    } else {
      var c, more := value[0], value[1..];
      Associate(ShellChar(c), ShellEscaped(more), "'" + rest);
      ShellKept(c, ShellEscaped(more) + ("'" + rest), word, words);
      ShellReadsBack(more, rest, word + [c], words);
      assert word + [c] + more == word + value;
    }
  }

  /** A text that stops before the closing quote is not a command at all. */
  lemma {:induction false} ShellLeftOpen(value: string, word: string, words: seq<string>)
    ensures ShellWords(ShellEscaped(value), InQuotes(word), words) == None
  {
    hide ShellChar;
    if value != "" {
      hide ShellWords;
      ShellKept(value[0], ShellEscaped(value[1..]), word, words);
      ShellLeftOpen(value[1..], word + [value[0]], words);
    }
  }

  // ----- the whole line -----

  /** One quoted argument through both readers. */
  lemma ArgumentRoundTrip(value: string, rest: string, words: seq<string>)
    ensures ShellWords(CronCommand(CronQuote(value) + rest, false), Between, words)
         == if PercentsEven(value) then ShellWords(CronCommand(rest, false), InWord(value), words) else None
  {
    hide CronCommand, ShellWords, CronQuote, PercentsEven, Escaped, ShellEscaped;
    QuoteByCharacter(value);
    assert CronQuote(value) + rest == ['\''] + (Escaped(value) + ("'" + rest));
    CronPlain('\'', Escaped(value) + ("'" + rest), false);
    EvenIsReadable(value);
    if Readable(value, false) {
      CronKeepsArgument(value, rest, false);
      var left := ShellEscaped(value) + ("'" + CronCommand(rest, false));
      assert CronCommand(CronQuote(value) + rest, false) == "'" + left;
      ShellQuote(left, Between, words);
      ShellReadsBack(value, CronCommand(rest, false), "", words);
      assert "" + value == value;
    } else {
      var kept := CronCutsArgument(value, "'" + rest, false);
      assert CronCommand(CronQuote(value) + rest, false) == "'" + ShellEscaped(kept);
      ShellQuote(ShellEscaped(kept), Between, words);
      ShellLeftOpen(kept, "", words);
    }
  }

  predicate AllPercentsEven(command: seq<string>) {
    forall i :: 0 <= i < |command| ==> PercentsEven(command[i])
  }

  lemma {:induction false} LineRoundTrip(command: seq<string>, words: seq<string>)
    ensures ShellWords(CronCommand(Join(Quoted(command)), false), Between, words)
         == if AllPercentsEven(command) then Some(words + command) else None
  {
    hide CronQuote, PercentsEven;
    if command == [] {
      assert words + command == words;
    } else {
      var value, more := command[0], command[1..];
      assert Quoted(command)[1..] == Quoted(more);
      assert AllPercentsEven(command) <==> PercentsEven(value) && AllPercentsEven(more) by {
        assert command == [value] + more;
      }
      if more == [] {
        assert CronQuote(value) + "" == CronQuote(value) && [value] == command;
        ArgumentRoundTrip(value, "", words);
      } else {
        hide CronCommand, ShellWords;
        var line := Join(Quoted(more));
        assert Join(Quoted(command)) == CronQuote(value) + (" " + line);
        ArgumentRoundTrip(value, " " + line, words);
        CronPlain(' ', line, false);
        ShellSpace(CronCommand(line, false), value, words);
        LineRoundTrip(more, words + [value]);
        assert words + [value] + more == words + command;
      }
    }
  }

  /** What the crontab line says, cron and the shell together read back: the argument list, exactly when each
      percent sign stands behind an even run of backslashes. Otherwise the command is cut inside a quote. */
  lemma RoundTrip(command: seq<string>)
    ensures AllPercentsEven(command) ==>
        ShellWords(CronCommand(Join(Quoted(command)), false), Between, []) == Some(command)
    ensures !AllPercentsEven(command) ==> ShellWords(CronCommand(Join(Quoted(command)), false), Between, []) == None
  {
    LineRoundTrip(command, []);
    assert [] + command == command;
  }

  /** What the validation asks of each argument. */
  predicate ValidArgument(value: string) {
    value != "" && |value| <= 1024 && '\0' !in value && '\r' !in value && '\n' !in value
  }

  lemma EscapedPercent()
    ensures !PercentsEven("\\%") && ValidArgument("\\%")
  {
    assert RunBefore("\\%", 1) == 1;
  }

  /** The validation accepts these arguments, and cron cuts the command. */
  lemma RoundTripFails() returns (command: seq<string>)
    ensures command == ["echo", "\\%"] && forall i :: 0 <= i < |command| ==> ValidArgument(command[i])
    ensures ShellWords(CronCommand(Join(Quoted(command)), false), Between, []) == None
  {
    hide CronCommand, ShellWords, Join, Quoted, PercentsEven;
    command := ["echo", "\\%"];
    EscapedPercent();
    assert !PercentsEven(command[1]);
    RoundTrip(command);
  }

  // ----- the line stays one line -----

  lemma {:induction false} EscapedAddsNothing(value: string, c: char)
    requires c !in "%'\\"
    ensures c in Escaped(value) <==> c in value
  {
    if value != "" {
      EscapedAddsNothing(value[1..], c);
      assert value == [value[0]] + value[1..];
    }
  }

  /** Quoting and joining bring in quotes, backslashes and blanks only: a command of single-line arguments is
      one line of the crontab, whatever the arguments say. */
  lemma {:induction false} LineAddsNothing(command: seq<string>, c: char)
    requires c !in "%'\\ "
    ensures c in Join(Quoted(command)) <==> exists i :: 0 <= i < |command| && c in command[i]
  {
    if command != [] {
      var value, more := command[0], command[1..];
      QuoteByCharacter(value);
      EscapedAddsNothing(value, c);
      assert Quoted(command)[1..] == Quoted(more);
      LineAddsNothing(more, c);
      if i :| 0 <= i < |command| && c in command[i] {
        if i > 0 { assert c in more[i - 1]; }
      }
    }
  }

  /** A validated command is one line of the crontab. */
  lemma ValidStaysOneLine(command: seq<string>)
    requires forall i :: 0 <= i < |command| ==> ValidArgument(command[i])
    ensures '\n' !in Join(Quoted(command)) && '\r' !in Join(Quoted(command)) && '\0' !in Join(Quoted(command))
  {
    LineAddsNothing(command, '\n');
    LineAddsNothing(command, '\r');
    LineAddsNothing(command, '\0');
  }
}
