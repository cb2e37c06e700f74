/** What PHP reads in a file whose debug block has just been written. */
module DebugSettings {
  import opened Faults
  import opened Text
  import opened PhpScan
  import opened WordPressDebug
  import opened DefineGrammar
  import opened DebugBlock

  // ----- the log path between single quotes -----

  /** PHP behind an opening single quote: the text up to the closing quote, and what follows it. */
  function SingleQuoted(s: string): Option<(string, string)> {
    if s == "" then None
    else if s[0] == '\'' then Some(("", s[1..]))
    else
      var pair := s[0] == '\\' && |s| > 1 && s[1] in "\\'";
      match SingleQuoted(if pair then s[2..] else s[1..])
      case None => None
      case Some((text, rest)) => Some(([if pair then s[1] else s[0]] + text, rest))
  }

  /** No backslash stands in front of a backslash, a quote or the end. */
  predicate Quotable(path: string) {
    forall k :: 0 <= k < |path| && path[k] == '\\' ==>
                  k + 1 < |path| && path[k + 1] != '\\' && path[k + 1] != '\''
  }

  function Quotes(s: string): nat {
    if s == "" then 0 else (if s[0] == '\'' then 1 else 0) + Quotes(s[1..])
  }

  function Escaped(path: string): string {
    ReplaceAll(path, '\'', "\\'")
  }

  lemma EscapedFirst(path: string)
    requires path != ""
    ensures Escaped(path) == (if path[0] == '\'' then "\\'" else [path[0]]) + Escaped(path[1..])
  {
  }

  /** What was read is no longer than what was passed without its quotes. */
  lemma {:induction false} ReadingShrinks(s: string) returns (passed: string)
    requires SingleQuoted(s).Some?
    ensures var (text, rest) := SingleQuoted(s).value; s == passed + "'" + rest && |text| + Quotes(passed) <= |passed|
  {
    var (text, rest) := SingleQuoted(s).value;
    if s[0] == '\'' {
      passed := "";
    } else {
      var n := if s[0] == '\\' && |s| > 1 && s[1] in "\\'" then 2 else 1;
      var more := ReadingShrinks(s[n..]);
      passed := s[..n] + more;
      assert s == s[..n] + s[n..];
      assert passed[1..] == s[1..n] + more;
      if n == 2 { assert s[1..2] == [s[1]] && passed[1..][1..] == more; } else { assert passed[1..] == more; }
    }
  }

  lemma {:induction false} EscapedLength(path: string)
    ensures |Escaped(path)| == |path| + Quotes(Escaped(path))
  {
    if path != "" {
      EscapedLength(path[1..]);
      EscapedFirst(path);
      var head := if path[0] == '\'' then "\\'" else [path[0]];
      assert Escaped(path)[1..] == head[1..] + Escaped(path[1..]);
      if path[0] == '\'' { assert Escaped(path)[1..][1..] == Escaped(path[1..]); }
    }
  }

  lemma QuotableRest(path: string)
    requires path != ""
    ensures Quotable(path) <==>
              Quotable(path[1..]) && (path[0] == '\\' ==> |path| > 1 && path[1] != '\\' && path[1] != '\'')
  {
    assert forall k :: 0 <= k < |path| - 1 ==> path[1..][k] == path[k + 1];
    if Quotable(path[1..]) && (path[0] == '\\' ==> |path| > 1 && path[1] != '\\' && path[1] != '\'') {
      forall k | 0 <= k < |path| && path[k] == '\\'
        ensures k + 1 < |path| && path[k + 1] != '\\' && path[k + 1] != '\''
      {
        if k > 0 { assert path[1..][k - 1] == '\\'; }
      }
    }
  }

  /** PHP reads the path back, and goes on behind it, exactly if the path is quotable. */
  lemma {:induction false} PathReadBack(path: string, rest: string)
    ensures SingleQuoted(Escaped(path) + "'" + rest) == Some((path, rest)) <==> Quotable(path)
  {
    var s := Escaped(path) + "'" + rest;
    if path == "" {
      assert s == "'" + rest;
    } else {
      var more := Escaped(path[1..]) + "'" + rest;
      EscapedFirst(path);
      QuotableRest(path);
      PathReadBack(path[1..], rest);
      assert path == [path[0]] + path[1..];
      if path[0] == '\'' {
        assert s == "\\'" + more && s[2..] == more;
      } else {
        assert s == [path[0]] + more && s[1..] == more;
        if path[0] == '\\' { BackslashRead(path, rest, s, more); }
      }
    }
  }

  /** Where the reading ends at the right quote, it has not grown. */
  lemma NoLonger(path: string, rest: string)
    ensures var r := SingleQuoted(Escaped(path) + "'" + rest);
            r.Some? && r.value.1 == rest ==> |r.value.0| <= |path|
  {
    hide SingleQuoted, Escaped;
    var s := Escaped(path) + "'" + rest;
    if SingleQuoted(s).Some? && SingleQuoted(s).value.1 == rest {
      var passed := ReadingShrinks(s);
      EscapedLength(path);
      SameHead(passed + "'", Escaped(path) + "'", rest);
      SameHead(passed, Escaped(path), "'");
    }
  }

  lemma BackslashRead(path: string, rest: string, s: string, more: string)
    requires path != "" && path[0] == '\\' && s == "\\" + more && more == Escaped(path[1..]) + "'" + rest
    requires SingleQuoted(more) == Some((path[1..], rest)) <==> Quotable(path[1..])
    ensures SingleQuoted(s) == Some((path, rest)) <==> Quotable(path)
  {
    QuotableRest(path);
    assert path == "\\" + path[1..];
    if |path| == 1 {
      assert more == "'" + rest && s[1] == '\'';
    } else if path[1] == '\'' {
      EscapedFirst(path[1..]);
      assert more[0] == '\\' && more[1] == '\'' && s[2..][0] == '\'';
    } else if path[1] == '\\' {
      EscapedFirst(path[1..]);
      assert path[1..][1..] == path[2..];
      assert more == "\\" + (Escaped(path[2..]) + "'" + rest);
      assert s[2..] == Escaped(path[2..]) + "'" + rest;
      NoLonger(path[2..], rest);
    } else {
      EscapedFirst(path[1..]);
      assert more[0] == path[1] && s[1] == path[1] && s[1..] == more;
    }
  }

  lemma SameHead(a: string, b: string, rest: string)
    requires a + rest == b + rest
    ensures a == b
  {
    assert |a| == |b|;
    assert a == (a + rest)[..|a|] && b == (b + rest)[..|b|];
  }

  // ----- the three lines of the block -----

  function Line(name: string, value: string): string {
    "define('" + name + "', " + value + ");"
  }

  function Plainly(name: string, value: string): Call {
    Call("define", "", "", '\'', name, "", " ", value, "", "", "", "")
  }

  lemma LineWritten(name: string, value: string)
    ensures Written(Plainly(name, value)) == Line(name, value)
  {
    var k := Plainly(name, value);
    assert k.w7 + k.comment == "" && k.w6 + (";" + "") == ";" && k.w5 + (")" + ";") == ");";
    assert ");" == ")" + ";";
    assert Valued(k) == value + ");";
    assert Named(k) == "'" + (name + ("'" + (", " + (value + ");")))) by {
      assert k.w3 + ("," + (" " + Valued(k))) == ", " + Valued(k);
    }
    assert "define('" + name + "', " + value + ");" == "define('" + (name + ("', " + (value + ");")));
    assert "'" + (", " + (value + ");")) == "', " + (value + ");");
    assert "define" + ("" + ("(" + ("" + Named(k)))) == "define(" + Named(k);
    assert "define('" == "define(" + "'";
  }

  /** PHP reads such a line as the setting of a constant to a literal. */
  lemma LineSets(name: string, value: string)
    requires name in NAMES && Literal(value)
    ensures SimpleDefine(Line(name, value)) == Some(Define(name, value, ""))
  {
    hide Written, Line, SimpleDefine, Literal;
    LineWritten(name, value);
    GrammarIsRead(Plainly(name, value));
  }

  lemma {:induction false} EscapedBody(path: string)
    requires '\\' !in path
    ensures QuotedBody(Escaped(path), '\'')
  {
    if path != "" {
      EscapedFirst(path);
      EscapedBody(path[1..]);
      if path[0] == '\'' {
        assert Escaped(path)[2..] == Escaped(path[1..]);
      } else {
        assert Escaped(path)[1..] == Escaped(path[1..]);
      }
    }
  }

  lemma QuotedPath(path: string)
    requires '\\' !in path
    ensures Literal("'" + Escaped(path) + "'")
  {
    hide Escaped, QuotedBody;
    EscapedBody(path);
    var v := "'" + Escaped(path) + "'";
    assert v[1..|v| - 1] == Escaped(path);
  }

  function Block(one: string, two: string, three: string): string {
    START + "\n" + (one + "\n" + two + "\n" + three) + "\n" + END + "\n"
  }

  /** The value that stands for the log path: false, or the path as PHP reads it back. */
  ghost predicate LogValue(value: string, enabled: bool, logPath: string) {
    if !enabled then value == "false"
    else exists w: string ::
      value == "'" + w + "'" && (SingleQuoted(w + "');") == Some((logPath, ");")) <==> Quotable(logPath))
      && ('\\' !in logPath ==> Literal(value))
  }

  lemma LogValued(logPath: string)
    ensures LogValue("'" + Escaped(logPath) + "'", true, logPath)
  {
    hide Escaped, SingleQuoted, Literal, Quotable;
    var w := Escaped(logPath);
    PathReadBack(logPath, ");");
    assert w + "'" + ");" == w + "');";
    if '\\' !in logPath { QuotedPath(logPath); }
  }

  lemma MiddleIsLines(debug: string, log: string)
    ensures Middle(debug, log)
            == Line("WP_DEBUG", debug) + "\n" + Line("WP_DEBUG_LOG", log) + "\n" + Line("WP_DEBUG_DISPLAY", "false")
  {
    FirstLine();
    SecondLine();
    LastLine();
    Joined(FIRST, debug, "define('WP_DEBUG_LOG', ", log, "define('WP_DEBUG_DISPLAY', false);");
  }

  lemma FirstLine()
    ensures "define('" + "WP_DEBUG" + "', " == FIRST
  {
  }

  lemma SecondLine()
    ensures "define('" + "WP_DEBUG_LOG" + "', " == "define('WP_DEBUG_LOG', "
  {
  }

  lemma LastLine()
    ensures "define('" + "WP_DEBUG_DISPLAY" + "', " + "false" + ");" == "define('WP_DEBUG_DISPLAY', false);"
  {
  }

  lemma Joined(f: string, debug: string, g: string, log: string, three: string)
    ensures f + (debug + (");\n" + g + log + ");\n" + three))
         == f + debug + ");" + "\n" + (g + log + ");") + "\n" + three
  {
    assert ");\n" == ");" + "\n";
  }

  /** What a successful update has written sets the three constants to what was asked for. */
  lemma UpdateSets(content: string, enabled: bool, logPath: string)
      returns (before: string, log: string, after: string)
    requires UpdateWordPressDebug(content, enabled, logPath).Some?
    ensures var debug := if enabled then "true" else "false";
            UpdateWordPressDebug(content, enabled, logPath).value.0
              == before + Block(Line("WP_DEBUG", debug), Line("WP_DEBUG_LOG", log), Line("WP_DEBUG_DISPLAY", "false"))
                 + "\n" + after
            && SimpleDefine(Line("WP_DEBUG", debug)) == Some(Define("WP_DEBUG", debug, ""))
            && SimpleDefine(Line("WP_DEBUG_DISPLAY", "false")) == Some(Define("WP_DEBUG_DISPLAY", "false", ""))
            && LogValue(log, enabled, logPath)
            && (Literal(log) ==> SimpleDefine(Line("WP_DEBUG_LOG", log)) == Some(Define("WP_DEBUG_LOG", log, "")))
    ensures Cleaned(content) == Some(before + after) && ANCHOR <= after
  {
    hide UpdateWordPressDebug, Cleaned, SimpleDefine, Line, SingleQuoted, Quotable, IndexFrom;
    before, after := UpdateWrites(content, enabled, logPath);
    log := if enabled then "'" + Escaped(logPath) + "'" else "false";
    var debug := if enabled then "true" else "false";
    LogValued(logPath);
    MiddleIsLines(debug, log);
    LineSets("WP_DEBUG", debug);
    LineSets("WP_DEBUG_DISPLAY", "false");
    if Literal(log) { LineSets("WP_DEBUG_LOG", log); }
  }

  function Unbroken(debug: string, log: string): string {
    START + "\n"
    + ((Line("WP_DEBUG", debug) + "\n" + Line("WP_DEBUG_LOG", log) + "\n" + Line("WP_DEBUG_DISPLAY", "false"))
       + ("\n" + END))
  }

  /** The file holds a block that sets the constants this way. */
  ghost predicate Manages(content: string, enabled: bool, log: string, logPath: string) {
    LogValue(log, enabled, logPath) && Contains(content, Unbroken(if enabled then "true" else "false", log))
  }

  lemma TrimmedPart(content: string, b: DebugBlock.Block, text: string)
    requires b.start < b.end <= |content| && TrimSpace(content[b.start..b.end]) == text
    ensures Contains(content, text)
  {
    hide TrimSpace, TrimLeft;
    var owned := content[b.start..b.end];
    var x, y := TrimBounds(owned);
    assert At(content, text, b.start + x) by { assert content[b.start + x..b.start + y] == owned[x..y]; }
  }

  lemma SameTextManages(content: string, b: DebugBlock.Block, enabled: bool, logPath: string) returns (log: string)
    requires b.start < b.end <= |content|
    requires SameText(content[b.start..b.end], WordpressDebugBlock(logPath, enabled))
    ensures Manages(content, enabled, log, logPath)
  {
    hide TrimSpace, Line, SingleQuoted, Quotable, Framed, WordpressDebugBlock, Middle;
    var debug := if enabled then "true" else "false";
    log := if enabled then "'" + Escaped(logPath) + "'" else "false";
    BlockIsFramed(logPath, enabled);
    TrimFramed(MiddleOf(logPath, enabled));
    MiddleIsLines(debug, log);
    LogValued(logPath);
    TrimmedPart(content, b, Trimmed(MiddleOf(logPath, enabled)));
    assert MiddleOf(logPath, enabled) == Middle(debug, log);
  }

  /** What inspecting reports is what the file says: a managed block that sets the constants as reported, or no
      block, and then the adopted define of WP_DEBUG, if any, is true exactly when debugging is reported on. */
  lemma InspectMeans(content: string, logPath: string) returns (log: string)
    requires InspectWordPressDebug(content, logPath).known
    ensures var status := InspectWordPressDebug(content, logPath);
            if status.managed then Manages(content, status.enabled, log, logPath)
            else CountFrom(content, START, 0) == CountFrom(content, END, 0) == 0
                 && Adopted(content).Some?
                 && (status.enabled <==> ("WP_DEBUG", "true") in Adopted(content).value.1.Items)
  {
    hide Adopted, SameText, WordpressDebugBlock, Manages, CountFrom;
    log := "";
    var owned := FindBlock(content, 0);
    if owned.Some? {
      if SameText(content[owned.value.start..owned.value.end], WordpressDebugBlock(logPath, true)) {
        log := SameTextManages(content, owned.value, true, logPath);
      } else {
        log := SameTextManages(content, owned.value, false, logPath);
      }
    } else {
      assert content[0..] == content;
    }
  }

  // ----- blocks that were not written just now -----

  predicate Break(b: string) {
    b == "\n" || b == "\r\n"
  }

  lemma NewlineExact(s: string, i: nat) returns (b: string)
    ensures |b| == NewlineAt(s, i) && (b == "" || (Break(b) && At(s, b, i)))
    ensures b == "" ==> !At(s, "\n", i) && !At(s, "\r\n", i)
  {
    TwoAt(s, '\r', '\n', i);
    OneAt(s, '\n', i);
    b := if i < |s| && s[i] == '\n' then "\n" else if NewlineAt(s, i) == 2 then "\r\n" else "";
  }

  lemma OneAt(s: string, c: char, i: nat)
    ensures At(s, [c], i) <==> i < |s| && s[i] == c
  {
    if i < |s| { assert s[i..i + 1] == [s[i]]; }
  }

  /** A line break, the end marker and another line break. */
  ghost predicate EndLine(s: string, e: nat) {
    e > 0 && At(s, "\n", e - 1) && At(s, END, e) && (At(s, "\n", e + |END|) || At(s, "\r\n", e + |END|))
  }

  lemma EndLineIsMark(s: string, e: nat)
    ensures EndLine(s, e) <==> EndMarkAt(s, e)
  {
    var b := NewlineExact(s, e + |END|);
    if e > 0 { OneAt(s, '\n', e - 1); }
  }

  /** A block is the start marker with a line break, anything, and the first end marker on a line of its own, with
      one empty line behind it if there is one; line breaks of either kind. */
  lemma BlockExact(s: string, i: nat) returns (b1: string, e: nat, b2: string, b3: string)
    requires BlockEnd(s, i).Some?
    ensures At(s, START, i) && Break(b1) && At(s, b1, i + |START|)
    ensures i + |START| + |b1| < e && EndLine(s, e) && Break(b2) && At(s, b2, e + |END|)
    ensures forall q :: i + |START| + |b1| < q < e ==> !EndLine(s, q)
    ensures b3 == "" || (Break(b3) && At(s, b3, e + |END| + |b2|))
    ensures b3 == "" ==> !At(s, "\n", e + |END| + |b2|) && !At(s, "\r\n", e + |END| + |b2|)
    ensures BlockEnd(s, i) == Some(e + |END| + |b2| + |b3|)
  {
    hide At, EndMarkAt, EndLine, NewlineAt;
    b1 := NewlineExact(s, i + |START|);
    e := EndMark(s, i + |START| + |b1| + 1).value;
    b2 := NewlineExact(s, e + |END|);
    b3 := NewlineExact(s, e + |END| + |b2|);
    EndLineIsMark(s, e);
    MarkHasBreak(s, e);
    forall q | i + |START| + |b1| < q < e ensures !EndLine(s, q) { EndLineIsMark(s, q); }
  }

  lemma MarkHasBreak(s: string, e: nat)
    requires EndMarkAt(s, e)
    ensures NewlineAt(s, e + |END|) > 0
  {
  }

  /** And wherever these pieces stand, a block is seen. */
  lemma BlockSeen(s: string, i: nat, b1: string, e: nat)
    requires At(s, START, i) && Break(b1) && At(s, b1, i + |START|) && i + |START| + |b1| < e && EndLine(s, e)
    ensures BlockEnd(s, i).Some?
  {
    hide At, EndMarkAt, EndLine;
    var b := NewlineExact(s, i + |START|);
    OneBreak(s, i + |START|, b, b1);
    EndLineIsMark(s, e);
  }

  lemma OneBreak(s: string, i: nat, b: string, c: string)
    requires (b == "" || (Break(b) && At(s, b, i))) && Break(c) && At(s, c, i)
    requires b == "" ==> !At(s, "\n", i) && !At(s, "\r\n", i)
    ensures b == c
  {
    TwoAt(s, '\r', '\n', i);
    OneAt(s, '\n', i);
  }
}
