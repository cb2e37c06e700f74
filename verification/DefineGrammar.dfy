/** What a plain define line is, written as a grammar, and the reading of wp-config.php told in its terms. */
module DefineGrammar {
  import opened Faults
  import opened Text
  import opened PhpScan
  import opened WordPressDebug

  predicate Spaces(w: string) {
    forall k :: 0 <= k < |w| ==> PatternSpace(w[k])
  }

  /** What may stand between two quotes: a backslash takes the next character with it. */
  predicate QuotedBody(s: string, quote: char) {
    s == ""
    || (s[0] == '\\' && |s| > 1 && s[1] != '\n' && QuotedBody(s[2..], quote))
    || (s[0] != '\\' && s[0] != quote && QuotedBody(s[1..], quote))
  }

  predicate QuotedLiteral(v: string) {
    |v| >= 2 && v[0] in "'\"" && v[|v| - 1] == v[0] && QuotedBody(v[1..|v| - 1], v[0])
  }

  predicate Literal(v: string) {
    v == "true" || v == "false" || QuotedLiteral(v)
  }

  /** The pieces of a define call; the w are the blanks between them. */
  datatype Call = Call(word: string, w1: string, w2: string, quote: char, name: string, w3: string, w4: string,
                       value: string, w5: string, w6: string, w7: string, comment: string)

  predicate Proper(k: Call) {
    && EqualFold(k.word, "define")
    && Spaces(k.w1) && Spaces(k.w2) && Spaces(k.w3) && Spaces(k.w4) && Spaces(k.w5) && Spaces(k.w6) && Spaces(k.w7)
    && k.quote in "'\"" && k.name in NAMES && Literal(k.value)
    && (k.comment == "" || ((k.comment[0] == '#' || "//" <= k.comment) && '\n' !in k.comment))
  }

  function Written(k: Call): string {
    k.word + (k.w1 + ("(" + (k.w2 + Named(k))))
  }

  function Named(k: Call): string {
    [k.quote] + (k.name + ([k.quote] + (k.w3 + ("," + (k.w4 + Valued(k))))))
  }

  function Valued(k: Call): string {
    k.value + (k.w5 + (")" + (k.w6 + (";" + (k.w7 + k.comment)))))
  }

  // ----- reading what is written -----

  lemma Skipped(s: string, i: nat, w: string, rest: string)
    requires Left(s, i, w + rest) && Spaces(w) && (rest != "" ==> !PatternSpace(rest[0]))
    ensures Skip(s, i, PatternSpace) == i + |w| && Left(s, i + |w|, rest)
  {
    hide PatternSpace;
    Passed(s, i, w, rest);
    assert forall k :: i <= k < i + |w| ==> s[k] == s[i..i + |w|][k - i];
    if rest != "" { assert s[i + |w|] == s[i + |w|..][0]; }
    SkipTo(s, i, i + |w|, PatternSpace);
  }

  lemma Expected(s: string, i: nat, w: string, c: string, rest: string)
    requires Left(s, i, w + (c + rest)) && Spaces(w) && |c| == 1 && !PatternSpace(c[0])
    ensures Expect(s, i, c[0]) == Some(i + |w| + 1) && Left(s, i + |w| + 1, rest)
  {
    hide PatternSpace, Skip;
    Skipped(s, i, w, c + rest);
    Passed(s, i + |w|, c, rest);
  }

  lemma NameRead(s: string, i: nat, quote: char, name: string, rest: string)
    requires Left(s, i, [quote] + (name + ([quote] + rest))) && name in NAMES && quote in "'\""
    ensures i < |s| && s[i] == quote && NameAt(s, i) == Some(name) && Left(s, i + |name| + 2, rest)
  {
    Passed(s, i, [quote], name + ([quote] + rest));
    Passed(s, i + 1, name, [quote] + rest);
    Passed(s, i + 1 + |name|, [quote], rest);
    assert At(s, name + [quote], i + 1) by {
      assert s[i + 1..i + 1 + |name| + 1] == s[i + 1..i + 1 + |name|] + [s[i + 1 + |name|]];
    }
    hide At;
    if At(s, "WP_DEBUG" + [quote], i + 1) { NamesEnd(s, i + 1, name, "WP_DEBUG", quote); }
    if At(s, "WP_DEBUG_LOG" + [quote], i + 1) { NamesEnd(s, i + 1, name, "WP_DEBUG_LOG", quote); }
  }

  lemma NoQuoteInNames(a: string, k: nat)
    requires a in NAMES && k < |a|
    ensures a[k] != '\'' && a[k] != '"'
  {
  }

  /** A name that ends in a quote is read as no other. */
  lemma NamesEnd(s: string, i: nat, a: string, b: string, quote: char)
    requires a in NAMES && b in NAMES && quote in "'\"" && At(s, a + [quote], i) && At(s, b + [quote], i)
    ensures a == b
  {
    hide At;
    var x, y := a + [quote], b + [quote];
    if |a| == |b| {
      OneTextAt(s, i, x, y);
      assert a == x[..|a|] && b == y[..|b|];
    } else {
      var k := if |a| < |b| then |a| else |b|;
      CharAt(s, i, x, k);
      CharAt(s, i, y, k);
      NoQuoteInNames(if |a| < |b| then b else a, k);
    }
  }

  lemma CharAt(s: string, i: nat, p: string, k: nat)
    requires At(s, p, i) && k < |p|
    ensures i + k < |s| && s[i + k] == p[k]
  {
    assert s[i..i + |p|][k] == s[i + k];
  }

  lemma OneTextAt(s: string, i: nat, x: string, y: string)
    requires At(s, x, i) && At(s, y, i) && |x| == |y|
    ensures x == y
  {
  }

  // ----- the value -----

  lemma {:induction false} ClosingIs(s: string, i: nat, q: nat, quote: char)
    requires i <= q < |s| && s[q] == quote && quote != '\\' && QuotedBody(s[i..q], quote)
    ensures ClosingQuote(s, i, quote) == Some(q)
    decreases q - i
  {
    var body := s[i..q];
    if i < q {
      assert body[0] == s[i];
      if s[i] == '\\' {
        assert body[1] == s[i + 1] && body[2..] == s[i + 2..q];
        ClosingIs(s, i + 2, q, quote);
      } else {
        assert body[1..] == s[i + 1..q];
        ClosingIs(s, i + 1, q, quote);
      }
    }
  }

  lemma {:induction false} ClosingMeans(s: string, i: nat, quote: char)
    requires i <= |s| && ClosingQuote(s, i, quote).Some? && quote != '\\'
    ensures var q := ClosingQuote(s, i, quote).value; s[q] == quote && QuotedBody(s[i..q], quote)
    decreases |s| - i
  {
    var q := ClosingQuote(s, i, quote).value;
    if s[i] == quote {
    } else if s[i] == '\\' {
      ClosingMeans(s, i + 2, quote);
      assert s[i..q][2..] == s[i + 2..q];
    } else {
      ClosingMeans(s, i + 1, quote);
      assert s[i..q][1..] == s[i + 1..q];
    }
  }

  lemma FirstOf(s: string, p: string, i: nat)
    ensures At(s, p, i) && p != "" ==> i < |s| && s[i] == p[0]
  {
    if At(s, p, i) && p != "" { assert s[i..i + |p|][0] == s[i]; }
  }

  lemma LiteralRead(s: string, i: nat, v: string, rest: string)
    requires Left(s, i, v + rest) && Literal(v)
    ensures LiteralEnd(s, i) == Some(i + |v|) && s[i..i + |v|] == v && Left(s, i + |v|, rest)
  {
    hide QuotedBody, ClosingQuote;
    Passed(s, i, v, rest);
    if v != "true" && v != "false" {
      var q := i + |v| - 1;
      assert s[q] == s[i..i + |v|][|v| - 1] == v[0];
      assert s[i + 1..q] == v[1..|v| - 1];
      ClosingIs(s, i + 1, q, v[0]);
      FirstOf(s, "true", i);
      FirstOf(s, "false", i);
    } else if v == "false" {
      FirstOf(s, "true", i);
    }
  }

  lemma HeadRead(s: string, k: Call, tail: string) returns (q: nat)
    requires Left(s, 0, k.word + (k.w1 + ("(" + (k.w2 + ([k.quote] + (k.name + ([k.quote] + tail)))))))
    requires EqualFold(k.word, "define") && Spaces(k.w1) && Spaces(k.w2) && k.quote in "'\"" && k.name in NAMES
    ensures |s| >= 6 && EqualFold(s[..6], "define") && Expect(s, 6, '(').Some?
    ensures q == Skip(s, Expect(s, 6, '(').value, PatternSpace) < |s| && s[q] in "'\"" && NameAt(s, q) == Some(k.name)
    ensures Left(s, q + |k.name| + 2, tail)
  {
    hide Spaces, Expect, NameAt, Skip, EqualFold, PatternSpace, Left;
    BlanksOnly();
    WordLength(k);
    var named := [k.quote] + (k.name + ([k.quote] + tail));
    Passed(s, 0, k.word, k.w1 + ("(" + (k.w2 + named)));
    Expected(s, 6, k.w1, "(", k.w2 + named);
    Skipped(s, 6 + |k.w1| + 1, k.w2, named);
    q := 6 + |k.w1| + 1 + |k.w2|;
    NameRead(s, q, k.quote, k.name, tail);
  }

  lemma ValueRead(s: string, i: nat, w: string, w': string, value: string, tail: string) returns (v: nat, e: nat)
    requires Left(s, i, w + ("," + (w' + (value + tail)))) && Spaces(w) && Spaces(w') && Literal(value)
    ensures Expect(s, i, ',').Some? && v == Skip(s, Expect(s, i, ',').value, PatternSpace)
    ensures LiteralEnd(s, v) == Some(e) && s[v..e] == value && Left(s, e, tail)
  {
    hide Spaces, Expect, Skip, PatternSpace, Literal, LiteralEnd, Left;
    BlanksOnly();
    LiteralFirst(value);
    Expected(s, i, w, ",", w' + (value + tail));
    Skipped(s, i + |w| + 1, w', value + tail);
    v := i + |w| + 1 + |w'|;
    e := v + |value|;
    LiteralRead(s, v, value, tail);
  }

  lemma TailRead(s: string, i: nat, w: string, w': string, w'': string, comment: string)
    requires Left(s, i, w + (")" + (w' + (";" + (w'' + comment))))) && Spaces(w) && Spaces(w') && Spaces(w'')
    requires comment == "" || ((comment[0] == '#' || "//" <= comment) && '\n' !in comment)
    ensures Expect(s, i, ')').Some? && Expect(s, Expect(s, i, ')').value, ';').Some?
    ensures CommentAt(s, Expect(s, Expect(s, i, ')').value, ';').value) == Some(comment)
  {
    hide Spaces, Expect, PatternSpace, CommentAt, Left;
    BlanksOnly();
    Expected(s, i, w, ")", w' + (";" + (w'' + comment)));
    Expected(s, i + |w| + 1, w', ";", w'' + comment);
    CommentRead(s, i + |w| + 1 + |w'| + 1, w'', comment);
  }

  /** Whatever follows this grammar is read, and read as its name, its value and its comment. */
  lemma GrammarIsRead(k: Call)
    requires Proper(k)
    ensures SimpleDefine(Written(k)) == Some(Define(k.name, k.value, k.comment))
  {
    hide Spaces, Expect, NameAt, LiteralEnd, CommentAt, Skip, Literal, EqualFold, PatternSpace, Left;
    var s := Written(k);
    LeftWhole(s);
    var q := HeadRead(s, k, k.w3 + ("," + (k.w4 + Valued(k))));
    var v, e := ValueRead(s, q + |k.name| + 2, k.w3, k.w4, k.value, k.w5 + (")" + (k.w6 + (";" + (k.w7 + k.comment)))));
    TailRead(s, e, k.w5, k.w6, k.w7, k.comment);
  }

  lemma BlanksOnly()
    ensures !PatternSpace('(') && !PatternSpace(',') && !PatternSpace(')') && !PatternSpace(';')
    ensures !PatternSpace('\'') && !PatternSpace('"') && !PatternSpace('#') && !PatternSpace('/')
  {
  }

  lemma WordLength(k: Call)
    requires EqualFold(k.word, "define")
    ensures |k.word| == 6
  {
  }

  lemma LiteralFirst(v: string)
    requires Literal(v)
    ensures v != "" && !PatternSpace(v[0])
  {
    hide QuotedBody;
  }

  lemma CommentRead(s: string, i: nat, w: string, comment: string)
    requires Left(s, i, w + comment) && Spaces(w)
    requires comment == "" || ((comment[0] == '#' || "//" <= comment) && '\n' !in comment)
    ensures CommentAt(s, i) == Some(comment)
  {
    hide Skip;
    Skipped(s, i, w, comment);
    var r := i + |w|;
    assert s[r..] == comment;
    if "//" <= comment { assert s[r..r + 2] == comment[..2]; }
  }

  // ----- nothing else is read -----

  lemma SkipMeans(s: string, i: nat)
    requires i <= |s|
    ensures var r := Skip(s, i, PatternSpace); Spaces(s[i..r]) && s[i..] == s[i..r] + s[r..]
  {
    hide PatternSpace;
    SkipAll(s, i);
  }

  lemma {:induction false} SkipAll(s: string, i: nat)
    requires i <= |s|
    ensures forall k :: i <= k < Skip(s, i, PatternSpace) ==> PatternSpace(s[k])
    decreases |s| - i
  {
    hide PatternSpace;
    if i < |s| && PatternSpace(s[i]) { SkipAll(s, i + 1); }
  }

  lemma ExpectMeans(s: string, i: nat, c: char)
    requires i <= |s| && Expect(s, i, c).Some?
    ensures var j := Expect(s, i, c).value; Spaces(s[i..j - 1]) && s[i..] == s[i..j - 1] + ([c] + s[j..])
  {
    hide Skip, Spaces;
    SkipMeans(s, i);
    var j := Expect(s, i, c).value;
    assert s[j - 1..] == [c] + s[j..];
  }

  lemma NameMeans(s: string, q: nat)
    requires q < |s| && NameAt(s, q).Some?
    ensures var name := NameAt(s, q).value;
            name in NAMES && s[q..] == [s[q]] + (name + ([s[q]] + s[q + |name| + 2..]))
  {
    var name := NameAt(s, q).value;
    var e := q + 1 + |name| + 1;
    assert s[q + 1..e] == name + [s[q]];
    assert s[q..] == [s[q]] + (s[q + 1..e] + s[e..]);
    assert name + [s[q]] + s[e..] == name + ([s[q]] + s[e..]);
    assert NAMES[0] == "WP_DEBUG" && NAMES[1] == "WP_DEBUG_LOG" && NAMES[2] == "WP_DEBUG_DISPLAY";
  }

  lemma LiteralMeans(s: string, v: nat)
    requires v <= |s| && LiteralEnd(s, v).Some?
    ensures var e := LiteralEnd(s, v).value; Literal(s[v..e]) && s[v..] == s[v..e] + s[e..]
  {
    hide QuotedBody, ClosingQuote;
    if !At(s, "true", v) && !At(s, "false", v) {
      ClosingMeans(s, v + 1, s[v]);
      QuotedMeans(s, v, ClosingQuote(s, v + 1, s[v]).value);
    }
    SplitFrom(s, v, LiteralEnd(s, v).value);
  }

  lemma QuotedMeans(s: string, v: nat, q: nat)
    requires v < q < |s| && s[v] in "'\"" && s[q] == s[v] && QuotedBody(s[v + 1..q], s[v])
    ensures QuotedLiteral(s[v..q + 1])
  {
    hide QuotedBody;
    var literal := s[v..q + 1];
    assert literal[0] == s[v] && literal[|literal| - 1] == s[q];
    var body := s[v + 1..q];
    assert literal == [s[v]] + (body + [s[q]]);
    assert literal[1..] == body + [s[q]];
    assert literal[1..|literal| - 1] == literal[1..][..|body|] == body;
  }

  lemma SplitFrom(s: string, i: nat, j: nat)
    requires i <= j <= |s|
    ensures s[i..] == s[i..j] + s[j..]
  {
  }

  lemma CommentMeans(s: string, i: nat)
    requires i <= |s| && CommentAt(s, i).Some?
    ensures var r, comment := Skip(s, i, PatternSpace), CommentAt(s, i).value;
            Spaces(s[i..r]) && s[i..] == s[i..r] + comment
            && (comment == "" || ((comment[0] == '#' || "//" <= comment) && '\n' !in comment))
  {
    hide Skip, Spaces;
    SkipMeans(s, i);
  }

  /** A call under construction: its first pieces, and what is still to read. */
  predicate Begun(s: string, word: string, w: string, w': string, quote: char, name: string, rest: string) {
    && EqualFold(word, "define") && Spaces(w) && Spaces(w') && quote in "'\"" && name in NAMES
    && s == word + (w + ("(" + (w' + ([quote] + (name + ([quote] + rest))))))
  }

  lemma HeadPositions(s: string) returns (open: nat, q: nat)
    requires SimpleDefine(s).Some?
    ensures |s| >= 6 && EqualFold(s[..6], "define") && Expect(s, 6, '(') == Some(open)
    ensures 6 < open <= q < |s| && q == Skip(s, open, PatternSpace) && s[q] in "'\""
    ensures NameAt(s, q).Some? && q + |NameAt(s, q).value| + 2 <= |s|
    ensures SimpleDefine(s).value.name == NameAt(s, q).value
  {
    hide LiteralEnd, CommentAt, EqualFold, PatternSpace, NameAt, Expect, Skip;
    open := Expect(s, 6, '(').value;
    q := Skip(s, open, PatternSpace);
  }

  lemma HeadAssembled(s: string, word: string, w: string, w': string, quote: char, name: string, rest: string,
                      behindWord: string, behindOpen: string, named: string)
    requires s == word + behindWord && behindWord == w + (['('] + behindOpen) && behindOpen == w' + named
    requires named == [quote] + (name + ([quote] + rest))
    requires EqualFold(word, "define") && Spaces(w) && Spaces(w') && quote in "'\"" && name in NAMES
    ensures Begun(s, word, w, w', quote, name, rest)
  {
    hide EqualFold, Spaces;
    assert ['('] == "(";
  }

  lemma HeadMeans(s: string) returns (w: string, w': string, q: nat)
    requires SimpleDefine(s).Some?
    ensures 6 <= q < |s| && NameAt(s, q).Some? && q + |NameAt(s, q).value| + 2 <= |s|
    ensures q == Skip(s, Expect(s, 6, '(').value, PatternSpace) && SimpleDefine(s).value.name == NameAt(s, q).value
    ensures Begun(s, s[..6], w, w', s[q], NameAt(s, q).value, s[q + |NameAt(s, q).value| + 2..])
  {
    hide Spaces, Expect, NameAt, Skip, EqualFold, PatternSpace, SimpleDefine, Begun;
    var open;
    open, q := HeadPositions(s);
    ExpectMeans(s, 6, '(');
    SkipMeans(s, open);
    NameMeans(s, q);
    w, w' := s[6..open - 1], s[open..q];
    SplitAt(s, 6);
    HeadAssembled(s, s[..6], w, w', s[q], NameAt(s, q).value, s[q + |NameAt(s, q).value| + 2..],
        s[6..], s[open..], s[q..]);
  }

  lemma SplitAt(s: string, n: nat)
    requires n <= |s|
    ensures s == s[..n] + s[n..]
  {
  }

  lemma ValueMeans(s: string, i: nat, v: nat, e: nat) returns (w: string, w': string)
    requires i <= |s| && Expect(s, i, ',').Some? && v == Skip(s, Expect(s, i, ',').value, PatternSpace)
    requires LiteralEnd(s, v) == Some(e)
    ensures Spaces(w) && Spaces(w') && Literal(s[v..e])
    ensures s[i..] == w + ("," + (w' + (s[v..e] + s[e..])))
  {
    hide Spaces, Expect, LiteralEnd, Skip, Literal, PatternSpace;
    var comma := Expect(s, i, ',').value;
    ExpectMeans(s, i, ',');
    SkipMeans(s, comma);
    LiteralMeans(s, v);
    w, w' := s[i..comma - 1], s[comma..v];
  }

  lemma TailMeans(s: string, i: nat) returns (w: string, w': string, w'': string, comment: string)
    requires i <= |s| && Expect(s, i, ')').Some? && Expect(s, Expect(s, i, ')').value, ';').Some?
    requires CommentAt(s, Expect(s, Expect(s, i, ')').value, ';').value).Some?
    ensures Spaces(w) && Spaces(w') && Spaces(w'')
    ensures CommentAt(s, Expect(s, Expect(s, i, ')').value, ';').value) == Some(comment)
    ensures comment == "" || ((comment[0] == '#' || "//" <= comment) && '\n' !in comment)
    ensures s[i..] == w + (")" + (w' + (";" + (w'' + comment))))
  {
    hide Spaces, Expect, CommentAt, Skip, PatternSpace;
    var close := Expect(s, i, ')').value;
    var semicolon := Expect(s, close, ';').value;
    ExpectMeans(s, i, ')');
    ExpectMeans(s, close, ';');
    CommentMeans(s, semicolon);
    w, w', w'' := s[i..close - 1], s[close..semicolon - 1], s[semicolon..Skip(s, semicolon, PatternSpace)];
    comment := CommentAt(s, semicolon).value;
  }

  lemma Positions(s: string) returns (n: nat, v: nat, e: nat)
    requires SimpleDefine(s).Some?
    ensures var q := Skip(s, Expect(s, 6, '(').value, PatternSpace);
            q < |s| && NameAt(s, q).Some? && n == q + |NameAt(s, q).value| + 2
    ensures Expect(s, n, ',').Some? && v == Skip(s, Expect(s, n, ',').value, PatternSpace)
    ensures LiteralEnd(s, v) == Some(e)
    ensures SimpleDefine(s).value.value == s[v..e]
    ensures Expect(s, e, ')').Some? && Expect(s, Expect(s, e, ')').value, ';').Some?
    ensures CommentAt(s, Expect(s, Expect(s, e, ')').value, ';').value) == Some(SimpleDefine(s).value.comment)
  {
    hide Expect, NameAt, LiteralEnd, CommentAt, Skip, EqualFold, PatternSpace;
    var q := Skip(s, Expect(s, 6, '(').value, PatternSpace);
    n := q + |NameAt(s, q).value| + 2;
    v := Skip(s, Expect(s, n, ',').value, PatternSpace);
    e := LiteralEnd(s, v).value;
  }

  lemma Assembled(k: Call, s: string, named: string, valued: string)
    requires Begun(s, k.word, k.w1, k.w2, k.quote, k.name, named)
    requires named == k.w3 + ("," + (k.w4 + (k.value + valued)))
    requires Spaces(k.w3) && Spaces(k.w4) && Literal(k.value)
    requires Spaces(k.w5) && Spaces(k.w6) && Spaces(k.w7)
    requires k.comment == "" || ((k.comment[0] == '#' || "//" <= k.comment) && '\n' !in k.comment)
    requires valued == k.w5 + (")" + (k.w6 + (";" + (k.w7 + k.comment))))
    ensures Written(k) == s && Proper(k)
  {
    hide Spaces, Literal, EqualFold;
  }

  /** Nothing but this grammar is read. */
  lemma ReadIsGrammar(s: string) returns (k: Call)
    requires SimpleDefine(s).Some?
    ensures Proper(k) && Written(k) == s && SimpleDefine(s) == Some(Define(k.name, k.value, k.comment))
  {
    hide Spaces, Expect, NameAt, LiteralEnd, CommentAt, Skip, Literal, EqualFold, PatternSpace;
    hide SimpleDefine, Written, Begun, Proper;
    var w1, w2, q := HeadMeans(s);
    var n, v, e := Positions(s);
    var w3, w4 := ValueMeans(s, n, v, e);
    var w5, w6, w7, comment := TailMeans(s, e);
    k := Call(s[..6], w1, w2, s[q], NameAt(s, q).value, w3, w4, s[v..e], w5, w6, w7, comment);
    Assembled(k, s, s[n..], s[e..]);
  }
}
