/** What the scanners take for a heredoc, a comment, a quoted text and a define, character by character. */
module PhpReading {
  import opened Faults
  import opened Letters
  import opened Text
  import opened PhpScan

  predicate WordChar(c: char) {
    c == '_' || 'a' <= c <= 'z' || 'A' <= c <= 'Z' || '0' <= c <= '9'
  }

  predicate Mark(s: string) {
    s != "" && !('0' <= s[0] <= '9') && forall k :: 0 <= k < |s| ==> WordChar(s[k])
  }

  predicate AllBlank(s: string) {
    forall k :: 0 <= k < |s| ==> s[k] == ' ' || s[k] == '\t'
  }

  /** The tail of a line that opens a heredoc: blanks, the label, quoted or not, and an optional semicolon. */
  datatype Opener = Opener(b1: string, quote: string, mark: string, b2: string, semicolon: string, b3: string)

  predicate ProperOpener(o: Opener) {
    && AllBlank(o.b1) && AllBlank(o.b2) && AllBlank(o.b3) && Mark(o.mark)
    && Quote(o.quote) && (o.semicolon == "" || o.semicolon == ";")
  }

  function Opened(o: Opener): string {
    o.b1 + (o.quote + (o.mark + (o.quote + Rest(o))))
  }

  function Rest(o: Opener): string {
    o.b2 + (o.semicolon + o.b3)
  }

  lemma Skipped(s: string, i: nat, b: string, rest: string)
    requires Left(s, i, b + rest) && AllBlank(b) && (rest != "" ==> !Blank(rest[0]))
    ensures Skip(s, i, Blank) == i + |b| && Left(s, i + |b|, rest)
  {
    Passed(s, i, b, rest);
    assert forall k :: i <= k < i + |b| ==> s[k] == s[i..i + |b|][k - i];
    SkipTo(s, i, i + |b|, Blank);
  }

  lemma {:induction false} WordTo(s: string, i: nat, j: nat)
    requires i <= j <= |s| && (forall k :: i <= k < j ==> WordChar(s[k])) && (j < |s| ==> !WordChar(s[j]))
    ensures IdentifierEnd(s, i) == j
    decreases j - i
  {
    if i < j { WordTo(s, i + 1, j); }
  }

  lemma {:induction false} WordMeans(s: string, i: nat)
    requires i <= |s|
    ensures var j := IdentifierEnd(s, i); forall k :: i <= k < j ==> WordChar(s[k])
    decreases |s| - i
  {
    if i < |s| && IdentifierByte(s[i]) { WordMeans(s, i + 1); }
  }

  lemma {:induction false} SkipMeans(s: string, i: nat)
    requires i <= |s|
    ensures var r := Skip(s, i, Blank); AllBlank(s[i..r]) && s[i..] == s[i..r] + s[r..] && (r < |s| ==> !Blank(s[r]))
    decreases |s| - i
  {
    if i < |s| && Blank(s[i]) {
      SkipMeans(s, i + 1);
      var r := Skip(s, i, Blank);
      assert s[i..r] == [s[i]] + s[i + 1..r];
    }
  }

  lemma RestRead(s: string, i: nat, o: Opener)
    requires Left(s, i, Rest(o)) && ProperOpener(o)
    ensures OnlySemicolon(s, i)
  {
    hide Skip;
    if o.semicolon == "" {
      assert Rest(o) == (o.b2 + o.b3) + "";
      Skipped(s, i, o.b2 + o.b3, "");
    } else {
      Skipped(s, i, o.b2, ";" + o.b3);
      Passed(s, i + |o.b2|, ";", o.b3);
      assert o.b3 == o.b3 + "";
      Skipped(s, i + |o.b2| + 1, o.b3, "");
    }
  }

  lemma RestMeans(s: string, i: nat) returns (b2: string, semicolon: string, b3: string)
    requires i <= |s| && OnlySemicolon(s, i)
    ensures AllBlank(b2) && AllBlank(b3) && (semicolon == "" || semicolon == ";") && s[i..] == b2 + (semicolon + b3)
  {
    hide Skip;
    var j := Skip(s, i, Blank);
    SkipMeans(s, i);
    b2 := s[i..j];
    if j < |s| && s[j] == ';' {
      SkipMeans(s, j + 1);
      semicolon, b3 := ";", s[j + 1..];
      assert s[j + 1..Skip(s, j + 1, Blank)] == s[j + 1..];
      assert s[j..] == ";" + s[j + 1..];
    } else {
      semicolon, b3 := "", "";
      assert s[j..] == "";
    }
  }

  predicate Quote(q: string) {
    q == "" || q == "'" || q == "\""
  }

  lemma MarkRead(s: string, m: nat, mark: string, rest: string)
    requires Left(s, m, mark + rest) && Mark(mark) && (rest != "" ==> !WordChar(rest[0]))
    ensures IdentifierEnd(s, m) == m + |mark| <= |s| && s[m..m + |mark|] == mark && Left(s, m + |mark|, rest)
    ensures m < |s| && s[m] == mark[0]
  {
    Passed(s, m, mark, rest);
    assert forall k :: m <= k < m + |mark| ==> s[k] == s[m..m + |mark|][k - m];
    WordTo(s, m, m + |mark|);
  }

  lemma MarkFirst(mark: string)
    requires Mark(mark)
    ensures mark != "" && mark[0] != '\'' && mark[0] != '"' && !Blank(mark[0])
  {
    assert WordChar(mark[0]);
  }

  lemma QuoteEndsWord(q: string, rest: string)
    requires Quote(q) && q != ""
    ensures q + rest != "" && !WordChar((q + rest)[0])
  {
  }

  lemma BareMark(s: string, i: nat, mark: string, rest: string)
    requires Left(s, i, "" + (mark + ("" + rest))) && Mark(mark) && (rest != "" ==> !WordChar(rest[0]))
    ensures i < |s| && s[i] !in "'\"" && !Blank(s[i]) && IdentifierEnd(s, i) == i + |mark| <= |s|
    ensures s[i..i + |mark|] == mark && Left(s, i + |mark|, rest)
  {
    hide IdentifierEnd, Left, Mark, WordChar;
    MarkFirst(mark);
    assert "" + (mark + ("" + rest)) == mark + rest;
    MarkRead(s, i, mark, rest);
  }

  lemma QuotedMark(s: string, i: nat, q: string, mark: string, rest: string)
    requires Left(s, i, q + (mark + (q + rest))) && Quote(q) && q != "" && Mark(mark)
    ensures var j := i + 1 + |mark|;
            j < |s| && s[i] in "'\"" && !Blank(s[i]) && IdentifierEnd(s, i + 1) == j
            && s[i + 1..j] == mark && s[j] == s[i] == q[0] && Left(s, j + 1, rest)
  {
    hide IdentifierEnd, Left, Mark, WordChar;
    Passed(s, i, q, mark + (q + rest));
    QuoteEndsWord(q, rest);
    MarkRead(s, i + 1, mark, q + rest);
    Passed(s, i + 1 + |mark|, q, rest);
  }

  lemma BareLabel(s: string, p: nat, i: nat, mark: string, rest: string)
    requires p <= i && p <= |s| && Skip(s, p, Blank) == i && Left(s, i, "" + (mark + ("" + rest))) && Mark(mark)
    requires rest != "" ==> !WordChar(rest[0])
    requires i + |mark| <= |s| && OnlySemicolon(s, i + |mark|)
    ensures LabelBehind(s, p) == Some(mark)
  {
    hide Skip, IdentifierEnd, OnlySemicolon, Left, Mark, WordChar;
    BareMark(s, i, mark, rest);
    MarkIsIdentifier(mark);
  }

  lemma QuotedLabel(s: string, p: nat, i: nat, q: string, mark: string, rest: string)
    requires p <= i && p <= |s| && Skip(s, p, Blank) == i && Left(s, i, q + (mark + (q + rest)))
    requires Quote(q) && q != "" && Mark(mark)
    requires i + |mark| + 2 <= |s| && OnlySemicolon(s, i + |mark| + 2)
    ensures LabelBehind(s, p) == Some(mark)
  {
    hide Skip, IdentifierEnd, OnlySemicolon, Left, Mark, WordChar;
    QuotedMark(s, i, q, mark, rest);
    MarkIsIdentifier(mark);
  }

  lemma NoBlankFirst(q: string, mark: string, more: string)
    requires Quote(q) && Mark(mark)
    ensures q + (mark + more) != "" && !Blank((q + (mark + more))[0])
  {
    hide WordChar;
    MarkFirst(mark);
    assert (q + (mark + more))[0] == if q == "" then mark[0] else q[0];
  }

  lemma QuotesPassed(s: string, i: nat, q: string, mark: string, rest: string)
    requires Left(s, i, q + (mark + (q + rest)))
    ensures Left(s, i + 2 * |q| + |mark|, rest)
  {
    hide Left;
    Passed(s, i, q, mark + (q + rest));
    Passed(s, i + |q|, mark, q + rest);
    Passed(s, i + |q| + |mark|, q, rest);
  }

  /** Where the pieces of an opening stand. */
  lemma LabelParts(s: string, p: nat, o: Opener)
    requires Left(s, p, o.b1 + (o.quote + (o.mark + (o.quote + Rest(o))))) && ProperOpener(o)
    ensures var i := p + |o.b1|; var e := i + 2 * |o.quote| + |o.mark|;
            p <= |s| && Skip(s, p, Blank) == i && Left(s, i, o.quote + (o.mark + (o.quote + Rest(o))))
            && e <= |s| && OnlySemicolon(s, e)
  {
    hide Skip, OnlySemicolon, AllBlank, Rest, Mark, Left, WordChar, Blank;
    var i, tail := p + |o.b1|, o.quote + (o.mark + (o.quote + Rest(o)));
    NoBlankFirst(o.quote, o.mark, o.quote + Rest(o));
    LeftFits(s, p, o.b1 + tail);
    Skipped(s, p, o.b1, tail);
    QuotesPassed(s, i, o.quote, o.mark, Rest(o));
    RestRead(s, i + 2 * |o.quote| + |o.mark|, o);
  }

  /** A label in the grammar is read, whatever stands in front of it. */
  lemma LabelRead(s: string, p: nat, o: Opener)
    requires Left(s, p, Opened(o)) && ProperOpener(o)
    ensures LabelBehind(s, p) == Some(o.mark)
  {
    hide Skip, OnlySemicolon, AllBlank, Rest, Mark, Left, LabelBehind, WordChar;
    LabelParts(s, p, o);
    RestFirst(o);
    var i := p + |o.b1|;
    if o.quote == "" { BareLabel(s, p, i, o.mark, Rest(o)); } else { QuotedLabel(s, p, i, o.quote, o.mark, Rest(o)); }
  }

  lemma MarkIsIdentifier(mark: string)
    requires Mark(mark)
    ensures Identifier(mark)
  {
  }

  lemma RestFirst(o: Opener)
    requires ProperOpener(o)
    ensures Rest(o) != "" ==> !WordChar(Rest(o)[0])
  {
    if o.b2 == "" { assert Rest(o) == o.semicolon + o.b3; }
  }

  lemma LabelPositions(s: string, p: nat) returns (i: nat, quote: string, m: nat, j: nat)
    requires p <= |s| && LabelBehind(s, p).Some?
    ensures i == Skip(s, p, Blank) && Quote(quote) && m == i + |quote| && m <= j == IdentifierEnd(s, m) <= |s|
    ensures Identifier(s[m..j]) && LabelBehind(s, p) == Some(s[m..j])
    ensures j + |quote| <= |s| && OnlySemicolon(s, j + |quote|)
    ensures quote != "" ==> s[i] == s[j] == quote[0]
  {
    hide Skip, IdentifierEnd, OnlySemicolon, Identifier;
    i := Skip(s, p, Blank);
    quote := if i < |s| && s[i] in "'\"" then [s[i]] else "";
    m := i + |quote|;
    j := IdentifierEnd(s, m);
  }

  lemma LabelMeans(s: string, p: nat) returns (o: Opener)
    requires p <= |s| && LabelBehind(s, p).Some?
    ensures ProperOpener(o) && s[p..] == Opened(o) && LabelBehind(s, p) == Some(o.mark)
  {
    hide Skip, IdentifierEnd, OnlySemicolon, AllBlank, Opened, Mark, LabelBehind, Identifier, WordChar;
    var i, quote, m, j := LabelPositions(s, p);
    SkipMeans(s, p);
    WordMeans(s, m);
    var b2, semicolon, b3 := RestMeans(s, j + |quote|);
    o := Opener(s[p..i], quote, s[m..j], b2, semicolon, b3);
    Assembled(s, p, i, m, j, o);
    WordIsMark(s, m, j);
  }

  lemma WordIsMark(s: string, m: nat, j: nat)
    requires m <= j <= |s| && Identifier(s[m..j]) && forall k :: m <= k < j ==> WordChar(s[k])
    ensures Mark(s[m..j])
  {
  }

  lemma Assembled(s: string, p: nat, i: nat, m: nat, j: nat, o: Opener)
    requires p <= i <= m <= j <= |s| && s[p..] == o.b1 + s[i..] && m == i + |o.quote| && Quote(o.quote)
    requires o.quote != "" ==> i < |s| && j < |s| && s[i] == s[j] == o.quote[0]
    requires o.mark == s[m..j] && j + |o.quote| <= |s| && s[j + |o.quote|..] == Rest(o)
    ensures s[p..] == Opened(o)
  {
    hide Rest;
    assert s[m..] == s[m..j] + s[j..];
    assert s[i..] == o.quote + s[m..];
    assert s[j..] == o.quote + s[j + |o.quote|..];
  }

  lemma NoAngle(o: Opener)
    requires ProperOpener(o)
    ensures '<' !in Opened(o)
  {
    assert '<' !in o.b1 && '<' !in o.b2 && '<' !in o.b3 && '<' !in o.mark;
  }

  lemma NoAngleBehind(line: string, p: nat)
    requires p <= |line| && LabelBehind(line, p).Some?
    ensures forall x :: p <= x < |line| ==> line[x] != '<'
  {
    hide LabelBehind, Opened;
    var o := LabelMeans(line, p);
    NoAngle(o);
    forall x | p <= x < |line| ensures line[x] != '<' { assert line[x] == line[p..][x - p]; }
  }

  lemma {:induction false} OpeningRead(line: string, from: nat, x: nat, o: Opener)
    requires from <= x && At(line, "<<<", x) && Left(line, x + 3, Opened(o)) && ProperOpener(o)
    ensures HeredocLabel(line, from) == Some(o.mark)
    decreases x - from
  {
    hide LabelBehind, Opened, ProperOpener;
    var p := IndexFrom(line, "<<<", from).value;
    if p == x {
      LabelRead(line, x + 3, o);
    } else {
      assert line[x + 2] == line[x..x + 3][2];
      if LabelBehind(line, p + 3).Some? { NoAngleBehind(line, p + 3); }
      OpeningRead(line, p + 1, x, o);
    }
  }

  /** A line with a heredoc opening at its end opens a heredoc with that label, and no other line does. */
  lemma OpensHeredoc(front: string, o: Opener)
    requires ProperOpener(o)
    ensures HeredocLabel(front + "<<<" + Opened(o), 0) == Some(o.mark)
  {
    hide Opened, ProperOpener, HeredocLabel;
    var line := front + "<<<" + Opened(o);
    assert line[|front|..|front| + 3] == "<<<" && line[|front| + 3..] == Opened(o);
    OpeningRead(line, 0, |front|, o);
  }

  lemma {:induction false} OpeningMeans(line: string, from: nat) returns (front: string, o: Opener)
    requires from <= |line| && HeredocLabel(line, from).Some?
    ensures ProperOpener(o) && line == front + "<<<" + Opened(o) && HeredocLabel(line, from) == Some(o.mark)
    decreases |line| - from
  {
    hide LabelBehind, Opened, ProperOpener;
    var p := IndexFrom(line, "<<<", from).value;
    if LabelBehind(line, p + 3).Some? {
      o := LabelMeans(line, p + 3);
      front := line[..p];
      assert line == line[..p] + line[p..p + 3] + line[p + 3..];
    } else {
      front, o := OpeningMeans(line, p + 1);
    }
  }

  // ----- where a heredoc ends -----

  /** Stripped of its blanks, the line is the label, perhaps with a semicolon. */
  predicate Ends(c: string, p: nat, mark: string)
    requires p <= |c|
  {
    TrimSpace(c[p..LineEnd(c, p)]) == mark || TrimSpace(c[p..LineEnd(c, p)]) == mark + ";"
  }

  /** The terminator is the first line behind the opening that holds nothing but the label. */
  lemma {:induction false} TerminatorExact(c: string, p: nat, mark: string)
    requires LineBegin(c, p) && p <= |c|
    ensures var r := Terminator(c, p, mark);
            (r.Some? ==> r.value < |c| && LineBegin(c, r.value) && Ends(c, r.value, mark))
            && forall k :: p <= k < (if r.Some? then r.value else |c|) && LineBegin(c, k) ==> !Ends(c, k, mark)
    decreases |c| - p
  {
    hide TrimSpace;
    if p < |c| && !Ends(c, p, mark) {
      TerminatorExact(c, LineEnd(c, p), mark);
    }
  }

  // ----- all heredocs -----

  function LabelOf(c: string, p: nat): Option<string>
    requires p <= |c|
  {
    HeredocLabel(TrimSpace(c[p..LineEnd(c, p)]), 0)
  }

  /** An opening line whose heredoc never ends, or hides a debug constant. */
  ghost predicate Broken(c: string, p: nat)
    requires p <= |c|
  {
    LabelOf(c, p).Some?
    && var last := Terminator(c, LineEnd(c, p), LabelOf(c, p).value);
    last.None? || exists j :: LineEnd(c, p) <= j && At(c[..last.value], "WP_DEBUG", j)
  }

  predicate Outside(rs: seq<Range>, p: nat) {
    forall k :: 0 <= k < |rs| ==> !(rs[k].start <= p < rs[k].end)
  }

  lemma BodyHides(c: string, p: nat, last: nat)
    requires p <= last <= |c| && IndexFrom(c[p..last], "WP_DEBUG", 0).Some?
    ensures exists j :: p <= j && At(c[..last], "WP_DEBUG", j)
  {
    var k := IndexFrom(c[p..last], "WP_DEBUG", 0).value;
    assert c[p..last][k..k + 8] == c[..last][p + k..p + k + 8];
    assert At(c[..last], "WP_DEBUG", p + k);
  }

  lemma MiddleOfLine(c: string, p: nat, q: nat)
    requires p < |c| && p < q < LineEnd(c, p)
    ensures !LineBegin(c, q)
  {
  }

  /** A scan that succeeds has recorded every opening: a line that opens a heredoc begins a recorded range or lies
      inside one. */
  lemma {:induction false} AllRecorded(c: string, p: nat, q: nat)
    requires p <= q < |c| && LineBegin(c, p) && LineBegin(c, q) && Heredocs(c, p).Some?
    ensures Outside(Heredocs(c, p).value, q) ==> LabelOf(c, q).None?
    decreases |c| - p
  {
    hide HeredocLabel, TrimSpace, Terminator, IndexFrom;
    var body := LineEnd(c, p);
    if q > p && q < body { MiddleOfLine(c, p, q); }
    if LabelOf(c, p).None? {
      if q >= body { AllRecorded(c, body, q); }
    } else {
      var last := Terminator(c, body, LabelOf(c, p).value).value;
      var end := LineEnd(c, last);
      var rest := Heredocs(c, end).value;
      var all := Heredocs(c, p).value;
      assert all == [Range(p, end)] + rest;
      if q >= end {
        AllRecorded(c, end, q);
        if Outside(all, q) {
          forall k | 0 <= k < |rest| ensures !(rest[k].start <= q < rest[k].end) { assert all[k + 1] == rest[k]; }
        }
      } else {
        assert all[0] == Range(p, end);
      }
    }
  }

  /** A scan fails only because of a broken heredoc. */
  lemma {:induction false} FailureIsBroken(c: string, p: nat) returns (q: nat)
    requires p <= |c| && LineBegin(c, p) && Heredocs(c, p).None?
    ensures p <= q < |c| && LineBegin(c, q) && Broken(c, q)
    decreases |c| - p
  {
    hide HeredocLabel, TrimSpace, Terminator, IndexFrom;
    var body := LineEnd(c, p);
    q := p;
    if LabelOf(c, p).None? {
      q := FailureIsBroken(c, body);
    } else {
      var last := Terminator(c, body, LabelOf(c, p).value);
      if last.Some? {
        if IndexFrom(c[body..last.value], "WP_DEBUG", 0).Some? {
          BodyHides(c, body, last.value);
        } else {
          q := FailureIsBroken(c, LineEnd(c, last.value));
        }
      }
    }
  }

  // ----- comments and quoted texts -----

  /** What begins at a position of code. */
  lemma OpeningExact(c: string, i: nat)
    requires i < |c|
    ensures var (kind, width) := Opening(c, i);
            var next := if i + 1 < |c| then c[i + 1] else ' ';
            if c[i] == '\'' || c[i] == '"' || c[i] == '`' then kind == Quoted(c[i]) && width == 1
            else if c[i] == '#' then kind == LineComment && width == 1
            else if c[i] == '/' && next == '/' then kind == LineComment && width == 2
            else if c[i] == '/' && next == '*' then kind == BlockComment && width == 2
            else kind == Plain && width == 1
  {
    TwoAt(c, '/', '/', i);
    TwoAt(c, '/', '*', i);
  }

  predicate Uncovered(h: seq<Range>, i: nat) {
    forall k :: 0 <= k < |h| ==> !(h[k].start <= i < h[k].end)
  }

  /** Every position from i to j belongs to some heredoc; nothing else is known of it. */
  lemma {:induction false} CoveredUpTo(h: seq<Range>, i: nat)
    requires Covering(h, i).Some?
    ensures forall k :: i <= k < Covering(h, i).value ==> !Uncovered(h, k)
  {
    if !(h[0].start <= i < h[0].end) {
      CoveredUpTo(h[1..], i);
      forall k | i <= k < Covering(h, i).value ensures !Uncovered(h, k) { UncoveredRest(h, k); }
    }
  }

  lemma UncoveredRest(h: seq<Range>, k: nat)
    requires h != []
    ensures Uncovered(h, k) ==> Uncovered(h[1..], k)
  {
    assert forall n :: 0 <= n < |h| - 1 ==> h[1..][n] == h[n + 1];
  }

  /** A line comment ends behind the first line break outside heredocs. */
  lemma {:induction false} LineCommentEnds(c: string, h: seq<Range>, i: nat)
    requires i <= |c|
    ensures var e := RegionEnd(c, h, i, LineComment);
            i <= e <= |c| && (forall k :: i <= k < e - 1 && c[k] == '\n' ==> !Uncovered(h, k))
            && (e < |c| ==> i < e && c[e - 1] == '\n' && Uncovered(h, e - 1))
    decreases |c| - i
  {
    hide Covering, Uncovered;
    if i < |c| {
      Reached(h, i);
      var next := Covering(h, i);
      if next.Some? {
        CoveredUpTo(h, i);
        if next.value <= |c| { LineCommentEnds(c, h, next.value); }
      } else if c[i] != '\n' {
        LineCommentEnds(c, h, i + 1);
      }
    }
  }

  lemma Reached(h: seq<Range>, i: nat)
    ensures Covering(h, i).None? <==> Uncovered(h, i)
  {
  }

  /** A block comment ends behind the first closing mark that starts outside heredocs. */
  lemma {:induction false} BlockCommentEnds(c: string, h: seq<Range>, i: nat)
    requires i <= |c|
    ensures var e := RegionEnd(c, h, i, BlockComment);
            i <= e <= |c| && (forall k :: i <= k < e - 2 && At(c, "*/", k) ==> !Uncovered(h, k))
            && (e < |c| ==> i + 2 <= e && At(c, "*/", e - 2) && Uncovered(h, e - 2))
    decreases |c| - i
  {
    hide Covering, Uncovered, At;
    if i < |c| {
      Reached(h, i);
      var next := Covering(h, i);
      if next.Some? {
        CoveredUpTo(h, i);
        if next.value <= |c| { BlockCommentEnds(c, h, next.value); }
      } else if !At(c, "*/", i) {
        BlockCommentEnds(c, h, i + 1);
      }
    }
  }

  /** What PHP passes inside quotes: a backslash takes the next character with it. */
  predicate Inside(s: string, quote: char) {
    s == "" || (s[0] == '\\' && (|s| == 1 || Inside(s[2..], quote)))
    || (s[0] != '\\' && s[0] != quote && Inside(s[1..], quote))
  }

  /** A quoted text that no heredoc cuts ends behind the first quote without a backslash in front of it, and at the
      end of the file if there is none. */
  lemma {:induction false} QuotedEnds(c: string, h: seq<Range>, i: nat, quote: char)
    requires i <= |c| && quote != '\\'
    requires var e := RegionEnd(c, h, i, Quoted(quote)); forall k :: i <= k < e ==> Uncovered(h, k)
    ensures var e := RegionEnd(c, h, i, Quoted(quote));
            (i < e && c[e - 1] == quote && Inside(c[i..e - 1], quote)) || (e == |c| && Inside(c[i..], quote))
    decreases |c| - i
  {
    hide Covering, Uncovered;
    if i < |c| {
      Reached(h, i);
      var e := RegionEnd(c, h, i, Quoted(quote));
      if Covering(h, i).None? {
        if c[i] == '\\' {
          if i + 2 <= |c| { QuotedEnds(c, h, i + 2, quote); }
          if e > i + 2 { assert c[i..e - 1][2..] == c[i + 2..e - 1]; }
          if i + 2 <= |c| { assert c[i..][2..] == c[i + 2..]; }
        } else if c[i] != quote {
          QuotedEnds(c, h, i + 1, quote);
          if e > i + 1 { assert c[i..e - 1][1..] == c[i + 1..e - 1]; }
          assert c[i..][1..] == c[i + 1..];
        }
      }
    }
  }

  // ----- the word -----

  /** A define word is the six letters, each in either case, with no word character on either side. */
  lemma DefineWordExact(c: string, i: nat)
    ensures DefineWord(c, i) <==>
              i + 6 <= |c|
              && (c[i] == 'd' || c[i] == 'D') && (c[i + 1] == 'e' || c[i + 1] == 'E')
              && (c[i + 2] == 'f' || c[i + 2] == 'F') && (c[i + 3] == 'i' || c[i + 3] == 'I')
              && (c[i + 4] == 'n' || c[i + 4] == 'N') && (c[i + 5] == 'e' || c[i + 5] == 'E')
              && (i > 0 ==> !WordChar(c[i - 1])) && (i + 6 < |c| ==> !WordChar(c[i + 6]))
  {
    if i + 6 <= |c| {
      var w := c[i..i + 6];
      assert forall k :: 0 <= k < 6 ==> w[k] == c[i + k];
      var d := "define";
      assert d[0] == 'd' && d[1] == 'e' && d[2] == 'f' && d[3] == 'i' && d[4] == 'n' && d[5] == 'e';
      OneFold(c[i], 'd');
      OneFold(c[i + 1], 'e');
      OneFold(c[i + 2], 'f');
      OneFold(c[i + 3], 'i');
      OneFold(c[i + 4], 'n');
      OneFold(c[i + 5], 'e');
      SixFold(c[i..i + 6], d);
    }
  }

  lemma OneFold(a: char, b: char)
    requires 'a' <= b <= 'z'
    ensures LowerChar(a) == LowerChar(b) <==> a == b || a == b - 'a' + 'A'
  {
  }

  lemma SixFold(s: string, t: string)
    requires |s| == |t| == 6
    ensures EqualFold(s, t) <==>
              LowerChar(s[0]) == LowerChar(t[0]) && LowerChar(s[1]) == LowerChar(t[1])
              && LowerChar(s[2]) == LowerChar(t[2]) && LowerChar(s[3]) == LowerChar(t[3])
              && LowerChar(s[4]) == LowerChar(t[4])
              && LowerChar(s[5]) == LowerChar(t[5])
  {
    hide LowerChar;
  }
}
