/** Reading a PHP file without executing it: where heredocs stand, and where a define call may begin. */
module PhpScan {
  import opened Faults
  import opened Letters
  import opened Text

  predicate IdentifierByte(c: char) {
    c == '_' || Letter(c) || '0' <= c <= '9'
  }

  // ----- the line that opens a heredoc -----

  function IdentifierEnd(s: string, i: nat): (j: nat)
    requires i <= |s|
    ensures i <= j <= |s|
    decreases |s| - i
  {
    if i < |s| && IdentifierByte(s[i]) then IdentifierEnd(s, i + 1) else i
  }

  predicate OnlySemicolon(s: string, i: nat)
    requires i <= |s|
  {
    var j := Skip(s, i, Blank);
    if j < |s| && s[j] == ';' then Skip(s, j + 1, Blank) == |s| else j == |s|
  }

  predicate Identifier(s: string) {
    s != "" && (Letter(s[0]) || s[0] == '_')
  }

  /** The label behind three angle brackets, when nothing but an optional semicolon follows it. */
  function LabelBehind(s: string, p: nat): Option<string>
    requires p <= |s|
  {
    var i := Skip(s, p, Blank);
    if i < |s| && s[i] in "'\"" then
      var j := IdentifierEnd(s, i + 1);
      if Identifier(s[i + 1..j]) && j < |s| && s[j] == s[i] && OnlySemicolon(s, j + 1) then Some(s[i + 1..j]) else None
    else
      var j := IdentifierEnd(s, i);
      if Identifier(s[i..j]) && OnlySemicolon(s, j) then Some(s[i..j]) else None
  }

  function HeredocLabel(line: string, from: nat): Option<string>
    requires from <= |line|
    decreases |line| - from
  {
    match IndexFrom(line, "<<<", from)
    case None => None
    case Some(p) =>
      var mark := LabelBehind(line, p + 3);
      if mark.Some? then mark else HeredocLabel(line, p + 1)
  }

  // ----- heredocs -----

  datatype Range = Range(start: nat, end: nat)

  predicate Terminates(line: string, mark: string) {
    TrimSpace(line) == mark || TrimSpace(line) == mark + ";"
  }

  /** The first line from a position on that ends the heredoc. */
  function Terminator(c: string, cursor: nat, mark: string): (r: Option<nat>)
    requires cursor <= |c|
    ensures r.Some? ==> cursor <= r.value < |c|
    decreases |c| - cursor
  {
    if cursor == |c| then None
    else if Terminates(c[cursor..LineEnd(c, cursor)], mark) then Some(cursor)
    else Terminator(c, LineEnd(c, cursor), mark)
  }

  function Behind(ranges: seq<Range>, rest: Option<seq<Range>>): Option<seq<Range>> {
    if rest.None? then None else Some(ranges + rest.value)
  }

  lemma BehindNothing(rest: Option<seq<Range>>)
    ensures Behind([], rest) == rest
  {
    if rest.Some? { assert [] + rest.value == rest.value; }
  }

  lemma BehindMore(ranges: seq<Range>, r: Range, rest: Option<seq<Range>>)
    ensures Behind(ranges, Behind([r], rest)) == Behind(ranges + [r], rest)
  {
    if rest.Some? { assert ranges + ([r] + rest.value) == ranges + [r] + rest.value; }
  }

  lemma BehindFailed(ranges: seq<Range>)
    ensures Behind(ranges, None) == None
  {
  }

  lemma BehindDone(ranges: seq<Range>)
    ensures Behind(ranges, Some([])) == Some(ranges)
  {
    assert ranges + [] == ranges;
  }

  /** All heredocs from the line at p on; None when one is unterminated or hides a debug constant. */
  function Heredocs(c: string, p: nat): Option<seq<Range>>
    requires p <= |c|
    decreases |c| - p
  {
    if p == |c| then Some([])
    else
      var bodyStart := LineEnd(c, p);
      match HeredocLabel(TrimSpace(c[p..bodyStart]), 0)
      case None => Heredocs(c, bodyStart)
      case Some(mark) =>
        match Terminator(c, bodyStart, mark)
        case None => None
        case Some(last) =>
          if IndexFrom(c[bodyStart..last], "WP_DEBUG", 0).Some? then None
          else
            Behind([Range(p, LineEnd(c, last))], Heredocs(c, LineEnd(c, last)))
  }

  method ScanPHPHeredocs(content: string) returns (r: Option<seq<Range>>)
    ensures r == Heredocs(content, 0)
  {
    hide HeredocLabel, TrimSpace, IndexFrom, Behind;
    var ranges, position := [], 0;
    BehindNothing(Heredocs(content, 0));
    while position < |content|
      invariant position <= |content|
      invariant Heredocs(content, 0) == Behind(ranges, Heredocs(content, position))
    {
      var lineEnd := LineEnd(content, position);
      var mark := HeredocLabel(TrimSpace(content[position..lineEnd]), 0);
      if mark.None? {
        position := lineEnd;
        continue;
      }
      var cursor, found := lineEnd, false;
      while cursor < |content| && !found
        invariant lineEnd <= cursor <= |content|
        invariant Terminator(content, lineEnd, mark.value) == Terminator(content, cursor, mark.value)
        invariant found ==> Terminator(content, cursor, mark.value) == Some(cursor)
        decreases |content| - cursor, !found
      {
        var terminatorEnd := LineEnd(content, cursor);
        if Terminates(content[cursor..terminatorEnd], mark.value) {
          found := true;
        } else {
          cursor := terminatorEnd;
        }
      }
      BehindFailed(ranges);
      if !found { return None; }
      if IndexFrom(content[lineEnd..cursor], "WP_DEBUG", 0).Some? { return None; }
      BehindMore(ranges, Range(position, LineEnd(content, cursor)), Heredocs(content, LineEnd(content, cursor)));
      ranges := ranges + [Range(position, LineEnd(content, cursor))];
      position := LineEnd(content, cursor);
    }
    BehindDone(ranges);
    return Some(ranges);
  }

  /** What a recorded range is: an opening line, a body without debug constants, and the first line that ends it. */
  predicate HeredocAt(c: string, r: Range, mark: string, last: nat) {
    r.start < r.end <= |c|
    && (r.start > 0 ==> c[r.start - 1] == '\n')
    && LineEnd(c, r.start) <= last < r.end && LineEnd(c, last) == r.end
    && HeredocLabel(TrimSpace(c[r.start..LineEnd(c, r.start)]), 0) == Some(mark)
    && Terminates(c[last..r.end], mark)
    && Terminator(c, LineEnd(c, r.start), mark) == Some(last)
    && forall j :: LineEnd(c, r.start) <= j < last ==> !At(c[..last], "WP_DEBUG", j)
  }

  predicate LineBegin(c: string, p: nat) {
    p == 0 || p == |c| || (p < |c| && c[p - 1] == '\n')
  }

  ghost predicate IsHeredoc(c: string, r: Range) {
    exists mark, last :: HeredocAt(c, r, mark, last)
  }

  ghost predicate Apart(c: string, p: nat, hs: seq<Range>) {
    (forall k :: 0 <= k < |hs| ==> p <= hs[k].start <= hs[k].end && IsHeredoc(c, hs[k]))
    && (forall j, k :: 0 <= j < k < |hs| ==> hs[j].end <= hs[k].start)
  }

  lemma ApartCons(c: string, p: nat, r: Range, rest: seq<Range>)
    requires p <= r.start <= r.end && IsHeredoc(c, r) && Apart(c, r.end, rest)
    ensures Apart(c, p, [r] + rest)
  {
    hide IsHeredoc;
    var all := [r] + rest;
    assert forall k :: 0 < k < |all| ==> all[k] == rest[k - 1];
  }

  lemma ApartEarlier(c: string, p: nat, q: nat, hs: seq<Range>)
    requires p <= q && Apart(c, q, hs)
    ensures Apart(c, p, hs)
  {
    hide IsHeredoc;
  }

  /** Recorded heredocs are whole lines, in order, apart from each other, and hide no debug constant. */
  lemma {:induction false} HeredocsApart(c: string, p: nat)
    requires p <= |c| && LineBegin(c, p) && Heredocs(c, p).Some?
    ensures Apart(c, p, Heredocs(c, p).value)
    decreases |c| - p
  {
    hide HeredocLabel, TrimSpace, Terminates, IndexFrom, Apart, IsHeredoc;
    if p < |c| {
      var bodyStart := LineEnd(c, p);
      var mark := HeredocLabel(TrimSpace(c[p..bodyStart]), 0);
      if mark.None? {
        HeredocsApart(c, bodyStart);
        ApartEarlier(c, p, bodyStart, Heredocs(c, p).value);
      } else {
        var last := Terminator(c, bodyStart, mark.value).value;
        var r := Range(p, LineEnd(c, last));
        HeredocsApart(c, r.end);
        OneHeredoc(c, p, mark.value, last);
        ApartCons(c, p, r, Heredocs(c, r.end).value);
      }
    } else {
      NoneApart(c, p);
    }
  }

  lemma NoneApart(c: string, p: nat)
    ensures Apart(c, p, [])
  {
  }

  lemma OneHeredoc(c: string, p: nat, mark: string, last: nat)
    requires p < |c| && LineBegin(c, p)
    requires HeredocLabel(TrimSpace(c[p..LineEnd(c, p)]), 0) == Some(mark)
    requires Terminator(c, LineEnd(c, p), mark) == Some(last)
    requires IndexFrom(c[LineEnd(c, p)..last], "WP_DEBUG", 0).None?
    ensures HeredocAt(c, Range(p, LineEnd(c, last)), mark, last) && IsHeredoc(c, Range(p, LineEnd(c, last)))
  {
    TerminatorEnds(c, LineEnd(c, p), mark);
    BodyClean(c, LineEnd(c, p), last);
    hide HeredocLabel, TrimSpace, Terminates, IndexFrom, Terminator, LineEnd, At;
  }

  lemma {:induction false} TerminatorEnds(c: string, cursor: nat, mark: string)
    requires cursor <= |c| && Terminator(c, cursor, mark).Some?
    ensures var last := Terminator(c, cursor, mark).value; Terminates(c[last..LineEnd(c, last)], mark)
    decreases |c| - cursor
  {
    hide Terminates;
    if !Terminates(c[cursor..LineEnd(c, cursor)], mark) { TerminatorEnds(c, LineEnd(c, cursor), mark); }
  }

  lemma BodyClean(c: string, bodyStart: nat, last: nat)
    requires bodyStart <= last <= |c| && IndexFrom(c[bodyStart..last], "WP_DEBUG", 0).None?
    ensures forall j :: bodyStart <= j ==> !At(c[..last], "WP_DEBUG", j)
  {
    forall j | bodyStart <= j && j + 8 <= last ensures !At(c[..last], "WP_DEBUG", j) {
      assert !At(c[bodyStart..last], "WP_DEBUG", j - bodyStart);
      assert c[bodyStart..last][j - bodyStart..j - bodyStart + 8] == c[..last][j..j + 8];
    }
  }

  // ----- the lexer -----

  datatype Kind = Plain | Heredoc | Quoted(quote: char) | LineComment | BlockComment

  datatype Span = Span(kind: Kind, start: nat, end: nat)

  /** The end of the heredoc that a position lies in. */
  function Covering(h: seq<Range>, i: nat): (r: Option<nat>)
    ensures r.Some? ==> i < r.value
    ensures r.None? <==> forall k :: 0 <= k < |h| ==> !(h[k].start <= i < h[k].end)
  {
    if h == [] then None
    else if h[0].start <= i < h[0].end then Some(h[0].end)
    else
      assert forall k :: 0 <= k < |h| - 1 ==> h[1..][k] == h[k + 1];
      Covering(h[1..], i)
  }

  function Opening(c: string, i: nat): (Kind, nat)
    requires i < |c|
  {
    if c[i] in "'\"`" then (Quoted(c[i]), 1)
    else if c[i] == '#' then (LineComment, 1)
    else if At(c, "//", i) then (LineComment, 2)
    else if At(c, "/*", i) then (BlockComment, 2)
    else (Plain, 1)
  }

  /** Where a quoted text or a comment ends that is still open at position i; a heredoc inside it is jumped over. */
  function RegionEnd(c: string, h: seq<Range>, i: nat, kind: Kind): (e: nat)
    ensures e <= |c| && (i <= |c| ==> i <= e)
    decreases |c| - i
  {
    if i >= |c| then |c|
    else if Covering(h, i).Some? then RegionEnd(c, h, Covering(h, i).value, kind)
    else match kind
      case Quoted(q) =>
        if c[i] == '\\' then RegionEnd(c, h, i + 2, kind) else if c[i] == q then i + 1 else RegionEnd(c, h, i + 1, kind)
      case BlockComment => if At(c, "*/", i) then i + 2 else RegionEnd(c, h, i + 1, kind)
      case _ => if c[i] == '\n' then i + 1 else RegionEnd(c, h, i + 1, kind)
  }

  function SpanAt(c: string, h: seq<Range>, i: nat): (s: Span)
    requires i < |c|
    ensures s.start == i < s.end <= |c|
  {
    match Covering(h, i)
    case Some(e) => Span(Heredoc, i, if e < |c| then e else |c|)
    case None =>
      var (kind, width) := Opening(c, i);
      Span(kind, i, if kind.Plain? then i + 1 else RegionEnd(c, h, i + width, kind))
  }

  /** A file as a row of spans: single characters of code, quoted texts, comments and heredocs. */
  function Lex(c: string, h: seq<Range>, i: nat): seq<Span>
    decreases |c| - i
  {
    if i >= |c| then [] else [SpanAt(c, h, i)] + Lex(c, h, SpanAt(c, h, i).end)
  }

  predicate EqualFold(s: string, t: string) {
    |s| == |t| && forall i :: 0 <= i < |s| ==> LowerChar(s[i]) == LowerChar(t[i])
  }

  /** A define, in any case, that is a word of its own. */
  predicate DefineWord(c: string, i: nat) {
    i + 6 <= |c| && EqualFold(c[i..i + 6], "define")
    && (i == 0 || !IdentifierByte(c[i - 1])) && (i + 6 == |c| || !IdentifierByte(c[i + 6]))
  }

  predicate IsToken(c: string, s: Span) {
    s.kind.Plain? && DefineWord(c, s.start)
  }

  function Tokens(c: string, spans: seq<Span>): seq<nat> {
    if spans == [] then []
    else (if IsToken(c, spans[0]) then [spans[0].start] else []) + Tokens(c, spans[1..])
  }

  /** What is still to come when the loop stands at position i in a state. */
  function Remaining(c: string, h: seq<Range>, i: nat, state: Kind): seq<nat> {
    Tokens(c, Lex(c, h, if state.Plain? || state.Heredoc? then i else RegionEnd(c, h, i, state)))
  }

  lemma OneSpan(c: string, h: seq<Range>, i: nat)
    requires i < |c|
    ensures var s := SpanAt(c, h, i);
            Tokens(c, Lex(c, h, i)) == (if IsToken(c, s) then [i] else []) + Tokens(c, Lex(c, h, s.end))
  {
    assert Lex(c, h, i)[1..] == Lex(c, h, SpanAt(c, h, i).end);
  }

  lemma NothingBehind(c: string, h: seq<Range>, i: nat, j: nat)
    requires i >= |c| && j >= |c|
    ensures Lex(c, h, i) == Lex(c, h, j) == []
    ensures forall state :: Remaining(c, h, i, state) == []
  {
  }

  /** One step of the loop over code, and one step inside a quoted text or a comment. */
  lemma PlainStep(c: string, h: seq<Range>, i: nat)
    requires i < |c| && Covering(h, i).None?
    ensures var (kind, width) := Opening(c, i);
            Remaining(c, h, i, Plain)
            == (if kind.Plain? && DefineWord(c, i) then [i] else []) + Remaining(c, h, i + width, kind)
  {
    hide DefineWord;
    OneSpan(c, h, i);
  }

  lemma InsideStep(c: string, h: seq<Range>, i: nat, kind: Kind)
    requires i < |c| && Covering(h, i).None? && !kind.Plain? && !kind.Heredoc?
    ensures match kind
            case Quoted(q) =>
              Remaining(c, h, i, kind) == (if c[i] == '\\' then Remaining(c, h, i + 2, kind)
                                           else Remaining(c, h, i + 1, if c[i] == q then Plain else kind))
            case BlockComment =>
              Remaining(c, h, i, kind)
                  == (if At(c, "*/", i) then Remaining(c, h, i + 2, Plain) else Remaining(c, h, i + 1, kind))
            case _ => Remaining(c, h, i, kind) == Remaining(c, h, i + 1, if c[i] == '\n' then Plain else kind)
  {
    hide Lex, Tokens;
  }

  lemma TwoAt(c: string, a: char, b: char, i: nat)
    ensures At(c, [a, b], i) <==> i + 1 < |c| && c[i] == a && c[i + 1] == b
  {
    if i + 1 < |c| { assert c[i..i + 2] == [c[i], c[i + 1]]; }
  }

  method ScanPHPDefineTokens(content: string, heredocs: seq<Range>) returns (offsets: seq<nat>)
    ensures offsets == Tokens(content, Lex(content, heredocs, 0))
  {
    hide DefineWord, Lex, Tokens, Remaining, Covering, At;
    offsets := [];
    var state, i := Plain, 0;
    RemainingAtStart(content, heredocs);
    while i < |content|
      invariant !state.Heredoc?
      invariant Remaining(content, heredocs, 0, Plain) == offsets + Remaining(content, heredocs, i, state)
      decreases |content| - i
    {
      var inHeredoc := FindHeredoc(heredocs, i);
      if inHeredoc.Some? {
        HeredocStep(content, heredocs, i, state);
        i := inHeredoc.value;
        continue;
      }
      var current := content[i];
      if !state.Plain? {
        InsideStep(content, heredocs, i, state);
        TwoAt(content, '*', '/', i);
        match state {
          case Quoted(quote) =>
            if current == '\\' {
              i := i + 2;
              continue;
            }
            if current == quote { state := Plain; }
          case BlockComment =>
            if current == '*' && i + 1 < |content| && content[i + 1] == '/' {
              state := Plain;
              i := i + 1;
            }
          case _ =>
            if current == '\n' { state := Plain; }
        }
      } else {
        PlainStep(content, heredocs, i);
        TwoAt(content, '/', '/', i);
        TwoAt(content, '/', '*', i);
        if current == '\'' || current == '"' || current == '`' {
          state := Quoted(current);
        } else if current == '#' {
          state := LineComment;
        } else if current == '/' && i + 1 < |content| && content[i + 1] == '/' {
          state := LineComment;
          i := i + 1;
        } else if current == '/' && i + 1 < |content| && content[i + 1] == '*' {
          state := BlockComment;
          i := i + 1;
        } else if DefineWord(content, i) {
          Associate(offsets, [i], Remaining(content, heredocs, i + 1, Plain));
          offsets := offsets + [i];
        }
      }
      i := i + 1;
    }
    NothingBehind(content, heredocs, i, i);
    assert offsets + [] == offsets;
  }

  lemma RemainingAtStart(c: string, h: seq<Range>)
    ensures Remaining(c, h, 0, Plain) == Tokens(c, Lex(c, h, 0))
    ensures [] + Remaining(c, h, 0, Plain) == Remaining(c, h, 0, Plain)
  {
  }

  method FindHeredoc(heredocs: seq<Range>, i: nat) returns (end: Option<nat>)
    ensures end == Covering(heredocs, i)
  {
    for k := 0 to |heredocs|
      invariant Covering(heredocs, i) == Covering(heredocs[k..], i)
    {
      if heredocs[k].start <= i < heredocs[k].end { return Some(heredocs[k].end); }
      assert heredocs[k..][1..] == heredocs[k + 1..];
    }
    return None;
  }

  lemma HeredocStep(c: string, h: seq<Range>, i: nat, state: Kind)
    requires i < |c| && Covering(h, i).Some?
    ensures Remaining(c, h, i, state) == Remaining(c, h, Covering(h, i).value, state)
  {
    var e := Covering(h, i).value;
    if state.Plain? || state.Heredoc? {
      OneSpan(c, h, i);
      if e >= |c| { NothingBehind(c, h, e, |c|); }
    }
  }

  // ----- what the tokens are -----

  /** The spans follow each other without a gap, up to the end of the file. */
  lemma {:induction false} LexTiles(c: string, h: seq<Range>, i: nat)
    requires i <= |c|
    ensures var spans := Lex(c, h, i);
            if i == |c| then spans == []
            else spans != [] && spans[0].start == i && spans[|spans| - 1].end == |c|
                 && (forall k :: 0 <= k < |spans| ==> spans[k].start < |c| && spans[k] == SpanAt(c, h, spans[k].start))
                 && (forall k :: 0 < k < |spans| ==> spans[k - 1].end == spans[k].start)
    decreases |c| - i
  {
    hide SpanAt;
    if i < |c| { LexTiles(c, h, SpanAt(c, h, i).end); }
  }

  predicate Increasing(offsets: seq<nat>) {
    forall j, k :: 0 <= j < k < |offsets| ==> offsets[j] < offsets[k]
  }

  /** A code span at this position holds a define word. */
  predicate TokenIn(c: string, spans: seq<Span>, o: nat) {
    exists k :: 0 <= k < |spans| && IsToken(c, spans[k]) && spans[k].start == o
  }

  /** The tokens are exactly the define words of the code spans, each once and in order. */
  lemma {:induction false} TokensExact(c: string, h: seq<Range>, i: nat)
    requires i <= |c|
    ensures Increasing(Tokens(c, Lex(c, h, i)))
    ensures forall o :: o in Tokens(c, Lex(c, h, i)) <==> TokenIn(c, Lex(c, h, i), o)
    ensures forall o :: o in Tokens(c, Lex(c, h, i)) ==> i <= o && DefineWord(c, o) && Covering(h, o).None?
    decreases |c| - i
  {
    hide DefineWord, TokenIn, Lex, Tokens, SpanAt, Increasing, Covering, IsToken;
    if i < |c| {
      var s := SpanAt(c, h, i);
      TokensExact(c, h, s.end);
      OneLexed(c, h, i);
      OneSpan(c, h, i);
      TokenSplit(c, s, Lex(c, h, s.end));
      TokenFacts(c, h, i);
      IncreasingCons(i, Tokens(c, Lex(c, h, s.end)));
      assert [] + Tokens(c, Lex(c, h, s.end)) == Tokens(c, Lex(c, h, s.end));
    } else {
      NothingBehind(c, h, i, i);
      NoToken(c);
    }
  }

  lemma IncreasingCons(i: nat, rest: seq<nat>)
    requires Increasing(rest) && forall o :: o in rest ==> i < o
    ensures Increasing([i] + rest)
  {
    var all := [i] + rest;
    forall j, k | 0 <= j < k < |all| ensures all[j] < all[k] {
      assert all[k] == rest[k - 1] && rest[k - 1] in rest;
    }
  }

  lemma OneLexed(c: string, h: seq<Range>, i: nat)
    requires i < |c|
    ensures Lex(c, h, i) == [SpanAt(c, h, i)] + Lex(c, h, SpanAt(c, h, i).end)
  {
  }

  lemma TokenFacts(c: string, h: seq<Range>, i: nat)
    requires i < |c|
    ensures IsToken(c, SpanAt(c, h, i)) ==> Covering(h, i).None? && DefineWord(c, i)
  {
  }

  lemma NoToken(c: string)
    ensures Tokens(c, []) == [] && Increasing([]) && forall o :: !TokenIn(c, [], o)
  {
  }

  lemma TokenSplit(c: string, s: Span, rest: seq<Span>)
    ensures forall o :: TokenIn(c, [s] + rest, o) <==> (IsToken(c, s) && s.start == o) || TokenIn(c, rest, o)
  {
    hide IsToken;
    var all := [s] + rest;
    forall o | TokenIn(c, rest, o) ensures TokenIn(c, all, o) {
      var k :| 0 <= k < |rest| && IsToken(c, rest[k]) && rest[k].start == o;
      assert all[k + 1] == rest[k];
    }
    assert all[0] == s;
  }
}
