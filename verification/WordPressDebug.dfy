/** Adopting the plain define lines of the debug settings in wp-config.php. */
module WordPressDebug {
  import opened Faults
  import opened Text
  import opened PhpScan

  const NAMES := ["WP_DEBUG", "WP_DEBUG_LOG", "WP_DEBUG_DISPLAY"]

  /** White space as a regular expression has it. */
  predicate PatternSpace(c: char) {
    c == ' ' || c == '\t' || c == '\n' || c == '\r' || c == 12 as char
  }

  // ----- one define line -----

  predicate QuotedName(p: string, j: nat) {
    j < |p| && p[j] in "'\""
    && exists n :: 0 <= n < |NAMES| && At(p, NAMES[n], j + 1) && j + 1 + |NAMES[n]| < |p|
        && p[j + 1 + |NAMES[n]|] in "'\""
  }

  /** A debug constant is named within 256 characters behind the define. */
  predicate Nearby(p: string) {
    |p| >= 6 && EqualFold(p[..6], "define") && exists j :: 6 <= j <= 262 && QuotedName(p, j)
  }

  /** The closing quote of a quoted text with backslash pairs. */
  function ClosingQuote(s: string, i: nat, quote: char): (r: Option<nat>)
    ensures r.Some? ==> i <= r.value < |s|
    decreases |s| - i
  {
    if i >= |s| then None
    else if s[i] == quote then Some(i)
    else if s[i] == '\\' then if i + 1 < |s| && s[i + 1] != '\n' then ClosingQuote(s, i + 2, quote) else None
    else ClosingQuote(s, i + 1, quote)
  }

  /** The end of a literal: true, false or a quoted text. */
  function LiteralEnd(s: string, i: nat): (r: Option<nat>)
    requires i <= |s|
    ensures r.Some? ==> i <= r.value <= |s|
  {
    if At(s, "true", i) then Some(i + 4)
    else if At(s, "false", i) then Some(i + 5)
    else if i < |s| && s[i] in "'\"" then
      match ClosingQuote(s, i + 1, s[i])
      case None => None
      case Some(q) => Some(q + 1)
    else None
  }

  /** The position behind one character that may have blanks in front. */
  function Expect(s: string, i: nat, c: char): (r: Option<nat>)
    requires i <= |s|
    ensures r.Some? ==> i < r.value <= |s|
  {
    var j := Skip(s, i, PatternSpace);
    if j < |s| && s[j] == c then Some(j + 1) else None
  }

  function NameAt(s: string, i: nat): (r: Option<string>)
    requires i < |s|
    ensures r.Some? ==> i + |r.value| + 2 <= |s|
  {
    if At(s, "WP_DEBUG" + [s[i]], i + 1) then Some("WP_DEBUG")
    else if At(s, "WP_DEBUG_LOG" + [s[i]], i + 1) then Some("WP_DEBUG_LOG")
    else if At(s, "WP_DEBUG_DISPLAY" + [s[i]], i + 1) then Some("WP_DEBUG_DISPLAY")
    else None
  }

  datatype Define = Define(name: string, value: string, comment: string)

  /** The comment that closes a define line, or nothing. */
  function CommentAt(s: string, i: nat): Option<string>
    requires i <= |s|
  {
    var r := Skip(s, i, PatternSpace);
    if r == |s| then Some("")
    else if (s[r] == '#' || At(s, "//", r)) && '\n' !in s[r..] then Some(s[r..])
    else None
  }

  /** A whole call: define ( name , literal ) ; and at most a comment. */
  function SimpleDefine(s: string): Option<Define> {
    if !(|s| >= 6 && EqualFold(s[..6], "define")) then None
    else match Expect(s, 6, '(')
      case None => None
      case Some(open) =>
        var q := Skip(s, open, PatternSpace);
        if !(q < |s| && s[q] in "'\"") then None
        else match NameAt(s, q)
          case None => None
          case Some(name) =>
            match Expect(s, q + |name| + 2, ',')
            case None => None
            case Some(comma) =>
              var v := Skip(s, comma, PatternSpace);
              match LiteralEnd(s, v)
              case None => None
              case Some(e) =>
                match Expect(s, e, ')')
                case None => None
                case Some(close) =>
                  match Expect(s, close, ';')
                  case None => None
                  case Some(semicolon) =>
                    match CommentAt(s, semicolon)
                    case None => None
                    case Some(comment) => Some(Define(name, s[v..e], comment))
  }

  datatype Verdict = Ignore | Refuse | Take(define: Define)

  /** What becomes of a define at an offset. */
  function Judge(c: string, o: nat): Verdict
    requires o + 6 <= |c|
  {
    if !Nearby(c[o..if o + 1024 < |c| then o + 1024 else |c|]) then Ignore
    else if c[o..o + 6] != "define" then Refuse
    else if TrimSpace(c[LineStart(c, o)..o]) != "" then Refuse
    else match SimpleDefine(TrimSpace(c[o..LineEnd(c, o)]))
      case None => Refuse
      case Some(d) =>
        if d.name != "WP_DEBUG_LOG" && d.value != "true" && d.value != "false" then Refuse else Take(d)
  }

  // ----- adoption -----

  datatype Replacement = Replacement(start: nat, end: nat, comment: string)

  datatype Found = Found(replacements: seq<Replacement>, values: map<string, string>)

  function Note(c: string, o: nat, found: Found): Option<Found>
    requires o + 6 <= |c|
  {
    match Judge(c, o)
    case Ignore => Some(found)
    case Refuse => None
    case Take(d) =>
      if d.name in found.values then None
      else Some(Found(found.replacements + [Replacement(LineStart(c, o), LineEnd(c, o), d.comment)],
                      found.values[d.name := d.value]))
  }

  predicate Offsets(c: string, offsets: seq<nat>) {
    Increasing(offsets) && forall k :: 0 <= k < |offsets| ==> offsets[k] + 6 <= |c| && DefineWord(c, offsets[k])
  }

  function Collect(c: string, offsets: seq<nat>, found: Found): Option<Found>
    requires Offsets(c, offsets)
    decreases |offsets|
  {
    if offsets == [] then Some(found)
    else match Note(c, offsets[0], found)
      case None => None
      case Some(next) => Collect(c, offsets[1..], next)
  }

  predicate WholeLine(c: string, start: nat, end: nat) {
    LineBegin(c, start) && start < end <= |c| && LineEnd(c, start) == end
  }

  predicate Disjoint(c: string, rs: seq<Replacement>) {
    (forall k :: 0 <= k < |rs| ==> WholeLine(c, rs[k].start, rs[k].end))
    && (forall j, k :: 0 <= j < k < |rs| ==> rs[j].end <= rs[k].start)
  }

  function CommentLine(comment: string): string {
    if comment == "" then "" else comment + "\n"
  }

  function Splice(c: string, position: nat, rs: seq<Replacement>): string
    requires position <= |c| && Disjoint(c, rs) && (rs != [] ==> position <= rs[0].start)
    decreases |rs|
  {
    if rs == [] then c[position..]
    else
      assert Disjoint(c, rs[1..]) by { DisjointRest(c, rs); }
      c[position..rs[0].start] + CommentLine(rs[0].comment) + Splice(c, rs[0].end, rs[1..])
  }

  lemma DisjointRest(c: string, rs: seq<Replacement>)
    requires Disjoint(c, rs) && rs != []
    ensures Disjoint(c, rs[1..]) && (|rs| > 1 ==> rs[0].end <= rs[1].start)
  {
    hide WholeLine;
  }

  /** The last line taken over holds something in front of the next offset. */
  ghost predicate Taken(c: string, found: Found, bound: nat) {
    Disjoint(c, found.replacements)
    && (found.replacements == [] <==> found.values == map[])
    && (found.replacements != [] ==>
          var r := found.replacements[|found.replacements| - 1];
          exists k :: r.start <= k < r.end && k < bound && !Space(c[k]))
  }

  lemma LineEndOfStart(c: string, b: nat, o: nat)
    requires b <= o < |c| && forall k :: b <= k < o ==> c[k] != '\n'
    ensures LineEnd(c, b) == LineEnd(c, o)
    decreases o - b
  {
    if b < o { LineEndOfStart(c, b + 1, o); }
  }

  lemma BlankText(s: string)
    requires TrimSpace(s) == ""
    ensures forall k :: 0 <= k < |s| ==> Space(s[k])
  {
    hide TrimSpace, TrimLeft;
    var i, j := TrimBounds(s);
    assert |s[i..j]| == j - i;
  }

  /** A line that is taken over begins behind the line taken over before. */
  lemma NextLine(c: string, start: nat, end: nat, k: nat, o: nat)
    requires WholeLine(c, start, end) && start <= k < end && k < o < |c| && !Space(c[k])
    requires TrimSpace(c[LineStart(c, o)..o]) == ""
    ensures end <= LineStart(c, o)
  {
    var b := LineStart(c, o);
    BlankText(c[b..o]);
    assert forall j :: b <= j < o ==> c[j] == c[b..o][j - b];
    assert k < b && c[b - 1] == '\n';
  }

  lemma TakeMeans(c: string, o: nat)
    requires o + 6 <= |c| && Judge(c, o).Take?
    ensures WholeLine(c, LineStart(c, o), LineEnd(c, o)) && LineStart(c, o) <= o < LineEnd(c, o)
    ensures !Space(c[o]) && TrimSpace(c[LineStart(c, o)..o]) == ""
  {
    hide SimpleDefine, Nearby, TrimSpace;
    LineEndOfStart(c, LineStart(c, o), o);
    assert c[o] == c[o..o + 6][0];
  }

  lemma NoteKeeps(c: string, o: nat, found: Found, bound: nat)
    requires o + 6 <= |c| && bound <= o && Taken(c, found, bound) && Note(c, o, found).Some?
    ensures Taken(c, Note(c, o, found).value, o + 1)
  {
    hide Judge, TrimSpace, WholeLine, Disjoint;
    if Judge(c, o).Take? {
      TakeMeans(c, o);
      var rs, next := found.replacements, Note(c, o, found).value;
      var r := Replacement(LineStart(c, o), LineEnd(c, o), Judge(c, o).define.comment);
      assert next.replacements == rs + [r];
      if rs != [] {
        var last := rs[|rs| - 1];
        var k :| last.start <= k < last.end && k < bound && !Space(c[k]);
        LastIsLine(c, rs);
        NextLine(c, last.start, last.end, k, o);
      }
      DisjointMore(c, rs, r);
      assert Judge(c, o).define.name in next.values;
    }
  }

  lemma LastIsLine(c: string, rs: seq<Replacement>)
    requires Disjoint(c, rs) && rs != []
    ensures WholeLine(c, rs[|rs| - 1].start, rs[|rs| - 1].end)
  {
  }

  lemma DisjointMore(c: string, rs: seq<Replacement>, r: Replacement)
    requires Disjoint(c, rs) && WholeLine(c, r.start, r.end) && (rs != [] ==> rs[|rs| - 1].end <= r.start)
    ensures Disjoint(c, rs + [r])
  {
    forall k | 0 <= k < |rs| ensures rs[k].end <= r.start {
      if k < |rs| - 1 { assert rs[k].end <= rs[|rs| - 1].start < rs[|rs| - 1].end; }
    }
    hide WholeLine;
  }

  const NOTHING := Found([], map[])

  lemma {:induction false} CollectKeeps(c: string, offsets: seq<nat>, found: Found, bound: nat)
    requires Offsets(c, offsets) && Taken(c, found, bound) && (offsets != [] ==> bound <= offsets[0])
    requires Collect(c, offsets, found).Some?
    ensures exists end :: Taken(c, Collect(c, offsets, found).value, end)
    decreases |offsets|
  {
    hide Taken, Note, DefineWord;
    if offsets != [] {
      NoteKeeps(c, offsets[0], found, bound);
      CollectKeeps(c, offsets[1..], Note(c, offsets[0], found).value, offsets[0] + 1);
    }
  }

  function DefineOffsets(c: string, heredocs: seq<Range>): (r: seq<nat>)
    ensures Offsets(c, r)
  {
    TokensAreOffsets(c, heredocs);
    Tokens(c, Lex(c, heredocs, 0))
  }

  lemma TokensAreOffsets(c: string, heredocs: seq<Range>)
    ensures Offsets(c, Tokens(c, Lex(c, heredocs, 0)))
  {
    hide Lex, Tokens, DefineWord, Increasing, TokenIn;
    var r := Tokens(c, Lex(c, heredocs, 0));
    TokensExact(c, heredocs, 0);
    forall k | 0 <= k < |r| ensures r[k] + 6 <= |c| && DefineWord(c, r[k]) {
      assert r[k] in r;
      WordFits(c, r[k]);
    }
  }

  lemma WordFits(c: string, o: nat)
    requires DefineWord(c, o)
    ensures o + 6 <= |c|
  {
  }

  /** The lines that adoption takes out, or None when it refuses. */
  function Adoption(c: string): (r: Option<Found>)
    ensures r.Some? ==> Disjoint(c, r.value.replacements) && (r.value.replacements == [] <==> r.value.values == map[])
  {
    match Heredocs(c, 0)
    case None => None
    case Some(heredocs) =>
      var found := Collect(c, DefineOffsets(c, heredocs), NOTHING);
      assert found.Some? ==> Disjoint(c, found.value.replacements)
                             && (found.value.replacements == [] <==> found.value.values == map[]) by {
        if found.Some? { CollectKeeps(c, DefineOffsets(c, heredocs), NOTHING, 0); }
      }
      found
  }

  /** The text without the adopted lines, and the values they held. */
  function Adopted(c: string): Option<(string, map<string, string>)> {
    match Adoption(c)
    case None => None
    case Some(found) => Some((Splice(c, 0, found.replacements), found.values))
  }

  /** The decision on one offset, in the order of the code's tests. */
  method Classify(content: string, offset: nat) returns (v: Verdict)
    requires offset + 6 <= |content|
    ensures v == Judge(content, offset)
  {
    hide SimpleDefine, Nearby, TrimSpace;
    var lineStart, lineEnd := LineStart(content, offset), LineEnd(content, offset);
    var prefix := content[lineStart..offset];
    var probeEnd := offset + 1024;
    if probeEnd > |content| { probeEnd := |content|; }
    if !Nearby(content[offset..probeEnd]) { return Ignore; }
    if content[offset..offset + 6] != "define" { return Refuse; }
    var candidate := TrimSpace(content[offset..lineEnd]);
    if TrimSpace(prefix) != "" { return Refuse; }
    var d := SimpleDefine(candidate);
    if d.None? { return Refuse; }
    if d.value.name != "WP_DEBUG_LOG" && d.value.value != "true" && d.value.value != "false" { return Refuse; }
    return Take(d.value);
  }

  method CollectLoop(content: string, offsets: seq<nat>) returns (r: Option<Found>)
    requires Offsets(content, offsets)
    ensures r == Collect(content, offsets, NOTHING)
  {
    hide Judge, DefineWord;
    var replacements: seq<Replacement>, seen: set<string>, values: map<string, string> := [], {}, map[];
    for i := 0 to |offsets|
      invariant seen == values.Keys
      invariant Collect(content, offsets, NOTHING) == Collect(content, offsets[i..], Found(replacements, values))
    {
      var offset := offsets[i];
      assert offsets[i..][1..] == offsets[i + 1..];
      var verdict := Classify(content, offset);
      if verdict.Ignore? { continue; }
      if verdict.Refuse? || verdict.define.name in seen { return None; }
      var d := verdict.define;
      seen := seen + {d.name};
      values := values[d.name := d.value];
      replacements := replacements + [Replacement(LineStart(content, offset), LineEnd(content, offset), d.comment)];
    }
    return Some(Found(replacements, values));
  }

  method AdoptSimpleWordPressDebugDefines(content: string) returns (r: Option<(string, map<string, string>)>)
    ensures r == Adopted(content)
  {
    hide Lex, Tokens, DefineWord, Collect, Disjoint, Splice;
    var heredocs := ScanPHPHeredocs(content);
    if heredocs.None? { return None; }
    var offsets := ScanPHPDefineTokens(content, heredocs.value);
    assert offsets == DefineOffsets(content, heredocs.value);
    var found := CollectLoop(content, offsets);
    if found.None? { return None; }
    assert found == Adoption(content);
    var cleaned := SpliceLoop(content, found.value.replacements);
    return Some((cleaned, found.value.values));
  }

  /** The pieces between the lines taken over, copied into a buffer. */
  method SpliceLoop(content: string, rs: seq<Replacement>) returns (cleaned: string)
    requires Disjoint(content, rs)
    ensures cleaned == Splice(content, 0, rs)
  {
    hide Disjoint, Splice;
    SpliceNone(content, 0);
    if |rs| == 0 { return content; }
    cleaned := "";
    var position: nat := 0;
    assert rs[0..] == rs && "" + Splice(content, 0, rs) == Splice(content, 0, rs);
    for i := 0 to |rs|
      invariant position <= |content| && Disjoint(content, rs[i..]) && (i < |rs| ==> position <= rs[i].start)
      invariant Splice(content, 0, rs) == cleaned + Splice(content, position, rs[i..])
    {
      ghost var rest := rs[i..];
      assert rest[0] == rs[i] && rest[1..] == rs[i + 1..];
      DisjointRest(content, rest);
      SpliceOne(content, position, rest);
      Associate3(cleaned, content[position..rs[i].start], CommentLine(rs[i].comment),
          Splice(content, rs[i].end, rest[1..]));
      CommentParts(cleaned + content[position..rs[i].start], rs[i].comment);
      cleaned := cleaned + content[position..rs[i].start];
      if rs[i].comment != "" { cleaned := cleaned + rs[i].comment + "\n"; }
      position := rs[i].end;
    }
    SpliceNone(content, position);
    cleaned := cleaned + content[position..];
  }

  lemma SpliceNone(c: string, position: nat)
    requires position <= |c|
    ensures Disjoint(c, []) && Splice(c, position, []) == c[position..]
    ensures c[0..] == c
  {
  }

  lemma Associate3(a: string, b: string, c: string, d: string)
    ensures a + (b + c + d) == a + b + c + d
  {
  }

  lemma CommentParts(a: string, comment: string)
    ensures a + CommentLine(comment) == if comment == "" then a else a + comment + "\n"
  {
  }

  lemma SpliceOne(c: string, position: nat, rs: seq<Replacement>)
    requires rs != [] && position <= |c| && Disjoint(c, rs) && position <= rs[0].start
    requires Disjoint(c, rs[1..]) && (|rs| > 1 ==> rs[0].end <= rs[1].start)
    ensures rs[0].start <= rs[0].end <= |c|
    ensures Splice(c, position, rs)
        == c[position..rs[0].start] + CommentLine(rs[0].comment) + Splice(c, rs[0].end, rs[1..])
  {
  }

  // ----- adoption, line by line -----

  /** The same text told by lines: a line at a replaced position leaves its comment, any other line stays. */
  function LineWise(c: string, p: nat, comments: map<nat, string>): string
    requires p <= |c|
    decreases |c| - p
  {
    if p == |c| then ""
    else
      (if p !in comments then c[p..LineEnd(c, p)] else if comments[p] == "" then "" else comments[p] + "\n")
      + LineWise(c, LineEnd(c, p), comments)
  }

  predicate Agrees(comments: map<nat, string>, p: nat, rs: seq<Replacement>) {
    (forall q <- comments.Keys :: q >= p ==> exists k :: 0 <= k < |rs| && rs[k].start == q)
    && (forall k :: 0 <= k < |rs| ==> rs[k].start in comments && comments[rs[k].start] == rs[k].comment)
  }

  /** Adoption takes out whole lines, each leaving nothing but its comment, and keeps every other line. */
  lemma {:induction false} SpliceIsLineWise(c: string, p: nat, rs: seq<Replacement>, comments: map<nat, string>)
    requires p <= |c| && LineBegin(c, p) && Disjoint(c, rs) && (rs != [] ==> p <= rs[0].start)
    requires Agrees(comments, p, rs)
    ensures Splice(c, p, rs) == LineWise(c, p, comments)
    decreases |c| - p
  {
    hide Disjoint, Agrees, LineBegin;
    if p == |c| {
      NoneBehind(c, p, rs);
    } else {
      var e := LineEnd(c, p);
      NextBegins(c, p);
      if rs != [] && rs[0].start == p {
        FirstAgrees(c, p, rs, comments);
        DisjointRest(c, rs);
        SpliceOne(c, p, rs);
        assert c[p..p] + CommentLine(rs[0].comment) == CommentLine(rs[0].comment);
        SpliceIsLineWise(c, e, rs[1..], comments);
      } else {
        LineKept(c, p, rs, comments);
        SpliceIsLineWise(c, e, rs, comments);
      }
    }
  }

  lemma NoneBehind(c: string, p: nat, rs: seq<Replacement>)
    requires p == |c| && Disjoint(c, rs) && (rs != [] ==> p <= rs[0].start)
    ensures rs == [] && Splice(c, p, rs) == ""
  {
  }

  lemma NextBegins(c: string, p: nat)
    requires p < |c|
    ensures LineBegin(c, LineEnd(c, p))
  {
  }

  lemma FirstAgrees(c: string, p: nat, rs: seq<Replacement>, comments: map<nat, string>)
    requires p < |c| && Disjoint(c, rs) && rs != [] && rs[0].start == p && Agrees(comments, p, rs)
    ensures rs[0].end == LineEnd(c, p) && p in comments && comments[p] == rs[0].comment
    ensures Agrees(comments, LineEnd(c, p), rs[1..])
  {
    var e := LineEnd(c, p);
    forall q <- comments.Keys | q >= e ensures exists k :: 0 <= k < |rs[1..]| && rs[1..][k].start == q {
      var k :| 0 <= k < |rs| && rs[k].start == q;
      assert rs[1..][k - 1] == rs[k];
    }
  }

  lemma LineKept(c: string, p: nat, rs: seq<Replacement>, comments: map<nat, string>)
    requires p < |c| && LineBegin(c, p) && Disjoint(c, rs) && (rs != [] ==> p < rs[0].start) && Agrees(comments, p, rs)
    ensures p !in comments && Agrees(comments, LineEnd(c, p), rs)
    ensures rs != [] ==> LineEnd(c, p) <= rs[0].start
    ensures Splice(c, p, rs) == c[p..LineEnd(c, p)] + Splice(c, LineEnd(c, p), rs)
  {
    hide Splice;
    var e := LineEnd(c, p);
    if rs != [] {
      assert forall k :: 0 < k < |rs| ==> rs[0].start < rs[k].start;
      assert c[rs[0].start - 1] == '\n';
    }
    SpliceSplit(c, p, e, rs);
  }

  lemma SpliceSplit(c: string, p: nat, e: nat, rs: seq<Replacement>)
    requires p <= e <= |c| && Disjoint(c, rs) && (rs != [] ==> e <= rs[0].start)
    ensures Splice(c, p, rs) == c[p..e] + Splice(c, e, rs)
  {
    hide Disjoint, Splice;
    if rs != [] {
      DisjointRest(c, rs);
      SpliceOne(c, p, rs);
      SpliceOne(c, e, rs);
      Slices(c, p, e, rs[0].start);
      Associate3(c[p..e], c[e..rs[0].start], CommentLine(rs[0].comment), Splice(c, rs[0].end, rs[1..]));
    } else {
      SpliceNone(c, p);
      SpliceNone(c, e);
      Slices(c, p, e, |c|);
    }
  }

  lemma Slices(c: string, p: nat, e: nat, q: nat)
    requires p <= e <= q <= |c|
    ensures c[p..q] == c[p..e] + c[e..q]
    ensures c[p..|c|] == c[p..] && c[e..|c|] == c[e..]
  {
  }

  function CommentsOf(rs: seq<Replacement>): map<nat, string> {
    if rs == [] then map[] else CommentsOf(rs[..|rs| - 1])[rs[|rs| - 1].start := rs[|rs| - 1].comment]
  }

  predicate Rising(rs: seq<Replacement>) {
    forall j, k :: 0 <= j < k < |rs| ==> rs[j].start < rs[k].start
  }

  lemma {:induction false} CommentsAgree(rs: seq<Replacement>)
    requires Rising(rs)
    ensures Agrees(CommentsOf(rs), 0, rs)
  {
    if rs != [] {
      CommentsAgree(rs[..|rs| - 1]);
      assert rs == rs[..|rs| - 1] + [rs[|rs| - 1]];
      AgreesMore(CommentsOf(rs[..|rs| - 1]), rs[..|rs| - 1], rs[|rs| - 1]);
    }
  }

  lemma AgreesMore(comments: map<nat, string>, rs: seq<Replacement>, r: Replacement)
    requires Agrees(comments, 0, rs) && Rising(rs + [r])
    ensures Agrees(comments[r.start := r.comment], 0, rs + [r])
  {
    var all, more := rs + [r], comments[r.start := r.comment];
    forall q <- more.Keys ensures exists k :: 0 <= k < |all| && all[k].start == q {
      if q == r.start {
        assert all[|rs|].start == q;
      } else {
        var k :| 0 <= k < |rs| && rs[k].start == q;
        assert all[k].start == q;
      }
    }
    forall k | 0 <= k < |all| ensures all[k].start in more && more[all[k].start] == all[k].comment {
      if k < |rs| { assert all[k].start < all[|rs|].start && all[k] == rs[k]; }
    }
  }

  // ----- which lines adoption takes -----

  function ReplacementAt(c: string, o: nat): Replacement
    requires o + 6 <= |c| && Judge(c, o).Take?
  {
    Replacement(LineStart(c, o), LineEnd(c, o), Judge(c, o).define.comment)
  }

  /** An offset has nothing to do with the debug settings, or its line is taken over with its value. */
  predicate Settled(c: string, o: nat, found: Found)
    requires o + 6 <= |c|
  {
    Judge(c, o).Ignore?
    || (Judge(c, o).Take? && ReplacementAt(c, o) in found.replacements
        && Judge(c, o).define.name in found.values && found.values[Judge(c, o).define.name] == Judge(c, o).define.value)
  }

  predicate Extends(found: Found, more: Found) {
    (forall r <- found.replacements :: r in more.replacements)
    && (forall n <- found.values.Keys :: n in more.values && more.values[n] == found.values[n])
  }

  ghost predicate ComesFrom(c: string, offsets: seq<nat>, r: Replacement) {
    exists o :: o in offsets && o + 6 <= |c| && Judge(c, o).Take? && r == ReplacementAt(c, o)
  }

  lemma NoteExact(c: string, o: nat, found: Found)
    requires o + 6 <= |c| && Note(c, o, found).Some?
    ensures Settled(c, o, Note(c, o, found).value) && Extends(found, Note(c, o, found).value)
    ensures forall r <- Note(c, o, found).value.replacements :: r !in found.replacements ==> ComesFrom(c, [o], r)
  {
    hide Judge;
    assert o in [o];
  }

  lemma ExtendsSettled(c: string, o: nat, found: Found, more: Found)
    requires o + 6 <= |c| && Settled(c, o, found) && Extends(found, more)
    ensures Settled(c, o, more)
  {
    hide Judge;
  }

  lemma {:induction false} CollectExact(c: string, offsets: seq<nat>, found: Found)
    requires Offsets(c, offsets) && Collect(c, offsets, found).Some?
    ensures Extends(found, Collect(c, offsets, found).value)
    ensures forall o <- offsets :: o + 6 <= |c| && Settled(c, o, Collect(c, offsets, found).value)
    ensures forall r <- Collect(c, offsets, found).value.replacements :: r !in found.replacements ==>
        ComesFrom(c, offsets, r)
    decreases |offsets|
  {
    hide Note, Judge, Settled, ComesFrom, DefineWord;
    if offsets != [] {
      var next := Note(c, offsets[0], found).value;
      var all := Collect(c, offsets, found).value;
      NoteExact(c, offsets[0], found);
      CollectExact(c, offsets[1..], next);
      ExtendsSettled(c, offsets[0], next, all);
      assert offsets == [offsets[0]] + offsets[1..];
      forall r | ComesFrom(c, [offsets[0]], r) || ComesFrom(c, offsets[1..], r) ensures ComesFrom(c, offsets, r) {
        ComesFromMore(c, [offsets[0]], offsets[1..], r);
      }
    }
  }

  lemma ComesFromMore(c: string, a: seq<nat>, b: seq<nat>, r: Replacement)
    requires ComesFrom(c, a, r) || ComesFrom(c, b, r)
    ensures ComesFrom(c, a + b, r)
  {
    hide Judge;
    if ComesFrom(c, a, r) {
      var o :| o in a && o + 6 <= |c| && Judge(c, o).Take? && r == ReplacementAt(c, o);
      assert o in a + b;
    } else {
      var o :| o in b && o + 6 <= |c| && Judge(c, o).Take? && r == ReplacementAt(c, o);
      assert o in a + b;
    }
  }

  lemma DisjointRises(c: string, rs: seq<Replacement>)
    requires Disjoint(c, rs)
    ensures Rising(rs)
  {
  }

  /** A comment starts at b and ends at e, in front of nothing but blanks up to the end of its line. */
  predicate CommentAtEnd(c: string, r: Replacement, b: nat, e: nat) {
    r.start <= b < e <= r.end <= |c| && c[b..e] == r.comment && (c[b] == '#' || At(c, "//", b))
    && forall k :: e <= k < r.end ==> Space(c[k])
  }

  /** What a line that is taken out leaves: nothing, or the comment at its end. */
  ghost predicate CommentKept(c: string, r: Replacement) {
    r.comment == "" || exists b, e :: CommentAtEnd(c, r, b, e)
  }

  lemma CommentIsTail(s: string) returns (q: nat)
    requires SimpleDefine(s).Some? && SimpleDefine(s).value.comment != ""
    ensures q < |s| && SimpleDefine(s).value.comment == s[q..] && (s[q] == '#' || At(s, "//", q))
  {
    hide At;
    q :| 0 <= q < |s| && SimpleDefine(s).value.comment == s[q..] && (s[q] == '#' || At(s, "//", q));
  }

  lemma ReplacementKeepsComment(c: string, o: nat)
    requires o + 6 <= |c| && Judge(c, o).Take?
    ensures CommentKept(c, ReplacementAt(c, o))
  {
    var r, line := ReplacementAt(c, o), c[o..LineEnd(c, o)];
    if r.comment != "" {
      var q := CommentIsTail(TrimSpace(line));
      hide SimpleDefine, Nearby, TrimSpace, TrimLeft, At, Space, CommentAtEnd;
      var i, j := TrimBounds(line);
      CommentInLine(c, r, o, i, j, q);
    }
  }

  lemma CommentInLine(c: string, r: Replacement, o: nat, i: nat, j: nat, q: nat)
    requires r.start <= o <= r.end <= |c| && i <= j <= r.end - o && i + q < j
    requires var line := c[o..r.end];
             r.comment == line[i..j][q..] && (line[i..j][q] == '#' || At(line[i..j], "//", q))
             && forall k :: j <= k < |line| ==> Space(line[k])
    ensures CommentAtEnd(c, r, o + i + q, o + j)
  {
    var line := c[o..r.end];
    assert c[o + i + q..o + j] == line[i..j][q..];
    assert c[o + i + q] == line[i..j][q];
    assert forall k :: 0 <= k < j - i ==> line[i..j][k] == c[o + i + k];
    TwoAt(line[i..j], '/', '/', q);
    TwoAt(c, '/', '/', o + i + q);
    forall k | o + j <= k < r.end ensures Space(c[k]) { assert c[k] == line[k - o]; }
  }

  lemma CommentsKept(c: string, offsets: seq<nat>, r: Replacement)
    requires ComesFrom(c, offsets, r)
    ensures CommentKept(c, r)
  {
    hide Judge, CommentKept;
    var o :| o in offsets && o + 6 <= |c| && Judge(c, o).Take? && r == ReplacementAt(c, o);
    ReplacementKeepsComment(c, o);
  }

  /** Successful adoption: exactly the lines of the debug defines among the lexer's tokens are taken out, one
      for each value reported; they are whole lines apart from each other; each leaves the comment at its end
      and every other line stays. */
  lemma AdoptionExact(c: string)
    requires Adoption(c).Some?
    ensures var found, offsets := Adoption(c).value, DefineOffsets(c, Heredocs(c, 0).value);
            Disjoint(c, found.replacements)
            && (forall o <- offsets :: Settled(c, o, found))
            && (forall r <- found.replacements :: ComesFrom(c, offsets, r) && CommentKept(c, r))
            && Adopted(c).value.0 == LineWise(c, 0, CommentsOf(found.replacements))
            && (forall r <- found.replacements :: r.start in CommentsOf(found.replacements))
  {
    hide Lex, Tokens, Judge, Settled, ComesFrom, CommentKept, Collect, DefineWord;
    var found, offsets := Adoption(c).value, DefineOffsets(c, Heredocs(c, 0).value);
    CollectExact(c, offsets, NOTHING);
    DisjointRises(c, found.replacements);
    CommentsAgree(found.replacements);
    SpliceIsLineWise(c, 0, found.replacements, CommentsOf(found.replacements));
    forall r <- found.replacements ensures CommentKept(c, r) { CommentsKept(c, offsets, r); }
  }

  lemma NothingAdopted(c: string)
    requires Adoption(c).Some? && Adoption(c).value.values == map[]
    ensures Adopted(c) == Some((c, map[]))
  {
    hide Adoption;
    SpliceNone(c, 0);
  }
}
