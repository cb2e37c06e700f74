/** When adoption succeeds, and which lines it takes, told by the text alone. */
module DebugAdoption {
  import opened Faults
  import opened Text
  import opened PhpScan
  import opened WordPressDebug
  import opened DefineGrammar

  // ----- one offset -----

  /** A debug constant between quotes of either kind. */
  predicate NamedAt(c: string, j: nat) {
    j < |c| && c[j] in "'\"" && (EndsQuoted(c, j + 1, "WP_DEBUG") || EndsQuoted(c, j + 1, "WP_DEBUG_LOG")
                                 || EndsQuoted(c, j + 1, "WP_DEBUG_DISPLAY"))
  }

  predicate EndsQuoted(c: string, i: nat, name: string) {
    At(c, name, i) && i + |name| < |c| && c[i + |name|] in "'\""
  }

  /** No more than 256 characters stand between the define and the name of a debug constant. */
  predicate Near(c: string, o: nat) {
    exists j :: o + 6 <= j <= o + 262 && NamedAt(c, j)
  }

  predicate Blanks(c: string, i: nat, j: nat)
    requires j <= |c|
  {
    forall k :: i <= k < j ==> Space(c[k])
  }

  /** The line of this offset holds the call and nothing else. */
  predicate StandsAlone(c: string, o: nat, k: Call) {
    && At(c, Written(k), o) && k.word == "define" && Proper(k)
    && var e := o + |Written(k)|;
    && o < e <= LineEnd(c, o) && !Space(c[e - 1])
    && Blanks(c, LineStart(c, o), o) && Blanks(c, e, LineEnd(c, o))
  }

  /** Only the log may be something else than true or false. */
  predicate Adoptable(c: string, o: nat, k: Call) {
    StandsAlone(c, o, k) && (k.name == "WP_DEBUG_LOG" || k.value == "true" || k.value == "false")
  }

  lemma NameIn(p: string, c: string, o: nat, j: nat)
    requires o <= |c| && p <= c[o..] && (|p| < |c| - o ==> j + 18 <= |p|)
    ensures QuotedName(p, j) <==> NamedAt(c, o + j)
  {
    assert forall k :: 0 <= k < |p| ==> p[k] == c[o..][k] == c[o + k];
    assert NAMES[0] == "WP_DEBUG" && NAMES[1] == "WP_DEBUG_LOG" && NAMES[2] == "WP_DEBUG_DISPLAY";
    forall n | 0 <= n < 3
      ensures (j < |p| && At(p, NAMES[n], j + 1) && j + 1 + |NAMES[n]| < |p| && p[j + 1 + |NAMES[n]|] in "'\"")
              <==> (j < |p| && EndsQuoted(c, o + j + 1, NAMES[n]))
    {
      SameAt(p, c, o, NAMES[n], j + 1);
    }
  }

  lemma SameAt(p: string, c: string, o: nat, name: string, j: nat)
    requires o <= |c| && p <= c[o..] && (j + |name| <= |p| || |p| == |c| - o)
    ensures At(p, name, j) <==> At(c, name, o + j)
  {
    if j + |name| <= |p| {
      assert p[j..j + |name|] == c[o + j..o + j + |name|];
    }
  }

  lemma NearbyIsNear(c: string, o: nat)
    requires DefineWord(c, o)
    ensures Nearby(c[o..if o + 1024 < |c| then o + 1024 else |c|]) <==> Near(c, o)
  {
    hide QuotedName, NamedAt;
    var p := c[o..if o + 1024 < |c| then o + 1024 else |c|];
    assert p[..6] == c[o..o + 6];
    assert p == c[o..][..|p|];
    forall j | 6 <= j <= 262 ensures QuotedName(p, j) <==> NamedAt(c, o + j) { NameIn(p, c, o, j); }
    if Near(c, o) {
      var j :| o + 6 <= j <= o + 262 && NamedAt(c, j);
      assert QuotedName(p, j - o);
    }
  }

  /** A text that begins in no blank, trimmed. */
  lemma TrimTail(s: string, e: nat)
    requires 0 < e <= |s| && !Space(s[0]) && !Space(s[e - 1]) && Blanks(s, e, |s|)
    ensures TrimSpace(s) == s[..e]
  {
    hide TrimSpace, TrimLeft, Space;
    var i, j := TrimBounds(s);
    assert i == 0;
    assert j == e;
  }

  lemma TrimTailMeans(s: string) returns (e: nat)
    requires s != "" && !Space(s[0])
    ensures 0 < e <= |s| && !Space(s[e - 1]) && Blanks(s, e, |s|) && TrimSpace(s) == s[..e]
  {
    hide TrimSpace, TrimLeft, Space;
    var i, j := TrimBounds(s);
    assert i == 0;
    e := j;
  }

  lemma BlankTrims(s: string)
    ensures TrimSpace(s) == "" <==> Blanks(s, 0, |s|)
  {
    hide TrimSpace, TrimLeft, Space;
    var i, j := TrimBounds(s);
    if TrimSpace(s) == "" { BlankText(s); }
  }

  /** In front of the offset stand only blanks of its line. */
  lemma FrontIsBlank(c: string, o: nat)
    requires o <= |c|
    ensures TrimSpace(c[LineStart(c, o)..o]) == "" <==> Blanks(c, LineStart(c, o), o)
  {
    hide TrimSpace, Space;
    var b := LineStart(c, o);
    BlankTrims(c[b..o]);
    assert forall k :: 0 <= k < o - b ==> c[b..o][k] == c[b + k];
    assert forall k :: b <= k < o ==> c[k] == c[b..o][k - b];
  }

  predicate Boolean(d: Define) {
    d.name == "WP_DEBUG_LOG" || d.value == "true" || d.value == "false"
  }

  lemma WrittenWord(k: Call)
    requires Proper(k)
    ensures |Written(k)| > 6 && Written(k)[..6] == k.word
  {
    hide Spaces, Literal;
    WordLength(k);
  }

  /** A near define is taken with what its line says, if the line stands alone. */
  lemma AdoptableIsTaken(c: string, o: nat, k: Call)
    requires DefineWord(c, o) && Near(c, o) && Adoptable(c, o, k)
    ensures Judge(c, o) == Take(Define(k.name, k.value, k.comment))
  {
    hide SimpleDefine, Nearby, Near, TrimSpace, Written, Proper, Space, DefineWord;
    WordFits(c, o);
    var line, e := c[o..LineEnd(c, o)], |Written(k)|;
    NearbyIsNear(c, o);
    FrontIsBlank(c, o);
    WrittenWord(k);
    assert c[o..o + e] == Written(k);
    assert c[o..o + 6] == Written(k)[..6];
    FirstIsLetter(c, o);
    assert line[..e] == Written(k);
    assert forall i :: e <= i < |line| ==> line[i] == c[o + i];
    TrimTail(line, e);
    GrammarIsRead(k);
  }

  lemma FirstIsLetter(c: string, o: nat)
    requires o + 6 <= |c| && c[o..o + 6] == "define"
    ensures !Space(c[o])
  {
    assert c[o] == c[o..o + 6][0];
  }

  lemma TakeFacts(c: string, o: nat)
    requires o + 6 <= |c| && Judge(c, o).Take?
    ensures Nearby(c[o..if o + 1024 < |c| then o + 1024 else |c|]) && c[o..o + 6] == "define"
    ensures TrimSpace(c[LineStart(c, o)..o]) == ""
    ensures SimpleDefine(TrimSpace(c[o..LineEnd(c, o)])) == Some(Judge(c, o).define) && Boolean(Judge(c, o).define)
  {
    hide SimpleDefine, Nearby, TrimSpace;
  }

  /** And only then. */
  lemma TakenIsAdoptable(c: string, o: nat) returns (k: Call)
    requires DefineWord(c, o) && Judge(c, o).Take?
    ensures Near(c, o) && Adoptable(c, o, k) && Judge(c, o).define == Define(k.name, k.value, k.comment)
  {
    hide SimpleDefine, Nearby, Near, TrimSpace, Written, Proper, Space, DefineWord, Judge, Blanks;
    WordFits(c, o);
    TakeFacts(c, o);
    NearbyIsNear(c, o);
    FrontIsBlank(c, o);
    FirstIsLetter(c, o);
    var line := c[o..LineEnd(c, o)];
    var e := TrimTailMeans(line);
    k := ReadIsGrammar(TrimSpace(line));
    WrittenWord(k);
    InLine(c, o, LineEnd(c, o), e, Written(k));
    BlanksInLine(c, o, LineEnd(c, o), e);
  }

  lemma InLine(c: string, o: nat, end: nat, e: nat, text: string)
    requires o <= end <= |c| && e <= end - o && c[o..end][..e] == text && |text| > 6
    ensures At(c, text, o) && text[..6] == c[o..o + 6] && c[o + e - 1] == c[o..end][e - 1] && |text| == e
  {
    assert c[o..o + e] == text;
    assert c[o..o + e][..6] == c[o..o + 6];
  }

  lemma BlanksInLine(c: string, o: nat, end: nat, e: nat)
    requires o <= end <= |c| && e <= end - o && Blanks(c[o..end], e, end - o)
    ensures Blanks(c, o + e, end)
  {
    hide Space;
    assert forall i :: o + e <= i < end ==> c[i] == c[o..end][i - o];
  }

  lemma IgnoredIsFar(c: string, o: nat)
    requires DefineWord(c, o)
    ensures o + 6 <= |c| && (Judge(c, o).Ignore? <==> !Near(c, o))
  {
    hide SimpleDefine, Nearby, Near, TrimSpace, DefineWord;
    WordFits(c, o);
    NearbyIsNear(c, o);
  }

  // ----- all offsets -----

  /** What adoption does with the offset of a define word: it does not concern it, or its line is taken. */
  ghost predicate Clear(c: string, o: nat) {
    Near(c, o) ==> exists k :: Adoptable(c, o, k)
  }

  ghost predicate SameName(c: string, o: nat, o': nat) {
    exists k, k' :: Near(c, o) && Near(c, o') && Adoptable(c, o, k) && Adoptable(c, o', k') && k.name == k'.name
  }

  lemma ClearIsNotRefused(c: string, o: nat)
    requires DefineWord(c, o)
    ensures o + 6 <= |c| && (Clear(c, o) <==> !Judge(c, o).Refuse?)
  {
    hide Judge, Near, Adoptable, DefineWord;
    IgnoredIsFar(c, o);
    if Judge(c, o).Take? { var k := TakenIsAdoptable(c, o); }
    if Near(c, o) && Clear(c, o) {
      var k :| Adoptable(c, o, k);
      AdoptableIsTaken(c, o, k);
    }
  }

  predicate JudgedAlike(c: string, o: nat, o': nat) {
    o + 6 <= |c| && o' + 6 <= |c| && Judge(c, o).Take? && Judge(c, o').Take?
    && Judge(c, o).define.name == Judge(c, o').define.name
  }

  lemma SameNameIsJudgedAlike(c: string, o: nat, o': nat)
    requires DefineWord(c, o) && DefineWord(c, o')
    ensures SameName(c, o, o') <==> JudgedAlike(c, o, o')
  {
    hide Judge, Near, Adoptable, DefineWord;
    if JudgedAlike(c, o, o') {
      var k := TakenIsAdoptable(c, o);
      var k' := TakenIsAdoptable(c, o');
    }
    if SameName(c, o, o') {
      var k, k' :| Near(c, o) && Near(c, o') && Adoptable(c, o, k) && Adoptable(c, o', k') && k.name == k'.name;
      AdoptableIsTaken(c, o, k);
      AdoptableIsTaken(c, o', k');
      WordFits(c, o);
      WordFits(c, o');
    }
  }

  ghost predicate AllNew(c: string, offsets: seq<nat>, names: set<string>)
    requires Offsets(c, offsets)
  {
    && (forall i :: 0 <= i < |offsets| ==> Unseen(c, offsets[i], names))
    && (forall i, j :: 0 <= i < j < |offsets| ==> !JudgedAlike(c, offsets[i], offsets[j]))
  }

  predicate Unseen(c: string, o: nat, names: set<string>) {
    o + 6 <= |c| && !Judge(c, o).Refuse? && (Judge(c, o).Take? ==> Judge(c, o).define.name !in names)
  }

  lemma {:induction false} CollectDecides(c: string, offsets: seq<nat>, found: Found)
    requires Offsets(c, offsets)
    ensures Collect(c, offsets, found).Some? <==> AllNew(c, offsets, found.values.Keys)
    ensures Collect(c, offsets, found).Some? ==>
        forall n <- Collect(c, offsets, found).value.values.Keys :: n in found.values || NamedBy(c, offsets, n)
    decreases |offsets|
  {
    hide Judge, DefineWord, NamedBy;
    if offsets != [] {
      var o, rest := offsets[0], offsets[1..];
      assert offsets == [o] + rest;
      AllNewSplit(c, o, rest, found.values.Keys);
      var next := Note(c, o, found);
      if next.Some? {
        CollectDecides(c, rest, next.value);
        forall n | NamedBy(c, rest, n) ensures NamedBy(c, offsets, n) { NamedByMore(c, o, rest, n); }
        if Judge(c, o).Take? { NamedByFirst(c, o, rest); }
      }
    }
  }

  ghost predicate NamedBy(c: string, offsets: seq<nat>, n: string) {
    exists o :: o in offsets && o + 6 <= |c| && Judge(c, o).Take? && Judge(c, o).define.name == n
  }

  lemma NamedByMore(c: string, o: nat, rest: seq<nat>, n: string)
    requires NamedBy(c, rest, n)
    ensures NamedBy(c, [o] + rest, n)
  {
    hide Judge;
    var o' :| o' in rest && o' + 6 <= |c| && Judge(c, o').Take? && Judge(c, o').define.name == n;
    assert o' in [o] + rest;
  }

  lemma NamedByFirst(c: string, o: nat, rest: seq<nat>)
    requires o + 6 <= |c| && Judge(c, o).Take?
    ensures NamedBy(c, [o] + rest, Judge(c, o).define.name)
  {
    hide Judge;
    assert o in [o] + rest;
  }

  lemma AllNewSplit(c: string, o: nat, rest: seq<nat>, names: set<string>)
    requires Offsets(c, [o] + rest) && Offsets(c, rest)
    ensures AllNew(c, [o] + rest, names) <==>
              Unseen(c, o, names)
              && AllNew(c, rest, if Judge(c, o).Take? then names + {Judge(c, o).define.name} else names)
  {
    hide Judge, DefineWord;
    var all := [o] + rest;
    var more := if Judge(c, o).Take? then names + {Judge(c, o).define.name} else names;
    assert forall i :: 0 < i < |all| ==> all[i] == rest[i - 1];
    assert forall i :: 0 <= i < |rest| ==> rest[i] == all[i + 1];
    if AllNew(c, all, names) {
      assert all[0] == o;
      forall i | 0 <= i < |rest| ensures Unseen(c, rest[i], more) {
        assert Unseen(c, all[i + 1], names) && !JudgedAlike(c, all[0], all[i + 1]);
      }
      forall i, j | 0 <= i < j < |rest| ensures !JudgedAlike(c, rest[i], rest[j]) {
        assert !JudgedAlike(c, all[i + 1], all[j + 1]);
      }
    }
    if Unseen(c, o, names) && AllNew(c, rest, more) {
      forall i | 0 <= i < |all| ensures Unseen(c, all[i], names) {
        if i > 0 { assert Unseen(c, rest[i - 1], more); }
      }
      forall i, j | 0 <= i < j < |all| ensures !JudgedAlike(c, all[i], all[j]) {
        assert Unseen(c, rest[j - 1], more);
        if i > 0 { assert !JudgedAlike(c, rest[i - 1], rest[j - 1]); }
      }
    }
  }

  /** Adoption succeeds exactly if every define near a debug constant stands alone on its line as a plain call,
      and no constant is defined twice. */
  lemma AdoptionDecides(c: string)
    requires Heredocs(c, 0).Some?
    ensures var offsets := DefineOffsets(c, Heredocs(c, 0).value);
            Adoption(c).Some? <==>
              (forall o <- offsets :: Clear(c, o))
              && (forall i, j :: 0 <= i < j < |offsets| ==> !SameName(c, offsets[i], offsets[j]))
  {
    hide Judge, DefineWord, Clear, SameName, JudgedAlike, Collect;
    var offsets := DefineOffsets(c, Heredocs(c, 0).value);
    CollectDecides(c, offsets, NOTHING);
    forall i | 0 <= i < |offsets| ensures Clear(c, offsets[i]) <==> Unseen(c, offsets[i], NOTHING.values.Keys) {
      ClearIsNotRefused(c, offsets[i]);
    }
    forall i, j | 0 <= i < j < |offsets|
      ensures SameName(c, offsets[i], offsets[j]) <==> JudgedAlike(c, offsets[i], offsets[j])
    {
      SameNameIsJudgedAlike(c, offsets[i], offsets[j]);
    }
    if forall o <- offsets :: Clear(c, o) {
      forall i | 0 <= i < |offsets| ensures Unseen(c, offsets[i], NOTHING.values.Keys) {
        assert offsets[i] in offsets && Clear(c, offsets[i]);
      }
    }
  }

  /** The line at an offset is taken: it leaves its comment, and its value is reported under its name. */
  ghost predicate TakenAs(c: string, o: nat, k: Call, found: Found)
    requires o <= |c|
  {
    Replacement(LineStart(c, o), LineEnd(c, o), k.comment) in found.replacements
    && k.name in found.values && found.values[k.name] == k.value
  }

  /** Successful adoption takes the line of every define near a debug constant. */
  lemma AdoptionTakes(c: string, o: nat, k: Call)
    requires Adoption(c).Some? && o in DefineOffsets(c, Heredocs(c, 0).value) && Near(c, o) && Adoptable(c, o, k)
    ensures o <= |c| && TakenAs(c, o, k, Adoption(c).value)
  {
    hide Judge, DefineWord, Near, Adoptable;
    var offsets := DefineOffsets(c, Heredocs(c, 0).value);
    AdoptionExact(c);
    var i :| 0 <= i < |offsets| && offsets[i] == o;
    assert DefineWord(c, offsets[i]);
    WordFits(c, o);
    AdoptableIsTaken(c, o, k);
    assert Settled(c, o, Adoption(c).value);
  }

  ghost predicate Reported(c: string, offsets: seq<nat>, found: Found, n: string) {
    exists o, k :: o in offsets && o <= |c| && Near(c, o) && Adoptable(c, o, k)
                   && k.name == n && TakenAs(c, o, k, found)
  }

  ghost predicate Originates(c: string, offsets: seq<nat>, r: Replacement) {
    exists o, k :: o in offsets && o <= |c| && Near(c, o) && Adoptable(c, o, k)
                   && r == Replacement(LineStart(c, o), LineEnd(c, o), k.comment)
  }

  lemma JudgedOriginates(c: string, offsets: seq<nat>, r: Replacement)
    requires Offsets(c, offsets) && ComesFrom(c, offsets, r)
    ensures Originates(c, offsets, r)
  {
    hide Judge, DefineWord, Near, Adoptable;
    var o :| o in offsets && o + 6 <= |c| && Judge(c, o).Take? && r == ReplacementAt(c, o);
    var i :| 0 <= i < |offsets| && offsets[i] == o;
    assert DefineWord(c, offsets[i]);
    var k := TakenIsAdoptable(c, o);
  }

  lemma JudgedReported(c: string, offsets: seq<nat>, found: Found, n: string)
    requires Offsets(c, offsets) && NamedBy(c, offsets, n)
    requires forall o <- offsets :: Settled(c, o, found)
    ensures Reported(c, offsets, found, n)
  {
    hide Judge, DefineWord, Near, Adoptable;
    var o :| o in offsets && o + 6 <= |c| && Judge(c, o).Take? && Judge(c, o).define.name == n;
    var i :| 0 <= i < |offsets| && offsets[i] == o;
    assert DefineWord(c, offsets[i]);
    var k := TakenIsAdoptable(c, o);
    assert Settled(c, o, found);
    assert TakenAs(c, o, k, found);
  }

  /** And nothing else: every line taken and every value reported comes from such a define. */
  lemma AdoptionTakesNoMore(c: string)
    requires Adoption(c).Some?
    ensures var found, offsets := Adoption(c).value, DefineOffsets(c, Heredocs(c, 0).value);
            (forall r <- found.replacements :: Originates(c, offsets, r))
            && (forall n <- found.values.Keys :: Reported(c, offsets, found, n))
  {
    hide Judge, DefineWord, Near, Adoptable, ComesFrom, Originates, Reported, NamedBy, Settled, Collect;
    var found, offsets := Adoption(c).value, DefineOffsets(c, Heredocs(c, 0).value);
    AdoptionExact(c);
    CollectDecides(c, offsets, NOTHING);
    forall r <- found.replacements ensures Originates(c, offsets, r) { JudgedOriginates(c, offsets, r); }
    forall n <- found.values.Keys ensures Reported(c, offsets, found, n) { JudgedReported(c, offsets, found, n); }
  }
}
