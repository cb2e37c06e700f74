/** The managed debug block of wp-config.php: writing it, finding it again, and reading the setting back. */
module DebugBlock {
  import opened Faults
  import opened Text
  import opened WordPressDebug

  const START := "/* WPX WORDPRESS DEBUG START */"
  const END := "/* WPX WORDPRESS DEBUG END */"
  const ANCHOR := "/* That's all, stop editing!"

  // ----- finding blocks -----

  /** The length of a line break at a position, or 0. */
  function NewlineAt(s: string, i: nat): (n: nat)
    ensures n <= 2 && (n > 0 ==> i + n <= |s| && s[i + n - 1] == '\n')
  {
    if i < |s| && s[i] == '\n' then 1
    else if i + 1 < |s| && s[i] == '\r' && s[i + 1] == '\n' then 2
    else 0
  }

  /** The end marker on a line of its own. */
  predicate EndMarkAt(s: string, e: nat) {
    0 < e && At(s, END, e) && s[e - 1] == '\n' && NewlineAt(s, e + |END|) > 0
  }

  function EndMark(s: string, from: nat): (r: Option<nat>)
    ensures r.Some? ==> from <= r.value && EndMarkAt(s, r.value) && forall e :: from <= e < r.value ==> !EndMarkAt(s, e)
    ensures r.None? ==> forall e :: from <= e ==> !EndMarkAt(s, e)
    decreases |s| - from
  {
    if from + |END| > |s| then None else if EndMarkAt(s, from) then Some(from) else EndMark(s, from + 1)
  }

  /** Where a block that begins at i ends, with one empty line behind it. */
  function BlockEnd(s: string, i: nat): (r: Option<nat>)
    ensures r.Some? ==> i + |START| < r.value <= |s|
  {
    if !At(s, START, i) || NewlineAt(s, i + |START|) == 0 then None
    else
      match EndMark(s, i + |START| + NewlineAt(s, i + |START|) + 1)
      case None => None
      case Some(e) =>
        var behind := e + |END| + NewlineAt(s, e + |END|);
        Some(behind + NewlineAt(s, behind))
  }

  datatype Block = Block(start: nat, end: nat)

  /** The first block at or behind a position. */
  function FindBlock(s: string, from: nat): (r: Option<Block>)
    ensures r.Some? ==> from <= r.value.start < r.value.end <= |s| && BlockEnd(s, r.value.start) == Some(r.value.end)
    ensures r.Some? ==> forall i :: from <= i < r.value.start ==> BlockEnd(s, i).None?
    ensures r.None? ==> forall i :: from <= i ==> BlockEnd(s, i).None?
    decreases |s| - from
  {
    hide At, EndMark, NewlineAt;
    if from >= |s| then None
    else match BlockEnd(s, from)
      case Some(e) => Some(Block(from, e))
      case None => FindBlock(s, from + 1)
  }

  function RemoveBlocks(s: string, from: nat): string
    requires from <= |s|
    decreases |s| - from
  {
    match FindBlock(s, from)
    case None => s[from..]
    case Some(b) => s[from..b.start] + RemoveBlocks(s, b.end)
  }

  // ----- the block -----

  const FIRST := "define('WP_DEBUG', "

  function MiddleRest(log: string): string {
    ");\n" + "define('WP_DEBUG_LOG', " + log + ");\n" + "define('WP_DEBUG_DISPLAY', false);"
  }

  function Middle(debug: string, log: string): string {
    FIRST + (debug + MiddleRest(log))
  }

  function WordpressDebugBlock(logPath: string, enabled: bool): string {
    START + "\n"
    + (if enabled then Middle("true", "'" + ReplaceAll(logPath, '\'', "\\'") + "'") else Middle("false", "false"))
    + "\n"
    + END + "\n"
  }

  predicate SameText(owned: string, block: string) {
    TrimSpace(owned) == TrimSpace(block)
  }

  /** Replaces the setting; None when the file is not understood. The flag tells whether the text changed. */
  function UpdateWordPressDebug(content: string, enabled: bool, logPath: string): Option<(string, bool)> {
    var startCount, endCount, owned := CountFrom(content, START, 0), CountFrom(content, END, 0), FindBlock(content, 0);
    if startCount != endCount || startCount > 1 || (startCount == 1 && owned.None?) then None
    else
      var withoutOwned := RemoveBlocks(content, 0);
      if owned.Some?
         && !SameText(content[owned.value.start..owned.value.end], WordpressDebugBlock(logPath, true))
         && !SameText(content[owned.value.start..owned.value.end], WordpressDebugBlock(logPath, false)) then None
      else
        var adopted := Adopted(withoutOwned);
        if adopted.None? then None
        else if owned.Some? && adopted.value.1 != map[] then None
        else
          var cleaned := adopted.value.0;
          match IndexFrom(cleaned, ANCHOR, 0)
          case None => None
          case Some(index) =>
            var updated := cleaned[..index] + WordpressDebugBlock(logPath, enabled) + "\n" + cleaned[index..];
            Some((updated, updated != content))
  }

  datatype Status = Status(enabled: bool, known: bool, managed: bool)

  const UNKNOWN := Status(false, false, false)

  function InspectWordPressDebug(content: string, logPath: string): Status {
    var startCount, endCount, owned := CountFrom(content, START, 0), CountFrom(content, END, 0), FindBlock(content, 0);
    if startCount != endCount || startCount > 1 || (startCount == 1 && owned.None?) then UNKNOWN
    else
      var withoutOwned := RemoveBlocks(content, 0);
      var adopted := Adopted(withoutOwned);
      if adopted.None? then UNKNOWN
      else if owned.Some? && adopted.value.1 != map[] then UNKNOWN
      else if owned.None? then
        Status("WP_DEBUG" in adopted.value.1 && adopted.value.1["WP_DEBUG"] == "true", true, false)
      else if SameText(content[owned.value.start..owned.value.end], WordpressDebugBlock(logPath, true)) then
        Status(true, true, true)
      else if SameText(content[owned.value.start..owned.value.end], WordpressDebugBlock(logPath, false)) then
        Status(false, true, true)
      else UNKNOWN
  }

  /** The text that both functions look at, without managed blocks and adopted lines. */
  function Cleaned(content: string): Option<string> {
    match Adopted(RemoveBlocks(content, 0))
    case None => None
    case Some(adopted) => Some(adopted.0)
  }

  /** Updating works exactly on what inspecting understands and what still holds the boundary. */
  lemma UpdateAgreesWithInspect(content: string, enabled: bool, logPath: string)
    ensures UpdateWordPressDebug(content, enabled, logPath).Some? <==>
              InspectWordPressDebug(content, logPath).known
              && Cleaned(content).Some? && IndexFrom(Cleaned(content).value, ANCHOR, 0).Some?
  {
    hide Adopted, CountFrom, FindBlock, RemoveBlocks, SameText, WordpressDebugBlock, IndexFrom;
  }

  // ----- a fresh block is found again -----

  function Framed(middle: string): string {
    START + "\n" + middle + "\n" + END + "\n"
  }

  function Fresh(before: string, middle: string, after: string): string {
    before + Framed(middle) + "\n" + after
  }

  /** Two places of a text that is counted once overlap. */
  lemma OnceOverlaps(s: string, p: string, x: nat, y: nat)
    requires p != "" && CountFrom(s, p, 0) <= 1 && At(s, p, x) && At(s, p, y) && x < y
    ensures y < x + |p|
  {
    if x + |p| <= y { CountTwo(s, p, x, y); }
  }

  lemma MarksAreLines()
    ensures forall i :: 0 <= i < |START| ==> START[i] != '\n' && START[i] != '\r'
    ensures forall i :: 0 <= i < |END| ==> END[i] != '\n' && END[i] != '\r'
    ensures forall i :: 0 < i < |START| - 1 ==> START[i] != '/'
    ensures START[1] == '*' && |START| == 31 && |END| == 29
  {
  }

  lemma FreshParts(before: string, middle: string, after: string)
    ensures var s, i, e := Fresh(before, middle, after), |before|, |before| + 31 + 1 + |middle| + 1;
            At(s, START, i) && s[i + 31] == '\n'
            && At(s, END, e) && s[e - 1] == '\n' && s[e + 29] == '\n' && s[e + 30] == '\n' && e + 31 <= |s|
            && |Framed(middle)| == 31 + 1 + |middle| + 1 + 29 + 1
            && s[..i] == before && s[e + 31..] == after
            && s[i..e + 31] == Framed(middle) + "\n"
  {
    var s, i, e := Fresh(before, middle, after), |before|, |before| + 31 + 1 + |middle| + 1;
    assert s[i..i + 31] == START;
    assert s[e..e + 29] == END;
  }

  lemma StartNotBefore(s: string, p: nat, i: nat)
    requires At(s, START, p) && At(s, START, i) && p < i < p + 31
    ensures NewlineAt(s, p + 31) == 0
  {
    MarksAreLines();
    assert s[p + 31] == s[i..i + 31][p + 31 - i];
  }

  lemma StartNotWithin(s: string, i: nat, p: nat)
    requires At(s, START, i) && i + 32 <= |s| && s[i + 31] == '\n' && i < p < i + 31
    ensures !At(s, START, p)
  {
    MarksAreLines();
    assert s[p] == s[i..i + 31][p - i];
    if p + 31 <= |s| {
      assert s[p..p + 31][0] == s[p] && s[p..p + 31][1] == s[p + 1];
      assert p == i + 30 ==> s[p + 1] == '\n';
    }
  }

  lemma OnlyBlock(s: string, i: nat)
    requires i + 32 <= |s| && At(s, START, i) && s[i + 31] == '\n' && CountFrom(s, START, 0) <= 1
    ensures forall p: nat :: p != i ==> BlockEnd(s, p).None?
  {
    hide At;
    forall p: nat | p != i ensures BlockEnd(s, p).None? {
      if At(s, START, p) {
        if p < i {
          OnceOverlaps(s, START, p, i);
          StartNotBefore(s, p, i);
        } else {
          OnceOverlaps(s, START, i, p);
          StartNotWithin(s, i, p);
        }
      }
    }
  }

  lemma EndNotAcross(s: string, e: nat, q: nat)
    requires 0 < e && e + 30 <= |s| && s[e - 1] == '\n' && s[e + 29] == '\n' && e - 29 < q < e + 29 && q != e
    ensures !At(s, END, q)
  {
    MarksAreLines();
    if q + 29 <= |s| {
      var k := if q < e then e - 1 else e + 29;
      assert s[q..q + 29][k - q] == s[k];
    }
  }

  lemma OnlyEnd(s: string, e: nat)
    requires 0 < e && e + 30 <= |s| && At(s, END, e) && s[e - 1] == '\n' && s[e + 29] == '\n'
        && CountFrom(s, END, 0) <= 1
    ensures forall q: nat :: q != e ==> !EndMarkAt(s, q)
  {
    hide At;
    forall q: nat | q != e ensures !EndMarkAt(s, q) {
      if At(s, END, q) {
        if q < e { OnceOverlaps(s, END, q, e); } else { OnceOverlaps(s, END, e, q); }
        EndNotAcross(s, e, q);
      }
    }
  }

  lemma BlockEndAt(s: string, i: nat, e: nat)
    requires At(s, START, i) && i + 33 <= e && e + 31 <= |s| && s[i + 31] == '\n'
    requires At(s, END, e) && s[e - 1] == '\n' && s[e + 29] == '\n' && s[e + 30] == '\n'
    requires forall q: nat :: q != e ==> !EndMarkAt(s, q)
    ensures BlockEnd(s, i) == Some(e + 31)
  {
    hide At;
    assert EndMarkAt(s, e);
    assert EndMark(s, i + 33) == Some(e);
  }

  /** A block just written is found again, whole and with its empty line, and taking it out leaves the text
      around it: provided that neither marker occurs a second time. */
  lemma FreshFound(before: string, middle: string, after: string)
    requires CountFrom(Fresh(before, middle, after), START, 0) <= 1
        && CountFrom(Fresh(before, middle, after), END, 0) <= 1
    ensures var s := Fresh(before, middle, after);
            FindBlock(s, 0).Some?
            && s[FindBlock(s, 0).value.start..FindBlock(s, 0).value.end] == Framed(middle) + "\n"
            && RemoveBlocks(s, 0) == before + after
  {
    hide Fresh, Framed, At, CountFrom, BlockEnd, EndMarkAt;
    var s, i, e := Fresh(before, middle, after), |before|, |before| + 31 + 1 + |middle| + 1;
    FreshParts(before, middle, after);
    OnlyBlock(s, i);
    OnlyEnd(s, e);
    BlockEndAt(s, i, e);
    assert FindBlock(s, 0) == Some(Block(i, e + 31));
    assert FindBlock(s, e + 31) == None;
    assert s[0..i] == before;
  }

  // ----- writing twice, reading back -----

  function MiddleOf(logPath: string, enabled: bool): string {
    if enabled then Middle("true", "'" + ReplaceAll(logPath, '\'', "\\'") + "'") else Middle("false", "false")
  }

  lemma BlockIsFramed(logPath: string, enabled: bool)
    ensures WordpressDebugBlock(logPath, enabled) == Framed(MiddleOf(logPath, enabled))
  {
  }

  function Trimmed(middle: string): string {
    (START + "\n") + (middle + ("\n" + END))
  }

  lemma TrimFramed(middle: string)
    ensures TrimSpace(Framed(middle)) == Trimmed(middle)
    ensures TrimSpace(Framed(middle) + "\n") == Trimmed(middle)
  {
    var text := Trimmed(middle);
    assert text[0] == '/' && text[|text| - 1] == '/';
    var one, two := Framed(middle), Framed(middle) + "\n";
    assert one == text + "\n" && one[..|one| - 1] == text;
    assert two[..|two| - 1] == one;
    assert TrimRight(text) == text;
    assert TrimRight(one) == text;
  }

  lemma CharBehind(a: string, p: string, d: string, rest: string, more: string)
    requires d != ""
    ensures var s := a + ((p + (d + rest)) + more); |s| > |a| + |p| && s[|a| + |p|] == d[0]
  {
  }

  /** The two settings cannot be mistaken for each other. */
  lemma SettingsDiffer(logPath: string)
    ensures TrimSpace(WordpressDebugBlock(logPath, true)) != TrimSpace(WordpressDebugBlock(logPath, false))
  {
    hide TrimSpace, Framed, MiddleRest, WordpressDebugBlock;
    BlockIsFramed(logPath, true);
    BlockIsFramed(logPath, false);
    TrimFramed(MiddleOf(logPath, true));
    TrimFramed(MiddleOf(logPath, false));
    CharBehind(START + "\n", FIRST, "true", MiddleRest("'" + ReplaceAll(logPath, '\'', "\\'") + "'"), "\n" + END);
    CharBehind(START + "\n", FIRST, "false", MiddleRest("false"), "\n" + END);
  }

  lemma FreshCounts(before: string, middle: string, after: string)
    ensures CountFrom(Fresh(before, middle, after), START, 0) >= 1
        && CountFrom(Fresh(before, middle, after), END, 0) >= 1
  {
    FreshParts(before, middle, after);
    hide Fresh, Framed, At;
    CountOne(Fresh(before, middle, after), START, |before|);
    CountOne(Fresh(before, middle, after), END, |before| + 31 + 1 + |middle| + 1);
  }

  /** What an update writes: the cleaned text, with the new block and an empty line in front of the boundary. */
  lemma UpdateWrites(content: string, enabled: bool, logPath: string) returns (before: string, after: string)
    requires UpdateWordPressDebug(content, enabled, logPath).Some?
    ensures Cleaned(content) == Some(before + after) && IndexFrom(before + after, ANCHOR, 0) == Some(|before|)
    ensures UpdateWordPressDebug(content, enabled, logPath).value.0 == Fresh(before, MiddleOf(logPath, enabled), after)
  {
    hide Adopted, CountFrom, FindBlock, RemoveBlocks, SameText, MiddleOf;
    BlockIsFramed(logPath, enabled);
    hide WordpressDebugBlock, Framed;
    var cleaned := Cleaned(content).value;
    var index := IndexFrom(cleaned, ANCHOR, 0).value;
    before, after := cleaned[..index], cleaned[index..];
    assert before + after == cleaned;
  }

  /** Neither marker occurs a second time, and what surrounds the block holds no debug define. */
  predicate Readable(before: string, middle: string, after: string) {
    CountFrom(Fresh(before, middle, after), START, 0) == 1 && CountFrom(Fresh(before, middle, after), END, 0) == 1
    && Adopted(before + after) == Some((before + after, map[]))
  }

  /** Reading a fresh block: it is understood under one condition, and then it is what was written. */
  lemma FreshInspected(before: string, after: string, enabled: bool, logPath: string)
    ensures var s := Fresh(before, MiddleOf(logPath, enabled), after);
            InspectWordPressDebug(s, logPath)
            == if Readable(before, MiddleOf(logPath, enabled), after) then Status(enabled, true, true) else UNKNOWN
    ensures Readable(before, MiddleOf(logPath, enabled), after) ==>
        RemoveBlocks(Fresh(before, MiddleOf(logPath, enabled), after), 0) == before + after
  {
    hide Adopted, CountFrom, FindBlock, RemoveBlocks, MiddleOf, WordpressDebugBlock, Fresh, TrimSpace, Framed;
    var middle := MiddleOf(logPath, enabled);
    var s := Fresh(before, middle, after);
    FreshCounts(before, middle, after);
    if CountFrom(s, START, 0) == 1 && CountFrom(s, END, 0) == 1 {
      FreshFound(before, middle, after);
      OnlyEmptyValues(before + after);
      BlockIsFramed(logPath, enabled);
      TrimFramed(middle);
      SettingsDiffer(logPath);
    }
  }

  lemma OnlyEmptyValues(c: string)
    ensures Adopted(c).Some? && Adopted(c).value.1 == map[] <==> Adopted(c) == Some((c, map[]))
  {
    hide Adoption;
    if Adopted(c).Some? && Adopted(c).value.1 == map[] { NothingAdopted(c); }
  }

  /** After an update the setting reads as exactly what was written, managed by WPX, or the file is not
      understood: and that happens exactly when a marker occurs twice or a debug define survives. */
  lemma InspectAfterUpdate(content: string, enabled: bool, logPath: string)
    requires UpdateWordPressDebug(content, enabled, logPath).Some?
    ensures var u, cleaned := UpdateWordPressDebug(content, enabled, logPath).value.0, Cleaned(content).value;
            InspectWordPressDebug(u, logPath)
            == if CountFrom(u, START, 0) == 1 && CountFrom(u, END, 0) == 1 && Adopted(cleaned) == Some((cleaned, map[]))
               then Status(enabled, true, true) else UNKNOWN
  {
    hide InspectWordPressDebug, UpdateWordPressDebug, Adopted, CountFrom, Fresh, MiddleOf;
    var before, after := UpdateWrites(content, enabled, logPath);
    FreshInspected(before, after, enabled, logPath);
  }

  /** An update of an updated file leaves what the second update alone would leave, and the same setting
      again is no change. */
  lemma SecondUpdateWins(content: string, first: bool, second: bool, logPath: string)
    requires UpdateWordPressDebug(content, first, logPath).Some?
    requires UpdateWordPressDebug(UpdateWordPressDebug(content, first, logPath).value.0, second, logPath).Some?
    ensures var u := UpdateWordPressDebug(content, first, logPath).value.0;
            UpdateWordPressDebug(content, second, logPath).Some?
            && UpdateWordPressDebug(u, second, logPath).value.0
                == UpdateWordPressDebug(content, second, logPath).value.0
            && (first == second ==> UpdateWordPressDebug(u, second, logPath) == Some((u, false)))
  {
    var u := UpdateWordPressDebug(content, first, logPath).value.0;
    UpdateAgreesWithInspect(content, first, logPath);
    UpdateAgreesWithInspect(content, second, logPath);
    UpdateAgreesWithInspect(u, second, logPath);
    Flags(content, first, logPath);
    Flags(u, second, logPath);
    hide InspectWordPressDebug, UpdateWordPressDebug, Adopted, CountFrom, Fresh, MiddleOf, RemoveBlocks, IndexFrom;
    var before, after := UpdateWrites(content, first, logPath);
    var before2, after2 := UpdateWrites(content, second, logPath);
    FreshInspected(before, after, first, logPath);
    assert Cleaned(u) == Some(before + after);
    var before3, after3 := UpdateWrites(u, second, logPath);
    assert before == before2 == before3 && after == after2 == after3 by {
      SplitEqual(before, after, before2, after2);
      SplitEqual(before, after, before3, after3);
    }
  }

  lemma SplitEqual(a: string, b: string, c: string, d: string)
    requires a + b == c + d && |a| == |c|
    ensures a == c && b == d
  {
    assert a == (a + b)[..|a|] && c == (c + d)[..|c|];
    assert b == (a + b)[|a|..] && d == (c + d)[|c|..];
  }

  lemma Flags(content: string, enabled: bool, logPath: string)
    requires UpdateWordPressDebug(content, enabled, logPath).Some?
    ensures var r := UpdateWordPressDebug(content, enabled, logPath).value; r.1 == (r.0 != content)
  {
    hide Adopted, CountFrom, FindBlock, RemoveBlocks, SameText, WordpressDebugBlock, IndexFrom;
  }
}
