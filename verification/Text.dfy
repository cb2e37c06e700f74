/** Searching in text, as the byte and string packages of the original's language define it. One character
    stands for one byte. */
module Text {
  import opened Faults

  const OWNER := "# Managed by WPX. "
  const WARNING := "Manual changes will be replaced.\n"

  /** The first line of every file that the broker manages. */
  const MANAGED_MARKER := OWNER + WARNING

  predicate At(s: string, p: string, i: nat) {
    i + |p| <= |s| && s[i..i + |p|] == p
  }

  /** The first occurrence at or behind a position. */
  function IndexFrom(s: string, p: string, from: nat): (r: Option<nat>)
    ensures r.Some? ==> from <= r.value && At(s, p, r.value) && forall j :: from <= j < r.value ==> !At(s, p, j)
    ensures r.None? ==> forall j :: from <= j ==> !At(s, p, j)
    decreases |s| - from
  {
    if from + |p| > |s| then None else if At(s, p, from) then Some(from) else IndexFrom(s, p, from + 1)
  }

  /** How often a text occurs without overlapping itself. */
  function CountFrom(s: string, p: string, from: nat): nat
    requires p != ""
    decreases |s| - from
  {
    match IndexFrom(s, p, from)
    case None => 0
    case Some(i) => 1 + CountFrom(s, p, i + |p|)
  }

  lemma CountOne(s: string, p: string, x: nat)
    requires p != "" && At(s, p, x)
    ensures CountFrom(s, p, 0) >= 1
  {
  }

  lemma CountTwo(s: string, p: string, x: nat, y: nat)
    requires p != "" && At(s, p, x) && At(s, p, y) && x + |p| <= y
    ensures CountFrom(s, p, 0) >= 2
  {
    var k := IndexFrom(s, p, 0).value;
    assert IndexFrom(s, p, k + |p|).Some?;
  }

  predicate Space(c: char) {
    c == ' ' || c == '\t' || c == '\n' || c == '\r' || c == 11 as char || c == 12 as char
  }

  function TrimLeft(s: string): string {
    if s != "" && Space(s[0]) then TrimLeft(s[1..]) else s
  }

  function TrimRight(s: string): string {
    if s != "" && Space(s[|s| - 1]) then TrimRight(s[..|s| - 1]) else s
  }

  function TrimSpace(s: string): string {
    TrimRight(TrimLeft(s))
  }

  /** Trimming leaves the part from i to j, with white space only around it. */
  lemma TrimBounds(s: string) returns (i: nat, j: nat)
    ensures i <= j <= |s| && TrimLeft(s) == s[i..] && TrimSpace(s) == s[i..j]
    ensures forall k :: 0 <= k < i || j <= k < |s| ==> Space(s[k])
    ensures i < j ==> !Space(s[i]) && !Space(s[j - 1])
  {
    hide TrimLeft, TrimRight, Space;
    i := TrimLeftBound(s);
    j := TrimRightBound(s[i..]);
    assert s[i..][..j] == s[i..i + j];
    assert forall k :: i <= k < |s| ==> s[k] == s[i..][k - i];
    j := i + j;
  }

  lemma {:induction false} TrimLeftBound(s: string) returns (i: nat)
    ensures i <= |s| && TrimLeft(s) == s[i..]
    ensures forall k :: 0 <= k < i ==> Space(s[k])
    ensures i < |s| ==> !Space(s[i])
  {
    if s != "" && Space(s[0]) {
      i := TrimLeftBound(s[1..]);
      assert s[1..][i..] == s[i + 1..];
      assert forall k :: 0 < k < i + 1 ==> s[k] == s[1..][k - 1];
      i := i + 1;
    } else {
      i := 0;
    }
  }

  lemma {:induction false} TrimRightBound(s: string) returns (j: nat)
    ensures j <= |s| && TrimRight(s) == s[..j]
    ensures forall k :: j <= k < |s| ==> Space(s[k])
    ensures j > 0 ==> !Space(s[j - 1])
  {
    if s != "" && Space(s[|s| - 1]) {
      j := TrimRightBound(s[..|s| - 1]);
      assert s[..|s| - 1][..j] == s[..j];
    } else {
      j := |s|;
    }
  }

  /** The position behind the line that position i stands in. */
  function LineEnd(s: string, i: nat): (e: nat)
    requires i <= |s|
    ensures i <= e <= |s| && (i < |s| ==> i < e)
    ensures forall k :: i <= k < e - 1 ==> s[k] != '\n'
    ensures i < e && e < |s| ==> s[e - 1] == '\n'
    decreases |s| - i
  {
    if i == |s| then i else if s[i] == '\n' then i + 1 else LineEnd(s, i + 1)
  }

  /** The beginning of the line that position i stands in. */
  function LineStart(s: string, i: nat): (b: nat)
    requires i <= |s|
    ensures b <= i && (b > 0 ==> s[b - 1] == '\n')
    ensures forall k :: b <= k < i ==> s[k] != '\n'
  {
    if i == 0 || s[i - 1] == '\n' then i else LineStart(s, i - 1)
  }

  /** The end of the longest stretch from i on whose characters satisfy f. */
  function Skip(s: string, i: nat, f: char -> bool): (r: nat)
    requires i <= |s|
    ensures i <= r <= |s|
    decreases |s| - i
  {
    if i < |s| && f(s[i]) then Skip(s, i + 1, f) else i
  }

  lemma {:induction false} SkipTo(s: string, i: nat, j: nat, f: char -> bool)
    requires i <= j <= |s| && (forall k :: i <= k < j ==> f(s[k])) && (j < |s| ==> !f(s[j]))
    ensures Skip(s, i, f) == j
    decreases j - i
  {
    if i < j { SkipTo(s, i + 1, j, f); }
  }

  /** What is left of s at position i. */
  predicate Left(s: string, i: nat, rest: string) {
    i <= |s| && s[i..] == rest
  }

  lemma Passed(s: string, i: nat, a: string, b: string)
    requires Left(s, i, a + b)
    ensures i + |a| <= |s| && s[i..i + |a|] == a && Left(s, i + |a|, b)
    ensures a != "" ==> s[i] == a[0]
    ensures b != "" ==> i + |a| < |s| && s[i + |a|] == b[0]
  {
    assert (a + b)[|a|..] == b && (a + b)[..|a|] == a;
    assert s[i..][|a|..] == s[i + |a|..] && s[i..][..|a|] == s[i..i + |a|];
    if a != "" { assert s[i] == s[i..i + |a|][0]; }
    if b != "" { assert s[i + |a|] == s[i + |a|..][0]; }
  }

  lemma LeftWhole(s: string)
    ensures Left(s, 0, s)
  {
  }

  lemma LeftFits(s: string, i: nat, rest: string)
    requires Left(s, i, rest)
    ensures i + |rest| == |s|
  {
  }

  lemma Associate<T>(a: seq<T>, b: seq<T>, c: seq<T>)
    ensures (a + b) + c == a + (b + c)
  {
  }

  function ReplaceAll(s: string, c: char, r: string): string {
    if s == "" then "" else (if s[0] == c then r else [s[0]]) + ReplaceAll(s[1..], c, r)
  }

  predicate Contains(s: string, p: string) {
    IndexFrom(s, p, 0).Some?
  }

  function ReplaceFirst(s: string, p: string, r: string): string {
    match IndexFrom(s, p, 0)
    case None => s
    case Some(i) => s[..i] + r + s[i + |p|..]
  }
}
