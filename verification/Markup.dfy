/** Tags as templates write them, and what the translator makes of pages built from such tags. */
module Markup {
  import opened Faults
  import opened Letters
  import opened Text
  import opened Localize

  predicate Gap(w: string) {
    forall k :: 0 <= k < |w| ==> TagSpace(w[k])
  }

  predicate NameChars(n: string) {
    forall k :: 0 <= k < |n| ==> NameChar(n[k])
  }

  /** An attribute with a quoted value, or one without any value. */
  datatype Attr = Valued(gap: string, name: string, b1: string, b2: string, quote: string, value: string)
                | Bare(gap: string, name: string)

  predicate ProperAttr(a: Attr) {
    && a.gap != "" && Gap(a.gap) && a.name != "" && NameChars(a.name)
    && (a.Valued? ==>
          && Gap(a.b1) && (forall k :: 0 <= k < |a.b2| ==> Blank(a.b2[k]))
          && (a.quote == "'" || a.quote == "\"") && a.quote[0] !in a.value)
  }

  predicate ProperAttrs(attrs: seq<Attr>) {
    forall a <- attrs :: ProperAttr(a)
  }

  /** What follows the name of an attribute. */
  function Behind(a: Attr, tail: string): string {
    match a
    case Bare(_, _) => tail
    case Valued(_, _, b1, b2, quote, value) => b1 + ("=" + (b2 + (quote + (value + (quote + tail)))))
  }

  function Attributes(attrs: seq<Attr>, end: string): string {
    if attrs == [] then end
    else attrs[0].gap + (attrs[0].name + Behind(attrs[0], Attributes(attrs[1..], end)))
  }

  /** A tag ends in a bracket, perhaps behind a slash. */
  predicate ProperEnd(end: string) {
    |end| > 0 && end[|end| - 1] == '>'
    && (Gap(end[..|end| - 1]) || (|end| > 1 && end[|end| - 2] == '/' && Gap(end[..|end| - 2])))
  }

  /** The value that is found. An attribute behind one without a value is read without its first letter: cut
      tells that this has happened to the first one. */
  function Reads(attrs: seq<Attr>, wanted: string, cut: bool): Option<string> {
    if attrs == [] then None
    else
      var name := if cut && attrs[0].name != "" then attrs[0].name[1..] else attrs[0].name;
      match attrs[0]
      case Valued(_, _, _, _, _, value) =>
        if Lower(name) == wanted then Some(value) else Reads(attrs[1..], wanted, false)
      case Bare(_, _) => Reads(attrs[1..], wanted, name != "")
  }

  // ----- reading one attribute -----

  lemma GapSkipped(s: string, i: nat, w: string, rest: string)
    requires Left(s, i, w + rest) && Gap(w) && (rest != "" ==> !TagSpace(rest[0]))
    ensures Skip(s, i, TagSpace) == i + |w| && Left(s, i + |w|, rest)
  {
    Passed(s, i, w, rest);
    assert forall k :: i <= k < i + |w| ==> s[k] == s[i..i + |w|][k - i];
    SkipTo(s, i, i + |w|, TagSpace);
  }

  lemma NameSkipped(s: string, i: nat, n: string, rest: string)
    requires Left(s, i, n + rest) && NameChars(n) && (rest != "" ==> !NameChar(rest[0]))
    ensures Skip(s, i, NameChar) == i + |n| <= |s| && Left(s, i + |n|, rest) && s[i..i + |n|] == n
  {
    Passed(s, i, n, rest);
    assert forall k :: i <= k < i + |n| ==> s[k] == s[i..i + |n|][k - i];
    SkipTo(s, i, i + |n|, NameChar);
  }

  lemma BlankSkipped(s: string, i: nat, b: string, rest: string)
    requires Left(s, i, b + rest) && (forall k :: 0 <= k < |b| ==> Blank(b[k])) && (rest != "" ==> !Blank(rest[0]))
    ensures Skip(s, i, Blank) == i + |b| && Left(s, i + |b|, rest)
  {
    Passed(s, i, b, rest);
    assert forall k :: i <= k < i + |b| ==> s[k] == s[i..i + |b|][k - i];
    SkipTo(s, i, i + |b|, Blank);
  }

  lemma ValueSkipped(s: string, i: nat, value: string, q: string, rest: string, c: char)
    requires Left(s, i, value + (q + rest)) && |q| == 1 && q[0] == c && c !in value
    ensures Skip(s, i, (x: char) => x != c) == i + |value| < |s| && s[i..i + |value|] == value
    ensures Left(s, i + |value| + 1, rest)
  {
    Passed(s, i, value, q + rest);
    Passed(s, i + |value|, q, rest);
    assert forall k :: i <= k < i + |value| ==> s[k] == s[i..i + |value|][k - i];
    SkipTo(s, i, i + |value|, (x: char) => x != c);
  }

  lemma NameRead(tag: string, start: nat, n: string, a: Attr, tail: string) returns (eq: nat)
    requires Left(tag, start, n + Behind(a, tail)) && NameChars(n) && a.Valued? && ProperAttr(a)
    ensures Skip(tag, start, NameChar) == start + |n| <= |tag| && tag[start..start + |n|] == n
    ensures eq == Skip(tag, start + |n|, TagSpace) < |tag| && tag[eq] == '='
    ensures Left(tag, eq + 1, a.b2 + (a.quote + (a.value + (a.quote + tail))))
  {
    hide Skip, Gap, NameChars, Left;
    eq := start + |n| + |a.b1|;
    BehindFirst(a, tail);
    NameSkipped(tag, start, n, Behind(a, tail));
    GapSkipped(tag, start + |n|, a.b1, "=" + (a.b2 + (a.quote + (a.value + (a.quote + tail)))));
    Passed(tag, eq, "=", a.b2 + (a.quote + (a.value + (a.quote + tail))));
  }

  lemma ValueRead(tag: string, from: nat, a: Attr, tail: string) returns (open: nat, close: nat)
    requires a.Valued? && ProperAttr(a) && Left(tag, from, a.b2 + (a.quote + (a.value + (a.quote + tail))))
    ensures open == Skip(tag, from, Blank) < |tag| && tag[open] == a.quote[0]
    ensures close == Skip(tag, open + 1, (x: char) => x != tag[open]) < |tag| && tag[open + 1..close] == a.value
    ensures Left(tag, close + 1, tail)
  {
    hide Skip, Gap, NameChars, Left;
    open := from + |a.b2|;
    BlankSkipped(tag, from, a.b2, a.quote + (a.value + (a.quote + tail)));
    Passed(tag, open, a.quote, a.value + (a.quote + tail));
    close := open + 1 + |a.value|;
    ValueSkipped(tag, open + 1, a.value, a.quote, tail, tag[open]);
  }

  /** What attribute reading makes of a name and a quoted value. */
  lemma ValuedRead(tag: string, i: nat, start: nat, n: string, a: Attr, tail: string, wanted: string) returns (p: nat)
    requires i < |tag| && Skip(tag, i, TagSpace) == start && Left(tag, start, n + Behind(a, tail))
    requires NameChars(n) && a.Valued? && ProperAttr(a)
    ensures Left(tag, p, tail) && i < p
    ensures ReadAttribute(tag, i, wanted) == if Lower(n) == wanted then Found(a.value) else ContinueAt(p)
  {
    hide Skip, Lower, Gap, NameChars, Left, Behind;
    var eq := NameRead(tag, start, n, a, tail);
    var open, close := ValueRead(tag, eq + 1, a, tail);
    p := close + 1;
  }

  lemma BehindFirst(a: Attr, tail: string)
    requires a.Valued? && ProperAttr(a)
    ensures Behind(a, tail) != "" && !NameChar(Behind(a, tail)[0])
  {
    assert a.b1 == "" ==> Behind(a, tail)[0] == '=';
    assert a.b1 != "" ==> Behind(a, tail)[0] == a.b1[0];
  }

  /** Behind a name without a value, reading goes on one character into what follows the blanks. */
  lemma BareRead(tag: string, i: nat, start: nat, n: string, gap: string, more: string, wanted: string)
    requires i < |tag| && Skip(tag, i, TagSpace) == start && Left(tag, start, n + (gap + more))
    requires NameChars(n) && Gap(gap) && more != "" && !TagSpace(more[0]) && more[0] != '='
    requires !NameChar((gap + more)[0])
    ensures var p := start + |n| + |gap| + 1;
            i < p && Left(tag, p, more[1..]) && ReadAttribute(tag, i, wanted) == ContinueAt(p)
  {
    hide Skip, Gap, NameChars;
    NameSkipped(tag, start, n, gap + more);
    GapSkipped(tag, start + |n|, gap, more);
    assert more == more[..1] + more[1..];
    Passed(tag, start + |n| + |gap|, more[..1], more[1..]);
  }

  predicate Finish(end: string) {
    end == "" || end == ">" || end == "/>"
  }

  lemma NothingIsFine()
    ensures Gap("") && NameChars("")
  {
  }

  /** An end of a tag as blanks and the rest. */
  lemma EndParts(end: string) returns (gap: string, more: string)
    requires ProperEnd(end)
    ensures Gap(gap) && Finish(more) && more != "" && end == gap + more
  {
    if Gap(end[..|end| - 1]) {
      gap, more := end[..|end| - 1], end[|end| - 1..];
      assert more == ">";
    } else {
      gap, more := end[..|end| - 2], end[|end| - 2..];
      assert more == "/>";
    }
  }

  /** Nothing is found in the end of a tag. */
  lemma FinishRead(tag: string, i: nat, gap: string, more: string, wanted: string)
    requires Left(tag, i, gap + more) && Gap(gap) && Finish(more)
    ensures AttributeFrom(tag, i, wanted) == None
    decreases |tag| - i
  {
    hide Skip, ReadAttribute, Gap, NameChars, AttributeFrom;
    if more == "" {
      LeftFits(tag, i, gap + more);
      if gap == "" { NoAttribute(tag, wanted); } else { OnlyGap(tag, i, gap, wanted); }
    } else {
      LeftFits(tag, i, gap + more);
      GapSkipped(tag, i, gap, more);
      assert "" + ("" + more) == more && "" + more == more;
      NothingIsFine();
      BareRead(tag, i, i + |gap|, "", "", more, wanted);
      OneAttribute(tag, i, wanted);
      assert "" + more[1..] == more[1..];
      FinishRead(tag, i + |gap| + 1, "", more[1..], wanted);
    }
  }

  lemma OnlyGap(tag: string, i: nat, gap: string, wanted: string)
    requires Left(tag, i, gap + "") && Gap(gap) && gap != ""
    ensures AttributeFrom(tag, i, wanted) == None
  {
    hide Skip, Lower, AttributeFrom;
    GapSkipped(tag, i, gap, "");
    LeftFits(tag, i, gap + "");
    SkipTo(tag, |tag|, |tag|, NameChar);
    SkipTo(tag, |tag|, |tag|, TagSpace);
    OneAttribute(tag, i, wanted);
  }

  /** What stands behind an attribute: blanks, and something that is neither a blank nor an equals sign. */
  lemma TailParts(attrs: seq<Attr>, end: string) returns (gap: string, more: string)
    requires ProperAttrs(attrs) && ProperEnd(end)
    ensures Gap(gap) && more != "" && !TagSpace(more[0]) && more[0] != '=' && Attributes(attrs, end) == gap + more
    ensures !NameChar((gap + more)[0])
    ensures attrs != [] ==> ProperAttr(attrs[0]) && gap == attrs[0].gap
    ensures attrs != [] ==> more == attrs[0].name + Behind(attrs[0], Attributes(attrs[1..], end))
    ensures attrs != [] ==> more[1..] == attrs[0].name[1..] + Behind(attrs[0], Attributes(attrs[1..], end))
    ensures attrs == [] ==> Finish(more)
  {
    hide Gap, ProperEnd, NameChars, Behind;
    if attrs == [] {
      gap, more := EndParts(end);
      EndFirst(gap, more);
    } else {
      var a := attrs[0];
      assert ProperAttr(a);
      gap, more := a.gap, a.name + Behind(a, Attributes(attrs[1..], end));
      AttrFirst(a, Behind(a, Attributes(attrs[1..], end)));
    }
  }

  lemma EndFirst(gap: string, more: string)
    requires Gap(gap) && Finish(more) && more != ""
    ensures !TagSpace(more[0]) && more[0] != '=' && !NameChar((gap + more)[0])
  {
    assert (gap + more)[0] == if gap == "" then more[0] else gap[0];
  }

  lemma AttrFirst(a: Attr, tail: string)
    requires ProperAttr(a)
    ensures var more := a.name + tail;
            more != "" && !TagSpace(more[0]) && more[0] != '=' && !NameChar((a.gap + more)[0])
            && more[1..] == a.name[1..] + tail
  {
    var more := a.name + tail;
    assert more[0] == a.name[0] && NameChar(a.name[0]);
    assert (a.gap + more)[0] == a.gap[0];
  }

  lemma {:induction false} ReadAll(tag: string, i: nat, attrs: seq<Attr>, end: string, wanted: string)
    requires ProperAttrs(attrs) && ProperEnd(end) && Left(tag, i, Attributes(attrs, end))
    ensures AttributeFrom(tag, i, wanted) == Reads(attrs, wanted, false)
    decreases |attrs|, 1
  {
    hide Skip, ReadAttribute, Gap, NameChars, AttributeFrom, Lower, ProperEnd;
    if attrs == [] {
      var gap, more := EndParts(end);
      FinishRead(tag, i, gap, more, wanted);
    } else {
      var a, rest := attrs[0], attrs[1..];
      var tail := Attributes(rest, end);
      assert ProperAttr(a) && ProperAttrs(rest);
      var gap, more := TailParts(attrs, end);
      LeftFits(tag, i, gap + more);
      GapSkipped(tag, i, gap, more);
      OneAttribute(tag, i, wanted);
      NamedRead(tag, i, i + |gap|, a.name, a, rest, end, wanted, false);
    }
  }

  /** The attribute a, whose name is left as n, and everything behind it. */
  lemma NamedRead(tag: string, i: nat, start: nat, n: string, a: Attr, rest: seq<Attr>, end: string, wanted: string,
                  cut: bool)
    requires ProperAttr(a) && ProperAttrs(rest) && ProperEnd(end)
    requires i < |tag| && Skip(tag, i, TagSpace) == start && Left(tag, start, n + Behind(a, Attributes(rest, end)))
    requires NameChars(n) && n == (if cut then a.name[1..] else a.name) && (a.Bare? ==> n != "")
    ensures AttributeFrom(tag, i, wanted) == Reads([a] + rest, wanted, cut)
    decreases |rest| + 1, 0
  {
    hide Skip, ReadAttribute, Gap, NameChars, AttributeFrom, Lower, ProperEnd;
    assert ([a] + rest)[1..] == rest;
    OneAttribute(tag, i, wanted);
    if a.Valued? {
      var p := ValuedRead(tag, i, start, n, a, Attributes(rest, end), wanted);
      ReadAll(tag, p, rest, end, wanted);
    } else {
      var gap, more := TailParts(rest, end);
      BareRead(tag, i, start, n, gap, more, wanted);
      var p := start + |n| + |gap| + 1;
      if rest == [] {
        FinishMore(more);
        FinishRead(tag, p, "", more[1..], wanted);
      } else {
        ReadCut(tag, p, rest, end, wanted);
      }
    }
  }

  lemma FinishMore(more: string)
    requires Finish(more) && more != ""
    ensures Finish(more[1..]) && "" + more[1..] == more[1..] && Gap("")
  {
  }

  /** The first attribute has lost the first letter of its name. */
  lemma {:induction false} ReadCut(tag: string, i: nat, attrs: seq<Attr>, end: string, wanted: string)
    requires ProperAttrs(attrs) && ProperEnd(end) && attrs != []
    requires ProperAttr(attrs[0]) && Left(tag, i, attrs[0].name[1..] + Behind(attrs[0], Attributes(attrs[1..], end)))
    ensures AttributeFrom(tag, i, wanted) == Reads(attrs, wanted, true)
    decreases |attrs|, 1
  {
    hide Skip, ReadAttribute, Gap, NameChars, AttributeFrom, Lower, ProperEnd;
    var a, rest := attrs[0], attrs[1..];
    assert ProperAttrs(rest) && attrs == [a] + rest;
    var n, tail := a.name[1..], Attributes(rest, end);
    RestOfName(a, tail);
    if n != "" {
      GapSkipped(tag, i, "", n + Behind(a, tail));
      LeftFits(tag, i, n + Behind(a, tail));
      NamedRead(tag, i, i, n, a, rest, end, wanted, true);
    } else if a.Bare? {
      assert n + tail == tail;
      ReadAll(tag, i, rest, end, wanted);
    } else {
      ReadNameless(tag, i, a, rest, end, wanted);
    }
  }

  lemma RestOfName(a: Attr, tail: string)
    requires ProperAttr(a)
    ensures NameChars(a.name[1..]) && Gap("")
    ensures var x := a.name[1..] + Behind(a, tail); a.name[1..] != "" ==> x != "" && !TagSpace(x[0]) && x == "" + x
  {
  }

  /** A value whose name was one letter that is lost. */
  lemma ReadNameless(tag: string, i: nat, a: Attr, rest: seq<Attr>, end: string, wanted: string)
    requires ProperAttr(a) && a.Valued? && |a.name| == 1 && ProperAttrs(rest) && ProperEnd(end)
    requires Left(tag, i, "" + Behind(a, Attributes(rest, end)))
    ensures AttributeFrom(tag, i, wanted) == Reads([a] + rest, wanted, true)
    decreases |rest| + 1, 0
  {
    hide Skip, ReadAttribute, Gap, NameChars, AttributeFrom, Lower, ProperEnd;
    var tail, b := Attributes(rest, end), a.(b1 := "");
    var more := "=" + (a.b2 + (a.quote + (a.value + (a.quote + tail))));
    NothingIsFine();
    assert "" + Behind(a, tail) == a.b1 + more;
    assert "" + Behind(b, tail) == more;
    GapSkipped(tag, i, a.b1, more);
    LeftFits(tag, i, a.b1 + more);
    OneAttribute(tag, i, wanted);
    var p := ValuedRead(tag, i, i + |a.b1|, "", b, tail, wanted);
    ReadAll(tag, p, rest, end, wanted);
    assert ([a] + rest)[1..] == rest && a.name[1..] == "";
  }

  // ----- tags -----

  predicate Word(name: string) {
    name != "" && ('a' <= name[0] <= 'z' || 'A' <= name[0] <= 'Z')
    && forall k :: 0 <= k < |name| ==> 'a' <= name[k] <= 'z' || 'A' <= name[k] <= 'Z' || '0' <= name[k] <= '9'
  }

  function OpenTag(name: string, attrs: seq<Attr>, end: string): string {
    "<" + (name + Attributes(attrs, end))
  }

  lemma {:induction false} WordSkipped(s: string, i: nat, name: string, rest: string)
    requires Left(s, i, name + rest) && Word(name) && (rest != "" ==> !LetterOrDigit(rest[0]))
    ensures i < |s| && Letter(s[i]) && Skip(s, i, LetterOrDigit) == Skip(s, i + 1, LetterOrDigit) == i + |name| <= |s|
    ensures s[i..i + |name|] == name && Left(s, i + |name|, rest)
  {
    Passed(s, i, name, rest);
    assert forall k :: i <= k < i + |name| ==> s[k] == s[i..i + |name|][k - i];
    SkipTo(s, i, i + |name|, LetterOrDigit);
    SkipTo(s, i + 1, i + |name|, LetterOrDigit);
  }

  lemma TailIsNoName(attrs: seq<Attr>, end: string)
    requires ProperAttrs(attrs) && ProperEnd(end)
    ensures Attributes(attrs, end) != "" && !NameChar(Attributes(attrs, end)[0])
  {
    hide Gap, NameChars, ProperEnd;
    var gap, more := TailParts(attrs, end);
  }

  /** What the translator reads in a tag: its attributes in order, but for those cut by one without a value. */
  lemma TagIsRead(name: string, attrs: seq<Attr>, end: string, wanted: string)
    requires Word(name) && ProperAttrs(attrs) && ProperEnd(end)
    ensures AttributeOf(OpenTag(name, attrs, end), wanted) == Reads(attrs, wanted, false)
    ensures TagNameOf(OpenTag(name, attrs, end)) == (Lower(name), false)
  {
    hide Skip, Gap, NameChars, AttributeFrom, Lower, ProperEnd, Attributes, Word;
    var tag, tail := OpenTag(name, attrs, end), Attributes(attrs, end);
    TailIsNoName(attrs, end);
    assert Left(tag, 1, name + tail) by { assert tag[1..] == name + tail; }
    WordSkipped(tag, 1, name, tail);
    WordFirst(name);
    ReadAll(tag, 1 + |name|, attrs, end, wanted);
  }

  lemma WordFirst(name: string)
    requires Word(name)
    ensures name != "" && Letter(name[0]) && name[0] != '/' && name[0] != '!' && name[0] != '?'
  {
  }

  /** Every attribute has a value, and none carries the wanted name. */
  predicate Others(attrs: seq<Attr>, wanted: string) {
    forall a <- attrs :: a.Valued? && Lower(a.name) != wanted
  }

  lemma {:induction false} OthersSkipped(pre: seq<Attr>, more: seq<Attr>, wanted: string)
    requires Others(pre, wanted)
    ensures Reads(pre + more, wanted, false) == Reads(more, wanted, false)
  {
    hide Lower;
    if pre == [] {
      assert pre + more == more;
    } else {
      assert (pre + more)[1..] == pre[1..] + more && (pre + more)[0] == pre[0];
      OthersSkipped(pre[1..], more, wanted);
    }
  }

  /** A marker is read wherever it stands behind quoted attributes, whatever follows it, and a tag of other quoted
      attributes has none. */
  lemma MarkedTagIsRead(name: string, pre: seq<Attr>, marker: Attr, post: seq<Attr>, end: string)
    requires Word(name) && ProperAttrs(pre + [marker] + post) && ProperEnd(end)
    requires Others(pre, MARKER) && marker.Valued? && Lower(marker.name) == MARKER
    ensures AttributeOf(OpenTag(name, pre + [marker] + post, end), MARKER) == Some(marker.value)
    ensures AttributeOf(OpenTag(name, pre, end), MARKER) == None
  {
    hide Attributes, AttributeOf, Lower, Gap, NameChars, ProperEnd;
    TagIsRead(name, pre + [marker] + post, end, MARKER);
    assert pre + [marker] + post == pre + ([marker] + post);
    OthersSkipped(pre, [marker] + post, MARKER);
    assert forall a <- pre :: a in pre + [marker] + post;
    TagIsRead(name, pre, end, MARKER);
    OthersSkipped(pre, [], MARKER);
    assert pre + [] == pre;
  }

  /** Directly behind an attribute without a value no marker is read: its first letter is skipped. */
  lemma BareHidesMarker(name: string, pre: seq<Attr>, bare: Attr, marker: Attr, end: string)
    requires Word(name) && ProperAttrs(pre + [bare, marker]) && ProperEnd(end)
    requires Others(pre, MARKER) && bare.Bare? && marker.Valued? && Lower(marker.name) == MARKER
    ensures AttributeOf(OpenTag(name, pre + [bare, marker], end), MARKER) == None
  {
    hide Attributes, AttributeOf, Lower, Gap, NameChars, ProperEnd;
    TagIsRead(name, pre + [bare, marker], end, MARKER);
    OthersSkipped(pre, [bare, marker], MARKER);
    assert bare in pre + [bare, marker] && marker in pre + [bare, marker];
    assert [bare, marker][1..] == [marker] && [marker][1..] == [];
    LowerLength(marker.name);
    LowerLength(marker.name[1..]);
    assert Reads([], MARKER, false) == None;
    assert Reads([marker], MARKER, true) == None;
    assert ProperAttr(bare) && bare.name != "";
  }

  /** Read whole or without its first letter, none of these attributes is the marker. */
  predicate Unmarked(attrs: seq<Attr>) {
    forall a <- attrs :: a.name != "" && Lower(a.name) != MARKER && Lower(a.name[1..]) != MARKER
  }

  /** Whether what stands behind these attributes loses its first letter: the last one has no value, and something
      of its own name was left. */
  predicate CutBehind(attrs: seq<Attr>, cut: bool) {
    if attrs == [] then cut else CutBehind(attrs[1..], attrs[0].Bare? && !(cut && |attrs[0].name| == 1))
  }

  lemma {:induction false} UnmarkedSkipped(pre: seq<Attr>, more: seq<Attr>, cut: bool)
    requires Unmarked(pre)
    ensures Reads(pre + more, MARKER, cut) == Reads(more, MARKER, CutBehind(pre, cut))
  {
    hide Lower;
    if pre == [] {
      assert pre + more == more;
    } else {
      assert (pre + more)[1..] == pre[1..] + more && (pre + more)[0] == pre[0];
      UnmarkedSkipped(pre[1..], more, pre[0].Bare? && !(cut && |pre[0].name| == 1));
    }
  }

  /** Among any attributes the marker is read exactly if the attribute in front of it has not cut it. */
  lemma MarkerReadExactly(name: string, pre: seq<Attr>, marker: Attr, post: seq<Attr>, end: string)
    requires Word(name) && ProperAttrs(pre + [marker] + post) && ProperEnd(end)
    requires Unmarked(pre) && Unmarked(post) && marker.Valued? && Lower(marker.name) == MARKER
    ensures AttributeOf(OpenTag(name, pre + [marker] + post, end), MARKER)
         == if CutBehind(pre, false) then None else Some(marker.value)
  {
    hide Attributes, AttributeOf, Lower, Gap, NameChars, ProperEnd, CutBehind, Unmarked;
    TagIsRead(name, pre + [marker] + post, end, MARKER);
    assert pre + [marker] + post == pre + ([marker] + post);
    UnmarkedSkipped(pre, [marker] + post, false);
    assert ([marker] + post)[1..] == post && post + [] == post;
    assert marker in pre + [marker] + post;
    UnmarkedSkipped(post, [], false);
    LowerLength(marker.name);
    LowerLength(marker.name[1..]);
    assert Reads([], MARKER, CutBehind(post, false)) == None;
  }

  /** Where every name has at least two letters, it is the attribute directly in front that decides. */
  lemma {:induction false} LastDecides(pre: seq<Attr>, cut: bool)
    requires pre != [] && forall a <- pre :: |a.name| > 1
    ensures CutBehind(pre, cut) <==> pre[|pre| - 1].Bare?
  {
    if |pre| > 1 {
      LastDecides(pre[1..], pre[0].Bare?);
    } else {
      assert CutBehind([], pre[0].Bare?) == pre[0].Bare?;
    }
  }

  lemma {:induction false} LowerLength(s: string)
    ensures |Lower(s)| == |s|
  {
    if s != "" { LowerLength(s[1..]); }
  }

  /** The marker as templates write it. */
  lemma PlainMarker(key: string)
    requires '"' !in key
    ensures var marker := Valued(" ", MARKER, "", "", "\"", key); ProperAttr(marker) && Lower(marker.name) == MARKER
  {
    hide Lower;
    LowerMarker();
  }

  lemma LowerMarker()
    ensures Lower(MARKER) == MARKER
  {
    assert MARKER[1..] == "ata-i18n" && "ata-i18n"[1..] == "ta-i18n" && "ta-i18n"[1..] == "a-i18n";
    assert "a-i18n"[1..] == "-i18n" && "-i18n"[1..] == "i18n" && "i18n"[1..] == "18n" && "18n"[1..] == "8n"
        && "8n"[1..] == "n" && "n"[1..] == "";
  }

  // ----- where a tag ends -----

  predicate NoMarks(w: string) {
    forall k :: 0 <= k < |w| ==> w[k] != '>' && w[k] != '\'' && w[k] != '"'
  }

  lemma {:induction false} ScanPlain(w: string, rest: string)
    requires NoMarks(w) && Scan(rest, None) == Some(|rest|)
    ensures Scan(w + rest, None) == Some(|w + rest|)
  {
    if w == "" {
      assert w + rest == rest;
    } else {
      assert (w + rest)[1..] == w[1..] + rest && (w + rest)[0] == w[0];
      ScanPlain(w[1..], rest);
    }
  }

  lemma {:induction false} ScanInside(v: string, q: char, rest: string)
    requires q !in v && Scan(rest, None) == Some(|rest|)
    ensures Scan(v + ([q] + rest), Some(q)) == Some(|v| + 1 + |rest|)
  {
    var s := v + ([q] + rest);
    if v == "" {
      assert s[1..] == rest;
    } else {
      assert s[1..] == v[1..] + ([q] + rest) && s[0] == v[0];
      ScanInside(v[1..], q, rest);
    }
  }

  lemma ScanValue(q: string, v: string, rest: string)
    requires (q == "'" || q == "\"") && q[0] !in v && Scan(rest, None) == Some(|rest|)
    ensures var s := q + (v + (q + rest)); Scan(s, None) == Some(|s|)
  {
    var s := q + (v + (q + rest));
    assert q == [q[0]] && s[1..] == v + ([q[0]] + rest);
    ScanInside(v, q[0], rest);
  }

  lemma NamesHaveNoMarks(n: string)
    ensures NameChars(n) || Gap(n) ==> NoMarks(n)
  {
  }

  lemma {:induction false} ScanAttributes(attrs: seq<Attr>, end: string)
    requires ProperAttrs(attrs) && ProperEnd(end)
    ensures Scan(Attributes(attrs, end), None) == Some(|Attributes(attrs, end)|)
  {
    hide Scan, Gap, NameChars, NoMarks;
    if attrs == [] {
      ScanEnd(end);
    } else {
      var a, tail := attrs[0], Attributes(attrs[1..], end);
      assert ProperAttr(a);
      ScanAttributes(attrs[1..], end);
      NamesHaveNoMarks(a.gap);
      NamesHaveNoMarks(a.name);
      ScanBehind(a, tail);
      ScanPlain(a.name, Behind(a, tail));
      ScanPlain(a.gap, a.name + Behind(a, tail));
    }
  }

  lemma ScanBehind(a: Attr, tail: string)
    requires ProperAttr(a) && Scan(tail, None) == Some(|tail|)
    ensures Scan(Behind(a, tail), None) == Some(|Behind(a, tail)|)
  {
    hide Scan;
    if a.Valued? {
      ScanValue(a.quote, a.value, tail);
      ScanPlain(a.b2, a.quote + (a.value + (a.quote + tail)));
      ScanPlain("=", a.b2 + (a.quote + (a.value + (a.quote + tail))));
      ScanPlain(a.b1, "=" + (a.b2 + (a.quote + (a.value + (a.quote + tail)))));
    }
  }

  lemma ScanEnd(end: string)
    requires ProperEnd(end)
    ensures Scan(end, None) == Some(|end|)
  {
    hide Scan, Gap;
    var w := end[..|end| - 1];
    assert NoMarks(w) by { EndHasNoMarks(end); }
    assert end == w + ">";
    BracketEnds();
    ScanPlain(w, ">");
  }

  lemma BracketEnds()
    ensures Scan(">", None) == Some(1)
  {
  }

  lemma EndHasNoMarks(end: string)
    requires ProperEnd(end)
    ensures NoMarks(end[..|end| - 1])
  {
    var w := end[..|end| - 1];
    if !Gap(w) {
      assert forall k :: 0 <= k < |end| - 2 ==> w[k] == end[..|end| - 2][k];
    }
  }

  function CloseTag(name: string, gap: string): string {
    "</" + (name + (gap + ">"))
  }

  /** A page piece that is a complete tag. */
  predicate Complete(tag: string) {
    tag != "" && tag[0] == '<' && Scan(tag[1..], None) == Some(|tag| - 1)
  }

  lemma OpenIsComplete(name: string, attrs: seq<Attr>, end: string)
    requires Word(name) && ProperAttrs(attrs) && ProperEnd(end)
    ensures Complete(OpenTag(name, attrs, end))
  {
    hide Scan, Attributes, ProperEnd;
    var tag := OpenTag(name, attrs, end);
    assert tag[1..] == name + Attributes(attrs, end);
    ScanAttributes(attrs, end);
    ScanPlain(name, Attributes(attrs, end));
  }

  lemma CloseIsComplete(name: string, gap: string)
    requires Word(name) && Gap(gap)
    ensures Complete(CloseTag(name, gap))
  {
    hide Scan;
    BracketEnds();
    ScanPlain(gap, ">");
    ScanPlain(name, gap + ">");
    ScanPlain("/", name + (gap + ">"));
    assert CloseTag(name, gap)[1..] == "/" + (name + (gap + ">"));
  }

  lemma CloseIsRead(name: string, gap: string)
    requires Word(name) && Gap(gap)
    ensures Complete(CloseTag(name, gap)) && TagNameOf(CloseTag(name, gap)) == (Lower(name), true)
  {
    hide Scan, Skip, Lower, Complete;
    CloseIsComplete(name, gap);
    var tag := CloseTag(name, gap);
    assert tag[2..] == name + (gap + ">");
    assert gap != "" ==> (gap + ">")[0] == gap[0];
    WordSkipped(tag, 2, name, gap + ">");
  }

  // ----- pages -----

  lemma TranslatedEmpty(catalog: Catalog, locale: Locale)
    ensures Translated(catalog, "", locale) == ""
  {
  }

  /** Text without tags is copied. */
  lemma TextStays(catalog: Catalog, x: string, locale: Locale)
    requires '<' !in x
    ensures Translated(catalog, x, locale) == x
  {
    hide Swap;
    LastText(catalog, x, locale, "");
    assert Lex(x) == Tail(x);
  }

  predicate Guards(name: string) {
    name in ["script", "style", "textarea", "pre", "code"]
  }

  /** What a locale says for a known key: its own text, or the English one where it has none. */
  function Words(catalog: Catalog, locale: Locale, key: string): string
    requires ENGLISH in catalog && key in catalog[ENGLISH]
  {
    if locale !in catalog || key !in catalog[locale] || catalog[locale][key] == "" then catalog[ENGLISH][key]
    else catalog[locale][key]
  }

  /** A marked leaf gets the text of the locale; the page behind it is translated on its own. */
  lemma LeafIsTranslated(catalog: Catalog, locale: Locale, before: string, name: string, attrs: seq<Attr>, end: string,
                         text: string, close: string, gap: string, behind: string)
    requires locale != ENGLISH && '<' !in before && '<' !in text
    requires Word(name) && ProperAttrs(attrs) && ProperEnd(end) && !Guards(Lower(name))
    requires Word(close) && Gap(gap) && Lower(close) == Lower(name)
    requires Reads(attrs, MARKER, false).Some?
    requires ENGLISH in catalog && Reads(attrs, MARKER, false).value in catalog[ENGLISH]
    ensures var open := OpenTag(name, attrs, end);
            Translated(catalog, before + open + (text + CloseTag(close, gap) + behind), locale)
            == before + open + Escape(Words(catalog, locale, Reads(attrs, MARKER, false).value)) + CloseTag(close, gap)
               + Translated(catalog, behind, locale)
  {
    hide Lex, Swap, Flatten, Escape, Complete, Attributes, AttributeOf, TagNameOf, Lower, Reads, Gap, ProperEnd;
    hide OpenTag, CloseTag, Translated;
    var open, last := OpenTag(name, attrs, end), CloseTag(close, gap);
    TagIsRead(name, attrs, end, MARKER);
    OpenIsComplete(name, attrs, end);
    CloseIsRead(close, gap);
    PieceIsRead(before, open, text + last + behind);
    PieceIsRead(text, last, behind);
    LowerNotEmpty(name);
    var d := Piece(before, open, Piece(text, last, Lex(behind)));
    EmitLeaf(catalog, d, locale, "");
    TranslatedText(catalog, before + open + (text + last + behind), locale);
    TranslatedText(catalog, behind, locale);
  }

  lemma LowerNotEmpty(name: string)
    requires Word(name)
    ensures Lower(name) != ""
  {
  }

  lemma PieceIsRead(text: string, tag: string, rest: string)
    requires '<' !in text && Complete(tag)
    ensures Lex(text + tag + rest) == Piece(text, tag, Lex(rest))
  {
    LexPiece(text, tag, rest);
  }

  /** A closing tag outside protected elements is copied. */
  lemma ClosingTagStays(catalog: Catalog, locale: Locale, before: string, name: string, gap: string, behind: string)
    requires locale != ENGLISH && '<' !in before && Word(name) && Gap(gap)
    ensures Translated(catalog, before + CloseTag(name, gap) + behind, locale)
         == before + CloseTag(name, gap) + Translated(catalog, behind, locale)
  {
    hide Lex, Swap, Flatten, Complete, TagNameOf, Lower, Gap, CloseTag, Translated, MarkedKey;
    var tag := CloseTag(name, gap);
    CloseIsRead(name, gap);
    PieceIsRead(before, tag, behind);
    ClosingTag(catalog, tag);
    EmitPiece(catalog, Piece(before, tag, Lex(behind)), locale, "");
    TranslatedText(catalog, before + tag + behind, locale);
    TranslatedText(catalog, behind, locale);
  }

  /** What follows a marked tag is no leaf: another opening tag stands in front of its closing tag. */
  ghost predicate HoldsMarkup(behind: string) {
    exists text, name, attrs, end, rest ::
      '<' !in text && Word(name) && ProperAttrs(attrs) && ProperEnd(end)
      && behind == text + OpenTag(name, attrs, end) + rest
  }

  lemma MarkupIsNoLeaf(behind: string)
    requires HoldsMarkup(behind)
    ensures Lex(behind).Piece? && !TagNameOf(Lex(behind).tag).1
  {
    hide Lex, Complete, Attributes, TagNameOf, Lower, Gap, ProperEnd, OpenTag;
    var text, name, attrs, end, rest :|
      '<' !in text && Word(name) && ProperAttrs(attrs) && ProperEnd(end)
      && behind == text + OpenTag(name, attrs, end) + rest;
    TagIsRead(name, attrs, end, MARKER);
    OpenIsComplete(name, attrs, end);
    PieceIsRead(text, OpenTag(name, attrs, end), rest);
  }

  /** An opening tag without a known marker, or one with markup inside, is copied, and so is the text in front. */
  lemma OtherTagStays(catalog: Catalog, locale: Locale, before: string, name: string, attrs: seq<Attr>, end: string,
                      behind: string)
    requires locale != ENGLISH && '<' !in before
    requires Word(name) && ProperAttrs(attrs) && ProperEnd(end) && !Guards(Lower(name))
    requires
      || Reads(attrs, MARKER, false).None?
      || ENGLISH !in catalog || Reads(attrs, MARKER, false).value !in catalog[ENGLISH]
      || HoldsMarkup(behind)
    ensures Translated(catalog, before + OpenTag(name, attrs, end) + behind, locale)
         == before + OpenTag(name, attrs, end) + Translated(catalog, behind, locale)
  {
    hide Lex, Swap, Flatten, Complete, Attributes, AttributeOf, TagNameOf, Lower, Reads, Gap, ProperEnd;
    hide OpenTag, Translated, HoldsMarkup;
    var tag := OpenTag(name, attrs, end);
    TagIsRead(name, attrs, end, MARKER);
    OpenIsComplete(name, attrs, end);
    PieceIsRead(before, tag, behind);
    if HoldsMarkup(behind) { MarkupIsNoLeaf(behind); }
    EmitPiece(catalog, Piece(before, tag, Lex(behind)), locale, "");
    TranslatedText(catalog, before + tag + behind, locale);
    TranslatedText(catalog, behind, locale);
  }

  /** Contents in which no tag closes the element: texts and tags, and a text without a tag at the end. */
  predicate Within(d: Doc, name: string) {
    match d
    case Tail(rest) => '<' !in rest
    case Piece(text, tag, next) =>
      '<' !in text && Complete(tag) && TagNameOf(tag) != (Lower(name), true) && Within(next, name)
  }

  lemma {:induction false} GuardedStays(catalog: Catalog, locale: Locale, d: Doc, name: string, gap: string,
                                        behind: string)
    requires Within(d, name) && Word(name) && Gap(gap)
    ensures Flatten(Swap(catalog, Lex(Flatten(d) + CloseTag(name, gap) + behind), locale, Lower(name)))
         == Flatten(d) + CloseTag(name, gap) + Flatten(Swap(catalog, Lex(behind), locale, ""))
  {
    hide Lex, Swap, Complete, TagNameOf, Lower, Gap, CloseTag, MarkedKey;
    var last := CloseTag(name, gap);
    LowerNotEmpty(name);
    match d
    case Tail(rest) =>
      CloseIsRead(name, gap);
      PieceIsRead(rest, last, behind);
      EmitPiece(catalog, Piece(rest, last, Lex(behind)), locale, Lower(name));
    case Piece(text, tag, next) =>
      GuardedStays(catalog, locale, next, name, gap, behind);
      var more := Flatten(next) + last + behind;
      assert Flatten(d) + last + behind == text + tag + more;
      PieceIsRead(text, tag, more);
      EmitPiece(catalog, Piece(text, tag, Lex(more)), locale, Lower(name));
      assert text + tag + (Flatten(next) + last + Flatten(Swap(catalog, Lex(behind), locale, "")))
          == Flatten(d) + last + Flatten(Swap(catalog, Lex(behind), locale, ""));
  }

  /** The contents of the five protected elements are copied, markers and all, up to the closing tag. */
  lemma ProtectedStays(catalog: Catalog, locale: Locale, before: string, name: string, attrs: seq<Attr>, end: string,
                       inner: Doc, gap: string, behind: string)
    requires locale != ENGLISH && '<' !in before
    requires Word(name) && ProperAttrs(attrs) && ProperEnd(end) && Guards(Lower(name))
    requires Within(inner, name) && Gap(gap)
    ensures var open, last := OpenTag(name, attrs, end), CloseTag(name, gap);
            Translated(catalog, before + open + (Flatten(inner) + last + behind), locale)
            == before + open + (Flatten(inner) + last + Translated(catalog, behind, locale))
  {
    hide Lex, Swap, Flatten, Complete, Attributes, AttributeOf, TagNameOf, Lower, Gap, ProperEnd, Within, MarkedKey;
    hide OpenTag, CloseTag, Translated;
    var open, more := OpenTag(name, attrs, end), Flatten(inner) + CloseTag(name, gap) + behind;
    TagIsRead(name, attrs, end, MARKER);
    OpenIsComplete(name, attrs, end);
    LowerNotEmpty(name);
    PieceIsRead(before, open, more);
    EmitPiece(catalog, Piece(before, open, Lex(more)), locale, "");
    GuardedStays(catalog, locale, inner, name, gap, behind);
    TranslatedText(catalog, before + open + more, locale);
    TranslatedText(catalog, behind, locale);
  }

  // ----- escaping -----

  /** A browser's reading of the five entities. */
  function Decoded(s: string): string {
    if s == "" then ""
    else if "&amp;" <= s then "&" + Decoded(s[5..])
    else if "&lt;" <= s then "<" + Decoded(s[4..])
    else if "&gt;" <= s then ">" + Decoded(s[4..])
    else if "&#39;" <= s then "'" + Decoded(s[5..])
    else if "&#34;" <= s then "\"" + Decoded(s[5..])
    else [s[0]] + Decoded(s[1..])
  }

  lemma EntityDecoded(c: char, tail: string)
    ensures Decoded(EscapeChar(c) + tail) == [c] + Decoded(tail)
  {
    var head := EscapeChar(c);
    var s := head + tail;
    assert s[|head|..] == tail && s[..|head|] == head && head <= s;
    if |head| == 1 {
      assert s[0] == c != '&';
    } else {
      assert s[1] == head[1] && s[2] == head[2] && (|head| == 5 ==> s[3] == head[3]);
    }
  }

  lemma EntityHasNoMarks(c: char)
    ensures forall k :: 0 <= k < |EscapeChar(c)| ==> EscapeChar(c)[k] !in "<>'\""
  {
  }

  /** A translated text adds no markup and is read back as it was. */
  lemma {:induction false} EscapeRoundTrip(s: string)
    ensures Decoded(Escape(s)) == s
    ensures forall k :: 0 <= k < |Escape(s)| ==> Escape(s)[k] !in "<>'\""
  {
    hide EscapeChar, Decoded;
    if s == "" {
      NothingDecoded();
    } else {
      EscapeRoundTrip(s[1..]);
      EntityDecoded(s[0], Escape(s[1..]));
      EntityHasNoMarks(s[0]);
      assert s == [s[0]] + s[1..];
    }
  }

  lemma NothingDecoded()
    ensures Decoded("") == ""
  {
  }
}
