/** Translation of explicitly marked leaf elements in rendered HTML.

    The translator works on the bytes of a page in one pass. Its specification reads the page as a list
    of texts and tags, swaps the texts of marked leaves and writes the list back. */
module Localize {
  import opened Faults
  import opened Letters
  import opened Text

  type Locale = string
  const ENGLISH: Locale := "en"
  const MARKER := "data-i18n"

  /** The translations of each locale; the English ones decide which keys are known. */
  type Catalog = map<Locale, map<string, string>>

  /** A page: text, tag, text, tag, ..., and what is left when no complete tag follows. */
  datatype Doc = Tail(rest: string) | Piece(text: string, tag: string, next: Doc)

  // ----- tags -----

  predicate Digit(c: char) { '0' <= c <= '9' }
  predicate LetterOrDigit(c: char) { Letter(c) || Digit(c) }
  predicate TagSpace(c: char) { Blank(c) || c == '\r' || c == '\n' }
  predicate NameChar(c: char) { LetterOrDigit(c) || c == '-' || c == '_' }

  function Lower(s: string): string {
    if s == "" then "" else [LowerChar(s[0])] + Lower(s[1..])
  }

  /** The quote we are in after c; inside a quote only the same quote counts. */
  function NextQuote(quote: Option<char>, c: char): Option<char> {
    if quote.Some? then (if c == quote.value then None else quote)
    else if c == '\'' || c == '"' then Some(c) else None
  }

  /** Length of s up to and including the first `>` outside quotes. */
  function Scan(s: string, quote: Option<char>): (n: Option<nat>)
    ensures n.Some? ==> 0 < n.value <= |s| && s[n.value - 1] == '>'
  {
    if s == "" then None
    else if quote.None? && s[0] == '>' then Some(1)
    else
      var rest := Scan(s[1..], NextQuote(quote, s[0]));
      if rest.None? then None else Some(rest.value + 1)
  }

  function NameEnd(tag: string, start: nat): nat
    requires start <= |tag|
  {
    if start < |tag| && Letter(tag[start]) then Skip(tag, start + 1, LetterOrDigit) else start
  }

  function TagNameOf(tag: string): (string, bool) {
    if |tag| < 3 || tag[0] != '<' || tag[1] == '!' || tag[1] == '?' then ("", false)
    else
      var closing := tag[1] == '/';
      var start := if closing then 2 else 1;
      (Lower(tag[start..NameEnd(tag, start)]), closing)
  }

  datatype Reading = Found(value: string) | Absent | ContinueAt(index: nat)

  /** Reads one attribute at index. */
  function ReadAttribute(tag: string, index: nat, wanted: string): (r: Reading)
    requires index < |tag|
    ensures r.ContinueAt? ==> index < r.index <= |tag|
  {
    var start := Skip(tag, index, TagSpace);
    var nameEnd := Skip(tag, start, NameChar);
    var eq := Skip(tag, nameEnd, TagSpace);
    if eq >= |tag| then Absent
    else if tag[eq] != '=' then ContinueAt(eq + 1)
    else
      var open := Skip(tag, eq + 1, Blank);
      if open >= |tag| || (tag[open] != '\'' && tag[open] != '"') then ContinueAt(open)
      else
        var quote := tag[open];
        var close := Skip(tag, open + 1, (c: char) => c != quote);
        if close >= |tag| then Absent
        else if Lower(tag[start..nameEnd]) == wanted then Found(tag[open + 1..close])
        else ContinueAt(close + 1)
  }

  /** Reads attributes from index on until the wanted one. */
  function AttributeFrom(tag: string, index: nat, wanted: string): Option<string>
    requires index <= |tag|
    decreases |tag| - index
  {
    if index >= |tag| then None
    else
      match ReadAttribute(tag, index, wanted)
      case Found(value) => Some(value)
      case Absent => None
      case ContinueAt(next) => AttributeFrom(tag, next, wanted)
  }

  function AttributeOf(tag: string, wanted: string): Option<string> {
    if |tag| == 0 then None
    else
      var index := if 1 < |tag| && tag[1] == '/' then 2 else 1;
      AttributeFrom(tag, Skip(tag, index, LetterOrDigit), wanted)
  }

  predicate IsProtected(name: string) {
    name == "script" || name == "style" || name == "textarea" || name == "pre" || name == "code"
  }

  // ----- translation -----

  function T(catalog: Catalog, locale: Locale, key: string): string {
    if ENGLISH !in catalog || key !in catalog[ENGLISH] then key
    else if locale in catalog && key in catalog[locale] && catalog[locale][key] != "" then catalog[locale][key]
    else catalog[ENGLISH][key]
  }

  predicate Known(catalog: Catalog, key: string) {
    ENGLISH in catalog && key in catalog[ENGLISH]
  }

  function EscapeChar(c: char): string {
    if c == '&' then "&amp;" else if c == '<' then "&lt;" else if c == '>' then "&gt;"
    else if c == '\'' then "&#39;" else if c == '"' then "&#34;" else [c]
  }

  function Escape(s: string): string {
    if s == "" then "" else EscapeChar(s[0]) + Escape(s[1..])
  }

  /** The key of an opening tag that asks for translation. */
  function MarkedKey(catalog: Catalog, tag: string): Option<string> {
    var (name, closing) := TagNameOf(tag);
    var key := AttributeOf(tag, MARKER);
    if !closing && name != "" && key.Some? && Known(catalog, key.value) then key else None
  }

  predicate Closes(tag: string, close: string) {
    TagNameOf(close) == (TagNameOf(tag).0, true)
  }

  /** The protected element we are in after a tag; "" is none. */
  function RegionAfter(region: string, tag: string): string {
    var (name, closing) := TagNameOf(tag);
    if region != "" then (if closing && name == region then "" else region)
    else if !closing && IsProtected(name) then name else ""
  }

  predicate Leaf(catalog: Catalog, region: string, tag: string, next: Doc) {
    region == "" && RegionAfter("", tag) == "" && MarkedKey(catalog, tag).Some? && next.Piece? && Closes(tag, next.tag)
  }

  function Swap(catalog: Catalog, d: Doc, locale: Locale, region: string): Doc {
    match d
    case Tail(_) => d
    case Piece(text, tag, next) =>
      if Leaf(catalog, region, tag, next) then
        Piece(text, tag,
              Piece(Escape(T(catalog, locale, MarkedKey(catalog, tag).value)), next.tag,
                    Swap(catalog, next.next, locale, "")))
      else
        Piece(text, tag, Swap(catalog, next, locale, RegionAfter(region, tag)))
  }

  // ----- reading and writing pages -----

  function Index(s: string, c: char): (r: Option<nat>)
    ensures r.None? <==> c !in s
    ensures r.Some? ==> r.value < |s| && s[r.value] == c && c !in s[..r.value]
  {
    if s == "" then None
    else if s[0] == c then Some(0)
    else
      var r := Index(s[1..], c);
      if r.None? then None
      else
        assert s[..r.value + 1] == [s[0]] + s[1..][..r.value];
        Some(r.value + 1)
  }

  function Lex(x: string): Doc
    decreases |x|
  {
    var start := Index(x, '<');
    if start.None? then Tail(x)
    else
      var n := Scan(x[start.value + 1..], None);
      if n.None? then Tail(x)
      else
        var end := start.value + 1 + n.value;
        Piece(x[..start.value], x[start.value..end], Lex(x[end..]))
  }

  function Flatten(d: Doc): string {
    match d
    case Tail(rest) => rest
    case Piece(text, tag, next) => text + tag + Flatten(next)
  }

  predicate Unfinished(rest: string) {
    Index(rest, '<').None? || Scan(rest[Index(rest, '<').value + 1..], None).None?
  }

  /** Texts hold no tag and tags are complete. */
  predicate Proper(d: Doc) {
    match d
    case Tail(rest) => Unfinished(rest)
    case Piece(text, tag, next) =>
      '<' !in text && tag != "" && tag[0] == '<' && Scan(tag[1..], None) == Some(|tag| - 1) && Proper(next)
  }

  lemma {:induction false} ScanPrefix(s: string, y: string, quote: Option<char>)
    requires Scan(s, quote) == Some(|s|)
    ensures Scan(s + y, quote) == Some(|s|)
  {
    assert (s + y)[1..] == s[1..] + y && (s + y)[0] == s[0];
    if !(quote.None? && s[0] == '>') {
      ScanPrefix(s[1..], y, NextQuote(quote, s[0]));
    }
  }

  lemma {:induction false} ScanTake(s: string, quote: Option<char>)
    requires Scan(s, quote).Some?
    ensures Scan(s[..Scan(s, quote).value], quote) == Some(Scan(s, quote).value)
  {
    var n := Scan(s, quote).value;
    if !(quote.None? && s[0] == '>') {
      ScanTake(s[1..], NextQuote(quote, s[0]));
      assert s[..n][1..] == s[1..][..n - 1] && s[..n][0] == s[0];
    }
  }

  lemma {:induction false} IndexOfFirst(a: string, b: string, c: char)
    requires c !in a && b != "" && b[0] == c
    ensures Index(a + b, c) == Some(|a|)
  {
    if a == "" {
      assert a + b == b;
    } else {
      assert (a + b)[1..] == a[1..] + b;
      IndexOfFirst(a[1..], b, c);
    }
  }

  /** Reading a page and writing it back gives the page. */
  lemma {:induction false} FlattenLex(x: string)
    ensures Flatten(Lex(x)) == x && Proper(Lex(x))
    decreases |x|
  {
    hide Scan, Index;
    var start := Index(x, '<');
    if start.Some? && Scan(x[start.value + 1..], None).Some? {
      var s := start.value;
      var n := Scan(x[s + 1..], None).value;
      var end := s + 1 + n;
      FlattenLex(x[end..]);
      assert x == x[..s] + x[s..end] + x[end..];
      ScanTake(x[s + 1..], None);
      assert x[s..end][1..] == x[s + 1..][..n];
    }
  }

  /** How a page that starts with a text and a complete tag is read. */
  lemma LexPiece(text: string, tag: string, rest: string)
    requires '<' !in text && tag != "" && tag[0] == '<' && Scan(tag[1..], None) == Some(|tag| - 1)
    ensures Lex(text + tag + rest) == Piece(text, tag, Lex(rest))
  {
    hide Scan, Index;
    var x := text + tag + rest;
    assert x == text + (tag + rest);
    IndexOfFirst(text, tag + rest, '<');
    ScanPrefix(tag[1..], rest, None);
    assert x[|text| + 1..] == tag[1..] + rest;
    assert x[..|text|] == text && x[|text|..|text| + |tag|] == tag && x[|text| + |tag|..] == rest;
  }

  /** A proper list of texts and tags is what its page reads as. */
  lemma {:induction false} LexFlatten(d: Doc)
    requires Proper(d)
    ensures Lex(Flatten(d)) == d
  {
    hide Scan, Index;
    match d
    case Tail(_) =>
    case Piece(text, tag, next) =>
      hide Lex;
      LexPiece(text, tag, Flatten(next));
      LexFlatten(next);
  }

  lemma {:induction false} EscapedHasNoTag(s: string)
    ensures '<' !in Escape(s)
  {
    if s != "" { EscapedHasNoTag(s[1..]); }
  }

  lemma {:induction false} SwapKeepsProper(catalog: Catalog, d: Doc, locale: Locale, region: string)
    requires Proper(d)
    ensures Proper(Swap(catalog, d, locale, region))
  {
    match d
    case Tail(_) =>
    case Piece(text, tag, next) =>
      if Leaf(catalog, region, tag, next) {
        EscapedHasNoTag(T(catalog, locale, MarkedKey(catalog, tag).value));
        SwapKeepsProper(catalog, next.next, locale, "");
      } else {
        SwapKeepsProper(catalog, next, locale, RegionAfter(region, tag));
      }
  }

  /** Swapping does not change which element is a leaf. */
  lemma SwapKeepsHead(catalog: Catalog, d: Doc, locale: Locale, region: string)
    ensures var e := Swap(catalog, d, locale, region); e.Piece? == d.Piece? && (d.Piece? ==> e.tag == d.tag)
  {
  }

  lemma {:induction false} SwapTwice(catalog: Catalog, d: Doc, first: Locale, second: Locale, region: string)
    ensures Swap(catalog, Swap(catalog, d, first, region), second, region) == Swap(catalog, d, second, region)
  {
    match d
    case Tail(_) =>
    case Piece(text, tag, next) =>
      if Leaf(catalog, region, tag, next) {
        SwapTwice(catalog, next.next, first, second, "");
      } else {
        SwapTwice(catalog, next, first, second, RegionAfter(region, tag));
        SwapKeepsHead(catalog, next, first, RegionAfter(region, tag));
      }
  }

  function Translated(catalog: Catalog, input: string, locale: Locale): string {
    if locale == ENGLISH || input == "" then input else Flatten(Swap(catalog, Lex(input), locale, ""))
  }

  /** Translating a translated page gives what translating the original gives: the last locale wins. */
  lemma LastLocaleWins(catalog: Catalog, input: string, first: Locale, second: Locale)
    requires second != ENGLISH
    ensures Translated(catalog, Translated(catalog, input, first), second) == Translated(catalog, input, second)
  {
    if first != ENGLISH && input != "" {
      FlattenLex(input);
      var d := Swap(catalog, Lex(input), first, "");
      SwapKeepsProper(catalog, Lex(input), first, "");
      LexFlatten(d);
      SwapTwice(catalog, Lex(input), first, second, "");
      SwapKeepsHead(catalog, Lex(input), first, "");
      assert Lex("") == Tail("");
    }
  }

  // ----- what changes, position by position -----

  function Tags(d: Doc): seq<string> {
    match d case Tail(_) => [] case Piece(_, tag, next) => [tag] + Tags(next)
  }

  function Texts(d: Doc): (r: seq<string>)
    ensures |r| == |Tags(d)| + 1
  {
    match d case Tail(rest) => [rest] case Piece(text, _, next) => [text] + Texts(next)
  }

  /** The protected element in front of tag i, read off the tags alone. */
  function Region(tags: seq<string>, i: nat, start: string): string
    requires i <= |tags|
  {
    if i == 0 then start else Region(tags[1..], i - 1, RegionAfter(start, tags[0]))
  }

  /** Tag i opens a known marked element outside protected regions and the next tag closes it. */
  predicate LeafAt(catalog: Catalog, tags: seq<string>, i: nat, start: string) {
    && i + 1 < |tags| && Region(tags, i, start) == "" && RegionAfter("", tags[i]) == ""
    && MarkedKey(catalog, tags[i]).Some? && Closes(tags[i], tags[i + 1])
  }

  /** What text i becomes; text i stands in front of tag i. */
  function NewText(catalog: Catalog, d: Doc, locale: Locale, i: nat, start: string): string
    requires i < |Texts(d)|
  {
    if i > 0 && LeafAt(catalog, Tags(d), i - 1, start)
    then Escape(T(catalog, locale, MarkedKey(catalog, Tags(d)[i - 1]).value))
    else Texts(d)[i]
  }

  lemma ClosingTag(catalog: Catalog, tag: string)
    requires TagNameOf(tag).1
    ensures MarkedKey(catalog, tag).None? && RegionAfter("", tag) == ""
  {
  }

  lemma LeafHere(catalog: Catalog, d: Doc, start: string)
    requires d.Piece?
    ensures LeafAt(catalog, Tags(d), 0, start) <==> Leaf(catalog, start, d.tag, d.next)
  {
    if d.next.Piece? { assert Tags(d)[1] == d.next.tag; }
  }

  lemma LeafLater(catalog: Catalog, d: Doc, i: nat, start: string)
    requires d.Piece? && i > 0
    ensures LeafAt(catalog, Tags(d), i, start) <==> LeafAt(catalog, Tags(d.next), i - 1, RegionAfter(start, d.tag))
  {
    assert Tags(d)[1..] == Tags(d.next);
  }

  lemma {:induction false} SwapByPosition(catalog: Catalog, d: Doc, locale: Locale, start: string, i: nat)
    requires i < |Texts(d)|
    ensures Tags(Swap(catalog, d, locale, start)) == Tags(d)
    ensures Texts(Swap(catalog, d, locale, start))[i] == NewText(catalog, d, locale, i, start)
  {
    hide Escape, T, MarkedKey, TagNameOf, LeafAt, Region, RegionAfter;
    match d
    case Tail(_) =>
    case Piece(text, tag, next) =>
      LeafHere(catalog, d, start);
      if Leaf(catalog, start, tag, next) {
        ClosingTag(catalog, next.tag);
        LeafHere(catalog, next, "");
        if i > 1 {
          LeafLater(catalog, d, i - 1, start);
          if i > 2 { LeafLater(catalog, next, i - 2, ""); }
          SwapByPosition(catalog, next.next, locale, "", i - 2);
          if i == 2 { assert !LeafAt(catalog, Tags(next), 0, ""); }
        } else {
          SwapByPosition(catalog, next.next, locale, "", 0);
        }
      } else {
        var region := RegionAfter(start, tag);
        if i > 0 {
          if i > 1 { LeafLater(catalog, d, i - 1, start); }
          SwapByPosition(catalog, next, locale, region, i - 1);
        } else {
          SwapByPosition(catalog, next, locale, region, 0);
        }
      }
  }

  /** A translated page has the tags of the original, in order and byte for byte, and the texts of the
      original except inside known marked leaves outside protected elements. */
  lemma StructureKept(catalog: Catalog, input: string, locale: Locale)
    requires locale != ENGLISH
    ensures var d, e := Lex(input), Lex(Translated(catalog, input, locale));
            && Tags(e) == Tags(d)
            && forall i :: 0 <= i < |Texts(d)| ==> Texts(e)[i] == NewText(catalog, d, locale, i, "")
  {
    hide Escape, T, MarkedKey, TagNameOf, LeafAt, Lex, Swap, Flatten, NewText, Proper, Translated, Tags, Texts;
    var d := Lex(input);
    var e := Swap(catalog, d, locale, "");
    FlattenLex(input);
    SwapKeepsProper(catalog, d, locale, "");
    LexFlatten(e);
    TranslatedText(catalog, input, locale);
    SwapByPosition(catalog, d, locale, "", 0);
    forall i | 0 <= i < |Texts(d)| ensures Texts(e)[i] == NewText(catalog, d, locale, i, "") {
      SwapByPosition(catalog, d, locale, "", i);
    }
  }

  lemma TranslatedText(catalog: Catalog, input: string, locale: Locale)
    requires locale != ENGLISH
    ensures Translated(catalog, input, locale) == Flatten(Swap(catalog, Lex(input), locale, ""))
  {
    if input == "" { assert Lex(input) == Tail(""); }
  }

  // ----- the loops -----

  lemma ScanStep(input: string, start: nat, index: nat, quote: Option<char>)
    requires start <= index < |input|
    ensures Scan(input[index..], quote) ==
            if quote.None? && input[index] == '>' then Some(1)
            else
              var rest := Scan(input[index + 1..], NextQuote(quote, input[index]));
              if rest.None? then None else Some(rest.value + 1)
  {
    assert input[index..][1..] == input[index + 1..];
  }

  /** Index of the `>` that ends the tag at start, or -1. */
  method TagEnd(input: string, start: nat) returns (end: int)
    requires start < |input|
    ensures match Scan(input[start + 1..], None)
            case None => end == -1
            case Some(n) => end == start + n
  {
    var quote: Option<char> := None;
    var index := start + 1;
    ghost var whole := Scan(input[start + 1..], None);
    while index < |input|
      invariant start + 1 <= index <= |input|
      invariant Scan(input[index..], quote).None? <==> whole.None?
      invariant whole.Some? ==> whole.value == index - start - 1 + Scan(input[index..], quote).value
    {
      ScanStep(input, start, index, quote);
      if quote.Some? {
        if input[index] == quote.value { quote := None; }
      } else if input[index] == '\'' || input[index] == '"' {
        quote := Some(input[index]);
      } else if input[index] == '>' {
        return index;
      }
      index := index + 1;
    }
    return -1;
  }

  method SkipSpaces(tag: string, from: nat) returns (index: nat)
    requires from <= |tag|
    ensures index == Skip(tag, from, TagSpace)
  {
    index := from;
    while index < |tag| && (tag[index] == ' ' || tag[index] == '\t' || tag[index] == '\r' || tag[index] == '\n')
      invariant from <= index <= |tag| && Skip(tag, index, TagSpace) == Skip(tag, from, TagSpace)
    {
      index := index + 1;
    }
  }

  method SkipBlanks(tag: string, from: nat) returns (index: nat)
    requires from <= |tag|
    ensures index == Skip(tag, from, Blank)
  {
    index := from;
    while index < |tag| && (tag[index] == ' ' || tag[index] == '\t')
      invariant from <= index <= |tag| && Skip(tag, index, Blank) == Skip(tag, from, Blank)
    {
      index := index + 1;
    }
  }

  method SkipName(tag: string, from: nat) returns (index: nat)
    requires from <= |tag|
    ensures index == Skip(tag, from, NameChar)
  {
    index := from;
    while index < |tag| && NameChar(tag[index])
      invariant from <= index <= |tag| && Skip(tag, index, NameChar) == Skip(tag, from, NameChar)
    {
      index := index + 1;
    }
  }

  method SkipLettersOrDigits(tag: string, from: nat) returns (index: nat)
    requires from <= |tag|
    ensures index == Skip(tag, from, LetterOrDigit)
  {
    index := from;
    while index < |tag| && LetterOrDigit(tag[index])
      invariant from <= index <= |tag| && Skip(tag, index, LetterOrDigit) == Skip(tag, from, LetterOrDigit)
    {
      index := index + 1;
    }
  }

  method SkipQuoted(tag: string, from: nat, quote: char) returns (index: nat)
    requires from <= |tag|
    ensures index == Skip(tag, from, (c: char) => c != quote)
  {
    index := from;
    while index < |tag| && tag[index] != quote
      invariant from <= index <= |tag|
          && Skip(tag, index, (c: char) => c != quote) == Skip(tag, from, (c: char) => c != quote)
    {
      index := index + 1;
    }
  }

  method TagName(tag: string) returns (name: string, closing: bool)
    ensures (name, closing) == TagNameOf(tag)
  {
    if |tag| < 3 || tag[0] != '<' || tag[1] == '!' || tag[1] == '?' { return "", false; }
    var index := 1;
    closing := false;
    if tag[index] == '/' {
      closing := true;
      index := index + 1;
    }
    var start := index;
    while index < |tag| && (Letter(tag[index]) || (index > start && Digit(tag[index])))
      invariant start <= index <= |tag|
      invariant NameEnd(tag, start) == if index == start then NameEnd(tag, start) else Skip(tag, index, LetterOrDigit)
      invariant index > start ==> Letter(tag[start])
    {
      index := index + 1;
    }
    name := Lower(tag[start..index]);
  }

  method AttributeValue(tag: string, wanted: string) returns (value: Option<string>)
    requires |tag| > 0
    ensures value == AttributeOf(tag, wanted)
  {
    hide Skip, Lower, AttributeFrom;
    var index := 1;
    if index < |tag| && tag[index] == '/' { index := index + 1; }
    index := SkipLettersOrDigits(tag, index);
    while index < |tag|
      invariant index <= |tag| + 1
      invariant AttributeOf(tag, wanted) == if index <= |tag| then AttributeFrom(tag, index, wanted) else None
      decreases |tag| + 1 - index
    {
      OneAttribute(tag, index, wanted);
      var start := SkipSpaces(tag, index);
      var nameEnd := SkipName(tag, start);
      var name := Lower(tag[start..nameEnd]);
      index := SkipSpaces(tag, nameEnd);
      if index >= |tag| || tag[index] != '=' {
        index := index + 1;
        continue;
      }
      index := SkipBlanks(tag, index + 1);
      if index >= |tag| || (tag[index] != '\'' && tag[index] != '"') { continue; }
      var quote := tag[index];
      var valueStart := index + 1;
      index := SkipQuoted(tag, valueStart, quote);
      if name == wanted && index < |tag| { return Some(tag[valueStart..index]); }
      index := index + 1;
    }
    if index == |tag| { NoAttribute(tag, wanted); }
    return None;
  }

  lemma OneAttribute(tag: string, index: nat, wanted: string)
    requires index < |tag|
    ensures AttributeFrom(tag, index, wanted) ==
              match ReadAttribute(tag, index, wanted)
              case Found(value) => Some(value)
              case Absent => None
              case ContinueAt(next) => AttributeFrom(tag, next, wanted)
  {
    hide ReadAttribute;
  }

  lemma NoAttribute(tag: string, wanted: string)
    ensures AttributeFrom(tag, |tag|, wanted) == None
  {
  }

  method IndexByte(input: string, from: nat, c: char) returns (r: int)
    requires from <= |input|
    ensures match Index(input[from..], c)
            case None => r == -1
            case Some(n) => r == from + n
  {
    var i := from;
    ghost var whole := Index(input[from..], c);
    while i < |input|
      invariant from <= i <= |input|
      invariant Index(input[i..], c).None? <==> whole.None?
      invariant whole.Some? ==> whole.value == i - from + Index(input[i..], c).value
    {
      if input[i] == c { return i; }
      assert input[i..][1..] == input[i + 1..];
      i := i + 1;
    }
    return -1;
  }

  /** What is still to be written for the input from position at on. */
  function Remaining(catalog: Catalog, input: string, at: nat, locale: Locale, region: string): string
    requires at <= |input|
  {
    Flatten(Swap(catalog, Lex(input[at..]), locale, region))
  }

  /** The first text and tag of the input from at on. */
  lemma LexAt(input: string, at: nat, start: nat, end: nat)
    requires at <= start < end <= |input|
    requires Index(input[at..], '<') == Some(start - at)
    requires Scan(input[start + 1..], None) == Some(end - start - 1)
    ensures Lex(input[at..]) == Piece(input[at..start], input[start..end], Lex(input[end..]))
  {
    hide Scan, Index, Lex;
    var x := input[at..];
    var text, tag, rest := input[at..start], input[start..end], input[end..];
    assert x[..start - at] == text;
    assert x == text + tag + rest;
    ScanTake(input[start + 1..], None);
    assert tag[1..] == input[start + 1..][..end - start - 1];
    LexPiece(text, tag, rest);
  }

  lemma LexNoTag(input: string, at: nat)
    requires at <= |input|
    requires Index(input[at..], '<').None? || Scan(input[at + Index(input[at..], '<').value + 1..], None).None?
    ensures Lex(input[at..]) == Tail(input[at..])
  {
    hide Scan, Index;
    if Index(input[at..], '<').Some? {
      var s := Index(input[at..], '<').value;
      assert input[at..][s + 1..] == input[at + s + 1..];
    }
  }

  /** Looks for the closing tag of a marked element behind its opening tag; end is past the opening
      tag. Returns where the text ends and where the closing tag ends, or found false. */
  method FindLeaf(input: string, end: nat, name: string) returns (found: bool, contentEnd: nat, closeEnd: nat)
    requires end <= |input|
    ensures found <==> Lex(input[end..]).Piece? && TagNameOf(Lex(input[end..]).tag) == (name, true)
    ensures found ==> end <= contentEnd < closeEnd <= |input|
                      && Lex(input[end..])
                          == Piece(input[end..contentEnd], input[contentEnd..closeEnd], Lex(input[closeEnd..]))
  {
    hide Scan, Index, Lex, TagNameOf;
    found, contentEnd, closeEnd := false, 0, 0;
    var content := IndexByte(input, end, '<');
    if content < 0 {
      LexNoTag(input, end);
      return;
    }
    var close := TagEnd(input, content);
    if close < 0 {
      LexNoTag(input, end);
      return;
    }
    LexAt(input, end, content, close + 1);
    var closeName, closing := TagName(input[content..close + 1]);
    if closing && closeName == name {
      found, contentEnd, closeEnd := true, content, close + 1;
    }
  }

  lemma EmitPiece(catalog: Catalog, d: Doc, locale: Locale, region: string)
    requires d.Piece? && !Leaf(catalog, region, d.tag, d.next)
    ensures Flatten(Swap(catalog, d, locale, region))
         == d.text + d.tag + Flatten(Swap(catalog, d.next, locale, RegionAfter(region, d.tag)))
  {
    hide Leaf, RegionAfter;
  }

  lemma EmitLeaf(catalog: Catalog, d: Doc, locale: Locale, region: string)
    requires d.Piece? && Leaf(catalog, region, d.tag, d.next)
    ensures Flatten(Swap(catalog, d, locale, region))
         == d.text + d.tag + Escape(T(catalog, locale, MarkedKey(catalog, d.tag).value)) + d.next.tag
            + Flatten(Swap(catalog, d.next.next, locale, ""))
  {
    hide RegionAfter, MarkedKey, T, Escape, Closes;
    var e := Swap(catalog, d, locale, region);
    assert e.next.next == Swap(catalog, d.next.next, locale, "");
  }

  lemma LastText(catalog: Catalog, rest: string, locale: Locale, region: string)
    ensures Flatten(Swap(catalog, Tail(rest), locale, region)) == rest
  {
  }

  /** Handles the text at..start and the tag start..end; a leaf is handled up to its closing tag. */
  method TranslatePiece(catalog: Catalog, input: string, at: nat, start: nat, end: nat, locale: Locale, region: string)
    returns (written: string, after: nat, newRegion: string)
    requires at <= start < end <= |input|
    requires Lex(input[at..]) == Piece(input[at..start], input[start..end], Lex(input[end..]))
    ensures at < after <= |input|
    ensures Remaining(catalog, input, at, locale, region)
        == written + Remaining(catalog, input, after, locale, newRegion)
  {
    hide Scan, Index, Lex, Swap, Flatten, TagNameOf, AttributeOf, Escape, T, IsProtected;
    ghost var d := Lex(input[at..]);
    var tag := input[start..end];
    var name, closing := TagName(tag);
    if region != "" {
      EmitPiece(catalog, d, locale, region);
      return input[at..start] + tag, end, if closing && name == region then "" else region;
    }
    if !closing && IsProtected(name) {
      EmitPiece(catalog, d, locale, region);
      return input[at..start] + tag, end, name;
    }
    var key := AttributeValue(tag, MARKER);
    if !closing && key.Some? && name != "" && Known(catalog, key.value) {
      var found, contentEnd, closeEnd := FindLeaf(input, end, name);
      if found {
        EmitLeaf(catalog, d, locale, region);
        return input[at..start] + tag + Escape(T(catalog, locale, key.value)) + input[contentEnd..closeEnd],
            closeEnd, "";
      }
    }
    EmitPiece(catalog, d, locale, region);
    return input[at..start] + tag, end, "";
  }

  method TranslateHTML(catalog: Catalog, input: string, locale: Locale) returns (output: string)
    ensures output == Translated(catalog, input, locale)
  {
    hide Scan, Index, Lex, Swap, Flatten, Remaining, Translated;
    Untranslated(catalog, input, locale);
    if locale == ENGLISH || input == "" { return input; }
    output := "";
    var region := "";
    var at := 0;
    AllRemains(catalog, input, locale);
    while at < |input|
      invariant at <= |input|
      invariant Translated(catalog, input, locale) == output + Remaining(catalog, input, at, locale, region)
    {
      var start := IndexByte(input, at, '<');
      var tagEnd := -1;
      if start >= 0 { tagEnd := TagEnd(input, start); }
      if start < 0 || tagEnd < 0 {
        NothingLeft(catalog, input, at, locale, region);
        return output + input[at..];
      }
      LexAt(input, at, start, tagEnd + 1);
      var written, after, newRegion := TranslatePiece(catalog, input, at, start, tagEnd + 1, locale, region);
      Associate(output, written, Remaining(catalog, input, after, locale, newRegion));
      output, at, region := output + written, after, newRegion;
    }
    NothingLeft(catalog, input, at, locale, region);
    assert output + input[at..] == output;
  }

  lemma Untranslated(catalog: Catalog, input: string, locale: Locale)
    ensures locale == ENGLISH || input == "" ==> Translated(catalog, input, locale) == input
  {
  }

  lemma AllRemains(catalog: Catalog, input: string, locale: Locale)
    requires locale != ENGLISH && input != ""
    ensures Translated(catalog, input, locale) == "" + Remaining(catalog, input, 0, locale, "")
  {
    hide Lex, Swap, Flatten;
    assert input[0..] == input;
  }

  /** Behind the last complete tag the input is copied. */
  lemma NothingLeft(catalog: Catalog, input: string, at: nat, locale: Locale, region: string)
    requires at <= |input|
    requires Index(input[at..], '<').None? || Scan(input[at + Index(input[at..], '<').value + 1..], None).None?
    ensures Remaining(catalog, input, at, locale, region) == input[at..]
  {
    hide Scan, Index, Lex, Swap, Flatten;
    LexNoTag(input, at);
    LastText(catalog, input[at..], locale, region);
  }
}
