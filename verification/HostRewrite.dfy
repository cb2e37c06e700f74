/** The hostname rewrite that a WordPress domain change replays over every database cell.

    The source hands one regular expression to WP-CLI: `https?://WAS(?=[:/?#]|$)` with WAS quoted
    literally, replaced by `http://NOW`. The expression has no look-behind, so what happens to a text
    depends only on the text from the current position on; the model therefore rewrites suffixes.
    `$` in PCRE also matches in front of one final line feed. */
module HostRewrite {
  predicate HostChar(c: char) {
    'a' <= c <= 'z' || '0' <= c <= '9' || c == '.' || c == '-'
  }

  /** A normalized host name, as far as the rewrite cares: lower case letters, digits, dots, hyphens. */
  predicate Hostname(d: string) {
    |d| > 0 && forall i :: 0 <= i < |d| ==> HostChar(d[i])
  }

  predicate EndsWith(s: string, tail: string) {
    |tail| <= |s| && s[|s| - |tail|..] == tail
  }

  /** The look-ahead `(?=[:/?#]|$)` at position n. */
  predicate Boundary(s: string, n: nat) {
    || n == |s|
    || (n < |s| && (s[n] == ':' || s[n] == '/' || s[n] == '?' || s[n] == '#' || (n + 1 == |s| && s[n] == '\n')))
  }

  predicate Scheme(scheme: string) {
    scheme == "http" || scheme == "https"
  }

  function Authority(scheme: string, host: string): string {
    scheme + "://" + host
  }

  predicate Starts(s: string, scheme: string, was: string) {
    Authority(scheme, was) <= s && Boundary(s, |Authority(scheme, was)|)
  }

  /** Length of the match at the start of s, or 0. */
  function MatchLength(s: string, was: string): nat {
    if Starts(s, "http", was) then |Authority("http", was)|
    else if Starts(s, "https", was) then |Authority("https", was)|
    else 0
  }

  /** One pass of the search-and-replace: leftmost matches, none overlapping. */
  function Rewrite(s: string, was: string, now: string): string {
    if s == "" then ""
    else
      var m := MatchLength(s, was);
      if m > 0 then Authority("http", now) + Rewrite(s[m..], was, now)
      else [s[0]] + Rewrite(s[1..], was, now)
  }

  /** A second pass leaves the result of the first alone. */
  predicate Settles(s: string, was: string, now: string) {
    var once := Rewrite(s, was, now);
    Rewrite(once, was, now) == once
  }

  /** The condition under which a second pass is harmless; it reads only the two names. */
  predicate SafePair(was: string, now: string) {
    !EndsWith(was, "http") && !EndsWith(now, "http") && !EndsWith(now, "https")
  }

  predicate NoMatchAt(s: string, i: nat, was: string) {
    i <= |s| ==> MatchLength(s[i..], was) == 0
  }

  /** A match, character by character. */
  lemma MatchShape(s: string, was: string)
    requires MatchLength(s, was) > 0
    ensures var m := MatchLength(s, was);
            && |was| + 7 <= m <= |s| && Boundary(s, m)
            && s[0] == 'h' && s[1] == s[2] == 't' && s[3] == 'p'
            && (m == 7 + |was| ==> s[4] == ':' && s[5] == s[6] == '/')
            && (m == 8 + |was| ==> s[4] == 's' && s[5] == ':' && s[6] == s[7] == '/')
            && (m == 7 + |was| || m == 8 + |was|)
            && forall i :: 0 <= i < |was| ==> s[m - |was| + i] == was[i]
  {
    var scheme := if Starts(s, "http", was) then "http" else "https";
    var a := Authority(scheme, was);
    assert forall i :: 0 <= i < |a| ==> s[i] == a[i];
    assert forall i :: 0 <= i < |was| ==> a[|scheme| + 3 + i] == was[i];
  }

  /** WAS at the head of an authority is a match and is replaced. */
  lemma Replaced(scheme: string, rest: string, was: string, now: string)
    requires Scheme(scheme) && Boundary(rest, 0)
    ensures MatchLength(Authority(scheme, was) + rest, was) == |Authority(scheme, was)|
    ensures Rewrite(Authority(scheme, was) + rest, was, now) == Authority("http", now) + Rewrite(rest, was, now)
  {
    var a := Authority(scheme, was);
    var s := a + rest;
    assert s[|a|..] == rest && Boundary(s, |a|) && Starts(s, scheme, was);
    assert scheme == "https" ==> s[4] == 's' && Authority("http", was)[4] == ':';
  }

  lemma Glue(s: string, k: nat, tail: string)
    requires 0 < k <= |s|
    ensures s[1..][k - 1..] == s[k..]
    ensures [s[0]] + (s[1..][..k - 1] + tail) == s[..k] + tail
  {
    assert [s[0]] + s[1..][..k - 1] == s[..k];
  }

  /** Text in front of the first match is copied. */
  lemma {:induction false} SkipUnmatched(s: string, k: nat, was: string, now: string)
    requires k <= |s|
    requires forall i :: 0 <= i < k ==> NoMatchAt(s, i, was)
    ensures Rewrite(s, was, now) == s[..k] + Rewrite(s[k..], was, now)
  {
    if k == 0 {
      assert s[0..] == s;
    } else {
      assert NoMatchAt(s, 0, was) && s[0..] == s;
      forall i | 0 <= i < k - 1 ensures NoMatchAt(s[1..], i, was) {
        assert NoMatchAt(s, i + 1, was) && s[1..][i..] == s[i + 1..];
      }
      SkipUnmatched(s[1..], k - 1, was, now);
      Glue(s, k, Rewrite(s[k..], was, now));
    }
  }

  lemma CopyHead(head: string, rest: string, was: string, now: string)
    requires forall i :: 0 <= i < |head| ==> NoMatchAt(head + rest, i, was)
    ensures Rewrite(head + rest, was, now) == head + Rewrite(rest, was, now)
  {
    SkipUnmatched(head + rest, |head|, was, now);
    assert (head + rest)[..|head|] == head && (head + rest)[|head|..] == rest;
  }

  lemma ConsSlices(c: char, s: string, k: nat)
    requires k <= |s|
    ensures ([c] + s)[..k + 1] == [c] + s[..k]
    ensures ([c] + s)[k + 1..] == s[k..]
  {
  }

  /** Where a pass first departs from its input: position j of a match, or the end of the text. */
  lemma {:induction false} FirstChange(s: string, was: string, now: string) returns (j: nat)
    ensures j <= |s| && j <= |Rewrite(s, was, now)|
    ensures Rewrite(s, was, now)[..j] == s[..j]
    ensures j == |s| ==> Rewrite(s, was, now) == s
    ensures j < |s| ==> !NoMatchAt(s, j, was) && Authority("http", now) <= Rewrite(s, was, now)[j..]
  {
    if s == "" {
      j := 0;
    } else if MatchLength(s, was) > 0 {
      j := 0;
      assert s[0..] == s;
    } else {
      var r := FirstChange(s[1..], was, now);
      j := r + 1;
      Glue(s, j, "");
      ConsSlices(s[0], Rewrite(s[1..], was, now), r);
      ConsSlices(s[0], s[1..], r);
      assert s == [s[0]] + s[1..];
    }
  }

  /** What follows a match keeps its first character, so it still ends the authority. */
  lemma BoundaryKept(s: string, was: string, now: string)
    requires Boundary(s, 0)
    ensures Boundary(Rewrite(s, was, now), 0)
    ensures s == "" <==> Rewrite(s, was, now) == ""
    ensures s != "" ==> Rewrite(s, was, now)[0] == s[0]
  {
    if s != "" {
      if MatchLength(s, was) > 0 { MatchShape(s, was); }
      if |s| == 1 { assert Rewrite(s[1..], was, now) == ""; }
    }
  }

  /** A host name in front of the end of an authority matches only as a whole. */
  lemma WholeName(scheme: string, host: string, rest: string, was: string)
    requires Scheme(scheme) && Hostname(host) && Hostname(was) && Boundary(rest, 0)
    requires MatchLength(Authority(scheme, host) + rest, was) > 0
    ensures host == was
  {
    var n := |scheme| + 3;
    var text := Authority(scheme, host) + rest;
    MatchShape(text, was);
    assert text[|scheme|] == ':';
    assert forall i :: 0 <= i < |host| ==> text[n + i] == host[i];
    assert rest != "" ==> text[n + |host|] == rest[0];
    assert MatchLength(text, was) == n + |was|;
  }

  /** The host name cannot lend its end to a URL that goes on behind it. */
  predicate Detached(host: string, rest: string) {
    "://" <= rest ==> !EndsWith(host, "http") && !EndsWith(host, "https")
  }

  /** A match that starts inside a host name needs the name to end in a scheme and the text to go on with it. */
  lemma SchemeAtEnd(host: string, rest: string, k: nat, was: string)
    requires Hostname(host) && Boundary(rest, 0) && k < |host|
    requires MatchLength((host + rest)[k..], was) > 0
    ensures !Detached(host, rest)
  {
    var t := host + rest;
    var u := t[k..];
    MatchShape(u, was);
    assert forall i :: 0 <= i < |u| ==> u[i] == t[k + i];
    assert forall i :: k <= i < |host| ==> u[i - k] == host[i];
    assert rest != "" ==> u[|host| - k] == rest[0];
    var colon := if u[4] == ':' then 4 else 5;
    assert |host| - k == colon;
    assert host[k..] == if colon == 4 then "http" else "https";
    assert forall i :: 0 <= i < 3 ==> u[colon + i] == rest[i];
    assert rest[..3] == "://";
  }

  /** Inside `scheme://host` only the very start can match, and only as a whole. */
  lemma MatchInAuthority(scheme: string, host: string, rest: string, k: nat, was: string)
    requires Scheme(scheme) && Hostname(host) && Hostname(was) && host != was && Boundary(rest, 0)
    requires Detached(host, rest)
    requires k < |Authority(scheme, host)|
    ensures NoMatchAt(Authority(scheme, host) + rest, k, was)
  {
    var n := |scheme| + 3;
    var text := Authority(scheme, host) + rest;
    var u := text[k..];
    if k == 0 {
      assert u == text;
      if MatchLength(u, was) > 0 { WholeName(scheme, host, rest, was); }
    } else if k < n {
      assert u[0] == (scheme + "://")[k] != 'h';
      if MatchLength(u, was) > 0 { MatchShape(u, was); }
    } else {
      assert u == (host + rest)[k - n..];
      if MatchLength(u, was) > 0 { SchemeAtEnd(host, rest, k - n, was); }
    }
  }

  lemma OtherHostCopied(scheme: string, host: string, rest: string, was: string, now: string)
    requires Scheme(scheme) && Hostname(host) && Hostname(was) && host != was && Boundary(rest, 0)
    requires Detached(host, rest)
    ensures Rewrite(Authority(scheme, host) + rest, was, now) == Authority(scheme, host) + Rewrite(rest, was, now)
  {
    forall k | 0 <= k < |Authority(scheme, host)| ensures NoMatchAt(Authority(scheme, host) + rest, k, was) {
      MatchInAuthority(scheme, host, rest, k, was);
    }
    CopyHead(Authority(scheme, host), rest, was, now);
  }

  /** `http:/` read at j, over a scheme of n characters, a name up to m and a boundary: j is m - 4. */
  lemma NameEnd(t: string, n: nat, m: nat, j: nat)
    requires n < m <= |t|
    requires (n == 7 && t[4] == ':' && t[5] == '/') || (n == 8 && t[4] == 's' && t[5] == ':')
    requires t[n - 1] == t[n - 2] == '/' && t[0] == 'h' && t[1] == t[2] == 't' && t[3] == 'p'
    requires forall i :: n <= i < m ==> HostChar(t[i])
    requires Boundary(t, m) && 0 < j <= m && j + 7 <= |t|
    requires t[j] == 'h' && t[j + 1] == t[j + 2] == 't' && t[j + 3] == 'p' && t[j + 4] == ':' && t[j + 5] == '/'
    ensures j + 4 == m && n <= j && t[m - 4..m] == "http"
  {
    assert n <= j;
    assert j + 4 >= m;
  }

  lemma TailAt(t: string, n: nat, m: nat, was: string)
    requires n + 4 <= m <= |t| && |was| == m - n
    requires forall i :: n <= i < m ==> t[i] == was[i - n]
    ensures was[|was| - 4..] == t[m - 4..m]
  {
    assert was == t[n..m];
  }

  /** A match that reaches across copied text into a freshly written `http://` ends the old name. */
  lemma MatchIntoReplacement(t: string, j: nat, was: string)
    requires MatchLength(t, was) > 0 && 0 < j <= MatchLength(t, was) && j + 7 <= |t|
    requires t[j] == 'h' && t[j + 1] == t[j + 2] == 't' && t[j + 3] == 'p' && t[j + 4] == ':' && t[j + 5] == '/'
    requires Hostname(was)
    ensures EndsWith(was, "http")
  {
    MatchShape(t, was);
    var m := MatchLength(t, was);
    var n := m - |was|;
    assert forall i :: n <= i < m ==> t[i] == was[i - n];
    NameEnd(t, n, m, j);
    TailAt(t, n, m, was);
  }

  /** Texts agreeing beyond a match have the same match. */
  lemma SamePrefixSameMatch(s: string, t: string, j: nat, was: string)
    requires MatchLength(t, was) > 0
    requires MatchLength(t, was) < j < |s| && j < |t| && s[..j] == t[..j]
    ensures MatchLength(s, was) > 0
  {
    var scheme := if Starts(t, "http", was) then "http" else "https";
    assert forall i :: 0 <= i < j ==> s[i] == s[..j][i] == t[..j][i] == t[i];
    assert Starts(s, scheme, was);
  }

  /** A copied character does not become the start of a match because of later replacements. */
  lemma NothingNewBefore(s: string, was: string, now: string)
    requires Hostname(was) && s != "" && MatchLength(s, was) == 0
    requires MatchLength([s[0]] + Rewrite(s[1..], was, now), was) > 0
    ensures EndsWith(was, "http")
  {
    var r := Rewrite(s[1..], was, now);
    var t := [s[0]] + r;
    var f := FirstChange(s[1..], was, now);
    ConsSlices(s[0], r, f);
    ConsSlices(s[0], s[1..], f);
    assert s == [s[0]] + s[1..];
    FreshMatch(s, t, f + 1, was, now);
  }

  lemma FreshMatch(s: string, t: string, j: nat, was: string, now: string)
    requires Hostname(was) && MatchLength(s, was) == 0 && MatchLength(t, was) > 0
    requires 0 < j <= |s| && j <= |t| && t[..j] == s[..j]
    requires j == |s| ==> t == s
    requires j < |s| ==> Authority("http", now) <= t[j..]
    ensures EndsWith(was, "http")
  {
    if j > MatchLength(t, was) {
      SamePrefixSameMatch(s, t, j, was);
    } else {
      assert forall i :: 0 <= i < 7 ==> t[j + i] == t[j..][i] == Authority("http", now)[i];
      MatchIntoReplacement(t, j, was);
    }
  }

  lemma {:induction false} SafePassIsFinal(s: string, was: string, now: string)
    requires Hostname(was) && Hostname(now) && was != now && SafePair(was, now)
    ensures Settles(s, was, now)
    decreases |s|
  {
    if s == "" {
    } else if MatchLength(s, was) > 0 {
      var m := MatchLength(s, was);
      MatchShape(s, was);
      SafePassIsFinal(s[m..], was, now);
      BoundaryKept(s[m..], was, now);
      OtherHostCopied("http", now, Rewrite(s[m..], was, now), was, now);
    } else {
      SafePassIsFinal(s[1..], was, now);
      var rest := Rewrite(s[1..], was, now);
      if MatchLength([s[0]] + rest, was) > 0 { NothingNewBefore(s, was, now); }
      assert ([s[0]] + rest)[1..] == rest;
    }
  }

  /** `http://NOW` in front of what it is followed by is never the text it replaced. */
  lemma MatchIsReplaced(s: string, was: string, now: string)
    requires Hostname(was) && Hostname(now) && MatchLength(s, was) > 0
    requires Rewrite(s, was, now) == s
    ensures was == now
  {
    MatchShape(s, was);
    var m := MatchLength(s, was);
    BoundaryKept(s[m..], was, now);
    WholeName("http", now, Rewrite(s[m..], was, now), was);
  }

  /** A pass changes every text that holds a match. */
  lemma {:induction false} MatchIsChanged(s: string, k: nat, was: string, now: string)
    requires Hostname(was) && Hostname(now) && was != now
    requires k <= |s| && !NoMatchAt(s, k, was)
    ensures Rewrite(s, was, now) != s
    decreases |s|
  {
    assert s[0..] == s;
    if MatchLength(s, was) > 0 {
      if Rewrite(s, was, now) == s { MatchIsReplaced(s, was, now); }
    } else {
      assert s[1..][k - 1..] == s[k..];
      MatchIsChanged(s[1..], k - 1, was, now);
      assert Rewrite(s, was, now)[1..] == Rewrite(s[1..], was, now);
    }
  }

  /** Texts with few colons have few places for a match. */
  lemma NoColonNoMatch(s: string, k: nat, was: string)
    requires |was| > 0 && k <= |s|
    requires k + 4 < |s| ==> s[k + 4] != ':'
    requires k + 5 < |s| ==> s[k + 5] != ':'
    ensures NoMatchAt(s, k, was)
  {
    if MatchLength(s[k..], was) > 0 { MatchShape(s[k..], was); }
  }

  /** A name without a scheme in front is no match. */
  lemma SchemelessKept(host: string, was: string, now: string)
    requires Hostname(host) && |was| > 0
    ensures Rewrite("://" + host, was, now) == "://" + host
  {
    var rest := "://" + host;
    assert rest + "" == rest;
    assert forall i :: 0 < i < |rest| ==> rest[i] == (if i < 3 then '/' else host[i - 3]);
    forall i | 0 <= i < |rest| ensures NoMatchAt(rest + "", i, was) {
      NoColonNoMatch(rest, i, was);
    }
    CopyHead(rest, "", was, now);
  }

  /** `http://NOW://WAS` holds a match when NOW ends in a scheme name. */
  lemma SchemeFromName(was: string, now: string, scheme: string)
    requires Hostname(was) && Hostname(now) && was != now
    requires Scheme(scheme) && EndsWith(now, scheme)
    ensures Rewrite(Authority("http", now) + ("://" + was), was, now) != Authority("http", now) + ("://" + was)
  {
    var p := Authority("http", now);
    var once := p + ("://" + was);
    var k := |p| - |scheme|;
    assert p[k..] == now[|now| - |scheme|..];
    assert once[k..] == p[k..] + ("://" + was);
    assert once[k..] == Authority(scheme, was) + "";
    Replaced(scheme, "", was, now);
    MatchIsChanged(once, k, was, now);
  }

  /** NOW ends in a scheme name: the replacement and a following `://WAS` make a fresh match. */
  lemma UnsafeNewName(was: string, now: string, scheme: string) returns (text: string)
    requires Hostname(was) && Hostname(now) && was != now
    requires Scheme(scheme) && EndsWith(now, scheme)
    ensures !Settles(text, was, now)
  {
    text := Authority("http", was) + ("://" + was);
    SchemelessKept(was, was, now);
    Replaced("http", "://" + was, was, now);
    SchemeFromName(was, now, scheme);
  }

  lemma OneColon(scheme: string, host: string)
    requires Scheme(scheme) && (host == "" || Hostname(host))
    ensures forall i :: 0 <= i < |Authority(scheme, host)| ==> (Authority(scheme, host)[i] == ':' <==> i == |scheme|)
  {
    var a := Authority(scheme, host);
    assert forall i :: |scheme| + 3 <= i < |a| ==> a[i] == host[i - |scheme| - 3];
  }

  /** `http://PRE` in front of `https://WAS` holds no match although WAS is PRE followed by "http". */
  lemma RefusedName(pre: string, was: string, now: string)
    requires Hostname(was) && was == pre + "http"
    ensures Rewrite(Authority("http", pre) + Authority("https", was), was, now)
         == Authority("http", pre) + Rewrite(Authority("https", was), was, now)
  {
    var head, tail := Authority("http", pre), Authority("https", was);
    var text := head + tail;
    assert forall i :: 0 <= i < |pre| ==> pre[i] == was[i];
    OneColon("http", pre);
    OneColon("https", was);
    forall i | 0 <= i < |head| ensures NoMatchAt(text, i, was) {
      if i == 0 {
        assert text[0..] == text && text[7 + |was|] == tail[4] == 's';
        if MatchLength(text, was) > 0 { MatchShape(text, was); }
      } else {
        NoColonNoMatch(text, i, was);
      }
    }
    CopyHead(head, tail, was, now);
  }

  /** WAS ends in "http": a rewritten neighbour completes a name that the first pass had to refuse. */
  lemma UnsafeOldName(was: string, now: string) returns (text: string)
    requires Hostname(was) && Hostname(now) && was != now && EndsWith(was, "http")
    ensures !Settles(text, was, now)
  {
    var pre := was[..|was| - 4];
    assert was == pre + "http";
    text := Authority("http", pre) + Authority("https", was);
    RefusedName(pre, was, now);
    assert Authority("https", was) + "" == Authority("https", was);
    Replaced("https", "", was, now);
    var once := Authority("http", pre) + (Authority("http", now) + "");
    assert Rewrite(text, was, now) == once;
    assert once == Authority("http", was) + ("://" + now);
    Replaced("http", "://" + now, was, now);
    assert once[0..] == once;
    MatchIsChanged(once, 0, was, now);
  }

  /** Replaying the search-and-replace is harmless on every text exactly for safe pairs of names. */
  lemma SecondPassHarmless(was: string, now: string)
    requires Hostname(was) && Hostname(now) && was != now
    ensures (forall s :: Settles(s, was, now)) <==> SafePair(was, now)
  {
    if SafePair(was, now) {
      forall s ensures Settles(s, was, now) {
        SafePassIsFinal(s, was, now);
      }
    } else if EndsWith(was, "http") {
      var _ := UnsafeOldName(was, now);
    } else {
      var _ := UnsafeNewName(was, now, if EndsWith(now, "http") then "http" else "https");
    }
  }

  /** A name that goes on with something that ends no authority does not match, whatever it is. */
  lemma OddEndStart(scheme: string, host: string, rest: string, was: string)
    requires Scheme(scheme) && Hostname(host) && Hostname(was)
    requires rest != "" && !HostChar(rest[0]) && !Boundary(rest, 0)
    ensures MatchLength(Authority(scheme, host) + rest, was) == 0
  {
    var n, text := |scheme| + 3, Authority(scheme, host) + rest;
    assert text[|scheme|] == ':' && text[n + |host|] == rest[0];
    assert forall i :: 0 <= i < |host| ==> text[n + i] == host[i];
    assert |was| > |host| ==> HostChar(was[|host|]);
    if MatchLength(text, was) > 0 { MatchShape(text, was); }
  }

  lemma OddEndInside(host: string, rest: string, k: nat, was: string)
    requires Hostname(host) && k < |host| && rest != "" && !HostChar(rest[0]) && rest[0] != ':'
    ensures MatchLength((host + rest)[k..], was) == 0
  {
    var u := (host + rest)[k..];
    assert forall i :: k <= i < |host| ==> u[i - k] == host[i];
    assert u[|host| - k] == rest[0];
    if MatchLength(u, was) > 0 { MatchShape(u, was); }
  }

  lemma OddEndKept(scheme: string, host: string, rest: string, was: string, now: string)
    requires Scheme(scheme) && Hostname(host) && Hostname(was)
    requires rest != "" && !HostChar(rest[0]) && !Boundary(rest, 0)
    ensures Rewrite(Authority(scheme, host) + rest, was, now) == Authority(scheme, host) + Rewrite(rest, was, now)
  {
    var n, text := |scheme| + 3, Authority(scheme, host) + rest;
    forall k | 0 <= k < n + |host| ensures NoMatchAt(text, k, was) {
      if k == 0 {
        assert text[0..] == text;
        OddEndStart(scheme, host, rest, was);
      } else if k < n {
        assert text[k..][0] == (scheme + "://")[k] != 'h';
        if MatchLength(text[k..], was) > 0 { MatchShape(text[k..], was); }
      } else {
        assert text[k..] == (host + rest)[k - n..];
        OddEndInside(host, rest, k - n, was);
      }
    }
    CopyHead(Authority(scheme, host), rest, was, now);
  }

  /** The end of the authority (RFC 3986, section 3.2) decides: in `scheme://host` the whole host is replaced when it
      is WAS itself and a port, a path, a query, a fragment or nothing follows, and kept in every other case, longer
      names such as WAS.au included; only a name ending in a scheme in front of another `://` is no authority of
      its own. */
  lemma AuthorityRespected(scheme: string, host: string, rest: string, was: string, now: string)
    requires scheme == "http" || scheme == "https"
    requires Hostname(host) && Hostname(was) && (rest == "" || !HostChar(rest[0]))
    requires host == was || ("://" <= rest ==> !EndsWith(host, "http") && !EndsWith(host, "https"))
    ensures Rewrite(scheme + "://" + host + rest, was, now)
         == (if host == was && (rest == "" || rest[0] in ":/?#" || rest == "\n") then "http://" + now
             else scheme + "://" + host)
            + Rewrite(rest, was, now)
  {
    if rest != "" && rest[0] !in ":/?#" && rest != "\n" {
      OddEndKept(scheme, host, rest, was, now);
    } else if host == was {
      Replaced(scheme, rest, was, now);
      assert Authority("http", now) == "http://" + now;
    } else {
      OtherHostCopied(scheme, host, rest, was, now);
    }
  }

  /** What stands in front of an address is kept. */
  lemma LeadingTextKept(lead: string, scheme: string, more: string, was: string, now: string)
    requires ':' !in lead && (scheme == "http" || scheme == "https")
    ensures Rewrite(lead + (scheme + "://" + more), was, now) == lead + Rewrite(scheme + "://" + more, was, now)
  {
    var a := scheme + "://" + more;
    var text := lead + a;
    forall k | 0 <= k < |lead| ensures NoMatchAt(text, k, was) {
      var u := text[k..];
      assert forall i :: 0 <= i < |lead| - k ==> u[i] == lead[k + i];
      assert forall i :: 0 <= i < |a| ==> u[|lead| - k + i] == a[i];
      assert forall i :: 0 <= i < |scheme| ==> a[i] == scheme[i];
      if MatchLength(u, was) > 0 { MatchShape(u, was); }
    }
    CopyHead(lead, a, was, now);
  }
}
