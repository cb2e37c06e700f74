/** What the broker checks about the paths of one request, and what that means for the tree: the texts
    it lets through are lists of plain names, none of them inside another. */
module FilePaths {
  import opened FileTrees

  const MAX_SELECTIONS := 100

  function Split(s: string): (r: seq<string>)
    ensures |r| > 0
  {
    if s == "" then [""]
    else if s[0] == '/' then [""] + Split(s[1..])
    else
      var rest := Split(s[1..]);
      [[s[0]] + rest[0]] + rest[1..]
  }

  function Join(cs: seq<string>): string {
    if cs == [] then "" else if |cs| == 1 then cs[0] else cs[0] + "/" + Join(cs[1..])
  }

  /** The lexical cleaning of a relative path: `.` and empty names vanish, `..` takes a name back. */
  function Reduce(cs: seq<string>, out: seq<string>): seq<string> {
    if cs == [] then out
    else if cs[0] == "" || cs[0] == "." then Reduce(cs[1..], out)
    else if cs[0] == ".." && out != [] && out[|out| - 1] != ".." then Reduce(cs[1..], out[..|out| - 1])
    else Reduce(cs[1..], out + [cs[0]])
  }

  function Clean(path: string): string {
    var r := Reduce(Split(path), []);
    if r == [] then "." else Join(r)
  }

  predicate ValidBrokerFilePath(path: string, allowRoot: bool) {
    if path == "" then allowRoot
    else if '\0' in path || '\\' in path || path[0] == '/' then false
    else
      var clean := Clean(path);
      if clean == "." then allowRoot
      else clean == path && clean != ".." && !("../" <= clean)
  }

  predicate PlainName(c: string) {
    c != "" && c != "." && c != ".." && '/' !in c && '\0' !in c && '\\' !in c
  }

  predicate PlainNames(cs: seq<string>) {
    forall i :: 0 <= i < |cs| ==> PlainName(cs[i])
  }

  // ----- splitting and joining -----

  lemma {:induction false} SplitHasNoSlash(s: string)
    ensures forall i :: 0 <= i < |Split(s)| ==> '/' !in Split(s)[i]
  {
    if s != "" { SplitHasNoSlash(s[1..]); }
  }

  lemma {:induction false} JoinSplit(s: string)
    ensures Join(Split(s)) == s
  {
    if s != "" {
      JoinSplit(s[1..]);
      var rest := Split(s[1..]);
      var first := [s[0]] + rest[0];
      if s[0] == '/' {
        assert Split(s)[1..] == rest;
        assert "" + "/" + s[1..] == s;
      } else {
        assert Split(s) == [first] + rest[1..] && Split(s)[1..] == rest[1..];
        assert s == [s[0]] + s[1..];
        if |rest| > 1 { assert first + "/" + Join(rest[1..]) == [s[0]] + (rest[0] + "/" + Join(rest[1..])); }
      }
    }
  }

  lemma {:induction false} SplitOfSlash(a: string, b: string)
    ensures Split(a + "/" + b) == Split(a) + Split(b)
  {
    var s := a + "/" + b;
    if a == "" {
      assert s[1..] == b;
    } else {
      assert s[1..] == a[1..] + "/" + b;
      SplitOfSlash(a[1..], b);
    }
  }

  lemma {:induction false} SplitOfName(c: string)
    requires '/' !in c
    ensures Split(c) == [c]
  {
    if c != "" {
      SplitOfName(c[1..]);
      assert [c[0]] + c[1..] == c;
    }
  }

  lemma {:induction false} SplitJoin(cs: seq<string>)
    requires cs != [] && forall i :: 0 <= i < |cs| ==> '/' !in cs[i]
    ensures Split(Join(cs)) == cs
  {
    SplitOfName(cs[0]);
    if |cs| > 1 {
      SplitOfSlash(cs[0], Join(cs[1..]));
      SplitJoin(cs[1..]);
      assert [cs[0]] + cs[1..] == cs;
    } else {
      assert cs == [cs[0]];
    }
  }

  lemma {:induction false} JoinOfParts(a: seq<string>, b: seq<string>)
    requires a != [] && b != []
    ensures Join(a + b) == Join(a) + "/" + Join(b)
  {
    if |a| > 1 {
      assert (a + b)[1..] == a[1..] + b;
      JoinOfParts(a[1..], b);
    } else {
      assert (a + b)[1..] == b;
    }
  }

  // ----- cleaning -----

  /** In a reduced list `..` stands only in front, and no name is empty or `.`. */
  predicate Reduced(out: seq<string>) {
    && (forall i :: 0 <= i < |out| ==> out[i] != "" && out[i] != ".")
    && (forall i, j :: 0 <= i < j < |out| && out[j] == ".." ==> out[i] == "..")
  }

  lemma {:induction false} ReduceReduces(cs: seq<string>, out: seq<string>)
    requires Reduced(out)
    requires (forall i :: 0 <= i < |cs| ==> '/' !in cs[i]) && (forall i :: 0 <= i < |out| ==> '/' !in out[i])
    ensures Reduced(Reduce(cs, out)) && forall i :: 0 <= i < |Reduce(cs, out)| ==> '/' !in Reduce(cs, out)[i]
    decreases |cs|
  {
    if cs == [] {
    } else if cs[0] == "" || cs[0] == "." {
      ReduceReduces(cs[1..], out);
    } else if cs[0] == ".." && out != [] && out[|out| - 1] != ".." {
      ReduceReduces(cs[1..], out[..|out| - 1]);
    } else {
      ReduceReduces(cs[1..], out + [cs[0]]);
    }
  }

  lemma {:induction false} PlainIsReduced(cs: seq<string>, out: seq<string>)
    requires forall i :: 0 <= i < |cs| ==> cs[i] != "" && cs[i] != "." && cs[i] != ".."
    ensures Reduce(cs, out) == out + cs
  {
    if cs != [] {
      PlainIsReduced(cs[1..], out + [cs[0]]);
      assert out + [cs[0]] + cs[1..] == out + cs;
    } else {
      assert out + cs == out;
    }
  }

  /** A text passes exactly when it is a slash-separated list of plain names. */
  lemma ValidMeansPlain(path: string)
    ensures ValidBrokerFilePath(path, false) <==> PlainNames(Split(path))
  {
    var cs := Split(path);
    SplitHasNoSlash(path);
    JoinSplit(path);
    NamesToChars(path, '\0');
    NamesToChars(path, '\\');
    if PlainNames(cs) {
      PlainIsReduced(cs, []);
      assert [] + cs == cs;
      FirstName(path);
    }
    if ValidBrokerFilePath(path, false) {
      ReduceReduces(cs, []);
      var r := Reduce(cs, []);
      SplitJoin(r);
      assert cs == r;
      assert forall i :: 0 <= i < |cs| && cs[i] == ".." ==> cs[0] == "..";
      FirstName(path);
      forall i | 0 <= i < |cs| ensures PlainName(cs[i]) {
      }
    }
  }

  lemma FirstName(path: string)
    ensures path != "" && path[0] == '/' ==> Split(path)[0] == ""
    ensures Split(path)[0] == ".." ==> path == ".." || "../" <= path
    ensures "../" <= path || path == ".." ==> Split(path)[0] == ".."
    ensures path == "." ==> Split(path)[0] == "."
  {
    JoinSplit(path);
    SplitOfName("..");
    SplitOfName(".");
    if "../" <= path {
      assert path == ".." + "/" + path[3..];
      SplitOfSlash("..", path[3..]);
    }
    if Split(path)[0] == ".." && |Split(path)| > 1 {
      assert path == ".." + "/" + Join(Split(path)[1..]);
      assert path[..3] == "../";
    }
  }

  ghost predicate InNames(c: char, cs: seq<string>) {
    exists i :: 0 <= i < |cs| && c in cs[i]
  }

  lemma InNamesCons(c: char, head: string, tail: seq<string>)
    ensures InNames(c, [head] + tail) <==> c in head || InNames(c, tail)
  {
    var cs := [head] + tail;
    assert cs[0] == head;
    if InNames(c, tail) {
      var i :| 0 <= i < |tail| && c in tail[i];
      assert c in cs[i + 1];
    }
    if InNames(c, cs) {
      var i :| 0 <= i < |cs| && c in cs[i];
      if i > 0 { assert c in tail[i - 1]; }
    }
  }

  /** A character other than the slash is in the text exactly when it is in one of the names. */
  lemma {:induction false} NamesToChars(path: string, c: char)
    requires c != '/'
    ensures c in path <==> InNames(c, Split(path))
  {
    if path != "" {
      var rest := Split(path[1..]);
      NamesToChars(path[1..], c);
      InNamesCons(c, rest[0], rest[1..]);
      assert rest == [rest[0]] + rest[1..];
      assert path == [path[0]] + path[1..];
      if path[0] == '/' {
        InNamesCons(c, "", rest);
      } else {
        InNamesCons(c, [path[0]] + rest[0], rest[1..]);
      }
    }
  }

  /** The test the broker makes on two texts. */
  predicate Above(parent: string, child: string) {
    parent != child && parent + "/" <= child
  }

  lemma TextToNames(parent: string, child: string)
    requires Above(parent, child)
    ensures Split(parent) <= Split(child)
  {
    var rest := child[|parent| + 1..];
    assert child == parent + "/" + rest;
    SplitOfSlash(parent, rest);
  }

  lemma NamesToText(parent: string, child: string)
    requires Split(parent) <= Split(child) && parent != child
    ensures Above(parent, child)
  {
    JoinSplit(parent);
    JoinSplit(child);
    var ps, cs := Split(parent), Split(child);
    var rest := cs[|ps|..];
    assert cs == ps + rest && (|rest| == 0 ==> ps == cs);
    JoinOfParts(ps, rest);
    assert child == (parent + "/") + Join(rest);
  }

  /** The textual test is the ancestor relation on lists of names. */
  lemma PrefixMeansAncestor(parent: string, child: string)
    ensures Above(parent, child) <==> Split(parent) <= Split(child) && parent != child
  {
    if Above(parent, child) { TextToNames(parent, child); }
    if Split(parent) <= Split(child) && parent != child { NamesToText(parent, child); }
  }

  function Names(paths: seq<string>): (r: seq<Path>)
    ensures |r| == |paths| && forall i :: 0 <= i < |r| ==> r[i] == Split(paths[i])
  {
    seq(|paths|, i requires 0 <= i < |paths| => Split(paths[i]))
  }

  /** No selection is named twice or lies inside another, in the terms of the tree. */
  lemma SelectionsUnrelated(paths: seq<string>)
    ensures Antichain(Names(paths)) <==>
              forall i, j :: 0 <= i < j < |paths| ==>
                paths[i] != paths[j] && !Above(paths[i], paths[j]) && !Above(paths[j], paths[i])
  {
    forall i, j | 0 <= i < j < |paths|
      ensures Related(Names(paths)[i], Names(paths)[j]) <==>
                paths[i] == paths[j] || Above(paths[i], paths[j]) || Above(paths[j], paths[i])
    {
      PrefixMeansAncestor(paths[i], paths[j]);
      PrefixMeansAncestor(paths[j], paths[i]);
    }
    var names := Names(paths);
    assert Antichain(names) <==> forall i, j :: 0 <= i < j < |paths| ==> !Related(names[i], names[j]);
  }

  /** Fills the map of names seen so far; a bad or a repeated name stops it. */
  method AllDistinct(paths: seq<string>) returns (ok: bool, seen: set<string>)
    ensures ok <==> (forall i :: 0 <= i < |paths| ==> PlainNames(Split(paths[i])))
                    && (forall i, j :: 0 <= i < j < |paths| ==> paths[i] != paths[j])
    ensures ok ==> forall p :: p in seen <==> p in paths
  {
    seen := {};
    for k := 0 to |paths|
      invariant forall i :: 0 <= i < k ==> PlainNames(Split(paths[i]))
      invariant forall p :: p in seen <==> p in paths[..k]
      invariant forall i, j :: 0 <= i < j < k ==> paths[i] != paths[j]
    {
      hide PlainNames, ValidBrokerFilePath;
      ValidMeansPlain(paths[k]);
      if !ValidBrokerFilePath(paths[k], false) || paths[k] in seen { return false, seen; }
      seen := seen + {paths[k]};
    }
    assert paths[..|paths|] == paths;
    return true, seen;
  }

  /** Compares every name with every other. */
  method NoAncestors(seen: set<string>) returns (ok: bool)
    ensures ok <==> forall p, c :: p in seen && c in seen ==> !Above(p, c)
  {
    var parents := seen;
    while parents != {}
      invariant parents <= seen
      invariant forall p, c :: p in seen && p !in parents && c in seen ==> !Above(p, c)
    {
      hide Above;
      var p :| p in parents;
      parents := parents - {p};
      var children := seen;
      while children != {}
        invariant children <= seen
        invariant forall c :: c in seen && c !in children ==> !Above(p, c)
      {
        var c :| c in children;
        children := children - {c};
        if Above(p, c) { return false; }
      }
    }
    return true;
  }

  /** The broker's check of a selection: a request passes exactly when it names between one and a hundred
      plain paths of which none is an ancestor of another. */
  method ValidFilePaths(paths: seq<string>) returns (ok: bool)
    ensures ok <==> 0 < |paths| <= MAX_SELECTIONS
                    && (forall i :: 0 <= i < |paths| ==> PlainNames(Split(paths[i])))
                    && Antichain(Names(paths))
  {
    hide PlainNames, Antichain, Names, Above;
    if |paths| == 0 || |paths| > MAX_SELECTIONS { return false; }
    SelectionsUnrelated(paths);
    var seen;
    ok, seen := AllDistinct(paths);
    if ok {
      SeenOrListed(paths, seen);
      ok := NoAncestors(seen);
    }
  }

  lemma SeenOrListed(paths: seq<string>, seen: set<string>)
    requires forall p :: p in seen <==> p in paths
    ensures (forall p, c :: p in seen && c in seen ==> !Above(p, c)) <==>
              forall i, j :: 0 <= i < j < |paths| ==> !Above(paths[i], paths[j]) && !Above(paths[j], paths[i])
  {
    if forall i, j :: 0 <= i < j < |paths| ==> !Above(paths[i], paths[j]) && !Above(paths[j], paths[i]) {
      forall p, c | p in seen && c in seen ensures !Above(p, c) {
        var i, j :| 0 <= i < |paths| && 0 <= j < |paths| && paths[i] == p && paths[j] == c;
        assert i < j || j < i || p == c;
      }
    }
  }
}
