/** The Nginx text that keeps visitors out while a site's database is being changed. */
module MaintenanceGate {
  import opened HostRewrite
  import opened Text

  const BLOCK := "server {\n"
  const LISTEN := "    listen 80;\n    listen [::]:80;\n"
  const RETRY := "    add_header Retry-After 60 always;\n"
  const REFUSE := "    return 503;\n"

  /** Read from inside a block: a `return 503;` line comes before any brace. */
  predicate Returns503(s: string, lineStart: bool) {
    if lineStart && REFUSE <= s then true
    else if s == "" || s[0] == '{' || s[0] == '}' then false
    else Returns503(s[1..], s[0] == '\n')
  }

  /** Every server block of the text refuses before it reaches a location. */
  predicate Closed(text: string) {
    forall i :: 0 <= i < |text| && At(text, BLOCK, i) ==> Returns503(text[i + 9..], true)
  }

  function Gate(was: string, now: string): string {
    MANAGED_MARKER + BLOCK + (LISTEN + "    server_name " + was + " " + now + ";\n" + RETRY) + REFUSE + "}\n"
  }

  /** The previous TLS virtual host with a refusal in front of its own directives. */
  function Paused(text: string): string {
    ReplaceFirst(text, BLOCK, BLOCK + (RETRY + REFUSE))
  }

  ghost predicate Plain(s: string) {
    forall i :: 0 <= i < |s| ==> s[i] != '{' && s[i] != '}'
  }

  lemma {:induction false} RefusalAfter(a: string, b: string, lineStart: bool)
    requires Plain(a) && (if a == "" then lineStart else a[|a| - 1] == '\n')
    ensures Returns503(a + REFUSE + b, lineStart)
  {
    var s := a + REFUSE + b;
    if a == "" {
      assert s == REFUSE + b && REFUSE <= s;
    } else {
      assert s[1..] == a[1..] + REFUSE + b && s[0] == a[0];
      RefusalAfter(a[1..], b, a[0] == '\n');
    }
  }

  /** A block opening, character by character. */
  lemma BlockAt(s: string, i: nat)
    requires At(s, BLOCK, i)
    ensures s[i] == 's' && s[i + 7] == '{' && s[i + 8] == '\n'
    ensures forall k :: i < k <= i + 8 ==> s[k] != 's'
    ensures forall k :: i <= k < i + 8 ==> s[k] != '\n'
    ensures forall k :: i <= k <= i + 8 && k != i + 7 ==> s[k] != '{'
  {
    assert forall k :: i <= k <= i + 8 ==> s[k] == s[i..i + 9][k - i] == BLOCK[k - i];
  }

  /** In `a + BLOCK + b` with no brace in a and no opening brace in b, the block opening is unique. */
  lemma OnlyBlock(a: string, b: string, i: nat)
    requires Plain(a) && forall k :: 0 <= k < |b| ==> b[k] != '{'
    requires At(a + BLOCK + b, BLOCK, i)
    ensures i == |a|
  {
    var s := a + BLOCK + b;
    BlockAt(s, i);
    assert s[|a|..|a| + 9] == BLOCK;
    BlockAt(s, |a|);
    assert forall k :: 0 <= k < |a| ==> s[k] == a[k];
    assert forall k :: |a| + 9 <= k < |s| ==> s[k] == b[k - |a| - 9];
  }

  /** A block whose brace-free lines end in a refusal is closed. */
  lemma RefusingBlockCloses(text: string, a: string, lines: string, b: string)
    requires text == a + BLOCK + (lines + REFUSE + b)
    requires Plain(lines) && lines != "" && lines[|lines| - 1] == '\n'
    requires forall i: nat :: At(text, BLOCK, i) ==> i == |a|
    ensures Closed(text)
  {
    RefusalAfter(lines, b, true);
    assert text[|a| + 9..] == lines + REFUSE + b;
  }

  lemma GateLines(was: string, now: string)
    requires Hostname(was) && Hostname(now)
    ensures var lines := LISTEN + "    server_name " + was + " " + now + ";\n" + RETRY;
            Plain(lines) && lines != "" && lines[|lines| - 1] == '\n'
  {
    PlainTogether(LISTEN, "    server_name ");
    PlainTogether(LISTEN + "    server_name ", was);
    PlainTogether(LISTEN + "    server_name " + was, " ");
    PlainTogether(LISTEN + "    server_name " + was + " ", now);
    PlainTogether(LISTEN + "    server_name " + was + " " + now, ";\n");
    PlainTogether(LISTEN + "    server_name " + was + " " + now + ";\n", RETRY);
  }

  lemma PlainTogether(a: string, b: string)
    requires Plain(a) && Plain(b)
    ensures Plain(a + b)
  {
  }

  lemma GateCloses(was: string, now: string)
    requires Hostname(was) && Hostname(now)
    ensures Closed(Gate(was, now))
  {
    var lines := LISTEN + "    server_name " + was + " " + now + ";\n" + RETRY;
    GateLines(was, now);
    PlainTogether(OWNER, WARNING);
    GateTextCloses(MANAGED_MARKER, lines, "}\n");
  }

  lemma GateNames(a: string, b: string, p: string, was: string, now: string, c: string, d: string, e: string)
    ensures Contains(a + (b + p + was + " " + now + ";\n" + c) + d + e, p + was + " " + now + ";\n")
  {
    var q := p + was + " " + now + ";\n";
    var lines := b + p + was + " " + now + ";\n";
    assert lines == b + q;
    assert a + (lines + c) + d + e == (a + b) + q + (c + d + e);
    assert At((a + b) + q + (c + d + e), q, |a + b|);
  }

  /** The new name does not fall through to another site while the gate is shut. */
  lemma GateClaimsBothNames(was: string, now: string)
    ensures Contains(Gate(was, now), "    server_name " + was + " " + now + ";\n")
  {
    GateNames(MANAGED_MARKER + BLOCK, LISTEN, "    server_name ", was, now, RETRY, REFUSE, "}\n");
  }

  lemma GateTextCloses(a: string, lines: string, b: string)
    requires Plain(a) && Plain(lines) && lines != "" && lines[|lines| - 1] == '\n'
    requires forall k :: 0 <= k < |b| ==> b[k] != '{'
    ensures Closed(a + BLOCK + lines + REFUSE + b)
  {
    var text := a + BLOCK + (lines + REFUSE + b);
    assert text == a + BLOCK + lines + REFUSE + b;
    PlainTogether(lines, REFUSE);
    forall i: nat | At(text, BLOCK, i) ensures i == |a| {
      OnlyBlock(a, lines + REFUSE + b, i);
    }
    RefusingBlockCloses(text, a, lines, b);
  }

  /** With one block opening, the text is split around it and neither side holds another. */
  lemma SplitAtBlock(text: string) returns (a: string, b: string)
    requires CountFrom(text, BLOCK, 0) == 1
    ensures text == a + BLOCK + b && Paused(text) == a + (BLOCK + (RETRY + REFUSE)) + b
    ensures forall i: nat :: At(text, BLOCK, i) ==> i == |a|
  {
    var k := IndexFrom(text, BLOCK, 0).value;
    a, b := text[..k], text[k + 9..];
    assert IndexFrom(text, BLOCK, k + 9).None?;
    forall i: nat | At(text, BLOCK, i) ensures i == k {
      BlockAt(text, i);
      BlockAt(text, k);
    }
  }

  /** One server block: its opening stands in one place. */
  lemma OneBlock(text: string)
    ensures CountFrom(text, BLOCK, 0) == 1 <==> exists i: nat :: At(text, BLOCK, i) && OnlyAt(text, i)
  {
    if CountFrom(text, BLOCK, 0) == 1 {
      var a, b := SplitAtBlock(text);
      assert At(text, BLOCK, |a|) by { assert text[|a|..|a| + 9] == BLOCK; }
      assert OnlyAt(text, |a|);
    }
    if i: nat :| At(text, BLOCK, i) && OnlyAt(text, i) {
      assert IndexFrom(text, BLOCK, 0).Some? && IndexFrom(text, BLOCK, 0).value == i;
      assert IndexFrom(text, BLOCK, i + 9).None?;
    }
  }

  ghost predicate OnlyAt(text: string, i: nat) {
    forall j: nat :: At(text, BLOCK, j) ==> j == i
  }

  /** Pausing a virtual host with one server block closes it, and its own directives stay. */
  lemma PauseCloses(text: string) returns (a: string, b: string)
    requires CountFrom(text, BLOCK, 0) == 1
    ensures Closed(Paused(text))
    ensures text == a + BLOCK + b && Paused(text) == a + (BLOCK + (RETRY + REFUSE)) + b
  {
    a, b := SplitAtBlock(text);
    PausedTextCloses(a, RETRY, b);
  }

  lemma PausedTextCloses(a: string, lines: string, b: string)
    requires forall k: nat :: At(a + BLOCK + b, BLOCK, k) ==> k == |a|
    requires Plain(lines) && lines != "" && lines[|lines| - 1] == '\n'
    ensures Closed(a + (BLOCK + (lines + REFUSE)) + b)
  {
    var text := a + BLOCK + (lines + REFUSE + b);
    assert text == a + (BLOCK + (lines + REFUSE)) + b;
    PlainTogether(lines, REFUSE);
    forall i: nat | At(text, BLOCK, i) ensures i == |a| {
      assert text == a + BLOCK + ((lines + REFUSE) + b);
      BlockFromText(a, lines + REFUSE, b, i);
    }
    RefusingBlockCloses(text, a, lines, b);
  }

  /** Whole brace-free lines put behind a block opening neither contain nor complete another:
      every opening in the result comes from the text before. */
  lemma BlockFromText(a: string, lines: string, b: string, i: nat)
    requires Plain(lines) && lines != "" && lines[|lines| - 1] == '\n'
    requires At(a + BLOCK + (lines + b), BLOCK, i)
    ensures var k := if i <= |a| then i else i - |lines|; k >= 0 && (i <= |a| || k > |a|) && At(a + BLOCK + b, BLOCK, k)
  {
    var text, p, m := a + BLOCK + b, a + BLOCK + (lines + b), |lines|;
    var n := |a| + 9;
    BlockAt(p, i);
    assert p[n - 1] == BLOCK[8] == '\n' && p[n + m - 1] == '\n';
    assert forall k :: n <= k < n + m ==> p[k] == lines[k - n];
    if i + 9 <= n {
      assert p[i..i + 9] == text[i..i + 9];
    } else {
      assert n + m <= i;
      assert p[i..i + 9] == text[i - m..i - m + 9];
    }
  }
}
