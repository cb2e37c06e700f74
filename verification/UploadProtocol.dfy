/** A resumable upload: a journal record, a staging file and the published name, the changes that are
    permitted, and what follows over every run of calls with any offsets, duplicates and crashes. */
module UploadProtocol {
  import opened Faults

  newtype byte = b: int | 0 <= b < 256

  datatype State = Active | Publishing | Complete

  datatype UploadRecord = UploadRecord(next: nat, state: State)

  /** What stands under the published name; Other is a directory, a link or a special file. */
  datatype Entry = Regular(content: seq<byte>) | Other

  /** chunks lists the chunks that advanced the record, in order. */
  datatype World = World(record: Option<UploadRecord>, staging: Option<seq<byte>>, target: Option<Entry>,
      chunks: seq<seq<byte>>)

  function Concat(chunks: seq<seq<byte>>): seq<byte> {
    if chunks == [] then [] else Concat(chunks[..|chunks| - 1]) + chunks[|chunks| - 1]
  }

  /** A regular file of the recorded size stands under the published name. */
  predicate Published(target: Option<Entry>, size: nat) {
    target.Some? && target.value.Regular? && |target.value.content| == size
  }

  predicate InState(w: World, s: State) {
    w.record.Some? && w.record.value.state == s
  }

  predicate CreateRecord(w: World, w': World) {
    w.record.None? && w' == w.(record := Some(UploadRecord(0, Active)))
  }

  predicate CreateStaging(w: World, w': World) {
    InState(w, Active) && w.staging.None? && w' == w.(staging := Some([]))
  }

  /** A write, finished or cut off, leaves everything below the recorded offset alone. */
  predicate Scribble(w: World, w': World) {
    && w.record.Some? && w.staging.Some? && w'.staging.Some?
    && w.record.value.next <= |w.staging.value| && w.record.value.next <= |w'.staging.value|
    && w'.staging.value[..w.record.value.next] == w.staging.value[..w.record.value.next]
    && w' == w.(staging := w'.staging)
  }

  /** The record moves on by the chunk that is in the staging file. */
  predicate Advance(w: World, w': World) {
    && w.record.Some? && w'.record.Some? && w.staging.Some?
    && var n, n' := w.record.value.next, w'.record.value.next;
    && n < n' <= |w.staging.value|
    && w' == w.(record := Some(w.record.value.(next := n')), chunks := w.chunks + [w.staging.value[n..n']])
  }

  predicate Announce(w: World, w': World) {
    && w.record.Some? && w.record.value.state != Complete && w.staging.Some?
    && |w.staging.value| == w.record.value.next
    && w' == w.(record := Some(w.record.value.(state := Publishing)))
  }

  predicate Rename(w: World, w': World) {
    && InState(w, Publishing) && w.staging.Some? && |w.staging.value| == w.record.value.next
    && w' == w.(target := Some(Regular(w.staging.value)), staging := None)
  }

  predicate Settle(w: World, w': World) {
    && InState(w, Publishing) && w.staging.None? && Published(w.target, w.record.value.next)
    && w' == w.(record := Some(w.record.value.(state := Complete)))
  }

  predicate Next(w: World, w': World) {
    || CreateRecord(w, w') || CreateStaging(w, w') || Scribble(w, w') || Advance(w, w')
    || Announce(w, w') || Rename(w, w') || Settle(w, w') || w' == w
  }

  predicate Start(w: World) {
    w.record.None? && w.staging.None? && w.chunks == []
  }

  ghost predicate Run(t: seq<World>) {
    && |t| > 0 && Start(t[0])
    && forall i :: 0 <= i < |t| - 1 ==> Next(t[i], t[i + 1])
  }

  predicate Inv(w: World) {
    match w.record
    case None => w.staging.None? && w.chunks == []
    case Some(r) =>
      && r.next == |Concat(w.chunks)|
      && (w.staging.Some? ==> r.next <= |w.staging.value| && w.staging.value[..r.next] == Concat(w.chunks))
      && (w.staging.None? && r.state == Active ==> w.chunks == [])
      && (w.staging.None? && r.state != Active ==> w.target == Some(Regular(Concat(w.chunks))))
      && (r.state == Complete ==> w.staging.None?)
  }

  lemma NextKeepsInv(w: World, w': World)
    requires Inv(w) && Next(w, w')
    ensures Inv(w')
  {
    if Advance(w, w') {
      var n, n', s := w.record.value.next, w'.record.value.next, w.staging.value;
      assert w'.chunks[..|w'.chunks| - 1] == w.chunks;
      assert s[..n'] == s[..n] + s[n..n'];
    } else if Announce(w, w') || Rename(w, w') {
      assert w.staging.value[..|w.staging.value|] == w.staging.value;
    }
  }

  lemma {:induction false} RunKeepsInv(t: seq<World>, i: nat)
    requires Run(t) && i < |t|
    ensures Inv(t[i])
  {
    if i > 0 {
      RunKeepsInv(t, i - 1);
      assert Next(t[i - 1], t[i - 1 + 1]);
      NextKeepsInv(t[i - 1], t[i]);
    }
  }

  function Rank(s: State): nat {
    match s case Active => 0 case Publishing => 1 case Complete => 2
  }

  /** Progress never goes back: neither the record, nor its offset, nor the list of chunks. */
  lemma {:induction false} ProgressIsMonotone(t: seq<World>, i: nat, j: nat)
    requires Run(t) && i <= j < |t| && t[i].record.Some?
    ensures t[j].record.Some? && t[i].record.value.next <= t[j].record.value.next
    ensures Rank(t[i].record.value.state) <= Rank(t[j].record.value.state)
    ensures t[i].chunks <= t[j].chunks
    decreases j - i
  {
    if i < j {
      assert Next(t[i], t[i + 1]);
      ProgressIsMonotone(t, i + 1, j);
    }
  }

  /** The staging file holds the chunks that advanced the record, one after the other, and the file
      renamed into place is exactly that and nothing else. */
  lemma PublishedFileIsExact(t: seq<World>, i: nat)
    requires Run(t) && i < |t| && t[i].record.Some?
    ensures t[i].record.value.next == |Concat(t[i].chunks)|
    ensures t[i].staging.Some? ==> Concat(t[i].chunks) <= t[i].staging.value
    ensures t[i].staging.None? && t[i].record.value.state != Active ==>
        t[i].target == Some(Regular(Concat(t[i].chunks)))
  {
    RunKeepsInv(t, i);
  }

  /** Publishing is durable before the rename. After it the staging file is never recreated, no chunk is
      ever added and the published file is never touched again, so there is no second rename. */
  lemma {:induction false} PublishedOnce(t: seq<World>, i: nat, j: nat)
    requires Run(t) && i < j < |t| && t[i].target != t[i + 1].target
    ensures InState(t[i], Publishing) && Rename(t[i], t[i + 1])
    ensures t[j].staging.None? && t[j].record.Some? && t[j].record.value.state != Active
    ensures t[j].target == t[i + 1].target && t[j].chunks == t[i + 1].chunks
        && t[j].record.value.next == t[i].record.value.next
  {
    assert Next(t[i], t[i + 1]);
    if i + 1 < j {
      PublishedOnce(t, i, j - 1);
      assert Next(t[j - 1], t[j - 1 + 1]);
    }
  }
}
