/** The broker operation that takes one chunk of an upload. */
module Upload {
  import opened Faults
  import opened UploadProtocol

  const MAX_FILE := 0x4000_0000

  /** Ack: the reply without error. Resume: an error that names the offset to resume at. */
  datatype Reply = Ack(next: nat, complete: bool) | Resume(next: nat) | Error | Stopped

  function Unanswered(o: Outcome): Reply {
    if o.Killed? then Stopped else Error
  }

  predicate SameChunk(file: seq<byte>, offset: nat, data: seq<byte>) {
    data == [] || (offset + |data| <= |file| && file[offset..offset + |data|] == data)
  }

  class Host {
    var record: Option<UploadRecord>
    var staging: Option<seq<byte>>
    var target: Option<Entry>
    var calm: bool
    ghost var chunks: seq<seq<byte>>
    ghost var trail: seq<World>

    constructor (target: Option<Entry>)
      ensures Valid() && record.None? && this.target == target
    {
      record, staging, this.target, calm, chunks := None, None, target, false, [];
      trail := [World(None, None, target, [])];
    }

    ghost function Now(): World
      reads this
    {
      World(record, staging, target, chunks)
    }

    ghost predicate Valid()
      reads this
    {
      |trail| > 0 && Run(trail) && trail[|trail| - 1] == Now() && Inv(Now())
    }

    ghost method Step()
      requires |trail| > 0 && Run(trail) && Inv(trail[|trail| - 1]) && Next(trail[|trail| - 1], Now())
      modifies `trail
      ensures Valid() && Extends(old(trail), trail)
    {
      NextKeepsInv(trail[|trail| - 1], Now());
      trail := trail + [Now()];
    }

    /** The record is replaced by a rename; an error may come from before or after it. */
    method SaveRecord(r: UploadRecord) returns (o: Outcome)
      requires Valid()
      requires record.None? ==> r == UploadRecord(0, Active)
      requires record.Some? ==>
        || record == Some(r)
        || (record.value.state == r.state && staging.Some? && record.value.next < r.next <= |staging.value|)
        || Announce(Now(), Now().(record := Some(r)))
        || Settle(Now(), Now().(record := Some(r)))
      modifies `record, `chunks, `trail
      ensures Valid() && Extends(old(trail), trail) && (calm ==> o.Done?)
      ensures record == old(record) || record == Some(r)
      ensures o.Done? ==> record == Some(r)
      ensures chunks ==
        if record == old(record) || old(record).None? || r.next == old(record).value.next then old(chunks)
        else old(chunks) + [staging.value[old(record).value.next..r.next]]
    {
      o := Draw(calm);
      var effective := Effect(o);
      if effective {
        if record.Some? && record.value.next < r.next {
          chunks := chunks + [staging.value[record.value.next..r.next]];
        }
        record := Some(r);
        Step();
      }
    }

    /** Reads the record, or creates it for a new upload. */
    method OpenRecord() returns (o: Outcome)
      requires Valid()
      modifies `record, `chunks, `trail
      ensures Valid() && Extends(old(trail), trail) && (calm ==> o.Done?)
      ensures o.Done? ==> record.Some?
      ensures old(record).Some? ==> Now() == old(Now())
      ensures chunks == old(chunks)
      ensures old(record).None? ==> staging.None? && (record.Some? ==> record.value == UploadRecord(0, Active))
    {
      o := Draw(calm);
      if o.Done? && record.None? {
        o := SaveRecord(UploadRecord(0, Active));
      }
    }

    /** Opens the staging file; only an active upload may create it. */
    method OpenStaging() returns (o: Outcome)
      requires Valid() && record.Some?
      modifies `staging, `trail
      ensures Valid() && Extends(old(trail), trail)
      ensures staging == old(staging) || (old(staging).None? && record.value.state == Active && staging == Some([]))
      ensures o.Done? ==> staging.Some?
      ensures calm ==> !o.Killed? && (o.Done? <==> staging.Some? || record.value.state == Active)
    {
      o := Draw(calm);
      if staging.None? {
        if record.value.state != Active {
          if o.Done? { o := Failed; }
          return;
        }
        var effective := Effect(o);
        if effective {
          staging := Some([]);
          Step();
        }
      }
    }

    /** A write that is cut off leaves some of its bytes. */
    method Append(data: seq<byte>) returns (o: Outcome)
      requires Valid() && record.Some? && staging.Some? && |staging.value| == record.value.next
      modifies `staging, `trail
      ensures Valid() && Extends(old(trail), trail) && (calm ==> o.Done?)
      ensures staging.Some? && old(staging).value <= staging.value
      ensures o.Done? ==> staging.value == old(staging).value + data
    {
      o := Draw(calm);
      var written :| 0 <= written <= |data|;
      if o.Done? { written := |data|; }
      staging := Some(staging.value + data[..written]);
      Step();
    }

    method RenameIntoPlace(overwrite: bool) returns (o: Outcome)
      requires Valid() && InState(Now(), Publishing) && staging.Some? && |staging.value| == record.value.next
      modifies `staging, `target, `trail
      ensures Valid() && Extends(old(trail), trail)
      ensures o.Done? ==> staging.None? && target == Some(Regular(old(staging).value))
      ensures !o.Done? ==> (staging == old(staging) && target == old(target)) || Rename(old(Now()), Now())
      ensures target != old(target) ==> old(target).None? || (overwrite && old(target).value.Regular?)
      ensures calm ==> o == if old(target).None? || (overwrite && old(target).value.Regular?) then Done else Failed
    {
      o := Draw(calm);
      if target.Some? && (!overwrite || target.value.Other?) {
        if o.Done? { o := Failed; }
        return;
      }
      var effective := Effect(o);
      if effective {
        target, staging := Some(Regular(staging.value)), None;
        Step();
      }
    }

    /** Publishing is made durable, then the file is renamed, then completion is recorded. */
    method Publish(overwrite: bool) returns (r: Reply)
      requires Valid() && record.Some? && record.value.state != Complete
      requires staging.Some? && |staging.value| == record.value.next
      modifies `record, `staging, `target, `chunks, `trail
      ensures Valid() && Extends(old(trail), trail) && !r.Resume?
      ensures record.Some? && record.value.next == old(record).value.next && chunks == old(chunks)
      ensures r.Ack? ==> r == Ack(record.value.next, true) && InState(Now(), Complete)
      ensures calm ==>
                if old(target).None? || (overwrite && old(target).value.Regular?) then r.Ack? else r == Error
    {
      var o := SaveRecord(record.value.(state := Publishing));
      if !o.Done? { return Unanswered(o); }
      o := RenameIntoPlace(overwrite);
      if !o.Done? { return Unanswered(o); }
      o := SaveRecord(record.value.(state := Complete));
      if !o.Done? { return Unanswered(o); }
      return Ack(record.value.next, true);
    }

    /** A crash may leave the bytes of one chunk in the file without the record having moved on. The
        chunk is taken over only when the same call comes again with the same bytes. */
    method AdoptPending(offset: nat, data: seq<byte>) returns (o: Outcome, adopted: bool)
      requires Valid() && record.Some? && staging.Some?
      modifies `record, `chunks, `trail
      ensures Valid() && Extends(old(trail), trail)
      ensures record.Some? && record.value.state == old(record).value.state
      ensures record == old(record) || record == Some(old(record).value.(next := |staging.value|))
      ensures o.Done? && adopted ==> record.value.next == |staging.value|
      ensures !adopted ==> Now() == old(Now()) && |staging.value| != record.value.next
      ensures old(record).value.next == |staging.value| ==> adopted && Now() == old(Now()) && o.Done?
      ensures record != old(record) ==> offset == old(record).value.next && data != [] && chunks == old(chunks) + [data]
      ensures record == old(record) ==> chunks == old(chunks)
      ensures record != old(record) ==> offset <= |staging.value| && staging.value[offset..] == data
      ensures calm ==> o.Done?
      ensures offset == old(record).value.next && offset <= |staging.value| && staging.value[offset..] == data ==>
          adopted
    {
      o, adopted := Done, true;
      var file, next := staging.value, record.value.next;
      if |file| != next {
        if |file| == offset + |data| && next == offset && SameChunk(file, offset, data) {
          assert file[next..] == data;
          o := SaveRecord(record.value.(next := |file|));
        } else {
          adopted := false;
        }
      }
    }

    /** Writes a chunk that continues the file, and moves the record on. */
    method WriteChunk(offset: nat, data: seq<byte>) returns (o: Outcome)
      requires Valid() && record.Some? && record.value.state != Complete && staging.Some?
      requires |staging.value| == record.value.next == offset
      modifies `record, `staging, `chunks, `trail
      ensures Valid() && Extends(old(trail), trail) && (calm ==> o.Done?)
      ensures record.Some? && record.value.state == old(record).value.state && staging.Some?
      ensures record == old(record) || record == Some(old(record).value.(next := offset + |data|))
      ensures chunks == if record == old(record) then old(chunks) else old(chunks) + [data]
      ensures o.Done? ==>
          record.value.next == offset + |data| == |staging.value| && staging.value == old(staging).value + data
    {
      hide Run, Inv, Concat, Valid;
      o := Draw(calm);              // free space
      if !o.Done? { return; }
      if data != [] {
        o := Append(data);
        if !o.Done? { return; }
      }
      o := Draw(calm);              // identity, ownership, sync
      if !o.Done? { return; }
      assert staging.value[offset..offset + |data|] == data;
      o := SaveRecord(record.value.(next := offset + |data|));
    }

    /** An upload in progress whose staging file is exactly as long as its record says. */
    predicate Settled()
      reads this
    {
      record.Some? && record.value.state != Complete && staging.Some? && |staging.value| == record.value.next
    }

    /** Where an upload goes on. */
    function Offset(): nat
      reads this
    {
      if record.None? then 0 else record.value.next
    }

    /** A new upload, or one in progress whose staging file can be opened. */
    predicate Open()
      reads this
    {
      record.Some? ==> record.value.state != Complete && (staging.None? ==> record.value.state == Active)
    }

    /** No bytes behind the recorded offset. */
    predicate Even()
      reads this
    {
      staging.Some? ==> |staging.value| == Offset()
    }

    /** The bytes behind the recorded offset are the chunk of this call. */
    ghost predicate Pending(offset: nat, data: seq<byte>)
      reads this
    {
      offset == Offset() && staging == Some(Concat(chunks) + data)
    }

    /** The chunk lies below the recorded offset and is what the file holds there. */
    ghost predicate Holds(offset: nat, data: seq<byte>)
      reads this
    {
      offset + |data| <= Offset() <= |Concat(chunks)| && Concat(chunks)[offset..offset + |data|] == data
    }

    /** The last chunk of the file, sent again. */
    predicate Last(offset: nat, data: seq<byte>, final: bool)
      reads this
    {
      final && offset + |data| == Offset()
    }

    predicate MayReplace(overwrite: bool)
      reads this
    {
      target.None? || (overwrite && target.value.Regular?)
    }

    /** A reply names the durable offset, complete means published, and an acknowledged chunk is in
        the file at its offset. */
    ghost predicate Truthful(r: Reply, offset: nat, data: seq<byte>)
      reads this
    {
      && (r.Ack? || r.Resume? ==> record.Some? && record.value.next == r.next)
      && (r.Ack? && r.complete ==> InState(Now(), Complete))
      && (r.Ack? && !r.complete ==> Holds(offset, data))
    }

    lemma SettledIsConcat()
      requires Valid() && Settled()
      ensures staging.value == Concat(chunks) && |Concat(chunks)| == record.value.next
    {
    }

    lemma StagingBeginsWithConcat()
      requires Valid() && record.Some? && staging.Some?
      ensures record.value.next == |Concat(chunks)| <= |staging.value|
      ensures staging.value == Concat(chunks) + staging.value[record.value.next..]
    {
    }

    lemma NothingYet()
      requires Valid() && Open() && staging.None?
      ensures Offset() == 0 && chunks == []
    {
    }

    /** Everything after the record and the staging file are open. */
    method Take(offset: nat, data: seq<byte>, final: bool, overwrite: bool) returns (r: Reply)
      requires Valid() && record.Some? && record.value.state != Complete && staging.Some?
      modifies `record, `staging, `target, `chunks, `trail
      ensures Valid() && Extends(old(trail), trail) && Truthful(r, offset, data)
      ensures chunks == old(chunks) || (chunks == old(chunks) + [data] && data != [])
      ensures r.Resume? ==> record == old(record)
      ensures old(Settled()) && !final && offset < old(record).value.next && old(Holds(offset, data)) ==>
                Now() == old(Now()) && r == Ack(record.value.next, false)
      ensures old(Settled()) && offset > old(record).value.next ==> Now() == old(Now()) && r.Resume?
      // what is already there
      ensures calm && old(Open()) && old(Even()) && offset < old(Offset()) && old(Holds(offset, data)) ==>
                r == if !old(Last(offset, data, final)) then Ack(old(Offset()), false)
                     else if old(Offset()) > MAX_FILE || !old(MayReplace(overwrite)) then Error
                     else Ack(old(Offset()), true)
      // what contradicts the file or leaves a gap
      ensures calm && old(Open()) && old(Even())
                && (offset > old(Offset()) || (offset < old(Offset()) && !old(Holds(offset, data)))) ==>
              r == Resume(old(Offset()))
      // what continues the file
      ensures calm && old(Open()) && old(Even()) && offset == old(Offset()) ==>
                r == if offset + |data| > MAX_FILE || (final && !old(MayReplace(overwrite))) then Error
                     else Ack(offset + |data|, final)
      // what a crash has left in the file without a record
      ensures calm && old(Open()) && !old(Even()) ==>
                r == if !old(Pending(offset, data)) then Resume(old(Offset()))
                     else if final && (offset + |data| > MAX_FILE || !old(MayReplace(overwrite))) then Error
                     else Ack(offset + |data|, final)
    {
      hide Run, Inv, Concat;
      StagingBeginsWithConcat();
      var o, adopted := AdoptPending(offset, data);
      if !o.Done? { return Unanswered(o); }
      if !adopted { return Resume(record.value.next); }
      SettledIsConcat();
      if offset < record.value.next {
        if !(offset + |data| <= record.value.next && SameChunk(staging.value, offset, data)) {
          return Resume(record.value.next);
        }
        if !final || offset + |data| != record.value.next { return Ack(record.value.next, false); }
        if record.value.next > MAX_FILE { return Error; }
        o := Draw(calm);
        if o.Done? { o := SaveRecord(record.value); }
      } else {
        if offset != record.value.next { return Resume(record.value.next); }
        if offset + |data| > MAX_FILE { return Error; }
        o := WriteChunk(offset, data);
      }
      if !o.Done? { return Unanswered(o); }
      if !final {
        assert staging.value[offset..offset + |data|] == data;
        SettledIsConcat();
        return Ack(record.value.next, false);
      }
      r := Publish(overwrite);
    }

    /** One call: data at offset, final or not. */
    method UploadFileChunk(offset: nat, data: seq<byte>, final: bool, overwrite: bool) returns (r: Reply)
      requires Valid()
      modifies `record, `staging, `target, `chunks, `trail
      ensures Valid() && Extends(old(trail), trail) && Truthful(r, offset, data)
      // one call advances by its own chunk or not at all
      ensures chunks == old(chunks) || (chunks == old(chunks) + [data] && data != [])
      // in a settled state, sending an acknowledged chunk again changes nothing
      ensures old(Settled()) && !final && offset < old(record).value.next && old(Holds(offset, data)) ==>
                Now() == old(Now()) && (calm ==> r == Ack(record.value.next, false))
      // a gap is refused without a change
      ensures old(Settled()) && offset > old(record).value.next ==> Now() == old(Now()) && !r.Ack?
      // a refusal that names an offset keeps the record
      ensures r.Resume? ==> record == old(record) || old(record).None?
      // a completed upload stays as it is, and so does the answer
      ensures old(InState(Now(), Complete)) ==> Now() == old(Now())
      ensures calm && old(InState(Now(), Complete)) ==>
                r == if Published(old(target), old(record).value.next) then Ack(old(record).value.next, true) else Error
      // a reply lost after the rename is recovered by any call
      ensures calm && old(InState(Now(), Publishing)) && old(staging).None? ==> r == Ack(old(record).value.next, true)
      // what is already there
      ensures calm && old(Open()) && old(Even()) && offset < old(Offset()) && old(Holds(offset, data)) ==>
                r == if !old(Last(offset, data, final)) then Ack(old(Offset()), false)
                     else if old(Offset()) > MAX_FILE || !old(MayReplace(overwrite)) then Error
                     else Ack(old(Offset()), true)
      // what contradicts the file or leaves a gap
      ensures calm && old(Open()) && old(Even())
                && (offset > old(Offset()) || (offset < old(Offset()) && !old(Holds(offset, data)))) ==>
              r == Resume(old(Offset()))
      // what continues the file
      ensures calm && old(Open()) && old(Even()) && offset == old(Offset()) ==>
                r == if offset + |data| > MAX_FILE || (final && !old(MayReplace(overwrite))) then Error
                     else Ack(offset + |data|, final)
      // what a crash has left in the file without a record
      ensures calm && old(Open()) && !old(Even()) ==>
                r == if !old(Pending(offset, data)) then Resume(old(Offset()))
                     else if final && (offset + |data| > MAX_FILE || !old(MayReplace(overwrite))) then Error
                     else Ack(offset + |data|, final)
    {
      hide Run, Inv, Concat;
      if Open() && staging.None? { NothingYet(); }
      var o := OpenRecord();
      if !o.Done? { return Unanswered(o); }
      if record.value.state == Complete {
        o := Draw(calm);
        if o.Done? && !Published(target, record.value.next) { return Error; }
        return if o.Done? then Ack(record.value.next, true) else Unanswered(o);
      }
      o := OpenStaging();
      if !o.Done? {
        if o.Failed? && staging.None? && record.value.state == Publishing && Published(target, record.value.next) {
          o := SaveRecord(record.value.(state := Complete));
          if o.Done? { return Ack(record.value.next, true); }
        }
        if calm { PublishedIsThere(); }
        return Unanswered(o);
      }
      r := Take(offset, data, final, overwrite);
    }

    lemma PublishedIsThere()
      requires Valid() && record.Some? && staging.None? && record.value.state != Active
      ensures Published(target, record.value.next)
    {
    }
  }
}
