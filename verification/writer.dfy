/** The writer of a status file: opened, written to through a buffer that is flushed after
    every record, closed.  After a failed write the buffer refuses everything. */
module Writers {
  import opened ByteStrings
  import opened Lines
  import opened Wrappers

  datatype Outcome = Ok | WriterClosed | WriterNotOpen | IoError

  /** What is left of a record of which only `k` bytes came through. */
  ghost predicate CutFrom<S>(encode: S -> Bytes, torn: Bytes, s: S, k: nat) {
    k <= |Record(encode, s)| && torn == Record(encode, s)[..k]
  }

  class Writer<!S(!new)> {
    const encode: S -> Bytes
    var file: Bytes
    var open: bool
    var broken: bool
    var closed: bool

    /** The file when it was last opened, the statuses written since, and what a failed write
        has left. */
    ghost var start: Bytes
    ghost var statuses: seq<S>
    ghost var torn: Bytes

    ghost predicate Valid()
      reads this
    {
      && file == start + Written(encode, statuses) + torn
      && (torn != [] ==> !Usable() && exists s, k :: CutFrom(encode, torn, s, k))
    }

    predicate Usable()
      reads this
    {
      open && !broken && !closed
    }

    constructor (encode: S -> Bytes, file: Bytes)
      ensures Valid() && this.encode == encode && this.file == file && start == file
      ensures !open && !closed && statuses == [] && torn == []
    {
      this.encode, this.file := encode, file;
      open, broken, closed := false, false, false;
      start, statuses, torn := file, [], [];
      new;
      assert file + [] + [] == file;
    }

    /** `fails` if the directory cannot be made or the file not opened. */
    method Open(fails: bool) returns (r: Outcome)
      requires Valid()
      modifies this
      ensures Valid() && file == old(file)
      ensures r == if old(closed) then WriterClosed else if fails then IoError else Ok
      ensures r == Ok ==> Usable() && start == file && statuses == [] && torn == []
      ensures r != Ok ==> unchanged(this)
    {
      if closed {
        return WriterClosed;
      }
      if fails {
        return IoError;
      }
      open, broken := true, false;
      start, statuses, torn := file, [], [];
      assert file + [] + [] == file;
      return Ok;
    }

    /** `fault` is the number of bytes that reach the file if writing or flushing fails. */
    method Write(status: S, fault: Option<nat>) returns (r: Outcome)
      requires Valid()
      requires fault.Some? ==> fault.value <= |Record(encode, status)|
      modifies this
      ensures Valid() && start == old(start) && open == old(open) && closed == old(closed)
      ensures r == Ok <==> old(Usable()) && fault == None
      ensures r == WriterClosed <==> old(closed)
      ensures r == WriterNotOpen <==> !old(closed) && !old(open)
      ensures r == Ok ==> Usable() && statuses == old(statuses) + [status] && torn == []
      ensures r == IoError ==> !Usable() && statuses == old(statuses)
      ensures r == IoError && old(Usable()) ==> torn == Record(encode, status)[..fault.value]
      ensures !old(Usable()) ==> unchanged(this)
    {
      hide Written, Record;
      if closed {
        return WriterClosed;
      }
      if !open {
        return WriterNotOpen;
      }
      if broken {
        return IoError;
      }
      var record := Record(encode, status);
      NothingTorn(start + Written(encode, statuses));
      if fault.Some? {
        file, broken := file + record[..fault.value], true;
        torn := record[..fault.value];
        assert CutFrom(encode, torn, status, fault.value);
        return IoError;
      }
      AppendedRecord(encode, start, statuses, status);
      NothingTorn(start + Written(encode, statuses + [status]));
      file := file + record;
      statuses := statuses + [status];
      return Ok;
    }

    /** `fails` if syncing or closing the file does; flushing fails after a failed write. */
    method Close(fails: bool) returns (r: Outcome)
      requires Valid()
      modifies this
      ensures r == if !old(closed) && old(open) && (old(broken) || fails) then IoError else Ok
      ensures Valid() && closed && file == old(file)
      ensures start == old(start) && statuses == old(statuses) && torn == old(torn)
    {
      if closed {
        return Ok;
      }
      r := if open && (broken || fails) then IoError else Ok;
      open, closed := false, true;
    }
  }

  lemma NothingTorn(c: Bytes)
    ensures c + [] == c
  {
  }

  lemma AppendedRecord<S>(encode: S -> Bytes, start: Bytes, statuses: seq<S>, status: S)
    ensures start + Written(encode, statuses) + Record(encode, status) == start + Written(encode, statuses + [status])
  {
    hide Record;
    assert (statuses + [status])[..|statuses|] == statuses;
  }

  /** Whatever was called on a writer since it opened a file that ended cleanly: the reader
      returns the last status written, or what it returned before if there was none, or the
      one status whose write failed with at most its newline missing. */
  lemma SessionIsRead<S(!new)>(w: Writer<S>, decode: Bytes -> Option<S>) returns (lost: Option<S>)
    requires w.Valid() && AtBoundary(w.start)
    requires Codec(w.encode, decode) && TornUnreadable(w.encode, decode)
    ensures w.torn == [] ==> lost == None
    ensures lost.Some? ==> w.encode(lost.value) <= w.torn && !w.Usable()
    ensures Parsed(decode, w.file) ==
            if lost.Some? then lost else LastOr(w.statuses, Parsed(decode, w.start))
  {
    hide Parsed, Codec;
    var written := w.start + Written(w.encode, w.statuses);
    lost := None;
    if w.torn == [] {
      WritesAreRead(w.encode, decode, w.start, w.statuses);
      assert written + [] == written;
    } else {
      var s, k: nat :| CutFrom(w.encode, w.torn, s, k);
      LastCompleteRecord(w.encode, decode, w.start, w.statuses, s, k);
      if k > |w.encode(s)| || (k == |w.encode(s)| && k % BufferSize != 0) {
        lost := Some(s);
      }
    }
  }
}
