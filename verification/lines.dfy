/** Reading a status file: lines found by byte offset through a buffered reader, the last one
    that parses wins. */
module Lines {
  import opened ByteStrings
  import opened Wrappers

  const Newline: byte := 0x0A
  const Return: byte := 0x0D

  /** The buffer of the line reader. */
  const BufferSize: nat := 4096

  function BreakFrom(c: Bytes, p: nat): (e: nat)
    requires p <= |c|
    ensures p <= e <= |c|
    ensures e < |c| ==> c[e] == Newline
    ensures Newline !in c[p..e]
    decreases |c| - p
  {
    if p == |c| || c[p] == Newline then p else BreakFrom(c, p + 1)
  }

  /** A line without the carriage return that may end it. */
  function Chomp(line: Bytes): Bytes {
    if line != [] && line[|line| - 1] == Return then line[..|line| - 1] else line
  }

  // ------------------------------------------------------------ the buffered reader

  /** What one call of the buffered reader yields at position `p`: the end of the file, or
      text, the position after it, and whether the line goes on beyond the buffer. */
  datatype Chunk = EndOfFile | Text(text: Bytes, next: nat, more: bool)

  /** Where a full buffer is cut: a carriage return at its end is put back. */
  function FullEnd(c: Bytes, p: nat): (e: nat)
    requires p + BufferSize <= |c|
    ensures p < e <= |c|
  {
    if c[p + BufferSize - 1] == Return then p + BufferSize - 1 else p + BufferSize
  }

  function ReadLine(c: Bytes, p: nat): Chunk
    requires p <= |c|
  {
    var e := BreakFrom(c, p);
    if e < |c| && e - p < BufferSize then Text(Chomp(c[p..e]), e + 1, false)
    else if |c| - p >= BufferSize then Text(c[p..FullEnd(c, p)], FullEnd(c, p), true)
    else if p == |c| then EndOfFile
    else Text(c[p..], |c|, false)
  }

  /** The unterminated rest of the file ends exactly where a full buffer ends. */
  ghost predicate RestDropped(c: Bytes, p: nat)
    requires p <= |c|
    decreases |c| - p
  {
    p == |c| || (|c| - p >= BufferSize && RestDropped(c, FullEnd(c, p)))
  }

  /** Without carriage returns that is a matter of length. */
  lemma {:induction false} RestDroppedByLength(c: Bytes, p: nat)
    requires p <= |c| && Return !in c[p..]
    ensures RestDropped(c, p) <==> (|c| - p) % BufferSize == 0
    decreases |c| - p
  {
    if |c| - p >= BufferSize {
      assert c[p..][BufferSize - 1] == c[p + BufferSize - 1];
      var q := FullEnd(c, p);
      assert c[q..] == c[p..][BufferSize..];
      RestDroppedByLength(c, q);
      assert (|c| - p) % BufferSize == (|c| - p - BufferSize) % BufferSize;
    }
  }

  /** The reader is at `pos`, within the line that begins at `offset`, and holds `line`. */
  ghost predicate ReadSoFar(c: Bytes, offset: nat, pos: nat, line: Bytes) {
    && offset <= pos <= |c|
    && line == c[offset..pos] && BreakFrom(c, offset) == BreakFrom(c, pos)
    && (offset < pos && c[pos - 1] == Return ==> pos < |c| && c[pos] == Return)
    && (BreakFrom(c, offset) == |c| ==> RestDropped(c, offset) == RestDropped(c, pos))
  }

  ghost predicate LineAt(c: Bytes, offset: nat, line: Bytes, eof: bool)
    requires offset <= |c|
  {
    if BreakFrom(c, offset) < |c| then !eof && line == Chomp(c[offset..BreakFrom(c, offset)])
    else eof == RestDropped(c, offset) && (!eof ==> line == c[offset..])
  }

  /** The line at an offset; `eof` when the reader ran into the end of the file. */
  method ReadLineFrom(c: Bytes, offset: nat) returns (line: Bytes, eof: bool)
    ensures offset > |c| ==> eof
    ensures offset <= |c| && BreakFrom(c, offset) < |c| ==>
              !eof && line == Chomp(c[offset..BreakFrom(c, offset)])
    ensures offset <= |c| && BreakFrom(c, offset) == |c| ==>
              eof == RestDropped(c, offset) && (!eof ==> line == c[offset..])
  {
    hide ReadLine, RestDropped, Chomp, BreakFrom, ReadSoFar;
    line := [];
    if offset > |c| {
      return line, true;
    }
    var pos := offset;
    NothingReadYet(c, offset);
    while true
      invariant pos <= |c| && ReadSoFar(c, offset, pos, line)
      decreases |c| - pos
    {
      var chunk := ReadLine(c, pos);
      OneMoreChunk(c, offset, pos, line);
      if chunk.EndOfFile? {
        return line, true;
      }
      line := line + chunk.text;
      pos := chunk.next;
      if !chunk.more {
        return line, false;
      }
    }
  }

  lemma NothingReadYet(c: Bytes, offset: nat)
    requires offset <= |c|
    ensures ReadSoFar(c, offset, offset, [])
  {
  }

  lemma SlicesMeet(c: Bytes, p: nat, q: nat, r: nat)
    requires p <= q <= r <= |c|
    ensures c[p..q] + c[q..r] == c[p..r]
  {
  }

  lemma OneMoreChunk(c: Bytes, offset: nat, pos: nat, line: Bytes)
    requires pos <= |c| && ReadSoFar(c, offset, pos, line)
    ensures var chunk := ReadLine(c, pos);
            && (chunk.EndOfFile? ==> LineAt(c, offset, line, true))
            && (chunk.Text? ==>
                  && pos < chunk.next <= |c|
                  && (chunk.more ==> ReadSoFar(c, offset, chunk.next, line + chunk.text))
                  && (!chunk.more ==> LineAt(c, offset, line + chunk.text, false)))
  {
    hide ReadLine, RestDropped, Chomp, BreakFrom;
    var chunk := ReadLine(c, pos);
    ChunkOf(c, pos);
    if chunk.Text? {
      SlicesMeet(c, offset, pos, chunk.next);
      SlicesMeet(c, offset, pos, |c|);
      assert c[offset..|c|] == c[offset..];
      ChompLater(c, offset, pos);
    }
  }

  /** What one buffered read says about the line it is in. */
  lemma ChunkOf(c: Bytes, p: nat)
    requires p <= |c|
    ensures var chunk := ReadLine(c, p);
            && (chunk.EndOfFile? ==> p == |c| && RestDropped(c, p))
            && (chunk.Text? ==> p < chunk.next <= |c|)
            && (chunk.Text? && chunk.more ==>
                  && chunk.text == c[p..chunk.next]
                  && BreakFrom(c, chunk.next) == BreakFrom(c, p)
                  && (c[chunk.next - 1] == Return ==> chunk.next < |c| && c[chunk.next] == Return)
                  && (RestDropped(c, p) <==> RestDropped(c, chunk.next)))
            && (chunk.Text? && !chunk.more ==>
                  && (BreakFrom(c, p) < |c| ==> chunk.text == Chomp(c[p..BreakFrom(c, p)]))
                  && (BreakFrom(c, p) == |c| ==> chunk.text == c[p..|c|] && !RestDropped(c, p)))
  {
    hide BreakFrom, RestDropped, Chomp;
    var chunk := ReadLine(c, p);
    RestDroppedStep(c, p);
    if chunk.Text? && chunk.more {
      BreakBeyond(c, p, chunk.next);
    }
  }

  lemma RestDroppedStep(c: Bytes, p: nat)
    requires p <= |c|
    ensures RestDropped(c, p) <==> p == |c| || (|c| - p >= BufferSize && RestDropped(c, FullEnd(c, p)))
  {
    hide FullEnd;
  }

  lemma {:induction false} BreakBeyond(c: Bytes, p: nat, q: nat)
    requires p <= |c| && p <= q <= BreakFrom(c, p)
    ensures BreakFrom(c, p) == BreakFrom(c, q)
    decreases q - p
  {
    if p < q {
      BreakBeyond(c, p + 1, q);
    }
  }

  /** Removing the carriage return from the last piece is removing it from the line. */
  lemma ChompLater(c: Bytes, p: nat, q: nat)
    requires p <= q <= |c| && (p < q && c[q - 1] == Return ==> q < |c| && c[q] == Return)
    ensures Chomp(c[p..BreakFrom(c, p)]) == if BreakFrom(c, p) < q then Chomp(c[p..BreakFrom(c, p)])
                                            else c[p..q] + Chomp(c[q..BreakFrom(c, p)])
  {
    hide Chomp;
    var e := BreakFrom(c, p);
    if q <= e {
      assert q < |c| && c[q] == Return ==> q < e;
      SlicesMeet(c, p, q, e);
      ChompOfSum(c[p..q], c[q..e]);
    }
  }

  lemma ChompOfSum(a: Bytes, b: Bytes)
    requires b == [] ==> a == [] || a[|a| - 1] != Return
    ensures Chomp(a + b) == a + Chomp(b)
  {
    if b == [] {
      assert a + b == a;
    }
  }

  // --------------------------------------------------- the records of a status file

  function Nonempty(line: Bytes): seq<Bytes> {
    if line == [] then [] else [line]
  }

  /** The nonempty lines from `p` on, the unterminated rest included if the reader sees it. */
  ghost function Records(c: Bytes, p: nat): seq<Bytes>
    requires p <= |c|
    decreases |c| - p
  {
    var e := BreakFrom(c, p);
    if e < |c| then Nonempty(Chomp(c[p..e])) + Records(c, e + 1)
    else if RestDropped(c, p) then []
    else [c[p..]]
  }

  /** The last record that parses, or what there was before. */
  function Latest<S>(decode: Bytes -> Option<S>, records: seq<Bytes>, before: Option<S>): Option<S> {
    if records == [] then before
    else
      var front := Latest(decode, records[..|records| - 1], before);
      var last := decode(records[|records| - 1]);
      if last.Some? then last else front
  }

  ghost function Parsed<S>(decode: Bytes -> Option<S>, c: Bytes): Option<S> {
    Latest(decode, Records(c, 0), None)
  }

  lemma {:induction false} LatestOfMore<S>(decode: Bytes -> Option<S>, a: seq<Bytes>, b: seq<Bytes>, before: Option<S>)
    ensures Latest(decode, a + b, before) == Latest(decode, b, Latest(decode, a, before))
    decreases |b|
  {
    if b == [] {
      assert a + b == a;
    } else {
      assert (a + b)[..|a + b| - 1] == a + b[..|b| - 1];
      LatestOfMore(decode, a, b[..|b| - 1], before);
    }
  }

  /** Visits the file line by line by offset; returns the last record that parses, or nothing
      at the end of a file without one.  A line that ended in a carriage return makes the
      next offset fall one short, on its newline: an extra empty line, skipped. */
  method ParseStatusFile<S>(decode: Bytes -> Option<S>, c: Bytes) returns (result: Option<S>)
    ensures result == Parsed(decode, c)
  {
    hide RestDropped, Latest, BreakFrom, Records, Chomp;
    result := None;
    var offset := 0;
    while true
      invariant offset <= |c| + 1
      invariant offset <= |c| ==> Latest(decode, Records(c, offset), result) == Parsed(decode, c)
      invariant offset > |c| ==> result == Parsed(decode, c)
      decreases |c| + 1 - offset
    {
      var line, eof := ReadLineFrom(c, offset);
      if offset <= |c| {
        NextOffset(decode, c, offset, line, eof, result);
      }
      if eof {
        return;
      }
      offset := offset + |line| + 1;
      if |line| > 0 {
        var status := decode(line);
        if status.Some? {
          result := status;
        }
      }
    }
  }

  /** What the reader holds after one more line. */
  function After<S>(decode: Bytes -> Option<S>, line: Bytes, before: Option<S>): Option<S> {
    if line != [] && decode(line).Some? then decode(line) else before
  }

  lemma LatestOfOne<S>(decode: Bytes -> Option<S>, line: Bytes, before: Option<S>)
    ensures Latest(decode, Nonempty(line), before) == After(decode, line, before)
    ensures line != [] ==> Latest(decode, [line], before) == After(decode, line, before)
  {
    assert [line][..0] == [];
  }

  lemma LatestStep<S>(decode: Bytes -> Option<S>, line: Bytes, rest: seq<Bytes>, before: Option<S>)
    ensures Latest(decode, Nonempty(line) + rest, before) == Latest(decode, rest, After(decode, line, before))
  {
    LatestOfMore(decode, Nonempty(line), rest, before);
    LatestOfOne(decode, line, before);
  }

  /** A carriage return that was cut off makes the next line an empty one. */
  lemma ShortOffset(c: Bytes, e: nat)
    requires e < |c| && c[e] == Newline
    ensures Records(c, e) == Records(c, e + 1)
  {
    assert BreakFrom(c, e) == e && c[e..e] == [];
    assert [] + Records(c, e + 1) == Records(c, e + 1);
  }

  /** One round of the reader, in terms of the records left. */
  lemma NextOffset<S>(decode: Bytes -> Option<S>, c: Bytes, offset: nat, line: Bytes, eof: bool, before: Option<S>)
    requires offset <= |c|
    requires BreakFrom(c, offset) < |c| ==> !eof && line == Chomp(c[offset..BreakFrom(c, offset)])
    requires BreakFrom(c, offset) == |c| ==> eof == RestDropped(c, offset) && (!eof ==> line == c[offset..])
    ensures eof ==> Latest(decode, Records(c, offset), before) == before
    ensures !eof ==>
              var next := offset + |line| + 1;
              && next <= |c| + 1
              && (next <= |c| ==>
                    Latest(decode, Records(c, next), After(decode, line, before)) == Latest(decode, Records(c, offset), before))
              && (next > |c| ==> After(decode, line, before) == Latest(decode, Records(c, offset), before))
  {
    hide Latest, After, RestDropped;
    var e := BreakFrom(c, offset);
    if e < |c| {
      AfterTerminatedLine(decode, c, offset, line, before);
    } else {
      RecordsStep(c, offset);
      hide Records;
      if eof {
        LatestOfNone(decode, before);
      } else {
        LatestOfOne(decode, line, before);
      }
    }
  }

  lemma AfterTerminatedLine<S>(decode: Bytes -> Option<S>, c: Bytes, offset: nat, line: Bytes, before: Option<S>)
    requires offset <= |c| && BreakFrom(c, offset) < |c| && line == Chomp(c[offset..BreakFrom(c, offset)])
    ensures offset + |line| + 1 <= |c|
    ensures Latest(decode, Records(c, offset + |line| + 1), After(decode, line, before))
         == Latest(decode, Records(c, offset), before)
  {
    hide Latest, After, RestDropped, Records, Chomp, BreakFrom;
    var e := BreakFrom(c, offset);
    RecordsStep(c, offset);
    ChompLength(c[offset..e]);
    LatestStep(decode, line, Records(c, e + 1), before);
    if offset + |line| < e {
      assert offset + |line| + 1 == e;
      ShortOffset(c, e);
    }
  }

  lemma ChompLength(line: Bytes)
    ensures |Chomp(line)| == |line| || |Chomp(line)| == |line| - 1
  {
  }

  lemma RecordsStep(c: Bytes, p: nat)
    requires p <= |c|
    ensures var e := BreakFrom(c, p);
            && (e < |c| ==> Records(c, p) == Nonempty(Chomp(c[p..e])) + Records(c, e + 1))
            && (e == |c| && RestDropped(c, p) ==> Records(c, p) == [])
            && (e == |c| && !RestDropped(c, p) ==> Records(c, p) == [c[p..]] && c[p..] != [])
  {
  }

  lemma LatestOfNone<S>(decode: Bytes -> Option<S>, before: Option<S>)
    ensures Latest(decode, [], before) == before
  {
  }

  // ------------------------------------------------------------------- appending

  /** What the encoder promises: it is undone by the decoder, yields no line break (control
      characters are escaped, section 7 of RFC 8259), and never nothing. */
  ghost predicate Codec<S(!new)>(encode: S -> Bytes, decode: Bytes -> Option<S>) {
    forall s :: decode(encode(s)) == Some(s) && encode(s) != []
                && Newline !in encode(s) && Return !in encode(s)
  }

  function Record<S>(encode: S -> Bytes, status: S): Bytes {
    encode(status) + [Newline]
  }

  function Written<S>(encode: S -> Bytes, statuses: seq<S>): Bytes {
    if statuses == [] then []
    else Written(encode, statuses[..|statuses| - 1]) + Record(encode, statuses[|statuses| - 1])
  }

  /** Where the unterminated rest of the file begins. */
  function RestFrom(c: Bytes): (p: nat)
    ensures p <= |c| && Newline !in c[p..]
    ensures p > 0 ==> c[p - 1] == Newline
  {
    if c == [] || c[|c| - 1] == Newline then |c| else RestFrom(c[..|c| - 1])
  }

  ghost predicate AtBoundary(c: Bytes) {
    c == [] || c[|c| - 1] == Newline
  }

  lemma {:induction false} BreakInPrefix(c: Bytes, rest: Bytes, p: nat)
    requires p <= |c| && BreakFrom(c, p) < |c|
    ensures BreakFrom(c + rest, p) == BreakFrom(c, p)
    decreases |c| - p
  {
    if c[p] != Newline {
      BreakInPrefix(c, rest, p + 1);
    }
  }

  lemma {:induction false} BreakAtBoundary(c: Bytes, p: nat)
    requires AtBoundary(c) && p < |c|
    ensures BreakFrom(c, p) < |c|
    decreases |c| - p
  {
    if c[p] != Newline {
      BreakAtBoundary(c, p + 1);
    }
  }

  /** What was written up to a boundary is read as if nothing followed. */
  lemma {:induction false} ReadsPrefixFirst<S>(decode: Bytes -> Option<S>, c: Bytes, rest: Bytes, p: nat, before: Option<S>)
    requires AtBoundary(c) && p <= |c|
    ensures Latest(decode, Records(c + rest, p), before)
         == Latest(decode, Records(c + rest, |c|), Latest(decode, Records(c, p), before))
    decreases |c| - p
  {
    hide Latest, RestDropped, Chomp, BreakFrom, Records, After;
    RecordsStep(c, p);
    if p == |c| {
      NothingLeft(c);
      LatestOfNone(decode, before);
    } else {
      BreakAtBoundary(c, p);
      BreakInPrefix(c, rest, p);
      var e := BreakFrom(c, p);
      assert (c + rest)[p..e] == c[p..e];
      RecordsStep(c + rest, p);
      var line := Chomp(c[p..e]);
      LatestStep(decode, line, Records(c + rest, e + 1), before);
      LatestStep(decode, line, Records(c, e + 1), before);
      ReadsPrefixFirst(decode, c, rest, e + 1, After(decode, line, before));
    }
  }

  lemma NothingLeft(c: Bytes)
    ensures Records(c, |c|) == []
  {
  }

  lemma {:induction false} BreakAfter(c: Bytes, p: nat, q: nat)
    requires p <= q <= |c| && Newline !in c[p..q] && (q == |c| || c[q] == Newline)
    ensures BreakFrom(c, p) == q
    decreases q - p
  {
    if p < q {
      assert c[p..q][0] == c[p] && c[p + 1..q] == c[p..q][1..];
      BreakAfter(c, p + 1, q);
    }
  }

  /** One terminated line before the end. */
  lemma OnlyLine(c: Bytes, p: nat, line: Bytes)
    requires p + |line| + 1 == |c| && c[p..p + |line|] == line && c[p + |line|] == Newline
    requires line != [] && Newline !in line && line[|line| - 1] != Return
    ensures Records(c, p) == [line]
  {
    hide Records, RestDropped, BreakFrom;
    BreakAfter(c, p, p + |line|);
    RecordsStep(c, p);
    NothingLeft(c);
    assert [line] + [] == [line];
  }

  /** A terminated line without carriage return, after a boundary. */
  lemma LineAfterBoundary<S>(decode: Bytes -> Option<S>, c: Bytes, line: Bytes)
    requires AtBoundary(c) && line != [] && Newline !in line && line[|line| - 1] != Return
    ensures Parsed(decode, c + line + [Newline]) ==
            if decode(line).Some? then decode(line) else Parsed(decode, c)
  {
    hide Records, Latest, RestDropped, BreakFrom, Chomp, Nonempty;
    var all := c + (line + [Newline]);
    assert c + line + [Newline] == all;
    ReadsPrefixFirst(decode, c, line + [Newline], 0, None);
    assert all[|c|..|c| + |line|] == line;
    OnlyLine(all, |c|, line);
    LatestOfOne(decode, line, Parsed(decode, c));
  }

  /** A line may as well end with a carriage return and a newline. */
  lemma ReturnedLineAfterBoundary<S>(decode: Bytes -> Option<S>, c: Bytes, line: Bytes)
    requires AtBoundary(c) && line != [] && Newline !in line && line[|line| - 1] != Return
    ensures Parsed(decode, c + line + [Return, Newline]) == Parsed(decode, c + line + [Newline])
  {
    hide Records, Latest, RestDropped, BreakFrom, Chomp, Nonempty, Parsed;
    LineAfterBoundary(decode, c, line);
    var all := c + (line + [Return, Newline]);
    assert c + line + [Return, Newline] == all;
    ReadsReturnedLine(decode, c, line);
  }

  lemma ReadsReturnedLine<S>(decode: Bytes -> Option<S>, c: Bytes, line: Bytes)
    requires AtBoundary(c) && line != [] && Newline !in line
    ensures Parsed(decode, c + (line + [Return, Newline])) ==
            if decode(line).Some? then decode(line) else Parsed(decode, c)
  {
    hide Records, Latest, RestDropped, BreakFrom, Chomp, Nonempty;
    var all := c + (line + [Return, Newline]);
    ReadsPrefixFirst(decode, c, line + [Return, Newline], 0, None);
    assert all[|c|..|c| + |line| + 1] == line + [Return];
    OnlyReturnedLine(all, |c|, line);
    LatestOfOne(decode, line, Parsed(decode, c));
  }

  lemma OnlyReturnedLine(c: Bytes, p: nat, line: Bytes)
    requires p + |line| + 2 == |c| && c[p..p + |line| + 1] == line + [Return] && c[p + |line| + 1] == Newline
    requires line != [] && Newline !in line
    ensures Records(c, p) == [line]
  {
    hide Records, RestDropped, BreakFrom;
    BreakAfter(c, p, p + |line| + 1);
    RecordsStep(c, p);
    NothingLeft(c);
    assert Chomp(line + [Return]) == line;
    assert [line] + [] == [line];
  }

  /** An unterminated rest after a boundary. */
  lemma RestAfterBoundary<S>(decode: Bytes -> Option<S>, c: Bytes, rest: Bytes)
    requires AtBoundary(c) && Newline !in rest && Return !in rest
    ensures Parsed(decode, c + rest) ==
            if |rest| % BufferSize != 0 && decode(rest).Some? then decode(rest) else Parsed(decode, c)
  {
    hide Records, Latest, BreakFrom, RestDropped;
    var all := c + rest;
    ReadsPrefixFirst(decode, c, rest, 0, None);
    assert all[|c|..] == rest && all[|c|..|all|] == rest;
    BreakAfter(all, |c|, |all|);
    RestDroppedByLength(all, |c|);
    RecordsStep(all, |c|);
    if |rest| % BufferSize == 0 {
      LatestOfNone(decode, Parsed(decode, c));
    } else {
      LatestOfOne(decode, rest, Parsed(decode, c));
    }
  }

  /** The last status of a list, or what there was before. */
  function LastOr<S>(statuses: seq<S>, before: Option<S>): Option<S> {
    if statuses == [] then before else Some(statuses[|statuses| - 1])
  }

  lemma NothingToRead<S>(decode: Bytes -> Option<S>)
    ensures Parsed(decode, []) == None
  {
    NothingLeft([]);
  }

  /** After complete writes to a file that ended cleanly, the last one is what is read. */
  lemma {:induction false} WritesAreRead<S(!new)>(encode: S -> Bytes, decode: Bytes -> Option<S>, c: Bytes,
                                                  statuses: seq<S>)
    requires Codec(encode, decode) && AtBoundary(c)
    ensures Parsed(decode, c + Written(encode, statuses)) == LastOr(statuses, Parsed(decode, c))
    ensures AtBoundary(c + Written(encode, statuses))
  {
    hide Parsed, Codec, Written;
    if statuses == [] {
      WrittenNothing(encode, c);
    } else {
      var front, s := statuses[..|statuses| - 1], statuses[|statuses| - 1];
      var start := c + Written(encode, front);
      WritesAreRead(encode, decode, c, front);
      EncodedEndsPlainly(encode, decode, s);
      LineAfterBoundary(decode, start, encode(s));
      WrittenOnceMore(encode, c, statuses);
    }
  }

  lemma WrittenNothing<S>(encode: S -> Bytes, c: Bytes)
    ensures c + Written(encode, []) == c
  {
  }

  lemma WrittenOnceMore<S>(encode: S -> Bytes, c: Bytes, statuses: seq<S>)
    requires statuses != []
    ensures var front, s := statuses[..|statuses| - 1], statuses[|statuses| - 1];
            c + Written(encode, front) + encode(s) + [Newline] == c + Written(encode, statuses)
  {
  }

  lemma EncodedEndsPlainly<S(!new)>(encode: S -> Bytes, decode: Bytes -> Option<S>, s: S)
    requires Codec(encode, decode)
    ensures decode(encode(s)) == Some(s) && encode(s) != [] && Newline !in encode(s) && Return !in encode(s)
    ensures encode(s)[|encode(s)| - 1] != Return
  {
    assert encode(s)[|encode(s)| - 1] in encode(s);
  }

  /** No proper prefix of a record parses. */
  ghost predicate TornUnreadable<S(!new)>(encode: S -> Bytes, decode: Bytes -> Option<S>) {
    forall s, j :: 0 <= j < |encode(s)| ==> decode(encode(s)[..j]) == None
  }

  /** Complete writes followed by one of which only `k` bytes came through.  The reader returns
      the last complete record; the torn one counts only if at most its newline is missing,
      and then only if its length is not a multiple of the reader's buffer. */
  lemma LastCompleteRecord<S(!new)>(encode: S -> Bytes, decode: Bytes -> Option<S>, c: Bytes, statuses: seq<S>,
                                    next: S, k: nat)
    requires Codec(encode, decode) && TornUnreadable(encode, decode) && AtBoundary(c)
    requires k <= |Record(encode, next)|
    ensures Parsed(decode, c + Written(encode, statuses) + Record(encode, next)[..k]) ==
            if k > |encode(next)| || (k == |encode(next)| && k % BufferSize != 0) then Some(next)
            else LastOr(statuses, Parsed(decode, c))
  {
    hide Parsed, Codec;
    var start, torn := c + Written(encode, statuses), Record(encode, next)[..k];
    WritesAreRead(encode, decode, c, statuses);
    EncodedEndsPlainly(encode, decode, next);
    if k > |encode(next)| {
      LineAfterBoundary(decode, start, encode(next));
      assert start + torn == start + encode(next) + [Newline];
    } else {
      assert torn == encode(next)[..k];
      RestAfterBoundary(decode, start, torn);
      assert k == |encode(next)| ==> torn == encode(next);
    }
  }

  lemma LastOfGlued(rest: Bytes, e: Bytes)
    requires e != [] && Newline !in rest && Newline !in e && Return !in e
    ensures Newline !in rest + e && rest + e != [] && (rest + e)[|rest + e| - 1] != Return
  {
    assert e[|e| - 1] in e;
  }

  lemma GluedWrite(c: Bytes, p: nat, e: Bytes)
    requires p <= |c|
    ensures c[..p] + (c[p..] + e) + [Newline] == c + (e + [Newline])
    ensures p == |c| ==> c[p..] + e == e
  {
  }

  lemma BoundaryHasNoRest(c: Bytes)
    requires AtBoundary(c)
    ensures RestFrom(c) == |c|
  {
  }

  /** A complete write to a file in any condition.  It is what the file then says, provided
      the file ended with a newline or was empty; after a torn write the record is glued to
      the torn one and is lost unless the two happen to parse together. */
  lemma WriteToAnyFile<S(!new)>(encode: S -> Bytes, decode: Bytes -> Option<S>, c: Bytes, status: S)
    requires Codec(encode, decode)
    ensures var p := RestFrom(c);
            var glued := decode(c[p..] + encode(status));
            && Parsed(decode, c + Record(encode, status)) ==
                 (if glued.Some? then glued else Parsed(decode, c[..p]))
            && (AtBoundary(c) ==> Parsed(decode, c + Record(encode, status)) == Some(status))
  {
    var p, e := RestFrom(c), encode(status);
    assert e != [] && Newline !in e && Return !in e && decode(e) == Some(status);
    hide Codec, Parsed, RestFrom;
    LastOfGlued(c[p..], e);
    LineAfterBoundary(decode, c[..p], c[p..] + e);
    GluedWrite(c, p, e);
    if AtBoundary(c) {
      BoundaryHasNoRest(c);
    }
  }

  /** No beginning of a record, complete or not, parses together with a record after it. */
  ghost predicate GluedUnreadable<S(!new)>(encode: S -> Bytes, decode: Bytes -> Option<S>) {
    forall s, s', j :: 0 < j <= |encode(s)| ==> decode(encode(s)[..j] + encode(s')) == None
  }

  /** What is left of a write, if anything. */
  ghost predicate LeftByWrite<S(!new)>(encode: S -> Bytes, rest: Bytes) {
    rest == [] || exists s :: rest <= encode(s)
  }

  lemma BoundaryAtRest(c: Bytes)
    ensures RestFrom(c) == |c| <==> AtBoundary(c)
  {
  }

  /** A complete write to a file that at most ends with a torn record is read exactly if the
      file ended cleanly, or happens to say the same already: after a torn write the next one
      is lost. */
  lemma WriteIsReadIfBoundary<S(!new)>(encode: S -> Bytes, decode: Bytes -> Option<S>, c: Bytes, status: S)
    requires Codec(encode, decode) && GluedUnreadable(encode, decode)
    requires LeftByWrite(encode, c[RestFrom(c)..])
    ensures Parsed(decode, c + Record(encode, status)) == Some(status) <==>
              AtBoundary(c) || Parsed(decode, c[..RestFrom(c)]) == Some(status)
  {
    hide Parsed, RestFrom, Codec, AtBoundary;
    WriteToAnyFile(encode, decode, c, status);
    BoundaryAtRest(c);
    var rest := c[RestFrom(c)..];
    if rest != [] {
      var s :| rest <= encode(s);
      assert rest == encode(s)[..|rest|];
    }
  }

  // A format of one byte a record satisfies all that is assumed of encodings.

  function EncodeFlag(flag: bool): Bytes {
    if flag then [1] else [2]
  }

  function DecodeFlag(c: Bytes): Option<bool> {
    if c == [1] then Some(true) else if c == [2] then Some(false) else None
  }

  lemma FlagsAreACodec()
    ensures Codec(EncodeFlag, DecodeFlag) && TornUnreadable(EncodeFlag, DecodeFlag)
    ensures GluedUnreadable(EncodeFlag, DecodeFlag)
  {
  }

  /** A write after a torn one is lost, and so is the torn one that was readable before. */
  lemma TornWriteLosesTheNext()
    ensures LeftByWrite(EncodeFlag, [1][RestFrom([1])..])
    ensures Parsed(DecodeFlag, [1]) == Some(true)
    ensures Parsed(DecodeFlag, [1] + Record(EncodeFlag, false)) == None
  {
    hide Parsed;
    FlagsAreACodec();
    RestAfterBoundary(DecodeFlag, [], [1]);
    assert [] + [1] == [1];
    RestOfOne();
    WriteToAnyFile(EncodeFlag, DecodeFlag, [1], false);
    NothingToRead(DecodeFlag);
  }

  lemma RestOfOne()
    ensures RestFrom([1]) == 0 && [1][RestFrom([1])..] == EncodeFlag(true) && [1][..RestFrom([1])] == []
  {
    assert [1][..0] == [];
  }
}
