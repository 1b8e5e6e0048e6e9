/** The encoding of a command and its arguments in one string: a space after the command, a
    three-character delimiter between arguments.  Strings are sequences of bytes. */
module Arguments {

  import opened ByteStrings

  const Space: byte := 0x20

  /** U+222F, U+14F0 and U+2668 in UTF-8. */
  const Delimiter: Bytes := [0xE2, 0x88, 0xAF, 0xE1, 0x93, 0xB0, 0xE2, 0x99, 0xA8]

  datatype Command = Command(name: Bytes, args: seq<Bytes>)

  predicate OccursAt(s: Bytes, i: nat) {
    i + |Delimiter| <= |s| && s[i..i + |Delimiter|] == Delimiter
  }

  ghost predicate Contains(s: Bytes) {
    exists i: nat :: OccursAt(s, i)
  }

  /** The first occurrence of the delimiter at or after `i`, or the length of `s`. */
  function IndexFrom(s: Bytes, i: nat): (m: nat)
    requires i <= |s|
    ensures i <= m <= |s|
    ensures m < |s| ==> OccursAt(s, m)
    ensures forall k :: i <= k < m ==> !OccursAt(s, k)
    decreases |s| - i
  {
    if i == |s| then i else if OccursAt(s, i) then i else IndexFrom(s, i + 1)
  }

  function Split(s: Bytes): (parts: seq<Bytes>)
    ensures parts != []
  {
    var m := IndexFrom(s, 0);
    if m == |s| then [s] else [s[..m]] + Split(s[m + |Delimiter|..])
  }

  function Join(args: seq<Bytes>): Bytes {
    if |args| == 0 then []
    else if |args| == 1 then args[0]
    else args[0] + Delimiter + Join(args[1..])
  }

  function SpaceFrom(s: Bytes, i: nat): (m: nat)
    requires i <= |s|
    ensures i <= m <= |s|
    ensures m < |s| ==> s[m] == Space
    ensures forall k :: i <= k < m ==> s[k] != Space
    decreases |s| - i
  {
    if i == |s| || s[i] == Space then i else SpaceFrom(s, i + 1)
  }

  function JoinCommandArgs(c: Command): Bytes {
    c.name + [Space] + Join(c.args)
  }

  function SplitCommandArgs(s: Bytes): Command {
    var m := SpaceFrom(s, 0);
    if m == |s| then Command(s, []) else Command(s[..m], Split(s[m + 1..]))
  }

  // ----------------------------------------------------------- the delimiter's shape

  /** No proper suffix of the delimiter is also a prefix, so two occurrences never overlap and
      none straddles the end of an argument. */
  lemma NoStraddling(a: Bytes, rest: Bytes, i: nat)
    requires !Contains(a) && i < |a|
    ensures !OccursAt(a + Delimiter + rest, i)
  {
    var s := a + Delimiter + rest;
    if i + |Delimiter| <= |a| {
      assert a[i..i + |Delimiter|] == s[i..i + |Delimiter|];
      assert !OccursAt(a, i);
    } else {
      var k := |a| - i;
      assert s[i..i + |Delimiter|][k] == Delimiter[0];
      assert k == 6 ==> s[i..i + |Delimiter|][7] == Delimiter[1];
    }
  }

  lemma SplitOne(a: Bytes, rest: Bytes)
    requires !Contains(a)
    ensures Split(a + Delimiter + rest) == [a] + Split(rest)
  {
    var s := a + Delimiter + rest;
    var m := IndexFrom(s, 0);
    forall k | 0 <= k < |a| ensures !OccursAt(s, k) {
      NoStraddling(a, rest, k);
    }
    assert s[|a|..|a| + |Delimiter|] == Delimiter;
    assert OccursAt(s, |a|);
    assert m == |a|;
    assert s[..m] == a && s[m + |Delimiter|..] == rest;
  }

  lemma {:induction false} JoinThenSplit(args: seq<Bytes>)
    requires args != [] && forall a :: a in args ==> !Contains(a)
    ensures Split(Join(args)) == args
    decreases |args|
  {
    assert args[0] in args;
    if |args| == 1 {
      assert args == [args[0]];
    } else {
      assert forall a :: a in args[1..] ==> a in args;
      JoinThenSplit(args[1..]);
      SplitOne(args[0], Join(args[1..]));
      assert args == [args[0]] + args[1..];
    }
  }

  lemma {:induction false} PartsHoldNoDelimiter(s: Bytes)
    ensures forall a :: a in Split(s) ==> !Contains(a)
    decreases |s|
  {
    var m := IndexFrom(s, 0);
    forall i: nat | OccursAt(s[..m], i) ensures false {
      assert s[..m][i..i + |Delimiter|] == s[i..i + |Delimiter|];
      assert OccursAt(s, i);
    }
    if m < |s| {
      PartsHoldNoDelimiter(s[m + |Delimiter|..]);
    } else {
      assert s[..m] == s;
    }
  }

  lemma {:induction false} SplitThenJoin(s: Bytes)
    ensures Join(Split(s)) == s
    decreases |s|
  {
    var m := IndexFrom(s, 0);
    if m < |s| {
      var rest := s[m + |Delimiter|..];
      SplitThenJoin(rest);
      assert Split(s)[1..] == Split(rest);
      assert s == s[..m] + Delimiter + rest;
    }
  }

  // ------------------------------------------------------------------ the round trips

  /** Splitting undoes joining exactly for a command without a space and a nonempty list of
      arguments none of which contains the delimiter. */
  lemma SplitUndoesJoin(c: Command)
    ensures SplitCommandArgs(JoinCommandArgs(c)) == c <==>
              Space !in c.name && c.args != [] && forall a :: a in c.args ==> !Contains(a)
  {
    var s := JoinCommandArgs(c);
    var m := SpaceFrom(s, 0);
    assert s[|c.name|] == Space;
    if Space !in c.name {
      assert forall k :: 0 <= k < |c.name| ==> s[k] == c.name[k];
      assert m == |c.name|;
      assert s[..m] == c.name && s[m + 1..] == Join(c.args);
      if c.args != [] && forall a :: a in c.args ==> !Contains(a) {
        JoinThenSplit(c.args);
      }
    }
    if SplitCommandArgs(s) == c {
      PartsHoldNoDelimiter(s[m + 1..]);
    }
  }

  /** Joining undoes splitting exactly for strings that have a space. */
  lemma JoinUndoesSplit(s: Bytes)
    ensures JoinCommandArgs(SplitCommandArgs(s)) == s <==> Space in s
  {
    var m := SpaceFrom(s, 0);
    if m < |s| {
      SplitThenJoin(s[m + 1..]);
      assert s == s[..m] + [Space] + s[m + 1..];
    } else {
      assert |JoinCommandArgs(SplitCommandArgs(s))| == |s| + 1;
    }
  }
}
