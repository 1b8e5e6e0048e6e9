/** Where a command line is broken into tokens, told from the positions of its quotes,
    backticks and backslashes. */
module Quoting {
  import opened Command

  // ------------------------------------------------------------ what stands before

  function TrailingBackslashes(p: string): nat {
    if p == "" || p[|p| - 1] != '\\' then 0 else 1 + TrailingBackslashes(p[..|p| - 1])
  }

  /** What follows `p` is escaped: an odd number of backslashes stands right before it. */
  predicate Escaped(p: string) {
    TrailingBackslashes(p) % 2 == 1
  }

  /** The backticks in `p` that are not escaped. */
  function Backticks(p: string): nat {
    if p == "" then 0
    else Backticks(p[..|p| - 1]) + (if p[|p| - 1] == '`' && !Escaped(p[..|p| - 1]) then 1 else 0)
  }

  predicate InBackticks(p: string) {
    Backticks(p) % 2 == 1
  }

  /** The double quotes in `p` that are neither escaped nor inside backticks. */
  function Quotes(p: string): nat {
    if p == "" then 0
    else
      var front := p[..|p| - 1];
      Quotes(front) + (if p[|p| - 1] == '"' && !Escaped(front) && !InBackticks(front) then 1 else 0)
  }

  predicate InQuotes(p: string) {
    Quotes(p) % 2 == 1
  }

  /** At `i` stands a pipe or white space, not escaped, and outside quotes and backticks. */
  predicate BreakAt(s: string, i: nat)
    requires i < |s|
  {
    var p := s[..i];
    (s[i] == '|' || IsSpace(s[i])) && !Escaped(p) && !InQuotes(p) && !InBackticks(p)
  }

  lemma SpaceIsPlain(r: char)
    requires r == '|' || IsSpace(r)
    ensures r != '\\' && r != '"' && r != '`'
  {
  }

  /** The tokenizer's mode says exactly that. */
  lemma {:induction false} ModeByCounting(s: string)
    ensures Lex(s).mode == Mode(InQuotes(s), InBackticks(s), Escaped(s))
    decreases |s|
  {
    if s != "" {
      var front, r := s[..|s| - 1], s[|s| - 1];
      ModeByCounting(front);
      if Breaks(Lex(front).mode, r) {
        SpaceIsPlain(r);
      }
    }
  }

  lemma BreaksByCounting(s: string, r: char)
    ensures Breaks(Lex(s).mode, r) <==> BreakAt(s + [r], |s|)
  {
    hide Lex, IsSpace, Escaped, InQuotes, InBackticks;
    ModeByCounting(s);
    assert (s + [r])[..|s|] == s;
  }

  lemma BreaksStay(s: string, r: char)
    ensures forall i: nat :: i < |s| ==> (BreakAt(s + [r], i) <==> BreakAt(s, i))
  {
    forall i: nat | i < |s| ensures BreakAt(s + [r], i) <==> BreakAt(s, i) {
      hide IsSpace, Escaped, InQuotes, InBackticks;
      assert (s + [r])[..i] == s[..i];
    }
  }

  // ------------------------------------------------------------------ the tokens

  datatype Span = Span(from: nat, to: nat)

  /** A stretch without breaks that cannot be made longer. */
  ghost predicate WordAt(s: string, sp: Span) {
    && sp.from < sp.to <= |s|
    && (forall i :: sp.from <= i < sp.to ==> !BreakAt(s, i))
    && (sp.from > 0 ==> BreakAt(s, sp.from - 1))
    && (sp.to < |s| ==> BreakAt(s, sp.to))
  }

  ghost predicate PipeAt(s: string, sp: Span) {
    sp.from < |s| && sp.to == sp.from + 1 && BreakAt(s, sp.from) && s[sp.from] == '|'
  }

  ghost predicate Covered(spans: seq<Span>, i: nat) {
    exists m :: 0 <= m < |spans| && spans[m].from <= i < spans[m].to
  }

  /** Breaking pipes and words, in order, nothing but breaking white space left out. */
  ghost predicate SpansOf(s: string, spans: seq<Span>) {
    && (forall m :: 0 <= m < |spans| ==> WordAt(s, spans[m]) || PipeAt(s, spans[m]))
    && (forall m, n :: 0 <= m < n < |spans| ==> spans[m].to <= spans[n].from)
    && (forall i: nat :: i < |s| && (!BreakAt(s, i) || s[i] == '|') ==> Covered(spans, i))
  }

  ghost predicate TextsOf(s: string, spans: seq<Span>, ts: seq<string>) {
    && |ts| == |spans|
    && forall m :: 0 <= m < |spans| ==> spans[m].from <= spans[m].to <= |s| && ts[m] == s[spans[m].from..spans[m].to]
  }

  /** The spans found so far lie before `start`, where the current stretch without breaks begins. */
  ghost predicate SpannedSoFar(s: string, l: Lexer, spans: seq<Span>, start: nat) {
    && start <= |s| && l.current == s[start..]
    && (forall i :: start <= i < |s| ==> !BreakAt(s, i))
    && (start > 0 ==> BreakAt(s, start - 1))
    && TextsOf(s, spans, l.tokens)
    && (forall m :: 0 <= m < |spans| ==> spans[m].to <= start && (WordAt(s, spans[m]) || PipeAt(s, spans[m])))
    && (forall m :: 0 <= m < |spans| && WordAt(s, spans[m]) ==> spans[m].to < |s|)
    && (forall m, n :: 0 <= m < n < |spans| ==> spans[m].to <= spans[n].from)
    && (forall i: nat :: i < start && (!BreakAt(s, i) || s[i] == '|') ==> Covered(spans, i))
  }

  lemma CoveredStays(spans: seq<Span>, sp: Span, i: nat)
    requires Covered(spans, i) || sp.from <= i < sp.to
    ensures Covered(spans + [sp], i)
  {
    if Covered(spans, i) {
      var m :| 0 <= m < |spans| && spans[m].from <= i < spans[m].to;
      assert (spans + [sp])[m] == spans[m];
    } else {
      assert (spans + [sp])[|spans|] == sp;
    }
  }

  lemma SpansAfterCharacter(s: string, spans: seq<Span>, r: char)
    requires forall m :: 0 <= m < |spans| ==> WordAt(s, spans[m]) || PipeAt(s, spans[m])
    requires forall m :: 0 <= m < |spans| && WordAt(s, spans[m]) ==> spans[m].to < |s|
    ensures forall m :: 0 <= m < |spans| ==> WordAt(s + [r], spans[m]) || PipeAt(s + [r], spans[m])
    ensures forall m :: 0 <= m < |spans| && WordAt(s + [r], spans[m]) ==> spans[m].to < |s + [r]|
  {
    hide BreakAt;
    BreaksStay(s, r);
  }

  lemma TextsStay(s: string, spans: seq<Span>, ts: seq<string>, r: char)
    requires TextsOf(s, spans, ts)
    ensures TextsOf(s + [r], spans, ts)
  {
    forall m | 0 <= m < |spans| ensures ts[m] == (s + [r])[spans[m].from..spans[m].to] {
      assert (s + [r])[spans[m].from..spans[m].to] == s[spans[m].from..spans[m].to];
    }
  }

  /** A character that stays in its word. */
  lemma SpanWithin(s: string, l: Lexer, spans: seq<Span>, start: nat, r: char)
    requires SpannedSoFar(s, l, spans, start) && l == Lex(s) && !Breaks(l.mode, r)
    ensures SpannedSoFar(s + [r], Step(l, r), spans, start)
  {
    BreaksByCounting(s, r);
    BreaksStay(s, r);
    SpansAfterCharacter(s, spans, r);
    TextsStay(s, spans, l.tokens, r);
    hide BreakAt, Lex, WordAt, PipeAt, TextsOf, Covered;
    assert (s + [r])[start..] == s[start..] + [r];
  }

  /** What `Flush` makes of the current stretch. */
  lemma SpanFlush(s: string, l: Lexer, spans: seq<Span>, start: nat) returns (more: seq<Span>)
    requires SpannedSoFar(s, l, spans, start)
    ensures TextsOf(s, more, Flush(l).tokens) && SpansOf(s, more)
    ensures forall m :: 0 <= m < |more| ==> more[m].to <= |s|
  {
    hide BreakAt, Covered;
    if |l.current| > 0 {
      var sp := Span(start, |s|);
      more := spans + [sp];
      assert s[start..|s|] == s[start..];
      assert WordAt(s, sp);
      forall i: nat | i < |s| && (!BreakAt(s, i) || s[i] == '|') ensures Covered(more, i) {
        CoveredStays(spans, sp, i);
      }
    } else {
      more := spans;
    }
  }

  /** A character that breaks. */
  lemma SpanBreak(s: string, l: Lexer, spans: seq<Span>, start: nat, r: char) returns (more: seq<Span>)
    requires SpannedSoFar(s, l, spans, start) && l == Lex(s) && Breaks(l.mode, r)
    ensures SpannedSoFar(s + [r], Step(l, r), more, |s| + 1)
  {
    hide BreakAt, Lex, SpannedSoFar, IsSpace;
    more := SpanFlush(s, l, spans, start);
    BreaksByCounting(s, r);
    BreaksStay(s, r);
    FlushedSpans(s, more, r);
    TextsStay(s, more, Flush(l).tokens, r);
    if r == '|' {
      var sp := Span(|s|, |s| + 1);
      AddPipe(s, more, Flush(l).tokens, r);
      more := more + [sp];
    } else {
      NoPipe(s, more, Flush(l).tokens, r);
    }
    BreakIsNew(s, l, more, r);
  }

  /** What has been flushed, one breaking character later. */
  ghost predicate Flushed(s: string, spans: seq<Span>, ts: seq<string>) {
    && TextsOf(s, spans, ts)
    && (forall m :: 0 <= m < |spans| ==> spans[m].to <= |s| && (WordAt(s, spans[m]) || PipeAt(s, spans[m])))
    && (forall m :: 0 <= m < |spans| && WordAt(s, spans[m]) ==> spans[m].to < |s|)
    && (forall m, n :: 0 <= m < n < |spans| ==> spans[m].to <= spans[n].from)
  }

  lemma FlushedSpans(s: string, spans: seq<Span>, r: char)
    requires SpansOf(s, spans) && BreakAt(s + [r], |s|)
    requires forall m :: 0 <= m < |spans| ==> spans[m].to <= |s|
    ensures forall m :: 0 <= m < |spans| ==> WordAt(s + [r], spans[m]) || PipeAt(s + [r], spans[m])
    ensures forall i: nat :: i < |s| && (!BreakAt(s + [r], i) || (s + [r])[i] == '|') ==> Covered(spans, i)
  {
    hide BreakAt, Covered;
    BreaksStay(s, r);
  }

  lemma AddPipe(s: string, spans: seq<Span>, ts: seq<string>, r: char)
    requires r == '|' && BreakAt(s + [r], |s|) && TextsOf(s + [r], spans, ts)
    requires forall m :: 0 <= m < |spans| ==> spans[m].to <= |s| && (WordAt(s + [r], spans[m]) || PipeAt(s + [r], spans[m]))
    requires forall m, n :: 0 <= m < n < |spans| ==> spans[m].to <= spans[n].from
    requires forall i: nat :: i < |s| && (!BreakAt(s + [r], i) || (s + [r])[i] == '|') ==> Covered(spans, i)
    ensures var more := spans + [Span(|s|, |s| + 1)];
            && Flushed(s + [r], more, ts + ["|"])
            && forall i: nat :: i < |s| + 1 && (!BreakAt(s + [r], i) || (s + [r])[i] == '|') ==> Covered(more, i)
  {
    hide BreakAt;
    var sp := Span(|s|, |s| + 1);
    var more := spans + [sp];
    assert (s + [r])[|s|..|s| + 1] == "|";
    assert PipeAt(s + [r], sp) && !WordAt(s + [r], sp);
    forall i: nat | i < |s| + 1 && (!BreakAt(s + [r], i) || (s + [r])[i] == '|') ensures Covered(more, i) {
      CoveredStays(spans, sp, i);
    }
  }

  lemma NoPipe(s: string, spans: seq<Span>, ts: seq<string>, r: char)
    requires r != '|' && BreakAt(s + [r], |s|) && TextsOf(s + [r], spans, ts)
    requires forall m :: 0 <= m < |spans| ==> spans[m].to <= |s| && (WordAt(s + [r], spans[m]) || PipeAt(s + [r], spans[m]))
    requires forall m, n :: 0 <= m < n < |spans| ==> spans[m].to <= spans[n].from
    requires forall i: nat :: i < |s| && (!BreakAt(s + [r], i) || (s + [r])[i] == '|') ==> Covered(spans, i)
    ensures Flushed(s + [r], spans, ts)
    ensures forall i: nat :: i < |s| + 1 && (!BreakAt(s + [r], i) || (s + [r])[i] == '|') ==> Covered(spans, i)
  {
    hide BreakAt, Covered;
  }

  lemma BreakIsNew(s: string, l: Lexer, spans: seq<Span>, r: char)
    requires Breaks(l.mode, r) && BreakAt(s + [r], |s|) && Flushed(s + [r], spans, Step(l, r).tokens)
    requires forall i: nat :: i < |s| + 1 && (!BreakAt(s + [r], i) || (s + [r])[i] == '|') ==> Covered(spans, i)
    ensures SpannedSoFar(s + [r], Step(l, r), spans, |s| + 1)
  {
    hide BreakAt, Covered, IsSpace, WordAt, PipeAt, TextsOf;
    assert (s + [r])[|s| + 1..] == "";
  }

  lemma {:induction false} LexSpans(s: string) returns (spans: seq<Span>, start: nat)
    ensures SpannedSoFar(s, Lex(s), spans, start)
    decreases |s|
  {
    if s == "" {
      spans, start := [], 0;
    } else {
      var front, r := s[..|s| - 1], s[|s| - 1];
      assert s == front + [r];
      spans, start := LexSpans(front);
      LexStep(front, r);
      hide SpannedSoFar, Lex, Breaks;
      if Breaks(Lex(front).mode, r) {
        spans := SpanBreak(front, Lex(front), spans, start, r);
        start := |s|;
      } else {
        SpanWithin(front, Lex(front), spans, start, r);
      }
    }
  }

  /** The tokens of a string are, in order, its breaking pipes and the longest stretches
      without a break, and a break is a pipe or white space that is not escaped and stands
      outside quotes and backticks. */
  lemma TokensAreTheSpans(s: string) returns (spans: seq<Span>)
    ensures SpansOf(s, spans) && TextsOf(s, spans, Tokens(s))
  {
    hide SpansOf, TextsOf, SpannedSoFar, Lex, Flush;
    var found, start := LexSpans(s);
    spans := SpanFlush(s, Lex(s), found, start);
  }
}
