/** The command-line tokenizer: words kept verbatim, quotes, backticks and escapes
    included, unquoted pipes standing alone. */
module Command {

  // ------------------------------------------------------------------ characters

  /** Unicode white space. */
  predicate IsSpace(c: char) {
    || '\t' <= c <= '\r' || c == ' ' || c == '\U{0085}' || c == '\U{00A0}' || c == '\U{1680}'
    || '\U{2000}' <= c <= '\U{200A}' || c == '\U{2028}' || c == '\U{2029}' || c == '\U{202F}'
    || c == '\U{205F}' || c == '\U{3000}'
  }

  /** Where a character stands: inside double quotes, inside backticks, after a backslash. */
  datatype Mode = Mode(quote: bool, backtick: bool, escape: bool)

  const Plain := Mode(false, false, false)

  predicate Breaks(m: Mode, r: char) {
    !m.escape && !m.quote && !m.backtick && (r == '|' || IsSpace(r))
  }

  /** The mode after a character that stays within its word. */
  function Enter(m: Mode, r: char): Mode {
    if m.escape then m.(escape := false)
    else if r == '\\' then m.(escape := true)
    else if r == '"' && !m.backtick then m.(quote := !m.quote)
    else if r == '`' then m.(backtick := !m.backtick)
    else m
  }

  // -------------------------------------------------------------- the tokenizer

  datatype Lexer = Lexer(mode: Mode, current: string, tokens: seq<string>)

  const Start := Lexer(Plain, "", [])

  function Flush(l: Lexer): Lexer {
    if |l.current| > 0 then l.(current := "", tokens := l.tokens + [l.current]) else l
  }

  function Step(l: Lexer, r: char): Lexer {
    if Breaks(l.mode, r) then
      var f := Flush(l);
      if r == '|' then f.(tokens := f.tokens + ["|"]) else f
    else l.(current := l.current + [r], mode := Enter(l.mode, r))
  }

  function Lex(s: string): Lexer {
    if s == "" then Start else Step(Lex(s[..|s| - 1]), s[|s| - 1])
  }

  function Tokens(s: string): seq<string> {
    Flush(Lex(s)).tokens
  }

  // --------------------------------------------------- words, and what is a spelling

  datatype Ending = Broken | Within(mode: Mode)

  /** Reading `w` as part of one word. */
  function Feed(w: string): Ending {
    if w == "" then Within(Plain)
    else
      var before := Feed(w[..|w| - 1]);
      if before.Broken? || Breaks(before.mode, w[|w| - 1]) then Broken
      else Within(Enter(before.mode, w[|w| - 1]))
  }

  ghost predicate IsWord(w: string) {
    w != "" && Feed(w).Within?
  }

  /** A word that leaves no quote, backtick or escape open. */
  ghost predicate IsClosed(w: string) {
    w != "" && Feed(w) == Within(Plain)
  }

  ghost predicate Blank(gap: string) {
    forall c :: c in gap ==> IsSpace(c)
  }

  /** Pipes and words; only the last may leave something open. */
  ghost predicate TokenList(ts: seq<string>) {
    && (forall i :: 0 <= i < |ts| ==> ts[i] == "|" || IsWord(ts[i]))
    && (forall i :: 0 <= i < |ts| - 1 ==> ts[i] == "|" || IsClosed(ts[i]))
  }

  /** The tokens with the gaps before, between and after them. */
  ghost function Weave(gaps: seq<string>, ts: seq<string>): string
    requires |gaps| == |ts| + 1
  {
    if ts == [] then gaps[0]
    else Weave(gaps[..|ts|], ts[..|ts| - 1]) + ts[|ts| - 1] + gaps[|ts|]
  }

  /** White space fills the gaps; two neighbouring words have a gap between them, and no gap
      follows a word that was left open. */
  ghost predicate Gaps(gaps: seq<string>, ts: seq<string>) {
    && |gaps| == |ts| + 1
    && (forall i :: 0 <= i < |gaps| ==> Blank(gaps[i]))
    && (forall i :: 0 < i < |ts| && gaps[i] == "" ==> ts[i - 1] == "|" || ts[i] == "|")
    && (ts != [] && ts[|ts| - 1] != "|" && !IsClosed(ts[|ts| - 1]) ==> gaps[|ts|] == "")
  }

  ghost predicate Spells(s: string, ts: seq<string>, gaps: seq<string>) {
    TokenList(ts) && Gaps(gaps, ts) && s == Weave(gaps, ts)
  }

  lemma FeedNothing()
    ensures Feed("") == Within(Plain)
  {
  }

  lemma FeedStep(w: string, r: char)
    ensures Feed(w + [r]) == var b := Feed(w);
              if b.Broken? || Breaks(b.mode, r) then Broken else Within(Enter(b.mode, r))
  {
    assert (w + [r])[..|w|] == w;
  }

  lemma LexStep(s: string, r: char)
    ensures Lex(s + [r]) == Step(Lex(s), r)
  {
    assert (s + [r])[..|s|] == s;
  }

  // ------------------------------------------------ a spelling determines its tokens

  lemma {:induction false} LexGap(s: string, gap: string)
    requires Blank(gap) && Lex(s).mode == Plain
    ensures Lex(s + gap) == if gap == "" then Lex(s) else Flush(Lex(s))
    decreases |gap|
  {
    if gap == "" {
      assert s + gap == s;
    } else {
      var front, r := gap[..|gap| - 1], gap[|gap| - 1];
      assert r in gap;
      assert forall c :: c in front ==> c in gap;
      LexGap(s, front);
      assert s + gap == (s + front) + [r];
      LexStep(s + front, r);
    }
  }

  lemma {:induction false} LexWord(s: string, w: string)
    requires Lex(s).mode == Plain && Lex(s).current == "" && Feed(w).Within?
    ensures Lex(s + w) == Lex(s).(current := w, mode := Feed(w).mode)
    decreases |w|
  {
    hide Lex, Feed, Breaks, Enter;
    if w == "" {
      FeedNothing();
      assert s + w == s;
    } else {
      var front, r := w[..|w| - 1], w[|w| - 1];
      assert w == front + [r];
      FeedStep(front, r);
      LexWord(s, front);
      assert s + w == (s + front) + [r];
      LexStep(s + front, r);
    }
  }

  /** One more token and the gap after it. */
  lemma LexNext(s: string, t: string, gap: string)
    requires t == "|" || IsWord(t)
    requires Lex(s).mode == Plain && (Lex(s).current == "" || t == "|")
    requires Blank(gap) && (t == "|" || IsClosed(t) || gap == "")
    ensures var l := Lex(s + t + gap);
            && Flush(l).tokens == Flush(Lex(s)).tokens + [t]
            && (t == "|" || IsClosed(t) ==> l.mode == Plain)
            && (t == "|" || gap != "" ==> l.current == "")
  {
    if t == "|" {
      assert s + t == s + ['|'];
      LexStep(s, '|');
      LexGap(s + t, gap);
    } else {
      LexWord(s, t);
      if gap == "" {
        assert s + t + gap == s + t;
      } else {
        LexGap(s + t, gap);
      }
    }
  }

  lemma {:induction false} LexWeave(gaps: seq<string>, ts: seq<string>)
    requires TokenList(ts) && Gaps(gaps, ts)
    ensures var l := Lex(Weave(gaps, ts));
            && Flush(l).tokens == ts
            && (ts == [] || ts[|ts| - 1] == "|" || IsClosed(ts[|ts| - 1]) ==> l.mode == Plain)
            && (ts == [] || ts[|ts| - 1] == "|" || gaps[|ts|] != "" ==> l.current == "")
    decreases |ts|
  {
    if ts == [] {
      assert "" + gaps[0] == gaps[0];
      LexGap("", gaps[0]);
    } else {
      var n := |ts| - 1;
      assert ts == ts[..n] + [ts[n]];
      LexWeave(gaps[..n + 1], ts[..n]);
      LexNext(Weave(gaps[..n + 1], ts[..n]), ts[n], gaps[n + 1]);
    }
  }

  // ------------------------------------------------------- every string is a spelling

  /** The gaps found so far, the last of them still growing unless a word is being read. */
  ghost predicate SpelledSoFar(s: string, l: Lexer, gaps: seq<string>) {
    && TokenList(l.tokens) && Gaps(gaps, l.tokens) && s == Weave(gaps, l.tokens) + l.current
    && (forall i :: 0 <= i < |l.tokens| ==> l.tokens[i] == "|" || IsClosed(l.tokens[i]))
    && Feed(l.current) == Within(l.mode)
    && (l.tokens != [] && gaps[|l.tokens|] == "" ==> l.tokens[|l.tokens| - 1] == "|")
  }

  /** Closing the gaps with one more token and a gap after it. */
  lemma WeaveMore(gaps: seq<string>, ts: seq<string>, t: string, gap: string)
    requires TokenList(ts) && Gaps(gaps, ts)
    requires forall i :: 0 <= i < |ts| ==> ts[i] == "|" || IsClosed(ts[i])
    requires t == "|" || IsWord(t)
    requires Blank(gap) && (t == "|" || IsClosed(t) || gap == "")
    requires ts != [] && gaps[|ts|] == "" ==> ts[|ts| - 1] == "|" || t == "|"
    ensures TokenList(ts + [t]) && Gaps(gaps + [gap], ts + [t])
    ensures Weave(gaps + [gap], ts + [t]) == Weave(gaps, ts) + t + gap
  {
    assert (gaps + [gap])[..|ts| + 1] == gaps;
    assert (ts + [t])[..|ts|] == ts;
  }

  /** One more blank in the last gap. */
  lemma WeaveBlank(gaps: seq<string>, ts: seq<string>, r: char) returns (wider: seq<string>)
    requires TokenList(ts) && Gaps(gaps, ts) && IsSpace(r)
    requires forall i :: 0 <= i < |ts| ==> ts[i] == "|" || IsClosed(ts[i])
    ensures Gaps(wider, ts) && Weave(wider, ts) == Weave(gaps, ts) + [r] && wider[|ts|] != ""
  {
    wider := gaps[..|ts|] + [gaps[|ts|] + [r]];
    assert wider[..|ts|] == gaps[..|ts|];
    if ts != [] {
      assert Weave(wider, ts) == Weave(wider[..|ts|], ts[..|ts| - 1]) + ts[|ts| - 1] + wider[|ts|];
    }
  }

  lemma SpellWithinWord(s: string, l: Lexer, gaps: seq<string>, r: char)
    requires SpelledSoFar(s, l, gaps) && !Breaks(l.mode, r)
    ensures SpelledSoFar(s + [r], Step(l, r), gaps)
  {
    FeedStep(l.current, r);
    hide TokenList, Weave, IsClosed;
    assert s + [r] == Weave(gaps, l.tokens) + (l.current + [r]);
  }

  /** A break ends the word being read, if there is one. */
  lemma SpellFlush(s: string, l: Lexer, gaps: seq<string>, gap: string) returns (more: seq<string>)
    requires SpelledSoFar(s, l, gaps) && l.mode == Plain && |l.current| > 0 && Blank(gap)
    ensures var ts := Flush(l).tokens;
            && TokenList(ts) && Gaps(more, ts) && s + gap == Weave(more, ts)
            && (forall i :: 0 <= i < |ts| ==> ts[i] == "|" || IsClosed(ts[i]))
            && more[|ts|] == gap
  {
    WeaveMore(gaps, l.tokens, l.current, gap);
    more := gaps + [gap];
  }

  lemma SpellBlank(s: string, l: Lexer, gaps: seq<string>, r: char) returns (more: seq<string>)
    requires SpelledSoFar(s, l, gaps) && Breaks(l.mode, r) && r != '|'
    ensures SpelledSoFar(s + [r], Step(l, r), more)
  {
    if |l.current| > 0 {
      more := SpellFlush(s, l, gaps, [r]);
    } else {
      more := WeaveBlank(gaps, l.tokens, r);
    }
    hide Gaps, Weave, TokenList;
  }

  lemma SpellPipe(s: string, l: Lexer, gaps: seq<string>) returns (more: seq<string>)
    requires SpelledSoFar(s, l, gaps) && Breaks(l.mode, '|')
    ensures SpelledSoFar(s + ['|'], Step(l, '|'), more)
  {
    var ts := Flush(l).tokens;
    var gaps0 := gaps;
    if |l.current| > 0 {
      gaps0 := SpellFlush(s, l, gaps, "");
      assert s + "" == s;
    } else {
      assert s == Weave(gaps, ts);
    }
    WeaveMore(gaps0, ts, "|", "");
    more := gaps0 + [""];
    hide Gaps, Weave, TokenList;
    assert s + "|" + "" == s + ['|'];
  }

  lemma {:induction false} LexSpells(s: string) returns (gaps: seq<string>)
    ensures SpelledSoFar(s, Lex(s), gaps)
    decreases |s|
  {
    if s == "" {
      gaps := [""];
    } else {
      var front, r := s[..|s| - 1], s[|s| - 1];
      assert s == front + [r];
      var l := Lex(front);
      gaps := LexSpells(front);
      hide SpelledSoFar;
      if !Breaks(l.mode, r) {
        SpellWithinWord(front, l, gaps, r);
      } else if r == '|' {
        gaps := SpellPipe(front, l, gaps);
      } else {
        gaps := SpellBlank(front, l, gaps, r);
      }
    }
  }

  /** The tokenizer finds `ts` exactly when `ts`, with suitable gaps, spells the string. */
  lemma TokensAreTheSpelling(s: string, ts: seq<string>)
    ensures Tokens(s) == ts <==> exists gaps :: Spells(s, ts, gaps)
  {
    hide Spells, Lex, Flush;
    var gaps := TokensSpell(s);
    if gaps' :| Spells(s, ts, gaps') {
      SpellingIsUnique(s, ts, gaps');
    }
  }

  lemma SpellingIsUnique(s: string, ts: seq<string>, gaps: seq<string>)
    requires Spells(s, ts, gaps)
    ensures Tokens(s) == ts
  {
    hide TokenList, Gaps, Weave, Lex, IsClosed;
    LexWeave(gaps, ts);
  }

  lemma TokensSpell(s: string) returns (gaps: seq<string>)
    ensures Spells(s, Tokens(s), gaps)
  {
    hide TokenList, Weave, Lex, IsClosed, Feed, Blank;
    gaps := LexSpells(s);
    var l := Lex(s);
    if |l.current| > 0 {
      WeaveMore(gaps, l.tokens, l.current, "");
      gaps := gaps + [""];
      assert Weave(gaps, Tokens(s)) == s + "" == s;
    } else {
      assert s == Weave(gaps, l.tokens) + "" == Weave(gaps, l.tokens);
    }
  }

  // -------------------------------------------------------------------- pipelines

  datatype Grouping = Grouping(done: seq<seq<string>>, current: seq<string>)

  function Close(p: Grouping): Grouping {
    if |p.current| > 0 then Grouping(p.done + [p.current], []) else p
  }

  function Group(ts: seq<string>): Grouping {
    if ts == [] then Grouping([], [])
    else
      var p := Group(ts[..|ts| - 1]);
      var t := ts[|ts| - 1];
      if t == "|" then Close(p) else p.(current := p.current + [t])
  }

  /** The commands between the pipes; empty ones are dropped. */
  function SplitAtPipes(ts: seq<string>): seq<seq<string>> {
    Close(Group(ts)).done
  }

  function Pipeline(s: string): seq<seq<string>> {
    SplitAtPipes(Tokens(s))
  }

  /** The commands in one list, with a pipe between each two. */
  function Flatten(pipeline: seq<seq<string>>): seq<string> {
    if |pipeline| == 0 then []
    else if |pipeline| == 1 then pipeline[0]
    else Flatten(pipeline[..|pipeline| - 1]) + ["|"] + pipeline[|pipeline| - 1]
  }

  ghost predicate Commands(pipeline: seq<seq<string>>) {
    forall c :: c in pipeline ==> c != [] && "|" !in c
  }

  lemma GroupStep(ts: seq<string>, t: string)
    ensures Group(ts + [t]) == if t == "|" then Close(Group(ts)) else Group(ts).(current := Group(ts).current + [t])
  {
    assert (ts + [t])[..|ts|] == ts;
  }

  lemma {:induction false} GroupMakesCommands(ts: seq<string>)
    ensures Commands(Group(ts).done) && "|" !in Group(ts).current
    decreases |ts|
  {
    if ts != [] {
      GroupMakesCommands(ts[..|ts| - 1]);
    }
  }

  lemma {:induction false} GroupCommand(ts: seq<string>, c: seq<string>)
    requires "|" !in c
    ensures Group(ts + c) == Group(ts).(current := Group(ts).current + c)
    decreases |c|
  {
    if c == [] {
      assert ts + c == ts;
      assert Group(ts).current + [] == Group(ts).current;
    } else {
      var front, t := c[..|c| - 1], c[|c| - 1];
      assert c == front + [t];
      assert forall x :: x in front ==> x in c;
      GroupCommand(ts, front);
      assert ts + c == (ts + front) + [t];
      GroupStep(ts + front, t);
      assert Group(ts).current + c == Group(ts).current + front + [t];
    }
  }

  /** One more command in the flat list. */
  lemma GroupNextCommand(flat: seq<string>, front: seq<seq<string>>, last: seq<string>, c: seq<string>)
    requires Group(flat) == Grouping(front, last) && last != [] && "|" !in c
    ensures Group(flat + ["|"] + c) == Grouping(front + [last], c)
  {
    GroupStep(flat, "|");
    GroupCommand(flat + ["|"], c);
    assert [] + c == c;
  }

  lemma {:induction false} GroupFlattened(pipeline: seq<seq<string>>)
    requires Commands(pipeline) && pipeline != []
    ensures Group(Flatten(pipeline)) == Grouping(pipeline[..|pipeline| - 1], pipeline[|pipeline| - 1])
    decreases |pipeline|
  {
    var n := |pipeline| - 1;
    assert pipeline[n] in pipeline;
    if n == 0 {
      GroupCommand([], pipeline[0]);
      assert [] + pipeline[0] == pipeline[0];
    } else {
      var front := pipeline[..n];
      assert pipeline[n - 1] in pipeline;
      assert forall x :: x in front ==> x in pipeline;
      GroupFlattened(front);
      GroupNextCommand(Flatten(front), front[..n - 1], front[n - 1], pipeline[n]);
      assert front[..n - 1] + [front[n - 1]] == front;
    }
  }

  lemma {:induction false} GroupOfRest(a: seq<string>, b: seq<string>)
    requires Group(a).current == []
    ensures Group(a + b) == Grouping(Group(a).done + Group(b).done, Group(b).current)
    decreases |b|
  {
    if b == [] {
      assert a + b == a && Group(a).done + [] == Group(a).done;
    } else {
      var front, t := b[..|b| - 1], b[|b| - 1];
      assert b == front + [t];
      GroupOfRest(a, front);
      assert a + b == (a + front) + [t];
      GroupStep(a + front, t);
      GroupStep(front, t);
      CloseOfRest(Group(a).done, Group(front));
    }
  }

  lemma CloseOfRest(done: seq<seq<string>>, p: Grouping)
    ensures Close(Grouping(done + p.done, p.current)) == Grouping(done + Close(p).done, Close(p).current)
  {
    assert done + (p.done + [p.current]) == done + p.done + [p.current];
  }

  /** A pipe separates what stands on its two sides, whatever that is. */
  lemma SplitsAtEveryPipe(a: seq<string>, b: seq<string>)
    ensures SplitAtPipes(a + ["|"] + b) == SplitAtPipes(a) + SplitAtPipes(b)
  {
    GroupStep(a, "|");
    GroupOfRest(a + ["|"], b);
    CloseOfRest(Close(Group(a)).done, Group(b));
  }

  /** Tokens without a pipe are one command, unless there are none. */
  lemma OneCommand(c: seq<string>)
    requires "|" !in c
    ensures SplitAtPipes(c) == if c == [] then [] else [c]
  {
    GroupCommand([], c);
    assert [] + c == c;
  }

  /** Splitting the flat list at its pipes recovers the pipeline. */
  lemma FlattenThenSplit(pipeline: seq<seq<string>>)
    requires Commands(pipeline)
    ensures SplitAtPipes(Flatten(pipeline)) == pipeline
  {
    if pipeline != [] {
      var n := |pipeline| - 1;
      GroupFlattened(pipeline);
      assert pipeline[n] in pipeline;
      assert pipeline[..n] + [pipeline[n]] == pipeline;
    }
  }

  /** The tokens that remain when empty commands are dropped, as they are taken in. */
  ghost function Kept(p: Grouping): seq<string> {
    Flatten(Close(p).done)
  }

  lemma KeptGrows(p: Grouping, w: string)
    ensures Kept(p.(current := p.current + [w])) ==
            if p.done != [] && p.current == [] then Kept(p) + ["|", w] else Kept(p) + [w]
  {
    var q := p.(current := p.current + [w]);
    assert (p.done + [q.current])[..|p.done|] == p.done;
    assert (p.done + [p.current])[..|p.done|] == p.done;
    if p.current == [] {
      assert q.current == [w];
      assert Flatten(p.done) + ["|"] + [w] == Flatten(p.done) + ["|", w];
    } else if p.done != [] {
      assert Flatten(p.done) + ["|"] + (p.current + [w]) == Flatten(p.done) + ["|"] + p.current + [w];
    }
  }

  ghost predicate AllClosed(ts: seq<string>) {
    forall i :: 0 <= i < |ts| ==> ts[i] == "|" || IsClosed(ts[i])
  }

  /** Dropping empty commands keeps a word that was left open at the very end. */
  lemma {:induction false} KeptIsTokenList(ts: seq<string>)
    requires TokenList(ts)
    ensures TokenList(Kept(Group(ts))) && (AllClosed(ts) ==> AllClosed(Kept(Group(ts))))
    decreases |ts|
  {
    hide Kept, Group, Close, TokenList, AllClosed;
    if ts == [] {
      KeptOfNothing();
    } else {
      var n, last := |ts| - 1, ts[|ts| - 1];
      assert ts == ts[..n] + [last];
      FrontIsClosed(ts);
      KeptIsTokenList(ts[..n]);
      var p := Group(ts[..n]);
      GroupStep(ts[..n], last);
      KeptOfClosed(p);
      if last != "|" {
        KeptGrows(p, last);
        AddToken(Kept(p), "|");
        AddToken(Kept(p) + ["|"], last);
        AddToken(Kept(p), last);
        assert Kept(p) + ["|"] + [last] == Kept(p) + ["|", last];
      }
    }
  }

  lemma KeptOfNothing()
    ensures TokenList(Kept(Group([]))) && AllClosed(Kept(Group([])))
  {
  }

  lemma KeptOfClosed(p: Grouping)
    ensures Kept(Close(p)) == Kept(p)
  {
  }

  lemma FrontIsClosed(ts: seq<string>)
    requires ts != [] && TokenList(ts)
    ensures var front, last := ts[..|ts| - 1], ts[|ts| - 1];
            && TokenList(front) && AllClosed(front)
            && (last == "|" || IsWord(last))
            && (AllClosed(ts) ==> last == "|" || IsClosed(last))
  {
  }

  lemma AddToken(ts: seq<string>, t: string)
    requires TokenList(ts) && AllClosed(ts) && (t == "|" || IsWord(t))
    ensures TokenList(ts + [t]) && (t == "|" || IsClosed(t) ==> AllClosed(ts + [t]))
  {
  }

  function Join(ts: seq<string>): string {
    if |ts| == 0 then ""
    else if |ts| == 1 then ts[0]
    else Join(ts[..|ts| - 1]) + " " + ts[|ts| - 1]
  }

  /** Joining with spaces is one way to spell a token list. */
  lemma {:induction false} JoinSpells(ts: seq<string>) returns (gaps: seq<string>)
    requires TokenList(ts)
    ensures Spells(Join(ts), ts, gaps) && gaps[|ts|] == ""
    decreases |ts|
  {
    if |ts| <= 1 {
      gaps := if |ts| == 0 then [""] else ["", ""];
      if |ts| == 1 {
        assert Weave(gaps, ts) == Weave(gaps[..1], ts[..0]) + ts[0] + "";
        assert gaps[..1] == [""] && "" + ts[0] + "" == ts[0];
      }
    } else {
      var n := |ts| - 1;
      var front := JoinSpells(ts[..n]);
      var wider := WeaveBlank(front, ts[..n], ' ');
      gaps := wider + [""];
      WeaveMore(wider, ts[..n], ts[n], "");
      assert ts == ts[..n] + [ts[n]];
      assert Join(ts[..n]) + [' '] + ts[n] + "" == Join(ts);
    }
  }

  /** For every string: splitting the flat list at its pipes recovers the pipeline, and so
      does joining the list with spaces and parsing the result, whatever was left open. */
  lemma PipelineSurvivesJoining(s: string)
    ensures var flat := Flatten(Pipeline(s));
            && SplitAtPipes(flat) == Pipeline(s)
            && Tokens(Join(flat)) == flat
            && Pipeline(Join(flat)) == Pipeline(s)
  {
    var ts := Tokens(s);
    assert TokenList(ts) by {
      TokensAreTheSpelling(s, ts);
      var gaps :| Spells(s, ts, gaps);
    }
    KeptIsTokenList(ts);
    GroupMakesCommands(ts);
    FlattenThenSplit(Pipeline(s));
    var flat := Flatten(Pipeline(s));
    var gaps := JoinSpells(flat);
    TokensAreTheSpelling(Join(flat), flat);
  }

  // ------------------------------------------------------------------ the program

  method ParsePipedCommand(cmdString: string) returns (pipeline: seq<seq<string>>)
    ensures pipeline == Pipeline(cmdString)
  {
    var inQuote, inBacktick, inEscape := false, false, false;
    var current: string := "";
    var tokens: seq<string> := [];
    for i := 0 to |cmdString|
      invariant Lexer(Mode(inQuote, inBacktick, inEscape), current, tokens) == Lex(cmdString[..i])
    {
      var r := cmdString[i];
      assert cmdString[..i + 1][..i] == cmdString[..i];
      if inEscape {
        current, inEscape := current + [r], false;
      } else if r == '\\' {
        current, inEscape := current + [r], true;
      } else if r == '"' && !inBacktick {
        current, inQuote := current + [r], !inQuote;
      } else if r == '`' {
        current, inBacktick := current + [r], !inBacktick;
      } else if r == '|' && !inQuote && !inBacktick {
        if |current| > 0 {
          tokens, current := tokens + [current], "";
        }
        tokens := tokens + ["|"];
      } else if IsSpace(r) && !inQuote && !inBacktick {
        if |current| > 0 {
          tokens, current := tokens + [current], "";
        }
      } else {
        current := current + [r];
      }
    }
    assert cmdString[..|cmdString|] == cmdString;
    if |current| > 0 {
      tokens := tokens + [current];
    }

    pipeline := [];
    var currentCmd: seq<string> := [];
    for i := 0 to |tokens|
      invariant Grouping(pipeline, currentCmd) == Group(tokens[..i])
    {
      assert tokens[..i + 1][..i] == tokens[..i];
      if tokens[i] == "|" {
        if |currentCmd| > 0 {
          pipeline, currentCmd := pipeline + [currentCmd], [];
        }
      } else {
        currentCmd := currentCmd + [tokens[i]];
      }
    }
    assert tokens[..|tokens|] == tokens;
    if |currentCmd| > 0 {
      pipeline := pipeline + [currentCmd];
    }
  }

  datatype SplitResult = Split(cmd: string, args: seq<string>) | CommandIsEmpty

  /** The command and its arguments, or an error exactly when there is no command at all. */
  method SplitCommand(cmd: string) returns (r: SplitResult)
    ensures r.CommandIsEmpty? <==> Pipeline(cmd) == []
    ensures r.Split? ==> [r.cmd] + r.args == Flatten(Pipeline(cmd))
  {
    hide Flatten, Pipeline;
    var pipeline := ParsePipedCommand(cmd);
    PipelineMakesCommands(cmd);
    if |pipeline| > 1 {
      var first := pipeline[0];
      assert first in pipeline;
      var args := first[1..];
      FlattenFirst(pipeline);
      for k := 1 to |pipeline|
        invariant [first[0]] + args == Flatten(pipeline[..k])
      {
        FlattenNext(pipeline, k);
        args := args + ["|"];
        args := args + pipeline[k];
      }
      assert pipeline[..|pipeline|] == pipeline;
      return Split(first[0], args);
    }
    if |pipeline| == 0 {
      return CommandIsEmpty;
    }
    var command := pipeline[0];
    assert command in pipeline;
    FlattenFirst(pipeline);
    assert pipeline[..1] == pipeline;
    return Split(command[0], command[1..]);
  }

  lemma PipelineMakesCommands(s: string)
    ensures Commands(Pipeline(s))
  {
    GroupMakesCommands(Tokens(s));
  }

  lemma FlattenFirst(pipeline: seq<seq<string>>)
    requires pipeline != [] && pipeline[0] != []
    ensures [pipeline[0][0]] + pipeline[0][1..] == Flatten(pipeline[..1])
  {
    assert pipeline[..1] == [pipeline[0]];
  }

  lemma FlattenNext(pipeline: seq<seq<string>>, k: nat)
    requires 0 < k < |pipeline|
    ensures Flatten(pipeline[..k + 1]) == Flatten(pipeline[..k]) + ["|"] + pipeline[k]
  {
    assert pipeline[..k + 1][..k] == pipeline[..k];
  }
}
