/**
 How the parent collects the output of one test from a worker's stream. The worker ends each test's
 output with a fresh marker line; a reader thread pushes lines to a shared queue while the parent
 pops, one lock section after another, until it meets the marker.
 */
module Drain {
  import opened Outcomes
  import opened Attribution

  // ---------- One lock section ----------

  /** The lines before the first occurrence of the marker, or all of them. */
  function Before(lines: seq<Captured>, marker: string): seq<Captured> {
    if lines == [] || lines[0].line == marker then [] else [lines[0]] + Before(lines[1..], marker)
  }

  predicate Mentions(lines: seq<Captured>, marker: string) {
    exists i :: 0 <= i < |lines| && lines[i].line == marker
  }

  lemma {:induction false} BeforeIsThePrefix(lines: seq<Captured>, marker: string)
    ensures var n := |Before(lines, marker)|;
            && n <= |lines| && Before(lines, marker) == lines[..n] && !Mentions(lines[..n], marker)
            && (n < |lines| ==> lines[n].line == marker)
            && (Mentions(lines, marker) <==> n < |lines|)
  {
    if lines != [] && lines[0].line != marker {
      BeforeIsThePrefix(lines[1..], marker);
      var n := |Before(lines[1..], marker)|;
      assert lines[..n + 1] == [lines[0]] + lines[1..][..n];
      assert n < |lines| - 1 ==> lines[n + 1] == lines[1..][n];
      if Mentions(lines, marker) {
        var i :| 0 <= i < |lines| && lines[i].line == marker;
        assert lines[1..][i - 1].line == marker;
      }
    }
  }

  function Texts(lines: seq<Captured>): (r: seq<string>)
    ensures |r| == |lines| && forall i :: 0 <= i < |lines| ==> r[i] == lines[i].line
  {
    if lines == [] then [] else [lines[0].line] + Texts(lines[1..])
  }

  lemma {:induction false} TextsConcat(a: seq<Captured>, b: seq<Captured>)
    ensures Texts(a + b) == Texts(a) + Texts(b)
  {
  }

  lemma {:induction false} TextsOfPushed(
        before: seq<Captured>, after: seq<Captured>, read: seq<string>, clock: nat -> nat)
    requires |after| == |before| + |read| && after[..|before|] == before
    requires forall k: nat :: k < |read| ==> after[|before| + k] == Stdout(clock(k), read[k])
    ensures Texts(after) == Texts(before) + read
  {
    var pushed := after[|before|..];
    assert after == before + pushed;
    TextsConcat(before, pushed);
    assert forall k: nat :: k < |read| ==> pushed[k] == after[|before| + k];
    assert Texts(pushed) == read;
  }

  class LineQueue {
    var lines: seq<Captured>

    constructor ()
      ensures lines == []
    {
      lines := [];
    }

    method PushBack(line: Captured)
      modifies this
      ensures lines == old(lines) + [line]
    {
      lines := lines + [line];
    }

    /**
     The reader thread: pushes each line of the stream, stamped with the time at which it is pushed, and
     ends at the first line that is not UTF-8.
     */
    method ReadStream(text: string, clock: nat -> nat)
      modifies this
      ensures |lines| == old(|lines|) + |ReadLines(text)| && lines[..old(|lines|)] == old(lines)
      ensures forall i: nat :: i < |ReadLines(text)| ==> lines[old(|lines|) + i] == Stdout(clock(i), ReadLines(text)[i])
      ensures Texts(lines) == old(Texts(lines)) + ReadLines(text)
    {
      hide TextLines, Texts, IsUtf8, Decodable;
      var all := TextLines(text);
      ghost var before := lines;
      var i := 0;
      assert all[0..] == all;
      while i < |all| && IsUtf8(all[i])
        invariant i <= |all| && |lines| == |before| + i && lines[..|before|] == before
        invariant forall k: nat :: k < i ==> lines[|before| + k] == Stdout(clock(k), all[k])
        invariant Decodable(all) == all[..i] + Decodable(all[i..])
      {
        PushBack(Stdout(clock(i), all[i]));
        DecodableFrom(all, i);
        i := i + 1;
      }
      DecodableFrom(all, i);
      TextsOfPushed(before, lines, all[..i], clock);
    }

    method PopFront() returns (line: Option<Captured>)
      modifies this
      ensures old(lines) == [] ==> line.None? && lines == []
      ensures old(lines) != [] ==> line == Some(old(lines)[0]) && lines == old(lines)[1..]
    {
      if lines == [] {
        return None;
      }
      line := Some(lines[0]);
      lines := lines[1..];
    }

    /** One lock section of the drain loop: pops lines up to the marker, which it swallows, or all there are. */
    method DrainSection(marker: string) returns (taken: seq<Captured>, found: bool)
      modifies this
      ensures taken == Before(old(lines), marker)
      ensures found == Mentions(old(lines), marker)
      ensures if found then |taken| < |old(lines)| && lines == old(lines)[|taken| + 1..] else lines == []
    {
      taken, found := [], false;
      ghost var was := lines;
      BeforeIsThePrefix(was, marker);
      ghost var n := |Before(was, marker)|;
      assert forall i :: 0 <= i < n ==> was[i] == was[..n][i] && was[i].line != marker;
      while true
        invariant |taken| <= n && taken == was[..|taken|] && lines == was[|taken|..]
        invariant !found
        decreases |lines|
      {
        var line := PopFront();
        if line.None? {
          return;
        }
        if line.value.line == marker {
          found := true;
          return;
        }
        taken := taken + [line.value];
      }
    }
  }

  // ---------- The reader and the drains, interleaved ----------

  /** `incoming` is what the reader has yet to push, `current` what the running drain has taken so far. */
  datatype State = State(incoming: seq<Captured>, queue: seq<Captured>, current: seq<Captured>,
                         drained: seq<seq<Captured>>)

  datatype Action = Push | Section

  function Step(markers: seq<string>, s: State, a: Action): Option<State> {
    match a
    case Push =>
      if s.incoming == [] then None
      else Some(s.(incoming := s.incoming[1..], queue := s.queue + [s.incoming[0]]))
    case Section =>
      if |s.drained| >= |markers| then None
      else
        var marker := markers[|s.drained|];
        var taken := Before(s.queue, marker);
        if Mentions(s.queue, marker) then
          BeforeIsThePrefix(s.queue, marker);
          Some(s.(queue := s.queue[|taken| + 1..], current := [], drained := s.drained + [s.current + taken]))
        else Some(s.(queue := [], current := s.current + taken))
  }

  /** One test's output and the line that carries its marker. */
  datatype Block = Block(output: seq<Captured>, end: Captured)

  function Stream(blocks: seq<Block>): seq<Captured> {
    if blocks == [] then [] else blocks[0].output + [blocks[0].end] + Stream(blocks[1..])
  }

  /** No test prints its own marker. */
  ghost predicate Fresh(blocks: seq<Block>) {
    forall i :: 0 <= i < |blocks| ==> !Mentions(blocks[i].output, blocks[i].end.line)
  }

  ghost predicate Next(markers: seq<string>, s: State, s': State) {
    exists a :: Step(markers, s, a) == Some(s')
  }

  ghost predicate IsRun(markers: seq<string>, incoming: seq<Captured>, run: seq<State>) {
    && run != [] && run[0] == State(incoming, [], [], [])
    && forall i :: 0 < i < |run| ==> Next(markers, run[i - 1], run[i])
  }

  /**
   The drains look for `markers`; the stream is whole blocks, each ended by its marker, and then a
   tail in which the next marker is nowhere to be found.
   */
  ghost predicate Expected(blocks: seq<Block>, tail: seq<Captured>, markers: seq<string>) {
    && |blocks| <= |markers| && (forall i :: 0 <= i < |blocks| ==> markers[i] == blocks[i].end.line)
    && Fresh(blocks) && (|blocks| < |markers| ==> !Mentions(tail, markers[|blocks|]))
  }

  /** Finished drains returned whole blocks; the rest of the stream is in hand, queued or on its way. */
  ghost predicate Partitioned(blocks: seq<Block>, tail: seq<Captured>, markers: seq<string>, s: State) {
    var j := |s.drained|;
    && j <= |blocks|
    && (forall i :: 0 <= i < j ==> s.drained[i] == blocks[i].output)
    && s.current + s.queue + s.incoming == Stream(blocks[j..]) + tail
    && (if j < |markers| then !Mentions(s.current, markers[j]) else s.current == [])
  }

  lemma {:induction false} StreamFrom(blocks: seq<Block>, j: nat)
    requires j < |blocks|
    ensures Stream(blocks[j..]) == blocks[j].output + [blocks[j].end] + Stream(blocks[j + 1..])
  {
    assert blocks[j..][1..] == blocks[j + 1..];
  }

  /** The first occurrence of a marker splits a sequence in one way only. */
  lemma {:induction false} FirstOccurrenceIsUnique(a: seq<Captured>, e: Captured, b: seq<Captured>,
                                                  c: seq<Captured>, f: Captured, d: seq<Captured>, marker: string)
    requires a + [e] + b == c + [f] + d
    requires e.line == f.line == marker && !Mentions(a, marker) && !Mentions(c, marker)
    ensures a == c && e == f && b == d
  {
    var s := a + [e] + b;
    assert s[|a|] == e && s[|c|] == f;
    assert forall i :: 0 <= i < |a| ==> s[i] == a[i] && a[i].line != marker;
    assert forall i :: 0 <= i < |c| ==> s[i] == c[i] && c[i].line != marker;
    assert a == s[..|a|] && c == s[..|c|] && b == s[|a| + 1..] && d == s[|c| + 1..];
  }

  lemma {:induction false} PushKeepsPartition(blocks: seq<Block>, tail: seq<Captured>, markers: seq<string>, s: State)
    requires Partitioned(blocks, tail, markers, s) && s.incoming != []
    ensures Partitioned(blocks, tail, markers, Step(markers, s, Push).value)
  {
    hide Stream;
    var s' := Step(markers, s, Push).value;
    assert s'.current + s'.queue + s'.incoming == s.current + s.queue + s.incoming;
  }

  lemma {:induction false} MentionsConcat(a: seq<Captured>, b: seq<Captured>, marker: string)
    ensures Mentions(a + b, marker) <==> Mentions(a, marker) || Mentions(b, marker)
  {
    var s := a + b;
    if Mentions(a, marker) {
      var i :| 0 <= i < |a| && a[i].line == marker;
      assert s[i].line == marker;
    }
    if Mentions(b, marker) {
      var i :| 0 <= i < |b| && b[i].line == marker;
      assert s[|a| + i].line == marker;
    }
  }

  lemma {:induction false} Regroup(a: seq<Captured>, b: seq<Captured>, e: Captured, c: seq<Captured>, d: seq<Captured>)
    ensures a + (b + [e] + c) + d == (a + b) + [e] + (c + d)
  {
  }

  lemma {:induction false} FinishingTakesTheBlock(
        blocks: seq<Block>, tail: seq<Captured>, markers: seq<string>, s: State)
    requires Expected(blocks, tail, markers) && Partitioned(blocks, tail, markers, s) && |s.drained| < |blocks|
    requires Mentions(s.queue, markers[|s.drained|])
    ensures var j := |s.drained|; var taken := Before(s.queue, markers[j]);
            && |taken| < |s.queue| && s.current + taken == blocks[j].output
            && s.queue[|taken| + 1..] + s.incoming == Stream(blocks[j + 1..]) + tail
  {
    hide Stream, Before;
    var j := |s.drained|;
    var marker := markers[j];
    var taken := Before(s.queue, marker);
    BeforeIsThePrefix(s.queue, marker);
    var later := s.queue[|taken| + 1..];
    assert s.queue == taken + [s.queue[|taken|]] + later;
    StreamFrom(blocks, j);
    MentionsConcat(s.current, taken, marker);
    Regroup(s.current, taken, s.queue[|taken|], later, s.incoming);
    assert Stream(blocks[j..]) + tail == blocks[j].output + [blocks[j].end] + (Stream(blocks[j + 1..]) + tail);
    FirstOccurrenceIsUnique(s.current + taken, s.queue[|taken|], later + s.incoming,
                            blocks[j].output, blocks[j].end, Stream(blocks[j + 1..]) + tail, marker);
  }

  lemma {:induction false} FinishingKeepsPartition(
        blocks: seq<Block>, tail: seq<Captured>, markers: seq<string>, s: State)
    requires Expected(blocks, tail, markers) && Partitioned(blocks, tail, markers, s) && |s.drained| < |blocks|
    requires Mentions(s.queue, markers[|s.drained|])
    ensures Partitioned(blocks, tail, markers, Step(markers, s, Section).value)
  {
    hide Stream, Before, Fresh;
    var j := |s.drained|;
    var s' := Step(markers, s, Section).value;
    FinishingTakesTheBlock(blocks, tail, markers, s);
    assert s'.current + s'.queue + s'.incoming == s'.queue + s'.incoming;
    forall i | 0 <= i < |s'.drained| ensures s'.drained[i] == blocks[i].output {
      assert i < j ==> s'.drained[i] == s.drained[i];
    }
  }

  lemma {:induction false} WaitingKeepsPartition(
        blocks: seq<Block>, tail: seq<Captured>, markers: seq<string>, s: State)
    requires Partitioned(blocks, tail, markers, s) && |s.drained| < |markers|
    requires !Mentions(s.queue, markers[|s.drained|])
    ensures Partitioned(blocks, tail, markers, Step(markers, s, Section).value)
  {
    hide Stream;
    var marker := markers[|s.drained|];
    var s' := Step(markers, s, Section).value;
    BeforeIsThePrefix(s.queue, marker);
    assert Before(s.queue, marker) == s.queue;
    MentionsConcat(s.current, s.queue, marker);
    assert s'.current + s'.queue + s'.incoming == s.current + s.queue + s.incoming;
  }

  /** After the last whole block the drain can only wait. */
  lemma {:induction false} NothingLeftToFind(blocks: seq<Block>, tail: seq<Captured>, markers: seq<string>, s: State)
    requires Expected(blocks, tail, markers) && Partitioned(blocks, tail, markers, s) &&
             |s.drained| == |blocks| < |markers|
    ensures !Mentions(s.queue, markers[|s.drained|])
  {
    assert blocks[|blocks|..] == [] && Stream([]) + tail == tail;
    assert tail == s.current + (s.queue + s.incoming);
    MentionsConcat(s.current, s.queue + s.incoming, markers[|blocks|]);
    MentionsConcat(s.queue, s.incoming, markers[|blocks|]);
  }

  lemma {:induction false} StepKeepsPartition(
        blocks: seq<Block>, tail: seq<Captured>, markers: seq<string>, s: State, a: Action)
    requires Expected(blocks, tail, markers) && Partitioned(blocks, tail, markers, s) && Step(markers, s, a).Some?
    ensures Partitioned(blocks, tail, markers, Step(markers, s, a).value)
  {
    hide Partitioned, Fresh, Before;
    DrainedWithin(blocks, tail, markers, s);
    if a.Push? {
      PushKeepsPartition(blocks, tail, markers, s);
    } else if |s.drained| < |blocks| && Mentions(s.queue, markers[|s.drained|]) {
      FinishingKeepsPartition(blocks, tail, markers, s);
    } else {
      if |s.drained| == |blocks| {
        NothingLeftToFind(blocks, tail, markers, s);
      }
      WaitingKeepsPartition(blocks, tail, markers, s);
    }
  }

  lemma {:induction false} DrainedWithin(blocks: seq<Block>, tail: seq<Captured>, markers: seq<string>, s: State)
    requires Partitioned(blocks, tail, markers, s)
    ensures |s.drained| <= |blocks|
  {
  }

  lemma {:induction false} StartIsPartitioned(blocks: seq<Block>, tail: seq<Captured>, markers: seq<string>)
    ensures Partitioned(blocks, tail, markers, State(Stream(blocks) + tail, [], [], []))
  {
    assert blocks[0..] == blocks;
    assert [] + [] + (Stream(blocks) + tail) == Stream(blocks) + tail;
    assert markers != [] ==> !Mentions([], markers[0]);
  }

  /**
   Under every interleaving of the reader's pushes and the drains' lock sections, the k-th drain
   returns exactly the lines between the markers of tests k-1 and k, and no drain returns beyond the
   last marker that can be found.
   */
  lemma {:induction false} DrainsReturnTheirBlocks(
        blocks: seq<Block>, tail: seq<Captured>, markers: seq<string>, run: seq<State>)
    requires Expected(blocks, tail, markers) && IsRun(markers, Stream(blocks) + tail, run)
    ensures Partitioned(blocks, tail, markers, run[|run| - 1])
  {
    hide Partitioned, Expected;
    StartIsPartitioned(blocks, tail, markers);
    for i := 1 to |run|
      invariant Partitioned(blocks, tail, markers, run[i - 1])
    {
      assert Next(markers, run[i - 1], run[i]);
      var a :| Step(markers, run[i - 1], a) == Some(run[i]);
      StepKeepsPartition(blocks, tail, markers, run[i - 1], a);
    }
  }

  /** Once the reader has pushed everything, the next lock section finishes the running drain, if its marker exists. */
  lemma {:induction false} DrainsFinish(blocks: seq<Block>, tail: seq<Captured>, markers: seq<string>, s: State)
    requires Expected(blocks, tail, markers) && Partitioned(blocks, tail, markers, s)
    requires |s.drained| < |blocks| && s.incoming == []
    ensures var s' := Step(markers, s, Section);
            s'.Some? && |s'.value.drained| == |s.drained| + 1 && s'.value.incoming == []
  {
    var j := |s.drained|;
    StreamFrom(blocks, j);
    var all := s.current + s.queue + s.incoming;
    assert all[|blocks[j].output|] == blocks[j].end;
    assert all == s.current + s.queue;
    assert Mentions(all, markers[j]);
    MentionsConcat(s.current, s.queue, markers[j]);
  }

  /** Some run pushes everything. */
  lemma {:induction false} PushAll(markers: seq<string>, incoming: seq<Captured>, n: nat) returns (run: seq<State>)
    requires n <= |incoming|
    ensures IsRun(markers, incoming, run) && run[|run| - 1].incoming == incoming[n..] && run[|run| - 1].drained == []
  {
    if n == 0 {
      run := [State(incoming, [], [], [])];
      assert incoming[0..] == incoming;
    } else {
      var before := PushAll(markers, incoming, n - 1);
      var s := before[|before| - 1];
      var s' := Step(markers, s, Push).value;
      assert Step(markers, s, Push) == Some(s') && Next(markers, s, s');
      assert incoming[n - 1..][1..] == incoming[n..];
      run := before + [s'];
    }
  }

  /** Some run finishes the first `k` drains, if there are so many whole blocks. */
  lemma {:induction false} DrainAll(
        blocks: seq<Block>, tail: seq<Captured>, markers: seq<string>, k: nat) returns (run: seq<State>)
    requires Expected(blocks, tail, markers) && k <= |blocks|
    ensures IsRun(markers, Stream(blocks) + tail, run)
    ensures |run[|run| - 1].drained| == k && run[|run| - 1].incoming == []
  {
    hide Expected, Stream;
    var incoming := Stream(blocks) + tail;
    if k == 0 {
      run := PushAll(markers, incoming, |incoming|);
    } else {
      var before := DrainAll(blocks, tail, markers, k - 1);
      var s := before[|before| - 1];
      DrainsReturnTheirBlocks(blocks, tail, markers, before);
      DrainsFinish(blocks, tail, markers, s);
      var s' := Step(markers, s, Section).value;
      assert Step(markers, s, Section) == Some(s') && Next(markers, s, s');
      run := before + [s'];
    }
  }

  /** Freshness is needed: a drain returns its block exactly if the block does not contain the marker. */
  lemma {:induction false} BlockIsReturnedExactlyIfFresh(block: Block, rest: seq<Captured>)
    ensures Before(block.output + [block.end] + rest, block.end.line) == block.output
       <==> !Mentions(block.output, block.end.line)
  {
    var marker := block.end.line;
    var s := block.output + [block.end] + rest;
    BeforeIsThePrefix(s, marker);
    var n := |Before(s, marker)|;
    assert s[|block.output|].line == marker;
    assert Mentions(s, marker);
    if !Mentions(block.output, marker) {
      FirstOccurrenceIsUnique(s[..n], s[n], s[n + 1..], block.output, block.end, rest, marker);
    }
  }

  /** The captured output of a test: both streams, in time order, standard output first on ties. */
  function MergedOutput(out: seq<Captured>, err: seq<Captured>): seq<Captured> {
    StableSort(out + err)
  }

  lemma {:induction false} MergingKeepsLines(out: seq<Captured>, err: seq<Captured>, t: nat)
    ensures InOrder(MergedOutput(out, err)) && multiset(MergedOutput(out, err)) == multiset(out) + multiset(err)
    ensures AtTime(MergedOutput(out, err), t) == AtTime(out, t) + AtTime(err, t)
  {
    StableSortSorts(out + err, t);
    StableSortKeepsLines(out + err);
    AtTimeConcat(out, err, t);
  }

  // ---------- From bytes to lines: when the marker is found at all ----------

  function Chomped(line: string): string {
    if line != "" && line[|line| - 1] == '\r' then line[..|line| - 1] else line
  }

  /** The lines of a text, without their ends; an unterminated last line counts as one. */
  function TextLines(s: string): seq<string> {
    if s == "" then [] else LinesFrom("", s)
  }

  /** The lines of `partial + s`, where `partial` holds the characters of the current line so far. */
  function LinesFrom(partial: string, s: string): seq<string>
    decreases |s|
  {
    if s == "" then (if partial == "" then [] else [partial])
    else if s[0] == '\n' then [Chomped(partial)] + LinesFrom("", s[1..])
    else LinesFrom(partial + [s[0]], s[1..])
  }

  lemma {:induction false} LineOfItsOwn(partial: string, line: string, rest: string)
    requires '\n' !in line
    ensures LinesFrom(partial, line + "\n" + rest) == [Chomped(partial + line)] + TextLines(rest)
    decreases |line|
  {
    var s := line + "\n" + rest;
    if line == "" {
      assert s[0] == '\n' && s[1..] == rest && partial + line == partial;
      assert rest == "" ==> LinesFrom("", rest) == [];
    } else {
      assert s[0] == line[0] && s[1..] == line[1..] + "\n" + rest && line[0] in line;
      LineOfItsOwn(partial + [line[0]], line[1..], rest);
      assert partial + [line[0]] + line[1..] == partial + line;
    }
  }

  lemma {:induction false} UnterminatedLine(partial: string, line: string)
    requires '\n' !in line && partial + line != ""
    ensures LinesFrom(partial, line) == [partial + line]
    decreases |line|
  {
    if line == "" {
      assert partial + line == partial;
    } else {
      assert line[0] in line;
      UnterminatedLine(partial + [line[0]], line[1..]);
      assert partial + [line[0]] + line[1..] == partial + line;
    }
  }

  /**
   A line ends at its newline, and a carriage return before that belongs to the end; a last line without
   a newline is taken as it is.
   */
  lemma {:induction false} LinesEndAtNewlines(line: string, rest: string)
    requires '\n' !in line && (line == "" || line[|line| - 1] != '\r')
    ensures TextLines(line + "\n" + rest) == [line] + TextLines(rest)
    ensures TextLines(line + "\r\n" + rest) == [line] + TextLines(rest)
    ensures line != "" ==> TextLines(line) == [line]
    ensures TextLines(line + "\r") == [line + "\r"] && TextLines("") == []
  {
    hide TextLines, Chomped;
    EndedLine(line, rest);
    EndedLine(line + "\r", rest);
    assert line + "\r" + "\n" + rest == line + "\r\n" + rest;
    ChompingTakesOne(line);
    LastLine(line + "\r");
    if line != "" {
      LastLine(line);
    }
    NoTextNoLines();
  }

  lemma {:induction false} EndedLine(line: string, rest: string)
    requires '\n' !in line
    ensures TextLines(line + "\n" + rest) == [Chomped(line)] + TextLines(rest)
  {
    hide LinesFrom, Chomped;
    LineOfItsOwn("", line, rest);
    assert "" + line == line && |line + "\n" + rest| > 0;
  }

  lemma {:induction false} LastLine(line: string)
    requires '\n' !in line && line != ""
    ensures TextLines(line) == [line]
  {
    hide LinesFrom;
    UnterminatedLine("", line);
    assert "" + line == line;
  }

  lemma {:induction false} ChompingTakesOne(line: string)
    requires line == "" || line[|line| - 1] != '\r'
    ensures Chomped(line) == line && Chomped(line + "\r") == line
  {
  }

  lemma {:induction false} NoTextNoLines()
    ensures TextLines("") == []
  {
  }

  predicate Terminated(s: string) {
    s == "" || s[|s| - 1] == '\n'
  }

  // ---------- Which lines can be read ----------

  /** A character of a stream stands for one byte; nothing else is in range. */
  predicate InRange(c: char, lo: int, hi: int) {
    lo <= c as int <= hi
  }

  predicate IsTail(s: string, i: nat) {
    i < |s| && InRange(s[i], 0x80, 0xBF)
  }

  /** The length of the well-formed sequence at the start of `s` (section 4 of RFC 3629), or zero. */
  function SequenceLength(s: string): (n: nat)
    requires s != ""
    ensures n <= |s|
  {
    if InRange(s[0], 0x00, 0x7F) then 1
    else if |s| < 2 then 0
    else if InRange(s[0], 0xC2, 0xDF) && IsTail(s, 1) then 2
    else if |s| < 3 then 0
    else if (|| (InRange(s[0], 0xE0, 0xE0) && InRange(s[1], 0xA0, 0xBF))
             || (InRange(s[0], 0xE1, 0xEC) && IsTail(s, 1))
             || (InRange(s[0], 0xED, 0xED) && InRange(s[1], 0x80, 0x9F))
             || (InRange(s[0], 0xEE, 0xEF) && IsTail(s, 1))) && IsTail(s, 2) then 3
    else if |s| < 4 then 0
    else if (|| (InRange(s[0], 0xF0, 0xF0) && InRange(s[1], 0x90, 0xBF))
             || (InRange(s[0], 0xF1, 0xF3) && IsTail(s, 1))
             || (InRange(s[0], 0xF4, 0xF4) && InRange(s[1], 0x80, 0x8F))) && IsTail(s, 2) && IsTail(s, 3) then 4
    else 0
  }

  predicate IsUtf8(s: string) {
    s == "" || (SequenceLength(s) > 0 && IsUtf8(s[SequenceLength(s)..]))
  }

  /** A Unicode scalar value: a code point that is no surrogate. */
  predicate IsScalar(c: nat) {
    c < 0xD800 || 0xE000 <= c <= 0x10FFFF
  }

  /** The encoding of a scalar value (section 3 of RFC 3629). */
  function EncodeScalar(c: nat): (s: string)
    requires IsScalar(c)
    ensures s != ""
  {
    if c < 0x80 then [c as char]
    else if c < 0x800 then [(0xC0 + c / 64) as char, (0x80 + c % 64) as char]
    else if c < 0x1_0000 then
      [(0xE0 + c / 4096) as char, (0x80 + c / 64 % 64) as char, (0x80 + c % 64) as char]
    else
      [(0xF0 + c / 262144) as char, (0x80 + c / 4096 % 64) as char, (0x80 + c / 64 % 64) as char,
       (0x80 + c % 64) as char]
  }

  predicate AllScalars(cs: seq<nat>) {
    forall i :: 0 <= i < |cs| ==> IsScalar(cs[i])
  }

  function EncodeScalars(cs: seq<nat>): string
    requires AllScalars(cs)
  {
    if cs == [] then "" else EncodeScalar(cs[0]) + EncodeScalars(cs[1..])
  }

  lemma {:induction false} EncodedIsSequence(c: nat, rest: string)
    requires IsScalar(c)
    ensures SequenceLength(EncodeScalar(c) + rest) == |EncodeScalar(c)|
  {
    hide SequenceLength;
    var e := EncodeScalar(c);
    var s := e + rest;
    assert forall i :: 0 <= i < |e| ==> s[i] == e[i];
    if c < 0x80 {
      OneByte(s, c);
    } else if c < 0x800 {
      TwoBytes(s, c / 64, c % 64);
    } else if c < 0x1_0000 {
      ThreeBytes(s, c / 4096, c / 64 % 64, c % 64);
    } else {
      FourBytes(s, c / 262144, c / 4096 % 64, c / 64 % 64, c % 64);
    }
  }

  lemma {:induction false} OneByte(s: string, x: nat)
    requires s != "" && x < 0x80 && s[0] == x as char
    ensures SequenceLength(s) == 1
  {
  }

  lemma {:induction false} TwoBytes(s: string, x: nat, y: nat)
    requires |s| >= 2 && 2 <= x < 32 && y < 64 && s[0] == (0xC0 + x) as char && s[1] == (0x80 + y) as char
    ensures SequenceLength(s) == 2
  {
  }

  lemma {:induction false} ThreeBytes(s: string, x: nat, y: nat, z: nat)
    requires |s| >= 3 && x < 16 && y < 64 && z < 64 && (x == 0 ==> y >= 32) && (x == 13 ==> y < 32)
    requires s[0] == (0xE0 + x) as char && s[1] == (0x80 + y) as char && s[2] == (0x80 + z) as char
    ensures SequenceLength(s) == 3
  {
  }

  lemma {:induction false} FourBytes(s: string, x: nat, y: nat, z: nat, w: nat)
    requires |s| >= 4 && x < 5 && y < 64 && z < 64 && w < 64 && (x == 0 ==> y >= 16) && (x == 4 ==> y < 16)
    requires s[0] == (0xF0 + x) as char && s[1] == (0x80 + y) as char
    requires s[2] == (0x80 + z) as char && s[3] == (0x80 + w) as char
    ensures SequenceLength(s) == 4
  {
  }

  lemma {:induction false} SequenceIsEncoded(s: string) returns (c: nat)
    requires s != "" && SequenceLength(s) > 0
    ensures IsScalar(c) && EncodeScalar(c) == s[..SequenceLength(s)]
  {
    var n := SequenceLength(s);
    if n == 1 {
      c := s[0] as int;
    } else if n == 2 {
      c := OfTwo(s[0] as int - 0xC0, s[1] as int - 0x80);
    } else if n == 3 {
      c := OfThree(s[0] as int - 0xE0, s[1] as int - 0x80, s[2] as int - 0x80);
    } else {
      c := OfFour(s[0] as int - 0xF0, s[1] as int - 0x80, s[2] as int - 0x80, s[3] as int - 0x80);
    }
  }

  lemma {:induction false} OfTwo(x: nat, y: nat) returns (c: nat)
    requires 2 <= x < 32 && y < 64
    ensures IsScalar(c) && EncodeScalar(c) == [(0xC0 + x) as char, (0x80 + y) as char]
  {
    c := x * 64 + y;
  }

  lemma {:induction false} SixBits(high: nat, low: nat)
    requires low < 64
    ensures (high * 64 + low) / 64 == high && (high * 64 + low) % 64 == low
  {
  }

  lemma {:induction false} OfThree(x: nat, y: nat, z: nat) returns (c: nat)
    requires x < 16 && y < 64 && z < 64 && (x == 0 ==> y >= 32) && (x == 13 ==> y < 32)
    ensures IsScalar(c) && EncodeScalar(c) == [(0xE0 + x) as char, (0x80 + y) as char, (0x80 + z) as char]
  {
    c := (x * 64 + y) * 64 + z;
    SixBits(x, y);
    SixBits(x * 64 + y, z);
    assert c / 4096 == c / 64 / 64;
  }

  lemma {:induction false} OfFour(x: nat, y: nat, z: nat, w: nat) returns (c: nat)
    requires x <= 4 && y < 64 && z < 64 && w < 64 && (x == 0 ==> y >= 16) && (x == 4 ==> y < 16)
    ensures IsScalar(c)
    ensures EncodeScalar(c) == [(0xF0 + x) as char, (0x80 + y) as char, (0x80 + z) as char, (0x80 + w) as char]
  {
    c := ((x * 64 + y) * 64 + z) * 64 + w;
    SixBits(x, y);
    SixBits(x * 64 + y, z);
    SixBits((x * 64 + y) * 64 + z, w);
    assert c / 4096 == c / 64 / 64 && c / 262144 == c / 64 / 64 / 64;
  }

  /** The well-formed strings are exactly the encodings of sequences of scalar values. */
  lemma {:induction false} Utf8ExactlyIfScalars(s: string)
    ensures IsUtf8(s) <==> exists cs: seq<nat> :: AllScalars(cs) && EncodeScalars(cs) == s
    decreases |s|
  {
    hide SequenceLength, EncodeScalar, IsScalar;
    if s == "" {
      assert AllScalars([]) && EncodeScalars([]) == "";
    } else {
      if IsUtf8(s) {
        var n := SequenceLength(s);
        var c := SequenceIsEncoded(s);
        Utf8ExactlyIfScalars(s[n..]);
        var cs: seq<nat> :| AllScalars(cs) && EncodeScalars(cs) == s[n..];
        assert ([c] + cs)[1..] == cs && s == s[..n] + s[n..];
        assert AllScalars([c] + cs) && EncodeScalars([c] + cs) == s;
      }
      if cs: seq<nat> :| AllScalars(cs) && EncodeScalars(cs) == s {
        EncodedIsSequence(cs[0], EncodeScalars(cs[1..]));
        var n := |EncodeScalar(cs[0])|;
        assert s[n..] == EncodeScalars(cs[1..]);
        assert AllScalars(cs[1..]);
        Utf8ExactlyIfScalars(s[n..]);
      }
    }
  }

  /** The reader looks at lines with their ends; taking these off does not change the answer. */
  lemma {:induction false} LineEndsDoNotMatter(s: string, end: char)
    requires InRange(end, 0x00, 0x7F)
    ensures IsUtf8(s + [end]) <==> IsUtf8(s)
  {
    var line := s + [end];
    if s == "" {
      assert line[1..] == "";
    } else {
      EndIsNoTail(s, end);
      var n := SequenceLength(s);
      if n > 0 {
        LineEndsDoNotMatter(s[n..], end);
        assert line[n..] == s[n..] + [end];
      }
    }
  }

  lemma {:induction false} EndIsNoTail(s: string, end: char)
    requires s != "" && InRange(end, 0x00, 0x7F)
    ensures SequenceLength(s + [end]) == SequenceLength(s)
  {
    var line := s + [end];
    assert line[0] == s[0] && (|s| > 1 ==> line[1] == s[1]) && (|s| > 2 ==> line[2] == s[2]) &&
           (|s| > 3 ==> line[3] == s[3]);
  }

  lemma {:induction false} AsciiIsUtf8(s: string)
    requires forall i :: 0 <= i < |s| ==> InRange(s[i], 0x00, 0x7F)
    ensures IsUtf8(s)
  {
    if s != "" {
      AsciiIsUtf8(s[1..]);
    }
  }

  /** The lines before the first one that is not UTF-8: there the reader gives up. */
  function Decodable(lines: seq<string>): seq<string> {
    if lines == [] || !IsUtf8(lines[0]) then [] else [lines[0]] + Decodable(lines[1..])
  }

  function ReadLines(s: string): seq<string> {
    Decodable(TextLines(s))
  }

  /** The output ends in a newline, if it is not empty, and each of its lines is UTF-8. */
  predicate Readable(output: string) {
    Terminated(output) && forall line :: line in Completed("", output) ==> IsUtf8(line)
  }

  lemma {:induction false} NothingIsReadable()
    ensures Readable("")
  {
  }

  lemma {:induction false} DecodableFrom(lines: seq<string>, i: nat)
    requires i <= |lines|
    ensures Decodable(lines[i..]) ==
            if i == |lines| || !IsUtf8(lines[i]) then [] else [lines[i]] + Decodable(lines[i + 1..])
  {
    if i < |lines| {
      assert lines[i..][1..] == lines[i + 1..];
    }
  }

  lemma {:induction false} DecodableConcat(a: seq<string>, b: seq<string>)
    ensures (forall line :: line in a ==> IsUtf8(line)) ==> Decodable(a + b) == a + Decodable(b)
    ensures (exists line :: line in a && !IsUtf8(line)) ==> forall line :: line in Decodable(a + b) ==> line in a
  {
    hide IsUtf8;
    if a == [] {
      assert a + b == b;
    } else {
      assert (a + b)[0] == a[0] && (a + b)[1..] == a[1..] + b;
      DecodableConcat(a[1..], b);
      assert a == [a[0]] + a[1..];
    }
  }

  lemma {:induction false} DecodableAreLines(lines: seq<string>)
    ensures forall line :: line in Decodable(lines) ==> line in lines
  {
    hide IsUtf8;
    if lines != [] {
      DecodableAreLines(lines[1..]);
    }
  }

  /** What `s` leaves behind as the current, unterminated line. */
  function Dangling(partial: string, s: string): string
    decreases |s|
  {
    if s == "" then partial else if s[0] == '\n' then Dangling("", s[1..]) else Dangling(partial + [s[0]], s[1..])
  }

  /** The lines that `s` completes. */
  function Completed(partial: string, s: string): seq<string>
    decreases |s|
  {
    if s == "" then []
    else if s[0] == '\n' then [Chomped(partial)] + Completed("", s[1..])
    else Completed(partial + [s[0]], s[1..])
  }

  lemma {:induction false} LinesOfConcat(partial: string, a: string, b: string)
    ensures LinesFrom(partial, a + b) == Completed(partial, a) + LinesFrom(Dangling(partial, a), b)
    decreases |a|
  {
    if a == "" {
      assert a + b == b;
    } else {
      assert (a + b)[0] == a[0] && (a + b)[1..] == a[1..] + b;
      if a[0] == '\n' {
        LinesOfConcat("", a[1..], b);
      } else {
        LinesOfConcat(partial + [a[0]], a[1..], b);
      }
    }
  }

  lemma {:induction false} DanglingIsEmptyExactlyIfTerminated(partial: string, s: string)
    ensures Dangling(partial, s) == "" <==> if s == "" then partial == "" else Terminated(s)
    decreases |s|
  {
    if s != "" {
      if s[0] == '\n' {
        DanglingIsEmptyExactlyIfTerminated("", s[1..]);
      } else {
        DanglingIsEmptyExactlyIfTerminated(partial + [s[0]], s[1..]);
      }
    }
  }

  lemma {:induction false} MarkerLine(partial: string, marker: string)
    requires '\n' !in marker
    ensures LinesFrom(partial, marker + "\n") == [Chomped(partial + marker)]
    decreases |marker|
  {
    if marker == "" {
      assert marker + "\n" == "\n" && partial + marker == partial && "\n"[1..] == "";
    } else {
      assert (marker + "\n")[0] == marker[0] && (marker + "\n")[1..] == marker[1..] + "\n";
      MarkerLine(partial + [marker[0]], marker[1..]);
      assert partial + [marker[0]] + marker[1..] == partial + marker;
    }
  }

  lemma {:induction false} ChompedMarker(partial: string, marker: string)
    requires marker != "" && '\r' !in marker
    ensures Chomped(partial + marker) == partial + marker
  {
    var glued := partial + marker;
    assert glued[|glued| - 1] == marker[|marker| - 1];
    assert marker[|marker| - 1] in marker;
  }

  /**
   The lines of a text that goes on after a marker line: what the output completed, then the marker,
   glued to whatever the output left unterminated, then the lines of the rest.
   */
  lemma {:induction false} LinesAroundMarker(output: string, marker: string, rest: string)
    requires IsPlain(marker)
    ensures TextLines(output + marker + "\n" + rest)
         == Completed("", output) + [Dangling("", output) + marker] + TextLines(rest)
  {
    var partial := Dangling("", output);
    assert output + marker + "\n" + rest == output + (marker + "\n" + rest);
    LinesOfConcat("", output, marker + "\n" + rest);
    MarkerLine(partial, marker);
    CompletedByMarker(partial, marker);
    LinesOfConcat(partial, marker + "\n", rest);
    ChompedMarker(partial, marker);
    assert output + (marker + "\n" + rest) != "" && LinesFrom("", rest) == TextLines(rest);
  }

  lemma {:induction false} CompletedByMarker(partial: string, marker: string)
    requires '\n' !in marker
    ensures Completed(partial, marker + "\n") == [Chomped(partial + marker)] && Dangling(partial, marker + "\n") == ""
    decreases |marker|
  {
    if marker == "" {
      assert marker + "\n" == "\n" && partial + marker == partial && "\n"[1..] == "";
    } else {
      assert (marker + "\n")[0] == marker[0] && (marker + "\n")[1..] == marker[1..] + "\n";
      CompletedByMarker(partial + [marker[0]], marker[1..]);
      assert partial + [marker[0]] + marker[1..] == partial + marker;
    }
  }

  /**
   A marker that is none of the lines the output completed is a line of its own exactly if the
   output is empty or ends with a newline. Otherwise it is glued to the unterminated last line.
   */
  lemma {:induction false} MarkerIsFoundExactlyIfTerminated(output: string, marker: string)
    requires IsPlain(marker) && marker !in Completed("", output)
    ensures marker in TextLines(output + marker + "\n") <==> Terminated(output)
    ensures Terminated(output) ==> TextLines(output + marker + "\n") == Completed("", output) + [marker]
  {
    var partial := Dangling("", output);
    assert output + marker + "\n" + "" == output + marker + "\n";
    LinesAroundMarker(output, marker, "");
    DanglingIsEmptyExactlyIfTerminated("", output);
    assert partial == "" ==> partial + marker == marker;
  }

  /** While the marker is nowhere in the stream the drain takes line after line and never returns. */
  lemma {:induction false} LostMarkerHangs(markers: seq<string>, incoming: seq<Captured>, run: seq<State>)
    requires markers != [] && !Mentions(incoming, markers[0]) && IsRun(markers, incoming, run)
    ensures run[|run| - 1].drained == []
  {
    assert Stream([]) + incoming == incoming;
    DrainsReturnTheirBlocks([], incoming, markers, run);
  }

  // ---------- When the drains return ----------

  /** A marker is not empty, consists of ASCII characters, and holds no line ends. */
  predicate IsPlain(marker: string) {
    marker != "" && '\n' !in marker && '\r' !in marker &&
    forall i :: 0 <= i < |marker| ==> InRange(marker[i], 0x00, 0x7F)
  }

  /** What the worker writes: each test's output, its marker, a newline. */
  function Written(outputs: seq<string>, markers: seq<string>): string
    requires |outputs| == |markers|
  {
    if outputs == [] then "" else outputs[0] + markers[0] + "\n" + Written(outputs[1..], markers[1..])
  }

  /** Markers are distinct identifiers of one length, and no output prints one as a line of its own. */
  ghost predicate FreshMarkers(outputs: seq<string>, markers: seq<string>)
    requires |outputs| == |markers|
  {
    && (forall i :: 0 <= i < |markers| ==> IsPlain(markers[i]))
    && (forall i, j :: 0 <= i < |markers| && 0 <= j < |markers| ==> |markers[i]| == |markers[j]|)
    && (forall i, j :: 0 <= i < j < |markers| ==> markers[i] != markers[j])
    && (forall i, k :: 0 <= i < |markers| && 0 <= k < |outputs| ==> markers[i] !in Completed("", outputs[k]))
  }

  /** How many outputs come before the first one that is not readable. */
  function Leading(outputs: seq<string>): (n: nat)
    ensures n <= |outputs| && (n < |outputs| ==> !Readable(outputs[n]))
    ensures forall i :: 0 <= i < n ==> Readable(outputs[i])
  {
    if outputs == [] || !Readable(outputs[0]) then 0 else 1 + Leading(outputs[1..])
  }

  lemma {:induction false} WrittenLines(outputs: seq<string>, markers: seq<string>)
    requires |outputs| == |markers| && outputs != [] && IsPlain(markers[0])
    ensures TextLines(Written(outputs, markers))
         == Completed("", outputs[0]) + [Dangling("", outputs[0]) + markers[0]] +
            TextLines(Written(outputs[1..], markers[1..]))
    ensures Dangling("", outputs[0]) == "" <==> Terminated(outputs[0])
  {
    LinesAroundMarker(outputs[0], markers[0], Written(outputs[1..], markers[1..]));
    DanglingIsEmptyExactlyIfTerminated("", outputs[0]);
  }

  /** After an unterminated output its marker is in no line of the stream. */
  lemma {:induction false} MarkerIsNowhere(outputs: seq<string>, markers: seq<string>, m: string, from: nat)
    requires |outputs| == |markers| && from <= |outputs|
    requires forall i :: 0 <= i < |markers| ==> IsPlain(markers[i]) && |markers[i]| == |m|
    requires forall k :: 0 <= k < |outputs| ==> m !in Completed("", outputs[k])
    requires forall k :: 0 <= k < |outputs| ==> markers[k] != m || !Terminated(outputs[k])
    ensures m !in TextLines(Written(outputs[from..], markers[from..]))
    decreases |outputs| - from
  {
    var os, ms := outputs[from..], markers[from..];
    if os != [] {
      MarkerIsNowhere(outputs, markers, m, from + 1);
      assert os[1..] == outputs[from + 1..] && ms[1..] == markers[from + 1..];
      assert os[0] == outputs[from] && ms[0] == markers[from];
      WrittenLines(os, ms);
      var partial := Dangling("", os[0]);
      if partial == "" {
        assert partial + ms[0] == ms[0];
      } else {
        assert |partial + ms[0]| > |m|;
      }
    }
  }

  /** The block holds the lines the output completed and ends with the marker. */
  ghost predicate Holds(b: Block, output: string, marker: string) {
    Texts(b.output) == Completed("", output) && b.end.line == marker
  }

  lemma {:induction false} FirstBlock(incoming: seq<Captured>, output: string, marker: string, rest: seq<string>)
    returns (b: Block, later: seq<Captured>)
    requires Texts(incoming) == Completed("", output) + [marker] + rest
    ensures incoming == b.output + [b.end] + later && Holds(b, output, marker) && Texts(later) == rest
  {
    hide Completed, Texts;
    var n := |Completed("", output)|;
    SplitAround(Texts(incoming), Completed("", output), marker, rest);
    TextsOfSlice(incoming, 0, n);
    TextsOfSlice(incoming, n + 1, |incoming|);
    b, later := Block(incoming[..n], incoming[n]), incoming[n + 1..];
    assert Texts(incoming)[n] == incoming[n].line;
  }

  lemma {:induction false} SplitAround(all: seq<string>, a: seq<string>, m: string, b: seq<string>)
    requires all == a + [m] + b
    ensures all[..|a|] == a && all[|a|] == m && all[|a| + 1..] == b
  {
  }

  lemma {:induction false} TextsOfSlice(lines: seq<Captured>, i: nat, j: nat)
    requires i <= j <= |lines|
    ensures Texts(lines[i..j]) == Texts(lines)[i..j]
  {
  }

  lemma {:induction false} ReadableLines(outputs: seq<string>, markers: seq<string>)
    requires |outputs| == |markers| && outputs != [] && IsPlain(markers[0]) && Readable(outputs[0])
    ensures ReadLines(Written(outputs, markers))
         == Completed("", outputs[0]) + [markers[0]] + ReadLines(Written(outputs[1..], markers[1..]))
  {
    hide Written, TextLines, Completed, Dangling, Decodable, IsUtf8, Terminated;
    var rest := TextLines(Written(outputs[1..], markers[1..]));
    WrittenLines(outputs, markers);
    AsciiIsUtf8(markers[0]);
    assert Dangling("", outputs[0]) + markers[0] == markers[0];
    var block := Completed("", outputs[0]) + [markers[0]];
    DecodableConcat(block, rest);
    assert forall line :: line in block ==> IsUtf8(line);
  }

  /** An output that is not readable takes its marker with it: glued to a line, or behind the end of reading. */
  lemma {:induction false} UnreadableLosesMarker(outputs: seq<string>, markers: seq<string>)
    requires |outputs| == |markers| && outputs != [] && FreshMarkers(outputs, markers) && !Readable(outputs[0])
    ensures markers[0] !in ReadLines(Written(outputs, markers))
  {
    hide Written, TextLines, Completed, Dangling, Decodable, IsUtf8, Terminated;
    WrittenLines(outputs, markers);
    var first := Completed("", outputs[0]);
    var rest := [Dangling("", outputs[0]) + markers[0]] + TextLines(Written(outputs[1..], markers[1..]));
    assert TextLines(Written(outputs, markers)) == first + rest;
    if Terminated(outputs[0]) {
      DecodableConcat(first, rest);
    } else {
      assert outputs[0..] == outputs && markers[0..] == markers;
      MarkerIsNowhere(outputs, markers, markers[0], 0);
      DecodableAreLines(first + rest);
    }
  }

  /** The lines that reach the parent are the blocks of the leading readable outputs and a tail. */
  lemma {:induction false} IncomingIsBlocks(outputs: seq<string>, markers: seq<string>, incoming: seq<Captured>)
    returns (blocks: seq<Block>, tail: seq<Captured>)
    requires |outputs| == |markers| && (forall i :: 0 <= i < |markers| ==> IsPlain(markers[i]))
    requires Texts(incoming) == ReadLines(Written(outputs, markers))
    ensures |blocks| == Leading(outputs) && incoming == Stream(blocks) + tail
    ensures forall i :: 0 <= i < |blocks| ==> Holds(blocks[i], outputs[i], markers[i])
    ensures Texts(tail) == ReadLines(Written(outputs[Leading(outputs)..], markers[Leading(outputs)..]))
  {
    hide Written, ReadLines, Completed, Readable, Texts, Holds, IsPlain;
    if outputs == [] || !Readable(outputs[0]) {
      blocks, tail := [], incoming;
      assert Stream(blocks) + tail == incoming;
      assert outputs[0..] == outputs && markers[0..] == markers;
    } else {
      ReadableLines(outputs, markers);
      var b, later := FirstBlock(incoming, outputs[0], markers[0], ReadLines(Written(outputs[1..], markers[1..])));
      var blocks', tail' := IncomingIsBlocks(outputs[1..], markers[1..], later);
      blocks, tail := [b] + blocks', tail';
      StreamOfMore(b, blocks', tail');
      var m := Leading(outputs);
      assert outputs[1..][m - 1..] == outputs[m..] && markers[1..][m - 1..] == markers[m..];
      forall i | 0 <= i < |blocks| ensures Holds(blocks[i], outputs[i], markers[i]) {
        assert i > 0 ==>
          blocks[i] == blocks'[i - 1] && outputs[i] == outputs[1..][i - 1] && markers[i] == markers[1..][i - 1];
      }
    }
  }

  lemma {:induction false} StreamOfMore(b: Block, blocks: seq<Block>, tail: seq<Captured>)
    ensures Stream([b] + blocks) + tail == b.output + [b.end] + (Stream(blocks) + tail)
  {
    assert ([b] + blocks)[1..] == blocks;
  }

  lemma {:induction false} MentionsTexts(lines: seq<Captured>, m: string)
    ensures Mentions(lines, m) <==> m in Texts(lines)
  {
    if Mentions(lines, m) {
      var i :| 0 <= i < |lines| && lines[i].line == m;
      assert Texts(lines)[i] == m;
    }
  }

  lemma {:induction false} StreamIsExpected(
        outputs: seq<string>, markers: seq<string>, blocks: seq<Block>, tail: seq<Captured>)
    requires |outputs| == |markers| && FreshMarkers(outputs, markers) && |blocks| == Leading(outputs)
    requires forall i :: 0 <= i < |blocks| ==> Holds(blocks[i], outputs[i], markers[i])
    requires Texts(tail) == ReadLines(Written(outputs[|blocks|..], markers[|blocks|..]))
    ensures Expected(blocks, tail, markers)
  {
    hide Written, Completed, ReadLines, Readable;
    var j := |blocks|;
    assert forall i :: 0 <= i < j ==> Holds(blocks[i], outputs[i], markers[i]);
    forall i | 0 <= i < j ensures !Mentions(blocks[i].output, blocks[i].end.line) {
      MentionsTexts(blocks[i].output, markers[i]);
    }
    if j < |markers| {
      var os, ms := outputs[j..], markers[j..];
      assert forall k :: 0 <= k < |os| ==> os[k] == outputs[j + k] && ms[k] == markers[j + k];
      UnreadableLosesMarker(os, ms);
      MentionsTexts(tail, markers[j]);
    }
  }

  /**
   For any outputs and fresh markers, over all interleavings: the k-th drain can return exactly if
   all outputs up to and including the k-th are readable. Otherwise the marker of the first one that
   is not is glued to its last line or never read, and from there on no drain ever returns.
   */
  lemma {:induction false} DrainReturnsExactlyIfReadable(
        outputs: seq<string>, markers: seq<string>, incoming: seq<Captured>, k: nat)
    requires |outputs| == |markers| && FreshMarkers(outputs, markers) && k < |outputs|
    requires Texts(incoming) == ReadLines(Written(outputs, markers))
    ensures (exists run: seq<State> :: IsRun(markers, incoming, run) && |run[|run| - 1].drained| > k)
       <==> forall i :: 0 <= i <= k ==> Readable(outputs[i])
  {
    hide FreshMarkers, Expected, Written, ReadLines, Readable, Completed, Texts, Partitioned, Stream, Next;
    var blocks, tail := BlocksOf(outputs, markers, incoming);
    if k < Leading(outputs) {
      var run := DrainAll(blocks, tail, markers, k + 1);
      assert IsRun(markers, incoming, run);
    }
    forall run: seq<State> | IsRun(markers, incoming, run) ensures |run[|run| - 1].drained| <= Leading(outputs) {
      DrainsReturnTheirBlocks(blocks, tail, markers, run);
      DrainedWithin(blocks, tail, markers, run[|run| - 1]);
    }
  }

  lemma {:induction false} BlocksOf(outputs: seq<string>, markers: seq<string>, incoming: seq<Captured>)
    returns (blocks: seq<Block>, tail: seq<Captured>)
    requires |outputs| == |markers| && FreshMarkers(outputs, markers)
    requires Texts(incoming) == ReadLines(Written(outputs, markers))
    ensures |blocks| == Leading(outputs) && incoming == Stream(blocks) + tail && Expected(blocks, tail, markers)
    ensures forall i :: 0 <= i < |blocks| ==> Texts(blocks[i].output) == Completed("", outputs[i])
  {
    hide Expected, Written, ReadLines, Readable, Completed, Texts, Stream;
    blocks, tail := IncomingIsBlocks(outputs, markers, incoming);
    StreamIsExpected(outputs, markers, blocks, tail);
  }

  /** A drain that returns has collected exactly the lines of its own test's output. */
  lemma {:induction false} DrainedLinesAreTheOutput(
        outputs: seq<string>, markers: seq<string>, incoming: seq<Captured>, run: seq<State>, k: nat)
    requires |outputs| == |markers| && FreshMarkers(outputs, markers)
    requires Texts(incoming) == ReadLines(Written(outputs, markers))
    requires IsRun(markers, incoming, run) && k < |run[|run| - 1].drained|
    ensures k < |outputs| && Texts(run[|run| - 1].drained[k]) == Completed("", outputs[k])
  {
    hide FreshMarkers, Expected, Written, ReadLines, Readable, Completed, Texts, IsRun, Stream;
    var blocks, tail := BlocksOf(outputs, markers, incoming);
    DrainsReturnTheirBlocks(blocks, tail, markers, run);
  }
}
