/** The response frame splitter of the streaming requests (ndc_client.go).
    A streamed response body is read one line at a time; lines are gathered
    in a buffer, and when the marker `<!-- AG-EOM -->` shows up the buffer,
    marker included, is handed on as one frame and the buffer is emptied.

    The reference description is `Group`: the lines are cut into groups,
    each ending with the first later line that holds the marker, plus the
    lines after the last marker that are still waiting. The per-line test
    of `RequestAsync`/`RequestAsync2` follows `Group` step for step
    (`FeedStep`); the test of the whole buffer in `RequestAsynch` is
    `AccRun`, and `AccumulatedAgreesWithPerLine` shows the two agree on
    every body made of complete lines. */
module Framing {
  import opened Strings

  /** `responseDelimiter`. */
  const Delimiter: string := "<!-- AG-EOM -->"

  predicate HasDelimiter(chunk: string) {
    Contains(chunk, Delimiter)
  }

  /** A line as `ReadBytes('\n')` hands it over without an error. */
  predicate IsLine(line: string) {
    |line| > 0 && line[|line| - 1] == '\n'
  }

  /** The chunks written one after the other. */
  function Concat(chunks: seq<string>): string {
    if chunks == [] then "" else Concat(chunks[..|chunks| - 1]) + chunks[|chunks| - 1]
  }

  lemma ConcatSnoc(chunks: seq<string>, chunk: string)
    ensures Concat(chunks + [chunk]) == Concat(chunks) + chunk
  {
    assert (chunks + [chunk])[..|chunks|] == chunks;
  }

  lemma AppendAssoc<T>(a: seq<T>, b: seq<T>, c: seq<T>)
    ensures (a + b) + c == a + (b + c)
  {
  }

  /** The lines of all groups, in order. */
  function Flatten(groups: seq<seq<string>>): seq<string> {
    if groups == [] then [] else Flatten(groups[..|groups| - 1]) + groups[|groups| - 1]
  }

  lemma FlattenSnoc(groups: seq<seq<string>>, group: seq<string>)
    ensures Flatten(groups + [group]) == Flatten(groups) + group
  {
    assert (groups + [group])[..|groups|] == groups;
  }

  /** Non-empty groups hold at least one line each. */
  lemma {:induction false} FlattenCoversGroups(groups: seq<seq<string>>)
    requires forall k :: 0 <= k < |groups| ==> |groups[k]| > 0
    ensures |Flatten(groups)| >= |groups|
    decreases |groups|
  {
    if groups != [] {
      FlattenCoversGroups(groups[..|groups| - 1]);
    }
  }

  /** Lines already cut into complete groups, and the lines still waiting
      for a marker. */
  datatype Grouping = Grouping(groups: seq<seq<string>>, pending: seq<string>)

  /** One line arrives: it joins the waiting lines, and a line holding the
      marker closes them into a group. */
  function Feed(g: Grouping, line: string): Grouping {
    if HasDelimiter(line) then Grouping(g.groups + [g.pending + [line]], [])
    else Grouping(g.groups, g.pending + [line])
  }

  function Group(lines: seq<string>): Grouping {
    if lines == [] then Grouping([], [])
    else Feed(Group(lines[..|lines| - 1]), lines[|lines| - 1])
  }

  /** Each group written out as one text. */
  function ConcatEach(groups: seq<seq<string>>): (texts: seq<string>)
    ensures |texts| == |groups|
  {
    if groups == [] then [] else ConcatEach(groups[..|groups| - 1]) + [Concat(groups[|groups| - 1])]
  }

  lemma ConcatEachSnoc(groups: seq<seq<string>>, group: seq<string>)
    ensures ConcatEach(groups + [group]) == ConcatEach(groups) + [Concat(group)]
  {
    assert (groups + [group])[..|groups|] == groups;
  }

  /** The `k`-th text is the `k`-th group written out. */
  lemma {:induction false} ConcatEachAt(groups: seq<seq<string>>, k: nat)
    requires k < |groups|
    ensures ConcatEach(groups)[k] == Concat(groups[k])
    decreases |groups|
  {
    if k < |groups| - 1 {
      ConcatEachAt(groups[..|groups| - 1], k);
    }
  }

  /** The state of one streaming loop: frames handed on so far, and the
      accumulation buffer. */
  datatype Session = Session(frames: seq<string>, buf: string)

  /** One step of the loop of `RequestAsync`/`RequestAsync2`: the line is
      appended to the buffer, and if the line holds the marker the buffer is
      handed on as a frame and emptied. */
  function Step(s: Session, line: string): Session {
    var acc := s.buf + line;
    if HasDelimiter(line) then Session(s.frames + [acc], "") else Session(s.frames, acc)
  }

  function Run(lines: seq<string>): Session {
    if lines == [] then Session([], "")
    else Step(Run(lines[..|lines| - 1]), lines[|lines| - 1])
  }

  /** The frames emitted for `lines`. */
  function Frames(lines: seq<string>): seq<string> {
    Run(lines).frames
  }

  /** The accumulation buffer after `lines`. */
  function Pending(lines: seq<string>): string {
    Run(lines).buf
  }

  /** A group is a run of lines whose last line, and only that line, holds
      the marker. */
  ghost predicate IsFrameGroup(group: seq<string>) {
    && |group| > 0
    && HasDelimiter(group[|group| - 1])
    && forall j :: 0 <= j < |group| - 1 ==> !HasDelimiter(group[j])
  }

  /** `g` cuts `lines` into marker-terminated groups followed by waiting
      lines none of which holds the marker. */
  ghost predicate IsGroupingOf(lines: seq<string>, g: Grouping) {
    && Flatten(g.groups) + g.pending == lines
    && (forall k :: 0 <= k < |g.groups| ==> IsFrameGroup(g.groups[k]))
    && (forall j :: 0 <= j < |g.pending| ==> !HasDelimiter(g.pending[j]))
  }

  /** `Group` cuts the lines as described: no line is lost, duplicated or
      moved, every group ends at its first marker line, and no waiting line
      holds the marker. */
  lemma {:induction false} GroupIsGrouping(lines: seq<string>)
    ensures IsGroupingOf(lines, Group(lines))
    decreases |lines|
  {
    if lines != [] {
      var init, line := lines[..|lines| - 1], lines[|lines| - 1];
      GroupIsGrouping(init);
      FeedKeepsGrouping(init, Group(init), line);
      assert lines == init + [line];
    }
  }

  /** Feeding one line to a cut of `lines` gives a cut of the longer body. */
  lemma FeedKeepsGrouping(lines: seq<string>, g: Grouping, line: string)
    requires IsGroupingOf(lines, g)
    ensures IsGroupingOf(lines + [line], Feed(g, line))
  {
    var gs, p := g.groups, g.pending;
    if HasDelimiter(line) {
      var group := p + [line];
      FlattenSnoc(gs, group);
      assert Flatten(gs + [group]) + [] == lines + [line];
      assert IsFrameGroup(group) by {
        assert group[|group| - 1] == line;
        forall j | 0 <= j < |group| - 1 ensures !HasDelimiter(group[j]) {
          assert group[j] == p[j];
        }
      }
      forall k | 0 <= k < |gs + [group]| ensures IsFrameGroup((gs + [group])[k]) {
        if k < |gs| {
          assert (gs + [group])[k] == gs[k];
        }
      }
    } else {
      assert Flatten(gs) + (p + [line]) == lines + [line];
      forall j | 0 <= j < |p + [line]| ensures !HasDelimiter((p + [line])[j]) {
        if j < |p| {
          assert (p + [line])[j] == p[j];
        }
      }
    }
  }

  /** Taking the last line away from a grouping whose last line is still
      waiting leaves a grouping of the shorter body. */
  lemma UnfeedWaiting(lines: seq<string>, g: Grouping)
    requires IsGroupingOf(lines, g) && g.pending != []
    ensures lines != [] && !HasDelimiter(lines[|lines| - 1])
    ensures IsGroupingOf(lines[..|lines| - 1], Grouping(g.groups, g.pending[..|g.pending| - 1]))
    ensures g.pending == g.pending[..|g.pending| - 1] + [lines[|lines| - 1]]
  {
    var p := g.pending;
    assert lines[|lines| - 1] == p[|p| - 1];
    assert Flatten(g.groups) + p[..|p| - 1] == lines[..|lines| - 1];
  }

  /** Taking the last line away from a grouping with nothing waiting
      reopens its last group. */
  lemma UnfeedClosed(lines: seq<string>, g: Grouping)
    requires IsGroupingOf(lines, g) && g.pending == [] && lines != []
    ensures g.groups != [] && HasDelimiter(lines[|lines| - 1])
    ensures var last := g.groups[|g.groups| - 1];
      && IsGroupingOf(lines[..|lines| - 1], Grouping(g.groups[..|g.groups| - 1], last[..|last| - 1]))
      && g.groups == g.groups[..|g.groups| - 1] + [last[..|last| - 1] + [lines[|lines| - 1]]]
  {
    var gs := g.groups;
    assert gs != [];
    var last, gs' := gs[|gs| - 1], gs[..|gs| - 1];
    assert gs' + [last] == gs;
    FlattenSnoc(gs', last);
    assert IsFrameGroup(last);
    assert lines[|lines| - 1] == last[|last| - 1];
    assert Flatten(gs') + last[..|last| - 1] == lines[..|lines| - 1];
    assert last == last[..|last| - 1] + [lines[|lines| - 1]];
  }

  /** ... and it is the only such cut: any grouping of `lines` with those
      properties is `Group(lines)`. */
  lemma {:induction false} GroupingIsUnique(lines: seq<string>, g: Grouping)
    requires IsGroupingOf(lines, g)
    ensures g == Group(lines)
    decreases |lines|
  {
    if lines == [] {
      FlattenCoversGroups(g.groups);
    } else if g.pending != [] {
      UnfeedWaiting(lines, g);
      GroupingIsUnique(lines[..|lines| - 1], Grouping(g.groups, g.pending[..|g.pending| - 1]));
    } else {
      UnfeedClosed(lines, g);
      var last := g.groups[|g.groups| - 1];
      GroupingIsUnique(lines[..|lines| - 1], Grouping(g.groups[..|g.groups| - 1], last[..|last| - 1]));
    }
  }

  /** How many lines hold the marker. */
  function CountDelimited(lines: seq<string>): nat {
    if lines == [] then 0
    else CountDelimited(lines[..|lines| - 1]) + (if HasDelimiter(lines[|lines| - 1]) then 1 else 0)
  }

  /** Reading one more line changes the frames and the buffer exactly as
      the per-line loop does: append the line to the buffer, and if the line
      holds the marker, emit the buffer and empty it. */
  lemma FeedStep(lines: seq<string>, line: string)
    ensures Frames(lines + [line]) ==
            if HasDelimiter(line) then Frames(lines) + [Pending(lines) + line] else Frames(lines)
    ensures Pending(lines + [line]) == if HasDelimiter(line) then "" else Pending(lines) + line
  {
    assert (lines + [line])[..|lines|] == lines;
  }

  /** The loop hands on exactly the groups of the reference cut, each
      written out as one text, and its buffer holds the waiting lines. */
  lemma {:induction false} RunFollowsGroup(lines: seq<string>)
    ensures Frames(lines) == ConcatEach(Group(lines).groups)
    ensures Pending(lines) == Concat(Group(lines).pending)
  {
    FramesFollowGroups(lines);
    PendingFollowsWaiting(lines);
  }

  lemma {:induction false} FramesFollowGroups(lines: seq<string>)
    ensures Frames(lines) == ConcatEach(Group(lines).groups)
    decreases |lines|
  {
    if lines != [] {
      var init, line := lines[..|lines| - 1], lines[|lines| - 1];
      FramesFollowGroups(init);
      PendingFollowsWaiting(init);
      assert lines == init + [line];
      FramesFollowStep(init, line);
    }
  }

  /** The step of `FramesFollowGroups`. */
  lemma FramesFollowStep(init: seq<string>, line: string)
    requires Frames(init) == ConcatEach(Group(init).groups)
    requires Pending(init) == Concat(Group(init).pending)
    ensures Frames(init + [line]) == ConcatEach(Group(init + [line]).groups)
  {
    var g := Group(init);
    assert (init + [line])[..|init|] == init;
    assert Group(init + [line]) == Feed(g, line);
    FeedStep(init, line);
    if HasDelimiter(line) {
      ConcatSnoc(g.pending, line);
      ConcatEachSnoc(g.groups, g.pending + [line]);
    }
  }

  lemma {:induction false} PendingFollowsWaiting(lines: seq<string>)
    ensures Pending(lines) == Concat(Group(lines).pending)
    decreases |lines|
  {
    if lines != [] {
      var init, line := lines[..|lines| - 1], lines[|lines| - 1];
      var g := Group(init);
      PendingFollowsWaiting(init);
      assert lines == init + [line];
      assert Group(lines) == Feed(g, line);
      FeedStep(init, line);
      if !HasDelimiter(line) {
        ConcatSnoc(g.pending, line);
      }
    }
  }

  /** Exactly one frame per line that holds the marker. */
  lemma {:induction false} FrameCount(lines: seq<string>)
    ensures |Frames(lines)| == CountDelimited(lines)
    decreases |lines|
  {
    if lines != [] {
      var init, line := lines[..|lines| - 1], lines[|lines| - 1];
      FrameCount(init);
      assert lines == init + [line];
      FeedStep(init, line);
    }
  }

  /** Nothing is lost or duplicated: the frames followed by the buffer spell
      out the lines read, in order. */
  lemma {:induction false} FramesKeepText(lines: seq<string>)
    ensures Concat(Frames(lines)) + Pending(lines) == Concat(lines)
    decreases |lines|
  {
    if lines != [] {
      var init, line := lines[..|lines| - 1], lines[|lines| - 1];
      FramesKeepText(init);
      assert lines == init + [line];
      KeepTextStep(init, line);
    }
  }

  /** The step of `FramesKeepText`. */
  lemma KeepTextStep(init: seq<string>, line: string)
    requires Concat(Frames(init)) + Pending(init) == Concat(init)
    ensures Concat(Frames(init + [line])) + Pending(init + [line]) == Concat(init + [line])
  {
    FeedStep(init, line);
    ConcatSnoc(init, line);
    AppendAssoc(Concat(Frames(init)), Pending(init), line);
    if HasDelimiter(line) {
      ConcatSnoc(Frames(init), Pending(init) + line);
    }
  }

  /** Every frame ends with the line that holds the marker, and the marker
      is kept in the frame rather than stripped. */
  lemma FramesKeepDelimiter(lines: seq<string>)
    ensures forall k :: 0 <= k < |Frames(lines)| ==> HasDelimiter(Frames(lines)[k])
  {
    var groups := Group(lines).groups;
    GroupIsGrouping(lines);
    RunFollowsGroup(lines);
    forall k | 0 <= k < |groups|
      ensures HasDelimiter(Frames(lines)[k])
    {
      var group := groups[k];
      assert IsFrameGroup(group);
      ConcatEachAt(groups, k);
      var init := group[..|group| - 1];
      assert group == init + [group[|group| - 1]];
      ConcatSnoc(init, group[|group| - 1]);
      ContainsExtend(Concat(init), group[|group| - 1], Delimiter);
    }
  }

  /** Lines without a marker after the last marker line are never emitted:
      they only go to the buffer. */
  lemma TrailingLinesNotEmitted(lines: seq<string>, rest: seq<string>)
    requires forall j :: 0 <= j < |rest| ==> !HasDelimiter(rest[j])
    ensures Frames(lines + rest) == Frames(lines)
    ensures Pending(lines + rest) == Pending(lines) + Concat(rest)
  {
    TrailingFramesUnchanged(lines, rest);
    TrailingLinesBuffered(lines, rest);
  }

  lemma {:induction false} TrailingFramesUnchanged(lines: seq<string>, rest: seq<string>)
    requires forall j :: 0 <= j < |rest| ==> !HasDelimiter(rest[j])
    ensures Frames(lines + rest) == Frames(lines)
    decreases |rest|
  {
    if rest != [] {
      var init, line := rest[..|rest| - 1], rest[|rest| - 1];
      TrailingFramesUnchanged(lines, init);
      assert lines + rest == (lines + init) + [line];
      FeedStep(lines + init, line);
    } else {
      assert lines + rest == lines;
    }
  }

  lemma {:induction false} TrailingLinesBuffered(lines: seq<string>, rest: seq<string>)
    requires forall j :: 0 <= j < |rest| ==> !HasDelimiter(rest[j])
    ensures Pending(lines + rest) == Pending(lines) + Concat(rest)
    decreases |rest|
  {
    if rest != [] {
      var init, line := rest[..|rest| - 1], rest[|rest| - 1];
      TrailingLinesBuffered(lines, init);
      assert rest == init + [line];
      BufferedStep(lines, init, line);
    } else {
      assert lines + rest == lines;
    }
  }

  /** The step of `TrailingLinesBuffered`. */
  lemma BufferedStep(lines: seq<string>, init: seq<string>, line: string)
    requires !HasDelimiter(line)
    requires Pending(lines + init) == Pending(lines) + Concat(init)
    ensures Pending(lines + (init + [line])) == Pending(lines) + Concat(init + [line])
  {
    assert lines + (init + [line]) == (lines + init) + [line];
    FeedStep(lines + init, line);
    ConcatSnoc(init, line);
    AppendAssoc(Pending(lines), Concat(init), line);
  }

  /** A body without any marker yields no frame at all. */
  lemma NoDelimiterNoFrames(lines: seq<string>)
    requires forall j :: 0 <= j < |lines| ==> !HasDelimiter(lines[j])
    ensures Frames(lines) == []
  {
    TrailingLinesNotEmitted([], lines);
    assert [] + lines == lines;
  }

  /** When line `j` is the last one holding the marker, the frames spell out
      exactly the lines up to and including line `j`, and the lines after it
      are what is left in the buffer. */
  lemma FramesEndAtLastDelimiter(lines: seq<string>, j: nat)
    requires j < |lines| && HasDelimiter(lines[j])
    requires forall i :: j < i < |lines| ==> !HasDelimiter(lines[i])
    ensures Frames(lines) == Frames(lines[..j + 1])
    ensures Concat(Frames(lines)) == Concat(lines[..j + 1])
    ensures Pending(lines) == Concat(lines[j + 1..])
  {
    var head, rest := lines[..j + 1], lines[j + 1..];
    assert lines == head + rest;
    TrailingLinesNotEmitted(head, rest);
    assert head == lines[..j] + [lines[j]];
    FeedStep(lines[..j], lines[j]);
    FramesKeepText(head);
  }

  /** Reading further only adds frames: the frames of a prefix of the body
      are a prefix of the frames of the whole body. */
  lemma {:induction false} FramesGrowByExtension(lines: seq<string>, more: seq<string>)
    ensures Frames(lines) <= Frames(lines + more)
    decreases |more|
  {
    if more == [] {
      assert lines + more == lines;
    } else {
      var init, line := more[..|more| - 1], more[|more| - 1];
      FramesGrowByExtension(lines, init);
      assert lines + more == (lines + init) + [line];
      FeedStep(lines + init, line);
    }
  }

  /** A body made of whole messages, each a run of lines whose last line
      alone holds the marker, is split into exactly those messages, each
      written out as one frame, in order, with nothing left in the buffer. */
  lemma FramesOfWholeMessages(messages: seq<seq<string>>)
    requires forall k :: 0 <= k < |messages| ==> IsFrameGroup(messages[k])
    ensures Frames(Flatten(messages)) == ConcatEach(messages)
    ensures Pending(Flatten(messages)) == ""
  {
    RunFollowsGroup(Flatten(messages));
    var g := Grouping(messages, []);
    assert Flatten(messages) + [] == Flatten(messages);
    assert IsGroupingOf(Flatten(messages), g);
    GroupingIsUnique(Flatten(messages), g);
  }

  /** One step of the loop of `RequestAsynch`: the marker is looked for in
      the whole accumulated text, not only in the new line. */
  function AccStep(s: Session, line: string): Session {
    var acc := s.buf + line;
    if HasDelimiter(acc) then Session(s.frames + [acc], "") else Session(s.frames, acc)
  }

  function AccRun(lines: seq<string>): Session {
    if lines == [] then Session([], "")
    else AccStep(AccRun(lines[..|lines| - 1]), lines[|lines| - 1])
  }

  lemma DelimiterHasNoNewline()
    ensures '\n' !in Delimiter
  {
  }

  /** Between lines the buffer never holds the marker and, when it is not
      empty, ends with a complete line. */
  lemma {:induction false} PendingIsClean(lines: seq<string>)
    requires forall j :: 0 <= j < |lines| ==> IsLine(lines[j])
    ensures !HasDelimiter(Pending(lines))
    ensures Pending(lines) == "" || IsLine(Pending(lines))
    decreases |lines|
  {
    if lines == [] {
      assert !OccursAt("", Delimiter, 0);
    } else {
      var init, line := lines[..|lines| - 1], lines[|lines| - 1];
      PendingIsClean(init);
      assert lines == init + [line];
      FeedStep(init, line);
      if !HasDelimiter(line) {
        DelimiterHasNoNewline();
        ContainsAcrossSeam(Pending(init), line, Delimiter, '\n');
      }
    }
  }

  /** Looking for the marker in the whole buffer (`RequestAsynch`) and only
      in the new line (`RequestAsync`, `RequestAsync2`) emit the same frames
      and keep the same buffer, on every body made of complete lines. */
  lemma {:induction false} AccumulatedAgreesWithPerLine(lines: seq<string>)
    requires forall j :: 0 <= j < |lines| ==> IsLine(lines[j])
    ensures AccRun(lines) == Session(Frames(lines), Pending(lines))
    decreases |lines|
  {
    if lines != [] {
      var init, line := lines[..|lines| - 1], lines[|lines| - 1];
      AccumulatedAgreesWithPerLine(init);
      PendingIsClean(init);
      assert lines == init + [line];
      FeedStep(init, line);
      DelimiterHasNoNewline();
      ContainsAcrossSeam(Pending(init), line, Delimiter, '\n');
    }
  }
}
