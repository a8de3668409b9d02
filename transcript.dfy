/**
 * What the two transcript buffers (transcript_buffer.py and the simpler one in
 * stream_audio.py) share: the buffered entry, the flush trigger and the
 * serialisation `get_full_transcript` performs over the buffer.
 */
module Transcript {
  import opened Text

  /** One buffered line: `{"speaker": ..., "text": ..., "timestamp": ...}`. */
  datatype Entry = Entry(speaker: string, text: string, timestamp: int)

  /** A flush is due once `clean_interval` seconds have passed since the last one. */
  predicate FlushDue(lastCleanTime: int, now: int, cleanInterval: int) {
    now - lastCleanTime >= cleanInterval
  }

  /**
   * The serialised form of one entry: the stripped speaker immediately
   * followed by the stripped text, with no separator. `get_full_transcript` writes this
   * as `f"{speaker}{text}" if speaker else text`; RenderBranches shows that
   * the two branches agree with this single expression.
   */
  function Render(e: Entry): string {
    Strip(e.speaker) + Strip(e.text)
  }

  lemma RenderBranches(e: Entry)
    ensures var speaker, text := Strip(e.speaker), Strip(e.text);
      Render(e) == if speaker != "" then speaker + text else text
  {
    if Strip(e.speaker) == "" {
      assert Render(e) == "" + Strip(e.text) == Strip(e.text);
    }
  }

  /** One rendered line per entry, in buffer order (RenderAllAt). */
  function RenderAll(buffer: seq<Entry>): (r: seq<string>)
    ensures |r| == |buffer|
  {
    if buffer == [] then []
    else RenderAll(buffer[..|buffer| - 1]) + [Render(buffer[|buffer| - 1])]
  }

  /** Line `i` of the rendering is entry `i` rendered. */
  lemma {:induction false} RenderAllAt(buffer: seq<Entry>, i: int)
    requires 0 <= i < |buffer|
    ensures RenderAll(buffer)[i] == Render(buffer[i])
  {
    var init := buffer[..|buffer| - 1];
    if i < |init| {
      RenderAllAt(init, i);
      assert init[i] == buffer[i];
    }
  }

  /** The whole buffer as one string: one rendered line per entry, joined by newlines. */
  ghost function FullTranscript(buffer: seq<Entry>): string {
    Join(RenderAll(buffer), "\n")
  }

  /** `get_full_transcript`: the accumulating loop over the buffer, then the join. */
  method Serialize(buffer: seq<Entry>) returns (r: string)
    ensures r == FullTranscript(buffer)
  {
    var lines: seq<string> := [];
    var i := 0;
    while i < |buffer|
      invariant 0 <= i <= |buffer|
      invariant lines == RenderAll(buffer[..i])
    {
      assert buffer[..i + 1][..i] == buffer[..i];
      lines := lines + [Render(buffer[i])];
      i := i + 1;
    }
    assert buffer[..|buffer|] == buffer;
    r := Join(lines, "\n");
  }

  /**
   * When no rendered entry contains a newline, the serialisation can be split
   * back into exactly one line per entry, in buffer order.
   */
  lemma FullTranscriptLines(buffer: seq<Entry>)
    requires buffer != []
    requires forall i :: 0 <= i < |buffer| ==> '\n' !in Render(buffer[i])
    ensures Split(FullTranscript(buffer), '\n') == RenderAll(buffer)
    ensures |Split(FullTranscript(buffer), '\n')| == |buffer|
  {
    forall i | 0 <= i < |buffer| ensures '\n' !in RenderAll(buffer)[i] {
      RenderAllAt(buffer, i);
    }
    SplitJoin(RenderAll(buffer), '\n');
  }

  /** Appending an entry appends its rendered line after a newline. */
  lemma FullTranscriptAppend(buffer: seq<Entry>, e: Entry)
    ensures FullTranscript(buffer + [e]) ==
      if buffer == [] then Render(e) else FullTranscript(buffer) + "\n" + Render(e)
  {
    JoinSnoc(RenderAll(buffer), Render(e), "\n");
    assert RenderAll(buffer + [e]) == RenderAll(buffer) + [Render(e)];
  }

  lemma {:induction false} JoinSnoc(xs: seq<string>, x: string, sep: string)
    ensures Join(xs + [x], sep) == if xs == [] then x else Join(xs, sep) + sep + x
  {
    if |xs| == 1 {
      assert xs + [x] == [xs[0], x];
      assert [xs[0], x][1..] == [x];
    } else if |xs| > 1 {
      assert (xs + [x])[1..] == xs[1..] + [x];
      JoinSnoc(xs[1..], x, sep);
    }
  }

  /** The speaker label is glued to the text: "[Speaker 1] " and "hi" give "[Speaker 1]hi". */
  lemma RenderGluesSpeakerLabel()
    ensures Render(Entry("[Speaker 1] ", "hi", 0)) == "[Speaker 1]hi"
  {
    StripStripped("hi");
    var s := "[Speaker 1] ";
    assert SkipSpace(s, 0) == 0;
    assert IsSpace(s[11]) && !IsSpace(s[10]);
    assert SkipSpaceBack(s, 0, 11) == 11;
    assert SkipSpaceBack(s, 0, 12) == 11;
    assert s[0..11] == "[Speaker 1]";
  }
}
