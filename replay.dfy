/**
 * The replay tool (test/replay.rs): reads a file of pretty-printed digests
 * line by line, groups the lines into records, a new record starting at each
 * line that begins with `{`, and sends each record whose text is JSON to the
 * server as one WebSocket text message.
 *
 * The file arrives as a sequence of line reads, each a line or a read error,
 * and the JSON parser is a parameter `isJson`.
 */
module Replay {
  import opened Base

  /** `concat` on a vector: the parts joined with no separator. */
  function Concat<T>(parts: seq<seq<T>>): seq<T> {
    if |parts| == 0 then [] else Concat(parts[..|parts| - 1]) + parts[|parts| - 1]
  }

  lemma {:induction false} ConcatAppend<T>(a: seq<seq<T>>, b: seq<seq<T>>)
    ensures Concat(a + b) == Concat(a) + Concat(b)
    decreases |b|
  {
    if |b| == 0 {
      assert a + b == a;
    } else {
      var init, last := b[..|b| - 1], b[|b| - 1];
      assert (a + b)[..|a + b| - 1] == a + init;
      assert (a + b)[|a + b| - 1] == last;
      ConcatAppend(a, init);
      assert Concat(a) + Concat(init) + last == Concat(a) + (Concat(init) + last);
    }
  }

  /** `line.chars().next() == Some('{')` */
  predicate StartsRecord(line: string) {
    |line| > 0 && line[0] == '{'
  }

  /** The lines that were read, in order; a read error contributes none. */
  function ReadLines(lines: seq<Option<string>>): seq<string> {
    if |lines| == 0 then []
    else
      var last := lines[|lines| - 1];
      ReadLines(lines[..|lines| - 1]) + (if last.Some? then [last.value] else [])
  }

  /** The records already sent to `process_json`, and the lines gathered for the next one. */
  datatype Cut = Cut(closed: seq<seq<string>>, buffer: seq<string>)

  /** Where the loop stands after the lines `ls`. */
  function Split(ls: seq<string>): Cut {
    if |ls| == 0 then Cut([], [])
    else
      var c, line := Split(ls[..|ls| - 1]), ls[|ls| - 1];
      if c.buffer != [] && StartsRecord(line) then Cut(c.closed + [c.buffer], [line])
      else Cut(c.closed, c.buffer + [line])
  }

  /** Every record the loop hands to `process_json`: the closed ones and the final flush. */
  function Groups(ls: seq<string>): seq<seq<string>> {
    Split(ls).closed + [Split(ls).buffer]
  }

  /** `process_json`: the record's text, sent only when it parses as JSON. */
  function ProcessJson(record: seq<string>, isJson: string -> bool): seq<string> {
    if isJson(Concat(record)) then [Concat(record)] else []
  }

  /** The messages sent for a list of records, in order. */
  function Sent(records: seq<seq<string>>, isJson: string -> bool): seq<string> {
    if |records| == 0 then []
    else Sent(records[..|records| - 1], isJson) + ProcessJson(records[|records| - 1], isJson)
  }

  /**
   * `main`'s loop over the file's lines and the final flush: returns the
   * records it passed to `process_json`, in order, and the messages sent.
   */
  method Replay(lines: seq<Option<string>>, isJson: string -> bool) returns (records: seq<seq<string>>, sent: seq<string>)
    ensures records == Groups(ReadLines(lines))
    ensures sent == Sent(records, isJson)
  {
    var buffer: seq<string> := [];
    records, sent := [], [];
    for i := 0 to |lines|
      invariant Split(ReadLines(lines[..i])) == Cut(records, buffer)
      invariant sent == Sent(records, isJson)
    {
      ghost var before := ReadLines(lines[..i]);
      assert lines[..i + 1][..i] == lines[..i];
      if lines[i].Some? {
        var line := lines[i].value;
        assert ReadLines(lines[..i + 1]) == before + [line];
        assert (before + [line])[..|before|] == before;
        if buffer != [] && |line| > 0 && line[0] == '{' {
          sent := sent + ProcessJson(buffer, isJson);
          records := records + [buffer];
          buffer := [];
        }
        buffer := buffer + [line];
      } else {
        assert ReadLines(lines[..i + 1]) == before;
      }
    }
    assert lines[..|lines|] == lines;
    sent := sent + ProcessJson(buffer, isJson);
    records := records + [buffer];
  }

  // ---------------------------------------------------------------------------
  // What the grouping guarantees

  /** No line of a record after its first begins with `{`, and every record after the first starts with one. */
  predicate WellCut(groups: seq<seq<string>>) {
    forall j :: 0 <= j < |groups| ==>
      (forall k :: 0 < k < |groups[j]| ==> !StartsRecord(groups[j][k]))
      && (j > 0 ==> |groups[j]| > 0 && StartsRecord(groups[j][0]))
  }

  /** How many lines after the first begin with `{`. */
  function LaterStarts(ls: seq<string>): nat {
    if |ls| <= 1 then 0
    else LaterStarts(ls[..|ls| - 1]) + (if StartsRecord(ls[|ls| - 1]) then 1 else 0)
  }

  /** The loop loses no line: the closed records and the buffer, joined, are the lines so far. */
  lemma {:induction false} SplitCovers(ls: seq<string>)
    ensures Concat(Split(ls).closed) + Split(ls).buffer == ls
    decreases |ls|
  {
    if |ls| > 0 {
      SplitCovers(ls[..|ls| - 1]);
      SplitStepCovers(ls);
    }
  }

  /** One more line adds exactly that line to what the closed records and the buffer hold. */
  lemma SplitStepCovers(ls: seq<string>)
    requires |ls| > 0
    requires Concat(Split(ls[..|ls| - 1]).closed) + Split(ls[..|ls| - 1]).buffer == ls[..|ls| - 1]
    ensures Concat(Split(ls).closed) + Split(ls).buffer == ls
  {
    var c := Split(ls[..|ls| - 1]);
    Snoc(ls, Concat(c.closed), c.buffer);
    if c.buffer != [] && StartsRecord(ls[|ls| - 1]) {
      ConcatAppend(c.closed, [c.buffer]);
      ConcatSingle(c.buffer);
    }
  }

  /** A single part joins to itself. */
  lemma ConcatSingle<T>(part: seq<T>)
    ensures Concat([part]) == part
  {
    assert [part][..0] == [];
  }

  /** The buffer is empty only before the first line, and every closed record is non-empty. */
  lemma {:induction false} SplitNonEmpty(ls: seq<string>)
    ensures ls != [] <==> Split(ls).buffer != []
    ensures forall j :: 0 <= j < |Split(ls).closed| ==> Split(ls).closed[j] != []
    decreases |ls|
  {
    if |ls| > 0 {
      SplitNonEmpty(ls[..|ls| - 1]);
    }
  }

  /** The loop closes a record at every `{`-line after the first line. */
  lemma {:induction false} SplitCount(ls: seq<string>)
    ensures |Split(ls).closed| == LaterStarts(ls)
    decreases |ls|
  {
    if |ls| > 0 {
      var init := ls[..|ls| - 1];
      SplitCount(init);
      SplitNonEmpty(init);
    }
  }

  /** The records so far and the buffer are cut at `{`-lines and nowhere else. */
  lemma {:induction false} SplitWellCut(ls: seq<string>)
    ensures WellCut(Split(ls).closed + [Split(ls).buffer])
    ensures Split(ls).closed != [] ==> Split(ls).buffer != [] && StartsRecord(Split(ls).buffer[0])
    decreases |ls|
  {
    if |ls| > 0 {
      var init, line := ls[..|ls| - 1], ls[|ls| - 1];
      SplitWellCut(init);
      var c := Split(init);
      var before := c.closed + [c.buffer];
      if c.buffer != [] && StartsRecord(line) {
        var after := before + [[line]];
        forall j | 0 <= j < |after|
          ensures (forall k :: 0 < k < |after[j]| ==> !StartsRecord(after[j][k]))
                  && (j > 0 ==> |after[j]| > 0 && StartsRecord(after[j][0]))
        {
          if j < |before| {
            assert after[j] == before[j];
          }
        }
      } else {
        var grown := c.buffer + [line];
        var after := c.closed + [grown];
        forall j | 0 <= j < |after|
          ensures (forall k :: 0 < k < |after[j]| ==> !StartsRecord(after[j][k]))
                  && (j > 0 ==> |after[j]| > 0 && StartsRecord(after[j][0]))
        {
          if j < |c.closed| {
            assert after[j] == before[j];
          } else {
            assert after[j] == grown;
            assert before[j] == c.buffer;
            forall k | 0 < k < |grown| ensures !StartsRecord(grown[k]) {
              if k < |c.buffer| {
                assert grown[k] == c.buffer[k];
              }
            }
          }
        }
      }
    }
  }

  /** Joining the records gives back exactly the lines read, in order. */
  lemma GroupsCoverLines(ls: seq<string>)
    ensures Concat(Groups(ls)) == ls
  {
    SplitCovers(ls);
    ConcatAppend(Split(ls).closed, [Split(ls).buffer]);
    ConcatSingle(Split(ls).buffer);
  }

  /**
   * Every record after the first begins with a `{`-line, no other line of a
   * record does, there is one record more than there are `{`-lines after the
   * first line, and only an empty input gives an empty record.
   */
  lemma GroupsShape(ls: seq<string>)
    ensures WellCut(Groups(ls))
    ensures |Groups(ls)| == 1 + LaterStarts(ls)
    ensures forall j :: 0 <= j < |Groups(ls)| ==> (Groups(ls)[j] == [] <==> ls == [])
  {
    SplitWellCut(ls);
    SplitCount(ls);
    SplitNonEmpty(ls);
  }

  /** A record is sent exactly when its joined lines parse; what is sent is that text. */
  lemma {:induction false} SentMembership(records: seq<seq<string>>, isJson: string -> bool, text: string)
    ensures text in Sent(records, isJson) <==>
      exists j :: 0 <= j < |records| && Concat(records[j]) == text && isJson(text)
    decreases |records|
  {
    if |records| > 0 {
      var init := records[..|records| - 1];
      SentMembership(init, isJson, text);
      if exists j :: 0 <= j < |records| && Concat(records[j]) == text && isJson(text) {
        var j :| 0 <= j < |records| && Concat(records[j]) == text && isJson(text);
        if j < |init| {
          assert init[j] == records[j];
        }
      }
    }
  }

  /** When every record parses, the messages sent spell out the file's lines, none lost or repeated. */
  lemma {:induction false} AllJsonSendsEverything(records: seq<seq<string>>, isJson: string -> bool)
    requires forall j :: 0 <= j < |records| ==> isJson(Concat(records[j]))
    ensures |Sent(records, isJson)| == |records|
    ensures Concat(Sent(records, isJson)) == Concat(Concat(records))
    decreases |records|
  {
    if |records| > 0 {
      var init, last := records[..|records| - 1], records[|records| - 1];
      AllJsonSendsEverything(init, isJson);
      ConcatAppend(Sent(init, isJson), [Concat(last)]);
      ConcatAppend(Concat(init), last);
      ConcatSingle(Concat(last));
    }
  }
}
