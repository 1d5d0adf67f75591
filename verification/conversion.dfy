/**
 * The filter-and-count loop of the converter: it walks the messages the BLF
 * reader yields, drops and counts error frames unless they were asked for,
 * and writes one row per remaining message, counting those too.
 */
module Conversion {
  import opened CanRows

  /** The loop skips a message exactly when it is an error frame and error
      frames were not requested. */
  predicate Skipped(m: Message, includeErrorFrames: bool) {
    m.isErrorFrame && !includeErrorFrames
  }

  /** The rows written for `msgs`, in the order the messages arrive. */
  function ExpectedRows(msgs: seq<Message>, includeErrorFrames: bool): seq<Row>
    decreases |msgs|
  {
    if |msgs| == 0 then []
    else
      var m := msgs[|msgs| - 1];
      ExpectedRows(msgs[..|msgs| - 1], includeErrorFrames)
        + (if Skipped(m, includeErrorFrames) then [] else [MakeRow(m)])
  }

  /** The value `error_count` reaches for `msgs`. */
  function SkippedCount(msgs: seq<Message>, includeErrorFrames: bool): nat
    decreases |msgs|
  {
    if |msgs| == 0 then 0
    else
      SkippedCount(msgs[..|msgs| - 1], includeErrorFrames)
        + (if Skipped(msgs[|msgs| - 1], includeErrorFrames) then 1 else 0)
  }

  /** The number of error frames among `msgs`. */
  function ErrorFrameCount(msgs: seq<Message>): nat
    decreases |msgs|
  {
    if |msgs| == 0 then 0
    else ErrorFrameCount(msgs[..|msgs| - 1]) + (if msgs[|msgs| - 1].isErrorFrame then 1 else 0)
  }

  /** The conversion loop: returns the rows handed to the writer, in order,
      with `message_count` and `error_count` as they stand after the loop. */
  method ConvertMessages(msgs: seq<Message>, includeErrorFrames: bool)
    returns (rows: seq<Row>, messageCount: nat, errorCount: nat)
    ensures rows == ExpectedRows(msgs, includeErrorFrames)
    ensures messageCount == |rows|
    ensures errorCount == SkippedCount(msgs, includeErrorFrames)
    ensures messageCount + errorCount == |msgs|
  {
    rows, messageCount, errorCount := [], 0, 0;
    for i := 0 to |msgs|
      invariant rows == ExpectedRows(msgs[..i], includeErrorFrames)
      invariant messageCount == |rows|
      invariant errorCount == SkippedCount(msgs[..i], includeErrorFrames)
    {
      var msg := msgs[i];
      assert msgs[..i + 1][..i] == msgs[..i];
      if msg.isErrorFrame && !includeErrorFrames {
        errorCount := errorCount + 1;
        continue;
      }
      var row := MakeRow(msg);
      rows := rows + [row];
      messageCount := messageCount + 1;
    }
    assert msgs[..|msgs|] == msgs;
    Conservation(msgs, includeErrorFrames);
  }

  // ---------------------------------------------------------------------------
  // Properties of the loop's result
  // ---------------------------------------------------------------------------

  /** Every message read is accounted for exactly once: it is either
      written as a row or counted as a skipped error frame. */
  lemma {:induction false} Conservation(msgs: seq<Message>, includeErrorFrames: bool)
    ensures |ExpectedRows(msgs, includeErrorFrames)| + SkippedCount(msgs, includeErrorFrames) == |msgs|
    decreases |msgs|
  {
    if |msgs| > 0 {
      Conservation(msgs[..|msgs| - 1], includeErrorFrames);
    }
  }

  /** Without the option, no row is an error frame and `error_count` is the
      number of error frames in the input. */
  lemma {:induction false} ErrorFramesExcluded(msgs: seq<Message>)
    ensures SkippedCount(msgs, false) == ErrorFrameCount(msgs)
    ensures forall j :: 0 <= j < |ExpectedRows(msgs, false)| ==>
      ExpectedRows(msgs, false)[j].isErrorFrame == "False"
    decreases |msgs|
  {
    if |msgs| > 0 {
      var front := msgs[..|msgs| - 1];
      ErrorFramesExcluded(front);
      RowColumns(msgs[|msgs| - 1]);
    }
  }

  /** With the option, nothing is skipped: `error_count` stays 0 and row i
      is the row of message i. */
  lemma {:induction false} ErrorFramesIncluded(msgs: seq<Message>)
    ensures SkippedCount(msgs, true) == 0
    ensures |ExpectedRows(msgs, true)| == |msgs|
    ensures forall i :: 0 <= i < |msgs| ==> ExpectedRows(msgs, true)[i] == MakeRow(msgs[i])
    decreases |msgs|
  {
    if |msgs| > 0 {
      var n := |msgs| - 1;
      var front := msgs[..n];
      ErrorFramesIncluded(front);
      var rows, frontRows := ExpectedRows(msgs, true), ExpectedRows(front, true);
      assert rows == frontRows + [MakeRow(msgs[n])];
      forall i | 0 <= i < |msgs| ensures rows[i] == MakeRow(msgs[i]) {
        if i < n {
          assert front[i] == msgs[i];
        }
      }
    }
  }

  /** Each message's rows depend on that message alone: converting two runs
      of messages one after the other gives the rows and the count of the
      concatenated run. */
  lemma {:induction false} ConvertAppend(a: seq<Message>, b: seq<Message>, includeErrorFrames: bool)
    ensures ExpectedRows(a + b, includeErrorFrames)
         == ExpectedRows(a, includeErrorFrames) + ExpectedRows(b, includeErrorFrames)
    ensures SkippedCount(a + b, includeErrorFrames)
         == SkippedCount(a, includeErrorFrames) + SkippedCount(b, includeErrorFrames)
    decreases |b|
  {
    if |b| == 0 {
      assert a + b == a;
    } else {
      var b' := b[..|b| - 1];
      assert (a + b)[..|a + b| - 1] == a + b';
      assert (a + b)[|a + b| - 1] == b[|b| - 1];
      ConvertAppend(a, b', includeErrorFrames);
    }
  }

  /** The rows of a prefix of the input are a prefix of the rows. */
  lemma PrefixRows(msgs: seq<Message>, i: nat, includeErrorFrames: bool)
    requires i <= |msgs|
    ensures ExpectedRows(msgs, includeErrorFrames)
         == ExpectedRows(msgs[..i], includeErrorFrames) + ExpectedRows(msgs[i..], includeErrorFrames)
  {
    assert msgs == msgs[..i] + msgs[i..];
    ConvertAppend(msgs[..i], msgs[i..], includeErrorFrames);
  }

  /** A message that is not skipped is never dropped: its row is written at
      the position given by the number of rows written before it. */
  lemma KeptMessageRow(msgs: seq<Message>, i: nat, includeErrorFrames: bool)
    requires i < |msgs| && !Skipped(msgs[i], includeErrorFrames)
    ensures |ExpectedRows(msgs[..i], includeErrorFrames)| < |ExpectedRows(msgs, includeErrorFrames)|
    ensures ExpectedRows(msgs, includeErrorFrames)[|ExpectedRows(msgs[..i], includeErrorFrames)|]
         == MakeRow(msgs[i])
  {
    PrefixRows(msgs, i, includeErrorFrames);
    var tail := msgs[i..];
    PrefixRows(tail, 1, includeErrorFrames);
    assert tail[..1] == [msgs[i]];
    assert [msgs[i]][..0] == [];
    assert ExpectedRows(tail[..1], includeErrorFrames) == [MakeRow(msgs[i])];
  }

  /** Rows keep the input order: of two written messages, the earlier one's
      row comes first. */
  lemma KeptMessagesInOrder(msgs: seq<Message>, i: nat, j: nat, includeErrorFrames: bool)
    requires i < j <= |msgs| && !Skipped(msgs[i], includeErrorFrames)
    ensures |ExpectedRows(msgs[..i], includeErrorFrames)| < |ExpectedRows(msgs[..j], includeErrorFrames)|
  {
    var prefix := msgs[..j];
    assert prefix[..i] == msgs[..i] && prefix[i] == msgs[i];
    KeptMessageRow(prefix, i, includeErrorFrames);
  }

  /** Every row is the row of some message that was not skipped, the one
      with exactly that many rows before it. */
  lemma {:induction false} RowSource(msgs: seq<Message>, k: nat, includeErrorFrames: bool)
    requires k < |ExpectedRows(msgs, includeErrorFrames)|
    ensures exists i ::
              && 0 <= i < |msgs| && !Skipped(msgs[i], includeErrorFrames)
              && |ExpectedRows(msgs[..i], includeErrorFrames)| == k
              && ExpectedRows(msgs, includeErrorFrames)[k] == MakeRow(msgs[i])
    decreases |msgs|
  {
    var n := |msgs| - 1;
    var front := msgs[..n];
    assert msgs[..n] == front;
    if k < |ExpectedRows(front, includeErrorFrames)| {
      RowSource(front, k, includeErrorFrames);
      var i :| 0 <= i < |front| && !Skipped(front[i], includeErrorFrames)
        && |ExpectedRows(front[..i], includeErrorFrames)| == k
        && ExpectedRows(front, includeErrorFrames)[k] == MakeRow(front[i]);
      assert front[..i] == msgs[..i] && front[i] == msgs[i];
    } else {
      KeptLastRow(msgs, includeErrorFrames);
    }
  }

  /** The last message, when it produces a row at all, produces the last one. */
  lemma KeptLastRow(msgs: seq<Message>, includeErrorFrames: bool)
    requires |msgs| > 0
    requires |ExpectedRows(msgs[..|msgs| - 1], includeErrorFrames)| < |ExpectedRows(msgs, includeErrorFrames)|
    ensures !Skipped(msgs[|msgs| - 1], includeErrorFrames)
    ensures ExpectedRows(msgs, includeErrorFrames)[|ExpectedRows(msgs[..|msgs| - 1], includeErrorFrames)|]
         == MakeRow(msgs[|msgs| - 1])
  {
  }

  // ---------------------------------------------------------------------------
  // Worked cases
  // ---------------------------------------------------------------------------

  /** A log holding one error frame: skipped and counted once by default,
      written as one row when error frames are requested. */
  lemma SingleErrorFrame(m: Message)
    requires m.isErrorFrame
    ensures ExpectedRows([m], false) == [] && SkippedCount([m], false) == 1
    ensures ExpectedRows([m], true) == [MakeRow(m)] && SkippedCount([m], true) == 0
  {
  }
}
