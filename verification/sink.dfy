/** Standard output as the renderer sees it: a trace of write and flush calls,
    each accepted or rejected by the device. Which calls are rejected is an
    input (an oracle), so the effect of a failure can be stated and proved. */
module Sink {
  import opened Wrappers

  /** One call on a buffered stdout handle and whether the device accepted it. */
  datatype Event = WriteCall(text: string, ok: bool) | FlushCall(ok: bool)

  /** The device's answers: the indices of the lines whose write, or whose
      flush, fails. Every line is written through its own handle with one
      write and at most one flush, so this fixes every answer the device gives. */
  datatype Oracle = Oracle(rejectedWrites: set<nat>, rejectedFlushes: set<nat>)

  /** The result of emitting one line: its outcome and the calls it made. */
  datatype Step<+E> = Step(outcome: Outcome<E>, events: seq<Event>)

  /** Both the write and the flush of line `i` are accepted. */
  predicate LineAccepted(io: Oracle, i: nat)
  {
    i !in io.rejectedWrites && i !in io.rejectedFlushes
  }

  /** The index of the first of lines `from`..`n - 1` that the device rejects,
      or `n` when it accepts them all. */
  function FirstRejectedFrom(io: Oracle, from: nat, n: nat): (k: nat)
    requires from <= n
    ensures from <= k <= n
    ensures forall j: nat :: from <= j < k ==> LineAccepted(io, j)
    ensures k < n ==> !LineAccepted(io, k)
    decreases n - from
  {
    if from == n then n
    else if !LineAccepted(io, from) then from
    else FirstRejectedFrom(io, from + 1, n)
  }

  /** The first rejected line among `n` lines, or `n` when there is none. */
  function FirstRejected(io: Oracle, n: nat): (k: nat)
    ensures k <= n
    ensures forall j: nat :: j < k ==> LineAccepted(io, j)
    ensures k < n ==> !LineAccepted(io, k)
  {
    FirstRejectedFrom(io, 0, n)
  }

  /** Each line with its line terminator, as `writeln!` produces it. */
  function Terminated(lines: seq<string>): (texts: seq<string>)
    ensures |texts| == |lines|
    ensures forall i :: 0 <= i < |lines| ==> texts[i] == lines[i] + "\n"
  {
    seq(|lines|, i requires 0 <= i < |lines| => lines[i] + "\n")
  }

  /** The calls made when every line is written and flushed successfully. */
  function Delivered(lines: seq<string>): (trace: seq<Event>)
    ensures |trace| == 2 * |lines|
    ensures forall i :: 0 <= i < |lines| ==>
              trace[2 * i..2 * i + 2] == [WriteCall(lines[i] + "\n", true), FlushCall(true)]
  {
    if |lines| == 0 then []
    else
      var last := |lines| - 1;
      var before := Delivered(lines[..last]);
      assert forall i :: 0 <= i < last ==> lines[..last][i] == lines[i];
      before + [WriteCall(lines[last] + "\n", true), FlushCall(true)]
  }

  /** Delivering one more line appends its accepted write and flush. */
  lemma DeliveredExtend(lines: seq<string>, i: nat)
    requires i < |lines|
    ensures Delivered(lines[..i + 1]) == Delivered(lines[..i]) + [WriteCall(lines[i] + "\n", true), FlushCall(true)]
  {
    assert lines[..i + 1][..i] == lines[..i];
  }

  /** The texts of all write calls in a trace, accepted or not, in order. */
  function WrittenTexts(trace: seq<Event>): seq<string>
  {
    if |trace| == 0 then []
    else
      var rest := WrittenTexts(trace[1..]);
      if trace[0].WriteCall? then [trace[0].text] + rest else rest
  }

  /** Write calls of a concatenated trace are those of its parts, in order. */
  lemma {:induction false} WrittenTextsAppend(a: seq<Event>, b: seq<Event>)
    ensures WrittenTexts(a + b) == WrittenTexts(a) + WrittenTexts(b)
    decreases |a|
  {
    if |a| == 0 {
      assert a + b == b;
    } else {
      assert (a + b)[0] == a[0];
      assert (a + b)[1..] == a[1..] + b;
      WrittenTextsAppend(a[1..], b);
    }
  }

  /** A fully delivered trace writes exactly the terminated lines, in order. */
  lemma {:induction false} DeliveredWrites(lines: seq<string>)
    ensures WrittenTexts(Delivered(lines)) == Terminated(lines)
    decreases |lines|
  {
    if |lines| > 0 {
      var last := |lines| - 1;
      DeliveredWrites(lines[..last]);
      var tail := [WriteCall(lines[last] + "\n", true), FlushCall(true)];
      assert Delivered(lines) == Delivered(lines[..last]) + tail;
      WrittenTextsAppend(Delivered(lines[..last]), tail);
      assert WrittenTexts(tail) == [lines[last] + "\n"] by {
        assert tail[1..] == [FlushCall(true)];
        assert WrittenTexts([]) == [];
        assert WrittenTexts([FlushCall(true)]) == [] by {
          assert [FlushCall(true)][1..] == [];
        }
      }
      assert Terminated(lines) == Terminated(lines[..last]) + [lines[last] + "\n"];
    }
  }

  /** The calls made for line `index` when the device rejects it: a rejected
      write, or an accepted write followed by a rejected flush. */
  function RejectedLine(io: Oracle, index: nat, line: string): seq<Event>
  {
    if index in io.rejectedWrites then [WriteCall(line + "\n", false)]
    else [WriteCall(line + "\n", true), FlushCall(false)]
  }

  /** When line `k` is the first rejected one, lines `0..k` were written, in
      order, and no later line was. */
  lemma StoppedWrites(io: Oracle, lines: seq<string>)
    ensures var k := FirstRejected(io, |lines|);
            k < |lines| ==>
              WrittenTexts(Delivered(lines[..k]) + RejectedLine(io, k, lines[k])) == Terminated(lines[..k + 1])
  {
    var k := FirstRejected(io, |lines|);
    if k < |lines| {
      var failed := RejectedLine(io, k, lines[k]);
      WrittenTextsAppend(Delivered(lines[..k]), failed);
      DeliveredWrites(lines[..k]);
      assert WrittenTexts(failed) == [lines[k] + "\n"] by {
        assert WrittenTexts([]) == [];
        assert WrittenTexts([FlushCall(false)]) == [] by {
          assert [FlushCall(false)][1..] == [];
        }
        assert failed[1..] == [] || failed[1..] == [FlushCall(false)];
      }
      assert lines[..k + 1][..k] == lines[..k];
      assert Terminated(lines[..k + 1]) == Terminated(lines[..k]) + [lines[k] + "\n"];
    }
  }
}
