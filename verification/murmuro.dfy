/** `murmuro.rs`: a stand-alone line emitter that writes one line through its
    own buffered handle, then flushes, and reports write and flush failures
    as distinct errors. */
module Murmuro {
  import opened Wrappers
  import opened Colors
  import opened Sink
  import Murmur

  /** `DisplayError`: which of the two calls on the handle failed. */
  datatype DisplayError = WriteError | FlushError

  /** `DisplayError::flush_buffer`: a rejected flush becomes `FlushError`. */
  function FlushBuffer(flushOk: bool): (r: Outcome<DisplayError>)
    ensures r.Pass? <==> flushOk
    ensures r.Fail? ==> r.error == FlushError
  {
    if flushOk then Pass else Fail(FlushError)
  }

  /** `DisplayError::new_write_error`: a rejected write becomes `WriteError`. */
  function NewWriteError(): DisplayError
  {
    WriteError
  }

  /** `murmur_message`: looks `color` up in the given color table; writes the
      separately colored prefix and message when it is found, and both
      verbatim otherwise; then flushes. A failed write returns before any flush. */
  function MurmurMessage(colorMap: map<string, Color>, paint: Paint, color: string, prefix: string,
                         message: string, writeOk: bool, flushOk: bool): (r: Step<DisplayError>)
    ensures |r.events| >= 1
    ensures color in colorMap ==>
              r.events[0] == WriteCall(paint(colorMap[color], prefix) + paint(colorMap[color], message) + "\n", writeOk)
    ensures color !in colorMap ==> r.events[0] == WriteCall(prefix + message + "\n", writeOk)
    ensures !writeOk ==> r.outcome == Fail(WriteError) && |r.events| == 1
    ensures writeOk ==> |r.events| == 2 && r.events[1] == FlushCall(flushOk)
    ensures writeOk && !flushOk ==> r.outcome == Fail(FlushError)
    ensures r.outcome == Pass <==> writeOk && flushOk
  {
    var text := StyledLine(colorMap, paint, color, prefix, message) + "\n";
    if !writeOk then Step(Fail(NewWriteError()), [WriteCall(text, false)])
    else Step(FlushBuffer(flushOk), [WriteCall(text, true), FlushCall(flushOk)])
  }

  /** Against the global color table, the stand-alone emitter makes the same
      calls as `print_message`, and its errors correspond one to one. */
  lemma AgreesWithPrintMessage(paint: Paint, color: string, prefix: string, message: string,
                               writeOk: bool, flushOk: bool)
    ensures var a := MurmurMessage(ColorMap(), paint, color, prefix, message, writeOk, flushOk);
            var b := Murmur.PrintMessage(ColorMap(), paint, color, prefix, message, writeOk, flushOk);
            && a.events == b.events
            && (a.outcome.Pass? <==> b.outcome.Pass?)
            && (a.outcome == Fail(WriteError) <==> b.outcome == Fail(Murmur.Write))
            && (a.outcome == Fail(FlushError) <==> b.outcome == Fail(Murmur.Flush))
  {
  }
}
