/** The `Whisper` message builder of `lib.rs` and the renderer that turns it
    into colored, icon-prefixed lines on standard output. */
module Murmur {
  import opened Wrappers
  import opened Colors
  import opened Icons
  import opened Sink

  /** `WhisperError`. `whisper` itself only ever returns `Lock` or `Print`;
      `Write` and `Flush` come from emitting a single line. */
  datatype WhisperError = Lock | Print | Write | Flush

  /** The builder state: an optional icon and the message lines in order. */
  datatype Whisper = Whisper(iconKind: Option<IconKind>, messages: seq<string>)

  /** `Whisper::new`: no icon and no messages. */
  function New(): (w: Whisper)
    ensures w.iconKind.None?
    ensures |w.messages| == 0
  {
    Whisper(None, [])
  }

  /** The derived `Default`: every field at its own default, which is the
      same state `new` builds. */
  function Default(): (w: Whisper)
    ensures w == New()
  {
    Whisper(None, [])
  }

  /** `icon`: selects `k`, replacing any earlier selection; messages stay. */
  function Icon(w: Whisper, k: IconKind): (r: Whisper)
    ensures r.iconKind == Some(k)
    ensures r.messages == w.messages
  {
    w.(iconKind := Some(k))
  }

  /** `message`: appends one line at the end; the icon stays. */
  function Message(w: Whisper, m: string): (r: Whisper)
    ensures r.messages == w.messages + [m]
    ensures |r.messages| == |w.messages| + 1 && r.messages[|w.messages|] == m
    ensures r.iconKind == w.iconKind
  {
    w.(messages := w.messages + [m])
  }

  /** `message_vec`: appends the items one at a time, in order. */
  function MessageVec(w: Whisper, items: seq<string>): (r: Whisper)
    ensures r.messages == w.messages + items
    ensures r.iconKind == w.iconKind
    decreases |items|
  {
    if |items| == 0 then w
    else
      var r := MessageVec(Message(w, items[0]), items[1..]);
      assert w.messages + [items[0]] + items[1..] == w.messages + items;
      r
  }

  /** Only the last `icon` call before rendering counts. */
  lemma IconLastWins(w: Whisper, a: IconKind, b: IconKind)
    ensures Icon(Icon(w, a), b) == Icon(w, b)
  {
  }

  /** Where `icon` sits in the chain does not matter: it commutes with
      adding messages. */
  lemma IconCommutes(w: Whisper, k: IconKind, m: string, items: seq<string>)
    ensures Icon(Message(w, m), k) == Message(Icon(w, k), m)
    ensures Icon(MessageVec(w, items), k) == MessageVec(Icon(w, k), items)
  {
  }

  /** `message_vec` of nothing changes nothing, and `message_vec` is the same
      as one `message` per item. */
  lemma MessageVecIsMessages(w: Whisper, items: seq<string>, m: string)
    ensures MessageVec(w, []) == w
    ensures MessageVec(w, items + [m]) == Message(MessageVec(w, items), m)
    ensures MessageVec(w, [m]) == Message(w, m)
  {
    assert w.messages + items + [m] == w.messages + (items + [m]);
  }

  /** The message bodies actually printed: an empty list prints one empty line. */
  function Bodies(messages: seq<string>): (bodies: seq<string>)
    ensures |bodies| >= 1
    ensures |messages| > 0 ==> bodies == messages
    ensures |messages| == 0 ==> bodies == [""]
  {
    if |messages| == 0 then [""] else messages
  }

  /** The prefix of line `index`: the glyph on the first line, two spaces on
      every later one whatever the glyph's width. */
  function Prefix(glyph: string, index: nat): (prefix: string)
    ensures index == 0 ==> prefix == glyph
    ensures index > 0 ==> prefix == "  "
  {
    if index == 0 then glyph else "  "
  }

  /** The lines `print_messages` emits, without their terminators. */
  function Layout(table: map<string, Color>, paint: Paint, glyph: string, colorName: string, messages: seq<string>): (lines: seq<string>)
    ensures |lines| == if |messages| == 0 then 1 else |messages|
    ensures |messages| == 0 ==> lines == [StyledLine(table, paint, colorName, glyph, "")]
    ensures |messages| > 0 ==> lines[0] == StyledLine(table, paint, colorName, glyph, messages[0])
    ensures forall i :: 1 <= i < |messages| ==> lines[i] == StyledLine(table, paint, colorName, "  ", messages[i])
  {
    var bodies := Bodies(messages);
    seq(|bodies|, i requires 0 <= i < |bodies| => StyledLine(table, paint, colorName, Prefix(glyph, i), bodies[i]))
  }

  /** Line `i` of the layout is message `i` styled behind its prefix. */
  lemma LayoutAt(table: map<string, Color>, paint: Paint, glyph: string, colorName: string, messages: seq<string>, i: nat)
    requires i < |Bodies(messages)|
    ensures |Layout(table, paint, glyph, colorName, messages)| == |Bodies(messages)|
    ensures Layout(table, paint, glyph, colorName, messages)[i]
            == StyledLine(table, paint, colorName, Prefix(glyph, i), Bodies(messages)[i])
  {
  }

  /** Printing line `i` of the layout: success exactly when the device
      accepts the line, with a written and flushed line on success and the
      rejected calls otherwise. */
  lemma LineStep(table: map<string, Color>, paint: Paint, glyph: string, colorName: string, messages: seq<string>, io: Oracle, i: nat)
    requires i < |Bodies(messages)|
    ensures var line := Layout(table, paint, glyph, colorName, messages)[i];
            var step := PrintMessage(table, paint, colorName, Prefix(glyph, i), Bodies(messages)[i],
                                     i !in io.rejectedWrites, i !in io.rejectedFlushes);
            && (step.outcome.Pass? <==> LineAccepted(io, i))
            && (LineAccepted(io, i) ==> step.events == [WriteCall(line + "\n", true), FlushCall(true)])
            && (!LineAccepted(io, i) ==> step.events == RejectedLine(io, i, line))
  {
    LayoutAt(table, paint, glyph, colorName, messages, i);
  }

  /** Without an icon nothing is colored: the lines are the messages, every
      line after the first indented by two spaces. */
  lemma LayoutWithoutIcon(paint: Paint, messages: seq<string>)
    ensures var e := Resolve(IconTable(), None);
            var lines := Layout(ColorMap(), paint, e.glyph, e.colorName, messages);
            && (|messages| == 0 ==> lines == [""])
            && (|messages| > 0 ==> lines[0] == messages[0])
            && (forall i :: 1 <= i < |messages| ==> lines[i] == "  " + messages[i])
  {
    UnregisteredNames();
    assert "" !in ColorMap();
    assert forall m: string :: "" + m == m;
  }

  /** With an icon, a one-line message is the colored glyph followed by the
      colored message, both in the icon's color. */
  lemma LayoutWithIcon(paint: Paint, k: IconKind, m: string)
    ensures var e := IconTable()[k];
            var c := Lookup(e.colorName).value;
            Layout(ColorMap(), paint, e.glyph, e.colorName, [m]) == [paint(c, e.glyph) + paint(c, m)]
  {
    IconEntriesWellFormed(k);
  }

  /** `print_message`: writes one colored (or verbatim) line plus terminator,
      then flushes; a rejected write is reported as `Write` and not flushed,
      a rejected flush as `Flush`. */
  function PrintMessage(table: map<string, Color>, paint: Paint, colorName: string, prefix: string, message: string,
                        writeOk: bool, flushOk: bool): (r: Step<WhisperError>)
    ensures var text := StyledLine(table, paint, colorName, prefix, message) + "\n";
            && |r.events| >= 1
            && r.events[0] == WriteCall(text, writeOk)
            && (!writeOk ==> r.events == [WriteCall(text, false)])
            && (writeOk ==> r.events == [WriteCall(text, true), FlushCall(flushOk)])
    ensures r.outcome.Pass? <==> writeOk && flushOk
    ensures r.outcome == Fail(Write) <==> !writeOk
    ensures r.outcome == Fail(Flush) <==> writeOk && !flushOk
  {
    var text := StyledLine(table, paint, colorName, prefix, message) + "\n";
    if !writeOk then Step(Fail(Write), [WriteCall(text, false)])
    else if !flushOk then Step(Fail(Flush), [WriteCall(text, true), FlushCall(false)])
    else Step(Pass, [WriteCall(text, true), FlushCall(true)])
  }

  /** `print_messages`: emits the laid-out lines in order and stops at the
      first line the device rejects, reporting it as `Print`. */
  method PrintMessages(w: Whisper, table: map<string, Color>, glyph: string, colorName: string, paint: Paint, io: Oracle)
    returns (result: Outcome<WhisperError>, trace: seq<Event>)
    ensures var lines := Layout(table, paint, glyph, colorName, w.messages);
            var k := FirstRejected(io, |lines|);
            && (result.Pass? <==> k == |lines|)
            && (result.Fail? ==> result.error == Print)
            && (k == |lines| ==> trace == Delivered(lines))
            && (k < |lines| ==> trace == Delivered(lines[..k]) + RejectedLine(io, k, lines[k]))
  {
    var bodies := Bodies(w.messages);
    ghost var lines := Layout(table, paint, glyph, colorName, w.messages);
    ghost var k := FirstRejected(io, |lines|);
    trace := [];
    var index := 0;
    while index < |bodies|
      invariant 0 <= index <= |bodies| == |lines|
      invariant index <= k
      invariant trace == Delivered(lines[..index])
    {
      var step := PrintMessage(table, paint, colorName, Prefix(glyph, index), bodies[index],
                               index !in io.rejectedWrites, index !in io.rejectedFlushes);
      LineStep(table, paint, glyph, colorName, w.messages, io, index);
      if step.outcome.Fail? {
        assert index == k;
        trace := trace + step.events;
        return Fail(Print), trace;
      }
      DeliveredExtend(lines, index);
      trace := trace + step.events;
      index := index + 1;
    }
    assert lines[..index] == lines;
    return Pass, trace;
  }

  /** `whisper`: takes the icon table's guard (failing with `Lock` when it is
      poisoned), resolves the icon to a glyph and color name, and prints. The
      builder is a value, so it is the same after the call and a second call
      sees the same state. */
  method Render(w: Whisper, iconMapPoisoned: bool, paint: Paint, io: Oracle)
    returns (result: Outcome<WhisperError>, trace: seq<Event>)
    ensures result.Fail? ==> result.error == Lock || result.error == Print
    ensures result == Fail(Lock) <==> iconMapPoisoned
    ensures iconMapPoisoned ==> trace == []
    ensures !iconMapPoisoned ==>
              var e := Resolve(IconTable(), w.iconKind);
              var lines := Layout(ColorMap(), paint, e.glyph, e.colorName, w.messages);
              var k := FirstRejected(io, |lines|);
              && (result.Pass? <==> k == |lines|)
              && (result.Pass? ==> trace == Delivered(lines))
              && (k < |lines| ==> trace == Delivered(lines[..k]) + RejectedLine(io, k, lines[k]))
              && WrittenTexts(trace) == Terminated(lines[..if k < |lines| then k + 1 else k])
  {
    if iconMapPoisoned {
      return Fail(Lock), [];
    }
    var entry := Resolve(IconTable(), w.iconKind);
    var printed, events := PrintMessages(w, ColorMap(), entry.glyph, entry.colorName, paint, io);
    result := if printed.Pass? then Pass else Fail(Print);
    trace := events;
    ghost var lines := Layout(ColorMap(), paint, entry.glyph, entry.colorName, w.messages);
    if FirstRejected(io, |lines|) == |lines| {
      DeliveredWrites(lines);
      assert lines[..|lines|] == lines;
    } else {
      StoppedWrites(io, lines);
    }
  }
}
