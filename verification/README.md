# murmur, modelled in Dafny

A model of the core of the `murmur` Rust crate, which prints multi-line
status messages to standard output, optionally prefixed by an icon and drawn
in the icon's color. The model covers:

- the `Whisper` fluent builder (`new`, `Default`, `icon`, `message`,
  `message_vec`): an immutable datatype and pure functions;
- the icon table (`IconKind`, its `Display`, `ICON_MAP`) and the color table
  (`COLORS`, `COLOR_MAP`) as constant functions over datatypes;
- icon resolution, line layout and per-line coloring in `whisper`,
  `print_messages` and `print_message`;
- the stand-alone line emitter `murmur_message` of `murmuro.rs` with its
  `DisplayError`.

Standard output is modelled as a trace of write and flush calls. Each call
records whether the device accepted it. Which calls fail is an input, the
`Oracle`: the set of line indices whose write fails and the set whose flush
fails. Each line goes through its own buffered handle with one write and at
most one flush. So a per-line oracle fixes every answer the device can give.
The coloring transforms of the styling library are a parameter
`paint: (Color, string) -> string`. Dafny's total arrow type says each
transform is defined on every string, the empty one included. A poisoned
`ICON_MAP` mutex is the input flag `iconMapPoisoned`. The line printers take
the global `COLOR_MAP` as a `table` parameter, and `Render` passes `ColorMap()`,
the crate's own table.

Files: `wrappers.dfy` (Option/Outcome), `colors.dfy` (color table),
`icons.dfy` (icon table), `sink.dfy` (abstract standard output),
`murmur.dfy` (builder and renderer of `src/lib.rs`), `murmuro.dfy`.

Where the crate's documentation and its code disagree, the model follows the
code:

- The example output at `src/lib.rs:84-86` shows later lines unindented. The
  code at `src/lib.rs:506-507` indents every line after the first by two
  spaces.
- The doc examples and tests of `src/lib.rs` use variant names such as
  `NfFaBug`. These do not exist in `src/icon_map.rs:11-25`, whose twelve
  variants are modelled.
- Write and flush failures are not reported separately to the caller of
  `whisper`: it turns every per-line failure into `Print`
  (`src/lib.rs:468-469`, `src/lib.rs:508-509`). Only `murmur_message` keeps
  the two apart.
- A kind missing from the icon table is not an error. It falls back silently
  to an empty glyph and an empty color name, and so to uncolored output
  (`src/lib.rs:463-465`).

## Model

| member | source | states |
|---|---|---|
| Colors.ColorMapIsColors | src/color_map.rs:21-37 | Inserting the five `COLORS` pairs in order yields exactly the map red, green, white, cyan, yellow to their own colors |
| Colors.InsertAllInserts | src/color_map.rs:32-36 | Inserting entries in order adds exactly their names as keys, the list's final entry is present with its own value, and keys no entry names keep their old values |
| Colors.LastInsertionKept | src/color_map.rs:33-35 | A later `insert` of a name replaces an earlier one: an entry whose name no later entry repeats is present with its own value |
| Colors.ColorMapContents | src/color_map.rs:44-49 | The registered keys are exactly the five names, there are five of them, and each name maps to its own color |
| Colors.LookupColorName | src/color_map.rs:52-56 | Looking up a color's name returns that color, so the `"red"` entry is red-coloring |
| Colors.Lookup | src/lib.rs:548 | A name has a coloring function exactly when it is one of the five registered names, and then it is the color of that name |
| Colors.LookupOnlyNames | src/color_map.rs:31-37 | A name is registered if and only if it is some color's name, and then it names the color it returns |
| Colors.UnregisteredNames | src/color_map.rs:58-61 | `"unknown_color"` and the empty name have no coloring function |
| Colors.StyledLine | src/lib.rs:548-553 | A registered color colors prefix and message separately and joins them; an unregistered one joins them verbatim |
| Icons.AllIconKindsComplete | src/icon_map.rs:10-25 | Enumerating `IconKind` gives twelve pairwise distinct kinds and contains every kind |
| Icons.KindName | src/icon_map.rs:27-31 | `Display` writes the variant name: a Nerd Font kind's name starts with `NerdFont`, a Unicode kind's with `Unicode` |
| Icons.IconTable | src/icon_map.rs:41-64 | Every kind has an entry, and every entry's glyph is non-empty and ends with a space |
| Icons.IconTableComplete | src/icon_map.rs:41-64 | The table has an entry for every kind and exactly twelve entries |
| Icons.IconEntriesWellFormed | src/icon_map.rs:45-58 | Every glyph is non-empty and ends with a space, and every stored color name is registered in the color table |
| Icons.IconColors | src/icon_map.rs:45-58 | Both font families draw error red, success green, information white, processing cyan and warning yellow; Nerd Font debugging is red but Unicode debugging is yellow |
| Icons.KindNameInjective | src/icon_map.rs:27-31 | `Display` gives distinct kinds distinct names |
| Icons.Resolve | src/lib.rs:462-465 | No icon, or a kind missing from the table, resolves to empty glyph and color name; otherwise to the table's entry |
| Icons.ResolveSelected | src/lib.rs:463-464 | With the real table, a selected kind always resolves to its own entry and never to the empty fallback |
| Sink.FirstRejected | src/lib.rs:506-510 | The index where printing stops: every earlier line is accepted and that line, if any, is rejected |
| Sink.StoppedWrites | src/lib.rs:506-510 | When line k is the first rejected one, exactly lines 0..k are written, in order, and no later line is |
| Murmur.New | src/lib.rs:318-323 | A new builder has no icon and no messages |
| Murmur.Default | src/lib.rs:291 | The derived default is the same state as `new` |
| Murmur.Icon | src/lib.rs:352-355 | The icon becomes the given kind and the messages are unchanged |
| Murmur.Message | src/lib.rs:385-388 | Exactly one line is appended at the end and the icon is unchanged |
| Murmur.MessageVec | src/lib.rs:416-421 | The items are appended in order after the existing lines and the icon is unchanged |
| Murmur.IconLastWins | src/lib.rs:352-355 | A second `icon` call overrides the first |
| Murmur.IconCommutes | src/lib.rs:717-733 | Selecting the icon before or after adding messages gives the same builder |
| Murmur.MessageVecIsMessages | src/lib.rs:692-699 | An empty `message_vec` is a no-op, and `message_vec` equals one `message` per item |
| Murmur.Bodies | src/lib.rs:500-504 | An empty message list prints one empty line; otherwise the lines are the messages |
| Murmur.Prefix | src/lib.rs:507 | Line 0 is prefixed by the icon glyph, every later line by two spaces whatever the glyph's width |
| Murmur.Layout | src/lib.rs:500-507 | max(1, number of messages) lines; line 0 is prefixed by the glyph, every later line by two spaces, each colored per line |
| Murmur.LayoutAt | src/lib.rs:506-508 | Line i of the layout is message i (or the single empty line) styled behind line i's prefix |
| Murmur.LayoutWithoutIcon | src/lib.rs:463-465 | Without an icon nothing is colored: the lines are the messages, later ones indented by two spaces, and an empty list gives one empty line |
| Murmur.LayoutWithIcon | src/lib.rs:548-551 | With an icon, a one-line message is the colored glyph followed by the colored message, in the icon's color |
| Murmur.PrintMessage | src/lib.rs:538-558 | One write of the styled line plus terminator, a flush only after an accepted write, `Write` if and only if the write fails, `Flush` if and only if only the flush fails |
| Murmur.LineStep | src/lib.rs:506-509 | Printing line i succeeds exactly when the device accepts both its write and its flush; then the line is written and flushed, otherwise exactly its rejected calls are made |
| Murmur.PrintMessages | src/lib.rs:499-512 | Lines are emitted in order; success if and only if every line is accepted; otherwise `Print`, with the lines before the rejected one delivered and nothing after it attempted |
| Murmur.Render | src/lib.rs:456-472 | Only `Lock` or `Print` is returned; `Lock` exactly when the icon table is poisoned, with no output; otherwise, with k the first rejected line of the resolved icon's layout, success exactly when there is none, and the output is lines 0..k-1 written and flushed, then line k's rejected write, or its accepted write and rejected flush, and nothing after |
| Murmuro.FlushBuffer | src/murmuro.rs:28-35 | A rejected flush is `FlushError`; an accepted one succeeds |
| Murmuro.MurmurMessage | src/murmuro.rs:56-83 | One write of the colored or verbatim line plus terminator; `WriteError` with no flush after a failed write; otherwise one flush, with `FlushError` if it fails |
| Murmuro.AgreesWithPrintMessage | src/murmuro.rs:62-82 | Against the global color table it makes the same calls as `print_message`, and its two errors match `Write` and `Flush` |

## Left out

- Real standard output, `BufWriter` and its 8192-byte capacity: replaced by the event trace and the `Oracle`. The extra flush a `BufWriter` attempts when dropped is not modelled.
- `Lazy`, `Mutex` and `once_cell` one-time initialisation, and thread interleaving: the tables are constant functions. Lock poisoning is the input flag `iconMapPoisoned`.
- `owo_colors` escape sequences: the coloring transform is the `paint` parameter. Whether a transform keeps its input as a substring is the library's concern.
- `tracing` instrumentation, which only logs.
- The `color_fn.lock()` call at `src/lib.rs:549`. It does not fit the plain boxed functions that `src/color_map.rs:12,31-37` stores, so it has no failure to model. Any error it could raise would become `Print` in `print_messages` anyway.
- The `Display` conversion in `message` and `message_vec`: messages are modelled as the strings they convert to.
- The `io::Error` payloads of `DisplayError`, and the display strings of `WhisperError` (`src/lib.rs:1013-1035`).
- Caller-side error-conversion examples and tests (`src/lib.rs:105-241`, `src/lib.rs:807-1007`).
- `murmuro.rs` is not declared as a module of the crate. Its `ColorMap { map }` type is not part of this model, so `MurmurMessage` takes the color table as a map parameter.
- Murmuro.NewWriteError: has no contract of its own, because it only builds `WriteError`.
- Murmur.Render: nothing states that the builder is unchanged after the call or that repeated calls agree. Both follow from the builder being an immutable value passed by value, with the device's answers as an explicit input.
