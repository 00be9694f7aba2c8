/** The color table of `color_map.rs`: five color names, each bound to its own
    text-coloring transform of the terminal-styling library. */
module Colors {
  import opened Wrappers

  /** The colors the table knows about, one per entry of `COLORS`. */
  datatype Color = Red | Green | White | Cyan | Yellow

  /** The coloring capability of the styling library: one total transform per
      color. Its escape sequences are the library's concern, so it is a
      parameter of every operation that colors text. */
  type Paint = (Color, string) -> string

  /** The registered name of a color. */
  function ColorName(c: Color): string
  {
    match c
    case Red => "red"
    case Green => "green"
    case White => "white"
    case Cyan => "cyan"
    case Yellow => "yellow"
  }

  /** The `COLORS` array as (name, color) pairs in declaration order; `paint`
      supplies the coloring function of each color. */
  function ColorEntries(): seq<(string, Color)>
  {
    [("red", Red), ("green", Green), ("white", White), ("cyan", Cyan), ("yellow", Yellow)]
  }

  /** Inserts every entry into `m` in order, as the initialiser's loop does. */
  function InsertAll(m: map<string, Color>, entries: seq<(string, Color)>): map<string, Color>
    decreases |entries|
  {
    if |entries| == 0 then m
    else InsertAll(m[entries[0].0 := entries[0].1], entries[1..])
  }

  /** The names of a list of entries: every entry's name and nothing else. */
  function Names(entries: seq<(string, Color)>): (names: set<string>)
    ensures forall i :: 0 <= i < |entries| ==> entries[i].0 in names
    ensures forall name :: name in names ==> exists i :: 0 <= i < |entries| && entries[i].0 == name
    decreases |entries|
  {
    if |entries| == 0 then {}
    else
      var rest := Names(entries[1..]);
      assert forall i :: 1 <= i < |entries| ==> entries[i] == entries[1..][i - 1];
      {entries[0].0} + rest
  }

  /** What inserting a list of entries does to a map: the keys gained are the
      entries' names, the last entry inserted is present with its own value
      (a later insertion replaces an earlier one), and a key none of the
      entries names keeps its old value. */
  lemma {:induction false} InsertAllInserts(m: map<string, Color>, entries: seq<(string, Color)>)
    ensures InsertAll(m, entries).Keys == m.Keys + Names(entries)
    ensures |entries| > 0 ==> entries[|entries| - 1].0 in InsertAll(m, entries)
                              && InsertAll(m, entries)[entries[|entries| - 1].0] == entries[|entries| - 1].1
    ensures forall name :: name in m && name !in Names(entries) ==> InsertAll(m, entries)[name] == m[name]
    decreases |entries|
  {
    if |entries| > 0 {
      var rest := entries[1..];
      var m' := m[entries[0].0 := entries[0].1];
      InsertAllInserts(m', rest);
      assert InsertAll(m, entries) == InsertAll(m', rest);
      assert Names(entries) == {entries[0].0} + Names(rest);
      if |rest| > 0 {
        assert entries[|entries| - 1] == rest[|rest| - 1];
      }
    }
  }

  /** A later insertion replaces an earlier one, so the value kept for a name
      is the one of its last entry: an entry whose name no later entry
      repeats is present with its own value. */
  lemma {:induction false} LastInsertionKept(m: map<string, Color>, entries: seq<(string, Color)>, i: nat)
    requires i < |entries|
    requires forall j :: i < j < |entries| ==> entries[j].0 != entries[i].0
    ensures entries[i].0 in InsertAll(m, entries)
    ensures InsertAll(m, entries)[entries[i].0] == entries[i].1
    decreases |entries|
  {
    var rest := entries[1..];
    var m' := m[entries[0].0 := entries[0].1];
    assert InsertAll(m, entries) == InsertAll(m', rest);
    if i == 0 {
      InsertAllInserts(m', rest);
      assert forall j :: 0 <= j < |rest| ==> rest[j] == entries[j + 1];
      assert entries[0].0 !in Names(rest);
    } else {
      LastInsertionKept(m', rest, i - 1);
    }
  }

  /** `COLOR_MAP`: built once by inserting the `COLORS` entries in order and
      never changed afterwards; its keys are exactly the names `COLORS` lists. */
  function ColorMap(): (m: map<string, Color>)
  {
    InsertAll(map[], ColorEntries())
  }

  /** The initialiser's loop over `COLORS` yields exactly the five entries
      red, green, white, cyan and yellow, each bound to its own color. */
  lemma ColorMapIsColors()
    ensures ColorMap() == map["red" := Red, "green" := Green, "white" := White, "cyan" := Cyan, "yellow" := Yellow]
  {
    var e := ColorEntries();
    var m0: map<string, Color> := map[];
    var m1 := m0["red" := Red];
    var m2 := m1["green" := Green];
    var m3 := m2["white" := White];
    var m4 := m3["cyan" := Cyan];
    assert InsertAll(m0, e) == InsertAll(m1, e[1..]);
    assert InsertAll(m1, e[1..]) == InsertAll(m2, e[2..]);
    assert InsertAll(m2, e[2..]) == InsertAll(m3, e[3..]);
    assert InsertAll(m3, e[3..]) == InsertAll(m4, e[4..]);
    assert InsertAll(m4, e[4..]) == InsertAll(m4["yellow" := Yellow], e[5..]);
  }

  /** `COLOR_MAP.get(name)`: the color registered under `name`, if any. Only
      the five color names are registered, each under its own color. */
  function Lookup(name: string): (o: Option<Color>)
    ensures o.Some? <==> name in {"red", "green", "white", "cyan", "yellow"}
    ensures o.Some? ==> ColorName(o.value) == name
  {
    ColorMapIsColors();
    if name in ColorMap() then Some(ColorMap()[name]) else None
  }

  /** The registered names are exactly the five of `COLORS`, and each maps to
      its own color. */
  lemma ColorMapContents()
    ensures ColorMap().Keys == {"red", "green", "white", "cyan", "yellow"}
    ensures |ColorMap()| == 5
    ensures forall c: Color :: ColorMap()[ColorName(c)] == c
  {
    ColorMapIsColors();
  }

  /** Looking a color's name up gives back that color. */
  lemma LookupColorName(c: Color)
    ensures Lookup(ColorName(c)) == Some(c)
  {
    ColorMapContents();
  }

  /** A name is registered exactly when it is the name of some color, and then
      it is that color's name. */
  lemma LookupOnlyNames(name: string)
    ensures Lookup(name).Some? <==> exists c: Color :: ColorName(c) == name
    ensures Lookup(name).Some? ==> ColorName(Lookup(name).value) == name
  {
    ColorMapIsColors();
  }

  /** Unregistered names, among them the empty name used when no icon is set,
      resolve to no coloring function. */
  lemma UnregisteredNames()
    ensures Lookup("").None?
    ensures Lookup("unknown_color").None?
  {
    ColorMapContents();
  }

  /** One rendered line: when `colorName` is registered in `table`, prefix and
      message are colored separately and then joined; otherwise they are
      joined verbatim. */
  function StyledLine(table: map<string, Color>, paint: Paint, colorName: string, prefix: string, message: string): (line: string)
    ensures colorName in table ==> line == paint(table[colorName], prefix) + paint(table[colorName], message)
    ensures colorName !in table ==> line == prefix + message
  {
    if colorName in table then
      var c := table[colorName];
      paint(c, prefix) + paint(c, message)
    else
      prefix + message
  }
}
