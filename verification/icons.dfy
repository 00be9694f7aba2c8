/** The icon table of `icon_map.rs`: a closed set of icon kinds, each mapped to
    a glyph and the name of its default color. */
module Icons {
  import opened Wrappers
  import Colors

  /** `IconKind`: six Nerd Font icons and six Unicode icons. */
  datatype IconKind =
    | NerdFontError
    | NerdFontSuccess
    | NerdFontInformation
    | NerdFontProcessing
    | NerdFontWarning
    | NerdFontDebugging
    | UnicodeError
    | UnicodeSuccess
    | UnicodeInformation
    | UnicodeProcessing
    | UnicodeWarning
    | UnicodeDebugging

  /** A table value: the glyph printed before the first line and the name of
      the color used for the whole message. */
  datatype IconEntry = IconEntry(glyph: string, colorName: string)

  /** Every variant, in declaration order (what iterating over the enum yields). */
  function AllIconKinds(): seq<IconKind>
  {
    [NerdFontError, NerdFontSuccess, NerdFontInformation, NerdFontProcessing,
     NerdFontWarning, NerdFontDebugging,
     UnicodeError, UnicodeSuccess, UnicodeInformation, UnicodeProcessing,
     UnicodeWarning, UnicodeDebugging]
  }

  /** The six Nerd Font kinds, declared first. */
  predicate NerdFont(k: IconKind)
  {
    k.NerdFontError? || k.NerdFontSuccess? || k.NerdFontInformation? ||
    k.NerdFontProcessing? || k.NerdFontWarning? || k.NerdFontDebugging?
  }

  /** `Display` of an icon kind: the variant's own name, which starts with
      the name of its font family. */
  function KindName(k: IconKind): (name: string)
    ensures NerdFont(k) ==> |name| > 8 && name[..8] == "NerdFont"
    ensures !NerdFont(k) ==> |name| > 7 && name[..7] == "Unicode"
  {
    match k
    case NerdFontError => "NerdFontError"
    case NerdFontSuccess => "NerdFontSuccess"
    case NerdFontInformation => "NerdFontInformation"
    case NerdFontProcessing => "NerdFontProcessing"
    case NerdFontWarning => "NerdFontWarning"
    case NerdFontDebugging => "NerdFontDebugging"
    case UnicodeError => "UnicodeError"
    case UnicodeSuccess => "UnicodeSuccess"
    case UnicodeInformation => "UnicodeInformation"
    case UnicodeProcessing => "UnicodeProcessing"
    case UnicodeWarning => "UnicodeWarning"
    case UnicodeDebugging => "UnicodeDebugging"
  }

  /** `ICON_MAP`: built once and never changed afterwards. Nerd Font glyphs are
      private-use code points of the Font Awesome range; every glyph is
      followed by one space. */
  function IconTable(): (table: map<IconKind, IconEntry>)
    ensures forall k: IconKind :: k in table
    ensures forall k :: k in table ==> |table[k].glyph| > 0 && table[k].glyph[|table[k].glyph| - 1] == ' '
  {
    var table := map[
      NerdFontError := IconEntry("\U{f00d} ", "red"),
      NerdFontSuccess := IconEntry("\U{f00c} ", "green"),
      NerdFontInformation := IconEntry("\U{f05a} ", "white"),
      NerdFontProcessing := IconEntry("\U{f021} ", "cyan"),
      NerdFontWarning := IconEntry("\U{f071} ", "yellow"),
      NerdFontDebugging := IconEntry("\U{f188} ", "red"),
      UnicodeError := IconEntry("\U{274c} ", "red"),
      UnicodeSuccess := IconEntry("\U{2714}\U{fe0f} ", "green"),
      UnicodeInformation := IconEntry("\U{2139}\U{fe0f} ", "white"),
      UnicodeProcessing := IconEntry("\U{2699}\U{fe0f} ", "cyan"),
      UnicodeWarning := IconEntry("\U{26a0}\U{fe0f} ", "yellow"),
      UnicodeDebugging := IconEntry("\U{1f41b} ", "yellow")
    ];
    KeysCoverEveryKind(table);
    table
  }

  /** A map keyed by every variant of `IconKind`, listed one by one, is total. */
  lemma KeysCoverEveryKind<V>(m: map<IconKind, V>)
    requires NerdFontError in m && NerdFontSuccess in m && NerdFontInformation in m
    requires NerdFontProcessing in m && NerdFontWarning in m && NerdFontDebugging in m
    requires UnicodeError in m && UnicodeSuccess in m && UnicodeInformation in m
    requires UnicodeProcessing in m && UnicodeWarning in m && UnicodeDebugging in m
    ensures forall k: IconKind :: k in m
  {
    forall k: IconKind ensures k in m {
      match k
      case NerdFontError =>
      case NerdFontSuccess =>
      case NerdFontInformation =>
      case NerdFontProcessing =>
      case NerdFontWarning =>
      case NerdFontDebugging =>
      case UnicodeError =>
      case UnicodeSuccess =>
      case UnicodeInformation =>
      case UnicodeProcessing =>
      case UnicodeWarning =>
      case UnicodeDebugging =>
    }
  }

  /** The entry used when there is no icon or the table has none for it. */
  function NoIcon(): IconEntry
  {
    IconEntry("", "")
  }

  /** Icon resolution in `whisper`: the table's entry for a selected kind, and
      empty glyph and color name when no kind is selected or the table lacks it. */
  function Resolve(table: map<IconKind, IconEntry>, kind: Option<IconKind>): (e: IconEntry)
    ensures kind.None? ==> e == NoIcon()
    ensures kind.Some? && kind.value in table ==> e == table[kind.value]
    ensures kind.Some? && kind.value !in table ==> e == NoIcon()
  {
    match kind
    case None => NoIcon()
    case Some(k) => if k in table then table[k] else NoIcon()
  }

  /** The enumeration lists every kind exactly once: twelve kinds in all. */
  lemma AllIconKindsComplete()
    ensures |AllIconKinds()| == 12
    ensures forall k: IconKind :: k in AllIconKinds()
    ensures forall i, j :: 0 <= i < j < |AllIconKinds()| ==> AllIconKinds()[i] != AllIconKinds()[j]
  {
    forall k: IconKind ensures k in AllIconKinds() {
      var all := AllIconKinds();
      match k
      case NerdFontError => assert all[0] == k;
      case NerdFontSuccess => assert all[1] == k;
      case NerdFontInformation => assert all[2] == k;
      case NerdFontProcessing => assert all[3] == k;
      case NerdFontWarning => assert all[4] == k;
      case NerdFontDebugging => assert all[5] == k;
      case UnicodeError => assert all[6] == k;
      case UnicodeSuccess => assert all[7] == k;
      case UnicodeInformation => assert all[8] == k;
      case UnicodeProcessing => assert all[9] == k;
      case UnicodeWarning => assert all[10] == k;
      case UnicodeDebugging => assert all[11] == k;
    }
  }

  /** The table has an entry for every kind and for nothing else. */
  lemma IconTableComplete()
    ensures forall k: IconKind :: k in IconTable()
    ensures |IconTable()| == 12
  {
    forall k: IconKind ensures k in IconTable() {
      match k
      case NerdFontError =>
      case NerdFontSuccess =>
      case NerdFontInformation =>
      case NerdFontProcessing =>
      case NerdFontWarning =>
      case NerdFontDebugging =>
      case UnicodeError =>
      case UnicodeSuccess =>
      case UnicodeInformation =>
      case UnicodeProcessing =>
      case UnicodeWarning =>
      case UnicodeDebugging =>
    }
  }

  /** Every entry of the table is usable by the renderer: its glyph is
      non-empty and ends with a space, and its color name is registered in the
      color table, so every icon yields a colored message. */
  lemma IconEntriesWellFormed(k: IconKind)
    ensures k in IconTable()
    ensures |IconTable()[k].glyph| > 0
    ensures IconTable()[k].glyph[|IconTable()[k].glyph| - 1] == ' '
    ensures Colors.Lookup(IconTable()[k].colorName).Some?
  {
    Colors.ColorMapContents();
  }

  /** The color each icon is drawn in; both font families agree on the five
      shared meanings, and differ only on debugging. */
  lemma IconColors()
    ensures forall k: IconKind :: k in IconTable()
    ensures IconTable()[NerdFontError].colorName == IconTable()[UnicodeError].colorName == "red"
    ensures IconTable()[NerdFontSuccess].colorName == IconTable()[UnicodeSuccess].colorName == "green"
    ensures IconTable()[NerdFontInformation].colorName == IconTable()[UnicodeInformation].colorName == "white"
    ensures IconTable()[NerdFontProcessing].colorName == IconTable()[UnicodeProcessing].colorName == "cyan"
    ensures IconTable()[NerdFontWarning].colorName == IconTable()[UnicodeWarning].colorName == "yellow"
    ensures IconTable()[NerdFontDebugging].colorName == "red"
    ensures IconTable()[UnicodeDebugging].colorName == "yellow"
  {
    IconTableComplete();
  }

  /** Distinct kinds display as distinct names, so `Display` identifies the kind. */
  lemma KindNameInjective(a: IconKind, b: IconKind)
    ensures KindName(a) == KindName(b) <==> a == b
  {
  }

  /** With the real table, a selected icon always resolves to its own entry,
      which is never the empty fallback. */
  lemma ResolveSelected(k: IconKind)
    ensures Resolve(IconTable(), Some(k)) == IconTable()[k]
    ensures Resolve(IconTable(), Some(k)) != NoIcon()
  {
    IconTableComplete();
    IconEntriesWellFormed(k);
  }
}
