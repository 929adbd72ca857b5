/** The stylesheet printed for a style, and what a reader of it can tell. */
module StyleCss {
  import opened Common
  import opened Hex
  import opened StyleModel
  import StyleEditor
  import StyleTable

  const HEAD_FONT_PROPERTY := "--s-font-head"
  const BODY_FONT_PROPERTY := "--s-font-body"
  const TEXT_SOFT_PROPERTY := "--s-text-soft"
  const TEXT_SOFT := "color-mix(in oklab, " + "var(--s-text) 79%, " + "var(--s-sheet))"

  /** The seven slots, the two fonts and the derived soft text colour. */
  const PROPERTY_COUNT := SLOT_COUNT + 3

  function Property(i: nat): string
    requires i < PROPERTY_COUNT
  {
    if i < SLOT_COUNT then SLOTS[i].property
    else if i == SLOT_COUNT then HEAD_FONT_PROPERTY
    else if i == SLOT_COUNT + 1 then BODY_FONT_PROPERTY
    else TEXT_SOFT_PROPERTY
  }

  function Parsed(colors: map<string, string>, key: string): Option<string> {
    if key in colors then ParseHex(colors[key]) else None
  }

  function Stack(theme: Theme, font: string): Option<string> {
    match FontByKey(theme.fonts, font)
    case None => None
    case Some(f) => Some(f.stack)
  }

  /** The value that a style gives a property, if any. */
  function Value(theme: Theme, st: Style, i: nat): Option<string>
    requires i < PROPERTY_COUNT
  {
    if i < SLOT_COUNT then Parsed(st.colors, SLOTS[i].key)
    else if i == SLOT_COUNT then Stack(theme, st.headFont)
    else if i == SLOT_COUNT + 1 then Stack(theme, st.bodyFont)
    else if Parsed(st.colors, "text").Some? || Parsed(st.colors, "sheet").Some? then Some(TEXT_SOFT)
    else None
  }

  function Declaration(property: string, value: string): string {
    property + ": " + value + ";"
  }

  /** The declarations of the first n properties, in order. */
  function Decls(theme: Theme, st: Style, n: nat): seq<string>
    requires n <= PROPERTY_COUNT
  {
    if n == 0 then [] else
      var before := Decls(theme, st, n - 1);
      match Value(theme, st, n - 1)
      case None => before
      case Some(v) => before + [Declaration(Property(n - 1), v)]
  }

  /** The rule's lines and its closing brace. */
  function Lines(decls: seq<string>): string {
    if decls == [] then "}\n" else "\t" + decls[0] + "\n" + Lines(decls[1..])
  }

  function Sheet(theme: Theme, st: Style): string {
    var decls := Decls(theme, st, PROPERTY_COUNT);
    if decls == [] then "" else "body {\n" + Lines(decls)
  }

  method Css(theme: Theme, st: Style) returns (css: string)
    ensures css == Sheet(theme, st)
  {
    var decls: seq<string> := [];
    for i := 0 to SLOT_COUNT
      invariant decls == Decls(theme, st, i)
    {
      var c := Parsed(st.colors, SLOTS[i].key);
      if c.None? {
        continue;
      }
      decls := decls + [Declaration(SLOTS[i].property, c.value)];
    }
    var head := FontByKey(theme.fonts, st.headFont);
    if head.Some? {
      decls := decls + [Declaration(HEAD_FONT_PROPERTY, head.value.stack)];
    }
    assert decls == Decls(theme, st, SLOT_COUNT + 1);
    var body := FontByKey(theme.fonts, st.bodyFont);
    if body.Some? {
      decls := decls + [Declaration(BODY_FONT_PROPERTY, body.value.stack)];
    }
    assert decls == Decls(theme, st, SLOT_COUNT + 2);
    if decls == [] {
      NothingToDerive(theme, st);
      return "";
    }
    if Parsed(st.colors, "text").Some? || Parsed(st.colors, "sheet").Some? {
      decls := decls + [Declaration(TEXT_SOFT_PROPERTY, TEXT_SOFT)];
    }
    assert decls == Decls(theme, st, PROPERTY_COUNT);
    css := PrintRule(decls);
  }

  method PrintRule(decls: seq<string>) returns (css: string)
    ensures css == "body {\n" + Lines(decls)
  {
    css := "body {\n";
    for i := 0 to |decls|
      invariant css + Lines(decls[i..]) == "body {\n" + Lines(decls)
    {
      LinesUnfold(css, decls[i..]);
      assert decls[i..][1..] == decls[i + 1..];
      css := css + "\t" + decls[i] + "\n";
    }
    css := css + "}\n";
  }

  lemma LinesUnfold(css: string, decls: seq<string>)
    requires decls != []
    ensures css + Lines(decls) == css + "\t" + decls[0] + "\n" + Lines(decls[1..])
  {
  }

  // -------------------------------------------------- what a style says, declared

  lemma {:induction false} DeclsGrow(theme: Theme, st: Style, i: nat, n: nat)
    requires i < n <= PROPERTY_COUNT && Value(theme, st, i).Some?
    ensures Declaration(Property(i), Value(theme, st, i).value) in Decls(theme, st, n)
    decreases n
  {
    if i < n - 1 {
      DeclsGrow(theme, st, i, n - 1);
    }
  }

  lemma {:induction false} DeclsComeFrom(theme: Theme, st: Style, n: nat, d: string) returns (i: nat)
    requires n <= PROPERTY_COUNT && d in Decls(theme, st, n)
    ensures i < n && Value(theme, st, i).Some? && d == Declaration(Property(i), Value(theme, st, i).value)
    decreases n
  {
    if d in Decls(theme, st, n - 1) {
      i := DeclsComeFrom(theme, st, n - 1, d);
    } else {
      i := n - 1;
    }
  }

  /** With no slot and no font set there is nothing to derive a soft text colour from. */
  lemma NothingToDerive(theme: Theme, st: Style)
    requires Decls(theme, st, SLOT_COUNT + 2) == []
    ensures Decls(theme, st, PROPERTY_COUNT) == []
  {
    if Value(theme, st, 1).Some? {
      DeclsGrow(theme, st, 1, SLOT_COUNT + 2);
    }
    if Value(theme, st, 2).Some? {
      DeclsGrow(theme, st, 2, SLOT_COUNT + 2);
    }
  }

  /** No colon and no line break. */
  predicate Plain(s: string) {
    forall k | 0 <= k < |s| :: s[k] != ':' && s[k] != '\n'
  }

  lemma SlotsArePlain(i: nat)
    requires i < SLOT_COUNT
    ensures Plain(SLOTS[i].property)
  {
    assert Plain("--s-bg") && Plain("--s-sheet") && Plain("--s-text") && Plain("--s-link") && Plain("--s-name");
    assert Plain("--s-bar-bg") && Plain("--s-bar-fg");
  }

  lemma PropertiesArePlain(i: nat)
    requires i < PROPERTY_COUNT
    ensures Plain(Property(i))
  {
    if i < SLOT_COUNT {
      SlotsArePlain(i);
    }
    assert Plain(HEAD_FONT_PROPERTY) && Plain(BODY_FONT_PROPERTY) && Plain(TEXT_SOFT_PROPERTY);
  }

  lemma TextSoftIsOneLine()
    ensures '\n' !in TEXT_SOFT
  {
    assert '\n' !in "color-mix(in oklab, ";
    assert '\n' !in "var(--s-text) 79%, ";
    assert '\n' !in "var(--s-sheet))";
  }

  lemma ValuesAreOneLine(theme: Theme, st: Style, i: nat)
    requires theme.Valid() && i < PROPERTY_COUNT && Value(theme, st, i).Some?
    ensures '\n' !in Value(theme, st, i).value
  {
    if i < SLOT_COUNT {
      var hex := st.colors[SLOTS[i].key];
      assert Parsed(st.colors, SLOTS[i].key) == Some("#" + Digits(Number(hex[1..]), 6));
    } else if i < SLOT_COUNT + 2 {
      var f := FontByKey(theme.fonts, if i == SLOT_COUNT then st.headFont else st.bodyFont).value;
      assert f in theme.fonts;
    } else {
      TextSoftIsOneLine();
    }
  }

  lemma DeclarationIsOneLine(p: string, v: string)
    requires Plain(p) && '\n' !in v
    ensures '\n' !in Declaration(p, v)
  {
  }

  lemma SlotPropertiesDiffer()
    ensures forall i, j | 0 <= i < j < SLOT_COUNT :: SLOTS[i].property != SLOTS[j].property
  {
    assert SLOTS[2].property[4] == 't' && SLOTS[3].property[4] == 'l' && SLOTS[4].property[4] == 'n';
    assert SLOTS[5].property[8] == 'b' && SLOTS[6].property[8] == 'f';
  }

  lemma PropertiesDiffer(i: nat, j: nat)
    requires i < j < PROPERTY_COUNT
    ensures Property(i) != Property(j)
  {
    SlotPropertiesDiffer();
    assert HEAD_FONT_PROPERTY[9] == 'h' && BODY_FONT_PROPERTY[9] == 'b' && TEXT_SOFT_PROPERTY[9] == 's';
    assert i < SLOT_COUNT ==> |Property(i)| <= 10;
  }

  lemma DeclarationsDiffer(p: string, v: string, q: string, w: string)
    requires Plain(p) && Plain(q) && (p != q || v != w)
    ensures Declaration(p, v) != Declaration(q, w)
  {
    var d, e := Declaration(p, v), Declaration(q, w);
    if |p| != |q| {
      var k := Min(|p|, |q|);
      assert |p| == k ==> d[k] == ':' && e[k] == q[k];
      assert |q| == k ==> e[k] == ':' && d[k] == p[k];
    } else if p != q {
      assert d[..|p|] == p && e[..|p|] == q;
    } else {
      assert d[|p| + 2..] == v + ";" && e[|p| + 2..] == w + ";";
      assert (v + ";")[..|v|] == v && (w + ";")[..|w|] == w;
    }
  }

  /** A property is declared with a value exactly when the style gives it that value. */
  lemma DeclaredIffChosen(theme: Theme, st: Style, i: nat, v: string)
    requires i < PROPERTY_COUNT
    ensures Declaration(Property(i), v) in Decls(theme, st, PROPERTY_COUNT) <==> Value(theme, st, i) == Some(v)
  {
    var d := Declaration(Property(i), v);
    if Value(theme, st, i) == Some(v) {
      DeclsGrow(theme, st, i, PROPERTY_COUNT);
    } else if d in Decls(theme, st, PROPERTY_COUNT) {
      var j := DeclsComeFrom(theme, st, PROPERTY_COUNT, d);
      PropertiesArePlain(i);
      PropertiesArePlain(j);
      if j < i {
        PropertiesDiffer(j, i);
      } else if i < j {
        PropertiesDiffer(i, j);
      }
      DeclarationsDiffer(Property(i), v, Property(j), Value(theme, st, j).value);
    }
  }

  // ---------------------------------------------------------- the text of a rule

  ghost predicate OneLine(decls: seq<string>) {
    forall i | 0 <= i < |decls| :: '\n' !in decls[i]
  }

  lemma DeclsAreOneLine(theme: Theme, st: Style)
    requires theme.Valid()
    ensures OneLine(Decls(theme, st, PROPERTY_COUNT))
  {
    var decls := Decls(theme, st, PROPERTY_COUNT);
    forall k | 0 <= k < |decls| ensures '\n' !in decls[k] {
      var i := DeclsComeFrom(theme, st, PROPERTY_COUNT, decls[k]);
      PropertiesArePlain(i);
      ValuesAreOneLine(theme, st, i);
      DeclarationIsOneLine(Property(i), Value(theme, st, i).value);
    }
  }

  lemma FirstLinesDiffer(a: string, rest: string, b: string, more: string)
    requires '\n' !in a && '\n' !in b && a != b
    ensures a + "\n" + rest != b + "\n" + more
  {
    var s, t := a + "\n" + rest, b + "\n" + more;
    if |a| != |b| {
      var k := Min(|a|, |b|);
      assert |a| == k ==> s[k] == '\n' && t[k] == b[k];
      assert |b| == k ==> t[k] == '\n' && s[k] == a[k];
    } else {
      assert s[..|a|] == a && t[..|a|] == b;
    }
  }

  /** Different declarations make different text. */
  lemma {:induction false} LinesDiffer(a: seq<string>, b: seq<string>)
    requires OneLine(a) && OneLine(b) && a != b
    ensures Lines(a) != Lines(b)
    decreases |a|
  {
    if a == [] {
      assert Lines(a)[0] == '}' && Lines(b)[0] == '\t';
    } else if b == [] {
      assert Lines(a)[0] == '\t' && Lines(b)[0] == '}';
    } else {
      var s, t := a[0] + "\n" + Lines(a[1..]), b[0] + "\n" + Lines(b[1..]);
      assert Lines(a)[1..] == s && Lines(b)[1..] == t;
      if a[0] != b[0] {
        FirstLinesDiffer(a[0], Lines(a[1..]), b[0], Lines(b[1..]));
      } else {
        assert a == [a[0]] + a[1..] && b == [b[0]] + b[1..];
        LinesDiffer(a[1..], b[1..]);
        assert s[|a[0]| + 1..] == Lines(a[1..]) && t[|a[0]| + 1..] == Lines(b[1..]);
      }
    }
  }

  // ------------------------------------------------------- reading a sheet by line

  /** The lines of a text, of which `line` is the beginning of the first. */
  function Broken(text: string, line: string): seq<string> {
    if text == "" then if line == "" then [] else [line]
    else if text[0] == '\n' then [line] + Broken(text[1..], "")
    else Broken(text[1..], line + [text[0]])
  }

  /** The sheet has this declaration on a line of its own. */
  predicate Prints(sheet: string, property: string, value: string) {
    "\t" + property + ": " + value + ";" in Broken(sheet, "")
  }

  lemma {:induction false} LineEnds(a: string, rest: string, line: string)
    requires '\n' !in a
    ensures Broken(a + "\n" + rest, line) == [line + a] + Broken(rest, "")
    decreases |a|
  {
    var text := a + "\n" + rest;
    if a == "" {
      assert text[0] == '\n' && text[1..] == rest && line + a == line;
    } else {
      assert text[0] == a[0] && text[1..] == a[1..] + "\n" + rest;
      assert line + [a[0]] + a[1..] == line + a;
      LineEnds(a[1..], rest, line + [a[0]]);
    }
  }

  lemma BraceIsALine()
    ensures Broken("}\n", "") == ["}"]
  {
    LineEnds("}", "", "");
    assert "}" + "\n" + "" == "}\n" && "" + "}" == "}";
  }

  function Tabbed(decls: seq<string>): seq<string> {
    if decls == [] then [] else ["\t" + decls[0]] + Tabbed(decls[1..])
  }

  lemma {:induction false} TabbedHas(decls: seq<string>, d: string)
    ensures "\t" + d in Tabbed(decls) <==> d in decls
    decreases |decls|
  {
    if decls != [] {
      assert ("\t" + d)[1..] == d && ("\t" + decls[0])[1..] == decls[0];
      assert decls == [decls[0]] + decls[1..];
      TabbedHas(decls[1..], d);
    }
  }

  lemma {:induction false} RuleBreaks(decls: seq<string>)
    requires OneLine(decls)
    ensures Broken(Lines(decls), "") == Tabbed(decls) + ["}"]
    decreases |decls|
  {
    if decls == [] {
      BraceIsALine();
    } else {
      var first := "\t" + decls[0];
      assert '\n' !in first;
      assert Lines(decls) == first + "\n" + Lines(decls[1..]);
      assert "" + first == first;
      LineEnds(first, Lines(decls[1..]), "");
      RuleBreaks(decls[1..]);
    }
  }

  lemma SheetBreaks(theme: Theme, st: Style)
    requires theme.Valid()
    ensures
      var decls := Decls(theme, st, PROPERTY_COUNT);
      Broken(Sheet(theme, st), "") == if decls == [] then [] else ["body {"] + (Tabbed(decls) + ["}"])
  {
    var decls := Decls(theme, st, PROPERTY_COUNT);
    DeclsAreOneLine(theme, st);
    RuleBreaks(decls);
    assert '\n' !in "body {" && "" + "body {" == "body {";
    LineEnds("body {", Lines(decls), "");
    assert "body {" + "\n" + Lines(decls) == "body {\n" + Lines(decls);
  }

  lemma PrintsIffDeclared(theme: Theme, st: Style, property: string, value: string)
    requires theme.Valid()
    ensures Prints(Sheet(theme, st), property, value) <==>
              Declaration(property, value) in Decls(theme, st, PROPERTY_COUNT)
  {
    var d, decls := Declaration(property, value), Decls(theme, st, PROPERTY_COUNT);
    SheetBreaks(theme, st);
    TabbedHas(decls, d);
    assert "\t" + property + ": " + value + ";" == "\t" + d;
    assert ("\t" + d)[0] == '\t' && "body {"[0] == 'b' && "}"[0] == '}';
  }

  /** The slot's colour, in any spelling of it that is one. */
  predicate Chosen(st: Style, slot: string, value: string) {
    slot in st.colors && ParseHex(st.colors[slot]) == Some(value)
  }

  lemma SlotIsPrinted(theme: Theme, st: Style, i: nat, value: string)
    requires theme.Valid() && i < SLOT_COUNT
    ensures Prints(Sheet(theme, st), SLOTS[i].property, value) <==> Chosen(st, SLOTS[i].key, value)
  {
    PrintsIffDeclared(theme, st, SLOTS[i].property, value);
    DeclaredIffChosen(theme, st, i, value);
  }

  /** Main result: every slot's colour is on a line of the sheet under that slot's property, and nothing else is. */
  lemma ColorsArePrinted(theme: Theme, st: Style, value: string)
    requires theme.Valid()
    ensures Prints(Sheet(theme, st), "--s-bg", value) <==> Chosen(st, "bg", value)
    ensures Prints(Sheet(theme, st), "--s-sheet", value) <==> Chosen(st, "sheet", value)
    ensures Prints(Sheet(theme, st), "--s-text", value) <==> Chosen(st, "text", value)
    ensures Prints(Sheet(theme, st), "--s-link", value) <==> Chosen(st, "link", value)
    ensures Prints(Sheet(theme, st), "--s-name", value) <==> Chosen(st, "name", value)
    ensures Prints(Sheet(theme, st), "--s-bar-bg", value) <==> Chosen(st, "barbg", value)
    ensures Prints(Sheet(theme, st), "--s-bar-fg", value) <==> Chosen(st, "barfg", value)
  {
    SlotIsPrinted(theme, st, 0, value);
    SlotIsPrinted(theme, st, 1, value);
    SlotIsPrinted(theme, st, 2, value);
    SlotIsPrinted(theme, st, 3, value);
    SlotIsPrinted(theme, st, 4, value);
    SlotIsPrinted(theme, st, 5, value);
    SlotIsPrinted(theme, st, 6, value);
    hide Prints, Chosen;
  }

  /**
   Main result: the heading font's stack is on a line under the headings' property, the body
   font's under the text's, and the soft text colour wherever the text or the sheet has a colour.
   */
  lemma FontsArePrinted(theme: Theme, st: Style, value: string)
    requires theme.Valid()
    ensures Prints(Sheet(theme, st), "--s-font-head", value) <==>
              exists f <- theme.fonts :: f.key == st.headFont && f.stack == value
    ensures Prints(Sheet(theme, st), "--s-font-body", value) <==>
              exists f <- theme.fonts :: f.key == st.bodyFont && f.stack == value
    ensures Prints(Sheet(theme, st), "--s-text-soft", value) <==>
              && value == "color-mix(in oklab, " + "var(--s-text) 79%, " + "var(--s-sheet))"
              && ((exists c :: Chosen(st, "text", c)) || exists c :: Chosen(st, "sheet", c))
  {
    PrintsIffDeclared(theme, st, HEAD_FONT_PROPERTY, value);
    PrintsIffDeclared(theme, st, BODY_FONT_PROPERTY, value);
    PrintsIffDeclared(theme, st, TEXT_SOFT_PROPERTY, value);
    DeclaredIffChosen(theme, st, SLOT_COUNT, value);
    DeclaredIffChosen(theme, st, SLOT_COUNT + 1, value);
    DeclaredIffChosen(theme, st, SLOT_COUNT + 2, value);
    FontHasStack(theme, st.headFont, value);
    FontHasStack(theme, st.bodyFont, value);
    ColorIsChosen(st, "text");
    ColorIsChosen(st, "sheet");
  }

  lemma FontHasStack(theme: Theme, key: string, stack: string)
    requires theme.Valid()
    ensures Stack(theme, key) == Some(stack) <==> exists f <- theme.fonts :: f.key == key && f.stack == stack
  {
    if f :| f in theme.fonts && f.key == key && f.stack == stack {
      var g := FontByKey(theme.fonts, key).value;
      var i :| 0 <= i < |theme.fonts| && theme.fonts[i] == f;
      var j :| 0 <= j < |theme.fonts| && theme.fonts[j] == g;
      assert i == j;
    }
  }

  lemma ColorIsChosen(st: Style, slot: string)
    ensures Parsed(st.colors, slot).Some? <==> exists c :: Chosen(st, slot, c)
  {
    if Parsed(st.colors, slot).Some? {
      assert Chosen(st, slot, Parsed(st.colors, slot).value);
    }
  }

  // -------------------------------------------- what the page shows under both sheets

  /** What the theme's own sheet gives a slot's property under a mood. */
  function ThemeSheet(theme: Theme, mood: string, property: string): Option<string>
    requires mood in theme.moods
  {
    if property == "--s-bg" then Some(theme.moods[mood].bg)
    else if property == "--s-sheet" then Some("#fefdfa")
    else if property == "--s-text" then Some("#292620")
    else if property == "--s-link" then Some(theme.moods[mood].fg)
    else if property == "--s-name" then Some(theme.moods[mood].fg)
    else if property == "--s-bar-bg" then Some(theme.moods[mood].fg)
    else if property == "--s-bar-fg" then Some("#fefdfa")
    else None
  }

  /** The editor's defaults mirror the theme's sheet, slot by slot and under every mood. */
  lemma DefaultsMirrorTheme(theme: Theme, i: nat, mood: string)
    requires i < SLOT_COUNT && mood in theme.moods
    ensures ThemeSheet(theme, mood, SLOTS[i].property) == Some(Default(theme, SLOTS[i].key, mood))
  {
    SlotKeysDiffer();
    SlotPropertiesDiffer();
    assert SLOTS[i] == SLOTS[0] || SLOTS[i] == SLOTS[1] || SLOTS[i] == SLOTS[2] || SLOTS[i] == SLOTS[3]
        || SLOTS[i] == SLOTS[4] || SLOTS[i] == SLOTS[5] || SLOTS[i] == SLOTS[6];
  }

  /** Main result: the editor shows for each slot the colour that the page has: the owner's, else the theme's. */
  lemma EditorShowsThePage(theme: Theme, st: Style, mood: string, i: nat)
    requires theme.Valid() && mood in theme.moods && WellFormed(theme, st) && i < SLOT_COUNT
    ensures
      var sheet, property, shown := Sheet(theme, st), SLOTS[i].property, StyleEditor.Shown(theme, st, mood, i);
      || Prints(sheet, property, shown)
      || ((forall value :: !Prints(sheet, property, value)) && ThemeSheet(theme, mood, property) == Some(shown))
  {
    var sheet, key, property := Sheet(theme, st), SLOTS[i].key, SLOTS[i].property;
    DefaultsMirrorTheme(theme, i, mood);
    forall value ensures Prints(sheet, property, value) <==> Chosen(st, key, value) {
      SlotIsPrinted(theme, st, i, value);
    }
    hide Prints, ThemeSheet;
  }

  // ------------------------------------------------------------------ main results

  /** The two styles look the same: their valid colours and their known fonts agree. */
  ghost predicate SameLook(theme: Theme, s: Style, t: Style) {
    && (forall i | 0 <= i < SLOT_COUNT :: Parsed(s.colors, SLOTS[i].key) == Parsed(t.colors, SLOTS[i].key))
    && FontByKey(theme.fonts, s.headFont) == FontByKey(theme.fonts, t.headFont)
    && FontByKey(theme.fonts, s.bodyFont) == FontByKey(theme.fonts, t.bodyFont)
  }

  lemma SameStackSameFont(theme: Theme, f: string, g: string)
    requires theme.Valid() && Stack(theme, f) == Stack(theme, g)
    ensures FontByKey(theme.fonts, f) == FontByKey(theme.fonts, g)
  {
    if Stack(theme, f).Some? {
      var a, b := FontByKey(theme.fonts, f).value, FontByKey(theme.fonts, g).value;
      var i :| 0 <= i < |theme.fonts| && theme.fonts[i] == a;
      var j :| 0 <= j < |theme.fonts| && theme.fonts[j] == b;
      assert i == j;
    }
  }

  lemma {:induction false} SameValuesSameDecls(theme: Theme, s: Style, t: Style, n: nat)
    requires n <= PROPERTY_COUNT && forall i | 0 <= i < n :: Value(theme, s, i) == Value(theme, t, i)
    ensures Decls(theme, s, n) == Decls(theme, t, n)
    decreases n
  {
    if n > 0 {
      SameValuesSameDecls(theme, s, t, n - 1);
    }
  }

  lemma SameDeclsSameValues(theme: Theme, s: Style, t: Style, i: nat)
    requires i < PROPERTY_COUNT && Decls(theme, s, PROPERTY_COUNT) == Decls(theme, t, PROPERTY_COUNT)
    ensures Value(theme, s, i) == Value(theme, t, i)
  {
    if Value(theme, s, i).Some? {
      DeclaredIffChosen(theme, s, i, Value(theme, s, i).value);
      DeclaredIffChosen(theme, t, i, Value(theme, s, i).value);
    } else if Value(theme, t, i).Some? {
      DeclaredIffChosen(theme, s, i, Value(theme, t, i).value);
      DeclaredIffChosen(theme, t, i, Value(theme, t, i).value);
    }
  }

  lemma SheetDeterminesDecls(theme: Theme, s: Style, t: Style)
    requires theme.Valid() && Sheet(theme, s) == Sheet(theme, t)
    ensures Decls(theme, s, PROPERTY_COUNT) == Decls(theme, t, PROPERTY_COUNT)
  {
    var a, b := Decls(theme, s, PROPERTY_COUNT), Decls(theme, t, PROPERTY_COUNT);
    DeclsAreOneLine(theme, s);
    DeclsAreOneLine(theme, t);
    if a != [] && b != [] {
      assert ("body {\n" + Lines(a))[7..] == Lines(a) && ("body {\n" + Lines(b))[7..] == Lines(b);
      if a != b {
        LinesDiffer(a, b);
      }
    }
  }

  /** Main result: two styles print the same bytes exactly when they look the same. */
  lemma SameSheetIffSameLook(theme: Theme, s: Style, t: Style)
    requires theme.Valid()
    ensures Sheet(theme, s) == Sheet(theme, t) <==> SameLook(theme, s, t)
  {
    assert SLOTS[1].key == "sheet" && SLOTS[2].key == "text";
    if SameLook(theme, s, t) {
      SameValuesSameDecls(theme, s, t, PROPERTY_COUNT);
    }
    if Sheet(theme, s) == Sheet(theme, t) {
      SheetDeterminesDecls(theme, s, t);
      forall i | 0 <= i < PROPERTY_COUNT ensures Value(theme, s, i) == Value(theme, t, i) {
        SameDeclsSameValues(theme, s, t, i);
      }
      assert Value(theme, s, SLOT_COUNT) == Value(theme, t, SLOT_COUNT);
      assert Value(theme, s, SLOT_COUNT + 1) == Value(theme, t, SLOT_COUNT + 1);
      SameStackSameFont(theme, s.headFont, t.headFont);
      SameStackSameFont(theme, s.bodyFont, t.bodyFont);
      forall i | 0 <= i < SLOT_COUNT ensures Parsed(s.colors, SLOTS[i].key) == Parsed(t.colors, SLOTS[i].key) {
        assert Value(theme, s, i) == Value(theme, t, i);
      }
    }
  }

  /** No text of the owner's reaches the sheet: its values are formatted colours, registered stacks and one constant. */
  lemma OnlyOurTextIsPrinted(theme: Theme, st: Style, d: string) returns (i: nat, v: string)
    requires d in Decls(theme, st, PROPERTY_COUNT)
    ensures i < PROPERTY_COUNT && d == Declaration(Property(i), v)
    ensures i < SLOT_COUNT ==> Canonical(v)
    ensures SLOT_COUNT <= i < SLOT_COUNT + 2 ==> exists f <- theme.fonts :: f.stack == v
    ensures i == SLOT_COUNT + 2 ==> v == TEXT_SOFT
  {
    i := DeclsComeFrom(theme, st, PROPERTY_COUNT, d);
    v := Value(theme, st, i).value;
    if i < SLOT_COUNT {
      ParsedIsCanonical(st.colors[SLOTS[i].key]);
    }
  }

  /** A well-formed style's sheet is empty exactly when it sets no colour and no font. */
  lemma EmptySheetIff(theme: Theme, st: Style)
    requires theme.Valid() && WellFormed(theme, st)
    ensures Sheet(theme, st) == "" <==> st.colors == map[] && st.headFont == "" && st.bodyFont == ""
  {
    assert FontByKey(theme.fonts, "").None?;
    if Sheet(theme, st) != "" {
      var d := Decls(theme, st, PROPERTY_COUNT)[0];
      var i := DeclsComeFrom(theme, st, PROPERTY_COUNT, d);
    } else {
      if k :| k in st.colors {
        var i :| 0 <= i < SLOT_COUNT && SLOTS[i].key == k;
        DeclsGrow(theme, st, i, PROPERTY_COUNT);
      }
      if st.headFont != "" {
        DeclsGrow(theme, st, SLOT_COUNT, PROPERTY_COUNT);
      }
      if st.bodyFont != "" {
        DeclsGrow(theme, st, SLOT_COUNT + 1, PROPERTY_COUNT);
      }
    }
  }

  /** The sheet that the preview of a draft is served. */
  function PreviewSheet(theme: Theme, draft: Style): Option<string> {
    match StyleEditor.StyleFromQuery(theme, StyleEditor.PreviewQuery(draft))
    case None => None
    case Some(st) => Some(Sheet(theme, st))
  }

  /** A draft that the form accepts is stored as it is, and its preview is its sheet. */
  lemma DraftIsKept(theme: Theme, form: StyleEditor.Values, mood: string, reset: string)
    requires StyleEditor.ParseDraft(theme, form, mood, reset).Some?
    ensures
      var draft := StyleEditor.ParseDraft(theme, form, mood, reset).value;
      && StyleTable.Acceptable(theme, draft) && StyleTable.Formatted(draft) == draft
      && PreviewSheet(theme, draft) == Some(Sheet(theme, draft))
  {
    var draft := StyleEditor.ParseDraft(theme, form, mood, reset).value;
    StyleEditor.DraftIsNormal(theme, form, mood, reset);
    StyleEditor.DraftSurvivesQuery(theme, form, mood, reset);
    StyleTable.WellFormedSurvives(theme, draft);
  }

  /**
   Publishing: what the owner previews is what visitors get from then on, byte for byte, the
   default draft included, whose row goes. The table never rejects a draft that the form accepts.
   */
  method Publish(table: StyleTable.Table, id: StyleTable.Id, form: StyleEditor.Values, mood: string, now: int)
    returns (r: StyleTable.SetResult)
    modifies table`rows
    ensures r.InvalidStyle? <==> StyleEditor.ParseDraft(table.theme, form, mood, "").None?
    ensures r.NoAccount? <==>
              && StyleEditor.ParseDraft(table.theme, form, mood, "").Some? && id !in table.accounts
              && !StyleEditor.ParseDraft(table.theme, form, mood, "").value.IsDefault()
    ensures !r.Stored? ==> table.rows == old(table.rows)
    ensures r.Stored? ==>
              var draft := StyleEditor.ParseDraft(table.theme, form, mood, "").value;
              && PreviewSheet(table.theme, draft) == Some(Sheet(table.theme, table.Read(id)))
              && table.Read(id) == draft
              && table.rows - {id} == old(table.rows) - {id}
  {
    var draft := StyleEditor.ReadDraft(table.theme, form, mood, "");
    if draft.None? {
      return StyleTable.InvalidStyle;
    }
    DraftIsKept(table.theme, form, mood, "");
    r := table.SetStyle(id, draft.value, now);
  }
}
