/**
 The style editor: reading the form, carrying the draft in the preview's query and
 hidden fields, and reading both back.
 */
module StyleEditor {
  import opened Common
  import opened Hex
  import opened StyleModel

  /** url.Values: each field's values in the order they were sent. */
  type Values = map<string, seq<string>>

  const COLOR_PREFIX := "c_"
  const HEAD_FONT := "f_head"
  const BODY_FONT := "f_body"
  const OWN_MOOD_BOX := "own_mood_box"
  const PREVIEW_OWN := "own"
  const RESET_HEAD := "head"
  const RESET_BODY := "body"

  function ColorField(key: string): string {
    COLOR_PREFIX + key
  }

  lemma FieldsDiffer(key: string, other: string)
    ensures ColorField(key) == ColorField(other) ==> key == other
    ensures ColorField(key) != HEAD_FONT && ColorField(key) != BODY_FONT
    ensures ColorField(key) != OWN_MOOD_BOX && ColorField(key) != PREVIEW_OWN
    ensures HEAD_FONT != BODY_FONT && HEAD_FONT != OWN_MOOD_BOX && BODY_FONT != OWN_MOOD_BOX
    ensures HEAD_FONT != PREVIEW_OWN && BODY_FONT != PREVIEW_OWN
  {
    assert ColorField(key)[2..] == key && ColorField(other)[2..] == other;
    assert ColorField(key)[0] == 'c' && HEAD_FONT[0] == 'f' && OWN_MOOD_BOX[0] == 'o' && PREVIEW_OWN[0] == 'o';
    assert BODY_FONT[0] == 'f' && HEAD_FONT[2] == 'h' && BODY_FONT[2] == 'b';
  }

  // ----------------------------------------------------------------- the form

  /** One colour input: it must be there once and be a colour; its slot's default counts as untouched. */
  function FormColor(theme: Theme, form: Values, mood: string, reset: string, key: string): Choice {
    var field := ColorField(key);
    if reset == key then Skip
    else if field !in form || |form[field]| != 1 then Reject
    else
      match ParseHex(form[field][0])
      case None => Reject
      case Some(hex) => if hex == Default(theme, key, mood) then Skip else Put(hex)
  }

  function ParseFont(theme: Theme, form: Values, field: string, default: string, reset: bool): Option<string> {
    if reset then Some("")
    else if field !in form || |form[field]| != 1 || FontByKey(theme.fonts, form[field][0]).None? then None
    else if form[field][0] == default then Some("")
    else Some(form[field][0])
  }

  function ParseDraft(theme: Theme, form: Values, mood: string, reset: string): Option<Style> {
    var colors := Collect(key => FormColor(theme, form, mood, reset, key), SLOT_COUNT);
    var head := ParseFont(theme, form, HEAD_FONT, DEFAULT_HEAD_FONT, reset == RESET_HEAD);
    var body := ParseFont(theme, form, BODY_FONT, DEFAULT_BODY_FONT, reset == RESET_BODY);
    if colors.None? || head.None? || body.None? then None
    else Some(Style(colors.value, head.value, body.value, OWN_MOOD_BOX !in form))
  }

  method ReadDraft(theme: Theme, form: Values, mood: string, reset: string) returns (st: Option<Style>)
    ensures st == ParseDraft(theme, form, mood, reset)
  {
    ghost var choose := key => FormColor(theme, form, mood, reset, key);
    var colors: map<string, string> := map[];
    for i := 0 to SLOT_COUNT
      invariant Collect(choose, i) == Some(colors)
    {
      var key := SLOTS[i].key;
      if reset == key {
        continue;
      }
      var field := ColorField(key);
      if field !in form || |form[field]| != 1 {
        CollectRejects(choose, i);
        return None;
      }
      var hex := ParseHex(form[field][0]);
      if hex.None? {
        CollectRejects(choose, i);
        return None;
      }
      if hex.value == Default(theme, key, mood) {
        continue;
      }
      colors := colors[key := hex.value];
    }
    var head := ParseFont(theme, form, HEAD_FONT, DEFAULT_HEAD_FONT, reset == RESET_HEAD);
    if head.None? {
      return None;
    }
    var body := ParseFont(theme, form, BODY_FONT, DEFAULT_BODY_FONT, reset == RESET_BODY);
    if body.None? {
      return None;
    }
    var keepsMood := OWN_MOOD_BOX in form;
    return Some(Style(colors, head.value, body.value, !keepsMood));
  }

  lemma CollectRejects(choose: string -> Choice, i: nat)
    requires i < SLOT_COUNT && choose(SLOTS[i].key).Reject?
    ensures Collect(choose, SLOT_COUNT).None?
  {
    CollectMeans(choose, SLOT_COUNT);
  }

  // --------------------------------------------------------- the preview's query

  function PutColors(st: Style, n: nat): Values
    requires n <= SLOT_COUNT
  {
    if n == 0 then map[] else
      var before, key := PutColors(st, n - 1), SLOTS[n - 1].key;
      if key in st.colors then before[ColorField(key) := [st.colors[key]]] else before
  }

  function PutIf(q: Values, field: string, value: string, present: bool): Values {
    if present then q[field := [value]] else q
  }

  function PreviewQuery(st: Style): Values {
    var q := PutColors(st, SLOT_COUNT);
    var q1 := PutIf(q, HEAD_FONT, st.headFont, st.headFont != "");
    var q2 := PutIf(q1, BODY_FONT, st.bodyFont, st.bodyFont != "");
    PutIf(q2, PREVIEW_OWN, "1", st.ownMoodBox)
  }

  method WritePreviewQuery(st: Style) returns (q: Values)
    ensures q == PreviewQuery(st)
  {
    q := map[];
    for i := 0 to SLOT_COUNT
      invariant q == PutColors(st, i)
    {
      var key := SLOTS[i].key;
      if key in st.colors {
        q := q[ColorField(key) := [st.colors[key]]];
      }
    }
    if st.headFont != "" {
      q := q[HEAD_FONT := [st.headFont]];
    }
    if st.bodyFont != "" {
      q := q[BODY_FONT := [st.bodyFont]];
    }
    if st.ownMoodBox {
      q := q[PREVIEW_OWN := ["1"]];
    }
  }

  function QueryColor(q: Values, key: string): Choice {
    var field := ColorField(key);
    if field !in q then Skip
    else if |q[field]| != 1 then Reject
    else
      match ParseHex(q[field][0])
      case None => Reject
      case Some(hex) => Put(hex)
  }

  function QueryFont(theme: Theme, q: Values, field: string): Option<string> {
    if field !in q then Some("")
    else if |q[field]| != 1 || FontByKey(theme.fonts, q[field][0]).None? then None
    else Some(q[field][0])
  }

  function StyleFromQuery(theme: Theme, q: Values): Option<Style> {
    var colors := Collect(key => QueryColor(q, key), SLOT_COUNT);
    var head, body := QueryFont(theme, q, HEAD_FONT), QueryFont(theme, q, BODY_FONT);
    if colors.None? || head.None? || body.None? then None
    else if PREVIEW_OWN in q && q[PREVIEW_OWN] != ["1"] then None
    else Some(Style(colors.value, head.value, body.value, PREVIEW_OWN in q))
  }

  method ReadQuery(theme: Theme, q: Values) returns (st: Option<Style>)
    ensures st == StyleFromQuery(theme, q)
  {
    ghost var choose := key => QueryColor(q, key);
    var colors: map<string, string> := map[];
    for i := 0 to SLOT_COUNT
      invariant Collect(choose, i) == Some(colors)
    {
      var key := SLOTS[i].key;
      var field := ColorField(key);
      if field !in q {
        continue;
      }
      if |q[field]| != 1 {
        CollectRejects(choose, i);
        return None;
      }
      var hex := ParseHex(q[field][0]);
      if hex.None? {
        CollectRejects(choose, i);
        return None;
      }
      colors := colors[key := hex.value];
    }
    var fields, fonts: seq<string> := [HEAD_FONT, BODY_FONT], ["", ""];
    for i := 0 to 2
      invariant |fonts| == 2
      invariant forall j | 0 <= j < i :: QueryFont(theme, q, fields[j]) == Some(fonts[j])
      invariant forall j | i <= j < 2 :: fonts[j] == ""
    {
      if fields[i] !in q {
        continue;
      }
      var vals := q[fields[i]];
      if |vals| != 1 || FontByKey(theme.fonts, vals[0]).None? {
        assert QueryFont(theme, q, fields[i]).None?;
        return None;
      }
      fonts := fonts[i := vals[0]];
    }
    var own := false;
    if PREVIEW_OWN in q {
      var vals := q[PREVIEW_OWN];
      if |vals| != 1 || vals[0] != "1" {
        return None;
      }
      assert vals == ["1"];
      own := true;
    }
    assert fields[0] == HEAD_FONT && fields[1] == BODY_FONT;
    return Some(Style(colors, fonts[0], fonts[1], own));
  }

  // ------------------------------------------------ the query carries the draft

  lemma {:induction false} PutColorsHas(st: Style, n: nat, field: string)
    requires n <= SLOT_COUNT
    ensures field in PutColors(st, n) <==>
              exists i :: 0 <= i < n && SLOTS[i].key in st.colors && ColorField(SLOTS[i].key) == field
    ensures field in PutColors(st, n) ==>
              && |field| >= 2 && field[0] == 'c' && field[2..] in st.colors
              && PutColors(st, n)[field] == [st.colors[field[2..]]]
    decreases n
  {
    if n > 0 {
      PutColorsHas(st, n - 1, field);
      var key := SLOTS[n - 1].key;
      assert ColorField(key)[2..] == key && ColorField(key)[0] == 'c';
    }
  }

  lemma QueryFields(st: Style, i: nat)
    requires i < SLOT_COUNT
    ensures
      var q, key := PreviewQuery(st), SLOTS[i].key;
      && (ColorField(key) in q <==> key in st.colors)
      && (key in st.colors ==> q[ColorField(key)] == [st.colors[key]])
      && (HEAD_FONT in q <==> st.headFont != "") && (st.headFont != "" ==> q[HEAD_FONT] == [st.headFont])
      && (BODY_FONT in q <==> st.bodyFont != "") && (st.bodyFont != "" ==> q[BODY_FONT] == [st.bodyFont])
      && (PREVIEW_OWN in q <==> st.ownMoodBox) && (st.ownMoodBox ==> q[PREVIEW_OWN] == ["1"])
  {
    var key := SLOTS[i].key;
    FieldsDiffer(key, key);
    PutColorsHas(st, SLOT_COUNT, HEAD_FONT);
    PutColorsHas(st, SLOT_COUNT, BODY_FONT);
    PutColorsHas(st, SLOT_COUNT, PREVIEW_OWN);
    PutColorsHas(st, SLOT_COUNT, ColorField(key));
    assert HEAD_FONT[0] == 'f' && BODY_FONT[0] == 'f' && PREVIEW_OWN[0] == 'o';
    assert ColorField(key)[2..] == key;
  }

  /** Main result: the preview's query reads back as the draft, exactly when the draft is well formed. */
  lemma QueryRoundTripIff(theme: Theme, st: Style)
    ensures StyleFromQuery(theme, PreviewQuery(st)) == Some(st) <==> WellFormed(theme, st)
  {
    var q := PreviewQuery(st);
    var choose := key => QueryColor(q, key);
    QueryFields(st, 0);
    if WellFormed(theme, st) {
      forall i | 0 <= i < SLOT_COUNT
        ensures choose(SLOTS[i].key) == if SLOTS[i].key in st.colors then Put(st.colors[SLOTS[i].key]) else Skip
      {
        QueryFields(st, i);
      }
      CollectIs(choose, st.colors);
    }
    if StyleFromQuery(theme, q) == Some(st) {
      QueryIsWellFormed(theme, q);
    }
  }

  /** Whatever a query says, a style that comes out of it is well formed. */
  lemma QueryIsWellFormed(theme: Theme, q: Values)
    requires StyleFromQuery(theme, q).Some?
    ensures WellFormed(theme, StyleFromQuery(theme, q).value)
  {
    var choose := key => QueryColor(q, key);
    var st := StyleFromQuery(theme, q).value;
    CollectMeans(choose, SLOT_COUNT);
    forall k <- st.colors ensures IsSlot(k) && Canonical(st.colors[k]) {
      assert Put(st.colors[k]) == choose(k);
      ParsedIsCanonical(q[ColorField(k)][0]);
    }
  }

  /** So is every draft the form yields; and no slot or font it keeps equals the default. */
  ghost predicate Normal(theme: Theme, st: Style, mood: string) {
    && WellFormed(theme, st)
    && (forall k <- st.colors :: st.colors[k] != Default(theme, k, mood))
    && st.headFont != DEFAULT_HEAD_FONT && st.bodyFont != DEFAULT_BODY_FONT
  }

  lemma FormColorIsNormal(theme: Theme, form: Values, mood: string, reset: string, key: string)
    requires FormColor(theme, form, mood, reset, key).Put?
    ensures Canonical(FormColor(theme, form, mood, reset, key).color)
    ensures FormColor(theme, form, mood, reset, key).color != Default(theme, key, mood)
  {
    ParsedIsCanonical(form[ColorField(key)][0]);
  }

  lemma FormFontIsNormal(theme: Theme, form: Values, field: string, default: string, reset: bool)
    requires ParseFont(theme, form, field, default, reset).Some? && default != ""
    ensures KnownFont(theme, ParseFont(theme, form, field, default, reset).value)
    ensures ParseFont(theme, form, field, default, reset).value != default
  {
  }

  lemma DraftIsNormal(theme: Theme, form: Values, mood: string, reset: string)
    requires ParseDraft(theme, form, mood, reset).Some?
    ensures Normal(theme, ParseDraft(theme, form, mood, reset).value, mood)
  {
    var choose := key => FormColor(theme, form, mood, reset, key);
    var st := ParseDraft(theme, form, mood, reset).value;
    FormFontIsNormal(theme, form, HEAD_FONT, DEFAULT_HEAD_FONT, reset == RESET_HEAD);
    FormFontIsNormal(theme, form, BODY_FONT, DEFAULT_BODY_FONT, reset == RESET_BODY);
    CollectMeans(choose, SLOT_COUNT);
    assert Collect(choose, SLOT_COUNT) == Some(st.colors);
    forall k <- st.colors ensures IsSlot(k) && Canonical(st.colors[k]) && st.colors[k] != Default(theme, k, mood) {
      assert Put(st.colors[k]) == choose(k) == FormColor(theme, form, mood, reset, k);
      FormColorIsNormal(theme, form, mood, reset, k);
    }
  }

  lemma DraftSurvivesQuery(theme: Theme, form: Values, mood: string, reset: string)
    requires ParseDraft(theme, form, mood, reset).Some?
    ensures
      var draft := ParseDraft(theme, form, mood, reset).value;
      StyleFromQuery(theme, PreviewQuery(draft)) == Some(draft)
  {
    DraftIsNormal(theme, form, mood, reset);
    QueryRoundTripIff(theme, ParseDraft(theme, form, mood, reset).value);
  }

  // ---------------------------------------------------- the preview bar's fields

  datatype Field = Field(name: string, value: string)

  function ColorFields(theme: Theme, st: Style, mood: string, n: nat): seq<Field>
    requires n <= SLOT_COUNT
  {
    if n == 0 then [] else
      var key := SLOTS[n - 1].key;
      var value := if key in st.colors then st.colors[key] else Default(theme, key, mood);
      ColorFields(theme, st, mood, n - 1) + [Field(ColorField(key), value)]
  }

  function FontOrDefault(key: string, default: string): string {
    if key == "" then default else key
  }

  function PreviewFields(theme: Theme, st: Style, mood: string): seq<Field> {
    ColorFields(theme, st, mood, SLOT_COUNT)
    + [Field(HEAD_FONT, FontOrDefault(st.headFont, DEFAULT_HEAD_FONT)),
       Field(BODY_FONT, FontOrDefault(st.bodyFont, DEFAULT_BODY_FONT))]
    + (if st.ownMoodBox then [] else [Field(OWN_MOOD_BOX, "no")])
  }

  method WritePreviewFields(theme: Theme, st: Style, mood: string) returns (fields: seq<Field>)
    ensures fields == PreviewFields(theme, st, mood)
  {
    fields := [];
    for i := 0 to SLOT_COUNT
      invariant fields == ColorFields(theme, st, mood, i)
    {
      var key := SLOTS[i].key;
      var v := if key in st.colors then st.colors[key] else Default(theme, key, mood);
      fields := fields + [Field(ColorField(key), v)];
    }
    fields := fields
    + [Field(HEAD_FONT, FontOrDefault(st.headFont, DEFAULT_HEAD_FONT)),
       Field(BODY_FONT, FontOrDefault(st.bodyFont, DEFAULT_BODY_FONT))];
    if !st.ownMoodBox {
      fields := fields + [Field(OWN_MOOD_BOX, "no")];
    }
  }

  /** What a browser posts: every field's values, in order. */
  function Posted(fields: seq<Field>): Values {
    if fields == [] then map[] else
      var before, last := Posted(fields[..|fields| - 1]), fields[|fields| - 1];
      before[last.name := (if last.name in before then before[last.name] else []) + [last.value]]
  }

  ghost predicate DistinctNames(fields: seq<Field>) {
    forall i, j | 0 <= i < j < |fields| :: fields[i].name != fields[j].name
  }

  lemma {:induction false} PostedOnce(fields: seq<Field>)
    requires DistinctNames(fields)
    ensures forall i | 0 <= i < |fields| ::
              fields[i].name in Posted(fields) && Posted(fields)[fields[i].name] == [fields[i].value]
    ensures forall name <- Posted(fields) :: exists i :: 0 <= i < |fields| && fields[i].name == name
    decreases |fields|
  {
    if fields != [] {
      var n := |fields| - 1;
      PostedOnce(fields[..n]);
      forall name <- Posted(fields) ensures exists i :: 0 <= i < |fields| && fields[i].name == name {
        if name != fields[n].name {
          var i :| 0 <= i < n && fields[..n][i].name == name;
          assert fields[i].name == name;
        }
      }
    }
  }

  lemma {:induction false} ColorFieldsAre(theme: Theme, st: Style, mood: string, n: nat)
    requires n <= SLOT_COUNT
    ensures |ColorFields(theme, st, mood, n)| == n
    ensures forall i | 0 <= i < n ::
              var key := SLOTS[i].key;
              ColorFields(theme, st, mood, n)[i]
              == Field(ColorField(key), if key in st.colors then st.colors[key] else Default(theme, key, mood))
    decreases n
  {
    if n > 0 {
      ColorFieldsAre(theme, st, mood, n - 1);
    }
  }

  lemma PreviewNamesDiffer(theme: Theme, st: Style, mood: string)
    ensures DistinctNames(PreviewFields(theme, st, mood))
  {
    var fields := PreviewFields(theme, st, mood);
    ColorFieldsAre(theme, st, mood, SLOT_COUNT);
    SlotKeysDiffer();
    forall i, j | 0 <= i < j < |fields| ensures fields[i].name != fields[j].name {
      if i < SLOT_COUNT {
        assert fields[i] == ColorFields(theme, st, mood, SLOT_COUNT)[i];
        FieldsDiffer(SLOTS[i].key, if j < SLOT_COUNT then SLOTS[j].key else "");
        if j < SLOT_COUNT {
          assert fields[j] == ColorFields(theme, st, mood, SLOT_COUNT)[j];
        }
      } else {
        FieldsDiffer("", "");
      }
    }
  }

  /** What the bar's fields post, field by field. */
  lemma PostedPreview(theme: Theme, st: Style, mood: string)
    ensures
      var form := Posted(PreviewFields(theme, st, mood));
      && (forall i | 0 <= i < SLOT_COUNT ::
            var key := SLOTS[i].key;
            && ColorField(key) in form
            && form[ColorField(key)] == [if key in st.colors then st.colors[key] else Default(theme, key, mood)])
      && HEAD_FONT in form && form[HEAD_FONT] == [FontOrDefault(st.headFont, DEFAULT_HEAD_FONT)]
      && BODY_FONT in form && form[BODY_FONT] == [FontOrDefault(st.bodyFont, DEFAULT_BODY_FONT)]
      && (OWN_MOOD_BOX in form <==> !st.ownMoodBox)
  {
    var fields := PreviewFields(theme, st, mood);
    PreviewNamesDiffer(theme, st, mood);
    PostedOnce(fields);
    ColorFieldsAre(theme, st, mood, SLOT_COUNT);
    forall i | 0 <= i < SLOT_COUNT ensures fields[i] == ColorFields(theme, st, mood, SLOT_COUNT)[i] {}
    assert fields[SLOT_COUNT].name == HEAD_FONT && fields[SLOT_COUNT + 1].name == BODY_FONT;
    if st.ownMoodBox {
      forall i | 0 <= i < |fields| ensures fields[i].name != OWN_MOOD_BOX {
        if i < SLOT_COUNT {
          FieldsDiffer(SLOTS[i].key, "");
        } else {
          FieldsDiffer("", "");
        }
      }
    } else {
      assert fields[SLOT_COUNT + 2].name == OWN_MOOD_BOX;
    }
  }

  /** The same style fields; a form may hold others besides, such as the button that sent it. */
  ghost predicate SameStyleFields(a: Values, b: Values) {
    && (forall i | 0 <= i < SLOT_COUNT :: SameField(a, b, ColorField(SLOTS[i].key)))
    && SameField(a, b, HEAD_FONT) && SameField(a, b, BODY_FONT) && SameField(a, b, OWN_MOOD_BOX)
  }

  ghost predicate SameField(a: Values, b: Values, field: string) {
    (field in a <==> field in b) && (field in a ==> a[field] == b[field])
  }

  /** A style without the slots and fonts that say what the default says anyway. */
  function NormalForm(theme: Theme, st: Style, mood: string): Style {
    st.(colors := map k | k in st.colors && st.colors[k] != Default(theme, k, mood) :: st.colors[k],
        headFont := if st.headFont == DEFAULT_HEAD_FONT then "" else st.headFont,
        bodyFont := if st.bodyFont == DEFAULT_BODY_FONT then "" else st.bodyFont)
  }

  /** An input that shows a colour is read as that colour, or as untouched if it is the default. */
  lemma ShownColor(theme: Theme, form: Values, mood: string, key: string, shown: string)
    requires key != "" && Canonical(shown) && ColorField(key) in form && form[ColorField(key)] == [shown]
    ensures FormColor(theme, form, mood, "", key) == if shown == Default(theme, key, mood) then Skip else Put(shown)
  {
  }

  /** The colour that the input of slot i shows. */
  function Shown(theme: Theme, st: Style, mood: string, i: nat): string
    requires i < SLOT_COUNT
  {
    var key := SLOTS[i].key;
    if key in st.colors then st.colors[key] else Default(theme, key, mood)
  }

  lemma ShownIsColor(theme: Theme, st: Style, mood: string, i: nat)
    requires theme.Valid() && mood in theme.moods && WellFormed(theme, st) && i < SLOT_COUNT
    ensures Canonical(Shown(theme, st, mood, i)) && SLOTS[i].key != ""
  {
    DefaultsAreColors(theme, i, mood);
  }

  lemma PostedShown(theme: Theme, st: Style, mood: string, form: Values, i: nat)
    requires i < SLOT_COUNT && SameStyleFields(form, Posted(PreviewFields(theme, st, mood)))
    ensures
      var field := ColorField(SLOTS[i].key);
      field in form && form[field] == [Shown(theme, st, mood, i)]
  {
    PostedPreview(theme, st, mood);
    assert SameField(form, Posted(PreviewFields(theme, st, mood)), ColorField(SLOTS[i].key));
  }

  lemma PostedColor(theme: Theme, st: Style, mood: string, form: Values, i: nat)
    requires theme.Valid() && mood in theme.moods && WellFormed(theme, st) && i < SLOT_COUNT
    requires SameStyleFields(form, Posted(PreviewFields(theme, st, mood)))
    ensures
      var key, colors := SLOTS[i].key, NormalForm(theme, st, mood).colors;
      FormColor(theme, form, mood, "", key) == if key in colors then Put(colors[key]) else Skip
  {
    ShownIsColor(theme, st, mood, i);
    PostedShown(theme, st, mood, form, i);
    ShownColor(theme, form, mood, SLOTS[i].key, Shown(theme, st, mood, i));
  }

  lemma PostedFont(theme: Theme, form: Values, field: string, key: string, default: string)
    requires FontByKey(theme.fonts, default).Some? && KnownFont(theme, key)
    requires field in form && form[field] == [FontOrDefault(key, default)]
    ensures ParseFont(theme, form, field, default, false) == Some(if key == default then "" else key)
  {
  }

  /** Main result: the preview bar carries the whole draft; posting it back gives the style's normal form. */
  lemma PreviewBarCarriesDraft(theme: Theme, st: Style, mood: string, form: Values)
    requires theme.Valid() && mood in theme.moods && WellFormed(theme, st)
    requires SameStyleFields(form, Posted(PreviewFields(theme, st, mood)))
    ensures ParseDraft(theme, form, mood, "") == Some(NormalForm(theme, st, mood))
  {
    var colors := NormalForm(theme, st, mood).colors;
    var choose := key => FormColor(theme, form, mood, "", key);
    forall i | 0 <= i < SLOT_COUNT
      ensures choose(SLOTS[i].key) == if SLOTS[i].key in colors then Put(colors[SLOTS[i].key]) else Skip
    {
      PostedColor(theme, st, mood, form, i);
    }
    CollectIs(choose, colors);
    PostedPreview(theme, st, mood);
    PostedFont(theme, form, HEAD_FONT, st.headFont, DEFAULT_HEAD_FONT);
    PostedFont(theme, form, BODY_FONT, st.bodyFont, DEFAULT_BODY_FONT);
  }

  /** A form left as it is shown is accepted, and says that nothing is customised. */
  lemma UntouchedFormIsDefault(theme: Theme, mood: string)
    requires theme.Valid() && mood in theme.moods
    ensures ParseDraft(theme, Posted(PreviewFields(theme, ZERO, mood)), mood, "") == Some(ZERO)
  {
    PreviewBarCarriesDraft(theme, ZERO, mood, Posted(PreviewFields(theme, ZERO, mood)));
    assert NormalForm(theme, ZERO, mood).colors == map[];
  }

  lemma NormalFormIsNormal(theme: Theme, st: Style, mood: string)
    requires WellFormed(theme, st)
    ensures Normal(theme, NormalForm(theme, st, mood), mood)
    ensures NormalForm(theme, st, mood) == st <==> Normal(theme, st, mood)
    ensures NormalForm(theme, NormalForm(theme, st, mood), mood) == NormalForm(theme, st, mood)
  {
    var n := NormalForm(theme, st, mood);
    assert NormalForm(theme, n, mood).colors == n.colors;
    if Normal(theme, st, mood) {
      assert n.colors == st.colors;
    }
  }

  /** In particular a draft the form accepted, whatever was reset, comes back exactly as it was. */
  lemma AcceptedDraftComesBack(theme: Theme, form: Values, mood: string, reset: string, posted: Values)
    requires theme.Valid() && mood in theme.moods && ParseDraft(theme, form, mood, reset).Some?
    requires SameStyleFields(posted, Posted(PreviewFields(theme, ParseDraft(theme, form, mood, reset).value, mood)))
    ensures ParseDraft(theme, posted, mood, "") == ParseDraft(theme, form, mood, reset)
  {
    var draft := ParseDraft(theme, form, mood, reset).value;
    DraftIsNormal(theme, form, mood, reset);
    PreviewBarCarriesDraft(theme, draft, mood, posted);
    NormalFormIsNormal(theme, draft, mood);
  }
}
