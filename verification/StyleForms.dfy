/**
 What the style editor's form, its preview's query and its preview bar say, field by
 field and by the fields' names.
 */
module StyleForms {
  import opened Common
  import opened Hex
  import opened StyleModel
  import opened StyleEditor

  /** The field was sent once, with this value. */
  predicate Sent(form: Values, field: string, value: string) {
    field in form && form[field] == [value]
  }

  /** The slot's colour input was sent once, and holds this colour. */
  predicate SentColor(form: Values, slot: string, hex: string) {
    "c_" + slot in form && |form["c_" + slot]| == 1 && ParseHex(form["c_" + slot][0]) == Some(hex)
  }

  predicate SentFont(theme: Theme, form: Values, field: string) {
    exists f <- theme.fonts :: Sent(form, field, f.key)
  }

  lemma FormColorSays(theme: Theme, form: Values, mood: string, reset: string, slot: string)
    ensures
      var choice := FormColor(theme, form, mood, reset, slot);
      && (choice.Reject? <==> slot != reset && forall hex :: !SentColor(form, slot, hex))
      && (choice.Put? ==> slot != reset && SentColor(form, slot, choice.color)
                          && choice.color != Default(theme, slot, mood))
      && (choice.Skip? ==> slot == reset || SentColor(form, slot, Default(theme, slot, mood)))
  {
    var field := ColorField(slot);
    assert field == "c_" + slot;
    if slot != reset && field in form && |form[field]| == 1 && ParseHex(form[field][0]).Some? {
      assert SentColor(form, slot, ParseHex(form[field][0]).value);
    }
  }

  lemma ParseFontSays(theme: Theme, form: Values, field: string, default: string, reset: bool)
    ensures
      var font := ParseFont(theme, form, field, default, reset);
      && (font.Some? <==> reset || SentFont(theme, form, field))
      && (font.Some? ==>
            if reset || Sent(form, field, default) then font.value == "" else Sent(form, field, font.value))
  {
    if field in form && |form[field]| == 1 {
      assert form[field] == [form[field][0]];
      assert forall f <- theme.fonts :: Sent(form, field, f.key) <==> f.key == form[field][0];
    }
  }

  /** Main result: exactly which forms are accepted: each input once, a colour or a known font, unless reset. */
  lemma DraftAcceptedIff(theme: Theme, form: Values, mood: string, reset: string)
    ensures ParseDraft(theme, form, mood, reset).Some? <==>
              && (forall i | 0 <= i < SLOT_COUNT ::
                    SLOTS[i].key == reset || exists hex :: SentColor(form, SLOTS[i].key, hex))
              && (reset == "head" || SentFont(theme, form, "f_head"))
              && (reset == "body" || SentFont(theme, form, "f_body"))
  {
    var choose := key => FormColor(theme, form, mood, reset, key);
    CollectMeans(choose, SLOT_COUNT);
    forall i | 0 <= i < SLOT_COUNT
      ensures choose(SLOTS[i].key).Reject? <==>
                !(SLOTS[i].key == reset || exists hex :: SentColor(form, SLOTS[i].key, hex))
    {
      FormColorSays(theme, form, mood, reset, SLOTS[i].key);
    }
    ParseFontSays(theme, form, "f_head", DEFAULT_HEAD_FONT, reset == "head");
    ParseFontSays(theme, form, "f_body", DEFAULT_BODY_FONT, reset == "body");
  }

  /** Main result: what an accepted draft holds; what was reset, or sent as its default, is default. */
  lemma DraftSays(theme: Theme, form: Values, mood: string, reset: string, slot: string)
    requires ParseDraft(theme, form, mood, reset).Some?
    ensures
      var draft := ParseDraft(theme, form, mood, reset).value;
      && (slot in draft.colors <==> IsSlot(slot) && slot != reset && !SentColor(form, slot, Default(theme, slot, mood)))
      && (slot in draft.colors ==> SentColor(form, slot, draft.colors[slot]))
      && (if reset == "head" || Sent(form, "f_head", "trebuchet") then draft.headFont == ""
          else Sent(form, "f_head", draft.headFont))
      && (if reset == "body" || Sent(form, "f_body", "verdana") then draft.bodyFont == ""
          else Sent(form, "f_body", draft.bodyFont))
      && (draft.ownMoodBox <==> "own_mood_box" !in form)
  {
    var choose := key => FormColor(theme, form, mood, reset, key);
    var draft := ParseDraft(theme, form, mood, reset).value;
    CollectMeans(choose, SLOT_COUNT);
    FormColorSays(theme, form, mood, reset, slot);
    assert choose(slot) == FormColor(theme, form, mood, reset, slot);
    SlotIsBeforeEnd(slot);
    ParseFontSays(theme, form, "f_head", DEFAULT_HEAD_FONT, reset == "head");
    ParseFontSays(theme, form, "f_body", DEFAULT_BODY_FONT, reset == "body");
  }

  lemma SlotIsBeforeEnd(slot: string)
    ensures SlotBefore(slot, SLOT_COUNT) <==> IsSlot(slot)
  {
  }

  // ------------------------------------------------------------------- the query

  lemma QueryColorSays(q: Values, slot: string)
    ensures
      var choice := QueryColor(q, slot);
      && (choice.Skip? <==> "c_" + slot !in q)
      && (choice.Reject? <==> "c_" + slot in q && forall hex :: !SentColor(q, slot, hex))
      && (choice.Put? ==> SentColor(q, slot, choice.color))
  {
    var field := ColorField(slot);
    assert field == "c_" + slot;
    if field in q && |q[field]| == 1 && ParseHex(q[field][0]).Some? {
      assert SentColor(q, slot, ParseHex(q[field][0]).value);
    }
  }

  lemma QueryFontSays(theme: Theme, q: Values, field: string)
    ensures
      var font := QueryFont(theme, q, field);
      && (font.Some? <==> (field in q ==> SentFont(theme, q, field)))
      && (font.Some? ==> if field in q then Sent(q, field, font.value) else font.value == "")
  {
    if field in q && |q[field]| == 1 {
      assert q[field] == [q[field][0]];
      assert forall f <- theme.fonts :: Sent(q, field, f.key) <==> f.key == q[field][0];
    }
  }

  /** Exactly which queries are read as a style: what is there must be there once and be valid. */
  lemma QueryAcceptedIff(theme: Theme, q: Values)
    ensures StyleFromQuery(theme, q).Some? <==>
              && (forall i | 0 <= i < SLOT_COUNT ::
                    "c_" + SLOTS[i].key in q ==> exists hex :: SentColor(q, SLOTS[i].key, hex))
              && ("f_head" in q ==> SentFont(theme, q, "f_head"))
              && ("f_body" in q ==> SentFont(theme, q, "f_body"))
              && ("own" in q ==> Sent(q, "own", "1"))
  {
    var choose := key => QueryColor(q, key);
    CollectMeans(choose, SLOT_COUNT);
    forall i | 0 <= i < SLOT_COUNT
      ensures choose(SLOTS[i].key).Reject? <==>
                !("c_" + SLOTS[i].key in q ==> exists hex :: SentColor(q, SLOTS[i].key, hex))
    {
      QueryColorSays(q, SLOTS[i].key);
    }
    QueryFontSays(theme, q, "f_head");
    QueryFontSays(theme, q, "f_body");
  }

  /** And what the style then holds. */
  lemma QuerySays(theme: Theme, q: Values, slot: string)
    requires StyleFromQuery(theme, q).Some?
    ensures
      var st := StyleFromQuery(theme, q).value;
      && (slot in st.colors <==> IsSlot(slot) && "c_" + slot in q)
      && (slot in st.colors ==> SentColor(q, slot, st.colors[slot]))
      && (if "f_head" in q then Sent(q, "f_head", st.headFont) else st.headFont == "")
      && (if "f_body" in q then Sent(q, "f_body", st.bodyFont) else st.bodyFont == "")
      && (st.ownMoodBox <==> "own" in q)
  {
    var choose := key => QueryColor(q, key);
    CollectMeans(choose, SLOT_COUNT);
    QueryColorSays(q, slot);
    assert choose(slot) == QueryColor(q, slot);
    SlotIsBeforeEnd(slot);
    if IsSlot(slot) {
      var i :| 0 <= i < SLOT_COUNT && SLOTS[i].key == slot;
      assert !choose(SLOTS[i].key).Reject?;
    }
    QueryFontSays(theme, q, "f_head");
    QueryFontSays(theme, q, "f_body");
  }

  /** What the preview is asked for: the customised slots and fonts, and nothing that is default. */
  lemma PreviewQuerySays(st: Style, slot: string)
    requires IsSlot(slot)
    ensures
      var q := PreviewQuery(st);
      && (if slot in st.colors then Sent(q, "c_" + slot, st.colors[slot]) else "c_" + slot !in q)
      && (if st.headFont != "" then Sent(q, "f_head", st.headFont) else "f_head" !in q)
      && (if st.bodyFont != "" then Sent(q, "f_body", st.bodyFont) else "f_body" !in q)
      && (if st.ownMoodBox then Sent(q, "own", "1") else "own" !in q)
  {
    var i :| 0 <= i < SLOT_COUNT && SLOTS[i].key == slot;
    QueryFields(st, i);
    assert ColorField(slot) == "c_" + slot;
  }

  /** What the bar posts: every slot and font once, with its default where the style says nothing. */
  lemma PreviewBarSays(theme: Theme, st: Style, mood: string, slot: string)
    requires IsSlot(slot)
    ensures
      var form := Posted(PreviewFields(theme, st, mood));
      && Sent(form, "c_" + slot, if slot in st.colors then st.colors[slot] else Default(theme, slot, mood))
      && Sent(form, "f_head", if st.headFont == "" then "trebuchet" else st.headFont)
      && Sent(form, "f_body", if st.bodyFont == "" then "verdana" else st.bodyFont)
      && ("own_mood_box" in form <==> !st.ownMoodBox)
  {
    PostedPreview(theme, st, mood);
    var i :| 0 <= i < SLOT_COUNT && SLOTS[i].key == slot;
    assert ColorField(SLOTS[i].key) == "c_" + slot;
  }
}
