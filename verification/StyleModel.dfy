/** Page styles: the colour slots, the font registry, and what an owner chooses. */
module StyleModel {
  import opened Common
  import opened Hex

  /** One colour an owner can set. */
  datatype Slot = Slot(key: string, property: string)

  const SLOT_COUNT := 7

  const SLOTS: seq<Slot> := [
    Slot("bg", "--s-bg"),
    Slot("sheet", "--s-sheet"),
    Slot("text", "--s-text"),
    Slot("link", "--s-link"),
    Slot("name", "--s-name"),
    Slot("barbg", "--s-bar-bg"),
    Slot("barfg", "--s-bar-fg")]

  datatype Font = Font(key: string, stack: string)

  /** A mood's tint pair. */
  datatype Tint = Tint(bg: string, fg: string)

  const PAPER := "#fefdfa"
  const INK := "#292620"
  const DEFAULT_HEAD_FONT := "trebuchet"
  const DEFAULT_BODY_FONT := "verdana"

  /** The tables the program ships: its fonts and its moods' colours. */
  datatype Theme = Theme(fonts: seq<Font>, moods: map<string, Tint>) {
    ghost predicate Valid() {
      && (forall i, j | 0 <= i < j < |fonts| :: fonts[i].key != fonts[j].key && fonts[i].stack != fonts[j].stack)
      && (forall i | 0 <= i < |fonts| :: fonts[i].key != "" && '\n' !in fonts[i].stack)
      && FontByKey(fonts, DEFAULT_HEAD_FONT).Some? && FontByKey(fonts, DEFAULT_BODY_FONT).Some?
      && (forall m <- moods :: Canonical(moods[m].bg) && Canonical(moods[m].fg))
    }
  }

  function FontByKey(fonts: seq<Font>, key: string): (f: Option<Font>)
    ensures f.Some? ==> f.value in fonts && f.value.key == key
    ensures f.None? ==> forall g <- fonts :: g.key != key
  {
    if fonts == [] then None
    else if fonts[0].key == key then Some(fonts[0])
    else FontByKey(fonts[1..], key)
  }

  predicate IsSlot(key: string) {
    exists i :: 0 <= i < SLOT_COUNT && SLOTS[i].key == key
  }

  /** The colour a slot has when the owner has not set it; "" for an unknown slot or mood. */
  function Default(theme: Theme, slot: string, mood: string): string {
    if mood !in theme.moods then ""
    else if slot == "bg" then theme.moods[mood].bg
    else if slot == "sheet" || slot == "barfg" then PAPER
    else if slot == "text" then INK
    else if slot == "link" || slot == "name" || slot == "barbg" then theme.moods[mood].fg
    else ""
  }

  lemma PaperIsAColor()
    ensures Canonical(PAPER)
  {
    CanonicalIffLower(PAPER);
  }

  lemma InkIsAColor()
    ensures Canonical(INK)
  {
    CanonicalIffLower(INK);
  }

  lemma DefaultIsOneOfFour(theme: Theme, i: nat, mood: string)
    requires i < SLOT_COUNT && mood in theme.moods
    ensures Default(theme, SLOTS[i].key, mood) in [theme.moods[mood].bg, theme.moods[mood].fg, PAPER, INK]
  {
    var key := SLOTS[i].key;
    assert key == "bg" || key == "sheet" || key == "barfg" || key == "text"
        || key == "link" || key == "name" || key == "barbg";
  }

  /** Every slot has a well-formed default under every known mood. */
  lemma DefaultsAreColors(theme: Theme, i: nat, mood: string)
    requires theme.Valid() && i < SLOT_COUNT && mood in theme.moods
    ensures Canonical(Default(theme, SLOTS[i].key, mood))
  {
    PaperIsAColor();
    InkIsAColor();
    DefaultIsOneOfFour(theme, i, mood);
  }

  lemma SlotKeysDiffer()
    ensures forall i, j | 0 <= i < j < SLOT_COUNT :: SLOTS[i].key != SLOTS[j].key
  {
    assert "sheet"[0] != "barbg"[0] && "sheet"[0] != "barfg"[0] && "barbg"[3] != "barfg"[3];
    assert "text"[0] != "link"[0] && "text"[0] != "name"[0] && "link"[0] != "name"[0];
  }

  /** The least a theme needs: the two default fonts, and a mood. */
  lemma MinimalThemeIsValid(head: string, body: string, mood: string)
    requires head != body && '\n' !in head && '\n' !in body
    ensures Theme([Font(DEFAULT_HEAD_FONT, head), Font(DEFAULT_BODY_FONT, body)], map[mood := Tint(PAPER, INK)]).Valid()
  {
    var fonts := [Font(DEFAULT_HEAD_FONT, head), Font(DEFAULT_BODY_FONT, body)];
    assert |DEFAULT_HEAD_FONT| == 9 && |DEFAULT_BODY_FONT| == 7;
    assert fonts[1..][0] == fonts[1];
    PaperIsAColor();
    InkIsAColor();
  }

  // ------------------------------------------------------------------- styles

  /** Customised slots only; "" is the default font. The time of the last publish is not a choice and is left out. */
  datatype Style = Style(colors: map<string, string>, headFont: string, bodyFont: string, ownMoodBox: bool) {
    predicate IsDefault() {
      colors == map[] && headFont == "" && bodyFont == "" && !ownMoodBox
    }
  }

  const ZERO := Style(map[], "", "", false)

  predicate KnownFont(theme: Theme, key: string) {
    key == "" || FontByKey(theme.fonts, key).Some?
  }

  /** Only slots, only colours as this program formats them, only fonts of the registry. */
  ghost predicate WellFormed(theme: Theme, st: Style) {
    && (forall k <- st.colors :: IsSlot(k) && Canonical(st.colors[k]))
    && KnownFont(theme, st.headFont) && KnownFont(theme, st.bodyFont)
  }

  // ------------------------------------------- filling the colour map slot by slot

  /** What a source of colours says about one slot. */
  datatype Choice = Skip | Reject | Put(color: string)

  /** Go through the first n slots in order, giving up at the first rejected one. */
  function Collect(choose: string -> Choice, n: nat): Option<map<string, string>>
    requires n <= SLOT_COUNT
  {
    if n == 0 then Some(map[]) else
      var before := Collect(choose, n - 1);
      var key := SLOTS[n - 1].key;
      if before.None? then None else
        match choose(key)
        case Skip => before
        case Reject => None
        case Put(color) => Some(before.value[key := color])
  }

  /** Some slot among the first n has this key. */
  predicate SlotBefore(key: string, n: nat) {
    exists i :: 0 <= i < n <= SLOT_COUNT && SLOTS[i].key == key
  }

  lemma {:induction false} CollectMeans(choose: string -> Choice, n: nat)
    requires n <= SLOT_COUNT
    ensures Collect(choose, n).None? <==> exists i :: 0 <= i < n && choose(SLOTS[i].key).Reject?
    ensures Collect(choose, n).Some? ==>
              forall k :: k in Collect(choose, n).value <==> SlotBefore(k, n) && choose(k).Put?
    ensures Collect(choose, n).Some? ==>
              forall k <- Collect(choose, n).value :: Put(Collect(choose, n).value[k]) == choose(k)
    decreases n
  {
    if n > 0 {
      CollectMeans(choose, n - 1);
      var key := SLOTS[n - 1].key;
      forall k ensures SlotBefore(k, n) <==> SlotBefore(k, n - 1) || k == key {
        if SlotBefore(k, n) {
          var i :| 0 <= i < n && SLOTS[i].key == k;
          assert i < n - 1 || i == n - 1;
        }
      }
    }
  }

  /** A source that says exactly what a map of slots holds is collected into that map. */
  lemma CollectIs(choose: string -> Choice, colors: map<string, string>)
    requires forall k <- colors :: IsSlot(k)
    requires forall i | 0 <= i < SLOT_COUNT ::
               choose(SLOTS[i].key) == if SLOTS[i].key in colors then Put(colors[SLOTS[i].key]) else Skip
    ensures Collect(choose, SLOT_COUNT) == Some(colors)
  {
    CollectMeans(choose, SLOT_COUNT);
    assert forall i | 0 <= i < SLOT_COUNT :: !choose(SLOTS[i].key).Reject?;
    var m := Collect(choose, SLOT_COUNT).value;
    forall k ensures k in m <==> k in colors {
      if IsSlot(k) {
        var i :| 0 <= i < SLOT_COUNT && SLOTS[i].key == k;
        assert SlotBefore(k, SLOT_COUNT);
      }
    }
    assert m.Keys == colors.Keys;
    forall k <- colors ensures m[k] == colors[k] {
      var i :| 0 <= i < SLOT_COUNT && SLOTS[i].key == k;
      assert choose(k) == Put(colors[k]);
    }
    assert m == colors;
  }
}
