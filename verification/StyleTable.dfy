/** The stored styles: one row per account, and only when something is customised. */
module StyleTable {
  import opened Common
  import opened Hex
  import opened StyleModel

  type Id = nat

  /** A NULL column is a slot left at its default. */
  datatype Row = Row(
    bg: Option<string>, sheet: Option<string>, textColor: Option<string>, link: Option<string>,
    name: Option<string>, barBg: Option<string>, barFg: Option<string>,
    fontHead: Option<string>, fontBody: Option<string>, ownMoodBox: bool, updatedAt: int)

  /** The column of a slot; None for a key that is not a slot. */
  function Column(row: Row, key: string): Option<Option<string>> {
    if key == "bg" then Some(row.bg)
    else if key == "sheet" then Some(row.sheet)
    else if key == "text" then Some(row.textColor)
    else if key == "link" then Some(row.link)
    else if key == "name" then Some(row.name)
    else if key == "barbg" then Some(row.barBg)
    else if key == "barfg" then Some(row.barFg)
    else None
  }

  function WithColumn(row: Row, key: string, color: string): Row {
    var c := Some(color);
    if key == "bg" then row.(bg := c)
    else if key == "sheet" then row.(sheet := c)
    else if key == "text" then row.(textColor := c)
    else if key == "link" then row.(link := c)
    else if key == "name" then row.(name := c)
    else if key == "barbg" then row.(barBg := c)
    else if key == "barfg" then row.(barFg := c)
    else row
  }

  lemma ColumnsAreSlots(row: Row, key: string)
    ensures Column(row, key).Some? <==> IsSlot(key)
  {
    if IsSlot(key) {
      var i :| 0 <= i < SLOT_COUNT && SLOTS[i].key == key;
      assert key == "bg" || key == "sheet" || key == "text" || key == "link"
          || key == "name" || key == "barbg" || key == "barfg";
    } else {
      assert key != SLOTS[0].key && key != SLOTS[1].key && key != SLOTS[2].key && key != SLOTS[3].key;
      assert key != SLOTS[4].key && key != SLOTS[5].key && key != SLOTS[6].key;
    }
  }

  /** The mapping of slots to columns mixes nothing up: writing a slot changes that slot alone. */
  lemma ColumnsAreSeparate(row: Row, key: string, color: string, other: string)
    requires IsSlot(key)
    ensures Column(WithColumn(row, key, color), other) == if other == key then Some(Some(color)) else Column(row, other)
    ensures WithColumn(row, key, color).(bg := row.bg, sheet := row.sheet, textColor := row.textColor, link := row.link,
                                         name := row.name, barBg := row.barBg, barFg := row.barFg) == row
  {
    ColumnsAreSlots(row, key);
  }

  // ------------------------------------------------------------- what is stored

  function StoredColor(row: Row, key: string): Choice {
    match Column(row, key)
    case None => Skip
    case Some(None) => Skip
    case Some(Some(c)) =>
      match ParseHex(c)
      case None => Skip
      case Some(hex) => Put(hex)
  }

  /** A font that has left the registry reads as the default. */
  function StoredFont(theme: Theme, stored: Option<string>): string {
    if stored.Some? && FontByKey(theme.fonts, stored.value).Some? then stored.value else ""
  }

  function ReadRow(theme: Theme, row: Row): Style {
    var colors := Collect(key => StoredColor(row, key), SLOT_COUNT);
    Style(if colors.Some? then colors.value else map[],
          StoredFont(theme, row.fontHead), StoredFont(theme, row.fontBody), row.ownMoodBox)
  }

  /** What SetStyle accepts: slots only, colours in either case, known fonts. */
  predicate Acceptable(theme: Theme, st: Style) {
    && (forall k <- st.colors :: IsSlot(k) && ParseHex(st.colors[k]).Some?)
    && KnownFont(theme, st.headFont) && KnownFont(theme, st.bodyFont)
  }

  /** The same style with its colours as this program formats them. */
  function Formatted(st: Style): Style
    requires forall k <- st.colors :: ParseHex(st.colors[k]).Some?
  {
    st.(colors := map k | k in st.colors :: ParseHex(st.colors[k]).value)
  }

  lemma DefaultIsZero(st: Style)
    requires st.IsDefault()
    ensures Formatted(st) == ZERO
  {
    assert Formatted(st).colors == map[];
  }

  /** r holds exactly the style: a column per customised slot, fonts, the box and the time. */
  ghost predicate Holds(r: Row, colors: map<string, string>, st: Style, now: int) {
    && (forall k <- colors :: IsSlot(k) && ParseHex(colors[k]).Some?)
    && (forall k | IsSlot(k) :: Column(r, k) == Some(if k in colors then ParseHex(colors[k]) else None))
    && r.fontHead == (if st.headFont == "" then None else Some(st.headFont))
    && r.fontBody == (if st.bodyFont == "" then None else Some(st.bodyFont))
    && r.ownMoodBox == st.ownMoodBox && r.updatedAt == now
  }

  /** So there is exactly one row that holds a style. */
  lemma HeldRowIsUnique(a: Row, b: Row, colors: map<string, string>, st: Style, now: int)
    requires Holds(a, colors, st, now) && Holds(b, colors, st, now)
    ensures a == b
  {
    forall i | 0 <= i < SLOT_COUNT ensures Column(a, SLOTS[i].key) == Column(b, SLOTS[i].key) {
      assert IsSlot(SLOTS[i].key);
    }
    SlotKeysDiffer();
    assert Column(a, SLOTS[0].key) == Column(b, SLOTS[0].key) && Column(a, SLOTS[1].key) == Column(b, SLOTS[1].key);
    assert Column(a, SLOTS[2].key) == Column(b, SLOTS[2].key) && Column(a, SLOTS[3].key) == Column(b, SLOTS[3].key);
    assert Column(a, SLOTS[4].key) == Column(b, SLOTS[4].key) && Column(a, SLOTS[5].key) == Column(b, SLOTS[5].key);
    assert Column(a, SLOTS[6].key) == Column(b, SLOTS[6].key);
  }

  function ColorOf(colors: map<string, string>, key: string): Option<string> {
    if key in colors then ParseHex(colors[key]) else None
  }

  /** The columns by name. */
  lemma HeldColumns(r: Row, colors: map<string, string>, st: Style, now: int)
    requires Holds(r, colors, st, now)
    ensures r.bg == ColorOf(colors, "bg") && r.sheet == ColorOf(colors, "sheet")
    ensures r.textColor == ColorOf(colors, "text") && r.link == ColorOf(colors, "link")
    ensures r.name == ColorOf(colors, "name")
    ensures r.barBg == ColorOf(colors, "barbg") && r.barFg == ColorOf(colors, "barfg")
  {
    assert SLOTS[0].key == "bg" && SLOTS[1].key == "sheet" && SLOTS[2].key == "text" && SLOTS[3].key == "link";
    assert SLOTS[4].key == "name" && SLOTS[5].key == "barbg" && SLOTS[6].key == "barfg";
    forall i | 0 <= i < SLOT_COUNT ensures Column(r, SLOTS[i].key) == Some(ColorOf(colors, SLOTS[i].key)) {
      assert IsSlot(SLOTS[i].key);
    }
    assert Column(r, SLOTS[0].key).Some? && Column(r, SLOTS[1].key).Some? && Column(r, SLOTS[2].key).Some?;
    assert Column(r, SLOTS[3].key).Some? && Column(r, SLOTS[4].key).Some? && Column(r, SLOTS[5].key).Some?;
    assert Column(r, SLOTS[6].key).Some?;
    SlotKeysDiffer();
  }

  datatype SetResult = Stored | InvalidStyle | NoAccount

  class Table {
    const theme: Theme
    var rows: map<Id, Row>
    var accounts: set<Id>

    constructor (theme: Theme)
      ensures this.theme == theme && rows == map[] && accounts == {}
    {
      this.theme, rows, accounts := theme, map[], {};
    }

    ghost function Read(id: Id): Style
      reads this
    {
      if id in rows then ReadRow(theme, rows[id]) else ZERO
    }

    /** Fills the colour columns, in whatever order the map yields its entries. */
    method FillColors(st: Style, blank: Row) returns (ok: bool, row: Row)
      requires forall k | IsSlot(k) :: Column(blank, k) == Some(None)
      ensures ok <==> forall k <- st.colors :: IsSlot(k) && ParseHex(st.colors[k]).Some?
      ensures ok ==> forall k | IsSlot(k) ::
                       Column(row, k) == Some(if k in st.colors then ParseHex(st.colors[k]) else None)
      ensures row.fontHead == blank.fontHead && row.fontBody == blank.fontBody
      ensures row.ownMoodBox == blank.ownMoodBox && row.updatedAt == blank.updatedAt
    {
      row := blank;
      var pending, done := st.colors.Keys, {};
      while pending != {}
        invariant pending + done == st.colors.Keys && pending !! done
        invariant forall k <- done :: IsSlot(k) && ParseHex(st.colors[k]).Some?
        invariant forall k | IsSlot(k) :: Column(row, k) == Some(if k in done then ParseHex(st.colors[k]) else None)
        invariant row.fontHead == blank.fontHead && row.fontBody == blank.fontBody
        invariant row.ownMoodBox == blank.ownMoodBox && row.updatedAt == blank.updatedAt
        decreases pending
      {
        var key :| key in pending;
        var parsed := ParseHex(st.colors[key]);
        ColumnsAreSlots(row, key);
        if Column(row, key).None? || parsed.None? {
          return false, row;
        }
        forall k ensures Column(WithColumn(row, key, parsed.value), k)
                      == if k == key then Some(Some(parsed.value)) else Column(row, k) {
          ColumnsAreSeparate(row, key, parsed.value, k);
        }
        row := WithColumn(row, key, parsed.value);
        pending, done := pending - {key}, done + {key};
      }
      return true, row;
    }

    /** Fills the font columns; a font left at its default stays NULL. */
    method FillFonts(st: Style, before: Row) returns (ok: bool, row: Row)
      requires before.fontHead.None? && before.fontBody.None?
      ensures ok <==> KnownFont(theme, st.headFont) && KnownFont(theme, st.bodyFont)
      ensures ok ==> row == before.(fontHead := if st.headFont == "" then None else Some(st.headFont),
                                    fontBody := if st.bodyFont == "" then None else Some(st.bodyFont))
    {
      row := before;
      if st.headFont != "" {
        if FontByKey(theme.fonts, st.headFont).None? {
          return false, row;
        }
        row := row.(fontHead := Some(st.headFont));
      }
      if st.bodyFont != "" {
        if FontByKey(theme.fonts, st.bodyFont).None? {
          return false, row;
        }
        row := row.(fontBody := Some(st.bodyFont));
      }
      return true, row;
    }

    /**
     Stores the style, or deletes the row when nothing is customised. An invalid style
     changes nothing; neither does a style for an account that is gone.
     */
    method SetStyle(id: Id, st: Style, now: int) returns (r: SetResult)
      modifies this`rows
      ensures r.InvalidStyle? <==> !Acceptable(theme, st)
      ensures r.NoAccount? <==> Acceptable(theme, st) && !st.IsDefault() && id !in accounts
      ensures !r.Stored? ==> rows == old(rows)
      ensures r.Stored? ==> rows - {id} == old(rows) - {id}
      ensures r.Stored? ==> (id in rows <==> !st.IsDefault())
      ensures r.Stored? && id in rows ==> Holds(rows[id], st.colors, st, now)
      ensures r.Stored? ==> Read(id) == Formatted(st)
    {
      var blank := Row(None, None, None, None, None, None, None, None, None, st.ownMoodBox, now);
      forall k | IsSlot(k) ensures Column(blank, k) == Some(None) {
        ColumnsAreSlots(blank, k);
      }
      var ok, row := FillColors(st, blank);
      if !ok {
        return InvalidStyle;
      }
      ok, row := FillFonts(st, row);
      if !ok {
        return InvalidStyle;
      }
      if st.IsDefault() {
        DefaultIsZero(st);
        rows := rows - {id};
        return Stored;
      }
      if id !in accounts {
        return NoAccount;  // the row's foreign key
      }
      RowReadsBack(theme, row, st, now);
      rows := rows[id := row];
      return Stored;
    }

    /** An account with no row has the zero style. */
    method GetStyle(id: Id) returns (st: Style)
      ensures st == Read(id)
    {
      if id !in rows {
        return ZERO;
      }
      var row := rows[id];
      ghost var choose := key => StoredColor(row, key);
      var colors: map<string, string> := map[];
      for i := 0 to SLOT_COUNT
        invariant Collect(choose, i) == Some(colors)
      {
        var col := Column(row, SLOTS[i].key);
        if col.None? || col.value.None? {
          continue;
        }
        var hex := ParseHex(col.value.value);
        if hex.None? {
          continue;
        }
        colors := colors[SLOTS[i].key := hex.value];
      }
      return Style(colors, StoredFont(theme, row.fontHead), StoredFont(theme, row.fontBody), row.ownMoodBox);
    }
  }

  /** Publishing a style and reading it back gives the style, with its colours lower-cased. */
  lemma RowReadsBack(theme: Theme, row: Row, st: Style, now: int)
    requires Acceptable(theme, st) && Holds(row, st.colors, st, now)
    ensures ReadRow(theme, row) == Formatted(st)
  {
    var choose := key => StoredColor(row, key);
    var colors := Formatted(st).colors;
    forall i | 0 <= i < SLOT_COUNT
      ensures choose(SLOTS[i].key) == if SLOTS[i].key in colors then Put(colors[SLOTS[i].key]) else Skip
    {
      var key := SLOTS[i].key;
      assert IsSlot(key);
      if key in st.colors {
        ParseHexLowers(st.colors[key]);
      }
    }
    CollectIs(choose, colors);
  }

  /** Whatever a row holds, what it reads as: its valid colours, and its fonts as long as the registry has them. */
  lemma RowSays(theme: Theme, row: Row, slot: string)
    requires IsSlot(slot)
    ensures Column(row, slot).Some?
    ensures
      var st, column := ReadRow(theme, row), Column(row, slot).value;
      && (slot in st.colors <==> column.Some? && ParseHex(column.value).Some?)
      && (slot in st.colors ==> ParseHex(column.value) == Some(st.colors[slot]))
      && (if exists f <- theme.fonts :: row.fontHead == Some(f.key) then row.fontHead == Some(st.headFont)
          else st.headFont == "")
      && (if exists f <- theme.fonts :: row.fontBody == Some(f.key) then row.fontBody == Some(st.bodyFont)
          else st.bodyFont == "")
      && st.ownMoodBox == row.ownMoodBox
  {
    var choose := key => StoredColor(row, key);
    CollectMeans(choose, SLOT_COUNT);
    ColumnsAreSlots(row, slot);
    assert choose(slot) == StoredColor(row, slot);
    assert SlotBefore(slot, SLOT_COUNT);
  }

  /** A style whose colours are already formatted is read back unchanged. */
  lemma WellFormedSurvives(theme: Theme, st: Style)
    requires WellFormed(theme, st)
    ensures Acceptable(theme, st) && Formatted(st) == st
  {
    assert Formatted(st).colors == st.colors;
  }
}
