/**
 * The layout `onConfigure` reads back, and the two saves that feed it.
 * `onSerialize` writes the kept widgets' values in widget order; the
 * parser reads groups of four after one leading value. A restored node
 * lays its widgets out in that shape, but a freshly created node (whose
 * entry 1 comes from the backend's declared inputs, category first) does
 * not, and its first entry is read back with its fields shifted. The
 * corrected save below writes, per entry, the values the parser expects,
 * whatever order the widgets are in.
 */
module EntrySave {
  import opened Optional
  import opened Js
  import opened Text
  import opened EntryNames
  import opened AssocList
  import opened Widgets
  import opened PromptDbServer
  import opened PromptStackClient
  import opened StackAgreement
  import opened StackRestore

  // ----- A fresh node, saved as written ---------------------------------------

  /**
   * A node right after creation: the backend's declared inputs in
   * declaration order (the separator, then entry 1's category, name and
   * flag), then the add button. Dropdown options play no part in saving.
   */
  function FreshNode(separator: Value, category: Value, name: Value, enabled: Value): (ws: seq<Widget>) {
    [ NewWidget(TextBox, "separator", separator, []),
      NewWidget(Combo, EntryKey(1, CategoryField), category, []),
      NewWidget(Combo, EntryKey(1, NameField), name, []),
      NewWidget(Toggle, EntryKey(1, EnabledField), enabled, []),
      NewWidget(Button, "\U{2795} Add Prompt Entry", Str(""), []) ]
  }

  /** Five widgets serialize one after the other. */
  lemma SerializeFive(ws: seq<Widget>)
    requires |ws| == 5
    ensures Serialize(ws) == Emit(ws[0]) + Emit(ws[1]) + Emit(ws[2]) + Emit(ws[3]) + Emit(ws[4])
  {
    assert ws == ws[..4] + [ws[4]];
    SerializeAppend(ws[..4], [ws[4]]);
    SerializeFour(ws[..4]);
    SerializeOne(ws[4]);
  }

  /** No name of entry 1 is the preview widget's. */
  lemma EntryOneIsNoPreview(field: string)
    ensures EntryKey(1, field) != "preview_text"
  {
    EntryKeyIsPromptName(1, field);
    assert EntryKey(1, field)[2] == 'o';
  }

  /** `onSerialize` writes a fresh node's five values in widget order. */
  lemma FreshNodeSaved(separator: Value, category: Value, name: Value, enabled: Value)
    requires !separator.Undefined? && !category.Undefined? && !name.Undefined? && !enabled.Undefined?
    ensures Serialize(FreshNode(separator, category, name, enabled)) == [separator, category, name, enabled, Str("")]
  {
    var ws := FreshNode(separator, category, name, enabled);
    EntryOneIsNoPreview(CategoryField);
    EntryOneIsNoPreview(NameField);
    EntryOneIsNoPreview(EnabledField);
    SerializeFive(ws);
  }

  /**
   * As written, loading what a fresh node saved reads its entry with the
   * fields shifted by one: the flag from the name, the category from the
   * flag, and the name from the add button's "". It reads the saved entry
   * only when all four values coincide that way; with a boolean flag the
   * reloaded node selects the first category and its toggle holds the
   * prompt name.
   */
  lemma FreshNodeMisread(db: Db, separator: Value, category: Value, name: Value, enabled: Value)
    requires !separator.Undefined? && !category.Undefined? && !name.Undefined? && !enabled.Undefined?
    ensures var rows := ParseEntries(Serialize(FreshNode(separator, category, name, enabled)));
      && rows == [Row(name, enabled, Str(""))]
      && (rows == [Row(enabled, category, name)] <==> enabled == name && category == enabled && name == Str(""))
    ensures enabled.Bool? ==>
      var row := Row(name, enabled, Str(""));
      && RestoredRow(db, row).enabled == name
      && RestoredRow(db, row).category == Str(if Keys(db) == [] then "" else Keys(db)[0])
  {
    FreshNodeSaved(separator, category, name, enabled);
  }

  // ----- The corrected save ---------------------------------------------------

  /** The value of the first widget with the name, or undefined when there is none. */
  function FieldValue(ws: seq<Widget>, key: string): (v: Value)
    ensures FindIndex(ws, key).Some? ==> v == ws[FindIndex(ws, key).value].value
    ensures FindIndex(ws, key).None? ==> v.Undefined?
  {
    match Find(ws, key)
    case None => Undefined
    case Some(w) => w.value
  }

  /** The row of the entry a toggle flags: its value, and the values of the category and name widgets sharing its tag. */
  function EntryRow(ws: seq<Widget>, e: Widget): Row
    requires IsEnabledName(e.name)
  {
    var tag := EntryTag(e.name);
    Row(e.value, FieldValue(ws, TagKey(tag, CategoryField)), FieldValue(ws, TagKey(tag, NameField)))
  }

  /** The rows of the entries the given toggles flag, in order. */
  function EntryRows(ws: seq<Widget>, es: seq<Widget>): (r: seq<Row>)
    requires forall i :: 0 <= i < |es| ==> IsEnabledName(es[i].name)
    ensures |r| == |es|
    ensures forall j :: 0 <= j < |es| ==> r[j] == EntryRow(ws, es[j])
  {
    seq(|es|, j requires 0 <= j < |es| => EntryRow(ws, es[j]))
  }

  /**
   * The corrected save: the separator's value, then for every enabled
   * toggle in widget order a placeholder "" and the entry's flag,
   * category and name. The parser reads back exactly the entries' rows.
   */
  function SaveByEntry(ws: seq<Widget>): (r: seq<Value>)
    ensures |r| == 1 + 4 * |EnabledWidgets(ws)|
    ensures ParseEntries(r) == EntryRows(ws, EnabledWidgets(ws))
  {
    var rows := EntryRows(ws, EnabledWidgets(ws));
    var skips := seq(|rows|, _ => Str(""));
    var r := Groups(FieldValue(ws, "separator"), skips, rows);
    assert ParseEntries(r) == rows by {
      ParseEntriesOfGroups(FieldValue(ws, "separator"), skips, rows);
    }
    r
  }

  /** Five widgets of which only the fourth has an enabled-toggle name. */
  lemma EnabledWidgetsOfFive(a: Widget, b: Widget, c: Widget, d: Widget, e: Widget)
    requires !IsEnabledName(a.name) && !IsEnabledName(b.name) && !IsEnabledName(c.name)
    requires IsEnabledName(d.name) && !IsEnabledName(e.name)
    ensures EnabledWidgets([a, b, c, d, e]) == [d]
  {
    assert [a][..0] == [];
    assert EnabledWidgets([a]) == [];
    assert [a, b][..1] == [a];
    assert EnabledWidgets([a, b]) == [];
    assert [a, b, c][..2] == [a, b];
    assert EnabledWidgets([a, b, c]) == [];
    assert [a, b, c, d][..3] == [a, b, c];
    assert EnabledWidgets([a, b, c, d]) == [d];
    assert [a, b, c, d, e][..4] == [a, b, c, d];
  }

  /** A toggle named for entry k reads the widgets its `FindIndex` finds for k's category and name. */
  lemma EntryRowFound(ws: seq<Widget>, e: Widget, k: nat, pc: nat, pn: nat)
    requires e.name == EntryKey(k, EnabledField)
    requires FindIndex(ws, EntryKey(k, CategoryField)) == Some(pc)
    requires FindIndex(ws, EntryKey(k, NameField)) == Some(pn)
    ensures IsEnabledName(e.name)
    ensures EntryRow(ws, e) == Row(e.value, ws[pc].value, ws[pn].value)
  {
    EnabledNamesOfEntry(k);
    EntryKeyIsTagKey(k, EnabledField);
    TagOfPrefixedName(e.name, k);
    EntryKeyIsTagKey(k, CategoryField);
    EntryKeyIsTagKey(k, NameField);
  }

  /** The add button's and the separator's names are no entry names. */
  lemma FreshHeadNames()
    ensures !StartsWith("separator", "prompt_")
    ensures !StartsWith("\U{2795} Add Prompt Entry", "prompt_")
  {
    assert "separator"[0] != "prompt_"[0];
    assert "\U{2795} Add Prompt Entry"[0] != "prompt_"[0];
  }

  /** A fresh node's one enabled toggle is entry 1's. */
  lemma FreshNodeToggles(separator: Value, category: Value, name: Value, enabled: Value)
    ensures var ws := FreshNode(separator, category, name, enabled);
      EnabledWidgets(ws) == [ws[3]]
  {
    var ws := FreshNode(separator, category, name, enabled);
    EnabledNamesOfEntry(1);
    FreshHeadNames();
    assert ws == [ws[0], ws[1], ws[2], ws[3], ws[4]];
    EnabledWidgetsOfFive(ws[0], ws[1], ws[2], ws[3], ws[4]);
  }

  /** Entry 1's toggle in a fresh node reads the node's category and name widgets. */
  lemma FreshNodeEntryRow(separator: Value, category: Value, name: Value, enabled: Value)
    ensures var ws := FreshNode(separator, category, name, enabled);
      IsEnabledName(ws[3].name) && EntryRow(ws, ws[3]) == Row(enabled, category, name)
  {
    var ws := FreshNode(separator, category, name, enabled);
    FreshHeadNames();
    EntryKeyIsPromptName(1, CategoryField);
    EntryKeyIsPromptName(1, NameField);
    EntryKeyInjective(1, 1, CategoryField, NameField);
    FindIndexIs(ws, EntryKey(1, CategoryField), 1);
    FindIndexIs(ws, EntryKey(1, NameField), 2);
    EntryRowFound(ws, ws[3], 1, 1, 2);
  }

  /** The corrected save reads a fresh node's entry back as it was, defined or not. */
  lemma FreshNodeReadBack(separator: Value, category: Value, name: Value, enabled: Value)
    ensures ParseEntries(SaveByEntry(FreshNode(separator, category, name, enabled))) == [Row(enabled, category, name)]
  {
    FreshNodeToggles(separator, category, name, enabled);
    FreshNodeEntryRow(separator, category, name, enabled);
  }

  // ----- The corrected save on a laid-out node --------------------------------

  /** The flag, category and name of each of a layout's n entries. */
  function LayoutRows(body: seq<Widget>, n: nat): (r: seq<Row>)
    requires |body| == 4 * n
    ensures |r| == n
    ensures forall j :: 0 <= j < n ==> r[j] == Row(body[4 * j].value, body[4 * j + 1].value, body[4 * j + 2].value)
  {
    seq(n, j requires 0 <= j < n => Row(body[4 * j].value, body[4 * j + 1].value, body[4 * j + 2].value))
  }

  /** The enabled toggles of a layout's first m entries are those entries' first widgets, in entry order. */
  lemma {:induction false} EnabledOfLayout(body: seq<Widget>, n: nat, m: nat)
    requires IsLayout(body, n) && m <= n
    ensures |EnabledWidgets(body[..4 * m])| == m
    ensures forall j :: 0 <= j < m ==> EnabledWidgets(body[..4 * m])[j] == body[4 * j]
    decreases m
  {
    if m == 0 {
      assert body[..0] == [];
    } else {
      var at := 4 * (m - 1);
      EnabledOfLayout(body, n, m - 1);
      var prev := EnabledWidgets(body[..at]);
      LayoutChunk(body, n, m);
      var chunk := body[at..4 * m];
      SliceSplits(body, at, 4 * m);
      EnabledWidgetsAppendEntry(body[..at], chunk, m);
      var cur := EnabledWidgets(body[..4 * m]);
      assert cur == prev + [chunk[0]];
      assert chunk[0] == body[at];
      forall j | 0 <= j < m ensures cur[j] == body[4 * j] {
        if j < m - 1 {
          assert cur[j] == prev[j];
        }
      }
    }
  }

  /** Past a head without entry widgets, entry k's toggle reads its own category and name widgets. */
  lemma LayoutEntryRow(head: seq<Widget>, body: seq<Widget>, n: nat, k: nat)
    requires forall i :: 0 <= i < |head| ==> !StartsWith(head[i].name, "prompt_")
    requires IsLayout(body, n) && 1 <= k <= n
    ensures IsEnabledName(body[4 * (k - 1)].name)
    ensures EntryRow(head + body, body[4 * (k - 1)]) ==
      Row(body[4 * (k - 1)].value, body[4 * (k - 1) + 1].value, body[4 * (k - 1) + 2].value)
  {
    var at := 4 * (k - 1);
    assert Fields[0] == EnabledField && Fields[1] == CategoryField && Fields[2] == NameField;
    LayoutName(body, n, at);
    assert at / 4 == k - 1 && at % 4 == 0;
    EnabledNamesOfEntry(k);
    EntryKeyIsTagKey(k, EnabledField);
    TagOfPrefixedName(body[at].name, k);
    EntryKeyIsTagKey(k, CategoryField);
    EntryKeyIsTagKey(k, NameField);
    FindPastHead(head, body, n, k, 1);
    FindPastHead(head, body, n, k, 2);
  }

  /** The enabled toggles of a head without entry widgets followed by a layout are the entries' first widgets. */
  lemma EnabledWidgetsPastHead(head: seq<Widget>, body: seq<Widget>, n: nat)
    requires forall i :: 0 <= i < |head| ==> !StartsWith(head[i].name, "prompt_")
    requires IsLayout(body, n)
    ensures |EnabledWidgets(head + body)| == n
    ensures forall j :: 0 <= j < n ==> EnabledWidgets(head + body)[j] == body[4 * j]
  {
    assert forall i :: 0 <= i < |head| ==> !IsEnabledName(head[i].name);
    EnabledWidgetsNone(head);
    EnabledWidgetsAppend(head, body);
    var all := EnabledWidgets(head + body);
    assert all == EnabledWidgets(body);
    EnabledOfLayout(body, n, n);
    assert body[..4 * n] == body;
  }

  /** On a laid-out node the corrected save reads back every entry's flag, category and name, whatever the head holds. */
  lemma SaveByEntryOfLayout(head: seq<Widget>, body: seq<Widget>, n: nat)
    requires forall i :: 0 <= i < |head| ==> !StartsWith(head[i].name, "prompt_")
    requires IsLayout(body, n)
    ensures ParseEntries(SaveByEntry(head + body)) == LayoutRows(body, n)
  {
    var ws := head + body;
    EnabledWidgetsPastHead(head, body, n);
    var es := EnabledWidgets(ws);
    var parsed := ParseEntries(SaveByEntry(ws));
    assert parsed == EntryRows(ws, es);
    var laid := LayoutRows(body, n);
    forall j | 0 <= j < n ensures parsed[j] == laid[j] {
      LayoutEntryRow(head, body, n, j + 1);
      assert es[j] == body[4 * j];
      assert parsed[j] == EntryRow(ws, es[j]);
    }
  }

  /** A restored entry shows its row's restored values. */
  lemma RestoredEntryRow(db: Db, rows: seq<Row>, j: nat)
    requires j < |rows|
    ensures var body := RestoredEntries(db, rows, 1);
      Row(body[4 * j].value, body[4 * j + 1].value, body[4 * j + 2].value) == RestoredRow(db, rows[j])
  {
    var body := RestoredEntries(db, rows, 1);
    RestoredEntriesAt(db, rows, 1, j);
    var e := RestoredEntry(db, j + 1, rows[j]);
    assert body[4 * j] == e[0] && body[4 * j + 1] == e[1] && body[4 * j + 2] == e[2];
  }

  /** The restored entries show each row's restored values. */
  lemma RestoredLayoutRows(db: Db, rows: seq<Row>)
    ensures LayoutRows(RestoredEntries(db, rows, 1), |rows|) == RestoredRows(db, rows)
  {
    var body := RestoredEntries(db, rows, 1);
    forall j | 0 <= j < |rows| ensures LayoutRows(body, |rows|)[j] == RestoredRows(db, rows)[j] {
      RestoredEntryRow(db, rows, j);
    }
  }

  /** A node whose widgets past a head without entry widgets are the restored entries reads back the restored rows. */
  lemma SaveByEntryOfRestored(db: Db, r: seq<Widget>, h: nat, rows: seq<Row>)
    requires h <= |r| && forall i :: 0 <= i < h ==> !StartsWith(r[i].name, "prompt_")
    requires IsLayout(r[h..], |rows|) && r[h..] == RestoredEntries(db, rows, 1)
    ensures ParseEntries(SaveByEntry(r)) == RestoredRows(db, rows)
  {
    var body := r[h..];
    assert r == r[..h] + body;
    SaveByEntryOfLayout(r[..h], body, |rows|);
    RestoredLayoutRows(db, rows);
  }

  /**
   * Save after load with the corrected save: every restored node reads
   * back each entry's restored values, with no condition on what the kept
   * widgets write.
   */
  lemma SaveByEntryRestoreRoundTrip(db: Db, ws: seq<Widget>, values: seq<Value>)
    ensures ParseEntries(SaveByEntry(Restore(db, ws, values))) == RestoredRows(db, ParseEntries(values))
  {
    RestoreLaysOutEntries(db, ws, values);
    RestoreValues(db, ws, values);
    SaveByEntryOfRestored(db, Restore(db, ws, values), |Strip(ws)|, ParseEntries(values));
  }
}
