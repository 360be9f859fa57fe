/**
 * What `onGetInputs` reports for the entry layout `addPromptEntry`
 * creates. The walk expects each entry's category and name before its
 * enabled toggle, but entries are created toggle first; on such a node it
 * therefore forwards every entry's enabled flag and never a category or
 * a name.
 */
module StackInputs {
  import opened Js
  import opened Text
  import opened EntryNames
  import opened Widgets
  import opened PromptDbServer
  import opened PromptStackClient

  /** The enabled flags of entries 1 .. m of a numbered run starting at h, under their names. */
  function EnabledInputs(ws: seq<Widget>, h: nat, m: nat): map<string, Value>
    requires h + 4 * m <= |ws|
  {
    if m == 0 then map[]
    else EnabledInputs(ws, h, m - 1)[EntryKey(m, EnabledField) := ws[h + 4 * (m - 1)].value]
  }

  lemma {:induction false} EnabledInputsHolds(ws: seq<Widget>, h: nat, m: nat, k: nat, f: string)
    requires h + 4 * m <= |ws|
    ensures EntryKey(k, f) in EnabledInputs(ws, h, m) <==> f == EnabledField && 1 <= k <= m
    ensures f == EnabledField && 1 <= k <= m ==> EnabledInputs(ws, h, m)[EntryKey(k, f)] == ws[h + 4 * (k - 1)].value
  {
    if m > 0 {
      EnabledInputsHolds(ws, h, m - 1, k, f);
      EntryKeyInjective(k, m, f, EnabledField);
    }
  }

  /** The widgets before h carry no `prompt_` name, so the walk passes them by. */
  lemma {:induction false} InputsSkipHead(ws: seq<Widget>, h: nat, i: nat, inputs: map<string, Value>)
    requires i <= h <= |ws|
    requires forall j :: 0 <= j < h ==> !StartsWith(ws[j].name, "prompt_")
    ensures InputsFrom(ws, i, 1, inputs) == InputsFrom(ws, h, 1, inputs)
    decreases h - i
  {
    if i < h {
      EntryKeyIsPromptName(1, CategoryField);
      EntryKeyIsPromptName(1, NameField);
      EntryKeyIsPromptName(1, EnabledField);
      InputsSkipHead(ws, h, i + 1, inputs);
    }
  }

  /** A widget of entry m, other than its toggle, is passed by once the walk has moved on to entry m + 1. */
  lemma PassedBy(ws: seq<Widget>, i: nat, m: nat, inputs: map<string, Value>)
    requires i < |ws|
    requires ws[i].name == EntryKey(m, CategoryField) || ws[i].name == EntryKey(m, NameField)
             || ws[i].name == RemoveButtonName(m)
    ensures InputsFrom(ws, i, m + 1, inputs) == InputsFrom(ws, i + 1, m + 1, inputs)
  {
    var name := ws[i].name;
    if name == RemoveButtonName(m) {
      RemoveButtonIsNoEntryName(m);
      EntryKeyIsPromptName(m + 1, CategoryField);
      EntryKeyIsPromptName(m + 1, NameField);
      EntryKeyIsPromptName(m + 1, EnabledField);
    } else {
      var f := if name == EntryKey(m, CategoryField) then CategoryField else NameField;
      EntryKeyInjective(m, m + 1, f, CategoryField);
      EntryKeyInjective(m, m + 1, f, NameField);
      EntryKeyInjective(m, m + 1, f, EnabledField);
    }
  }

  /** Entry m's toggle is recorded and moves the walk on to entry m + 1. */
  lemma ToggleRecorded(ws: seq<Widget>, i: nat, m: nat, inputs: map<string, Value>)
    requires i < |ws| && ws[i].name == EntryKey(m, EnabledField)
    ensures InputsFrom(ws, i, m, inputs) == InputsFrom(ws, i + 1, m + 1, inputs[ws[i].name := ws[i].value])
  {
    EntryKeyInjective(m, m, EnabledField, CategoryField);
    EntryKeyInjective(m, m, EnabledField, NameField);
  }

  /** The walk over one entry's four widgets records its toggle and nothing else. */
  lemma EntryStep(ws: seq<Widget>, a: nat, m: nat, inputs: map<string, Value>)
    requires a + 4 <= |ws| && EntryNamesAt(ws, a, m)
    ensures InputsFrom(ws, a, m, inputs) == InputsFrom(ws, a + 4, m + 1, inputs[EntryKey(m, EnabledField) := ws[a].value])
  {
    var recorded := inputs[EntryKey(m, EnabledField) := ws[a].value];
    ToggleRecorded(ws, a, m, inputs);
    PassedBy(ws, a + 1, m, recorded);
    PassedBy(ws, a + 2, m, recorded);
    PassedBy(ws, a + 3, m, recorded);
  }

  /** From entry m on, the walk records exactly the toggles of entries m .. n. */
  lemma {:induction false} InputsOverEntries(ws: seq<Widget>, h: nat, n: nat, m: nat)
    requires |ws| == h + 4 * n && EntriesNumbered(ws, h, n)
    requires 1 <= m <= n + 1
    ensures InputsFrom(ws, h + 4 * (m - 1), m, EnabledInputs(ws, h, m - 1)) == EnabledInputs(ws, h, n)
    decreases n + 1 - m
  {
    if m <= n {
      var a := h + 4 * (m - 1);
      NumberedEntry(ws, h, n, m);
      EntryStep(ws, a, m, EnabledInputs(ws, h, m - 1));
      InputsOverEntries(ws, h, n, m + 1);
      assert h + 4 * (m + 1 - 1) == a + 4;
    }
  }

  lemma NumberedEntry(ws: seq<Widget>, h: nat, n: nat, m: nat)
    requires EntriesNumbered(ws, h, n) && 1 <= m <= n
    ensures h + 4 * m <= |ws| && EntryNamesAt(ws, h + 4 * (m - 1), m)
  {
    assert EntryNamesAt(ws, h + 4 * (m - 1), (m - 1) + 1);
  }

  /**
   * On widgets that carry no `prompt_` name up to h and entries 1 .. n
   * from h on, `onGetInputs` forwards each entry's enabled flag with its
   * value, and no category or name at all.
   */
  lemma GetInputsOfEntries(ws: seq<Widget>, h: nat, n: nat)
    requires |ws| == h + 4 * n && EntriesNumbered(ws, h, n)
    requires forall j :: 0 <= j < h ==> !StartsWith(ws[j].name, "prompt_")
    ensures var r := GetInputs(ws);
      && (forall k: nat :: EntryKey(k, CategoryField) !in r && EntryKey(k, NameField) !in r)
      && (forall k: nat :: EntryKey(k, EnabledField) in r <==> 1 <= k <= n)
      && (forall k: nat :: 1 <= k <= n ==> r[EntryKey(k, EnabledField)] == ws[h + 4 * (k - 1)].value)
  {
    var r := GetInputs(ws);
    InputsSkipHead(ws, h, 0, map[]);
    InputsOverEntries(ws, h, n, 1);
    assert InputsFrom(ws, 0, 1, map[]) == EnabledInputs(ws, h, n);
    forall k: nat, f | f in {CategoryField, NameField, EnabledField}
      ensures EntryKey(k, f) in r <==> f == EnabledField && 1 <= k <= n
      ensures f == EnabledField && 1 <= k <= n ==> r[EntryKey(k, f)] == ws[h + 4 * (k - 1)].value
    {
      EnabledInputsHolds(ws, h, n, k, f);
      assert EntryKey(k, f)[0] == 'p';
    }
    assert CategoryField in {CategoryField, NameField, EnabledField};
    assert NameField in {CategoryField, NameField, EnabledField};
    assert EnabledField in {CategoryField, NameField, EnabledField};
  }

  /** After `onConfigure`, `onGetInputs` reports every restored entry's enabled flag and nothing else of theirs. */
  lemma GetInputsAfterRestore(db: Db, ws: seq<Widget>, values: seq<Value>)
    ensures var r := GetInputs(Restore(db, ws, values));
      var n := |ParseEntries(values)|;
      && (forall k: nat :: EntryKey(k, CategoryField) !in r && EntryKey(k, NameField) !in r)
      && (forall k: nat :: EntryKey(k, EnabledField) in r <==> 1 <= k <= n)
  {
    var r := Restore(db, ws, values);
    var h := |Strip(ws)|;
    forall j | 0 <= j < h ensures !StartsWith(r[j].name, "prompt_") {
      assert Strip(ws)[j] in Strip(ws);
    }
    GetInputsOfEntries(r, h, |ParseEntries(values)|);
  }
}
