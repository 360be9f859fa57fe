/**
 * What `onConfigure` leaves in each restored entry of a Prompt Stack
 * node, and what `onSerialize` then writes for it. A parsed row passes
 * the dropdown selection rule twice, once in `addPromptEntry` and once in
 * the final pass; the closed forms below say what that comes to, and the
 * lemmas connect them to `Restore` and to the save/load round trip.
 */
module StackRestore {
  import opened Optional
  import opened Js
  import opened Text
  import opened EntryNames
  import opened AssocList
  import opened Widgets
  import opened PromptDbServer
  import opened PromptStackClient
  import opened StackAgreement

  // ----- The restored values, in closed form --------------------------------

  /** The restored flag: the parsed one, or on when the row has none. */
  function RestoredEnabled(row: Row): Value {
    if row.enabled.Undefined? then Bool(true) else row.enabled
  }

  /** The restored category: the parsed one when it is listed, else the first listed, else "". */
  function RestoredCategory(db: Db, row: Row): string {
    Choose(Keys(db), row.category)
  }

  /** The parsed category is absent (falsy) or listed, so the parsed name is looked up under the restored one. */
  predicate KeepsCategory(db: Db, category: Value) {
    !Truthy(category) || (category.Str? && category.s in Keys(db))
  }

  /** The restored prompt dropdown's options: the restored category's names, if a category was selected. */
  function RestoredPromptOptions(db: Db, row: Row): seq<string> {
    var c := RestoredCategory(db, row);
    if c != "" then Names(db, c) else []
  }

  /**
   * The restored prompt name. With a category selected it is chosen from
   * that category's names, the parsed name counting only when the parsed
   * category was kept. Without one, the dropdowns are never refreshed and
   * a truthy parsed name stays as it is when no category was parsed.
   */
  function RestoredName(db: Db, row: Row): Value {
    var c := RestoredCategory(db, row);
    if c != "" then Str(Choose(Names(db, c), if KeepsCategory(db, row.category) then row.name else Str("")))
    else if !Truthy(row.category) && Truthy(row.name) then row.name
    else Str("")
  }

  /** The three values entry widgets show once a row is restored. */
  function RestoredRow(db: Db, row: Row): Row {
    Row(RestoredEnabled(row), Str(RestoredCategory(db, row)), RestoredName(db, row))
  }

  /** The four widgets of entry k once a row is restored. */
  function RestoredEntry(db: Db, k: nat, row: Row): seq<Widget> {
    EntryWidgets(k, RestoredEnabled(row),
      NewWidget(Combo, EntryKey(k, CategoryField), Str(RestoredCategory(db, row)), Keys(db)),
      NewWidget(Combo, EntryKey(k, NameField), RestoredName(db, row), RestoredPromptOptions(db, row)))
  }

  /** One block per row, the rows numbered from `first`. */
  function Blocks<T>(f: (nat, Row) -> seq<T>, rows: seq<Row>, first: nat): seq<T>
    decreases |rows|
  {
    if rows == [] then [] else f(first, rows[0]) + Blocks(f, rows[1..], first + 1)
  }

  /** With blocks of four, row j's block sits at 4j. */
  lemma {:induction false} BlocksAt<T>(f: (nat, Row) -> seq<T>, rows: seq<Row>, first: nat, j: nat)
    requires forall k: nat, row :: |f(k, row)| == 4
    requires j < |rows|
    ensures |Blocks(f, rows, first)| == 4 * |rows|
    ensures Blocks(f, rows, first)[4 * j..4 * j + 4] == f(first + j, rows[j])
    decreases |rows|
  {
    var e := f(first, rows[0]);
    var rest := Blocks(f, rows[1..], first + 1);
    if j > 0 {
      BlocksAt(f, rows[1..], first + 1, j - 1);
      assert rows[1..][j - 1] == rows[j];
      assert (e + rest)[4 * j..4 * j + 4] == rest[4 * (j - 1)..4 * (j - 1) + 4];
    } else if |rows| > 1 {
      BlocksAt(f, rows[1..], first + 1, 0);
      assert (e + rest)[0..4] == e;
    } else {
      assert rest == [];
      assert e + rest == e;
    }
  }

  /** The restored entries for consecutive rows, numbered from `first`. */
  function RestoredEntries(db: Db, rows: seq<Row>, first: nat): (r: seq<Widget>)
    ensures |r| == 4 * |rows|
  {
    var r := Blocks((k, row) => RestoredEntry(db, k, row), rows, first);
    assert |r| == 4 * |rows| by {
      if rows != [] {
        BlocksAt((k, row) => RestoredEntry(db, k, row), rows, first, 0);
      }
    }
    r
  }

  /** The first restored entry, then the rest. */
  lemma RestoredEntriesUnfold(db: Db, rows: seq<Row>, first: nat)
    requires rows != []
    ensures RestoredEntries(db, rows, first) == RestoredEntry(db, first, rows[0]) + RestoredEntries(db, rows[1..], first + 1)
  {
  }

  /** Every restored row of a list. */
  function RestoredRows(db: Db, rows: seq<Row>): (r: seq<Row>)
    ensures |r| == |rows|
    ensures forall j :: 0 <= j < |rows| ==> r[j] == RestoredRow(db, rows[j])
  {
    seq(|rows|, j requires 0 <= j < |rows| => RestoredRow(db, rows[j]))
  }

  // ----- One entry -----------------------------------------------------------

  /** The final pass's work on one entry's four widgets: the category dropdown, then the prompt dropdown from it. */
  function Settle(db: Db, e: seq<Widget>): (r: seq<Widget>)
    requires |e| == 4
    ensures |r| == 4
  {
    var c := UpdateCategoryDropdown(e[1], FetchCategories(db), e[1].value);
    [e[0], c, UpdatePromptDropdown(db, c, e[2], e[2].value), e[3]]
  }

  /** A name that is not a stored category lists no prompts. */
  lemma UnlistedCategoryHasNoNames(db: Db, category: string)
    requires category !in Keys(db)
    ensures Names(db, category) == []
  {
    LookupFindsStoredKeys(db, category);
  }

  /** The category `addPromptEntry` selects settles, in the final pass, on the restored category. */
  lemma SelectedCategorySettles(db: Db, row: Row)
    ensures var cats := Keys(db);
      var selected := if Truthy(row.category) then row.category else Str(if |cats| > 0 then cats[0] else "");
      && Choose(cats, selected) == RestoredCategory(db, row)
      && (KeepsCategory(db, row.category) ==> selected == Str(RestoredCategory(db, row)))
  {
  }

  /** An entry added for a row and then settled by the final pass holds the row's restored values. */
  lemma SettledNewEntry(db: Db, k: nat, row: Row)
    ensures |NewEntry(db, k, row)| == 4
    ensures Settle(db, NewEntry(db, k, row)) == RestoredEntry(db, k, row)
  {
    var cats := Keys(db);
    var c := RestoredCategory(db, row);
    var selected := if Truthy(row.category) then row.category else Str(if |cats| > 0 then cats[0] else "");
    SelectedCategorySettles(db, row);
    var e := NewEntry(db, k, row);
    var s := Settle(db, e);
    var want := RestoredEntry(db, k, row);
    assert e[1] == NewWidget(Combo, EntryKey(k, CategoryField), selected, cats);
    assert s[1] == want[1];
    if KeepsCategory(db, row.category) {
      if c != "" {
        ChooseIsStable(Names(db, c), row.name);
      }
    } else {
      if row.category.Str? {
        UnlistedCategoryHasNoNames(db, row.category.s);
      }
      assert FetchPrompts(db, selected) == [];
    }
    assert s[2] == want[2];
  }

  // ----- The final pass over a restored node ---------------------------------

  /** The final pass's work on every complete entry of a list, four widgets at a time. */
  function SettleAll(db: Db, s: seq<Widget>): (r: seq<Widget>)
    ensures |r| == |s|
    decreases |s|
  {
    if |s| < 4 then s else Settle(db, s[..4]) + SettleAll(db, s[4..])
  }

  /** A node's widgets: a head without `prompt_` names, then entries 1 .. n. */
  predicate Shaped(ws: seq<Widget>, h: nat, n: nat) {
    && |ws| == h + 4 * n
    && (forall i :: 0 <= i < h ==> !StartsWith(ws[i].name, "prompt_"))
    && EntriesNumbered(ws, h, n)
  }

  /** Which entry names the final pass takes for category widgets, and the prompt name it pairs with one. */
  lemma EntryNameKinds(k: nat)
    ensures IsCategoryName(EntryKey(k, CategoryField))
    ensures !IsCategoryName(EntryKey(k, EnabledField)) && !IsCategoryName(EntryKey(k, NameField))
    ensures !IsCategoryName(RemoveButtonName(k))
    ensures TagKey(EntryTag(EntryKey(k, CategoryField)), NameField) == EntryKey(k, NameField)
  {
    var c := EntryKey(k, CategoryField);
    var e := EntryKey(k, EnabledField);
    var m := EntryKey(k, NameField);
    EntryKeyIsPromptName(k, CategoryField);
    assert c[|c| - 9..] == "_category";
    assert e[|e| - 1] == 'd' && m[|m| - 1] == 'e';
    RemoveButtonIsNoEntryName(k);
    EntryKeyIsTagKey(k, CategoryField);
    TagOfPrefixedName(c, k);
    EntryKeyIsTagKey(k, NameField);
  }

  /** In a shaped node, entry m + 1's prompt widget is the first widget of its name. */
  lemma PromptWidgetFound(ws: seq<Widget>, h: nat, n: nat, m: nat)
    requires Shaped(ws, h, n) && m < n
    ensures FindIndex(ws, EntryKey(m + 1, NameField)) == Some(h + 4 * m + 2)
  {
    var key, q := EntryKey(m + 1, NameField), 4 * m + 2;
    assert FindIndex(ws[h..], key) == Some(q) by {
      NumberedRunIsLayout(ws, h, n);
      PromptInLayout(ws[h..], n, m);
    }
    assert StartsWith(key, "prompt_") by {
      EntryKeyIsPromptName(m + 1, NameField);
    }
    KeyPastHead(ws, h, key, q);
  }

  /** A `prompt_` key found in the widgets past a head without `prompt_` names is found there in the whole list. */
  lemma KeyPastHead(ws: seq<Widget>, h: nat, key: string, q: nat)
    requires h <= |ws| && forall i :: 0 <= i < h ==> !StartsWith(ws[i].name, "prompt_")
    requires StartsWith(key, "prompt_") && FindIndex(ws[h..], key) == Some(q)
    ensures FindIndex(ws, key) == Some(h + q)
  {
    HeadLacksKey(ws, h, key);
    FindAfter(ws, h, key, q);
  }

  /** In a layout, entry m + 1's prompt widget sits at 4m + 2. */
  lemma PromptInLayout(body: seq<Widget>, n: nat, m: nat)
    requires IsLayout(body, n) && m < n
    ensures FindIndex(body, EntryKey(m + 1, NameField)) == Some(4 * m + 2)
  {
    assert Fields[2] == NameField;
    LayoutFind(body, n, m + 1, 2);
  }

  /** A name the first h widgets lack is found where the rest hold it, shifted by h. */
  lemma FindAfter(ws: seq<Widget>, h: nat, key: string, q: nat)
    requires h <= |ws|
    requires forall i :: 0 <= i < h ==> ws[i].name != key
    requires FindIndex(ws[h..], key) == Some(q)
    ensures FindIndex(ws, key) == Some(h + q)
  {
    var rest := ws[h..];
    assert forall j :: 0 <= j < q ==> rest[j].name != key;
    forall i | h <= i < h + q ensures ws[i].name != key {
      assert ws[i] == rest[i - h];
    }
    assert ws[h + q] == rest[q];
    FindIndexIs(ws, key, h + q);
  }

  /** A head without `prompt_` names holds no `prompt_` key. */
  lemma HeadLacksKey(ws: seq<Widget>, h: nat, key: string)
    requires h <= |ws| && forall i :: 0 <= i < h ==> !StartsWith(ws[i].name, "prompt_")
    requires StartsWith(key, "prompt_")
    ensures forall i :: 0 <= i < h ==> ws[i].name != key
  {
  }

  /** In a shaped node, entry m + 1's category widget is paired with its own prompt widget, and no other of its widgets is a category widget. */
  lemma PartnerInShape(ws: seq<Widget>, h: nat, n: nat, m: nat)
    requires Shaped(ws, h, n) && m < n
    ensures IsCategoryName(ws[h + 4 * m + 1].name) && Partner(ws, h + 4 * m + 1) == Some(h + 4 * m + 2)
    ensures !IsCategoryName(ws[h + 4 * m].name)
    ensures !IsCategoryName(ws[h + 4 * m + 2].name) && !IsCategoryName(ws[h + 4 * m + 3].name)
  {
    assert EntryNamesAt(ws, h + 4 * m, m + 1);
    EntryNameKinds(m + 1);
    PromptWidgetFound(ws, h, n, m);
  }

  /** The pass moves past a widget that is not a category widget. */
  lemma PassSkips(db: Db, ws: seq<Widget>, i: nat)
    requires i < |ws| && !IsCategoryName(ws[i].name)
    ensures FinalPassFrom(db, ws, i) == FinalPassFrom(db, ws, i + 1)
  {
  }

  /** Values that agree from each index to the next agree across the whole range. */
  lemma {:induction false} StepwiseEqual<T>(f: nat -> T, i: nat, h: nat)
    requires i <= h
    requires forall x: nat :: i <= x < h ==> f(x) == f(x + 1)
    ensures f(i) == f(h)
    decreases h - i
  {
    if i < h {
      StepwiseEqual(f, i + 1, h);
    }
  }

  /** The pass walks past the head without touching anything. */
  lemma PassSkipsHead(db: Db, ws: seq<Widget>, i: nat, h: nat)
    requires i <= h <= |ws|
    requires forall x :: 0 <= x < h ==> !IsCategoryName(ws[x].name)
    ensures FinalPassFrom(db, ws, i) == FinalPassFrom(db, ws, h)
  {
    forall x: nat | i <= x < h ensures FinalPassFrom(db, ws, x) == FinalPassFrom(db, ws, x + 1) {
      PassSkips(db, ws, x);
    }
    StepwiseEqual(x => FinalPassFrom(db, ws, x), i, h);
  }

  /** A final step on entry widgets at `at` settles those four widgets and nothing else. */
  lemma FinalStepIsSettle(db: Db, ws: seq<Widget>, at: nat)
    requires at + 4 <= |ws|
    ensures FinalStep(db, ws, at + 1, at + 2) == ws[..at] + Settle(db, ws[at..at + 4]) + ws[at + 4..]
  {
    var r := FinalStep(db, ws, at + 1, at + 2);
    var e := ws[at..at + 4];
    assert e[0] == ws[at] && e[1] == ws[at + 1] && e[2] == ws[at + 2] && e[3] == ws[at + 3];
    var c := UpdateCategoryDropdown(ws[at + 1], FetchCategories(db), ws[at + 1].value);
    assert r[at + 2] == UpdatePromptDropdown(db, c, ws[at + 2], ws[at + 2].value);
    var settled := Settle(db, e);
    assert settled == [ws[at], c, r[at + 2], ws[at + 3]];
    SpliceOfTwo(ws, r, at, settled);
  }

  /** A sequence that differs from `s` only at at + 1 and at + 2 is `s` with a block of four spliced in at `at`. */
  lemma SpliceOfTwo<T>(s: seq<T>, r: seq<T>, at: nat, e: seq<T>)
    requires at + 4 <= |s| && |r| == |s| && |e| == 4
    requires forall j :: 0 <= j < |s| && j != at + 1 && j != at + 2 ==> r[j] == s[j]
    requires e[0] == s[at] && e[1] == r[at + 1] && e[2] == r[at + 2] && e[3] == s[at + 3]
    ensures r == s[..at] + e + s[at + 4..]
  {
    var t := s[..at] + e + s[at + 4..];
    forall i | 0 <= i < |r| ensures r[i] == t[i] {
      if at <= i < at + 4 {
        assert t[i] == e[i - at];
      }
    }
  }

  /** A final step renames nothing, so the node keeps its shape. */
  lemma StepKeepsShape(db: Db, ws: seq<Widget>, h: nat, n: nat, at: nat)
    requires Shaped(ws, h, n) && at + 4 <= |ws|
    ensures Shaped(FinalStep(db, ws, at + 1, at + 2), h, n)
  {
    var ws2 := FinalStep(db, ws, at + 1, at + 2);
    assert SameNames(ws2, ws);
    NumberedKept(ws2, ws, h, n);
  }

  /** The pass over an entry's four widgets is one final step on them. */
  lemma PassThroughEntry(db: Db, ws: seq<Widget>, i: nat)
    requires i + 4 <= |ws|
    requires !IsCategoryName(ws[i].name) && IsCategoryName(ws[i + 1].name) && Partner(ws, i + 1) == Some(i + 2)
    requires !IsCategoryName(ws[i + 2].name) && !IsCategoryName(ws[i + 3].name)
    ensures FinalPassFrom(db, ws, i) == FinalPassFrom(db, FinalStep(db, ws, i + 1, i + 2), i + 4)
  {
    var ws2 := FinalStep(db, ws, i + 1, i + 2);
    PassSkips(db, ws, i);
    assert FinalPassFrom(db, ws, i + 1) == FinalPassFrom(db, ws2, i + 2);
    PassSkips(db, ws2, i + 2);
    PassSkips(db, ws2, i + 3);
  }

  /** Settling the entry at `at` and then the rest settles everything from `at` on. */
  lemma SettleSplices(db: Db, ws: seq<Widget>, ws2: seq<Widget>, at: nat)
    requires at + 4 <= |ws|
    requires ws2 == ws[..at] + Settle(db, ws[at..at + 4]) + ws[at + 4..]
    ensures ws2[..at + 4] + SettleAll(db, ws2[at + 4..]) == ws[..at] + SettleAll(db, ws[at..])
  {
    var settled := Settle(db, ws[at..at + 4]);
    SettleAllStep(db, ws[at..]);
    assert ws[at..][..4] == ws[at..at + 4] && ws[at..][4..] == ws[at + 4..];
    SplicedRun(ws, settled, ws2, at, s => SettleAll(db, s));
  }

  /**
   * When `all` maps `s[at..]` to `e` followed by its image of the rest,
   * splicing `e` over `s[at..at + 4]` and mapping past it gives the same.
   */
  lemma SplicedRun<T>(s: seq<T>, e: seq<T>, s2: seq<T>, at: nat, all: seq<T> -> seq<T>)
    requires at + 4 <= |s| && |e| == 4 && s2 == s[..at] + e + s[at + 4..]
    requires all(s[at..]) == e + all(s[at + 4..])
    ensures s2[..at + 4] + all(s2[at + 4..]) == s[..at] + all(s[at..])
  {
    assert s2[..at + 4] == s[..at] + e && s2[at + 4..] == s[at + 4..];
  }

  /** SettleAll settles the first four and then the rest. */
  lemma SettleAllStep(db: Db, s: seq<Widget>)
    requires 4 <= |s|
    ensures SettleAll(db, s) == Settle(db, s[..4]) + SettleAll(db, s[4..])
  {
  }

  /** From entry m + 1 on, the final pass settles each entry in turn. */
  lemma {:induction false} PassSettlesEntries(db: Db, ws: seq<Widget>, h: nat, n: nat, m: nat)
    requires Shaped(ws, h, n) && m <= n
    ensures FinalPassFrom(db, ws, h + 4 * m) == ws[..h + 4 * m] + SettleAll(db, ws[h + 4 * m..])
    decreases n - m
  {
    var i := h + 4 * m;
    if m == n {
      assert ws[..i] == ws && ws[i..] == [];
    } else {
      var ws2 := FinalStep(db, ws, i + 1, i + 2);
      PartnerInShape(ws, h, n, m);
      PassThroughEntry(db, ws, i);
      StepKeepsShape(db, ws, h, n, i);
      PassSettlesEntries(db, ws2, h, n, m + 1);
      FinalStepIsSettle(db, ws, i);
      SettleSplices(db, ws, ws2, i);
    }
  }

  /** Settling freshly added entries gives the restored entries. */
  lemma {:induction false} SettleAllNewEntries(db: Db, rows: seq<Row>, first: nat)
    ensures SettleAll(db, NewEntries(db, rows, first)) == RestoredEntries(db, rows, first)
    decreases |rows|
  {
    if rows != [] {
      var e := NewEntry(db, first, rows[0]);
      var rest := NewEntries(db, rows[1..], first + 1);
      RestoredEntriesUnfold(db, rows, first);
      SettledNewEntry(db, first, rows[0]);
      assert (e + rest)[..4] == e && (e + rest)[4..] == rest;
      SettleAllNewEntries(db, rows[1..], first + 1);
    }
  }

  /** The kept widgets carry no `prompt_` name, whatever is added after them. */
  lemma StripLeavesNoEntryNames(ws: seq<Widget>, more: seq<Widget>)
    ensures forall x :: 0 <= x < |Strip(ws)| ==> !StartsWith((Strip(ws) + more)[x].name, "prompt_")
  {
    var base := Strip(ws);
    forall x | 0 <= x < |base| ensures !StartsWith((base + more)[x].name, "prompt_") {
      assert (base + more)[x] == base[x];
      assert base[x] in base;
    }
  }

  /** The kept widgets followed by the re-added entries form a node of entries 1 .. n with no category widget in the head. */
  lemma AddedIsShaped(db: Db, ws: seq<Widget>, rows: seq<Row>)
    ensures var base := Strip(ws);
      var added := AddEntries(db, base, rows, 1);
      && Shaped(added, |base|, |rows|)
      && (forall x :: 0 <= x < |base| ==> !IsCategoryName(added[x].name))
  {
    AddEntriesNumbered(db, Strip(ws), rows);
    StripLeavesNoEntryNames(ws, NewEntries(db, rows, 1));
  }

  /** The whole final pass walks past the head, then settles every entry. */
  lemma PassOverShaped(db: Db, ws: seq<Widget>, h: nat, n: nat)
    requires Shaped(ws, h, n)
    requires forall x :: 0 <= x < h ==> !IsCategoryName(ws[x].name)
    ensures FinalPassFrom(db, ws, 0) == ws[..h] + SettleAll(db, ws[h..])
  {
    PassSkipsHead(db, ws, 0, h);
    PassSettlesEntries(db, ws, h, n, 0);
  }

  /** The final pass over the re-added entries leaves the kept widgets as they are, then the restored entries. */
  lemma RestorePassSettles(db: Db, ws: seq<Widget>, values: seq<Value>)
    ensures var base := Strip(ws);
      var rows := ParseEntries(values);
      FinalPassFrom(db, AddEntries(db, base, rows, 1), 0) == base + RestoredEntries(db, rows, 1)
  {
    var base := Strip(ws);
    var rows := ParseEntries(values);
    var added := AddEntries(db, base, rows, 1);
    AddedIsShaped(db, ws, rows);
    PassOverShaped(db, added, |base|, |rows|);
    assert added[..|base|] == base && added[|base|..] == NewEntries(db, rows, 1);
    SettleAllNewEntries(db, rows, 1);
  }

  // ----- What `onConfigure` leaves -------------------------------------------

  /** `onConfigure` leaves the kept widgets followed by the restored entries, then refreshes the preview. */
  lemma RestoreIsRestoredEntries(db: Db, ws: seq<Widget>, values: seq<Value>)
    ensures Restore(db, ws, values) == UpdatePreview(db, Strip(ws) + RestoredEntries(db, ParseEntries(values), 1))
  {
    RestorePassSettles(db, ws, values);
  }

  /** Entry first + j of the restored entries sits at 4j. */
  lemma RestoredEntriesAt(db: Db, rows: seq<Row>, first: nat, j: nat)
    requires j < |rows|
    ensures RestoredEntries(db, rows, first)[4 * j..4 * j + 4] == RestoredEntry(db, first + j, rows[j])
  {
    BlocksAt((k, row) => RestoredEntry(db, k, row), rows, first, j);
  }

  /** Refreshing the preview leaves every other widget as it is. */
  lemma UpdatePreviewKeeps(db: Db, ws: seq<Widget>, i: nat)
    requires i < |ws| && ws[i].name != "preview_text"
    ensures UpdatePreview(db, ws)[i] == ws[i]
  {
  }

  /** No entry widget is the preview widget. */
  lemma EntryIsNoPreview(db: Db, k: nat, row: Row, o: nat)
    requires o < 4
    ensures RestoredEntry(db, k, row)[o].name != "preview_text"
  {
    var name := RestoredEntry(db, k, row)[o].name;
    if o < 3 {
      EntryKeyIsPromptName(k, if o == 0 then EnabledField else if o == 1 then CategoryField else NameField);
      assert name[2] == 'o';
    } else {
      assert name[0] != 'p';
    }
  }

  /** No restored entry's widget is the preview widget. */
  lemma RestoredEntriesHaveNoPreview(db: Db, rows: seq<Row>, first: nat)
    ensures forall i :: 0 <= i < |RestoredEntries(db, rows, first)| ==> RestoredEntries(db, rows, first)[i].name != "preview_text"
  {
    var entries := RestoredEntries(db, rows, first);
    forall i | 0 <= i < |entries| ensures entries[i].name != "preview_text" {
      var j := i / 4;
      RestoredEntriesAt(db, rows, first, j);
      assert entries[i] == entries[4 * j..4 * j + 4][i % 4];
      EntryIsNoPreview(db, first + j, rows[j], i % 4);
    }
  }

  /** Refreshing the preview leaves the widgets past the head as they are when none of them is the preview widget. */
  lemma PreviewKeepsBody(db: Db, head: seq<Widget>, body: seq<Widget>)
    requires forall i :: 0 <= i < |body| ==> body[i].name != "preview_text"
    ensures |UpdatePreview(db, head + body)| == |head + body|
    ensures UpdatePreview(db, head + body)[|head|..] == body
  {
    var ws := head + body;
    var r := UpdatePreview(db, ws);
    forall i | 0 <= i < |body| ensures r[|head| + i] == body[i] {
      assert ws[|head| + i] == body[i];
      UpdatePreviewKeeps(db, ws, |head| + i);
    }
  }

  /**
   * Past the kept widgets, `onConfigure` leaves exactly the restored
   * entries: entry j + 1 holds row j's restored values (see
   * `RestoredEntriesAt`), the parsed flag (on when missing), the restored
   * category among the database's categories, and the restored prompt
   * name among that category's names, with the options the final pass
   * loaded.
   */
  lemma RestoreValues(db: Db, ws: seq<Widget>, values: seq<Value>)
    ensures |Strip(ws)| <= |Restore(db, ws, values)|
    ensures Restore(db, ws, values)[|Strip(ws)|..] == RestoredEntries(db, ParseEntries(values), 1)
  {
    RestoredEntriesHaveNoPreview(db, ParseEntries(values), 1);
    PreviewKeepsBody(db, Strip(ws), RestoredEntries(db, ParseEntries(values), 1));
    RestoreIsRestoredEntries(db, ws, values);
  }

  // ----- What `onSerialize` then writes ---------------------------------------

  /** The four values one restored row contributes: flag, category, name, then the remove button's "". */
  function RowValues(row: Row): seq<Value> {
    [row.enabled, row.category, row.name, Str("")]
  }

  /** The values of consecutive restored rows. */
  function RestoredValues(db: Db, rows: seq<Row>): (r: seq<Value>)
    ensures |r| == 4 * |rows|
    ensures forall j :: 0 <= j < |rows| ==> r[4 * j..4 * j + 4] == RowValues(RestoredRow(db, rows[j]))
    decreases |rows|
  {
    if rows == [] then []
    else
      var front := RowValues(RestoredRow(db, rows[0]));
      var rest := RestoredValues(db, rows[1..]);
      assert forall j :: 1 <= j < |rows| ==> (front + rest)[4 * j..4 * j + 4] == rest[4 * (j - 1)..4 * (j - 1) + 4] by {
        forall j | 1 <= j < |rows| ensures (front + rest)[4 * j..4 * j + 4] == rest[4 * (j - 1)..4 * (j - 1) + 4] {
          BlockPastFront(front, rest, j);
        }
      }
      assert (front + rest)[0..4] == front;
      front + rest
  }

  /** Past a block of four, block j of the whole is block j - 1 of the rest. */
  lemma BlockPastFront<T>(front: seq<T>, rest: seq<T>, j: nat)
    requires |front| == 4 && 1 <= j && 4 * j + 4 <= |front| + |rest|
    ensures (front + rest)[4 * j..4 * j + 4] == rest[4 * (j - 1)..4 * (j - 1) + 4]
  {
    var a := 4 * (j - 1);
    assert 4 * j == a + 4;
    assert forall i :: a + 4 <= i < a + 8 ==> (front + rest)[i] == rest[i - 4];
  }

  /** Four widgets serialize one after the other. */
  lemma SerializeFour(e: seq<Widget>)
    requires |e| == 4
    ensures Serialize(e) == Emit(e[0]) + Emit(e[1]) + Emit(e[2]) + Emit(e[3])
  {
    assert e == [e[0]] + [e[1]] + [e[2]] + [e[3]];
    SerializeAppend([e[0]] + [e[1]] + [e[2]], [e[3]]);
    SerializeAppend([e[0]] + [e[1]], [e[2]]);
    SerializeAppend([e[0]], [e[1]]);
    SerializeOne(e[0]);
    SerializeOne(e[1]);
    SerializeOne(e[2]);
    SerializeOne(e[3]);
  }

  /** None of a restored entry's widgets is skipped, and each writes its value. */
  lemma SerializeRestoredEntry(db: Db, k: nat, row: Row)
    ensures Serialize(RestoredEntry(db, k, row)) == RowValues(RestoredRow(db, row))
  {
    var e := RestoredEntry(db, k, row);
    forall o | 0 <= o < 4 ensures !Dropped(e[o]) {
      EntryIsNoPreview(db, k, row, o);
    }
    SerializeFour(e);
  }

  /** The restored entries serialize row by row. */
  lemma {:induction false} SerializeRestoredEntries(db: Db, rows: seq<Row>, first: nat)
    ensures Serialize(RestoredEntries(db, rows, first)) == RestoredValues(db, rows)
    decreases |rows|
  {
    if rows != [] {
      RestoredEntriesUnfold(db, rows, first);
      SerializeAppend(RestoredEntry(db, first, rows[0]), RestoredEntries(db, rows[1..], first + 1));
      SerializeRestoredEntry(db, first, rows[0]);
      SerializeRestoredEntries(db, rows[1..], first + 1);
    }
  }

  /** Replacing a skipped widget by another skipped widget leaves the serialized values as they are. */
  lemma SerializeReplacesDropped(ws: seq<Widget>, p: nat, w: Widget)
    requires p < |ws| && Dropped(ws[p]) && Dropped(w)
    ensures Serialize(ws[p := w]) == Serialize(ws)
  {
    assert ws == ws[..p] + [ws[p]] + ws[p + 1..];
    assert ws[p := w] == ws[..p] + [w] + ws[p + 1..];
    SerializeIgnoresDropped(ws[..p], ws[p], ws[p + 1..]);
    SerializeIgnoresDropped(ws[..p], w, ws[p + 1..]);
  }

  /** Refreshing the preview changes only the skipped preview widget, so the serialized values stay the same. */
  lemma SerializeIgnoresPreview(db: Db, ws: seq<Widget>)
    ensures Serialize(UpdatePreview(db, ws)) == Serialize(ws)
  {
    if PreviewText(db, ws).Some? {
      var p := FindIndex(ws, "preview_text").value;
      SerializeReplacesDropped(ws, p, ws[p].(value := Str(PreviewText(db, ws).value)));
    }
  }

  /** What `onSerialize` writes for a restored node: the kept widgets' values, then four per restored row. */
  lemma SerializeRestore(db: Db, ws: seq<Widget>, values: seq<Value>)
    ensures Serialize(Restore(db, ws, values)) == Serialize(Strip(ws)) + RestoredValues(db, ParseEntries(values))
  {
    var entries := RestoredEntries(db, ParseEntries(values), 1);
    RestoreIsRestoredEntries(db, ws, values);
    SerializeIgnoresPreview(db, Strip(ws) + entries);
    SerializeAppend(Strip(ws), entries);
    SerializeRestoredEntries(db, ParseEntries(values), 1);
  }

  /** Parsing two leading values followed by the restored values reads back the restored rows. */
  lemma ParseRestoredValues(db: Db, head: seq<Value>, rows: seq<Row>)
    requires |head| == 2
    ensures ParseEntries(head + RestoredValues(db, rows)) == RestoredRows(db, rows)
  {
    var v := head + RestoredValues(db, rows);
    var parsed := ParseEntries(v);
    assert |parsed| == |rows|;
    forall j | 0 <= j < |rows| ensures parsed[j] == RestoredRow(db, rows[j]) {
      var g := RestoredValues(db, rows)[4 * j..4 * j + 4];
      assert g == RowValues(RestoredRow(db, rows[j]));
      assert v[4 * j + 2] == g[0] && v[4 * j + 3] == g[1] && v[4 * j + 4] == g[2];
    }
  }

  /**
   * Save after load: when the kept widgets write two values (the
   * separator and the add button), parsing what `onSerialize` writes for
   * a restored node gives back each entry's restored values.
   */
  lemma RestoreRoundTrip(db: Db, ws: seq<Widget>, values: seq<Value>)
    requires |Serialize(Strip(ws))| == 2
    ensures ParseEntries(Serialize(Restore(db, ws, values))) == RestoredRows(db, ParseEntries(values))
  {
    SerializeRestore(db, ws, values);
    ParseRestoredValues(db, Serialize(Strip(ws)), ParseEntries(values));
  }

  // ----- Which rows survive unchanged ----------------------------------------

  /** A row that names a flag, a listed category and one of that category's prompts. */
  predicate CleanRow(db: Db, row: Row) {
    && !row.enabled.Undefined?
    && row.category.Str? && row.category.s != "" && row.category.s in Keys(db)
    && row.name.Str? && row.name.s != "" && row.name.s in Names(db, row.category.s)
  }

  /** A clean row is restored as it was. */
  lemma CleanRowRestored(db: Db, row: Row)
    requires CleanRow(db, row)
    ensures RestoredRow(db, row) == row
  {
  }

  /** Restoring a restored row changes nothing: a second save and load keeps every value. */
  lemma RestoredRowIsStable(db: Db, row: Row)
    ensures RestoredRow(db, RestoredRow(db, row)) == RestoredRow(db, row)
  {
    var c := RestoredCategory(db, row);
    var rr := RestoredRow(db, row);
    ChooseIsStable(Keys(db), row.category);
    if c != "" {
      ChooseIsStable(Names(db, c), if KeepsCategory(db, row.category) then row.name else Str(""));
    }
  }

  /** When every parsed row is clean, load then save writes entries that parse back to the same rows. */
  lemma RestoreRoundTripClean(db: Db, ws: seq<Widget>, values: seq<Value>)
    requires |Serialize(Strip(ws))| == 2
    requires forall j :: 0 <= j < |ParseEntries(values)| ==> CleanRow(db, ParseEntries(values)[j])
    ensures ParseEntries(Serialize(Restore(db, ws, values))) == ParseEntries(values)
  {
    RestoreRoundTrip(db, ws, values);
    var rows := ParseEntries(values);
    forall j | 0 <= j < |rows| ensures RestoredRow(db, rows[j]) == rows[j] {
      CleanRowRestored(db, rows[j]);
    }
  }
}
