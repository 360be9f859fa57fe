/**
 * The Prompt Stack node's front end (web/prompt_stack.js) as functions of
 * its widget list and a database snapshot: the dropdown refreshes, the
 * preview, adding and removing entries, `onSerialize`, `onConfigure` and
 * `onGetInputs`. Each request is answered by the backend model directly.
 */
module PromptStackClient {
  import opened Optional
  import opened Js
  import opened Text
  import opened AssocList
  import opened EntryNames
  import opened Widgets
  import opened PromptDbServer

  // ----- Requests ----------------------------------------------------------

  /** `loadCategories`: the category list, or [] when the request fails. */
  function FetchCategories(db: Db): (r: seq<string>)
    ensures r == Keys(db)
  {
    var response := LoadCategories(db);
    if response.ok then response.body else []
  }

  /** `loadPrompts(category)`: a category's prompt names, or [] when the request fails. */
  function FetchPrompts(db: Db, category: Value): (r: seq<string>)
    ensures r == if category.Str? && category.s != "" then Names(db, category.s) else []
  {
    var response := LoadPrompts(db, category);
    if response.ok then response.body else []
  }

  /** `loadPromptText(category, name)`: the stored text, or "" when there is none or the request fails. */
  function FetchText(db: Db, category: Value, name: Value): (r: string)
    ensures r == if Truthy(category) && Truthy(name) && category.Str? && name.Str?
                 then Entry(db, category.s, name.s).GetOr("") else ""
  {
    var response := LoadPromptText(db, category, name);
    if response.ok then response.body else ""
  }

  // ----- Dropdowns ---------------------------------------------------------

  /** `updateCategoryDropdown`: new options, selection by the shared rule, nothing else touched. */
  function UpdateCategoryDropdown(w: Widget, categories: seq<string>, restored: Value): (r: Widget)
    ensures r.options == categories
    ensures r.value == Str(Choose(categories, restored))
    ensures r.value.s in r.options || (r.options == [] && r.value.s == "")
    ensures r.(options := w.options, value := w.value) == w
  {
    w.(options := categories, value := Str(Choose(categories, restored)))
  }

  /** `updatePromptDropdown`: only acts when the category widget's value is truthy. */
  function UpdatePromptDropdown(db: Db, categoryWidget: Widget, promptWidget: Widget, restored: Value): (r: Widget)
    ensures !Truthy(categoryWidget.value) ==> r == promptWidget
    ensures Truthy(categoryWidget.value) ==>
      && r.options == FetchPrompts(db, categoryWidget.value)
      && r.value == Str(Choose(r.options, restored))
      && (r.value.s in r.options || (r.options == [] && r.value.s == ""))
    ensures r.(options := promptWidget.options, value := promptWidget.value) == promptWidget
  {
    if !Truthy(categoryWidget.value) then promptWidget
    else
      var prompts := FetchPrompts(db, categoryWidget.value);
      promptWidget.(options := prompts, value := Str(Choose(prompts, restored)))
  }

  // ----- Preview -----------------------------------------------------------

  /** `name.startsWith('prompt_') && name.endsWith('_enabled')`. */
  predicate IsEnabledName(name: string) {
    StartsWith(name, "prompt_") && EndsWith(name, "_enabled")
  }

  /** `widgets.filter(...)` for the enabled toggles, in widget order. */
  function EnabledWidgets(ws: seq<Widget>): (r: seq<Widget>)
    ensures forall i :: 0 <= i < |r| ==> IsEnabledName(r[i].name)
    ensures |r| <= |ws|
    decreases |ws|
  {
    if ws == [] then []
    else
      var last := ws[|ws| - 1];
      var front := EnabledWidgets(ws[..|ws| - 1]);
      if IsEnabledName(last.name) then front + [last] else front
  }

  /** The filter keeps exactly the widgets with an enabled-toggle name. */
  lemma {:induction false} EnabledWidgetsMembers(ws: seq<Widget>)
    ensures forall w :: w in EnabledWidgets(ws) <==> w in ws && IsEnabledName(w.name)
    decreases |ws|
  {
    if ws != [] {
      EnabledWidgetsMembers(ws[..|ws| - 1]);
      assert forall w :: w in ws <==> w in ws[..|ws| - 1] || w == ws[|ws| - 1];
    }
  }

  lemma {:induction false} EnabledWidgetsAppend(a: seq<Widget>, b: seq<Widget>)
    ensures EnabledWidgets(a + b) == EnabledWidgets(a) + EnabledWidgets(b)
    decreases |b|
  {
    if b == [] {
      assert a + b == a;
    } else {
      var b' := b[..|b| - 1];
      assert (a + b)[..|a + b| - 1] == a + b';
      assert (a + b)[|a + b| - 1] == b[|b| - 1];
      EnabledWidgetsAppend(a, b');
    }
  }

  /** `separatorWidget.value || ", "`, as `join` renders it. */
  function SeparatorText(v: Value): (r: string)
    ensures r != ""
    ensures v.Str? && v.s != "" ==> r == v.s
    ensures !Truthy(v) ==> r == ", "
  {
    if Truthy(v) then ToJsString(v) else ", "
  }

  /**
   * The preview's text for one enabled toggle: the stored text of its
   * entry when the toggle is on and the entry's category and name widgets
   * exist and hold truthy values, else "".
   */
  function EntryText(db: Db, ws: seq<Widget>, e: Widget): (r: string)
    requires IsEnabledName(e.name)
    ensures r != "" ==>
      var tag := EntryTag(e.name);
      var c := Find(ws, TagKey(tag, CategoryField));
      var n := Find(ws, TagKey(tag, NameField));
      && Truthy(e.value) && c.Some? && n.Some?
      && c.value.value.Str? && n.value.value.Str?
      && Entry(db, c.value.value.s, n.value.value.s) == Some(r)
    ensures
      var tag := EntryTag(e.name);
      var c := Find(ws, TagKey(tag, CategoryField));
      var n := Find(ws, TagKey(tag, NameField));
      Truthy(e.value) && c.Some? && n.Some? && c.value.value.Str? && n.value.value.Str?
        && c.value.value.s != "" && n.value.value.s != ""
        && Entry(db, c.value.value.s, n.value.value.s).Some? ==>
        r == Entry(db, c.value.value.s, n.value.value.s).value
  {
    var tag := EntryTag(e.name);
    var c := Find(ws, TagKey(tag, CategoryField));
    var n := Find(ws, TagKey(tag, NameField));
    if Truthy(e.value) && c.Some? && n.Some? && Truthy(c.value.value) && Truthy(n.value.value)
    then FetchText(db, c.value.value, n.value.value)
    else ""
  }

  /** The non-empty entry texts of the given toggles, in order. */
  function PreviewTexts(db: Db, ws: seq<Widget>, es: seq<Widget>): (r: seq<string>)
    requires forall e :: e in es ==> IsEnabledName(e.name)
    ensures |r| <= |es|
    ensures forall t :: t in r ==> t != ""
    decreases |es|
  {
    if es == [] then []
    else
      var t := EntryText(db, ws, es[|es| - 1]);
      PreviewTexts(db, ws, es[..|es| - 1]) + (if t == "" then [] else [t])
  }

  /** The preview text, or None when the node lacks a preview or a separator widget. */
  function PreviewText(db: Db, ws: seq<Widget>): (r: Option<string>)
    ensures r.Some? <==> Find(ws, "preview_text").Some? && Find(ws, "separator").Some?
  {
    match (Find(ws, "preview_text"), Find(ws, "separator"))
    case (Some(_), Some(s)) => Some(Join(SeparatorText(s.value), PreviewTexts(db, ws, EnabledWidgets(ws))))
    case _ => None
  }

  /** `updatePreview`: stores the preview text in the first `preview_text` widget; nothing else changes. */
  function UpdatePreview(db: Db, ws: seq<Widget>): (r: seq<Widget>)
    ensures |r| == |ws|
    ensures PreviewText(db, ws).None? ==> r == ws
    ensures PreviewText(db, ws).Some? ==>
      var p := FindIndex(ws, "preview_text").value;
      && r[p] == ws[p].(value := Str(PreviewText(db, ws).value))
      && forall i :: 0 <= i < |ws| && i != p ==> r[i] == ws[i]
  {
    match (FindIndex(ws, "preview_text"), PreviewText(db, ws))
    case (Some(p), Some(text)) => ws[p := ws[p].(value := Str(text))]
    case _ => ws
  }

  /** `updatePreview`'s loop as written: awaits each entry's text in turn and pushes the non-empty ones. */
  method UpdatePreviewLoop(db: Db, ws: seq<Widget>) returns (r: seq<Widget>)
    ensures r == UpdatePreview(db, ws)
  {
    var preview := FindIndex(ws, "preview_text");
    var separatorWidget := Find(ws, "separator");
    if preview.None? || separatorWidget.None? {
      return ws;
    }
    var separator := SeparatorText(separatorWidget.value.value);
    var stacked: seq<string> := [];
    var enabledWidgets := EnabledWidgets(ws);
    for i := 0 to |enabledWidgets|
      invariant forall e :: e in enabledWidgets ==> IsEnabledName(e.name)
      invariant stacked == PreviewTexts(db, ws, enabledWidgets[..i])
    {
      assert enabledWidgets[..i + 1][..i] == enabledWidgets[..i];
      var promptText := EntryText(db, ws, enabledWidgets[i]);
      if promptText != "" {
        stacked := stacked + [promptText];
      }
    }
    assert enabledWidgets[..|enabledWidgets|] == enabledWidgets;
    var p := preview.value;
    r := ws[p := ws[p].(value := Str(Join(separator, stacked)))];
  }

  // ----- Entry numbers -----------------------------------------------------

  /**
   * `addPromptEntry`'s default number as written: one more than the
   * number of enabled toggles. After a removal it can repeat a number
   * still in use (see `NextEntryNumberCollides`).
   */
  function NextEntryNumber(ws: seq<Widget>): (r: nat)
    ensures r >= 1
    ensures r == |EnabledWidgets(ws)| + 1
  {
    |EnabledWidgets(ws)| + 1
  }

  const RemovePrefix := "\U{274C} Remove Entry "

  /** The entry number a widget name carries, if it is an entry widget or a remove button. */
  function NumberOfName(name: string): Option<nat> {
    if StartsWith(name, "prompt_") then ParseNat(EntryTag(name))
    else if StartsWith(name, RemovePrefix) then ParseNat(name[|RemovePrefix|..])
    else None
  }

  /** Every name that entry k's widgets can carry yields k. */
  lemma NumberOfEntryNames(name: string, k: nat)
    ensures StartsWith(name, EntryPrefix(k)) ==> NumberOfName(name) == Some(k)
    ensures name == RemoveButtonName(k) ==> NumberOfName(name) == Some(k)
  {
    if StartsWith(name, EntryPrefix(k)) {
      TagOfPrefixedName(name, k);
      ParseNatToString(k);
    }
    if name == RemoveButtonName(k) {
      RemoveButtonIsNoEntryName(k);
      assert name[|RemovePrefix|..] == NatToString(k);
      ParseNatToString(k);
    }
  }

  /** The largest entry number any widget name carries (0 if none). */
  function MaxEntryNumber(ws: seq<Widget>): (r: nat)
    ensures forall i :: 0 <= i < |ws| && NumberOfName(ws[i].name).Some? ==> NumberOfName(ws[i].name).value <= r
    decreases |ws|
  {
    if ws == [] then 0
    else
      var rest := MaxEntryNumber(ws[1..]);
      var here := NumberOfName(ws[0].name).GetOr(0);
      assert forall i :: 1 <= i < |ws| ==> ws[i] == ws[1..][i - 1];
      if here > rest then here else rest
  }

  /** The corrected default: one more than the largest number in use. */
  function FreshEntryNumber(ws: seq<Widget>): (r: nat)
    ensures r >= 1
    ensures forall i :: 0 <= i < |ws| && NumberOfName(ws[i].name).Some? ==> NumberOfName(ws[i].name).value < r
  {
    MaxEntryNumber(ws) + 1
  }

  /** No widget carries the fresh number: neither an entry widget nor a remove button. */
  lemma FreshEntryNumberIsFresh(ws: seq<Widget>)
    ensures forall i :: 0 <= i < |ws| ==>
      !StartsWith(ws[i].name, EntryPrefix(FreshEntryNumber(ws))) && ws[i].name != RemoveButtonName(FreshEntryNumber(ws))
  {
    var k := FreshEntryNumber(ws);
    forall i | 0 <= i < |ws|
      ensures !StartsWith(ws[i].name, EntryPrefix(k)) && ws[i].name != RemoveButtonName(k)
    {
      NumberOfEntryNames(ws[i].name, k);
    }
  }

  // ----- Adding and removing entries ---------------------------------------

  /** An entry's three values: what `addPromptEntry` receives as `init` and `onConfigure` parses. */
  datatype Row = Row(enabled: Value, category: Value, name: Value)

  /** `addPromptEntry()` without initial values. */
  const NoInit := Row(Undefined, Undefined, Undefined)

  /** The four widgets `addPromptEntry` appends for entry k, in order. */
  function EntryWidgets(k: nat, enabled: Value, category: Widget, prompt: Widget): seq<Widget> {
    [ NewWidget(Toggle, EntryKey(k, EnabledField), enabled, []),
      category,
      prompt,
      NewWidget(Button, RemoveButtonName(k), Str(""), []) ]
  }

  /**
   * `addPromptEntry(init, entryNum)`. Without an explicit number the entry
   * takes `FreshEntryNumber` (see the findings in the README).
   */
  function AddEntry(db: Db, ws: seq<Widget>, init: Row, entryNum: Option<nat>): (r: seq<Widget>)
    ensures |r| == |ws| + 4 && r[..|ws|] == ws
    ensures EntryNamesAt(r, |ws|, entryNum.GetOr(FreshEntryNumber(ws)))
  {
    AddNumberedEntry(db, ws, init, entryNum.GetOr(FreshEntryNumber(ws)))
  }

  /** `addPromptEntry` once the entry number k is settled. */
  function AddNumberedEntry(db: Db, ws: seq<Widget>, init: Row, k: nat): (r: seq<Widget>)
    ensures |r| == |ws| + 4 && r[..|ws|] == ws
    ensures EntryNamesAt(r, |ws|, k)
  {
    ws + NewEntry(db, k, init)
  }

  /** The four widgets from index `at` on carry entry k's names, in `addPromptEntry`'s order. */
  predicate EntryNamesAt(r: seq<Widget>, at: nat, k: nat)
    requires at + 4 <= |r|
  {
    && r[at].name == EntryKey(k, EnabledField)
    && r[at + 1].name == EntryKey(k, CategoryField)
    && r[at + 2].name == EntryKey(k, NameField)
    && r[at + 3].name == RemoveButtonName(k)
  }

  /** The four widgets of a new entry k, after its prompt dropdown is refreshed. */
  function NewEntry(db: Db, k: nat, init: Row): seq<Widget> {
    var categories := FetchCategories(db);
    var selectedCategory := if Truthy(init.category) then init.category
                            else Str(if |categories| > 0 then categories[0] else "");
    var prompts := if Truthy(selectedCategory) then FetchPrompts(db, selectedCategory) else [];
    var selectedPrompt := if Truthy(init.name) then init.name
                          else Str(if |prompts| > 0 then prompts[0] else "");
    var enabled := if init.enabled != Undefined then init.enabled else Bool(true);
    var categoryWidget := NewWidget(Combo, EntryKey(k, CategoryField), selectedCategory, categories);
    var promptWidget := NewWidget(Combo, EntryKey(k, NameField), selectedPrompt, prompts);
    var promptWidget' := if Truthy(init.name) then promptWidget.(value := init.name) else promptWidget;
    EntryWidgets(k, enabled, categoryWidget, UpdatePromptDropdown(db, categoryWidget, promptWidget', init.name))
  }

  lemma NewEntryNames(db: Db, k: nat, init: Row)
    ensures |NewEntry(db, k, init)| == 4 && EntryNamesAt(NewEntry(db, k, init), 0, k)
  {
  }

  /**
   * The values a new entry starts with: the given flag (default on), the
   * given category or else the first one, and a prompt chosen from that
   * category's names by the dropdown rule.
   */
  lemma AddEntrySelects(db: Db, ws: seq<Widget>, init: Row, entryNum: Option<nat>)
    ensures var r := AddEntry(db, ws, init, entryNum);
      && r[|ws|].value == (if init.enabled.Undefined? then Bool(true) else init.enabled)
      && r[|ws| + 1].options == Keys(db)
      && r[|ws| + 1].value ==
           (if Truthy(init.category) then init.category else Str(if Keys(db) != [] then Keys(db)[0] else ""))
      && var c := r[|ws| + 1].value; var p := r[|ws| + 2];
         if Truthy(c) then p.options == FetchPrompts(db, c) && p.value == Str(Choose(p.options, init.name))
         else p.options == [] && p.value == (if Truthy(init.name) then init.name else Str(""))
  {
  }

  /** A new entry added without a number shares no name with the widgets already there. */
  lemma AddEntryIsFresh(db: Db, ws: seq<Widget>, init: Row)
    ensures var r := AddEntry(db, ws, init, None);
      forall i, j :: 0 <= i < |ws| && |ws| <= j < |r| ==> r[i].name != r[j].name
  {
    var r := AddEntry(db, ws, init, None);
    var k := FreshEntryNumber(ws);
    FreshEntryNumberIsFresh(ws);
    EntryKeyIsTagKey(k, EnabledField);
    EntryKeyIsTagKey(k, CategoryField);
    EntryKeyIsTagKey(k, NameField);
    assert r[..|ws|] == ws;
    forall i, j | 0 <= i < |ws| && |ws| <= j < |r| ensures r[i].name != r[j].name {
      assert r[i] == ws[i];
    }
  }

  /** The names of the first entries, spelled out. */
  lemma SmallEntryNames()
    ensures EntryKey(1, EnabledField) == "prompt_1_enabled"
    ensures EntryKey(2, EnabledField) == "prompt_2_enabled"
    ensures EntryKey(3, EnabledField) == "prompt_3_enabled"
    ensures EntryPrefix(2) == "prompt_2_"
  {
    assert NatToString(1) == "1" && NatToString(2) == "2" && NatToString(3) == "3";
  }

  /** A toggle as `addPromptEntry` creates it. */
  function ToggleNamed(name: string): Widget {
    NewWidget(Toggle, name, Bool(true), [])
  }

  lemma RemoveMiddleToggle()
    ensures RemoveEntry([ToggleNamed("prompt_1_enabled"), ToggleNamed("prompt_2_enabled"), ToggleNamed("prompt_3_enabled")], 2)
         == [ToggleNamed("prompt_1_enabled"), ToggleNamed("prompt_3_enabled")]
  {
    SmallEntryNames();
    var t1, t2, t3 := ToggleNamed("prompt_1_enabled"), ToggleNamed("prompt_2_enabled"), ToggleNamed("prompt_3_enabled");
    assert !RemovedBy(t1, 2) by { assert t1.name[..9] != EntryPrefix(2); }
    assert RemovedBy(t2, 2) by { assert t2.name[..9] == EntryPrefix(2); }
    assert !RemovedBy(t3, 2) by { assert t3.name[..9] != EntryPrefix(2); }
    assert [t3][1..] == [];
    assert RemoveEntry([t3], 2) == [t3];
    assert [t2, t3][1..] == [t3];
    assert RemoveEntry([t2, t3], 2) == [t3];
    assert [t1, t2, t3][1..] == [t2, t3];
  }

  lemma TwoTogglesEnabled()
    ensures EnabledWidgets([ToggleNamed("prompt_1_enabled"), ToggleNamed("prompt_3_enabled")])
         == [ToggleNamed("prompt_1_enabled"), ToggleNamed("prompt_3_enabled")]
  {
    var t1, t3 := ToggleNamed("prompt_1_enabled"), ToggleNamed("prompt_3_enabled");
    assert IsEnabledName(t1.name) && IsEnabledName(t3.name);
    assert [t1, t3][..1] == [t1] && [t1][..0] == [];
  }

  /**
   * The numbering as written repeats a number in use: with entries 1, 2
   * and 3, removing entry 2 leaves two enabled toggles, so the next entry
   * is numbered 3 again and its toggle takes the name entry 3's toggle
   * still carries.
   */
  lemma NextEntryNumberCollides(db: Db)
    ensures
      var ws := RemoveEntry([ToggleNamed("prompt_1_enabled"), ToggleNamed("prompt_2_enabled"),
                             ToggleNamed("prompt_3_enabled")], 2);
      && NextEntryNumber(ws) == 3
      && AddNumberedEntry(db, ws, NoInit, NextEntryNumber(ws))[2].name == ws[1].name
  {
    RemoveMiddleToggle();
    TwoTogglesEnabled();
    SmallEntryNames();
  }

  /** The remove handler's filter: entry n's widgets and its remove button. */
  predicate RemovedBy(w: Widget, n: nat) {
    w.name != "" && (StartsWith(w.name, EntryPrefix(n)) || w.name == RemoveButtonName(n))
  }

  /** Entry n's remove handler: drops exactly the widgets it names; the rest keep their order and values. */
  function RemoveEntry(ws: seq<Widget>, n: nat): (r: seq<Widget>)
    ensures forall w :: w in r <==> w in ws && !RemovedBy(w, n)
    ensures |r| <= |ws|
    decreases |ws|
  {
    if ws == [] then []
    else
      var rest := RemoveEntry(ws[1..], n);
      assert forall w :: w in ws <==> w == ws[0] || w in ws[1..];
      if RemovedBy(ws[0], n) then rest else [ws[0]] + rest
  }

  /** Removal works piecewise, so the kept widgets stay in their original order. */
  lemma {:induction false} RemoveEntryAppend(a: seq<Widget>, b: seq<Widget>, n: nat)
    ensures RemoveEntry(a + b, n) == RemoveEntry(a, n) + RemoveEntry(b, n)
  {
    if a == [] {
      assert a + b == b;
    } else {
      assert (a + b)[0] == a[0];
      assert (a + b)[1..] == a[1..] + b;
      RemoveEntryAppend(a[1..], b, n);
    }
  }

  /** Removing an entry twice is removing it once. */
  lemma {:induction false} RemoveEntryIdempotent(ws: seq<Widget>, n: nat)
    ensures RemoveEntry(RemoveEntry(ws, n), n) == RemoveEntry(ws, n)
  {
    if ws != [] {
      RemoveEntryIdempotent(ws[1..], n);
    }
  }

  /** Widgets of every other entry are untouched and keep their numbers. */
  lemma RemoveEntryKeepsOtherEntries(ws: seq<Widget>, n: nat, j: nat, field: string)
    requires j != n
    ensures forall w: Widget :: w.name == EntryKey(j, field) ==> (w in RemoveEntry(ws, n) <==> w in ws)
    ensures forall w: Widget :: w.name == RemoveButtonName(j) ==> (w in RemoveEntry(ws, n) <==> w in ws)
  {
    forall w: Widget | w.name == EntryKey(j, field) ensures !RemovedBy(w, n) {
      EntryKeyIsTagKey(j, field);
      if StartsWith(w.name, EntryPrefix(n)) {
        TagOfPrefixedName(w.name, n);
        TagOfPrefixedName(w.name, j);
        NatToStringInjective(n, j);
      }
      RemoveButtonIsNoEntryName(n);
    }
    forall w: Widget | w.name == RemoveButtonName(j) ensures !RemovedBy(w, n) {
      RemoveButtonIsNoEntryName(j);
      EntryPrefixIsPromptPrefix(w.name, n);
      if w.name == RemoveButtonName(n) {
        RemoveButtonNameInjective(j, n);
      }
    }
  }

  // ----- onSerialize -------------------------------------------------------

  /** The widgets `onSerialize` skips. */
  predicate Dropped(w: Widget) {
    || (w.kind == Button && w.labelText != "" && StartsWith(w.labelText, "\U{274C} Remove Entry"))
    || w.name == "preview_text"
    || (w.kind == TextBox && w.labelText != "" && StartsWith(w.labelText, "\U{2500}\U{2500}\U{2500}\U{2500}\U{2500}\U{2500}\U{2500}\U{2500}\U{2500}\U{2500}\U{2500}\U{2500}\U{2500}\U{2500}\U{2500}\U{2500}"))
    || (w.kind == TextBox && w.labelText == "Stacked Prompts:")
  }

  /** What one widget contributes: its hook's value, or its defined value, unless it is skipped. */
  function Emit(w: Widget): (r: seq<Value>)
    ensures |r| <= 1
    ensures Dropped(w) ==> r == []
    ensures !Dropped(w) && w.hook.None? ==> (r == [] <==> w.value.Undefined?)
    ensures !Dropped(w) && w.hook.Some? ==> r == [w.hook.value]
    ensures !Dropped(w) && w.hook.None? && !w.value.Undefined? ==> r == [w.value]
  {
    if Dropped(w) then []
    else if w.hook.Some? then [w.hook.value]
    else if w.value != Undefined then [w.value]
    else []
  }

  /** `onSerialize`: the values of the kept widgets, in widget order. */
  function Serialize(ws: seq<Widget>): (r: seq<Value>)
    ensures |r| <= |ws|
    decreases |ws|
  {
    if ws == [] then [] else Serialize(ws[..|ws| - 1]) + Emit(ws[|ws| - 1])
  }

  /** Serialization works widget by widget, so it keeps widget order. */
  lemma {:induction false} SerializeAppend(a: seq<Widget>, b: seq<Widget>)
    ensures Serialize(a + b) == Serialize(a) + Serialize(b)
    decreases |b|
  {
    if b == [] {
      assert a + b == a;
    } else {
      var b' := b[..|b| - 1];
      assert (a + b)[..|a + b| - 1] == a + b';
      assert (a + b)[|a + b| - 1] == b[|b| - 1];
      SerializeAppend(a, b');
    }
  }

  /** Skipped widgets can be inserted anywhere without changing the output. */
  lemma SerializeIgnoresDropped(a: seq<Widget>, w: Widget, b: seq<Widget>)
    requires Dropped(w)
    ensures Serialize(a + [w] + b) == Serialize(a + b)
  {
    SerializeAppend(a + [w], b);
    SerializeAppend(a, [w]);
    SerializeAppend(a, b);
    SerializeOne(w);
  }

  lemma SerializeOne(w: Widget)
    ensures Serialize([w]) == Emit(w)
  {
    assert [w][..0] == [];
  }

  // ----- onConfigure -------------------------------------------------------

  /** The restore parser from index i: groups of four, the first value of each skipped. */
  function ParseFrom(values: seq<Value>, i: nat): (rows: seq<Row>)
    requires i >= 1
    ensures |rows| == if i + 3 < |values| then (|values| - i) / 4 else 0
    ensures forall j :: 0 <= j < |rows| ==>
      rows[j] == Row(values[i + 4 * j + 1], values[i + 4 * j + 2], values[i + 4 * j + 3])
    decreases |values| - i
  {
    if i + 3 < |values| then [Row(values[i + 1], values[i + 2], values[i + 3])] + ParseFrom(values, i + 4)
    else []
  }

  /**
   * `onConfigure`'s parse of `widgets_values`: row j takes enabled,
   * category and name from indices 4j+2, 4j+3 and 4j+4, for every j with
   * 4j+4 < length.
   */
  function ParseEntries(values: seq<Value>): (rows: seq<Row>)
    ensures |rows| == if |values| >= 5 then (|values| - 1) / 4 else 0
    ensures forall j :: 0 <= j < |rows| ==> rows[j] == Row(values[4 * j + 2], values[4 * j + 3], values[4 * j + 4])
  {
    ParseFrom(values, 1)
  }

  /** `onConfigure`'s parse loop as written. */
  method ParseEntriesLoop(values: seq<Value>) returns (rows: seq<Row>)
    ensures rows == ParseEntries(values)
  {
    rows := [];
    var i := 1;
    while i + 3 < |values|
      invariant i >= 1 && (i - 1) % 4 == 0
      invariant rows + ParseFrom(values, i) == ParseEntries(values)
      decreases |values| - i
    {
      rows := rows + [Row(values[i + 1], values[i + 2], values[i + 3])];
      i := i + 4;
    }
    assert rows + [] == rows;
  }

  /** The values of one group the parser expects: a skipped value, then enabled, category, name. */
  function Group(skip: Value, row: Row): seq<Value> {
    [skip, row.enabled, row.category, row.name]
  }

  /** A leading value followed by one group per row. */
  function Groups(head: Value, skips: seq<Value>, rows: seq<Row>): (r: seq<Value>)
    requires |skips| == |rows|
    ensures |r| == 1 + 4 * |rows|
    ensures forall j :: 0 <= j < |rows| ==> r[4 * j + 1 .. 4 * j + 5] == Group(skips[j], rows[j])
    decreases |rows|
  {
    if rows == [] then [head]
    else
      var front := Groups(head, skips[..|rows| - 1], rows[..|rows| - 1]);
      var r := front + Group(skips[|rows| - 1], rows[|rows| - 1]);
      assert forall j :: 0 <= j < |rows| - 1 ==> r[4 * j + 1 .. 4 * j + 5] == front[4 * j + 1 .. 4 * j + 5];
      r
  }

  /** Reading back the layout the parser expects gives the rows that were written. */
  lemma ParseEntriesOfGroups(head: Value, skips: seq<Value>, rows: seq<Row>)
    requires |skips| == |rows|
    ensures ParseEntries(Groups(head, skips, rows)) == rows
  {
    var values := Groups(head, skips, rows);
    var parsed := ParseEntries(values);
    assert |values| - 1 == 4 * |rows|;
    forall j | 0 <= j < |rows| ensures parsed[j] == rows[j] {
      assert values[4 * j + 1 .. 4 * j + 5] == Group(skips[j], rows[j]);
      assert values[4 * j + 2] == values[4 * j + 1 .. 4 * j + 5][1];
      assert values[4 * j + 3] == values[4 * j + 1 .. 4 * j + 5][2];
      assert values[4 * j + 4] == values[4 * j + 1 .. 4 * j + 5][3];
    }
  }

  /** The widgets `onConfigure` drops first: those with a `prompt_` name, and labelled remove buttons. */
  predicate StripDrops(w: Widget) {
    || (w.name != "" && StartsWith(w.name, "prompt_"))
    || (w.kind == Button && w.labelText != "" && StartsWith(w.labelText, "\U{274C} Remove Entry"))
  }

  /** `onConfigure`'s first step: drop every `prompt_` widget, then every labelled remove button. */
  function Strip(ws: seq<Widget>): (r: seq<Widget>)
    ensures forall w :: w in r <==> w in ws && !StripDrops(w)
    ensures |r| <= |ws|
    decreases |ws|
  {
    if ws == [] then []
    else
      var rest := Strip(ws[1..]);
      var w := ws[0];
      assert forall v :: v in ws <==> v == w || v in ws[1..];
      if StripDrops(w) then rest else [w] + rest
  }

  /** One widget is kept or dropped on its own. */
  lemma StripOne(w: Widget)
    ensures Strip([w]) == if StripDrops(w) then [] else [w]
  {
    assert [w][1..] == [];
  }

  /** Stripping works piecewise, so the kept widgets stay in their original order and multiplicity. */
  lemma {:induction false} StripAppend(a: seq<Widget>, b: seq<Widget>)
    ensures Strip(a + b) == Strip(a) + Strip(b)
  {
    if a == [] {
      assert a + b == b;
    } else {
      assert (a + b)[0] == a[0];
      assert (a + b)[1..] == a[1..] + b;
      StripAppend(a[1..], b);
    }
  }

  /**
   * The widgets of the parsed rows as entries first, first + 1, ..., in
   * order. A numbered entry's widgets do not depend on the widgets already
   * there, so appending them one `addPromptEntry` call at a time appends
   * exactly this list.
   */
  function NewEntries(db: Db, rows: seq<Row>, first: nat): (r: seq<Widget>)
    ensures |r| == 4 * |rows|
    decreases |rows|
  {
    if rows == [] then []
    else NewEntry(db, first, rows[0]) + NewEntries(db, rows[1..], first + 1)
  }

  /** Adds the parsed rows after the widgets already there. */
  function AddEntries(db: Db, ws: seq<Widget>, rows: seq<Row>, first: nat): (r: seq<Widget>)
    ensures |r| == |ws| + 4 * |rows| && r[..|ws|] == ws
  {
    ws + NewEntries(db, rows, first)
  }

  /** Entry names found in a list stay entry names when widgets are put in front of it. */
  lemma EntryNamesShift(front: seq<Widget>, s: seq<Widget>, at: nat, k: nat)
    requires at + 4 <= |s| && EntryNamesAt(s, at, k)
    ensures EntryNamesAt(front + s, |front| + at, k)
  {
    var r := front + s;
    var b := |front| + at;
    assert r[b] == s[at] && r[b + 1] == s[at + 1] && r[b + 2] == s[at + 2] && r[b + 3] == s[at + 3];
  }

  /** Row j of the rows becomes entry first + j, at position 4j of the new widgets. */
  lemma {:induction false} NewEntriesNames(db: Db, rows: seq<Row>, first: nat, j: nat)
    requires j < |rows|
    ensures EntryNamesAt(NewEntries(db, rows, first), 4 * j, first + j)
    decreases j
  {
    var e := NewEntry(db, first, rows[0]);
    var rest := NewEntries(db, rows[1..], first + 1);
    if j == 0 {
      NewEntryNames(db, first, rows[0]);
      EntryNamesExtend(e, e + rest, 0, first);
    } else {
      NewEntriesNames(db, rows[1..], first + 1, j - 1);
      EntryNamesShift(e, rest, 4 * (j - 1), first + j);
    }
  }

  /** Row j of the parsed rows becomes entry first + j, at position |ws| + 4j. */
  lemma AddEntriesNames(db: Db, ws: seq<Widget>, rows: seq<Row>, first: nat, j: nat)
    requires j < |rows|
    ensures EntryNamesAt(AddEntries(db, ws, rows, first), |ws| + 4 * j, first + j)
  {
    NewEntriesNames(db, rows, first, j);
    EntryNamesShift(ws, NewEntries(db, rows, first), 4 * j, first + j);
  }

  /** Entry names found in a prefix stay where they are when widgets are appended. */
  lemma EntryNamesExtend(prev: seq<Widget>, r: seq<Widget>, at: nat, k: nat)
    requires |prev| <= |r| && r[..|prev|] == prev
    requires at + 4 <= |prev| && EntryNamesAt(prev, at, k)
    ensures EntryNamesAt(r, at, k)
  {
    assert r[at] == prev[at] && r[at + 1] == prev[at + 1] && r[at + 2] == prev[at + 2] && r[at + 3] == prev[at + 3];
  }

  /** `name.startsWith("prompt_") && name.endsWith("_category")`. */
  predicate IsCategoryName(name: string) {
    StartsWith(name, "prompt_") && EndsWith(name, "_category")
  }

  /** `name.startsWith("prompt_") && name.endsWith("_name")`: what the final pass may touch besides categories. */
  predicate IsPromptName(name: string) {
    StartsWith(name, "prompt_") && EndsWith(name, "_name")
  }

  /** The prompt widget the final pass pairs with category widget i, if any. */
  function Partner(ws: seq<Widget>, i: nat): Option<nat>
    requires i < |ws| && IsCategoryName(ws[i].name)
  {
    FindIndex(ws, TagKey(EntryTag(ws[i].name), NameField))
  }

  lemma PartnerIsPromptWidget(ws: seq<Widget>, i: nat)
    requires i < |ws| && IsCategoryName(ws[i].name)
    ensures Partner(ws, i).Some? ==>
      && IsPromptName(ws[Partner(ws, i).value].name)
      && !IsCategoryName(ws[Partner(ws, i).value].name)
      && Partner(ws, i).value != i
  {
    var n := TagKey(EntryTag(ws[i].name), NameField);
    assert n[..7] == "prompt_";
    assert n[|n| - 5..] == "_name";
    assert n[|n| - 1] == 'e';
    assert ws[i].name[|ws[i].name| - 1] == 'y';
  }

  /** One step of the final pass: category widget i and then its partner p. */
  function FinalStep(db: Db, ws: seq<Widget>, i: nat, p: nat): (r: seq<Widget>)
    requires i < |ws| && p < |ws| && i != p
    ensures |r| == |ws|
    ensures forall j :: 0 <= j < |ws| ==> r[j].name == ws[j].name && r[j].kind == ws[j].kind
    ensures forall j :: 0 <= j < |ws| && j != i && j != p ==> r[j] == ws[j]
    ensures r[i] == UpdateCategoryDropdown(ws[i], FetchCategories(db), ws[i].value)
  {
    var c := UpdateCategoryDropdown(ws[i], FetchCategories(db), ws[i].value);
    var ws1 := ws[i := c];
    ws1[p := UpdatePromptDropdown(db, c, ws1[p], ws1[p].value)]
  }

  /**
   * The final pass from index i on: each category widget that has a
   * prompt partner gets the category list and the selection rule, then
   * its partner is refreshed from the new category value.
   */
  function FinalPassFrom(db: Db, ws: seq<Widget>, i: nat): (r: seq<Widget>)
    ensures |r| == |ws|
    ensures forall j :: 0 <= j < |ws| ==> r[j].name == ws[j].name && r[j].kind == ws[j].kind
    ensures forall j :: 0 <= j < |ws| && !IsCategoryName(ws[j].name) && !IsPromptName(ws[j].name) ==> r[j] == ws[j]
    ensures forall j :: 0 <= j < |ws| && j < i && IsCategoryName(ws[j].name) ==> r[j] == ws[j]
    decreases |ws| - i
  {
    if i >= |ws| then ws
    else if !IsCategoryName(ws[i].name) then FinalPassFrom(db, ws, i + 1)
    else
      match Partner(ws, i)
      case None => FinalPassFrom(db, ws, i + 1)
      case Some(p) =>
        PartnerIsPromptWidget(ws, i);
        FinalPassFrom(db, FinalStep(db, ws, i, p), i + 1)
  }

  /** The widget lists the database's categories and selects one of them, or "" when there are none. */
  predicate SelectsCategory(db: Db, w: Widget) {
    && w.options == Keys(db)
    && w.value.Str? && (w.value.s in Keys(db) || (Keys(db) == [] && w.value.s == ""))
  }

  /** From index i on, every category widget of ws with a prompt partner is one r's widget at that index selects. */
  predicate SelectsFrom(db: Db, ws: seq<Widget>, r: seq<Widget>, i: nat)
    requires |r| == |ws|
  {
    forall j :: i <= j < |ws| && IsCategoryName(ws[j].name) && Partner(ws, j).Some? ==> SelectsCategory(db, r[j])
  }

  /**
   * After the final pass, every category widget from index i on that has a
   * prompt partner lists the database's categories and selects one of
   * them (or "" when there are none).
   */
  lemma {:induction false} FinalPassSelectsCategories(db: Db, ws: seq<Widget>, i: nat)
    ensures var r := FinalPassFrom(db, ws, i);
      forall j :: i <= j < |ws| && IsCategoryName(ws[j].name) && Partner(ws, j).Some? ==> SelectsCategory(db, r[j])
  {
    FinalPassSelectsFrom(db, ws, i);
  }

  lemma {:induction false} FinalPassSelectsFrom(db: Db, ws: seq<Widget>, i: nat)
    ensures SelectsFrom(db, ws, FinalPassFrom(db, ws, i), i)
    decreases |ws| - i, 1
  {
    if i < |ws| {
      if !IsCategoryName(ws[i].name) || Partner(ws, i).None? {
        FinalPassSkips(db, ws, i);
        FinalPassSelectsFrom(db, ws, i + 1);
        SelectsAfterSkip(db, ws, FinalPassFrom(db, ws, i), i);
      } else {
        StepSelectsFrom(db, ws, i, Partner(ws, i).value);
      }
    }
  }

  /** The step case of `FinalPassSelectsFrom`. */
  lemma {:induction false} StepSelectsFrom(db: Db, ws: seq<Widget>, i: nat, p: nat)
    requires i < |ws| && IsCategoryName(ws[i].name) && Partner(ws, i) == Some(p)
    ensures SelectsFrom(db, ws, FinalPassFrom(db, ws, i), i)
    decreases |ws| - i, 0
  {
    PartnerIsPromptWidget(ws, i);
    var ws2 := FinalStep(db, ws, i, p);
    FinalPassSteps(db, ws, i, p);
    FinalStepSelects(db, ws, i, p);
    FinalPassSelectsFrom(db, ws2, i + 1);
    FinalStepKeepsPartners(db, ws, i, p);
    SelectsAfterStep(db, ws, ws2, FinalPassFrom(db, ws, i), i);
  }

  /** The final pass skips a widget that is not a category widget with a partner. */
  lemma FinalPassSkips(db: Db, ws: seq<Widget>, i: nat)
    requires i < |ws| && (!IsCategoryName(ws[i].name) || Partner(ws, i).None?)
    ensures FinalPassFrom(db, ws, i) == FinalPassFrom(db, ws, i + 1)
  {
  }

  /** The final pass steps at a category widget with a partner, and leaves that widget as the step left it. */
  lemma FinalPassSteps(db: Db, ws: seq<Widget>, i: nat, p: nat)
    requires i < |ws| && IsCategoryName(ws[i].name) && Partner(ws, i) == Some(p) && p < |ws| && p != i
    ensures FinalPassFrom(db, ws, i) == FinalPassFrom(db, FinalStep(db, ws, i, p), i + 1)
    ensures FinalPassFrom(db, ws, i)[i] == FinalStep(db, ws, i, p)[i]
  {
  }

  /** A widget the final pass skips adds nothing to prove at i. */
  lemma SelectsAfterSkip(db: Db, ws: seq<Widget>, r: seq<Widget>, i: nat)
    requires i < |ws| && |r| == |ws|
    requires !IsCategoryName(ws[i].name) || Partner(ws, i).None?
    requires SelectsFrom(db, ws, r, i + 1)
    ensures SelectsFrom(db, ws, r, i)
  {
  }

  /** What a final step at i and the pass after it establish gives the claim from i on. */
  lemma SelectsAfterStep(db: Db, ws: seq<Widget>, ws2: seq<Widget>, r: seq<Widget>, i: nat)
    requires i < |ws| && |r| == |ws| && KeepsPartners(ws, ws2)
    requires r[i] == ws2[i] && SelectsCategory(db, ws2[i])
    requires SelectsFrom(db, ws2, r, i + 1)
    ensures SelectsFrom(db, ws, r, i)
  {
  }

  /** ws2 has the names of ws, and every category widget of ws has the same partner in both. */
  predicate KeepsPartners(ws: seq<Widget>, ws2: seq<Widget>) {
    && SameNames(ws2, ws)
    && forall j :: 0 <= j < |ws| && IsCategoryName(ws[j].name) ==> Partner(ws2, j) == Partner(ws, j)
  }

  /** A final step leaves its category widget listing the database's categories and selecting one. */
  lemma FinalStepSelects(db: Db, ws: seq<Widget>, i: nat, p: nat)
    requires i < |ws| && p < |ws| && i != p
    ensures SelectsCategory(db, FinalStep(db, ws, i, p)[i])
  {
  }

  /** A final step renames nothing, so every category widget keeps its partner. */
  lemma FinalStepKeepsPartners(db: Db, ws: seq<Widget>, i: nat, p: nat)
    requires i < |ws| && p < |ws| && i != p
    ensures KeepsPartners(ws, FinalStep(db, ws, i, p))
  {
    var ws2 := FinalStep(db, ws, i, p);
    forall j | 0 <= j < |ws| && IsCategoryName(ws[j].name) ensures Partner(ws2, j) == Partner(ws, j) {
      NamesDecideFindIndex(ws, ws2, TagKey(EntryTag(ws[j].name), NameField));
    }
  }

  /** Two widget lists with the same names answer every name search alike. */
  lemma {:induction false} NamesDecideFindIndex(a: seq<Widget>, b: seq<Widget>, name: string)
    requires |a| == |b| && forall j :: 0 <= j < |a| ==> a[j].name == b[j].name
    ensures FindIndex(a, name) == FindIndex(b, name)
  {
    if a != [] {
      NamesDecideFindIndex(a[1..], b[1..], name);
    }
  }

  /** Both lists have the same length and the same name at every index. */
  predicate SameNames(a: seq<Widget>, b: seq<Widget>) {
    |a| == |b| && forall j :: 0 <= j < |a| ==> a[j].name == b[j].name
  }

  /** Refreshing the preview renames nothing. */
  lemma UpdatePreviewKeepsNames(db: Db, ws: seq<Widget>)
    ensures SameNames(UpdatePreview(db, ws), ws)
  {
  }

  lemma EntryNamesKept(a: seq<Widget>, b: seq<Widget>, at: nat, k: nat)
    requires SameNames(a, b) && at + 4 <= |a|
    ensures EntryNamesAt(a, at, k) <==> EntryNamesAt(b, at, k)
  {
  }

  /** From index `at` on, r holds the widgets of entries 1 to count, four by four. */
  predicate EntriesNumbered(r: seq<Widget>, at: nat, count: nat) {
    at + 4 * count <= |r| && forall j :: 0 <= j < count ==> EntryNamesAt(r, at + 4 * j, j + 1)
  }

  /** A list named like the added entries carries their names. */
  lemma RenamedEntriesKept(db: Db, base: seq<Widget>, rows: seq<Row>, r: seq<Widget>)
    requires SameNames(r, AddEntries(db, base, rows, 1))
    ensures EntriesNumbered(r, |base|, |rows|)
  {
    AddEntriesNumbered(db, base, rows);
    NumberedKept(r, AddEntries(db, base, rows, 1), |base|, |rows|);
  }

  /** The added entries are numbered from 1, four widgets each, after the base. */
  lemma AddEntriesNumbered(db: Db, base: seq<Widget>, rows: seq<Row>)
    ensures EntriesNumbered(AddEntries(db, base, rows, 1), |base|, |rows|)
  {
    var r := AddEntries(db, base, rows, 1);
    forall j | 0 <= j < |rows| ensures EntryNamesAt(r, |base| + 4 * j, j + 1) {
      AddEntriesNames(db, base, rows, 1, j);
    }
    assert |base| + 4 * |rows| <= |r|;
  }

  lemma NumberedKept(a: seq<Widget>, b: seq<Widget>, at: nat, count: nat)
    requires SameNames(a, b) && EntriesNumbered(b, at, count)
    ensures EntriesNumbered(a, at, count)
  {
    forall j | 0 <= j < count ensures EntryNamesAt(a, at + 4 * j, j + 1) {
      EntryNamesKept(a, b, at + 4 * j, j + 1);
    }
  }

  /**
   * `onConfigure` after the host's own restore: strip the entry widgets,
   * re-add one entry per parsed row numbered from 1, run the final
   * dropdown pass, then refresh the preview.
   */
  function Restore(db: Db, ws: seq<Widget>, values: seq<Value>): (r: seq<Widget>)
    ensures |r| == |Strip(ws)| + 4 * |ParseEntries(values)|
    ensures forall j :: 0 <= j < |Strip(ws)| ==> r[j].name == Strip(ws)[j].name
    ensures EntriesNumbered(r, |Strip(ws)|, |ParseEntries(values)|)
  {
    var base := Strip(ws);
    var rows := ParseEntries(values);
    var added := AddEntries(db, base, rows, 1);
    var passed := FinalPassFrom(db, added, 0);
    var r := UpdatePreview(db, passed);
    UpdatePreviewKeepsNames(db, passed);
    assert SameNames(r, added);
    forall j | 0 <= j < |base| ensures r[j].name == base[j].name {
      assert added[..|base|] == base;
      assert added[j] == added[..|base|][j];
    }
    RenamedEntriesKept(db, base, rows, r);
    r
  }

  // ----- onGetInputs -------------------------------------------------------

  /**
   * The walk of `onGetInputs` from widget i on: `promptNum` is the entry
   * being collected, and only its enabled toggle moves on to the next one.
   */
  function InputsFrom(ws: seq<Widget>, i: nat, promptNum: nat, inputs: map<string, Value>): map<string, Value>
    requires i <= |ws|
    decreases |ws| - i
  {
    if i == |ws| then inputs
    else
      var name := ws[i].name;
      if name == EntryKey(promptNum, CategoryField) || name == EntryKey(promptNum, NameField) then
        InputsFrom(ws, i + 1, promptNum, inputs[name := ws[i].value])
      else if name == EntryKey(promptNum, EnabledField) then
        InputsFrom(ws, i + 1, promptNum + 1, inputs[name := ws[i].value])
      else InputsFrom(ws, i + 1, promptNum, inputs)
  }

  /** The key of some entry numbered `from` or higher. */
  ghost predicate IsEntryKeyFrom(key: string, from: nat) {
    exists j: nat, f: string :: from <= j && f in {CategoryField, NameField, EnabledField} && key == EntryKey(j, f)
  }

  /** The walk keeps what it was given and adds only keys of the entries it has yet to reach. */
  lemma {:induction false} InputsFromKeys(ws: seq<Widget>, i: nat, promptNum: nat, inputs: map<string, Value>)
    requires i <= |ws|
    ensures forall key :: key in inputs ==> key in InputsFrom(ws, i, promptNum, inputs)
    ensures forall key :: key in InputsFrom(ws, i, promptNum, inputs) && key !in inputs ==> IsEntryKeyFrom(key, promptNum)
    decreases |ws| - i
  {
    if i < |ws| {
      var name := ws[i].name;
      var fields := {CategoryField, NameField, EnabledField};
      if name == EntryKey(promptNum, CategoryField) || name == EntryKey(promptNum, NameField) {
        assert CategoryField in fields && NameField in fields;
        assert IsEntryKeyFrom(name, promptNum);
        InputsFromKeys(ws, i + 1, promptNum, inputs[name := ws[i].value]);
      } else if name == EntryKey(promptNum, EnabledField) {
        assert EnabledField in fields;
        assert IsEntryKeyFrom(name, promptNum);
        InputsFromKeys(ws, i + 1, promptNum + 1, inputs[name := ws[i].value]);
        forall key | IsEntryKeyFrom(key, promptNum + 1) ensures IsEntryKeyFrom(key, promptNum) {
          var j: nat, f: string :| promptNum + 1 <= j && f in fields && key == EntryKey(j, f);
        }
      } else {
        InputsFromKeys(ws, i + 1, promptNum, inputs);
      }
    }
  }

  /** `onGetInputs`: the entry values it walks to, plus the separator. */
  function GetInputs(ws: seq<Widget>): (r: map<string, Value>)
    ensures forall key :: key in r ==>
      key == "separator" || IsEntryKeyFrom(key, 1)
    ensures Find(ws, "separator").Some? <==> "separator" in r
    ensures "separator" in r ==> r["separator"] == Find(ws, "separator").value.value
  {
    var inputs := InputsFrom(ws, 0, 1, map[]);
    InputsFromKeys(ws, 0, 1, map[]);
    assert "separator" !in inputs by {
      forall j: nat, f: string ensures EntryKey(j, f) != "separator" {
        assert EntryKey(j, f)[0] == 'p';
      }
    }
    match Find(ws, "separator")
    case Some(s) => inputs["separator" := s.value]
    case None => inputs
  }
}
