/**
 * The node widgets the two front-end extensions manipulate, and the
 * dropdown selection rule they share.
 */
module Widgets {
  import opened Optional
  import opened Js

  /** The widget `type` strings the extensions create or test for. */
  datatype Kind = Toggle | Combo | Button | TextBox | Other

  /**
   * One widget. An unset `name` or `label` (here `labelText`) is "" (both are only ever
   * tested for truthiness or compared with non-empty strings). `options`
   * is a combo's `options.values`; `hook` is what the widget's
   * `serializeValue` returns, when it has one.
   */
  datatype Widget = Widget(kind: Kind, name: string, labelText: string, value: Value,
                           options: seq<string>, hook: Option<Value>)

  /** A widget created by `addWidget(type, name, value, ...)`: no label, no hook. */
  function NewWidget(kind: Kind, name: string, value: Value, options: seq<string>): (w: Widget)
    ensures w.kind == kind && w.name == name && w.value == value && w.options == options
    ensures w.labelText == "" && w.hook.None?
  {
    Widget(kind, name, "", value, options, None)
  }

  /** `widgets.findIndex(w => w.name === name)`, as an option. */
  function FindIndex(ws: seq<Widget>, name: string): (r: Option<nat>)
    ensures r.Some? ==> r.value < |ws| && ws[r.value].name == name
    ensures r.Some? ==> forall i :: 0 <= i < r.value ==> ws[i].name != name
    ensures r.None? <==> forall i :: 0 <= i < |ws| ==> ws[i].name != name
  {
    if ws == [] then None
    else if ws[0].name == name then Some(0)
    else
      match FindIndex(ws[1..], name)
      case None => None
      case Some(i) => Some(i + 1)
  }

  /** `widgets.find(w => w.name === name)`. */
  function Find(ws: seq<Widget>, name: string): (r: Option<Widget>)
    ensures r.Some? <==> FindIndex(ws, name).Some?
    ensures r.Some? ==> r.value == ws[FindIndex(ws, name).value]
  {
    match FindIndex(ws, name)
    case None => None
    case Some(i) => Some(ws[i])
  }

  /** Searching past a prefix that lacks the name finds what the rest holds. */
  lemma {:induction false} FindIndexSkips(pre: seq<Widget>, ws: seq<Widget>, name: string)
    requires forall i :: 0 <= i < |pre| ==> pre[i].name != name
    ensures FindIndex(pre + ws, name) ==
      match FindIndex(ws, name)
      case None => None
      case Some(i) => Some(|pre| + i)
  {
    if pre == [] {
      assert pre + ws == ws;
    } else {
      assert (pre + ws)[0] == pre[0];
      assert (pre + ws)[1..] == pre[1..] + ws;
      FindIndexSkips(pre[1..], ws, name);
    }
  }

  /** The first widget carrying a name is the one `FindIndex` returns. */
  lemma FindIndexIs(ws: seq<Widget>, name: string, p: nat)
    requires p < |ws| && ws[p].name == name
    requires forall i :: 0 <= i < p ==> ws[i].name != name
    ensures FindIndex(ws, name) == Some(p)
  {
  }

  /** A name held by a widget of the prefix is found there. */
  lemma {:induction false} FindIndexInPrefix(pre: seq<Widget>, ws: seq<Widget>, name: string)
    requires FindIndex(pre, name).Some?
    ensures FindIndex(pre + ws, name) == FindIndex(pre, name)
  {
    if pre[0].name != name {
      assert (pre + ws)[1..] == pre[1..] + ws;
      FindIndexInPrefix(pre[1..], ws, name);
    }
  }

  /**
   * The dropdown selection rule: the restored name if it is a non-empty
   * string in the list, else the list's first element, else "".
   */
  function Choose(list: seq<string>, restored: Value): (r: string)
    ensures r in list || (list == [] && r == "")
    ensures Truthy(restored) && restored.Str? && restored.s in list ==> r == restored.s
    ensures list != [] && !(Truthy(restored) && restored.Str? && restored.s in list) ==> r == list[0]
  {
    if Truthy(restored) && restored.Str? && restored.s in list then restored.s
    else if |list| > 0 then list[0]
    else ""
  }

  /** Selecting again from the same list keeps the selection. */
  lemma ChooseIsStable(list: seq<string>, restored: Value)
    ensures Choose(list, Str(Choose(list, restored))) == Choose(list, restored)
  {
    var r := Choose(list, restored);
    if r == "" && list != [] {
      assert r == list[0] || r == restored.s;
    }
  }
}
