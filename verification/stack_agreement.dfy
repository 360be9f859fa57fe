/**
 * The Prompt Stack's preview against its output. On a node whose entry
 * widgets are entries 1 .. n in `addPromptEntry`'s layout, `updatePreview`
 * joins exactly the texts `stack_prompts` joins for the same widget
 * values, in the same order, whenever the backend does not raise. The
 * two differ only in the separator: the preview shows ", " where an empty
 * separator makes the backend join with "".
 */
module StackAgreement {
  import opened Optional
  import opened Js
  import opened Text
  import opened EntryNames
  import opened Widgets
  import opened PromptDbServer
  import opened PromptStackServer
  import opened PromptStackClient

  /** The fields of an entry, in the order `addPromptEntry` creates their widgets. */
  const Fields := [EnabledField, CategoryField, NameField]

  /** The entry part of a node: entries 1 .. n, four widgets each. */
  predicate IsLayout(body: seq<Widget>, n: nat) {
    |body| == 4 * n && EntriesNumbered(body, 0, n)
  }

  /** The name widget i of a layout carries: entry i / 4 + 1, field i % 4 (3 is the remove button). */
  lemma LayoutName(body: seq<Widget>, n: nat, i: nat)
    requires IsLayout(body, n) && i < |body|
    ensures i % 4 < 3 ==> body[i].name == EntryKey(i / 4 + 1, Fields[i % 4])
    ensures i % 4 == 3 ==> body[i].name == RemoveButtonName(i / 4 + 1)
  {
    var j := i / 4;
    assert 0 <= j < n;
    assert EntryNamesAt(body, 0 + 4 * j, j + 1);
    assert i == 4 * j + i % 4;
  }

  /** In a layout, field o of entry k is found at index 4(k-1) + o. */
  lemma LayoutFind(body: seq<Widget>, n: nat, k: nat, o: nat)
    requires IsLayout(body, n) && 1 <= k <= n && o < 3
    ensures FindIndex(body, EntryKey(k, Fields[o])) == Some(4 * (k - 1) + o)
  {
    var key := EntryKey(k, Fields[o]);
    var p := 4 * (k - 1) + o;
    assert p / 4 == k - 1 && p % 4 == o;
    LayoutName(body, n, p);
    forall i | 0 <= i < p ensures body[i].name != key {
      LayoutName(body, n, i);
      assert i == 4 * (i / 4) + i % 4;
      if i % 4 == 3 {
        assert RemoveButtonName(i / 4 + 1)[0] != key[0];
      } else {
        EntryKeyInjective(i / 4 + 1, k, Fields[i % 4], Fields[o]);
      }
    }
    FindIndexIs(body, key, p);
  }

  /** A head without `prompt_` names hides no entry key, so searches fall through to the layout. */
  lemma FindPastHead(head: seq<Widget>, body: seq<Widget>, n: nat, k: nat, o: nat)
    requires forall i :: 0 <= i < |head| ==> !StartsWith(head[i].name, "prompt_")
    requires IsLayout(body, n) && 1 <= k <= n && o < 3
    ensures Find(head + body, EntryKey(k, Fields[o])) == Some(body[4 * (k - 1) + o])
  {
    var key := EntryKey(k, Fields[o]);
    EntryKeyIsPromptName(k, Fields[o]);
    LayoutFind(body, n, k, o);
    FindIndexSkips(head, body, key);
    assert (head + body)[|head| + 4 * (k - 1) + o] == body[4 * (k - 1) + o];
  }

  /**
   * The keyword arguments agree with the layout: an entry key is passed
   * exactly for entries 1 .. n, with the value of the widget of that name.
   * Other keys (the separator, button names) may be present too.
   */
  ghost predicate KwargsOf(kw: Kwargs, body: seq<Widget>, n: nat)
    requires |body| == 4 * n
  {
    && (forall k: nat, o :: 0 <= o < 3 ==> (EntryKey(k, Fields[o]) in kw <==> 1 <= k <= n))
    && (forall k: nat, o :: 0 <= o < 3 && 1 <= k <= n ==> kw[EntryKey(k, Fields[o])] == body[4 * (k - 1) + o].value)
  }

  /** Each entry widget's value under its name: what the host passes for entries 1 .. m. */
  function EntryKwargs(body: seq<Widget>, m: nat): Kwargs
    requires 4 * m <= |body|
  {
    if m == 0 then map[]
    else
      var at := 4 * (m - 1);
      EntryKwargs(body, m - 1)
        [EntryKey(m, EnabledField) := body[at].value]
        [EntryKey(m, CategoryField) := body[at + 1].value]
        [EntryKey(m, NameField) := body[at + 2].value]
  }

  lemma {:induction false} EntryKwargsHolds(body: seq<Widget>, m: nat, k: nat, o: nat)
    requires 4 * m <= |body| && o < 3
    ensures EntryKey(k, Fields[o]) in EntryKwargs(body, m) <==> 1 <= k <= m
    ensures 1 <= k <= m ==> EntryKwargs(body, m)[EntryKey(k, Fields[o])] == body[4 * (k - 1) + o].value
  {
    if m > 0 {
      EntryKwargsHolds(body, m - 1, k, o);
      EntryKeyInjective(k, m, Fields[o], EnabledField);
      EntryKeyInjective(k, m, Fields[o], CategoryField);
      EntryKeyInjective(k, m, Fields[o], NameField);
    }
  }

  /** The host's keyword arguments for a layout satisfy `KwargsOf`. */
  lemma EntryKwargsAreKwargsOf(body: seq<Widget>, n: nat)
    requires |body| == 4 * n
    ensures KwargsOf(EntryKwargs(body, n), body, n)
  {
    forall k: nat, o | 0 <= o < 3
      ensures EntryKey(k, Fields[o]) in EntryKwargs(body, n) <==> 1 <= k <= n
      ensures 1 <= k <= n ==> EntryKwargs(body, n)[EntryKey(k, Fields[o])] == body[4 * (k - 1) + o].value
    {
      EntryKwargsHolds(body, n, k, o);
    }
  }

  /** The scan passes entries 1 .. n and stops at n + 1. */
  lemma KwargsReach(kw: Kwargs, body: seq<Widget>, n: nat)
    requires |body| == 4 * n && KwargsOf(kw, body, n)
    ensures Reaches(kw, n + 1)
  {
    assert Fields[1] == CategoryField && Fields[2] == NameField;
    assert EntryKey(n + 1, Fields[1]) !in kw;
    forall j | 1 <= j < n + 1 ensures HasEntry(kw, j) {
      assert EntryKey(j, Fields[1]) in kw && EntryKey(j, Fields[2]) in kw;
    }
  }

  // ----- The preview's side ------------------------------------------------

  /** Which of an entry's names are enabled-toggle names. */
  lemma EnabledNamesOfEntry(k: nat)
    ensures IsEnabledName(EntryKey(k, EnabledField))
    ensures !IsEnabledName(EntryKey(k, CategoryField)) && !IsEnabledName(EntryKey(k, NameField))
    ensures !IsEnabledName(RemoveButtonName(k))
  {
    EntryKeyIsPromptName(k, EnabledField);
    var e := EntryKey(k, EnabledField);
    assert e[|e| - 8..] == "_enabled";
    var c := EntryKey(k, CategoryField);
    var m := EntryKey(k, NameField);
    assert c[|c| - 1] == 'y';
    assert m[|m| - 1] == 'e';
    RemoveButtonIsNoEntryName(k);
  }

  /** A list without enabled-toggle names has no enabled toggles. */
  lemma EnabledWidgetsNone(ws: seq<Widget>)
    requires forall i :: 0 <= i < |ws| ==> !IsEnabledName(ws[i].name)
    ensures EnabledWidgets(ws) == []
  {
    EnabledWidgetsMembers(ws);
  }

  /** The enabled toggles of entries 1 .. m of a layout, in entry order. */
  function Toggles(body: seq<Widget>, n: nat, m: nat): (r: seq<Widget>)
    requires IsLayout(body, n) && m <= n
    ensures |r| == m
    ensures forall e :: e in r ==> IsEnabledName(e.name)
  {
    if m == 0 then []
    else
      LayoutName(body, n, 4 * (m - 1));
      assert (4 * (m - 1)) / 4 == m - 1;
      EnabledNamesOfEntry(m);
      Toggles(body, n, m - 1) + [body[4 * (m - 1)]]
  }

  lemma SliceSplits<T>(s: seq<T>, a: nat, b: nat)
    requires a <= b <= |s|
    ensures s[..b] == s[..a] + s[a..b]
  {
  }

  /** An entry's four widgets hold one enabled toggle, the first. */
  lemma EnabledWidgetsOfEntry(chunk: seq<Widget>, k: nat)
    requires |chunk| == 4 && EntryNamesAt(chunk, 0, k)
    ensures EnabledWidgets(chunk) == [chunk[0]]
  {
    EnabledNamesOfEntry(k);
    assert chunk[..1][..0] == [];
    assert EnabledWidgets(chunk[..1]) == [chunk[0]];
    assert chunk[..2][..1] == chunk[..1];
    assert EnabledWidgets(chunk[..2]) == [chunk[0]];
    assert chunk[..3][..2] == chunk[..2];
    assert EnabledWidgets(chunk[..3]) == [chunk[0]];
    assert chunk[..3] == chunk[..|chunk| - 1];
  }

  /** Appending an entry's four widgets appends its toggle to the enabled toggles. */
  lemma EnabledWidgetsAppendEntry(pre: seq<Widget>, chunk: seq<Widget>, k: nat)
    requires |chunk| == 4 && EntryNamesAt(chunk, 0, k)
    ensures EnabledWidgets(pre + chunk) == EnabledWidgets(pre) + [chunk[0]]
  {
    EnabledWidgetsOfEntry(chunk, k);
    EnabledWidgetsAppend(pre, chunk);
  }

  lemma ToggleStep(body: seq<Widget>, n: nat, m: nat)
    requires IsLayout(body, n) && 1 <= m <= n
    ensures Toggles(body, n, m) == Toggles(body, n, m - 1) + [body[4 * (m - 1)]]
  {
  }

  /** Entry m's four widgets, cut out of a layout, carry entry m's names. */
  lemma LayoutChunk(body: seq<Widget>, n: nat, m: nat)
    requires IsLayout(body, n) && 1 <= m <= n
    ensures 4 * m <= |body| && EntryNamesAt(body[4 * (m - 1)..4 * m], 0, m)
  {
    var at := 4 * (m - 1);
    var chunk := body[at..4 * m];
    assert EntryNamesAt(body, 0 + 4 * (m - 1), m);
    assert chunk[0] == body[at] && chunk[1] == body[at + 1];
    assert chunk[2] == body[at + 2] && chunk[3] == body[at + 3];
  }

  /** The enabled toggles of the first m entries of a layout are its toggles 1 .. m. */
  lemma {:induction false} EnabledWidgetsOfLayout(body: seq<Widget>, n: nat, m: nat)
    requires IsLayout(body, n) && m <= n
    ensures EnabledWidgets(body[..4 * m]) == Toggles(body, n, m)
  {
    if m == 0 {
      assert body[..0] == [];
    } else {
      var at := 4 * (m - 1);
      EnabledWidgetsOfLayout(body, n, m - 1);
      LayoutChunk(body, n, m);
      SliceSplits(body, at, 4 * m);
      EnabledWidgetsAppendEntry(body[..at], body[at..4 * m], m);
      assert body[at..4 * m][0] == body[at];
      ToggleStep(body, n, m);
    }
  }

  /** Entry k's preview text and its contribution to the stack agree whenever the backend does not raise. */
  lemma EntryAgrees(db: Db, head: seq<Widget>, body: seq<Widget>, n: nat, kw: Kwargs, k: nat)
    requires forall i :: 0 <= i < |head| ==> !StartsWith(head[i].name, "prompt_")
    requires IsLayout(body, n) && 1 <= k <= n && KwargsOf(kw, body, n)
    ensures HasEntry(kw, k)
    ensures IsEnabledName(body[4 * (k - 1)].name)
    ensures Contribution(db, kw, k).Returned? ==>
      var t := EntryText(db, head + body, body[4 * (k - 1)]);
      Contribution(db, kw, k).value == if t == "" then [] else [t]
  {
    var at := 4 * (k - 1);
    assert Fields[0] == EnabledField && Fields[1] == CategoryField && Fields[2] == NameField;
    assert EntryKey(k, Fields[1]) in kw && EntryKey(k, Fields[2]) in kw;
    LayoutName(body, n, at);
    assert at / 4 == k - 1 && at % 4 == 0;
    EnabledNamesOfEntry(k);
    var e := body[at];
    EntryKeyIsTagKey(k, EnabledField);
    TagOfPrefixedName(e.name, k);
    EntryKeyIsTagKey(k, CategoryField);
    EntryKeyIsTagKey(k, NameField);
    FindPastHead(head, body, n, k, 1);
    FindPastHead(head, body, n, k, 2);
    assert kw[EntryKey(k, Fields[0])] == e.value;
    assert EnabledValue(kw, k) == e.value;
  }

  /** The preview's texts for entries 1 .. m are the scan's texts for them. */
  lemma {:induction false} CollectIsPreview(db: Db, head: seq<Widget>, body: seq<Widget>, n: nat, kw: Kwargs, m: nat)
    requires forall i :: 0 <= i < |head| ==> !StartsWith(head[i].name, "prompt_")
    requires IsLayout(body, n) && m <= n && KwargsOf(kw, body, n)
    requires forall j :: 1 <= j < m + 1 ==> HasEntry(kw, j)
    ensures Collect(db, kw, 1, m + 1).Returned? ==>
      Collect(db, kw, 1, m + 1).value == PreviewTexts(db, head + body, Toggles(body, n, m))
  {
    if m > 0 {
      var ws := head + body;
      var at := 4 * (m - 1);
      CollectIsPreview(db, head, body, n, kw, m - 1);
      EntryAgrees(db, head, body, n, kw, m);
      ToggleStep(body, n, m);
      var t := EntryText(db, ws, body[at]);
      PreviewTextsStep(db, ws, Toggles(body, n, m - 1), body[at]);
      ChainStep(Collect(db, kw, 1, m), Contribution(db, kw, m),
                PreviewTexts(db, ws, Toggles(body, n, m - 1)), if t == "" then [] else [t]);
    }
  }

  /** The preview's texts grow by one toggle's text at a time. */
  lemma PreviewTextsStep(db: Db, ws: seq<Widget>, es: seq<Widget>, e: Widget)
    requires forall x :: x in es ==> IsEnabledName(x.name)
    requires IsEnabledName(e.name)
    ensures var t := EntryText(db, ws, e);
      PreviewTexts(db, ws, es + [e]) == PreviewTexts(db, ws, es) + (if t == "" then [] else [t])
  {
    assert (es + [e])[..|es|] == es;
  }

  /** Chaining two runs that return given texts returns their concatenation. */
  lemma ChainStep(a: Run<seq<string>>, b: Run<seq<string>>, xs: seq<string>, ys: seq<string>)
    requires a.Returned? ==> a.value == xs
    requires b.Returned? ==> b.value == ys
    ensures Chain(a, b).Returned? ==> a.Returned? && b.Returned? && Chain(a, b).value == xs + ys
  {
  }

  /** The node's enabled toggles are the layout's, in entry order. */
  lemma EnabledWidgetsOfNode(head: seq<Widget>, body: seq<Widget>, n: nat)
    requires forall i :: 0 <= i < |head| ==> !StartsWith(head[i].name, "prompt_")
    requires IsLayout(body, n)
    ensures EnabledWidgets(head + body) == Toggles(body, n, n)
  {
    EnabledWidgetsNone(head);
    EnabledWidgetsOfLayout(body, n, n);
    assert body[..4 * n] == body;
    EnabledWidgetsAppend(head, body);
  }

  /** A widget the head holds is found in the head, whatever follows it. */
  lemma FindInHead(head: seq<Widget>, body: seq<Widget>, name: string)
    requires Find(head, name).Some?
    ensures Find(head + body, name) == Find(head, name)
  {
    FindIndexInPrefix(head, body, name);
    assert (head + body)[FindIndex(head, name).value] == head[FindIndex(head, name).value];
  }

  /**
   * Whenever the backend's scan does not raise, the preview joins the same
   * texts with the separator the preview shows: the widget's value, or
   * ", " when it is empty.
   */
  lemma PreviewJoinsStackedTexts(db: Db, head: seq<Widget>, body: seq<Widget>, n: nat, kw: Kwargs, sep: string)
    requires forall i :: 0 <= i < |head| ==> !StartsWith(head[i].name, "prompt_")
    requires Find(head, "preview_text").Some?
    requires Find(head, "separator").Some? && Find(head, "separator").value.value == Str(sep)
    requires IsLayout(body, n) && KwargsOf(kw, body, n)
    ensures Scan(db, kw, 1).Returned? ==>
      PreviewText(db, head + body) == Some(Join(if sep == "" then ", " else sep, Scan(db, kw, 1).value))
  {
    KwargsReach(kw, body, n);
    ScanIsCollect(db, kw, 1, n + 1);
    CollectIsPreview(db, head, body, n, kw, n);
    EnabledWidgetsOfNode(head, body, n);
    FindInHead(head, body, "preview_text");
    FindInHead(head, body, "separator");
  }

  /**
   * The preview shows what the node outputs: with a non-empty separator,
   * and unless the backend raises, the preview text is `stack_prompts`'
   * result for the same widget values.
   */
  lemma PreviewMatchesStack(db: Db, head: seq<Widget>, body: seq<Widget>, n: nat, kw: Kwargs, sep: string)
    requires forall i :: 0 <= i < |head| ==> !StartsWith(head[i].name, "prompt_")
    requires Find(head, "preview_text").Some?
    requires Find(head, "separator").Some? && Find(head, "separator").value.value == Str(sep)
    requires IsLayout(body, n) && KwargsOf(kw, body, n)
    requires sep != ""
    ensures StackPrompts(db, kw, Some(sep)).Returned? ==>
      PreviewText(db, head + body) == Some(StackPrompts(db, kw, Some(sep)).value)
  {
    PreviewJoinsStackedTexts(db, head, body, n, kw, sep);
  }

  /** With an empty separator the backend concatenates, while the preview still separates with ", ". */
  lemma EmptySeparatorPreviewDiffers(db: Db, head: seq<Widget>, body: seq<Widget>, n: nat, kw: Kwargs)
    requires forall i :: 0 <= i < |head| ==> !StartsWith(head[i].name, "prompt_")
    requires Find(head, "preview_text").Some?
    requires Find(head, "separator").Some? && Find(head, "separator").value.value == Str("")
    requires IsLayout(body, n) && KwargsOf(kw, body, n)
    ensures Scan(db, kw, 1).Returned? ==>
      && StackPrompts(db, kw, Some("")) == Returned(Join("", Scan(db, kw, 1).value))
      && PreviewText(db, head + body) == Some(Join(", ", Scan(db, kw, 1).value))
  {
    PreviewJoinsStackedTexts(db, head, body, n, kw, "");
  }

  /** Dropping the widgets before a numbered run leaves a layout. */
  lemma NumberedRunIsLayout(r: seq<Widget>, h: nat, n: nat)
    requires |r| == h + 4 * n && EntriesNumbered(r, h, n)
    ensures IsLayout(r[h..], n)
  {
    var body := r[h..];
    forall j | 0 <= j < n ensures EntryNamesAt(body, 0 + 4 * j, j + 1) {
      assert EntryNamesAt(r, h + 4 * j, j + 1);
      assert body[4 * j] == r[h + 4 * j] && body[4 * j + 1] == r[h + 4 * j + 1];
      assert body[4 * j + 2] == r[h + 4 * j + 2] && body[4 * j + 3] == r[h + 4 * j + 3];
    }
  }

  /** `onConfigure` leaves the kept widgets, none an entry widget, followed by a layout of the parsed entries. */
  lemma RestoreLaysOutEntries(db: Db, ws: seq<Widget>, values: seq<Value>)
    ensures var r := Restore(db, ws, values);
      var h := |Strip(ws)|;
      && h <= |r|
      && (forall i :: 0 <= i < h ==> !StartsWith(r[i].name, "prompt_"))
      && IsLayout(r[h..], |ParseEntries(values)|)
  {
    var r := Restore(db, ws, values);
    var base := Strip(ws);
    forall i | 0 <= i < |base| ensures !StartsWith(r[i].name, "prompt_") {
      assert base[i] in base;
    }
    NumberedRunIsLayout(r, |base|, |ParseEntries(values)|);
  }
}
