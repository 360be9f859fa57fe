/**
 * The Prompt DB node's front end (web/prompt_db.js): loading a category's
 * prompts and a prompt's text into the node, the two widget callbacks,
 * the Save and Create buttons with their input checks, and the node's
 * own `serialize`/`configure` of its three core widgets. Each request is
 * answered by the backend model directly; an `alert` is returned as the
 * message it shows.
 */
module PromptDbClient {
  import opened Optional
  import opened Js
  import opened Text
  import opened AssocList
  import opened Widgets
  import opened PromptDbServer

  /**
   * The node's state: the category widget and its option list, the prompt
   * name widget and its options, the text area, and the two text fields
   * used by Create. Every value is a string, so truthiness is non-emptiness.
   * Nothing in the extension gives the category widget an option list
   * (`loadPrompts` sets only the name widget's), so whether it has one is
   * up to the host: None when `options.values` is undefined.
   */
  datatype Node = Node(category: string, categoryOptions: Option<seq<string>>,
                       promptName: string, nameOptions: seq<string>,
                       promptText: string,
                       newCategory: string, newPromptName: string)

  // ----- Loading ------------------------------------------------------------

  /**
   * `loadPromptText(category, name)`: on a 200 reply the text area takes
   * the returned text; a failed request changes nothing.
   */
  function LoadText(db: Db, node: Node, category: string, name: string): (r: Node)
    ensures r.(promptText := node.promptText) == node
    ensures category != "" && name != "" && IsNonObject(db, category) ==> r == node
    ensures !(category != "" && name != "" && IsNonObject(db, category)) ==>
      r.promptText == if category != "" && name != "" then Entry(db, category, name).GetOr("") else ""
  {
    var response := LoadPromptText(db, Str(category), Str(name));
    if response.ok then node.(promptText := response.body) else node
  }

  /** The category's names as this client asks for them: nothing for an empty category. */
  function RequestedNames(db: Db, category: string): seq<string> {
    if category != "" then Names(db, category) else []
  }

  /** The prompts request fails exactly for a category that holds a truthy non-object. */
  predicate PromptsRequestFails(db: Db, category: string) {
    category != "" && Lookup(db, category) == Some(NonObject(true))
  }

  /**
   * `loadPrompts(category)`: a non-empty list becomes the name options,
   * its first name is selected and that prompt's text is loaded; an empty
   * list clears the options, the name and the text; a failed request
   * changes nothing.
   */
  function LoadPrompts(db: Db, node: Node, category: string): (r: Node)
    ensures r.category == node.category && r.categoryOptions == node.categoryOptions
    ensures r.newCategory == node.newCategory && r.newPromptName == node.newPromptName
    ensures PromptsRequestFails(db, category) ==> r == node
    ensures !PromptsRequestFails(db, category) && RequestedNames(db, category) == [] ==>
      r.nameOptions == [] && r.promptName == "" && r.promptText == ""
    ensures !PromptsRequestFails(db, category) && RequestedNames(db, category) != [] ==>
      var names := RequestedNames(db, category);
      && r.nameOptions == names && r.promptName == names[0]
      && (names[0] != "" ==> Entry(db, category, names[0]) == Some(r.promptText))
      && (names[0] == "" ==> r.promptText == "")
  {
    var response := PromptDbServer.LoadPrompts(db, Str(category));
    if !response.ok then node
    else if response.body != [] then
      var first := response.body[0];
      NamesAreEntries(db, category, first);
      LoadText(db, node.(nameOptions := response.body, promptName := first), category, first)
    else node.(nameOptions := [], promptName := "", promptText := "")
  }

  /** Loading the text the node already shows changes nothing. */
  lemma LoadTextTwice(db: Db, node: Node, category: string, name: string)
    ensures LoadText(db, LoadText(db, node, category, name), category, name) == LoadText(db, node, category, name)
  {
  }

  // ----- Callbacks ------------------------------------------------------------

  /** The category widget's callback, after the host stored the chosen value: load its prompts if it is non-empty. */
  function OnCategoryChanged(db: Db, node: Node, value: string): (r: Node)
    ensures r.category == value
    ensures value == "" ==> r == node.(category := value)
    ensures value != "" ==> r == LoadPrompts(db, node.(category := value), value)
  {
    var chosen := node.(category := value);
    if value != "" then LoadPrompts(db, chosen, value) else chosen
  }

  /** The prompt-name widget's callback: load the text only when both the name and the category are non-empty. */
  function OnPromptNameChanged(db: Db, node: Node, value: string): (r: Node)
    ensures r.(promptText := node.promptText) == node.(promptName := value)
    ensures value == "" || node.category == "" ==> r == node.(promptName := value)
    ensures value != "" && node.category != "" && IsNonObject(db, node.category) ==> r == node.(promptName := value)
    ensures value != "" && node.category != "" && !IsNonObject(db, node.category) ==>
      r.promptText == Entry(db, node.category, value).GetOr("")
  {
    var chosen := node.(promptName := value);
    if value != "" && node.category != "" then LoadText(db, chosen, node.category, value) else chosen
  }

  /**
   * Node creation with a category already selected: load its prompts,
   * then load the text of whatever name is selected afterwards.
   */
  function Init(db: Db, node: Node): (r: Node)
    ensures node.category == "" ==> r == node
  {
    if node.category == "" then node
    else
      var loaded := LoadPrompts(db, node, node.category);
      if loaded.promptName != "" then LoadText(db, loaded, loaded.category, loaded.promptName) else loaded
  }

  /** The second text request at creation is redundant: creation ends exactly where `loadPrompts` does. */
  lemma InitIsLoadPrompts(db: Db, node: Node)
    requires node.category != ""
    ensures Init(db, node) == LoadPrompts(db, node, node.category)
  {
    var loaded := LoadPrompts(db, node, node.category);
    var names := RequestedNames(db, node.category);
    if !PromptsRequestFails(db, node.category) && names != [] && names[0] != "" {
      NamesAreEntries(db, node.category, names[0]);
    }
  }

  /** After `configure`, the text is reloaded when both the category and the name are non-empty. */
  function ReloadAfterConfigure(db: Db, node: Node): (r: Node)
    ensures r.(promptText := node.promptText) == node
    ensures node.category == "" || node.promptName == "" ==> r == node
    ensures node.category != "" && node.promptName != "" && IsNonObject(db, node.category) ==> r == node
    ensures node.category != "" && node.promptName != "" && !IsNonObject(db, node.category) ==>
      r.promptText == Entry(db, node.category, node.promptName).GetOr("")
  {
    if node.category != "" && node.promptName != "" then LoadText(db, node, node.category, node.promptName)
    else node
  }

  // ----- Save ---------------------------------------------------------------

  const RequiredAlert := "Category and prompt name are required"
  const StatusAlert := "API call failed with status: 500"

  /** What a click leaves behind: the alert shown, if any, and the database. */
  datatype SaveResult = SaveResult(alert: Option<string>, db: Db)

  /**
   * The Save button: an empty category or name is refused before any
   * request; otherwise the server's save runs, and its failures are
   * reported. `write` is how writing the file went.
   */
  function SaveClick(db: Db, node: Node, write: Write): (r: SaveResult)
    ensures node.category == "" || node.promptName == "" ==> r == SaveResult(Some(RequiredAlert), db)
    ensures node.category != "" && node.promptName != "" ==>
      && r.db == Save(db, node.category, node.promptName, node.promptText, write).db
      && (r.alert.None? <==> !IsNonObject(db, node.category) && write.Written?)
      && (IsNonObject(db, node.category) ==> r.alert == Some(StatusAlert))
      && (!IsNonObject(db, node.category) && !write.Written? ==>
            r.alert == Some("Save failed: " + MessageText(WriteFailed(write.detail))))
  {
    if node.category == "" || node.promptName == "" then SaveResult(Some(RequiredAlert), db)
    else
      var out := Save(db, node.category, node.promptName, node.promptText, write);
      var alert :=
        if !out.reply.ok then Some(StatusAlert)
        else if out.reply.success then None
        else Some("Save failed: " + MessageText(out.reply.message));
      SaveResult(alert, out.db)
  }

  /** A save the client lets through is never refused by the server for a missing input. */
  lemma SaveClickChecksFirst(db: Db, node: Node, write: Write)
    ensures SaveClick(db, node, write).alert != Some("Save failed: " + MessageText(Required))
  {
    var r := SaveClick(db, node, write);
    var refused := "Save failed: " + MessageText(Required);
    assert RequiredAlert[0] != refused[0];
    if !write.Written? {
      var shown := "Save failed: " + MessageText(WriteFailed(write.detail));
      assert shown[13] != refused[13];
    }
  }

  /** After a successful click, selecting the saved prompt again shows the saved text. */
  lemma SaveClickThenReload(db: Db, node: Node)
    requires SaveClick(db, node, Written).alert.None?
    ensures ReloadAfterConfigure(SaveClick(db, node, Written).db, node) == node
  {
    var after := SaveClick(db, node, Written).db;
    assert Entry(after, node.category, node.promptName) == Some(node.promptText);
  }

  // ----- Create -------------------------------------------------------------

  const CategoryAlert := "Please enter a category name"
  const NameAlert := "Please enter a prompt name"

  /** `options.values.push(c)` guarded by `includes`: c is added once, at the end. */
  function AddOption(options: seq<string>, c: string): (r: seq<string>)
    ensures c in r
    ensures forall x :: x in r <==> x in options || x == c
    ensures |r| == if c in options then |options| else |options| + 1
    ensures r[..|options|] == options
  {
    if c in options then options else options + [c]
  }

  lemma AddOptionKeepsDistinct(options: seq<string>, c: string)
    requires Distinct(options)
    ensures Distinct(AddOption(options, c))
  {
  }

  lemma AddOptionIdempotent(options: seq<string>, c: string)
    ensures AddOption(AddOption(options, c), c) == AddOption(options, c)
  {
  }

  datatype CreateResult = CreateResult(alert: Option<string>, node: Node, db: Db)

  /**
   * The node after a successful create of (c, n) produced the database
   * `after`: c joins the category options if it is new and is selected,
   * its prompts are reloaded, n is selected with an empty text, and the
   * two creation fields are cleared.
   */
  function Created(after: Db, node: Node, c: string, n: string): (r: Node)
    requires c != "" && Entry(after, c, n).Some? && node.categoryOptions.Some?
    ensures r.categoryOptions == Some(AddOption(node.categoryOptions.value, c)) && r.category == c
    ensures r.promptName == n && n in r.nameOptions && r.promptText == ""
    ensures r.nameOptions == Names(after, c)
    ensures r.newCategory == "" && r.newPromptName == ""
  {
    var selected := node.(categoryOptions := Some(AddOption(node.categoryOptions.value, c)), category := c);
    NamesAreEntries(after, c, n);
    var loaded := LoadPrompts(after, selected, c);
    loaded.(promptName := n, promptText := "", newCategory := "", newPromptName := "")
  }

  /**
   * What the `catch` shows when the category widget has no option list:
   * reading `includes` of undefined raises a TypeError (worded here as V8
   * words it).
   */
  const OptionsErrorAlert := "Error creating prompt: Cannot read properties of undefined (reading 'includes')"

  /**
   * The Create button. Both fields are trimmed; an empty category is
   * refused first, then an empty name, before any request. The file
   * holds whatever the server's create left. A failed create is reported
   * and leaves the node as it was; so does a successful one when the
   * category widget has no option list, since updating it raises before
   * anything on the node changes.
   */
  function CreateClick(db: Db, node: Node, write: Write): (r: CreateResult)
    ensures Trim(node.newCategory) == "" ==> r == CreateResult(Some(CategoryAlert), node, db)
    ensures Trim(node.newCategory) != "" && Trim(node.newPromptName) == "" ==> r == CreateResult(Some(NameAlert), node, db)
    ensures Trim(node.newCategory) != "" && Trim(node.newPromptName) != "" ==>
      r.db == Create(db, Trim(node.newCategory), Trim(node.newPromptName), write).db
    ensures r.alert.Some? ==> r.node == node
    ensures
      var c := Trim(node.newCategory);
      var n := Trim(node.newPromptName);
      var out := Create(db, c, n, write);
      c != "" && n != "" ==>
        && (!out.reply.ok ==> r.alert == Some(StatusAlert))
        && (out.reply.ok && !out.reply.success ==> r.alert == Some("Create failed: " + MessageText(out.reply.message)))
    ensures
      var c := Trim(node.newCategory);
      var n := Trim(node.newPromptName);
      c != "" && n != "" && Create(db, c, n, write).reply.success && node.categoryOptions.None? ==>
        r.alert == Some(OptionsErrorAlert) && Entry(r.db, c, n) == Some("")
    ensures r.alert.None? ==>
      var c := Trim(node.newCategory);
      var n := Trim(node.newPromptName);
      && c != "" && n != "" && node.categoryOptions.Some?
      && Entry(r.db, c, n) == Some("")
      && r.node == Created(r.db, node, c, n)
  {
    var c := Trim(node.newCategory);
    var n := Trim(node.newPromptName);
    if c == "" then CreateResult(Some(CategoryAlert), node, db)
    else if n == "" then CreateResult(Some(NameAlert), node, db)
    else
      var out := Create(db, c, n, write);
      if !out.reply.ok then CreateResult(Some(StatusAlert), node, out.db)
      else if !out.reply.success then CreateResult(Some("Create failed: " + MessageText(out.reply.message)), node, out.db)
      else if node.categoryOptions.None? then CreateResult(Some(OptionsErrorAlert), node, out.db)
      else CreateResult(None, Created(out.db, node, c, n), out.db)
  }

  /**
   * Create succeeds exactly when both trimmed fields are non-empty, the
   * category holds no non-object, the write succeeds, and the category
   * widget has an option list.
   */
  lemma CreateClickSucceeds(db: Db, node: Node, write: Write)
    ensures CreateClick(db, node, write).alert.None? <==>
      Trim(node.newCategory) != "" && Trim(node.newPromptName) != ""
      && !IsNonObject(db, Trim(node.newCategory)) && write.Written? && node.categoryOptions.Some?
  {
  }

  /** A successful Create followed by the host's reload shows the new, empty prompt. */
  lemma CreateClickThenReload(db: Db, node: Node)
    requires CreateClick(db, node, Written).alert.None?
    ensures var r := CreateClick(db, node, Written);
      ReloadAfterConfigure(r.db, r.node) == r.node
  {
  }

  // ----- serialize / configure ------------------------------------------------

  /** The widgets the node persists itself. */
  predicate IsCore(name: string) {
    name == "category" || name == "prompt_name" || name == "prompt_text"
  }

  /**
   * `serialize`'s `widgets_values`: a sparse array holding each core
   * widget's value at that widget's index. Holes are Undefined, and the
   * array ends at the last core widget.
   */
  function SerializeCore(ws: seq<Widget>): (r: seq<Value>)
    ensures |r| <= |ws|
    ensures forall i :: 0 <= i < |r| ==> r[i] == if IsCore(ws[i].name) then ws[i].value else Undefined
    ensures forall i :: |r| <= i < |ws| ==> !IsCore(ws[i].name)
    decreases |ws|
  {
    if ws == [] then []
    else
      var last := ws[|ws| - 1];
      var front := SerializeCore(ws[..|ws| - 1]);
      if IsCore(last.name) then Pad(front, |ws| - 1) + [last.value] else front
  }

  /** Extends a sparse array with holes up to length n. */
  function Pad(values: seq<Value>, n: nat): (r: seq<Value>)
    requires |values| <= n
    ensures |r| == n && r[..|values|] == values
    ensures forall i :: |values| <= i < n ==> r[i] == Undefined
    decreases n - |values|
  {
    if |values| == n then values else Pad(values + [Undefined], n)
  }

  /**
   * `configure`'s restore loop from index i on: a core widget takes the
   * stored value at its index unless that value is Undefined; widgets past
   * the end of the values are left alone.
   */
  function ConfigureFrom(ws: seq<Widget>, values: seq<Value>, i: nat): (r: seq<Widget>)
    requires i <= |ws|
    ensures |r| == |ws|
    ensures forall j :: 0 <= j < i ==> r[j] == ws[j]
    ensures forall j :: i <= j < |ws| ==>
      r[j] == if j < |values| && IsCore(ws[j].name) && values[j] != Undefined then ws[j].(value := values[j]) else ws[j]
    decreases |ws| - i
  {
    if i == |ws| || i >= |values| then ws
    else if IsCore(ws[i].name) && values[i] != Undefined then ConfigureFrom(ws[i := ws[i].(value := values[i])], values, i + 1)
    else ConfigureFrom(ws, values, i + 1)
  }

  function ConfigureCore(ws: seq<Widget>, values: seq<Value>): (r: seq<Widget>)
    ensures |r| == |ws|
  {
    ConfigureFrom(ws, values, 0)
  }

  /** Configure changes nothing but the values of core widgets. */
  lemma ConfigureTouchesOnlyCoreValues(ws: seq<Widget>, values: seq<Value>, i: nat)
    requires i < |ws|
    ensures ConfigureCore(ws, values)[i].(value := ws[i].value) == ws[i]
    ensures !IsCore(ws[i].name) ==> ConfigureCore(ws, values)[i] == ws[i]
  {
  }

  /** Serializing and configuring the same widgets leaves them as they were. */
  lemma ConfigureSerializeRoundTrip(ws: seq<Widget>)
    ensures ConfigureCore(ws, SerializeCore(ws)) == ws
  {
    var r := ConfigureCore(ws, SerializeCore(ws));
    forall j | 0 <= j < |ws| ensures r[j] == ws[j] {
    }
  }

  /**
   * Restoring onto a node with the same widget names, position by
   * position, gives each core widget its saved value (when it was defined)
   * and leaves every other widget as it is.
   */
  lemma ConfigureRestoresSavedLayout(saved: seq<Widget>, target: seq<Widget>)
    requires |saved| == |target|
    requires forall i :: 0 <= i < |saved| ==> saved[i].name == target[i].name
    ensures var r := ConfigureCore(target, SerializeCore(saved));
      forall i :: 0 <= i < |target| ==>
        r[i] == if IsCore(target[i].name) && saved[i].value != Undefined then target[i].(value := saved[i].value) else target[i]
  {
    var values := SerializeCore(saved);
    var r := ConfigureCore(target, values);
    forall i | 0 <= i < |target|
      ensures r[i] == if IsCore(target[i].name) && saved[i].value != Undefined then target[i].(value := saved[i].value) else target[i]
    {
      if i >= |values| {
        assert !IsCore(saved[i].name);
      }
    }
  }

  /**
   * The widgets a `Node` stands for, in creation order: the three
   * declared inputs, then the Save button, the two Create fields and the
   * Create button. The callbacks above work on the `Node` record; the
   * persistence functions work on widget lists, since `serialize` and
   * `configure` go by index and name.
   */
  function NodeWidgets(node: Node): (ws: seq<Widget>) {
    [ NewWidget(TextBox, "category", Str(node.category), node.categoryOptions.GetOr([])),
      NewWidget(TextBox, "prompt_name", Str(node.promptName), node.nameOptions),
      NewWidget(TextBox, "prompt_text", Str(node.promptText), []),
      NewWidget(Button, "\U{1F4BE} Save", Str(""), []),
      NewWidget(TextBox, "New Category", Str(node.newCategory), []),
      NewWidget(TextBox, "New Prompt Name", Str(node.newPromptName), []),
      NewWidget(Button, "\U{1F4DD} Create", Str(""), []) ]
  }

  /**
   * Saving one node and loading the values into another gives the second
   * the first's category, prompt name and text, and keeps its own
   * dropdown options and Create fields.
   */
  lemma SaveLoadKeepsCoreFields(saved: Node, target: Node)
    ensures ConfigureCore(NodeWidgets(target), SerializeCore(NodeWidgets(saved))) ==
      NodeWidgets(target.(category := saved.category, promptName := saved.promptName, promptText := saved.promptText))
  {
    var a := NodeWidgets(saved);
    var b := NodeWidgets(target);
    ConfigureRestoresSavedLayout(a, b);
  }

  /** `configure`'s loop as written, over the indices below both lengths. */
  method ConfigureLoop(ws: seq<Widget>, values: seq<Value>) returns (r: seq<Widget>)
    ensures r == ConfigureCore(ws, values)
  {
    r := ws;
    var i := 0;
    while i < |r| && i < |values|
      invariant 0 <= i <= |ws| && |r| == |ws|
      invariant ConfigureFrom(r, values, i) == ConfigureCore(ws, values)
    {
      if IsCore(r[i].name) && values[i] != Undefined {
        r := r[i := r[i].(value := values[i])];
      }
      i := i + 1;
    }
  }
}
