/**
 * The Prompt Stack node's backend (prompt_stack.py): `stack_prompts`,
 * which walks the numbered entries of its keyword arguments and joins the
 * stored texts of the usable ones, and the option lists `INPUT_TYPES`
 * derives from the database.
 */
module PromptStackServer {
  import opened Optional
  import opened Js
  import opened Text
  import opened AssocList
  import opened SortedStrings
  import opened EntryNames
  import opened PromptDbServer

  /** The keyword arguments ComfyUI passes to `stack_prompts`. */
  type Kwargs = map<string, Value>

  /** The separator `stack_prompts` uses when none is passed. */
  const DefaultSeparator := ", "

  /** The result of running a handler: a value, or an exception. */
  datatype Run<T> = Returned(value: T) | Raised

  // ----- The entry scan ----------------------------------------------------

  /** The scan's loop test: entry k is processed only when both its category and name are passed. */
  predicate HasEntry(kw: Kwargs, k: nat) {
    EntryKey(k, CategoryField) in kw && EntryKey(k, NameField) in kw
  }

  /** `kwargs.get("prompt_<k>_enabled", True)`. */
  function EnabledValue(kw: Kwargs, k: nat): Value {
    var key := EntryKey(k, EnabledField);
    if key in kw then kw[key] else Bool(true)
  }

  /** Entry k is enabled and names both a category and a prompt. */
  predicate Selected(kw: Kwargs, k: nat)
    requires HasEntry(kw, k)
  {
    Truthy(EnabledValue(kw, k)) && Truthy(kw[EntryKey(k, CategoryField)]) && Truthy(kw[EntryKey(k, NameField)])
  }

  /**
   * What entry k appends to the stacked list: its stored text when it is
   * selected and the text is non-empty. Looking a selected entry up in a
   * category that holds a non-object raises.
   */
  function Contribution(db: Db, kw: Kwargs, k: nat): (r: Run<seq<string>>)
    requires HasEntry(kw, k)
    ensures r.Raised? <==> Selected(kw, k) && kw[EntryKey(k, CategoryField)].Str?
                           && IsNonObject(db, kw[EntryKey(k, CategoryField)].s)
    ensures r.Returned? ==> |r.value| <= 1
    ensures r.Returned? && r.value != [] ==>
      var c := kw[EntryKey(k, CategoryField)];
      var n := kw[EntryKey(k, NameField)];
      && Selected(kw, k) && c.Str? && n.Str?
      && r.value[0] != "" && Entry(db, c.s, n.s) == Some(r.value[0])
    ensures !Selected(kw, k) ==> r == Returned([])
    ensures
      var c := kw[EntryKey(k, CategoryField)];
      var n := kw[EntryKey(k, NameField)];
      Selected(kw, k) && c.Str? && n.Str? && Entry(db, c.s, n.s).Some? && Entry(db, c.s, n.s).value != "" ==>
        r == Returned([Entry(db, c.s, n.s).value])
    ensures
      var c := kw[EntryKey(k, CategoryField)];
      var n := kw[EntryKey(k, NameField)];
      Selected(kw, k) && !(c.Str? && IsNonObject(db, c.s))
        && !(c.Str? && n.Str? && Entry(db, c.s, n.s).Some? && Entry(db, c.s, n.s).value != "") ==>
        r == Returned([])
  {
    if !Selected(kw, k) then Returned([])
    else
      match StoredText(db, kw[EntryKey(k, CategoryField)], kw[EntryKey(k, NameField)])
      case None => Raised
      case Some(t) => Returned(if t == "" then [] else [t])
  }

  /** Prepends finished texts to a run that may still raise. */
  function Then(ts: seq<string>, rest: Run<seq<string>>): Run<seq<string>> {
    match rest
    case Raised => Raised
    case Returned(us) => Returned(ts + us)
  }

  lemma ThenAssociative(ts: seq<string>, us: seq<string>, rest: Run<seq<string>>)
    ensures Then(ts, Then(us, rest)) == Then(ts + us, rest)
    ensures Then([], rest) == rest
  {
    if rest.Returned? {
      assert ts + (us + rest.value) == (ts + us) + rest.value;
      assert [] + rest.value == rest.value;
    }
  }

  /** Sequences two runs: the first exception wins, otherwise the texts are concatenated. */
  function Chain(a: Run<seq<string>>, b: Run<seq<string>>): Run<seq<string>> {
    match a
    case Raised => Raised
    case Returned(ts) => Then(ts, b)
  }

  /** The entry keys of entries 1 .. n-1: the ones the scan has already passed. */
  function Visited(n: nat): set<string> {
    set j | 1 <= j < n :: EntryKey(j, CategoryField)
  }

  /** Each step of the scan consumes one more key of the finite keyword map. */
  lemma ScanShrinks(kw: Kwargs, n: nat)
    requires n >= 1 && HasEntry(kw, n)
    ensures kw.Keys - Visited(n + 1) < kw.Keys - Visited(n)
  {
    var key := EntryKey(n, CategoryField);
    forall j | 1 <= j < n ensures EntryKey(j, CategoryField) != key {
      EntryKeyInjective(j, n, CategoryField, CategoryField);
    }
    assert key in kw.Keys - Visited(n);
    assert key !in kw.Keys - Visited(n + 1);
  }

  /** `while True:` from entry n on, stopping at the first entry that is not passed. */
  function Scan(db: Db, kw: Kwargs, n: nat): Run<seq<string>>
    requires n >= 1
    decreases kw.Keys - Visited(n)
  {
    if !HasEntry(kw, n) then Returned([])
    else
      ScanShrinks(kw, n);
      Chain(Contribution(db, kw, n), Scan(db, kw, n + 1))
  }

  /** `separator.join(stacked_prompts)`, or the exception the scan raised. */
  function StackPrompts(db: Db, kw: Kwargs, separator: Option<string>): (r: Run<string>)
    ensures !HasEntry(kw, 1) ==> r == Returned("")
    ensures r.Raised? <==> Scan(db, kw, 1).Raised?
  {
    match Scan(db, kw, 1)
    case Raised => Raised
    case Returned(ts) => Returned(Join(separator.GetOr(DefaultSeparator), ts))
  }

  /** `stack_prompts` as written: a counting loop that appends to a list. */
  method StackPromptsLoop(db: Db, kw: Kwargs, separator: Option<string>) returns (r: Run<string>)
    ensures r == StackPrompts(db, kw, separator)
  {
    var stacked: seq<string> := [];
    var promptNum: nat := 1;
    ThenAssociative([], [], Scan(db, kw, 1));
    while HasEntry(kw, promptNum)
      invariant promptNum >= 1
      invariant Scan(db, kw, 1) == Then(stacked, Scan(db, kw, promptNum))
      decreases kw.Keys - Visited(promptNum)
    {
      ScanShrinks(kw, promptNum);
      match Contribution(db, kw, promptNum)
      case Raised =>
        return Raised;
      case Returned(ts) =>
        ThenAssociative(stacked, ts, Scan(db, kw, promptNum + 1));
        stacked := stacked + ts;
        promptNum := promptNum + 1;
    }
    assert stacked + [] == stacked;
    r := Returned(Join(separator.GetOr(DefaultSeparator), stacked));
  }

  // ----- An independent description of the result --------------------------

  /** m is the first entry number that is not passed: the scan covers exactly entries 1 .. m-1. */
  predicate Reaches(kw: Kwargs, m: nat) {
    && m >= 1
    && (forall j :: 1 <= j < m ==> HasEntry(kw, j))
    && !HasEntry(kw, m)
  }

  /** The contributions of entries lo .. hi-1, in increasing entry number. */
  function Collect(db: Db, kw: Kwargs, lo: nat, hi: nat): Run<seq<string>>
    requires forall j :: lo <= j < hi ==> HasEntry(kw, j)
    decreases hi
  {
    if hi <= lo then Returned([])
    else Chain(Collect(db, kw, lo, hi - 1), Contribution(db, kw, hi - 1))
  }

  lemma ChainAssociative(a: Run<seq<string>>, b: Run<seq<string>>, c: Run<seq<string>>)
    ensures Chain(Chain(a, b), c) == Chain(a, Chain(b, c))
  {
    if a.Returned? && b.Returned? && c.Returned? {
      assert (a.value + b.value) + c.value == a.value + (b.value + c.value);
    }
  }

  /** Collecting lo .. hi-1 is entry lo's contribution followed by lo+1 .. hi-1. */
  lemma {:induction false} CollectFront(db: Db, kw: Kwargs, lo: nat, hi: nat)
    requires lo < hi
    requires forall j :: lo <= j < hi ==> HasEntry(kw, j)
    ensures Collect(db, kw, lo, hi) == Chain(Contribution(db, kw, lo), Collect(db, kw, lo + 1, hi))
    decreases hi
  {
    if hi == lo + 1 {
      var c := Contribution(db, kw, lo);
      if c.Returned? { assert [] + c.value == c.value + []; }
    } else {
      CollectFront(db, kw, lo, hi - 1);
      ChainAssociative(Contribution(db, kw, lo), Collect(db, kw, lo + 1, hi - 1), Contribution(db, kw, hi - 1));
    }
  }

  /** From entry n on, the scan collects exactly the entries before the first missing one. */
  lemma {:induction false} ScanIsCollect(db: Db, kw: Kwargs, n: nat, m: nat)
    requires Reaches(kw, m) && 1 <= n <= m
    ensures Scan(db, kw, n) == Collect(db, kw, n, m)
    decreases m - n
  {
    if n < m {
      ScanIsCollect(db, kw, n + 1, m);
      CollectFront(db, kw, n, m);
    }
  }

  /**
   * The stacked string is the separator-join of the non-empty stored texts
   * of the selected entries 1 .. m-1, in entry order, where m is the first
   * entry that is not passed; the separator defaults to ", ".
   */
  lemma StackPromptsCollects(db: Db, kw: Kwargs, separator: Option<string>, m: nat)
    requires Reaches(kw, m)
    ensures StackPrompts(db, kw, separator) ==
      match Collect(db, kw, 1, m)
      case Raised => Raised
      case Returned(ts) => Returned(Join(separator.GetOr(DefaultSeparator), ts))
  {
    ScanIsCollect(db, kw, 1, m);
  }

  // ----- What does not change the result -----------------------------------

  /** Two keyword maps that agree on every scanned entry give the same scan. */
  lemma {:induction false} ScanCongruent(db: Db, kw: Kwargs, kw': Kwargs, n: nat)
    requires n >= 1
    requires forall j :: j >= n ==> HasEntry(kw, j) == HasEntry(kw', j)
    requires forall j :: j >= n && HasEntry(kw, j) ==> Contribution(db, kw, j) == Contribution(db, kw', j)
    ensures Scan(db, kw, n) == Scan(db, kw', n)
    decreases kw.Keys - Visited(n)
  {
    if HasEntry(kw, n) {
      ScanShrinks(kw, n);
      ScanCongruent(db, kw, kw', n + 1);
    }
  }

  /** The three keys of entry j hold the same values (or are missing) in both maps. */
  predicate SameEntry(kw: Kwargs, kw': Kwargs, j: nat) {
    forall f :: f in {CategoryField, NameField, EnabledField} ==>
      && (EntryKey(j, f) in kw <==> EntryKey(j, f) in kw')
      && (EntryKey(j, f) in kw ==> kw[EntryKey(j, f)] == kw'[EntryKey(j, f)])
  }

  lemma {:induction false} CollectCongruent(db: Db, kw: Kwargs, kw': Kwargs, lo: nat, hi: nat)
    requires forall j :: lo <= j < hi ==> HasEntry(kw, j) && SameEntry(kw, kw', j)
    ensures forall j :: lo <= j < hi ==> HasEntry(kw', j)
    ensures Collect(db, kw, lo, hi) == Collect(db, kw', lo, hi)
    decreases hi
  {
    forall j | lo <= j < hi ensures HasEntry(kw', j) {
      assert SameEntry(kw, kw', j);
      assert CategoryField in {CategoryField, NameField, EnabledField};
      assert NameField in {CategoryField, NameField, EnabledField};
    }
    if lo < hi {
      CollectCongruent(db, kw, kw', lo, hi - 1);
      var k := hi - 1;
      assert SameEntry(kw, kw', k);
      assert EnabledField in {CategoryField, NameField, EnabledField};
      assert CategoryField in {CategoryField, NameField, EnabledField};
      assert NameField in {CategoryField, NameField, EnabledField};
      assert EnabledValue(kw, k) == EnabledValue(kw', k);
    }
  }

  /**
   * The scan stops at the first entry m whose category or name is not
   * passed: whatever the arguments hold for entries above m is ignored.
   */
  lemma LaterEntriesIgnored(db: Db, kw: Kwargs, kw': Kwargs, separator: Option<string>, m: nat)
    requires Reaches(kw, m)
    requires forall j :: 1 <= j <= m ==> SameEntry(kw, kw', j)
    ensures StackPrompts(db, kw, separator) == StackPrompts(db, kw', separator)
  {
    CollectCongruent(db, kw, kw', 1, m);
    assert SameEntry(kw, kw', m);
    assert CategoryField in {CategoryField, NameField, EnabledField};
    assert NameField in {CategoryField, NameField, EnabledField};
    assert Reaches(kw', m);
    StackPromptsCollects(db, kw, separator, m);
    StackPromptsCollects(db, kw', separator, m);
  }

  /** Setting entry k's enabled flag leaves every other entry as it was. */
  lemma SetEnabledKeepsOtherEntries(kw: Kwargs, k: nat, flag: Value)
    ensures var kw' := kw[EntryKey(k, EnabledField) := flag];
      && (forall j :: HasEntry(kw, j) == HasEntry(kw', j))
      && (forall j :: HasEntry(kw, j) ==>
            && kw[EntryKey(j, CategoryField)] == kw'[EntryKey(j, CategoryField)]
            && kw[EntryKey(j, NameField)] == kw'[EntryKey(j, NameField)])
      && (forall j :: j != k ==> EnabledValue(kw, j) == EnabledValue(kw', j))
      && EnabledValue(kw', k) == flag
  {
    forall j ensures EntryKey(k, EnabledField) != EntryKey(j, CategoryField)
                  && EntryKey(k, EnabledField) != EntryKey(j, NameField)
                  && (j != k ==> EntryKey(k, EnabledField) != EntryKey(j, EnabledField)) {
      EntryKeyInjective(k, j, EnabledField, CategoryField);
      EntryKeyInjective(k, j, EnabledField, NameField);
      EntryKeyInjective(k, j, EnabledField, EnabledField);
    }
  }

  /** A missing `prompt_<k>_enabled` behaves exactly like `True`. */
  lemma MissingEnabledCountsAsEnabled(db: Db, kw: Kwargs, k: nat, separator: Option<string>)
    requires EntryKey(k, EnabledField) !in kw
    ensures StackPrompts(db, kw, separator) == StackPrompts(db, kw[EntryKey(k, EnabledField) := Bool(true)], separator)
  {
    var kw' := kw[EntryKey(k, EnabledField) := Bool(true)];
    SetEnabledKeepsOtherEntries(kw, k, Bool(true));
    ScanCongruent(db, kw, kw', 1);
  }

  /**
   * An entry whose category has no such prompt (a missing category, or an
   * object without that name) contributes nothing: the result is the same
   * as with the entry disabled.
   */
  lemma EntryNotInDbContributesNothing(db: Db, kw: Kwargs, k: nat, separator: Option<string>)
    requires HasEntry(kw, k)
    requires kw[EntryKey(k, CategoryField)].Str? && kw[EntryKey(k, NameField)].Str?
    requires !IsNonObject(db, kw[EntryKey(k, CategoryField)].s)
    requires Entry(db, kw[EntryKey(k, CategoryField)].s, kw[EntryKey(k, NameField)].s).None?
    ensures StackPrompts(db, kw, separator) == StackPrompts(db, kw[EntryKey(k, EnabledField) := Bool(false)], separator)
  {
    var kw' := kw[EntryKey(k, EnabledField) := Bool(false)];
    SetEnabledKeepsOtherEntries(kw, k, Bool(false));
    assert Contribution(db, kw, k) == Returned([]);
    ScanCongruent(db, kw, kw', 1);
  }

  // ----- INPUT_TYPES -------------------------------------------------------

  /** The names of every object-valued category, as a sorted list without repeats. */
  function AllPromptNames(db: Db): (r: seq<string>)
    ensures StrictlySorted(r)
    ensures forall n :: n in r <==> exists p :: p in db && p.1.Prompts? && n in Keys(p.1.entries)
  {
    if db == [] then []
    else
      var rest := AllPromptNames(db[1..]);
      assert forall p :: p in db <==> p == db[0] || p in db[1..];
      match db[0].1
      case Prompts(es) => InsertAll(rest, Keys(es))
      case NonObject(_) => rest
  }

  /** The option lists (and their defaults) the node declares for its first entry. */
  datatype InputLists = InputLists(categories: seq<string>, promptNames: seq<string>,
                                   categoryDefault: string, nameDefault: string)

  /**
   * `INPUT_TYPES`. `loaded` is the database read from `prompts.json`, or
   * None when reading it raised; an empty category list falls back to
   * `["default"]` and `["new prompt"]`.
   */
  function InputTypes(loaded: Option<Db>): (r: InputLists)
    ensures r.categories != [] && r.categoryDefault == r.categories[0]
    ensures r.nameDefault == if r.promptNames == [] then "" else r.promptNames[0]
    ensures loaded.Some? && loaded.value != [] ==>
      && r.categories == Keys(loaded.value)
      && StrictlySorted(r.promptNames)
      && forall n :: n in r.promptNames <==>
           exists p :: p in loaded.value && p.1.Prompts? && n in Keys(p.1.entries)
    ensures loaded.None? || loaded.value == [] ==>
      r.categories == ["default"] && r.promptNames == ["new prompt"]
  {
    var categories := if loaded.Some? then Keys(loaded.value) else [];
    var names := if loaded.Some? then AllPromptNames(loaded.value) else [];
    if categories == [] then InputLists(["default"], ["new prompt"], "default", "new prompt")
    else InputLists(categories, names, categories[0], if names == [] then "" else names[0])
  }

  /**
   * The name list is the only strictly sorted list of the union of the
   * object-valued categories' names, and its default is the least name.
   */
  lemma InputTypesNamesAreCanonical(db: Db, other: seq<string>)
    requires db != []
    requires StrictlySorted(other)
    requires forall n :: n in other <==> exists p :: p in db && p.1.Prompts? && n in Keys(p.1.entries)
    ensures InputTypes(Some(db)).promptNames == other
    ensures other != [] ==> forall n :: n in other && n != other[0] ==> Before(InputTypes(Some(db)).nameDefault, n)
  {
    var r := InputTypes(Some(db));
    SortedIsUnique(r.promptNames, other);
    forall n | n in other && n != other[0] ensures Before(r.nameDefault, n) {
      HeadIsLeast(other, n);
    }
  }
}
