/**
 * The five prompt-database endpoints of prompt_db.py, each as a pure
 * function of the `prompts.json` contents it loads. A mutation returns
 * the reply together with the contents the endpoint leaves in the file.
 */
module PromptDbServer {
  import opened Optional
  import opened Js
  import opened AssocList

  /** The JSON value stored under one category. */
  datatype CategoryValue =
    | Prompts(entries: seq<(string, string)>)   // an object: prompt name -> text
    | NonObject(truthy: bool)                   // any other JSON value, with its truthiness

  /** The top-level object of `prompts.json`: category -> value, in stored order. */
  type Db = seq<(string, CategoryValue)>

  /** What `json.load` produces: no key repeats at either level. */
  predicate WellFormed(db: Db) {
    && Distinct(Keys(db))
    && forall p :: p in db && p.1.Prompts? ==> Distinct(Keys(p.1.entries))
  }

  /** What is stored under a category, if it exists. */
  function ValueOf(db: Db, category: string): Option<CategoryValue> {
    Lookup(db, category)
  }

  /** The category holds a JSON value that is not an object. */
  predicate IsNonObject(db: Db, category: string) {
    Lookup(db, category).Some? && Lookup(db, category).value.NonObject?
  }

  /** The text stored for (category, name), if that prompt exists. */
  function Entry(db: Db, category: string, name: string): Option<string> {
    match ValueOf(db, category)
    case Some(Prompts(es)) => Lookup(es, name)
    case _ => None
  }

  /** The prompt names of a category, in stored order; none unless it is an object. */
  function Names(db: Db, category: string): seq<string> {
    match ValueOf(db, category)
    case Some(Prompts(es)) => Keys(es)
    case _ => []
  }

  lemma NamesAreEntries(db: Db, category: string, name: string)
    ensures name in Names(db, category) <==> Entry(db, category, name).Some?
  {
    match ValueOf(db, category)
    case Some(Prompts(es)) => LookupFindsStoredKeys(es, name);
    case _ =>
  }

  /** A reply's HTTP status is 200 exactly when `ok` holds (otherwise 500). */
  datatype Response<T> = Response(ok: bool, body: T)

  /** POST /prompt_db_categories. */
  function LoadCategories(db: Db): (r: Response<seq<string>>)
    ensures r.ok
    ensures |r.body| == |db|
    ensures forall i :: 0 <= i < |db| ==> r.body[i] == db[i].0
  {
    Response(true, if db == [] then [] else Keys(db))
  }

  /**
   * `prompts_db.get(category, {}).get(prompt_name, "")` for request values
   * of any JSON type; None when the chain raises because the category
   * holds a non-object. A key that is not a string is never stored.
   */
  function StoredText(db: Db, category: Value, name: Value): (r: Option<string>)
    ensures r.None? <==> category.Str? && IsNonObject(db, category.s)
    ensures r.Some? && r.value != "" ==>
      category.Str? && name.Str? && Entry(db, category.s, name.s) == Some(r.value)
    ensures category.Str? && name.Str? && !IsNonObject(db, category.s) ==>
      r == Some(Entry(db, category.s, name.s).GetOr(""))
  {
    if !category.Str? then Some("")
    else
      match ValueOf(db, category.s)
      case None => Some("")
      case Some(NonObject(_)) => None
      case Some(Prompts(es)) => Some(if name.Str? then Lookup(es, name.s).GetOr("") else "")
  }

  /**
   * POST /prompt_db_prompts. A falsy, non-string or unknown category, or
   * one holding a falsy non-object, lists nothing; a truthy non-object
   * makes the handler raise, which is answered with status 500 and an
   * empty list.
   */
  function LoadPrompts(db: Db, category: Value): (r: Response<seq<string>>)
    ensures !r.ok <==> category.Str? && category.s != "" && Lookup(db, category.s) == Some(NonObject(true))
    ensures r.body == if category.Str? && category.s != "" then Names(db, category.s) else []
  {
    if !Truthy(category) || !category.Str? then Response(true, [])
    else
      match ValueOf(db, category.s)
      case None => Response(true, [])
      case Some(Prompts(es)) => Response(true, if es == [] then [] else Keys(es))
      case Some(NonObject(truthy)) => if truthy then Response(false, []) else Response(true, [])
  }

  /**
   * POST /prompt_db_text. Falsy inputs and missing prompts give "";
   * a category holding a non-object makes the handler raise (status 500, "").
   */
  function LoadPromptText(db: Db, category: Value, name: Value): (r: Response<string>)
    ensures !Truthy(category) || !Truthy(name) ==> r == Response(true, "")
    ensures r.body == if Truthy(category) && Truthy(name) && category.Str? && name.Str?
                      then Entry(db, category.s, name.s).GetOr("") else ""
    ensures !r.ok <==> Truthy(category) && Truthy(name) && category.Str? && IsNonObject(db, category.s)
  {
    if !Truthy(category) || !Truthy(name) then Response(true, "")
    else
      match StoredText(db, category, name)
      case None => Response(false, "")
      case Some(t) => Response(true, t)
  }

  /** The `message` of a save or create reply. */
  datatype Message =
    | Required                  // an input was empty
    | Saved(name: string)
    | Created(name: string)
    | WriteFailed(detail: string)  // writing prompts.json raised
    | Crashed                   // the handler raised (status 500)

  function MessageText(m: Message): string {
    match m
    case Required => "Category and prompt name are required"
    case Saved(n) => "Saved prompt '" + n + "'"
    case Created(n) => "Created new prompt '" + n + "'"
    case WriteFailed(d) => "Error saving: " + d
    case Crashed => "Error: "  // followed by the interpreter's exception text
  }

  datatype Reply = Reply(ok: bool, success: bool, message: Message)

  /** A mutation's reply and the file contents it leaves behind. */
  datatype Outcome = Outcome(reply: Reply, db: Db)

  /** `prompts_db.get(category, {})` for a category that is an object or missing. */
  function Existing(db: Db, category: string): seq<(string, string)> {
    match ValueOf(db, category)
    case Some(Prompts(es)) => es
    case _ => []
  }

  /**
   * How writing `prompts.json` went. `makedirs` or `open` can raise before
   * the file is touched; once `open(..., 'w')` has truncated it, `json.dump`
   * can still raise (a full disk, or a text that UTF-8 cannot encode), and
   * what it leaves is not a whole JSON document.
   */
  datatype Write =
    | Written
    | OpenFailed(detail: string)
    | DumpFailed(detail: string)

  /**
   * A file `json.dump` gave up on: every later load catches the decode
   * error and starts from `{}`, so it reads as the empty database.
   */
  const Unreadable: Db := []

  /** A request that gets as far as writing, and whose dump fails after the file was truncated. */
  predicate Truncates(db: Db, category: string, name: string, write: Write) {
    category != "" && name != "" && !IsNonObject(db, category) && write.DumpFailed?
  }

  /**
   * Shared body of save and create: ensure the category exists, assign
   * the prompt's text, and write the file.
   */
  function Upsert(db: Db, category: string, name: string, text: string,
                  write: Write, done: Message): Outcome
  {
    if category == "" || name == "" then Outcome(Reply(true, false, Required), db)
    else
    if IsNonObject(db, category) then Outcome(Reply(false, false, Crashed), db)
    else
      var entries := Existing(db, category);
      var updated := Put(db, category, Prompts(Put(entries, name, text)));
      match write
      case Written => Outcome(Reply(true, true, done), updated)
      case OpenFailed(d) => Outcome(Reply(true, false, WriteFailed(d)), db)
      case DumpFailed(d) => Outcome(Reply(true, false, WriteFailed(d)), Unreadable)
  }

  /** POST /prompt_db_save: upsert a prompt's text. */
  function Save(db: Db, category: string, name: string, text: string, write: Write): (r: Outcome)
    ensures category == "" || name == "" ==> r == Outcome(Reply(true, false, Required), db)
    ensures r.reply.success <==> category != "" && name != "" && !IsNonObject(db, category) && write.Written?
    ensures !r.reply.ok <==> category != "" && name != "" && IsNonObject(db, category)
    ensures r.reply.success ==> r.reply.message == Saved(name)
    ensures Truncates(db, category, name, write) ==> r == Outcome(Reply(true, false, WriteFailed(write.detail)), Unreadable)
    ensures !r.reply.success && !Truncates(db, category, name, write) ==> r.db == db
    ensures r.reply.success ==> Entry(r.db, category, name) == Some(text)
    ensures r.reply.success ==> Keys(r.db) == if category in Keys(db) then Keys(db) else Keys(db) + [category]
    ensures r.reply.success ==>
      Names(r.db, category) == if name in Names(db, category) then Names(db, category) else Names(db, category) + [name]
    ensures !Truncates(db, category, name, write) ==> forall c :: c != category ==> Lookup(r.db, c) == Lookup(db, c)
    ensures !Truncates(db, category, name, write) ==>
      forall c, n :: (c, n) != (category, name) ==> Entry(r.db, c, n) == Entry(db, c, n)
  {
    Upsert(db, category, name, text, write, Saved(name))
  }

  /** POST /prompt_db_create: upsert an empty prompt, overwriting any text it had. */
  function Create(db: Db, category: string, name: string, write: Write): (r: Outcome)
    ensures category == "" || name == "" ==> r == Outcome(Reply(true, false, Required), db)
    ensures r.reply.success <==> category != "" && name != "" && !IsNonObject(db, category) && write.Written?
    ensures !r.reply.ok <==> category != "" && name != "" && IsNonObject(db, category)
    ensures r.reply.success ==> r.reply.message == Created(name)
    ensures Truncates(db, category, name, write) ==> r == Outcome(Reply(true, false, WriteFailed(write.detail)), Unreadable)
    ensures !r.reply.success && !Truncates(db, category, name, write) ==> r.db == db
    ensures r.reply.success ==> Entry(r.db, category, name) == Some("")
    ensures r.reply.success ==> Keys(r.db) == if category in Keys(db) then Keys(db) else Keys(db) + [category]
    ensures r.reply.success ==>
      Names(r.db, category) == if name in Names(db, category) then Names(db, category) else Names(db, category) + [name]
    ensures !Truncates(db, category, name, write) ==> forall c :: c != category ==> Lookup(r.db, c) == Lookup(db, c)
    ensures !Truncates(db, category, name, write) ==>
      forall c, n :: (c, n) != (category, name) ==> Entry(r.db, c, n) == Entry(db, c, n)
  {
    Upsert(db, category, name, "", write, Created(name))
  }

  /** Creating a prompt stores exactly what saving an empty text stores. */
  lemma CreateIsSaveOfEmptyText(db: Db, category: string, name: string, write: Write)
    ensures Create(db, category, name, write).db == Save(db, category, name, "", write).db
    ensures Create(db, category, name, write).reply.success == Save(db, category, name, "", write).reply.success
  {
  }

  /** After a successful save, reading the prompt back returns the saved text. */
  lemma SaveThenLoadText(db: Db, category: string, name: string, text: string)
    requires Save(db, category, name, text, Written).reply.success
    ensures LoadPromptText(Save(db, category, name, text, Written).db, Str(category), Str(name)) == Response(true, text)
    ensures name in LoadPrompts(Save(db, category, name, text, Written).db, Str(category)).body
    ensures category in LoadCategories(Save(db, category, name, text, Written).db).body
  {
    LoadStored(Save(db, category, name, text, Written).db, category, name, text);
  }

  /** A stored prompt is listed under its category, its category is listed, and its text loads. */
  lemma LoadStored(db: Db, category: string, name: string, text: string)
    requires category != "" && name != "" && Entry(db, category, name) == Some(text)
    ensures LoadPromptText(db, Str(category), Str(name)) == Response(true, text)
    ensures name in LoadPrompts(db, Str(category)).body
    ensures category in LoadCategories(db).body
  {
    NamesAreEntries(db, category, name);
    LookupFindsStoredKeys(db, category);
  }

  /** Saving keeps the file's shape: keys stay distinct at both levels. */
  lemma SaveKeepsWellFormed(db: Db, category: string, name: string, text: string, write: Write)
    requires WellFormed(db)
    ensures WellFormed(Save(db, category, name, text, write).db)
  {
    var r := Save(db, category, name, text, write);
    if r.reply.success {
      LookupFindsStoredKeys(db, category);
      var entries := Existing(db, category);
      PutKeepsKeysDistinct(entries, name, text);
      PutKeepsKeysDistinct(db, category, Prompts(Put(entries, name, text)));
    }
  }

  /**
   * A dump that fails after the file was truncated loses the whole
   * database: nothing is listed or stored any more, and the next
   * successful save leaves only its own prompt.
   */
  lemma FailedDumpLosesEveryPrompt(db: Db, category: string, name: string, text: string, detail: string,
                                   category2: string, name2: string, text2: string)
    requires category != "" && name != "" && !IsNonObject(db, category)
    ensures var lost := Save(db, category, name, text, DumpFailed(detail)).db;
      && LoadCategories(lost).body == []
      && (forall c, n :: Entry(lost, c, n).None?)
      && (category2 != "" && name2 != "" ==>
            Save(lost, category2, name2, text2, Written).db == [(category2, Prompts([(name2, text2)]))])
  {
  }

  /** The Prompt DB node's output is its own text widget, whatever it selects. */
  function GetPrompt(category: string, name: string, promptText: string): (r: string)
    ensures r == promptText
  {
    promptText
  }
}
