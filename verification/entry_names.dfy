/**
 * Names of the repeated Prompt Stack entries. Entry k of the stack is
 * carried by keyword arguments and widgets named `prompt_<k>_category`,
 * `prompt_<k>_name` and `prompt_<k>_enabled`, and on the client by a
 * button named `❌ Remove Entry <k>`.
 */
module EntryNames {
  import opened Text

  const CategoryField := "category"
  const NameField := "name"
  const EnabledField := "enabled"

  /** `prompt_${tag}_${field}` for an arbitrary tag text. */
  function TagKey(tag: string, field: string): string {
    "prompt_" + tag + "_" + field
  }

  /** `prompt_<k>_`: the prefix shared by every widget of entry k. */
  function EntryPrefix(k: nat): string {
    "prompt_" + NatToString(k) + "_"
  }

  /** `prompt_<k>_<field>`. */
  function EntryKey(k: nat, field: string): string {
    EntryPrefix(k) + field
  }

  /** The label of entry k's remove button. */
  function RemoveButtonName(k: nat): string {
    "\U{274C} Remove Entry " + NatToString(k)
  }

  /** `name.split('_')[1]` for a name that starts with `prompt_`. */
  function EntryTag(name: string): string
    requires StartsWith(name, "prompt_")
  {
    TakeUntil(name[7..], '_')
  }

  lemma TakeUntilStopsAtSeparator(x: string, rest: string)
    requires '_' !in x
    ensures TakeUntil(x + "_" + rest, '_') == x
  {
    if x != [] {
      assert (x + "_" + rest)[1..] == x[1..] + "_" + rest;
      TakeUntilStopsAtSeparator(x[1..], rest);
    }
  }

  lemma DigitsHaveNoSeparator(k: nat)
    ensures '_' !in NatToString(k)
  {
    var s := NatToString(k);
    assert forall i :: 0 <= i < |s| ==> s[i] != '_';
  }

  /** A name that starts with entry k's prefix has k's number as its tag. */
  lemma TagOfPrefixedName(name: string, k: nat)
    requires StartsWith(name, EntryPrefix(k))
    ensures StartsWith(name, "prompt_")
    ensures EntryTag(name) == NatToString(k)
  {
    var x := NatToString(k);
    var p := EntryPrefix(k);
    assert name == p + name[|p|..];
    assert name[7..] == x + "_" + name[|p|..];
    DigitsHaveNoSeparator(k);
    TakeUntilStopsAtSeparator(x, name[|p|..]);
  }

  lemma EntryKeyIsTagKey(k: nat, field: string)
    ensures EntryKey(k, field) == TagKey(NatToString(k), field)
    ensures StartsWith(EntryKey(k, field), EntryPrefix(k))
  {
  }

  /** Every entry widget name is a `prompt_` name. */
  lemma EntryPrefixIsPromptPrefix(name: string, k: nat)
    ensures StartsWith(name, EntryPrefix(k)) ==> StartsWith(name, "prompt_")
  {
    if StartsWith(name, EntryPrefix(k)) {
      assert name[..7] == EntryPrefix(k)[..7];
    }
  }

  /** Every entry key starts with `prompt_`. */
  lemma EntryKeyIsPromptName(k: nat, f: string)
    ensures StartsWith(EntryKey(k, f), "prompt_")
  {
    EntryKeyIsTagKey(k, f);
    EntryPrefixIsPromptPrefix(EntryKey(k, f), k);
  }

  /** Only entry k's own names start with entry k's prefix. */
  lemma PrefixSeparatesEntries(j: nat, k: nat, field: string)
    requires StartsWith(EntryKey(k, field), EntryPrefix(j))
    ensures j == k
  {
    TagOfPrefixedName(EntryKey(k, field), j);
    TagOfPrefixedName(EntryKey(k, field), k);
    NatToStringInjective(j, k);
  }

  /** Distinct entries or fields never share a name. */
  lemma EntryKeyInjective(j: nat, k: nat, f: string, g: string)
    ensures EntryKey(j, f) == EntryKey(k, g) ==> j == k && f == g
  {
    if EntryKey(j, f) == EntryKey(k, g) {
      PrefixSeparatesEntries(j, k, g);
      var n := |EntryPrefix(j)|;
      assert f == EntryKey(j, f)[n..];
      assert g == EntryKey(k, g)[n..];
    }
  }

  lemma RemoveButtonNameInjective(j: nat, k: nat)
    requires RemoveButtonName(j) == RemoveButtonName(k)
    ensures j == k
  {
    var n := |"\U{274C} Remove Entry "|;
    assert NatToString(j) == RemoveButtonName(j)[n..];
    assert NatToString(k) == RemoveButtonName(k)[n..];
    NatToStringInjective(j, k);
  }

  /** A remove button's name is never taken for an entry widget's name. */
  lemma RemoveButtonIsNoEntryName(k: nat)
    ensures !StartsWith(RemoveButtonName(k), "prompt_")
  {
    assert RemoveButtonName(k)[0] != 'p';
  }
}
