/**
  A dictionary entry as the scripts hold it: a JSON object read into a Python
  `dict` whose keys may be missing.  Values are strings.
 */
module Entries {

  datatype Option<T> = None | Some(value: T)

  type Record = map<string, string>

  const TermKey: string := "term"
  const DefinitionKey: string := "definition"
  const CategoryKey: string := "category"
  const ExampleKey: string := "example"

  /** The four fields every registered entry carries, in storage order. */
  const FieldKeys: seq<string> := [TermKey, DefinitionKey, CategoryKey, ExampleKey]

  /** `entry.get(key, '')`: a missing key reads as the empty string. */
  function Get(r: Record, key: string): (v: string)
    ensures key !in r ==> v == ""
  {
    if key in r then r[key] else ""
  }

  /** `entry.get('term')`: `None` when the entry has no term. */
  function TermOf(r: Record): (t: Option<string>)
    ensures t.Some? <==> TermKey in r
  {
    if TermKey in r then Some(r[TermKey]) else None
  }

  /** The entry `register_entry_gui` builds: exactly the four fields, each
      holding the value it was given. */
  function NewEntry(term: string, definition: string, category: string, example: string): (r: Record)
    ensures r.Keys == {TermKey, DefinitionKey, CategoryKey, ExampleKey}
    ensures Get(r, TermKey) == term && Get(r, DefinitionKey) == definition
    ensures Get(r, CategoryKey) == category && Get(r, ExampleKey) == example
    ensures TermOf(r) == Some(term)
  {
    map[TermKey := term, DefinitionKey := definition, CategoryKey := category, ExampleKey := example]
  }
}
