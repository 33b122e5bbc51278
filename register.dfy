/**
  The registration window (`register_data.py`): the data file
  `dictionary_data.json`, and the duplicate-checked registration that
  appends one entry to it.
 */
module DictionaryRegistration {
  import opened Text
  import opened Entries

  /** The data file as `load_data` finds it. */
  datatype FileState =
    | Missing                       // `os.path.exists(DATA_FILE)` is false
    | Holds(records: seq<Record>)   // a JSON list of entries
    | Unreadable                    // `open` or `json.load` raises

  /** The list `load_data` returns; a missing file reads as the empty list. */
  function Stored(file: FileState): seq<Record> {
    if file.Holds? then file.records else []
  }

  /** What the confirmation box reports. `Crashed` is the exception from
      `load_data` escaping the callback: no message and no save. */
  datatype Outcome =
    | Error                    // "❌ エラー: …": the term is required
    | Warning(term: string)    // "⚠️ 警告: …": the term is already registered
    | Success(entry: Record)   // "✅ 登録が完了しました。" with the stored fields
    | Crashed

  /** One registration: what is reported, the file afterwards, and whether
      the file was read and written. */
  datatype Step = Step(outcome: Outcome, file: FileState, loaded: bool, saved: bool)

  /** Some entry of the list has exactly this term (`entry.get('term') == key_term`). */
  predicate HasTerm(list: seq<Record>, term: string) {
    exists i :: 0 <= i < |list| && TermOf(list[i]) == Some(term)
  }

  /** No two entries of the list share a term. */
  predicate UniqueTerms(list: seq<Record>) {
    forall i, j :: 0 <= i < j < |list| && TermOf(list[i]).Some? ==> TermOf(list[i]) != TermOf(list[j])
  }

  /** `register_entry_gui` on the four raw inputs and the file as it is. */
  function Registration(file: FileState, term: string, definition: string, category: string, example: string): (s: Step)
  {
    var key := Strip(term);
    if key == [] then Step(Error, file, false, false)
    else if file.Unreadable? then Step(Crashed, file, true, false)
    else
      var list := Stored(file);
      if HasTerm(list, key) then Step(Warning(key), file, true, false)
      else
        var entry := NewEntry(key, Strip(definition), Strip(category), Strip(example));
        Step(Success(entry), Holds(list + [entry]), true, true)
  }

  /** The duplicate scan of `register_entry_gui`: look at each stored entry
      in turn and stop at the first whose term equals `term` exactly. */
  method ContainsTerm(list: seq<Record>, term: string) returns (found: bool)
    ensures found <==> HasTerm(list, term)
  {
    var i := 0;
    while i < |list|
      invariant 0 <= i <= |list|
      invariant forall k :: 0 <= k < i ==> TermOf(list[k]) != Some(term)
    {
      if TermOf(list[i]) == Some(term) {
        return true;
      }
      i := i + 1;
    }
    return false;
  }

  /** The data file and its history of reads and writes. */
  class DictionaryFile {
    var file: FileState
    ghost var loads: nat
    ghost var saves: nat

    constructor (initial: FileState)
      ensures file == initial && loads == 0 && saves == 0
    {
      file := initial;
      loads, saves := 0, 0;
    }

    /** `load_data`: the stored list, the empty list when there is no file,
        `None` when reading raises. */
    method LoadData() returns (data: Option<seq<Record>>)
      modifies this`loads
      ensures loads == old(loads) + 1
      ensures file.Missing? ==> data == Some([])
      ensures file.Holds? ==> data == Some(file.records)
      ensures file.Unreadable? ==> data == None
    {
      loads := loads + 1;
      match file {
        case Missing => data := Some([]);
        case Holds(records) => data := Some(records);
        case Unreadable => data := None;
      }
    }

    /** `save_data`: the file is overwritten with the whole list. */
    method SaveData(data: seq<Record>)
      modifies this`file, this`saves
      ensures file == Holds(data) && saves == old(saves) + 1
    {
      file := Holds(data);
      saves := saves + 1;
    }

    /** `register_entry_gui`: strip the inputs, reject a blank term, scan
        the stored list for the term, and otherwise append and save. */
    method Register(term: string, definition: string, category: string, example: string)
      returns (outcome: Outcome)
      modifies this
      ensures var s := Registration(old(file), term, definition, category, example);
              && outcome == s.outcome
              && file == s.file
              && loads == old(loads) + (if s.loaded then 1 else 0)
              && saves == old(saves) + (if s.saved then 1 else 0)
      ensures UniqueTerms(Stored(old(file))) ==> UniqueTerms(Stored(file))
    {
      if UniqueTerms(Stored(file)) {
        RegistrationKeepsTermsUnique(file, term, definition, category, example);
      }
      ghost var s := Registration(file, term, definition, category, example);
      var keyTerm := Strip(term);
      var def := Strip(definition);
      var cat := Strip(category);
      var ex := Strip(example);

      if keyTerm == [] {
        assert s == Step(Error, file, false, false);
        return Error;
      }

      var loaded := LoadData();
      if loaded.None? {
        assert s == Step(Crashed, file, true, false);
        return Crashed;
      }
      var dataList := loaded.value;
      assert dataList == Stored(old(file));

      var duplicate := ContainsTerm(dataList, keyTerm);
      if duplicate {
        assert s == Step(Warning(keyTerm), file, true, false);
        return Warning(keyTerm);
      }

      var newEntry := NewEntry(keyTerm, def, cat, ex);
      dataList := dataList + [newEntry];
      SaveData(dataList);
      assert s == Step(Success(newEntry), file, true, true);
      outcome := Success(newEntry);
    }
  }

  // ---------------------------------------------------------------------
  // Properties of registration.

  /** What a registration reports, and what it does to the file. */
  lemma RegistrationOutcomes(file: FileState, term: string, definition: string, category: string, example: string,
                             s: Step)
    requires s == Registration(file, term, definition, category, example)
    // a blank term is rejected before the file is touched
    ensures s.outcome.Error? <==> IsBlank(term)
    ensures s.outcome.Error? ==> !s.loaded && !s.saved
    // an unreadable file makes the callback fail with nothing saved
    ensures s.outcome.Crashed? <==> !IsBlank(term) && file.Unreadable?
    // a term already stored, compared exactly, is refused with nothing saved
    ensures s.outcome.Warning? <==> !IsBlank(term) && !file.Unreadable? && HasTerm(Stored(file), Strip(term))
    ensures s.outcome.Warning? ==> s.outcome.term == Strip(term)
    // the file is written exactly on success, and then holds the old list
    // with the new entry appended
    ensures s.saved <==> s.outcome.Success?
    ensures !s.saved ==> s.file == file
    ensures s.outcome.Success? ==>
              && s.loaded
              && s.outcome.entry == NewEntry(Strip(term), Strip(definition), Strip(category), Strip(example))
              && s.file == Holds(Stored(file) + [s.outcome.entry])
  {
  }

  /** Registration never introduces a second entry with the same term. */
  lemma RegistrationKeepsTermsUnique(file: FileState, term: string, definition: string, category: string, example: string)
    requires UniqueTerms(Stored(file))
    ensures UniqueTerms(Stored(Registration(file, term, definition, category, example).file))
  {
    var s := Registration(file, term, definition, category, example);
    if s.outcome.Success? {
      var before := Stored(file);
      var after := Stored(s.file);
      assert after == before + [s.outcome.entry];
      forall i, j | 0 <= i < j < |after| && TermOf(after[i]).Some?
        ensures TermOf(after[i]) != TermOf(after[j])
      {
        if j == |before| {
          assert TermOf(after[j]) == Some(Strip(term));
          assert !HasTerm(before, Strip(term));
          assert after[i] == before[i];
        }
      }
    }
  }

  /** After a successful registration the new term is stored exactly once,
      in the last entry. */
  lemma RegisteredTermStoredOnce(file: FileState, term: string, definition: string, category: string, example: string)
    requires Registration(file, term, definition, category, example).outcome.Success?
    ensures var list := Stored(Registration(file, term, definition, category, example).file);
            && |list| == |Stored(file)| + 1
            && TermOf(list[|list| - 1]) == Some(Strip(term))
            && forall i :: 0 <= i < |list| - 1 ==> TermOf(list[i]) != Some(Strip(term))
  {
    var s := Registration(file, term, definition, category, example);
    RegistrationOutcomes(file, term, definition, category, example, s);
    var list := Stored(s.file);
    assert list == Stored(file) + [s.outcome.entry];
    assert !HasTerm(Stored(file), Strip(term));
    forall i | 0 <= i < |list| - 1 ensures TermOf(list[i]) != Some(Strip(term)) {
      assert list[i] == Stored(file)[i];
    }
  }

  // ---------------------------------------------------------------------
  // Worked examples.

  /** "cat" is already stored: registering it again, even with another
      definition, is refused and the file is left alone. */
  lemma ExampleDuplicate()
    ensures var file := Holds([map[TermKey := "cat", DefinitionKey := "animal"]]);
            Registration(file, "cat", "feline", "", "") == Step(Warning("cat"), file, true, false)
  {
    var e: Record := map[TermKey := "cat", DefinitionKey := "animal"];
    assert Strip("cat") == "cat";
    assert TermOf([e][0]) == Some("cat");
  }

  /** Registering into a missing file creates it holding just the new entry. */
  lemma RegisterIntoMissingFile(term: string, definition: string, category: string, example: string)
    requires !IsBlank(term)
    ensures var entry := NewEntry(Strip(term), Strip(definition), Strip(category), Strip(example));
            Registration(Missing, term, definition, category, example) == Step(Success(entry), Holds([entry]), true, true)
  {
    assert Strip(term) != [];
    assert !HasTerm(Stored(Missing), Strip(term));
    var entry := NewEntry(Strip(term), Strip(definition), Strip(category), Strip(example));
    assert Stored(Missing) + [entry] == [entry];
  }

  /** " dog " is registered stripped, as "dog". */
  lemma ExampleFirstEntry()
    ensures Registration(Missing, " dog ", "canine", "", "") ==
            Step(Success(NewEntry("dog", "canine", "", "")), Holds([NewEntry("dog", "canine", "", "")]), true, true)
  {
    StripDog();
    StripNoEdgeSpace("canine");
    RegisterIntoMissingFile(" dog ", "canine", "", "");
  }

  lemma StripDog()
    ensures Strip(" dog ") == "dog"
  {
    assert LeadingSpaces(" dog ") == 1;
    assert TrimmedLength(" dog ") == 4;
  }

  /** The duplicate check is case-sensitive: "Cat" does not block "cat". */
  lemma ExampleCaseSensitive()
    ensures Registration(Holds([NewEntry("Cat", "", "", "")]), "cat", "", "", "").outcome.Success?
  {
    assert Strip("cat") == "cat";
    assert Strip("") == "";
    var list := [NewEntry("Cat", "", "", "")];
    assert TermOf(list[0]) == Some("Cat");
    assert "Cat"[0] != "cat"[0];
    assert !HasTerm(list, "cat");
  }

  /** A whitespace-only term is rejected whatever the file holds. */
  lemma ExampleBlankTerm(file: FileState)
    ensures Registration(file, " \t\U{3000}", "x", "y", "z") == Step(Error, file, false, false)
  {
    assert IsBlank(" \t\U{3000}");
  }
}
