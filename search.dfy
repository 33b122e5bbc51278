/**
  The search window (`gui_search_dictionary.py`): the loaded collection,
  scoped case-insensitive substring search over it, and what the result
  area shows.
 */
module DictionarySearch {
  import opened Text
  import opened Entries

  // The labels of the scope selector.
  const AllLabel: string := "全項目"
  const TermLabel: string := "用語 (term)"
  const DefinitionLabel: string := "意味/定義 (definition)"
  const CategoryLabel: string := "カテゴリ/分野 (category)"

  /** `scope_map`: which keys each scope label searches. */
  const ScopeMap: map<string, seq<string>> := map[
    AllLabel := FieldKeys,
    TermLabel := [TermKey],
    DefinitionLabel := [DefinitionKey],
    CategoryLabel := [CategoryKey]
  ]

  /** `scope_map.get(selected_scope, scope_map["全項目"])`: a known label gets
      its own keys, any other label searches all four fields. */
  function ScopeKeys(scope: string): (keys: seq<string>)
    ensures keys != []
    ensures forall k :: k in keys ==> k in FieldKeys
    ensures scope in ScopeMap ==> keys == ScopeMap[scope]
    ensures scope !in ScopeMap ==> keys == FieldKeys
  {
    if scope in ScopeMap then ScopeMap[scope] else ScopeMap[AllLabel]
  }

  /** The search term as the window compares it: the typed text
      lower-cased, then stripped of surrounding whitespace
      (`search_entry.get().lower().strip()`). */
  function NormalizeTerm(raw: string): string {
    Strip(Lower(raw))
  }

  /** The value under `key`, read as "" when missing and lower-cased,
      contains the term (`search_term in entry.get(key, '').lower()`). */
  predicate FieldMatches(entry: Record, key: string, term: string) {
    IsSubstring(term, Lower(Get(entry, key)))
  }

  /** The inner loop of the search: try the keys in order and stop at the
      first one whose value contains the term. */
  predicate Matches(entry: Record, keys: seq<string>, term: string)
    decreases |keys|
  {
    keys != [] && (FieldMatches(entry, keys[0], term) || Matches(entry, keys[1..], term))
  }

  /** The key-by-key scan succeeds exactly when some key of the scope holds a
      value containing the term. */
  lemma {:induction false} MatchesIff(entry: Record, keys: seq<string>, term: string)
    ensures Matches(entry, keys, term) <==> exists k :: k in keys && FieldMatches(entry, k, term)
    decreases |keys|
  {
    if keys != [] {
      MatchesIff(entry, keys[1..], term);
      assert forall k :: k in keys <==> k == keys[0] || k in keys[1..];
    }
  }

  /** The entries that match, in collection order, each taken once. */
  function Filter(data: seq<Record>, keys: seq<string>, term: string): (r: seq<Record>)
    ensures |r| <= |data|
  {
    if data == [] then []
    else
      var n := |data| - 1;
      var init := Filter(data[..n], keys, term);
      if Matches(data[n], keys, term) then init + [data[n]] else init
  }

  /** What `search_and_display` produces: nothing for an empty collection,
      every entry for a blank term, the matching entries otherwise. */
  function SearchResults(data: seq<Record>, rawTerm: string, scope: string): (r: seq<Record>)
    ensures data == [] ==> r == []
    ensures |r| <= |data|
  {
    if data == [] then []
    else
      var term := NormalizeTerm(rawTerm);
      if term == [] then data else Filter(data, ScopeKeys(scope), term)
  }

  /** The four messages of `display_results`. */
  datatype View =
    | PromptLoad              // "データを読み込んでください。"
    | NoMatch(term: string)   // "キーワード「…」に一致する項目は見つかりませんでした。"
    | NothingLoaded           // "データが読み込まれていません。"
    | Listing(shown: nat, total: nat)

  /** `display_results(results, search_term)`: which message is shown. */
  function Display(loaded: seq<Record>, results: seq<Record>, term: string): (v: View)
    ensures v.Listing? <==> results != []
    ensures v.Listing? ==> v.shown == |results| && v.total == |loaded|
  {
    if loaded == [] && results == [] then PromptLoad
    else if results == [] && term != [] then NoMatch(term)
    else if results == [] then NothingLoaded
    else Listing(|results|, |loaded|)
  }

  /** The term `search_and_display` passes on to `display_results`: only
      the filtering branch passes it, and there it is the normalised term. */
  function ShownTerm(data: seq<Record>, rawTerm: string): string {
    if data == [] then [] else NormalizeTerm(rawTerm)
  }

  function SearchView(data: seq<Record>, rawTerm: string, scope: string): View {
    Display(data, SearchResults(data, rawTerm, scope), ShownTerm(data, rawTerm))
  }

  /** The result file chosen in the open dialog, as far as the loader sees it. */
  datatype ReadResult =
    | Parsed(records: seq<Record>)
    | FileNotFound
    | BadJson
    | OtherFailure

  /** `filedialog.askopenfilename`: cancelled, or a file that was read. */
  datatype Pick = Cancelled | Chosen(read: ReadResult)

  /** The dialog box `load_data_from_file` opens after reading the file. */
  datatype Dialog =
    | LoadedInfo(count: nat)  // "読み込み完了" with the number of entries
    | NotFoundError           // "ファイルが見つかりません。"
    | FormatError             // "JSONファイルの形式が正しくありません。"
    | UnexpectedError         // "予期せぬエラーが発生しました: …"

  /** The dialog a read of the picked file leads to. */
  function DialogFor(read: ReadResult): (d: Dialog)
    ensures d.LoadedInfo? <==> read.Parsed?
    ensures read.Parsed? ==> d.count == |read.records|
    ensures read.FileNotFound? <==> d.NotFoundError?
    ensures read.BadJson? <==> d.FormatError?
    ensures read.OtherFailure? <==> d.UnexpectedError?
  {
    match read
    case Parsed(records) => LoadedInfo(|records|)
    case FileNotFound => NotFoundError
    case BadJson => FormatError
    case OtherFailure => UnexpectedError
  }

  /** What the window shows after a load: the dialog box, then the entries
      and the message of the result area. */
  datatype Shown = Shown(dialog: Dialog, results: seq<Record>, view: View)

  /** The filtering loop of `search_and_display`: for each entry in turn,
      try the keys in order, append the entry on the first match and stop
      looking at its other keys. */
  method FilterEntries(data: seq<Record>, keys: seq<string>, term: string) returns (results: seq<Record>)
    ensures results == Filter(data, keys, term)
  {
      results := [];
      var i := 0;
      while i < |data|
        invariant 0 <= i <= |data|
        invariant results == Filter(data[..i], keys, term)
      {
        var entry := data[i];
        ghost var before := results;
        var found := false;
        var j := 0;
        while j < |keys|
          invariant 0 <= j <= |keys|
          invariant results == before && !found
          invariant Matches(entry, keys, term) <==> Matches(entry, keys[j..], term)
        {
          if IsSubstring(term, Lower(Get(entry, keys[j]))) {
            assert keys[j..][0] == keys[j];
            results := results + [entry];
            found := true;
            break;
          }
          assert keys[j..][1..] == keys[j + 1..];
          j := j + 1;
        }
        assert found <==> Matches(entry, keys, term) by {
          if !found {
            assert keys[j..] == [];
          }
        }
        assert results == before + (if found then [entry] else []);
        FilterStep(data, i, keys, term, found);
        i := i + 1;
      }
      assert data[..i] == data;
  }

  /** The window's state: the global `loaded_data`. */
  class Viewer {
    var loadedData: seq<Record>

    /** `loaded_data = []` at start-up. */
    constructor ()
      ensures loadedData == []
    {
      loadedData := [];
    }

    /** `search_and_display`: reads the collection, changes nothing. */
    method Search(rawTerm: string, scope: string) returns (results: seq<Record>, view: View)
      ensures results == SearchResults(loadedData, rawTerm, scope)
      ensures view == SearchView(loadedData, rawTerm, scope)
    {
      if loadedData == [] {
        results := [];
        view := Display(loadedData, results, []);
        return;
      }
      var term := Strip(Lower(rawTerm));
      var keys := ScopeKeys(scope);
      if term == [] {
        results := loadedData;
        view := Display(loadedData, results, []);
        return;
      }
      results := FilterEntries(loadedData, keys, term);
      view := Display(loadedData, results, term);
    }

    /** `load_data_from_file`: a cancelled dialog changes nothing; a parsed
        file becomes the collection, is announced with its entry count and
        is shown through the search; each failure has its own error box,
        empties the collection and shows the empty result. */
    method LoadFromFile(pick: Pick, rawTerm: string, scope: string) returns (shown: Option<Shown>)
      modifies this
      ensures pick.Cancelled? ==> loadedData == old(loadedData) && shown == None
      ensures pick.Chosen? && pick.read.Parsed? ==>
                loadedData == pick.read.records &&
                shown == Some(Shown(LoadedInfo(|loadedData|), SearchResults(loadedData, rawTerm, scope),
                                    SearchView(loadedData, rawTerm, scope)))
      ensures pick.Chosen? && !pick.read.Parsed? ==>
                loadedData == [] && shown == Some(Shown(DialogFor(pick.read), [], PromptLoad))
    {
      if pick.Cancelled? {
        return None;
      }
      match pick.read {
        case Parsed(records) =>
          loadedData := records;
          var dialog := LoadedInfo(|loadedData|);
          var results, view := Search(rawTerm, scope);
          shown := Some(Shown(dialog, results, view));
        case FileNotFound =>
          loadedData := [];
          shown := Some(Shown(NotFoundError, [], Display(loadedData, [], [])));
        case BadJson =>
          loadedData := [];
          shown := Some(Shown(FormatError, [], Display(loadedData, [], [])));
        case OtherFailure =>
          loadedData := [];
          shown := Some(Shown(UnexpectedError, [], Display(loadedData, [], [])));
      }
    }
  }

  // ---------------------------------------------------------------------
  // Properties of the search.

  /** One more entry of the collection adds it to the filtered list exactly
      when it matches. */
  lemma FilterStep(data: seq<Record>, i: int, keys: seq<string>, term: string, matched: bool)
    requires 0 <= i < |data|
    requires matched <==> Matches(data[i], keys, term)
    ensures Filter(data[..i + 1], keys, term) ==
            Filter(data[..i], keys, term) + (if matched then [data[i]] else [])
  {
    assert data[..i + 1][..i] == data[..i];
  }

  /** An entry is in the filtered list exactly when it is in the collection
      and matches. */
  lemma {:induction false} FilterMembership(data: seq<Record>, keys: seq<string>, term: string, x: Record)
    ensures x in Filter(data, keys, term) <==> x in data && Matches(x, keys, term)
  {
    if data != [] {
      var n := |data| - 1;
      FilterMembership(data[..n], keys, term, x);
      assert data == data[..n] + [data[n]];
    }
  }

  /** The positions of the matching entries, strictly increasing, and
      picking them out of the collection gives the filtered list. So the
      result is an order-preserving subsequence that takes each entry of the
      collection at most once. */
  function MatchPositions(data: seq<Record>, keys: seq<string>, term: string): (p: seq<nat>)
    ensures |p| == |Filter(data, keys, term)|
    ensures forall k :: 0 <= k < |p| ==> p[k] < |data| && data[p[k]] == Filter(data, keys, term)[k]
    ensures forall k, l :: 0 <= k < l < |p| ==> p[k] < p[l]
  {
    if data == [] then []
    else
      var n := |data| - 1;
      var init := MatchPositions(data[..n], keys, term);
      assert forall i :: 0 <= i < n ==> data[..n][i] == data[i];
      if Matches(data[n], keys, term) then
        assert Filter(data, keys, term) == Filter(data[..n], keys, term) + [data[n]];
        init + [n]
      else
        init
  }

  /** The positions picked are exactly those of the matching entries. */
  lemma {:induction false} MatchPositionsExact(data: seq<Record>, keys: seq<string>, term: string, i: nat)
    requires i < |data|
    ensures i in MatchPositions(data, keys, term) <==> Matches(data[i], keys, term)
  {
    var n := |data| - 1;
    var init := MatchPositions(data[..n], keys, term);
    var p := MatchPositions(data, keys, term);
    assert p == if Matches(data[n], keys, term) then init + [n] else init;
    if i < n {
      MatchPositionsExact(data[..n], keys, term, i);
      assert data[..n][i] == data[i];
      assert i in p <==> i in init;
    } else {
      assert n !in init;
    }
  }

  /** The normalised term is empty exactly when the typed term is blank
      (whitespace-only included), and then the whole collection is shown
      unchanged, in its own order. */
  lemma BlankTermShowsAll(data: seq<Record>, rawTerm: string, scope: string)
    ensures NormalizeTerm(rawTerm) == [] <==> IsBlank(rawTerm)
    ensures IsBlank(rawTerm) ==> SearchResults(data, rawTerm, scope) == data
  {
    LowerKeepsSpace(rawTerm);
  }

  /** With a term left after normalisation, an entry is shown exactly when a
      key of the selected scope holds a value that, lower-cased, contains
      the term. */
  lemma SearchMembership(data: seq<Record>, rawTerm: string, scope: string, x: Record)
    requires NormalizeTerm(rawTerm) != []
    ensures x in SearchResults(data, rawTerm, scope) <==>
            x in data && exists k :: k in ScopeKeys(scope) && FieldMatches(x, k, NormalizeTerm(rawTerm))
  {
    FilterMembership(data, ScopeKeys(scope), NormalizeTerm(rawTerm), x);
    MatchesIff(x, ScopeKeys(scope), NormalizeTerm(rawTerm));
  }

  /** A key the entry lacks reads as "" and never matches a non-empty term. */
  lemma MissingKeyNeverMatches(entry: Record, key: string, term: string)
    requires key !in entry && term != []
    ensures !FieldMatches(entry, key, term)
  {
    NothingInEmpty(term);
  }

  /** A scope outside the selector's list searches like "全項目". */
  lemma UnknownScopeSearchesAll(data: seq<Record>, rawTerm: string, scope: string)
    requires scope !in ScopeMap
    ensures SearchResults(data, rawTerm, scope) == SearchResults(data, rawTerm, AllLabel)
    ensures ScopeKeys(scope) == [TermKey, DefinitionKey, CategoryKey, ExampleKey]
  {
  }

  /** The case of the typed term does not matter. */
  lemma SearchIgnoresTermCase(data: seq<Record>, rawTerm: string, scope: string)
    ensures SearchResults(data, rawTerm, scope) == SearchResults(data, Lower(rawTerm), scope)
  {
    LowerIdempotent(rawTerm);
  }

  /** The case of the stored values does not matter: two entries whose
      scoped values agree after lower-casing match the same terms. */
  lemma {:induction false} MatchIgnoresValueCase(e1: Record, e2: Record, keys: seq<string>, term: string)
    requires forall k :: k in keys ==> Lower(Get(e1, k)) == Lower(Get(e2, k))
    ensures Matches(e1, keys, term) <==> Matches(e2, keys, term)
    decreases |keys|
  {
    if keys != [] {
      assert keys[0] in keys;
      assert forall k :: k in keys[1..] ==> k in keys;
      MatchIgnoresValueCase(e1, e2, keys[1..], term);
    }
  }

  /** The result area shows one of three messages after a search, and never
      "データが読み込まれていません。" (that branch of `display_results` is
      only reachable from a caller that passes an empty list while data is
      loaded, which no caller does). */
  lemma SearchViewCases(data: seq<Record>, rawTerm: string, scope: string)
    ensures var v := SearchView(data, rawTerm, scope);
            && (v.PromptLoad? <==> data == [])
            && (v.NoMatch? <==> data != [] && SearchResults(data, rawTerm, scope) == [])
            && (v.NoMatch? ==> v.term == NormalizeTerm(rawTerm) && v.term != [])
            && (v.Listing? ==> v.shown == |SearchResults(data, rawTerm, scope)| && v.total == |data|)
            && !v.NothingLoaded?
  {
  }

  // ---------------------------------------------------------------------
  // A worked example: two entries, searched by term and browsed.

  const Run: Record := map[TermKey := "Run", DefinitionKey := "to move fast"]
  const Walk: Record := map[TermKey := "Walk", DefinitionKey := "to move slowly"]

  /** Filtering a two-entry collection. */
  lemma FilterPair(a: Record, b: Record, keys: seq<string>, term: string)
    ensures Filter([a, b], keys, term) ==
            (if Matches(a, keys, term) then [a] else []) + (if Matches(b, keys, term) then [b] else [])
  {
    FilterStep([a, b], 0, keys, term, Matches(a, keys, term));
    FilterStep([a, b], 1, keys, term, Matches(b, keys, term));
    assert [a, b][..2] == [a, b];
    assert [a, b][..0] == [];
  }

  lemma RunTermMatches()
    ensures Matches(Run, [TermKey], "run")
  {
    assert Lower(Get(Run, TermKey)) == "run";
    assert StartsWith("run", "run");
  }

  lemma WalkTermMisses()
    ensures !Matches(Walk, [TermKey], "run")
  {
    assert Lower(Get(Walk, TermKey)) == "walk";
    assert "walk"[1..] == "alk" && "alk"[1..] == "lk" && "lk"[1..] == "k" && "k"[1..] == "";
    assert !IsSubstring("run", "");
    assert !IsSubstring("run", "k");
    assert !IsSubstring("run", "lk");
    assert "alk"[..3][0] != "run"[0];
    assert !IsSubstring("run", "alk");
    assert "walk"[..3][0] != "run"[0];
    assert [TermKey][1..] == [];
  }

  lemma TermScope()
    ensures ScopeKeys(TermLabel) == [TermKey]
  {
  }

  lemma NormalizeRun()
    ensures NormalizeTerm("run") == "run"
  {
  }

  /** A non-empty collection and a non-blank term go through `Filter`. */
  lemma FilteredSearch(data: seq<Record>, rawTerm: string, scope: string, keys: seq<string>, term: string)
    requires data != [] && term != [] && NormalizeTerm(rawTerm) == term && ScopeKeys(scope) == keys
    ensures SearchResults(data, rawTerm, scope) == Filter(data, keys, term)
  {
  }

  /** "run" in the term scope finds "Run" and not "Walk". */
  lemma ExampleSearchByTerm()
    ensures SearchResults([Run, Walk], "run", TermLabel) == [Run]
  {
    NormalizeRun();
    TermScope();
    FilteredSearch([Run, Walk], "run", TermLabel, [TermKey], "run");
    RunTermMatches();
    WalkTermMisses();
    FilterPair(Run, Walk, [TermKey], "run");
  }

  /** An empty term lists both entries, whatever the scope. */
  lemma ExampleBrowse()
    ensures SearchResults([Run, Walk], "", CategoryLabel) == [Run, Walk]
  {
  }
}
