# Dictionary search and registration, modelled in Dafny

This project models the two pieces of logic in a pair of small Tk scripts.
The two scripts keep a personal glossary. Each glossary entry is a JSON
object with the fields `term`, `definition`, `category` and `example`.

- **Search window** (`gui_search_dictionary.py`). `loaded_data` holds the
  collection read from a file the user picks. `search_and_display`
  lower-cases and strips the typed term. It then picks the keys to compare
  from a scope label; an unknown label falls back to all four keys. It
  keeps every entry where some key's lower-cased value contains the term.
  It compares the keys in order and stops at the first match (`break`), so
  an entry is appended at most once. A load that fails for any reason
  empties the collection.
- **Registration window** (`register_data.py`). `register_entry_gui` strips
  the four inputs and rejects a blank term before the file is read. It
  scans the stored list for an exact, case-sensitive term match and stops
  on a duplicate. Otherwise it appends the new four-field entry and saves
  the whole list. `load_data` reads a missing data file as the empty list.

Modules:

- `Text` (`text.dfy`) models the Python string operations the scripts use.
  - `IsSpace` is the set of characters for which `str.isspace` is true.
  - `Lower` lower-cases ASCII letters only.
  - `Strip` is built from `LeadingSpaces` and `TrimmedLength`.
  - `IsSubstring` scans start positions like `needle in hay`.
- `Entries` (`entries.dfy`) defines a record as `map<string, string>`.
  - `Get` reads a missing key as `""`.
  - `TermOf` models `entry.get('term')`.
  - `NewEntry` builds the four-field record.
- `DictionarySearch` (`search.dfy`) holds the search functions and the `Viewer` class.
  - `Filter` and `SearchResults` are pure specification functions.
  - `FilterEntries` is the nested loop, proved equal to `Filter`.
  - The class `Viewer` holds `loadedData`, with `Search` and `LoadFromFile`.
  - `SearchView` gives the message the result area shows.
- `DictionaryRegistration` (`register.dfy`) holds the registration model and the `DictionaryFile` class.
  - `Registration` is the pure specification of one call.
  - `ContainsTerm` is the duplicate scan loop.
  - The class `DictionaryFile` holds the data file as a `FileState`. It has `LoadData`, `SaveData` and `Register`, plus ghost counters of reads and writes.

The file dialog's result and the data file's contents are parameters of
the model. The dialog's result is `Pick` / `ReadResult`. The data file is
`FileState`: missing, holding a list, or unreadable. JSON parsing itself is
not modelled.

Four behaviours of the scripts that the model keeps as they are:

- The scope "全項目" searches all four fields, `example` included
  (gui_search_dictionary.py:62).
- `load_data_from_file` treats every load failure alike apart from its
  error box (gui_search_dictionary.py:37-48). A missing file, bad JSON and
  any other exception each show their own error dialog, empty
  `loaded_data` and show the prompt to load.
- `register_entry_gui` does not catch an exception raised by `load_data`
  (register_data.py:43). The model calls this outcome `Crashed`: nothing
  is shown and nothing is saved.
- The search term is lower-cased first and stripped second
  (gui_search_dictionary.py:57). With ASCII-only lower-casing the order
  makes no difference (`Text.LowerStripCommute`).

## Model

| member | source | states |
|---|---|---|
| DictionarySearch.NormalizeTerm | gui_search_dictionary.py:57 | the term as `lower().strip()` leaves it; `BlankTermShowsAll` proves it is empty exactly for a blank input, and `Text.LowerStripCommute` proves the two steps commute |
| DictionarySearch.Matches | gui_search_dictionary.py:81-85 | the key-by-key test of one entry, true at the first key whose lower-cased value contains the term; `MatchesIff` characterises it |
| DictionarySearch.Filter | gui_search_dictionary.py:78-85 | the entries that match, in collection order; never longer than the collection; `FilterMembership`, `MatchPositions` and `MatchPositionsExact` describe it |
| DictionarySearch.ScopeKeys | gui_search_dictionary.py:61-68 | a label in the scope map gets exactly its listed keys; any other label gets all four field keys; the list is never empty and holds only field keys |
| DictionarySearch.UnknownScopeSearchesAll | gui_search_dictionary.py:61-68 | a label outside the scope map gives the same results as "全項目", which searches term, definition, category and example |
| DictionarySearch.MatchesIff | gui_search_dictionary.py:81-85 | the key-by-key scan that stops at the first hit succeeds exactly when some key of the scope holds a matching value |
| DictionarySearch.FilterEntries | gui_search_dictionary.py:75-85 | the nested loop with `break` builds exactly the specification list `Filter` |
| DictionarySearch.SearchResults | gui_search_dictionary.py:53-55 | an empty collection gives an empty result, whatever the term and scope; the result is never longer than the collection |
| DictionarySearch.BlankTermShowsAll | gui_search_dictionary.py:57-73 | the normalised term is empty exactly when the typed term is whitespace-only or empty, and then the whole collection is the result, unchanged and in order |
| DictionarySearch.SearchMembership | gui_search_dictionary.py:78-85 | with a non-blank term, an entry is in the result exactly when it is in the collection and some key of the scope holds a value whose lower-case form contains the term |
| DictionarySearch.FilterMembership | gui_search_dictionary.py:78-85 | an entry is in the filtered list exactly when it is in the collection and matches |
| DictionarySearch.FilterStep | gui_search_dictionary.py:78-85 | one more entry extends the filtered list by that entry exactly when it matches, and by nothing otherwise |
| DictionarySearch.MatchPositions | gui_search_dictionary.py:78-85 | the filtered list picks entries from the collection at strictly increasing positions, so it is an order-preserving subsequence that takes each entry at most once |
| DictionarySearch.MatchPositionsExact | gui_search_dictionary.py:78-85 | the picked positions are exactly the positions of the matching entries |
| DictionarySearch.MissingKeyNeverMatches | gui_search_dictionary.py:82 | a key the entry lacks reads as the empty string and never matches a non-empty term |
| DictionarySearch.SearchIgnoresTermCase | gui_search_dictionary.py:57 | lower-casing the typed term first does not change the result |
| DictionarySearch.MatchIgnoresValueCase | gui_search_dictionary.py:82 | two entries whose scoped values agree after lower-casing match the same terms |
| DictionarySearch.SearchView | gui_search_dictionary.py:50-87 | the message `search_and_display` shows: the load prompt for an empty collection at line 54, the whole collection at line 72, and the filtered results with the term at line 87; `SearchViewCases` proves its cases |
| DictionarySearch.Display | gui_search_dictionary.py:95-103 | the listing appears exactly when there are results, and then shows their count and the collection's size |
| DictionarySearch.SearchViewCases | gui_search_dictionary.py:95-100 | after a search, the prompt to load appears exactly when nothing is loaded; "no match" appears exactly when data is loaded and nothing matched, and it names the normalised, non-empty term; "no data loaded" never appears |
| DictionarySearch.Viewer.constructor | gui_search_dictionary.py:8 | the collection starts empty |
| DictionarySearch.Viewer.Search | gui_search_dictionary.py:50-87 | the results and the message are those of the specification functions `SearchResults` and `SearchView` on the loaded collection |
| DictionarySearch.DialogFor | gui_search_dictionary.py:32-46 | a parsed file gives the success box with its entry count; a missing file, bad JSON and any other failure each give their own error box |
| DictionarySearch.Viewer.LoadFromFile | gui_search_dictionary.py:15-48 | a cancelled dialog changes nothing; a parsed file becomes the collection, is announced with its entry count, and is shown through the search; a missing file, bad JSON or any other failure shows its own error box, leaves the collection empty and shows the prompt to load |
| DictionarySearch.ExampleSearchByTerm | gui_search_dictionary.py:75-87 | "run" in the term scope finds the entry "Run" and not "Walk" |
| DictionarySearch.ExampleBrowse | gui_search_dictionary.py:71-73 | an empty term lists both entries in their order |
| Text.Lower | gui_search_dictionary.py:57 | `str.lower` as `LowerChar` applied to each character, with the length unchanged; `LowerIdempotent`, `LowerKeepsSpace` and `LowerStripCommute` state its properties |
| Text.LowerChar | gui_search_dictionary.py:57 | an ASCII capital becomes the small letter 32 code points above; every other character is unchanged |
| Text.LowerIdempotent | gui_search_dictionary.py:57 | lower-casing twice is lower-casing once |
| Text.LowerKeepsSpace | gui_search_dictionary.py:57 | lower-casing keeps a string blank exactly when it was blank |
| Text.LowerStripCommute | gui_search_dictionary.py:57 | lower-casing then stripping gives the same string as stripping then lower-casing |
| Text.IsSpace | register_data.py:33-36 | the whitespace test of `str.strip`: the code points for which `str.isspace` holds; `Strip` and `StripKeepsMiddle` use it |
| Text.Strip | register_data.py:33-36 | the stripped string is empty exactly when the input is blank, and otherwise begins and ends with a non-whitespace character |
| Text.StripKeepsMiddle | register_data.py:33-36 | stripping takes the slice of the input between a blank prefix and a blank suffix |
| Text.StripNoEdgeSpace | register_data.py:33-36 | a string without whitespace at either end is unchanged by stripping |
| Text.StripIdempotent | register_data.py:33-36 | stripping twice is stripping once |
| Text.IsSubstring | gui_search_dictionary.py:82 | `needle in hay`, trying each start position in turn; `IsSubstringIff` proves it means an occurrence at some position |
| Text.IsSubstringIff | gui_search_dictionary.py:82 | the scanning substring test holds exactly when the term occurs at some position of the value |
| Text.NothingInEmpty | gui_search_dictionary.py:82 | a non-empty string never occurs in the empty string |
| Entries.Get | gui_search_dictionary.py:82 | a missing key reads as the empty string |
| Entries.TermOf | register_data.py:47 | an entry has a term exactly when it has the key "term" |
| Entries.NewEntry | register_data.py:52-57 | the new entry has exactly the keys term, definition, category and example, each holding the value given for it |
| DictionaryRegistration.Stored | register_data.py:13-16 | the list `load_data` returns: the stored list, or the empty list for a missing file; `DictionaryFile.LoadData` agrees with it |
| DictionaryRegistration.HasTerm | register_data.py:46-47 | some stored entry has exactly this term; `ContainsTerm` is proved to compute it |
| DictionaryRegistration.Registration | register_data.py:30-60 | one call of `register_entry_gui` as a value: its outcome, the file afterwards, and whether the file was read and written; `RegistrationOutcomes` states its cases and `DictionaryFile.Register` is proved equal to it |
| DictionaryRegistration.ContainsTerm | register_data.py:46-49 | the linear scan with early exit answers true exactly when some stored entry's term equals the key exactly |
| DictionaryRegistration.DictionaryFile.constructor | register_data.py:6 | the file starts in the given state, with no reads or writes yet |
| DictionaryRegistration.DictionaryFile.LoadData | register_data.py:11-16 | a missing file reads as the empty list; a file holding a list returns that list; an unreadable file gives no list; each call counts as one read and changes nothing else |
| DictionaryRegistration.DictionaryFile.SaveData | register_data.py:18-21 | the file is overwritten with the whole list, counted as one write |
| DictionaryRegistration.DictionaryFile.Register | register_data.py:30-60 | the outcome, the new file and the number of reads and writes are those of the specification function `Registration`; unique stored terms stay unique |
| DictionaryRegistration.RegistrationOutcomes | register_data.py:33-60 | a blank term gives the error with no read and no write; an unreadable file gives the crash with no write; an exact stored match of the stripped term gives the warning with the file unchanged; the file is written exactly on success, and then holds the old list with the new entry of the four stripped inputs appended at the end |
| DictionaryRegistration.RegistrationKeepsTermsUnique | register_data.py:46-60 | if the stored terms are pairwise distinct before a registration, they are pairwise distinct afterwards, whatever the outcome |
| DictionaryRegistration.RegisteredTermStoredOnce | register_data.py:46-60 | after a successful registration, whatever the stored list held, the list is one longer, its last entry carries the stripped term, and no earlier entry does |
| DictionaryRegistration.RegisterIntoMissingFile | register_data.py:43-60 | registering a non-blank term into a missing file creates a file holding just the new entry |
| DictionaryRegistration.ExampleDuplicate | register_data.py:46-49 | registering a stored term again, even with another definition, is refused and the file is left alone |
| DictionaryRegistration.ExampleFirstEntry | register_data.py:33-60 | " dog " is registered as "dog", and the file holds only that entry |
| DictionaryRegistration.ExampleCaseSensitive | register_data.py:47 | a stored "Cat" does not block registering "cat" |
| DictionaryRegistration.ExampleBlankTerm | register_data.py:39-41 | a term of spaces, a tab and an ideographic space is rejected, whatever the file holds |

## Left out

- The Tk interface is not modelled: widgets, styling, the main loop,
  bindings and the clearing of the input fields after a registration.
  For the message boxes of `load_data_from_file`, the model keeps which
  box appears and the entry count of the success box
  (`DictionarySearch.Dialog`). It does not keep their titles, their text or
  the exception text of the unexpected-error box.
- Text layout is reduced to the kind of message.
  - For `display_results`, the model keeps the message kind and two
    numbers: how many entries are shown and how many are loaded.
  - For `update_confirmation_box`, the model keeps the kind of outcome.
  - The per-entry lines with their `N/A` defaults are not modelled.
- JSON parsing and serialisation and the file system are not modelled:
  `open`, `json.load`, `json.dump` and `os.path.exists`. The file is an
  abstract `FileState`, and the picked file is an abstract `ReadResult`.
- The model does not prove that saving and loading round-trip. A saved
  list is taken to read back as itself.
- A failing `save_data` is not modelled. Saving always succeeds.
- Data files whose JSON is not a list of objects with string values are
  outside the model. Examples are a top-level object, or a number or
  nested value where a string is expected.
- Text.LowerChar, Text.Lower: lower-case ASCII letters only. Python's `str.lower` covers
  all of Unicode and can change a string's length (for example `'İ'`).
- `application/Dic_app/Python/constants.py` is not part of this model. It
  holds constant tables and no logic: the data file name, the font and
  colours, a map from field keys to labels, and a part-of-speech list.
  Neither script imports it.
- Concurrent access to the data file is not modelled. Each script is
  single-threaded, but the two scripts run as separate programs
  (gui_search_dictionary.py:188-189, register_data.py:143-144), and
  nothing locks the file between them.
  - Two registration windows can interleave `load_data` and `save_data`,
    and then one window's entry is lost.
  - The search window can read the file while `save_data` is rewriting
    it. It then sees a truncated file and empties `loaded_data`.
  - The model treats each registration and each load as one indivisible
    step.
