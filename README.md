# pythonbible: indexed text store and translation registry

A Dafny model of the two pieces of pythonbible that hold and serve verse text:

- **`Bible`** (`pythonbible/bible/bible.py`): one translation in one format. It holds the
  full scripture text, two tables from verse id to character offset (where each verse
  starts and where it ends), the max-verse table, short and long book titles, and an
  `is_html` flag. `get_scripture(start, end=None)` validates both ids, looks up the start
  offset of the first verse and the end offset of the last, slices the text between them
  and cleans the slice. `_clean` strips plain text and sends HTML through `clean_html`.
- **The registry** (`pythonbible/bible/__init__.py`): the module-level `BIBLES` table
  `version -> bible_type -> Bible`. `get_bible` returns the stored Bible or loads the
  packaged one. `add_bible` lets a caller bring their own Bible and replaces any entry
  under the same key.

Verse ids pack a position as `book * 1_000_000 + chapter * 1_000 + verse`. For example,
Genesis 1:1 is 1001001 and Matthew 18:12 is 40018012.

Modules, one per concern:

| file | module | models |
|---|---|---|
| `wrappers.dfy` | `Wrappers` | `Option` (Python `None`) and `Result` (a raised error) |
| `verse_ids.dfy` | `VerseIds` | the verse-id encoding and the validator `is_valid_verse_id` |
| `versions.dfy` | `Versions` | the translation `Version` |
| `errors.dfy` | `Errors` | `InvalidVerseError`, `VersionMissingVerseError`, `MissingVerseFileError` and the bare-id message |
| `py_text.dfy` | `PyText` | Python's `s[a:b]` slicing and `str.strip()` |
| `bible_store.dfy` | `BibleStore` | `Bible`, `get_scripture`, `_get_start_and_end_indices`, `_clean` |
| `bible_registry.dfy` | `BibleRegistry` | `BIBLES`, `get_bible`, `add_bible` |

Modelling decisions:

- The Python bodies of `get_scripture`, `_get_start_and_end_indices`, `_clean`, `clean_html`,
  `get_bible` and `add_bible` return fixed stand-in values (`""`, `(0, 0)`, a dummy Bible).
  Their behaviour here comes from the rest of the code and the tests:
  - the parameter types and docstrings;
  - the errors and the validator that `bible.py` imports (lines 8-10);
  - the expected values in `tests/`.
- `Bible` is a class whose fields are `const`. The constructor sets all eight fields and
  nothing changes them afterwards. `get_scripture` is a function of the object, so by
  construction it leaves every field unchanged. The default `is_html=False` is the
  `Plain` constructor.
- `get_scripture` checks the start id with the validator, then the end id if one was
  given. It then looks up the start offset, then the end offset. Python raises at the
  first check that fails, and the model returns that same error. An omitted end means
  the start id.
- Offsets are plain `int`s, and the slice follows Python exactly. Negative bounds count
  from the end, bounds are clamped to the text, and bounds out of order give `""`.
- `_clean` on plain text is `str.strip()`, using Python's full `isspace` character set. The
  documented Genesis 1:1 text ("In the beginning God created the heavens and the earth.")
  has no surrounding whitespace, which is what this gives.
- When `get_bible` finds nothing stored, it loads the packaged Bible and keeps it in the
  table for later calls.
- Error kinds:
  - An id missing from an offset table raises `VersionMissingVerseError`, the error
    `pythonbible/bible/bible.py:8` imports for the store.
  - A version with no files and no registered Bible raises `MissingVerseFileError`, the
    error `tests/formatter/missing_file_handling_test.py:18` names.

## Model

| member | source | states |
|---|---|---|
| `VerseIds.DecodeEncode` | tests/docs/basic_usage_test.py:39-50 | decoding the id of an in-range (book, chapter, verse) returns exactly that triple |
| `VerseIds.EncodeDecode` | tests/docs/basic_usage_test.py:39-50 | every integer is the encoding of what it decodes to, using Python's floor division and modulo |
| `VerseIds.EncodeOrder` | tests/docs/basic_usage_test.py:53-80 | for in-range positions, ids compare as (book, chapter, verse) compare lexicographically, and equal ids mean equal positions |
| `VerseIds.ValidEncodedIff` | pythonbible/bible/bible.py:10 | an encoded position passes the validator if and only if the max-verse table has that book, that chapter, and a verse number from 1 to the chapter's maximum |
| `VerseIds.ValidIdIsEncoding` | pythonbible/bible/bible.py:10 | every valid id names an existing verse and is the encoding of that verse |
| `VerseIds.GenesisOneOne` | tests/docs/basic_usage_test.py:39-50 | Genesis 1:1 encodes to 1001001 and decodes back |
| `VerseIds.MatthewEighteenTwelve` | tests/docs/basic_usage_test.py:53-80 | Matthew 18:12 encodes to 40018012 and decodes back |
| `Errors.InvalidVerseMessage` | tests/errors_test.py:19-25 | the message ends in " is not a valid verse." and what comes before is the id written as Python's `str` writes it: it reads back as the id and has no leading zero, before or after a minus sign |
| `Errors.IntRoundTrip` | tests/errors_test.py:19-25 | the decimal form of an id, as Python's `str` writes it, parses back to the same id |
| `Errors.GenesisOneOneMessage` | tests/errors_test.py:19-25 | the message for id 1001001 is "1001001 is not a valid verse." |
| `PyText.SliceBound` | pythonbible/bible/bible.py:65-70 | a slice bound inside the text is kept, a negative bound counts from the end, and anything beyond is clamped to 0 or the length |
| `PyText.Slice` | pythonbible/bible/bible.py:65-70 | with both bounds adjusted as `SliceBound` states (counted from the end, then clamped), the result is the text between them, or "" when they are out of order; an in-range slice is the Dafny subsequence |
| `PyText.Strip` | pythonbible/bible/bible.py:80-82 | the result is a contiguous piece of the input with only whitespace cut from each end, and it neither starts nor ends with whitespace |
| `PyText.StripSurrounded` | pythonbible/bible/bible.py:80-82 | stripping whitespace + core + whitespace gives exactly the core |
| `PyText.StripIdempotent` | pythonbible/bible/bible.py:80-82 | stripping twice is stripping once |
| `PyText.StripOfRange` | pythonbible/bible/bible.py:65-82 | stripping a stretch of a text keeps a sub-stretch of it, with only whitespace removed between the two |
| `BibleStore.Clean` | pythonbible/bible/bible.py:80-87 | HTML content goes through the markup cleaner, and plain text comes back stripped of the whitespace around it |
| `BibleStore.Bible.constructor` | pythonbible/bible/bible.py:34-63 | each of the eight arguments is stored unchanged in its same-named field |
| `BibleStore.Bible.Plain` | pythonbible/bible/bible.py:34-63 | leaving `is_html` out stores the other arguments unchanged and sets `is_html` to False |
| `BibleStore.Bible.StartAndEndIndices` | pythonbible/bible/bible.py:72-77 | succeeds exactly when the start id has a start offset and the end id has an end offset, and then returns those two offsets; otherwise it fails with `VersionMissingVerseError` for the first id that is missing |
| `BibleStore.Bible.GetScripture` | pythonbible/bible/bible.py:65-70 | an invalid start id, or else an invalid end id, gives `InvalidVerseError` for that id. Success means both ids are valid and both offsets exist, and the text is the cleaned slice between them. Two valid ids with a missing offset give `VersionMissingVerseError`, for the start id when it lacks a start offset and otherwise for the end id, never an out-of-range slice |
| `BibleStore.Bible.OmittedEndIsSingleVerse` | pythonbible/bible/bible.py:65-69 | `get_scripture(s)` equals `get_scripture(s, s)` |
| `BibleStore.Bible.PlainScriptureIsTrimmedRange` | pythonbible/bible/bible.py:65-82 | when every offset lies inside the text, plain text for a forward range is a piece of the text between the two offsets with only whitespace cut from either side, and it neither starts nor ends with whitespace |
| `BibleStore.Bible.BackwardRangeIsEmpty` | pythonbible/bible/bible.py:65-70 | when the end offset comes before the start offset, plain text reads as "" |
| `BibleStore.ScriptureDependsOnlyOnSlice` | pythonbible/bible/bible.py:65-70 | two Bibles that agree on the sliced text and the HTML flag give the same scripture |
| `BibleStore.CleanGenesisOneOne` | tests/docs/basic_usage_test.py:123-125 | cleaning the stored Genesis 1:1 line as plain text gives "In the beginning God created the heavens and the earth." |
| `BibleStore.GenesisOneOnePlainText` | tests/docs/basic_usage_test.py:123-125 | in a plain-text Bible holding Genesis 1:1-2, `get_scripture(1001001)` is exactly "In the beginning God created the heavens and the earth." |
| `BibleRegistry.Put` | pythonbible/bible/__init__.py:43-57 | after storing, the key holds the new Bible and every other (version, type) key holds what it held before |
| `BibleRegistry.Resolve` | pythonbible/bible/__init__.py:21-40 | a stored Bible is returned as it is. Otherwise the result is the loader's Bible for that same key, or `MissingVerseFileError` for the version when there is none. It is never a Bible from another key |
| `BibleRegistry.AddThenGet` | tests/formatter/missing_file_handling_test.py:39-47 | after `add_bible(v, t, b)`, `get_bible(v, t)` returns `b` whatever the loader would produce |
| `BibleRegistry.AddOverwrites` | tests/formatter/missing_file_handling_test.py:92-100 | adding twice under one key leaves only the second Bible |
| `BibleRegistry.AddLeavesOthers` | tests/formatter/missing_file_handling_test.py:49-51 | adding under one key changes the answer for no other version or type |
| `BibleRegistry.PutExisting` | pythonbible/bible/__init__.py:43-57 | storing the Bible a key already holds leaves the table unchanged |
| `BibleRegistry.Registry.constructor` | pythonbible/bible/__init__.py:18 | the table starts empty |
| `BibleRegistry.Registry.GetBible` | pythonbible/bible/__init__.py:21-40 | returns what `Resolve` gives for the old table. A stored hit or a failure leaves the table unchanged, and a fresh load is stored under its key |
| `BibleRegistry.Registry.AddBible` | pythonbible/bible/__init__.py:43-57 | the new table is the old one with `b` stored under (v, t), and all other keys are unchanged |

## Left out

- Loading packaged translations with `import_module` and `Path`, and the file check
  `_do_version_files_exist`, are I/O. They are the `Loader` function the registry is built with.
- The markup rules of `clean_html` are regex processing outside this model. The cleaner is
  a function parameter of `Clean` and `GetScripture`.
- The `lru_cache` memoisation of `_clean` and `clean_html` is only an optimisation. A Dafny
  function already gives equal results for equal arguments.
- The validator `is_valid_verse_id` (module `pythonbible.validator`) is not part of this
  model. It is modelled as a check against a max-verse table passed in as `canon`.
- `InvalidVerseError` messages built from a book, chapter and verse, and the messages of
  `VersionMissingVerseError` and `MissingVerseFileError`, are left out. The errors module is
  not part of this model.
- Thread-safety of the process-global `BIBLES` table is left out, because the model is
  single-threaded.
- The tests put Bible-like stand-ins (objects whose `max_verses` raises) into the registry
  and remove whole versions with `BIBLES.pop`. The model registers only `Bible` objects and
  has no removal, because neither belongs to the library's own API.
- Books and versions are plain values: a book is its enum number, and a version is its code.
- The citation parser, normaliser, verse-id converter and formatter are outside this model.
