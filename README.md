# ghost-note: the note capability manager in Dafny

GhostNote is an anonymous note board. Anyone can post a note. Creating a note returns a
secret *modification code*, and whoever holds that code can later edit or delete the note.
Public notes also appear in a paginated listing shown in random order, and in a "random
note" redirect.

This project models the views that implement this (`notes/views.py`), the `Note` record and
its string form (`notes/models.py`), and the `NoteForm` (`notes/forms.py`).

The modules follow that structure:

- `Wrappers`: `Option`.
- `PyStr`: the parts of Python's `str` the core relies on.
  - `strip` over Python's whitespace set.
  - `replace(x, '')`.
  - ASCII lower-casing.
  - `int()` of a decimal string, with the whitespace it skips and its 4300-digit limit.
  - `str()` of a natural number and zero padding.
- `Uuids`: a UUID as 32 hexadecimal digits.
  - `uuid4()` given its random bits (section 4.4 of RFC 4122).
  - `str()`, the canonical 36-character form.
  - `uuid.UUID(s)` parsing, with its prefix, brace and hyphen handling.
- `Models`: the `Note` record and `__str__`.
- `Forms`: cleaning a submission.
  - Two stripped, required text fields, `username` at most 100 characters, no NUL character.
  - The `is_public` check box, which never fails.
- `Views`:
  - The `Note` table is a class `NoteStore` holding a `map<Uuid, Note>`.
  - `create_note_view`, `edit_note_view` and `delete_note_view` are its methods.
  - `random_notes_list_view` and `random_note_view` are functions over the map.
  - A view's outcome is a value of the datatype `Outcome`.

The store keeps an invariant (`StoreInvariant`):

- Every row sits under its own id.
- Both of a row's UUIDs are version 4.
- A row's fields are what a valid form produces.
- No two rows share a modification code.

Each writing view preserves this invariant. Each writing view also states its whole new
state: on every failure path the table is unchanged, and a successful edit touches only
`username`, `content` and `is_public` of one note.

Inputs from outside become parameters:

- the random bits of `uuid4`;
- the current time;
- whether the database refuses a write (`saveFails`);
- the order `order_by('?')` returns;
- the index `random.choice` draws.

Behaviour of the code worth knowing, all of it modelled:

- A `page` number below 1 shows the **last** page. `Paginator.page` raises `EmptyPage`
  for it, and the view answers `EmptyPage` with the last page.
- With no public note the listing has **one** empty page. `Paginator.num_pages` is 1 when
  `allow_empty_first_page` holds.
- A note's `id` and `modification_code` are drawn independently, and nothing makes them
  differ from each other. Only their uniqueness across rows is enforced.
- Text values are stripped before the emptiness check, because the model form's `CharField`
  strips by default.

## Model

| member | source | states |
|---|---|---|
| Uuids.Uuid4 | notes/models.py:8 | the generated UUID is version 4 (version digit 4, variant bits 10) and keeps every other random digit |
| Uuids.Uuid4FixesVersion4 | notes/models.py:18 | every version-4 UUID is a possible `uuid4()` result, so the generator can reach every code |
| Uuids.Format | notes/models.py:27 | `str(uuid)` is 36 characters: hyphens at positions 8, 13, 18 and 23, hexadecimal digits elsewhere |
| Uuids.Parse | notes/views.py:109 | `uuid.UUID(s)` succeeds exactly when what is left of `s` after deleting the prefixes, stripping braces and deleting hyphens is 32 hexadecimal digits, and then yields their values; any shorter `s` is refused |
| Uuids.ParseFormat | notes/views.py:108-110 | `uuid.UUID(str(u)) == u`: the code shown at creation parses back to the stored code |
| Uuids.ParseUrn | notes/views.py:161 | the `urn:uuid:` spelling of a code parses to the same code |
| Uuids.FormatInjective | notes/models.py:27 | distinct UUIDs have distinct string forms |
| PyStr.ParseInt | notes/views.py:69-73 | `int(s)` refuses a string without a decimal digit; a plain string of digits gives its decimal value exactly when it has at most 4300 digits |
| PyStr.ParseIntDecimalString | notes/views.py:69-71 | `int(str(n)) == n` for every page number `n` of at most 4300 digits |
| PyStr.StrayCharacterRefused | notes/views.py:70-73 | a character anywhere in the string that is not an ASCII digit, an underscore, a sign or whitespace `int()` skips makes `int()` refuse it, so the listing shows page 1 |
| PyStr.SeparatorRefused | notes/views.py:70-73 | an information separator U+001C to U+001F anywhere in the string makes `int()` refuse it, whether or not the string is ASCII (`?page=\x1c2` shows page 1) |
| PyStr.TooManyDigitsRefused | notes/views.py:70-73 | a decimal string of more than 4300 digits is refused, so the listing shows page 1 |
| PyStr.ZeroPadValue | notes/models.py:27 | a zero-padded `strftime` field has only digits and the value of the number it pads |
| Models.NoteStr | notes/models.py:22-27 | `str(note)` starts with "Public" exactly when the note is public and with "Private" exactly when it is not; the status word is followed by the literal " Note (" and then the note's id in canonical form |
| Models.NoteStrIdentifiesNote | notes/models.py:25-27 | two notes with the same string form have the same visibility and the same id |
| Forms.CleanText | notes/models.py:11-13 | a required stripped text field accepts exactly the non-blank values within the length limit that contain no NUL, yields the stripped value, and reports exactly `Required` for an absent or blank value |
| Forms.Validators | notes/models.py:13 | a stripped, non-empty value is refused exactly when it is over `max_length` or holds NUL, and never with `Required` |
| Forms.CheckboxValue | notes/models.py:20 | `is_public` is false when absent, and true exactly for a non-empty value other than "false" in any letter case |
| Forms.Clean | notes/forms.py:4-11 | the form is valid exactly when both text fields clean; valid data are well-formed, hold the stripped values and the check-box value; an invalid form's errors hold an entry for a text field exactly when that field fails, holding that field's own error list, and never one for `is_public` |
| Forms.ValidDataAccepted | notes/tests.py:65-75 | a well-formed username and content, with any check-box value, is accepted unchanged |
| Forms.BlankFieldRequired | notes/tests.py:77-103 | an absent or blank `username` or `content` makes the form invalid with exactly `Required` on that field |
| Forms.IsPublicOptional | notes/tests.py:105-120 | leaving out `is_public` never changes validity, and a form valid without it gives a private note |
| Forms.OnlyFormFieldsBound | notes/forms.py:11 | only `username`, `content` and `is_public` are read, so a submission cannot set `id`, `created_at` or `modification_code` |
| Forms.CodeNotBound | notes/views.py:125 | the `modification_code` posted with an edit has no bearing on the cleaned form |
| Forms.RenderCleanRoundTrip | notes/views.py:88 | a note's values put into the edit form and submitted unchanged clean back to the same values |
| Views.CheckCode | notes/views.py:101-121 | the code check is missing for an absent or empty value, malformed when `uuid.UUID` refuses it, a mismatch for another UUID, and passes exactly when it parses to the stored code |
| Views.OwnCodeMatches | notes/views.py:108-110 | the code in its canonical form passes the check |
| Views.OtherCodeMismatches | notes/views.py:109-115 | any other UUID in canonical form is a mismatch |
| Views.CodeOpensOneNote | notes/models.py:18 | since codes are unique, a submitted code passes the check for at most one note of the store |
| Views.InsertKeepsInvariant | notes/views.py:27 | inserting a well-formed version-4 note with a fresh id and a fresh code keeps the table invariant |
| Views.ApplyFields | notes/views.py:125-128 | saving the bound form changes `username`, `content` and `is_public` only; `id`, `created_at` and `modification_code` are kept |
| Views.UpdateKeepsInvariant | notes/views.py:125-128 | writing well-formed fields onto a stored note keeps the table invariant |
| Views.NoteStore.constructor | notes/models.py:5 | the table starts empty and satisfies its invariant |
| Views.NoteStore.Create | notes/views.py:22-60 | non-POST shows the form; an invalid form reports its errors; a database error, including an id or code collision, is `SaveFailed`; otherwise exactly one note is added, with the cleaned fields, `created_at = now`, and an id and code not in use before; any failure leaves the table unchanged; the invariant holds |
| Views.NoteStore.Edit | notes/views.py:95-143 | non-POST redirects; an unknown id is `NotFound`; then the three code checks; only then form validation; only then the save; only a successful save changes the table, and only that note's three form fields |
| Views.NoteStore.Delete | notes/views.py:147-177 | non-POST is 405; an unknown id is `NotFound`; the note is removed exactly when the code check passes, and no other note is touched; every other path leaves the table unchanged |
| Views.OrderingEmptyIff | notes/views.py:183-187 | the public enumeration is empty exactly when no note is public |
| Views.NumPages | notes/views.py:67 | the page count is the least number of 10-note pages that holds every public note, and at least 1 |
| Views.PageNumber | notes/views.py:69-75 | the page shown is always in range: page 1 for an absent or non-integer `page`, the requested page when in range, the last page otherwise |
| Views.PageAt | notes/views.py:66-71 | page `k` holds at most 10 notes, all public: the `k`-th run of 10 in the random order, or whatever remains on the last page |
| Views.ListPublic | notes/views.py:63-80 | the listing shows the selected page of the public notes in the given order; every note on it is public and there are at most 10 |
| Views.EveryPublicNoteListed | notes/views.py:66-75 | the `i`-th public note of the order is listed on page `i / 10 + 1` when that page is asked for by its decimal number of at most 4300 digits |
| Views.OnItsPage | notes/views.py:66-71 | the `i`-th public note lies on page `i / 10 + 1`, which exists |
| Views.DecimalPageSelected | notes/views.py:69-71 | a page number in range, written in decimal with at most 4300 digits, selects that page |
| Views.EmptyListingIsOnePage | notes/views.py:66-78 | with no public note the listing is page 1 of 1 with no notes, whatever page is asked for |
| Views.RandomNote | notes/views.py:180-189 | the list page is chosen exactly when no note is public; otherwise the id of a stored public note |
| Views.EveryPublicNotePickable | notes/views.py:183-188 | every public note is picked for some random index |
| Views.OnlyPublicNotePicked | notes/views.py:183-188 | with exactly one public note, every draw picks it |
| Views.CreateThenEdit | notes/tests.py:241-263 | in a store already holding other notes, a note created from valid data can be edited with the code shown at creation; afterwards the table is the old one plus that note, carrying the edited values |
| Views.DeleteTwice | notes/tests.py:349-389 | deleting with another UUID is a mismatch; deleting with the note's code removes exactly that note; deleting it again is `NotFound` |

## Left out

- Templates, HTML, `format_html`, flash messages, HTTP responses and logging. A view's outcome is an `Outcome` value; the message texts are comments on its constructors.
- `landing_page_view` and `note_detail_view` are not part of this model. They only render pages.
- URL routing is not modelled. Ids reach the views already typed as UUIDs, as the `<uuid:...>` converters deliver them.
- Randomness is not modelled. `uuid4` bits, `order_by('?')` and the index `random.choice` draws are parameters. Uniformity is not modelled.
- The model takes a single random order per listing request. The query set is in fact evaluated by separate queries (count, page slice, `exists`), each with its own random order.
- The clock is a parameter `now`. `created_at` is set once, at creation, and no view changes it.
- Concurrency is not modelled, including the race between the code check and the write. The model is sequential.
- The database is a map. Any refusal of a write is the oracle `saveFails`. An id or code collision is refused, as the primary key and `unique=True` demand.
- Views.NoteStore.Delete: no database error is modelled on delete. The source does not catch one, and an uncaught server error is outside the outcomes.
- Uuids.Parse: `int(_, 16)` laxity is not modelled. Python also accepts a sign, a `0x` prefix, underscores, surrounding whitespace and non-ASCII decimal digits, and the model refuses those spellings.
- PyStr.ParseInt: non-ASCII decimal digits, which Python's `int()` accepts, are refused. The digit limit is fixed at the interpreter's default of 4300; `sys.set_int_max_str_digits` is not modelled.
- PyStr.AsciiLower: only ASCII letters are lower-cased. That is enough to compare with "true" and "false".
- Models.NoteStr: does not state the layout after the id. The remainder (" by ", username, " created at ", timestamp) is in the definition, through `Byline` and `FormatMinute`. `FormatMinute` always pads the year to four digits. A platform's `strftime` may print a year below 1000 unpadded; such a year never comes from the clock that sets `created_at`. Time zones are not modelled.
- Only the `Note` fields the views read or write are modelled. Migrations are not.
