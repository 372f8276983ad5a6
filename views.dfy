/** The note capability manager: the five views that create, edit, delete, list and pick
    notes. The store is the `Note` table, a map from id to record; whoever presents a
    note's modification code may edit or delete it. Each view's outcome is a value: which
    page the client is sent to, or which error message it is shown. */
module Views {
  import opened Wrappers
  import PyStr
  import opened Uuids
  import opened Models
  import opened Forms

  /** An HTTP request as the views read it: its method and its submitted form data. */
  datatype Request = Request(httpMethod: string, data: FormData)

  /** What a view does with a request. */
  datatype Outcome =
    | ShowCreateForm          // the empty creation form (any method but POST)
    | Created(id: Uuid, code: Uuid)  // saved; the detail page shows the code this once
    | RedirectToDetail        // the edit view asked with a method other than POST
    | Updated(id: Uuid)
    | Deleted
    | NotFound                // 404: no note has this id
    | MethodNotAllowed        // 405: the delete view asked with a method other than POST
    | CodeMissing             // "Modification code is required."
    | CodeMalformed           // "Invalid modification code format."
    | CodeMismatch            // "Invalid modification code."
    | Invalid(errors: map<Field, seq<FieldError>>)  // "Please correct the errors below."
    | SaveFailed              // the database refused the write

  /** The verdict on a submitted modification code. */
  datatype CodeCheck = Missing | Malformed | Mismatch | Matches

  /** The modification-code check shared by the edit and delete views: no value or an empty
      one is missing; a value `uuid.UUID` refuses is malformed; a UUID other than the stored
      one is a mismatch. */
  function CheckCode(stored: Uuid, submitted: Option<string>): (c: CodeCheck)
    ensures c == Missing <==> submitted == None || submitted == Some("")
    ensures c == Malformed <==> submitted.Some? && submitted.value != "" && Parse(submitted.value).None?
    ensures c == Mismatch <==> submitted.Some? && submitted.value != "" && Parse(submitted.value).Some?
                               && Parse(submitted.value).value != stored
    ensures c == Matches <==> submitted.Some? && Parse(submitted.value) == Some(stored)
  {
    match submitted
    case None => Missing
    case Some(s) =>
      if s == "" then Missing
      else match Parse(s)
        case None => Malformed
        case Some(u) => if u == stored then Matches else Mismatch
  }

  /** The code shown at creation time opens its note. */
  lemma OwnCodeMatches(code: Uuid)
    ensures CheckCode(code, Some(Format(code))) == Matches
  {
    ParseFormat(code);
  }

  /** The code of another note, or any other UUID in its string form, is a mismatch. */
  lemma OtherCodeMismatches(stored: Uuid, other: Uuid)
    requires other != stored
    ensures CheckCode(stored, Some(Format(other))) == Mismatch
  {
    ParseFormat(other);
  }

  /** The outcome of a failed code check. */
  function CodeRejection(c: CodeCheck): Outcome
    requires c != Matches
  {
    match c
    case Missing => CodeMissing
    case Malformed => CodeMalformed
    case Mismatch => CodeMismatch
  }

  /** The set of all modification codes in use. */
  function Codes(notes: map<Uuid, Note>): set<Uuid> {
    set id | id in notes :: notes[id].modificationCode
  }

  /** What the table guarantees of its rows: each is stored under its own primary key, both
      of its UUIDs are version 4, its fields are what a valid form yields, and no two rows
      share a modification code (`unique=True`). */
  predicate StoreInvariant(notes: map<Uuid, Note>) {
    && (forall id :: id in notes ==> RowInvariant(id, notes[id]))
    && (forall a, b :: a in notes && b in notes && a != b ==>
          notes[a].modificationCode != notes[b].modificationCode)
  }

  /** What the table guarantees of one row stored under `id`. */
  predicate RowInvariant(id: Uuid, n: Note) {
    && n.id == id
    && IsVersion4(id) && IsVersion4(n.modificationCode)
    && WellFormed(NoteFields(n.username, n.content, n.isPublic))
  }

  /** A code opens at most one note of the store. */
  lemma CodeOpensOneNote(notes: map<Uuid, Note>, submitted: string, a: Uuid, b: Uuid)
    requires StoreInvariant(notes)
    requires a in notes && b in notes
    requires CheckCode(notes[a].modificationCode, Some(submitted)) == Matches
    requires CheckCode(notes[b].modificationCode, Some(submitted)) == Matches
    ensures a == b
  {
    assert notes[a].modificationCode == notes[b].modificationCode;
  }

  /** Adding a well-formed note under a fresh id, with a fresh code, keeps the invariant. */
  lemma InsertKeepsInvariant(notes: map<Uuid, Note>, n: Note)
    requires StoreInvariant(notes)
    requires IsVersion4(n.id) && IsVersion4(n.modificationCode)
    requires WellFormed(NoteFields(n.username, n.content, n.isPublic))
    requires n.id !in notes && n.modificationCode !in Codes(notes)
    ensures StoreInvariant(notes[n.id := n])
  {
    forall id | id in notes
      ensures notes[id].modificationCode != n.modificationCode
    {
      assert notes[id].modificationCode in Codes(notes);
    }
  }

  /** A note the form's cleaned values have been written onto (`construct_instance` followed
      by `save()`): only `username`, `content` and `is_public` change. */
  function ApplyFields(n: Note, f: NoteFields): (m: Note)
    ensures m.id == n.id && m.createdAt == n.createdAt && m.modificationCode == n.modificationCode
    ensures m.username == f.username && m.content == f.content && m.isPublic == f.isPublic
  {
    n.(username := f.username, content := f.content, isPublic := f.isPublic)
  }

  /** Writing well-formed fields onto a stored note keeps the invariant. */
  lemma UpdateKeepsInvariant(notes: map<Uuid, Note>, id: Uuid, f: NoteFields)
    requires StoreInvariant(notes) && id in notes && WellFormed(f)
    ensures StoreInvariant(notes[id := ApplyFields(notes[id], f)])
  {
    var m := ApplyFields(notes[id], f);
    var updated := notes[id := m];
    assert NoteFields(m.username, m.content, m.isPublic) == f;
    assert RowInvariant(id, m);
    forall k | k in updated
      ensures RowInvariant(k, updated[k])
      ensures updated[k].modificationCode == notes[k].modificationCode
    {
    }
  }

  /** The `Note` table, and the three views that write to it. */
  class NoteStore {
    var notes: map<Uuid, Note>

    ghost predicate Valid()
      reads this
    {
      StoreInvariant(notes)
    }

    constructor ()
      ensures Valid() && notes == map[]
    {
      notes := map[];
    }

    /** `create_note_view`. A POST with a valid form inserts one note whose `id` and
        `modification_code` come from `uuid4` (their random bits are the parameters),
        `created_at` is `now` and the rest the cleaned form. The insert fails, leaving the
        table as it was, when the database reports an error (`saveFails`); it does so
        in particular when either UUID is already taken, the primary key or the unique
        modification code being violated. */
    method Create(req: Request, idBits: Uuid, codeBits: Uuid, now: DateTime, saveFails: bool) returns (r: Outcome)
      requires Valid()
      modifies this
      ensures Valid()
      ensures var form := Clean(req.data);
        r == (if req.httpMethod != "POST" then ShowCreateForm
              else if form.Rejected? then Invalid(form.errors)
              else if saveFails || Uuid4(idBits) in old(notes) || Uuid4(codeBits) in Codes(old(notes)) then SaveFailed
              else Created(Uuid4(idBits), Uuid4(codeBits)))
      ensures r.Created? ==>
        && r.id !in old(notes) && r.code !in Codes(old(notes))
        && |notes| == |old(notes)| + 1
        && var f := Clean(req.data).fields;
           notes == old(notes)[r.id := Note(r.id, f.content, f.username, now, r.code, f.isPublic)]
      ensures !r.Created? ==> notes == old(notes)
    {
      if req.httpMethod != "POST" {
        return ShowCreateForm;
      }
      var form := Clean(req.data);
      if form.Rejected? {
        return Invalid(form.errors);
      }
      var id, code := Uuid4(idBits), Uuid4(codeBits);
      if saveFails || id in notes || code in Codes(notes) {
        return SaveFailed;
      }
      var f := form.fields;
      var n := Note(id, f.content, f.username, now, code, f.isPublic);
      InsertKeepsInvariant(notes, n);
      notes := notes[id := n];
      r := Created(id, code);
    }

    /** `edit_note_view`. In this order: a method other than POST is sent back to the detail
        page; an unknown id is a 404; the modification code is checked; only then is the form
        validated; only then is the note saved. Any failure leaves the table as it was, and a
        successful save changes `username`, `content` and `is_public` of that one note. */
    method Edit(noteId: Uuid, req: Request, saveFails: bool) returns (r: Outcome)
      requires Valid()
      modifies this
      ensures Valid()
      ensures req.httpMethod != "POST" ==> r == RedirectToDetail
      ensures req.httpMethod == "POST" && noteId !in old(notes) ==> r == NotFound
      ensures req.httpMethod == "POST" && noteId in old(notes) ==>
        var check := CheckCode(old(notes)[noteId].modificationCode, Get(req.data, "modification_code"));
        var form := Clean(req.data);
        r == (if check != Matches then CodeRejection(check)
              else if form.Rejected? then Invalid(form.errors)
              else if saveFails then SaveFailed
              else Updated(noteId))
      ensures r.Updated? ==> && noteId in old(notes)
                             && notes == old(notes)[noteId := ApplyFields(old(notes)[noteId], Clean(req.data).fields)]
      ensures !r.Updated? ==> notes == old(notes)
    {
      if req.httpMethod != "POST" {
        return RedirectToDetail;
      }
      if noteId !in notes {
        return NotFound;
      }
      var note := notes[noteId];
      var check := CheckCode(note.modificationCode, Get(req.data, "modification_code"));
      if check != Matches {
        return CodeRejection(check);
      }
      var form := Clean(req.data);
      if form.Rejected? {
        return Invalid(form.errors);
      }
      if saveFails {
        return SaveFailed;
      }
      UpdateKeepsInvariant(notes, noteId, form.fields);
      notes := notes[noteId := ApplyFields(note, form.fields)];
      r := Updated(noteId);
    }

    /** `delete_note_view`. A method other than POST is refused with 405; an unknown id is a
        404; the note is removed exactly when the submitted code parses to its stored code,
        and no other note is touched. */
    method Delete(noteId: Uuid, req: Request) returns (r: Outcome)
      requires Valid()
      modifies this
      ensures Valid()
      ensures req.httpMethod != "POST" ==> r == MethodNotAllowed
      ensures req.httpMethod == "POST" && noteId !in old(notes) ==> r == NotFound
      ensures req.httpMethod == "POST" && noteId in old(notes) ==>
        var check := CheckCode(old(notes)[noteId].modificationCode, Get(req.data, "modification_code"));
        r == (if check == Matches then Deleted else CodeRejection(check))
      ensures r == Deleted ==> notes == old(notes) - {noteId}
      ensures r != Deleted ==> notes == old(notes)
    {
      if req.httpMethod != "POST" {
        return MethodNotAllowed;
      }
      if noteId !in notes {
        return NotFound;
      }
      var check := CheckCode(notes[noteId].modificationCode, Get(req.data, "modification_code"));
      if check != Matches {
        return CodeRejection(check);
      }
      notes := notes - {noteId};
      r := Deleted;
    }
  }

  // ----- The read side: the public listing and the random pick -----

  /** The ids of the notes the public queries see (`filter(is_public=True)`). */
  function PublicIds(notes: map<Uuid, Note>): set<Uuid> {
    set id | id in notes && notes[id].isPublic
  }

  /** `order` enumerates the public notes, each once, in some order: what `order_by('?')`
      and `values_list('id')` return. Which order is left open. */
  predicate IsPublicOrdering(order: seq<Uuid>, notes: map<Uuid, Note>) {
    && (forall i, j :: 0 <= i < j < |order| ==> order[i] != order[j])
    && (forall i :: 0 <= i < |order| ==> order[i] in notes && notes[order[i]].isPublic)
    && (forall id :: id in notes && notes[id].isPublic ==> id in order)
  }

  /** An ordering is empty exactly when there is no public note. */
  lemma OrderingEmptyIff(order: seq<Uuid>, notes: map<Uuid, Note>)
    requires IsPublicOrdering(order, notes)
    ensures order == [] <==> PublicIds(notes) == {}
  {
    if order != [] {
      assert order[0] in PublicIds(notes);
    }
    forall id | id in PublicIds(notes)
      ensures id in order
    {
    }
  }

  /** Notes per page of the public listing. */
  const PerPage: nat := 10

  /** `Paginator.num_pages` with `allow_empty_first_page` and no orphans: enough pages of
      `PerPage` for `count` items, and never fewer than one. */
  function NumPages(count: nat): (n: nat)
    ensures n >= 1
    ensures count <= n * PerPage
    ensures n == 1 || (n - 1) * PerPage < count
  {
    if count == 0 then 1 else (count + PerPage - 1) / PerPage
  }

  /** The page number the listing shows for the `page` query parameter: a value `int()`
      refuses (or none at all) is `PageNotAnInteger` and gives page 1; an integer outside
      `1..numPages` is `EmptyPage` and gives the last page. */
  function PageNumber(param: Option<string>, numPages: nat): (k: nat)
    requires numPages >= 1
    ensures 1 <= k <= numPages
    ensures (param.None? || PyStr.ParseInt(param.value).None?) ==> k == 1
    ensures param.Some? && PyStr.ParseInt(param.value).Some? ==>
              var n := PyStr.ParseInt(param.value).value;
              k == (if 1 <= n <= numPages then n else numPages)
  {
    if param.None? then 1
    else match PyStr.ParseInt(param.value)
      case None => 1
      case Some(n) => if 1 <= n <= numPages then n else numPages
  }

  /** Every page `NumPages` counts begins within the items. */
  lemma PageStartInRange(count: nat, k: nat)
    requires 1 <= k <= NumPages(count)
    ensures PageStart(k) <= count
  {
    var n := NumPages(count);
    assert (k - 1) * PerPage <= (n - 1) * PerPage;
  }

  /** How many items come before page `k`. */
  function PageStart(k: nat): nat
    requires k >= 1
  {
    (k - 1) * PerPage
  }

  /** One page of the listing: its notes, its number and the page count. */
  datatype Page = Page(items: seq<Note>, number: nat, numPages: nat)

  /** Page `k` of the public notes in the order `order`, `PerPage` to a page (`Paginator.page`
      once the number is valid). */
  function PageAt(notes: map<Uuid, Note>, order: seq<Uuid>, k: nat): (p: Page)
    requires IsPublicOrdering(order, notes)
    requires 1 <= k <= NumPages(|order|)
    ensures p.number == k && p.numPages == NumPages(|order|)
    ensures |p.items| <= PerPage
    ensures forall i :: 0 <= i < |p.items| ==> p.items[i].isPublic
    ensures var start := PageStart(k);
            && start <= |order|
            && |p.items| == (if |order| - start < PerPage then |order| - start else PerPage)
            && forall i :: 0 <= i < |p.items| ==> p.items[i] == notes[order[start + i]]
  {
    var start := PageStart(k);
    PageStartInRange(|order|, k);
    var len := if |order| - start < PerPage then |order| - start else PerPage;
    Page(seq(len, i requires 0 <= i < len => notes[order[start + i]]), k, NumPages(|order|))
  }

  /** `random_notes_list_view`: the page the `page` parameter selects of the public notes in
      the order `order`. */
  function ListPublic(notes: map<Uuid, Note>, order: seq<Uuid>, pageParam: Option<string>): (p: Page)
    requires IsPublicOrdering(order, notes)
    ensures p.numPages == NumPages(|order|) && 1 <= p.number <= p.numPages
    ensures p.number == PageNumber(pageParam, p.numPages)
    ensures |p.items| <= PerPage
    ensures forall i :: 0 <= i < |p.items| ==> p.items[i].isPublic
    ensures p == PageAt(notes, order, p.number)
  {
    PageAt(notes, order, PageNumber(pageParam, NumPages(|order|)))
  }

  /** On page `i / PerPage + 1`, asked for by its decimal number, the listing shows the
      `i`-th public note of the order (for any page number `int()` accepts). */
  lemma EveryPublicNoteListed(notes: map<Uuid, Note>, order: seq<Uuid>, i: nat)
    requires IsPublicOrdering(order, notes)
    requires i < |order|
    requires |PyStr.DecimalString(i / PerPage + 1)| <= PyStr.IntMaxStrDigits
    ensures var k := i / PerPage + 1;
            notes[order[i]] in ListPublic(notes, order, Some(PyStr.DecimalString(k))).items
  {
    OnItsPage(notes, order, i);
    DecimalPageSelected(i / PerPage + 1, NumPages(|order|));
  }

  /** Asking for page `k` by its decimal number selects page `k`, as long as `int()` accepts
      that many digits. */
  lemma DecimalPageSelected(k: nat, numPages: nat)
    requires 1 <= k <= numPages
    requires |PyStr.DecimalString(k)| <= PyStr.IntMaxStrDigits
    ensures PageNumber(Some(PyStr.DecimalString(k)), numPages) == k
  {
    PyStr.ParseIntDecimalString(k);
  }

  /** The `i`-th public note is on page `i / PerPage + 1`. */
  lemma OnItsPage(notes: map<Uuid, Note>, order: seq<Uuid>, i: nat)
    requires IsPublicOrdering(order, notes)
    requires i < |order|
    ensures i / PerPage + 1 <= NumPages(|order|)
    ensures notes[order[i]] in PageAt(notes, order, i / PerPage + 1).items
  {
    var k := i / PerPage + 1;
    PageOfIndex(i, |order|);
    var p := PageAt(notes, order, k);
    var j := i - PageStart(k);
    assert p.items[j] == notes[order[i]];
  }

  /** The `i`-th item is on page `i / PerPage + 1`, which exists. */
  lemma PageOfIndex(i: nat, count: nat)
    requires i < count
    ensures var k := i / PerPage + 1;
            && k <= NumPages(count)
            && PageStart(k) <= i < PageStart(k) + PerPage
  {
  }

  /** With no public note there is one page, page 1, and it is empty, whatever is asked for. */
  lemma EmptyListingIsOnePage(notes: map<Uuid, Note>, order: seq<Uuid>, pageParam: Option<string>)
    requires IsPublicOrdering(order, notes)
    requires PublicIds(notes) == {}
    ensures ListPublic(notes, order, pageParam) == Page([], 1, 1)
  {
    OrderingEmptyIff(order, notes);
    var p := ListPublic(notes, order, pageParam);
    assert p.number == 1 && p.numPages == 1;
    assert p.items == [];
  }

  /** The outcome of `random_note_view`. */
  datatype RandomPick = ShowNote(id: Uuid) | ShowList

  /** `random_note_view`: `random.choice` over the public ids, its random index being
      `choice`; the list page when there is no public note. */
  function RandomNote(notes: map<Uuid, Note>, ids: seq<Uuid>, choice: nat): (r: RandomPick)
    requires IsPublicOrdering(ids, notes)
    requires ids != [] ==> choice < |ids|
    ensures r.ShowList? <==> PublicIds(notes) == {}
    ensures r.ShowNote? ==> r.id in notes && notes[r.id].isPublic
  {
    OrderingEmptyIff(ids, notes);
    if ids == [] then ShowList else ShowNote(ids[choice])
  }

  /** Every public note can be the one `random_note_view` picks. */
  lemma EveryPublicNotePickable(notes: map<Uuid, Note>, ids: seq<Uuid>, id: Uuid)
    requires IsPublicOrdering(ids, notes)
    requires id in PublicIds(notes)
    ensures exists choice: nat :: choice < |ids| && RandomNote(notes, ids, choice) == ShowNote(id)
  {
    assert id in ids;
    var choice :| 0 <= choice < |ids| && ids[choice] == id;
    assert RandomNote(notes, ids, choice) == ShowNote(id);
  }

  /** With exactly one public note, `random_note_view` always picks it. */
  lemma OnlyPublicNotePicked(notes: map<Uuid, Note>, ids: seq<Uuid>, choice: nat, id: Uuid)
    requires IsPublicOrdering(ids, notes)
    requires ids != [] ==> choice < |ids|
    requires PublicIds(notes) == {id}
    ensures RandomNote(notes, ids, choice) == ShowNote(id)
  {
    OrderingEmptyIff(ids, notes);
    assert ids[choice] in PublicIds(notes);
  }

  // ----- A client of the store -----

  /** A note created by a valid POST into a store already holding other notes can be edited
      with the code shown at creation; the note then carries the edited values, and only
      that note was added. */
  method CreateThenEdit(store: NoteStore, data: FormData, edits: FormData, idBits: Uuid, codeBits: Uuid,
                        now: DateTime)
    returns (created: Outcome, edited: Outcome)
    requires store.Valid()
    requires Uuid4(idBits) !in store.notes && Uuid4(codeBits) !in Codes(store.notes)
    requires Clean(data).Cleaned? && Clean(edits).Cleaned?
    modifies store
    ensures created == Created(Uuid4(idBits), Uuid4(codeBits))
    ensures edited == Updated(Uuid4(idBits))
    ensures var e := Clean(edits).fields;
      store.notes == old(store.notes)[Uuid4(idBits) :=
        Note(Uuid4(idBits), e.content, e.username, now, Uuid4(codeBits), e.isPublic)]
  {
    ghost var before := store.notes;
    var id, code := Uuid4(idBits), Uuid4(codeBits);
    created := store.Create(Request("POST", data), idBits, codeBits, now, false);
    var f := Clean(data).fields;
    var n0 := Note(id, f.content, f.username, now, code, f.isPublic);
    ghost var mid := store.notes;
    assert mid == before[id := n0];
    var submitted := edits["modification_code" := Format(code)];
    OwnCodeMatches(code);
    CodeNotBound(edits, Format(code));
    assert Get(submitted, "modification_code") == Some(Format(code));
    edited := store.Edit(id, Request("POST", submitted), false);
    var e := Clean(edits).fields;
    var n := Note(id, e.content, e.username, now, code, e.isPublic);
    assert store.notes == mid[id := ApplyFields(n0, e)];
    assert ApplyFields(n0, e) == n;
    Overwrite(before, id, n0, n);
  }

  /** Writing a key twice leaves only the second value. */
  lemma Overwrite(m: map<Uuid, Note>, k: Uuid, a: Note, b: Note)
    ensures m[k := a][k := b] == m[k := b]
  {
  }

  /** Deleting a note with any other UUID is refused; deleting it with its own code removes
      it and nothing else; deleting it again finds nothing. */
  method DeleteTwice(store: NoteStore, id: Uuid, otherCode: Uuid) returns (refused: Outcome, deleted: Outcome, again: Outcome)
    requires store.Valid() && id in store.notes
    requires otherCode != store.notes[id].modificationCode
    modifies store
    ensures refused == CodeMismatch && deleted == Deleted && again == NotFound
    ensures store.notes == old(store.notes) - {id}
  {
    var code := store.notes[id].modificationCode;
    OtherCodeMismatches(code, otherCode);
    var other := Request("POST", map["modification_code" := Format(otherCode)]);
    assert Get(other.data, "modification_code") == Some(Format(otherCode));
    refused := store.Delete(id, other);
    OwnCodeMatches(code);
    var own := Request("POST", map["modification_code" := Format(code)]);
    assert Get(own.data, "modification_code") == Some(Format(code));
    deleted := store.Delete(id, own);
    again := store.Delete(id, own);
  }
}
