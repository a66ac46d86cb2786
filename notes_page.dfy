/**
 * The Notes page of src/pages/Notes/Notes.jsx: a logged-in user's notes, the
 * form that adds one, the confirmations that delete one note or a whole
 * category, and the category tabs. Every change of the list is saved through
 * the notes handlers of the Server module under the current user's email.
 * The page is reachable only under the protected dashboard route, so its
 * handlers run with a logged-in user.
 */
module NotesPage {
  import opened Js
  import opened Entities
  import opened Forms
  import opened Server
  import opened AuthContext

  /** The tab, and the delete-all target, that stands for every category. */
  const All := "ALL"
  const DefaultCategory := "DEFAULT"

  const TitleRequired := "Note title is required"
  const BodyRequired := "Note body is required"
  const CategoryRequired := "Category is required"

  /** The form as first shown and as reset after a note is added. */
  const EmptyForm: Record := map["title" := "", "body" := "", "category" := DefaultCategory]

  /** The test `note => note.category === category`. */
  function InCategory(category: string): Note -> bool {
    (note: Note) => note.category == category
  }

  /** The test `note => note.category !== category`. */
  function OutsideCategory(category: string): Note -> bool {
    (note: Note) => note.category != category
  }

  /** The test `note => note.id !== id`. */
  function NoteHasOtherId(id: int): Note -> bool {
    (note: Note) => note.id != id
  }

  /** getNotesByCategory: the whole list under the ALL tab, otherwise that category's notes in list order. */
  function NotesByCategory(notes: seq<Note>, category: string): (shown: seq<Note>)
    ensures category == All ==> shown == notes
    ensures category != All ==> forall n :: n in shown <==> n in notes && n.category == category
    ensures category != All ==> Picks(shown, notes, KeptPositions(notes, InCategory(category)))
  {
    if category == All then notes
    else
      FilterPicksKept(notes, InCategory(category));
      Filter(notes, InCategory(category))
  }

  /** The list confirmDeleteNote keeps: every note whose id differs, in list order. */
  function WithoutNote(notes: seq<Note>, id: int): (kept: seq<Note>)
    ensures forall n :: n in kept <==> n in notes && n.id != id
    ensures Picks(kept, notes, KeptPositions(notes, NoteHasOtherId(id)))
  {
    FilterPicksKept(notes, NoteHasOtherId(id));
    Filter(notes, NoteHasOtherId(id))
  }

  /** The list confirmDeleteAll keeps: nothing for ALL, otherwise the notes of the other categories. */
  function WithoutCategory(notes: seq<Note>, category: string): (kept: seq<Note>)
    ensures category == All ==> kept == []
    ensures category != All ==> forall n :: n in kept <==> n in notes && n.category != category
    ensures category != All ==> Picks(kept, notes, KeptPositions(notes, OutsideCategory(category)))
  {
    if category == All then []
    else
      FilterPicksKept(notes, OutsideCategory(category));
      Filter(notes, OutsideCategory(category))
  }

  /** After deleting a category, its tab shows nothing (and after deleting ALL, the ALL tab). */
  lemma DeletedCategoryIsEmpty(notes: seq<Note>, category: string)
    ensures NotesByCategory(WithoutCategory(notes, category), category) == []
  {
  }

  /** Deleting one category leaves every other category's tab exactly as it was. */
  lemma DeletingCategoryKeepsOtherTabs(notes: seq<Note>, category: string, tab: string)
    requires category != All && tab != All && tab != category
    ensures NotesByCategory(WithoutCategory(notes, category), tab) == NotesByCategory(notes, tab)
  {
    FilterNarrower(notes, OutsideCategory(category), InCategory(tab));
  }

  /** A note added at the end shows up last under ALL and under its own category's tab. */
  lemma AddedNoteIsListedLast(notes: seq<Note>, note: Note, tab: string)
    requires tab == All || tab == note.category
    ensures NotesByCategory(notes + [note], tab) == NotesByCategory(notes, tab) + [note]
  {
    if tab != All {
      FilterAppend(notes, [note], InCategory(tab));
    }
  }

  /** A note added at the end leaves the tabs of the other categories unchanged. */
  lemma AddedNoteIsHiddenElsewhere(notes: seq<Note>, note: Note, tab: string)
    requires tab != All && tab != note.category
    ensures NotesByCategory(notes + [note], tab) == NotesByCategory(notes, tab)
  {
    FilterAppend(notes, [note], InCategory(tab));
    assert Filter([note], InCategory(tab)) == [];
  }

  /** Deleting an id that no note has keeps the list as it was. */
  lemma DeletingUnknownIdKeepsNotes(notes: seq<Note>, id: int)
    requires forall i | 0 <= i < |notes| :: notes[i].id != id
    ensures WithoutNote(notes, id) == notes
  {
    FilterKeepsAll(notes, NoteHasOtherId(id));
  }

  /** The checks `validate()` runs on `form`, in form order. */
  function Checks(form: Record): seq<Check> {
    [Check("title", RequireText(Field(form, "title"), TitleRequired)),
     Check("body", RequireText(Field(form, "body"), BodyRequired)),
     Check("category", RequireChoice(Field(form, "category"), CategoryRequired))]
  }

  /** What `validate()` returns: a message for a blank title, a blank body and an empty category. */
  function Errors(form: Record): (errors: Record)
    ensures errors.Keys <= {"title", "body", "category"}
    ensures "title" in errors <==> AllSpace(Field(form, "title"))
    ensures "body" in errors <==> AllSpace(Field(form, "body"))
    ensures "category" in errors <==> Field(form, "category") == ""
    ensures "title" in errors ==> errors["title"] == TitleRequired
    ensures "body" in errors ==> errors["body"] == BodyRequired
    ensures "category" in errors ==> errors["category"] == CategoryRequired
    ensures errors == map[] <==>
      !AllSpace(Field(form, "title")) && !AllSpace(Field(form, "body")) && Field(form, "category") != ""
  {
    var checks := Checks(form);
    ErrorMapAt(checks, 0);
    ErrorMapAt(checks, 1);
    ErrorMapAt(checks, 2);
    ErrorMapKeys(checks, {"title", "body", "category"});
    ErrorMapEmpty(checks);
    ErrorMap(checks)
  }

  class Notes {
    /** The `notes` state: the user's list as last loaded or saved. */
    var notes: seq<Note>
    /** The `activeTab` state. */
    var activeTab: string
    /** The `formData` state: `title`, `body` and `category`. */
    var formData: Record
    /** The `errors` state. */
    var errors: Record
    var showDeleteModal: bool
    /** The `categoryToDelete` state: None for `null`. */
    var categoryToDelete: Option<string>
    var showDeleteNoteModal: bool
    /** The `noteToDelete` state: None for `null`. */
    var noteToDelete: Option<int>

    constructor()
      ensures notes == [] && activeTab == All && formData == EmptyForm && errors == map[]
      ensures !showDeleteModal && categoryToDelete.None?
      ensures !showDeleteNoteModal && noteToDelete.None?
    {
      notes := [];
      activeTab := All;
      formData := EmptyForm;
      errors := map[];
      showDeleteModal := false;
      categoryToDelete := None;
      showDeleteNoteModal := false;
      noteToDelete := None;
    }

    /** The loading effect: with a user logged in, the stored list of that user's email. */
    method LoadNotes(auth: AuthProvider, store: DataStore)
      modifies this, store
      ensures store.Current() == old(store.Current())
      ensures unchanged(this`formData, this`errors, this`activeTab)
      ensures unchanged(this`showDeleteModal, this`categoryToDelete, this`showDeleteNoteModal, this`noteToDelete)
      ensures auth.currentUser.None? ==> unchanged(this`notes)
      ensures auth.currentUser.Some? ==>
        var email := AsText(auth.currentUser.value, "email");
        var stored := old(store.Current()).notes;
        notes == if email in stored then stored[email] else []
    {
      if auth.currentUser.Some? {
        notes := store.GetNotes(AsText(auth.currentUser.value, "email"));
      }
    }

    /** handleChange: stores the edited field and empties that field's message, if it had one. */
    method HandleChange(name: string, value: string)
      modifies this
      ensures formData == old(formData)[name := value]
      ensures Field(old(errors), name) != "" ==> errors == old(errors)[name := ""]
      ensures Field(old(errors), name) == "" ==> unchanged(this`errors)
      ensures unchanged(this`notes, this`activeTab)
      ensures unchanged(this`showDeleteModal, this`categoryToDelete, this`showDeleteNoteModal, this`noteToDelete)
    {
      formData := formData[name := value];
      if Field(errors, name) != "" {
        errors := errors[name := ""];
      }
    }

    /** validate: the three checks, each adding its message when it fails. */
    method Validate() returns (newErrors: Record)
      ensures newErrors == Errors(formData)
    {
      newErrors := map[];
      ghost var checks: seq<Check> := [];
      var titleError := RequireText(Field(formData, "title"), TitleRequired);
      RunCheck(checks, Check("title", titleError));
      checks := checks + [Check("title", titleError)];
      newErrors := AddError(newErrors, "title", titleError);
      var bodyError := RequireText(Field(formData, "body"), BodyRequired);
      RunCheck(checks, Check("body", bodyError));
      checks := checks + [Check("body", bodyError)];
      newErrors := AddError(newErrors, "body", bodyError);
      var categoryError := RequireChoice(Field(formData, "category"), CategoryRequired);
      RunCheck(checks, Check("category", categoryError));
      checks := checks + [Check("category", categoryError)];
      newErrors := AddError(newErrors, "category", categoryError);
      assert checks == Checks(formData);
    }

    /**
     * handleSubmit, with `now` for `Date.now()` and `nowText` for
     * `new Date().toISOString()`: with any error only the errors change;
     * otherwise the new note is appended, the list is saved under the user's
     * email, and the form and its errors are reset.
     */
    method HandleSubmit(auth: AuthProvider, store: DataStore, now: int, nowText: string)
      requires auth.currentUser.Some?
      modifies this, store
      ensures unchanged(this`activeTab)
      ensures unchanged(this`showDeleteModal, this`categoryToDelete, this`showDeleteNoteModal, this`noteToDelete)
      ensures Errors(old(formData)) != map[] ==>
        errors == Errors(old(formData)) && unchanged(this`notes, this`formData) && unchanged(store)
      ensures Errors(old(formData)) == map[] ==>
        var form := old(formData);
        var email := AsText(auth.currentUser.value, "email");
        var d := old(store.Current());
        && notes == old(notes) + [Note(now, Field(form, "title"), Field(form, "body"), Field(form, "category"), nowText)]
        && store.Current() == d.(notes := d.notes[email := notes])
        && formData == EmptyForm && errors == map[]
    {
      var validationErrors := Validate();
      if validationErrors != map[] {
        errors := validationErrors;
        return;
      }
      var newNote := Note(now, Field(formData, "title"), Field(formData, "body"), Field(formData, "category"), nowText);
      var updatedNotes := notes + [newNote];
      notes := updatedNotes;
      var _ := store.SaveNotes(AsText(auth.currentUser.value, "email"), updatedNotes);
      formData := EmptyForm;
      errors := map[];
    }

    /** The tab buttons' `setActiveTab(tab)`: shows another tab and changes nothing else. */
    method SelectTab(tab: string)
      modifies this
      ensures activeTab == tab
      ensures unchanged(this`notes, this`formData, this`errors)
      ensures unchanged(this`showDeleteModal, this`categoryToDelete, this`showDeleteNoteModal, this`noteToDelete)
    {
      activeTab := tab;
    }

    /** deleteNote: remembers the id and opens the confirmation. */
    method DeleteNote(id: int)
      modifies this
      ensures noteToDelete == Some(id) && showDeleteNoteModal
      ensures unchanged(this`notes, this`activeTab, this`formData, this`errors)
      ensures unchanged(this`showDeleteModal, this`categoryToDelete)
    {
      noteToDelete := Some(id);
      showDeleteNoteModal := true;
    }

    /**
     * confirmDeleteNote: a pending id that is truthy (present and not 0) removes
     * every note with that id and saves the list; the confirmation closes and
     * the pending id is cleared in every case.
     */
    method ConfirmDeleteNote(auth: AuthProvider, store: DataStore)
      requires auth.currentUser.Some?
      modifies this, store
      ensures !showDeleteNoteModal && noteToDelete.None?
      ensures unchanged(this`formData, this`errors, this`activeTab)
      ensures unchanged(this`showDeleteModal, this`categoryToDelete)
      ensures old(noteToDelete).Some? && old(noteToDelete).value != 0 ==>
        var email := AsText(auth.currentUser.value, "email");
        var d := old(store.Current());
        && notes == WithoutNote(old(notes), old(noteToDelete).value)
        && store.Current() == d.(notes := d.notes[email := notes])
      ensures !(old(noteToDelete).Some? && old(noteToDelete).value != 0) ==>
        unchanged(this`notes) && unchanged(store)
    {
      if noteToDelete.Some? && noteToDelete.value != 0 {
        var updatedNotes := WithoutNote(notes, noteToDelete.value);
        notes := updatedNotes;
        var _ := store.SaveNotes(AsText(auth.currentUser.value, "email"), updatedNotes);
      }
      showDeleteNoteModal := false;
      noteToDelete := None;
    }

    /** cancelDeleteNote: closes the confirmation and forgets the id. */
    method CancelDeleteNote()
      modifies this
      ensures !showDeleteNoteModal && noteToDelete.None?
      ensures unchanged(this`notes, this`activeTab, this`formData, this`errors)
      ensures unchanged(this`showDeleteModal, this`categoryToDelete)
    {
      showDeleteNoteModal := false;
      noteToDelete := None;
    }

    /** deleteAllInCategory: remembers the category and opens the confirmation. */
    method DeleteAllInCategory(category: string)
      modifies this
      ensures categoryToDelete == Some(category) && showDeleteModal
      ensures unchanged(this`notes, this`activeTab, this`formData, this`errors)
      ensures unchanged(this`showDeleteNoteModal, this`noteToDelete)
    {
      categoryToDelete := Some(category);
      showDeleteModal := true;
    }

    /**
     * confirmDeleteAll: a pending category that is truthy (not "") empties the list
     * for ALL, or removes that category's notes, and saves the list; the
     * confirmation closes and the pending category is cleared in every case.
     */
    method ConfirmDeleteAll(auth: AuthProvider, store: DataStore)
      requires auth.currentUser.Some?
      modifies this, store
      ensures !showDeleteModal && categoryToDelete.None?
      ensures unchanged(this`formData, this`errors, this`activeTab)
      ensures unchanged(this`showDeleteNoteModal, this`noteToDelete)
      ensures old(categoryToDelete).Some? && old(categoryToDelete).value != "" ==>
        var email := AsText(auth.currentUser.value, "email");
        var d := old(store.Current());
        && notes == WithoutCategory(old(notes), old(categoryToDelete).value)
        && NotesByCategory(notes, old(categoryToDelete).value) == []
        && store.Current() == d.(notes := d.notes[email := notes])
      ensures !(old(categoryToDelete).Some? && old(categoryToDelete).value != "") ==>
        unchanged(this`notes) && unchanged(store)
    {
      if categoryToDelete.Some? && categoryToDelete.value != "" {
        var updatedNotes;
        if categoryToDelete.value == All {
          updatedNotes := [];
        } else {
          updatedNotes := Filter(notes, OutsideCategory(categoryToDelete.value));
        }
        notes := updatedNotes;
        DeletedCategoryIsEmpty(old(notes), categoryToDelete.value);
        var _ := store.SaveNotes(AsText(auth.currentUser.value, "email"), updatedNotes);
      }
      showDeleteModal := false;
      categoryToDelete := None;
    }

    /** cancelDeleteAll: closes the confirmation and forgets the category. */
    method CancelDeleteAll()
      modifies this
      ensures !showDeleteModal && categoryToDelete.None?
      ensures unchanged(this`notes, this`activeTab, this`formData, this`errors)
      ensures unchanged(this`showDeleteNoteModal, this`noteToDelete)
    {
      showDeleteModal := false;
      categoryToDelete := None;
    }
  }
}
