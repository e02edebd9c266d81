/** The director's form catalogue: create, edit, update and delete forms through one
    dialog whose Save button is enabled only for a complete draft, and the searchable
    list of forms, newest first. */
module FormsManagement {
  import opened MockData
  import opened Text
  import opened Collections

  /** The dialog's edit buffer `newForm`. */
  datatype FormDraft = FormDraft(title: string, description: string, documentUrl: string)

  const EmptyDraft: FormDraft := FormDraft("", "", "")

  /** The Save button's `disabled={!newForm.title || !newForm.description}`, negated. */
  predicate CanSave(draft: FormDraft) {
    draft.title != "" && draft.description != ""
  }

  /** `form${forms.length + 1}`. */
  function NextFormId(forms: seq<Form>): (r: string)
    ensures |r| > 4 && r[..4] == "form" && r[4] != '0'
    ensures forall i :: 4 <= i < |r| ==> IsDigit(r[i])
    ensures DecimalValue(r[4..]) == |forms| + 1
  {
    var digits := Decimal(|forms| + 1);
    DecimalRoundTrip(|forms| + 1);
    assert ("form" + digits)[4..] == digits;
    "form" + digits
  }

  /** `newForm.documentUrl || undefined`: an empty link is no link. */
  function OptionalUrl(url: string): (r: Option<string>)
    ensures r.None? <==> url == ""
    ensures r.Some? ==> r.value == url
  {
    if url == "" then None else Some(url)
  }

  /** The form `handleCreateForm` appends. */
  function CreatedForm(forms: seq<Form>, draft: FormDraft, now: int): (r: Form)
    ensures r.id == NextFormId(forms) && r.createdAt == now
    ensures r.documentUrl == OptionalUrl(draft.documentUrl)
    ensures DraftOf(r) == draft
  {
    Form(NextFormId(forms), draft.title, draft.description, now, OptionalUrl(draft.documentUrl))
  }

  /** The buffer `handleEditForm` loads: `form.documentUrl || ""`. */
  function DraftOf(f: Form): (r: FormDraft)
    ensures r.title == f.title && r.description == f.description
    ensures OptionalUrl(r.documentUrl) == if f.documentUrl == Some("") then None else f.documentUrl
  {
    FormDraft(f.title, f.description, match f.documentUrl case None => "" case Some(u) => u)
  }

  /** `forms.find(f => f.id === id)`. */
  function FindForm(forms: seq<Form>, id: string): (r: Option<Form>)
    ensures r.None? <==> forall i :: 0 <= i < |forms| ==> forms[i].id != id
    ensures r.Some? ==> r.value in forms && r.value.id == id
    ensures forall i :: 0 <= i < |forms| && forms[i].id == id && (forall j :: 0 <= j < i ==> forms[j].id != id) ==>
      r == Some(forms[i])
  {
    if |forms| == 0 then None
    else if forms[0].id == id then Some(forms[0])
    else
      var rest := forms[1..];
      assert forall i :: 1 <= i < |forms| ==> forms[i] == rest[i - 1];
      FindForm(rest, id)
  }

  /** The update applied to one form when it is the one being edited. */
  function Overwrite(f: Form, draft: FormDraft): (r: Form)
    ensures r.id == f.id && r.createdAt == f.createdAt
    ensures r.documentUrl == OptionalUrl(draft.documentUrl)
    ensures DraftOf(r) == draft
  {
    f.(title := draft.title, description := draft.description, documentUrl := OptionalUrl(draft.documentUrl))
  }

  /** `forms.map(form => form.id === editingForm ? overwritten : form)`. */
  function UpdateMatching(forms: seq<Form>, editingForm: Option<string>, draft: FormDraft): (r: seq<Form>)
    ensures |r| == |forms|
    ensures forall i :: 0 <= i < |forms| && Some(forms[i].id) == editingForm ==>
      && r[i].id == forms[i].id
      && r[i].createdAt == forms[i].createdAt
      && r[i].title == draft.title
      && r[i].description == draft.description
      && r[i].documentUrl == OptionalUrl(draft.documentUrl)
    ensures forall i :: 0 <= i < |forms| && Some(forms[i].id) != editingForm ==> r[i] == forms[i]
  {
    seq(|forms|, i requires 0 <= i < |forms| =>
      if Some(forms[i].id) == editingForm then Overwrite(forms[i], draft) else forms[i])
  }

  /** Form ids are pairwise distinct. */
  predicate UniqueIds(forms: seq<Form>) {
    forall i, j :: 0 <= i < j < |forms| ==> forms[i].id != forms[j].id
  }

  /** Opening a form for editing and saving the buffer unchanged gives the forms back,
      as long as ids are unique and the form does not store an empty link (which the
      buffer cannot tell apart from no link). */
  lemma EditThenUpdateRestores(forms: seq<Form>, id: string)
    requires UniqueIds(forms)
    requires FindForm(forms, id).Some?
    requires FindForm(forms, id).value.documentUrl != Some("")
    ensures UpdateMatching(forms, Some(id), DraftOf(FindForm(forms, id).value)) == forms
  {
    var f := FindForm(forms, id).value;
    var r := UpdateMatching(forms, Some(id), DraftOf(f));
    forall i | 0 <= i < |forms|
      ensures r[i] == forms[i]
    {
      if forms[i].id == id {
        assert forms[i] == f;
      }
    }
  }

  function IdIsNot(id: string): Form -> bool {
    (f: Form) => f.id != id
  }

  /** `forms.filter(form => form.id !== deleteFormId)`. */
  function WithoutForm(forms: seq<Form>, id: string): (r: seq<Form>)
    ensures forall f :: f in r <==> f in forms && f.id != id
    ensures id !in FormIds(r)
    ensures forall f :: multiset(r)[f] == if f.id != id then multiset(forms)[f] else 0
  {
    FilterMember(forms, IdIsNot(id));
    FilterCount(forms, IdIsNot(id));
    var r := Filter(forms, IdIsNot(id));
    assert forall i :: 0 <= i < |r| ==> r[i] in r;
    r
  }

  /** Deleting keeps the remaining forms in their order. */
  lemma WithoutFormAppend(a: seq<Form>, b: seq<Form>, id: string)
    ensures WithoutForm(a + b, id) == WithoutForm(a, id) + WithoutForm(b, id)
  {
    FilterAppend(a, b, IdIsNot(id));
  }

  /** Every submission names a form that exists. */
  predicate FormRefsResolve(forms: seq<Form>, subs: seq<Submission>) {
    forall i :: 0 <= i < |subs| ==> subs[i].formId in FormIds(forms)
  }

  /** Deleting a form that some submission names leaves that submission orphaned: the
      delete does not cascade to submissions. */
  lemma DeleteOrphansSubmissions(forms: seq<Form>, subs: seq<Submission>, k: nat)
    requires k < |subs|
    ensures subs[k].formId !in FormIds(WithoutForm(forms, subs[k].formId))
    ensures !FormRefsResolve(WithoutForm(forms, subs[k].formId), subs)
  {
  }

  /** While form ids are `form1`, `form2`, ..., the generated id is new. */
  lemma CreatedIdFresh(forms: seq<Form>)
    requires NumberedFromOne(FormIds(forms), "form")
    ensures NextFormId(forms) !in FormIds(forms)
  {
    NextNumberedIdFresh(FormIds(forms), "form");
  }

  /** After a delete the generated id need not be new: deleting form1 from the seed
      forms and creating a form generates `form4`, which form4 still carries. */
  lemma CreatedIdCollidesAfterDelete()
    ensures NextFormId(WithoutForm(MockForms, "form1")) == "form4"
    ensures "form4" in FormIds(WithoutForm(MockForms, "form1"))
  {
    DeleteFirstSeedForm();
    SeedTailIds();
  }

  lemma SeedTailIds()
    ensures NextFormId(MockForms[1..]) == "form4"
    ensures "form4" in FormIds(MockForms[1..])
  {
    assert |MockForms[1..]| == 3;
    assert FormIds(MockForms[1..])[2] == "form4";
  }

  /** Deleting form1 from the seed forms leaves the other three in order. */
  lemma DeleteFirstSeedForm()
    ensures WithoutForm(MockForms, "form1") == MockForms[1..]
  {
    var p := IdIsNot("form1");
    assert MockForms == [MockForms[0]] + MockForms[1..];
    FilterAppend([MockForms[0]], MockForms[1..], p);
    assert Filter([MockForms[0]], p) == [];
    FilterAll(MockForms[1..], p);
  }

  /** Every form has a title and a description. */
  predicate AllComplete(forms: seq<Form>) {
    forall i :: 0 <= i < |forms| ==> forms[i].title != "" && forms[i].description != ""
  }

  /** The Save button's guard is exactly what keeps a newly created or edited form
      complete: it is enabled if and only if the saved form has a title and a
      description. */
  lemma SaveGuardKeepsComplete(forms: seq<Form>, f: Form, draft: FormDraft, now: int)
    ensures CanSave(draft) <==> AllComplete([CreatedForm(forms, draft, now)])
    ensures CanSave(draft) <==> AllComplete([Overwrite(f, draft)])
  {
    assert [CreatedForm(forms, draft, now)][0] == CreatedForm(forms, draft, now);
    assert [Overwrite(f, draft)][0] == Overwrite(f, draft);
  }

  /** Deleting keeps every remaining form complete. */
  lemma WithoutFormComplete(forms: seq<Form>, id: string)
    requires AllComplete(forms)
    ensures AllComplete(WithoutForm(forms, id))
  {
    var r := WithoutForm(forms, id);
    forall i | 0 <= i < |r|
      ensures r[i].title != "" && r[i].description != ""
    {
      assert r[i] in forms;
    }
  }

  lemma MockFormsComplete()
    ensures AllComplete(MockForms)
  {
  }

  /** `filteredForms`: the search looks at the lower-cased title only. */
  function TitleSearch(query: string): Form -> bool {
    (f: Form) => MatchesQuery(f.title, query)
  }

  function FilteredForms(forms: seq<Form>, query: string): (r: seq<Form>)
    ensures forall f :: f in r <==> f in forms && MatchesQuery(f.title, query)
  {
    FilterMember(forms, TitleSearch(query));
    Filter(forms, TitleSearch(query))
  }

  /** The sort key of `(a, b) => b.createdAt - a.createdAt`: newest first. */
  function NewestFirstKey(f: Form): int {
    -f.createdAt
  }

  /** The list as shown: the filtered copy sorted in place, newest first. */
  method DisplayedForms(forms: seq<Form>, query: string) returns (shown: seq<Form>)
    ensures shown == SortBy(FilteredForms(forms, query), NewestFirstKey)
  {
    var filtered := FilteredForms(forms, query);
    var a := new Form[|filtered|](i requires 0 <= i < |filtered| => filtered[i]);
    assert a[..] == filtered;
    SortInPlace(a, NewestFirstKey);
    shown := a[..];
  }

  /** The shown list holds the forms whose title matches, each as often as stored,
      newest first. */
  lemma DisplayedOrder(forms: seq<Form>, query: string)
    ensures forall f :: f in SortBy(FilteredForms(forms, query), NewestFirstKey) <==>
      f in forms && MatchesQuery(f.title, query)
    ensures forall i, j :: 0 <= i < j < |SortBy(FilteredForms(forms, query), NewestFirstKey)| ==>
      SortBy(FilteredForms(forms, query), NewestFirstKey)[i].createdAt >=
      SortBy(FilteredForms(forms, query), NewestFirstKey)[j].createdAt
  {
    var r := SortBy(FilteredForms(forms, query), NewestFirstKey);
    SortByMember(FilteredForms(forms, query), NewestFirstKey);
    assert SortedBy(r, NewestFirstKey);
    forall i, j | 0 <= i < j < |r|
      ensures r[i].createdAt >= r[j].createdAt
    {
      assert NewestFirstKey(r[i]) <= NewestFirstKey(r[j]);
    }
  }

  /** The management dialog's state: the forms it may replace, whether the dialog is
      open, which form is being edited or is up for deletion, and the edit buffer. */
  class Manager {
    var forms: seq<Form>
    var isDialogOpen: bool
    var editingForm: Option<string>
    var deleteFormId: Option<string>
    var newForm: FormDraft

    constructor (forms: seq<Form>)
      ensures this.forms == forms
      ensures !isDialogOpen && editingForm == None && deleteFormId == None && newForm == EmptyDraft
    {
      this.forms := forms;
      isDialogOpen := false;
      editingForm := None;
      deleteFormId := None;
      newForm := EmptyDraft;
    }

    /** The "Create New Form" button: open the dialog as it stands. */
    method OpenDialog()
      modifies this
      ensures isDialogOpen
      ensures forms == old(forms) && editingForm == old(editingForm)
      ensures deleteFormId == old(deleteFormId) && newForm == old(newForm)
    {
      isDialogOpen := true;
    }

    /** The dialog's Cancel button: close the dialog and keep `editingForm` and the buffer,
        so reopening the dialog resumes the interrupted edit. */
    method CancelDialog()
      modifies this
      ensures !isDialogOpen
      ensures forms == old(forms) && editingForm == old(editingForm)
      ensures deleteFormId == old(deleteFormId) && newForm == old(newForm)
    {
      isDialogOpen := false;
    }

    /** `handleCreateForm`: append the buffer as a new form, close and clear the dialog. */
    method HandleCreateForm(now: int)
      modifies this
      ensures forms == old(forms) + [CreatedForm(old(forms), old(newForm), now)]
      ensures !isDialogOpen && editingForm == None && newForm == EmptyDraft
      ensures deleteFormId == old(deleteFormId)
    {
      forms := forms + [CreatedForm(forms, newForm, now)];
      isDialogOpen := false;
      newForm := EmptyDraft;
      editingForm := None;
    }

    /** `handleEditForm`: load a form that exists into the buffer and open the dialog;
        an unknown id changes nothing. */
    method HandleEditForm(id: string)
      modifies this
      ensures forms == old(forms) && deleteFormId == old(deleteFormId)
      ensures FindForm(forms, id).None? ==>
        isDialogOpen == old(isDialogOpen) && editingForm == old(editingForm) && newForm == old(newForm)
      ensures FindForm(forms, id).Some? ==>
        isDialogOpen && editingForm == Some(id) && newForm == DraftOf(FindForm(forms, id).value)
    {
      var found := FindForm(forms, id);
      if found.Some? {
        editingForm := Some(id);
        newForm := DraftOf(found.value);
        isDialogOpen := true;
      }
    }

    /** `handleUpdateForm`: overwrite the edited form's fields from the buffer, then
        close and clear the dialog. */
    method HandleUpdateForm()
      modifies this
      ensures forms == UpdateMatching(old(forms), old(editingForm), old(newForm))
      ensures !isDialogOpen && editingForm == None && newForm == EmptyDraft
      ensures deleteFormId == old(deleteFormId)
    {
      forms := UpdateMatching(forms, editingForm, newForm);
      isDialogOpen := false;
      editingForm := None;
      newForm := EmptyDraft;
    }

    /** `handleDeleteForm`: ask for confirmation of deleting `id`. */
    method HandleDeleteForm(id: string)
      modifies this
      ensures deleteFormId == Some(id)
      ensures forms == old(forms) && isDialogOpen == old(isDialogOpen)
      ensures editingForm == old(editingForm) && newForm == old(newForm)
    {
      deleteFormId := Some(id);
    }

    /** `confirmDeleteForm`: remove every form with the id up for deletion; with none
        (or an empty one) nothing happens. */
    method ConfirmDeleteForm()
      modifies this
      ensures isDialogOpen == old(isDialogOpen) && editingForm == old(editingForm) && newForm == old(newForm)
      ensures !IsSet(old(deleteFormId)) ==> forms == old(forms) && deleteFormId == old(deleteFormId)
      ensures IsSet(old(deleteFormId)) ==>
        forms == WithoutForm(old(forms), old(deleteFormId).value) && deleteFormId == None
      ensures old(AllComplete(forms)) ==> AllComplete(forms)
    {
      if IsSet(deleteFormId) {
        if AllComplete(forms) {
          WithoutFormComplete(forms, deleteFormId.value);
        }
        forms := WithoutForm(forms, deleteFormId.value);
        deleteFormId := None;
      }
    }

    /** The dialog's Save button: disabled for an incomplete draft, otherwise update when
        a form is being edited and create when none is. Every form it writes has a title
        and a description. */
    method Save(now: int)
      modifies this
      ensures !CanSave(old(newForm)) ==>
        && forms == old(forms) && isDialogOpen == old(isDialogOpen)
        && editingForm == old(editingForm) && newForm == old(newForm)
      ensures CanSave(old(newForm)) && IsSet(old(editingForm)) ==>
        forms == UpdateMatching(old(forms), old(editingForm), old(newForm))
      ensures CanSave(old(newForm)) && !IsSet(old(editingForm)) ==>
        forms == old(forms) + [CreatedForm(old(forms), old(newForm), now)]
      ensures CanSave(old(newForm)) ==> !isDialogOpen && editingForm == None && newForm == EmptyDraft
      ensures deleteFormId == old(deleteFormId)
      ensures old(AllComplete(forms)) ==> AllComplete(forms)
    {
      if !CanSave(newForm) {
        return;
      }
      if IsSet(editingForm) {
        HandleUpdateForm();
      } else {
        HandleCreateForm(now);
      }
    }
  }
}
