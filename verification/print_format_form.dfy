/** The print-format editor: the form shared by the create and edit
    dialogs, the requests it sends, and what each outcome does to it. The
    default template's HTML is a parameter `default` throughout. */
module PrintFormatForm {
  import opened Wrappers

  datatype FormatForm = FormatForm(name: string, templateHtml: string, isDefault: bool)

  /** A print format as listed by `GET /print-formats`. */
  datatype PrintFormat = PrintFormat(id: string, name: string, templateHtml: string, isDefault: bool)

  /** The editor: the form, the format being edited (if any), and which
      dialog is open. */
  datatype Editor = Editor(form: FormatForm, editing: Option<PrintFormat>, createOpen: bool, editOpen: bool)

  /** The form a successful save leaves, and the one the screen opens with. */
  function BlankForm(default: string): (f: FormatForm)
    ensures f.name == "" && f.templateHtml == default && !f.isDefault
  {
    FormatForm("", default, false)
  }

  function Initial(default: string): (e: Editor)
    ensures e.form == BlankForm(default) && e.editing.None? && !e.createOpen && !e.editOpen
  {
    Editor(BlankForm(default), None, false, false)
  }

  datatype Request = Post(path: string, body: FormatForm) | Put(path: string, body: FormatForm)

  const FormatsPath: string := "/print-formats"

  /** `handleCreate` sends the form as it stands. */
  function CreateRequest(e: Editor): (r: Request)
    ensures r.Post? && r.path == FormatsPath && r.body == e.form
  {
    Post(FormatsPath, e.form)
  }

  /** The create request's outcome: on success a blank form and the dialog
      closed; on failure nothing changes. */
  function CreateDone(e: Editor, succeeded: bool, default: string): (r: Editor)
    ensures succeeded ==> r == e.(form := BlankForm(default), createOpen := false)
    ensures !succeeded ==> r == e
  {
    if succeeded then e.(form := BlankForm(default), createOpen := false) else e
  }

  /** `handleEdit`: the form takes the format's fields and the edit dialog
      opens on it. */
  function Edit(e: Editor, f: PrintFormat): (r: Editor)
    ensures r.form == FormatForm(f.name, f.templateHtml, f.isDefault)
    ensures r.editing == Some(f) && r.editOpen && r.createOpen == e.createOpen
  {
    e.(form := FormatForm(f.name, f.templateHtml, f.isDefault), editing := Some(f), editOpen := true)
  }

  /** `handleUpdate`'s request: a `PUT` of the edited format's path with
      the form. With no format being edited, reading its id throws before
      any request is made. */
  function UpdateRequest(e: Editor): (r: Option<Request>)
    ensures r.None? <==> e.editing.None?
    ensures r.Some? ==> r.value == Put(FormatsPath + "/" + e.editing.value.id, e.form)
  {
    match e.editing
    case None => None
    case Some(f) => Some(Put(FormatsPath + "/" + f.id, e.form))
  }

  /** The update's outcome: on success a blank form, no format being edited
      and the dialog closed; on failure, or when no request went out,
      nothing changes. */
  function UpdateDone(e: Editor, succeeded: bool, default: string): (r: Editor)
    ensures succeeded && e.editing.Some? ==> r == e.(form := BlankForm(default), editing := None, editOpen := false)
    ensures !succeeded || e.editing.None? ==> r == e
  {
    if succeeded && e.editing.Some? then e.(form := BlankForm(default), editing := None, editOpen := false) else e
  }

  /** `resetToDefault`: the template goes back to the default; the name and
      the default flag stay. */
  function ResetToDefault(e: Editor, default: string): (r: Editor)
    ensures r.form.templateHtml == default
    ensures r.form.name == e.form.name && r.form.isDefault == e.form.isDefault
    ensures r.editing == e.editing && r.createOpen == e.createOpen && r.editOpen == e.editOpen
  {
    e.(form := e.form.(templateHtml := default))
  }

  lemma ResetIdempotent(e: Editor, default: string)
    ensures ResetToDefault(ResetToDefault(e, default), default) == ResetToDefault(e, default)
  {
  }

  /** Resetting a blank form changes nothing. */
  lemma ResetBlank(e: Editor, default: string)
    requires e.form == BlankForm(default)
    ensures ResetToDefault(e, default) == e
  {
  }

  /** Editing a format and saving it unchanged sends that format's own
      fields to that format's path. */
  lemma EditThenUpdate(e: Editor, f: PrintFormat)
    ensures UpdateRequest(Edit(e, f)) == Some(Put(FormatsPath + "/" + f.id, FormatForm(f.name, f.templateHtml, f.isDefault)))
  {
  }

  /** After a successful update the editor is back where the screen
      started, with only the create dialog's state kept, and a second save
      sends nothing. */
  lemma UpdateReturnsToStart(e: Editor, f: PrintFormat, default: string)
    ensures var r := UpdateDone(Edit(e, f), true, default);
            r == Initial(default).(createOpen := e.createOpen) && UpdateRequest(r).None?
  {
  }

  /** Either successful save leaves the same blank form. */
  lemma SavesAgree(e: Editor, f: PrintFormat, default: string)
    ensures CreateDone(e, true, default).form == UpdateDone(Edit(e, f), true, default).form == BlankForm(default)
  {
  }
}
