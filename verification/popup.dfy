/**
  The popup key handler of `src/event/popup.rs`: form popups (edited in Insert
  mode, navigated and submitted in Normal mode) and the method-selection
  popup, plus `handle_forms`, which applies a submitted form to the header map
  or the query-parameter list. Keys that edit a field are dispatched to the
  `TextInput` operations through the `FieldEdit` commands.
 */
module Popup {
  import opened Wrappers
  import opened TextInput
  import opened Forms
  import opened AppState

  // ---------------------------------------------------------------- submitting a form

  /** Field name to buffer text; for a repeated name the later field wins, as when collecting into a `HashMap`. */
  function FormValues(fields: seq<FormField>): (values: map<string, string>)
    ensures forall i :: 0 <= i < |fields| ==> fields[i].name in values
    ensures forall k :: k in values ==>
      exists i :: 0 <= i < |fields| && fields[i].name == k && values[k] == fields[i].input.text
  {
    if |fields| == 0 then map[]
    else
      var last := fields[|fields| - 1];
      var earlier := FormValues(fields[..|fields| - 1]);
      assert forall i :: 0 <= i < |fields| - 1 ==> fields[..|fields| - 1][i] == fields[i];
      earlier[last.name := last.input.text]
  }

  /** Field `i` is the last field carrying its name. */
  predicate LastWithName(fields: seq<FormField>, i: nat)
    requires i < |fields|
  {
    forall j :: i < j < |fields| ==> fields[j].name != fields[i].name
  }

  lemma LastWithNamePrefix(fields: seq<FormField>, i: nat)
    requires i + 1 < |fields| && LastWithName(fields, i)
    ensures LastWithName(fields[..|fields| - 1], i)
    ensures fields[|fields| - 1].name != fields[i].name
  {
    var prefix := fields[..|fields| - 1];
    forall j | i < j < |prefix| ensures prefix[j].name != prefix[i].name {
      assert prefix[j] == fields[j];
    }
  }

  /** For a repeated name the LAST field with that name wins, as when collecting into a `HashMap`. */
  lemma {:induction false} FormValuesLastWins(fields: seq<FormField>, i: nat)
    requires i < |fields| && LastWithName(fields, i)
    ensures FormValues(fields)[fields[i].name] == fields[i].input.text
  {
    var n := |fields|;
    if i < n - 1 {
      LastWithNamePrefix(fields, i);
      FormValuesLastWins(fields[..n - 1], i);
      assert fields[..n - 1][i] == fields[i];
    }
  }

  /** With distinct names, every field's text is found under its own name. */
  lemma FormValuesDistinctNames(fields: seq<FormField>, i: nat)
    requires i < |fields|
    requires forall j, k :: 0 <= j < k < |fields| ==> fields[j].name != fields[k].name
    ensures FormValues(fields)[fields[i].name] == fields[i].input.text
  {
  }

  /** What `handle_forms` unwraps: the fields it reads, and the edited query parameter. */
  predicate FormApplicable(form: Form, app: App) {
    var values := FormValues(form.fields);
    && "key" in values && "value" in values
    && (form.kind == EditHeader ==> "current_key" in values)
    && (form.kind == EditQueryParam ==> app.selectedQueryParam < |app.queryParams|)
  }

  /** The AddHeader branch: insert or overwrite one header. */
  function AddHeaderTo(headers: map<string, string>, key: string, value: string): (r: map<string, string>)
    ensures r.Keys == headers.Keys + {key} && r[key] == value
    ensures forall k :: k in headers && k != key ==> r[k] == headers[k]
  {
    headers[key := value]
  }

  /**
    The EditHeader branch: drop the header under `current` unless it is also
    the new key, then insert the new one. Both ways it is one removal followed
    by one insertion.
   */
  function EditHeaderIn(headers: map<string, string>, current: string, key: string, value: string): (r: map<string, string>)
    ensures r == AddHeaderTo(headers - {current}, key, value)
    ensures r.Keys == headers.Keys - {current} + {key}
    ensures current == key ==> r == AddHeaderTo(headers, key, value)
  {
    if current == key then headers[key := value]
    else (headers - {current})[key := value]
  }

  /** The AddQueryParam branch: append one pair. */
  function AddQueryParamTo(params: seq<(string, string)>, key: string, value: string): (r: seq<(string, string)>)
    ensures |r| == |params| + 1 && r[..|params|] == params && r[|params|] == (key, value)
  {
    params + [(key, value)]
  }

  /** The EditQueryParam branch: overwrite the selected pair and no other. */
  function EditQueryParamAt(params: seq<(string, string)>, i: nat, key: string, value: string): (r: seq<(string, string)>)
    requires i < |params|  // the source indexes out of bounds otherwise
    ensures |r| == |params| && r[i] == (key, value)
    ensures forall j :: 0 <= j < |params| && j != i ==> r[j] == params[j]
  {
    params[i := (key, value)]
  }

  /** Applies a submitted form to the headers or the query parameters; nothing else changes. */
  function HandleForms(form: Form, app: App): (r: App)
    requires FormApplicable(form, app)
    ensures r.(headers := app.headers, queryParams := app.queryParams) == app
    ensures form.kind.AddHeader? || form.kind.EditHeader? ==> r.queryParams == app.queryParams
    ensures form.kind.AddQueryParam? || form.kind.EditQueryParam? ==> r.headers == app.headers
    ensures var values := FormValues(form.fields);
            form.kind.EditHeader? ==>
              r.headers == EditHeaderIn(app.headers, values["current_key"], values["key"], values["value"])
    ensures var values := FormValues(form.fields);
            form.kind.AddHeader? ==> r.headers == AddHeaderTo(app.headers, values["key"], values["value"])
    ensures var values := FormValues(form.fields);
            form.kind.AddQueryParam? ==> r.queryParams == AddQueryParamTo(app.queryParams, values["key"], values["value"])
    ensures var values := FormValues(form.fields);
            form.kind.EditQueryParam? ==>
              r.queryParams == EditQueryParamAt(app.queryParams, app.selectedQueryParam, values["key"], values["value"])
  {
    var values := FormValues(form.fields);
    match form.kind
    case EditHeader =>
      app.(headers := EditHeaderIn(app.headers, values["current_key"], values["key"], values["value"]))
    case AddHeader =>
      app.(headers := AddHeaderTo(app.headers, values["key"], values["value"]))
    case AddQueryParam =>
      app.(queryParams := AddQueryParamTo(app.queryParams, values["key"], values["value"]))
    case EditQueryParam =>
      app.(queryParams := EditQueryParamAt(app.queryParams, app.selectedQueryParam, values["key"], values["value"]))
  }

  // ---------------------------------------------------------------- editing the selected field

  /** The `Input` operations a key can apply to the selected field of a form. */
  datatype FieldEdit = ToEndOfLine | CursorLeft | CursorRight | DeleteBefore | TypeChar(ch: char)

  predicate EditDefined(inp: Input, e: FieldEdit) {
    match e
    case DeleteBefore => inp.cursor.x <= |inp.text|
    case TypeChar(_) => InsertDefined(inp)
    case _ => true
  }

  function ApplyEdit(inp: Input, e: FieldEdit): Input
    requires EditDefined(inp, e)
  {
    match e
    case ToEndOfLine => MoveToEndSingleLine(inp)
    case CursorLeft => MoveLeft(inp)
    case CursorRight => MoveRight(inp)
    case DeleteBefore => RemoveCharBeforeCursorSingleLine(inp)
    case TypeChar(ch) => AddCharAtCursor(inp, ch)
  }

  /** `f.fields.get_mut(f.selected_field).unwrap()` indexes ALL fields, hidden ones included. */
  predicate SelectedFieldEditable(form: Form, e: FieldEdit) {
    form.selectedField < |form.fields| && EditDefined(form.fields[form.selectedField].input, e)
  }

  /** Applies the edit to the selected field's buffer; every other field and the form itself are untouched. */
  function EditSelectedField(form: Form, e: FieldEdit): (r: Form)
    requires SelectedFieldEditable(form, e)
    ensures r.(fields := form.fields) == form && |r.fields| == |form.fields|
    ensures var s := form.selectedField;
            r.fields[s] == form.fields[s].(input := ApplyEdit(form.fields[s].input, e))
    ensures forall i :: 0 <= i < |form.fields| && i != form.selectedField ==> r.fields[i] == form.fields[i]
  {
    var s := form.selectedField;
    form.(fields := form.fields[s := form.fields[s].(input := ApplyEdit(form.fields[s].input, e))])
  }

  // ---------------------------------------------------------------- key handling

  datatype Key = Char(c: char) | Enter | Esc | Tab | BackTab | Left | Right | Backspace | OtherKey

  function WithForm(app: App, form: Form): App {
    app.(popup := Some(FormPopup(form)))
  }

  /** When the popup handler does not panic on an unwrap, an index or an underflow. */
  predicate PopupEventDefined(app: App, key: Key)
    requires app.popup.Some?
  {
    match app.popup.value
    case ChangeMethod => true
    case FormPopup(f) =>
      match app.inputMode
      case Normal =>
        (match key
         case Char(c) =>
           if c == 'i' then SelectedFieldEditable(f, ToEndOfLine)
           else if c == 'j' then |VisibleFields(f.fields)| >= 1
           else if c == 'k' then f.selectedField == 0 ==> |VisibleFields(f.fields)| >= 1
           else true
         case Enter => FormApplicable(f, app)
         case _ => true)
      case Insert =>
        match key
        case Enter => FormApplicable(f, app)
        case BackTab =>
          (f.selectedField == 0 ==> |VisibleFields(f.fields)| >= 1) && SelectedFieldEditable(PreviousField(f), ToEndOfLine)
        case Tab => |VisibleFields(f.fields)| >= 1 && SelectedFieldEditable(NextField(f), ToEndOfLine)
        case Left => SelectedFieldEditable(f, CursorLeft)
        case Right => SelectedFieldEditable(f, CursorRight)
        case Backspace => SelectedFieldEditable(f, DeleteBefore)
        case Char(c) => SelectedFieldEditable(f, TypeChar(c))
        case _ => true
  }

  /** The method popup: `j`/`k` step the method, Enter and Esc close the popup, other keys do nothing. */
  function MethodPopupEvent(app: App, key: Key, nextMethod: RequestMethod -> RequestMethod,
                            previousMethod: RequestMethod -> RequestMethod): (r: App)
    ensures r.(requestMethod := app.requestMethod, popup := app.popup) == app
    ensures key == Char('j') ==> r == app.(requestMethod := nextMethod(app.requestMethod))
    ensures key == Char('k') ==> r == app.(requestMethod := previousMethod(app.requestMethod))
    ensures key == Enter || key == Esc ==> r == app.(popup := None)
    ensures key != Char('j') && key != Char('k') && key != Enter && key != Esc ==> r == app
  {
    match key
    case Char(c) =>
      if c == 'k' then app.(requestMethod := previousMethod(app.requestMethod))
      else if c == 'j' then app.(requestMethod := nextMethod(app.requestMethod))
      else app
    case Enter => app.(popup := None)
    case Esc => app.(popup := None)
    case _ => app
  }

  /**
    A form popup in Normal mode: `i` enters Insert mode at the end of the
    selected field, `j`/`k` move the selection, Enter submits the form.
   */
  function FormNormalEvent(app: App, key: Key): (r: App)
    requires app.popup.Some? && app.popup.value.FormPopup? && app.inputMode == Normal
    requires PopupEventDefined(app, key)
    ensures var f := app.popup.value.form;
            key == Enter ==> r == HandleForms(f, app).(popup := None)
    ensures key != Enter ==> r.(popup := app.popup, inputMode := app.inputMode) == app
    ensures key == Char('i') ==>
      r.inputMode == Insert && r.popup == Some(FormPopup(EditSelectedField(app.popup.value.form, ToEndOfLine)))
    ensures key != Char('i') ==> r.inputMode == Normal
    ensures key == Char('j') ==> r.popup == Some(FormPopup(NextField(app.popup.value.form)))
    ensures key == Char('k') ==> r.popup == Some(FormPopup(PreviousField(app.popup.value.form)))
    ensures key != Char('i') && key != Char('j') && key != Char('k') && key != Enter ==> r == app
  {
    var f := app.popup.value.form;
    match key
    case Char(c) =>
      if c == 'i' then WithForm(app.(inputMode := Insert), EditSelectedField(f, ToEndOfLine))
      else if c == 'j' then WithForm(app, NextField(f))
      else if c == 'k' then WithForm(app, PreviousField(f))
      else app
    case Enter => HandleForms(f, app).(popup := None)
    case _ => app
  }

  /**
    A form popup in Insert mode: Esc returns to Normal mode, Enter submits the
    form, Tab/BackTab move the selection to the end of the next/previous field,
    and the editing keys go to the selected field's buffer.
   */
  function FormInsertEvent(app: App, key: Key): (r: App)
    requires app.popup.Some? && app.popup.value.FormPopup? && app.inputMode == Insert
    requires PopupEventDefined(app, key)
    ensures key == Esc ==> r == app.(inputMode := Normal)
    ensures var f := app.popup.value.form;
            key == Enter ==> r == HandleForms(f, app).(inputMode := Normal, popup := None)
    ensures key != Esc && key != Enter ==> r.(popup := app.popup) == app
    ensures var f := app.popup.value.form;
            key.Char? ==> r.popup == Some(FormPopup(EditSelectedField(f, TypeChar(key.c))))
    ensures var f := app.popup.value.form;
            key == Backspace ==> r.popup == Some(FormPopup(EditSelectedField(f, DeleteBefore)))
    ensures var f := app.popup.value.form;
            key == Left ==> r.popup == Some(FormPopup(EditSelectedField(f, CursorLeft)))
    ensures var f := app.popup.value.form;
            key == Right ==> r.popup == Some(FormPopup(EditSelectedField(f, CursorRight)))
    ensures var f := app.popup.value.form;
            key == Tab ==> r.popup == Some(FormPopup(EditSelectedField(NextField(f), ToEndOfLine)))
    ensures var f := app.popup.value.form;
            key == BackTab ==> r.popup == Some(FormPopup(EditSelectedField(PreviousField(f), ToEndOfLine)))
    ensures key == OtherKey ==> r == app
  {
    var f := app.popup.value.form;
    match key
    case Esc => app.(inputMode := Normal)
    case Enter => HandleForms(f, app).(inputMode := Normal, popup := None)
    case BackTab => WithForm(app, EditSelectedField(PreviousField(f), ToEndOfLine))
    case Tab => WithForm(app, EditSelectedField(NextField(f), ToEndOfLine))
    case Left => WithForm(app, EditSelectedField(f, CursorLeft))
    case Right => WithForm(app, EditSelectedField(f, CursorRight))
    case Backspace => WithForm(app, EditSelectedField(f, DeleteBefore))
    case Char(c) => WithForm(app, EditSelectedField(f, TypeChar(c)))
    case OtherKey => app
  }

  /**
    One key press while a popup is open. The method popup's `j`/`k` step
    through the methods with `next`/`previous`, passed in as `nextMethod` and
    `previousMethod`.
   */
  function HandlePopupEvent(app: App, key: Key, nextMethod: RequestMethod -> RequestMethod,
                            previousMethod: RequestMethod -> RequestMethod): (r: App)
    requires app.popup.Some? && PopupEventDefined(app, key)
    // the method popup: Enter and Esc both close it
    ensures app.popup.value.ChangeMethod? && (key == Enter || key == Esc) ==> r == app.(popup := None)
    // Esc in Insert mode: back to Normal, popup still open
    ensures app.popup.value.FormPopup? && app.inputMode == Insert && key == Esc ==>
      r == app.(inputMode := Normal)
    // Enter on a form, in either mode: exactly handle_forms, then the popup closes in Normal mode
    ensures app.popup.value.FormPopup? && key == Enter ==>
      r == HandleForms(app.popup.value.form, app).(inputMode := Normal, popup := None)
    // 'i' in Normal mode: into Insert mode
    ensures app.popup.value.FormPopup? && app.inputMode == Normal && key == Char('i') ==> r.inputMode == Insert
    // any other key on a form touches only the popup and the mode, and keeps a form of the same kind open
    ensures app.popup.value.FormPopup? && key != Enter ==>
      && r.(popup := app.popup, inputMode := app.inputMode) == app
      && r.popup.Some? && r.popup.value.FormPopup?
      && r.popup.value.form.kind == app.popup.value.form.kind
      && |r.popup.value.form.fields| == |app.popup.value.form.fields|
    // the method popup touches only the method and the popup
    ensures app.popup.value.ChangeMethod? ==> r.(requestMethod := app.requestMethod, popup := app.popup) == app
    // the mode changes only on Esc, Enter, or 'i' in Normal mode
    ensures key != Esc && key != Enter && !(app.inputMode == Normal && key == Char('i')) ==>
      r.inputMode == app.inputMode
  {
    match app.popup.value
    case ChangeMethod => MethodPopupEvent(app, key, nextMethod, previousMethod)
    case FormPopup(f) =>
      match app.inputMode
      case Normal => FormNormalEvent(app, key)
      case Insert => FormInsertEvent(app, key)
  }

  /**
    Selection counts visible fields but editing indexes all fields: with a
    hidden field first, Insert-mode typing lands in the hidden field, and Tab
    never reaches the last field.
   */
  lemma HiddenFieldExample(app: App)
    requires app.inputMode == Insert
    ensures var f := NewForm(EditHeader, [Hide(NewField("Current key", "current_key")),
                                          NewField("Key", "key"), NewField("Value", "value")]);
            var r := HandlePopupEvent(WithForm(app, f), Char('a'), m => m, m => m);
            && |VisibleFields(f.fields)| == 2
            && f.fields[f.selectedField].hidden
            && r.popup.value.form.fields[0].input.text == "a"
            && r.popup.value.form.fields[1] == f.fields[1]
            && NextField(NextField(f)).selectedField == 0
  {
  }
}
