/**
  The form popups of `src/app/form.rs`: a titled list of labelled fields, each
  owning an `Input`, some of them hidden, with a selected-field index that
  cycles over the VISIBLE fields only.
 */
module Forms {
  import opened TextInput

  datatype FormField = FormField(labelText: string, hidden: bool, name: string, input: Input)

  /** A fresh field: shown, with an empty buffer and the cursor at the origin. */
  function NewField(labelText: string, name: string): (f: FormField)
    ensures f.labelText == labelText && f.name == name && !f.hidden
    ensures f.input.text == [] && f.input.cursor == Coordinates(0, 0)
  {
    FormField(labelText, false, name, DefaultInput())
  }

  /** Sets the text of the field's buffer and nothing else (the cursor stays put). */
  function WithValue(f: FormField, value: string): (r: FormField)
    ensures r.input.text == value
    ensures r.(input := f.input) == f && r.input.cursor == f.input.cursor
  {
    f.(input := f.input.(text := value))
  }

  /** Hides the field and changes nothing else. */
  function Hide(f: FormField): (r: FormField)
    ensures r.hidden && r.(hidden := f.hidden) == f
  {
    f.(hidden := true)
  }

  datatype FormKind = AddHeader | EditHeader | AddQueryParam | EditQueryParam

  datatype Form = Form(title: string, fields: seq<FormField>, kind: FormKind, selectedField: nat)

  /** A fresh form: untitled, the first field selected. */
  function NewForm(kind: FormKind, fields: seq<FormField>): (r: Form)
    ensures r.kind == kind && r.fields == fields
    ensures r.title == [] && r.selectedField == 0
  {
    Form("", fields, kind, 0)
  }

  /** Sets the title and changes nothing else. */
  function WithTitle(form: Form, title: string): (r: Form)
    ensures r.title == title && r.(title := form.title) == form
  {
    form.(title := title)
  }

  /** The fields that are not hidden, in their original order. */
  function VisibleFields(fields: seq<FormField>): (r: seq<FormField>)
    ensures |r| <= |fields|
    ensures forall i :: 0 <= i < |r| ==> !r[i].hidden
    ensures forall f :: f in r <==> f in fields && !f.hidden
  {
    if |fields| == 0 then []
    else (if fields[0].hidden then [] else [fields[0]]) + VisibleFields(fields[1..])
  }

  /** Filtering distributes over concatenation, which with one-field lists pins it down completely. */
  lemma {:induction false} VisibleFieldsAppend(a: seq<FormField>, b: seq<FormField>)
    ensures VisibleFields(a + b) == VisibleFields(a) + VisibleFields(b)
  {
    if |a| > 0 {
      assert (a + b)[1..] == a[1..] + b;
      VisibleFieldsAppend(a[1..], b);
    } else {
      assert a + b == b;
    }
  }

  /** Hiding a field removes exactly that field from the visible ones. */
  lemma {:induction false} HideRemovesFromVisible(fields: seq<FormField>, i: nat)
    requires i < |fields|
    ensures var hidden := fields[i := Hide(fields[i])];
            VisibleFields(hidden) == VisibleFields(fields[..i]) + VisibleFields(fields[i + 1..])
  {
    var hidden := fields[i := Hide(fields[i])];
    assert hidden == fields[..i] + [Hide(fields[i])] + fields[i + 1..];
    VisibleFieldsAppend(fields[..i] + [Hide(fields[i])], fields[i + 1..]);
    VisibleFieldsAppend(fields[..i], [Hide(fields[i])]);
  }

  lemma CycleForward(i: nat, n: nat)
    ensures i < n ==> (i + 1) % n == if i + 1 == n then 0 else i + 1
  {
  }

  lemma CycleBackward(i: nat, n: nat)
    ensures i < n ==> (i + n - 1) % n == if i == 0 then n - 1 else i - 1
  {
  }

  /** Next field, wrapping from the last VISIBLE index to 0. */
  function NextField(form: Form): (r: Form)
    requires |VisibleFields(form.fields)| >= 1  // `len() - 1` underflows otherwise
    ensures r.(selectedField := form.selectedField) == form
    ensures var n := |VisibleFields(form.fields)|;
            form.selectedField < n ==> r.selectedField == (form.selectedField + 1) % n
  {
    var n := |VisibleFields(form.fields)|;
    CycleForward(form.selectedField, n);
    if n - 1 == form.selectedField then form.(selectedField := 0)
    else form.(selectedField := form.selectedField + 1)
  }

  /**
    Previous field, wrapping from 0 to the last VISIBLE index. The visible
    count is only read at selection 0, so only there can it underflow.
   */
  function PreviousField(form: Form): (r: Form)
    requires form.selectedField == 0 ==> |VisibleFields(form.fields)| >= 1  // `len() - 1` underflows otherwise
    ensures r.(selectedField := form.selectedField) == form
    ensures form.selectedField > 0 ==> r.selectedField + 1 == form.selectedField
    ensures var n := |VisibleFields(form.fields)|;
            form.selectedField < n ==> r.selectedField == (form.selectedField + n - 1) % n
  {
    var n := |VisibleFields(form.fields)|;
    CycleBackward(form.selectedField, n);
    if form.selectedField == 0 then form.(selectedField := n - 1)
    else form.(selectedField := form.selectedField - 1)
  }

  /** With the selection in range, next and previous keep it in range and undo each other. */
  lemma FieldNavigationInverse(form: Form)
    requires |VisibleFields(form.fields)| >= 1
    requires form.selectedField < |VisibleFields(form.fields)|
    ensures NextField(form).selectedField < |VisibleFields(form.fields)|
    ensures PreviousField(form).selectedField < |VisibleFields(form.fields)|
    ensures PreviousField(NextField(form)) == form
    ensures NextField(PreviousField(form)) == form
  {
  }
}
