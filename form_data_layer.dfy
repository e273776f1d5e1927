/**
 * The form-submit handler that pushes a record to `window.dataLayer`. The
 * record starts with four core keys (`event`, `form_name`, `form_type`,
 * `form_id`, each with its fallback) and then, for every input, select and
 * textarea of the form in document order, stores the field's value under
 * its name (or, failing that, its id) when both are non-empty. A later field
 * with the same key overwrites an earlier one, and a field whose key is one
 * of the core keys overwrites that core entry. A field keyed `__proto__`
 * stores nothing: the assignment reaches the prototype setter instead.
 */
module FormDataLayer {
  import opened Wrappers

  const EventKey := "event"
  const FormNameKey := "form_name"
  const FormTypeKey := "form_type"
  const FormIdKey := "form_id"
  const EventName := "purchase_form"
  const UnknownForm := "unknown_form"
  const Unspecified := "unspecified"
  /**
   * On a plain object literal, assigning to this key calls the inherited
   * `__proto__` setter, which ignores a string value: no entry is stored.
   */
  const ProtoKey := "__proto__"

  /** An attribute read with jQuery `.attr()`: missing (`undefined`) or its text. */
  type Attr = Option<string>

  /** JavaScript truthiness of an `.attr()` result: present and non-empty. */
  predicate AttrTruthy(a: Attr)
  {
    a.Some? && a.value != ""
  }

  /**
   * JavaScript truthiness of a jQuery `.data()` result. jQuery converts the
   * attribute text "false" to `false`, "null" to `null`, and text that reads
   * back as the same number to that number, so "0" and "NaN" become falsy
   * numbers; every other non-empty text stays truthy.
   */
  predicate DataTruthy(d: Attr)
  {
    d.Some? && d.value != "" && d.value != "false" && d.value != "null" && d.value != "0" && d.value != "NaN"
  }

  datatype Form = Form(name: Attr, dataType: Attr, dataId: Attr, id: Attr)

  /** An input, select or textarea: its `name` and `id` attributes and its `.val()`. */
  datatype Field = Field(name: Attr, id: Attr, value: string)

  /** `field.attr("name") || field.attr("id")`. */
  function FieldKey(f: Field): Attr
  {
    if AttrTruthy(f.name) then f.name else f.id
  }

  /**
   * The field passes `if (fieldName && fieldValue)` and the assignment
   * `formData[fieldName] = fieldValue` then stores an entry.
   */
  predicate Contributes(f: Field)
  {
    AttrTruthy(FieldKey(f)) && f.value != "" && FieldKey(f).value != ProtoKey
  }

  /** The four core entries with their fallbacks; `form_id` falls back from `data-id` to `id`. */
  function CoreRecord(form: Form): (r: map<string, string>)
    ensures r.Keys == {EventKey, FormNameKey, FormTypeKey, FormIdKey}
    ensures r[EventKey] == EventName
    ensures r[FormNameKey] == if AttrTruthy(form.name) then form.name.value else UnknownForm
    ensures r[FormTypeKey] == if DataTruthy(form.dataType) then form.dataType.value else Unspecified
    ensures r[FormIdKey] ==
      if DataTruthy(form.dataId) then form.dataId.value
      else if AttrTruthy(form.id) then form.id.value
      else Unspecified
  {
    map[
      EventKey := EventName,
      FormNameKey := if AttrTruthy(form.name) then form.name.value else UnknownForm,
      FormTypeKey := if DataTruthy(form.dataType) then form.dataType.value else Unspecified,
      FormIdKey := if DataTruthy(form.dataId) then form.dataId.value
                   else if AttrTruthy(form.id) then form.id.value
                   else Unspecified
    ]
  }

  /** One step of the `.each` over the fields. */
  function Contribute(data: map<string, string>, f: Field): map<string, string>
  {
    if Contributes(f) then data[FieldKey(f).value := f.value] else data
  }

  /** The record after the fields, in document order, have been folded in. */
  function WithFields(data: map<string, string>, fields: seq<Field>): (r: map<string, string>)
    ensures data.Keys <= r.Keys
    ensures forall key :: key in r && key !in data ==>
      exists i :: 0 <= i < |fields| && Contributes(fields[i]) && FieldKey(fields[i]).value == key
    ensures (forall i :: 0 <= i < |fields| ==> !Contributes(fields[i])) ==> r == data
    decreases |fields|
  {
    if fields == [] then data
    else Contribute(WithFields(data, fields[..|fields| - 1]), fields[|fields| - 1])
  }

  /** The record `pushFormDataToDataLayer` pushes: the core entries, then the fields. */
  function Record(form: Form, fields: seq<Field>): (r: map<string, string>)
    ensures {EventKey, FormNameKey, FormTypeKey, FormIdKey} <= r.Keys
    ensures forall key :: key in r && key !in {EventKey, FormNameKey, FormTypeKey, FormIdKey} ==>
      exists i :: 0 <= i < |fields| && Contributes(fields[i]) && FieldKey(fields[i]).value == key
    ensures (forall i :: 0 <= i < |fields| ==> !Contributes(fields[i])) ==> r == CoreRecord(form)
  {
    WithFields(CoreRecord(form), fields)
  }

  /** Field `i` is the last contributing field stored under `key`. */
  predicate LastWriter(fields: seq<Field>, key: string, i: nat)
  {
    && i < |fields| && Contributes(fields[i]) && FieldKey(fields[i]).value == key
    && forall j :: i < j < |fields| && Contributes(fields[j]) ==> FieldKey(fields[j]).value != key
  }

  /** No contributing field is stored under `key`. */
  predicate NoWriter(fields: seq<Field>, key: string)
  {
    forall j :: 0 <= j < |fields| && Contributes(fields[j]) ==> FieldKey(fields[j]).value != key
  }

  /** The record holds the value of the last contributing field stored under a key. */
  lemma {:induction false} LastWriterWins(data: map<string, string>, fields: seq<Field>, key: string, i: nat)
    requires LastWriter(fields, key, i)
    ensures key in WithFields(data, fields) && WithFields(data, fields)[key] == fields[i].value
    decreases |fields|
  {
    var n := |fields| - 1;
    var prev := WithFields(data, fields[..n]);
    assert WithFields(data, fields) == Contribute(prev, fields[n]);
    if i < n {
      assert LastWriter(fields[..n], key, i) by {
        forall j | i < j < n && Contributes(fields[..n][j]) ensures FieldKey(fields[..n][j]).value != key {
          assert fields[..n][j] == fields[j];
        }
      }
      LastWriterWins(data, fields[..n], key, i);
    }
  }

  /** Under a key no contributing field uses, the record keeps the starting entry (or lacks the key). */
  lemma {:induction false} UnwrittenKeyKept(data: map<string, string>, fields: seq<Field>, key: string)
    requires NoWriter(fields, key)
    ensures key in WithFields(data, fields) <==> key in data
    ensures key in data ==> WithFields(data, fields)[key] == data[key]
    decreases |fields|
  {
    if fields != [] {
      var n := |fields| - 1;
      assert NoWriter(fields[..n], key);
      UnwrittenKeyKept(data, fields[..n], key);
    }
  }

  /** Every key of the record is a core key or the key of a contributing field. */
  lemma {:induction false} WithFieldsKeys(data: map<string, string>, fields: seq<Field>)
    ensures WithFields(data, fields).Keys ==
      data.Keys + set i | 0 <= i < |fields| && Contributes(fields[i]) :: FieldKey(fields[i]).value
    decreases |fields|
  {
    if fields != [] {
      var n := |fields| - 1;
      WithFieldsKeys(data, fields[..n]);
      var before := set i | 0 <= i < n && Contributes(fields[..n][i]) :: FieldKey(fields[..n][i]).value;
      var after := set i | 0 <= i < |fields| && Contributes(fields[i]) :: FieldKey(fields[i]).value;
      assert before == set i | 0 <= i < n && Contributes(fields[i]) :: FieldKey(fields[i]).value;
      if Contributes(fields[n]) {
        assert after == before + {FieldKey(fields[n]).value};
      } else {
        assert after == before;
      }
    }
  }

  /**
   * A core entry survives unless a contributing field is stored under the
   * same key: in particular `event` is "purchase_form" unless some field is
   * itself named `event`.
   */
  lemma CoreEntryKept(form: Form, fields: seq<Field>, key: string)
    requires key in {EventKey, FormNameKey, FormTypeKey, FormIdKey}
    requires NoWriter(fields, key)
    ensures key in Record(form, fields) && Record(form, fields)[key] == CoreRecord(form)[key]
  {
    UnwrittenKeyKept(CoreRecord(form), fields, key);
  }

  /** The submit handler's record building, as the source writes it: a loop over the fields. */
  method BuildRecord(form: Form, fields: seq<Field>) returns (formData: map<string, string>)
    ensures formData == Record(form, fields)
  {
    formData := map[];
    formData := formData[EventKey := EventName];
    formData := formData[FormNameKey := if AttrTruthy(form.name) then form.name.value else UnknownForm];
    formData := formData[FormTypeKey := if DataTruthy(form.dataType) then form.dataType.value else Unspecified];
    formData := formData[FormIdKey :=
      if DataTruthy(form.dataId) then form.dataId.value
      else if AttrTruthy(form.id) then form.id.value
      else Unspecified];
    assert formData == CoreRecord(form);
    var i := 0;
    while i < |fields|
      invariant 0 <= i <= |fields|
      invariant formData == WithFields(CoreRecord(form), fields[..i])
    {
      var field := fields[i];
      var fieldName := if AttrTruthy(field.name) then field.name else field.id;
      var fieldValue := field.value;
      if AttrTruthy(fieldName) && fieldValue != "" {
        if fieldName.value != ProtoKey {
          formData := formData[fieldName.value := fieldValue];
        }
      }
      assert fields[..i + 1][..i] == fields[..i];
      assert WithFields(CoreRecord(form), fields[..i + 1]) == Contribute(WithFields(CoreRecord(form), fields[..i]), field);
      i := i + 1;
    }
    assert fields[..i] == fields;
  }

  /** `window.dataLayer`. */
  class DataLayer {
    var entries: seq<map<string, string>>

    constructor ()
      ensures entries == []
    {
      entries := [];
    }

    /** A form submission: build the record and push it. */
    method OnSubmit(form: Form, fields: seq<Field>)
      modifies this
      ensures entries == old(entries) + [Record(form, fields)]
    {
      var formData := BuildRecord(form, fields);
      entries := entries + [formData];
    }
  }
}
