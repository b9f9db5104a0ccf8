/** A submitted HTML form (the Web `FormData` object) as the ordered list of
    its (name, value) entries, with the three reads the server actions use. */
module Forms {
  import opened Common

  type FormData = seq<(string, string)>

  /** `formData.getAll(name)`: every value submitted under `name`, in order. */
  function GetAll(form: FormData, name: string): (r: seq<string>)
    ensures |r| <= |form|
    ensures forall v :: v in r <==> (name, v) in form
  {
    if form == [] then []
    else if form[0].0 == name then [form[0].1] + GetAll(form[1..], name)
    else GetAll(form[1..], name)
  }

  /** `formData.get(name)`: the first value submitted under `name`, or null. */
  function Get(form: FormData, name: string): (r: Option<string>)
    ensures r.None? <==> forall i :: 0 <= i < |form| ==> form[i].0 != name
    ensures r.Some? ==> (name, r.value) in form
  {
    if form == [] then None
    else if form[0].0 == name then Some(form[0].1)
    else Get(form[1..], name)
  }

  /** `get` reads the first of the values `getAll` lists. */
  lemma {:induction false} GetIsFirstOfAll(form: FormData, name: string)
    ensures Get(form, name) == if GetAll(form, name) == [] then None else Some(GetAll(form, name)[0])
  {
    if form != [] && form[0].0 != name {
      GetIsFirstOfAll(form[1..], name);
    }
  }

  /** `(formData.get(name) as string) || ''`. */
  function Field(form: FormData, name: string): (r: string)
    ensures r == "" <==> !Truthy(Get(form, name))
    ensures Truthy(Get(form, name)) ==> r == Get(form, name).value
  {
    Or(Get(form, name), "")
  }

  /** `Object.fromEntries(formData.entries())`: a record of the entries in
      which a later entry overwrites an earlier one with the same name. */
  function FromEntries(form: FormData): (r: map<string, string>)
    ensures forall name :: name in r <==> GetAll(form, name) != []
    decreases |form|
  {
    if form == [] then map[]
    else
      var init := form[..|form| - 1];
      var last := form[|form| - 1];
      assert form == init + [last];
      GetAllAppend(init, [last]);
      FromEntries(init)[last.0 := last.1]
  }

  lemma {:induction false} GetAllAppend(a: FormData, b: FormData)
    ensures forall name :: GetAll(a + b, name) == GetAll(a, name) + GetAll(b, name)
  {
    forall name ensures GetAll(a + b, name) == GetAll(a, name) + GetAll(b, name) {
      GetAllAppendAt(a, b, name);
    }
  }

  lemma {:induction false} GetAllAppendAt(a: FormData, b: FormData, name: string)
    ensures GetAll(a + b, name) == GetAll(a, name) + GetAll(b, name)
  {
    if a == [] {
      assert a + b == b;
    } else {
      assert (a + b)[0] == a[0];
      assert (a + b)[1..] == a[1..] + b;
      GetAllAppendAt(a[1..], b, name);
    }
  }

  /** No entry gives no values, and one entry contributes its value exactly
      when its name matches; with `GetAllAppendAt` this fixes the order and
      the repeats of the result. */
  lemma GetAllOne(e: (string, string), name: string)
    ensures GetAll([], name) == []
    ensures GetAll([e], name) == if e.0 == name then [e.1] else []
  {
    assert [e][1..] == [];
  }

  /** The echoed record keeps the LAST value given for each name, so of a
      repeated name (the uploaded file list) only its final entry survives. */
  lemma {:induction false} FromEntriesKeepsLast(form: FormData, name: string)
    requires GetAll(form, name) != []
    ensures name in FromEntries(form)
    ensures FromEntries(form)[name] == GetAll(form, name)[|GetAll(form, name)| - 1]
    decreases |form|
  {
    var init := form[..|form| - 1];
    var last := form[|form| - 1];
    assert form == init + [last];
    assert FromEntries(form) == FromEntries(init)[last.0 := last.1];
    GetAllAppendAt(init, [last], name);
    GetAllOne(last, name);
    if last.0 != name {
      FromEntriesKeepsLast(init, name);
    }
  }
}
