/** JSON as cJSON hands it out; its text form is not part of this model. */
module JsonValues {
  import opened Basics
  import opened CText

  datatype Json = Str(text: string) | Num(number: real) | Obj(fields: seq<Field>) | Arr(items: seq<Json>) | Other
  datatype Field = Field(name: string, value: Json)

  predicate SameNoCase(a: string, b: string) {
    |a| == |b| && StartsNoCase(a, b)
  }

  predicate Named(f: Field, name: string, exact: bool) {
    if exact then f.name == name else SameNoCase(f.name, name)
  }

  /** cJSON_GetObjectItemCaseSensitive, and cJSON_GetObjectItem, which ignores case. */
  function Item(fields: seq<Field>, name: string, exact: bool): Option<Json> {
    if fields == [] then None
    else if Named(fields[0], name, exact) then Some(fields[0].value)
    else Item(fields[1..], name, exact)
  }

  /** The first field of that name has that value. */
  ghost predicate Holds(fields: seq<Field>, name: string, exact: bool, value: Json) {
    exists k :: IsFirst(fields, name, exact, k) && fields[k].value == value
  }

  ghost predicate IsFirst(fields: seq<Field>, name: string, exact: bool, k: int) {
    0 <= k < |fields| && Named(fields[k], name, exact) && forall j :: 0 <= j < k ==> !Named(fields[j], name, exact)
  }

  ghost predicate HasNone(fields: seq<Field>, name: string, exact: bool) {
    forall k :: 0 <= k < |fields| ==> !Named(fields[k], name, exact)
  }

  /** A lookup finds the value of the first field of the name, wherever it stands and
      whatever else there is, and nothing only if there is no such field. */
  lemma {:induction false} ItemIsFirst(fields: seq<Field>, name: string, exact: bool, value: Json)
    ensures Item(fields, name, exact) == Some(value) <==> Holds(fields, name, exact, value)
    ensures Item(fields, name, exact) == None <==> HasNone(fields, name, exact)
  {
    hide Named;
    if fields != [] {
      var rest := fields[1..];
      ItemIsFirst(rest, name, exact, value);
      if Named(fields[0], name, exact) {
        assert IsFirst(fields, name, exact, 0);
        assert forall k :: IsFirst(fields, name, exact, k) ==> k == 0;
      } else {
        forall k | 0 <= k < |rest| ensures IsFirst(fields, name, exact, k + 1) <==> IsFirst(rest, name, exact, k) {
          assert forall j :: 1 <= j <= k ==> fields[j] == rest[j - 1];
        }
        if k :| IsFirst(fields, name, exact, k) && fields[k].value == value {
          assert k > 0 && IsFirst(rest, name, exact, k - 1) && rest[k - 1].value == value;
        }
        if k :| IsFirst(rest, name, exact, k) && rest[k].value == value {
          assert IsFirst(fields, name, exact, k + 1) && fields[k + 1].value == value;
        }
      }
    }
  }

  function ItemOf(json: Json, name: string, exact: bool): Option<Json> {
    if json.Obj? then Item(json.fields, name, exact) else None
  }

  predicate IsStr(item: Option<Json>) { item.Some? && item.value.Str? }
  predicate IsNum(item: Option<Json>) { item.Some? && item.value.Num? }

  /** A string that is not empty. */
  predicate IsText(item: Option<Json>) { IsStr(item) && item.value.text != "" }
}
