/** The key-value store's record format, as both the mail parser (which writes
    release records) and the web handlers (which read them) see it. */
module Dynamo {
  import opened Wrappers

  /** One attribute of a stored record: a string (`S`), the explicit null marker
      (`NULL`), or any other kind of value (number, boolean, list, map, ...),
      which none of the modelled code writes and which carries no `S` field. */
  datatype AttributeValue = S(s: string) | Null(isNull: bool) | OtherKind

  /** A stored record: attribute name to attribute value. */
  type Item = map<string, AttributeValue>

  /** The TypeScript read `value.S`: the string of a string attribute,
      `undefined` for every other kind. */
  function SValue(v: AttributeValue): (r: Option<string>)
    ensures r.Some? <==> v.S?
    ensures v.S? ==> r == Some(v.s)
  {
    match v
    case S(s) => Some(s)
    case _ => None
  }

  /** The TypeScript expression `x || null` on an optional string: both
      `undefined` and the empty string are falsy and become `null`. */
  function OrNull(x: Option<string>): (r: Option<string>)
    ensures r.Some? <==> x.Some? && x.value != ""
    ensures r.Some? ==> r == x
  {
    if x.Some? && x.value != "" then x else None
  }

  /** A TypeError: `item[key]` was undefined and `.S` was read from it. */
  datatype Thrown = MissingAttribute(key: string)

  /** The TypeScript decoding idiom `item[key].S || null`: it throws when the
      attribute is absent, and gives null when it is present but holds no
      string or the empty string. */
  function Field(item: Item, key: string): (r: Result<Option<string>, Thrown>)
    ensures r.Err? <==> key !in item
    ensures r.Err? ==> r.error == MissingAttribute(key)
    ensures r.Ok? ==> (r.value.Some? <==> item[key].S? && item[key].s != "")
    ensures r.Ok? && r.value.Some? ==> r.value.value == item[key].s
  {
    if key !in item then Err(MissingAttribute(key)) else Ok(OrNull(SValue(item[key])))
  }
}
