/** JSON values. The fields of an object are in insertion order, as JavaScript keeps them. */
module Json {

  datatype Json =
    | Null
    | Bool(b: bool)
    | Num(n: real)
    | Str(s: string)
    | Arr(items: seq<Json>)
    | Obj(fields: seq<Field>)

  datatype Field = Field(key: string, value: Json)

  /** The keys of all objects together. */
  function KeyCount(v: Json): nat
    decreases v
  {
    match v
    case Arr(items) => ItemKeyCount(items)
    case Obj(fields) => FieldKeyCount(fields)
    case _ => 0
  }

  function ItemKeyCount(items: seq<Json>): nat
    decreases items
  {
    if items == [] then 0 else KeyCount(items[0]) + ItemKeyCount(items[1..])
  }

  function FieldKeyCount(fields: seq<Field>): nat
    decreases fields
  {
    if fields == [] then 0 else 1 + KeyCount(fields[0].value) + FieldKeyCount(fields[1..])
  }
}
