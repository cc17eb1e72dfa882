/** Decoded JSON trees and paths into them. */
module JsonTree {
  import opened Prelude

  /** An integer, or the text of any other number. */
  datatype Number = Whole(n: int) | Literal(text: string)

  datatype Json =
    | Null
    | Bool(b: bool)
    | Num(number: Number)
    | Str(s: string)
    | Arr(items: seq<Json>)
    | Obj(fields: map<string, Json>)

  datatype Step = Key(k: string) | Index(i: nat)

  type Path = seq<Step>

  function Child(t: Json, h: Step): Option<Json> {
    if t.Obj? && h.Key? && h.k in t.fields then Some(t.fields[h.k])
    else if t.Arr? && h.Index? && h.i < |t.items| then Some(t.items[h.i])
    else None
  }
}
