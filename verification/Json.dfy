/** JSON values, paths into them, and erasure of evidence handles. */
module Json {
  import opened Options
  import opened Text

  datatype Value =
    | Null
    | Bool(flag: bool)
    | Num(number: real)
    | Str(text: string)
    | Arr(items: seq<Value>)
    | Obj(fields: Fields)

  type Fields = map<string, Value>

  /** `mapping.get(key)`: an absent key reads as null. */
  function Get(m: Fields, key: string): Value {
    if key in m then m[key] else Null
  }

  /** The items of a list; anything else has none. */
  function Items(v: Value): seq<Value> {
    match v
    case Arr(items) => items
    case _ => []
  }

  /** The objects in a list, in order. */
  function ObjectsAmong(items: seq<Value>): seq<Fields> {
    if items == [] then []
    else
      var last := items[|items| - 1];
      ObjectsAmong(items[..|items| - 1]) + if last.Obj? then [last.fields] else []
  }

  lemma {:induction false} AllObjects(items: seq<Value>)
    requires forall i :: 0 <= i < |items| ==> items[i].Obj?
    ensures |ObjectsAmong(items)| == |items|
    ensures forall i :: 0 <= i < |items| ==> ObjectsAmong(items)[i] == items[i].fields
  {
    if items != [] {
      AllObjects(items[..|items| - 1]);
    }
  }

  datatype Step = Key(key: string) | Index(index: nat)

  type Path = seq<Step>

  function At(v: Value, p: Path): Option<Value>
    decreases |p|
  {
    if p == [] then Some(v)
    else match p[0]
      case Key(k) => if v.Obj? && k in v.fields then At(v.fields[k], p[1..]) else None
      case Index(i) => if v.Arr? && i < |v.items| then At(v.items[i], p[1..]) else None
  }

  /** The path text used in findings: `.key` and `[index]` appended step by step. */
  function PrintSteps(p: Path): string
    decreases |p|
  {
    if p == [] then ""
    else match p[0]
      case Key(k) => "." + k + PrintSteps(p[1..])
      case Index(i) => "[" + Decimal(i) + "]" + PrintSteps(p[1..])
  }

  const HANDLE_KEY: string := "evidence_chunk_id"

  /** Paths that never enter the value of an `evidence_chunk_id` key. */
  ghost predicate HandleFree(p: Path) {
    Key(HANDLE_KEY) !in p
  }

  /** The value without any `evidence_chunk_id` key, at any depth. */
  function Erase(v: Value): Value {
    match v
    case Obj(m) => Obj(map k | k in m && k != HANDLE_KEY :: Erase(m[k]))
    case Arr(s) => Arr(seq(|s|, i requires 0 <= i < |s| => Erase(s[i])))
    case _ => v
  }

  lemma AtAppend(v: Value, p: Path, q: Path)
    ensures At(v, p + q) == match At(v, p) case Some(w) => At(w, q) case None => None
    decreases |p|
  {
    if p == [] {
      assert p + q == q;
    } else {
      assert (p + q)[0] == p[0] && (p + q)[1..] == p[1..] + q;
      match p[0]
      case Key(k) => if v.Obj? && k in v.fields { AtAppend(v.fields[k], p[1..], q); }
      case Index(i) => if v.Arr? && i < |v.items| { AtAppend(v.items[i], p[1..], q); }
    }
  }
}
