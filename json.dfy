/**
 * A decoded JSON document, as `json_decode($body, TRUE)` hands it to the
 * result mapper: objects become string-keyed PHP arrays, lists become
 * integer-keyed ones. JSON numbers are integers in this model.
 */
module Json {
  import opened Wrappers

  datatype Value =
    | Null
    | Bool(b: bool)
    | Num(n: int)
    | Str(s: string)
    | Arr(items: seq<Value>)
    | Obj(members: seq<(string, Value)>)

  /** PHP truthiness of a decoded value: what `if(!$data)` tests. */
  predicate Truthy(v: Value) {
    match v
    case Null => false
    case Bool(b) => b
    case Num(n) => n != 0
    case Str(s) => s != "" && s != "0"
    case Arr(items) => items != []
    case Obj(members) => members != []
  }

  /** The value stored under `key` in an object's member list (first occurrence). */
  function Find(members: seq<(string, Value)>, key: string): (r: Option<Value>)
    ensures r.Some? ==> exists i :: 0 <= i < |members| && members[i] == (key, r.value)
    ensures r.None? <==> forall i :: 0 <= i < |members| ==> members[i].0 != key
  {
    if members == [] then None
    else if members[0].0 == key then Some(members[0].1)
    else Find(members[1..], key)
  }

  /**
   * `isset($v[key]) ? $v[key] : NULL`, and also what a plain `$v[key]`
   * yields: the value under `key` when `v` is an object holding a non-null
   * value there, and NULL (None) otherwise. A list has only integer keys,
   * so a name never finds anything in it.
   */
  function Lookup(v: Value, key: string): (r: Option<Value>)
    ensures r.Some? ==> r.value != Null && v.Obj? && exists i :: 0 <= i < |v.members| && v.members[i] == (key, r.value)
    ensures v.Obj? && (forall i :: 0 <= i < |v.members| ==> v.members[i].0 != key) ==> r.None?
  {
    match v
    case Obj(members) =>
      (match Find(members, key)
       case Some(Null) => None
       case found => found)
    case _ => None
  }

  /** The first member carrying `key` is the one found. */
  lemma {:induction false} FindFirst(members: seq<(string, Value)>, key: string, i: nat)
    requires i < |members| && members[i].0 == key
    requires forall j :: 0 <= j < i ==> members[j].0 != key
    ensures Find(members, key) == Some(members[i].1)
  {
    if i > 0 {
      FindFirst(members[1..], key, i - 1);
    }
  }

  /**
   * The other direction of `isset`: a non-null value an object holds under
   * `key` (at the key's first occurrence) is what a read yields.
   */
  lemma LookupFinds(v: Value, key: string, i: nat)
    requires v.Obj? && i < |v.members| && v.members[i].0 == key && v.members[i].1 != Null
    requires forall j :: 0 <= j < i ==> v.members[j].0 != key
    ensures Lookup(v, key) == Some(v.members[i].1)
  {
    FindFirst(v.members, key, i);
  }

  /** The values PHP converts to FALSE, listed one by one: every other value is truthy. */
  lemma FalsyValues(v: Value)
    ensures !Truthy(v) <==>
              || v == Null || v == Bool(false) || v == Num(0) || v == Str("") || v == Str("0")
              || v == Arr([]) || v == Obj([])
  {
  }

  /**
   * The values a PHP `foreach` visits, in order. A NULL or scalar operand
   * makes `foreach` warn and run no iteration.
   */
  function Elements(o: Option<Value>): (r: seq<Value>)
    ensures o.Some? && o.value.Arr? ==> r == o.value.items
    ensures o.Some? && o.value.Obj? ==> |r| == |o.value.members| && forall i :: 0 <= i < |r| ==> r[i] == o.value.members[i].1
    ensures o.None? || !(o.value.Arr? || o.value.Obj?) ==> r == []
  {
    match o
    case Some(Arr(items)) => items
    case Some(Obj(members)) => seq(|members|, i requires 0 <= i < |members| => members[i].1)
    case _ => []
  }
}
