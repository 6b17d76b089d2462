/**
 * JSON values as `serde_json::Value` holds them after parsing. Text is not
 * parsed here: parsing and printing are done by the JSON library and their
 * outcomes are parameters. An object's members are listed in the library's
 * iteration order with distinct keys.
 */
module Json {
  import opened Wrappers

  datatype Value =
    | Null
    | Bool(b: bool)
    | Number(n: int)
    | Str(s: string)
    | Array(items: seq<Value>)
    | Object(members: seq<(string, Value)>)

  /** `Value::get` with a key: the member's value on an object holding the key, else `None`. */
  function GetKey(v: Value, key: string): (r: Option<Value>)
    ensures r.Some? ==> v.Object? && exists i :: 0 <= i < |v.members| && v.members[i] == (key, r.value)
    ensures v.Object? && (forall i :: 0 <= i < |v.members| ==> v.members[i].0 != key) ==> r.None?
  {
    if v.Object? then Member(v.members, key) else None
  }

  function Member(members: seq<(string, Value)>, key: string): (r: Option<Value>)
    ensures r.Some? ==> exists i :: 0 <= i < |members| && members[i] == (key, r.value)
    ensures (forall i :: 0 <= i < |members| ==> members[i].0 != key) <==> r.None?
    decreases |members|
  {
    if members == [] then None
    else if members[0].0 == key then Some(members[0].1)
    else
      var r := Member(members[1..], key);
      assert r.Some? ==> exists i :: 0 <= i < |members[1..]| && members[1..][i] == (key, r.value);
      assert forall i :: 0 < i < |members| ==> members[i] == members[1..][i - 1];
      r
  }

  /** With no earlier member of the same key, lookup finds member `i`. */
  lemma {:induction false} MemberAt(members: seq<(string, Value)>, i: nat)
    requires i < |members| && forall j :: 0 <= j < i ==> members[j].0 != members[i].0
    ensures Member(members, members[i].0) == Some(members[i].1)
    decreases i
  {
    if i > 0 {
      MemberAt(members[1..], i - 1);
    }
  }

  /** `Value::as_str`. */
  function AsStr(v: Option<Value>): Option<string>
  {
    if v.Some? && v.value.Str? then Some(v.value.s) else None
  }
}
