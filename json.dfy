/**
 * JSON values as `json.loads` and `JSON.parse` return them. An object
 * keeps its members in document order; when a key repeats, the last
 * member wins, as it does in both parsers. Numbers are integers.
 */
module Json {
  import opened Wrappers

  datatype Json =
    | Null
    | Bool(b: bool)
    | Num(n: int)
    | Str(s: string)
    | Arr(items: seq<Json>)
    | Obj(fields: seq<(string, Json)>)

  /** `key in obj`. */
  predicate HasKey(fields: seq<(string, Json)>, key: string)
  {
    exists i :: 0 <= i < |fields| && fields[i].0 == key
  }

  /** `obj.get(key)`: the value of the last member named `key`. */
  function Get(fields: seq<(string, Json)>, key: string): (r: Option<Json>)
    ensures r.Some? <==> HasKey(fields, key)
    ensures r.Some? ==> exists i :: 0 <= i < |fields| && fields[i] == (key, r.value)
  {
    if fields == [] then None
    else
      var n := |fields| - 1;
      if fields[n].0 == key then Some(fields[n].1)
      else
        var r := Get(fields[..n], key);
        assert forall i :: 0 <= i < n ==> fields[..n][i] == fields[i];
        assert HasKey(fields, key) ==> HasKey(fields[..n], key) by {
          if HasKey(fields, key) {
            var i :| 0 <= i < |fields| && fields[i].0 == key;
            assert i < n;
          }
        }
        r
  }

  /** A member no later member repeats is what a lookup of its key finds. */
  lemma {:induction false} GetLast(fields: seq<(string, Json)>, i: nat)
    requires i < |fields| && !HasKey(fields[i + 1..], fields[i].0)
    ensures Get(fields, fields[i].0) == Some(fields[i].1)
  {
    var n := |fields| - 1;
    if i < n {
      assert fields[i + 1..][n - i - 1] == fields[n];
      var later := fields[..n][i + 1..];
      forall j | 0 <= j < |later|
        ensures later[j].0 != fields[i].0
      {
        assert later[j] == fields[i + 1..][j];
      }
      GetLast(fields[..n], i);
    }
  }
}
