/** Failure-free and failing results shared by the whole model. */
module Wrappers {

  datatype Option<+T> = None | Some(value: T) {
    function GetOr(default: T): T {
      if Some? then value else default
    }
  }

  datatype Result<+T> = Ok(value: T) | Err(error: string)

  /** A map entry as an optional value: absent keys read as None. */
  function Lookup<K, V>(m: map<K, V>, k: K): Option<V> {
    if k in m then Some(m[k]) else None
  }

  /** Writes an optional value back: None deletes the key. */
  function Store<K, V>(m: map<K, V>, k: K, v: Option<V>): map<K, V> {
    match v
    case None => m - {k}
    case Some(x) => m[k := x]
  }

  /** The last n elements of s, or all of s when it is shorter. */
  function LastN<T>(s: seq<T>, n: nat): (r: seq<T>)
    ensures |r| <= n
    ensures |s| <= n ==> r == s
  {
    if |s| > n then s[|s| - n..] else s
  }

  ghost function AnyOf<T>(s: set<T>): (x: T)
    requires s != {}
    ensures x in s
  {
    var x :| x in s;
    x
  }

  /** A text whose last part is free of the separator determines both parts. */
  lemma LastCutUnique(a: string, b: string, a': string, b': string, c: char)
    requires c !in b && c !in b' && a + [c] + b == a' + [c] + b'
    ensures a == a' && b == b'
  {
    var k := a + [c] + b;
    assert k[|a|] == c && k[|a'|] == c;
    assert forall i :: |a| < i < |k| ==> k[i] == b[i - |a| - 1];
    assert forall i :: |a'| < i < |k| ==> k[i] == b'[i - |a'| - 1];
    assert |a| == |a'|;
    assert k[..|a|] == a && k[..|a'|] == a';
    assert k[|a| + 1..] == b && k[|a'| + 1..] == b';
  }
}
