/** What several modules need. */
module Basics {
  datatype Option<T> = None | Some(value: T)

  /** The list without its element at `i`. */
  function Drop<T>(s: seq<T>, i: nat): (r: seq<T>)
    requires i < |s|
    ensures |r| == |s| - 1
  {
    s[..i] + s[i + 1..]
  }

  /** The position of the first occurrence, or -1. */
  function FirstOf<T(==)>(s: seq<T>, x: T): (r: int)
    ensures -1 <= r < |s| && (r >= 0 ==> s[r] == x)
    ensures forall j :: 0 <= j < |s| && (r < 0 || j < r) ==> s[j] != x
  {
    if s == [] then -1 else if s[0] == x then 0
    else
      var r := FirstOf(s[1..], x);
      if r < 0 then -1 else r + 1
  }

  /** A map of lists, of which none is empty. */
  function PutList<K, V>(m: map<K, seq<V>>, k: K, l: seq<V>): map<K, seq<V>> {
    if l == [] then m - {k} else m[k := l]
  }

  // ---- C strings ----

  predicate NulFree(s: string) {
    '\0' !in s
  }

  type Text = s: string | NulFree(s)

  /** strlen and strcmp see what stands before the first NUL. */
  function CString(s: string): (r: Text)
    ensures |r| <= |s| && r == s[..|r|] && (|r| < |s| ==> s[|r|] == '\0')
  {
    if s == "" || s[0] == '\0' then "" else [s[0]] + CString(s[1..])
  }
}
