/** The ini dictionary of src/shared/dictionary.c: parallel slot arrays that are
    searched linearly and doubled when full. Any hash function will do. */
module Dictionaries {
  import opened Basics

  const DICTMINSZ := 128

  ghost function Occupied(s: seq<Option<string>>): (c: nat)
    ensures c <= |s|
  {
    if s == [] then 0 else (if s[0] == None then 0 else 1) + Occupied(s[1..])
  }

  lemma {:induction false} OccupiedUpdate(s: seq<Option<string>>, i: nat, x: Option<string>)
    requires i < |s|
    ensures Occupied(s[i := x]) == Occupied(s) - (if s[i] == None then 0 else 1) + (if x == None then 0 else 1)
  {
    if i == 0 {
      assert s[i := x][1..] == s[1..];
    } else {
      assert s[i := x][1..] == s[1..][i - 1 := x];
      OccupiedUpdate(s[1..], i - 1, x);
    }
  }

  lemma {:induction false} OccupiedPadded(s: seq<Option<string>>, t: seq<Option<string>>)
    requires forall i :: 0 <= i < |t| ==> t[i] == None
    ensures Occupied(s + t) == Occupied(s)
  {
    if s != [] {
      assert (s + t)[1..] == s[1..] + t;
      OccupiedPadded(s[1..], t);
    } else {
      assert s + t == t;
      if t != [] {
        OccupiedPadded([], t[1..]);
        assert [] + t[1..] == t[1..];
      }
    }
  }

  /** Fewer occupied slots than slots: one of them is free. */
  lemma {:induction false} FreeSlot(s: seq<Option<string>>) returns (f: nat)
    requires Occupied(s) < |s|
    ensures f < |s| && s[f] == None
  {
    if s[0] == None {
      f := 0;
    } else {
      f := FreeSlot(s[1..]);
      f := f + 1;
    }
  }

  /** The slots hold exactly the pairs of `m`, each key once, with its hash. */
  ghost predicate Holds(ks: seq<Option<string>>, vs: seq<Option<string>>, hs: seq<nat>,
                        m: map<string, Option<string>>, hashOf: string -> nat) {
    && |ks| == |vs| == |hs|
    && (forall i :: 0 <= i < |ks| && ks[i] != None ==>
      ks[i].value in m && vs[i] == m[ks[i].value] && hs[i] == hashOf(ks[i].value))
    && (forall i, j :: 0 <= i < j < |ks| && ks[i] != None ==> ks[i] != ks[j])
    && (forall k :: k in m ==> Some(k) in ks)
  }

  lemma HoldsValue(ks: seq<Option<string>>, vs: seq<Option<string>>, hs: seq<nat>,
                   m: map<string, Option<string>>, hashOf: string -> nat, i: nat, v: Option<string>)
    requires Holds(ks, vs, hs, m, hashOf) && i < |ks| && ks[i] != None
    ensures Holds(ks, vs[i := v], hs, m[ks[i].value := v], hashOf)
  {
  }

  lemma HoldsKey(ks: seq<Option<string>>, vs: seq<Option<string>>, hs: seq<nat>,
                 m: map<string, Option<string>>, hashOf: string -> nat, i: nat, k: string, v: Option<string>)
    requires Holds(ks, vs, hs, m, hashOf) && i < |ks| && ks[i] == None && k !in m
    ensures Holds(ks[i := Some(k)], vs[i := v], hs[i := hashOf(k)], m[k := v], hashOf)
  {
    var ks' := ks[i := Some(k)];
    forall x | x in m[k := v] ensures Some(x) in ks' {
      if x == k {
        assert ks'[i] == Some(k);
      } else {
        var j :| 0 <= j < |ks| && ks[j] == Some(x);
        assert ks'[j] == Some(x);
      }
    }
  }

  lemma HoldsLess(ks: seq<Option<string>>, vs: seq<Option<string>>, hs: seq<nat>,
                  m: map<string, Option<string>>, hashOf: string -> nat, i: nat)
    requires Holds(ks, vs, hs, m, hashOf) && i < |ks| && ks[i] != None
    ensures Holds(ks[i := None], vs[i := None], hs[i := 0], m - {ks[i].value}, hashOf)
  {
    var ks' := ks[i := None];
    forall x | x in m && x != ks[i].value ensures Some(x) in ks' {
      var j :| 0 <= j < |ks| && ks[j] == Some(x);
      assert ks'[j] == Some(x);
    }
  }

  lemma HoldsPadded(ks: seq<Option<string>>, vs: seq<Option<string>>, hs: seq<nat>,
                    m: map<string, Option<string>>, hashOf: string -> nat,
                    kp: seq<Option<string>>, vp: seq<Option<string>>, hp: seq<nat>)
    requires Holds(ks, vs, hs, m, hashOf) && |kp| == |vp| == |hp| && forall i :: 0 <= i < |kp| ==> kp[i] == None
    ensures Holds(ks + kp, vs + vp, hs + hp, m, hashOf)
  {
    var ks' := ks + kp;
    forall k | k in m ensures Some(k) in ks' {
      var j :| 0 <= j < |ks| && ks[j] == Some(k);
      assert ks'[j] == Some(k);
    }
  }

  class Dictionary {
    var n: nat
    var size: nat
    var val: array<Option<string>>
    var key: array<Option<string>>
    var hash: array<nat>
    const hashOf: string -> nat
    ghost var contents: map<string, Option<string>>

    ghost predicate Valid()
      reads this, key, val, hash
    {
      && size == key.Length == val.Length == hash.Length && size >= DICTMINSZ
      && key != val
      && n == Occupied(key[..])
      && Holds(key[..], val[..], hash[..], contents, hashOf)
    }

    constructor (size: nat, hashOf: string -> nat)
      ensures Valid() && contents == map[] && fresh(key) && fresh(val) && fresh(hash)
      ensures this.hashOf == hashOf && this.size == if size < DICTMINSZ then DICTMINSZ else size
    {
      var sz := if size < DICTMINSZ then DICTMINSZ else size;
      this.size, n := sz, 0;
      this.hashOf := hashOf;
      val := new Option<string>[sz](_ => None);
      key := new Option<string>[sz](_ => None);
      hash := new nat[sz](_ => 0);
      contents := map[];
      new;
      OccupiedPadded([], key[..]);
      assert [] + key[..] == key[..];
    }

    /** The slot of a key, or `size`: the scan that get, set and unset share. */
    method Locate(k: string) returns (i: nat)
      requires Valid()
      ensures k in contents ==> i < size && key[i] == Some(k)
      ensures k !in contents ==> i == size
    {
      var h := hashOf(k);
      i := 0;
      while i < size
        invariant i <= size
        invariant Some(k) !in key[..i]
      {
        if key[i] != None {
          assert key[..][i] == key[i] && hash[..][i] == hash[i];
          if h == hash[i] {
            if k == key[i].value {
              return;
            }
          }
        }
        i := i + 1;
      }
      assert key[..i] == key[..];
    }

    method Get(k: string, def: Option<string>) returns (r: Option<string>)
      requires Valid()
      ensures r == if k in contents then contents[k] else def
    {
      var i := Locate(k);
      if i < size {
        assert key[..][i] == key[i] && val[..][i] == val[i];
        return val[i];
      }
      r := def;
    }

    /** Adds or overwrites a key; the value may be NULL. */
    method Set(k: string, v: Option<string>) returns (r: int)
      requires Valid()
      modifies this, key, val, hash
      ensures Valid() && r == 0 && contents == old(contents)[k := v]
      ensures n == old(n) + if k in old(contents) then 0 else 1
      ensures size == if k !in old(contents) && old(n) == old(size) then 2 * old(size) else old(size)
      ensures (key == old(key) && val == old(val) && hash == old(hash)) || (fresh(key) && fresh(val) && fresh(hash))
    {
      hide Holds, Occupied;
      if n > 0 {
        var i := Locate(k);
        if i < size {
          HoldsValue(key[..], val[..], hash[..], contents, hashOf, i, v);
          val[i] := v;
          contents := contents[k := v];
          return 0;
        }
      } else {
        NothingHeld(key[..], val[..], hash[..], contents, hashOf);
      }
      if n == size {
        Grow();
      }
      var i := FreeFrom(n);
      OccupiedUpdate(key[..], i, Some(k));
      HoldsKey(key[..], val[..], hash[..], contents, hashOf, i, k, v);
      key[i] := Some(k);
      val[i] := v;
      hash[i] := hashOf(k);
      n := n + 1;
      contents := contents[k := v];
      return 0;
    }

    /** mem_double on the three arrays. */
    method Grow()
      requires Valid()
      modifies this`key, this`val, this`hash, this`size
      ensures Valid() && size == 2 * old(size) && fresh(key) && fresh(val) && fresh(hash)
    {
      hide Holds, Occupied;
      var k := Double(key, None);
      var v := Double(val, None);
      var h := Double(hash, 0);
      OccupiedPadded(key[..], k[size..]);
      HoldsPadded(key[..], val[..], hash[..], contents, hashOf, k[size..], v[size..], h[size..]);
      val, key, hash, size := v, k, h, 2 * size;
    }

    /** The search for a free slot, from `start` on and around the end. It stops
        because fewer than `size` slots are occupied. */
    method FreeFrom(start: nat) returns (i: nat)
      requires Valid() && n < size && start < size
      ensures Valid() && i < size && key[i] == None
    {
      ghost var f := FreeSlot(key[..]);
      i := start;
      while key[i] != None
        invariant i < size
        decreases if i <= f then f - i else size - i + f
      {
        i := i + 1;
        if i == size {
          i := 0;
        }
      }
    }

    method Unset(k: string)
      requires Valid()
      modifies this`contents, this`n, key, val, hash
      ensures Valid() && contents == old(contents) - {k}
      ensures n == old(n) - if k in old(contents) then 1 else 0
    {
      hide Holds, Occupied;
      var i := Locate(k);
      if i >= size {
        return;
      }
      OccupiedUpdate(key[..], i, None);
      HoldsLess(key[..], val[..], hash[..], contents, hashOf, i);
      key[i] := None;
      val[i] := None;
      hash[i] := 0;
      n := n - 1;
      contents := contents - {k};
    }
  }

  /** calloc twice the size, copy the old part. */
  method Double<T>(a: array<T>, zero: T) returns (b: array<T>)
    ensures fresh(b) && b.Length == 2 * a.Length && b[..] == a[..] + b[a.Length..]
    ensures forall i :: 0 <= i < a.Length ==> b[a.Length..][i] == zero
  {
    b := new T[2 * a.Length](_ => zero);
    forall i | 0 <= i < a.Length {
      b[i] := a[i];
    }
  }

  /** With no slot occupied there is no key. */
  lemma {:induction false} NothingHeld(ks: seq<Option<string>>, vs: seq<Option<string>>, hs: seq<nat>,
                                       m: map<string, Option<string>>, hashOf: string -> nat)
    requires Holds(ks, vs, hs, m, hashOf) && Occupied(ks) == 0
    ensures m == map[]
  {
    NoneOccupied(ks);
  }

  lemma {:induction false} NoneOccupied(s: seq<Option<string>>)
    requires Occupied(s) == 0
    ensures forall i :: 0 <= i < |s| ==> s[i] == None
  {
    if s != [] {
      NoneOccupied(s[1..]);
      assert forall i :: 1 <= i < |s| ==> s[i] == s[1..][i - 1];
    }
  }
}
