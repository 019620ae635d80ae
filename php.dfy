/** The optional-value wrapper used throughout: `None` stands for PHP's `null`. */
module Wrappers {
  datatype Option<+T> = None | Some(value: T)
}

/**
 * The PHP built-ins the middleware leans on, as values: ordered arrays
 * (insertion-ordered maps whose overwritten keys keep their position),
 * `empty` on strings, `explode`, `implode` and `array_fill`.
 */
module Php {
  import opened Wrappers

  // ---------------------------------------------------------------- arrays

  /** An ordered PHP array with string keys, as its key/value pairs in iteration order. */
  type OrderedArray<V> = seq<(string, V)>

  /** `array_keys`: the keys in iteration order. */
  function Keys<V>(a: OrderedArray<V>): (ks: seq<string>)
    ensures |ks| == |a|
    ensures forall i :: 0 <= i < |a| ==> ks[i] == a[i].0
  {
    if a == [] then [] else [a[0].0] + Keys(a[1..])
  }

  /** `array_values`: the values in iteration order. */
  function Values<V>(a: OrderedArray<V>): (vs: seq<V>)
    ensures |vs| == |a|
    ensures forall i :: 0 <= i < |a| ==> vs[i] == a[i].1
  {
    if a == [] then [] else [a[0].1] + Values(a[1..])
  }

  /** Keys and values of an array with one more pair at the end. */
  lemma KeysValuesAppend<V>(a: OrderedArray<V>, k: string, v: V)
    ensures Keys(a + [(k, v)]) == Keys(a) + [k]
    ensures Values(a + [(k, v)]) == Values(a) + [v]
  {
  }

  /** Two sequences extended by two of equal length: the appended elements keep their pairing. */
  lemma AppendedAligned<K, V>(fixedKeys: seq<K>, fixedValues: seq<V>, ks: seq<K>, vs: seq<V>)
    requires |fixedKeys| == |fixedValues| && |ks| == |vs|
    ensures |fixedKeys + ks| == |fixedValues + vs|
    ensures forall i :: |fixedKeys| <= i < |fixedValues + vs| ==>
              (fixedKeys + ks)[i] == ks[i - |fixedKeys|] && (fixedValues + vs)[i] == vs[i - |fixedKeys|]
  {
  }

  /** `$a[$k]` read: the value stored under `k`, if `k` is a key. */
  function Lookup<V>(a: OrderedArray<V>, k: string): Option<V> {
    if a == [] then None
    else if a[0].0 == k then Some(a[0].1)
    else Lookup(a[1..], k)
  }

  /** `$a[$k] = $v`: an existing key is overwritten where it stands, a new key goes last. */
  function Put<V>(a: OrderedArray<V>, k: string, v: V): OrderedArray<V> {
    if a == [] then [(k, v)]
    else if a[0].0 == k then [(k, v)] + a[1..]
    else [a[0]] + Put(a[1..], k, v)
  }

  /** A key is found exactly when it is one of the keys. */
  lemma {:induction false} LookupFindsKeys<V>(a: OrderedArray<V>, k: string)
    ensures Lookup(a, k).Some? <==> k in Keys(a)
  {
    if a != [] {
      LookupFindsKeys(a[1..], k);
      assert Keys(a) == [a[0].0] + Keys(a[1..]);
    }
  }

  /** After `Put(a, k, v)`, `k` reads `v` and every other key reads what it read before. */
  lemma {:induction false} LookupPut<V>(a: OrderedArray<V>, k: string, v: V, j: string)
    ensures Lookup(Put(a, k, v), j) == if j == k then Some(v) else Lookup(a, j)
  {
    if a != [] && a[0].0 != k {
      LookupPut(a[1..], k, v, j);
    }
  }

  /** The keys of `Put(a, k, v)`: unchanged when `k` was present, otherwise `k` appended. */
  lemma {:induction false} KeysPut<V>(a: OrderedArray<V>, k: string, v: V)
    ensures Keys(Put(a, k, v)) == if k in Keys(a) then Keys(a) else Keys(a) + [k]
  {
    if a != [] && a[0].0 != k {
      KeysPut(a[1..], k, v);
      assert Keys(a) == [a[0].0] + Keys(a[1..]);
    }
  }

  /** Putting a key that is not present appends one pair. */
  lemma {:induction false} PutFresh<V>(a: OrderedArray<V>, k: string, v: V)
    requires k !in Keys(a)
    ensures Put(a, k, v) == a + [(k, v)]
  {
    if a != [] {
      assert a[0].0 == Keys(a)[0];
      assert Keys(a[1..]) == Keys(a)[1..];
      PutFresh(a[1..], k, v);
      calc {
        Put(a, k, v);
        [a[0]] + Put(a[1..], k, v);
        [a[0]] + (a[1..] + [(k, v)]);
        { assert a == [a[0]] + a[1..]; }
        a + [(k, v)];
      }
    }
  }

  /** No element occurs twice. */
  predicate Distinct(s: seq<string>) {
    forall i, j :: 0 <= i < j < |s| ==> s[i] != s[j]
  }

  /** The elements of `s` in order of first occurrence, each once. */
  function FirstOccurrences(s: seq<string>): (r: seq<string>)
    ensures Distinct(r)
    ensures forall x :: x in r <==> x in s
  {
    if s == [] then []
    else
      var prior := FirstOccurrences(s[..|s| - 1]);
      var x := s[|s| - 1];
      assert s == s[..|s| - 1] + [x];
      if x in prior then prior else prior + [x]
  }

  /** A sequence whose elements are distinct is its own first-occurrence list. */
  lemma {:induction false} FirstOccurrencesOfDistinct(s: seq<string>)
    requires Distinct(s)
    ensures FirstOccurrences(s) == s
  {
    if s != [] {
      var init := s[..|s| - 1];
      assert Distinct(init);
      FirstOccurrencesOfDistinct(init);
      assert s[|s| - 1] !in init;
      assert init + [s[|s| - 1]] == s;
    }
  }

  // --------------------------------------------------------------- strings

  /** PHP's `empty` on a string: true for `""` and for `"0"`. */
  predicate EmptyString(s: string) {
    s == "" || s == "0"
  }

  /** `explode(sep, s)` for a one-character separator: the pieces between separators. */
  function Explode(sep: char, s: string): (pieces: seq<string>)
    ensures |pieces| >= 1
    ensures forall i :: 0 <= i < |pieces| ==> sep !in pieces[i]
  {
    if s == [] then [""]
    else
      var rest := Explode(sep, s[1..]);
      if s[0] == sep then [""] + rest
      else [[s[0]] + rest[0]] + rest[1..]
  }

  /** `implode(sep, items)`: the items with `sep` between neighbours. */
  function Implode(sep: string, items: seq<string>): (r: string)
  {
    if items == [] then ""
    else if |items| == 1 then items[0]
    else items[0] + sep + Implode(sep, items[1..])
  }

  /** A character in neither the separator nor any item is not in their join. */
  lemma {:induction false} ImplodeWithout(c: char, sep: string, items: seq<string>)
    requires c !in sep
    requires forall i :: 0 <= i < |items| ==> c !in items[i]
    ensures c !in Implode(sep, items)
  {
    if |items| > 1 {
      ImplodeWithout(c, sep, items[1..]);
      assert c !in items[0];
    } else if |items| == 1 {
      assert c !in items[0];
    }
  }

  /** `array_fill(0, n, x)`. */
  function Fill(n: nat, x: string): (r: seq<string>)
    ensures |r| == n
    ensures forall i :: 0 <= i < n ==> r[i] == x
  {
    seq(n, _ => x)
  }

  /** Joining the pieces of `explode` with the separator gives back the input. */
  lemma {:induction false} ImplodeExplode(sep: char, s: string)
    ensures Implode([sep], Explode(sep, s)) == s
  {
    if s != [] {
      var rest := Explode(sep, s[1..]);
      ImplodeExplode(sep, s[1..]);
      if s[0] == sep {
        assert s == [sep] + s[1..];
      } else if |rest| == 1 {
        assert s == [s[0]] + s[1..];
      } else {
        assert ([[s[0]] + rest[0]] + rest[1..])[1..] == rest[1..];
        assert s == [s[0]] + s[1..];
      }
    }
  }

  /** Conversely, exploding a join of separator-free pieces gives back the pieces. */
  lemma {:induction false} ExplodeImplode(sep: char, pieces: seq<string>)
    requires |pieces| >= 1
    requires forall i :: 0 <= i < |pieces| ==> sep !in pieces[i]
    ensures Explode(sep, Implode([sep], pieces)) == pieces
    decreases |pieces|, |pieces[0]|
  {
    var p := pieces[0];
    if p == [] {
      if |pieces| > 1 {
        ExplodeImplode(sep, pieces[1..]);
        assert Implode([sep], pieces) == [sep] + Implode([sep], pieces[1..]);
        assert pieces == [""] + pieces[1..];
      }
    } else {
      var shorter := [p[1..]] + pieces[1..];
      assert sep !in p[1..] by { assert forall c :: c in p[1..] ==> c in p; }
      ExplodeImplode(sep, shorter);
      if |pieces| == 1 {
        assert Implode([sep], pieces) == p;
        assert Implode([sep], shorter) == p[1..];
      } else {
        assert Implode([sep], pieces) == p + [sep] + Implode([sep], pieces[1..]);
        assert Implode([sep], shorter) == p[1..] + [sep] + Implode([sep], pieces[1..]);
      }
      var joined := Implode([sep], pieces);
      assert joined[0] == p[0] && joined[1..] == Implode([sep], shorter);
      assert p[0] != sep by { assert p[0] in p; }
      assert [p[0]] + p[1..] == p;
      assert [p] + pieces[1..] == pieces;
    }
  }
}
