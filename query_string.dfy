/**
 * `proper_parse_str`: a query string split on `&`, each piece split on its
 * first `=`, collected into an ordered array in which a name seen again
 * turns its scalar value into a list of every value seen. A piece without
 * `=` stores null, and since `isset` is false on null, a later piece with
 * the same name overwrites that null instead of starting a list.
 */
module QueryString {
  import opened Wrappers
  import opened Php

  /** The value kept under one name: one value, or the list of all values once the name repeats. `None` is null. */
  datatype Entry = Scalar(value: Option<string>) | Many(values: seq<Option<string>>)

  /** The parser's result: the empty string for an empty input, otherwise the ordered array. */
  datatype Query = Blank | Fields(fields: OrderedArray<Entry>)

  /** `list($name, $value) = explode('=', $piece, 2)`: the name before the first `=` and the value after it; no `=` leaves the value null. */
  function SplitPair(piece: string): (r: (string, Option<string>))
    ensures '=' !in r.0
    ensures r.1.None? <==> '=' !in piece
    ensures r.1.None? ==> r.0 == piece
    ensures r.1.Some? ==> r.0 + "=" + r.1.value == piece
  {
    if piece == [] then ("", None)
    else if piece[0] == '=' then ("", Some(piece[1..]))
    else
      var rest := SplitPair(piece[1..]);
      assert piece == [piece[0]] + piece[1..];
      ([piece[0]] + rest.0, rest.1)
  }

  /** A piece written as `name=value` with an `=`-free name splits back into that name and value. */
  lemma {:induction false} SplitPairOfPair(name: string, value: string)
    requires '=' !in name
    ensures SplitPair(name + "=" + value) == (name, Some(value))
  {
    if name != [] {
      assert name[0] in name;
      assert '=' !in name[1..] by { assert forall c :: c in name[1..] ==> c in name; }
      SplitPairOfPair(name[1..], value);
      assert (name + "=" + value)[1..] == name[1..] + "=" + value;
      assert [name[0]] + name[1..] == name;
    } else {
      assert name + "=" + value == "=" + value;
    }
  }

  /** `isset($arr[$name])`: the name is a key and its value is not null. */
  predicate IsSet(arr: OrderedArray<Entry>, name: string) {
    Lookup(arr, name).Some? && Lookup(arr, name).value != Scalar(None)
  }

  /**
   * What the loop body stores under a name, given what was there before: a
   * list exactly when the name was set, that is a key holding a non-null
   * value. A list keeps the earlier values and ends with the new one.
   */
  function Absorb(prior: Option<Entry>, value: Option<string>): (e: Entry)
    ensures e.Many? <==> prior.Some? && prior.value != Scalar(None)
    ensures e.Scalar? ==> e.value == value
    ensures e.Many? ==> |e.values| >= 1 && e.values[|e.values| - 1] == value
    ensures e.Many? && prior.value.Many? ==> e.values[..|e.values| - 1] == prior.value.values
    ensures e.Many? && prior.value.Scalar? ==> e.values == [prior.value.value, value]
  {
    match prior
    case Some(Many(vs)) => Many(vs + [value])
    case Some(Scalar(Some(v))) => Many([Some(v), value])
    case _ => Scalar(value)
  }

  /** The array after one more piece. */
  function Step(arr: OrderedArray<Entry>, piece: string): OrderedArray<Entry> {
    var (name, value) := SplitPair(piece);
    Put(arr, name, Absorb(Lookup(arr, name), value))
  }

  /**
   * One more piece: its name is appended when new and keeps its place
   * otherwise, it takes the entry `Absorb` makes of the old one, and every
   * other name keeps its entry.
   */
  lemma StepEffect(arr: OrderedArray<Entry>, piece: string)
    ensures var name := SplitPair(piece).0;
      Keys(Step(arr, piece)) == if name in Keys(arr) then Keys(arr) else Keys(arr) + [name]
    ensures var (name, value) := SplitPair(piece);
      Lookup(Step(arr, piece), name) == Some(Absorb(Lookup(arr, name), value))
    ensures forall other :: other != SplitPair(piece).0 ==> Lookup(Step(arr, piece), other) == Lookup(arr, other)
  {
    var (name, value) := SplitPair(piece);
    var e := Absorb(Lookup(arr, name), value);
    KeysPut(arr, name, e);
    LookupPut(arr, name, e, name);
    forall other | other != name
      ensures Lookup(Step(arr, piece), other) == Lookup(arr, other)
    {
      LookupPut(arr, name, e, other);
    }
  }

  /** The array after all pieces, in order. */
  function ParsePieces(pieces: seq<string>): OrderedArray<Entry> {
    if pieces == [] then []
    else Step(ParsePieces(pieces[..|pieces| - 1]), pieces[|pieces| - 1])
  }

  /** What `proper_parse_str` returns for `str`. */
  function ParseQuery(str: string): (q: Query)
    ensures q.Blank? <==> EmptyString(str)
  {
    if EmptyString(str) then Blank else Fields(ParsePieces(Explode('&', str)))
  }

  /** `proper_parse_str`: the source's loop, updating the array in place piece by piece. */
  method ProperParseStr(str: string) returns (q: Query)
    ensures q == ParseQuery(str)
    ensures q.Blank? <==> EmptyString(str)
  {
    if EmptyString(str) {
      return Blank;
    }
    var arr: OrderedArray<Entry> := [];
    var pairs := Explode('&', str);
    for i := 0 to |pairs|
      invariant arr == ParsePieces(pairs[..i])
    {
      ghost var before := arr;
      var (name, value) := SplitPair(pairs[i]);
      if IsSet(arr, name) {
        var current := Lookup(arr, name).value;
        if current.Many? {
          arr := Put(arr, name, Many(current.values + [value]));
        } else {
          arr := Put(arr, name, Many([current.value, value]));
        }
      } else {
        arr := Put(arr, name, Scalar(value));
      }
      assert arr == Step(before, pairs[i]);
      assert pairs[..i + 1][..i] == pairs[..i];
    }
    assert pairs[..|pairs|] == pairs;
    q := Fields(arr);
  }

  // ------------------------------------------------------ what the parse means

  /** The name of each piece, in input order. */
  function PieceNames(pieces: seq<string>): (names: seq<string>)
    ensures |names| == |pieces|
  {
    if pieces == [] then []
    else PieceNames(pieces[..|pieces| - 1]) + [SplitPair(pieces[|pieces| - 1]).0]
  }

  /** The values of the pieces named `name`, in input order. */
  function ValuesOf(pieces: seq<string>, name: string): seq<Option<string>> {
    if pieces == [] then []
    else
      var (n, v) := SplitPair(pieces[|pieces| - 1]);
      ValuesOf(pieces[..|pieces| - 1], name) + (if n == name then [v] else [])
  }

  /** Folding `Absorb` over a name's values, starting from "not a key". */
  function Accumulate(vs: seq<Option<string>>): Option<Entry> {
    if vs == [] then None
    else Some(Absorb(Accumulate(vs[..|vs| - 1]), vs[|vs| - 1]))
  }

  /** How many nulls open `vs`. */
  function LeadingNulls(vs: seq<Option<string>>): (j: nat)
    ensures j <= |vs|
    ensures forall i :: 0 <= i < j ==> vs[i].None?
    ensures j < |vs| ==> vs[j].Some?
  {
    if vs == [] || vs[0].Some? then 0 else 1 + LeadingNulls(vs[1..])
  }

  /**
   * The entry a name ends with, in closed form: leading nulls are dropped
   * (each is overwritten by the next value); from the first non-null value
   * on, one value stays a scalar and two or more become the list of all of
   * them; a name with only nulls keeps null.
   */
  function Collected(vs: seq<Option<string>>): Option<Entry> {
    if vs == [] then None
    else
      var j := LeadingNulls(vs);
      if j == |vs| then Some(Scalar(None))
      else if j == |vs| - 1 then Some(Scalar(vs[j]))
      else Some(Many(vs[j..]))
  }

  lemma {:induction false} LeadingNullsAppend(vs: seq<Option<string>>, x: Option<string>)
    ensures LeadingNulls(vs + [x]) == if LeadingNulls(vs) == |vs| && x.None? then |vs| + 1 else LeadingNulls(vs)
  {
    if vs != [] {
      assert (vs + [x])[1..] == vs[1..] + [x];
      LeadingNullsAppend(vs[1..], x);
    }
  }

  /** The loop's fold agrees with the closed form. */
  lemma {:induction false} AccumulateIsCollected(vs: seq<Option<string>>)
    ensures Accumulate(vs) == Collected(vs)
  {
    if vs != [] {
      var init, x := vs[..|vs| - 1], vs[|vs| - 1];
      assert vs == init + [x];
      AccumulateIsCollected(init);
      LeadingNullsAppend(init, x);
      var j := LeadingNulls(init);
      if init != [] && j < |init| - 1 {
        assert vs[j..] == init[j..] + [x];
      } else if init != [] && j == |init| - 1 {
        assert vs[j..] == [init[j], x];
      }
    }
  }

  /** The keys come out in order of first occurrence, each once. */
  lemma {:induction false} ParseKeys(pieces: seq<string>)
    ensures Keys(ParsePieces(pieces)) == FirstOccurrences(PieceNames(pieces))
  {
    if pieces != [] {
      var init, p := pieces[..|pieces| - 1], pieces[|pieces| - 1];
      ParseKeys(init);
      var (n, v) := SplitPair(p);
      var arr := ParsePieces(init);
      KeysPut(arr, n, Absorb(Lookup(arr, n), v));
      var names := PieceNames(pieces);
      assert names[..|names| - 1] == PieceNames(init);
    }
  }

  /** The entry under each name is what the fold of its own values gives. */
  lemma {:induction false} ParseLookup(pieces: seq<string>, name: string)
    ensures Lookup(ParsePieces(pieces), name) == Accumulate(ValuesOf(pieces, name))
  {
    if pieces != [] {
      var init, p := pieces[..|pieces| - 1], pieces[|pieces| - 1];
      ParseLookup(init, name);
      var (n, v) := SplitPair(p);
      var arr := ParsePieces(init);
      var vs := ValuesOf(init, name);
      assert ParsePieces(pieces) == Put(arr, n, Absorb(Lookup(arr, n), v));
      assert ValuesOf(pieces, name) == vs + (if n == name then [v] else []);
      LookupPut(arr, n, Absorb(Lookup(arr, n), v), name);
      if n == name {
        assert (vs + [v])[..|vs|] == vs;
        assert Accumulate(vs + [v]) == Some(Absorb(Accumulate(vs), v));
      } else {
        assert vs + [] == vs;
      }
    }
  }

  /** Per name: seen once it keeps a scalar; seen n >= 2 times with a first value that is not null, it holds all n values in input order; not seen, it is no key. */
  lemma EntryOfName(pieces: seq<string>, name: string)
    ensures var vs := ValuesOf(pieces, name);
      && (vs == [] ==> Lookup(ParsePieces(pieces), name) == None)
      && (|vs| == 1 ==> Lookup(ParsePieces(pieces), name) == Some(Scalar(vs[0])))
      && (|vs| >= 2 && vs[0].Some? ==> Lookup(ParsePieces(pieces), name) == Some(Many(vs)))
  {
    ParseLookup(pieces, name);
    AccumulateIsCollected(ValuesOf(pieces, name));
  }

  /** A name first given without `=` (null) and then with a value keeps just that value: the null is overwritten, not listed. */
  lemma NullThenValue(name: string, value: string)
    requires '=' !in name
    ensures ParsePieces([name, name + "=" + value]) == [(name, Scalar(Some(value)))]
  {
    SplitPairOfPair(name, value);
    assert [name, name + "=" + value][..1] == [name];
    assert [name][..0] == [];
    assert SplitPair(name) == (name, None);
    assert ParsePieces([name]) == Step([], name);
    assert Step([], name) == [(name, Scalar(None))];
    assert ParsePieces([name, name + "=" + value]) == Step([(name, Scalar(None))], name + "=" + value);
  }

  /** The other order: a value and then a null for the same name make a list ending in null. */
  lemma ValueThenNull(name: string, value: string)
    requires '=' !in name
    ensures ParsePieces([name + "=" + value, name]) == [(name, Many([Some(value), None]))]
  {
    SplitPairOfPair(name, value);
    assert [name + "=" + value, name][..1] == [name + "=" + value];
    assert [name + "=" + value][..0] == [];
    assert ParsePieces([name + "=" + value]) == Step([], name + "=" + value);
    assert Step([], name + "=" + value) == [(name, Scalar(Some(value)))];
    assert SplitPair(name) == (name, None);
    assert ParsePieces([name + "=" + value, name]) == Step([(name, Scalar(Some(value)))], name);
  }
}
