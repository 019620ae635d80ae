/**
 * The `httpMethodID` table: each of the nine request methods the log
 * knows is stored as a small integer code. The lookup is by exact,
 * case-sensitive name; any other name has no code.
 */
module HttpMethods {
  import opened Wrappers

  /** The nine method names, in code order: `Names[c - 1]` has code `c`. */
  const Names: seq<string> := ["GET", "POST", "PUT", "PATCH", "DELETE", "HEAD", "CONNECT", "OPTIONS", "TRACE"]

  /** The class constant itself, name to code. */
  const HttpMethodID: map<string, int> := map[
    "GET" := 1, "POST" := 2, "PUT" := 3, "PATCH" := 4, "DELETE" := 5,
    "HEAD" := 6, "CONNECT" := 7, "OPTIONS" := 8, "TRACE" := 9]

  /** `httpMethodID[$name]`: the code of a known method, nothing for an unknown one. */
  function MethodId(name: string): (code: Option<int>)
    ensures code.Some? <==> name in Names
    ensures code.Some? ==> 1 <= code.value <= |Names| && Names[code.value - 1] == name
  {
    if name in HttpMethodID then Some(HttpMethodID[name]) else None
  }

  /** The method a code stands for, when it is one of the nine. */
  function MethodName(code: int): (name: Option<string>)
    ensures name.Some? <==> 1 <= code <= |Names|
  {
    if 1 <= code <= |Names| then Some(Names[code - 1]) else None
  }

  /** Codes are the distinct values 1..9: decoding a method's code gives the method back, and every code in range decodes to a method with that code. */
  lemma MethodIdRoundTrip(name: string, code: int)
    ensures MethodId(name).Some? ==> MethodName(MethodId(name).value) == Some(name)
    ensures 1 <= code <= |Names| ==> MethodName(code).Some? && MethodId(MethodName(code).value) == Some(code)
  {
    if 1 <= code <= |Names| {
      var n := Names[code - 1];
      assert MethodId(n).Some?;
      var c := MethodId(n).value;
      assert Names[c - 1] == n;
      assert forall i, j :: 0 <= i < j < |Names| ==> Names[i] != Names[j];
    }
  }

  /** Two different method names never share a code. */
  lemma MethodIdInjective(a: string, b: string)
    requires MethodId(a).Some? && MethodId(b).Some? && a != b
    ensures MethodId(a).value != MethodId(b).value
  {
  }
}
