/** The string encoding of scopes: segments joined by ':' with the declared name
    as last segment, and the step that strips one segment. */
module ScopeNames {
  import opened Wrappers
  import opened Numerals

  predicate ColonFree(s: string) { forall i :: 0 <= i < |s| ==> s[i] != ':' }

  /** A scope segment or a declared name: an identifier, possibly decorated. */
  predicate IsSegment(s: string) { s != "" && ColonFree(s) }

  predicate AreSegments(path: seq<string>) {
    forall i :: 0 <= i < |path| ==> IsSegment(path[i])
  }

  /** The segments of a path separated by ':'. */
  function Join(path: seq<string>): string {
    if |path| == 0 then ""
    else if |path| == 1 then path[0]
    else Join(path[..|path| - 1]) + ":" + path[|path| - 1]
  }

  function AddScopeToName(scope: string, name: string): string {
    if |scope| > 0 then scope + ":" + name else name
  }

  /** The index of the last ':' of s, or -1. */
  function LastColon(s: string): (i: int)
    ensures -1 <= i < |s|
    ensures i >= 0 ==> s[i] == ':'
    ensures forall j :: i < j < |s| ==> s[j] != ':'
  {
    if |s| == 0 then -1
    else if s[|s| - 1] == ':' then |s| - 1
    else LastColon(s[..|s| - 1])
  }

  function RemoveOneLevelScope(scope: string): Option<string> {
    var i := LastColon(scope);
    if i > 0 then Some(scope[..i])
    else if |scope| > 0 then Some("")
    else None
  }

  lemma {:induction false} JoinNonEmpty(path: seq<string>)
    requires AreSegments(path)
    ensures Join(path) == "" <==> path == []
  {
  }

  lemma {:induction false} JoinExtend(path: seq<string>, s: string)
    requires AreSegments(path) && IsSegment(s)
    ensures AreSegments(path + [s])
    ensures AddScopeToName(Join(path), s) == Join(path + [s])
  {
    JoinNonEmpty(path);
    assert (path + [s])[..|path|] == path;
  }

  lemma {:induction false} LastColonOfExtension(scope: string, s: string)
    requires ColonFree(s)
    ensures LastColon(scope + ":" + s) == |scope|
    decreases |s|
  {
    var t := scope + ":" + s;
    if s == "" {
      assert t[|t| - 1] == ':';
    } else {
      var last := |s| - 1;
      assert t[|t| - 1] == s[last] != ':';
      assert t[..|t| - 1] == scope + ":" + s[..last];
      LastColonOfExtension(scope, s[..last]);
    }
  }

  lemma LastColonAbsent(s: string)
    requires ColonFree(s)
    ensures LastColon(s) == -1
  {
  }

  /** Stripping one level of the encoded path is dropping its last segment. */
  lemma RemoveOneLevelDropsLast(path: seq<string>)
    requires AreSegments(path)
    ensures RemoveOneLevelScope(Join(path)) ==
            if path == [] then None else Some(Join(path[..|path| - 1]))
  {
    if |path| == 1 {
      LastColonAbsent(path[0]);
    } else if |path| > 1 {
      var front, last := Join(path[..|path| - 1]), path[|path| - 1];
      JoinNonEmpty(path[..|path| - 1]);
      LastColonOfExtension(front, last);
      var t := front + ":" + last;
      assert Join(path) == t && t[..|front|] == front;
    }
  }

  /** Two well-formed paths with the same encoding are the same path. */
  lemma {:induction false} JoinInjective(a: seq<string>, b: seq<string>)
    requires AreSegments(a) && AreSegments(b)
    requires Join(a) == Join(b)
    ensures a == b
  {
    JoinNonEmpty(a);
    JoinNonEmpty(b);
    if a != [] {
      RemoveOneLevelDropsLast(a);
      RemoveOneLevelDropsLast(b);
      var a0, b0 := a[..|a| - 1], b[..|b| - 1];
      JoinInjective(a0, b0);
      JoinExtend(a0, a[|a| - 1]);
      JoinExtend(b0, b[|b| - 1]);
      assert a0 + [a[|a| - 1]] == a && b0 + [b[|b| - 1]] == b;
      JoinNonEmpty(a0);
      if a0 == [] {
        assert a[0] == Join(a) && b[0] == Join(b);
      } else {
        var j := Join(a0) + ":";
        assert Join(a) == j + a[|a| - 1] && Join(b) == j + b[|b| - 1];
        assert a[|a| - 1] == Join(a)[|j|..] && b[|b| - 1] == Join(b)[|j|..];
      }
    }
  }

  /** The segment pushed for an unnamed scope. */
  function Unnamed(counter: nat): string { Print(counter, 10) }

  predicate IsNumber(s: string) { IsNumeral(s, 10) }

  lemma UnnamedIsSegment(counter: nat)
    ensures IsSegment(Unnamed(counter)) && IsNumber(Unnamed(counter))
  {
    PrintRoundTrip(counter, 10);
  }
}
