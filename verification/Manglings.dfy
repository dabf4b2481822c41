/** The names the symbol table makes from a counter. */
module Manglings {
  import opened Wrappers
  import opened Numerals

  function Mangling(n: nat, s: string): string {
    "_M" + (Print(n, 10) + ("_" + s))
  }

  function NewName(n: nat): string {
    "_N" + Print(n, 10)
  }

  /** The number and the name can be read back from a mangled name. */
  lemma ManglingInjective(m: nat, s: string, n: nat, t: string)
    requires Mangling(m, s) == Mangling(n, t)
    ensures m == n && s == t
  {
    var p, q, text := Print(m, 10), Print(n, 10), Mangling(m, s)[2..];
    PrintRoundTrip(m, 10);
    PrintRoundTrip(n, 10);
    assert text == p + ("_" + s) == q + ("_" + t);
    SkipPrinted(p, "_" + s);
    SkipPrinted(q, "_" + t);
    assert ("_" + s)[1..] == s && ("_" + t)[1..] == t;
    assert p == text[..|p|] == q;
    PrintInjective(m, n, 10);
  }

  lemma NewNameInjective(m: nat, n: nat)
    requires NewName(m) == NewName(n)
    ensures m == n
  {
    assert NewName(m)[2..] == Print(m, 10) && NewName(n)[2..] == Print(n, 10);
    PrintInjective(m, n, 10);
  }

  /** The names given for requests in order, for a name to mangle or for a new name,
      when the counter is at n. */
  function NamesFrom(n: nat, requests: seq<Option<string>>): (names: seq<string>)
    ensures |names| == |requests|
  {
    seq(|requests|, i requires 0 <= i < |requests| =>
      match requests[i]
      case Some(s) => Mangling(n + i + 1, s)
      case None => NewName(n + i + 1))
  }

  /** No name is given twice, whatever is asked. */
  lemma NamesAreUnique(n: nat, requests: seq<Option<string>>, i: nat, j: nat)
    requires i < j < |requests|
    ensures NamesFrom(n, requests)[i] != NamesFrom(n, requests)[j]
  {
    var x, y := NamesFrom(n, requests)[i], NamesFrom(n, requests)[j];
    if x == y {
      assert x[1] == if requests[i].Some? then 'M' else 'N';
      assert y[1] == if requests[j].Some? then 'M' else 'N';
      if requests[i].Some? {
        ManglingInjective(n + i + 1, requests[i].value, n + j + 1, requests[j].value);
      } else {
        NewNameInjective(n + i + 1, n + j + 1);
      }
    }
  }
}
