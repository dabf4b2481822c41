/** When the signatures written one after the other can be told apart again.  An
    address space is one letter, and the letters of constant and local are also
    those of the types char and long. */
module SignatureDecoding {
  import opened Wrappers
  import opened Numerals
  import opened CTypes

  const LETTERS := "vbchstijlmxyfde"

  function Drop(s: string, n: nat): (rest: Option<string>)
    ensures rest.Some? ==> |rest.value| + n == |s|
  {
    if n <= |s| then Some(s[n..]) else None
  }

  /** The text after the signature at the front.  Without address spaces a Q is
      always followed by a type; with them, c, l, g and p after a Q are spaces. */
  function Rest(spaces: bool, s: string): (rest: Option<string>)
    ensures rest.Some? ==> |rest.value| < |s|
    decreases |s|, 0
  {
    if s == [] then None
    else if s[0] in LETTERS then Some(s[1..])
    else if s[0] == 'n' then Drop(s, 4)
    else if IsDecimal(s[0]) then Drop(SkipDigits(s), 4)
    else if s[0] == 'V' then Drop(SkipDigits(s[1..]), 1)
    else if s[0] == 'P' then Rest(spaces, s[1..])
    else if s[0] == 'Q' then
      if spaces && |s| > 1 && s[1] in "clgp" then Rest(spaces, s[2..]) else Rest(spaces, s[1..])
    else if s[0] == 'F' then
      var afterResult := Rest(spaces, s[1..]);
      if afterResult.None? then None else RestOfList(spaces, afterResult.value)
    else None
  }

  /** The text after a parameter list and the E that closes it. */
  function RestOfList(spaces: bool, s: string): (rest: Option<string>)
    ensures rest.Some? ==> |rest.value| < |s|
    decreases |s|, 1
  {
    if s == [] then None
    else if s[0] == 'E' then Some(s[1..])
    else if s[0] == '*' then RestOfList(spaces, s[1..])
    else
      var afterFirst := Rest(spaces, s);
      if afterFirst.None? then None else RestOfList(spaces, afterFirst.value)
  }

  /** Types whose signature says where it ends.  In C no qualifier names an address
      space and all types are; in OpenCL C a char or a long qualified inside another
      type has to have an address space. */
  predicate Separable(spaces: bool, b: Bare) {
    match b
    case Pointer(to) => SeparableType(spaces, to)
    case Array(of) => SeparableType(spaces, of)
    case Function(ret, params, _) =>
      SeparableType(spaces, ret) && forall i :: 0 <= i < |params| ==> Separable(spaces, params[i].bare)
    case _ => true
  }

  predicate SeparableType(spaces: bool, t: CType) {
    && Separable(spaces, t.bare)
    && (t.Qualified? ==>
          if spaces then
            t.space != Code && (t.space == NoSpace ==> t.bare !in {Integer(Char, true), Integer(Long, true)})
          else t.space == NoSpace)
  }

  predicate SeparableList(spaces: bool, ts: seq<CType>) {
    forall i :: 0 <= i < |ts| ==> Separable(spaces, ts[i].bare)
  }

  lemma {:induction false} TagEnds(spaces: bool, name: string, x: string)
    ensures Rest(spaces, TagSignature(name) + x) == Some(x)
  {
    var digits := Print(|name|, 10);
    PrintRoundTrip(|name|, 10);
    var s := TagSignature(name) + x;
    assert s == digits + ("null" + x);
    SkipPrinted(digits, "null" + x);
    assert ("null" + x)[4..] == x;
    assert s[0] == digits[0] && IsDecimal(s[0]);
  }

  lemma {:induction false} VectorEnds(spaces: bool, n: nat, letter: char, x: string)
    requires !IsDecimal(letter)
    ensures Rest(spaces, "V" + (Print(n, 10) + [letter]) + x) == Some(x)
  {
    var digits := Print(n, 10);
    PrintRoundTrip(n, 10);
    var s := "V" + (digits + [letter]) + x;
    assert s[1..] == digits + ([letter] + x);
    SkipPrinted(digits, [letter] + x);
    assert ([letter] + x)[1..] == x;
  }

  lemma SignatureStart(b: Bare)
    ensures var s := Signature(b);
            && s != [] && s[0] !in "E*gp"
            && (s[0] == 'c' ==> b == Integer(Char, true))
            && (s[0] == 'l' ==> b == Integer(Long, true))
  {
    match b
    case Enumerate(name, _) => PrintRoundTrip(|name|, 10);
    case Struct(name, _) => PrintRoundTrip(|name|, 10);
    case Union(name, _) => PrintRoundTrip(|name|, 10);
    case _ =>
  }

  lemma VectorLetterIsNotDecimal(b: Bare)
    requires b.IntVector? || b.FloatVector?
    ensures !IsDecimal(VectorLetter(b))
  {
  }

  /** The signature at the front of a text is recognised whatever follows it. */
  lemma {:induction false} SignatureEnds(spaces: bool, b: Bare, x: string)
    requires Separable(spaces, b)
    ensures Rest(spaces, Signature(b) + x) == Some(x)
    decreases b, 1
  {
    match b
    case Enumerate(name, _) => TagEnds(spaces, name, x);
    case Struct(name, _) => TagEnds(spaces, name, x);
    case Union(name, _) => TagEnds(spaces, name, x);
    case IntVector(_, _, n) =>
      VectorLetterIsNotDecimal(b);
      VectorEnds(spaces, n, VectorLetter(b), x);
    case FloatVector(n) =>
      VectorLetterIsNotDecimal(b);
      VectorEnds(spaces, n, VectorLetter(b), x);
    case Pointer(to) => PointerEnds(spaces, to, x);
    case Array(of) => PointerEnds(spaces, of, x);
    case Function(ret, params, voidList) =>
      FunctionEnds(spaces, ret, params, voidList, x);
    case Bitfield(_) => NullEnds(spaces, x);
    case Void => LetterEnds(spaces, 'v', x);
    case Bool => LetterEnds(spaces, 'b', x);
    case Integer(base, signed) => LetterEnds(spaces, IntLetter(base, signed), x);
    case Floating(base) => LetterEnds(spaces, FloatLetter(base), x);
  }

  lemma LetterEnds(spaces: bool, letter: char, x: string)
    requires letter in LETTERS
    ensures Rest(spaces, [letter] + x) == Some(x)
  {
    assert ([letter] + x)[1..] == x;
  }

  lemma NullEnds(spaces: bool, x: string)
    ensures Rest(spaces, "null" + x) == Some(x)
  {
    assert ("null" + x)[4..] == x;
  }

  lemma {:induction false} PointerEnds(spaces: bool, pointee: CType, x: string)
    requires SeparableType(spaces, pointee)
    ensures Rest(spaces, "P" + SignatureOf(pointee) + x) == Some(x)
    decreases pointee, 3
  {
    assert ("P" + SignatureOf(pointee) + x)[1..] == SignatureOf(pointee) + x;
    TypeEnds(spaces, pointee, x);
  }

  lemma {:induction false} FunctionEnds(spaces: bool, ret: CType, params: seq<CType>, voidList: bool, x: string)
    requires SeparableType(spaces, ret) && SeparableList(spaces, params)
    ensures Rest(spaces, Signature(Function(ret, params, voidList)) + x) == Some(x)
    decreases Function(ret, params, voidList), 0
  {
    hide Rest, RestOfList;
    var list := if params == [] then if voidList then "v" else "*" else SignatureList(params);
    TypeEnds(spaces, ret, list + ("E" + x));
    if params == [] {
      EmptyListEnds(spaces, voidList, x);
    } else {
      ListEnds(spaces, params, x);
    }
    ResultAndListEnd(spaces, SignatureOf(ret), list, x);
  }

  lemma ResultAndListEnd(spaces: bool, ret: string, list: string, x: string)
    requires Rest(spaces, ret + (list + ("E" + x))) == Some(list + ("E" + x))
    requires RestOfList(spaces, list + ("E" + x)) == Some(x)
    ensures Rest(spaces, "F" + (ret + (list + "E")) + x) == Some(x)
  {
    assert ("F" + (ret + (list + "E")) + x)[1..] == ret + (list + ("E" + x));
  }

  lemma EmptyListEnds(spaces: bool, voidList: bool, x: string)
    ensures RestOfList(spaces, (if voidList then "v" else "*") + ("E" + x)) == Some(x)
  {
    assert ("E" + x)[1..] == x;
    if voidList {
      LetterEnds(spaces, 'v', "E" + x);
    } else {
      assert ("*" + ("E" + x))[1..] == "E" + x;
    }
  }

  lemma {:induction false} ListEnds(spaces: bool, ts: seq<CType>, x: string)
    requires SeparableList(spaces, ts)
    ensures RestOfList(spaces, SignatureList(ts) + ("E" + x)) == Some(x)
    decreases ts, 0
  {
    if ts == [] {
      assert SignatureList(ts) + ("E" + x) == "E" + x;
      assert ("E" + x)[1..] == x;
    } else {
      var first, others := ParameterSignature(ts[0]), SignatureList(ts[1..]) + ("E" + x);
      assert SignatureList(ts) + ("E" + x) == first + others;
      SignatureStart(ts[0].bare);
      ParameterEnds(spaces, ts[0], others);
      ListEnds(spaces, ts[1..], x);
    }
  }

  lemma {:induction false} ParameterEnds(spaces: bool, t: CType, x: string)
    requires Separable(spaces, t.bare)
    ensures Rest(spaces, ParameterSignature(t) + x) == Some(x)
    decreases t, 2
  {
    SignatureEnds(spaces, t.bare, x);
  }

  lemma QualifierEnds(spaces: bool, space: AddressSpace, s: string, rest: string)
    requires s != [] && Rest(spaces, s) == Some(rest)
    requires space != Code && (if !spaces then space == NoSpace else space == NoSpace ==> s[0] !in "clgp")
    ensures Rest(spaces, "Q" + (SpaceSignature(space) + s)) == Some(rest)
  {
    var q := "Q" + (SpaceSignature(space) + s);
    if space == NoSpace {
      assert q[1..] == s;
    } else {
      assert q[1] == SpaceSignature(space)[0] && q[2..] == s;
    }
  }

  lemma {:induction false} TypeEnds(spaces: bool, t: CType, x: string)
    requires SeparableType(spaces, t)
    ensures Rest(spaces, SignatureOf(t) + x) == Some(x)
    decreases t, 2
  {
    hide Rest;
    SignatureEnds(spaces, t.bare, x);
    if t.Qualified? {
      SignatureStart(t.bare);
      var s := Signature(t.bare) + x;
      assert s[0] == Signature(t.bare)[0];
      QualifierEnds(spaces, t.space, s, x);
      assert SignatureOf(t) + x == "Q" + (SpaceSignature(t.space) + s);
    }
  }

  /** Two lists of separable types with the same concatenated signature have the same
      length and the same signature at each place. */
  lemma {:induction false} SignatureListInjective(spaces: bool, ts: seq<CType>, us: seq<CType>)
    requires SeparableList(spaces, ts) && SeparableList(spaces, us)
    requires SignatureList(ts) == SignatureList(us)
    ensures |ts| == |us|
    ensures forall i :: 0 <= i < |ts| ==> ParameterSignature(ts[i]) == ParameterSignature(us[i])
    decreases |ts|
  {
    if ts != [] {
      SignatureStart(ts[0].bare);
    }
    if us != [] {
      SignatureStart(us[0].bare);
    }
    if ts != [] && us != [] {
      var s := SignatureList(ts);
      SignatureEnds(spaces, ts[0].bare, SignatureList(ts[1..]));
      SignatureEnds(spaces, us[0].bare, SignatureList(us[1..]));
      var first := |s| - |SignatureList(ts[1..])|;
      assert ParameterSignature(ts[0]) == s[..first] == ParameterSignature(us[0]);
      SignatureListInjective(spaces, ts[1..], us[1..]);
    }
  }

  /** The letter of an address space that is also the letter of a type. */
  predicate SameLetter(space: AddressSpace, b: Bare) {
    (space == Constant && b == Integer(Char, true)) || (space == Local && b == Integer(Long, true))
  }

  /** Outside these types one signature can be read in two ways, whatever the type u: a
      pointer to constant u, or a pointer to a qualified char and a u; and the same with
      local and long. */
  lemma SignaturesRunTogether(pointee: CType, letter: CType, u: CType)
    requires pointee.Qualified? && letter.Qualified? && letter.space == NoSpace
    requires SameLetter(pointee.space, letter.bare) && pointee.bare == u.bare
    ensures SignatureList([Plain(Pointer(pointee))]) == SignatureList([Plain(Pointer(letter)), u])
  {
    var s, l := Signature(u.bare), SpaceSignature(pointee.space);
    OneSignature(Plain(Pointer(pointee)));
    OneSignature(u);
    assert Signature(letter.bare) == l;
    assert SignatureOf(letter) == "Q" + ("" + l) == "Q" + l;
    var first, others := Plain(Pointer(letter)), [u];
    FirstSignature(first, others);
    assert [first] + others == [first, u];
    assert ParameterSignature(first) == "P" + ("Q" + l);
    assert SignatureOf(pointee) == "Q" + (l + s);
    assert ParameterSignature(Plain(Pointer(pointee))) == "P" + ("Q" + (l + s));
    assert "P" + ("Q" + (l + s)) == ("P" + ("Q" + l)) + s;
  }

  lemma FirstSignature(t: CType, ts: seq<CType>)
    ensures SignatureList([t] + ts) == ParameterSignature(t) + SignatureList(ts)
  {
    assert ([t] + ts)[0] == t && ([t] + ts)[1..] == ts;
  }

  lemma OneSignature(t: CType)
    ensures SignatureList([t]) == ParameterSignature(t)
  {
    assert [t][1..] == [];
    assert ParameterSignature(t) + "" == ParameterSignature(t);
  }
}
