/** What the signature of a type tells, and what it does not. */
module SignatureShapes {
  import opened Wrappers
  import opened Numerals
  import opened CTypes
  import opened SignatureDecoding

  predicate IsTagged(t: CType) { t.IsStruct() || t.IsUnion() }

  /** The first letter of a signature tells the kind of type. */
  lemma SignatureKind(b: Bare)
    ensures var s, t := Signature(b), Plain(b);
            && s != []
            && (s[0] == 'v' <==> t.IsVoid())
            && (s[0] == 'V' <==> t.IsVector())
            && (s[0] in "PF" <==> t.IsPointerOrLabel())
            && (IsDecimal(s[0]) <==> b.Enumerate? || IsTagged(t))
            && (s[0] in "bchstijlmxyfden" <==> t.IsArithmeticScalar() && !b.Enumerate?)
  {
    match b
    case Enumerate(name, _) => PrintRoundTrip(|name|, 10);
    case Struct(name, _) => PrintRoundTrip(|name|, 10);
    case Union(name, _) => PrintRoundTrip(|name|, 10);
    case _ =>
  }

  lemma VectorSignatureInjective(a: Bare, b: Bare)
    requires (a.IntVector? || a.FloatVector?) && (b.IntVector? || b.FloatVector?)
    requires Signature(a) == Signature(b)
    ensures a == b
  {
    var s, p, q := Signature(a), Print(a.n, 10), Print(b.n, 10);
    assert s == "V" + (p + [VectorLetter(a)]) == "V" + (q + [VectorLetter(b)]);
    assert s[1..] == p + [VectorLetter(a)] == q + [VectorLetter(b)];
    assert p == s[1..][..|p|] && q == s[1..][..|q|];
    assert s[|s| - 1] == VectorLetter(a) == VectorLetter(b);
    PrintInjective(a.n, b.n, 10);
  }

  predicate IsScalar(b: Bare) { b.Void? || b.Bool? || b.Integer? || b.Floating? }

  /** The signatures of void and the arithmetic types are those of no other type. */
  lemma ScalarSignature(a: Bare, b: Bare)
    requires IsScalar(a) && Signature(a) == Signature(b)
    ensures a == b
  {
    SignatureKind(a);
    SignatureKind(b);
    assert b.Bitfield? ==> |Signature(b)| == 4;
  }

  // ---------------------------------------------------------------------
  // The types that a signature does not tell apart
  // ---------------------------------------------------------------------

  predicate IsTag(b: Bare) { b.Enumerate? || b.Struct? || b.Union? }

  function TagName(b: Bare): string
    requires IsTag(b)
  {
    match b
    case Enumerate(name, _) => name
    case Struct(name, _) => name
    case Union(name, _) => name
  }

  predicate Points(b: Bare) { b.Pointer? || b.Array? }

  function Target(b: Bare): (t: CType)
    requires Points(b)
    ensures t < b
  {
    match b
    case Pointer(pointee) => pointee
    case Array(elem) => elem
  }

  predicate OnlyVoid(params: seq<CType>) { |params| == 1 && params[0].bare.Void? }

  /** The same type, but that an array is a pointer to its elements, bit-fields are one
      type, tags are the lengths of their names, and a single void is a void list. */
  predicate SameShape(a: Bare, b: Bare)
    decreases a, 1
  {
    match a
    case Bitfield(_) => b.Bitfield?
    case Enumerate(name, _) => IsTag(b) && |name| == |TagName(b)|
    case Struct(name, _) => IsTag(b) && |name| == |TagName(b)|
    case Union(name, _) => IsTag(b) && |name| == |TagName(b)|
    case Pointer(pointee) => Points(b) && SameType(pointee, Target(b))
    case Array(elem) => Points(b) && SameType(elem, Target(b))
    case Function(ret, params, voidList) =>
      && b.Function? && SameType(ret, b.ret)
      && (if params == [] then if b.params == [] then voidList == b.voidList else voidList && OnlyVoid(b.params)
          else if b.params == [] then b.voidList && OnlyVoid(params)
          else SameParameters(params, b.params))
    case _ => a == b
  }

  predicate SameParameters(ts: seq<CType>, us: seq<CType>)
    decreases ts, 0
  {
    |ts| == |us| && forall i :: 0 <= i < |ts| ==> SameParameter(ts[i], us[i])
  }

  /** Qualifiers of a parameter do not count. */
  predicate SameParameter(t: CType, u: CType)
    decreases t, 2
  {
    SameShape(t.bare, u.bare)
  }

  /** Of the qualifiers only the address space counts, and whether there is one. */
  predicate SameType(t: CType, u: CType)
    decreases t, 2
  {
    && t.Qualified? == u.Qualified?
    && (t.Qualified? ==> t.space == u.space)
    && SameShape(t.bare, u.bare)
  }

  lemma FirstIsNotQ(b: Bare)
    ensures Signature(b) != [] && Signature(b)[0] != 'Q'
  {
    SignatureKind(b);
    match b
    case Enumerate(name, _) => PrintRoundTrip(|name|, 10);
    case Struct(name, _) => PrintRoundTrip(|name|, 10);
    case Union(name, _) => PrintRoundTrip(|name|, 10);
    case _ =>
  }

  lemma TagLength(m: string, n: string)
    ensures TagSignature(m) == TagSignature(n) <==> |m| == |n|
  {
    if TagSignature(m) == TagSignature(n) {
      var p, q := Print(|m|, 10), Print(|n|, 10);
      assert |p| == |TagSignature(m)| - 4 == |q|;
      assert p == TagSignature(m)[..|p|] && q == TagSignature(n)[..|q|];
      PrintInjective(|m|, |n|, 10);
    }
  }

  lemma TagShapes(a: Bare, b: Bare)
    requires IsTag(a) && Signature(a) == Signature(b)
    ensures IsTag(b) && |TagName(a)| == |TagName(b)|
  {
    SignatureKind(a);
    SignatureKind(b);
    TagLength(TagName(a), TagName(b));
  }

  lemma QualifiedSame(spaces: bool, t: CType, u: CType)
    requires SeparableType(spaces, t) && SeparableType(spaces, u) && SignatureOf(t) == SignatureOf(u)
    ensures t.Qualified? == u.Qualified? && (t.Qualified? ==> t.space == u.space)
    ensures Signature(t.bare) == Signature(u.bare)
  {
    FirstIsNotQ(t.bare);
    FirstIsNotQ(u.bare);
    SignatureStart(t.bare);
    SignatureStart(u.bare);
    if t.Qualified? && u.Qualified? {
      var s, r := SpaceSignature(t.space) + Signature(t.bare), SpaceSignature(u.space) + Signature(u.bare);
      assert SignatureOf(t)[1..] == s && SignatureOf(u)[1..] == r;
      assert s[0] == r[0];
      SpaceLetters(t, s);
      SpaceLetters(u, r);
    }
  }

  lemma SpaceLetters(t: CType, s: string)
    requires t.Qualified? && t.space != Code && Signature(t.bare) != [] && s == SpaceSignature(t.space) + Signature(t.bare)
    ensures t.space == NoSpace ==> s == Signature(t.bare)
    ensures t.space != NoSpace ==> s[1..] == Signature(t.bare) && [s[0]] == SpaceSignature(t.space)
  {
  }

  /** Separable types have the same signature exactly when they have the same shape. */
  lemma {:induction false} SameSignatureShape(spaces: bool, a: Bare, b: Bare)
    requires Separable(spaces, a) && Separable(spaces, b) && Signature(a) == Signature(b)
    ensures SameShape(a, b)
    decreases a, 1
  {
    SignatureKind(a);
    SignatureKind(b);
    match a
    case Bitfield(_) => BitfieldShape(a, b);
    case Enumerate(_, _) => TagShapes(a, b);
    case Struct(_, _) => TagShapes(a, b);
    case Union(_, _) => TagShapes(a, b);
    case Pointer(pointee) => PointerShape(spaces, a, b);
    case Array(elem) => PointerShape(spaces, a, b);
    case Function(_, _, _) => FunctionShape(spaces, a, b);
    case IntVector(_, _, _) => VectorSignatureInjective(a, b);
    case FloatVector(_) => VectorSignatureInjective(a, b);
    case _ => ScalarSignature(a, b);
  }

  lemma BitfieldShape(a: Bare, b: Bare)
    requires a.Bitfield? && Signature(a) == Signature(b)
    ensures b.Bitfield?
  {
    SignatureKind(a);
    SignatureKind(b);
    if IsScalar(b) {
      ScalarSignature(b, a);
    }
  }

  lemma {:induction false} PointerShape(spaces: bool, a: Bare, b: Bare)
    requires Points(a) && Separable(spaces, a) && Separable(spaces, b) && Signature(a) == Signature(b)
    ensures Points(b) && SameType(Target(a), Target(b))
    decreases a, 0
  {
    PointingLetter(a);
    PointingLetter(b);
    assert Signature(a)[1..] == SignatureOf(Target(a)) && Signature(b)[1..] == SignatureOf(Target(b));
    SameSignatureType(spaces, Target(a), Target(b));
  }

  lemma PointingLetter(b: Bare)
    ensures Signature(b) != [] && (Signature(b)[0] == 'P' <==> Points(b))
    ensures Signature(b)[0] == 'F' <==> b.Function?
  {
    SignatureKind(b);
  }

  lemma {:induction false} SameSignatureType(spaces: bool, t: CType, u: CType)
    requires SeparableType(spaces, t) && SeparableType(spaces, u) && SignatureOf(t) == SignatureOf(u)
    ensures SameType(t, u)
    decreases t, 2
  {
    QualifiedSame(spaces, t, u);
    SameSignatureShape(spaces, t.bare, u.bare);
  }

  function ListText(params: seq<CType>, voidList: bool): string {
    if params == [] then if voidList then "v" else "*" else SignatureList(params)
  }

  /** The result and the list of a function can be told apart. */
  lemma FunctionParts(spaces: bool, a: Bare, b: Bare)
    requires a.Function? && Separable(spaces, a) && Separable(spaces, b) && Signature(a) == Signature(b)
    ensures b.Function? && SignatureOf(a.ret) == SignatureOf(b.ret)
    ensures ListText(a.params, a.voidList) == ListText(b.params, b.voidList)
  {
    PointingLetter(a);
    PointingLetter(b);
    var x, y := ListText(a.params, a.voidList) + "E", ListText(b.params, b.voidList) + "E";
    var s := Signature(a)[1..];
    assert s == SignatureOf(a.ret) + x == SignatureOf(b.ret) + y;
    TypeEnds(spaces, a.ret, x);
    TypeEnds(spaces, b.ret, y);
    assert SignatureOf(a.ret) == s[..|s| - |x|] == SignatureOf(b.ret);
    assert ListText(a.params, a.voidList) == x[..|x| - 1];
    assert ListText(b.params, b.voidList) == y[..|y| - 1];
  }

  lemma SingleVoid(params: seq<CType>)
    requires params != []
    ensures SignatureList(params) != "*" && (SignatureList(params) == "v" ==> OnlyVoid(params))
  {
    var first, others := ParameterSignature(params[0]), SignatureList(params[1..]);
    SignatureStart(params[0].bare);
    SignatureKind(params[0].bare);
    assert SignatureList(params)[0] == first[0];
    if |params| > 1 {
      NonEmptyList(params[1..]);
    }
  }

  lemma NonEmptyList(ts: seq<CType>)
    requires ts != []
    ensures SignatureList(ts) != []
  {
    SignatureStart(ts[0].bare);
  }

  lemma {:induction false} FunctionShape(spaces: bool, a: Bare, b: Bare)
    requires a.Function? && Separable(spaces, a) && Separable(spaces, b) && Signature(a) == Signature(b)
    ensures SameShape(a, b)
    decreases a, 0
  {
    FunctionParts(spaces, a, b);
    SameSignatureType(spaces, a.ret, b.ret);
    if a.params == [] && b.params != [] {
      SingleVoid(b.params);
    } else if a.params != [] && b.params == [] {
      SingleVoid(a.params);
    } else if a.params != [] {
      SameSignatureParameters(spaces, a.params, b.params);
    }
  }

  lemma {:induction false} SameSignatureParameters(spaces: bool, ts: seq<CType>, us: seq<CType>)
    requires SeparableList(spaces, ts) && SeparableList(spaces, us) && SignatureList(ts) == SignatureList(us)
    ensures SameParameters(ts, us)
    decreases ts, 0
  {
    SignatureListInjective(spaces, ts, us);
    forall i | 0 <= i < |ts|
      ensures SameParameter(ts[i], us[i])
    {
      SameSignatureParameter(spaces, ts[i], us[i]);
    }
  }

  lemma {:induction false} SameSignatureParameter(spaces: bool, t: CType, u: CType)
    requires Separable(spaces, t.bare) && Separable(spaces, u.bare) && ParameterSignature(t) == ParameterSignature(u)
    ensures SameParameter(t, u)
    decreases t, 2
  {
    SameSignatureShape(spaces, t.bare, u.bare);
  }

  // ---------------------------------------------------------------------
  // The other direction
  // ---------------------------------------------------------------------

  lemma {:induction false} ShapeSignature(a: Bare, b: Bare)
    requires SameShape(a, b)
    ensures Signature(a) == Signature(b)
    decreases a, 1
  {
    match a
    case Enumerate(_, _) => TagLength(TagName(a), TagName(b));
    case Struct(_, _) => TagLength(TagName(a), TagName(b));
    case Union(_, _) => TagLength(TagName(a), TagName(b));
    case Pointer(pointee) => TypeSignature(pointee, Target(b));
    case Array(elem) => TypeSignature(elem, Target(b));
    case Function(ret, params, _) =>
      TypeSignature(ret, b.ret);
      if params != [] && b.params != [] {
        ListSignature(params, b.params);
      } else if params != [] || b.params != [] {
        VoidText(if params == [] then b.params else params);
      }
    case _ =>
  }

  lemma VoidText(params: seq<CType>)
    requires OnlyVoid(params)
    ensures SignatureList(params) == "v"
  {
    OneSignature(params[0]);
    assert params == [params[0]];
  }

  lemma {:induction false} TypeSignature(t: CType, u: CType)
    requires SameType(t, u)
    ensures SignatureOf(t) == SignatureOf(u)
    decreases t, 2
  {
    ShapeSignature(t.bare, u.bare);
  }

  lemma {:induction false} ListSignature(ts: seq<CType>, us: seq<CType>)
    requires SameParameters(ts, us)
    ensures SignatureList(ts) == SignatureList(us)
    decreases ts, 0
  {
    if ts != [] {
      assert SameParameter(ts[0], us[0]);
      ParameterShapeSignature(ts[0], us[0]);
      forall i | 0 <= i < |ts| - 1
        ensures SameParameter(ts[1..][i], us[1..][i])
      {
        assert SameParameter(ts[i + 1], us[i + 1]);
      }
      ListSignature(ts[1..], us[1..]);
    }
  }

  lemma {:induction false} ParameterShapeSignature(t: CType, u: CType)
    requires SameParameter(t, u)
    ensures ParameterSignature(t) == ParameterSignature(u)
    decreases t, 2
  {
    ShapeSignature(t.bare, u.bare);
  }

  /** The signature of a separable type tells its shape, and nothing else. */
  lemma SignatureIsShape(spaces: bool, a: Bare, b: Bare)
    requires Separable(spaces, a) && Separable(spaces, b)
    ensures Signature(a) == Signature(b) <==> SameShape(a, b)
  {
    if SameShape(a, b) {
      ShapeSignature(a, b);
    } else if Signature(a) == Signature(b) {
      SameSignatureShape(spaces, a, b);
    }
  }
}
