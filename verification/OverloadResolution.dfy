/** Which of the overloads of a name a call is given to, and the final check of the
    call against it. */
module OverloadResolution {
  import opened Numerals
  import opened CTypes
  import opened SignatureDecoding
  import opened SignatureShapes
  import opened Convertibility

  datatype Prototype = Prototype(params: seq<CType>, variadic: bool, voidList: bool)

  // ---------------------------------------------------------------------
  // The check of a call against one prototype
  // ---------------------------------------------------------------------

  datatype Fault = TooMany | TooFew | Argument(position: nat)

  predicate Unprototyped(p: Prototype) { p.params == [] && !p.voidList }

  /** An error raised about the call.  The arguments of a call with more arguments
      than parameters are not looked at. */
  predicate IsFault(f: Fault, p: Prototype, call: seq<CType>) {
    && !Unprototyped(p)
    && match f
       case TooMany => |call| > |p.params| && !p.variadic
       case TooFew => |call| < |p.params|
       case Argument(i) => |call| == |p.params| && i < |call| && !Assignable(p.params[i], call[i])
  }

  predicate Accepted(p: Prototype, call: seq<CType>) {
    || Unprototyped(p)
    || (|call| > |p.params| && p.variadic)
    || (|call| == |p.params| && forall i :: 0 <= i < |call| ==> Assignable(p.params[i], call[i]))
  }

  /** The errors raised for a call: none exactly when the call is accepted, at most one
      for each argument, in the order of the arguments. */
  method CheckFunctionCall(p: Prototype, call: seq<CType>) returns (faults: seq<Fault>)
    ensures forall f :: f in faults <==> IsFault(f, p, call)
    ensures faults == [] <==> Accepted(p, call)
    ensures forall j, k :: 0 <= j < k < |faults| ==>
              faults[j].Argument? && faults[k].Argument? && faults[j].position < faults[k].position
  {
    faults := [];
    if p.params == [] && !p.voidList {
      return;
    }
    if |call| > |p.params| {
      if !p.variadic {
        faults := [TooMany];
      }
      return;
    }
    if |call| < |p.params| {
      faults := [TooFew];
      return;
    }
    var i := 0;
    while i < |p.params|
      invariant 0 <= i <= |p.params|
      invariant forall f :: f in faults <==> IsFault(f, p, call) && f.position < i
      invariant forall k :: 0 <= k < |faults| ==> faults[k].Argument? && faults[k].position < i
      invariant forall j, k :: 0 <= j < k < |faults| ==>
                  faults[j].Argument? && faults[k].Argument? && faults[j].position < faults[k].position
      invariant faults == [] <==> forall k :: 0 <= k < i ==> Assignable(p.params[k], call[k])
    {
      if !Assignable(p.params[i], call[i]) {
        faults := faults + [Argument(i)];
      }
      i := i + 1;
    }
  }

  // ---------------------------------------------------------------------
  // How well one overload fits
  // ---------------------------------------------------------------------

  predicate Matches(param: CType, arg: CType) {
    ParameterSignature(param) == ParameterSignature(arg)
  }

  predicate Exact(p: Prototype, call: seq<CType>) {
    SignatureList(call) == SignatureList(p.params)
  }

  /** The arguments among the first n that have to be converted. */
  function Conversions(params: seq<CType>, call: seq<CType>, n: nat): set<nat>
    requires n <= |params| == |call|
  {
    set i: nat | i < n && !Matches(params[i], call[i])
  }

  /** Each of the first n arguments matches or converts. */
  predicate Convert(ocl: bool, params: seq<CType>, call: seq<CType>, n: nat)
    requires n <= |params| == |call|
  {
    forall i :: 0 <= i < n ==> Matches(params[i], call[i]) || IsConvertible(ocl, params[i], call[i])
  }

  datatype Fit = NotFit | Variadic | Fits(cost: nat)

  function FitOf(ocl: bool, p: Prototype, call: seq<CType>): Fit {
    if |call| > |p.params| then if p.variadic then Variadic else NotFit
    else if |call| < |p.params| || !Convert(ocl, p.params, call, |call|) then NotFit
    else Fits(|Conversions(p.params, call, |call|)|)
  }

  lemma OneMoreArgument(params: seq<CType>, call: seq<CType>, n: nat)
    requires n < |params| == |call|
    ensures |Conversions(params, call, n + 1)| ==
            |Conversions(params, call, n)| + if Matches(params[n], call[n]) then 0 else 1
  {
    var before, after := Conversions(params, call, n), Conversions(params, call, n + 1);
    if Matches(params[n], call[n]) {
      assert before == after;
    } else {
      assert after == before + {n};
    }
  }

  /** The comparison of a call with one overload. */
  method Compare(ocl: bool, p: Prototype, call: seq<CType>) returns (fit: Fit)
    ensures fit == FitOf(ocl, p, call)
  {
    if |call| > |p.params| {
      return if p.variadic then Variadic else NotFit;
    }
    if |call| < |p.params| {
      return NotFit;
    }
    var conversions := 0;
    var i := 0;
    while i < |p.params|
      invariant 0 <= i <= |p.params|
      invariant Convert(ocl, p.params, call, i)
      invariant conversions == |Conversions(p.params, call, i)|
    {
      OneMoreArgument(p.params, call, i);
      if !Matches(p.params[i], call[i]) {
        if !IsConvertible(ocl, p.params[i], call[i]) {
          return NotFit;
        }
        conversions := conversions + 1;
      }
      i := i + 1;
    }
    fit := Fits(conversions);
  }

  // ---------------------------------------------------------------------
  // The choice among the overloads
  // ---------------------------------------------------------------------

  predicate NoneFits(fits: seq<Fit>) {
    forall i :: 0 <= i < |fits| ==> fits[i].NotFit?
  }

  predicate FirstFitting(fits: seq<Fit>, i: nat) {
    i < |fits| && !fits[i].NotFit? && forall j :: 0 <= j < i ==> fits[j].NotFit?
  }

  /** The first overload of those that need the fewest conversions. */
  predicate Cheapest(fits: seq<Fit>, i: nat) {
    && i < |fits| && fits[i].Fits?
    && (forall j :: 0 <= j < |fits| && fits[j].Fits? ==> fits[i].cost <= fits[j].cost)
    && (forall j :: 0 <= j < i && fits[j].Fits? ==> fits[i].cost < fits[j].cost)
  }

  /** An overload called with extra arguments is chosen when it comes before all that
      fit, and the cheapest one otherwise. */
  predicate Chosen(fits: seq<Fit>, i: nat) {
    if i < |fits| && fits[i].Variadic? then FirstFitting(fits, i)
    else Cheapest(fits, i) && !(exists k :: 0 <= k < i && FirstFitting(fits, k) && fits[k].Variadic?)
  }

  function Cost(fit: Fit): nat {
    if fit.Fits? then fit.cost else 0
  }

  lemma ChosenUnique(fits: seq<Fit>, i: nat, j: nat)
    requires Chosen(fits, i) && Chosen(fits, j)
    ensures i == j
  {
  }

  /** Some overload is chosen exactly when one fits. */
  lemma {:induction false} ChosenExists(fits: seq<Fit>)
    ensures (exists i: nat :: Chosen(fits, i)) <==> !NoneFits(fits)
    decreases |fits|
  {
    if fits != [] {
      var n := |fits| - 1;
      ChosenExists(fits[..n]);
      if NoneFits(fits[..n]) {
        if !fits[n].NotFit? {
          assert Chosen(fits, n);
        }
      } else {
        var i: nat :| Chosen(fits[..n], i);
        NextOverload(fits, n, i);
        assert fits[..n + 1] == fits;
      }
    }
  }

  /** What the overload after the first n does to the choice among them. */
  lemma NextOverload(fits: seq<Fit>, n: nat, i: nat)
    requires n < |fits| && Chosen(fits[..n], i)
    ensures var next := if fits[n].Fits? && fits[n].cost < Cost(fits[i]) then n else i;
            Chosen(fits[..n + 1], next)
  {
    var before, after := fits[..n], fits[..n + 1];
    assert before[i] == fits[i] == after[i] && after[n] == fits[n];
    assert forall k: nat :: k < n ==> FirstFitting(after, k) == FirstFitting(before, k);
  }

  function FitsOf(ocl: bool, overloads: seq<Prototype>, call: seq<CType>): (fits: seq<Fit>)
    ensures |fits| == |overloads|
    ensures forall i :: 0 <= i < |fits| ==> fits[i] == FitOf(ocl, overloads[i], call)
  {
    seq(|overloads|, i requires 0 <= i < |overloads| => FitOf(ocl, overloads[i], call))
  }

  predicate FirstExact(overloads: seq<Prototype>, call: seq<CType>, i: nat) {
    i < |overloads| && Exact(overloads[i], call) && forall j :: 0 <= j < i ==> !Exact(overloads[j], call)
  }

  predicate NoneExact(overloads: seq<Prototype>, call: seq<CType>) {
    forall j :: 0 <= j < |overloads| ==> !Exact(overloads[j], call)
  }

  /** The overloads kept while comparing are those as good as the chosen one, and those
      called with extra arguments. */
  predicate Candidates(fits: seq<Fit>, kept: seq<nat>) {
    && kept != []
    && Chosen(fits, kept[0])
    && (forall k :: 0 <= k < |kept| ==>
          kept[k] < |fits| && (fits[kept[k]].Variadic? || fits[kept[k]] == Fits(Cost(fits[kept[0]]))))
    && (forall j :: 0 <= j < |fits| && fits[j] == Fits(Cost(fits[kept[0]])) ==> j in kept)
  }

  // ---------------------------------------------------------------------
  // Arithmetic arguments
  // ---------------------------------------------------------------------

  predicate ScalarCall(call: seq<CType>) {
    forall i :: 0 <= i < |call| ==> IsScalar(call[i].bare)
  }

  /** The parameters have the types of the arguments, qualifiers aside. */
  predicate TakesExactly(params: seq<CType>, call: seq<CType>) {
    |params| == |call| && forall i :: 0 <= i < |call| ==> params[i].bare == call[i].bare
  }

  /** An arithmetic argument matches only a parameter of its own type. */
  lemma ScalarMatches(param: CType, arg: CType)
    requires IsScalar(arg.bare)
    ensures Matches(param, arg) <==> param.bare == arg.bare
  {
    if Matches(param, arg) {
      ScalarSignature(arg.bare, param.bare);
    }
  }

  /** A pointer argument matches only a pointer or an array, to a type of the same
      signature. */
  lemma PointerMatches(param: CType, arg: CType)
    requires Points(arg.bare)
    ensures Matches(param, arg) <==>
            Points(param.bare) && SignatureOf(Target(param.bare)) == SignatureOf(Target(arg.bare))
  {
    PointingLetter(param.bare);
    PointingLetter(arg.bare);
    if Points(param.bare) {
      assert Signature(param.bare) == "P" + SignatureOf(Target(param.bare));
      assert Signature(arg.bare) == "P" + SignatureOf(Target(arg.bare));
      assert Signature(param.bare)[1..] == SignatureOf(Target(param.bare));
      assert Signature(arg.bare)[1..] == SignatureOf(Target(arg.bare));
    }
  }

  /** The overloads exact for arithmetic arguments are those with their types. */
  lemma {:induction false} ScalarExact(params: seq<CType>, call: seq<CType>)
    requires ScalarCall(call)
    ensures SignatureList(call) == SignatureList(params) <==> TakesExactly(params, call)
    decreases |call|
  {
    if params != [] {
      NonEmptyList(params);
    }
    if call != [] {
      NonEmptyList(call);
    }
    if params != [] && call != [] {
      ScalarExact(params[1..], call[1..]);
      FirstExactly(params, call);
      if TakesExactly(params, call) {
        assert params[0].bare == call[0].bare && TakesExactly(params[1..], call[1..]);
      }
    }
  }

  lemma FirstExactly(params: seq<CType>, call: seq<CType>)
    requires params != [] && call != [] && IsScalar(call[0].bare)
    ensures SignatureList(call) == SignatureList(params) <==>
            params[0].bare == call[0].bare && SignatureList(call[1..]) == SignatureList(params[1..])
  {
    var a, p := call[0].bare, params[0].bare;
    SignatureKind(a);
    SignatureKind(p);
    assert |Signature(a)| == 1;
    var s, t := SignatureList(call), SignatureList(params);
    assert s == ParameterSignature(call[0]) + SignatureList(call[1..]);
    assert t == ParameterSignature(params[0]) + SignatureList(params[1..]);
    assert s[0] == Signature(a)[0] && t[0] == Signature(p)[0];
    assert s[1..] == SignatureList(call[1..]);
    if Signature(a)[0] == Signature(p)[0] {
      assert |Signature(p)| == 1;
      assert Signature(p) == Signature(a);
      ScalarSignature(a, p);
      assert t[1..] == SignatureList(params[1..]);
    }
  }

  lemma ScalarOverloads(overloads: seq<Prototype>, call: seq<CType>)
    requires ScalarCall(call)
    ensures forall j :: 0 <= j < |overloads| ==> (Exact(overloads[j], call) <==> TakesExactly(overloads[j].params, call))
  {
    forall j | 0 <= j < |overloads|
      ensures Exact(overloads[j], call) <==> TakesExactly(overloads[j].params, call)
    {
      ScalarExact(overloads[j].params, call);
    }
  }

  /** Keeping or dropping the overloads seen so far. */
  method Keep(ghost fits: seq<Fit>, n: nat, fit: Fit, kept: seq<nat>, best: nat)
    returns (kept': seq<nat>, best': nat)
    requires n < |fits| && fit == fits[n]
    requires if kept == [] then NoneFits(fits[..n]) && best == 0
             else Candidates(fits[..n], kept) && best == Cost(fits[kept[0]])
    ensures if kept' == [] then NoneFits(fits[..n + 1]) && best' == 0
            else Candidates(fits[..n + 1], kept') && best' == Cost(fits[kept'[0]])
  {
    kept', best' := kept, best;
    ghost var before, after := fits[..n], fits[..n + 1];
    assert forall k :: 0 <= k < n ==> after[k] == before[k];
    if kept != [] {
      NextOverload(fits, n, kept[0]);
    }
    if fit.Variadic? {
      kept' := kept + [n];
    } else if fit.Fits? {
      if kept == [] {
        kept', best' := [n], fit.cost;
      } else if fit.cost < best {
        kept', best' := [n], fit.cost;
      } else if fit.cost == best {
        kept' := kept + [n];
      }
    }
  }

  datatype Resolution =
    | NoMatch
    | Found(overload: nat, ambiguous: bool, faults: seq<Fault>)

  /** The overload with the signature of the call when there is one, for arithmetic
      arguments the first with their types, and otherwise the
      chosen one; there is no match exactly when none fits.  The call is checked
      against the overload unless it is reported as ambiguous, which it is when the
      overload needs two conversions or more. */
  method CheckMangledFunctionCall(ocl: bool, overloads: seq<Prototype>, call: seq<CType>)
    returns (r: Resolution, kept: seq<nat>)
    ensures r.Found? ==> r.overload < |overloads|
    ensures !NoneExact(overloads, call) ==> r.Found? && FirstExact(overloads, call, r.overload)
    ensures ScalarCall(call) && (exists j :: 0 <= j < |overloads| && TakesExactly(overloads[j].params, call)) ==>
              && r.Found? && TakesExactly(overloads[r.overload].params, call)
              && forall j :: 0 <= j < r.overload ==> !TakesExactly(overloads[j].params, call)
    ensures NoneExact(overloads, call) ==>
              var fits := FitsOf(ocl, overloads, call);
              && (r == NoMatch <==> NoneFits(fits))
              && (r.Found? ==> Chosen(fits, r.overload))
              && (r.Found? ==> Candidates(fits, kept) && r.overload == kept[0])
              && (r.Found? ==> (r.ambiguous <==> Cost(fits[r.overload]) > 1))
    ensures r.Found? && !NoneExact(overloads, call) ==> !r.ambiguous
    ensures r.Found? && r.ambiguous ==> r.faults == []
    ensures r.Found? && !r.ambiguous ==> forall f :: f in r.faults <==> IsFault(f, overloads[r.overload], call)
  {
    hide TakesExactly, Exact, ScalarCall;
    if ScalarCall(call) {
      ScalarOverloads(overloads, call);
    }
    var i := 0;
    kept := [];
    while i < |overloads|
      invariant 0 <= i <= |overloads|
      invariant forall j :: 0 <= j < i ==> !Exact(overloads[j], call)
    {
      if Exact(overloads[i], call) {
        var faults := CheckFunctionCall(overloads[i], call);
        return Found(i, false, faults), [];
      }
      i := i + 1;
    }
    ghost var fits := FitsOf(ocl, overloads, call);
    var best := 0;
    i := 0;
    while i < |overloads|
      invariant 0 <= i <= |overloads|
      invariant if kept == [] then NoneFits(fits[..i]) && best == 0
                else Candidates(fits[..i], kept) && best == Cost(fits[kept[0]])
    {
      var fit := Compare(ocl, overloads[i], call);
      kept, best := Keep(fits, i, fit, kept, best);
      i := i + 1;
    }
    assert fits[..i] == fits;
    if kept == [] {
      return NoMatch, kept;
    }
    if best > 1 {
      return Found(kept[0], true, []), kept;
    }
    var faults := CheckFunctionCall(overloads[kept[0]], call);
    r := Found(kept[0], false, faults);
  }

  // ---------------------------------------------------------------------
  // Whether the chosen overload passes the final check
  // ---------------------------------------------------------------------


  /** What equal signatures do not tell: structures and unions are written as the
      length of their name. */
  predicate SameTag(param: CType, arg: CType) {
    !param.IsVoid() && (IsTagged(param) || IsTagged(arg) ==> param.bare == arg.bare)
  }

  /** Equal signatures are assignable but for void, and for structures and unions that
      are not the same. */
  lemma SameSignatureAssignable(param: CType, arg: CType)
    requires Matches(param, arg)
    ensures Assignable(param, arg) <==> SameTag(param, arg)
  {
    SignatureKind(param.bare);
    SignatureKind(arg.bare);
    if param.IsVector() && arg.IsVector() {
      VectorSignatureInjective(param.bare, arg.bare);
    }
  }

  /** An overload that fits passes the final check exactly when no matching argument is
      another structure or void and no converted one is a pointer or label given to a
      float vector. */
  lemma FittingIsAccepted(ocl: bool, p: Prototype, call: seq<CType>)
    requires FitOf(ocl, p, call).Fits?
    ensures Accepted(p, call) <==>
            Unprototyped(p) ||
            forall i :: 0 <= i < |call| ==>
              if Matches(p.params[i], call[i]) then SameTag(p.params[i], call[i])
              else !LabelToFloatVector(p.params[i], call[i])
  {
    forall i | 0 <= i < |call|
      ensures Assignable(p.params[i], call[i]) <==>
              if Matches(p.params[i], call[i]) then SameTag(p.params[i], call[i])
              else !LabelToFloatVector(p.params[i], call[i])
    {
      if Matches(p.params[i], call[i]) {
        SameSignatureAssignable(p.params[i], call[i]);
      } else {
        RelationsAgree(ocl, p.params[i], call[i]);
        if LabelToFloatVector(p.params[i], call[i]) {
          LabelToFloatVectorDisagrees(ocl, p.params[i], call[i]);
        }
      }
    }
  }

  /** The call has the signature of each parameter. */
  predicate MatchesThroughout(p: Prototype, call: seq<CType>) {
    |call| == |p.params| && forall i :: 0 <= i < |call| ==> Matches(p.params[i], call[i])
  }

  lemma {:induction false} MatchingIsExact(params: seq<CType>, call: seq<CType>)
    requires |call| == |params| && forall i :: 0 <= i < |call| ==> Matches(params[i], call[i])
    ensures SignatureList(call) == SignatureList(params)
    decreases |params|
  {
    if params != [] {
      assert Matches(params[0], call[0]);
      MatchingIsExact(params[1..], call[1..]);
    }
  }

  /** An overload with the signature of each argument is exact and fits without
      conversion, and passes the final check unless an argument is another structure or
      void. */
  lemma MatchingIsAccepted(ocl: bool, p: Prototype, call: seq<CType>)
    requires MatchesThroughout(p, call)
    ensures Exact(p, call) && FitOf(ocl, p, call) == Fits(0)
    ensures Accepted(p, call) <==>
            Unprototyped(p) || forall i :: 0 <= i < |call| ==> SameTag(p.params[i], call[i])
  {
    MatchingIsExact(p.params, call);
    assert Conversions(p.params, call, |call|) == {};
    FittingIsAccepted(ocl, p, call);
  }

  /** For separable types the exact overloads are these. */
  lemma ExactMatchesThroughout(spaces: bool, p: Prototype, call: seq<CType>)
    requires SeparableList(spaces, p.params) && SeparableList(spaces, call)
    ensures Exact(p, call) <==> MatchesThroughout(p, call)
  {
    if Exact(p, call) {
      SignatureListInjective(spaces, call, p.params);
    } else if MatchesThroughout(p, call) {
      MatchingIsExact(p.params, call);
    }
  }

  /** Exactly when an exact overload passes the final check, whatever the types.  For
      separable types every exact overload matches throughout. */
  lemma ExactIsAccepted(p: Prototype, call: seq<CType>)
    requires Exact(p, call)
    ensures Accepted(p, call) <==>
            || (MatchesThroughout(p, call) && forall i :: 0 <= i < |call| ==> SameTag(p.params[i], call[i]))
            || (|call| == |p.params| && !MatchesThroughout(p, call) &&
                forall i :: 0 <= i < |call| ==> Assignable(p.params[i], call[i]))
            || (|call| > |p.params| && p.variadic)
            || Unprototyped(p)
  {
    if MatchesThroughout(p, call) {
      MatchingIsAccepted(false, p, call);
    }
  }

  /** A call of f(const char *, u) is given to f(__constant u *), and fails, for every
      type u and all qualifiers; and the same with const long and __local. */
  lemma ExactMayFail(pointee: CType, letter: CType, u: CType, voidList: bool)
    requires pointee.Qualified? && letter.Qualified? && letter.space == NoSpace
    requires SameLetter(pointee.space, letter.bare) && pointee.bare == u.bare
    ensures var p, call := Prototype([Plain(Pointer(pointee))], false, voidList), [Plain(Pointer(letter)), u];
            Exact(p, call) && !Accepted(p, call)
  {
    SignaturesRunTogether(pointee, letter, u);
  }

  /** A call of f(struct ab) with a struct cd is given to it as exact, and fails. */
  lemma ExactTagMayFail(m: string, n: string, i: nat, j: nat)
    requires |m| == |n| && Struct(m, i) != Struct(n, j)
    ensures var p := Prototype([Plain(Struct(m, i))], false, false);
            Exact(p, [Plain(Struct(n, j))]) && !Accepted(p, [Plain(Struct(n, j))])
  {
    var p, call := Prototype([Plain(Struct(m, i))], false, false), [Plain(Struct(n, j))];
    assert p.params[1..] == [] == call[1..];
    assert ParameterSignature(p.params[0]) == ParameterSignature(call[0]);
    assert SignatureList(p.params) == ParameterSignature(p.params[0]) + SignatureList([]);
    assert SignatureList(call) == ParameterSignature(call[0]) + SignatureList([]);
    assert !Assignable(p.params[0], call[0]);
  }
}
