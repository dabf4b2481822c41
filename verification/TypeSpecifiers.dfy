/** The specifiers and qualifiers of a declaration: they are collected one by one, and
    then make a type. */
module TypeSpecifiers {
  import opened Wrappers
  import opened CTypes

  type NamedSpace = s: AddressSpace | s != NoSpace witness Global

  /** The type specifiers of which a declaration has at most one. */
  datatype BaseSpecifier =
    | VoidBase
    | BoolBase
    | CharBase
    | IntBase
    | FloatBase
    | DoubleBase
    | ComplexBase
    | ImaginaryBase
    | ValistBase
    | VectorOrTag(sub: Bare)
    | TypedefName(named: CType)
    | Typeof(named: CType)

  datatype Specifier =
    | Base(base: BaseSpecifier)
    | ShortWord
    | LongWord
    | SignedWord
    | UnsignedWord
    | ConstWord
    | VolatileWord
    | RestrictWord
    | Space(space: NamedSpace)

  datatype Size = NoSize | ShortSize | LongSize | LongLongSize

  datatype Sign = NoSign | SignedSign | UnsignedSign

  /** What the ABI of the source allows. */
  datatype Allowed = Allowed(longLong: bool, longDouble: bool)

  // ---------------------------------------------------------------------
  // The collector
  // ---------------------------------------------------------------------

  /** The fields of the collector, and whether an error was raised. */
  datatype State = State(base: Option<BaseSpecifier>, size: Size, sign: Sign,
                         isConst: bool, isVolatile: bool, isRestrict: bool, space: AddressSpace,
                         failed: bool)

  const START := State(None, NoSize, NoSign, false, false, false, NoSpace, false)

  function Step(st: State, spec: Specifier): State {
    match spec
    case Base(b) => st.(base := Some(b), failed := st.failed || st.base.Some?)
    case ShortWord => st.(size := ShortSize, failed := st.failed || st.size in {LongSize, LongLongSize})
    case LongWord =>
      (match st.size
       case NoSize => st.(size := LongSize)
       case LongSize => st.(size := LongLongSize)
       case _ => st.(failed := true))
    case SignedWord => st.(sign := SignedSign, failed := st.failed || st.sign == UnsignedSign)
    case UnsignedWord => st.(sign := UnsignedSign, failed := st.failed || st.sign == SignedSign)
    case ConstWord => st.(isConst := true)
    case VolatileWord => st.(isVolatile := true)
    case RestrictWord => st.(isRestrict := true)
    case Space(s) =>
      if s == st.space then st
      else if st.space != NoSpace then st.(failed := true)
      else st.(space := s)
  }

  function Run(specs: seq<Specifier>): State {
    if specs == [] then START else Step(Run(specs[..|specs| - 1]), specs[|specs| - 1])
  }

  function Integral(base: CTypes.IntBase, sign: Sign): Bare {
    Integer(base, sign != UnsignedSign)
  }

  /** The type without the qualifiers collected. */
  function Unqualified(st: State): CType {
    match st.base
    case Some(VoidBase) => Plain(Void)
    case Some(BoolBase) => Plain(Bool)
    case Some(CharBase) => Plain(Integral(Char, st.sign))
    case Some(FloatBase) => Plain(Floating(Float))
    case Some(DoubleBase) => Plain(Floating(if st.size == LongSize then LongDouble else Double))
    case Some(VectorOrTag(sub)) => Plain(sub)
    case Some(TypedefName(named)) => named
    case Some(Typeof(named)) => named
    case Some(ComplexBase) => Plain(Integer(Int, true))
    case Some(ImaginaryBase) => Plain(Integer(Int, true))
    case Some(ValistBase) => Plain(Integer(Int, true))
    case _ =>
      (match st.size
       case NoSize => Plain(Integral(Int, st.sign))
       case ShortSize => Plain(Integral(CTypes.Short, st.sign))
       case LongSize => Plain(Integral(CTypes.Long, st.sign))
       case LongLongSize => Plain(Integral(LongLong, st.sign)))
  }

  /** The errors raised when the type is made. */
  predicate Misfit(allowed: Allowed, st: State) {
    match st.base
    case Some(CharBase) => st.size != NoSize
    case Some(FloatBase) => st.size != NoSize || st.sign != NoSign
    case Some(DoubleBase) =>
      st.size in {ShortSize, LongLongSize} || st.sign != NoSign || (st.size == LongSize && !allowed.longDouble)
    case Some(ComplexBase) => false
    case Some(ImaginaryBase) => false
    case Some(ValistBase) => false
    case Some(TypedefName(named)) => st.size != NoSize || st.sign != NoSign || SpaceClash(named, st.space)
    case Some(Typeof(named)) => st.size != NoSize || st.sign != NoSign || SpaceClash(named, st.space)
    case None => st.size == LongLongSize && !allowed.longLong
    case Some(IntBase) => st.size == LongLongSize && !allowed.longLong
    case _ => st.size != NoSize || st.sign != NoSign
  }

  predicate SpaceClash(named: CType, space: AddressSpace) {
    named.Qualified? && named.space != NoSpace && space != NoSpace && named.space != space
  }

  /** The type with the qualifiers collected, merged with those it has. */
  function Qualify(t: CType, st: State): CType {
    if !st.isConst && !st.isVolatile && !st.isRestrict && st.space == NoSpace then t
    else
      match t
      case Plain(b) => Qualified(st.space, st.isConst, st.isVolatile, st.isRestrict, b)
      case Qualified(space, c, v, r, b) =>
        Qualified(if space == NoSpace then st.space else space,
                  c || st.isConst, v || st.isVolatile, r || st.isRestrict, b)
  }

  /** The type of a declaration, unless an error was raised. */
  function Outcome(allowed: Allowed, st: State): Option<CType> {
    if st.failed || Misfit(allowed, st) then None else Some(Qualify(Unqualified(st), st))
  }

  class TypeSpecifierQualifier {
    var base: Option<BaseSpecifier>
    var size: Size
    var sign: Sign
    var isConst: bool
    var isVolatile: bool
    var isRestrict: bool
    var space: AddressSpace
    var failed: bool

    ghost function Value(): State reads this {
      State(base, size, sign, isConst, isVolatile, isRestrict, space, failed)
    }

    constructor ()
      ensures Value() == START
    {
      base, size, sign := None, NoSize, NoSign;
      isConst, isVolatile, isRestrict, space, failed := false, false, false, NoSpace, false;
    }

    method CheckMultipleDataType()
      modifies this`failed
      ensures failed == (old(failed) || base.Some?)
    {
      if base != None {
        failed := true;
      }
    }

    method SetBase(b: BaseSpecifier)
      modifies this
      ensures Value() == Step(old(Value()), Base(b))
    {
      CheckMultipleDataType();
      base := Some(b);
    }

    method SetShort()
      modifies this
      ensures Value() == Step(old(Value()), ShortWord)
    {
      if size == LongSize || size == LongLongSize {
        failed := true;
      }
      size := ShortSize;
    }

    method SetLong()
      modifies this
      ensures Value() == Step(old(Value()), LongWord)
    {
      if size == ShortSize {
        failed := true;
      } else if size == LongLongSize {
        failed := true;
      } else if size == LongSize {
        size := LongLongSize;
      } else {
        size := LongSize;
      }
    }

    method SetSigned()
      modifies this
      ensures Value() == Step(old(Value()), SignedWord)
    {
      if sign == UnsignedSign {
        failed := true;
      }
      sign := SignedSign;
    }

    method SetUnsigned()
      modifies this
      ensures Value() == Step(old(Value()), UnsignedWord)
    {
      if sign == SignedSign {
        failed := true;
      }
      sign := UnsignedSign;
    }

    method SetConst()
      modifies this
      ensures Value() == Step(old(Value()), ConstWord)
    {
      isConst := true;
    }

    method SetVolatile()
      modifies this
      ensures Value() == Step(old(Value()), VolatileWord)
    {
      isVolatile := true;
    }

    method SetRestrict()
      modifies this
      ensures Value() == Step(old(Value()), RestrictWord)
    {
      isRestrict := true;
    }

    method SetAddressSpace(s: NamedSpace)
      modifies this
      ensures Value() == Step(old(Value()), Space(s))
    {
      if s != space {
        if space != NoSpace {
          failed := true;
        } else {
          space := s;
        }
      }
    }

    method CheckNoSizeSign()
      modifies this`failed
      ensures failed == (old(failed) || size != NoSize || sign != NoSign)
    {
      if size != NoSize || sign != NoSign {
        failed := true;
      }
    }

    /** The type, and the errors of the combination. */
    method GetType(allowed: Allowed) returns (t: CType)
      modifies this`failed
      ensures failed == (old(failed) || Misfit(allowed, old(Value())))
      ensures t == Qualify(Unqualified(old(Value())), old(Value()))
      ensures Outcome(allowed, old(Value())) == if failed then None else Some(t)
    {
      t := SpecifiedType(allowed);
      t := MergeQualifiers(t);
    }

    method SpecifiedType(allowed: Allowed) returns (t: CType)
      modifies this`failed
      ensures t == Unqualified(old(Value()))
      ensures (failed || SpaceClash(t, space)) == (old(failed) || Misfit(allowed, old(Value())))
    {
      match base
      case Some(VoidBase) =>
        CheckNoSizeSign();
        t := Plain(Void);
      case Some(BoolBase) =>
        CheckNoSizeSign();
        t := Plain(Bool);
      case Some(CharBase) =>
        if size != NoSize {
          failed := true;
        }
        t := Plain(Integer(Char, sign != UnsignedSign));
      case Some(FloatBase) =>
        CheckNoSizeSign();
        t := Plain(Floating(Float));
      case Some(DoubleBase) =>
        if (size != NoSize && size != LongSize) || sign != NoSign {
          failed := true;
        }
        if size == LongSize && !allowed.longDouble {
          failed := true;
        }
        t := Plain(Floating(if size == LongSize then LongDouble else Double));
      case Some(VectorOrTag(sub)) =>
        CheckNoSizeSign();
        t := Plain(sub);
      case Some(TypedefName(named)) =>
        CheckNoSizeSign();
        t := named;
      case Some(Typeof(named)) =>
        CheckNoSizeSign();
        t := named;
      case Some(ComplexBase) => t := Plain(Integer(Int, true));
      case Some(ImaginaryBase) => t := Plain(Integer(Int, true));
      case Some(ValistBase) => t := Plain(Integer(Int, true));
      case _ => t := IntegerType(allowed);
    }

    method IntegerType(allowed: Allowed) returns (t: CType)
      modifies this`failed
      ensures failed == (old(failed) || (size == LongLongSize && !allowed.longLong))
      ensures base in {None, Some(IntBase)} ==> t == Unqualified(Value())
    {
      var signed := sign != UnsignedSign;
      match size
      case ShortSize => t := Plain(Integer(CTypes.Short, signed));
      case LongSize => t := Plain(Integer(CTypes.Long, signed));
      case LongLongSize =>
        if !allowed.longLong {
          failed := true;
        }
        t := Plain(Integer(LongLong, signed));
      case NoSize => t := Plain(Integer(Int, signed));
    }

    /** A qualifier is only made when there is something to qualify. */
    method MergeQualifiers(t: CType) returns (q: CType)
      modifies this`failed
      ensures failed == (old(failed) || SpaceClash(t, space))
      ensures q == Qualify(t, old(Value()))
    {
      if !isConst && !isVolatile && !isRestrict && space == NoSpace {
        return t;
      }
      q := if t.Qualified? then t else Qualified(NoSpace, false, false, false, t.bare);
      if isConst {
        q := q.(isConst := true);
      }
      if isVolatile {
        q := q.(isVolatile := true);
      }
      if isRestrict {
        q := q.(isRestrict := true);
      }
      if space != NoSpace && space != q.space {
        if q.space != NoSpace {
          failed := true;
        } else {
          q := q.(space := space);
        }
      }
    }
  }

  // ---------------------------------------------------------------------
  // The declaration, from how often each specifier occurs
  // ---------------------------------------------------------------------

  ghost predicate SeveralBases(m: multiset<Specifier>) {
    || (exists a: BaseSpecifier :: m[Base(a)] >= 2)
    || (exists a: BaseSpecifier, b: BaseSpecifier :: a != b && Base(a) in m && Base(b) in m)
  }

  ghost predicate SeveralSpaces(m: multiset<Specifier>) {
    exists s: NamedSpace, s': NamedSpace :: s != s' && Space(s) in m && Space(s') in m
  }

  /** Specifiers that cannot be together, whatever the type. */
  ghost predicate Conflict(m: multiset<Specifier>) {
    || SeveralBases(m)
    || (ShortWord in m && LongWord in m)
    || m[LongWord] > 2
    || (SignedWord in m && UnsignedWord in m)
    || SeveralSpaces(m)
  }

  function SizeIn(m: multiset<Specifier>): Size {
    if ShortWord in m then ShortSize
    else if m[LongWord] == 0 then NoSize
    else if m[LongWord] == 1 then LongSize
    else LongLongSize
  }

  function SignIn(m: multiset<Specifier>): Sign {
    if SignedWord in m then SignedSign else if UnsignedWord in m then UnsignedSign else NoSign
  }

  /** The collector holds what the specifiers say. */
  ghost predicate Holds(st: State, m: multiset<Specifier>) {
    && (forall b :: Base(b) in m <==> st.base == Some(b))
    && st.size == SizeIn(m)
    && st.sign == SignIn(m)
    && (st.isConst <==> ConstWord in m)
    && (st.isVolatile <==> VolatileWord in m)
    && (st.isRestrict <==> RestrictWord in m)
    && (forall s: NamedSpace :: Space(s) in m <==> st.space == s)
  }

  lemma BaseHolds(st: State, m: multiset<Specifier>, b: BaseSpecifier)
    requires Holds(st, m) && !Conflict(m)
    ensures var m' := m + multiset{Base(b)};
            (Conflict(m') <==> st.base.Some?) && (st.base.None? ==> Holds(Step(st, Base(b)), m'))
  {
    var m' := m + multiset{Base(b)};
    if st.base.Some? {
      assert Base(st.base.value) in m;
      assert st.base.value == b ==> m'[Base(b)] >= 2;
      assert Base(b) in m' && Base(st.base.value) in m';
    }
  }

  lemma SpaceHolds(st: State, m: multiset<Specifier>, s: NamedSpace)
    requires Holds(st, m) && !Conflict(m) && !st.failed
    ensures var m' := m + multiset{Space(s)};
            var st' := Step(st, Space(s));
            (Conflict(m') <==> st'.failed) && (!st'.failed ==> Holds(st', m'))
  {
    var m' := m + multiset{Space(s)};
    assert Space(s) in m';
    if st.space != NoSpace {
      assert Space(st.space) in m;
      assert Space(st.space) in m';
    }
  }

  /** One more specifier. */
  lemma StepHolds(st: State, m: multiset<Specifier>, spec: Specifier)
    requires st.failed == Conflict(m) && (!st.failed ==> Holds(st, m))
    ensures var st', m' := Step(st, spec), m + multiset{spec};
            st'.failed == Conflict(m') && (!st'.failed ==> Holds(st', m'))
  {
    var m' := m + multiset{spec};
    if st.failed {
      ConflictStays(m, spec);
    } else if spec.Base? {
      BaseHolds(st, m, spec.base);
    } else if spec.Space? {
      SpaceHolds(st, m, spec.space);
    } else {
      WordHolds(st, m, spec);
    }
  }

  lemma ConflictStays(m: multiset<Specifier>, spec: Specifier)
    requires Conflict(m)
    ensures Conflict(m + multiset{spec})
  {
    var m' := m + multiset{spec};
    assert forall x :: m'[x] >= m[x];
  }

  /** m' is m with one more word, and the same bases and address spaces. */
  ghost predicate OneMoreWord(m: multiset<Specifier>, m': multiset<Specifier>, word: Specifier) {
    && (SeveralBases(m') <==> SeveralBases(m)) && (SeveralSpaces(m') <==> SeveralSpaces(m))
    && (forall b :: Base(b) in m' <==> Base(b) in m)
    && (forall s: NamedSpace :: Space(s) in m' <==> Space(s) in m)
    && (forall x :: x != word ==> m'[x] == m[x])
    && m'[word] == m[word] + 1
  }

  lemma WordKeepsOthers(m: multiset<Specifier>, word: Specifier)
    requires !word.Base? && !word.Space?
    ensures OneMoreWord(m, m + multiset{word}, word)
  {
    var m' := m + multiset{word};
    assert forall a :: m'[Base(a)] == m[Base(a)];
    assert forall s: NamedSpace :: m'[Space(s)] == m[Space(s)];
  }

  lemma WordHolds(st: State, m: multiset<Specifier>, spec: Specifier)
    requires Holds(st, m) && !Conflict(m) && !st.failed && !spec.Base? && !spec.Space?
    ensures var st', m' := Step(st, spec), m + multiset{spec};
            st'.failed == Conflict(m') && (!st'.failed ==> Holds(st', m'))
  {
    hide Holds, Conflict, Step, OneMoreWord;
    WordKeepsOthers(m, spec);
    match spec
    case ShortWord => SizeWordHolds(st, m, m + multiset{spec}, spec);
    case LongWord => SizeWordHolds(st, m, m + multiset{spec}, spec);
    case SignedWord => SignWordHolds(st, m, m + multiset{spec}, spec);
    case UnsignedWord => SignWordHolds(st, m, m + multiset{spec}, spec);
    case _ => QualifierHolds(st, m, m + multiset{spec}, spec);
  }

  lemma SizeWordHolds(st: State, m: multiset<Specifier>, m': multiset<Specifier>, word: Specifier)
    requires Holds(st, m) && !Conflict(m) && !st.failed && OneMoreWord(m, m', word)
    requires word == ShortWord || word == LongWord
    ensures var st' := Step(st, word);
            st'.failed == Conflict(m') && (!st'.failed ==> Holds(st', m'))
  {
    hide SeveralBases, SeveralSpaces;
  }

  lemma SignWordHolds(st: State, m: multiset<Specifier>, m': multiset<Specifier>, word: Specifier)
    requires Holds(st, m) && !Conflict(m) && !st.failed && OneMoreWord(m, m', word)
    requires word == SignedWord || word == UnsignedWord
    ensures var st' := Step(st, word);
            st'.failed == Conflict(m') && (!st'.failed ==> Holds(st', m'))
  {
    hide SeveralBases, SeveralSpaces;
  }

  lemma QualifierHolds(st: State, m: multiset<Specifier>, m': multiset<Specifier>, word: Specifier)
    requires Holds(st, m) && !Conflict(m) && !st.failed && OneMoreWord(m, m', word)
    requires word == ConstWord || word == VolatileWord || word == RestrictWord
    ensures var st' := Step(st, word);
            st'.failed == Conflict(m') && (!st'.failed ==> Holds(st', m'))
  {
    hide SeveralBases, SeveralSpaces;
  }

  /** An error is raised exactly when two specifiers conflict, and otherwise the
      collector holds what they say, in whatever order they come. */
  lemma {:induction false} RunHolds(specs: seq<Specifier>)
    ensures var st := Run(specs);
            st.failed == Conflict(multiset(specs)) && (!st.failed ==> Holds(st, multiset(specs)))
  {
    if specs != [] {
      var n := |specs| - 1;
      RunHolds(specs[..n]);
      StepHolds(Run(specs[..n]), multiset(specs[..n]), specs[n]);
      assert specs == specs[..n] + [specs[n]];
      assert multiset(specs) == multiset(specs[..n]) + multiset{specs[n]};
    }
  }

  lemma HoldsUnique(s: State, t: State, m: multiset<Specifier>)
    requires Holds(s, m) && Holds(t, m) && s.failed == t.failed
    ensures s == t
  {
    assert s.space != NoSpace ==> Space(s.space) in m;
    assert t.space != NoSpace ==> Space(t.space) in m;
    assert s.base.Some? ==> Base(s.base.value) in m;
    assert t.base.Some? ==> Base(t.base.value) in m;
  }

  /** Any two orders of the same specifiers are both refused or give the same type. */
  lemma OrderDoesNotMatter(allowed: Allowed, specs: seq<Specifier>, others: seq<Specifier>)
    requires multiset(specs) == multiset(others)
    ensures Outcome(allowed, Run(specs)) == Outcome(allowed, Run(others))
  {
    RunHolds(specs);
    RunHolds(others);
    if !Run(specs).failed {
      HoldsUnique(Run(specs), Run(others), multiset(specs));
    }
  }

  // ---------------------------------------------------------------------
  // The type of a declaration (C99 6.7.2), from the specifiers that occur
  // ---------------------------------------------------------------------

  /** b is the base specifier that occurs, or None when there is none. */
  ghost predicate HasBase(m: multiset<Specifier>, b: Option<BaseSpecifier>) {
    match b
    case Some(base) => Base(base) in m
    case None => forall base :: Base(base) !in m
  }

  predicate Sized(m: multiset<Specifier>) { ShortWord in m || LongWord in m }

  predicate HasSign(m: multiset<Specifier>) { SignedWord in m || UnsignedWord in m }

  /** The type that a typedef name or typeof stands for. */
  function NamedBy(b: Option<BaseSpecifier>): Option<CType> {
    match b
    case Some(TypedefName(named)) => Some(named)
    case Some(Typeof(named)) => Some(named)
    case _ => None
  }

  function SpaceOf(t: CType): AddressSpace { if t.Qualified? then t.space else NoSpace }
  predicate IsConst(t: CType) { t.Qualified? && t.isConst }
  predicate IsVolatile(t: CType) { t.Qualified? && t.isVolatile }
  predicate IsRestrict(t: CType) { t.Qualified? && t.isRestrict }

  /** The base goes with the size, sign and address space words that occur. */
  ghost predicate Admits(allowed: Allowed, m: multiset<Specifier>, b: Option<BaseSpecifier>) {
    match b
    case None => m[LongWord] == 2 ==> allowed.longLong
    case Some(IntBase) => m[LongWord] == 2 ==> allowed.longLong
    case Some(CharBase) => !Sized(m)
    case Some(DoubleBase) =>
      ShortWord !in m && m[LongWord] <= 1 && !HasSign(m) && (LongWord in m ==> allowed.longDouble)
    case Some(ComplexBase) => true
    case Some(ImaginaryBase) => true
    case Some(ValistBase) => true
    case _ =>
      && !Sized(m) && !HasSign(m)
      && (NamedBy(b).Some? ==> forall s: NamedSpace :: Space(s) in m ==> SpaceOf(NamedBy(b).value) in {NoSpace, s})
  }

  /** The type without qualifiers is that of the base, size and sign words. */
  ghost predicate BareFrom(m: multiset<Specifier>, b: Option<BaseSpecifier>, t: Bare) {
    match b
    case None => IntegerFrom(m, t)
    case Some(IntBase) => IntegerFrom(m, t)
    case Some(VoidBase) => t == Void
    case Some(BoolBase) => t == Bool
    case Some(CharBase) => t == Integer(Char, UnsignedWord !in m)
    case Some(FloatBase) => t == Floating(Float)
    case Some(DoubleBase) => t == if LongWord in m then Floating(LongDouble) else Floating(Double)
    case Some(VectorOrTag(sub)) => t == sub
    case Some(TypedefName(named)) => t == named.bare
    case Some(Typeof(named)) => t == named.bare
    case Some(ComplexBase) => t == Integer(Int, true)
    case Some(ImaginaryBase) => t == Integer(Int, true)
    case Some(ValistBase) => t == Integer(Int, true)
  }

  ghost predicate IntegerFrom(m: multiset<Specifier>, t: Bare) {
    && t.Integer?
    && (t.signed <==> UnsignedWord !in m)
    && (t.base == CTypes.Short <==> ShortWord in m)
    && (t.base == CTypes.Long <==> m[LongWord] == 1)
    && (t.base == LongLong <==> m[LongWord] == 2)
    && (t.base == Int <==> !Sized(m))
  }

  /** The qualifiers are those written and those of the named type. */
  ghost predicate QualifiersFrom(m: multiset<Specifier>, b: Option<BaseSpecifier>, t: CType) {
    var named := if NamedBy(b).Some? then NamedBy(b).value else Plain(Void);
    && (IsConst(t) <==> ConstWord in m || IsConst(named))
    && (IsVolatile(t) <==> VolatileWord in m || IsVolatile(named))
    && (IsRestrict(t) <==> RestrictWord in m || IsRestrict(named))
    && (forall s: NamedSpace :: SpaceOf(t) == s <==> Space(s) in m || SpaceOf(named) == s)
    && (t.Qualified? ==> IsConst(t) || IsVolatile(t) || IsRestrict(t) || SpaceOf(t) != NoSpace || named.Qualified?)
    && (named.Qualified? ==> t.Qualified?)
  }

  lemma MisfitMeans(allowed: Allowed, st: State, m: multiset<Specifier>, b: Option<BaseSpecifier>)
    requires Holds(st, m) && !Conflict(m) && HasBase(m, b)
    ensures st.base == b
    ensures Misfit(allowed, st) <==> !Admits(allowed, m, b)
  {
    assert st.base.Some? ==> Base(st.base.value) in m;
    hide Conflict;
    ConflictFacts(m);
    if st.space != NoSpace {
      assert Space(st.space) in m;
    }
  }

  lemma ConflictFacts(m: multiset<Specifier>)
    requires !Conflict(m)
    ensures !(ShortWord in m && LongWord in m) && m[LongWord] <= 2 && !(SignedWord in m && UnsignedWord in m)
  {
  }

  lemma BareMeans(st: State, m: multiset<Specifier>, b: Option<BaseSpecifier>)
    requires Holds(st, m) && !Conflict(m) && st.base == b
    ensures BareFrom(m, b, Unqualified(st).bare) || (b == Some(DoubleBase) && ShortWord in m) || (b == Some(DoubleBase) && m[LongWord] == 2)
    ensures NamedBy(b).Some? ==> Unqualified(st) == NamedBy(b).value
    ensures NamedBy(b).None? ==> Unqualified(st).Plain?
  {
    hide Conflict, Holds;
    ConflictFacts(m);
    WordsHeld(st, m);
  }

  lemma WordsHeld(st: State, m: multiset<Specifier>)
    requires Holds(st, m)
    ensures st.size == SizeIn(m) && st.sign == SignIn(m)
    ensures (st.isConst <==> ConstWord in m) && (st.isVolatile <==> VolatileWord in m)
    ensures (st.isRestrict <==> RestrictWord in m) && forall s: NamedSpace :: Space(s) in m <==> st.space == s
  {
  }

  lemma QualifiersMean(st: State, m: multiset<Specifier>, b: Option<BaseSpecifier>, t: CType)
    requires Holds(st, m) && (NamedBy(b).Some? ==> t == NamedBy(b).value) && (NamedBy(b).None? ==> t.Plain?)
    requires !SpaceClash(t, st.space)
    ensures QualifiersFrom(m, b, Qualify(t, st)) && Qualify(t, st).bare == t.bare
  {
    hide Holds;
    WordsHeld(st, m);
    var q := Qualify(t, st);
    var named := if NamedBy(b).Some? then NamedBy(b).value else Plain(Void);
    assert SpaceOf(named) == SpaceOf(t) && IsConst(named) == IsConst(t);
    assert SpaceOf(q) == if SpaceOf(t) == NoSpace then st.space else SpaceOf(t);
    forall s: NamedSpace
      ensures SpaceOf(q) == s <==> Space(s) in m || SpaceOf(named) == s
    {
      assert Space(s) in m <==> st.space == s;
    }
  }

  /** A declaration is refused exactly when two of its specifiers conflict or the base does
      not go with the others; else its type is that of the base and the words that occur,
      with the qualifiers written and those of a named type. */
  lemma SpecifiersMean(allowed: Allowed, specs: seq<Specifier>, b: Option<BaseSpecifier>)
    requires HasBase(multiset(specs), b)
    ensures var m, outcome := multiset(specs), Outcome(allowed, Run(specs));
            && (outcome.None? <==> Conflict(m) || !Admits(allowed, m, b))
            && (outcome.Some? ==> BareFrom(m, b, outcome.value.bare) && QualifiersFrom(m, b, outcome.value))
  {
    var m, st := multiset(specs), Run(specs);
    RunHolds(specs);
    hide Holds, Conflict, HasBase, Run, BareFrom, QualifiersFrom, Qualify, Unqualified;
    if !Conflict(m) {
      MisfitMeans(allowed, st, m, b);
      BareMeans(st, m, b);
      if !Misfit(allowed, st) {
        NoClash(allowed, st);
        QualifiersMean(st, m, b, Unqualified(st));
      }
    }
  }

  lemma NoClash(allowed: Allowed, st: State)
    requires !Misfit(allowed, st)
    ensures !SpaceClash(Unqualified(st), st.space)
  {
  }

  method Collect(q: TypeSpecifierQualifier, spec: Specifier)
    modifies q
    ensures q.Value() == Step(old(q.Value()), spec)
  {
    match spec
    case Base(b) => q.SetBase(b);
    case ShortWord => q.SetShort();
    case LongWord => q.SetLong();
    case SignedWord => q.SetSigned();
    case UnsignedWord => q.SetUnsigned();
    case ConstWord => q.SetConst();
    case VolatileWord => q.SetVolatile();
    case RestrictWord => q.SetRestrict();
    case Space(s) => q.SetAddressSpace(s);
  }

  /** Reading the specifiers of a declaration: refused when some conflict or do not fit
      the type, whatever their order. */
  method ReadSpecifiers(allowed: Allowed, specs: seq<Specifier>) returns (t: CType, failed: bool)
    ensures Outcome(allowed, Run(specs)) == if failed then None else Some(t)
    ensures forall b :: HasBase(multiset(specs), b) ==>
              (failed <==> Conflict(multiset(specs)) || !Admits(allowed, multiset(specs), b))
    ensures forall b :: HasBase(multiset(specs), b) && !failed ==>
              BareFrom(multiset(specs), b, t.bare) && QualifiersFrom(multiset(specs), b, t)
    ensures forall others :: multiset(others) == multiset(specs) ==>
              Outcome(allowed, Run(others)) == if failed then None else Some(t)
  {
    var q := new TypeSpecifierQualifier();
    var i := 0;
    while i < |specs|
      invariant 0 <= i <= |specs|
      invariant q.Value() == Run(specs[..i])
    {
      Collect(q, specs[i]);
      assert specs[..i + 1][..i] == specs[..i];
      i := i + 1;
    }
    assert specs[..i] == specs;
    t := q.GetType(allowed);
    failed := q.failed;
    forall b | HasBase(multiset(specs), b)
      ensures failed <==> Conflict(multiset(specs)) || !Admits(allowed, multiset(specs), b)
      ensures !failed ==> BareFrom(multiset(specs), b, t.bare) && QualifiersFrom(multiset(specs), b, t)
    {
      SpecifiersMean(allowed, specs, b);
    }
    forall others | multiset(others) == multiset(specs)
      ensures Outcome(allowed, Run(others)) == Outcome(allowed, Run(specs))
    {
      OrderDoesNotMatter(allowed, others, specs);
    }
  }
}
