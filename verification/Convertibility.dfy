/** The two relations that say whether a value may be given to an object: one only
    answers, the other raises the diagnostics of an assignment. */
module Convertibility {
  import opened CTypes

  /** Whether converting a scalar to the elements of a vector is a down-conversion.
      Pointers and labels count as int. */
  predicate IsDownScalarConversion(vector: CType, scalar: CType)
    requires vector.IsVector() && scalar.IsScalarOrLabel()
  {
    var from := if scalar.IsPointerOrLabel() then Plain(Integer(Int, true)) else scalar;
    if from.IsIntegralScalar() then
      match vector.bare
      case FloatVector(_) => false
      case IntVector(VChar, true, _) => !from.IsInteger(Char, true)
      case IntVector(VChar, false, _) => !from.IsCharScalar()
      case IntVector(VShort, true, _) => from.IsInteger(Short, false) || from.IsIntScalar() || from.IsLongScalar()
      case IntVector(VShort, false, _) => from.IsIntScalar() || from.IsLongScalar()
      case IntVector(VInt, true, _) => from.IsInteger(Int, false) || from.IsLongScalar()
      case IntVector(VInt, false, _) => from.IsLongScalar()
      case IntVector(VLong, true, _) => from.IsInteger(Long, false)
      case IntVector(VLong, false, _) => false
    else
      vector.bare.IntVector?
  }

  function PointerOrLabelAddressSpace(t: CType): AddressSpace
    requires t.IsPointerOrLabel()
  {
    match t.bare
    case Pointer(to) => to.QualifierSpace()
    case Array(_) => t.QualifierSpace()
    case Function(_, _, _) => Code
  }

  /** An object without address space is private. */
  function EffectiveSpace(t: CType): AddressSpace
    requires t.IsPointerOrLabel()
  {
    var space := PointerOrLabelAddressSpace(t);
    if space == NoSpace then Private else space
  }

  function Width(base: IntBase): nat {
    match base
    case Char => 8
    case Short => 16
    case Int => 32
    case Long => 64
    case LongLong => 64
  }

  /** The width of the elements of an integer vector. */
  function ElementWidth(elem: VectorInt): nat {
    match elem
    case VChar => 8
    case VShort => 16
    case VInt => 32
    case VLong => 64
  }

  /** A conversion to the elements of a vector is down when it loses width, or the sign
      bit of an unsigned type of the same width; a floating scalar goes down to every
      integer.  Of the integer types that OpenCL C vectors do not have, all go down to
      char and to nothing else.  Pointers and labels are as int. */
  lemma DownLosesWidth(vector: CType, scalar: CType)
    requires vector.IsVector() && scalar.IsScalarOrLabel() && scalar.Plain?
    ensures var down := IsDownScalarConversion(vector, scalar);
            var b := if scalar.IsPointerOrLabel() then Integer(Int, true) else scalar.bare;
            match vector.bare
            case FloatVector(_) => !down
            case IntVector(elem, signed, _) =>
              if b.Floating? then down
              else if b.Integer? && b.base != LongLong then
                down <==> Width(b.base) > ElementWidth(elem) ||
                          (Width(b.base) == ElementWidth(elem) && signed && !b.signed)
              else down <==> ElementWidth(elem) == 8
  {
  }

  /** What is left of a type without the arrays around it, down to a qualifier. */
  function Innermost(t: CType): CType {
    if t.Plain? && t.bare.Array? then Innermost(t.bare.of) else t
  }

  /** The address space that is written on t, or private. */
  predicate LiesIn(t: CType, space: AddressSpace) {
    if t.Qualified? && t.space != NoSpace then t.space == space else space == Private
  }

  /** The space of a pointer is that of what it points to, and of an array that of its
      elements unless it is qualified itself; a function is code. */
  lemma {:induction false} SpaceOfPointee(t: CType, space: AddressSpace)
    requires t.IsPointerOrLabel()
    ensures EffectiveSpace(t) == space <==>
            match t.bare
            case Pointer(to) => LiesIn(Innermost(to), space)
            case Array(_) => LiesIn(Innermost(t), space)
            case _ => space == Code
  {
    match t.bare
    case Pointer(to) => SpaceOfInnermost(to);
    case Array(_) => SpaceOfInnermost(t);
    case _ =>
  }

  lemma {:induction false} SpaceOfInnermost(t: CType)
    ensures t.QualifierSpace() == Innermost(t).QualifierSpace()
    ensures Innermost(t).Plain? ==> !Innermost(t).bare.Array?
    decreases t
  {
    if t.Plain? && t.bare.Array? {
      SpaceOfInnermost(t.bare.of);
    }
  }

  /** `ocl` is true when compiling OpenCL C. */
  predicate IsConvertible(ocl: bool, target: CType, source: CType) {
    if source.IsVoid() then false
    else if target.IsVector() then
      if source.IsVector() then source.Unqualify() == target.Unqualify()
      else if source.IsScalarOrLabel() then !IsDownScalarConversion(target.Unqualify(), source)
      else false
    else if target.IsArithmeticScalar() then
      source.IsArithmeticScalar() || (target.IsIntegralScalar() && source.IsPointerOrLabel())
    else if target.IsPointerOrLabel() then
      if !source.IsPointerOrLabel() then source.IsIntegralScalar()
      else ocl ==> EffectiveSpace(target) == EffectiveSpace(source)
    else if target.IsStruct() then
      source.IsStruct() && target.Unqualify() == source.Unqualify()
    else if target.IsUnion() then
      source.IsUnion() && target.Unqualify() == source.Unqualify()
    else false
  }

  /** What the check of an assignment raises at most. */
  datatype Check = Accepts | Warns | Fails

  function CheckAssignOperands(left: CType, right: CType): Check
    decreases left.IsVector()
  {
    if right.IsVoid() then Fails
    else if left.IsVector() then
      if right.IsVector() then
        if right.Unqualify() != left.Unqualify() then Fails else Accepts
      else if right.IsScalarOrLabel() then
        if IsDownScalarConversion(left.Unqualify(), right) then Fails
        else CheckAssignOperands(left.VectorBaseType(), right)
      else Fails
    else if left.IsArithmeticScalar() then
      if right.IsArithmeticScalar() then Accepts
      else if left.IsIntegralScalar() && right.IsPointerOrLabel() then Warns
      else Fails
    else if left.IsPointerOrLabel() then
      if right.IsPointerOrLabel() then Accepts
      else if right.IsIntegralScalar() then Warns
      else Fails
    else if left.IsStruct() then
      if right.IsStruct() && left.Unqualify() == right.Unqualify() then Accepts else Fails
    else if left.IsUnion() then
      if right.IsUnion() && left.Unqualify() == right.Unqualify() then Accepts else Fails
    else Fails
  }

  predicate Assignable(left: CType, right: CType) {
    CheckAssignOperands(left, right) != Fails
  }

  /** A pointer, array or function given to a float vector. */
  predicate LabelToFloatVector(left: CType, right: CType) {
    left.bare.FloatVector? && right.IsPointerOrLabel()
  }

  /** A pointer or label given to one of another address space. */
  predicate SpacesDiffer(left: CType, right: CType) {
    left.IsPointerOrLabel() && right.IsPointerOrLabel() && EffectiveSpace(left) != EffectiveSpace(right)
  }

  /** The two relations agree but for pointers and labels: they convert to float
      vectors and are then refused, and in OpenCL C a different address space
      prevents the conversion but not the assignment. */
  lemma RelationsAgree(ocl: bool, target: CType, source: CType)
    ensures IsConvertible(ocl, target, source) <==>
            (Assignable(target, source) || LabelToFloatVector(target, source)) &&
            !(ocl && SpacesDiffer(target, source))
  {
    if target.IsVector() && source.IsScalarOrLabel() && !source.IsVoid() {
      ElementAccepts(target, source);
    }
  }

  /** An element of a vector takes every scalar; only an integer one takes a label. */
  lemma ElementAccepts(target: CType, source: CType)
    requires target.IsVector() && source.IsScalarOrLabel()
    ensures Assignable(target.VectorBaseType(), source) <==> !LabelToFloatVector(target, source)
  {
    var base := target.VectorBaseType();
    if target.bare.FloatVector? {
      assert base == Plain(Floating(Float));
    } else {
      assert base.bare.Integer?;
    }
  }

  /** The exceptions are real: such a value converts, and its assignment fails. */
  lemma LabelToFloatVectorDisagrees(ocl: bool, target: CType, source: CType)
    requires LabelToFloatVector(target, source)
    ensures IsConvertible(ocl, target, source) && !Assignable(target, source)
  {
    var base := target.VectorBaseType();
    assert CheckAssignOperands(base, source) == Fails;
  }

  /** When a qualifier on the scalar changes the answer: an int is taken for a long
      and a long for a smaller type, in vectors where long is asked about. */
  predicate QualifierMatters(vector: CType, b: Bare) {
    && b.Integer?
    && match vector.bare
       case IntVector(VShort, _, _) => b.base == Long
       case IntVector(VInt, true, _) => b.base == Long || b == Integer(Int, true)
       case IntVector(VInt, false, _) => b.base == Long || b.base == Int
       case _ => false
  }

  lemma DownConversionSeesQualifier(vector: CType, scalar: CType)
    requires vector.IsVector() && scalar.IsScalarOrLabel() && scalar.Qualified?
    ensures IsDownScalarConversion(vector, scalar) != IsDownScalarConversion(vector, scalar.Unqualify())
            <==> QualifierMatters(vector, scalar.bare)
  {
  }

  /** A pointer or label given to an integer type, or an integer to a pointer or label. */
  predicate MixesLabels(left: CType, right: CType) {
    (left.IsIntegralScalar() && right.IsPointerOrLabel()) || (left.IsPointerOrLabel() && right.IsIntegralScalar())
  }

  /** A vector, structure or union given to one of the same type. */
  predicate SameAggregate(left: CType, right: CType) {
    left.bare == right.bare && (left.IsVector() || left.IsStruct() || left.IsUnion())
  }

  /** A scalar given to every element of a vector. */
  predicate Widens(left: CType, right: CType) {
    left.IsVector() && right.IsScalarOrLabel() && !IsDownScalarConversion(left.Unqualify(), right)
  }

  /** What converts: two arithmetic types, labels and integers, two labels in one address
      space, a vector, structure or union and itself, and a scalar to a vector of wider
      elements. */
  lemma ConvertibleTypes(ocl: bool, target: CType, source: CType)
    ensures IsConvertible(ocl, target, source) <==>
            || (target.IsArithmeticScalar() && source.IsArithmeticScalar())
            || MixesLabels(target, source)
            || (target.IsPointerOrLabel() && source.IsPointerOrLabel() && (ocl ==> !SpacesDiffer(target, source)))
            || SameAggregate(target, source)
            || Widens(target, source)
  {
  }

  /** What an assignment accepts in silence, and what with a warning: labels mixed with
      integers, also as the elements of a vector. */
  lemma AssignmentChecked(left: CType, right: CType)
    ensures CheckAssignOperands(left, right) == Warns <==>
            MixesLabels(left, right) || (Widens(left, right) && right.IsPointerOrLabel() && left.bare.IntVector?)
    ensures CheckAssignOperands(left, right) == Accepts <==>
            || (left.IsArithmeticScalar() && right.IsArithmeticScalar())
            || (left.IsPointerOrLabel() && right.IsPointerOrLabel())
            || SameAggregate(left, right)
            || (Widens(left, right) && right.IsArithmeticScalar())
  {
  }

  /** A const int does not convert to int4, and a const long does. */
  lemma ConstIntIsNotAnInt4(ocl: bool)
    ensures var int4 := Plain(IntVector(VInt, true, 4));
            && !IsConvertible(ocl, int4, Qualified(NoSpace, true, false, false, Integer(Int, true)))
            && IsConvertible(ocl, int4, Plain(Integer(Int, true)))
            && IsConvertible(ocl, int4, Qualified(NoSpace, true, false, false, Integer(Long, true)))
            && !IsConvertible(ocl, int4, Plain(Integer(Long, true)))
  {
  }
}
