/** C and OpenCL C types, the questions the type checker asks of them, and their
    signatures. */
module CTypes {
  import opened Numerals

  datatype IntBase = Char | Short | Int | Long | LongLong

  datatype FloatBase = Float | Double | LongDouble

  /** Bases of integer vectors. */
  datatype VectorInt = VChar | VShort | VInt | VLong

  datatype AddressSpace = NoSpace | Global | Constant | Local | Private | Code

  /** A type without qualifier.  Structures, unions and enumerations have an
      identity; types are the same object exactly when they are equal here. */
  datatype Bare =
    | Void
    | Bool
    | Integer(base: IntBase, signed: bool)
    | Floating(fbase: FloatBase)
    | Bitfield(bits: nat)
    | Enumerate(name: string, id: nat)
    | Struct(name: string, id: nat)
    | Union(name: string, id: nat)
    | Pointer(to: CType)
    | Array(of: CType)
    | Function(ret: CType, params: seq<CType>, voidList: bool)
    | IntVector(elem: VectorInt, esigned: bool, n: nat)
    | FloatVector(n: nat)

  /** A type, qualified or not.  A qualifier is never directly on another. */
  datatype CType =
    | Plain(bare: Bare)
    | Qualified(space: AddressSpace, isConst: bool, isVolatile: bool, isRestrict: bool, bare: Bare)
  {
    // A qualified type answers as the type it qualifies, but for IsLongScalar.

    predicate IsVoid() { bare.Void? }
    predicate IsVector() { bare.IntVector? || bare.FloatVector? }
    predicate IsStruct() { bare.Struct? }
    predicate IsUnion() { bare.Union? }
    predicate IsPointerOrLabel() { bare.Pointer? || bare.Array? || bare.Function? }
    predicate IsFloatingPointScalar() { bare.Floating? }

    predicate IsIntegralScalar() {
      bare.Bool? || bare.Integer? || bare.Bitfield? || bare.Enumerate?
    }

    predicate IsArithmeticScalar() { IsIntegralScalar() || IsFloatingPointScalar() }
    predicate IsScalarOrLabel() { IsArithmeticScalar() || IsPointerOrLabel() }

    predicate IsInteger(base: IntBase, signed: bool) { bare == Integer(base, signed) }
    predicate IsCharScalar() { bare.Integer? && bare.base == Char }
    predicate IsIntScalar() { bare.Integer? && bare.base == Int }

    /** A qualified type says here whether it is an int. */
    predicate IsLongScalar() {
      if Qualified? then IsIntScalar() else bare.Integer? && bare.base == Long
    }

    function Unqualify(): CType { Plain(bare) }

    /** The scalar type of the elements of a vector. */
    function VectorBaseType(): CType
      requires IsVector()
    {
      match bare
      case IntVector(VChar, s, _) => Plain(Integer(Char, s))
      case IntVector(VShort, s, _) => Plain(Integer(Short, s))
      case IntVector(VInt, s, _) => Plain(Integer(Int, s))
      case IntVector(VLong, s, _) => Plain(Integer(Long, s))
      case FloatVector(_) => Plain(Floating(Float))
    }

    /** The address space of the qualifier that counts: an array has that of its
        elements. */
    function QualifierSpace(): AddressSpace {
      match this
      case Qualified(space, _, _, _, _) => space
      case Plain(Array(of)) => of.QualifierSpace()
      case _ => NoSpace
    }
  }

  // ---------------------------------------------------------------------
  // Signatures
  // ---------------------------------------------------------------------

  function IntLetter(base: IntBase, signed: bool): char {
    match base
    case Char => if signed then 'c' else 'h'
    case Short => if signed then 's' else 't'
    case Int => if signed then 'i' else 'j'
    case Long => if signed then 'l' else 'm'
    case LongLong => if signed then 'x' else 'y'
  }

  function FloatLetter(base: FloatBase): char {
    match base
    case Float => 'f'
    case Double => 'd'
    case LongDouble => 'e'
  }

  function SpaceSignature(space: AddressSpace): string {
    match space
    case NoSpace => ""
    case Global => "g"
    case Constant => "c"
    case Local => "l"
    case Private => "p"
    case Code => "null"
  }

  /** A tag contributes the length of its name and the word null. */
  function TagSignature(name: string): string {
    Print(|name|, 10) + "null"
  }

  function VectorLetter(b: Bare): char
    requires b.IntVector? || b.FloatVector?
  {
    match b
    case IntVector(VChar, s, _) => IntLetter(Char, s)
    case IntVector(VShort, s, _) => IntLetter(Short, s)
    case IntVector(VInt, s, _) => IntLetter(Int, s)
    case IntVector(VLong, s, _) => IntLetter(Long, s)
    case FloatVector(_) => FloatLetter(Float)
  }

  function Signature(b: Bare): string
    decreases b, 1
  {
    match b
    case Void => "v"
    case Bool => "b"
    case Integer(base, signed) => [IntLetter(base, signed)]
    case Floating(base) => [FloatLetter(base)]
    case Bitfield(_) => "null"
    case Enumerate(name, _) => TagSignature(name)
    case Struct(name, _) => TagSignature(name)
    case Union(name, _) => TagSignature(name)
    case Pointer(to) => "P" + SignatureOf(to)
    case Array(of) => "P" + SignatureOf(of)
    case Function(ret, params, voidList) =>
      "F" + (SignatureOf(ret) +
             ((if params == [] then if voidList then "v" else "*" else SignatureList(params)) + "E"))
    case IntVector(_, _, n) => "V" + (Print(n, 10) + [VectorLetter(b)])
    case FloatVector(n) => "V" + (Print(n, 10) + [VectorLetter(b)])
  }

  function SignatureOf(t: CType): string
    decreases t, 2
  {
    match t
    case Plain(b) => Signature(b)
    case Qualified(space, _, _, _, b) => "Q" + (SpaceSignature(space) + Signature(b))
  }

  /** The signature of a parameter list: the qualifiers of parameters do not count. */
  function SignatureList(ts: seq<CType>): string
    decreases ts, 0
  {
    if ts == [] then "" else ParameterSignature(ts[0]) + SignatureList(ts[1..])
  }

  function ParameterSignature(t: CType): string
    decreases t, 2
  {
    Signature(t.bare)
  }
}
