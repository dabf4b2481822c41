/** Integer constants: reading one, and choosing its type under an ABI. */
module IntegerLiterals {
  import opened Numerals
  import opened Wrappers

  // ---------------------------------------------------------------------
  // Spelling
  // ---------------------------------------------------------------------

  datatype Base = Decimal | Octal | Hexadecimal

  function Radix(base: Base): nat {
    match base
    case Decimal => 10
    case Octal => 8
    case Hexadecimal => 16
  }

  /** The digits of each base, each with its place in "0123456789abcdef" as value. */
  lemma DigitsOfBases(c: char)
    ensures IsNumeral([c], Radix(Octal)) <==> c in DIGITS[..8]
    ensures IsNumeral([c], Radix(Decimal)) <==> c in DIGITS[..10]
    ensures IsNumeral([c], Radix(Hexadecimal)) <==> c in DIGITS
    ensures forall i :: 0 <= i < |DIGITS| && DIGITS[i] == c ==> DigitOf(c) == i
  {
    var d := DigitOf(c);
    assert [c][0] == c;
    assert forall i :: 0 <= i < |DIGITS| ==> DigitOf(DIGITS[i]) == i;
    if d >= 0 {
      assert DIGITS[d] == c;
      assert d < 10 ==> DIGITS[..10][d] == c;
      assert d < 8 ==> DIGITS[..8][d] == c;
    }
  }

  /** `long` counts the letters l. */
  datatype Suffix = Suffix(unsigned: bool, longs: nat)

  const NO := Suffix(false, 0)
  const U := Suffix(true, 0)
  const L := Suffix(false, 1)
  const UL := Suffix(true, 1)
  const LL := Suffix(false, 2)
  const ULL := Suffix(true, 2)

  /** The last k characters of s are an ending of the standard: u, l, ul, lu, ll, ull,
      llu or none. */
  predicate EndingAt(s: string, k: nat) {
    && k <= |s|
    && var n := |s|;
       if k == 0 then true
       else if k == 1 then s[n - 1] == 'u' || s[n - 1] == 'l'
       else if k == 2 then
         (s[n - 2] == 'l' && s[n - 1] == 'l') || (s[n - 2] == 'u' && s[n - 1] == 'l') ||
         (s[n - 2] == 'l' && s[n - 1] == 'u')
       else if k == 3 then
         s[n - 2] == 'l' && ((s[n - 3] == 'u' && s[n - 1] == 'l') || (s[n - 3] == 'l' && s[n - 1] == 'u'))
       else false
  }

  predicate IsEnding(s: string) { EndingAt(s, |s|) }

  function SuffixOf(ending: string): Suffix {
    var unsigned := ending != "" && (ending[0] == 'u' || ending[|ending| - 1] == 'u');
    Suffix(unsigned, if unsigned then |ending| - 1 else |ending|)
  }

  /** There are eight endings. */
  lemma EndingsAre(ending: string)
    ensures IsEnding(ending) <==> ending in ["", "u", "l", "ul", "lu", "ll", "ull", "llu"]
  {
    var n := |ending|;
    if n == 1 {
      assert ending == [ending[0]];
    } else if n == 2 {
      assert ending == [ending[0], ending[1]];
    } else if n == 3 {
      assert ending == [ending[0], ending[1], ending[2]];
    }
  }

  /** The suffix counts the letters of an ending. */
  lemma SuffixCounts(ending: string)
    requires ending in ["", "u", "l", "ul", "lu", "ll", "ull", "llu"]
    ensures SuffixOf(ending) == Suffix('u' in ending, multiset(ending)['l'])
  {
    hide SuffixOf;
    SuffixTable();
    if ending == "ul" || ending == "lu" || ending == "ll" {
      assert multiset(ending) == multiset{ending[0], ending[1]};
    } else if ending == "ull" || ending == "llu" {
      assert multiset(ending) == multiset{ending[0], ending[1], ending[2]};
    }
  }

  lemma SuffixTable()
    ensures SuffixOf("") == NO && SuffixOf("u") == U && SuffixOf("l") == L && SuffixOf("ll") == LL
    ensures SuffixOf("ul") == SuffixOf("lu") == UL && SuffixOf("ull") == SuffixOf("llu") == ULL
  {
  }

  function LowerChar(c: char): char {
    if 'A' <= c <= 'Z' then (c as int - 'A' as int + 'a' as int) as char else c
  }

  function ToLower(s: string): (t: string)
    ensures |t| == |s| && forall i :: 0 <= i < |s| ==> t[i] == LowerChar(s[i])
  {
    seq(|s|, i requires 0 <= i < |s| => LowerChar(s[i]))
  }

  function SignLength(s: string): nat {
    if s != [] && (s[0] == '+' || s[0] == '-') then 1 else 0
  }

  predicate Negative(s: string) { s != [] && s[0] == '-' }

  /** A constant taken apart.  The library that reads the digits allows a sign. */
  datatype Literal = Literal(base: Base, sign: string, digits: string, ending: string) {
    predicate WellFormed() {
      && IsNumeral(digits, Radix(base))
      && IsEnding(ending)
      && |sign| == SignLength(sign)
      && (base == Decimal ==> sign != "" || digits[0] != '0')
      && (base == Octal ==> sign == "" && digits[0] == '0')
    }

    function Number(): string {
      (if base == Hexadecimal then "0x" else "") + (sign + digits)
    }

    function IntValue(): int
      requires WellFormed()
    {
      var v: int := Value(digits, Radix(base));
      if Negative(sign) then -v else v
    }
  }

  /** s is a spelling of the literal, in any mix of letter cases. */
  predicate Spells(s: string, l: Literal) {
    l.WellFormed() && ToLower(s) == l.Number() + l.ending
  }

  // ---------------------------------------------------------------------
  // Types
  // ---------------------------------------------------------------------

  datatype Kind = SInt | UInt | SLong | ULong | SLongLong | ULongLong {
    function Rank(): nat {
      match this
      case SInt => 0
      case UInt => 1
      case SLong => 2
      case ULong => 3
      case SLongLong => 4
      case ULongLong => 5
    }

    predicate Unsigned() { UInt? || ULong? || ULongLong? }
    function Longs(): nat { Rank() / 2 }
  }

  /** The largest values of an ABI; nothing is said of their order or sign. */
  datatype Limits = Limits(int_: int, uint: int, long: int, ulong: int, llong: int, ullong: int) {
    function Max(k: Kind): int {
      match k
      case SInt => int_
      case UInt => uint
      case SLong => long
      case ULong => ulong
      case SLongLong => llong
      case ULongLong => ullong
    }
  }

  /** OpenCL C has no long long: no constant fits one. */
  const OCL := Limits(0x7fff_ffff, 0xffff_ffff, 0x7fff_ffff_ffff_ffff, 0xffff_ffff_ffff_ffff, -1, -1)

  /** The list of C99 6.4.4.1 for a base and a suffix: at least as many longs as
      written, unsigned when written so, and a decimal constant otherwise signed. */
  predicate Listed(base: Base, suffix: Suffix, k: Kind) {
    && suffix.longs <= k.Longs()
    && (suffix.unsigned ==> k.Unsigned())
    && (!suffix.unsigned && base == Decimal ==> !k.Unsigned())
  }

  predicate Admits(limits: Limits, base: Base, suffix: Suffix, value: int, k: Kind) {
    Listed(base, suffix, k) && value <= limits.Max(k)
  }

  /** The type is the first of the list in which the value fits; when it fits in none
      there is a warning, and the type is the last of the list. */
  predicate FirstFit(limits: Limits, base: Base, suffix: Suffix, value: int, k: Kind, warned: bool) {
    && Listed(base, suffix, k)
    && (warned <==> forall j :: !Admits(limits, base, suffix, value, j))
    && (!warned ==> Admits(limits, base, suffix, value, k))
    && (!warned ==> forall j :: Admits(limits, base, suffix, value, j) ==> k.Rank() <= j.Rank())
    && (warned ==> forall j :: Listed(base, suffix, j) ==> j.Rank() <= k.Rank())
  }

  method ChooseDecimalType(limits: Limits, suffix: Suffix, value: int) returns (k: Kind, warned: bool)
    requires suffix.longs <= 2
    ensures FirstFit(limits, Decimal, suffix, value, k, warned)
  {
    warned := false;
    if suffix == NO {
      if value <= limits.int_ { k := SInt; }
      else if value <= limits.long { k := SLong; }
      else if value <= limits.llong { k := SLongLong; }
      else { k, warned := SLongLong, true; }
    } else if suffix == U {
      if value <= limits.uint { k := UInt; }
      else if value <= limits.ulong { k := ULong; }
      else if value <= limits.ullong { k := ULongLong; }
      else { k, warned := ULongLong, true; }
    } else if suffix == L {
      if value <= limits.long { k := SLong; }
      else if value <= limits.llong { k := SLongLong; }
      else { k, warned := SLongLong, true; }
    } else if suffix == UL {
      if value <= limits.ulong { k := ULong; }
      else if value <= limits.ullong { k := ULongLong; }
      else { k, warned := ULongLong, true; }
    } else if suffix == LL {
      if value <= limits.llong { k := SLongLong; }
      else { k, warned := SLongLong, true; }
    } else {
      if value <= limits.ullong { k := ULongLong; }
      else { k, warned := ULongLong, true; }
    }
    assert Admits(limits, Decimal, suffix, value, k) <==> !warned;
  }

  method ChooseOctalOrHexadecimalType(limits: Limits, base: Base, suffix: Suffix, value: int)
    returns (k: Kind, warned: bool)
    requires base != Decimal && suffix.longs <= 2
    ensures FirstFit(limits, base, suffix, value, k, warned)
  {
    warned := false;
    if suffix == NO {
      if value <= limits.int_ { k := SInt; }
      else if value <= limits.uint { k := UInt; }
      else if value <= limits.long { k := SLong; }
      else if value <= limits.ulong { k := ULong; }
      else if value <= limits.llong { k := SLongLong; }
      else if value <= limits.ullong { k := ULongLong; }
      else { k, warned := ULongLong, true; }
    } else if suffix == U {
      if value <= limits.uint { k := UInt; }
      else if value <= limits.ulong { k := ULong; }
      else if value <= limits.ullong { k := ULongLong; }
      else { k, warned := ULongLong, true; }
    } else if suffix == L {
      if value <= limits.long { k := SLong; }
      else if value <= limits.ulong { k := ULong; }
      else if value <= limits.llong { k := SLongLong; }
      else if value <= limits.ullong { k := ULongLong; }
      else { k, warned := ULongLong, true; }
    } else if suffix == UL {
      if value <= limits.ulong { k := ULong; }
      else if value <= limits.ullong { k := ULongLong; }
      else { k, warned := ULongLong, true; }
    } else if suffix == LL {
      if value <= limits.llong { k := SLongLong; }
      else if value <= limits.ullong { k := ULongLong; }
      else { k, warned := ULongLong, true; }
    } else {
      if value <= limits.ullong { k := ULongLong; }
      else { k, warned := ULongLong, true; }
    }
    assert Admits(limits, base, suffix, value, k) <==> !warned;
  }

  /** Whatever the limits, a larger constant never gets an earlier type, and is warned
      of when a smaller one is. */
  lemma FirstFitMonotone(limits: Limits, base: Base, suffix: Suffix, m: int, n: int,
                         j: Kind, jWarned: bool, k: Kind, kWarned: bool)
    requires m <= n
    requires FirstFit(limits, base, suffix, m, j, jWarned) && FirstFit(limits, base, suffix, n, k, kWarned)
    ensures j.Rank() <= k.Rank() && (jWarned ==> kWarned)
    ensures m == n ==> j == k && jWarned == kWarned
  {
    assert !kWarned ==> Admits(limits, base, suffix, m, k);
  }

  /** In OpenCL C no constant is long long without a warning: those with two l and
      those too large for long are warned of. */
  lemma OclHasNoLongLong(base: Base, suffix: Suffix, n: nat, k: Kind, warned: bool)
    requires suffix.longs <= 2
    requires FirstFit(OCL, base, suffix, n, k, warned)
    ensures k.Longs() == 2 ==> warned
    ensures warned <==>
            suffix.longs == 2 || n > (if base == Decimal && !suffix.unsigned then OCL.long else OCL.ulong)
  {
    assert Admits(OCL, base, suffix, n, k) || warned;
    assert Admits(OCL, base, suffix, n, SLong) || Admits(OCL, base, suffix, n, ULong) || warned || k.Longs() == 0;
  }

  /** In OpenCL C int has 32 bits and long 64: the type of a constant that is not warned of,
      by its value. */
  lemma OclTypes(base: Base, suffix: Suffix, n: nat, k: Kind, warned: bool)
    requires suffix.longs <= 1
    requires FirstFit(OCL, base, suffix, n, k, warned) && !warned
    ensures var mayBeUnsigned := suffix.unsigned || base != Decimal;
            && (k == SInt <==> suffix == NO && n < 0x8000_0000)
            && (k == UInt <==> suffix.longs == 0 && mayBeUnsigned && n < 0x1_0000_0000 &&
                               (n >= 0x8000_0000 || suffix.unsigned))
            && (k == SLong <==> !suffix.unsigned && n < 0x8000_0000_0000_0000 &&
                                (suffix.longs == 1 || n >= if base == Decimal then 0x8000_0000 else 0x1_0000_0000))
            && (k == ULong <==> mayBeUnsigned && n < 0x1_0000_0000_0000_0000 &&
                                (n >= 0x8000_0000_0000_0000 || (suffix.unsigned && (suffix.longs == 1 || n >= 0x1_0000_0000))))
  {
    assert forall j :: Admits(OCL, base, suffix, n, j) ==> k.Rank() <= j.Rank();
    assert Admits(OCL, base, suffix, n, SInt) ==> k == SInt;
    assert Admits(OCL, base, suffix, n, UInt) ==> k.Rank() <= 1;
    assert Admits(OCL, base, suffix, n, SLong) ==> k.Rank() <= 2;
  }

  // ---------------------------------------------------------------------
  // Reading
  // ---------------------------------------------------------------------

  predicate EndsWith(s: string, t: string) {
    |t| <= |s| && s[|s| - |t|..] == t
  }

  lemma EndsWithLast(s: string, c: char)
    ensures EndsWith(s, [c]) <==> |s| >= 1 && s[|s| - 1] == c
  {
  }

  lemma EndsWithTwo(s: string, c: char, d: char)
    ensures EndsWith(s, [c, d]) <==> |s| >= 2 && s[|s| - 2] == c && s[|s| - 1] == d
  {
    assert |s| >= 2 ==> s[|s| - 2..] == [s[|s| - 2], s[|s| - 1]];
  }

  lemma EndsWithThree(s: string, c: char, d: char, e: char)
    ensures EndsWith(s, [c, d, e]) <==> |s| >= 3 && s[|s| - 3] == c && s[|s| - 2] == d && s[|s| - 1] == e
  {
    assert |s| >= 3 ==> s[|s| - 3..] == [s[|s| - 3], s[|s| - 2], s[|s| - 1]];
  }

  /** The last k characters of s are its longest ending. */
  predicate LongestEnding(s: string, k: nat) {
    EndingAt(s, k) && forall j :: k < j <= |s| ==> !EndingAt(s, j)
  }

  /** The integer read by the library: an optional sign and at least one digit. */
  function ParseSigned(s: string, radix: nat): (v: Option<int>) {
    var digits := s[SignLength(s)..];
    if !IsNumeral(digits, radix) then None
    else
      var v: int := Value(digits, radix);
      Some(if Negative(s) then -v else v)
  }

  /** The text before the longest ending is the number. */
  lemma EndingFound(low: string, l: Literal, k: nat)
    requires l.WellFormed() && low == l.Number() + l.ending && LongestEnding(low, k)
    ensures k == |l.ending|
  {
    var last := |l.Number()| - 1;
    assert low[last] == l.digits[|l.digits| - 1];
    assert 0 <= DigitOf(low[last]) < 16;
    assert EndingAt(low, |l.ending|);
  }

  lemma ParseWellFormed(l: Literal)
    requires l.WellFormed()
    ensures ParseSigned(l.sign + l.digits, Radix(l.base)) == Some(l.IntValue())
  {
    var s := l.sign + l.digits;
    assert 0 <= DigitOf(l.digits[0]);
    if l.sign == "" {
      assert s == l.digits;
    } else {
      assert s[..1] == l.sign && s[1..] == l.digits;
    }
  }

  datatype Outcome = InternalError | Typed(value: int, kind: Kind, warned: bool)

  predicate Agrees(limits: Limits, l: Literal, r: Outcome)
    requires l.WellFormed()
  {
    && r.Typed?
    && r.value == l.IntValue()
    && FirstFit(limits, l.base, SuffixOf(l.ending), r.value, r.kind, r.warned)
  }

  /** The base is told by the first characters. */
  lemma BaseFound(l: Literal)
    requires l.WellFormed()
    ensures var n := l.Number();
            && (l.base == Hexadecimal <==> "0x" <= n)
            && (l.base == Decimal <==> !("0" <= n))
            && (l.base == Hexadecimal ==> n[2..] == l.sign + l.digits)
            && (l.base != Hexadecimal ==> n == l.sign + l.digits)
  {
    var n := l.Number();
    assert 0 <= DigitOf(l.digits[0]) < Radix(l.base);
    match l.base
    case Hexadecimal =>
      assert n[0] == '0' && n[1] == 'x';
    case Octal =>
      assert n == l.digits;
      assert |n| > 1 ==> 0 <= DigitOf(n[1]);
    case Decimal =>
      assert n == l.sign + l.digits;
      assert n[0] == if l.sign == "" then l.digits[0] else l.sign[0];
  }

  /** The suffix is the longest ending; the rest is what precedes it. */
  method SplitSuffix(lower: string) returns (suffix: Suffix, str: string)
    ensures |str| <= |lower| && str == lower[..|str|]
    ensures LongestEnding(lower, |lower| - |str|)
    ensures suffix == SuffixOf(lower[|str|..]) && suffix.longs <= 2
  {
    hide EndsWith;
    EndsWithThree(lower, 'u', 'l', 'l');
    EndsWithThree(lower, 'l', 'l', 'u');
    EndsWithTwo(lower, 'l', 'l');
    EndsWithTwo(lower, 'u', 'l');
    EndsWithTwo(lower, 'l', 'u');
    EndsWithLast(lower, 'l');
    EndsWithLast(lower, 'u');
    suffix, str := NO, lower;
    if EndsWith(lower, "ull") {
      suffix, str := ULL, lower[..|lower| - 3];
    } else if EndsWith(lower, "llu") {
      suffix, str := ULL, lower[..|lower| - 3];
    } else if EndsWith(lower, "ll") {
      suffix, str := LL, lower[..|lower| - 2];
    } else if EndsWith(lower, "ul") {
      suffix, str := UL, lower[..|lower| - 2];
    } else if EndsWith(lower, "lu") {
      suffix, str := UL, lower[..|lower| - 2];
    } else if EndsWith(lower, "l") {
      suffix, str := L, lower[..|lower| - 1];
    } else if EndsWith(lower, "u") {
      suffix, str := U, lower[..|lower| - 1];
    }
  }

  predicate Reads(str: string, base: Base, value: Option<int>) {
    && base == (if "0x" <= str then Hexadecimal else if "0" <= str then Octal else Decimal)
    && value == ParseSigned(if base == Hexadecimal then str[2..] else str, Radix(base))
  }

  method ReadNumber(str: string) returns (base: Base, value: Option<int>)
    ensures Reads(str, base, value)
  {
    if "0x" <= str {
      base, value := Hexadecimal, ParseSigned(str[2..], 16);
    } else if "0" <= str {
      base, value := Octal, ParseSigned(str, 8);
    } else {
      base, value := Decimal, ParseSigned(str, 10);
    }
  }

  lemma SpellingIsRead(s: string, l: Literal, str: string, base: Base, value: Option<int>)
    requires Spells(s, l)
    requires |str| <= |s| && str == ToLower(s)[..|str|] && LongestEnding(ToLower(s), |s| - |str|)
    requires Reads(str, base, value)
    ensures l.base == base && l.ending == ToLower(s)[|str|..] && value == Some(l.IntValue())
  {
    EndingFound(ToLower(s), l, |s| - |str|);
    assert str == l.Number();
    BaseFound(l);
    ParseWellFormed(l);
  }

  /** Every spelling of a constant gives its value and the first type of its list; all
      other texts are internal errors. */
  method GetIntegralNumberType(limits: Limits, s: string) returns (r: Outcome)
    ensures forall l :: Spells(s, l) ==> Agrees(limits, l, r)
    ensures r.Typed? ==> exists l :: Spells(s, l)
  {
    hide FirstFit, Reads, LongestEnding, ToLower, SuffixOf;
    var suffix, str := SplitSuffix(ToLower(s));
    var base, value := ReadNumber(str);
    forall l | Spells(s, l)
      ensures l.base == base && l.ending == ToLower(s)[|str|..] && value == Some(l.IntValue())
    {
      SpellingIsRead(s, l, str, base, value);
    }
    if value == None {
      return InternalError;
    }
    ReadIsSpelled(s, str, base, value);
    var k, warned;
    if base == Decimal {
      k, warned := ChooseDecimalType(limits, suffix, value.value);
    } else {
      k, warned := ChooseOctalOrHexadecimalType(limits, base, suffix, value.value);
    }
    r := Typed(value.value, k, warned);
  }

  lemma EndingIsEnding(low: string, k: nat)
    requires EndingAt(low, k)
    ensures IsEnding(low[|low| - k..]) && low == low[..|low| - k] + low[|low| - k..]
  {
    var ending := low[|low| - k..];
    assert forall i :: 0 <= i < k ==> ending[i] == low[|low| - k + i];
  }

  lemma ReadIsSpelled(s: string, str: string, base: Base, value: Option<int>)
    requires |str| <= |s| && str == ToLower(s)[..|str|] && LongestEnding(ToLower(s), |s| - |str|)
    requires Reads(str, base, value) && value.Some?
    ensures exists l :: Spells(s, l)
  {
    EndingIsEnding(ToLower(s), |s| - |str|);
    PartsSpell(s, str, ToLower(s)[|str|..], base);
  }

  lemma PartsSpell(s: string, str: string, ending: string, base: Base)
    requires IsEnding(ending) && ToLower(s) == str + ending
    requires base == (if "0x" <= str then Hexadecimal else if "0" <= str then Octal else Decimal)
    requires ParseSigned(if base == Hexadecimal then str[2..] else str, Radix(base)).Some?
    ensures exists l :: Spells(s, l)
  {
    hide Literal.WellFormed, Literal.Number, ToLower, IsEnding, ParseSigned, Spells;
    var text := if base == Hexadecimal then str[2..] else str;
    var l := Literal(base, text[..SignLength(text)], text[SignLength(text)..], ending);
    FirstCharacter(str);
    PartsWellFormed(l, str, text);
    NumberOfParts(l, str, text);
    SpelledBy(s, l);
  }

  lemma SpelledBy(s: string, l: Literal)
    requires l.WellFormed() && ToLower(s) == l.Number() + l.ending
    ensures exists m :: Spells(s, m)
  {
    assert Spells(s, l);
  }

  lemma PartsWellFormed(l: Literal, str: string, text: string)
    requires IsEnding(l.ending) && ParseSigned(text, Radix(l.base)).Some?
    requires l.sign == text[..SignLength(text)] && l.digits == text[SignLength(text)..]
    requires l.base == (if "0x" <= str then Hexadecimal else if "0" <= str then Octal else Decimal)
    requires l.base != Hexadecimal ==> text == str
    requires str != "" && str[0] == '0' ==> "0" <= str
    ensures l.WellFormed()
  {
    hide IsEnding, Value, LowerChar;
  }

  lemma FirstCharacter(str: string)
    ensures str != "" && str[0] == '0' ==> "0" <= str
  {
  }

  lemma NumberOfParts(l: Literal, str: string, text: string)
    requires text == l.sign + l.digits
    requires if l.base == Hexadecimal then "0x" <= str && text == str[2..] else text == str
    ensures l.Number() == str
  {
  }

  /** Printing a number in a base and reading it gives the number, the base and the
      suffix, whatever the case of the letters; zero is octal. */
  lemma PrintedIsSpelled(s: string, n: nat, base: Base, ending: string)
    requires IsEnding(ending) && (base == Decimal ==> n > 0)
    requires ToLower(s) == (match base case Decimal => "" case Octal => "0" case Hexadecimal => "0x")
                           + Print(n, Radix(base)) + ending
    ensures var digits := (if base == Octal then "0" else "") + Print(n, Radix(base));
            var l := Literal(base, "", digits, ending);
            Spells(s, l) && l.IntValue() == n
  {
    var digits := (if base == Octal then "0" else "") + Print(n, Radix(base));
    PrintRoundTrip(n, Radix(base));
    if base == Octal {
      LeadingZero(Print(n, 8), 8);
    } else {
      assert digits == Print(n, Radix(base));
    }
    var l := Literal(base, "", digits, ending);
    assert "" + digits == digits;
    assert l.Number() + l.ending == ToLower(s);
  }
}
