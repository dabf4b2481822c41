/** The selection of components of a vector, and chains of selections. */
module Swizzle {
  import opened Wrappers

  /** The sizes a vector or a component can have. */
  predicate IsSize(n: nat) { n in {1, 2, 3, 4, 8, 16} }

  predicate IsVectorSize(n: nat) { n != 1 && IsSize(n) }

  function GeometricIndex(c: char): int {
    match c
    case 'x' => 0 case 'X' => 0
    case 'y' => 1 case 'Y' => 1
    case 'z' => 2 case 'Z' => 2
    case 'w' => 3 case 'W' => 3
    case _ => -1
  }

  function SStyleIndex(c: char): int {
    if '0' <= c <= '9' then c as int - '0' as int
    else if 'a' <= c <= 'f' then 10 + (c as int - 'a' as int)
    else if 'A' <= c <= 'F' then 10 + (c as int - 'A' as int)
    else -1
  }

  /** The ways to select components. */
  datatype Style = SStyle | Lo | Hi | Odd | Even | Geometric

  function StyleOf(sel: string): Style
    requires sel != ""
  {
    if sel[0] == 's' || sel[0] == 'S' then SStyle
    else if sel == "lo" then Lo
    else if sel == "hi" then Hi
    else if sel == "odd" then Odd
    else if sel == "even" then Even
    else Geometric
  }

  predicate Halves(style: Style) { style != SStyle && style != Geometric }

  /** A vector of three elements has physically four. */
  function Physical(size: nat): nat { if size == 3 then 4 else size }

  /** The letters that name components. */
  function Letters(sel: string): string
    requires sel != ""
  {
    if StyleOf(sel) == SStyle then sel[1..] else sel
  }

  function LetterIndex(style: Style, c: char): int {
    if style == SStyle then SStyleIndex(c) else GeometricIndex(c)
  }

  /** The components selected, in order; -1 stands for a letter that names none. */
  function Indices(size: nat, sel: string): (r: seq<int>)
    requires sel != ""
  {
    var half := Physical(size) / 2;
    match StyleOf(sel)
    case Lo => seq(half, i => i)
    case Hi => seq(Physical(size) - half, i => half + i)
    case Odd => seq(half, i => 2 * i + 1)
    case Even => seq((Physical(size) + 1) / 2, i => 2 * i)
    case style => LetterIndices(style, Letters(sel))
  }

  function LetterIndices(style: Style, letters: string): seq<int> {
    seq(|letters|, i requires 0 <= i < |letters| => LetterIndex(style, letters[i]))
  }

  predicate InRange(size: nat, r: seq<int>) {
    forall i :: 0 <= i < |r| ==> 0 <= r[i] < size
  }

  predicate Repeats(r: seq<int>) {
    exists i, j :: 0 <= i < j < |r| && r[i] == r[j]
  }

  method GetElementList(size: nat, sel: string) returns (r: seq<int>)
    requires sel != ""
    ensures r == Indices(size, sel)
  {
    r := [];
    var n := if size == 3 then 4 else size;
    if sel[0] == 's' || sel[0] == 'S' {
      var i := 1;
      while i < |sel|
        invariant 1 <= i <= |sel|
        invariant |r| == i - 1 && forall k :: 0 <= k < i - 1 ==> r[k] == SStyleIndex(sel[k + 1])
      {
        r := r + [SStyleIndex(sel[i])];
        i := i + 1;
      }
    } else if sel == "lo" {
      var index := 0;
      while index < n / 2
        invariant 0 <= index == |r| <= n / 2
        invariant forall k :: 0 <= k < |r| ==> r[k] == k
      {
        r := r + [index];
        index := index + 1;
      }
    } else if sel == "hi" {
      var index := n / 2;
      while index < n
        invariant n / 2 <= index == n / 2 + |r| <= n
        invariant forall k :: 0 <= k < |r| ==> r[k] == n / 2 + k
      {
        r := r + [index];
        index := index + 1;
      }
    } else if sel == "odd" {
      var index := 1;
      while index < n
        invariant index == 2 * |r| + 1 && |r| <= n / 2
        invariant forall k :: 0 <= k < |r| ==> r[k] == 2 * k + 1
      {
        r := r + [index];
        index := index + 2;
      }
    } else if sel == "even" {
      var index := 0;
      while index < n
        invariant index == 2 * |r| && |r| <= (n + 1) / 2
        invariant forall k :: 0 <= k < |r| ==> r[k] == 2 * k
      {
        r := r + [index];
        index := index + 2;
      }
    } else {
      var i := 0;
      while i < |sel|
        invariant 0 <= i <= |sel|
        invariant |r| == i && forall k :: 0 <= k < i ==> r[k] == GeometricIndex(sel[k])
      {
        r := r + [GeometricIndex(sel[i])];
        i := i + 1;
      }
    }
  }

  // ---------------------------------------------------------------------
  // What the selectors mean
  // ---------------------------------------------------------------------

  /** The two halves of a vector, one after the other, are all its components in order. */
  lemma LoAndHi(size: nat)
    requires IsVectorSize(size)
    ensures var n, lo, hi := Physical(size), Indices(size, "lo"), Indices(size, "hi");
            |lo| == |hi| == n / 2 && lo + hi == seq(n, i => i)
  {
    assert StyleOf("lo") == Lo && StyleOf("hi") == Hi;
  }

  /** c is in the list exactly when it is a component with this remainder. */
  ghost predicate EverySecond(r: seq<int>, n: nat, remainder: nat) {
    && (forall c :: c in r <==> 0 <= c < n && c % 2 == remainder)
    && (forall i, j :: 0 <= i < j < |r| ==> r[i] < r[j])
  }

  lemma EverySecondList(r: seq<int>, n: nat, remainder: nat)
    requires n % 2 == 0 && remainder < 2 && |r| == n / 2
    requires forall i :: 0 <= i < |r| ==> r[i] == 2 * i + remainder
    ensures EverySecond(r, n, remainder)
  {
    forall c | 0 <= c < n && c % 2 == remainder
      ensures c in r
    {
      assert r[c / 2] == c;
    }
  }

  /** Even and odd are the even and the odd components, in order; taken by turns they are
      all components in order. */
  lemma EvenAndOdd(size: nat)
    requires IsVectorSize(size)
    ensures var n, even, odd := Physical(size), Indices(size, "even"), Indices(size, "odd");
            && |even| == |odd| == n / 2
            && EverySecond(even, n, 0) && EverySecond(odd, n, 1)
            && forall i :: 0 <= i < n ==> i == if i % 2 == 0 then even[i / 2] else odd[i / 2]
  {
    assert StyleOf("even") == Even && StyleOf("odd") == Odd;
    EverySecondList(Indices(size, "even"), Physical(size), 0);
    EverySecondList(Indices(size, "odd"), Physical(size), 1);
  }

  /** A letter names component k when it is at place k of the alphabet, in either case. */
  predicate Names(c: char, lower: string, upper: string, k: int)
    requires |lower| == |upper|
  {
    0 <= k < |lower| && (c == lower[k] || c == upper[k])
  }

  /** Without s the letters x, y, z and w name the first four components. */
  lemma GeometricLetters(size: nat, sel: string)
    requires sel != "" && sel[0] !in "sS" && sel !in ["lo", "hi", "odd", "even"]
    ensures |Indices(size, sel)| == |sel|
    ensures forall i, k :: 0 <= i < |sel| && k >= 0 ==>
              (Indices(size, sel)[i] == k <==> Names(sel[i], "xyzw", "XYZW", k))
  {
    assert StyleOf(sel) == Geometric;
    forall i, k | 0 <= i < |sel| && k >= 0
      ensures Indices(size, sel)[i] == k <==> Names(sel[i], "xyzw", "XYZW", k)
    {
      GeometricLetter(sel[i], k);
    }
  }

  lemma GeometricLetter(c: char, k: nat)
    ensures GeometricIndex(c) == k <==> Names(c, "xyzw", "XYZW", k)
  {
  }

  /** After s the sixteen hexadecimal digits name the components. */
  lemma SStyleLetters(size: nat, sel: string)
    requires sel != "" && sel[0] in "sS"
    ensures |Indices(size, sel)| == |sel| - 1
    ensures forall i, k :: 0 < i < |sel| && k >= 0 ==>
              (Indices(size, sel)[i - 1] == k <==> Names(sel[i], "0123456789abcdef", "0123456789ABCDEF", k))
  {
    forall i, k | 0 < i < |sel| && k >= 0
      ensures Indices(size, sel)[i - 1] == k <==> Names(sel[i], "0123456789abcdef", "0123456789ABCDEF", k)
    {
      SStyleLetter(sel[i], k);
    }
  }

  lemma SStyleLetter(c: char, k: nat)
    ensures SStyleIndex(c) == k <==> Names(c, "0123456789abcdef", "0123456789ABCDEF", k)
  {
  }

  predicate RepeatsInRange(size: nat, r: seq<int>) {
    exists i, j :: 0 <= i < j < |r| && r[i] == r[j] && 0 <= r[i] < size
  }

  /** Checking the letters: whether some names no component, and whether one component
      is named twice. */
  method CheckLetters(size: nat, style: Style, letters: string) returns (failed: bool, multiple: bool)
    ensures failed <==> !InRange(size, LetterIndices(style, letters))
    ensures multiple <==> RepeatsInRange(size, LetterIndices(style, letters))
  {
    var referenced := new bool[size](_ => false);
    ghost var r := LetterIndices(style, letters);
    failed, multiple := false, false;
    var i := 0;
    while i < |letters|
      invariant 0 <= i <= |letters|
      invariant failed <==> !InRange(size, r[..i])
      invariant forall n :: 0 <= n < size ==> (referenced[n] <==> n in r[..i])
      invariant multiple <==> RepeatsInRange(size, r[..i])
    {
      var index := LetterIndex(style, letters[i]);
      assert r[..i + 1] == r[..i] + [index];
      if index < 0 || index >= size {
        failed := true;
        assert r[..i + 1][i] == index;
      } else {
        NextIndex(size, r[..i], index);
        if referenced[index] {
          multiple := true;
        }
        referenced[index] := true;
      }
      i := i + 1;
    }
    assert r[..i] == r;
  }

  lemma NextIndex(size: nat, r: seq<int>, index: int)
    requires 0 <= index < size
    ensures RepeatsInRange(size, r + [index]) <==> RepeatsInRange(size, r) || index in r
  {
    var s := r + [index];
    if index in r {
      var k :| 0 <= k < |r| && r[k] == index;
      assert s[k] == s[|r|];
    }
    if RepeatsInRange(size, r) {
      var i, j :| 0 <= i < j < |r| && r[i] == r[j] && 0 <= r[i] < size;
      assert s[i] == s[j];
    }
  }

  // ---------------------------------------------------------------------
  // One selection
  // ---------------------------------------------------------------------

  /** A vector of a size: a vector object, or components of one.  The flag says that a
      component of the object may be there twice. */
  datatype Reference = Reference(size: nat, components: Option<seq<int>>, duplication: bool)

  datatype Outcome =
    | InternalError
    | FatalError
    | Crash
    | Selected(reference: Reference, failed: bool)

  function NewSize(size: nat, sel: string): nat
    requires sel != ""
  {
    if !Halves(StyleOf(sel)) then |Letters(sel)| else if size == 3 then 2 else size / 2
  }

  /** The components of an object through components of it. */
  function Compose(old_: seq<int>, r: seq<int>): seq<int>
    requires InRange(|old_|, r)
  {
    seq(|r|, i requires 0 <= i < |r| => old_[r[i]])
  }

  predicate Fails(size: nat, sel: string)
    requires sel != ""
  {
    && !Halves(StyleOf(sel))
    && (!InRange(size, Indices(size, sel)) || (StyleOf(sel) == Geometric && size > 4))
  }

  function Select(v: Reference, sel: string): Outcome {
    if sel == "" then InternalError
    else if !IsSize(NewSize(v.size, sel)) then FatalError
    else
      var r := Indices(v.size, sel);
      if v.components.Some? && !InRange(|v.components.value|, r) then Crash
      else
        var composed := if v.components.Some? then Compose(v.components.value, r) else r;
        var multiple := !Halves(StyleOf(sel)) && RepeatsInRange(v.size, r);
        Selected(Reference(NewSize(v.size, sel), Some(composed), v.duplication || multiple), Fails(v.size, sel))
  }

  /** The checks of the letters, and the size of the selection. */
  method CheckSelection(size: nat, sel: string) returns (failed: bool, multiple: bool, newSize: nat)
    requires sel != ""
    ensures failed == Fails(size, sel) && newSize == NewSize(size, sel)
    ensures multiple == (!Halves(StyleOf(sel)) && RepeatsInRange(size, Indices(size, sel)))
  {
    if sel[0] == 's' || sel[0] == 'S' {
      failed, multiple := CheckLetters(size, SStyle, sel[1..]);
      newSize := |sel| - 1;
    } else if sel == "lo" || sel == "hi" || sel == "odd" || sel == "even" {
      failed, multiple := false, false;
      newSize := if size == 3 then 2 else size / 2;
    } else {
      failed, multiple := CheckLetters(size, Geometric, sel);
      newSize := |sel|;
      if size > 4 {
        failed := true;
      }
    }
  }

  /** The components of the object; the library refuses an index out of range. */
  method Merge(old_: seq<int>, list: seq<int>) returns (composed: Option<seq<int>>)
    ensures composed == if InRange(|old_|, list) then Some(Compose(old_, list)) else None
  {
    var r: seq<int> := [];
    var i := 0;
    while i < |list|
      invariant 0 <= i <= |list| && |r| == i
      invariant forall k :: 0 <= k < i ==> 0 <= list[k] < |old_| && r[k] == old_[list[k]]
    {
      if !(0 <= list[i] < |old_|) {
        return None;
      }
      r := r + [old_[list[i]]];
      i := i + 1;
    }
    assert r == Compose(old_, list);
    composed := Some(r);
  }

  method GetVectorElement(v: Reference, sel: string) returns (outcome: Outcome)
    ensures outcome == Select(v, sel)
  {
    hide Fails, NewSize, Indices, RepeatsInRange, Halves, Compose, InRange;
    if |sel| == 0 {
      return InternalError;
    }
    var failed, multiple, newSize := CheckSelection(v.size, sel);
    if !IsSize(newSize) {
      return FatalError;
    }
    var list := GetElementList(v.size, sel);
    if v.components.Some? {
      var composed := Merge(v.components.value, list);
      if composed.None? {
        return Crash;
      }
      list := composed.value;
    }
    outcome := Selected(Reference(newSize, Some(list), v.duplication || multiple), failed);
  }

  /** The components that a vector of three does not have. */
  predicate FourthOfThree(size: nat, sel: string)
    requires sel != ""
  {
    size == 3 && (StyleOf(sel) == Hi || StyleOf(sel) == Odd)
  }

  /** When no error is raised the components are those of the vector, but for hi and
      odd on three elements. */
  lemma SelectionInRange(size: nat, sel: string)
    requires sel != "" && IsVectorSize(size) && !Fails(size, sel)
    ensures InRange(size, Indices(size, sel)) <==> !FourthOfThree(size, sel)
    ensures |Indices(size, sel)| == NewSize(size, sel)
  {
    if FourthOfThree(size, sel) {
      assert Indices(size, sel)[1] == 3;
    }
  }

  // ---------------------------------------------------------------------
  // Chains of selections
  // ---------------------------------------------------------------------

  /** A selection raises no error and stays inside the vector. */
  predicate Legal(size: nat, sel: string) {
    && sel != "" && IsVectorSize(size) && IsSize(NewSize(size, sel))
    && !Fails(size, sel) && !FourthOfThree(size, sel)
  }

  /** The elements a reference denotes in an object. */
  ghost predicate Denotes<T>(object_: seq<T>, v: Reference, elements: seq<T>) {
    && |elements| == v.size
    && match v.components
       case None => elements == object_
       case Some(c) => |c| == v.size && InRange(|object_|, c) && elements == Read(object_, c)
  }

  function Read<T>(elements: seq<T>, r: seq<int>): seq<T>
    requires InRange(|elements|, r)
  {
    seq(|r|, i requires 0 <= i < |r| => elements[r[i]])
  }

  /** Selecting from components of an object is selecting from their elements. */
  lemma SelectionDenotes<T>(object_: seq<T>, v: Reference, elements: seq<T>, sel: string)
    requires Denotes(object_, v, elements) && Legal(v.size, sel)
    ensures InRange(v.size, Indices(v.size, sel))
    ensures var outcome := Select(v, sel);
            && outcome.Selected? && !outcome.failed
            && Denotes(object_, outcome.reference, Read(elements, Indices(v.size, sel)))
  {
    SelectionInRange(v.size, sel);
    var r := Indices(v.size, sel);
    if v.components.Some? {
      var composed := Compose(v.components.value, r);
      assert Read(object_, composed) == Read(elements, r);
    }
  }

  /** A legal chain that is not marked with duplication names no component twice. */
  lemma SelectionDistinct(v: Reference, sel: string)
    requires Legal(v.size, sel)
    requires v.components.Some? ==> |v.components.value| == v.size
    requires !v.duplication && v.components.Some? ==> !Repeats(v.components.value)
    ensures var outcome := Select(v, sel);
            && outcome.Selected?
            && (!outcome.reference.duplication ==> !Repeats(outcome.reference.components.value))
  {
    hide Fails, Indices, Repeats, RepeatsInRange, InRange, Compose;
    SelectionInRange(v.size, sel);
    if !Select(v, sel).reference.duplication {
      IndicesDistinct(v.size, sel);
      if v.components.Some? {
        ComposeDistinct(v.components.value, Indices(v.size, sel));
      }
    }
  }

  lemma ComposeDistinct(old_: seq<int>, r: seq<int>)
    requires InRange(|old_|, r) && !Repeats(old_) && !Repeats(r)
    ensures !Repeats(Compose(old_, r))
  {
    forall i, j | 0 <= i < j < |r|
      ensures Compose(old_, r)[i] != Compose(old_, r)[j]
    {
      assert r[i] != r[j];
      assert r[i] < r[j] || r[j] < r[i];
    }
  }

  lemma IndicesDistinct(size: nat, sel: string)
    requires Legal(size, sel) && (Halves(StyleOf(sel)) || !RepeatsInRange(size, Indices(size, sel)))
    ensures !Repeats(Indices(size, sel))
  {
    SelectionInRange(size, sel);
  }

  /** What remains of a vector after a chain, unless it goes wrong somewhere. */
  function Chain(size: nat, sels: seq<string>): Option<Reference> {
    if sels == [] then Some(Reference(size, None, false))
    else
      var n := |sels| - 1;
      var before := Chain(size, sels[..n]);
      if before.None? || !Legal(before.value.size, sels[n]) then None
      else
        match Select(before.value, sels[n])
        case Selected(v, _) => Some(v)
        case _ => None
  }

  /** The elements got by applying the selections one after the other. */
  function OneAfterTheOther<T>(object_: seq<T>, sels: seq<string>): Option<seq<T>> {
    if sels == [] then Some(object_)
    else
      var n := |sels| - 1;
      match OneAfterTheOther(object_, sels[..n])
      case None => None
      case Some(before) =>
        if !Legal(|before|, sels[n]) then None
        else
          SelectionInRange(|before|, sels[n]);
          Some(Read(before, Indices(|before|, sels[n])))
  }

  /** For every chain of selections, the composed components read what the selections
      read one after the other; without the duplication mark they are all different. */
  lemma {:induction false} ChainReads<T>(object_: seq<T>, sels: seq<string>)
    ensures var elements, v := OneAfterTheOther(object_, sels), Chain(|object_|, sels);
            && elements.Some? == v.Some?
            && (v.Some? ==> Denotes(object_, v.value, elements.value))
            && (v.Some? && v.value.components.Some? && !v.value.duplication ==> !Repeats(v.value.components.value))
  {
    if sels != [] {
      var n := |sels| - 1;
      ChainReads(object_, sels[..n]);
      var before, v := OneAfterTheOther(object_, sels[..n]), Chain(|object_|, sels[..n]);
      if v.Some? && Legal(v.value.size, sels[n]) {
        SelectionDenotes(object_, v.value, before.value, sels[n]);
        SelectionDistinct(v.value, sels[n]);
      }
    }
  }

  /** Selecting hi or odd from three components of an object makes the compiler fail,
      where selecting it from a vector of three gives a fourth component. */
  lemma FourthOfThreeFails(v: Reference, sel: string)
    requires sel != "" && v.size == 3
    requires v.components.Some? ==> |v.components.value| == 3
    ensures Select(v, sel) == Crash && !Fails(3, sel) ==> FourthOfThree(3, sel) && v.components.Some?
    ensures FourthOfThree(3, sel) ==>
              if v.components.Some? then Select(v, sel) == Crash
              else Select(v, sel).Selected? && !Select(v, sel).failed &&
                   3 in Select(v, sel).reference.components.value
  {
    if FourthOfThree(3, sel) {
      assert Indices(3, sel)[1] == 3;
    } else if !Fails(3, sel) {
      SelectionInRange(3, sel);
    }
  }

  /** A selector names a component twice. */
  predicate NamesTwice(size: nat, sel: string) {
    sel != "" && !Halves(StyleOf(sel)) && RepeatsInRange(size, Indices(size, sel))
  }

  /** The i-th selection of a chain names a component twice. */
  predicate TwiceAt(size: nat, sels: seq<string>, i: nat)
    requires i < |sels|
  {
    var before := Chain(size, sels[..i]);
    before.Some? && NamesTwice(before.value.size, sels[i])
  }

  predicate SomeTwice(size: nat, sels: seq<string>) {
    exists i :: 0 <= i < |sels| && TwiceAt(size, sels, i)
  }

  /** The mark is set exactly when some selection of the chain names a component twice;
      it is never taken back. */
  lemma {:induction false} MarkIffNamedTwice(size: nat, sels: seq<string>)
    requires Chain(size, sels).Some?
    ensures Chain(size, sels).value.duplication <==> SomeTwice(size, sels)
  {
    if sels != [] {
      hide Chain, TwiceAt, SomeTwice;
      var n := |sels| - 1;
      LastSelection(size, sels);
      MarkIffNamedTwice(size, sels[..n]);
      SomeTwiceLast(size, sels);
    }
  }

  lemma SomeTwiceLast(size: nat, sels: seq<string>)
    requires sels != []
    ensures var n := |sels| - 1;
            SomeTwice(size, sels) <==> SomeTwice(size, sels[..n]) || TwiceAt(size, sels, n)
  {
    hide TwiceAt;
    var n := |sels| - 1;
    if SomeTwice(size, sels) {
      var i :| 0 <= i < |sels| && TwiceAt(size, sels, i);
      if i < n {
        EarlierSelection(size, sels, n, i);
      }
    }
    if SomeTwice(size, sels[..n]) {
      var i :| 0 <= i < n && TwiceAt(size, sels[..n], i);
      EarlierSelection(size, sels, n, i);
    }
  }

  lemma EarlierSelection(size: nat, sels: seq<string>, n: nat, i: nat)
    requires i < n <= |sels|
    ensures TwiceAt(size, sels[..n], i) <==> TwiceAt(size, sels, i)
  {
    assert sels[..n][..i] == sels[..i];
  }

  lemma LastSelection(size: nat, sels: seq<string>)
    requires sels != [] && Chain(size, sels).Some?
    ensures var n := |sels| - 1;
            && Chain(size, sels[..n]).Some?
            && (Chain(size, sels).value.duplication <==>
                Chain(size, sels[..n]).value.duplication || TwiceAt(size, sels, n))
  {
    hide Indices, RepeatsInRange, Halves, Fails;
  }

  /** So the mark can be set although all components are different: of aabb, for any two
      components a and b, the first and the third letter are selected. */
  lemma DuplicationIsKept(a: char, b: char)
    requires 0 <= GeometricIndex(a) && 0 <= GeometricIndex(b) && GeometricIndex(a) != GeometricIndex(b)
    ensures var v := Select(Reference(4, None, false), [a, a, b, b]);
            && v.Selected?
            && var w := Select(v.reference, "xz");
            && w.Selected? && w.reference.duplication
            && w.reference.components == Some([GeometricIndex(a), GeometricIndex(b)])
  {
    var sel, i, j := [a, a, b, b], GeometricIndex(a), GeometricIndex(b);
    assert StyleOf(sel) == Geometric && StyleOf("xz") == Geometric;
    var r := Indices(4, sel);
    assert r == [i, i, j, j];
    assert r[0] == r[1];
    assert Indices(4, "xz") == [0, 2];
    assert Compose(r, [0, 2]) == [i, j];
  }
}
