/** One flat map keyed by encoded paths, against a stack of frames. */
module LexicalScopes {
  import opened Wrappers
  import opened Numerals
  import opened ScopeNames

  function Get<T>(m: map<string, T>, key: string): Option<T> {
    if key in m then Some(m[key]) else None
  }

  /** Looks `name` up in scope `scope`, then in each scope obtained by stripping
      one level, until it is found or no level is left. */
  function LookupFrom<T>(entries: map<string, T>, scope: string, name: string): Option<T>
    decreases |scope|
  {
    var found := Get(entries, AddScopeToName(scope, name));
    if found.Some? then found
    else
      match RemoveOneLevelScope(scope)
      case None => None
      case Some(outer) => LookupFrom(entries, outer, name)
  }

  // ---------------------------------------------------------------------
  // What the symbol table keeps for one name space
  // ---------------------------------------------------------------------

  datatype Flat<T> = Flat(stack: seq<string>, counter: nat, entries: map<string, T>) {
    function PushNamed(s: string): Flat<T> {
      Flat(stack + [s], counter, entries)
    }

    function PushUnnamed(): Flat<T> {
      Flat(stack + [Unnamed(counter)], counter + 1, entries)
    }

    function Pop(): Flat<T> {
      if stack == [] then this else Flat(stack[..|stack| - 1], counter, entries)
    }

    function Key(name: string): string {
      AddScopeToName(Join(stack), name)
    }

    function Put(name: string, value: T): Flat<T> {
      Flat(stack, counter, entries[Key(name) := value])
    }

    function Lookup(name: string): Option<T> {
      LookupFrom(entries, Join(stack), name)
    }
  }

  // ---------------------------------------------------------------------
  // Lexical scoping: a stack of frames.  A scope that is entered again under
  // the same path takes back the frame it was left with.
  // ---------------------------------------------------------------------

  type Frame<T> = map<string, T>

  function Innermost<T>(frames: seq<Frame<T>>, name: string): Option<T> {
    if frames == [] then None
    else if name in frames[|frames| - 1] then Some(frames[|frames| - 1][name])
    else Innermost(frames[..|frames| - 1], name)
  }

  datatype Lexical<T> = Lexical(path: seq<string>, counter: nat, frames: seq<Frame<T>>,
                                closed: map<seq<string>, Frame<T>>)
  {
    ghost predicate Valid() {
      |frames| == |path| + 1 && AreSegments(path)
    }

    function Enter(s: string): Lexical<T> {
      var frame := if path + [s] in closed then closed[path + [s]] else map[];
      Lexical(path + [s], counter, frames + [frame], closed)
    }

    function EnterUnnamed(): Lexical<T> {
      Enter(Unnamed(counter)).(counter := counter + 1)
    }

    function Leave(): Lexical<T>
      requires |frames| == |path| + 1
    {
      if path == [] then this
      else Lexical(path[..|path| - 1], counter, frames[..|path|], closed[path := frames[|path|]])
    }

    function Bind(name: string, value: T): Lexical<T>
      requires |frames| == |path| + 1
    {
      this.(frames := frames[|path| := frames[|path|][name := value]])
    }

    function Lookup(name: string): Option<T> {
      Innermost(frames, name)
    }

    /** The frame of any path, open, closed or never entered. */
    ghost function FrameAt(p: seq<string>): Frame<T>
      requires |frames| == |path| + 1
    {
      if p <= path then frames[|p|] else if p in closed then closed[p] else map[]
    }
  }

  // ---------------------------------------------------------------------
  // Runs
  // ---------------------------------------------------------------------

  datatype Op<T> = PushNamed(s: string) | PushUnnamed | Pop | Put(name: string, value: T)

  predicate WellFormed<T>(op: Op<T>) {
    match op
    case PushNamed(s) => IsSegment(s)
    case Put(name, _) => IsSegment(name)
    case _ => true
  }

  function StepFlat<T>(st: Flat<T>, op: Op<T>): Flat<T> {
    match op
    case PushNamed(s) => st.PushNamed(s)
    case PushUnnamed => st.PushUnnamed()
    case Pop => st.Pop()
    case Put(name, value) => st.Put(name, value)
  }

  function StepLexical<T>(st: Lexical<T>, op: Op<T>): (r: Lexical<T>)
    requires |st.frames| == |st.path| + 1
    ensures |r.frames| == |r.path| + 1
  {
    match op
    case PushNamed(s) => st.Enter(s)
    case PushUnnamed => st.EnterUnnamed()
    case Pop => st.Leave()
    case Put(name, value) => st.Bind(name, value)
  }

  function RunFlat<T>(st: Flat<T>, ops: seq<Op<T>>): Flat<T>
    decreases |ops|
  {
    if ops == [] then st else RunFlat(StepFlat(st, ops[0]), ops[1..])
  }

  function RunLexical<T>(st: Lexical<T>, ops: seq<Op<T>>): (r: Lexical<T>)
    requires |st.frames| == |st.path| + 1
    ensures |r.frames| == |r.path| + 1
    decreases |ops|
  {
    if ops == [] then st else RunLexical(StepLexical(st, ops[0]), ops[1..])
  }

  function EmptyFlat<T>(): Flat<T> { Flat([], 0, map[]) }
  function EmptyLexical<T>(): Lexical<T> { Lexical([], 0, [map[]], map[]) }

  // ---------------------------------------------------------------------
  // Refinement
  // ---------------------------------------------------------------------

  /** The flat map holds exactly the bindings of every frame of every path. */
  ghost predicate SameBindings<T>(entries: map<string, T>, lex: Lexical<T>)
    requires |lex.frames| == |lex.path| + 1
  {
    forall p, name | AreSegments(p) && IsSegment(name) ::
      Get(entries, Join(p + [name])) == Get(lex.FrameAt(p), name)
  }

  ghost predicate Represents<T>(flat: Flat<T>, lex: Lexical<T>) {
    && lex.Valid()
    && flat.stack == lex.path
    && flat.counter == lex.counter
    && SameBindings(flat.entries, lex)
  }

  lemma EnterKeepsFrames<T>(lex: Lexical<T>, s: string, p: seq<string>)
    requires |lex.frames| == |lex.path| + 1
    ensures lex.Enter(s).FrameAt(p) == lex.FrameAt(p)
  {
    var path' := lex.path + [s];
    if p <= path' && !(p <= lex.path) {
      assert p == path';
    }
  }

  lemma LeaveKeepsFrames<T>(lex: Lexical<T>, p: seq<string>)
    requires |lex.frames| == |lex.path| + 1
    ensures lex.Leave().FrameAt(p) == lex.FrameAt(p)
  {
    if lex.path != [] {
      var path' := lex.path[..|lex.path| - 1];
      if p <= lex.path && !(p <= path') {
        assert |p| == |lex.path| && p == lex.path;
      }
    }
  }

  lemma BindFrame<T>(lex: Lexical<T>, name: string, value: T, p: seq<string>)
    requires |lex.frames| == |lex.path| + 1
    ensures lex.Bind(name, value).FrameAt(p) ==
            if p == lex.path then lex.FrameAt(p)[name := value] else lex.FrameAt(p)
  {
    if p <= lex.path && p != lex.path {
      assert |p| < |lex.path|;
    }
  }

  lemma SameKey(p: seq<string>, n: string, path: seq<string>, name: string)
    requires AreSegments(p) && IsSegment(n) && AreSegments(path) && IsSegment(name)
    ensures Join(p + [n]) == Join(path + [name]) <==> p == path && n == name
  {
    if Join(p + [n]) == Join(path + [name]) {
      JoinInjective(p + [n], path + [name]);
      assert p == (p + [n])[..|p|] && n == (p + [n])[|p|];
      assert path == (path + [name])[..|path|] && name == (path + [name])[|path|];
    }
  }

  lemma PutKeepsBindings<T>(flat: Flat<T>, lex: Lexical<T>, name: string, value: T)
    requires Represents(flat, lex) && IsSegment(name)
    ensures Represents(flat.Put(name, value), lex.Bind(name, value))
  {
    var flat', lex' := flat.Put(name, value), lex.Bind(name, value);
    JoinExtend(lex.path, name);
    forall p, n | AreSegments(p) && IsSegment(n)
      ensures Get(flat'.entries, Join(p + [n])) == Get(lex'.FrameAt(p), n)
    {
      hide Join, AreSegments, IsSegment;
      SameKey(p, n, lex.path, name);
      BindFrame(lex, name, value, p);
    }
  }

  lemma StepRepresents<T>(flat: Flat<T>, lex: Lexical<T>, op: Op<T>)
    requires Represents(flat, lex) && WellFormed(op)
    ensures Represents(StepFlat(flat, op), StepLexical(lex, op))
  {
    match op
    case PushNamed(s) =>
      forall p { EnterKeepsFrames(lex, s, p); }
    case PushUnnamed =>
      UnnamedIsSegment(flat.counter);
      forall p ensures lex.EnterUnnamed().FrameAt(p) == lex.FrameAt(p) {
        EnterKeepsFrames(lex, Unnamed(lex.counter), p);
      }
    case Pop =>
      forall p { LeaveKeepsFrames(lex, p); }
    case Put(name, value) =>
      PutKeepsBindings(flat, lex, name, value);
  }

  /** What `name` means in the frame of each scope on the path. */
  ghost predicate BindingsOf<T>(entries: map<string, T>, path: seq<string>, frames: seq<Frame<T>>, name: string) {
    && |frames| == |path| + 1
    && forall k | 0 <= k < |frames| ::
         Get(entries, AddScopeToName(Join(path[..k]), name)) == Get(frames[k], name)
  }

  lemma {:induction false} LookupFromPrefix<T>(entries: map<string, T>, path: seq<string>, frames: seq<Frame<T>>,
                                               k: nat, name: string)
    requires AreSegments(path) && BindingsOf(entries, path, frames, name) && k < |frames|
    ensures LookupFrom(entries, Join(path[..k]), name) == Innermost(frames[..k + 1], name)
    decreases k
  {
    var scope, fs := path[..k], frames[..k + 1];
    assert fs[k] == frames[k] && fs[..k] == frames[..k];
    RemoveOneLevelDropsLast(scope);
    assert Get(entries, AddScopeToName(Join(scope), name)) == Get(frames[k], name);
    if k > 0 {
      assert scope[..|scope| - 1] == path[..k - 1];
      LookupFromPrefix(entries, path, frames, k - 1, name);
    }
  }

  lemma RepresentedBindings<T>(flat: Flat<T>, lex: Lexical<T>, name: string)
    requires Represents(flat, lex) && IsSegment(name)
    ensures BindingsOf(flat.entries, lex.path, lex.frames, name)
  {
    forall k | 0 <= k < |lex.frames|
      ensures Get(flat.entries, AddScopeToName(Join(lex.path[..k]), name)) == Get(lex.frames[k], name)
    {
      JoinExtend(lex.path[..k], name);
      assert lex.FrameAt(lex.path[..k]) == lex.frames[k];
    }
  }

  lemma RepresentedLookup<T>(flat: Flat<T>, lex: Lexical<T>, name: string)
    requires Represents(flat, lex) && IsSegment(name)
    ensures flat.Lookup(name) == lex.Lookup(name)
  {
    RepresentedBindings(flat, lex, name);
    LookupFromPrefix(flat.entries, lex.path, lex.frames, |lex.path|, name);
    assert lex.path[..|lex.path|] == lex.path && lex.frames[..|lex.path| + 1] == lex.frames;
  }

  lemma {:induction false} RunRepresents<T>(flat: Flat<T>, lex: Lexical<T>, ops: seq<Op<T>>)
    requires Represents(flat, lex) && forall op <- ops :: WellFormed(op)
    ensures Represents(RunFlat(flat, ops), RunLexical(lex, ops))
    decreases |ops|
  {
    if ops != [] {
      StepRepresents(flat, lex, ops[0]);
      RunRepresents(StepFlat(flat, ops[0]), StepLexical(lex, ops[0]), ops[1..]);
    }
  }

  /** After any run, the string-keyed table finds exactly the innermost binding. */
  lemma FlatTableIsLexical<T>(ops: seq<Op<T>>, name: string)
    requires (forall op <- ops :: WellFormed(op)) && IsSegment(name)
    ensures RunFlat(EmptyFlat<T>(), ops).Lookup(name) == RunLexical(EmptyLexical<T>(), ops).Lookup(name)
  {
    RunRepresents(EmptyFlat<T>(), EmptyLexical<T>(), ops);
    RepresentedLookup(RunFlat(EmptyFlat<T>(), ops), RunLexical(EmptyLexical<T>(), ops), name);
  }

  // ---------------------------------------------------------------------
  // Unnamed scopes.  A segment that is a number was made from the counter as
  // long as no named scope is a number.
  // ---------------------------------------------------------------------

  predicate NotNumbered<T>(op: Op<T>) {
    op.PushNamed? ==> !IsNumber(op.s)
  }

  ghost predicate NumberUsed(s: string, counter: nat) {
    IsNumber(s) ==> Value(s, 10) < counter
  }

  ghost predicate NumbersUsed<T>(lex: Lexical<T>)
    requires |lex.frames| == |lex.path| + 1
  {
    && (forall s <- lex.path :: NumberUsed(s, lex.counter))
    && (forall p <- lex.closed :: p != [] && NumberUsed(p[|p| - 1], lex.counter))
  }

  lemma EnterUnnamedIsNew<T>(lex: Lexical<T>)
    requires |lex.frames| == |lex.path| + 1 && NumbersUsed(lex)
    ensures lex.path + [Unnamed(lex.counter)] !in lex.closed
    ensures lex.EnterUnnamed().frames == lex.frames + [map[]]
    ensures NumbersUsed(lex.EnterUnnamed())
  {
    var s := Unnamed(lex.counter);
    PrintRoundTrip(lex.counter, 10);
    var p := lex.path + [s];
    assert p[|p| - 1] == s;
  }

  lemma {:induction false} RunKeepsNumbersUsed<T>(lex: Lexical<T>, ops: seq<Op<T>>)
    requires |lex.frames| == |lex.path| + 1 && NumbersUsed(lex) && forall op <- ops :: NotNumbered(op)
    ensures NumbersUsed(RunLexical(lex, ops))
    decreases |ops|
  {
    if ops != [] {
      assert NotNumbered(ops[0]);
      if ops[0].PushUnnamed? {
        EnterUnnamedIsNew(lex);
      }
      RunKeepsNumbersUsed(StepLexical(lex, ops[0]), ops[1..]);
    }
  }

  /** After any run, however often it enters its named scopes, the next unnamed scope
      starts without bindings: the counter is never reset. */
  lemma UnnamedScopeIsNew<T>(ops: seq<Op<T>>)
    requires forall op <- ops :: NotNumbered(op)
    ensures var lex := RunLexical(EmptyLexical<T>(), ops);
            NumbersUsed(lex) && lex.EnterUnnamed().frames == lex.frames + [map[]]
  {
    RunKeepsNumbersUsed(EmptyLexical<T>(), ops);
    EnterUnnamedIsNew(RunLexical(EmptyLexical<T>(), ops));
  }

  // ---------------------------------------------------------------------
  // Blocks
  // ---------------------------------------------------------------------

  /** The operations inside a scope entered d levels deep, up to and including
      the one that leaves the outermost of them. */
  predicate Bracketed<T>(ops: seq<Op<T>>, d: nat)
    decreases |ops|
  {
    if d == 0 then ops == []
    else
      ops != [] &&
      match ops[0]
      case PushNamed(_) => Bracketed(ops[1..], d + 1)
      case PushUnnamed => Bracketed(ops[1..], d + 1)
      case Pop => Bracketed(ops[1..], d - 1)
      case Put(_, _) => Bracketed(ops[1..], d)
  }

  /** A block leaves the enclosing frames as they were, and is left at their level. */
  lemma {:induction false} BlockKeepsOuterFrames<T>(lex: Lexical<T>, k: nat, ops: seq<Op<T>>)
    requires |lex.frames| == |lex.path| + 1 && 0 < k <= |lex.frames| && Bracketed(ops, |lex.frames| - k)
    ensures RunLexical(lex, ops).frames == lex.frames[..k]
    decreases |ops|
  {
    if ops == [] {
      assert lex.frames[..k] == lex.frames;
    } else {
      var lex' := StepLexical(lex, ops[0]);
      assert lex'.frames[..k] == lex.frames[..k];
      BlockKeepsOuterFrames(lex', k, ops[1..]);
    }
  }

  lemma {:induction false} RunAppend<T>(lex: Lexical<T>, a: seq<Op<T>>, b: seq<Op<T>>)
    requires |lex.frames| == |lex.path| + 1
    ensures RunLexical(lex, a + b) == RunLexical(RunLexical(lex, a), b)
    decreases |a|
  {
    if a == [] {
      assert a + b == b;
    } else {
      assert (a + b)[1..] == a[1..] + b;
      RunAppend(StepLexical(lex, a[0]), a[1..], b);
    }
  }

  predicate Opens<T>(op: Op<T>) { op.PushNamed? || op.PushUnnamed? }

  /** Bindings made inside a block, named or not and entered before or not, are gone
      after it: a name then means what it meant before the block. */
  lemma PoppedScopesDoNotLeak<T>(before: seq<Op<T>>, open: Op<T>, block: seq<Op<T>>, name: string)
    requires (forall op <- before + ([open] + block) :: WellFormed(op)) && IsSegment(name)
    requires Opens(open) && Bracketed(block, 1)
    ensures RunFlat(EmptyFlat<T>(), before + ([open] + block)).Lookup(name)
         == RunFlat(EmptyFlat<T>(), before).Lookup(name)
  {
    var start, whole := EmptyLexical<T>(), [open] + block;
    var lex := RunLexical(start, before);
    RunAppend(start, before, whole);
    BlockRestoresFrames(lex, open, block);
    assert forall op <- before :: op in before + whole;
    FlatTableIsLexical(before + whole, name);
    FlatTableIsLexical(before, name);
  }

  lemma OpenedFrames<T>(lex: Lexical<T>, open: Op<T>)
    requires |lex.frames| == |lex.path| + 1 && Opens(open)
    ensures var frames := StepLexical(lex, open).frames;
            |frames| == |lex.frames| + 1 && frames[..|lex.frames|] == lex.frames
  {
  }

  lemma RunOne<T>(lex: Lexical<T>, op: Op<T>, ops: seq<Op<T>>)
    requires |lex.frames| == |lex.path| + 1
    ensures RunLexical(lex, [op] + ops) == RunLexical(StepLexical(lex, op), ops)
  {
    assert ([op] + ops)[0] == op && ([op] + ops)[1..] == ops;
  }

  lemma BlockRestoresFrames<T>(lex: Lexical<T>, open: Op<T>, block: seq<Op<T>>)
    requires |lex.frames| == |lex.path| + 1 && Opens(open) && Bracketed(block, 1)
    ensures RunLexical(lex, [open] + block).frames == lex.frames
  {
    hide StepLexical, RunLexical, Bracketed;
    OpenedFrames(lex, open);
    RunOne(lex, open, block);
    BlockKeepsOuterFrames(StepLexical(lex, open), |lex.frames|, block);
  }

  // ---------------------------------------------------------------------
  // The plain stack of frames, where leaving a scope forgets its frame.
  // ---------------------------------------------------------------------

  function StepStack<T>(frames: seq<Frame<T>>, op: Op<T>): (r: seq<Frame<T>>)
    requires frames != []
    ensures r != []
  {
    match op
    case PushNamed(_) => frames + [map[]]
    case PushUnnamed => frames + [map[]]
    case Pop => if |frames| == 1 then frames else frames[..|frames| - 1]
    case Put(name, value) => frames[|frames| - 1 := frames[|frames| - 1][name := value]]
  }

  function RunStack<T>(frames: seq<Frame<T>>, ops: seq<Op<T>>): (r: seq<Frame<T>>)
    requires frames != []
    ensures r != []
    decreases |ops|
  {
    if ops == [] then frames else RunStack(StepStack(frames, ops[0]), ops[1..])
  }

  /** The path that an operation enters has no bindings left from before. */
  predicate EntersClean<T>(lex: Lexical<T>, op: Op<T>) {
    match op
    case PushNamed(s) => Clean(lex, s)
    case PushUnnamed => Clean(lex, Unnamed(lex.counter))
    case _ => true
  }

  predicate Clean<T>(lex: Lexical<T>, s: string) {
    lex.path + [s] in lex.closed ==> lex.closed[lex.path + [s]].Keys == {}
  }

  predicate AllEnterClean<T>(lex: Lexical<T>, ops: seq<Op<T>>)
    requires |lex.frames| == |lex.path| + 1
    decreases |ops|
  {
    ops == [] || (EntersClean(lex, ops[0]) && AllEnterClean(StepLexical(lex, ops[0]), ops[1..]))
  }

  lemma CleanStep<T>(lex: Lexical<T>, op: Op<T>)
    requires |lex.frames| == |lex.path| + 1
    ensures EntersClean(lex, op) <==> StepLexical(lex, op).frames == StepStack(lex.frames, op)
  {
    var frames, frames' := StepLexical(lex, op).frames, StepStack(lex.frames, op);
    if Opens(op) {
      var n := |lex.frames|;
      assert frames == lex.frames + [frames[n]] && frames' == lex.frames + [map[]];
      assert EntersClean(lex, op) <==> frames[n].Keys == {};
      assert frames[n].Keys == {} ==> frames[n] == map[];
    }
  }

  /** After every prefix of the run the frames are those of the plain stack. */
  ghost predicate StackThroughout<T>(lex: Lexical<T>, ops: seq<Op<T>>)
    requires |lex.frames| == |lex.path| + 1
  {
    forall n :: 0 <= n <= |ops| ==> RunLexical(lex, ops[..n]).frames == RunStack(lex.frames, ops[..n])
  }

  lemma FirstOfPrefix<T>(lex: Lexical<T>, ops: seq<Op<T>>, n: nat)
    requires |lex.frames| == |lex.path| + 1 && n < |ops|
    ensures RunLexical(lex, ops[..n + 1]) == RunLexical(StepLexical(lex, ops[0]), ops[1..][..n])
    ensures RunStack(lex.frames, ops[..n + 1]) == RunStack(StepStack(lex.frames, ops[0]), ops[1..][..n])
  {
    assert ops[..n + 1][0] == ops[0] && ops[..n + 1][1..] == ops[1..][..n];
  }

  /** Exactly when a run is that of a plain stack: every path it enters has no bindings
      left from before. */
  lemma {:induction false} StackIffClean<T>(lex: Lexical<T>, ops: seq<Op<T>>)
    requires |lex.frames| == |lex.path| + 1
    ensures StackThroughout(lex, ops) <==> AllEnterClean(lex, ops)
    decreases |ops|
  {
    if ops == [] {
      assert ops[..0] == [];
    } else {
      var lex', rest := StepLexical(lex, ops[0]), ops[1..];
      CleanStep(lex, ops[0]);
      StackIffClean(lex', rest);
      FirstOfPrefix(lex, ops, 0);
      assert rest[..0] == [] && ops[..0] == [];
      if EntersClean(lex, ops[0]) {
        LaterPrefixes(lex, ops);
      } else {
        assert RunLexical(lex, ops[..1]).frames != RunStack(lex.frames, ops[..1]);
      }
    }
  }

  lemma LaterPrefixes<T>(lex: Lexical<T>, ops: seq<Op<T>>)
    requires |lex.frames| == |lex.path| + 1 && ops != []
    requires StepLexical(lex, ops[0]).frames == StepStack(lex.frames, ops[0])
    ensures StackThroughout(lex, ops) <==> StackThroughout(StepLexical(lex, ops[0]), ops[1..])
  {
    var lex', rest := StepLexical(lex, ops[0]), ops[1..];
    assert ops[..0] == [];
    if StackThroughout(lex', rest) {
      forall n | 0 <= n <= |ops|
        ensures RunLexical(lex, ops[..n]).frames == RunStack(lex.frames, ops[..n])
      {
        if n > 0 {
          FirstOfPrefix(lex, ops, n - 1);
          assert RunLexical(lex', rest[..n - 1]).frames == RunStack(lex'.frames, rest[..n - 1]);
        }
      }
    }
    if StackThroughout(lex, ops) {
      forall n | 0 <= n <= |rest|
        ensures RunLexical(lex', rest[..n]).frames == RunStack(lex'.frames, rest[..n])
      {
        FirstOfPrefix(lex, ops, n);
        assert RunLexical(lex, ops[..n + 1]).frames == RunStack(lex.frames, ops[..n + 1]);
      }
    }
  }

  /** Every named scope of the run is a new one, and no name is a number. */
  predicate NamesAreNew<T>(lex: Lexical<T>, ops: seq<Op<T>>)
    requires |lex.frames| == |lex.path| + 1
    decreases |ops|
  {
    ops == [] ||
    (&& WellFormed(ops[0])
     && (ops[0].PushNamed? ==> !IsNumber(ops[0].s) && lex.path + [ops[0].s] !in lex.closed)
     && NamesAreNew(StepLexical(lex, ops[0]), ops[1..]))
  }

  lemma {:induction false} NewNamesEnterClean<T>(lex: Lexical<T>, ops: seq<Op<T>>)
    requires |lex.frames| == |lex.path| + 1 && NumbersUsed(lex) && NamesAreNew(lex, ops)
    ensures AllEnterClean(lex, ops) && forall op <- ops :: WellFormed(op)
    decreases |ops|
  {
    if ops != [] {
      EnterUnnamedIsNew(lex);
      RunKeepsNumbersUsed(lex, [ops[0]]);
      assert RunLexical(lex, [ops[0]]) == StepLexical(lex, ops[0]);
      NewNamesEnterClean(StepLexical(lex, ops[0]), ops[1..]);
      assert ops == [ops[0]] + ops[1..];
    }
  }

  /** When no named scope is entered twice, the table is a plain stack of frames. */
  lemma FlatTableIsStack<T>(ops: seq<Op<T>>, name: string)
    requires NamesAreNew(EmptyLexical<T>(), ops) && IsSegment(name)
    ensures RunFlat(EmptyFlat<T>(), ops).Lookup(name) == Innermost(RunStack([map[]], ops), name)
  {
    NewNamesEnterClean(EmptyLexical<T>(), ops);
    StackIffClean(EmptyLexical<T>(), ops);
    assert ops[..|ops|] == ops;
    FlatTableIsLexical(ops, name);
  }

  /** A named scope that is entered again has the bindings it was left with, which the
      plain stack forgets: the scope of the parameters of a function is such a scope. */
  lemma ReenteredScopeKeepsBindings<T>(s: string, name: string, x: T)
    requires IsSegment(s) && IsSegment(name)
    ensures var ops := [PushNamed(s), Put(name, x), Pop, PushNamed(s)];
            && RunFlat(EmptyFlat<T>(), ops).Lookup(name) == Some(x)
            && Innermost(RunStack([map[]], ops), name) == None
            && !AllEnterClean(EmptyLexical<T>(), ops)
  {
    var start, put, enter := EmptyLexical<T>(), Put(name, x), PushNamed(s);
    var ops: seq<Op<T>> := [enter, put, Pop, enter];
    var inside := start.Enter(s).Bind(name, x);
    var left := inside.Leave();
    assert inside.path == [s] && left.path == [] && left.path + [s] == [s];
    assert left.closed[[s]] == inside.frames[1] && inside.frames[1][name] == x;
    assert ops == [enter] + ([put] + ([Pop] + ([enter] + [])));
    RunFour(start, enter, put, Pop, enter);
    var frames := left.Enter(s).frames;
    assert |frames| == 2 && name in frames[1] && frames[1][name] == x;
    assert RunStack(start.frames, ops) == [map[], map[]];
    var plain: seq<Frame<T>> := [map[], map[]];
    assert plain[..1] == [map[]] && Innermost(plain[..1], name) == None;
    assert forall op <- ops :: WellFormed(op);
    FlatTableIsLexical(ops, name);
    StackIffClean(start, ops);
    assert ops[..4] == ops;
  }

  lemma StackOne<T>(frames: seq<Frame<T>>, op: Op<T>, ops: seq<Op<T>>)
    requires frames != []
    ensures RunStack(frames, [op] + ops) == RunStack(StepStack(frames, op), ops)
  {
    assert ([op] + ops)[0] == op && ([op] + ops)[1..] == ops;
  }

  lemma RunEmpty<T>(lex: Lexical<T>, frames: seq<Frame<T>>)
    requires |lex.frames| == |lex.path| + 1 && frames != []
    ensures RunLexical(lex, []) == lex && RunStack(frames, []) == frames
  {
  }

  lemma RunFour<T>(lex: Lexical<T>, a: Op<T>, b: Op<T>, c: Op<T>, d: Op<T>)
    requires |lex.frames| == |lex.path| + 1
    ensures RunLexical(lex, [a] + ([b] + ([c] + ([d] + [])))) ==
            StepLexical(StepLexical(StepLexical(StepLexical(lex, a), b), c), d)
    ensures RunStack(lex.frames, [a] + ([b] + ([c] + ([d] + [])))) ==
            StepStack(StepStack(StepStack(StepStack(lex.frames, a), b), c), d)
  {
    hide StepLexical, StepStack, RunLexical, RunStack;
    var lex1, frames1 := StepLexical(lex, a), StepStack(lex.frames, a);
    var lex2, frames2 := StepLexical(lex1, b), StepStack(frames1, b);
    var lex3, frames3 := StepLexical(lex2, c), StepStack(frames2, c);
    RunEmpty(StepLexical(lex3, d), StepStack(frames3, d));
    RunOne(lex3, d, []);
    RunOne(lex2, c, [d] + []);
    RunOne(lex1, b, [c] + ([d] + []));
    RunOne(lex, a, [b] + ([c] + ([d] + [])));
    StackOne(frames3, d, []);
    StackOne(frames2, c, [d] + []);
    StackOne(frames1, b, [c] + ([d] + []));
    StackOne(lex.frames, a, [b] + ([c] + ([d] + [])));
  }
}
