/** What a run of scope operations and declarations makes, from the run alone: the
    accepted declarations of each object, and which one is kept. */
module DeclarationRuns {
  import opened Wrappers
  import opened ScopeNames
  import opened LexicalScopes
  import opened Symbols
  import opened Placement
  import opened Declarations
  import opened Registry
  import opened KeptDeclarations

  datatype Action =
    | EnterNamed(scope: string)
    | EnterBlock
    | LeaveScope
    | Declare(name: string, sym: Symbol)

  predicate Permitted(a: Action) {
    match a
    case EnterNamed(s) => IsSegment(s)
    case Declare(name, _) => IsSegment(name)
    case _ => true
  }

  /** The symbols of a run. */
  function SymbolsOf(actions: seq<Action>): set<Symbol> {
    set a | a in actions && a.Declare? :: a.sym
  }

  function SymbolOf(a: Action): set<Symbol> {
    if a.Declare? then {a.sym} else {}
  }

  /** Each symbol is declared once. */
  predicate DeclaredOnce(actions: seq<Action>) {
    forall i, j :: 0 <= i < j < |actions| && actions[i].Declare? && actions[j].Declare? ==>
      actions[i].sym != actions[j].sym
  }

  // ---------------------------------------------------------------------
  // One declaration of any kind
  // ---------------------------------------------------------------------

  ghost function AddSymbol(types: TypeRules, r: Registry, key: string, sym: Symbol, topLevel: bool): Registry {
    match sym.kind
    case ObjectKind => r.AddObject(types, key, sym, topLevel)
    case TagKind(_) => r.AddTag(key, sym)
    case FunctionKind => r.AddFunction(types, key, sym)
    case _ => r.AddOnce(key, sym)
  }

  /** The diagnostics, given what the tables hold. */
  ghost function SymbolDiagnostics(types: TypeRules, p: Places, key: string, sym: Symbol, topLevel: bool)
    : seq<Diagnostic>
  {
    match sym.kind
    case ObjectKind => ObjectDiagnostics(types, p.table, key, sym, topLevel)
    case TagKind(_) => if key in p.tags then TagDiagnostics(p.tags[key], sym) else []
    case FunctionKind => if key in p.table then EntryDiagnostics(types, p.table[key], sym, false) else []
    case _ => if key in p.table then [Diagnostic(Error, sym)] else []
  }

  lemma ObjectValid(types: TypeRules, r: Registry, log: seq<Diagnostic>, key: string, sym: Symbol, topLevel: bool)
    requires r.Valid(log) && sym !in r.places.offered && sym.kind == ObjectKind
    ensures r.AddObject(types, key, sym, topLevel).Valid(log + ObjectDiagnostics(types, r.places.table, key, sym, topLevel))
  {
    hide Registry.Valid, Registry.FirstObject, Registry.NextObject, Registry.Refuse, ObjectsCompatible;
    assert log + [] == log;
    if key !in r.places.table {
      FirstObjectValid(r, log, key, sym, topLevel);
    } else if r.places.table[key].Single? && ObjectsCompatible(types, r.places.table[key].sym, sym, topLevel) {
      CompatibleIsObject(types, r.places.table[key].sym, sym, topLevel);
      NextObjectValid(r, log, types, key, sym, topLevel);
    } else {
      RefuseValid(r, log, Error, sym);
    }
  }

  lemma CompatibleIsObject(types: TypeRules, kept: Symbol, sym: Symbol, topLevel: bool)
    requires ObjectsCompatible(types, kept, sym, topLevel)
    ensures kept.kind == ObjectKind
  {
  }

  lemma OnceValid(r: Registry, log: seq<Diagnostic>, key: string, sym: Symbol)
    requires r.Valid(log) && sym !in r.places.offered && (sym.kind == EnumConstantKind || sym.kind == TypedefKind)
    ensures r.AddOnce(key, sym).Valid(log + if key in r.places.table then [Diagnostic(Error, sym)] else [])
  {
    hide Registry.Valid, Registry.Refuse, Registry.First;
    assert log + [] == log;
    ValidPlaces(r, log);
    if key in r.places.table {
      RefuseValid(r, log, Error, sym);
    } else {
      OneMoreFirst(r.places, key, sym);
      FirstValid(r, log, sym, r.places.PutOrdinary(key, sym));
    }
  }

  lemma TagValid(r: Registry, log: seq<Diagnostic>, key: string, sym: Symbol)
    requires r.Valid(log) && sym !in r.places.offered && sym.kind.TagKind?
    ensures r.AddTag(key, sym).Valid(log + if key in r.places.tags then TagDiagnostics(r.places.tags[key], sym) else [])
  {
    hide Registry.Valid, Registry.Refuse, Registry.First, Registry.NextTag;
    assert log + [] == log;
    ValidPlaces(r, log);
    if key in r.places.tags {
      TagGrouped(r, log, key);
      var more := TagDiagnostics(r.places.tags[key], sym);
      LongerLog(r, log, log + more);
      TagReported(log, r.places.tags[key], sym);
      NextTagValid(r, log + more, key, sym);
    } else {
      OneMoreTag(r.places, key, sym);
      FirstValid(r, log, sym, r.places.PutTag(key, sym));
    }
  }

  lemma FunctionValid(types: TypeRules, r: Registry, log: seq<Diagnostic>, key: string, sym: Symbol)
    requires r.Valid(log) && sym !in r.places.offered && sym.kind == FunctionKind
    ensures r.AddFunction(types, key, sym).Valid(
              log + if key in r.places.table then EntryDiagnostics(types, r.places.table[key], sym, false) else [])
  {
    hide Registry.Valid, Registry.Refuse, Registry.First, Registry.NextFunction, Registry.NextOverload;
    hide FunctionDiagnostics, OverloadDiagnostics, FunctionFate, OverloadFate, FirstEquivalent;
    assert log + [] == log;
    ValidPlaces(r, log);
    if key !in r.places.table {
      if sym.isMangled {
        OneMoreOverload(r.places, key, sym);
        FirstValid(r, log, sym, r.places.AddMangled(key, sym));
      } else {
        OneMoreFirst(r.places, key, sym);
        FirstValid(r, log, sym, r.places.PutOrdinary(key, sym));
      }
    } else if r.places.table[key].Overloads? {
      OverloadValid(types, r, log, key, r.places.table[key].list, sym);
    } else if r.places.table[key].sym.kind == FunctionKind {
      var kept := r.places.table[key].sym;
      var more := FunctionDiagnostics(types, kept, sym, false);
      TableSymbolGrouped(r, log, key);
      LongerLog(r, log, log + more);
      FunctionReported(types, log, kept, sym, false);
      NextFunctionValid(r, log + more, key, kept, sym);
    } else {
      RefuseValid(r, log, Error, sym);
    }
  }

  lemma OverloadValid(types: TypeRules, r: Registry, log: seq<Diagnostic>, key: string, list: seq<Symbol>, sym: Symbol)
    requires r.Valid(log) && sym !in r.places.offered && sym.kind == FunctionKind
    requires key in r.places.table && r.places.table[key] == Overloads(list)
    ensures r.AddFunction(types, key, sym).Valid(log + EntryDiagnostics(types, Overloads(list), sym, false))
  {
    hide Registry.Valid, Registry.Refuse, Registry.First, Registry.NextOverload;
    hide OverloadDiagnostics, OverloadFate, FirstEquivalent;
    ValidPlaces(r, log);
    var i := FirstEquivalent(types, list, sym.typ);
    var some := if sym.isMangled then [] else [Diagnostic(Error, sym)];
    var all := EntryDiagnostics(types, Overloads(list), sym, false);
    LongerLog(r, log, log + all);
    if i == |list| {
      OneMoreOverload(r.places, key, sym);
      FirstValid(r, log + all, sym, r.places.AddMangled(key, sym));
    } else {
      OverloadGrouped(r, log, key, i);
      OverloadReported(log, some, list[i], sym, false);
      NextOverloadValid(r, log + all, key, i, sym);
    }
  }

  lemma SymbolValid(types: TypeRules, r: Registry, log: seq<Diagnostic>, key: string, sym: Symbol, topLevel: bool)
    requires r.Valid(log) && sym !in r.places.offered
    ensures AddSymbol(types, r, key, sym, topLevel).Valid(log + SymbolDiagnostics(types, r.places, key, sym, topLevel))
    ensures AddSymbol(types, r, key, sym, topLevel).places.offered == r.places.offered + {sym}
  {
    ValidPlaces(r, log);
    hide Registry.Valid, Registry.AddObject, Registry.AddTag, Registry.AddFunction, Registry.AddOnce;
    hide ObjectDiagnostics, TagDiagnostics, EntryDiagnostics;
    match sym.kind
    case ObjectKind =>
      ObjectValid(types, r, log, key, sym, topLevel);
      AddObjectBinds(r, types, key, sym, topLevel);
    case TagKind(_) =>
      TagValid(r, log, key, sym);
      AddTagBinds(r, key, sym);
    case FunctionKind =>
      FunctionValid(types, r, log, key, sym);
      AddFunctionBinds(r, types, key, sym);
    case _ =>
      OnceValid(r, log, key, sym);
      AddOnceBinds(r, key, sym);
  }

  // ---------------------------------------------------------------------
  // Runs
  // ---------------------------------------------------------------------

  /** The scopes, what is declared and what was reported. */
  datatype RunState = RunState(stack: seq<string>, counter: nat, depth: int, registry: Registry, log: seq<Diagnostic>)
  {
    function Key(name: string): string {
      AddScopeToName(Join(stack), name)
    }
  }

  function NewTable(): RunState {
    RunState([], 0, 0, Registry(Places(map[], map[], [], {}, map[]), map[], map[], {}), [])
  }

  ghost function StepRun(types: TypeRules, st: RunState, a: Action): RunState {
    match a
    case EnterNamed(s) => st.(stack := st.stack + [s], depth := st.depth + 1)
    case EnterBlock =>
      st.(stack := st.stack + [Unnamed(st.counter)], counter := st.counter + 1, depth := st.depth + 1)
    case LeaveScope =>
      st.(stack := if st.stack == [] then [] else st.stack[..|st.stack| - 1], depth := st.depth - 1)
    case Declare(name, sym) =>
      var key := st.Key(name);
      st.(registry := AddSymbol(types, st.registry, key, sym, st.depth == 0),
          log := st.log + SymbolDiagnostics(types, st.registry.places, key, sym, st.depth == 0))
  }

  ghost function RunOf(types: TypeRules, actions: seq<Action>): RunState {
    if actions == [] then NewTable()
    else StepRun(types, RunOf(types, actions[..|actions| - 1]), actions[|actions| - 1])
  }

  lemma OnceBefore(actions: seq<Action>, n: nat)
    requires DeclaredOnce(actions) && n < |actions|
    ensures DeclaredOnce(actions[..n]) && SymbolOf(actions[n]) !! SymbolsOf(actions[..n])
    ensures n == |actions| - 1 ==> SymbolsOf(actions) == SymbolsOf(actions[..n]) + SymbolOf(actions[n])
  {
    forall a | a in actions[..n] && a.Declare? && actions[n].Declare?
      ensures a.sym != actions[n].sym
    {
      var j :| 0 <= j < n && actions[j] == a;
    }
    if n == |actions| - 1 {
      assert actions == actions[..n] + [actions[n]];
    }
  }

  /** Every run keeps the invariant, and offers the symbols it declares. */
  lemma {:induction false} RunValid(types: TypeRules, actions: seq<Action>)
    requires DeclaredOnce(actions)
    ensures var st := RunOf(types, actions);
            st.registry.Valid(st.log) && st.registry.places.offered == SymbolsOf(actions)
    decreases |actions|
  {
    if actions != [] {
      hide Registry.Valid, StepRun, SymbolsOf, DeclaredOnce;
      var n := |actions| - 1;
      OnceBefore(actions, n);
      RunValid(types, actions[..n]);
      StepValid(types, RunOf(types, actions[..n]), actions[n]);
    } else {
      NewTableValid();
    }
  }

  lemma StepValid(types: TypeRules, st: RunState, a: Action)
    requires st.registry.Valid(st.log) && SymbolOf(a) !! st.registry.places.offered
    ensures var next := StepRun(types, st, a);
            && next.registry.Valid(next.log)
            && next.registry.places.offered == st.registry.places.offered + SymbolOf(a)
  {
    hide Registry.Valid, AddSymbol, SymbolDiagnostics;
    if a.Declare? {
      assert a.sym in SymbolOf(a);
      SymbolValid(types, st.registry, st.log, st.Key(a.name), a.sym, st.depth == 0);
    }
  }

  lemma NewTableValid()
    ensures NewTable().registry.Valid([])
  {
  }

  // ---------------------------------------------------------------------
  // Objects
  // ---------------------------------------------------------------------

  /** The action declares an object of key k, and no diagnostic is raised. */
  ghost predicate Accepts(types: TypeRules, st: RunState, a: Action, k: string) {
    && a.Declare? && a.sym.kind == ObjectKind && st.Key(a.name) == k
    && SymbolDiagnostics(types, st.registry.places, k, a.sym, st.depth == 0) == []
  }

  /** The declarations of the object of key k that raised no diagnostic, in order. */
  ghost function Accepted(types: TypeRules, actions: seq<Action>, k: string): seq<Symbol> {
    if actions == [] then []
    else
      var n := |actions| - 1;
      Accepted(types, actions[..n], k) +
      if Accepts(types, RunOf(types, actions[..n]), actions[n], k) then [actions[n].sym] else []
  }

  /** The accepted declarations of objects that are made at top level. */
  ghost function AcceptedAtTop(types: TypeRules, actions: seq<Action>): set<Symbol> {
    if actions == [] then {}
    else
      var n := |actions| - 1;
      var st, a := RunOf(types, actions[..n]), actions[n];
      AcceptedAtTop(types, actions[..n]) +
      if a.Declare? && st.depth == 0 && Accepts(types, st, a, st.Key(a.name)) then {a.sym} else {}
  }

  /** What is recorded of key k is the list of its accepted declarations. */
  ghost predicate Records(r: Registry, k: string, accepted: seq<Symbol>) {
    if k in r.declared then IsObject(r.places.table, k) && r.declared[k] == accepted && accepted != []
    else accepted == []
  }

  /** Declaring something else than an object changes no record. */
  lemma OtherRecords(r: Registry, now: Registry, key: string, k: string, accepted: seq<Symbol>)
    requires Records(r, k, accepted)
    requires Binds(r.places.table, now.places.table, key) || now.places.table == r.places.table
    requires now.declared == r.declared
    requires IsObject(r.places.table, key) ==> now.places.table == r.places.table
    ensures Records(now, k, accepted)
  {
  }

  lemma FunctionLeavesObject(types: TypeRules, r: Registry, key: string, sym: Symbol)
    requires IsObject(r.places.table, key)
    ensures r.AddFunction(types, key, sym) == r.Refuse(sym)
  {
  }

  lemma ObjectRecords(types: TypeRules, r: Registry, log: seq<Diagnostic>, key: string, sym: Symbol, topLevel: bool,
                      k: string, accepted: seq<Symbol>)
    requires r.Valid(log) && sym.kind == ObjectKind && Records(r, k, accepted)
    ensures var taken := k == key && ObjectDiagnostics(types, r.places.table, key, sym, topLevel) == [];
            Records(r.AddObject(types, key, sym, topLevel), k, accepted + if taken then [sym] else [])
  {
    hide JoinGroup, GroupsClosed, LinkageMatch, Accounted;
    assert [] + [sym] == [sym] && accepted + [] == accepted;
    if IsObject(r.places.table, key) {
      assert key in r.declared && r.places.table[key].sym in r.groups;
    }
  }

  lemma ObjectAtTop(types: TypeRules, r: Registry, log: seq<Diagnostic>, key: string, sym: Symbol, topLevel: bool)
    requires r.Valid(log) && sym.kind == ObjectKind
    ensures var taken := topLevel && ObjectDiagnostics(types, r.places.table, key, sym, topLevel) == [];
            r.AddObject(types, key, sym, topLevel).atTop == r.atTop + if taken then {sym} else {}
  {
    hide JoinGroup, GroupsClosed, LinkageMatch, Accounted;
    if IsObject(r.places.table, key) {
      assert key in r.declared && r.places.table[key].sym in r.groups;
    }
  }

  /** What one declaration does to the record of a key. */
  lemma SymbolRecords(types: TypeRules, r: Registry, log: seq<Diagnostic>, key: string, sym: Symbol, topLevel: bool,
                      k: string, accepted: seq<Symbol>)
    requires r.Valid(log) && Records(r, k, accepted)
    ensures var taken := sym.kind == ObjectKind && k == key &&
                         SymbolDiagnostics(types, r.places, key, sym, topLevel) == [];
            Records(AddSymbol(types, r, key, sym, topLevel), k, accepted + if taken then [sym] else [])
    ensures var taken := sym.kind == ObjectKind && topLevel &&
                         SymbolDiagnostics(types, r.places, key, sym, topLevel) == [];
            AddSymbol(types, r, key, sym, topLevel).atTop == r.atTop + if taken then {sym} else {}
  {
    ValidPlaces(r, log);
    var now := AddSymbol(types, r, key, sym, topLevel);
    assert sym.kind != ObjectKind ==> accepted + [] == accepted;
    hide Registry.Valid, Registry.AddObject, Registry.AddFunction, ObjectDiagnostics, TagDiagnostics, EntryDiagnostics;
    hide JoinGroup, Records;
    match sym.kind
    case ObjectKind =>
      ObjectRecords(types, r, log, key, sym, topLevel, k, accepted);
      ObjectAtTop(types, r, log, key, sym, topLevel);
    case TagKind(_) =>
      AddTagBinds(r, key, sym);
      OtherRecords(r, now, key, k, accepted);
    case FunctionKind =>
      AddFunctionBinds(r, types, key, sym);
      if IsObject(r.places.table, key) {
        FunctionLeavesObject(types, r, key, sym);
      }
      OtherRecords(r, now, key, k, accepted);
    case _ =>
      AddOnceBinds(r, key, sym);
      OtherRecords(r, now, key, k, accepted);
  }

  /** After any run, the declarations recorded for a key are exactly the object
      declarations of that key that raised no diagnostic, in order; and so for those made
      at top level. */
  lemma {:induction false} RunRecords(types: TypeRules, actions: seq<Action>, k: string)
    requires DeclaredOnce(actions)
    ensures var r := RunOf(types, actions).registry;
            Records(r, k, Accepted(types, actions, k)) && r.atTop == AcceptedAtTop(types, actions)
    decreases |actions|
  {
    if actions != [] {
      var n := |actions| - 1;
      OnceBefore(actions, n);
      RunRecords(types, actions[..n], k);
      RunValid(types, actions[..n]);
      StepRecords(types, RunOf(types, actions[..n]), actions[n], k, Accepted(types, actions[..n], k));
    }
  }

  lemma StepRecords(types: TypeRules, st: RunState, a: Action, k: string, accepted: seq<Symbol>)
    requires st.registry.Valid(st.log) && Records(st.registry, k, accepted)
    ensures var r := StepRun(types, st, a).registry;
            && Records(r, k, accepted + if Accepts(types, st, a, k) then [a.sym] else [])
            && r.atTop == st.registry.atTop +
                 if a.Declare? && st.depth == 0 && Accepts(types, st, a, st.Key(a.name)) then {a.sym} else {}
  {
    hide Registry.Valid, AddSymbol, SymbolDiagnostics, Records;
    assert accepted + [] == accepted;
    if a.Declare? {
      SymbolRecords(types, st.registry, st.log, st.Key(a.name), a.sym, st.depth == 0, k, accepted);
    }
  }

  /** The object in the table is one of the accepted declarations of its key.  When their
      definitions are complete it is extern exactly when all of them are, and all that are
      not extern agree; only one of these is not made at top level, the first. */
  lemma KeptLinkage(types: TypeRules, actions: seq<Action>, k: string)
    requires DeclaredOnce(actions)
    ensures var table, accepted := RunOf(types, actions).registry.places.table, Accepted(types, actions, k);
            && (IsObject(table, k) <==> accepted != [])
            && (accepted != [] ==> table[k].sym in accepted)
            && (accepted != [] && DefinitionsComplete(accepted) ==>
                  && KeptIsDefinition(table[k].sym, accepted)
                  && StorageAgrees(accepted, AcceptedAtTop(types, actions)))
  {
    var st := RunOf(types, actions);
    RunValid(types, actions);
    RunRecords(types, actions, k);
    RecordedLinkage(st.registry, st.log, k);
  }

  lemma RecordedLinkage(r: Registry, log: seq<Diagnostic>, k: string)
    requires r.Valid(log)
    ensures IsObject(r.places.table, k) ==>
              k in r.declared && r.places.table[k].sym in r.declared[k] &&
              Linked(r.places.table[k].sym, r.declared[k], r.atTop)
  {
    hide GroupsClosed, Accounted, KindsFit, Linked;
  }

  /** The accepted declarations of a key are the declarations of one entity, in order. */
  lemma AcceptedTogether(types: TypeRules, actions: seq<Action>, k: string, s: Symbol)
    requires DeclaredOnce(actions) && s in Accepted(types, actions, k)
    ensures var groups := RunOf(types, actions).registry.groups;
            s in groups && groups[s] == Accepted(types, actions, k)
  {
    var st := RunOf(types, actions);
    RunValid(types, actions);
    RunRecords(types, actions, k);
    RecordedGroup(st.registry, st.log, k, s);
  }

  lemma RecordedGroup(r: Registry, log: seq<Diagnostic>, k: string, s: Symbol)
    requires r.Valid(log) && IsObject(r.places.table, k) && k in r.declared && s in r.declared[k]
    ensures s in r.groups && r.groups[s] == r.declared[k]
  {
    hide LinkageMatch, Accounted, KindsFit;
    var kept := r.places.table[k].sym;
    assert r.groups[kept] == r.declared[k] && s in r.groups[kept];
  }

  /** Different keys have no accepted declaration in common. */
  lemma AcceptedApart(types: TypeRules, actions: seq<Action>, k: string, l: string, s: Symbol)
    requires DeclaredOnce(actions) && k != l && s in Accepted(types, actions, k)
    ensures s !in Accepted(types, actions, l)
  {
    var st := RunOf(types, actions);
    RunValid(types, actions);
    RunRecords(types, actions, k);
    RunRecords(types, actions, l);
    if s in Accepted(types, actions, l) {
      RecordedGroup(st.registry, st.log, k, s);
      RecordedGroup(st.registry, st.log, l, s);
      RecordedLinkage(st.registry, st.log, k);
      RecordedApart(st.registry, st.log, k, l);
    }
  }

  lemma RecordedApart(r: Registry, log: seq<Diagnostic>, k: string, l: string)
    requires r.Valid(log) && IsObject(r.places.table, k) && l in r.declared && k != l
    ensures r.places.table[k].sym !in r.declared[l]
  {
    hide GroupsClosed, LinkageMatch, Accounted, KindsFit;
  }

  // ---------------------------------------------------------------------
  // Functions and tags
  // ---------------------------------------------------------------------

  lemma SymbolKept(types: TypeRules, r: Registry, log: seq<Diagnostic>, key: string, sym: Symbol, topLevel: bool)
    requires r.Valid(log) && Kept(r) && sym !in r.places.offered
    ensures Kept(AddSymbol(types, r, key, sym, topLevel))
  {
    hide Registry.Valid, Kept, Registry.AddObject, Registry.AddTag, Registry.AddFunction, Registry.AddOnce;
    match sym.kind
    case ObjectKind => AddObjectKept(types, r, log, key, sym, topLevel);
    case TagKind(_) => AddTagKept(r, log, key, sym);
    case FunctionKind => AddFunctionKept(types, r, log, key, sym);
    case _ => AddOnceKept(r, log, key, sym);
  }

  /** After any run, each function in a table is the first definition of its entity, or the
      first declaration when there is none; and so for tags and completeness. */
  lemma {:induction false} RunKept(types: TypeRules, actions: seq<Action>)
    requires DeclaredOnce(actions)
    ensures Kept(RunOf(types, actions).registry)
    decreases |actions|
  {
    if actions != [] {
      hide Registry.Valid, Kept, StepRun, SymbolsOf, DeclaredOnce;
      var n := |actions| - 1;
      OnceBefore(actions, n);
      RunKept(types, actions[..n]);
      RunValid(types, actions[..n]);
      StepKept(types, RunOf(types, actions[..n]), actions[n]);
    }
  }

  lemma StepKept(types: TypeRules, st: RunState, a: Action)
    requires st.registry.Valid(st.log) && Kept(st.registry) && SymbolOf(a) !! st.registry.places.offered
    ensures Kept(StepRun(types, st, a).registry)
  {
    hide Registry.Valid, Kept, AddSymbol, SymbolDiagnostics;
    if a.Declare? {
      assert a.sym in SymbolOf(a);
      SymbolKept(types, st.registry, st.log, st.Key(a.name), a.sym, st.depth == 0);
    }
  }

  ghost predicate HoldsFunction(p: Places, k: string) {
    k in p.table && p.table[k].Single? && p.table[k].sym.kind == FunctionKind
  }

  /** A symbol becomes the function of key k, or declares it again without ending the
      compilation. */
  ghost predicate TakenAsFunction(types: TypeRules, p: Places, k: string, sym: Symbol) {
    if k !in p.table then !sym.isMangled else HoldsFunction(p, k) && !EntryAborts(types, p.table[k], sym)
  }

  ghost predicate DeclaresFunction(types: TypeRules, st: RunState, a: Action, k: string) {
    a.Declare? && a.sym.kind == FunctionKind && st.Key(a.name) == k &&
    TakenAsFunction(types, st.registry.places, k, a.sym)
  }

  ghost function FunctionsAt(types: TypeRules, actions: seq<Action>, k: string): seq<Symbol> {
    if actions == [] then []
    else
      var n := |actions| - 1;
      FunctionsAt(types, actions[..n], k) +
      if DeclaresFunction(types, RunOf(types, actions[..n]), actions[n], k) then [actions[n].sym] else []
  }

  predicate DeclaresTag(st: RunState, a: Action, k: string) {
    a.Declare? && a.sym.kind.TagKind? && st.Key(a.name) == k
  }

  /** All the tags declared with key k. */
  ghost function TagsAt(types: TypeRules, actions: seq<Action>, k: string): seq<Symbol> {
    if actions == [] then []
    else
      var n := |actions| - 1;
      TagsAt(types, actions[..n], k) +
      if DeclaresTag(RunOf(types, actions[..n]), actions[n], k) then [actions[n].sym] else []
  }

  ghost predicate RecordsFunction(r: Registry, k: string, all: seq<Symbol>) {
    if HoldsFunction(r.places, k) then r.places.table[k].sym in r.groups && r.groups[r.places.table[k].sym] == all
    else all == []
  }

  ghost predicate RecordsTag(r: Registry, k: string, all: seq<Symbol>) {
    if k in r.places.tags then r.places.tags[k] in r.groups && r.groups[r.places.tags[k]] == all
    else all == []
  }

  /** Joining another entity does not change this one. */
  lemma JoinedElsewhere(home: set<Symbol>, groups: Groups, other: Symbol, sym: Symbol, s: Symbol)
    requires KeptIn(home, groups) && s in home && other in home && s != other && sym !in groups
    ensures s in JoinGroup(groups, other, sym) && JoinGroup(groups, other, sym)[s] == groups[s]
  {
    assert OnlyOne(other, home, groups[other]);
  }

  /** The group of a symbol of the tables that is not the one declared again. */
  ghost predicate SameGroup(r: Registry, now: Registry, s: Symbol) {
    s in r.groups && s in now.groups && now.groups[s] == r.groups[s]
  }

  lemma OtherGroup(r: Registry, log: seq<Diagnostic>, other: Symbol, sym: Symbol, now: Registry, s: Symbol)
    requires r.Valid(log) && Kept(r) && sym !in r.places.offered && s in r.places.home
    requires || now.groups == r.groups || now.groups == r.groups[sym := [sym]]
             || (other in r.places.home && other in r.groups && s != other && now.groups == JoinGroup(r.groups, other, sym))
    ensures SameGroup(r, now, s)
  {
    GroupsOf(r, log, sym);
    if other in r.places.home && other in r.groups && s != other {
      JoinedElsewhere(r.places.home.Keys, r.groups, other, sym, s);
    }
  }

  /** An object declaration joins no entity but that of the object of its key. */
  lemma ObjectElsewhere(types: TypeRules, r: Registry, log: seq<Diagnostic>, key: string, sym: Symbol, topLevel: bool,
                        s: Symbol)
    requires r.Valid(log) && Kept(r) && sym !in r.places.offered && sym.kind == ObjectKind
    requires s in r.places.home && s.kind != ObjectKind
    ensures SameGroup(r, r.AddObject(types, key, sym, topLevel), s)
  {
    GroupsOf(r, log, sym);
    var now := r.AddObject(types, key, sym, topLevel);
    if IsObject(r.places.table, key) {
      HeldIsHome(r.places, Ordinary(key), r.places.table[key].sym);
      hide Registry.Valid, Kept, JoinGroup;
      OtherGroup(r, log, r.places.table[key].sym, sym, now, s);
    } else {
      hide Registry.Valid, Kept, JoinGroup;
      OtherGroup(r, log, s, sym, now, s);
    }
  }

  lemma OnceElsewhere(r: Registry, log: seq<Diagnostic>, key: string, sym: Symbol, s: Symbol)
    requires r.Valid(log) && Kept(r) && sym !in r.places.offered && s in r.places.home
    ensures SameGroup(r, r.AddOnce(key, sym), s)
  {
    hide Registry.Valid, Kept;
    OtherGroup(r, log, s, sym, r.AddOnce(key, sym), s);
  }

  lemma TagElsewhere(r: Registry, log: seq<Diagnostic>, key: string, sym: Symbol, s: Symbol)
    requires r.Valid(log) && Kept(r) && sym !in r.places.offered && s in r.places.home
    requires key in r.places.tags ==> s != r.places.tags[key]
    ensures SameGroup(r, r.AddTag(key, sym), s)
  {
    if key in r.places.tags {
      GroupsOf(r, log, sym);
      TagGrouped(r, log, key);
      HeldIsHome(r.places, Tag(key), r.places.tags[key]);
      NextTagStays(r, key, sym);
      hide Registry.Valid, Kept, Registry.NextTag, SameGroup, GroupsClosed, Places.Valid;
      OtherGroup(r, log, r.places.tags[key], sym, r.NextTag(key, sym), s);
    } else {
      hide Registry.Valid, Kept;
      OtherGroup(r, log, s, sym, r.AddTag(key, sym), s);
    }
  }

  lemma NextFunctionElsewhere(r: Registry, log: seq<Diagnostic>, key: string, kept: Symbol, sym: Symbol, s: Symbol)
    requires r.Valid(log) && Kept(r) && sym !in r.places.offered && s in r.places.home && s != kept
    requires key in r.places.table && r.places.table[key] == Single(kept) && kept in r.groups
    ensures SameGroup(r, r.NextFunction(key, kept, sym), s)
  {
    GroupsOf(r, log, sym);
    HeldIsHome(r.places, Ordinary(key), kept);
    hide Registry.Valid, Kept, JoinGroup, FunctionFate, SameGroup;
    OtherGroup(r, log, kept, sym, r.NextFunction(key, kept, sym), s);
  }

  lemma NextOverloadGroups(r: Registry, key: string, i: nat, sym: Symbol)
    requires i < |r.places.List(key)| && r.places.List(key)[i] in r.groups
    ensures var now := r.NextOverload(key, i, sym);
            now.groups == r.groups || now.groups == JoinGroup(r.groups, r.places.List(key)[i], sym)
  {
    hide JoinGroup, Places.List;
  }

  lemma NextOverloadElsewhere(r: Registry, log: seq<Diagnostic>, key: string, i: nat, sym: Symbol, s: Symbol)
    requires r.Valid(log) && Kept(r) && sym !in r.places.offered && s in r.places.home
    requires i < |r.places.List(key)| && r.places.List(key)[i] in r.groups && s != r.places.List(key)[i]
    ensures SameGroup(r, r.NextOverload(key, i, sym), s)
  {
    GroupsOf(r, log, sym);
    HeldIsHome(r.places, Mangled(key), r.places.List(key)[i]);
    NextOverloadGroups(r, key, i, sym);
    hide Registry.Valid, Kept, JoinGroup, Registry.NextOverload, SameGroup, Places.List, Places.Valid, GroupsClosed;
    OtherGroup(r, log, r.places.List(key)[i], sym, r.NextOverload(key, i, sym), s);
  }

  lemma OverloadElsewhere(types: TypeRules, r: Registry, log: seq<Diagnostic>, key: string, list: seq<Symbol>,
                          sym: Symbol, s: Symbol)
    requires r.Valid(log) && Kept(r) && sym !in r.places.offered && s in r.places.home
    requires key in r.places.table && r.places.table[key] == Overloads(list) && s !in list
    ensures SameGroup(r, r.AddFunction(types, key, sym), s)
  {
    hide Registry.Valid, Kept, SameGroup, Registry.NextOverload, Registry.AddFunction;
    var i := FirstEquivalent(types, list, sym.typ);
    OverloadAdded(r, types, key, list, sym);
    if i == |list| {
      OtherGroup(r, log, s, sym, r.First(sym, r.places.AddMangled(key, sym)), s);
    } else {
      OverloadGrouped(r, log, key, i);
      NextOverloadElsewhere(r, log, key, i, sym, s);
    }
  }

  lemma FunctionElsewhere(types: TypeRules, r: Registry, log: seq<Diagnostic>, key: string, sym: Symbol, s: Symbol)
    requires r.Valid(log) && Kept(r) && sym !in r.places.offered && sym.kind == FunctionKind && s in r.places.home
    requires key in r.places.table && r.places.table[key].Single? ==> s != r.places.table[key].sym
    requires key in r.places.table && r.places.table[key].Overloads? ==> s !in r.places.table[key].list
    ensures SameGroup(r, r.AddFunction(types, key, sym), s)
  {
    hide Registry.Valid, Kept, SameGroup, Registry.NextFunction, FirstEquivalent;
    var now := r.AddFunction(types, key, sym);
    if key in r.places.table && r.places.table[key].Overloads? {
      OverloadElsewhere(types, r, log, key, r.places.table[key].list, sym, s);
    } else if key in r.places.table && r.places.table[key].sym.kind == FunctionKind && r.places.table[key].sym in r.groups {
      NextFunctionElsewhere(r, log, key, r.places.table[key].sym, sym, s);
    } else {
      OtherGroup(r, log, s, sym, now, s);
    }
  }

  /** What one declaration does to the functions and tags of a key it does not declare. */
  lemma FunctionStays(r: Registry, now: Registry, k: string, all: seq<Symbol>)
    requires RecordsFunction(r, k, all) && (HoldsFunction(r.places, k) <==> HoldsFunction(now.places, k))
    requires HoldsFunction(r.places, k) ==>
               now.places.table[k] == r.places.table[k] && SameGroup(r, now, r.places.table[k].sym)
    ensures RecordsFunction(now, k, all + [])
  {
    assert all + [] == all;
  }

  lemma JoinedRecord(groups: Groups, kept: Symbol, sym: Symbol)
    requires GroupsClosed(groups) && kept in groups
    ensures var now := JoinGroup(groups, kept, sym);
            kept in now && sym in now && now[kept] == now[sym] == groups[kept] + [sym]
  {
    assert kept in groups[kept];
  }

  lemma FunctionAgain(r: Registry, key: string, kept: Symbol, sym: Symbol)
    requires key in r.places.table && r.places.table[key] == Single(kept) && kept in r.groups
    requires kept.kind == FunctionKind && sym.kind == FunctionKind && GroupsClosed(r.groups)
    ensures RecordsFunction(r.NextFunction(key, kept, sym), key,
                            r.groups[kept] + if FunctionFate(kept, sym) == Aborts then [] else [sym])
  {
    JoinedRecord(r.groups, kept, sym);
    assert r.groups[kept] + [] == r.groups[kept];
    hide JoinGroup, GroupsClosed, TouchesBuiltin;
  }

  lemma OverloadAgain(types: TypeRules, r: Registry, key: string, list: seq<Symbol>, sym: Symbol)
    requires key in r.places.table && r.places.table[key] == Overloads(list)
    ensures RecordsFunction(r.AddFunction(types, key, sym), key, [])
  {
    hide FirstEquivalent, JoinGroup, OverloadFate;
  }

  lemma FunctionAtKey(types: TypeRules, r: Registry, log: seq<Diagnostic>, key: string, sym: Symbol, all: seq<Symbol>)
    requires r.Valid(log) && RecordsFunction(r, key, all) && sym !in r.places.offered && sym.kind == FunctionKind
    ensures RecordsFunction(r.AddFunction(types, key, sym), key,
                            all + if TakenAsFunction(types, r.places, key, sym) then [sym] else [])
  {
    GroupsOf(r, log, sym);
    assert [] + [sym] == [sym] && all + [] == all;
    hide Registry.Valid, Places.Valid, Registry.NextFunction, FirstEquivalent, JoinGroup, GroupsClosed, FunctionFate;
    if HoldsFunction(r.places, key) {
      FunctionAgain(r, key, r.places.table[key].sym, sym);
    } else if key in r.places.table && r.places.table[key].Overloads? {
      OverloadAgain(types, r, key, r.places.table[key].list, sym);
    }
  }

  lemma TagAtKey(r: Registry, log: seq<Diagnostic>, key: string, sym: Symbol, all: seq<Symbol>)
    requires r.Valid(log) && RecordsTag(r, key, all) && sym !in r.places.offered && sym.kind.TagKind?
    ensures RecordsTag(r.AddTag(key, sym), key, all + [sym])
  {
    GroupsOf(r, log, sym);
    assert [] + [sym] == [sym];
    if key in r.places.tags {
      TagGrouped(r, log, key);
      hide Registry.Valid, Places.Valid;
      assert r.places.tags[key] in r.groups[r.places.tags[key]];
    } else {
      hide Registry.Valid, Places.Valid;
    }
  }

  /** A symbol of one slot is not that of another. */
  lemma SlotsApart(p: Places, one: Slot, other: Slot, s: Symbol)
    requires p.Valid() && p.Holds(one, s) && one != other
    ensures s in p.home && !p.Holds(other, s)
  {
  }

  /** The group of a function or tag is left alone by the declarations of other keys. */
  lemma SymbolElsewhere(types: TypeRules, r: Registry, log: seq<Diagnostic>, key: string, sym: Symbol, topLevel: bool,
                        slot: Slot, s: Symbol)
    requires r.Valid(log) && Kept(r) && sym !in r.places.offered && r.places.Holds(slot, s) && s.kind != ObjectKind
    requires slot != Mangled(key)
    requires sym.kind.TagKind? ==> slot != Tag(key)
    requires sym.kind == FunctionKind ==> slot != Ordinary(key)
    ensures SameGroup(r, AddSymbol(types, r, key, sym, topLevel), s)
  {
    GroupsOf(r, log, sym);
    HeldIsHome(r.places, slot, s);
    if sym.kind == FunctionKind {
      SlotsApart(r.places, slot, Ordinary(key), s);
      SlotsApart(r.places, slot, Mangled(key), s);
    }
    if sym.kind.TagKind? {
      SlotsApart(r.places, slot, Tag(key), s);
    }
    hide Registry.Valid, Places.Valid, Kept, SameGroup, Registry.AddObject, Registry.AddTag, Registry.AddFunction, Registry.AddOnce;
    match sym.kind
    case ObjectKind => ObjectElsewhere(types, r, log, key, sym, topLevel, s);
    case TagKind(_) => TagElsewhere(r, log, key, sym, s);
    case FunctionKind => FunctionElsewhere(types, r, log, key, sym, s);
    case _ => OnceElsewhere(r, log, key, sym, s);
  }

  /** A declaration that is not of a function makes none, and replaces none. */
  lemma OthersLeaveFunction(types: TypeRules, r: Registry, key: string, sym: Symbol, topLevel: bool)
    requires r.GroupsCover() && sym.kind != FunctionKind && !sym.kind.TagKind?
    ensures var now := AddSymbol(types, r, key, sym, topLevel);
            && (HoldsFunction(r.places, key) <==> HoldsFunction(now.places, key))
            && (HoldsFunction(r.places, key) ==> now.places.table[key] == r.places.table[key])
  {
    hide JoinGroup, ObjectsCompatible, TakesOver;
  }

  lemma SymbolFunctions(types: TypeRules, r: Registry, log: seq<Diagnostic>, key: string, sym: Symbol, topLevel: bool,
                        k: string, all: seq<Symbol>)
    requires r.Valid(log) && Kept(r) && sym !in r.places.offered && RecordsFunction(r, k, all)
    ensures var taken := sym.kind == FunctionKind && key == k && TakenAsFunction(types, r.places, k, sym);
            RecordsFunction(AddSymbol(types, r, key, sym, topLevel), k, all + if taken then [sym] else [])
  {
    ValidPlaces(r, log);
    if sym.kind == FunctionKind && key == k {
      hide Registry.Valid, Kept, RecordsFunction, Registry.AddFunction, TakenAsFunction;
      FunctionAtKey(types, r, log, key, sym, all);
    } else {
      SymbolBinds(types, r, key, sym, topLevel);
      if sym.kind != FunctionKind && !sym.kind.TagKind? {
        OthersLeaveFunction(types, r, key, sym, topLevel);
      }
      hide Registry.Valid, Kept, AddSymbol, RecordsFunction, SameGroup, Places.Valid, Registry.GroupsCover, KindsFit;
      if HoldsFunction(r.places, k) {
        SymbolElsewhere(types, r, log, key, sym, topLevel, Ordinary(k), r.places.table[k].sym);
      }
      FunctionStays(r, AddSymbol(types, r, key, sym, topLevel), k, all);
    }
  }

  lemma TagStays(r: Registry, now: Registry, k: string, all: seq<Symbol>)
    requires RecordsTag(r, k, all) && (k in r.places.tags <==> k in now.places.tags)
    requires k in r.places.tags ==> now.places.tags[k] == r.places.tags[k] && SameGroup(r, now, r.places.tags[k])
    ensures RecordsTag(now, k, all + [])
  {
    assert all + [] == all;
  }

  lemma SymbolTags(types: TypeRules, r: Registry, log: seq<Diagnostic>, key: string, sym: Symbol, topLevel: bool,
                   k: string, all: seq<Symbol>)
    requires r.Valid(log) && Kept(r) && sym !in r.places.offered && RecordsTag(r, k, all)
    ensures RecordsTag(AddSymbol(types, r, key, sym, topLevel), k, all + if sym.kind.TagKind? && key == k then [sym] else [])
  {
    ValidPlaces(r, log);
    if sym.kind.TagKind? && key == k {
      hide Registry.Valid, Kept, RecordsTag, Registry.AddTag;
      TagAtKey(r, log, key, sym, all);
    } else {
      SymbolBinds(types, r, key, sym, topLevel);
      hide Registry.Valid, Kept, AddSymbol, RecordsTag, SameGroup, Places.Valid, Registry.GroupsCover;
      if k in r.places.tags {
        SymbolElsewhere(types, r, log, key, sym, topLevel, Tag(k), r.places.tags[k]);
      }
      TagStays(r, AddSymbol(types, r, key, sym, topLevel), k, all);
    }
  }

  lemma StepFunctionsAndTags(types: TypeRules, st: RunState, a: Action, k: string, functions: seq<Symbol>, tags: seq<Symbol>)
    requires st.registry.Valid(st.log) && Kept(st.registry) && SymbolOf(a) !! st.registry.places.offered
    requires RecordsFunction(st.registry, k, functions) && RecordsTag(st.registry, k, tags)
    ensures var r := StepRun(types, st, a).registry;
            && RecordsFunction(r, k, functions + if DeclaresFunction(types, st, a, k) then [a.sym] else [])
            && RecordsTag(r, k, tags + if DeclaresTag(st, a, k) then [a.sym] else [])
  {
    hide Registry.Valid, Kept, AddSymbol, SymbolDiagnostics, RecordsFunction, RecordsTag, TakenAsFunction;
    assert functions + [] == functions && tags + [] == tags;
    if a.Declare? {
      assert a.sym in SymbolOf(a);
      SymbolFunctions(types, st.registry, st.log, st.Key(a.name), a.sym, st.depth == 0, k, functions);
      SymbolTags(types, st.registry, st.log, st.Key(a.name), a.sym, st.depth == 0, k, tags);
    }
  }

  /** After any run, the entity of the function of a key is the declarations of it, in
      order, and so is the entity of the tag of a key. */
  lemma {:induction false} RunFunctionsAndTags(types: TypeRules, actions: seq<Action>, k: string)
    requires DeclaredOnce(actions)
    ensures RecordsFunction(RunOf(types, actions).registry, k, FunctionsAt(types, actions, k))
    ensures RecordsTag(RunOf(types, actions).registry, k, TagsAt(types, actions, k))
    decreases |actions|
  {
    if actions != [] {
      hide Registry.Valid, Kept, StepRun, SymbolsOf, DeclaredOnce, RecordsFunction, RecordsTag;
      var n := |actions| - 1;
      OnceBefore(actions, n);
      RunFunctionsAndTags(types, actions[..n], k);
      RunValid(types, actions[..n]);
      RunKept(types, actions[..n]);
      StepFunctionsAndTags(types, RunOf(types, actions[..n]), actions[n], k,
                           FunctionsAt(types, actions[..n], k), TagsAt(types, actions[..n], k));
    }
  }

  /** After any run, the function in the table is a definition exactly when some declaration
      of it is, and then the first such, otherwise the first declaration of all; and the same
      for each function of a list of mangled ones, among the declarations of its entity. */
  lemma KeptFunction(types: TypeRules, actions: seq<Action>, k: string)
    requires DeclaredOnce(actions)
    ensures var p := RunOf(types, actions).registry.places;
            HoldsFunction(p, k) ==> KeepsFunction(p.table[k].sym, FunctionsAt(types, actions, k))
    ensures var r := RunOf(types, actions).registry;
            forall f <- r.places.List(k) :: f in r.groups && KeepsFunction(f, r.groups[f])
  {
    RunValid(types, actions);
    RunKept(types, actions);
    RunFunctionsAndTags(types, actions, k);
    var r, log := RunOf(types, actions).registry, RunOf(types, actions).log;
    ValidPlaces(r, log);
    if HoldsFunction(r.places, k) {
      HeldIsHome(r.places, Ordinary(k), r.places.table[k].sym);
    }
    forall f <- r.places.List(k)
      ensures f in r.groups && KeepsFunction(f, r.groups[f])
    {
      HeldIsHome(r.places, Mangled(k), f);
    }
  }

  /** After any run, the tag in the table is complete exactly when some declared tag of its
      family is, and then the first such; otherwise it is the last declared one of it. */
  lemma KeptTag(types: TypeRules, actions: seq<Action>, k: string)
    requires DeclaredOnce(actions)
    ensures var p := RunOf(types, actions).registry.places;
            k in p.tags ==> KeepsTag(p.tags[k], TagsAt(types, actions, k))
  {
    RunValid(types, actions);
    RunKept(types, actions);
    RunFunctionsAndTags(types, actions, k);
    var r, log := RunOf(types, actions).registry, RunOf(types, actions).log;
    ValidPlaces(r, log);
    if k in r.places.tags {
      HeldIsHome(r.places, Tag(k), r.places.tags[k]);
    }
  }

  // ---------------------------------------------------------------------
  // The two name spaces
  // ---------------------------------------------------------------------

  ghost function View(st: RunState): Flat<Entry> {
    Flat(st.stack, st.counter, st.registry.places.table)
  }

  ghost function TagView(st: RunState): Flat<Symbol> {
    Flat(st.stack, st.counter, st.registry.places.tags)
  }

  /** What an action is in one name space: the scope operation, or what its key is bound
      to after the declaration of a symbol of that name space. */
  function Operation<T>(a: Action, tags: bool, key: string, now: map<string, T>): seq<Op<T>> {
    match a
    case EnterNamed(s) => [PushNamed(s)]
    case EnterBlock => [PushUnnamed]
    case LeaveScope => [Pop]
    case Declare(name, sym) =>
      if sym.kind.TagKind? == tags && key in now then [Put(name, now[key])] else []
  }

  function KeyOf(st: RunState, a: Action): string {
    if a.Declare? then st.Key(a.name) else ""
  }

  /** The operations of a run on ordinary names, and on tags. */
  ghost function Operations(types: TypeRules, actions: seq<Action>): seq<Op<Entry>> {
    if actions == [] then []
    else
      var n := |actions| - 1;
      Operations(types, actions[..n]) +
      Operation(actions[n], false, KeyOf(RunOf(types, actions[..n]), actions[n]),
                RunOf(types, actions).registry.places.table)
  }

  ghost function TagOperations(types: TypeRules, actions: seq<Action>): seq<Op<Symbol>> {
    if actions == [] then []
    else
      var n := |actions| - 1;
      TagOperations(types, actions[..n]) +
      Operation(actions[n], true, KeyOf(RunOf(types, actions[..n]), actions[n]),
                RunOf(types, actions).registry.places.tags)
  }

  lemma {:induction false} RunFlatAppend<T>(st: Flat<T>, a: seq<Op<T>>, b: seq<Op<T>>)
    ensures RunFlat(st, a + b) == RunFlat(RunFlat(st, a), b)
    decreases |a|
  {
    if a == [] {
      assert a + b == b;
    } else {
      assert (a + b)[0] == a[0] && (a + b)[1..] == a[1..] + b;
      RunFlatAppend(StepFlat(st, a[0]), a[1..], b);
    }
  }

  lemma RunFlatOne<T>(st: Flat<T>, op: Op<T>)
    ensures RunFlat(st, [op]) == StepFlat(st, op) && RunFlat(st, []) == st
  {
    assert [op][1..] == [];
  }

  lemma StepViews(types: TypeRules, st: RunState, a: Action)
    requires st.registry.Valid(st.log)
    ensures var next := StepRun(types, st, a);
            && View(next) == RunFlat(View(st), Operation(a, false, KeyOf(st, a), next.registry.places.table))
            && TagView(next) == RunFlat(TagView(st), Operation(a, true, KeyOf(st, a), next.registry.places.tags))
  {
    ValidPlaces(st.registry, st.log);
    hide Registry.Valid, AddSymbol, SymbolDiagnostics;
    if a.Declare? {
      SymbolBinds(types, st.registry, st.Key(a.name), a.sym, st.depth == 0);
      var now := AddSymbol(types, st.registry, st.Key(a.name), a.sym, st.depth == 0);
      var key := st.Key(a.name);
      if a.sym.kind.TagKind? {
        RunFlatOne(TagView(st), Put(a.name, now.places.tags[key]));
      } else {
        RunFlatOne(View(st), Put(a.name, now.places.table[key]));
      }
    } else {
      var op := if a.EnterNamed? then PushNamed(a.scope) else if a.EnterBlock? then PushUnnamed else Pop;
      RunFlatOne(View(st), op);
      var tagOp := if a.EnterNamed? then PushNamed(a.scope) else if a.EnterBlock? then PushUnnamed else Pop;
      RunFlatOne(TagView(st), tagOp);
    }
  }

  lemma SymbolBinds(types: TypeRules, r: Registry, key: string, sym: Symbol, topLevel: bool)
    requires r.GroupsCover()
    ensures var now := AddSymbol(types, r, key, sym, topLevel);
            if sym.kind.TagKind? then Binds(r.places.tags, now.places.tags, key) && now.places.table == r.places.table
            else Binds(r.places.table, now.places.table, key) && now.places.tags == r.places.tags
  {
    hide Registry.AddObject, Registry.AddTag, Registry.AddFunction, Registry.AddOnce, Binds;
    match sym.kind
    case ObjectKind => AddObjectBinds(r, types, key, sym, topLevel);
    case TagKind(_) => AddTagBinds(r, key, sym);
    case FunctionKind => AddFunctionBinds(r, types, key, sym);
    case _ => AddOnceBinds(r, key, sym);
  }

  /** Both name spaces hold what the operations of the run make. */
  lemma {:induction false} RunViews(types: TypeRules, actions: seq<Action>)
    requires DeclaredOnce(actions)
    ensures View(RunOf(types, actions)) == RunFlat(EmptyFlat<Entry>(), Operations(types, actions))
    ensures TagView(RunOf(types, actions)) == RunFlat(EmptyFlat<Symbol>(), TagOperations(types, actions))
    decreases |actions|
  {
    if actions != [] {
      var n := |actions| - 1;
      var st, a := RunOf(types, actions[..n]), actions[n];
      OnceBefore(actions, n);
      RunViews(types, actions[..n]);
      RunValid(types, actions[..n]);
      StepViews(types, st, a);
      var next := StepRun(types, st, a);
      RunFlatAppend(EmptyFlat<Entry>(), Operations(types, actions[..n]),
                    Operation(a, false, KeyOf(st, a), next.registry.places.table));
      RunFlatAppend(EmptyFlat<Symbol>(), TagOperations(types, actions[..n]),
                    Operation(a, true, KeyOf(st, a), next.registry.places.tags));
    }
  }

  lemma {:induction false} PermittedOperations(types: TypeRules, actions: seq<Action>)
    requires forall a <- actions :: Permitted(a)
    ensures forall op <- Operations(types, actions) :: WellFormed(op)
    ensures forall op <- TagOperations(types, actions) :: WellFormed(op)
    decreases |actions|
  {
    if actions != [] {
      var n := |actions| - 1;
      assert forall a <- actions[..n] :: a in actions;
      PermittedOperations(types, actions[..n]);
      assert Permitted(actions[n]);
    }
  }

  /** After any run, an ordinary name and a tag mean what the stacks of frames of the
      run find. */
  lemma RunIsLexical(types: TypeRules, actions: seq<Action>, name: string)
    requires DeclaredOnce(actions) && IsSegment(name) && forall a <- actions :: Permitted(a)
    ensures View(RunOf(types, actions)).Lookup(name) ==
            RunLexical(EmptyLexical<Entry>(), Operations(types, actions)).Lookup(name)
    ensures TagView(RunOf(types, actions)).Lookup(name) ==
            RunLexical(EmptyLexical<Symbol>(), TagOperations(types, actions)).Lookup(name)
  {
    RunViews(types, actions);
    PermittedOperations(types, actions);
    FlatTableIsLexical(Operations(types, actions), name);
    FlatTableIsLexical(TagOperations(types, actions), name);
  }
}
