/** Whole runs of the symbol table: scopes are entered and left and symbols are
    declared in any order. */
module SymbolTableRuns {
  import opened Wrappers
  import opened LexicalScopes
  import opened ScopeNames
  import opened Symbols
  import opened Declarations
  import opened Registry
  import opened SymbolTables
  import opened DeclarationRuns

  /** The table is in the state of a run. */
  ghost predicate InState(table: SymbolTable, st: RunState)
    reads table, table.errors, table.registry.groups.Keys`brothers, table.vectors
  {
    && table.Valid()
    && table.registry == st.registry
    && table.errors.log == st.log
    && table.scopeStack == st.stack && table.unnamedScopeCounter == st.counter && table.scopeDepth == st.depth
  }

  /** A function that ends the compilation. */
  ghost predicate Aborting(types: TypeRules, st: RunState, a: Action) {
    && a.Declare? && a.sym.kind == FunctionKind
    && var table, key := st.registry.places.table, st.Key(a.name);
       key in table && EntryAborts(types, table[key], a.sym)
  }

  /** One action on a table. */
  method Perform(table: SymbolTable, ghost st: RunState, a: Action) returns (aborted: bool)
    requires InState(table, st) && (a.Declare? ==> table.CanOffer(a.sym))
    modifies table, table.errors, SymbolOf(a), table.registry.groups.Keys`brothers, table.vectors
    ensures InState(table, StepRun(table.types, st, a)) && fresh(table.vectors - old(table.vectors))
    ensures aborted <==> Aborting(table.types, st, a)
  {
    hide GroupsLinked, Registry.Valid, AddSymbol, SymbolDiagnostics;
    aborted := false;
    match a
    case EnterNamed(s) => table.PushNamedScope(s);
    case EnterBlock => table.PushScope();
    case LeaveScope => table.PopScope();
    case Declare(name, sym) => aborted := DeclareSymbol(table, st, name, sym);
  }

  method DeclareSymbol(table: SymbolTable, ghost st: RunState, name: string, sym: Symbol) returns (aborted: bool)
    requires InState(table, st) && table.CanOffer(sym)
    modifies table, table.errors, sym, table.registry.groups.Keys`brothers, table.vectors
    ensures InState(table, StepRun(table.types, st, Declare(name, sym)))
    ensures fresh(table.vectors - old(table.vectors))
    ensures aborted <==> Aborting(table.types, st, Declare(name, sym))
  {
    hide GroupsLinked, Registry.Valid;
    hide Registry.AddObject, Registry.AddTag, Registry.AddFunction, Registry.AddOnce;
    hide ObjectDiagnostics, TagDiagnostics, EntryDiagnostics, EntryAborts;
    aborted := false;
    match sym.kind
    case ObjectKind => table.AddObjectLabel(name, sym);
    case TagKind(_) => table.AddTag(name, sym);
    case FunctionKind => aborted := table.AddFunction(name, sym, false);
    case _ => table.AddEnumConstantOrTypedef(name, sym);
  }

  /** The table after a run. */
  ghost predicate Reached(table: SymbolTable, actions: seq<Action>)
    reads table, table.errors, table.registry.groups.Keys`brothers, table.vectors
  {
    DeclaredOnce(actions) && InState(table, RunOf(table.types, actions))
  }

  lemma ReachedGroups(table: SymbolTable, actions: seq<Action>)
    requires Reached(table, actions)
    ensures table.registry.groups.Keys <= table.registry.places.offered == SymbolsOf(actions)
  {
    hide GroupsLinked;
    RunValid(table.types, actions);
    ValidPlaces(table.registry, table.errors.log);
  }

  lemma OnceMore(types: TypeRules, before: seq<Action>, a: Action)
    requires DeclaredOnce(before) && SymbolOf(a) !! SymbolsOf(before)
    ensures DeclaredOnce(before + [a]) && RunOf(types, before + [a]) == StepRun(types, RunOf(types, before), a)
  {
    hide StepRun;
    var all := before + [a];
    assert all[..|all| - 1] == before;
    forall i, j | 0 <= i < j < |all| && all[i].Declare? && all[j].Declare?
      ensures all[i].sym != all[j].sym
    {
      if j == |before| {
        assert before[i].sym in SymbolsOf(before) && a.sym in SymbolOf(a);
      }
    }
  }

  method Next(table: SymbolTable, ghost before: seq<Action>, a: Action) returns (aborted: bool)
    requires Reached(table, before)
    requires SymbolOf(a) !! SymbolsOf(before) && (a.Declare? ==> a.sym.brothers == null)
    modifies table, table.errors, SymbolOf(a), table.registry.groups.Keys`brothers, table.vectors
    ensures Reached(table, before + [a]) && fresh(table.vectors - old(table.vectors))
    ensures aborted <==> Aborting(table.types, RunOf(table.types, before), a)
  {
    hide StepRun, RunOf, GroupsLinked, Registry.Valid;
    ReachedGroups(table, before);
    OnceMore(table.types, before, a);
    assert a.Declare? ==> a.sym in SymbolOf(a);
    aborted := Perform(table, RunOf(table.types, before), a);
  }

  method Start(types: TypeRules) returns (table: SymbolTable)
    ensures fresh(table) && fresh(table.errors) && table.vectors == {} && table.types == types
    ensures Reached(table, []) && table.registry.groups.Keys == {}
  {
    var errors := new CompilerError();
    table := new SymbolTable(types, errors);
  }

  /** Later symbols are not those declared so far. */
  lemma StillToCome(actions: seq<Action>, i: nat)
    requires DeclaredOnce(actions) && i < |actions|
    ensures SymbolsOf(actions[..i]) + SymbolOf(actions[i]) <= SymbolsOf(actions)
    ensures forall k :: i < k < |actions| && actions[k].Declare? ==>
              actions[k].sym !in SymbolsOf(actions[..i]) && actions[k].sym !in SymbolOf(actions[i])
  {
    forall a, k | a in actions[..i] && a.Declare? && i <= k < |actions| && actions[k].Declare?
      ensures a.sym != actions[k].sym
    {
      var j :| 0 <= j < i && actions[j] == a;
    }
  }

  /** Any run on a new table: until a declaration ends the compilation, the table is in
      the state of the run. */
  method Process(types: TypeRules, actions: seq<Action>)
    returns (table: SymbolTable, done: nat, aborted: bool)
    requires DeclaredOnce(actions)
    requires forall k :: 0 <= k < |actions| && actions[k].Declare? ==> actions[k].sym.brothers == null
    modifies SymbolsOf(actions)
    ensures fresh(table) && table.types == types && done <= |actions| && Reached(table, actions[..done])
    ensures if aborted then done > 0 && Aborting(types, RunOf(types, actions[..done - 1]), actions[done - 1])
            else done == |actions|
    ensures forall i :: 0 <= i < (if aborted then done - 1 else done) ==>
              !Aborting(types, RunOf(types, actions[..i]), actions[i])
  {
    hide Reached, SymbolsOf, DeclaredOnce, Aborting, RunOf;
    table := Start(types);
    done, aborted := 0, false;
    assert actions[..0] == [];
    while done < |actions| && !aborted
      invariant done <= |actions| && table.types == types
      invariant fresh(table) && fresh(table.errors) && fresh(table.vectors)
      invariant Reached(table, actions[..done])
      invariant table.registry.groups.Keys <= SymbolsOf(actions)
      invariant table.registry.groups.Keys <= SymbolsOf(actions[..done])
      invariant forall k :: done <= k < |actions| && actions[k].Declare? ==> actions[k].sym.brothers == null
      invariant aborted ==> done > 0 && Aborting(types, RunOf(types, actions[..done - 1]), actions[done - 1])
      invariant forall i :: 0 <= i < (if aborted then done - 1 else done) ==>
                  !Aborting(types, RunOf(types, actions[..i]), actions[i])
      decreases |actions| - done
    {
      OnceAt(actions, done);
      StillToCome(actions, done);
      assert actions[..done + 1] == actions[..done] + [actions[done]];
      DeclaredAppend(actions[..done], actions[done]);
      aborted := Next(table, actions[..done], actions[done]);
      ReachedGroups(table, actions[..done + 1]);
      done := done + 1;
    }
  }

  lemma OnceAt(actions: seq<Action>, n: nat)
    requires DeclaredOnce(actions) && n < |actions|
    ensures SymbolOf(actions[n]) !! SymbolsOf(actions[..n])
  {
    OnceBefore(actions, n);
  }

  lemma DeclaredAppend(actions: seq<Action>, a: Action)
    ensures SymbolsOf(actions + [a]) == SymbolsOf(actions) + SymbolOf(a)
  {
  }

  // ---------------------------------------------------------------------
  // What holds after any run
  // ---------------------------------------------------------------------

  /** Looking a name up finds what the stack of frames of the run finds. */
  method LookupAfterRun(table: SymbolTable, ghost actions: seq<Action>, name: string)
    returns (symbol: Option<Entry>, tag: Option<Symbol>)
    requires Reached(table, actions) && IsSegment(name) && forall a <- actions :: Permitted(a)
    ensures symbol == RunLexical(EmptyLexical<Entry>(), Operations(table.types, actions)).Lookup(name)
    ensures tag == RunLexical(EmptyLexical<Symbol>(), TagOperations(table.types, actions)).Lookup(name)
  {
    RunIsLexical(table.types, actions, name);
    symbol := table.LookupName(name);
    tag := table.LookupTagName(name);
  }

  /** An accepted declaration of an object has a vector exactly when there are others of
      its key; the vector lists exactly the accepted declarations of the key, in order. */
  lemma BrothersAfterRun(table: SymbolTable, actions: seq<Action>, k: string, s: Symbol)
    requires Reached(table, actions) && s in Accepted(table.types, actions, k)
    ensures s in table.registry.groups
    ensures s.brothers == null <==> |Accepted(table.types, actions, k)| == 1
    ensures s.brothers != null ==> s.brothers.elems == Accepted(table.types, actions, k)
    ensures forall t <- Accepted(table.types, actions, k) :: t in table.registry.groups && t.brothers == s.brothers
  {
    var accepted := Accepted(table.types, actions, k);
    hide Registry.Valid, Accepted, RunOf;
    forall t <- accepted
      ensures t in table.registry.groups && table.registry.groups[t] == accepted
    {
      AcceptedTogether(table.types, actions, k, t);
    }
    assert |accepted| == 1 ==> accepted == [s];
  }

  /** The declarations of different keys never share a vector. */
  lemma BrothersApart(table: SymbolTable, actions: seq<Action>, k: string, l: string, s: Symbol, t: Symbol)
    requires Reached(table, actions) && k != l
    requires s in Accepted(table.types, actions, k) && t in Accepted(table.types, actions, l)
    ensures s.brothers == t.brothers ==> s.brothers == null
  {
    BrothersAfterRun(table, actions, k, s);
    BrothersAfterRun(table, actions, l, t);
    AcceptedApart(table.types, actions, k, l, s);
  }
}
