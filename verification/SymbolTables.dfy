/** The symbol table: scopes, name spaces, and which declaration is kept. */
module SymbolTables {
  import opened Wrappers
  import opened Numerals
  import opened ScopeNames
  import opened LexicalScopes
  import opened Manglings
  import opened Symbols
  import opened Placement
  import opened Declarations
  import opened Registry
  import opened KeptDeclarations

  class CompilerError {
    var log: seq<Diagnostic>

    constructor ()
      ensures log == []
    {
      log := [];
    }

    method Raise(severity: Severity, about: Symbol)
      modifies this
      ensures log == old(log) + [Diagnostic(severity, about)]
    {
      log := log + [Diagnostic(severity, about)];
    }
  }

  lemma LogTwice(before: seq<Diagnostic>, now: seq<Diagnostic>, more: seq<Diagnostic>)
    requires before <= now
    ensures now + more == before + (now[|before|..] + more)
  {
  }

  class SymbolTable {
    const types: TypeRules
    const errors: CompilerError

    var scopeStack: seq<string>
    var unnamedScopeCounter: nat
    var scopeDepth: int
    var manglingCounter: nat

    var symTable: map<string, Entry>
    var symTableTag: map<string, Symbol>
    var flushed: seq<Symbol>

    ghost var registry: Registry
    ghost var vectors: set<BrotherVector>

    // -------------------------------------------------------------------
    // Invariants
    // -------------------------------------------------------------------

    /** The registry describes the tables, the flushed list and the vectors. */
    ghost predicate Registered()
      reads this`symTable, this`symTableTag, this`flushed, this`registry, this`vectors
      reads registry.groups.Keys`brothers, vectors
    {
      && registry.places.table == symTable
      && registry.places.tags == symTableTag
      && registry.places.flushed == flushed
      && GroupsLinked(registry.groups, vectors)
    }

    ghost predicate Valid()
      reads this`symTable, this`symTableTag, this`flushed, this`registry, this`vectors
      reads errors, registry.groups.Keys`brothers, vectors
    {
      Registered() && registry.Valid(errors.log) && Kept(registry)
    }

    constructor (types: TypeRules, errors: CompilerError)
      ensures Valid() && this.types == types && this.errors == errors
      ensures View() == EmptyFlat<Entry>() && symTableTag == map[] && flushed == []
      ensures registry == Registry(Places(map[], map[], [], {}, map[]), map[], map[], {}) && vectors == {}
      ensures scopeDepth == 0
    {
      this.types, this.errors := types, errors;
      scopeStack, unnamedScopeCounter, scopeDepth, manglingCounter := [], 0, 0, 0;
      symTable, symTableTag, flushed := map[], map[], [];
      registry := Registry(Places(map[], map[], [], {}, map[]), map[], map[], {});
      vectors := {};
    }

    // -------------------------------------------------------------------
    // Manglings
    // -------------------------------------------------------------------

    method GetMangling(s: string) returns (name: string)
      modifies this`manglingCounter
      ensures manglingCounter == old(manglingCounter) + 1 && name == Mangling(manglingCounter, s)
    {
      manglingCounter := manglingCounter + 1;
      name := "_M" + (Print(manglingCounter, 10) + ("_" + s));
    }

    method GetSameMangling(s: string) returns (name: string)
      ensures name == Mangling(manglingCounter, s)
    {
      name := "_M" + (Print(manglingCounter, 10) + ("_" + s));
    }

    method GetNewName() returns (name: string)
      modifies this`manglingCounter
      ensures manglingCounter == old(manglingCounter) + 1 && name == NewName(manglingCounter)
    {
      manglingCounter := manglingCounter + 1;
      name := "_N" + Print(manglingCounter, 10);
    }

    // -------------------------------------------------------------------
    // Scopes
    // -------------------------------------------------------------------

    function View(): Flat<Entry>
      reads this
    {
      Flat(scopeStack, unnamedScopeCounter, symTable)
    }

    function TagView(): Flat<Symbol>
      reads this
    {
      Flat(scopeStack, unnamedScopeCounter, symTableTag)
    }

    predicate IsTopLevel()
      reads this
    {
      scopeDepth == 0
    }

    method PushNamedScope(s: string)
      modifies this`scopeStack, this`scopeDepth
      ensures View() == old(View()).PushNamed(s) && TagView() == old(TagView()).PushNamed(s)
      ensures scopeDepth == old(scopeDepth) + 1
      ensures old(Valid()) ==> Valid()
    {
      scopeDepth := scopeDepth + 1;
      scopeStack := scopeStack + [s];
    }

    method PushScope()
      modifies this`scopeStack, this`scopeDepth, this`unnamedScopeCounter
      ensures View() == old(View()).PushUnnamed() && TagView() == old(TagView()).PushUnnamed()
      ensures scopeDepth == old(scopeDepth) + 1
      ensures old(Valid()) ==> Valid()
    {
      scopeDepth := scopeDepth + 1;
      scopeStack := scopeStack + [Unnamed(unnamedScopeCounter)];
      unnamedScopeCounter := unnamedScopeCounter + 1;
    }

    method PopScope()
      modifies this`scopeStack, this`scopeDepth
      ensures View() == old(View()).Pop() && TagView() == old(TagView()).Pop()
      ensures scopeDepth == old(scopeDepth) - 1
      ensures old(Valid()) ==> Valid()
    {
      var size := |scopeStack|;
      if size > 0 {
        scopeStack := scopeStack[..size - 1];
      }
      scopeDepth := scopeDepth - 1;
    }

    method CurrentScopeAsString() returns (buf: string)
      ensures buf == Join(scopeStack)
    {
      buf := "";
      var first := true;
      for i := 0 to |scopeStack|
        invariant first <==> i == 0
        invariant buf == Join(scopeStack[..i])
      {
        assert scopeStack[..i + 1][..i] == scopeStack[..i];
        if first {
          first := false;
        } else {
          buf := buf + ":";
        }
        buf := buf + scopeStack[i];
      }
      assert scopeStack[..|scopeStack|] == scopeStack;
    }

    method AddCurrentScopeToName(name: string) returns (key: string)
      ensures key == View().Key(name) == TagView().Key(name)
    {
      var scope := CurrentScopeAsString();
      key := AddScopeToName(scope, name);
    }

    method LookupName(name: string) returns (symbol: Option<Entry>)
      ensures symbol == View().Lookup(name)
    {
      symbol := LookupIn(symTable, name);
    }

    method LookupTagName(name: string) returns (symbol: Option<Symbol>)
      ensures symbol == TagView().Lookup(name)
    {
      symbol := LookupIn(symTableTag, name);
    }

    /** The loop of both lookups: strip one level until found. */
    method LookupIn<T>(entries: map<string, T>, name: string) returns (symbol: Option<T>)
      ensures symbol == LookupFrom(entries, Join(scopeStack), name)
    {
      var start := CurrentScopeAsString();
      var scope := Some(start);
      symbol := None;
      while symbol.None? && scope.Some?
        invariant LookupFrom(entries, start, name) ==
                  if symbol.Some? then symbol
                  else if scope.Some? then LookupFrom(entries, scope.value, name)
                  else None
        decreases symbol.None?, if scope.Some? then 1 + |scope.value| else 0
      {
        symbol := Get(entries, AddScopeToName(scope.value, name));
        scope := RemoveOneLevelScope(scope.value);
      }
    }

    // -------------------------------------------------------------------
    // Keeping, flushing and linking
    // -------------------------------------------------------------------

    ghost predicate IsNew(sym: Symbol)
      reads this, sym`brothers
    {
      sym !in registry.groups && sym.brothers == null
    }

    /** Fills a new slot of the ordinary table. */
    method Alone(key: string, entry: Entry, sym: Symbol, ghost next: Registry)
      requires Registered() && IsNew(sym) && next.groups == registry.groups[sym := [sym]]
      requires next.places.table == symTable[key := entry] && next.places.tags == symTableTag
      requires next.places.flushed == flushed
      modifies this`symTable, this`registry
      ensures Registered() && registry == next
    {
      AloneLinked(registry.groups, vectors, sym);
      registry := next;
      symTable := symTable[key := entry];
    }

    /** Links a further declaration to the one in the table. */
    method Brother(kept: Symbol, sym: Symbol, ghost next: Registry)
      requires Registered() && IsNew(sym) && kept in registry.groups
      requires next.groups == JoinGroup(registry.groups, kept, sym)
      requires next.places.table == symTable && next.places.tags == symTableTag && next.places.flushed == flushed
      modifies this`registry, this`vectors, sym`brothers, kept`brothers, kept.brothers
      ensures Registered() && registry == next
      ensures fresh(vectors - old(vectors))
    {
      hide GroupsLinked, JoinGroup;
      VectorKnown(registry.groups, vectors, kept);
      var v := LinkBrothers(kept, sym, registry.groups, vectors);
      vectors := vectors + {v};
      registry := next;
    }

    /** Flushes `gone`, leaves `entry` at `key` and links both declarations. */
    method Settle(key: string, entry: Entry, gone: Symbol, kept: Symbol, sym: Symbol, ghost next: Registry)
      requires Registered() && IsNew(sym) && kept in registry.groups
      requires next.groups == JoinGroup(registry.groups, kept, sym)
      requires next.places.table == symTable[key := entry] && next.places.tags == symTableTag
      requires next.places.flushed == flushed + [gone]
      modifies this`symTable, this`flushed, this`registry, this`vectors, sym`brothers, kept`brothers, kept.brothers
      ensures Registered() && registry == next
      ensures fresh(vectors - old(vectors))
    {
      hide GroupsLinked, JoinGroup;
      flushed := flushed + [gone];
      symTable := symTable[key := entry];
      registry := registry.(places := next.places);
      Brother(kept, sym, next);
    }

    // -------------------------------------------------------------------
    // Objects
    // -------------------------------------------------------------------

    /** A further declaration of the object `kept`. */
    method NextObject(key: string, kept: Symbol, sym: Symbol)
      requires Registered() && IsNew(sym) && kept in registry.groups
      requires IsObject(symTable, key) && symTable[key] == Single(kept) && key in registry.declared
      modifies this`symTable, this`flushed, this`registry, this`vectors, sym`brothers, kept`brothers, kept.brothers
      ensures Registered() && registry == old(registry).NextObject(key, sym, IsTopLevel())
      ensures fresh(vectors - old(vectors))
    {
      ghost var next := registry.NextObject(key, sym, IsTopLevel());
      if TakesOver(sym, kept) {
        Settle(key, Single(sym), kept, kept, sym, next);
      } else {
        assert symTable == symTable[key := Single(kept)];
        Settle(key, Single(kept), sym, kept, sym, next);
      }
    }

    // -------------------------------------------------------------------
    // Functions
    // -------------------------------------------------------------------

    /** A further declaration of the function `kept`. */
    method NextFunction(key: string, kept: Symbol, sym: Symbol, canRedefine: bool) returns (aborted: bool)
      requires Registered() && IsNew(sym) && kept in registry.groups
      requires key in symTable && symTable[key] == Single(kept)
      modifies this`symTable, this`flushed, this`registry, this`vectors, errors
      modifies sym`brothers, kept`brothers, kept.brothers
      ensures Registered() && registry == old(registry).NextFunction(key, kept, sym)
      ensures aborted <==> FunctionFate(kept, sym) == Aborts
      ensures errors.log == old(errors.log) + FunctionDiagnostics(types, kept, sym, canRedefine)
      ensures fresh(vectors - old(vectors))
    {
      hide GroupsLinked, JoinGroup;
      ghost var next := registry.NextFunction(key, kept, sym);
      aborted := false;
      if kept.isDefinition && sym.isDefinition {
        errors.Raise(if canRedefine then Warning else Error, sym);
        Brother(kept, sym, next);
        return;
      }
      if !types.sameFunction(kept.typ, sym.typ) {
        errors.Raise(Error, sym);
      }
      if TouchesBuiltin(kept, sym) {
        errors.Raise(Fatal, sym);
        registry := next;
        aborted := true;
      } else if sym.isDefinition {
        Settle(key, Single(sym), kept, kept, sym, next);
      } else {
        assert symTable == symTable[key := Single(kept)];
        Settle(key, Single(kept), sym, kept, sym, next);
      }
    }

    /** The first mangled function of the list whose type cannot be told from `typ`. */
    method GetEquivalentMangledFunction(list: seq<Symbol>, typ: TypeInfo) returns (i: nat)
      ensures i == FirstEquivalent(types, list, typ)
    {
      i := 0;
      while i < |list| && !types.sameMangling(list[i].typ, typ)
        invariant i <= |list| && forall j | 0 <= j < i :: !types.sameMangling(list[j].typ, typ)
      {
        i := i + 1;
      }
    }

    /** A further declaration of the i-th mangled function of `key`. */
    method NextOverload(key: string, i: nat, kept: Symbol, sym: Symbol, canRedefine: bool) returns (aborted: bool)
      requires Registered() && IsNew(sym) && kept in registry.groups
      requires key in symTable && symTable[key].Overloads? && i < |symTable[key].list| && symTable[key].list[i] == kept
      modifies this`symTable, this`flushed, this`registry, this`vectors, errors
      modifies sym`brothers, kept`brothers, kept.brothers
      ensures Registered() && registry == old(registry).NextOverload(key, i, sym)
      ensures aborted <==> OverloadFate(kept, sym) == Aborts
      ensures errors.log == old(errors.log) + OverloadDiagnostics(kept, sym, canRedefine)
      ensures fresh(vectors - old(vectors))
    {
      hide GroupsLinked, JoinGroup;
      ghost var next := registry.NextOverload(key, i, sym);
      var list := symTable[key].list;
      aborted := false;
      if TouchesBuiltin(kept, sym) {
        errors.Raise(Fatal, sym);
        registry := next;
        aborted := true;
      } else if kept.isDefinition && sym.isDefinition {
        errors.Raise(if canRedefine then Warning else Error, sym);
        Brother(kept, sym, next);
      } else if sym.isDefinition {
        Settle(key, Overloads(list[..i] + list[i + 1..] + [sym]), kept, kept, sym, next);
      } else {
        assert symTable == symTable[key := Overloads(list)];
        Settle(key, Overloads(list), sym, kept, sym, next);
      }
    }

    // -------------------------------------------------------------------
    // Tags
    // -------------------------------------------------------------------

    /** A further declaration of the tag of `key`. */
    method NextTag(key: string, kept: Symbol, sym: Symbol)
      requires Registered() && IsNew(sym) && kept in registry.groups
      requires key in symTableTag && symTableTag[key] == kept
      modifies this`symTableTag, this`flushed, this`registry, this`vectors, errors
      modifies sym`brothers, kept`brothers, kept.brothers
      ensures Registered() && registry == old(registry).NextTag(key, sym)
      ensures errors.log == old(errors.log) + TagDiagnostics(kept, sym)
      ensures fresh(vectors - old(vectors))
    {
      hide GroupsLinked, JoinGroup;
      ghost var next := registry.NextTag(key, sym);
      if sym.kind == kept.kind {
        if kept.typ.complete {
          if sym.typ.complete {
            errors.Raise(Message, sym);
            errors.Raise(Error, kept);
          } else {
            flushed := flushed + [sym];
          }
        } else {
          flushed := flushed + [kept];
          symTableTag := symTableTag[key := sym];
        }
      } else {
        errors.Raise(Error, sym);
        errors.Raise(Message, kept);
      }
      BrotherTag(kept, sym, next);
    }

    method BrotherTag(kept: Symbol, sym: Symbol, ghost next: Registry)
      requires GroupsLinked(registry.groups, vectors) && IsNew(sym) && kept in registry.groups
      requires next.groups == JoinGroup(registry.groups, kept, sym)
      requires next.places.table == symTable && next.places.tags == symTableTag && next.places.flushed == flushed
      modifies this`registry, this`vectors, sym`brothers, kept`brothers, kept.brothers
      ensures Registered() && registry == next
      ensures fresh(vectors - old(vectors))
    {
      hide GroupsLinked, JoinGroup;
      registry := registry.(places := next.places);
      Brother(kept, sym, next);
    }

    // -------------------------------------------------------------------
    // Declarations
    // -------------------------------------------------------------------

    ghost predicate CanOffer(sym: Symbol)
      reads this, sym`brothers
    {
      sym !in registry.places.offered && sym.brothers == null
    }

    /** A first declaration that is not of an object. */
    method First(key: string, entry: Entry, sym: Symbol, ghost now: Places)
      requires Valid() && CanOffer(sym) && OneMore(registry.places, now, sym) && now.Placed(sym)
      requires now.home.Keys == registry.places.home.Keys + {sym}
      requires now.table == symTable[key := entry] && now.tags == symTableTag && now.flushed == flushed
      modifies this`symTable, this`registry
      ensures Valid() && registry == old(registry).First(sym, now)
    {
      FirstValid(registry, errors.log, sym, now);
      FirstKept(registry, errors.log, sym, registry.First(sym, now));
      Alone(key, entry, sym, registry.First(sym, now));
    }

    /** Reports a symbol that is not taken. */
    method Refuse(sym: Symbol)
      requires Valid() && CanOffer(sym)
      modifies this`registry, errors
      ensures Valid() && registry == old(registry).Refuse(sym)
      ensures errors.log == old(errors.log) + [Diagnostic(Error, sym)]
    {
      RefuseValid(registry, errors.log, Error, sym);
      RefusedKept(registry, sym);
      registry := registry.Refuse(sym);
      errors.Raise(Error, sym);
    }

    method DeclareObject(key: string, sym: Symbol)
      requires Valid() && CanOffer(sym) && sym.kind == ObjectKind
      modifies this`symTable, this`flushed, this`registry, this`vectors, errors
      modifies sym`brothers, registry.groups.Keys`brothers, vectors
      ensures Valid() && registry == old(registry).AddObject(types, key, sym, IsTopLevel())
      ensures errors.log == old(errors.log) + ObjectDiagnostics(types, old(symTable), key, sym, IsTopLevel())
      ensures fresh(vectors - old(vectors))
    {
      hide GroupsLinked, JoinGroup, GroupsClosed, DeclaredMatch, LinkageMatch, Accounted, KindsFit, Linked, Kept;
      hide Registry.Valid;
      ValidPlaces(registry, errors.log);
      if key !in symTable {
        FirstObjectValid(registry, errors.log, key, sym, IsTopLevel());
        FirstKept(registry, errors.log, sym, registry.FirstObject(key, sym, IsTopLevel()));
        Alone(key, Single(sym), sym, registry.FirstObject(key, sym, IsTopLevel()));
      } else if symTable[key].Single? && ObjectsCompatible(types, symTable[key].sym, sym, IsTopLevel()) {
        NextObjectValid(registry, errors.log, types, key, sym, IsTopLevel());
        NextObjectKept(registry, errors.log, key, sym, IsTopLevel());
        VectorKnown(registry.groups, vectors, symTable[key].sym);
        NextObject(key, symTable[key].sym, sym);
      } else {
        Refuse(sym);
      }
    }

    /** Declares an object: a variable or an array. */
    method AddObjectLabel(name: string, sym: Symbol)
      requires Valid() && CanOffer(sym) && sym.kind == ObjectKind
      modifies this`symTable, this`flushed, this`registry, this`vectors, errors, sym`scopeDepth
      modifies sym`brothers, registry.groups.Keys`brothers, vectors
      ensures Valid() && sym.scopeDepth == scopeDepth
      ensures registry == old(registry).AddObject(types, old(View()).Key(name), sym, IsTopLevel())
      ensures errors.log ==
              old(errors.log) + ObjectDiagnostics(types, old(symTable), old(View()).Key(name), sym, IsTopLevel())
      ensures var key := old(View()).Key(name);
              key in symTable && View() == old(View()).Put(name, symTable[key])
      ensures TagView() == old(TagView())
      ensures fresh(vectors - old(vectors))
    {
      hide GroupsLinked, JoinGroup, GroupsClosed, DeclaredMatch, LinkageMatch, Accounted, KindsFit, Linked, Kept;
      AddObjectBinds(registry, types, View().Key(name), sym, IsTopLevel());
      sym.scopeDepth := scopeDepth;
      var key := AddCurrentScopeToName(name);
      DeclareObject(key, sym);
    }

    /** Declares a symbol that may be declared once. */
    method AddEnumConstantOrTypedef(name: string, sym: Symbol)
      requires Valid() && CanOffer(sym) && (sym.kind == EnumConstantKind || sym.kind == TypedefKind)
      modifies this`symTable, this`registry, errors, sym`scopeDepth
      ensures Valid() && sym.scopeDepth == scopeDepth
      ensures registry == old(registry).AddOnce(old(View()).Key(name), sym)
      ensures errors.log ==
              old(errors.log) + if old(View()).Key(name) in old(symTable) then [Diagnostic(Error, sym)] else []
      ensures var key := old(View()).Key(name);
              key in symTable && View() == old(View()).Put(name, symTable[key])
      ensures TagView() == old(TagView())
    {
      hide GroupsLinked, JoinGroup, GroupsClosed, DeclaredMatch, LinkageMatch, Accounted, KindsFit, Linked, Kept;
      AddOnceBinds(registry, View().Key(name), sym);
      sym.scopeDepth := scopeDepth;
      var key := AddCurrentScopeToName(name);
      if key in symTable {
        Refuse(sym);
      } else {
        OneMoreFirst(registry.places, key, sym);
        First(key, Single(sym), sym, registry.places.PutOrdinary(key, sym));
      }
    }

    method DeclareTag(key: string, sym: Symbol)
      requires Valid() && CanOffer(sym) && sym.kind.TagKind?
      modifies this`symTableTag, this`flushed, this`registry, this`vectors, errors
      modifies sym`brothers, registry.groups.Keys`brothers, vectors
      ensures Valid() && registry == old(registry).AddTag(key, sym)
      ensures errors.log ==
              old(errors.log) + if key in old(symTableTag) then TagDiagnostics(old(symTableTag)[key], sym) else []
      ensures fresh(vectors - old(vectors))
    {
      hide GroupsLinked, JoinGroup, GroupsClosed, DeclaredMatch, LinkageMatch, Accounted, KindsFit, Linked, Kept;
      hide Registry.Valid;
      ValidPlaces(registry, errors.log);
      if key in symTableTag {
        TagGrouped(registry, errors.log, key);
        VectorKnown(registry.groups, vectors, symTableTag[key]);
        ghost var before := registry;
        ghost var log := errors.log;
        NextTag(key, symTableTag[key], sym);
        LongerLog(before, log, errors.log);
        NextTagValid(before, errors.log, key, sym);
        NextTagKept(before, log, key, sym);
      } else {
        OneMoreTag(registry.places, key, sym);
        ghost var next := registry.First(sym, registry.places.PutTag(key, sym));
        FirstValid(registry, errors.log, sym, next.places);
        FirstKept(registry, errors.log, sym, next);
        AloneLinked(registry.groups, vectors, sym);
        symTableTag := symTableTag[key := sym];
        registry := next;
      }
    }

    /** Declares a tag. */
    method AddTag(name: string, sym: Symbol)
      requires Valid() && CanOffer(sym) && sym.kind.TagKind?
      modifies this`symTableTag, this`flushed, this`registry, this`vectors, errors, sym`scopeDepth
      modifies sym`brothers, registry.groups.Keys`brothers, vectors
      ensures Valid() && sym.scopeDepth == scopeDepth
      ensures registry == old(registry).AddTag(old(TagView()).Key(name), sym)
      ensures var key := old(TagView()).Key(name);
              errors.log ==
              old(errors.log) + if key in old(symTableTag) then TagDiagnostics(old(symTableTag)[key], sym) else []
      ensures var key := old(TagView()).Key(name);
              key in symTableTag && TagView() == old(TagView()).Put(name, symTableTag[key])
      ensures View() == old(View())
      ensures fresh(vectors - old(vectors))
    {
      hide GroupsLinked, JoinGroup, GroupsClosed, DeclaredMatch, LinkageMatch, Accounted, KindsFit, Linked, Kept;
      AddTagBinds(registry, TagView().Key(name), sym);
      sym.scopeDepth := scopeDepth;
      var key := AddCurrentScopeToName(name);
      DeclareTag(key, sym);
    }

    /** Declares again the i-th mangled function of `key`. */
    method DeclareOverloadAgain(key: string, i: nat, kept: Symbol, sym: Symbol, canRedefine: bool)
      returns (aborted: bool)
      requires Valid() && CanOffer(sym) && sym.kind == FunctionKind
      requires key in symTable && symTable[key].Overloads? && i < |symTable[key].list| && symTable[key].list[i] == kept
      modifies this`symTable, this`flushed, this`registry, this`vectors, errors
      modifies sym`brothers, kept`brothers, kept.brothers
      ensures Valid() && kept in old(registry).groups && registry == old(registry).NextOverload(key, i, sym)
      ensures aborted <==> OverloadFate(kept, sym) == Aborts
      ensures errors.log == old(errors.log) + OverloadDiagnostics(kept, sym, canRedefine)
      ensures fresh(vectors - old(vectors))
    {
      hide GroupsLinked, JoinGroup;
      OverloadGrouped(registry, errors.log, key, i);
      ghost var before, log := registry, errors.log;
      aborted := NextOverload(key, i, kept, sym, canRedefine);
      LongerLog(before, log, errors.log);
      NextOverloadValid(before, errors.log, key, i, sym);
      NextOverloadKept(before, log, key, i, sym);
    }

    method DeclareOverload(key: string, list: seq<Symbol>, sym: Symbol, canRedefine: bool) returns (aborted: bool)
      requires Valid() && CanOffer(sym) && sym.kind == FunctionKind
      requires key in symTable && symTable[key] == Overloads(list)
      modifies this`symTable, this`flushed, this`registry, this`vectors, errors
      modifies sym`brothers, registry.groups.Keys`brothers, vectors
      ensures Valid() && registry == old(registry).AddFunction(types, key, sym)
      ensures aborted <==> EntryAborts(types, Overloads(list), sym)
      ensures errors.log == old(errors.log) + EntryDiagnostics(types, Overloads(list), sym, canRedefine)
      ensures fresh(vectors - old(vectors))
    {
      hide GroupsLinked, JoinGroup, GroupsClosed, DeclaredMatch, LinkageMatch, Accounted, KindsFit, Linked, Kept;
      hide Registry.Valid;
      ValidPlaces(registry, errors.log);
      hide FirstEquivalent, OverloadFate, OverloadDiagnostics, Registry.AddFunction, Registry.NextOverload, Registry.First;
      aborted := false;
      OverloadAdded(registry, types, key, list, sym);
      CheckMangled(sym);
      var i := GetEquivalentMangledFunction(list, sym.typ);
      if i == |list| {
        AddOverload(key, list, sym);
      } else {
        OverloadGrouped(registry, errors.log, key, i);
        VectorKnown(registry.groups, vectors, list[i]);
        LogTwice(old(errors.log), errors.log, OverloadDiagnostics(list[i], sym, canRedefine));
        aborted := DeclareOverloadAgain(key, i, list[i], sym, canRedefine);
      }
    }

    /** A function that can be told from all those of the list. */
    method AddOverload(key: string, list: seq<Symbol>, sym: Symbol)
      requires Valid() && CanOffer(sym) && sym.kind == FunctionKind
      requires key in symTable && symTable[key] == Overloads(list)
      modifies this`symTable, this`registry
      ensures Valid() && registry == old(registry).First(sym, old(registry).places.AddMangled(key, sym))
    {
      hide GroupsLinked, Registry.Valid, Kept;
      ValidPlaces(registry, errors.log);
      OneMoreOverload(registry.places, key, sym);
      First(key, Overloads(list + [sym]), sym, registry.places.AddMangled(key, sym));
    }

    /** A function that is not mangled is reported among mangled ones, and kept. */
    method CheckMangled(sym: Symbol)
      requires Valid()
      modifies errors
      ensures Valid()
      ensures errors.log == old(errors.log) + if sym.isMangled then [] else [Diagnostic(Error, sym)]
    {
      if !sym.isMangled {
        LongerLog(registry, errors.log, errors.log + [Diagnostic(Error, sym)]);
        errors.Raise(Error, sym);
      }
    }

    method DeclareFunction(key: string, sym: Symbol, canRedefine: bool) returns (aborted: bool)
      requires Valid() && CanOffer(sym) && sym.kind == FunctionKind
      modifies this`symTable, this`flushed, this`registry, this`vectors, errors
      modifies sym`brothers, registry.groups.Keys`brothers, vectors
      ensures Valid() && registry == old(registry).AddFunction(types, key, sym)
      ensures aborted <==> key in old(symTable) && EntryAborts(types, old(symTable)[key], sym)
      ensures errors.log == old(errors.log) +
              if key in old(symTable) then EntryDiagnostics(types, old(symTable)[key], sym, canRedefine) else []
      ensures fresh(vectors - old(vectors))
    {
      hide GroupsLinked, JoinGroup, Registry.Valid, Kept, FunctionFate, FunctionDiagnostics, OverloadDiagnostics, OverloadFate;
      ValidPlaces(registry, errors.log);
      aborted := false;
      if key !in symTable {
        if sym.isMangled {
          OneMoreOverload(registry.places, key, sym);
          assert [] + [sym] == [sym];
          First(key, Overloads([sym]), sym, registry.places.AddMangled(key, sym));
        } else {
          OneMoreFirst(registry.places, key, sym);
          First(key, Single(sym), sym, registry.places.PutOrdinary(key, sym));
        }
      } else if symTable[key].Overloads? {
        aborted := DeclareOverload(key, symTable[key].list, sym, canRedefine);
      } else if symTable[key].sym.kind == FunctionKind {
        TableSymbolGrouped(registry, errors.log, key);
        ghost var before := registry;
        ghost var log := errors.log;
        var kept := symTable[key].sym;
        VectorKnown(registry.groups, vectors, kept);
        aborted := NextFunction(key, kept, sym, canRedefine);
        LongerLog(before, log, errors.log);
        FunctionReported(types, log, kept, sym, canRedefine);
        NextFunctionValid(before, errors.log, key, kept, sym);
        NextFunctionKept(before, log, key, kept, sym);
      } else {
        Refuse(sym);
      }
    }

    /** Declares a function.  `aborted` stands for the exception of a fatal error. */
    method AddFunction(name: string, sym: Symbol, canRedefine: bool) returns (aborted: bool)
      requires Valid() && CanOffer(sym) && sym.kind == FunctionKind
      modifies this`symTable, this`flushed, this`registry, this`vectors, errors, sym`scopeDepth
      modifies sym`brothers, registry.groups.Keys`brothers, vectors
      ensures Valid() && sym.scopeDepth == scopeDepth
      ensures registry == old(registry).AddFunction(types, old(View()).Key(name), sym)
      ensures var key := old(View()).Key(name);
              && (aborted <==> key in old(symTable) && EntryAborts(types, old(symTable)[key], sym))
              && errors.log == old(errors.log) +
                 if key in old(symTable) then EntryDiagnostics(types, old(symTable)[key], sym, canRedefine) else []
      ensures var key := old(View()).Key(name);
              key in symTable && View() == old(View()).Put(name, symTable[key])
      ensures TagView() == old(TagView())
      ensures fresh(vectors - old(vectors))
    {
      hide GroupsLinked, JoinGroup, GroupsClosed, DeclaredMatch, LinkageMatch, Accounted, KindsFit, Linked, Kept;
      AddFunctionBinds(registry, types, View().Key(name), sym);
      sym.scopeDepth := scopeDepth;
      var key := AddCurrentScopeToName(name);
      aborted := DeclareFunction(key, sym, canRedefine);
    }
  }
}
