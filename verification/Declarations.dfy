/** What is known of the declarations the symbol table has accepted. */
module Declarations {
  import opened Symbols
  import opened Placement

  // ---------------------------------------------------------------------
  // Diagnostics
  // ---------------------------------------------------------------------

  datatype Severity = Message | Warning | Error | Fatal

  datatype Diagnostic = Diagnostic(severity: Severity, about: Symbol)

  ghost predicate Reported(log: seq<Diagnostic>, sym: Symbol) {
    exists d <- log :: d.about == sym
  }

  /** A symbol that is in no table and not flushed was reported. */
  ghost predicate Accounted(p: Places, log: seq<Diagnostic>) {
    forall s <- p.offered :: p.Placed(s) || Reported(log, s)
  }

  lemma AccountedMore(p: Places, q: Places, log: seq<Diagnostic>, more: seq<Diagnostic>, sym: Symbol)
    requires Accounted(p, log) && q.offered == p.offered + {sym}
    requires forall s <- p.offered :: p.Placed(s) ==> q.Placed(s)
    requires q.Placed(sym) || Reported(more, sym)
    ensures Accounted(q, log + more)
  {
    forall s <- q.offered ensures q.Placed(s) || Reported(log + more, s) {
      if s in p.offered && Reported(log, s) {
        var d :| d in log && d.about == s;
        assert d in log + more;
      } else if !q.Placed(s) {
        var d :| d in more && d.about == s;
        assert d in log + more;
      }
    }
  }

  // ---------------------------------------------------------------------
  // Compatibility of declarations
  // ---------------------------------------------------------------------

  /** The three type comparisons a declaration may need. */
  datatype TypeRules = TypeRules(
    sameVariable: (TypeInfo, TypeInfo) -> bool,
    sameFunction: (TypeInfo, TypeInfo) -> bool,
    sameMangling: (TypeInfo, TypeInfo) -> bool)

  predicate SameStorage(a: Storage, b: Storage) {
    a.isStatic == b.isStatic && a.isRegister == b.isRegister && a.isAuto == b.isAuto
  }

  /** Every static, register or auto of a is also in b. */
  predicate StorageWithin(a: Storage, b: Storage) {
    (a.isStatic ==> b.isStatic) && (a.isRegister ==> b.isRegister) && (a.isAuto ==> b.isAuto)
  }

  predicate ObjectsCompatible(types: TypeRules, kept: Symbol, sym: Symbol, topLevel: bool) {
    && kept.kind == ObjectKind
    && types.sameVariable(kept.typ, sym.typ)
    && (if topLevel
        then (sym.storage.isExtern || StorageWithin(kept.storage, sym.storage)) &&
             (kept.storage.isExtern || StorageWithin(sym.storage, kept.storage))
        else kept.storage.isExtern || sym.storage.isExtern)
  }

  /** Which declarations of an object of the same type are accepted: extern ones always
      go with each other; two others only at top level, and with the same storage; one of
      each always in an inner scope, and at top level when the extern one says nothing of
      storage that the other does not. */
  lemma Redeclarations(types: TypeRules, kept: Symbol, sym: Symbol, topLevel: bool)
    requires kept.kind == ObjectKind && types.sameVariable(kept.typ, sym.typ)
    ensures ObjectsCompatible(types, kept, sym, topLevel) <==>
            match (kept.storage.isExtern, sym.storage.isExtern)
            case (true, true) => true
            case (false, false) => topLevel && SameStorage(kept.storage, sym.storage)
            case (true, false) => topLevel ==> StorageWithin(kept.storage, sym.storage)
            case (false, true) => topLevel ==> StorageWithin(sym.storage, kept.storage)
  {
  }

  /** A new object declaration takes the place of the one in the table. */
  predicate TakesOver(sym: Symbol, kept: Symbol) {
    if kept.storage.isExtern then !sym.storage.isExtern
    else !kept.typ.complete && sym.typ.complete
  }

  /** What a further declaration of a function or a tag is, given the one in the
      table. */
  datatype Fate = Aborts | Clashes | Supersedes | Repeats

  /** Only a builtin may declare a builtin again. */
  predicate TouchesBuiltin(kept: Symbol, sym: Symbol) {
    kept.isExternalBuiltin && !sym.isExternalBuiltin
  }

  /** Two definitions clash, even of a builtin; otherwise the definition, or else
      the first prototype, stays. */
  function FunctionFate(kept: Symbol, sym: Symbol): Fate {
    if kept.isDefinition && sym.isDefinition then Clashes
    else if TouchesBuiltin(kept, sym) then Aborts
    else if sym.isDefinition then Supersedes
    else Repeats
  }

  /** The first function of the list that cannot be told from `typ`, or its length. */
  function FirstEquivalent(types: TypeRules, list: seq<Symbol>, typ: TypeInfo): (i: nat)
    ensures i <= |list| && forall j | 0 <= j < i :: !types.sameMangling(list[j].typ, typ)
    ensures i < |list| ==> types.sameMangling(list[i].typ, typ)
  {
    if list == [] || types.sameMangling(list[0].typ, typ) then 0
    else 1 + FirstEquivalent(types, list[1..], typ)
  }

  /** The same for mangled functions, where a builtin is protected first. */
  function OverloadFate(kept: Symbol, sym: Symbol): Fate {
    if TouchesBuiltin(kept, sym) then Aborts
    else if kept.isDefinition && sym.isDefinition then Clashes
    else if sym.isDefinition then Supersedes
    else Repeats
  }

  /** Tags of another family, and two complete tags, clash. */
  function TagFate(kept: Symbol, sym: Symbol): Fate {
    if kept.kind != sym.kind then Clashes
    else if !kept.typ.complete then Supersedes
    else if sym.typ.complete then Clashes
    else Repeats
  }

  // ---------------------------------------------------------------------
  // The diagnostics of a declaration
  // ---------------------------------------------------------------------

  function ObjectDiagnostics(types: TypeRules, table: map<string, Entry>, key: string, sym: Symbol, topLevel: bool)
    : seq<Diagnostic>
  {
    if key !in table || (table[key].Single? && ObjectsCompatible(types, table[key].sym, sym, topLevel)) then []
    else [Diagnostic(Error, sym)]
  }

  function RedefinitionOf(sym: Symbol, canRedefine: bool): Diagnostic {
    Diagnostic(if canRedefine then Warning else Error, sym)
  }

  function FunctionDiagnostics(types: TypeRules, kept: Symbol, sym: Symbol, canRedefine: bool): seq<Diagnostic> {
    if FunctionFate(kept, sym) == Clashes then [RedefinitionOf(sym, canRedefine)]
    else
      (if types.sameFunction(kept.typ, sym.typ) then [] else [Diagnostic(Error, sym)]) +
      (if FunctionFate(kept, sym) == Aborts then [Diagnostic(Fatal, sym)] else [])
  }

  function OverloadDiagnostics(kept: Symbol, sym: Symbol, canRedefine: bool): seq<Diagnostic> {
    match OverloadFate(kept, sym)
    case Aborts => [Diagnostic(Fatal, sym)]
    case Clashes => [RedefinitionOf(sym, canRedefine)]
    case _ => []
  }

  function TagDiagnostics(kept: Symbol, sym: Symbol): seq<Diagnostic> {
    if TagFate(kept, sym) != Clashes then []
    else if kept.kind == sym.kind then [Diagnostic(Message, sym), Diagnostic(Error, kept)]
    else [Diagnostic(Error, sym), Diagnostic(Message, kept)]
  }

  /** A declared function against the entry of its key. */
  function EntryDiagnostics(types: TypeRules, entry: Entry, sym: Symbol, canRedefine: bool): seq<Diagnostic> {
    match entry
    case Single(kept) =>
      if kept.kind == FunctionKind then FunctionDiagnostics(types, kept, sym, canRedefine)
      else [Diagnostic(Error, sym)]
    case Overloads(list) =>
      var i := FirstEquivalent(types, list, sym.typ);
      (if sym.isMangled then [] else [Diagnostic(Error, sym)]) +
      (if i == |list| then [] else OverloadDiagnostics(list[i], sym, canRedefine))
  }

  /** A function declared again raises nothing exactly when its type is that of the kept
      one, at most one of the two is a definition, and no builtin is touched; and an error
      that is no mere warning when both are definitions and may not be. */
  lemma FunctionDiagnosed(types: TypeRules, kept: Symbol, sym: Symbol, canRedefine: bool)
    ensures var both := kept.isDefinition && sym.isDefinition;
            var d := FunctionDiagnostics(types, kept, sym, canRedefine);
            && (d == [] <==> types.sameFunction(kept.typ, sym.typ) && !both && !TouchesBuiltin(kept, sym))
            && (Diagnostic(Fatal, sym) in d <==> TouchesBuiltin(kept, sym) && !both)
            && (Diagnostic(Warning, sym) in d <==> both && canRedefine)
            && (Diagnostic(Error, sym) in d <==> if both then !canRedefine else !types.sameFunction(kept.typ, sym.typ))
  {
  }

  /** The same for a mangled function, where a builtin is never to be defined again. */
  lemma OverloadDiagnosed(kept: Symbol, sym: Symbol, canRedefine: bool)
    ensures var both := kept.isDefinition && sym.isDefinition;
            var d := OverloadDiagnostics(kept, sym, canRedefine);
            && (d == [] <==> !both && !TouchesBuiltin(kept, sym))
            && (Diagnostic(Fatal, sym) in d <==> TouchesBuiltin(kept, sym))
            && (Diagnostic(Warning, sym) in d <==> both && canRedefine && !TouchesBuiltin(kept, sym))
            && (Diagnostic(Error, sym) in d <==> both && !canRedefine && !TouchesBuiltin(kept, sym))
  {
  }

  /** A tag is reported exactly when the kept one is of another family, or both are
      complete. */
  lemma TagDiagnosed(kept: Symbol, sym: Symbol)
    ensures TagDiagnostics(kept, sym) == [] <==>
            kept.kind == sym.kind && !(kept.typ.complete && sym.typ.complete)
  {
  }

  lemma TagReported(log: seq<Diagnostic>, kept: Symbol, sym: Symbol)
    ensures TagFate(kept, sym) == Clashes ==> Reported(log + TagDiagnostics(kept, sym), sym)
  {
    var more := TagDiagnostics(kept, sym);
    if TagFate(kept, sym) == Clashes {
      assert more[0] in log + more;
    }
  }

  lemma FunctionReported(types: TypeRules, log: seq<Diagnostic>, kept: Symbol, sym: Symbol, canRedefine: bool)
    ensures FunctionFate(kept, sym) == Clashes || FunctionFate(kept, sym) == Aborts ==>
              Reported(log + FunctionDiagnostics(types, kept, sym, canRedefine), sym)
  {
    var more := FunctionDiagnostics(types, kept, sym, canRedefine);
    if more != [] {
      assert more[0] in log + more;
    }
  }

  lemma OverloadReported(log: seq<Diagnostic>, some: seq<Diagnostic>, kept: Symbol, sym: Symbol, canRedefine: bool)
    ensures OverloadFate(kept, sym) == Clashes || OverloadFate(kept, sym) == Aborts ==>
              Reported(log + (some + OverloadDiagnostics(kept, sym, canRedefine)), sym)
  {
    var more := OverloadDiagnostics(kept, sym, canRedefine);
    if more != [] {
      assert more[0] in log + (some + more);
    }
  }

  /** A builtin that something else declares again ends the compilation. */
  predicate EntryAborts(types: TypeRules, entry: Entry, sym: Symbol) {
    match entry
    case Single(kept) => kept.kind == FunctionKind && FunctionFate(kept, sym) == Aborts
    case Overloads(list) =>
      var i := FirstEquivalent(types, list, sym.typ);
      i < |list| && OverloadFate(list[i], sym) == Aborts
  }

  // ---------------------------------------------------------------------
  // Objects: the accepted declarations of each key, in order
  // ---------------------------------------------------------------------

  type Declared = map<string, seq<Symbol>>

  predicate IsObject(table: map<string, Entry>, k: string) {
    k in table && table[k].Single? && table[k].sym.kind == ObjectKind
  }

  /** The object in the table is one of the accepted declarations of its key,
      and these are exactly the declarations of the entity it belongs to. */
  ghost predicate DeclaredMatch(table: map<string, Entry>, groups: Groups, declared: Declared) {
    && (forall k | IsObject(table, k) ::
          && table[k].sym in groups && k in declared
          && groups[table[k].sym] == declared[k]
          && table[k].sym in declared[k])
    && (forall k | k in declared :: forall s <- declared[k] :: s.kind == ObjectKind && s in groups)
    && (forall k, l | IsObject(table, k) && l in declared && k != l ::
          table[k].sym !in declared[l])
  }

  lemma FirstMatches(table: map<string, Entry>, groups: Groups, declared: Declared, key: string, sym: Symbol)
    requires DeclaredMatch(table, groups, declared) && sym !in groups && key !in table && sym.kind == ObjectKind
    ensures DeclaredMatch(table[key := Single(sym)], groups[sym := [sym]], declared[key := [sym]])
  {
  }

  lemma NextMatches(table: map<string, Entry>, groups: Groups, declared: Declared, key: string, sym: Symbol)
    requires DeclaredMatch(table, groups, declared) && GroupsClosed(groups) && sym !in groups
    requires IsObject(table, key) && sym.kind == ObjectKind
    ensures DeclaredMatch(table, JoinGroup(groups, table[key].sym, sym), declared[key := declared[key] + [sym]])
    ensures DeclaredMatch(table[key := Single(sym)], JoinGroup(groups, table[key].sym, sym), declared[key := declared[key] + [sym]])
  {
    var now := declared[key := declared[key] + [sym]];
    JoinedDeclared(table, groups, declared, key, sym);
    hide DeclaredMatch, JoinGroup, GroupsClosed;
    EitherMatches(table, table, groups, declared, key, sym, now);
    EitherMatches(table, table[key := Single(sym)], groups, declared, key, sym, now);
  }

  /** The joined entity has the declarations of its key, and no other entity changes. */
  lemma JoinedDeclared(table: map<string, Entry>, groups: Groups, declared: Declared, key: string, sym: Symbol)
    requires DeclaredMatch(table, groups, declared) && GroupsClosed(groups) && sym !in groups && IsObject(table, key)
    ensures var joined := JoinGroup(groups, table[key].sym, sym);
            && joined.Keys == groups.Keys + {sym}
            && joined[sym] == joined[table[key].sym] == declared[key] + [sym]
            && forall k :: IsObject(table, k) && k != key ==> joined[table[k].sym] == groups[table[k].sym]
  {
  }

  /** Whichever of the two stays in the table. */
  lemma EitherMatches(table: map<string, Entry>, now: map<string, Entry>, groups: Groups, declared: Declared,
                      key: string, sym: Symbol, nowDeclared: Declared)
    requires DeclaredMatch(table, groups, declared) && sym !in groups && sym.kind == ObjectKind && IsObject(table, key)
    requires nowDeclared == declared[key := declared[key] + [sym]]
    requires now == table || now == table[key := Single(sym)]
    requires var joined := JoinGroup(groups, table[key].sym, sym);
             && joined.Keys == groups.Keys + {sym}
             && joined[sym] == joined[table[key].sym] == declared[key] + [sym]
             && forall k :: IsObject(table, k) && k != key ==> joined[table[k].sym] == groups[table[k].sym]
    ensures DeclaredMatch(now, JoinGroup(groups, table[key].sym, sym), nowDeclared)
  {
    hide JoinGroup;
  }

  /** The table holds the same objects. */
  ghost predicate SameObjects(table: map<string, Entry>, other: map<string, Entry>) {
    forall k :: if IsObject(table, k) then k in other && table[k] == other[k] else !IsObject(other, k)
  }

  /** Declaring something else than an object leaves the objects alone. */
  lemma OthersMatch(table: map<string, Entry>, other: map<string, Entry>, groups: Groups, declared: Declared,
                    kept: Symbol, sym: Symbol)
    requires DeclaredMatch(table, groups, declared) && GroupsClosed(groups) && sym !in groups
    requires SameObjects(table, other)
    requires kept in groups && forall s <- groups[kept] :: s.kind != ObjectKind
    ensures DeclaredMatch(other, JoinGroup(groups, kept, sym), declared)
  {
  }

  lemma OtherFirstMatches(table: map<string, Entry>, other: map<string, Entry>, groups: Groups, declared: Declared,
                          sym: Symbol)
    requires DeclaredMatch(table, groups, declared) && sym !in groups && SameObjects(table, other)
    ensures DeclaredMatch(other, groups[sym := [sym]], declared)
  {
  }

  lemma OthersLinkage(table: map<string, Entry>, other: map<string, Entry>, declared: Declared, atTop: set<Symbol>)
    requires LinkageMatch(table, declared, atTop) && SameObjects(table, other)
    ensures LinkageMatch(other, declared, atTop)
  {
  }

  // ---------------------------------------------------------------------
  // Linkage of objects
  // ---------------------------------------------------------------------

  /** Every declaration that is not extern has a complete type. */
  ghost predicate DefinitionsComplete(acc: seq<Symbol>) {
    forall s <- acc :: !s.storage.isExtern ==> s.typ.complete
  }

  /** The kept declaration is extern iff every accepted one is. */
  ghost predicate KeptIsDefinition(kept: Symbol, acc: seq<Symbol>) {
    kept.storage.isExtern <==> forall s <- acc :: s.storage.isExtern
  }

  /** Of two accepted declarations that are not extern, the later one was made
      at top level, and both have the same storage. */
  ghost predicate StorageAgrees(acc: seq<Symbol>, atTop: set<Symbol>) {
    forall i, j | 0 <= i < j < |acc| && !acc[i].storage.isExtern && !acc[j].storage.isExtern ::
      acc[j] in atTop && SameStorage(acc[i].storage, acc[j].storage)
  }

  ghost predicate Linked(kept: Symbol, acc: seq<Symbol>, atTop: set<Symbol>) {
    DefinitionsComplete(acc) ==> KeptIsDefinition(kept, acc) && StorageAgrees(acc, atTop)
  }

  ghost predicate LinkageMatch(table: map<string, Entry>, declared: Declared, atTop: set<Symbol>) {
    forall k | IsObject(table, k) && k in declared ::
      Linked(table[k].sym, declared[k], atTop)
  }

  lemma NextLinked(types: TypeRules, kept: Symbol, acc: seq<Symbol>, atTop: set<Symbol>, sym: Symbol, topLevel: bool)
    requires Linked(kept, acc, atTop) && kept in acc && sym !in acc
    requires ObjectsCompatible(types, kept, sym, topLevel)
    ensures Linked(if TakesOver(sym, kept) then sym else kept, acc + [sym],
                   if topLevel then atTop + {sym} else atTop)
  {
    var next := acc + [sym];
    if DefinitionsComplete(next) {
      assert forall s <- acc :: s in next;
      assert DefinitionsComplete(acc);
      assert sym in next;
      if !sym.storage.isExtern && !kept.storage.isExtern {
        var c :| 0 <= c < |acc| && acc[c] == kept;
        forall i | 0 <= i < |acc| && !acc[i].storage.isExtern
          ensures SameStorage(acc[i].storage, sym.storage)
        {
          assert i == c || i < c || c < i;
        }
      }
    }
  }

  /** The symbol table after a first declaration of `key`. */
  lemma FirstLinkage(table: map<string, Entry>, declared: Declared, atTop: set<Symbol>, key: string, sym: Symbol,
                     topLevel: bool)
    requires LinkageMatch(table, declared, atTop) && key !in table
    ensures LinkageMatch(table[key := Single(sym)], declared[key := [sym]], if topLevel then atTop + {sym} else atTop)
  {
    LinkageGrows(table, declared, atTop, sym);
  }

  lemma LinkageGrows(table: map<string, Entry>, declared: Declared, atTop: set<Symbol>, sym: Symbol)
    requires LinkageMatch(table, declared, atTop)
    ensures LinkageMatch(table, declared, atTop + {sym})
  {
  }

  lemma NextLinkage(types: TypeRules, table: map<string, Entry>, groups: Groups, declared: Declared,
                    atTop: set<Symbol>, key: string, sym: Symbol, topLevel: bool)
    requires DeclaredMatch(table, groups, declared) && LinkageMatch(table, declared, atTop)
    requires IsObject(table, key) && sym !in groups && ObjectsCompatible(types, table[key].sym, sym, topLevel)
    ensures LinkageMatch(if TakesOver(sym, table[key].sym) then table[key := Single(sym)] else table,
                         declared[key := declared[key] + [sym]], if topLevel then atTop + {sym} else atTop)
  {
    LinkageGrows(table, declared, atTop, sym);
    NextLinked(types, table[key].sym, declared[key], atTop, sym, topLevel);
  }

  /** At most one declaration that is not extern is made in an inner scope. */
  lemma OneDefinitionInScope(kept: Symbol, acc: seq<Symbol>, atTop: set<Symbol>, i: nat, j: nat)
    requires Linked(kept, acc, atTop) && DefinitionsComplete(acc)
    requires i < |acc| && j < |acc| && acc[i] !in atTop && acc[j] !in atTop
    requires !acc[i].storage.isExtern && !acc[j].storage.isExtern
    ensures i == j
  {
  }

  /** Without complete definitions linkage is lost: after any accepted declarations, an
      extern one displaces the definition exactly when that is incomplete and it is not. */
  lemma IncompleteDefinitionDisplaced(kept: Symbol, acc: seq<Symbol>, sym: Symbol)
    requires KeptIsDefinition(kept, acc) && kept in acc
    ensures KeptIsDefinition(if TakesOver(sym, kept) then sym else kept, acc + [sym])
            <==> (kept.storage.isExtern || !sym.storage.isExtern || kept.typ.complete || !sym.typ.complete)
  {
    var next := acc + [sym];
    assert kept in next && sym in next;
    assert forall s <- acc :: s in next;
  }
}
