/** Which of the declarations of a function or a tag is kept in the tables. */
module KeptDeclarations {
  import opened Symbols
  import opened Placement
  import opened Declarations
  import opened Registry

  /** The kept function is the first definition of the declarations, or the first of them
      when none is a definition. */
  ghost predicate KeepsFunction(kept: Symbol, all: seq<Symbol>) {
    && (kept.isDefinition <==> exists s <- all :: s.isDefinition)
    && exists i :: 0 <= i < |all| && all[i] == kept &&
         (if kept.isDefinition then forall j :: 0 <= j < i ==> !all[j].isDefinition else i == 0)
  }

  predicate CompleteOf(s: Symbol, kind: Kind) { s.kind == kind && s.typ.complete }

  /** The kept tag is of the family of the first.  It is the first complete one of the
      family, or the last one of it when none is complete. */
  ghost predicate KeepsTag(kept: Symbol, all: seq<Symbol>) {
    && all != [] && all[0].kind == kept.kind
    && (kept.typ.complete <==> exists s <- all :: CompleteOf(s, kept.kind))
    && exists i :: 0 <= i < |all| && all[i] == kept &&
         (if kept.typ.complete then forall j :: 0 <= j < i ==> !CompleteOf(all[j], kept.kind)
          else forall j :: i < j < |all| ==> all[j].kind != kept.kind)
  }

  ghost predicate Keeps(kept: Symbol, all: seq<Symbol>) {
    match kept.kind
    case FunctionKind => KeepsFunction(kept, all)
    case TagKind(_) => KeepsTag(kept, all)
    case _ => true
  }

  lemma FunctionNext(kept: Symbol, all: seq<Symbol>, sym: Symbol)
    requires KeepsFunction(kept, all)
    ensures !kept.isDefinition && sym.isDefinition ==> KeepsFunction(sym, all + [sym])
    ensures kept.isDefinition || !sym.isDefinition ==> KeepsFunction(kept, all + [sym])
  {
    var next := all + [sym];
    var i :| 0 <= i < |all| && all[i] == kept &&
             (if kept.isDefinition then forall j :: 0 <= j < i ==> !all[j].isDefinition else i == 0);
    assert next[i] == kept && next[|all|] == sym;
    assert forall s <- next :: s in all || s == sym;
    assert forall s <- all :: s in next;
    if !kept.isDefinition && sym.isDefinition {
      assert forall j :: 0 <= j < |all| ==> next[j] in all && !next[j].isDefinition;
    }
  }

  lemma TagNext(kept: Symbol, all: seq<Symbol>, sym: Symbol)
    requires KeepsTag(kept, all)
    ensures TagFate(kept, sym) == Supersedes ==> KeepsTag(sym, all + [sym])
    ensures TagFate(kept, sym) != Supersedes ==> KeepsTag(kept, all + [sym])
  {
    var next := all + [sym];
    var i :| 0 <= i < |all| && all[i] == kept &&
             (if kept.typ.complete then forall j :: 0 <= j < i ==> !CompleteOf(all[j], kept.kind)
              else forall j :: i < j < |all| ==> all[j].kind != kept.kind);
    assert next[i] == kept && next[|all|] == sym && next[0] == all[0];
    assert forall s <- next :: s in all || s == sym;
    assert forall s <- all :: s in next;
    if TagFate(kept, sym) == Supersedes {
      assert forall j :: 0 <= j < |all| ==> next[j] in all && !CompleteOf(next[j], sym.kind);
      assert sym in next && (sym.typ.complete <==> CompleteOf(sym, sym.kind));
      assert forall s <- next :: CompleteOf(s, sym.kind) ==> s == sym;
    }
  }

  // ---------------------------------------------------------------------
  // All the symbols in the tables
  // ---------------------------------------------------------------------

  /** Each symbol in a table is the kept one of its entity, and no other of the entity is
      in a table. */
  ghost predicate KeptIn(home: set<Symbol>, groups: Groups) {
    forall s <- home :: s in groups && Keeps(s, groups[s]) && OnlyOne(s, home, groups[s])
  }

  ghost predicate OnlyOne(s: Symbol, home: set<Symbol>, all: seq<Symbol>) {
    forall t <- all :: t in home ==> t == s
  }

  ghost predicate Kept(r: Registry) {
    KeptIn(r.places.home.Keys, r.groups)
  }

  lemma AloneKept(home: set<Symbol>, groups: Groups, sym: Symbol)
    requires KeptIn(home, groups) && GroupsClosed(groups) && sym !in groups
    ensures KeptIn(home + {sym}, groups[sym := [sym]])
  {
    var now := groups[sym := [sym]];
    assert [sym][0] == sym;
    forall s <- home + {sym}
      ensures s in now && Keeps(s, now[s]) && OnlyOne(s, home + {sym}, now[s])
    {
      if s != sym {
        assert OnlyOne(s, home, groups[s]);
        assert forall t <- groups[s] :: t in groups;
      } else {
        assert forall x <- [sym] :: x == sym;
      }
    }
  }

  lemma JoinKept(home: set<Symbol>, groups: Groups, kept: Symbol, sym: Symbol)
    requires KeptIn(home, groups) && GroupsClosed(groups) && kept in home && sym !in groups && sym !in home
    requires Keeps(kept, groups[kept] + [sym])
    ensures KeptIn(home, JoinGroup(groups, kept, sym))
  {
    var now := JoinGroup(groups, kept, sym);
    forall s <- home
      ensures s in now && Keeps(s, now[s]) && OnlyOne(s, home, now[s])
    {
      assert OnlyOne(kept, home, groups[kept]) && OnlyOne(s, home, groups[s]);
      assert kept in groups[kept];
    }
  }

  lemma ReplaceKept(home: set<Symbol>, groups: Groups, kept: Symbol, sym: Symbol)
    requires KeptIn(home, groups) && GroupsClosed(groups) && kept in home && sym !in groups && sym !in home
    requires Keeps(sym, groups[kept] + [sym])
    ensures KeptIn(home - {kept} + {sym}, JoinGroup(groups, kept, sym))
  {
    var now, home' := JoinGroup(groups, kept, sym), home - {kept} + {sym};
    forall s <- home'
      ensures s in now && Keeps(s, now[s]) && OnlyOne(s, home', now[s])
    {
      assert OnlyOne(kept, home, groups[kept]);
      if s != sym {
        assert OnlyOne(s, home, groups[s]);
        assert s !in groups[kept];
        assert forall t <- groups[s] :: t in groups;
      }
    }
  }

  // ---------------------------------------------------------------------
  // The declarations
  // ---------------------------------------------------------------------

  lemma HeldIsHome(p: Places, slot: Slot, s: Symbol)
    requires p.Valid() && p.Holds(slot, s)
    ensures s in p.home
  {
  }

  lemma GroupsOf(r: Registry, log: seq<Diagnostic>, sym: Symbol)
    requires r.Valid(log) && sym !in r.places.offered
    ensures GroupsClosed(r.groups) && sym !in r.groups && sym !in r.places.home
    ensures r.places.Valid()
  {
  }

  lemma FirstKept(r: Registry, log: seq<Diagnostic>, sym: Symbol, now: Registry)
    requires r.Valid(log) && Kept(r) && sym !in r.places.offered
    requires now.groups == r.groups[sym := [sym]] && now.places.home.Keys == r.places.home.Keys + {sym}
    ensures Kept(now)
  {
    GroupsOf(r, log, sym);
    AloneKept(r.places.home.Keys, r.groups, sym);
  }

  /** A further declaration of `kept`: which of the two stays. */
  lemma LaterKept(r: Registry, log: seq<Diagnostic>, kept: Symbol, sym: Symbol, now: Registry)
    requires r.Valid(log) && Kept(r) && sym !in r.places.offered && kept in r.places.home && kept in r.groups
    requires now.groups == JoinGroup(r.groups, kept, sym)
    requires || (now.places.home.Keys == r.places.home.Keys && Keeps(kept, r.groups[kept] + [sym]))
             || (now.places.home.Keys == r.places.home.Keys - {kept} + {sym} && Keeps(sym, r.groups[kept] + [sym]))
    ensures Kept(now)
  {
    GroupsOf(r, log, sym);
    if now.places.home.Keys == r.places.home.Keys && Keeps(kept, r.groups[kept] + [sym]) {
      JoinKept(r.places.home.Keys, r.groups, kept, sym);
    } else {
      ReplaceKept(r.places.home.Keys, r.groups, kept, sym);
    }
  }

  lemma RefusedKept(r: Registry, sym: Symbol)
    requires Kept(r)
    ensures Kept(r.Refuse(sym))
  {
  }

  lemma NextFunctionKept(r: Registry, log: seq<Diagnostic>, key: string, kept: Symbol, sym: Symbol)
    requires r.Valid(log) && Kept(r) && sym !in r.places.offered && sym.kind == FunctionKind && kept.kind == FunctionKind
    requires key in r.places.table && r.places.table[key] == Single(kept) && kept in r.groups
    ensures Kept(r.NextFunction(key, kept, sym))
  {
    GroupsOf(r, log, sym);
    HeldIsHome(r.places, Ordinary(key), kept);
    assert KeepsFunction(kept, r.groups[kept]);
    FunctionNext(kept, r.groups[kept], sym);
    hide Kept, Registry.Valid, KeepsFunction, JoinGroup;
    match FunctionFate(kept, sym)
    case Aborts => RefusedKept(r, sym);
    case _ => LaterKept(r, log, kept, sym, r.NextFunction(key, kept, sym));
  }

  lemma NextOverloadKept(r: Registry, log: seq<Diagnostic>, key: string, i: nat, sym: Symbol)
    requires r.Valid(log) && Kept(r) && sym !in r.places.offered && sym.kind == FunctionKind
    requires i < |r.places.List(key)| && r.places.List(key)[i] in r.groups
    requires r.places.List(key)[i].kind == FunctionKind
    ensures Kept(r.NextOverload(key, i, sym))
  {
    var kept := r.places.List(key)[i];
    GroupsOf(r, log, sym);
    HeldIsHome(r.places, Mangled(key), kept);
    assert KeepsFunction(kept, r.groups[kept]);
    FunctionNext(kept, r.groups[kept], sym);
    hide Kept, Registry.Valid, KeepsFunction, JoinGroup;
    match OverloadFate(kept, sym)
    case Aborts => RefusedKept(r, sym);
    case _ => LaterKept(r, log, kept, sym, r.NextOverload(key, i, sym));
  }

  /** What a further declaration of a tag does to the places and the entity. */
  lemma NextTagStays(r: Registry, key: string, sym: Symbol)
    requires key in r.places.tags && r.places.tags[key] in r.groups && sym !in r.places.home
    ensures var kept, now := r.places.tags[key], r.NextTag(key, sym);
            && now.groups == JoinGroup(r.groups, kept, sym)
            && now.places.home.Keys ==
               if TagFate(kept, sym) == Supersedes then r.places.home.Keys - {kept} + {sym} else r.places.home.Keys
  {
    hide JoinGroup;
  }

  lemma NextTagKept(r: Registry, log: seq<Diagnostic>, key: string, sym: Symbol)
    requires r.Valid(log) && Kept(r) && sym !in r.places.offered && sym.kind.TagKind?
    requires key in r.places.tags && r.places.tags[key] in r.groups && r.places.tags[key].kind.TagKind?
    ensures Kept(r.NextTag(key, sym))
  {
    var kept := r.places.tags[key];
    GroupsOf(r, log, sym);
    HeldIsHome(r.places, Tag(key), kept);
    assert KeepsTag(kept, r.groups[kept]);
    TagNext(kept, r.groups[kept], sym);
    NextTagStays(r, key, sym);
    hide Kept, Registry.Valid, Registry.NextTag, TagFate, KeepsTag, JoinGroup;
    LaterKept(r, log, kept, sym, r.NextTag(key, sym));
  }

  lemma NextObjectKept(r: Registry, log: seq<Diagnostic>, key: string, sym: Symbol, topLevel: bool)
    requires r.Valid(log) && Kept(r) && sym !in r.places.offered && sym.kind == ObjectKind
    requires IsObject(r.places.table, key) && key in r.declared && r.places.table[key].sym in r.groups
    ensures Kept(r.NextObject(key, sym, topLevel))
  {
    var kept := r.places.table[key].sym;
    GroupsOf(r, log, sym);
    HeldIsHome(r.places, Ordinary(key), kept);
    hide Kept, Registry.Valid, JoinGroup;
    LaterKept(r, log, kept, sym, r.NextObject(key, sym, topLevel));
  }

  /** Declaring an object, and all other declarations, keep the kept ones. */
  lemma AddObjectKept(types: TypeRules, r: Registry, log: seq<Diagnostic>, key: string, sym: Symbol, topLevel: bool)
    requires r.Valid(log) && Kept(r) && sym !in r.places.offered && sym.kind == ObjectKind
    ensures Kept(r.AddObject(types, key, sym, topLevel))
  {
    hide Kept, Registry.Valid, Registry.NextObject, Registry.Refuse, ObjectsCompatible;
    if key !in r.places.table {
      FirstKept(r, log, sym, r.FirstObject(key, sym, topLevel));
    } else if IsObject(r.places.table, key) && key in r.declared && r.places.table[key].sym in r.groups {
      NextObjectKept(r, log, key, sym, topLevel);
      RefusedKept(r, sym);
    } else {
      RefusedKept(r, sym);
    }
  }

  lemma AddOnceKept(r: Registry, log: seq<Diagnostic>, key: string, sym: Symbol)
    requires r.Valid(log) && Kept(r) && sym !in r.places.offered
    requires sym.kind == EnumConstantKind || sym.kind == TypedefKind
    ensures Kept(r.AddOnce(key, sym))
  {
    hide Kept, Registry.Valid, Registry.Refuse;
    if key in r.places.table {
      RefusedKept(r, sym);
    } else {
      FirstKept(r, log, sym, r.AddOnce(key, sym));
    }
  }

  lemma AddTagKept(r: Registry, log: seq<Diagnostic>, key: string, sym: Symbol)
    requires r.Valid(log) && Kept(r) && sym !in r.places.offered && sym.kind.TagKind?
    ensures Kept(r.AddTag(key, sym))
  {
    hide Kept, Registry.Valid, Registry.Refuse, Registry.NextTag;
    if key in r.places.tags {
      TagGrouped(r, log, key);
      NextTagKept(r, log, key, sym);
    } else {
      FirstKept(r, log, sym, r.AddTag(key, sym));
    }
  }

  lemma AddFunctionKept(types: TypeRules, r: Registry, log: seq<Diagnostic>, key: string, sym: Symbol)
    requires r.Valid(log) && Kept(r) && sym !in r.places.offered && sym.kind == FunctionKind
    ensures Kept(r.AddFunction(types, key, sym))
  {
    hide Kept, Registry.Valid, Registry.Refuse, Registry.NextFunction, Registry.NextOverload, FirstEquivalent;
    if key !in r.places.table {
      FirstKept(r, log, sym, r.AddFunction(types, key, sym));
    } else {
      match r.places.table[key]
      case Single(kept) =>
        if kept.kind == FunctionKind && kept in r.groups {
          NextFunctionKept(r, log, key, kept, sym);
        } else {
          RefusedKept(r, sym);
        }
      case Overloads(list) =>
        var i := FirstEquivalent(types, list, sym.typ);
        if i == |list| {
          FirstKept(r, log, sym, r.AddFunction(types, key, sym));
        } else {
          OverloadGrouped(r, log, key, i);
          NextOverloadKept(r, log, key, i, sym);
        }
    }
  }
}
