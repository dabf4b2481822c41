/** The abstract state of the symbol table, and that every kind of declaration
    keeps it consistent. */
module Registry {
  import opened Symbols
  import opened Placement
  import opened Declarations

  /** Lists hold functions and the tag table holds tags. */
  ghost predicate KindsFit(p: Places) {
    && (forall k | k in p.table && p.table[k].Overloads? :: forall s <- p.table[k].list :: s.kind == FunctionKind)
    && (forall k <- p.tags :: p.tags[k].kind.TagKind?)
  }

  /** Where each symbol is, the entities they declare, the accepted declarations
      of each object and the symbols declared at top level. */
  datatype Registry = Registry(places: Places, groups: Groups, declared: Declared, atTop: set<Symbol>)
  {
    /** Every placed symbol is a declaration of some entity. */
    ghost predicate GroupsCover() {
      && groups.Keys <= places.offered
      && (forall s <- places.offered :: places.Placed(s) ==> s in groups)
    }

    /** Objects are declared again only as objects. */
    ghost predicate ObjectsApart() {
      forall s <- groups :: forall t <- groups[s] :: s.kind == ObjectKind <==> t.kind == ObjectKind
    }

    ghost predicate Valid(log: seq<Diagnostic>) {
      && places.Valid()
      && KindsFit(places)
      && GroupsClosed(groups)
      && GroupsCover()
      && ObjectsApart()
      && Accounted(places, log)
      && DeclaredMatch(places.table, groups, declared)
      && LinkageMatch(places.table, declared, atTop)
    }

    ghost function Top(sym: Symbol, topLevel: bool): set<Symbol> {
      if topLevel then atTop + {sym} else atTop
    }

    // Objects

    ghost function FirstObject(key: string, sym: Symbol, topLevel: bool): Registry {
      Registry(places.PutOrdinary(key, sym), groups[sym := [sym]], declared[key := [sym]], Top(sym, topLevel))
    }

    ghost function NextObject(key: string, sym: Symbol, topLevel: bool): Registry
      requires IsObject(places.table, key) && key in declared && places.table[key].sym in groups
    {
      var kept := places.table[key].sym;
      Registry(if TakesOver(sym, kept) then places.Flush(kept).PutOrdinary(key, sym) else places.Flush(sym),
               JoinGroup(groups, kept, sym), declared[key := declared[key] + [sym]], Top(sym, topLevel))
    }

    // Everything else

    ghost function First(sym: Symbol, now: Places): Registry {
      this.(places := now, groups := groups[sym := [sym]])
    }

    ghost function Later(kept: Symbol, sym: Symbol, now: Places): Registry
      requires kept in groups
    {
      this.(places := now, groups := JoinGroup(groups, kept, sym))
    }

    /** What a further declaration of a function does. */
    ghost function NextFunction(key: string, kept: Symbol, sym: Symbol): Registry
      requires kept in groups
    {
      match FunctionFate(kept, sym)
      case Aborts => Refuse(sym)
      case Clashes => Later(kept, sym, places.Reject(sym))
      case Supersedes => Later(kept, sym, places.Flush(kept).PutOrdinary(key, sym))
      case Repeats => Later(kept, sym, places.Flush(sym))
    }

    /** What a further declaration of the i-th mangled function of `key` does. */
    ghost function NextOverload(key: string, i: nat, sym: Symbol): Registry
      requires i < |places.List(key)| && places.List(key)[i] in groups
    {
      var kept := places.List(key)[i];
      match OverloadFate(kept, sym)
      case Aborts => Refuse(sym)
      case Clashes => Later(kept, sym, places.Reject(sym))
      case Supersedes => Later(kept, sym, places.Unlist(key, i).AddMangled(key, sym))
      case Repeats => Later(kept, sym, places.Flush(sym))
    }

    /** What a further declaration of a tag does. */
    ghost function NextTag(key: string, sym: Symbol): Registry
      requires key in places.tags && places.tags[key] in groups
    {
      var kept := places.tags[key];
      match TagFate(kept, sym)
      case Aborts => Refuse(sym)
      case Clashes => Later(kept, sym, places.Reject(sym))
      case Supersedes => Later(kept, sym, places.Flush(kept).PutTag(key, sym))
      case Repeats => Later(kept, sym, places.Flush(sym))
    }

    // The declarations

    ghost function AddObject(types: TypeRules, key: string, sym: Symbol, topLevel: bool): Registry {
      if key !in places.table then FirstObject(key, sym, topLevel)
      else if IsObject(places.table, key) && key in declared && places.table[key].sym in groups &&
              ObjectsCompatible(types, places.table[key].sym, sym, topLevel)
      then NextObject(key, sym, topLevel)
      else Refuse(sym)
    }

    ghost function AddOnce(key: string, sym: Symbol): Registry {
      if key !in places.table then First(sym, places.PutOrdinary(key, sym)) else Refuse(sym)
    }

    ghost function AddTag(key: string, sym: Symbol): Registry {
      if key !in places.tags then First(sym, places.PutTag(key, sym))
      else if places.tags[key] in groups then NextTag(key, sym)
      else Refuse(sym)
    }

    ghost function AddFunction(types: TypeRules, key: string, sym: Symbol): Registry {
      if key !in places.table then
        First(sym, if sym.isMangled then places.AddMangled(key, sym) else places.PutOrdinary(key, sym))
      else
        match places.table[key]
        case Single(kept) =>
          if kept.kind == FunctionKind && kept in groups then NextFunction(key, kept, sym) else Refuse(sym)
        case Overloads(list) =>
          var i := FirstEquivalent(types, list, sym.typ);
          if i == |list| then First(sym, places.AddMangled(key, sym))
          else if list[i] in groups then NextOverload(key, i, sym)
          else Refuse(sym)
    }

    ghost function Refuse(sym: Symbol): Registry {
      this.(places := places.Reject(sym))
    }
  }

  lemma ValidPlaces(r: Registry, log: seq<Diagnostic>)
    requires r.Valid(log)
    ensures r.places.Valid() && KindsFit(r.places) && r.GroupsCover()
  {
  }

  lemma FirstObjectValid(r: Registry, log: seq<Diagnostic>, key: string, sym: Symbol, topLevel: bool)
    requires r.Valid(log) && sym !in r.places.offered && key !in r.places.table && sym.kind == ObjectKind
    ensures r.FirstObject(key, sym, topLevel).Valid(log)
  {
    PutOrdinaryValid(r.places, key, sym);
    FirstMatches(r.places.table, r.groups, r.declared, key, sym);
    FirstLinkage(r.places.table, r.declared, r.atTop, key, sym, topLevel);
    AccountedMore(r.places, r.places.PutOrdinary(key, sym), log, [], sym);
    assert log + [] == log;
    AloneClosed(r.groups, sym);
  }

  /** Joining an entity covers the new symbol. */
  lemma JoinedCover(r: Registry, kept: Symbol, sym: Symbol, now: Places)
    requires GroupsClosed(r.groups) && r.GroupsCover() && r.ObjectsApart()
    requires sym !in r.places.offered && kept in r.groups && (kept.kind == ObjectKind <==> sym.kind == ObjectKind)
    requires now.offered == r.places.offered + {sym}
    requires forall s <- r.places.offered :: r.places.Placed(s) <==> now.Placed(s)
    ensures r.Later(kept, sym, now).GroupsCover() && r.Later(kept, sym, now).ObjectsApart()
    ensures GroupsClosed(r.Later(kept, sym, now).groups)
  {
    JoinGroupClosed(r.groups, kept, sym);
  }

  /** What becomes of the places when an object is declared again. */
  lemma NextPlaces(p: Places, key: string, sym: Symbol, supersedes: bool)
    requires p.Valid() && sym !in p.offered && key in p.table && p.table[key].Single?
    ensures var kept := p.table[key].sym;
            var now := if supersedes then p.Flush(kept).PutOrdinary(key, sym) else p.Flush(sym);
            && now.Valid() && now.offered == p.offered + {sym} && now.Placed(sym)
            && now.table == (if supersedes then p.table[key := Single(sym)] else p.table)
            && (forall s <- p.offered :: p.Placed(s) <==> now.Placed(s))
  {
    SupersedeValid(p, key, sym);
    FlushNewValid(p, sym);
    assert p.Holds(Ordinary(key), p.table[key].sym);
  }

  lemma NextObjectValid(r: Registry, log: seq<Diagnostic>, types: TypeRules, key: string, sym: Symbol, topLevel: bool)
    requires r.Valid(log) && sym !in r.places.offered && sym.kind == ObjectKind && IsObject(r.places.table, key)
    requires ObjectsCompatible(types, r.places.table[key].sym, sym, topLevel)
    ensures key in r.declared && r.places.table[key].sym in r.groups
    ensures r.NextObject(key, sym, topLevel).Valid(log)
  {
    var kept := r.places.table[key].sym;
    var next := r.NextObject(key, sym, topLevel);
    NextPlaces(r.places, key, sym, TakesOver(sym, kept));
    assert DeclaredMatch(next.places.table, next.groups, next.declared) by {
      NextMatches(r.places.table, r.groups, r.declared, key, sym);
    }
    assert LinkageMatch(next.places.table, next.declared, next.atTop) by {
      NextLinkage(types, r.places.table, r.groups, r.declared, r.atTop, key, sym, topLevel);
    }
    assert Accounted(next.places, log) by {
      AccountedMore(r.places, next.places, log, [], sym);
      assert log + [] == log;
    }
    JoinedCover(r, kept, sym, next.places);
    assert next.ObjectsApart() by { assert r.Later(kept, sym, next.places).ObjectsApart(); }
  }

  lemma RefuseValid(r: Registry, log: seq<Diagnostic>, severity: Severity, sym: Symbol)
    requires r.Valid(log) && sym !in r.places.offered
    ensures r.Refuse(sym).Valid(log + [Diagnostic(severity, sym)])
  {
    RejectValid(r.places, sym);
    assert Diagnostic(severity, sym) in [Diagnostic(severity, sym)];
    AccountedMore(r.places, r.places.Reject(sym), log, [Diagnostic(severity, sym)], sym);
  }

  lemma {:induction false} LongerLog(r: Registry, log: seq<Diagnostic>, longer: seq<Diagnostic>)
    requires r.Valid(log) && log <= longer
    ensures r.Valid(longer)
  {
    forall s <- r.places.offered ensures r.places.Placed(s) || Reported(longer, s) {
      if Reported(log, s) {
        var e :| e in log && e.about == s;
        assert e in longer;
      }
    }
  }

  /** The places `now` are `was` with `sym` declared, and with the same objects. */
  ghost predicate OneMore(was: Places, now: Places, sym: Symbol) {
    && now.Valid()
    && KindsFit(now)
    && now.offered == was.offered + {sym}
    && (forall s <- was.offered :: was.Placed(s) <==> now.Placed(s))
    && SameObjects(was.table, now.table)
  }

  lemma FirstValid(r: Registry, log: seq<Diagnostic>, sym: Symbol, now: Places)
    requires r.Valid(log) && sym !in r.places.offered && OneMore(r.places, now, sym) && now.Placed(sym)
    ensures r.First(sym, now).Valid(log)
  {
    OtherFirstMatches(r.places.table, now.table, r.groups, r.declared, sym);
    OthersLinkage(r.places.table, now.table, r.declared, r.atTop);
    AccountedMore(r.places, now, log, [], sym);
    assert log + [] == log;
    AloneClosed(r.groups, sym);
  }

  lemma LaterValid(r: Registry, log: seq<Diagnostic>, kept: Symbol, sym: Symbol, now: Places)
    requires r.Valid(log) && sym !in r.places.offered && OneMore(r.places, now, sym)
    requires now.Placed(sym) || Reported(log, sym)
    requires kept in r.groups && kept.kind != ObjectKind && sym.kind != ObjectKind
    ensures r.Later(kept, sym, now).Valid(log)
  {
    OthersMatch(r.places.table, now.table, r.groups, r.declared, kept, sym);
    OthersLinkage(r.places.table, now.table, r.declared, r.atTop);
    JoinedCover(r, kept, sym, now);
  }

  // The places after each kind of declaration that is not of an object

  lemma OneMoreFirst(p: Places, key: string, sym: Symbol)
    requires p.Valid() && KindsFit(p) && sym !in p.offered && key !in p.table && sym.kind != ObjectKind
    ensures OneMore(p, p.PutOrdinary(key, sym), sym) && p.PutOrdinary(key, sym).Placed(sym)
  {
    PutOrdinaryValid(p, key, sym);
  }

  lemma OneMoreOverload(p: Places, key: string, sym: Symbol)
    requires p.Valid() && KindsFit(p) && sym !in p.offered && (key in p.table ==> p.table[key].Overloads?)
    requires sym.kind == FunctionKind
    ensures OneMore(p, p.AddMangled(key, sym), sym) && p.AddMangled(key, sym).Placed(sym)
  {
    AddMangledValid(p, key, sym);
  }

  lemma OneMoreTag(p: Places, key: string, sym: Symbol)
    requires p.Valid() && KindsFit(p) && sym !in p.offered && key !in p.tags && sym.kind.TagKind?
    ensures OneMore(p, p.PutTag(key, sym), sym) && p.PutTag(key, sym).Placed(sym)
  {
    PutTagValid(p, key, sym);
  }

  lemma OneMoreFlushed(p: Places, sym: Symbol)
    requires p.Valid() && KindsFit(p) && sym !in p.offered
    ensures OneMore(p, p.Flush(sym), sym) && p.Flush(sym).Placed(sym)
  {
    FlushNewValid(p, sym);
  }

  lemma OneMoreRejected(p: Places, sym: Symbol)
    requires p.Valid() && KindsFit(p) && sym !in p.offered
    ensures OneMore(p, p.Reject(sym), sym)
  {
    RejectValid(p, sym);
  }

  lemma OneMoreSupersede(p: Places, key: string, sym: Symbol)
    requires p.Valid() && KindsFit(p) && sym !in p.offered && sym.kind != ObjectKind
    requires key in p.table && p.table[key].Single? && p.table[key].sym.kind != ObjectKind
    ensures OneMore(p, p.Flush(p.table[key].sym).PutOrdinary(key, sym), sym)
    ensures p.Flush(p.table[key].sym).PutOrdinary(key, sym).Placed(sym)
  {
    SupersedeValid(p, key, sym);
    assert p.Holds(Ordinary(key), p.table[key].sym);
  }

  lemma OneMoreSupersedeTag(p: Places, key: string, sym: Symbol)
    requires p.Valid() && KindsFit(p) && sym !in p.offered && key in p.tags && sym.kind.TagKind?
    ensures OneMore(p, p.Flush(p.tags[key]).PutTag(key, sym), sym)
    ensures p.Flush(p.tags[key]).PutTag(key, sym).Placed(sym)
  {
    SupersedeTagValid(p, key, sym);
    assert p.Holds(Tag(key), p.tags[key]);
  }

  lemma OneMoreRedefine(p: Places, key: string, i: nat, sym: Symbol)
    requires p.Valid() && KindsFit(p) && sym !in p.offered && i < |p.List(key)| && sym.kind == FunctionKind
    ensures OneMore(p, p.Unlist(key, i).AddMangled(key, sym), sym)
    ensures p.Unlist(key, i).AddMangled(key, sym).Placed(sym)
  {
    var q := p.Unlist(key, i);
    var f := p.List(key)[i];
    assert p.Holds(Mangled(key), f);
    UnlistValid(p, key, i);
    AddMangledValid(q, key, sym);
    assert q.offered == p.offered;
  }

  // A symbol found in a table belongs to an entity

  lemma TableSymbolGrouped(r: Registry, log: seq<Diagnostic>, key: string)
    requires r.Valid(log) && key in r.places.table && r.places.table[key].Single?
    ensures r.places.table[key].sym in r.groups
  {
    assert r.places.Holds(Ordinary(key), r.places.table[key].sym);
  }

  lemma OverloadGrouped(r: Registry, log: seq<Diagnostic>, key: string, i: nat)
    requires r.Valid(log) && i < |r.places.List(key)|
    ensures r.places.List(key)[i] in r.groups && r.places.List(key)[i].kind == FunctionKind
  {
    assert r.places.Holds(Mangled(key), r.places.List(key)[i]);
  }

  lemma TagGrouped(r: Registry, log: seq<Diagnostic>, key: string)
    requires r.Valid(log) && key in r.places.tags
    ensures r.places.tags[key] in r.groups && r.places.tags[key].kind.TagKind?
  {
    assert r.places.Holds(Tag(key), r.places.tags[key]);
  }

  // A further declaration keeps the registry valid once it is reported

  lemma NextFunctionValid(r: Registry, log: seq<Diagnostic>, key: string, kept: Symbol, sym: Symbol)
    requires r.Valid(log) && sym !in r.places.offered && kept.kind == FunctionKind && sym.kind == FunctionKind
    requires key in r.places.table && r.places.table[key] == Single(kept) && kept in r.groups
    requires FunctionFate(kept, sym) == Aborts || FunctionFate(kept, sym) == Clashes ==> Reported(log, sym)
    ensures r.NextFunction(key, kept, sym).Valid(log)
  {
    match FunctionFate(kept, sym)
    case Aborts => ReportedRefused(r, log, sym);
    case Clashes =>
      OneMoreRejected(r.places, sym);
      LaterValid(r, log, kept, sym, r.places.Reject(sym));
    case Supersedes =>
      OneMoreSupersede(r.places, key, sym);
      LaterValid(r, log, kept, sym, r.places.Flush(kept).PutOrdinary(key, sym));
    case Repeats =>
      OneMoreFlushed(r.places, sym);
      LaterValid(r, log, kept, sym, r.places.Flush(sym));
  }

  lemma NextOverloadValid(r: Registry, log: seq<Diagnostic>, key: string, i: nat, sym: Symbol)
    requires r.Valid(log) && sym !in r.places.offered && sym.kind == FunctionKind
    requires i < |r.places.List(key)| && r.places.List(key)[i] in r.groups
    requires r.places.List(key)[i].kind == FunctionKind
    requires var fate := OverloadFate(r.places.List(key)[i], sym);
             fate == Aborts || fate == Clashes ==> Reported(log, sym)
    ensures r.NextOverload(key, i, sym).Valid(log)
  {
    var kept := r.places.List(key)[i];
    match OverloadFate(kept, sym)
    case Aborts => ReportedRefused(r, log, sym);
    case Clashes =>
      OneMoreRejected(r.places, sym);
      LaterValid(r, log, kept, sym, r.places.Reject(sym));
    case Supersedes =>
      OneMoreRedefine(r.places, key, i, sym);
      LaterValid(r, log, kept, sym, r.places.Unlist(key, i).AddMangled(key, sym));
    case Repeats =>
      OneMoreFlushed(r.places, sym);
      LaterValid(r, log, kept, sym, r.places.Flush(sym));
  }

  lemma NextTagValid(r: Registry, log: seq<Diagnostic>, key: string, sym: Symbol)
    requires r.Valid(log) && sym !in r.places.offered && sym.kind.TagKind?
    requires key in r.places.tags && r.places.tags[key] in r.groups && r.places.tags[key].kind.TagKind?
    requires TagFate(r.places.tags[key], sym) == Clashes ==> Reported(log, sym)
    ensures r.NextTag(key, sym).Valid(log)
  {
    var kept := r.places.tags[key];
    match TagFate(kept, sym)
    case Aborts =>
    case Clashes =>
      OneMoreRejected(r.places, sym);
      LaterValid(r, log, kept, sym, r.places.Reject(sym));
    case Supersedes =>
      OneMoreSupersedeTag(r.places, key, sym);
      LaterValid(r, log, kept, sym, r.places.Flush(kept).PutTag(key, sym));
    case Repeats =>
      OneMoreFlushed(r.places, sym);
      LaterValid(r, log, kept, sym, r.places.Flush(sym));
  }

  lemma ReportedRefused(r: Registry, log: seq<Diagnostic>, sym: Symbol)
    requires r.Valid(log) && sym !in r.places.offered && Reported(log, sym)
    ensures r.Refuse(sym).Valid(log)
  {
    RejectValid(r.places, sym);
  }

  /** A declared function against the list of its key. */
  lemma OverloadAdded(r: Registry, types: TypeRules, key: string, list: seq<Symbol>, sym: Symbol)
    requires key in r.places.table && r.places.table[key] == Overloads(list)
    ensures var i := FirstEquivalent(types, list, sym.typ);
            && (i == |list| ==> r.AddFunction(types, key, sym) == r.First(sym, r.places.AddMangled(key, sym)))
            && (i < |list| && list[i] in r.groups ==> r.AddFunction(types, key, sym) == r.NextOverload(key, i, sym))
  {
  }

  // ---------------------------------------------------------------------
  // A declaration binds its key and no other
  // ---------------------------------------------------------------------

  ghost predicate Binds<T>(was: map<string, T>, now: map<string, T>, key: string) {
    key in now && now == was[key := now[key]]
  }

  lemma AddObjectBinds(r: Registry, types: TypeRules, key: string, sym: Symbol, topLevel: bool)
    requires r.GroupsCover()
    ensures var now := r.AddObject(types, key, sym, topLevel);
            Binds(r.places.table, now.places.table, key) && now.places.tags == r.places.tags &&
            now.places.offered == r.places.offered + {sym}
  {
    hide JoinGroup;
  }

  lemma AddOnceBinds(r: Registry, key: string, sym: Symbol)
    ensures var now := r.AddOnce(key, sym);
            Binds(r.places.table, now.places.table, key) && now.places.tags == r.places.tags &&
            now.places.offered == r.places.offered + {sym} &&
            now.declared == r.declared && now.atTop == r.atTop
  {
  }

  lemma AddTagBinds(r: Registry, key: string, sym: Symbol)
    requires r.GroupsCover()
    ensures var now := r.AddTag(key, sym);
            Binds(r.places.tags, now.places.tags, key) && now.places.table == r.places.table &&
            now.places.offered == r.places.offered + {sym} &&
            now.declared == r.declared && now.atTop == r.atTop
  {
    hide JoinGroup;
  }

  lemma NextFunctionBinds(r: Registry, key: string, kept: Symbol, sym: Symbol)
    requires r.GroupsCover() && kept in r.groups && key in r.places.table && r.places.table[key] == Single(kept)
    ensures Bound(r, r.NextFunction(key, kept, sym), key, sym)
  {
    hide JoinGroup;
  }

  lemma NextOverloadBinds(r: Registry, key: string, i: nat, sym: Symbol)
    requires r.GroupsCover() && i < |r.places.List(key)| && r.places.List(key)[i] in r.groups
    ensures Bound(r, r.NextOverload(key, i, sym), key, sym)
  {
    hide JoinGroup;
  }

  ghost predicate Bound(r: Registry, now: Registry, key: string, sym: Symbol) {
    Binds(r.places.table, now.places.table, key) && now.places.tags == r.places.tags &&
    now.places.offered == r.places.offered + {sym} && now.declared == r.declared && now.atTop == r.atTop
  }

  lemma AddFunctionBinds(r: Registry, types: TypeRules, key: string, sym: Symbol)
    requires r.GroupsCover()
    ensures Bound(r, r.AddFunction(types, key, sym), key, sym)
  {
    hide JoinGroup, FirstEquivalent, FunctionFate, OverloadFate;
    if key in r.places.table {
      match r.places.table[key]
      case Single(kept) =>
        if kept.kind == FunctionKind && kept in r.groups {
          hide Bound;
          NextFunctionBinds(r, key, kept, sym);
        }
      case Overloads(list) =>
        var i := FirstEquivalent(types, list, sym.typ);
        if i < |list| && list[i] in r.groups {
          hide Bound;
          NextOverloadBinds(r, key, i, sym);
        }
    }
  }
}
