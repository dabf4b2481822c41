/** Symbols and the shared "brothers" vector that links the declarations of one
    entity. */
module Symbols {

  /** What the symbol table asks of a type; `complete` is its completeness when
      the symbol is declared. */
  datatype TypeInfo = TypeInfo(id: nat, complete: bool)

  datatype Family = StructFamily | UnionFamily | EnumFamily

  datatype Kind =
    | ObjectKind
    | EnumConstantKind
    | TypedefKind
    | FunctionKind
    | TagKind(family: Family)

  datatype Storage = Storage(isExtern: bool, isStatic: bool, isRegister: bool, isAuto: bool, isInline: bool)

  /** A vector of symbols, aliased by every symbol it lists. */
  class BrotherVector {
    var elems: seq<Symbol>

    constructor (elems: seq<Symbol>)
      ensures this.elems == elems
    {
      this.elems := elems;
    }
  }

  class Symbol {
    const kind: Kind
    const name: string
    const storage: Storage
    const typ: TypeInfo
    const isDefinition: bool
    const isMangled: bool
    const isExternalBuiltin: bool

    var scopeDepth: int
    var brothers: BrotherVector?

    constructor (kind: Kind, name: string, storage: Storage, typ: TypeInfo,
                 isDefinition: bool, isMangled: bool, isExternalBuiltin: bool)
      ensures this.kind == kind && this.name == name && this.storage == storage && this.typ == typ
      ensures this.isDefinition == isDefinition && this.isMangled == isMangled
      ensures this.isExternalBuiltin == isExternalBuiltin
      ensures brothers == null && scopeDepth == 0
    {
      this.kind, this.name, this.storage, this.typ := kind, name, storage, typ;
      this.isDefinition, this.isMangled, this.isExternalBuiltin := isDefinition, isMangled, isExternalBuiltin;
      scopeDepth, brothers := 0, null;
    }
  }

  /** What the ordinary name space holds for a key: one symbol, or the list of
      the mangled functions of that name. */
  datatype Entry = Single(sym: Symbol) | Overloads(list: seq<Symbol>)

  ghost predicate Distinct<T>(s: seq<T>) {
    forall i, j :: 0 <= i < j < |s| ==> s[i] != s[j]
  }

  /** Which symbols are declarations of the same entity, in declaration order. */
  type Groups = map<Symbol, seq<Symbol>>

  ghost predicate GroupsClosed(groups: Groups) {
    forall s <- groups ::
      s in groups[s] && Distinct(groups[s]) &&
      forall t <- groups[s] :: t in groups && groups[t] == groups[s]
  }

  /** A lone declaration has no vector; two or more declarations of one entity
      share one vector, which lists exactly them in declaration order. */
  ghost predicate GroupsLinked(groups: Groups, vectors: set<BrotherVector>)
    reads groups.Keys`brothers, vectors
  {
    && GroupsClosed(groups)
    && (forall s <- groups :: groups[s] == [s] <==> s.brothers == null)
    && (forall s <- groups :: s.brothers != null ==> s.brothers in vectors && s.brothers.elems == groups[s])
    && (forall s <- groups :: forall t <- groups[s] :: t.brothers == s.brothers)
  }

  /** The declarations of one entity share one vector; vectors of different
      entities are different objects. */
  lemma VectorsShared(groups: Groups, vectors: set<BrotherVector>, s: Symbol, t: Symbol)
    requires GroupsLinked(groups, vectors) && s in groups && t in groups && s.brothers != null
    ensures s.brothers == t.brothers <==> t in groups[s]
    ensures s.brothers.elems == groups[s] && groups[s] != [s]
  {
  }

  lemma VectorKnown(groups: Groups, vectors: set<BrotherVector>, s: Symbol)
    requires GroupsLinked(groups, vectors) && s in groups
    ensures s.brothers != null ==> s.brothers in vectors
  {
  }

  lemma AloneClosed(groups: Groups, sym: Symbol)
    requires GroupsClosed(groups) && sym !in groups
    ensures GroupsClosed(groups[sym := [sym]])
  {
  }

  lemma AloneLinked(groups: Groups, vectors: set<BrotherVector>, sym: Symbol)
    requires GroupsLinked(groups, vectors) && sym !in groups && sym.brothers == null
    ensures GroupsLinked(groups[sym := [sym]], vectors)
  {
  }

  ghost function JoinGroup(groups: Groups, kept: Symbol, sym: Symbol): Groups
    requires kept in groups
  {
    var g := groups[kept] + [sym];
    map s | s in groups.Keys + {sym} :: if s in g then g else groups[s]
  }

  lemma JoinGroupClosed(groups: Groups, kept: Symbol, sym: Symbol)
    requires GroupsClosed(groups) && kept in groups && sym !in groups
    ensures GroupsClosed(JoinGroup(groups, kept, sym))
  {
    var g := groups[kept] + [sym];
    var joined := JoinGroup(groups, kept, sym);
    assert Distinct(g);
    forall s <- joined
      ensures s in joined[s] && Distinct(joined[s])
      ensures forall t <- joined[s] :: t in joined && joined[t] == joined[s]
    {
      if s !in g {
        forall t <- groups[s] ensures t !in g {
          assert groups[t] == groups[s];
        }
      }
    }
  }

  /** The vector of one symbol. */
  ghost predicate LinkedAt(groups: Groups, vectors: set<BrotherVector>, s: Symbol)
    requires s in groups && forall t <- groups[s] :: t in groups
    reads groups.Keys`brothers, vectors
  {
    && (groups[s] == [s] <==> s.brothers == null)
    && (s.brothers != null ==> s.brothers in vectors && s.brothers.elems == groups[s])
    && forall t <- groups[s] :: t.brothers == s.brothers
  }

  /** The vectors of all entities but that of `kept`. */
  ghost predicate OthersLinked(groups: Groups, vectors: set<BrotherVector>, kept: Symbol)
    requires GroupsClosed(groups) && kept in groups
    reads groups.Keys`brothers, vectors
  {
    forall s <- groups :: s !in groups[kept] ==> LinkedAt(groups, vectors, s)
  }

  lemma LinkedOthers(groups: Groups, vectors: set<BrotherVector>, kept: Symbol)
    requires GroupsLinked(groups, vectors) && kept in groups
    ensures OthersLinked(groups, vectors, kept)
    ensures forall s <- groups :: s !in groups[kept] && s.brothers != null ==> s.brothers != kept.brothers
    ensures groups[kept] == [kept] <==> kept.brothers == null
  {
  }

  /** With one vector for the joined entity, and the others as they were, all are linked. */
  lemma JoinedLinked(groups: Groups, vectors: set<BrotherVector>, kept: Symbol, sym: Symbol, v: BrotherVector)
    requires GroupsClosed(groups) && kept in groups && sym !in groups
    requires OthersLinked(groups, vectors, kept)
    requires v.elems == groups[kept] + [sym] && forall s <- v.elems :: s.brothers == v
    ensures GroupsLinked(JoinGroup(groups, kept, sym), vectors + {v})
  {
    JoinGroupClosed(groups, kept, sym);
    var g, joined := v.elems, JoinGroup(groups, kept, sym);
    forall s <- joined
      ensures LinkedAt(joined, vectors + {v}, s)
    {
      if s in g {
        assert joined[s] == g && |g| >= 2;
      } else {
        assert LinkedAt(groups, vectors, s) && joined[s] == groups[s];
      }
    }
  }

  /** Makes `sym` the next declaration of the entity `kept` declares. */
  method LinkBrothers(kept: Symbol, sym: Symbol, ghost groups: Groups, ghost vectors: set<BrotherVector>)
    returns (v: BrotherVector)
    requires GroupsLinked(groups, vectors) && kept in groups && sym !in groups && sym.brothers == null
    modifies kept`brothers, kept.brothers, sym`brothers
    ensures GroupsLinked(JoinGroup(groups, kept, sym), vectors + {v})
    ensures if old(kept.brothers) == null then fresh(v) else v == old(kept.brothers)
  {
    LinkedOthers(groups, vectors, kept);
    if kept.brothers == null {
      v := LinkFirst(kept, sym, groups, vectors);
    } else {
      v := LinkFurther(kept, sym, groups, vectors);
    }
    hide GroupsLinked, OthersLinked;
    JoinedLinked(groups, vectors, kept, sym, v);
  }

  /** Two declarations get a new vector. */
  method LinkFirst(kept: Symbol, sym: Symbol, ghost groups: Groups, ghost vectors: set<BrotherVector>)
    returns (v: BrotherVector)
    requires GroupsClosed(groups) && kept in groups && groups[kept] == [kept] && sym !in groups
    requires OthersLinked(groups, vectors, kept)
    modifies kept`brothers, sym`brothers
    ensures fresh(v) && OthersLinked(groups, vectors, kept)
    ensures v.elems == groups[kept] + [sym] && forall s <- v.elems :: s.brothers == v
  {
    v := new BrotherVector([kept, sym]);
    kept.brothers := v;
    sym.brothers := v;
  }

  /** One more declaration enters the vector of the others. */
  method LinkFurther(kept: Symbol, sym: Symbol, ghost groups: Groups, ghost vectors: set<BrotherVector>)
    returns (v: BrotherVector)
    requires GroupsLinked(groups, vectors) && kept in groups && sym !in groups && kept.brothers != null
    requires OthersLinked(groups, vectors, kept)
    requires forall s <- groups :: s !in groups[kept] && s.brothers != null ==> s.brothers != kept.brothers
    modifies kept.brothers, sym`brothers
    ensures v == old(kept.brothers) && OthersLinked(groups, vectors, kept)
    ensures v.elems == groups[kept] + [sym] && forall s <- v.elems :: s.brothers == v
  {
    v := kept.brothers;
    v.elems := v.elems + [sym];
    sym.brothers := v;
  }
}
