/** The link of a program for extraction: which symbols of its modules are internal to
    the program, and which extern declarations are no longer needed. */
module ExtractionLinker {

  /** A data or function symbol of a module, with the declarations of the same object
      in that module. */
  class Label {
    const name: string
    const moduleVisibility: bool
    const initialized: bool
    const brothers: seq<Label>
    var programInternal: bool
    /** The declaration was replaced by an empty one in the tree. */
    var nullified: bool

    ghost function Family(): set<Label> {
      {this} + set l | l in brothers
    }

    method SetProgramInternal(ghost symbols: set<Label>)
      requires Family() <= symbols
      modifies symbols`programInternal
      ensures forall l :: l in symbols ==> (l.programInternal <==> old(l.programInternal) || l in Family())
    {
      var i := 0;
      while i < |brothers|
        invariant 0 <= i <= |brothers|
        invariant forall l :: l in symbols ==> (l.programInternal <==> old(l.programInternal) || l in brothers[..i])
      {
        assert brothers[i] in Family();
        brothers[i].programInternal := true;
        i := i + 1;
      }
      assert brothers[..i] == brothers;
      programInternal := true;
    }
  }

  /** The labels and all the declarations of their objects. */
  ghost function Families(labels: seq<Label>): set<Label>
    decreases |labels|
  {
    if labels == [] then {} else Families(labels[..|labels| - 1]) + labels[|labels| - 1].Family()
  }

  function Names(labels: seq<Label>): set<string> {
    set l | l in labels :: l.name
  }

  /** The labels with one of the names, in order. */
  function Named(labels: seq<Label>, names: set<string>): seq<Label> {
    if labels == [] then []
    else
      var last := labels[|labels| - 1];
      Named(labels[..|labels| - 1], names) + if last.name in names then [last] else []
  }

  /** The first label of each name, in order. */
  function FirstOfName(labels: seq<Label>): seq<Label> {
    if labels == [] then []
    else
      var before, last := labels[..|labels| - 1], labels[|labels| - 1];
      FirstOfName(before) + if last.name in Names(before) then [] else [last]
  }

  function OthersOfName(labels: seq<Label>): seq<Label> {
    if labels == [] then []
    else
      var before, last := labels[..|labels| - 1], labels[|labels| - 1];
      OthersOfName(before) + if last.name in Names(before) then [last] else []
  }

  /** The functions of one module. */
  datatype Module = Module(definitions: seq<Label>, prototypes: seq<Label>)

  datatype Entry = Datum(datum: Label) | Code

  datatype Diagnostic =
    | MultipleDefinition(datum: Label, warning: bool)
    | DifferentSymbol(function_: Label)

  class Linker {
    const optionLink: bool
    var modules: seq<Module>
    var globalSymbolTable: map<string, Entry>
    var globalInstanceDataList: seq<Label>
    var log: seq<Diagnostic>

    constructor (optionLink: bool)
      ensures modules == [] && globalSymbolTable == map[] && globalInstanceDataList == [] && log == []
      ensures this.optionLink == optionLink
    {
      this.optionLink := optionLink;
      modules, globalSymbolTable, globalInstanceDataList, log := [], map[], [], [];
    }

    method AddSymbolTable(m: Module)
      modifies this`modules
      ensures modules == old(modules) + [m]
    {
      modules := modules + [m];
    }

    /** The table has exactly the first datum of each name. */
    ghost predicate HoldsData(instances: seq<Label>)
      reads this
    {
      && globalInstanceDataList == FirstOfName(instances)
      && globalSymbolTable.Keys == Names(instances)
      && forall name :: name in globalSymbolTable ==>
           globalSymbolTable[name].Datum? && globalSymbolTable[name].datum in FirstOfName(instances) &&
           globalSymbolTable[name].datum.name == name
    }

    method Define(symbol: Label, ghost before: seq<Label>)
      requires HoldsData(before)
      modifies this`globalSymbolTable, this`globalInstanceDataList, this`log
      ensures HoldsData(before + [symbol])
      ensures log == old(log) + if symbol.name in Names(before) then [MultipleDefinition(symbol, optionLink)] else []
    {
      NextLabel(before, symbol);
      if symbol.name in globalSymbolTable {
        log := log + [MultipleDefinition(symbol, optionLink)];
      } else {
        globalSymbolTable := globalSymbolTable[symbol.name := Datum(symbol)];
        globalInstanceDataList := globalInstanceDataList + [symbol];
      }
    }

    /** All the data defined in the modules are internal; the first of each name is an
        instance, and each other one is reported. */
    method ProcessDefinitions(instances: seq<Label>, ghost symbols: set<Label>)
      requires Families(instances) <= symbols
      requires HoldsData([])
      modifies this`globalSymbolTable, this`globalInstanceDataList, this`log, symbols`programInternal
      ensures HoldsData(instances)
      ensures log == old(log) + Reports(OthersOfName(instances), optionLink)
      ensures forall l :: l in symbols ==> (l.programInternal <==> old(l.programInternal) || l in Families(instances))
    {
      hide Families, Names, FirstOfName, OthersOfName, Reports, HoldsData;
      var i := 0;
      assert instances[..0] == [];
      NoLabels(optionLink, {});
      while i < |instances|
        invariant 0 <= i <= |instances|
        invariant HoldsData(instances[..i])
        invariant log == old(log) + Reports(OthersOfName(instances[..i]), optionLink)
        invariant forall l :: l in symbols ==>
                    (l.programInternal <==> old(l.programInternal) || l in Families(instances[..i]))
      {
        ghost var before := instances[..i];
        assert instances[..i + 1] == before + [instances[i]];
        NextLabel(before, instances[i]);
        FamilyIncluded(instances, i);
        instances[i].SetProgramInternal(symbols);
        Define(instances[i], before);
        NextReport(before, instances[i], optionLink);
        i := i + 1;
      }
      assert instances[..i] == instances;
    }

    /** The extern declarations of the instances are internal and nullified. */
    method ProcessExterns(externs: seq<Label>, ghost symbols: set<Label>)
      requires Families(externs) <= symbols
      modifies symbols`programInternal, symbols`nullified
      ensures forall l :: l in symbols ==>
                var linked := Named(externs, globalSymbolTable.Keys);
                && (l.programInternal <==> old(l.programInternal) || l in Families(linked))
                && (l.nullified <==> old(l.nullified) || l in linked)
    {
      hide Families, Named;
      var i := 0;
      assert externs[..0] == [];
      NoLabels(optionLink, globalSymbolTable.Keys);
      while i < |externs|
        invariant 0 <= i <= |externs|
        invariant forall l :: l in symbols ==>
                    var linked := Named(externs[..i], globalSymbolTable.Keys);
                    && (l.programInternal <==> old(l.programInternal) || l in Families(linked))
                    && (l.nullified <==> old(l.nullified) || l in linked)
      {
        ghost var before := externs[..i];
        assert externs[..i + 1] == before + [externs[i]];
        NextNamed(before, externs[i], globalSymbolTable.Keys);
        FamilyIncluded(externs, i);
        if externs[i].name in globalSymbolTable {
          externs[i].SetProgramInternal(symbols);
          externs[i].nullified := true;
        }
        i := i + 1;
      }
      assert externs[..i] == externs;
    }

    /** The data of the program: definitions, then extern declarations. */
    method ProcessInstanceData(instances: seq<Label>, externs: seq<Label>, ghost symbols: set<Label>)
      requires Families(instances) + Families(externs) <= symbols
      requires globalSymbolTable == map[] && globalInstanceDataList == []
      modifies this`globalSymbolTable, this`globalInstanceDataList, this`log
      modifies symbols`programInternal, symbols`nullified
      ensures HoldsData(instances)
      ensures log == old(log) + Reports(OthersOfName(instances), optionLink)
      ensures forall l :: l in symbols ==>
                var linked := Named(externs, Names(instances));
                && (l.programInternal <==> old(l.programInternal) || l in Families(instances) || l in Families(linked))
                && (l.nullified <==> old(l.nullified) || l in linked)
    {
      ProcessDefinitions(instances, symbols);
      ProcessExterns(externs, symbols);
    }

    /** The instances with an initializer, in order. */
    method GetInitializedInstanceData() returns (l: seq<Label>)
      ensures l == Initialized(globalInstanceDataList)
    {
      l := [];
      var i := 0;
      while i < |globalInstanceDataList|
        invariant 0 <= i <= |globalInstanceDataList|
        invariant l == Initialized(globalInstanceDataList[..i])
      {
        assert globalInstanceDataList[..i + 1][..i] == globalInstanceDataList[..i];
        if globalInstanceDataList[i].initialized {
          l := l + [globalInstanceDataList[i]];
        }
        i := i + 1;
      }
      assert globalInstanceDataList[..i] == globalInstanceDataList;
    }

    /** The names of the data in the table. */
    ghost function DataNames(): set<string>
      reads this
    {
      set name | name in globalSymbolTable && globalSymbolTable[name].Datum?
    }

    /** A function never replaces a datum of its name. */
    method AddFunction(symbol: Label)
      modifies this`globalSymbolTable, this`log
      ensures globalSymbolTable.Keys == old(globalSymbolTable.Keys) + {symbol.name}
      ensures DataNames() == old(DataNames())
      ensures log == old(log) + if symbol.name in old(DataNames()) then [DifferentSymbol(symbol)] else []
    {
      if symbol.name !in globalSymbolTable {
        globalSymbolTable := globalSymbolTable[symbol.name := Code];
      } else if globalSymbolTable[symbol.name].Datum? {
        log := log + [DifferentSymbol(symbol)];
      }
    }

    /** The definitions of one module: all are internal, and those visible outside the
        module enter the table. */
    method ProcessFunctionDefinitions(definitions: seq<Label>, ghost symbols: set<Label>)
      requires Families(definitions) <= symbols
      modifies this`globalSymbolTable, this`log, symbols`programInternal
      ensures globalSymbolTable.Keys == old(globalSymbolTable.Keys) + Exported(definitions)
      ensures DataNames() == old(DataNames())
      ensures log == old(log) + Clashes(definitions, old(DataNames()))
      ensures forall l :: l in symbols ==> (l.programInternal <==> old(l.programInternal) || l in Families(definitions))
    {
      hide Families, Exported, Clashes, DataNames;
      ghost var data := DataNames();
      var i := 0;
      assert definitions[..0] == [];
      NoFunctions(data);
      while i < |definitions|
        invariant 0 <= i <= |definitions|
        invariant globalSymbolTable.Keys == old(globalSymbolTable.Keys) + Exported(definitions[..i])
        invariant DataNames() == data
        invariant log == old(log) + Clashes(definitions[..i], data)
        invariant forall l :: l in symbols ==>
                    (l.programInternal <==> old(l.programInternal) || l in Families(definitions[..i]))
      {
        ghost var before := definitions[..i];
        assert definitions[..i + 1] == before + [definitions[i]];
        NextFunction(before, definitions[i], data);
        FamilyIncluded(definitions, i);
        definitions[i].SetProgramInternal(symbols);
        if !definitions[i].moduleVisibility {
          AddFunction(definitions[i]);
        }
        i := i + 1;
      }
      assert definitions[..i] == definitions;
    }

    /** The prototypes of one module that have a name of the table. */
    method ProcessPrototypes(prototypes: seq<Label>, ghost symbols: set<Label>)
      requires Families(prototypes) <= symbols
      modifies symbols`programInternal
      ensures forall l :: l in symbols ==>
                (l.programInternal <==>
                 old(l.programInternal) || l in Families(Named(prototypes, globalSymbolTable.Keys)))
    {
      hide Families, Named;
      var i := 0;
      assert prototypes[..0] == [];
      NoLabels(false, globalSymbolTable.Keys);
      while i < |prototypes|
        invariant 0 <= i <= |prototypes|
        invariant forall l :: l in symbols ==>
                    (l.programInternal <==>
                     old(l.programInternal) || l in Families(Named(prototypes[..i], globalSymbolTable.Keys)))
      {
        ghost var before := prototypes[..i];
        assert prototypes[..i + 1] == before + [prototypes[i]];
        NextNamed(before, prototypes[i], globalSymbolTable.Keys);
        FamilyIncluded(prototypes, i);
        if prototypes[i].name in globalSymbolTable {
          prototypes[i].SetProgramInternal(symbols);
        }
        i := i + 1;
      }
      assert prototypes[..i] == prototypes;
    }

    method ProcessAllDefinitions(ghost symbols: set<Label>)
      requires Families(Definitions(modules)) <= symbols
      modifies this`globalSymbolTable, this`log, symbols`programInternal
      ensures globalSymbolTable.Keys == old(globalSymbolTable.Keys) + Exported(Definitions(modules))
      ensures DataNames() == old(DataNames())
      ensures log == old(log) + Clashes(Definitions(modules), old(DataNames()))
      ensures forall l :: l in symbols ==>
                (l.programInternal <==> old(l.programInternal) || l in Families(Definitions(modules)))
    {
      hide Families, Exported, Clashes, DataNames, Definitions;
      ghost var data := DataNames();
      var i := 0;
      assert modules[..0] == [];
      NoModules();
      NoFunctions(data);
      while i < |modules|
        invariant 0 <= i <= |modules|
        invariant globalSymbolTable.Keys == old(globalSymbolTable.Keys) + Exported(Definitions(modules[..i]))
        invariant DataNames() == data
        invariant log == old(log) + Clashes(Definitions(modules[..i]), data)
        invariant forall l :: l in symbols ==>
                    (l.programInternal <==> old(l.programInternal) || l in Families(Definitions(modules[..i])))
      {
        NextModule(modules, i, data, {});
        ProcessFunctionDefinitions(modules[i].definitions, symbols);
        i := i + 1;
      }
      assert modules[..i] == modules;
    }

    method ProcessAllPrototypes(ghost symbols: set<Label>)
      requires Families(Prototypes(modules)) <= symbols
      modifies symbols`programInternal
      ensures forall l :: l in symbols ==>
                (l.programInternal <==>
                 old(l.programInternal) || l in Families(Named(Prototypes(modules), globalSymbolTable.Keys)))
    {
      hide Families, Named, Prototypes;
      ghost var names := globalSymbolTable.Keys;
      var i := 0;
      assert modules[..0] == [];
      NoModules();
      NoLabels(false, names);
      while i < |modules|
        invariant 0 <= i <= |modules|
        invariant forall l :: l in symbols ==>
                    (l.programInternal <==>
                     old(l.programInternal) || l in Families(Named(Prototypes(modules[..i]), names)))
      {
        NextModule(modules, i, {}, names);
        ProcessPrototypes(modules[i].prototypes, symbols);
        i := i + 1;
      }
      assert modules[..i] == modules;
    }

    /** The functions of the program: the definitions of all modules, then the
        prototypes of all modules. */
    method ProcessFunction(ghost symbols: set<Label>)
      requires Families(Definitions(modules)) + Families(Prototypes(modules)) <= symbols
      modifies this`globalSymbolTable, this`log, symbols`programInternal
      ensures globalSymbolTable.Keys == old(globalSymbolTable.Keys) + Exported(Definitions(modules))
      ensures DataNames() == old(DataNames())
      ensures log == old(log) + Clashes(Definitions(modules), old(DataNames()))
      ensures forall l :: l in symbols ==>
                (l.programInternal <==>
                 || old(l.programInternal)
                 || l in Families(Definitions(modules))
                 || l in Families(Named(Prototypes(modules), globalSymbolTable.Keys)))
    {
      ProcessAllDefinitions(symbols);
      ProcessAllPrototypes(symbols);
    }

    /** The whole link of data and functions. */
    method Link(instances: seq<Label>, externs: seq<Label>, ghost symbols: set<Label>)
      requires Families(instances) + Families(externs) <= symbols
      requires Families(Definitions(modules)) + Families(Prototypes(modules)) <= symbols
      requires globalSymbolTable == map[] && globalInstanceDataList == [] && log == []
      requires forall l :: l in symbols ==> !l.programInternal && !l.nullified
      modifies this`globalSymbolTable, this`globalInstanceDataList, this`log
      modifies symbols`programInternal, symbols`nullified
      ensures globalInstanceDataList == FirstOfName(instances)
      ensures globalSymbolTable.Keys == GlobalNames(instances, modules)
      ensures log == Reports(OthersOfName(instances), optionLink) + Clashes(Definitions(modules), Names(instances))
      ensures forall l :: l in symbols ==>
                && (l.programInternal <==> l in Internal(instances, externs, modules))
                && (l.nullified <==> l in Named(externs, Names(instances)))
    {
      hide Families, Named, Names, FirstOfName, OthersOfName, Reports, Clashes, Exported, Definitions, Prototypes;
      ProcessInstanceData(instances, externs, symbols);
      assert DataNames() == Names(instances);
      ProcessFunction(symbols);
    }
  }

  function Reports(labels: seq<Label>, warning: bool): seq<Diagnostic> {
    if labels == [] then []
    else Reports(labels[..|labels| - 1], warning) + [MultipleDefinition(labels[|labels| - 1], warning)]
  }

  lemma NoLabels(warning: bool, names: set<string>)
    ensures Families([]) == {} && Reports(OthersOfName([]), warning) == [] && Named([], names) == []
  {
  }

  lemma NextReport(before: seq<Label>, l: Label, warning: bool)
    ensures Reports(OthersOfName(before + [l]), warning) ==
            Reports(OthersOfName(before), warning) +
            if l.name in Names(before) then [MultipleDefinition(l, warning)] else []
  {
    NextLabel(before, l);
    var others := OthersOfName(before);
    assert (others + [l])[..|others|] == others;
    assert others + [] == others;
  }

  lemma NextLabel(before: seq<Label>, l: Label)
    ensures var after, known := before + [l], l.name in Names(before);
            && Names(after) == Names(before) + {l.name}
            && Families(after) == Families(before) + l.Family()
            && FirstOfName(after) == FirstOfName(before) + (if known then [] else [l])
            && OthersOfName(after) == OthersOfName(before) + (if known then [l] else [])
  {
    assert (before + [l])[..|before|] == before;
  }

  lemma NextNamed(before: seq<Label>, l: Label, names: set<string>)
    ensures var linked := Named(before, names);
            && Named(before + [l], names) == linked + (if l.name in names then [l] else [])
            && Families(Named(before + [l], names)) == Families(linked) + (if l.name in names then l.Family() else {})
  {
    assert (before + [l])[..|before|] == before;
    NextLabel(Named(before, names), l);
    assert Named(before, names) + [] == Named(before, names);
  }

  lemma {:induction false} FamilyIncluded(labels: seq<Label>, i: nat)
    requires i < |labels|
    ensures labels[i].Family() <= Families(labels) && labels[i] in Families(labels)
    decreases |labels|
  {
    if i < |labels| - 1 {
      FamilyIncluded(labels[..|labels| - 1], i);
    }
  }

  function Initialized(labels: seq<Label>): seq<Label> {
    if labels == [] then []
    else
      var last := labels[|labels| - 1];
      Initialized(labels[..|labels| - 1]) + if last.initialized then [last] else []
  }

  /** The order is that of the list. */
  lemma {:induction false} InitializedAppend(a: seq<Label>, b: seq<Label>)
    ensures Initialized(a + b) == Initialized(a) + Initialized(b)
    decreases |b|
  {
    if b == [] {
      assert a + b == a;
    } else {
      var n := |b| - 1;
      var all, last := a + b, if b[n].initialized then [b[n]] else [];
      assert all[..|all| - 1] == a + b[..n] && all[|all| - 1] == b[n];
      InitializedAppend(a, b[..n]);
      assert Initialized(all) == (Initialized(a) + Initialized(b[..n])) + last;
    }
  }

  /** Those with an initializer and no others. */
  lemma {:induction false} InitializedOne(l: Label)
    ensures Initialized([l]) == if l.initialized then [l] else []
  {
    assert [l][..0] == [];
  }

  // ---------------------------------------------------------------------
  // Functions
  // ---------------------------------------------------------------------

  /** The names of the functions visible outside their module. */
  function Exported(labels: seq<Label>): set<string> {
    set l | l in labels && !l.moduleVisibility :: l.name
  }

  /** The errors of the functions that have the name of a datum. */
  function Clashes(labels: seq<Label>, data: set<string>): seq<Diagnostic> {
    if labels == [] then []
    else
      var last := labels[|labels| - 1];
      Clashes(labels[..|labels| - 1], data) +
      if !last.moduleVisibility && last.name in data then [DifferentSymbol(last)] else []
  }

  function Definitions(modules: seq<Module>): seq<Label> {
    if modules == [] then [] else Definitions(modules[..|modules| - 1]) + modules[|modules| - 1].definitions
  }

  function Prototypes(modules: seq<Module>): seq<Label> {
    if modules == [] then [] else Prototypes(modules[..|modules| - 1]) + modules[|modules| - 1].prototypes
  }

  lemma NoFunctions(data: set<string>)
    ensures Exported([]) == {} && Clashes([], data) == [] && Families([]) == {}
  {
  }

  lemma NoModules()
    ensures Definitions([]) == [] && Prototypes([]) == []
  {
  }

  lemma NextFunction(before: seq<Label>, l: Label, data: set<string>)
    ensures var after := before + [l];
            && Exported(after) == Exported(before) + (if l.moduleVisibility then {} else {l.name})
            && Clashes(after, data) ==
               Clashes(before, data) + (if !l.moduleVisibility && l.name in data then [DifferentSymbol(l)] else [])
            && Families(after) == Families(before) + l.Family()
  {
    assert (before + [l])[..|before|] == before;
  }

  lemma Regroup<T>(a: seq<T>, b: seq<T>, c: seq<T>)
    ensures (a + b) + c == a + (b + c)
  {
  }

  lemma {:induction false} SetsOfConcatenation(a: seq<Label>, b: seq<Label>)
    ensures Exported(a + b) == Exported(a) + Exported(b)
    ensures Families(a + b) == Families(a) + Families(b)
    decreases |b|
  {
    if b == [] {
      assert a + b == a;
    } else {
      var n := |b| - 1;
      SetsOfConcatenation(a, b[..n]);
      assert (a + b)[..|a + b| - 1] == a + b[..n];
    }
  }

  lemma {:induction false} ClashesOfConcatenation(a: seq<Label>, b: seq<Label>, data: set<string>)
    ensures Clashes(a + b, data) == Clashes(a, data) + Clashes(b, data)
    decreases |b|
  {
    if b == [] {
      assert a + b == a;
    } else {
      var n := |b| - 1;
      ClashesOfConcatenation(a, b[..n], data);
      assert (a + b)[..|a + b| - 1] == a + b[..n];
      var last := if !b[n].moduleVisibility && b[n].name in data then [DifferentSymbol(b[n])] else [];
      Regroup(Clashes(a, data), Clashes(b[..n], data), last);
    }
  }

  lemma {:induction false} NamedOfConcatenation(a: seq<Label>, b: seq<Label>, names: set<string>)
    ensures Named(a + b, names) == Named(a, names) + Named(b, names)
    decreases |b|
  {
    if b == [] {
      assert a + b == a;
    } else {
      var n := |b| - 1;
      NamedOfConcatenation(a, b[..n], names);
      assert (a + b)[..|a + b| - 1] == a + b[..n];
      Regroup(Named(a, names), Named(b[..n], names), if b[n].name in names then [b[n]] else []);
    }
  }

  lemma NextModule(modules: seq<Module>, i: nat, data: set<string>, names: set<string>)
    requires i < |modules|
    ensures var d, d' := Definitions(modules[..i]), Definitions(modules[..i + 1]);
            var p, p' := Prototypes(modules[..i]), Prototypes(modules[..i + 1]);
            var m := modules[i];
            && Exported(d') == Exported(d) + Exported(m.definitions)
            && Clashes(d', data) == Clashes(d, data) + Clashes(m.definitions, data)
            && Families(d') == Families(d) + Families(m.definitions)
            && Families(m.definitions) <= Families(Definitions(modules))
            && Families(Named(p', names)) == Families(Named(p, names)) + Families(Named(m.prototypes, names))
            && Families(m.prototypes) <= Families(Prototypes(modules))
  {
    var m := modules[i];
    assert modules[..i + 1][..i] == modules[..i];
    SetsOfConcatenation(Definitions(modules[..i]), m.definitions);
    ClashesOfConcatenation(Definitions(modules[..i]), m.definitions, data);
    NamedOfConcatenation(Prototypes(modules[..i]), m.prototypes, names);
    SetsOfConcatenation(Named(Prototypes(modules[..i]), names), Named(m.prototypes, names));
    ModuleIncluded(modules, i);
  }

  lemma {:induction false} ModuleIncluded(modules: seq<Module>, i: nat)
    requires i < |modules|
    ensures Families(modules[i].definitions) <= Families(Definitions(modules))
    ensures Families(modules[i].prototypes) <= Families(Prototypes(modules))
    decreases |modules|
  {
    var n := |modules| - 1;
    SetsOfConcatenation(Definitions(modules[..n]), modules[n].definitions);
    SetsOfConcatenation(Prototypes(modules[..n]), modules[n].prototypes);
    if i < n {
      ModuleIncluded(modules[..n], i);
    }
  }

  // ---------------------------------------------------------------------
  // What the link decides
  // ---------------------------------------------------------------------

  function GlobalNames(instances: seq<Label>, modules: seq<Module>): set<string> {
    Names(instances) + Exported(Definitions(modules))
  }

  /** The symbols internal to the program. */
  ghost function Internal(instances: seq<Label>, externs: seq<Label>, modules: seq<Module>): set<Label> {
    Families(instances) + Families(Named(externs, Names(instances))) +
    Families(Definitions(modules)) + Families(Named(Prototypes(modules), GlobalNames(instances, modules)))
  }

  lemma {:induction false} NamedMembers(labels: seq<Label>, names: set<string>)
    ensures forall l :: l in Named(labels, names) <==> l in labels && l.name in names
    decreases |labels|
  {
    if labels != [] {
      NamedMembers(labels[..|labels| - 1], names);
    }
  }

  lemma {:induction false} FamiliesMembers(labels: seq<Label>)
    ensures forall m :: m in Families(labels) <==> exists l :: l in labels && m in l.Family()
    decreases |labels|
  {
    if labels != [] {
      var n := |labels| - 1;
      FamiliesMembers(labels[..n]);
      assert labels == labels[..n] + [labels[n]];
    }
  }

  lemma {:induction false} FunctionsMembers(modules: seq<Module>)
    ensures forall l :: l in Definitions(modules) <==> exists m :: m in modules && l in m.definitions
    ensures forall l :: l in Prototypes(modules) <==> exists m :: m in modules && l in m.prototypes
    decreases |modules|
  {
    if modules != [] {
      var n := |modules| - 1;
      FunctionsMembers(modules[..n]);
      assert modules == modules[..n] + [modules[n]];
    }
  }

  lemma SameElements<T>(a: seq<T>, b: seq<T>)
    requires multiset(a) == multiset(b)
    ensures forall x :: x in a <==> x in b
  {
    assert forall x :: x in a <==> x in multiset(a);
    assert forall x :: x in b <==> x in multiset(b);
  }

  lemma {:induction false} FewerFamilies(a: seq<Label>, b: seq<Label>)
    requires forall l :: l in a ==> l in b
    ensures Families(a) <= Families(b)
    decreases |a|
  {
    if a != [] {
      var n := |a| - 1;
      assert a[n] in b;
      var k :| 0 <= k < |b| && b[k] == a[n];
      FamilyIncluded(b, k);
      assert forall l :: l in a[..n] ==> l in a;
      FewerFamilies(a[..n], b);
    }
  }

  lemma SameFamilies(a: seq<Label>, b: seq<Label>)
    requires forall l :: l in a <==> l in b
    ensures Families(a) == Families(b)
  {
    FewerFamilies(a, b);
    FewerFamilies(b, a);
  }

  /** The order of the data and of the modules does not change which symbols are
      internal, which names are global, nor which declarations are nullified. */
  lemma OrderDoesNotMatter(instances: seq<Label>, externs: seq<Label>, modules: seq<Module>,
                           instances': seq<Label>, externs': seq<Label>, modules': seq<Module>)
    requires multiset(instances) == multiset(instances')
    requires multiset(externs) == multiset(externs')
    requires multiset(modules) == multiset(modules')
    ensures Internal(instances, externs, modules) == Internal(instances', externs', modules')
    ensures GlobalNames(instances, modules) == GlobalNames(instances', modules')
    ensures forall l :: l in Named(externs, Names(instances)) <==> l in Named(externs', Names(instances'))
  {
    SameElements(instances, instances');
    SameElements(externs, externs');
    SameElements(modules, modules');
    FunctionsMembers(modules);
    FunctionsMembers(modules');
    assert Names(instances) == Names(instances');
    assert Exported(Definitions(modules)) == Exported(Definitions(modules'));
    var data, names := Names(instances), GlobalNames(instances, modules);
    NamedMembers(externs, data);
    NamedMembers(externs', data);
    NamedMembers(Prototypes(modules), names);
    NamedMembers(Prototypes(modules'), names);
    SameFamilies(instances, instances');
    SameFamilies(Named(externs, data), Named(externs', data));
    SameFamilies(Definitions(modules), Definitions(modules'));
    SameFamilies(Named(Prototypes(modules), names), Named(Prototypes(modules'), names));
  }

  lemma {:induction false} FirstsAreFirst(labels: seq<Label>)
    ensures Names(FirstOfName(labels)) == Names(labels)
    ensures forall l :: l in FirstOfName(labels) ==> IsFirst(labels, l)
    decreases |labels|
  {
    if labels != [] {
      var n := |labels| - 1;
      var before, last := labels[..n], labels[n];
      FirstsAreFirst(before);
      var firsts := FirstOfName(before);
      assert labels == before + [last];
      NextLabel(before, last);
      NextLabel(firsts, last);
      assert firsts + [] == firsts;
      forall l | l in FirstOfName(labels)
        ensures IsFirst(labels, l)
      {
        if l in firsts {
          StillFirst(before, last, l);
        } else {
          assert labels[n] == l && labels[..n] == before;
        }
      }
    }
  }

  lemma StillFirst(before: seq<Label>, last: Label, l: Label)
    requires IsFirst(before, l)
    ensures IsFirst(before + [last], l)
  {
    var k :| 0 <= k < |before| && before[k] == l && l.name !in Names(before[..k]);
    assert (before + [last])[..k] == before[..k] && (before + [last])[k] == l;
  }

  /** The list of instances has the first datum of each name and no other. */
  lemma {:induction false} OneInstanceOfEachName(labels: seq<Label>)
    ensures Names(FirstOfName(labels)) == Names(labels)
    ensures forall l :: l in FirstOfName(labels) ==> IsFirst(labels, l)
    ensures DistinctNames(FirstOfName(labels))
    decreases |labels|
  {
    FirstsAreFirst(labels);
    if labels != [] {
      var before, last := labels[..|labels| - 1], labels[|labels| - 1];
      OneInstanceOfEachName(before);
      var firsts := FirstOfName(before);
      assert forall i :: 0 <= i < |firsts| ==> firsts[i].name in Names(firsts);
    }
  }

  predicate DistinctNames(labels: seq<Label>) {
    forall i, j :: 0 <= i < j < |labels| ==> labels[i].name != labels[j].name
  }

  predicate IsFirst(labels: seq<Label>, l: Label) {
    exists k :: 0 <= k < |labels| && labels[k] == l && l.name !in Names(labels[..k])
  }

  /** A label is a declaration of the same object as others of its kind only. */
  ghost predicate OnlyWith(l: Label, own: seq<Label>, others: set<Label>) {
    && l !in others
    && forall k :: k in own && l in k.Family() ==> k.name == l.name
  }

  /** A prototype is internal exactly when its name is that of a datum or of a function
      visible outside its module; a static function of its name does not count. */
  lemma PrototypeInternal(instances: seq<Label>, externs: seq<Label>, modules: seq<Module>, p: Label)
    requires p in Prototypes(modules)
    requires OnlyWith(p, Prototypes(modules),
                      Families(instances) + Families(externs) + Families(Definitions(modules)))
    ensures p in Internal(instances, externs, modules) <==>
            || (exists d :: d in instances && d.name == p.name)
            || (exists f :: f in Definitions(modules) && !f.moduleVisibility && f.name == p.name)
  {
    var names := GlobalNames(instances, modules);
    var linked := Named(Prototypes(modules), names);
    NamedMembers(Prototypes(modules), names);
    FamiliesMembers(linked);
    NamedMembers(externs, Names(instances));
    FamiliesMembers(Named(externs, Names(instances)));
    FamiliesMembers(externs);
    assert p in p.Family();
    assert p in Families(linked) <==> p.name in names;
    assert p !in Families(Named(externs, Names(instances)));
  }

  /** No function is a declaration of the object of e. */
  ghost predicate IsData(e: Label, modules: seq<Module>) {
    e !in Families(Definitions(modules)) + Families(Prototypes(modules))
  }

  /** The datum d is of the object of e, or has the name of an extern declaration of it. */
  ghost predicate Reaches(d: Label, externs: seq<Label>, e: Label) {
    e in d.Family() || exists k :: k in externs && e in k.Family() && k.name == d.name
  }

  /** An extern datum is nullified exactly when a module defines a datum of its name, and
      internal exactly when one reaches its object; a function of its name does not
      count. */
  lemma ExternInternal(instances: seq<Label>, externs: seq<Label>, modules: seq<Module>, e: Label)
    requires e in externs && IsData(e, modules)
    ensures e in Named(externs, Names(instances)) <==> exists d :: d in instances && d.name == e.name
    ensures e in Internal(instances, externs, modules) <==> exists d :: d in instances && Reaches(d, externs, e)
  {
    var data, names := Names(instances), GlobalNames(instances, modules);
    FamiliesMembers(instances);
    NamedMembers(externs, data);
    FamiliesMembers(Named(externs, data));
    NamedMembers(Prototypes(modules), names);
    FamiliesMembers(Named(Prototypes(modules), names));
    FamiliesMembers(Prototypes(modules));
    assert e !in Families(Named(Prototypes(modules), names));
    if e in Families(Named(externs, data)) {
      var k :| k in Named(externs, data) && e in k.Family();
      var d :| d in instances && d.name == k.name;
      assert Reaches(d, externs, e);
    }
    if e in Families(instances) {
      var d :| d in instances && e in d.Family();
      assert Reaches(d, externs, e);
    }
    if d :| d in instances && Reaches(d, externs, e) && e !in d.Family() {
      var k :| k in externs && e in k.Family() && k.name == d.name;
      assert k in Named(externs, data);
    }
  }

  /** So an extern datum is internal exactly when it is nullified, if and only if a datum
      that reaches its object comes with one of its name. */
  lemma InternalIsNullified(instances: seq<Label>, externs: seq<Label>, modules: seq<Module>, e: Label)
    requires e in externs && IsData(e, modules)
    ensures (e in Internal(instances, externs, modules) <==> e in Named(externs, Names(instances)))
            <==>
            ((exists d :: d in instances && Reaches(d, externs, e)) ==> exists d :: d in instances && d.name == e.name)
  {
    ExternInternal(instances, externs, modules, e);
    assert e in e.Family();
    assert forall d :: d in instances && d.name == e.name ==> Reaches(d, externs, e);
  }

  /** A static datum is renamed before an extern declaration of it is read: the extern
      declaration is then internal, and stays. */
  lemma RenamedDatumKeepsExtern(d: Label, e: Label)
    requires d.name != e.name && e in d.brothers
    ensures e in Internal([d], [e], []) && e !in Named([e], Names([d]))
  {
    FamiliesMembers([d]);
    NamedMembers([e], Names([d]));
    assert e in d.Family();
  }
}
