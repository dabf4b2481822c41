# A model of AstC2C and its OpenCL copy runtime

AstC2C compiles OpenCL C and C to C. This Dafny project models the parts of it that keep state or
decide something hard, and proves properties of the model for all inputs and all runs.

| file | what it models |
|---|---|
| `ScopeNames`, `LexicalScopes` | scopes as strings with `:` between the levels, one flat map for all scopes, and the stack of frames it stands for |
| `Symbols`, `Placement`, `Declarations`, `Registry`, `KeptDeclarations`, `SymbolTables`, `DeclarationRuns`, `SymbolTableRuns`, `Manglings` | the symbol table: scopes, both name spaces, which declaration is kept, which is flushed, the shared "brothers" vectors, the diagnostics, the names made from a counter |
| `ExtractionLinker` | the link of a whole program: which symbols are internal to it, which extern declarations go |
| `CTypes`, `Convertibility`, `SignatureDecoding`, `SignatureShapes`, `OverloadResolution` | types and their signatures, the two compatibility relations, the choice among overloads and the check of the call |
| `TypeSpecifiers` | the collector of declaration specifiers |
| `IntegerLiterals`, `Numerals` | reading integer constants and choosing their type |
| `Swizzle` | vector component selections and chains of them |
| `ByteRows`, `AsyncCopy`, `VectorLoadStore` | the copies of the OpenCL runtime |
| `NodeAst` | the first-child, right-sibling tree: deep copy, insertion, line numbers, text |
| `ProxyProtocol`, `ServerThread` | the byte protocol of the compilation server and its request loop |
| `OptionSplit`, `PreprocessorInfo` | splitting an option string, and the lines of the preprocessor kept by token number |

How the proofs are organised. A class method that changes fields states its new state by a function
of the old one; the promises of the source are lemmas about that function, or an invariant
(`Valid`) that every method keeps. `DeclarationRuns` and `SymbolTableRuns` put the pieces
together: a run is any sequence of scope operations and declarations of any kind of symbol on a new table. The
state of the table after a run is determined by the run, and from it follow, for every run, what a name means, which
declarations are accepted, which one is kept, and which symbols share a vector.

## What the proofs found

The model does what the code does, also where the code's comments promise something else.

- Scopes: a path that is entered again has the bindings it was left with. The grammar enters the scope of the
  parameters of a function again on purpose (`src/parser/SymbolTableBuilder.g:6117` and 6227), so the reference is a
  stack of frames that takes back the frame of a path that was left. It is the plain stack exactly when every path
  entered has no bindings left from before (`LexicalScopes.StackIffClean`); a re-entered scope with a binding is the
  case that fails (`LexicalScopes.ReenteredScopeKeepsBindings`).
- Declarations: a complete extern declaration displaces a definition of incomplete type
  (`Declarations.IncompleteDefinitionDisplaced` gives exactly when).
- Compatibility: the comment on `isConvertible` says that it is equivalent to `checkAssignOperands`. It is,
  but for pointers and labels given to float vectors and, in OpenCL C, for different address spaces
  (`Convertibility.RelationsAgree`). A qualified type says that it is a long when it is an int, so a `const int`
  does not convert to `int4` and a `const long` does (`Convertibility.ConstIntIsNotAnInt4`).
- Signatures: a structure is written as the length of its name, and the letters of address spaces are also
  letters of types. Two overloads can have the same concatenated signature and different parameters; the
  call is then given to the wrong one and refused, for every second parameter type (`OverloadResolution.ExactMayFail`,
  `OverloadResolution.ExactTagMayFail`).
- The arguments of a call with more arguments than parameters are never checked, and such an overload wins when it
  is declared first (`OverloadResolution.IsFault`, `OverloadResolution.Chosen`). "Ambiguous" is reported for two or
  more conversions, not for two or more candidates.
- Linking: a static datum is renamed when its definition is read, and an extern declaration after it joins its
  vector with the old name. The extern declaration is then internal but not nullified
  (`ExtractionLinker.RenamedDatumKeepsExtern`; `ExtractionLinker.InternalIsNullified` says exactly when the two agree).
- Swizzle: `hi` or `odd` of three components of a vector, `v.xyz.hi`, makes the compiler fail
  (`Swizzle.FourthOfThreeFails`).
- `deepSetLineNum` sets the lines of the first children only (`NodeAst.SpineIsNotWholeTree`).
- An option word that ends in a backslash cannot be followed by whitespace, so by no other word (`OptionSplit.SplitInvertsIff`).
- Rows wider than the stride overlap, and scattering then gathering loses bytes (`AsyncCopy.RectangleRoundTrip`).

## Model

| member | source | states |
|---|---|---|
| `ScopeNames.JoinInjective` | src/ir/symboltable/SymbolTable.java:291-306 | two paths of non-empty segments without colon have the same scope string only when they are the same path |
| `ScopeNames.RemoveOneLevelDropsLast` | src/ir/symboltable/SymbolTable.java:1380-1389 | stripping one level of a scope string gives the string of the path without its last segment, and nothing at top level |
| `LexicalScopes.RunRepresents` | src/ir/symboltable/SymbolTable.java:182-306 | after any run of scope operations and bindings the flat map holds, for every path, exactly the bindings of the frame of that path |
| `LexicalScopes.FlatTableIsLexical` | src/ir/symboltable/SymbolTable.java:1137-1148 | in any run the lookup in the flat map returns what the stack of frames returns, the innermost binding |
| `LexicalScopes.UnnamedScopeIsNew` | src/ir/symboltable/SymbolTable.java:194-198 | after any run whose named scopes are not numbers, re-entered or not, the next unnamed scope starts without bindings |
| `LexicalScopes.FlatTableIsStack` | src/ir/symboltable/SymbolTable.java:182-246 | when no named scope is entered twice or named by a number, the lookup is that of a plain stack that forgets popped frames |
| `LexicalScopes.BlockKeepsOuterFrames` | src/ir/symboltable/SymbolTable.java:240-246 | a bracketed block leaves the frames outside it as they were, whatever scopes it enters again |
| `LexicalScopes.PoppedScopesDoNotLeak` | src/ir/symboltable/SymbolTable.java:240-246 | after any block, named or not and entered before or not, a name means what it meant before the block |
| `LexicalScopes.StackIffClean` | src/ir/symboltable/SymbolTable.java:182-246 | the frames are those of the plain stack after every prefix of a run if and only if each path it enters has no bindings left from before |
| `LexicalScopes.ReenteredScopeKeepsBindings` | src/parser/SymbolTableBuilder.g:6117-6227 | a scope entered again, of any name, finds what was bound in it, where the plain stack finds nothing |
| `Manglings.ManglingInjective` | src/ir/symboltable/SymbolTable.java:119-134 | the counter and the name can be read back from a mangled name |
| `Manglings.NamesAreUnique` | src/ir/symboltable/SymbolTable.java:115-147 | of the names given for any sequence of requests no two are equal |
| `Symbols.VectorsShared` | src/ir/symboltable/SymbolTable.java:519-541 | two symbols have the same vector exactly when they declare the same entity, and the vector lists its declarations in order |
| `Symbols.JoinGroupClosed` | src/ir/symboltable/SymbolTable.java:519-541 | one more declaration keeps the entities apart and each listed once |
| `Symbols.LinkBrothers` | src/ir/symboltable/SymbolTable.java:519-541 | the vector of the kept symbol, or a new one, is extended by the new symbol and shared, and all other vectors are as the entities say |
| `Placement.Conservation` | src/ir/symboltable/SymbolTable.java:345-347 | a symbol is in one place at most: one slot of one table or one place in the flushed list |
| `Placement.SupersedeValid` | src/ir/symboltable/SymbolTable.java:496-517 | replacing the kept symbol and flushing it keeps every symbol in one place |
| `Placement.UnlistValid` | src/ir/symboltable/SymbolTable.java:655-668 | moving a mangled prototype from its list to the flushed list keeps every symbol in one place |
| `Declarations.AccountedMore` | src/ir/symboltable/SymbolTable.java:345-415 | an offered symbol that is neither in a table nor flushed had a diagnostic raised about it |
| `Declarations.NextMatches` | src/ir/symboltable/SymbolTable.java:489-541 | after a further object declaration the table still holds one of the accepted declarations of each key, which are those of its entity |
| `Declarations.NextLinked` | src/ir/symboltable/SymbolTable.java:435-517 | with complete definitions the kept declaration is extern exactly when all accepted ones are, and definitions agree on static, register and auto |
| `Declarations.OneDefinitionInScope` | src/ir/symboltable/SymbolTable.java:471-487 | in an inner scope at most one accepted declaration of a key is not extern |
| `Declarations.IncompleteDefinitionDisplaced` | src/ir/symboltable/SymbolTable.java:496-517 | after any accepted declarations, exactly when the next one leaves the kept one extern only if all are |
| `Declarations.Redeclarations` | src/ir/symboltable/SymbolTable.java:435-487 | which declarations of an object of the same type are accepted: exactly when, for each of extern or not against extern or not, at top level and in a scope |
| `Declarations.FunctionDiagnosed` | src/ir/symboltable/SymbolTable.java:710-805 | a repeated function raises nothing exactly when the types agree, at most one is a definition and no builtin is touched; the severity of what it raises otherwise |
| `Declarations.OverloadDiagnosed` | src/ir/symboltable/SymbolTable.java:619-706 | the same for a mangled function, where touching a builtin comes before two definitions |
| `Registry.NextObjectValid` | src/ir/symboltable/SymbolTable.java:422-542 | a compatible object declaration keeps the whole invariant: one place each, entities, reports, kept declaration and linkage |
| `Registry.NextFunctionValid` | src/ir/symboltable/SymbolTable.java:710-805 | a further function declaration keeps the invariant whether it supersedes, repeats, clashes or ends the compilation |
| `Registry.NextOverloadValid` | src/ir/symboltable/SymbolTable.java:619-706 | the same for a mangled function that is already in the list |
| `Registry.NextTagValid` | src/ir/symboltable/SymbolTable.java:841-896 | the same for a tag, complete or not, of the same family or not |
| `Registry.AddFunctionBinds` | src/ir/symboltable/SymbolTable.java:602-822 | declaring a function binds its key and no other, and offers exactly that symbol |
| `KeptDeclarations.FunctionNext` | src/ir/symboltable/SymbolTable.java:737-757 | of the kept function and the next, the first definition stays, or the first declaration |
| `KeptDeclarations.TagNext` | src/ir/symboltable/SymbolTable.java:841-896 | of the kept tag and the next, the first complete one of the family stays, or the last |
| `KeptDeclarations.NextFunctionKept` | src/ir/symboltable/SymbolTable.java:710-805 | a further function declaration leaves in the table the first definition of its entity, or its first declaration when there is none |
| `KeptDeclarations.NextOverloadKept` | src/ir/symboltable/SymbolTable.java:619-706 | the same for one mangled function of a list |
| `KeptDeclarations.NextTagKept` | src/ir/symboltable/SymbolTable.java:841-896 | the same for a tag and completeness |
| `SymbolTables.SymbolTable.constructor` | src/ir/symboltable/SymbolTable.java:86-95 | a new table is valid and empty |
| `SymbolTables.SymbolTable.GetMangling` | src/ir/symboltable/SymbolTable.java:119-123 | the counter grows by one and the name is the mangling of its new value |
| `SymbolTables.SymbolTable.GetNewName` | src/ir/symboltable/SymbolTable.java:143-147 | the counter grows by one and the name is the one of its new value |
| `SymbolTables.SymbolTable.PushNamedScope` | src/ir/symboltable/SymbolTable.java:182-186 | enters a named scope in both name spaces and keeps the invariant |
| `SymbolTables.SymbolTable.PushScope` | src/ir/symboltable/SymbolTable.java:194-198 | enters an unnamed scope with the next number |
| `SymbolTables.SymbolTable.PopScope` | src/ir/symboltable/SymbolTable.java:240-246 | leaves the innermost scope, and removes no entry |
| `SymbolTables.SymbolTable.CurrentScopeAsString` | src/ir/symboltable/SymbolTable.java:291-306 | the loop over the stack builds the segments joined by colons |
| `SymbolTables.SymbolTable.LookupIn` | src/ir/symboltable/SymbolTable.java:1137-1148 | the loop over shrinking scope strings ends, and finds what looking level by level finds |
| `SymbolTables.SymbolTable.LookupName` | src/ir/symboltable/SymbolTable.java:1137-1148 | the lookup of an ordinary name |
| `SymbolTables.SymbolTable.LookupTagName` | src/ir/symboltable/SymbolTable.java:1174-1185 | the lookup of a tag |
| `SymbolTables.SymbolTable.AddObjectLabel` | src/ir/symboltable/SymbolTable.java:422-542 | keeps the invariant; the new state, the diagnostics and the one binding that changes |
| `SymbolTables.SymbolTable.AddEnumConstantOrTypedef` | src/ir/symboltable/SymbolTable.java:546-595 | the same for a symbol that may be declared once |
| `SymbolTables.SymbolTable.AddTag` | src/ir/symboltable/SymbolTable.java:841-896 | the same for a tag, in the tag name space; by the invariant the tag of a family is complete exactly when a declared one of it is |
| `SymbolTables.SymbolTable.AddFunction` | src/ir/symboltable/SymbolTable.java:602-822 | the same for a function, mangled or not, and exactly when the declaration ends the compilation; by the invariant each function in the table is the first definition of its entity, or its first declaration when there is none |
| `SymbolTables.SymbolTable.GetEquivalentMangledFunction` | src/ir/symboltable/symbols/MangledFunctionPseudoLabel.java:101-111 | the first function of the list that cannot be told from a type by its mangling |
| `DeclarationRuns.RunValid` | src/ir/symboltable/SymbolTable.java:422-896 | every run keeps the invariant, with the diagnostics it raises, and offers exactly the symbols it declares |
| `DeclarationRuns.RunRecords` | src/ir/symboltable/SymbolTable.java:422-542 | after any run the declarations recorded for a key are exactly the object declarations of that key that raised no diagnostic, in order |
| `DeclarationRuns.KeptLinkage` | src/ir/symboltable/SymbolTable.java:435-517 | after any run the object kept for a key is an accepted one and, with complete definitions, extern exactly when all accepted ones are; those that are not extern agree, and all but the first are made at top level |
| `DeclarationRuns.AcceptedTogether` | src/ir/symboltable/SymbolTable.java:519-541 | after any run the accepted declarations of a key are the declarations of one entity |
| `DeclarationRuns.AcceptedApart` | src/ir/symboltable/SymbolTable.java:519-541 | different keys have no accepted declaration in common |
| `DeclarationRuns.RunKept` | src/ir/symboltable/SymbolTable.java:602-896 | after any run each function in the table, alone or in a list, is the first definition among the declarations of its entity, or the first of all; each tag the first complete one of its family |
| `DeclarationRuns.RunFunctionsAndTags` | src/ir/symboltable/SymbolTable.java:519-541 | after any run the entity of the function of a key, and of the tag, is exactly the declarations made of it, in order |
| `DeclarationRuns.KeptFunction` | src/ir/symboltable/SymbolTable.java:602-822 | after any run the function of a key is a definition exactly when some declaration of it is, and then the first such, otherwise the first declaration; and so each mangled function of a list |
| `DeclarationRuns.KeptTag` | src/ir/symboltable/SymbolTable.java:841-896 | after any run the tag of a key is complete exactly when some declared one of its family is, and then the first such |
| `DeclarationRuns.RunViews` | src/ir/symboltable/SymbolTable.java:182-896 | both name spaces hold what the scope operations make, and for each declaration what its key is then bound to |
| `DeclarationRuns.RunIsLexical` | src/ir/symboltable/SymbolTable.java:1137-1185 | after any run a name and a tag mean what the stacks of frames find |
| `SymbolTableRuns.Process` | src/ir/symboltable/SymbolTable.java:182-896 | any run on a new table leaves it in the state that the run determines, with the diagnostics of the run, and stops exactly at the first declaration that ends the compilation |
| `SymbolTableRuns.LookupAfterRun` | src/ir/symboltable/SymbolTable.java:1137-1185 | after any run both lookups find what the stacks of frames of the run find |
| `SymbolTableRuns.BrothersAfterRun` | src/ir/symboltable/SymbolTable.java:519-541 | after any run the accepted declarations of a key share one vector that lists exactly them in order, and a lone one has none |
| `SymbolTableRuns.BrothersApart` | src/ir/symboltable/SymbolTable.java:519-541 | after any run declarations of different keys never share a vector |
| `ExtractionLinker.Label.SetProgramInternal` | src/ir/symboltable/symbols/Symbol.java:299-306 | marks the symbol and all declarations of its object, and nothing else |
| `ExtractionLinker.Linker.Define` | src/ir/symboltable/ExtractionLinker.java:104-136 | the first datum of a name enters the table and the list, and each other one is reported |
| `ExtractionLinker.Linker.ProcessInstanceData` | src/ir/symboltable/ExtractionLinker.java:99-158 | marks the defined data and the extern declarations of their names, nullifies the latter, and lists the first datum of each name |
| `ExtractionLinker.Linker.ProcessFunction` | src/ir/symboltable/ExtractionLinker.java:169-218 | marks all definitions, adds the names visible outside their module, then marks the prototypes with a name of the table; data are never replaced |
| `ExtractionLinker.Linker.GetInitializedInstanceData` | src/ir/symboltable/ExtractionLinker.java:65-76 | the instances with an initializer, in order, as the two lemmas below say |
| `ExtractionLinker.InitializedAppend` | src/ir/symboltable/ExtractionLinker.java:65-76 | the initialized instances of one list and another are those of each, in order |
| `ExtractionLinker.InitializedOne` | src/ir/symboltable/ExtractionLinker.java:65-76 | an instance is taken exactly when it has an initializer |
| `ExtractionLinker.Linker.Link` | src/ir/symboltable/ExtractionLinker.java:99-218 | the whole link: exactly which symbols are internal, which are nullified, the names and the reports |
| `ExtractionLinker.OrderDoesNotMatter` | src/ir/symboltable/ExtractionLinker.java:99-218 | permuting the data and the modules changes neither the internal symbols, nor the global names, nor the nullified declarations |
| `ExtractionLinker.OneInstanceOfEachName` | src/ir/symboltable/ExtractionLinker.java:104-136 | the list of instances has each name once, with its first datum |
| `ExtractionLinker.PrototypeInternal` | src/ir/symboltable/ExtractionLinker.java:197-215 | a prototype is internal exactly when a datum or a non-static function definition has its name |
| `ExtractionLinker.ExternInternal` | src/ir/symboltable/ExtractionLinker.java:146-156 | an extern datum, also one defined in its own module, is nullified exactly when a module defines a datum of its name, and internal exactly when one is of its object or has the name of an extern declaration of it |
| `ExtractionLinker.InternalIsNullified` | src/ir/symboltable/ExtractionLinker.java:146-156 | an extern datum is internal exactly when it is nullified, if and only if a datum that reaches its object comes with one of its name |
| `ExtractionLinker.RenamedDatumKeepsExtern` | src/parser/SymbolTableBuilder.g:332-337 | a datum of another name with an extern declaration of its object, which is internal and not nullified |
| `Convertibility.RelationsAgree` | src/ir/types/TypeManager.java:1348-1567 | for all types: convertible if and only if assignable, with the two families of exceptions |
| `Convertibility.LabelToFloatVectorDisagrees` | src/ir/types/TypeManager.java:1348-1567 | every pointer or label converts to a float vector and is then not assignable |
| `Convertibility.DownConversionSeesQualifier` | src/ir/types/TypeManager.java:250-340 | exactly when a qualifier on the scalar changes whether a conversion to vector elements is a down-conversion |
| `Convertibility.ConstIntIsNotAnInt4` | src/ir/types/c/Qualifier.java:149 | the case of const int and const long given to int4 |
| `Convertibility.ConvertibleTypes` | src/ir/types/TypeManager.java:1468-1567 | what converts: arithmetic types, labels and integers, labels of one address space, equal vectors, structures or unions, a scalar to wider elements; nothing else |
| `Convertibility.AssignmentChecked` | src/ir/types/TypeManager.java:1348-1456 | exactly what an assignment accepts in silence, and what with a warning |
| `Convertibility.DownLosesWidth` | src/ir/types/TypeManager.java:250-340 | a conversion to vector elements is down exactly when it loses width, or the sign bit at equal width; what counts for bool, bit-fields, enumerations, long long, floating types and labels |
| `Convertibility.SpaceOfPointee` | src/ir/types/TypeManager.java:1733-1755 | the address space of a pointer is that of its pointee, of an array that of its elements, private when none is written; a function is code |
| `SignatureDecoding.SignatureEnds` | src/ir/types/c/Function.java:228-256 | the signature of a separable type at the front of any text is recognised, so none is a prefix of another |
| `SignatureDecoding.SignatureListInjective` | src/ir/types/c/Function.java:208-221 | equal concatenated signatures mean as many parameters and the same signature for each |
| `SignatureDecoding.SignaturesRunTogether` | src/ir/types/c/Qualifier.java:118-121 | for every type u, a pointer to constant u and a pointer to qualified char followed by u have one concatenated signature, and the same with local and long |
| `SignatureShapes.ScalarSignature` | src/ir/types/c/IntegerScalar.java:165-190 | the signature of void, bool, an integer or a floating type is that of no other type |
| `SignatureShapes.SignatureIsShape` | src/ir/types/c/Function.java:208-256 | separable types have equal signatures exactly when they are the same type, but that an array is a pointer, tags are the lengths of their names, bit-fields are one type and of qualifiers only the address space counts |
| `OverloadResolution.CheckFunctionCall` | src/ir/types/TypeManager.java:1923-1966 | the errors raised are exactly the faults of the call, in argument order, and there is none exactly when it is accepted |
| `OverloadResolution.Compare` | src/ir/types/TypeManager.java:1820-1851 | the loop over the arguments finds whether an overload fits and how many arguments have to be converted |
| `OverloadResolution.Keep` | src/ir/types/TypeManager.java:1853-1875 | one more overload compared: the kept ones are those as good as the chosen one |
| `OverloadResolution.ChosenUnique` | src/ir/types/TypeManager.java:1815-1910 | at most one overload is the chosen one |
| `OverloadResolution.ChosenExists` | src/ir/types/TypeManager.java:1878-1883 | one is chosen exactly when one fits |
| `OverloadResolution.ScalarMatches` | src/ir/types/TypeManager.java:1820-1851 | an arithmetic argument matches exactly the parameters of its own type |
| `OverloadResolution.PointerMatches` | src/ir/types/TypeManager.java:1820-1851 | a pointer or array argument matches exactly the pointers and arrays to a type of the same signature |
| `OverloadResolution.ScalarExact` | src/ir/types/TypeManager.java:1795-1809 | for arithmetic arguments an overload is exact exactly when its parameters have their types |
| `OverloadResolution.CheckMangledFunctionCall` | src/ir/types/TypeManager.java:1773-1911 | the first exact overload, which for arithmetic arguments is the first with exactly their types, else the earliest with fewest conversions or the variadic one before all that fit; no match exactly when none fits; the errors raised |
| `OverloadResolution.SameSignatureAssignable` | src/ir/types/TypeManager.java:1348-1456 | types with equal signatures are assignable exactly when they are not void and not different structures or unions |
| `OverloadResolution.FittingIsAccepted` | src/ir/types/TypeManager.java:1905-1966 | exactly when an overload that fits passes the final check of the call |
| `OverloadResolution.MatchingIsAccepted` | src/ir/types/TypeManager.java:1795-1809 | an overload with the signature of each argument is exact and needs no conversion, and exactly when it passes the final check |
| `OverloadResolution.ExactMatchesThroughout` | src/ir/types/TypeManager.java:1795-1809 | for separable types the exact overloads are those with the signature of each argument |
| `OverloadResolution.ExactIsAccepted` | src/ir/types/TypeManager.java:1795-1809 | exactly when an exact overload of any types passes the final check |
| `OverloadResolution.ExactMayFail` | src/ir/types/TypeManager.java:1802-1808 | for every type u, a call of a pointer to qualified char and a u is taken as exact for a pointer to constant u, and refused; the same with local and long |
| `OverloadResolution.ExactTagMayFail` | src/ir/types/TypeManager.java:1802-1808 | every pair of different structures with names of one length gives such a call |
| `TypeSpecifiers.TypeSpecifierQualifier.SetBase` | src/ir/types/TypeSpecifierQualifier.java:329-409 | the base specifier, an error when there was one |
| `TypeSpecifiers.TypeSpecifierQualifier.SetShort` | src/ir/types/TypeSpecifierQualifier.java:412-423 | short, an error after long |
| `TypeSpecifiers.TypeSpecifierQualifier.SetLong` | src/ir/types/TypeSpecifierQualifier.java:425-438 | long, long long, and an error after short or for a third long |
| `TypeSpecifiers.TypeSpecifierQualifier.SetSigned` | src/ir/types/TypeSpecifierQualifier.java:441-449 | signed, an error after unsigned |
| `TypeSpecifiers.TypeSpecifierQualifier.SetUnsigned` | src/ir/types/TypeSpecifierQualifier.java:451-459 | unsigned, an error after signed |
| `TypeSpecifiers.TypeSpecifierQualifier.SetAddressSpace` | src/ir/types/TypeSpecifierQualifier.java:484-498 | the first address space is kept, and another one is an error |
| `TypeSpecifiers.TypeSpecifierQualifier.GetType` | src/ir/types/TypeSpecifierQualifier.java:108-320 | the type of what was collected, with merged qualifiers, and the errors of the combination; `SpecifiersMean` says which type it is |
| `TypeSpecifiers.RunHolds` | src/ir/types/TypeSpecifierQualifier.java:329-498 | the setters raise an error exactly when two specifiers conflict, judged from how often each occurs, and otherwise hold what occurs |
| `TypeSpecifiers.OrderDoesNotMatter` | src/ir/types/TypeSpecifierQualifier.java:97-498 | any two orders of the same specifiers are both refused or give the same type |
| `TypeSpecifiers.SpecifiersMean` | src/ir/types/TypeSpecifierQualifier.java:97-320 | the type that any list of specifiers without error declares, read off the words in it: short, long and long long, unsigned, the bases, the named type, and each qualifier |
| `TypeSpecifiers.ReadSpecifiers` | src/parser/SymbolTableBuilder.g:3180-3376 | from how often each specifier occurs: an error exactly when two conflict or the base does not admit the size, sign or space words; otherwise the type of C99 section 6.7.2, with exactly the qualifiers written or in the named type |
| `Numerals.PrintRoundTrip` | src/ir/types/TypeManager.java:2085-2124 | the printed numeral of a number has that value, in every base, and no leading zero |
| `IntegerLiterals.SplitSuffix` | src/ir/types/TypeManager.java:2044-2075 | the suffix is the longest ending, whatever the order of u and l |
| `IntegerLiterals.EndingsAre` | src/ir/types/TypeManager.java:2044-2075 | there are eight endings |
| `IntegerLiterals.SuffixCounts` | src/ir/types/TypeManager.java:2044-2075 | an ending is unsigned when u is in it, and has as many longs as letters l |
| `IntegerLiterals.DigitsOfBases` | src/ir/types/TypeManager.java:2085-2124 | which characters are digits of each base, and their values |
| `IntegerLiterals.ChooseDecimalType` | src/ir/types/TypeManager.java:2132-2208 | the first type of the list of C99 section 6.4.4.1 in which a decimal constant fits, a warning exactly when it fits in none |
| `IntegerLiterals.ChooseOctalOrHexadecimalType` | src/ir/types/TypeManager.java:2210-2303 | the same for octal and hexadecimal constants |
| `IntegerLiterals.FirstFitMonotone` | src/ir/types/TypeManager.java:2132-2303 | for any limits a larger constant has no earlier type, and the type is a function of the value |
| `IntegerLiterals.OclHasNoLongLong` | src/abi/OCL_ABI.java:45-50 | in OpenCL C no constant is long long without a warning, and exactly which are warned of |
| `IntegerLiterals.OclTypes` | src/abi/OCL_ABI.java:45-50 | in OpenCL C the type of every constant that is not warned of, from its value: int below 2^31, long below 2^63, and the unsigned ones |
| `IntegerLiterals.GetIntegralNumberType` | src/ir/types/TypeManager.java:2035-2315 | every spelling gives its value and the first type of its list; every other text is an internal error |
| `IntegerLiterals.PrintedIsSpelled` | src/ir/types/TypeManager.java:2035-2124 | the printed numeral of any number with any suffix, in any letter case, is a spelling of it |
| `Swizzle.GetElementList` | src/ir/types/ocl/Vector.java:139-202 | the components named by a selector, for all six styles |
| `Swizzle.LoAndHi` | src/ir/types/ocl/Vector.java:149-170 | lo then hi are all components in order |
| `Swizzle.EvenAndOdd` | src/ir/types/ocl/Vector.java:171-192 | even is exactly the even components in ascending order, odd exactly the odd ones, and interleaved they are all |
| `Swizzle.GeometricLetters` | src/ir/types/ocl/Vector.java:91-109 | the letter at place k of "xyzw", in either case, names component k |
| `Swizzle.SStyleLetters` | src/ir/types/ocl/Vector.java:116-130 | after s, the digit at place k of "0123456789abcdef", in either case, names component k |
| `Swizzle.CheckLetters` | src/ir/types/TypeManager.java:1198-1222 | an error exactly when a letter names no component, the mark exactly when one is named twice |
| `Swizzle.GetVectorElement` | src/ir/types/TypeManager.java:1176-1318 | one selection: size, composed components, mark, errors, and the failures |
| `Swizzle.SelectionInRange` | src/ir/types/TypeManager.java:1198-1262 | a selection without error stays inside the vector exactly when it is not hi or odd of three elements |
| `Swizzle.ChainReads` | src/ir/types/TypeManager.java:1283-1315 | for every chain the composed components read what the selections read one after the other, and without the mark they are all different |
| `Swizzle.MarkIffNamedTwice` | src/ir/types/TypeManager.java:1305-1315 | the mark is set exactly when some selection of the chain names a component twice |
| `Swizzle.FourthOfThreeFails` | src/ir/types/TypeManager.java:1286-1294 | exactly when a selection from three components makes the compiler fail |
| `Swizzle.DuplicationIsKept` | src/ir/types/TypeManager.java:1305-1315 | for any two components a and b, the mark stays when aabb is narrowed to a and b, which are different |
| `AsyncCopy.CopyRun` | builtins/OCL/src/kernel_runtime/async_copy.h:52-57 | the byte loop copies a run and changes no other byte |
| `AsyncCopy.LinearCopy` | builtins/OCL/src/kernel_runtime/async_copy.h:48-72 | the linear copy |
| `AsyncCopy.Copy2DLocal` | builtins/OCL/src/kernel_runtime/async_copy.h:78-95 | byte i of line j of the source rectangle, at element origin0 of line origin1 + j, goes to byte i of packed line j; no other byte changes |
| `AsyncCopy.Copy2DGlobal` | builtins/OCL/src/kernel_runtime/async_copy.h:98-115 | byte i of packed line j goes to byte i of line j of the rectangle when lines do not overlap; no byte outside the rectangle changes in any case |
| `AsyncCopy.StridedCopyLocal` | builtins/OCL/src/kernel_runtime/async_copy.h:121-137 | element i of the destination is element i * stride of the source, and nothing else changes |
| `AsyncCopy.StridedCopyGlobal` | builtins/OCL/src/kernel_runtime/async_copy.h:139-155 | element i * stride of the destination is element i of the source, for every stride of at least one |
| `AsyncCopy.RectangleRoundTrip` | builtins/OCL/src/kernel_runtime/async_copy.h:78-115 | scattering then gathering gives back every buffer exactly when the region is not wider than the stride or has at most one row |
| `AsyncCopy.FullLinesAreLinear` | builtins/OCL/src/kernel_runtime/async_copy.h:78-95 | a gather of full lines is the linear copy from the start of line origin1 |
| `AsyncCopy.StridedRoundTrip` | builtins/OCL/src/kernel_runtime/async_copy.h:121-155 | strided scatter then gather is the identity for every stride of at least one |
| `AsyncCopy.UnitStrideIsLinear` | builtins/OCL/src/kernel_runtime/async_copy.h:121-155 | stride one is the linear copy, both ways |
| `ByteRows.ScatterOutside` | builtins/OCL/src/kernel_runtime/async_copy.h:98-115 | a scatter changes no byte outside its rows |
| `ByteRows.ScatterAt` | builtins/OCL/src/kernel_runtime/async_copy.h:98-115 | the byte that a scatter puts at each place of each row |
| `ByteRows.GatherAt` | builtins/OCL/src/kernel_runtime/async_copy.h:78-95 | the byte that a gather takes from each place of each row |
| `VectorLoadStore.VLoad` | builtins/OCL/src/kernel_runtime/vloadstore.h:39-46 | element k of the vector is element n * offset + k of the buffer |
| `VectorLoadStore.VStore` | builtins/OCL/src/kernel_runtime/vloadstore.h:48-54 | element n * offset + k of the buffer is element k of the vector, and nothing else changes |
| `VectorLoadStore.LoadAfterStore` | builtins/OCL/src/kernel_runtime/vloadstore.h:39-54 | a load gives the vector stored at its offset, and is not affected by a store at another |
| `VectorLoadStore.StoreAfterLoad` | builtins/OCL/src/kernel_runtime/vloadstore.h:39-54 | storing what was loaded changes nothing |
| `NodeAst.NodeAST.DeepCopy` | src/ir/base/NodeAST.java:411-431 | a valid tree of new nodes only, the same but for the siblings of the root |
| `NodeAst.NodeAST.DeepCopyWithRightSiblings` | src/ir/base/NodeAST.java:436-459 | a valid tree of new nodes only, the same with the siblings |
| `NodeAst.NodeAST.AddSibling` | src/ir/base/NodeAST.java:337-346 | inserts a whole chain after the node |
| `NodeAst.NodeAST.GetLastSibling` | src/ir/base/NodeAST.java:320-328 | the last of the chain |
| `NodeAst.NodeAST.NumberOfChildren` | src/ir/base/NodeAST.java:358-366 | the length of the chain of children |
| `NodeAst.NodeAST.DeepSetLineNumWithRightSiblings` | src/ir/base/NodeAST.java:396-405 | every node of the tree has the line |
| `NodeAst.NodeAST.DeepSetLineNum` | src/ir/base/NodeAST.java:389-395 | the nodes on the spine of first children have the line |
| `NodeAst.NodeAST.EmitTreeToString` | src/ir/base/NodeAST.java:498-537 | the text of the tree |
| `NodeAst.InsertSiblingOrder` | src/ir/base/NodeAST.java:337-346 | the chain is the node, all of the inserted chain, then the old rest |
| `NodeAst.EmitIgnoresLines` | src/ir/base/NodeAST.java:498-537 | text depends on no line, nor on the siblings of the root |
| `NodeAst.EmitsPreorder` | src/ir/base/NodeAST.java:498-537 | the text is the texts of the nodes in preorder with one space between, without the siblings of the root |
| `NodeAst.WithLineSets` | src/ir/base/NodeAST.java:396-405 | setting a line sets it everywhere and changes nothing else |
| `NodeAst.SpineIsNotWholeTree` | src/ir/base/NodeAST.java:389-395 | exactly when setting the line without siblings sets it everywhere |
| `NodeAst.RenumberedCopy` | src/ir/base/NodeAST.java:396-459 | renumbering a copy leaves the original as it was, and both emit the same text |
| `ProxyProtocol.NumberRoundTrip` | src/proxy/ProxyProtocol.java:47-92 | writing then reading is the identity on all numbers of n bytes, so on all int and long |
| `ProxyProtocol.ByteAt` | src/proxy/ProxyProtocol.java:47-58 | byte i of a written number is its byte of weight 256^i, the lowest first |
| `ProxyProtocol.WriteNumber` | src/proxy/ProxyProtocol.java:47-58 | the loop writes the bytes of the number, lowest first |
| `ProxyProtocol.ReadNumber` | src/proxy/ProxyProtocol.java:61-92 | the loop reads the number, or tells the end before the first byte from an end after it |
| `ProxyProtocol.ReadBytes` | src/proxy/ProxyProtocol.java:95-129 | the next n bytes, or the end |
| `ServerThread.ReadRequest` | src/proxy/ServerThread.java:84-123 | one request read from the stream, a stop, an end on a boundary, or a broken request |
| `ServerThread.WriteResponse` | src/proxy/ServerThread.java:183-199 | one response on the stream |
| `ServerThread.Run` | src/proxy/ServerThread.java:65-210 | the loop writes and ends as the session function says, also when a compilation fails or its binary cannot be read |
| `ServerThread.ServesEveryInput` | src/proxy/ServerThread.java:65-210 | for every input the complete requests are answered, in order, until a compilation is not completed; error code 1 exactly when one is not, or the input ends inside a request or has a negative size of options |
| `ServerThread.OneAnswerEach` | src/proxy/ServerThread.java:150-199 | when all compilations are completed there is one answer for each request, made from its own compilation |
| `ServerThread.AnswersHold` | src/proxy/ServerThread.java:157-199 | answer i holds the identifier of request i, the result and both outputs of its compilation, and its binary exactly when the result is 0 |
| `ServerThread.LastAnswerHasNoBinary` | src/proxy/ServerThread.java:183-199 | when a binary cannot be read the last answer is of success, with both outputs and without the binary |
| `ServerThread.RequestsOfEncoded` | src/proxy/ServerThread.java:84-123 | the complete requests of an input are those a client wrote, however it goes on: closed, stopped, cut or refused |
| `ServerThread.SessionAnswersCompleteRequests` | src/proxy/ServerThread.java:65-210 | the requests a client writes are answered in order, and error code 1 is exactly for an input cut inside a request, a negative size of options or a compilation not completed |
| `ServerThread.ParsePrefix` | src/proxy/ServerThread.java:84-123 | a request cut anywhere inside is broken |
| `ServerThread.ParseEncoded` | src/proxy/ServerThread.java:84-123 | a written request is read back |
| `ServerThread.ResponsesDecode` | src/proxy/ServerThread.java:183-199 | the response stream decodes to the responses |
| `ServerThread.ClientReadsAnswers` | src/proxy/ServerThread.java:65-210 | for every input the output decodes to the answers, each with the identifier of its request |
| `OptionSplit.SplitOptionString` | src/utility/thread/ExecHelper.java:265-295 | the loop over the characters splits as the splitting function does, and every word is non-empty |
| `OptionSplit.SplitInvertsIff` | src/utility/thread/ExecHelper.java:265-295 | splitting words that are escaped and each followed by whitespace of any kind gives them back exactly when all are non-empty and none with whitespace after it ends in a backslash |
| `PreprocessorInfo.PreprocessorInfoChannel.AddLineForTokenNumber` | src/ir/base/PreprocessorInfoChannel.java:16-29 | one more line under its token, and no line is lost |
| `PreprocessorInfo.PreprocessorInfoChannel.ExtractLinesPrecedingTokenNumber` | src/ir/base/PreprocessorInfoChannel.java:35-47 | the lines from the last extraction up to the token, which are then gone |
| `PreprocessorInfo.AddConserves` | src/ir/base/PreprocessorInfoChannel.java:16-29 | adding keeps the lines emitted and the lines left equal to the lines added, for every token |
| `PreprocessorInfo.ExtractConserves` | src/ir/base/PreprocessorInfoChannel.java:35-47 | so does extracting |
| `PreprocessorInfo.OrderedExtraction` | src/ir/base/PreprocessorInfoChannel.java:35-47 | extractions that never go back give lines sorted by token, for each token before the last all its lines in insertion order, and leave nothing below it |

## Left out

- The drivers, command-line options, process execution, file copying, emitters, ResourceManager and printing: input and output only. Sockets and files are byte sequences, and the compiler behind the server is a parameter.
- The ANTLR grammars, except the order in which they call the modelled operations.
- `Linker.run`: its first definitions of data never reach the global table, and ExtractionLinker replaces it.
- SimpleSymbolTable and OpenCLBuiltinManager: the same lookup again, and a long flat case analysis.
- Code labels, and the lists of symbols the symbol table returns for other passes.
- The common-type rules for arithmetic operands, casts and lvalues.
- async_copy_clam.h and synchro.h: calls into a foreign runtime, and empty functions.
- The text of diagnostics, the note about the previous declaration that goes with each error about an ordinary symbol, and the abort after five errors: a diagnostic is its severity and the symbol it is about.
- SymbolTables.SymbolTable.AddFunction: the placeholder object of mangled functions is the list in the table entry, so aliasing of the placeholder is not modelled; `aborted` stands for the end of the process after a fatal error.
- SymbolTables.SymbolTable.AddObjectLabel: type comparisons are three functions of two types, and storage, completeness and definition are those at the declaration; a type completed later is not modelled.
- DeclarationRuns.RunValid: each symbol is declared once, as the grammar makes a new one for each declaration.
- SymbolTableRuns.Process: functions are declared with redefinition not allowed; AddFunction itself is proved for both.
- ExtractionLinker.Linker.Link: the declarations of the same object are those of the module when the link starts. `addFunction` joins vectors of different modules after marking them, which changes no mark. That two functions of one name are compatible or reported is part of SymbolTables.
- ExtractionLinker.PrototypeInternal: requires that the prototype is linked only to prototypes of its name; otherwise it is also marked with them.
- TypeSpecifiers.TypeSpecifierQualifier.SetBase: the setter of a tag, vector, typedef name or typeof and the `setSubType` that the grammar calls after it are one step, and the copy of an incomplete array type is the same type.
- TypeSpecifiers.ReadSpecifiers: warnings about duplicates are not modelled.
- OverloadResolution.CheckMangledFunctionCall: the diagnostics that an exact or unambiguous call gets are errors only; warnings about pointers made from integers are left out.
- IntegerLiterals.GetIntegralNumberType: letters and digits are ASCII; the library also reads other Unicode digits, which the lexer never gives.
- AsyncCopy.Copy2DGlobal: offsets are unbounded integers where the runtime has `int` loop counters, and source and destination do not overlap.
- AsyncCopy.CopyRun: the innermost byte loop, which the six copies repeat, is written once.
- VectorLoadStore.VLoad: elements are values, not bytes; the macros for each type and address space are one generic method.
- NodeAst.NodeAST.AddSibling: the assignment of the right sibling of the last sibling is one recursive method; attributes are values, so sharing an attribute object between a node and its copy is not modelled.
- ExtractionLinker.ExternInternal: requires that no function is a declaration of the object; the symbol table keeps functions and data apart.
- ServerThread.Run: a failure of writing to the socket is not modelled.
- Swizzle.GetVectorElement: vectors of every base type are one, of a size.
