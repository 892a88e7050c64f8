# implgen in Dafny

implgen is a code generator for Go projects laid out as an `api` tree of repository contracts
and an `internal` tree of their implementations. A contract is an interface type whose name
ends in `Repository`. implgen does four things:

1. It finds the contract files under the API root and reads each contract's methods, with their
   parameters and results.
2. It maps every API package onto its implementation package.
3. It reads the implementation files already there, to learn which implementation structs and
   methods exist.
4. It writes:
   - the missing declarations (a dependencies struct, fx options, a constructor and the
     implementation struct);
   - a placeholder stub for every method not yet implemented, which panics with a TODO and
     gets OpenTelemetry tracing and eris error wrapping when the signature asks for them;
   - a registry file that lists every implementation's options and one `mockgen` directive per
     contract file.

This project models that core in Dafny and proves what it computes. The modules follow the Go
sources:

- `GoStrings` and `GoPath`: the parts of Go's `strings` and `path` packages the generator
  uses.
- `Types`: the records that pass between stages.
- `ParamList` and `ParamListProps`: `parseParams`.
- `RepoScan` and `RepoScanProps`: the capture loop of `parseRepositories`.
- `ImplScan`: the capture loop of `parseRepositoryImplFile`.
- `ImplMerge`: the merge of `parseRepositoryImpls`.
- `Naming` and `Signature`: the name helpers, `Qualify`, `ParamsSrc`, `ReturnsSrc` and
  `NewMethods`.
- `Templates`: the two code templates.
- `Imports`: `loadLocalPackage` and `collectImports`.
- `FileMerge`: `generateRepositoryImplsForFile` before formatting.
- `Registry`: the sort, the directive de-duplication and the text of
  `generateRepositoryStubFile`.
- `Layout`: `computeImplPackagePath` and the `crawlAPI` callback.
- `Grouping`: `groupByImplFilename` and `groupByPackage`.

The Go code works in place wherever it changes state, and so does the model:

- `Qualify`, `ParamsSrc` and `ReturnsSrc` update an `array<Param>`.
- The records that `collectImports` relabels are an `array<RepositoryImpl>`.
- The registry sorts its records in an array.
- `parseNamedParams` back-fills types into an array.

The model shares no `*Param` between lists. `NewMethods` hands the contract's own parameters on
where it keeps a type, and the template's `Qualify` then renames them in place. `Qualify` is
idempotent (`Signature.QualifiedIdempotent`), so the text written is the same either way.

Most loops of the Go code are a Dafny `method` with a loop, proved against a specification
function. The three scans `HasCtx`, `HasError` and `Named` are recursive functions instead,
each with an `ensures` saying which element it finds. The properties that matter are proved
about the specification functions as lemmas.

The tree-sitter query matches and the directory listings are the inputs of the model:

- A capture stream stands for the matches.
- A `Listing` (for `parseRepositoryImpls`) or a sequence of `Visit`s (for `crawlAPI`) stands
  for a directory.
- A `SourceFile` stands for the implementation file `generateRepositoryImplsForFile` opens.

Go panics that an input can trigger are `Err(Panic(..))` results:

- a params capture before any method name;
- the lone text `(` handed to `parseParams`;
- a method capture without a receiver;
- a parameter or result with an empty type in a contract method the implementation lacks.
  `NewMethods` reads the first byte of every such type. `parseNamedParams` produces an empty
  type for a trailing identifier without a type, as in `(a int, b)`
  (`ParamListProps.TrailingUntyped`). The panic reaches every caller: `collectImports`, the
  implementation file and the registry file.

An I/O failure is `Err(Io(..))`.

Some behaviour is odd but is modelled as written, and a lemma states it:

- `SignatureProps.UnnamedRepeatedType`: two unnamed parameters of the same type are written as
  `, T`. The first one's type is dropped because the next parameter shares it.
- `Layout.InsideRoot`: `computeImplPackagePath` accepts a package path that is shorter than the
  API root and maps it to the implementation root itself.
- `RepoScanProps.OnlyFilteredMatches`: a file whose interface matches were all filtered out
  yields one contract with an empty name.
- `Naming.ImplNameCaseBlind`: two contracts whose names differ only in the case of their first
  letter share one implementation name.

## Model

| member | source | states |
|---|---|---|
| Naming.Name | generate.go:152-157 | a name longer than ten characters that ends in `Repository` loses that suffix and stays non-empty; any other name is kept; the result is empty exactly when the identifier is |
| Naming.QualifyString | generate.go:144-150 | the result ends in the given word; it is exactly that word when the contract is bare (`Repository`) or unnamed, and otherwise it is the contract's short name followed by the word |
| Naming.ImplName | generate.go:159-165 | empty exactly for an empty identifier; otherwise the identifier with its first letter lowered, followed by `Impl` |
| Naming.QualifiedName | generate.go:167-172 | the bare identifier without a package, else `pkg.` followed by the identifier |
| Naming.ImplNameCaseBlind | generate.go:159-165 | two contracts get the same implementation name exactly when their identifiers agree after the first letter and their first letters agree in lower case |
| Naming.HasCtx | generate.go:69-76 | true exactly when some parameter has type `context.Context` |
| Naming.HasError | generate.go:78-85 | true exactly when some parameter has type `error` |
| Naming.Named | generate.go:87-94 | true exactly when some parameter has an identifier |
| Signature.QualifyParam | generate.go:103-114 | the type is kept and the identifier becomes non-empty: a context parameter is called `ctx`, an error `err`, another unnamed parameter `_`, and a named parameter of any other type is left alone |
| Signature.QualifiedUntouched | generate.go:96-102 | a list with no context, no error and no name is returned unchanged, and all its parameters are unnamed |
| Signature.QualifiedNamed | generate.go:96-115 | a list with a context, an error or a name is named throughout: contexts `ctx`, errors `err`, other unnamed parameters `_`, other names kept |
| Signature.QualifiedIdempotent | generate.go:96-115 | qualifying twice, as `ReturnsSrc` does through `ParamsSrc`, gives the same list as qualifying once |
| Signature.Qualify | generate.go:96-115 | the array afterwards holds the qualified list of its old contents |
| Signature.WriteParams | generate.go:119-132 | the loop builds the comma-separated source of the list: an identifier alone when the next parameter has the same type |
| Signature.ParamsSrc | generate.go:117-133 | qualifies the array in place and returns the source of the qualified list |
| Signature.ReturnsSrc | generate.go:135-142 | qualifies the array in place and returns the result source, in parentheses exactly when the qualified list is named |
| Signature.QualifyType | generate.go:36-45 | a type that contains a dot or starts with a lower-case letter is kept; any other type gets the contract's package and a dot in front |
| Signature.QualifyTypeIdempotent | generate.go:36-45 | qualifying a type is idempotent and never gives an empty type |
| Signature.CompositeTypes | generate.go:36-45 | the rule looks only at the first letter: `[]Movie` and `*Movie` become `api.[]Movie` and `api.*Movie`, while `map[string]Movie` is kept |
| Signature.QualifyAll | generate.go:33-53 | the loop qualifies every parameter's type, and panics exactly when some type is empty |
| Signature.MissingExactly | generate.go:23-33 | a method is reported missing exactly when the contract has it and its name is not among the implemented names |
| Signature.NothingMissing | generate.go:23-33 | when every method is implemented, nothing is missing |
| Signature.MissingAppend | generate.go:23-33 | the methods missing from a concatenation are those missing from each part, in order |
| Signature.NewMethods | generate.go:21-67 | the loop returns the missing methods in contract order, with their parameter and result types qualified, or the index panic when a missing method has an empty type |
| Signature.NewMethodsPanics | generate.go:33-53 | `NewMethods` panics exactly when some contract method the implementation lacks has a parameter or a result with an empty type |
| SignatureProps.SourceParses | generate.go:117-133 | reading back `(` + the written list + `)` gives the list itself, for lists of words that are named or whose neighbouring types differ |
| SignatureProps.ParamsRoundTrip | generate.go:117-133 | the parameter source of a qualified list of words reads back to that qualified list |
| SignatureProps.TrailingUntypedPanics | generate.go:33-53 | a missing contract method whose parameter list ends in an untyped identifier makes `NewMethods` panic |
| SignatureProps.NamedReturnsRoundTrip | generate.go:135-142 | named results are written in parentheses, and the result source reads back to the qualified list |
| SignatureProps.UnnamedRepeatedType | generate.go:124-129 | two unnamed parameters of the same type are written as `, T` |
| SignatureProps.UnnamedReturnsBare | generate.go:135-142 | results without a context, an error or a name are written without parentheses and unchanged |
| ParamList.ParamsSpec | parse.go:229-239 | the list is empty exactly when the text is empty or has only white space inside its parentheses; otherwise it has one parameter per comma-separated segment |
| ParamList.TypedIffSpace | parse.go:241-246 | the named-list test (a trimmed segment splits on a space into more than one piece) agrees with `strings.Cut` finding a space |
| ParamList.AnyNamed | parse.go:240-246 | the loop reports whether any segment has both an identifier and a type |
| ParamList.ParseParams | parse.go:229-255 | computes the specification of `parseParams`: named parsing when any segment is named, else positional parsing |
| ParamList.ParsePositionalParams | parse.go:250-254 | every segment, trimmed, becomes the type of an unnamed parameter |
| ParamList.CutSegment | parse.go:261-263 | one segment trimmed and cut at its first space into an identifier, a type and whether there was a type |
| ParamList.FillType | parse.go:268-273 | the array afterwards has the given type in the range of untyped parameters, and nothing else changes |
| ParamList.ParseNamedParams | parse.go:257-279 | every parameter gets its identifier, and its type is the type of the next typed segment at or after it (Go's `a, b int`) |
| ParamListProps.ParseRendered | parse.go:229-255 | any parameter list written with any number of spaces around its words parses to the parameters it spells, named or positional (other white space is not covered) |
| ParamListProps.TrailingUntyped | parse.go:256-278 | a named list whose last segment has no type leaves that last parameter with the empty type |
| GoStrings.CutAtSpec | parse.go:262 | `strings.Cut` finds the separator exactly when it occurs; the text is then the part before, the separator and the part after, with the separator absent from the part before |
| GoStrings.SplitJoin | parse.go:236 | splitting the join of separator-free pieces gives the pieces back |
| GoStrings.JoinSplit | parse.go:236 | joining the pieces of a split gives the text back |
| GoStrings.TrimSpaceEnds | parse.go:242 | the trimmed text is empty or starts and ends outside white space |
| GoStrings.TrimSpaceEmpty | parse.go:237 | the trimmed text is empty exactly when the text is all white space |
| GoStrings.RemoveAll | fs.go:128 | the result has no underscore left and every other character as often as before; it is unchanged exactly when there was none |
| GoStrings.RemoveAllAppend | fs.go:128 | removing from two joined texts is removing from each, then joining |
| GoStrings.ToLower | parse.go:292 | every character is replaced by its lower-case form, and the length is kept |
| GoStrings.LexLessTransitive | generate.go:412-414 | string order is transitive |
| GoStrings.LexLessTotal | generate.go:412-414 | any two different strings are ordered one way or the other |
| GoStrings.Contains | generate.go:25-30 | the scan of implemented names reports whether the method's name is among them |
| GoPath.Clean | fs.go:45-47 | `path.Clean` never gives the empty path |
| GoPath.CleanPlain | fs.go:45-47 | a path of plain segments is already clean |
| GoPath.JoinPlain | fs.go:60 | joining a plain segment onto a plain path puts a slash between them and keeps the path plain |
| GoPath.DirBaseOfPlain | fs.go:33-34 | `path.Dir` and `path.Base` of a plain directory and file name give them back |
| GoPath.DirBaseOfName | fs.go:33-34 | a file name with no directory lies in `.` |
| RepoScan.Step | parse.go:180-219 | one capture keeps the cursor state valid and never drops a finished contract; it panics exactly when a params or result capture comes before any method or carries the lone text `(` |
| RepoScan.ReduceMatch | parse.go:179-220 | the loop over one match's captures computes the reducer over that match |
| RepoScan.ScanSpec | parse.go:156-226 | `ErrNoPackage` exactly when the first match does not hold one capture; every contract found gets the package name of that capture and the file's imports |
| RepoScan.ScanRepositories | parse.go:156-226 | the loop over the matches computes the specification |
| RepoScanProps.StepMethodName | parse.go:195-207 | a method name that differs from the last one appends a new method and moves the cursor to it |
| RepoScanProps.StepParams | parse.go:209-210 | a params capture sets the parameters of the current method to the parsed list |
| RepoScanProps.StepResults | parse.go:211-212 | a result capture sets the results of the current method to the parsed list |
| RepoScanProps.ClassOpens | parse.go:183-194 | a new contract name opens a new, empty contract after the finished ones, with the method cursor at zero |
| RepoScanProps.OneMethod | parse.go:195-212 | the captures of one well-formed method add exactly its decoding to the current contract |
| RepoScanProps.MethodsFrom | parse.go:195-212 | the matches of a list of methods add exactly their decodings, in order |
| RepoScanProps.OneInterface | parse.go:183-212 | the matches of one interface append exactly its decoding to the finished contracts |
| RepoScanProps.Interfaces | parse.go:178-225 | the matches of a list of interfaces give the finished contracts followed by the decoding of every interface |
| RepoScanProps.ScanDecls | parse.go:156-226 | the package match followed by the matches of well-formed interface declarations scans to exactly those contracts, with the package name and the imports filled in |
| RepoScanProps.EmptyMatchesKeepState | parse.go:179-180 | matches whose captures were all filtered out change nothing |
| RepoScanProps.OnlyFilteredMatches | parse.go:172-177 | a package whose interface matches were all filtered out yields one contract with no name |
| ImplScan.Strip | parse.go:427-429 | a pointer receiver loses its star, and any other receiver is kept |
| ImplScan.ScanPanics | parse.go:431-434 | the scan panics exactly when a method capture comes before any receiver; otherwise the receiver is the last one seen |
| ImplScan.PanicSticks | parse.go:433 | once the scan has panicked, later captures do not change the result |
| ImplScan.ScanNames | parse.go:418-422 | the package is the last package capture, and the declarations are exactly the names captured |
| ImplScan.ScanMethods | parse.go:423-445 | a method is listed under a receiver exactly when some method capture names it while that receiver is current |
| ImplScan.ScanMethodsDistinct | parse.go:436-445 | no receiver lists a method twice |
| ImplScan.PointerReceiverShared | parse.go:424-430 | `*T` and `T` select the same receiver `T` |
| ImplScan.ScanImplFile | parse.go:407-462 | the loop over the captures computes the specification of `parseRepositoryImplFile` |
| ImplMerge.DefaultFilename | parse.go:291-293 | the default implementation file name ends in `_impl.go` |
| ImplMerge.MergeMethods | parse.go:348-350 | each receiver's methods are the old ones followed by the new ones |
| ImplMerge.Absorb | parse.go:344-350 | one file sets the package name, files every declaration it makes under its own name and keeps every other declaration's file |
| ImplMerge.EntryStep | parse.go:318-350 | an entry fails exactly when its info, its read or its scan fails; entries that are skipped change nothing; any other entry is absorbed |
| ImplMerge.GatherFails | parse.go:318-343 | gathering fails exactly when some entry fails |
| ImplMerge.GatherPackage | parse.go:344 | the package name is the one in the last scanned file, or the default |
| ImplMerge.GatherMethods | parse.go:348-350 | each receiver's methods are the concatenation, in directory order, of its methods in each scanned file |
| ImplMerge.GatherDeclared | parse.go:345-347 | a declaration is known exactly when some scanned file declares it |
| ImplMerge.GatherDecls | parse.go:345-347 | a known declaration is filed under the last scanned file that declares it |
| ImplMerge.MissingDirectory | parse.go:301-312 | a missing directory makes every record new, with the package name `pkg` + `impl`, its default file name and no methods |
| ImplMerge.ResolvedRecord | parse.go:353-364 | a record is new exactly when no file declares its implementation name; otherwise it has that declaration's file and its methods |
| ImplMerge.DeclareAll | parse.go:345-347 | the loop files every declaration of a scanned file under that file |
| ImplMerge.AppendAll | parse.go:348-350 | the loop appends each receiver's methods to the gathered ones |
| ImplMerge.AbsorbFile | parse.go:344-350 | the method absorbs one scanned file as `Absorb` specifies |
| ImplMerge.GatherEntries | parse.go:318-351 | the loop over the directory entries computes `GatherAll` |
| ImplMerge.GatherAll | parse.go:316-351 | the scan of the implementation directory's entries: the first failing entry's error, or else the package name, each receiver's methods and the file of each declaration; `GatherFails`, `GatherPackage`, `GatherMethods`, `GatherDeclared` and `GatherDecls` are about it |
| ImplMerge.ResolveAll | parse.go:353-364 | the loop resolves every record in place |
| ImplMerge.MarkAllNew | parse.go:305-310 | the loop marks every record new, with its default file and the default package |
| ImplMerge.MergeSpec | parse.go:281-366 | no contracts gives an empty result; a result has one record per contract, in order, with the implementation path; an error comes exactly from a failed listing or a failing entry |
| ImplMerge.ParseRepositoryImpls | parse.go:281-366 | the method computes the merge specification |
| Imports.ExistingAlias | fs.go:114-125 | an alias is found exactly when the file imports the path, and it is the alias of the first such import |
| Imports.DefaultAlias | fs.go:127-131 | the default alias has no underscore; it is empty when the base name has none, and otherwise it is the base name without underscores |
| Imports.LoadLocalPackage | fs.go:99-133 | the import path is the package path under the module; the alias is the file's own alias for that path, else the default alias |
| Imports.LocalPackage | fs.go:99-133 | the import `loadLocalPackage` returns: the package path under the module, aliased by the file's own alias for that path, else by the default alias; `AliasFromFile` and `AliasByDefault` state the two cases |
| Imports.AliasFromFile | fs.go:114-125 | when the file imports the package, its alias is the one that first import uses |
| Imports.AliasByDefault | fs.go:127-132 | when the file does not import the package, the alias is the default |
| Imports.MethodImportCounts | generate.go:514-526 | a method stub asks once for each of `context`, `otel` and `otel/codes` when it has a context parameter, and once for `eris` when it returns an error |
| Imports.TracingImportsCounted | generate.go:512-527 | the tracing imports appear once per missing method with a context parameter |
| Imports.ErisImportsCounted | generate.go:512-527 | `eris` appears once per missing method returning an error |
| Imports.Relabel | generate.go:502-509 | with a file and a non-empty alias, the contract package (API import) or the implementation package (otherwise) becomes the alias; nothing else changes, and without a file or alias the record is unchanged |
| Imports.Unused | generate.go:528-533 | no import whose path the file already has is kept, and every other import keeps its number of occurrences |
| Imports.UsedPaths | generate.go:476-482 | the loop collects the paths the file already imports |
| Imports.AppendMethodImports | generate.go:514-526 | the loop appends the imports each missing method asks for |
| Imports.DropUsed | generate.go:528-533 | the loop keeps exactly the imports not in the file |
| Imports.RelabelOne | generate.go:488-510 | one record's import comes from `loadLocalPackage`, and its alias relabels the record when there is a file |
| Imports.RelabelAll | generate.go:487-511 | the loop returns the local import of every record and relabels every record in place |
| Imports.AppendRecordImports | generate.go:512-527 | the loop appends every record's own imports and its methods' imports, or panics exactly when some record's new methods cannot be computed |
| Imports.CollectImports | generate.go:470-535 | asking for both API and implementation imports is an error and changes nothing; otherwise the records are relabelled, and the result is the `NewMethods` panic, or `fx`, the local imports, then the records' imports, without the paths the file already has |
| Imports.CollectSpec | generate.go:470-535 | the imports `collectImports` returns: the error for both API and implementation imports, the `NewMethods` panic, or else `fx`, the local imports, then the records' imports, without the paths the file already has; `CollectFails`, `AlwaysFx` and `NoneUsed` are about it |
| Imports.RelabeledComputable | generate.go:502-509 | relabelling neither causes nor removes a `NewMethods` panic |
| Imports.UncomputableWhen | generate.go:512-514 | some record's new methods cannot be computed exactly when some record lacks a contract method that has an empty type |
| Imports.CollectFails | generate.go:484-514 | `collectImports` fails exactly when both imports are asked for or some missing method has an empty type, the latter with the index panic |
| Imports.AlwaysFx | generate.go:483 | `go.uber.org/fx` is always requested unless the file already imports it |
| Imports.NoneUsed | generate.go:528-533 | no import in the result repeats a path the file already imports |
| Imports.RelabelledFromFile | generate.go:502-509 | a record whose package the file imports under an alias takes that alias as its package or implementation package name |
| Imports.RelabelledByDefault | generate.go:502-509 | a record whose package the file does not import takes the default alias, when it is not empty, as its package or implementation package name |
| Imports.NoFileNoRelabel | generate.go:503 | without a file nothing is relabelled |
| Templates.StubTraced | generate.go:176-177 | the filled method template has a tracing line exactly when tracing is asked for |
| Templates.StubWrapped | generate.go:178-196 | the filled method template has an error-wrap line exactly when wrapping is asked for |
| Templates.StubSpanEnd | generate.go:178-186 | the span is ended inside the deferred function exactly when there is both tracing and wrapping |
| Templates.StubSpanDefer | generate.go:187-188 | `defer span.End()` appears exactly with tracing and no wrapping |
| Templates.StubDeferOpen | generate.go:179-197 | a deferred function is opened exactly when errors are wrapped |
| Templates.TracedIffContext | generate.go:176-177 | a stub starts a span exactly when the method takes a `context.Context` |
| Templates.WrappedIffError | generate.go:178-196 | a stub wraps the error exactly when the method returns an `error` |
| Templates.OneDefer | generate.go:176-199 | a stub defers exactly one of span ending and error wrapping, and which one is set by the context parameter and the error result |
| Templates.MethodStub | generate.go:174-227 | `methodTemplate` filled for one missing method of a record; its lines are the ones `TracedIffContext`, `WrappedIffError`, `OneDefer` and `StubShape` state |
| Templates.StubShape | generate.go:174-201 | a stub starts with a blank line and the signature line, and ends with the TODO panic and the closing brace |
| Templates.DeclParts | generate.go:229-250 | the declaration template defines the options variable, provides the constructor, builds the implementation from the dependencies and embeds them in the struct |
| Templates.DeclWiring | generate.go:229-250 | for a contract, the options are `QualifyString("Options")`, the constructor is `New` + the identifier and returns the API interface, and the struct is the implementation name |
| Templates.BareNames | generate.go:144-150 | the options variable is plain `Options` exactly for the bare or unnamed contract |
| Templates.RepositoryDecl | generate.go:229-268 | `repositoryTemplate` filled for one new record; its lines are the ones `DeclParts` and `DeclWiring` state |
| FileMerge.HeadLength | generate.go:301-308 | the copied head ends at the first line starting with `package`, or takes the whole file when there is none |
| FileMerge.CopyHead | generate.go:301-308 | the scanner loop copies exactly the head lines, each ending in a newline |
| FileMerge.CopyRest | generate.go:338-342 | the second scanner loop copies the remaining lines |
| FileMerge.WriteImports | generate.go:329-335 | the loop writes one import line per required import |
| FileMerge.AppendDecls | generate.go:345-354 | the loop appends the declarations of every new record, in order |
| FileMerge.AppendRecordStubs | generate.go:358-364 | the loop appends a stub for every missing method of one record |
| FileMerge.AppendStubs | generate.go:357-365 | the loop appends the stubs of every record, in order |
| FileMerge.WriteBody | generate.go:329-365 | imports, then the rest of the original file, then the new declarations and stubs |
| FileMerge.GenerateImplsForFile | generate.go:272-366 | no records gives the empty text; an unreadable file is an error; a `collectImports` panic is passed on; otherwise the text is `MergedFile`; the records are relabelled from the file's imports once the file is read |
| FileMerge.MergedFile | generate.go:272-366 | the text of `generateRepositoryImplsForFile`: empty without records, the read error of an unreadable file, the `NewMethods` panic, or else the file's head (a new header for a new file), the imports it lacks, the rest of the file, then the declarations and stubs of the relabelled records; `MergedFails`, `OriginalKept` and `NewFileStart` are about it |
| FileMerge.MergedFails | generate.go:272-325 | an implementation file fails exactly when there are records and the file is unreadable or some missing method has an empty type |
| FileMerge.OriginalKept | generate.go:301-342 | removing the inserted import block from the merged file leaves the original file, followed by the appended code |
| FileMerge.HeaderClause | generate.go:310-315 | the header of a new file ends with the package clause of the implementation package |
| FileMerge.NewFileStart | generate.go:309-316 | a new file is the header, the imports, then the appended code |
| FileMerge.NoNewDecls | generate.go:345-354 | nothing is declared exactly when no record is new |
| FileMerge.NoNewStubs | generate.go:357-365 | no stub is written exactly when no record misses a method |
| FileMerge.NewDeclsAppend | generate.go:345-354 | the declarations for two record lists are those for each list, in order |
| FileMerge.NewStubsAppend | generate.go:357-365 | the stubs for two record lists are those for each list, in order |
| Registry.ComparatorAgrees | generate.go:402-415 | outside a tie of two bare contracts in one package, the Go comparator is the model's strict order |
| Registry.ComparatorTie | generate.go:405-408 | two bare contracts in one package each compare before the other, so their order is unspecified |
| Registry.BeforeAsymmetric | generate.go:402-415 | a record that sorts before another does not come after it |
| Registry.NotAfterTotal | generate.go:402-415 | the order is total |
| Registry.NotAfterTransitive | generate.go:402-415 | the order is transitive |
| Registry.GoLess | generate.go:402-415 | the `sort.Slice` comparator as written: across implementation packages by package name; within one, a bare first argument is always less, a bare second one never, and otherwise by identifier; `ComparatorAgrees` and `ComparatorTie` relate it to the model's order |
| Registry.SortRecords | generate.go:402-415 | the array ends sorted and is a permutation of its old contents |
| Registry.SortedGrouped | generate.go:402-415 | in sorted order, the records of one implementation package are contiguous |
| Registry.SortedBareFirst | generate.go:405-411 | in sorted order, the bare contract of a package comes first |
| Registry.MockDirectives | generate.go:416-431 | the loop keeps the first mock directive for each contract file, in record order |
| Registry.DirectivesDistinct | generate.go:416-431 | no contract file gets two directives |
| Registry.DirectivesCover | generate.go:416-431 | every record's contract file gets a directive |
| Registry.DirectiveOfFirst | generate.go:416-431 | each directive is the one of the first record naming its contract file |
| Registry.EntryDeclared | generate.go:382-384 | each registry entry names an options variable that the declaration template defines |
| Registry.StubPackage | generate.go:434-442 | the package clause is the alias of the implementation root, or else its base name |
| Registry.StubImportsRequested | generate.go:443-453 | the registry imports the implementation packages, not the API ones, with `fx` first and nothing dropped |
| Registry.StubText | generate.go:369-386 | `repositoryStubFileTemplate` filled: the notice, the package clause, one `mockgen` directive per mock, one import clause per import, then one `fx.Options` entry per record naming its options variable |
| Registry.GenerateStubFile | generate.go:388-468 | sorts the records in place (a permutation) and returns the template text for the sorted records, or the `NewMethods` panic exactly when some missing method has an empty type |
| Registry.StubFile | generate.go:388-468 | the registry text of `generateRepositoryStubFile`: the `NewMethods` panic when some missing method has an empty type, otherwise `StubText` with the package of `StubPackage`, the directives of `MockDirectives` and the imports of `StubImports`, `collectImports` without a file |
| Registry.ComputablePermuted | generate.go:402-415 | sorting the records neither causes nor removes a `NewMethods` panic |
| Layout.ComputeImplPackagePath | fs.go:44-63 | the loop over the package path's segments computes `ImplPackagePath` |
| Layout.ImplPackagePath | fs.go:44-63 | what `computeImplPackagePath` returns: the three paths cleaned, then `Rebased`, which joins the package path's segments past the root's onto the implementation root, or fails when a shared segment differs; `DotRootJoinsAll`, `NestedPackage`, `InsideRoot` and `OutsideRoot` are about it |
| Layout.DotRootJoinsAll | fs.go:53 | with `.` as the API root, every segment of the package path is joined onto the implementation root |
| Layout.NestedPackage | fs.go:44-63 | a package `root/rest` maps to `implRoot/rest` |
| Layout.InsideRoot | fs.go:52-61 | a package path that is a proper prefix of the root maps to the implementation root itself |
| Layout.OutsideRoot | fs.go:54-57 | a package path whose first segment differs from the root's is an error |
| Layout.Visited | fs.go:23-36 | the callback fails exactly on a walk error; otherwise it files each wanted `.go` file under its directory |
| Layout.CrawlApi | fs.go:17-42 | the walk computes `Crawled` |
| Layout.Crawled | fs.go:17-42 | what `crawlAPI` returns: the first walk error, or else the wanted files grouped by directory in walk order; `CrawlLists`, `CrawlOrder`, `CrawlPlacesFile` and `CrawlFails` are about it |
| Layout.WantedFilesExactly | fs.go:27-32 | a path is kept exactly when it is a visited file ending in `.go` and not in `_test.go` |
| Layout.CrawlLists | fs.go:23-37 | a file name is listed under a directory exactly when some kept file has that directory and base name |
| Layout.CrawlOrder | fs.go:33-35 | each directory's list holds its files in walk order and is never empty |
| Layout.CrawlPlacesFile | fs.go:33-35 | a kept file `d/f` is listed as `f` under `d` |
| Layout.CrawlFails | fs.go:24-26 | any walk error makes the crawl fail |
| Grouping.GroupByImplFilename | main.go:183-192 | the loop builds the grouping by implementation file, and every record is in its file's group |
| Grouping.GroupByPackage | main.go:172-181 | the loop builds the grouping by API package, and every record is in its package's group |
| Grouping.GroupIsMembers | main.go:183-192 | a key has a group exactly when some record has that key, and the group is those records in input order |
| Grouping.MembersExactly | main.go:183-192 | a record is in a key's group exactly when it has that key |
| Grouping.KeysOfGroup | main.go:183-192 | the keys in order of first appearance are exactly the group keys, each once |
| Grouping.GroupSizes | main.go:183-192 | the groups together hold as many records as the input |
| Grouping.NoEmptyGroup | main.go:183-192 | no group is empty |
| Grouping.ImplFileGroups | main.go:183-192 | a file's group holds exactly the records that name that file |

## Left out

- Parsing. tree-sitter and `go/parser` are outside the model. Their output is the input, as a capture stream per match or a list of imports.
- The imports of a contract file are given, already unquoted, so the leaked `strconv.Unquote` error of `loadLocalPackage` is not modelled.
- Quoting. `strconv.Quote` in import lines is written as plain double quotes, with no escaping.
- I/O becomes parameters: opening, reading, listing and walking files, `errors.Is` and the `fs.PathError` cast.
- `getModule` is not part of this model. The module path is a parameter of `loadLocalPackage`.
- `formatImports` (goimports) is not part of this model. The generated text is what goes into it; it is the formatter that later removes duplicate imports.
- `text/template` is replaced by its expansion, written out line by line.
- `bufio.Scanner` is modelled as a file given as a list of lines. Its line splitting and the \r handling of its line endings are out.
- The 64 KiB line limit of `bufio.Scanner`. On a longer line `Scan` stops, and since `Err()` is never checked (generate.go:301-342), the rest of the file is silently dropped from the output. The model copies every line.
- Out: the CLI, logging, the `run` orchestration, the stat, mkdir and write calls, and `parseRepositoriesForPackage`.
- `groupByPackage` is modelled, though the Go code never calls it.
- Text is `seq<char>`. Go compares and indexes bytes, so behaviour outside ASCII is not modelled.
- `GoStrings.ToLower`: covers only ASCII letters, not all of Unicode.
- `GoStrings.IsSpace`: covers white space only within Latin-1.
- `Registry.SortRecords`: it is an insertion sort, not Go's `sort.Slice`. Two bare contracts in one package may end up in either order in Go; the model keeps them in input order.
- `ParamList.ParseParams`: requires the text not to be the lone `(`, on which Go slices out of range. The capture reducers turn that case into `Err(Panic(..))`.
- `ParamListProps.ParseRendered`: the padding it covers is spaces only. Tabs and other white space around a segment are also trimmed by the parser, but inside a segment only a space separates an identifier from its type (parse.go:242, parse.go:262), so `(id\tint)` is one unnamed parameter of type `id\tint`.
- `ImplScan.ScanNames`: the declarations are a set. Go returns them in map order, which has no meaning.
- `Layout.CrawlApi`: the `WalkDir` traversal is its list of visits in walk order, with the root as an ordinary directory visit. `WalkDir` passes `d == nil` only together with an error, and that error is a `Failure` visit.
