# Ontology sanity check, modelled in Dafny

This project models the validator of ontology definitions in the geosolver
repository (`ontology/sanity_check.py`). An ontology is a sequence of *type*
records and a sequence of *symbol* records. The check makes one pass over the
types and then one pass over the symbols. It stops at the first violation:

- a key that is not allowed for the record's kind;
- a key written twice in one record;
- a missing mandatory key;
- a name already used by an earlier record of the same kind;
- a symbol's argument type or return type that is not the name of any type.

A type whose `supertype` is not among the types declared before it is only
reported. That report never stops the scan, and the type's name is still
declared.

Layout:

- `records.dfy` (module `Records`): a record is the ordered list of its
  key/value entries, `seq<(string, Value)>`, so that a repeated key can be
  represented. `Value` is a string or a list of strings. `Lookup` is
  dictionary indexing on a key known to be present.
- `ontology.dfy` (module `Ontology`): the specification, read two ways. The
  scan-order reading (`ScanKeys`, `CheckType`, `CheckSymbol`, `ScanTypes`,
  `ScanSymbols`, `Validate`) yields the first violation, each violation
  kind standing for one error message of the source. The declarative reading is
  `WellFormed`. `SupertypeWarnings` lists the unknown-supertype reports.
- `ontology_facts.dfy` (module `OntologyFacts`): lemmas. They show that the
  two readings agree, that a reported violation is real and sits at the first
  bad record, and that supertypes never change the verdict.
- `sanity_check.dfy` (module `SanityCheck`): the imperative check.
  `CheckOntology` models `_sanity_check`; `CheckTypes` and `CheckSymbols`
  are its two loops; `CheckTypeRecord` and `CheckSymbolRecord` are the
  bodies of those loops for one record; `WalkKeys` is the inner loop over a
  record's keys that both share. `Check` models `sanity_check`, which raises
  on failure.
- `examples_check.dfy` (module `OntologyExamples`): small ontologies with the
  verdict the check reaches on each.

## Model

| member | source | states |
|---|---|---|
| `Records.Lookup` | ontology/sanity_check.py:46 | indexing a record finds a value exactly when the key is one of the record's keys, and the value found is stored under that key |
| `Records.LookupDistinct` | ontology/sanity_check.py:46 | once a record has no repeated key, indexing returns the one value stored under the key, as a dictionary does |
| `Ontology.ScanKeys` | ontology/sanity_check.py:33-41 | the key walk reports only an invalid key, which is a key of the record outside the allowed set, or a duplicate key, which is an allowed key of the record |
| `Ontology.FirstUnknown` | ontology/sanity_check.py:71-74 | the walk over `arg_types` finds nothing iff every argument type is a declared type; whatever it finds is the first argument type, in list order, that is not declared |
| `Ontology.CheckType` | ontology/sanity_check.py:33-48 | a problem with one type is an invalid key, a duplicate key, a non-empty set of missing keys drawn from {name}, or the record's own name already among the earlier type names |
| `Ontology.CheckSymbol` | ontology/sanity_check.py:55-77 | a problem with one symbol names a non-empty set of missing mandatory keys, the record's own name already among the earlier symbol names, one of its argument types that is not a type name, or its return type when that is not a type name |
| `Ontology.ScanTypes` | ontology/sanity_check.py:31-51 | when the pass over the types stops, the violation is in the types and at the index of an existing type |
| `Ontology.ScanSymbols` | ontology/sanity_check.py:53-79 | when the pass over the symbols stops, the violation is in the symbols and at the index of an existing symbol |
| `Ontology.Validate` | ontology/sanity_check.py:21-82 | a violation points at an existing record, and a symbol is reported only once every type has passed |
| `Ontology.SupertypeWarnings` | ontology/sanity_check.py:49-50 | the supertype reports are indices of existing types, at most as many as there are types |
| `OntologyFacts.ScanKeysAccepts` | ontology/sanity_check.py:33-41 | the key walk finds no problem iff every key is allowed and no key occurs twice |
| `OntologyFacts.ScanKeysReports` | ontology/sanity_check.py:34-40 | an invalid-key report names a key of the record outside the allowed set; a duplicate-key report names an allowed key that occurs twice; either way the key is the first entry, in iteration order, that is not allowed or repeats an earlier one, and every entry before it is allowed and new |
| `OntologyFacts.CheckTypeAccepts` | ontology/sanity_check.py:33-48 | a type record passes iff its keys are allowed and distinct, `name` is present, and its name is not among the earlier type names |
| `OntologyFacts.CheckSymbolAccepts` | ontology/sanity_check.py:55-77 | a symbol record passes iff its keys are allowed and distinct, all four mandatory keys are present, its name is new, and every argument type and the return type are declared types |
| `OntologyFacts.CheckTypeReports` | ontology/sanity_check.py:34-48 | a problem reported for a type is one of invalid key, duplicate key, missing keys or non-unique name, and it is true of the record; the missing set is exactly the absent mandatory keys; every earlier check on the record passed: a key problem is the first bad entry, missing keys are looked for only once the keys are allowed and distinct, the name only once the record is well shaped |
| `OntologyFacts.CheckSymbolReports` | ontology/sanity_check.py:56-77 | a problem reported for a symbol is true of the record: the key, the missing set, the repeated name, the undeclared argument type or the undeclared return type; every earlier check passed: an argument type is reported only for a well-shaped symbol with a new name, and it is the first undeclared one; the return type only once every argument type is declared |
| `OntologyFacts.ScanTypesPrefix` | ontology/sanity_check.py:37-48 | once the type pass has stopped at some record, the later types cannot change the outcome |
| `OntologyFacts.ScanTypesCorrect` | ontology/sanity_check.py:31-51 | the type pass gets through iff the types are well formed, and it then holds exactly the names of all types |
| `OntologyFacts.ScanTypesStopsAt` | ontology/sanity_check.py:32-48 | when the type pass stops, every type before the reported index passed, and the type at that index fails with the reported problem |
| `OntologyFacts.ScanSymbolsPrefix` | ontology/sanity_check.py:59-77 | once the symbol pass has stopped at some record, the later symbols cannot change the outcome |
| `OntologyFacts.ScanSymbolsCorrect` | ontology/sanity_check.py:53-79 | the symbol pass gets through iff the symbols are well formed over the given type names, and it then holds exactly the names of all symbols |
| `OntologyFacts.ScanSymbolsStopsAt` | ontology/sanity_check.py:54-77 | when the symbol pass stops, every symbol before the reported index passed, and the symbol at that index fails with the reported problem |
| `OntologyFacts.ValidateCorrect` | ontology/sanity_check.py:21-82 | the check passes exactly when the ontology is well formed (`WellFormed`: every record has only allowed keys, none twice, and all mandatory keys; names are unique per kind; every argument type and return type is a type name), in both directions |
| `OntologyFacts.UniqueNamesCount` | ontology/sanity_check.py:46-48 | the names of a sequence of records are unique exactly when there are as many distinct names as records, and there are never more |
| `OntologyFacts.FirstViolation` | ontology/sanity_check.py:31-79 | the reported violation is the first in scan order: all types come before all symbols, every earlier record is well formed, the problem is true of the record at the reported index, and every check before it on that record passed |
| `OntologyFacts.RejectsMalformedType` | ontology/sanity_check.py:34-45 | a type record with a key outside {name, supertype, label}, a repeated key or no `name` makes the check fail |
| `OntologyFacts.RejectsMalformedSymbol` | ontology/sanity_check.py:56-67 | a symbol record with a key outside {name, arg_types, return_type, lemma, label}, a repeated key or a missing mandatory key makes the check fail |
| `OntologyFacts.RejectsUnresolvedSymbol` | ontology/sanity_check.py:71-77 | a symbol whose argument type or return type names no type anywhere in the type sequence makes the check fail |
| `OntologyFacts.DuplicateTypeNameAtLater` | ontology/sanity_check.py:46-51 | a type name used twice is reported as non-unique at the later record, because a name is declared only after its record passes |
| `OntologyFacts.DuplicateSymbolNameAtLater` | ontology/sanity_check.py:68-79 | a symbol name used twice is reported as non-unique at the later symbol |
| `OntologyFacts.SupertypeWarningsExact` | ontology/sanity_check.py:49-50 | a type's index is reported iff it has a `supertype` that is not among the types declared before it |
| `OntologyFacts.SupertypeWarningsIncreasing` | ontology/sanity_check.py:32-50 | the supertype reports come in scan order |
| `OntologyFacts.SupertypeIrrelevant` | ontology/sanity_check.py:49-51 | changing the values stored under `supertype` never changes the outcome of the check |
| `SanityCheck.WalkKeys` | ontology/sanity_check.py:33-41 | the loop over a record's keys returns the key walk's first problem; when there is none, the keys are allowed and distinct and the set it built is the record's key set |
| `SanityCheck.CheckTypeRecord` | ontology/sanity_check.py:33-48 | the checks on one type return exactly the problem the specification assigns to it, and on success the set of its keys |
| `SanityCheck.CheckTypes` | ontology/sanity_check.py:31-51 | the type loop computes the type pass; on success its name set is the names of all types; its supertype reports are those of the types it processed |
| `SanityCheck.CheckSymbolRecord` | ontology/sanity_check.py:55-77 | the checks on one symbol, with the loop over its argument types, return exactly the problem the specification assigns to it |
| `SanityCheck.CheckSymbols` | ontology/sanity_check.py:53-79 | the symbol loop computes the symbol pass against the complete set of type names |
| `SanityCheck.CheckOntology` | ontology/sanity_check.py:21-82 | returns the first violation in scan order, or Pass exactly when the ontology is well formed; it also returns the unknown-supertype reports made before it stopped |
| `SanityCheck.Check` | ontology/sanity_check.py:14-18 | raises exactly when the ontology is not well formed, and otherwise completes normally |
| `OntologyExamples.AcceptsSmallOntology` | ontology/sanity_check.py:31-82 | two types and a symbol over them pass |
| `OntologyExamples.RejectsUnknownReturnType` | ontology/sanity_check.py:75-77 | the same symbol with an undeclared return type is reported at symbol 0 |
| `OntologyExamples.RejectsDanglingArgType` | ontology/sanity_check.py:71-74 | an undeclared argument type is reported |
| `OntologyExamples.RejectsUnknownTypeKey` | ontology/sanity_check.py:35-37 | a type with the key `color` is reported as having an invalid key |
| `OntologyExamples.RejectsMissingLemma` | ontology/sanity_check.py:64-67 | a symbol without `lemma` is reported as missing exactly {lemma} |
| `OntologyExamples.RejectsRepeatedTypeName` | ontology/sanity_check.py:46-48 | of two types both named Entity, the second is reported |
| `OntologyExamples.ForwardSupertypeOnlyReported` | ontology/sanity_check.py:49-51 | a supertype declared only later is reported at its type, yet the ontology passes |

## Left out

- Logging. The `logging.info` and `logging.error` calls and their formatted text are not modelled. Each error message becomes a `Problem` inside the returned `Violation`. The unknown-supertype message becomes an index in the second result of `CheckOntology`.
- Error location. Six messages locate the record by index, as the model's `Violation` does: every type message (ontology/sanity_check.py:36, :39, :44, :47) and the invalid-key and duplicate-key messages for symbols (:58, :61). Five messages print the whole record instead: the symbol messages for missing keys, non-unique name, unknown argument type and unknown return type (:66, :69, :73, :76), and the unknown-supertype message (:50). For those the model reports the record's index, which identifies the same record. The missing-keys message for a symbol prints a list, not a set; only the set's contents are modelled.
- The exception. `sanity_check` raises a plain `Exception` with a fixed message. `Check` returns `Raised` instead.
- Ill-typed values. In the source, a list stored under `name`, `supertype` or `return_type` makes the set lookup raise `TypeError`. A string stored under `arg_types` is walked character by character. The model types values as string or list of strings. Its accessors read a value of the other shape as "" or as the empty list, so on such input the model's verdict can differ from what the source does: a `TypeError` for a list under `name`, `supertype` or `return_type`, or, for a string under `arg_types`, a character-by-character walk that usually returns False.
- Records.Lookup: an absent key gives `None`, whereas Python's indexing raises `KeyError`. The check never indexes an absent key: `name`, `arg_types` and `return_type` are read only after the mandatory-key check, and `supertype` only after testing that it is present.
- Dictionaries. Key order is the order of the record's entries; hashing is not modelled.
- Loop structure. `_sanity_check` is one function with both loops inline. The model splits it into `CheckTypes` and `CheckSymbols`, moves each loop's body into `CheckTypeRecord` and `CheckSymbolRecord`, and moves the key loop that both passes repeat into `WalkKeys`. The order of the checks and the early exits are unchanged.
