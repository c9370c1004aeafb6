/**
 The sanity check of ontology definitions, as the source runs it: one pass
 over the types and one over the symbols, each with a running set of names
 and an early exit at the first violation.
 */
module SanityCheck {
  import opened Records
  import opened Ontology
  import opened OntologyFacts

  /**
   The walk over one record's keys: stops at the first key that is not
   allowed, or that already occurred in the record; otherwise yields the set
   of the record's keys.
   */
  method WalkKeys(r: Record, allowed: set<string>) returns (keys: set<string>, problem: Option<Problem>)
    ensures problem == ScanKeys(r, allowed, {})
    ensures problem.None? <==> KeySet(r) <= allowed && DistinctKeys(r)
    ensures problem.None? ==> keys == KeySet(r)
  {
    ScanKeysAccepts(r, allowed, {});
    keys := {};
    var j := 0;
    assert r[0..] == r;
    while j < |r|
      invariant 0 <= j <= |r|
      invariant keys == KeySet(r[..j])
      invariant ScanKeys(r[j..], allowed, keys) == ScanKeys(r, allowed, {})
    {
      var key := r[j].0;
      assert r[j..][1..] == r[j + 1..];
      if key !in allowed {
        return keys, Some(InvalidKey(key));
      }
      if key in keys {
        return keys, Some(DuplicateKey(key));
      }
      KeySetSnoc(r, j);
      keys := keys + {key};
      j := j + 1;
    }
    assert r[..j] == r;
    problem := None;
  }

  /**
   The checks on one type, given the names of the types before it: its keys,
   its mandatory keys, then the uniqueness of its name. On success also
   returns the set of its keys.
   */
  method CheckTypeRecord(type_: Record, typeNames: set<string>) returns (keys: set<string>, problem: Option<Problem>)
    ensures problem == CheckType(type_, typeNames)
    ensures problem.None? ==> keys == KeySet(type_)
  {
    keys, problem := WalkKeys(type_, TypeKeys);
    if problem.Some? {
      return;
    }
    if !(TypeMandatoryKeys <= keys) {
      return keys, Some(MissingKeys(TypeMandatoryKeys - keys));
    }
    if NameOf(type_) in typeNames {
      return keys, Some(NonUniqueName(NameOf(type_)));
    }
  }

  /**
   The pass over the types: each type is checked against the names declared
   before it, then its name is declared. Returns the first violation, or the
   names of all types, together with the indices of the types whose supertype
   was reported unknown on the way.
   */
  method CheckTypes(types: seq<Record>) returns (scan: Scan, warned: seq<nat>)
    ensures scan == ScanTypes(types)
    ensures scan.Scanned? ==> scan.names == Names(types) && warned == SupertypeWarnings(types)
    ensures scan.Stopped? ==> scan.violation.idx < |types| && warned == SupertypeWarnings(types[..scan.violation.idx])
  {
    warned := [];
    var typeNames: set<string> := {};
    var i := 0;
    while i < |types|
      invariant 0 <= i <= |types|
      invariant ScanTypes(types[..i]) == Scanned(typeNames)
      invariant typeNames == Names(types[..i])
      invariant warned == SupertypeWarnings(types[..i])
    {
      var type_ := types[i];
      var keys, problem := CheckTypeRecord(type_, typeNames);
      if problem.Some? {
        scan := Stopped(Violation(Types, i, problem.value));
        ScanTypesStepStops(types, i, typeNames, problem.value);
        ScanTypesPrefix(types, i + 1);
        return;
      }
      SupertypeWarningsStep(types, i);
      if "supertype" in keys && StrAt(type_, "supertype") !in typeNames {
        warned := warned + [i];
      }
      ScanTypesStep(types, i);
      NamesSnoc(types, i);
      typeNames := typeNames + {NameOf(type_)};
      i := i + 1;
    }
    assert types[..i] == types;
    scan := Scanned(typeNames);
  }

  /**
   The checks on one symbol, given the names of the symbols before it and of
   all types: its keys, its mandatory keys, the uniqueness of its name, each
   argument type in order, then its return type.
   */
  method CheckSymbolRecord(symbol_: Record, symbolNames: set<string>, typeNames: set<string>)
    returns (problem: Option<Problem>)
    ensures problem == CheckSymbol(symbol_, symbolNames, typeNames)
  {
    var keys;
    keys, problem := WalkKeys(symbol_, SymbolKeys);
    if problem.Some? {
      return;
    }
    if !(SymbolMandatoryKeys <= keys) {
      return Some(MissingKeys(SymbolMandatoryKeys - keys));
    }
    if NameOf(symbol_) in symbolNames {
      return Some(NonUniqueName(NameOf(symbol_)));
    }
    var argTypes := StrsAt(symbol_, "arg_types");
    var k := 0;
    assert argTypes[0..] == argTypes;
    while k < |argTypes|
      invariant 0 <= k <= |argTypes|
      invariant FirstUnknown(argTypes[k..], typeNames) == FirstUnknown(argTypes, typeNames)
    {
      assert argTypes[k..][1..] == argTypes[k + 1..];
      if argTypes[k] !in typeNames {
        return Some(UnknownArgType(argTypes[k]));
      }
      k := k + 1;
    }
    var returnType := StrAt(symbol_, "return_type");
    if returnType !in typeNames {
      return Some(UnknownReturnType(returnType));
    }
  }

  /**
   The pass over the symbols, against the names of all types: each symbol is
   checked against the symbol names declared before it, then its name is
   declared.
   */
  method CheckSymbols(symbols: seq<Record>, typeNames: set<string>) returns (scan: Scan)
    ensures scan == ScanSymbols(symbols, typeNames)
  {
    var symbolNames: set<string> := {};
    var i := 0;
    while i < |symbols|
      invariant 0 <= i <= |symbols|
      invariant ScanSymbols(symbols[..i], typeNames) == Scanned(symbolNames)
    {
      var symbol_ := symbols[i];
      var problem := CheckSymbolRecord(symbol_, symbolNames, typeNames);
      if problem.Some? {
        scan := Stopped(Violation(Symbols, i, problem.value));
        ScanSymbolsStepStops(symbols, typeNames, i, symbolNames, problem.value);
        ScanSymbolsPrefix(symbols, typeNames, i + 1);
        return;
      }
      ScanSymbolsStep(symbols, typeNames, i);
      symbolNames := symbolNames + {NameOf(symbol_)};
      i := i + 1;
    }
    assert symbols[..i] == symbols;
    scan := Scanned(symbolNames);
  }

  /**
   The check proper: the types first, then the symbols against the names of
   all types. Returns the first violation in scan order (or Pass) and the
   indices of the types whose supertype was reported unknown, a report that
   never stops the check.
   */
  method CheckOntology(types: seq<Record>, symbols: seq<Record>) returns (outcome: Outcome, warned: seq<nat>)
    ensures outcome == Validate(types, symbols)
    ensures outcome == Pass <==> WellFormed(types, symbols)
    ensures outcome.Fail? && outcome.violation.collection == Types ==>
              outcome.violation.idx < |types| && warned == SupertypeWarnings(types[..outcome.violation.idx])
    ensures !(outcome.Fail? && outcome.violation.collection == Types) ==> warned == SupertypeWarnings(types)
  {
    ValidateCorrect(types, symbols);
    ScanTypesCorrect(types);
    var typeScan;
    typeScan, warned := CheckTypes(types);
    if typeScan.Stopped? {
      return Fail(typeScan.violation), warned;
    }
    ScanSymbolsCorrect(symbols, typeScan.names);
    var symbolScan := CheckSymbols(symbols, typeScan.names);
    if symbolScan.Stopped? {
      return Fail(symbolScan.violation), warned;
    }
    outcome := Pass;
  }

  /** How the public entry point ends: it returns normally, or it raises. */
  datatype Completion = Normal | Raised

  /** The public entry point: raises exactly when the ontology is not well formed. */
  method Check(types: seq<Record>, symbols: seq<Record>) returns (c: Completion)
    ensures c == Raised <==> !WellFormed(types, symbols)
    ensures c == Raised <==> Validate(types, symbols).Fail?
  {
    var outcome, _ := CheckOntology(types, symbols);
    if outcome == Pass {
      c := Normal;
    } else {
      c := Raised;
    }
  }
}
