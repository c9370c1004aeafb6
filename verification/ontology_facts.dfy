/**
 Properties of the sanity check's specification: the first-violation scan
 accepts exactly the well-formed ontologies, a reported violation is real and
 sits at the first bad record, and supertypes never change the verdict.
 */
module OntologyFacts {
  import opened Records
  import opened Ontology

  // ---------------------------------------------------------------------------
  // Sequences of records, one element at a time
  // ---------------------------------------------------------------------------

  lemma DistinctKeysCons(r: Record)
    requires r != []
    ensures DistinctKeys(r) <==> r[0].0 !in KeySet(r[1..]) && DistinctKeys(r[1..])
  {
    var t := r[1..];
    if DistinctKeys(r) {
      forall a, b | 0 <= a < b < |t| ensures t[a].0 != t[b].0 {
        assert t[a] == r[a + 1] && t[b] == r[b + 1];
      }
      forall j | 0 <= j < |t| ensures t[j].0 != r[0].0 {
        assert t[j] == r[j + 1];
      }
    }
    if r[0].0 !in KeySet(t) && DistinctKeys(t) {
      forall a, b | 0 <= a < b < |r| ensures r[a].0 != r[b].0 {
        assert r[b] == t[b - 1];
        if a > 0 {
          assert r[a] == t[a - 1];
        } else {
          assert t[b - 1].0 in KeySet(t);
        }
      }
    }
  }

  lemma NamesSnoc(rs: seq<Record>, i: nat)
    requires i < |rs|
    ensures Names(rs[..i + 1]) == Names(rs[..i]) + {NameOf(rs[i])}
  {
    assert rs[..i + 1][i] == rs[i];
    forall x | x in Names(rs[..i + 1]) ensures x in Names(rs[..i]) + {NameOf(rs[i])} {
      var m :| 0 <= m < i + 1 && NameOf(rs[..i + 1][m]) == x;
      if m < i {
        assert rs[..i][m] == rs[m];
      }
    }
    forall x | x in Names(rs[..i]) ensures x in Names(rs[..i + 1]) {
      var m :| 0 <= m < i && NameOf(rs[..i][m]) == x;
      assert rs[..i + 1][m] == rs[m];
    }
  }

  /** Names are unique in a sequence iff they are in its prefix and the last name is new. */
  lemma UniqueNamesSnoc(rs: seq<Record>)
    requires rs != []
    ensures UniqueNames(rs) <==>
            UniqueNames(rs[..|rs| - 1]) && NameOf(rs[|rs| - 1]) !in Names(rs[..|rs| - 1])
  {
    var n := |rs|;
    var p := rs[..n - 1];
    if UniqueNames(rs) {
      forall a, b | 0 <= a < b < |p| ensures NameOf(p[a]) != NameOf(p[b]) {
        assert p[a] == rs[a] && p[b] == rs[b];
      }
      forall i | 0 <= i < |p| ensures NameOf(p[i]) != NameOf(rs[n - 1]) {
        assert p[i] == rs[i];
      }
    }
    if UniqueNames(p) && NameOf(rs[n - 1]) !in Names(p) {
      forall a, b | 0 <= a < b < n ensures NameOf(rs[a]) != NameOf(rs[b]) {
        assert rs[a] == p[a];
        if b < n - 1 {
          assert rs[b] == p[b];
        } else {
          assert NameOf(p[a]) in Names(p);
        }
      }
    }
  }

  /**
   Names are unique exactly when there are as many distinct names as records;
   there are never more.
   */
  lemma {:induction false} UniqueNamesCount(rs: seq<Record>)
    ensures |Names(rs)| <= |rs|
    ensures UniqueNames(rs) <==> |Names(rs)| == |rs|
  {
    if rs == [] {
      assert Names(rs) == {};
    } else {
      var n := |rs|;
      var p := rs[..n - 1];
      UniqueNamesCount(p);
      UniqueNamesSnoc(rs);
      NamesSnoc(rs, n - 1);
      assert rs[..n] == rs;
      var x := NameOf(rs[n - 1]);
      if x in Names(p) {
        assert Names(rs) == Names(p);
      } else {
        assert |Names(p) + {x}| == |Names(p)| + 1;
      }
    }
  }

  lemma TypesWellFormedSnoc(types: seq<Record>)
    requires types != []
    ensures var n := |types|;
            TypesWellFormed(types) <==>
            && TypesWellFormed(types[..n - 1])
            && Shaped(types[n - 1], TypeKeys, TypeMandatoryKeys)
            && NameOf(types[n - 1]) !in Names(types[..n - 1])
  {
    var n := |types|;
    var p := types[..n - 1];
    UniqueNamesSnoc(types);
    assert forall i :: 0 <= i < |p| ==> p[i] == types[i];
  }

  lemma SymbolsWellFormedSnoc(symbols: seq<Record>, typeNames: set<string>)
    requires symbols != []
    ensures var n := |symbols|;
            SymbolsWellFormed(symbols, typeNames) <==>
            && SymbolsWellFormed(symbols[..n - 1], typeNames)
            && Shaped(symbols[n - 1], SymbolKeys, SymbolMandatoryKeys)
            && Resolves(symbols[n - 1], typeNames)
            && NameOf(symbols[n - 1]) !in Names(symbols[..n - 1])
  {
    var n := |symbols|;
    var p := symbols[..n - 1];
    UniqueNamesSnoc(symbols);
    assert forall i :: 0 <= i < |p| ==> p[i] == symbols[i];
  }

  // ---------------------------------------------------------------------------
  // One record
  // ---------------------------------------------------------------------------

  /** The key walk finds nothing iff every key is allowed, none repeats, and none was seen before. */
  lemma {:induction false} ScanKeysAccepts(r: Record, allowed: set<string>, seen: set<string>)
    ensures ScanKeys(r, allowed, seen) == None <==>
            KeySet(r) <= allowed && DistinctKeys(r) && KeySet(r) !! seen
  {
    if r == [] {
      assert KeySet(r) == {};
    } else {
      KeySetCons(r);
      DistinctKeysCons(r);
      ScanKeysAccepts(r[1..], allowed, seen + {r[0].0});
    }
  }

  /**
   A key problem names a key of the record that is not allowed, or one that
   occurs twice, and it is the first entry the walk rejects.
   */
  lemma {:induction false} ScanKeysReports(r: Record, allowed: set<string>, seen: set<string>)
    requires ScanKeys(r, allowed, seen).Some?
    ensures var p := ScanKeys(r, allowed, seen).value;
            || (p.InvalidKey? && p.key in KeySet(r) && p.key !in allowed)
            || (&& p.DuplicateKey? && p.key in allowed && p.key in KeySet(r)
                && (p.key in seen || exists a, b :: 0 <= a < b < |r| && r[a].0 == p.key && r[b].0 == p.key))
    ensures FirstBadKey(ScanKeys(r, allowed, seen).value, r, allowed, seen)
  {
    KeySetCons(r);
    var k := r[0].0;
    var p := ScanKeys(r, allowed, seen).value;
    if k !in allowed || k in seen {
      assert r[..0] == [];
      assert KeySet(r[..0]) == {};
      assert FirstBadKey(p, r, allowed, seen) by {
        assert r[0].0 == p.key && (p.InvalidKey? <==> r[0].0 !in allowed);
      }
    } else {
      var t := r[1..];
      ScanKeysReports(t, allowed, seen + {k});
      assert p == ScanKeys(t, allowed, seen + {k}).value;
      if p.DuplicateKey? && p.key !in seen {
        if p.key in seen + {k} {
          var j :| 0 <= j < |t| && t[j].0 == p.key;
          assert r[0].0 == p.key && r[j + 1].0 == p.key;
        } else {
          var a, b :| 0 <= a < b < |t| && t[a].0 == p.key && t[b].0 == p.key;
          assert r[a + 1].0 == p.key && r[b + 1].0 == p.key;
        }
      }
      ScanKeysFirstShift(r, allowed, seen, p);
    }
  }

  /** The first bad entry of the tail, seen from the whole record, is one entry further on. */
  lemma ScanKeysFirstShift(r: Record, allowed: set<string>, seen: set<string>, p: Problem)
    requires r != [] && r[0].0 in allowed && r[0].0 !in seen
    requires FirstBadKey(p, r[1..], allowed, seen + {r[0].0})
    ensures FirstBadKey(p, r, allowed, seen)
  {
    var t := r[1..];
    var k := r[0].0;
    var j' :| && 0 <= j' < |t|
              && t[j'].0 == p.key
              && KeySet(t[..j']) <= allowed && DistinctKeys(t[..j']) && KeySet(t[..j']) !! seen + {k}
              && (p.InvalidKey? <==> t[j'].0 !in allowed)
              && (p.DuplicateKey? ==> t[j'].0 in KeySet(t[..j']) + (seen + {k}));
    var j := j' + 1;
    var q := r[..j];
    assert q[1..] == t[..j'] && q[0] == r[0];
    assert r[j] == t[j'];
    KeySetCons(q);
    DistinctKeysCons(q);
  }

  lemma CheckTypeAccepts(r: Record, typeNames: set<string>)
    ensures CheckType(r, typeNames) == None <==>
            Shaped(r, TypeKeys, TypeMandatoryKeys) && NameOf(r) !in typeNames
  {
    ScanKeysAccepts(r, TypeKeys, {});
  }

  lemma CheckSymbolAccepts(r: Record, symbolNames: set<string>, typeNames: set<string>)
    ensures CheckSymbol(r, symbolNames, typeNames) == None <==>
            && Shaped(r, SymbolKeys, SymbolMandatoryKeys)
            && NameOf(r) !in symbolNames
            && Resolves(r, typeNames)
  {
    ScanKeysAccepts(r, SymbolKeys, {});
  }

  /**
   A problem reported for a type record is one of the four type checks, it is
   true of the record, and every check before it passed.
   */
  lemma CheckTypeReports(r: Record, typeNames: set<string>)
    requires CheckType(r, typeNames).Some?
    ensures var p := CheckType(r, typeNames).value;
            && (p.InvalidKey? || p.DuplicateKey? || p.MissingKeys? || p.NonUniqueName?)
            && Describes(p, r, TypeKeys, TypeMandatoryKeys, typeNames, typeNames)
    ensures EarlierChecksPass(CheckType(r, typeNames).value, r, TypeKeys, TypeMandatoryKeys, typeNames, typeNames)
  {
    if ScanKeys(r, TypeKeys, {}).Some? {
      ScanKeysReports(r, TypeKeys, {});
    } else {
      ScanKeysAccepts(r, TypeKeys, {});
    }
  }

  /** A problem reported for a symbol record is true of the record, and every check before it passed. */
  lemma CheckSymbolReports(r: Record, symbolNames: set<string>, typeNames: set<string>)
    requires CheckSymbol(r, symbolNames, typeNames).Some?
    ensures Describes(CheckSymbol(r, symbolNames, typeNames).value, r, SymbolKeys, SymbolMandatoryKeys,
                      symbolNames, typeNames)
    ensures EarlierChecksPass(CheckSymbol(r, symbolNames, typeNames).value, r, SymbolKeys, SymbolMandatoryKeys,
                              symbolNames, typeNames)
  {
    if ScanKeys(r, SymbolKeys, {}).Some? {
      ScanKeysReports(r, SymbolKeys, {});
    } else {
      ScanKeysAccepts(r, SymbolKeys, {});
    }
  }

  // ---------------------------------------------------------------------------
  // The type scan
  // ---------------------------------------------------------------------------

  lemma ScanTypesStep(types: seq<Record>, i: nat)
    requires i < |types|
    ensures ScanTypes(types[..i + 1]) == ExtendTypes(ScanTypes(types[..i]), types[i], i)
  {
    assert types[..i + 1][..i] == types[..i];
    assert types[..i + 1][i] == types[i];
  }

  /** The scan of the first `i + 1` types stops at `i` when every type before it passed and the type at `i` fails. */
  lemma ScanTypesStepStops(types: seq<Record>, i: nat, typeNames: set<string>, p: Problem)
    requires i < |types|
    requires ScanTypes(types[..i]) == Scanned(typeNames)
    requires CheckType(types[i], typeNames) == Some(p)
    ensures ScanTypes(types[..i + 1]) == Stopped(Violation(Types, i, p))
  {
    ScanTypesStep(types, i);
  }

  /** Once the scan of a prefix has stopped, the scan of the whole stops with the same violation. */
  lemma {:induction false} ScanTypesPrefix(types: seq<Record>, k: nat)
    requires k <= |types|
    requires ScanTypes(types[..k]).Stopped?
    ensures ScanTypes(types) == ScanTypes(types[..k])
    decreases |types|
  {
    if k < |types| {
      var p := types[..|types| - 1];
      assert p[..k] == types[..k];
      ScanTypesPrefix(p, k);
    } else {
      assert types[..k] == types;
    }
  }

  /**
   The type scan accepts exactly the well-formed type sequences, and then
   yields the set of all their names.
   */
  lemma {:induction false} ScanTypesCorrect(types: seq<Record>)
    ensures ScanTypes(types).Scanned? <==> TypesWellFormed(types)
    ensures ScanTypes(types).Scanned? ==> ScanTypes(types).names == Names(types)
    ensures ScanTypes(types).Stopped? ==>
              ScanTypes(types).violation.collection == Types && ScanTypes(types).violation.idx < |types|
  {
    if types == [] {
      assert Names(types) == {};
    } else {
      var n := |types|;
      var p := types[..n - 1];
      var last := types[n - 1];
      ScanTypesCorrect(p);
      TypesWellFormedSnoc(types);
      var s := ScanTypes(p);
      assert ScanTypes(types) == ExtendTypes(s, last, n - 1);
      if s.Scanned? {
        NamesSnoc(types, n - 1);
        assert types[..n] == types;
        CheckTypeAccepts(last, s.names);
      }
    }
  }

  /** Where the type scan stops: every earlier type passed, and the type at that index fails. */
  lemma {:induction false} ScanTypesStopsAt(types: seq<Record>)
    requires ScanTypes(types).Stopped?
    ensures var v := ScanTypes(types).violation;
            && v.collection == Types
            && v.idx < |types|
            && ScanTypes(types[..v.idx]).Scanned?
            && CheckType(types[v.idx], ScanTypes(types[..v.idx]).names) == Some(v.problem)
  {
    var n := |types|;
    var p := types[..n - 1];
    var s := ScanTypes(p);
    assert ScanTypes(types) == ExtendTypes(s, types[n - 1], n - 1);
    if s.Stopped? {
      ScanTypesStopsAt(p);
      var v := s.violation;
      assert p[..v.idx] == types[..v.idx];
      assert p[v.idx] == types[v.idx];
    } else {
      var c := CheckType(types[n - 1], s.names);
      assert c.Some?;
      assert ScanTypes(types).violation == Violation(Types, n - 1, c.value);
    }
  }

  // ---------------------------------------------------------------------------
  // The symbol scan
  // ---------------------------------------------------------------------------

  lemma ScanSymbolsStep(symbols: seq<Record>, typeNames: set<string>, i: nat)
    requires i < |symbols|
    ensures ScanSymbols(symbols[..i + 1], typeNames) ==
            ExtendSymbols(ScanSymbols(symbols[..i], typeNames), symbols[i], i, typeNames)
  {
    assert symbols[..i + 1][..i] == symbols[..i];
    assert symbols[..i + 1][i] == symbols[i];
  }

  lemma ScanSymbolsStepStops(symbols: seq<Record>, typeNames: set<string>, i: nat, symbolNames: set<string>, p: Problem)
    requires i < |symbols|
    requires ScanSymbols(symbols[..i], typeNames) == Scanned(symbolNames)
    requires CheckSymbol(symbols[i], symbolNames, typeNames) == Some(p)
    ensures ScanSymbols(symbols[..i + 1], typeNames) == Stopped(Violation(Symbols, i, p))
  {
    ScanSymbolsStep(symbols, typeNames, i);
  }

  lemma {:induction false} ScanSymbolsPrefix(symbols: seq<Record>, typeNames: set<string>, k: nat)
    requires k <= |symbols|
    requires ScanSymbols(symbols[..k], typeNames).Stopped?
    ensures ScanSymbols(symbols, typeNames) == ScanSymbols(symbols[..k], typeNames)
    decreases |symbols|
  {
    if k < |symbols| {
      var p := symbols[..|symbols| - 1];
      assert p[..k] == symbols[..k];
      ScanSymbolsPrefix(p, typeNames, k);
    } else {
      assert symbols[..k] == symbols;
    }
  }

  /** The symbol scan accepts exactly the well-formed symbol sequences over `typeNames`. */
  lemma {:induction false} ScanSymbolsCorrect(symbols: seq<Record>, typeNames: set<string>)
    ensures ScanSymbols(symbols, typeNames).Scanned? <==> SymbolsWellFormed(symbols, typeNames)
    ensures ScanSymbols(symbols, typeNames).Scanned? ==> ScanSymbols(symbols, typeNames).names == Names(symbols)
    ensures ScanSymbols(symbols, typeNames).Stopped? ==>
              && ScanSymbols(symbols, typeNames).violation.collection == Symbols
              && ScanSymbols(symbols, typeNames).violation.idx < |symbols|
  {
    if symbols == [] {
      assert Names(symbols) == {};
    } else {
      var n := |symbols|;
      var p := symbols[..n - 1];
      var last := symbols[n - 1];
      ScanSymbolsCorrect(p, typeNames);
      SymbolsWellFormedSnoc(symbols, typeNames);
      var s := ScanSymbols(p, typeNames);
      assert ScanSymbols(symbols, typeNames) == ExtendSymbols(s, last, n - 1, typeNames);
      if s.Scanned? {
        NamesSnoc(symbols, n - 1);
        assert symbols[..n] == symbols;
        CheckSymbolAccepts(last, s.names, typeNames);
      }
    }
  }

  lemma {:induction false} ScanSymbolsStopsAt(symbols: seq<Record>, typeNames: set<string>)
    requires ScanSymbols(symbols, typeNames).Stopped?
    ensures var v := ScanSymbols(symbols, typeNames).violation;
            && v.collection == Symbols
            && v.idx < |symbols|
            && ScanSymbols(symbols[..v.idx], typeNames).Scanned?
            && CheckSymbol(symbols[v.idx], ScanSymbols(symbols[..v.idx], typeNames).names, typeNames)
               == Some(v.problem)
  {
    var n := |symbols|;
    var p := symbols[..n - 1];
    var s := ScanSymbols(p, typeNames);
    assert ScanSymbols(symbols, typeNames) == ExtendSymbols(s, symbols[n - 1], n - 1, typeNames);
    if s.Stopped? {
      ScanSymbolsStopsAt(p, typeNames);
      var v := s.violation;
      assert p[..v.idx] == symbols[..v.idx];
      assert p[v.idx] == symbols[v.idx];
    } else {
      var c := CheckSymbol(symbols[n - 1], s.names, typeNames);
      assert c.Some?;
      assert ScanSymbols(symbols, typeNames).violation == Violation(Symbols, n - 1, c.value);
    }
  }

  // ---------------------------------------------------------------------------
  // The whole check
  // ---------------------------------------------------------------------------

  /** The check passes exactly when the ontology is well formed. */
  lemma ValidateCorrect(types: seq<Record>, symbols: seq<Record>)
    ensures Validate(types, symbols) == Pass <==> WellFormed(types, symbols)
  {
    ScanTypesCorrect(types);
    if ScanTypes(types).Scanned? {
      ScanSymbolsCorrect(symbols, Names(types));
    }
  }

  /**
   The reported violation is the first one in scan order: all types (and, for
   a symbol, all types and all earlier symbols) before it are well formed, the
   record at its index fails the checks for that collection, the problem
   reported is true of that record, and every check before it on that record
   passed.
   */
  lemma FirstViolation(types: seq<Record>, symbols: seq<Record>)
    requires Validate(types, symbols).Fail?
    ensures var v := Validate(types, symbols).violation;
            || (&& v.collection == Types
                && v.idx < |types|
                && TypesWellFormed(types[..v.idx])
                && CheckType(types[v.idx], Names(types[..v.idx])) == Some(v.problem)
                && Describes(v.problem, types[v.idx], TypeKeys, TypeMandatoryKeys,
                             Names(types[..v.idx]), Names(types[..v.idx]))
                && EarlierChecksPass(v.problem, types[v.idx], TypeKeys, TypeMandatoryKeys,
                                     Names(types[..v.idx]), Names(types[..v.idx])))
            || (&& v.collection == Symbols
                && v.idx < |symbols|
                && TypesWellFormed(types)
                && SymbolsWellFormed(symbols[..v.idx], Names(types))
                && CheckSymbol(symbols[v.idx], Names(symbols[..v.idx]), Names(types)) == Some(v.problem)
                && Describes(v.problem, symbols[v.idx], SymbolKeys, SymbolMandatoryKeys,
                             Names(symbols[..v.idx]), Names(types))
                && EarlierChecksPass(v.problem, symbols[v.idx], SymbolKeys, SymbolMandatoryKeys,
                                     Names(symbols[..v.idx]), Names(types)))
  {
    ScanTypesCorrect(types);
    if ScanTypes(types).Stopped? {
      ScanTypesStopsAt(types);
      var v := ScanTypes(types).violation;
      ScanTypesCorrect(types[..v.idx]);
      CheckTypeReports(types[v.idx], Names(types[..v.idx]));
    } else {
      var tn := Names(types);
      ScanSymbolsStopsAt(symbols, tn);
      var v := ScanSymbols(symbols, tn).violation;
      ScanSymbolsCorrect(symbols[..v.idx], tn);
      CheckSymbolReports(symbols[v.idx], Names(symbols[..v.idx]), tn);
    }
  }

  /** A type record with a key outside {name, supertype, label}, a repeated key or no name fails the check. */
  lemma RejectsMalformedType(types: seq<Record>, symbols: seq<Record>, i: nat)
    requires i < |types|
    requires !Shaped(types[i], TypeKeys, TypeMandatoryKeys)
    ensures Validate(types, symbols).Fail?
  {
    ValidateCorrect(types, symbols);
  }

  /**
   A symbol record with a key outside {name, arg_types, return_type, lemma, label},
   a repeated key or a missing mandatory key fails the check.
   */
  lemma RejectsMalformedSymbol(types: seq<Record>, symbols: seq<Record>, i: nat)
    requires i < |symbols|
    requires !Shaped(symbols[i], SymbolKeys, SymbolMandatoryKeys)
    ensures Validate(types, symbols).Fail?
  {
    ValidateCorrect(types, symbols);
  }

  /** A symbol whose argument or return type is not the name of some type, anywhere in `types`, fails the check. */
  lemma RejectsUnresolvedSymbol(types: seq<Record>, symbols: seq<Record>, i: nat)
    requires i < |symbols|
    requires !Resolves(symbols[i], Names(types))
    ensures Validate(types, symbols).Fail?
  {
    ValidateCorrect(types, symbols);
  }

  /**
   A type name declared a second time is reported at the later record, as a
   non-unique name, provided everything before that record was well formed
   and the later record itself has well-formed keys.
   */
  lemma DuplicateTypeNameAtLater(types: seq<Record>, symbols: seq<Record>, i: nat, j: nat)
    requires i < j < |types|
    requires TypesWellFormed(types[..j])
    requires Shaped(types[j], TypeKeys, TypeMandatoryKeys)
    requires NameOf(types[i]) == NameOf(types[j])
    ensures Validate(types, symbols) == Fail(Violation(Types, j, NonUniqueName(NameOf(types[j]))))
  {
    ScanTypesCorrect(types[..j]);
    var names := ScanTypes(types[..j]).names;
    assert types[..j][i] == types[i];
    assert NameOf(types[j]) in names;
    ScanKeysAccepts(types[j], TypeKeys, {});
    var v := Violation(Types, j, NonUniqueName(NameOf(types[j])));
    assert CheckType(types[j], names) == Some(v.problem);
    ScanTypesStepStops(types, j, names, v.problem);
    ScanTypesPrefix(types, j + 1);
    assert ScanTypes(types) == Stopped(v);
  }

  /** The same for symbols, once every type has passed. */
  lemma DuplicateSymbolNameAtLater(types: seq<Record>, symbols: seq<Record>, i: nat, j: nat)
    requires TypesWellFormed(types)
    requires i < j < |symbols|
    requires SymbolsWellFormed(symbols[..j], Names(types))
    requires Shaped(symbols[j], SymbolKeys, SymbolMandatoryKeys)
    requires NameOf(symbols[i]) == NameOf(symbols[j])
    ensures Validate(types, symbols) == Fail(Violation(Symbols, j, NonUniqueName(NameOf(symbols[j]))))
  {
    ScanTypesCorrect(types);
    var tn := Names(types);
    ScanSymbolsCorrect(symbols[..j], tn);
    var names := ScanSymbols(symbols[..j], tn).names;
    assert symbols[..j][i] == symbols[i];
    assert NameOf(symbols[j]) in names;
    ScanKeysAccepts(symbols[j], SymbolKeys, {});
    var v := Violation(Symbols, j, NonUniqueName(NameOf(symbols[j])));
    assert CheckSymbol(symbols[j], names, tn) == Some(v.problem);
    ScanSymbolsStepStops(symbols, tn, j, names, v.problem);
    ScanSymbolsPrefix(symbols, tn, j + 1);
    assert ScanSymbols(symbols, tn) == Stopped(v);
  }

  // ---------------------------------------------------------------------------
  // Supertypes
  // ---------------------------------------------------------------------------

  lemma SupertypeWarningsStep(types: seq<Record>, i: nat)
    requires i < |types|
    ensures SupertypeWarnings(types[..i + 1]) ==
            SupertypeWarnings(types[..i]) + (if UnknownSupertype(types[i], Names(types[..i])) then [i] else [])
  {
    assert types[..i + 1][..i] == types[..i];
    assert types[..i + 1][i] == types[i];
  }

  /**
   The warnings are exactly the indices of the types whose supertype is not
   among the types declared before them.
   */
  lemma {:induction false} SupertypeWarningsExact(types: seq<Record>)
    ensures forall i :: i in SupertypeWarnings(types) <==>
                        0 <= i < |types| && UnknownSupertype(types[i], Names(types[..i]))
  {
    if types != [] {
      var n := |types|;
      var p := types[..n - 1];
      SupertypeWarningsExact(p);
      forall i | 0 <= i < n - 1 ensures p[..i] == types[..i] && p[i] == types[i] { }
    }
  }

  /** The warnings come in increasing index order. */
  lemma {:induction false} SupertypeWarningsIncreasing(types: seq<Record>)
    ensures forall a, b :: 0 <= a < b < |SupertypeWarnings(types)| ==>
                           SupertypeWarnings(types)[a] < SupertypeWarnings(types)[b]
  {
    if types != [] {
      var n := |types|;
      var p := types[..n - 1];
      SupertypeWarningsIncreasing(p);
      SupertypeWarningsExact(p);
      var wp := SupertypeWarnings(p);
      var w := SupertypeWarnings(types);
      forall a, b | 0 <= a < b < |w| ensures w[a] < w[b] {
        if b >= |wp| {
          assert w[a] == wp[a] && wp[a] in wp;
        }
      }
    }
  }

  /** Two records that differ at most in the values stored under `supertype`. */
  ghost predicate SameButSupertype(r: Record, r': Record)
  {
    && |r| == |r'|
    && forall j :: 0 <= j < |r| ==> r[j].0 == r'[j].0 && (r[j].0 != "supertype" ==> r[j].1 == r'[j].1)
  }

  lemma {:induction false} SameButSupertypeAgree(r: Record, r': Record, key: string, seen: set<string>, allowed: set<string>)
    requires SameButSupertype(r, r')
    requires key != "supertype"
    ensures KeySet(r) == KeySet(r')
    ensures Lookup(r, key) == Lookup(r', key)
    ensures ScanKeys(r, allowed, seen) == ScanKeys(r', allowed, seen)
  {
    if r != [] {
      assert SameButSupertype(r[1..], r'[1..]) by {
        forall j | 0 <= j < |r[1..]| ensures r[1..][j] == r[j + 1] && r'[1..][j] == r'[j + 1] { }
      }
      SameButSupertypeAgree(r[1..], r'[1..], key, seen + {r[0].0}, allowed);
      KeySetCons(r);
      KeySetCons(r');
    }
  }

  lemma CheckTypeIgnoresSupertype(r: Record, r': Record, typeNames: set<string>)
    requires SameButSupertype(r, r')
    ensures CheckType(r, typeNames) == CheckType(r', typeNames)
    ensures NameOf(r) == NameOf(r')
  {
    SameButSupertypeAgree(r, r', "name", {}, TypeKeys);
  }

  lemma ExtendTypesIgnoresSupertype(s: Scan, r: Record, r': Record, idx: nat)
    requires SameButSupertype(r, r')
    ensures ExtendTypes(s, r, idx) == ExtendTypes(s, r', idx)
  {
    if s.Scanned? {
      CheckTypeIgnoresSupertype(r, r', s.names);
    }
  }

  lemma {:induction false} ScanTypesIgnoresSupertype(types: seq<Record>, types': seq<Record>)
    requires |types| == |types'|
    requires forall i :: 0 <= i < |types| ==> SameButSupertype(types[i], types'[i])
    ensures ScanTypes(types) == ScanTypes(types')
  {
    if types != [] {
      var n := |types|;
      var p, p' := types[..n - 1], types'[..n - 1];
      forall i | 0 <= i < n - 1 ensures SameButSupertype(p[i], p'[i]) {
        assert p[i] == types[i] && p'[i] == types'[i];
      }
      ScanTypesIgnoresSupertype(p, p');
      var s := ScanTypes(p);
      assert ScanTypes(types) == ExtendTypes(s, types[n - 1], n - 1);
      assert ScanTypes(types') == ExtendTypes(s, types'[n - 1], n - 1);
      ExtendTypesIgnoresSupertype(s, types[n - 1], types'[n - 1], n - 1);
    }
  }

  /**
   The values of `supertype` never change the verdict: an unknown or
   forward-referenced supertype is only reported, and the type's name is
   declared all the same.
   */
  lemma SupertypeIrrelevant(types: seq<Record>, types': seq<Record>, symbols: seq<Record>)
    requires |types| == |types'|
    requires forall i :: 0 <= i < |types| ==> SameButSupertype(types[i], types'[i])
    ensures Validate(types, symbols) == Validate(types', symbols)
  {
    ScanTypesIgnoresSupertype(types, types');
  }
}
