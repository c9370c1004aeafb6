/**
 Small ontologies and the verdict the check reaches on each.
 */
module OntologyExamples {
  import opened Records
  import opened Ontology
  import opened OntologyFacts

  function TypeNamed(name: string): Record
  {
    [("name", Str(name))]
  }

  /** A symbol record with its four mandatory keys. */
  function SymbolOf(name: string, argTypes: seq<string>, returnType: string): Record
  {
    [("name", Str(name)), ("arg_types", Strs(argTypes)), ("return_type", Str(returnType)), ("lemma", Str(name))]
  }

  lemma ScanOne(r: Record)
    ensures ScanTypes([r]) == ExtendTypes(Scanned({}), r, 0)
    ensures forall tn :: ScanSymbols([r], tn) == ExtendSymbols(Scanned({}), r, 0, tn)
  {
    assert [r][..0] == [];
  }

  lemma ScanTwo(a: Record, b: Record)
    ensures ScanTypes([a, b]) == ExtendTypes(ExtendTypes(Scanned({}), a, 0), b, 1)
  {
    assert [a, b][..1] == [a];
    ScanOne(a);
  }

  /**
   A record whose entries carry exactly `keys`, all allowed and none twice:
   the key walk finds nothing, and its key set is `keys`.
   */
  lemma CleanKeys(r: Record, allowed: set<string>, keys: set<string>)
    requires forall j :: 0 <= j < |r| ==> r[j].0 in keys
    requires forall k :: k in keys ==> exists j :: 0 <= j < |r| && r[j].0 == k
    requires keys <= allowed
    requires DistinctKeys(r)
    ensures KeySet(r) == keys
    ensures ScanKeys(r, allowed, {}) == None
  {
    ScanKeysAccepts(r, allowed, {});
  }

  lemma CheckTypeNamed(n: string, names: set<string>)
    ensures CheckType(TypeNamed(n), names) == if n in names then Some(NonUniqueName(n)) else None
    ensures NameOf(TypeNamed(n)) == n
  {
    var r := TypeNamed(n);
    assert r[0].0 == "name";
    CleanKeys(r, TypeKeys, {"name"});
  }

  lemma CheckSymbolOf(name: string, argTypes: seq<string>, returnType: string, typeNames: set<string>)
    ensures CheckSymbol(SymbolOf(name, argTypes, returnType), {}, typeNames) ==
            match FirstUnknown(argTypes, typeNames)
            case Some(a) => Some(UnknownArgType(a))
            case None => if returnType !in typeNames then Some(UnknownReturnType(returnType)) else None
  {
    var r := SymbolOf(name, argTypes, returnType);
    assert r[0].0 == "name" && r[1].0 == "arg_types" && r[2].0 == "return_type" && r[3].0 == "lemma";
    CleanKeys(r, SymbolKeys, SymbolMandatoryKeys);
    assert StrsAt(r, "arg_types") == argTypes;
    assert StrAt(r, "return_type") == returnType;
  }

  /** The two types Entity and Number scan to their two names. */
  lemma EntityAndNumber()
    ensures ScanTypes([TypeNamed("Entity"), TypeNamed("Number")]) == Scanned({"Entity", "Number"})
  {
    ScanTwo(TypeNamed("Entity"), TypeNamed("Number"));
    CheckTypeNamed("Entity", {});
    CheckTypeNamed("Number", {"Entity"});
  }

  /** Entity and Number, then `count` from Entity to Number: passes. */
  lemma AcceptsSmallOntology()
    ensures Validate([TypeNamed("Entity"), TypeNamed("Number")], [SymbolOf("count", ["Entity"], "Number")]) == Pass
  {
    var tn := {"Entity", "Number"};
    var count := SymbolOf("count", ["Entity"], "Number");
    EntityAndNumber();
    assert FirstUnknown(["Entity"], tn) == None;
    CheckSymbolOf("count", ["Entity"], "Number", tn);
    assert CheckSymbol(count, {}, tn) == None;
    ScanOne(count);
    assert ScanSymbols([count], tn) == ExtendSymbols(Scanned({}), count, 0, tn);
  }

  /** The same symbol with an undeclared return type is reported at symbol 0. */
  lemma RejectsUnknownReturnType()
    ensures Validate([TypeNamed("Entity"), TypeNamed("Number")], [SymbolOf("count", ["Entity"], "Unknown")])
            == Fail(Violation(Symbols, 0, UnknownReturnType("Unknown")))
  {
    var tn := {"Entity", "Number"};
    var count := SymbolOf("count", ["Entity"], "Unknown");
    EntityAndNumber();
    assert FirstUnknown(["Entity"], tn) == None;
    CheckSymbolOf("count", ["Entity"], "Unknown", tn);
    ScanOne(count);
    assert ScanSymbols([count], tn) == Stopped(Violation(Symbols, 0, UnknownReturnType("Unknown")));
  }

  /** A symbol whose argument type no type declares is reported at that argument type. */
  lemma RejectsDanglingArgType()
    ensures Validate([TypeNamed("Entity")], [SymbolOf("f", ["Ghost"], "Entity")])
            == Fail(Violation(Symbols, 0, UnknownArgType("Ghost")))
  {
    ScanOne(TypeNamed("Entity"));
    CheckTypeNamed("Entity", {});
    ScanOne(SymbolOf("f", ["Ghost"], "Entity"));
    CheckSymbolOf("f", ["Ghost"], "Entity", {"Entity"});
  }

  /** A type with a key outside {name, supertype, label} is reported at that key. */
  lemma RejectsUnknownTypeKey()
    ensures Validate([[("name", Str("Entity")), ("color", Str("red"))]], [])
            == Fail(Violation(Types, 0, InvalidKey("color")))
  {
    var r: Record := [("name", Str("Entity")), ("color", Str("red"))];
    ScanOne(r);
    assert r[1..][0].0 == "color" && "color" !in TypeKeys;
    assert ScanKeys(r, TypeKeys, {}) == Some(InvalidKey("color"));
  }

  /** A symbol without `lemma` is reported with exactly that key missing. */
  lemma RejectsMissingLemma()
    ensures Validate([TypeNamed("Entity")],
                     [[("name", Str("f")), ("arg_types", Strs([])), ("return_type", Str("Entity"))]])
            == Fail(Violation(Symbols, 0, MissingKeys({"lemma"})))
  {
    var r: Record := [("name", Str("f")), ("arg_types", Strs([])), ("return_type", Str("Entity"))];
    ScanOne(TypeNamed("Entity"));
    CheckTypeNamed("Entity", {});
    ScanOne(r);
    assert r[0].0 == "name" && r[1].0 == "arg_types" && r[2].0 == "return_type";
    CleanKeys(r, SymbolKeys, {"name", "arg_types", "return_type"});
    assert SymbolMandatoryKeys - KeySet(r) == {"lemma"};
  }

  /** The second of two types named alike is the one reported. */
  lemma RejectsRepeatedTypeName()
    ensures Validate([TypeNamed("Entity"), TypeNamed("Entity")], [])
            == Fail(Violation(Types, 1, NonUniqueName("Entity")))
  {
    ScanTwo(TypeNamed("Entity"), TypeNamed("Entity"));
    CheckTypeNamed("Entity", {});
    CheckTypeNamed("Entity", {"Entity"});
  }

  /**
   A supertype declared only later in the sequence is reported unknown at its
   type, yet the ontology passes.
   */
  lemma ForwardSupertypeOnlyReported()
    ensures var types := [[("name", Str("Point")), ("supertype", Str("Entity"))], TypeNamed("Entity")];
            Validate(types, []) == Pass && SupertypeWarnings(types) == [0]
  {
    var point: Record := [("name", Str("Point")), ("supertype", Str("Entity"))];
    var types := [point, TypeNamed("Entity")];
    ScanTwo(point, TypeNamed("Entity"));
    assert point[0].0 == "name" && point[1].0 == "supertype";
    CleanKeys(point, TypeKeys, {"name", "supertype"});
    assert NameOf(point) == "Point";
    CheckTypeNamed("Entity", {"Point"});
    assert types[..0] == [] && types[..1] == [point];
    assert [point][0] == point;
    assert Names([point]) == {"Point"};
    assert StrAt(point, "supertype") == "Entity";
    assert UnknownSupertype(point, Names(types[..0]));
    assert !UnknownSupertype(TypeNamed("Entity"), Names(types[..1]));
  }
}
