/**
 What the ontology sanity check decides, stated as functions.

 Two readings are given. The first follows the check's scan order and yields
 the first violation it meets (ScanTypes, ScanSymbols, Validate); the second
 says declaratively when an ontology is well formed (WellFormed). The lemmas
 in OntologyFacts show that the two agree.
 */
module Ontology {
  import opened Records

  const TypeMandatoryKeys: set<string> := {"name"}
  const TypeOptionalKeys: set<string> := {"supertype", "label"}
  const TypeKeys: set<string> := TypeMandatoryKeys + TypeOptionalKeys

  const SymbolMandatoryKeys: set<string> := {"name", "arg_types", "return_type", "lemma"}
  const SymbolOptionalKeys: set<string> := {"label"}
  const SymbolKeys: set<string> := SymbolMandatoryKeys + SymbolOptionalKeys

  /** Which of the two input sequences a violation was found in. */
  datatype Collection = Types | Symbols

  /** One kind per error message the check logs before giving up. */
  datatype Problem =
    | InvalidKey(key: string)
    | DuplicateKey(key: string)
    | MissingKeys(missing: set<string>)
    | NonUniqueName(name: string)
    | UnknownArgType(argType: string)
    | UnknownReturnType(returnType: string)

  /** A violation: where it was found (collection and index) and what it is. */
  datatype Violation = Violation(collection: Collection, idx: nat, problem: Problem)

  datatype Outcome = Pass | Fail(violation: Violation)

  /** The state of a scan over one collection: the names declared so far, or the violation that ended it. */
  datatype Scan = Scanned(names: set<string>) | Stopped(violation: Violation)

  function NameOf(r: Record): string
  {
    StrAt(r, "name")
  }

  /** The names of a sequence of records. */
  function Names(rs: seq<Record>): set<string>
  {
    set i | 0 <= i < |rs| :: NameOf(rs[i])
  }

  // ---------------------------------------------------------------------------
  // The scan-order reading
  // ---------------------------------------------------------------------------

  /**
   The walk over a record's keys: the first key that is not allowed, or that
   was already seen earlier in the record (or is in `seen`).
   */
  function ScanKeys(r: Record, allowed: set<string>, seen: set<string>): (p: Option<Problem>)
    ensures p.Some? ==> (p.value.InvalidKey? || p.value.DuplicateKey?) && p.value.key in KeySet(r)
    ensures p.Some? && p.value.InvalidKey? ==> p.value.key !in allowed
    ensures p.Some? && p.value.DuplicateKey? ==> p.value.key in allowed
  {
    if r == [] then None
    else if r[0].0 !in allowed then Some(InvalidKey(r[0].0))
    else if r[0].0 in seen then Some(DuplicateKey(r[0].0))
    else
      assert KeySet(r) == {r[0].0} + KeySet(r[1..]) by {
        KeySetCons(r);
      }
      ScanKeys(r[1..], allowed, seen + {r[0].0})
  }

  /** `xs[k]` is the first element of `xs` that is not one of `names`. */
  ghost predicate FirstOutside(xs: seq<string>, k: int, names: set<string>)
  {
    0 <= k < |xs| && xs[k] !in names && forall m :: 0 <= m < k ==> xs[m] in names
  }

  /** The first element of `xs` that is not one of `names`. */
  function FirstUnknown(xs: seq<string>, names: set<string>): (u: Option<string>)
    ensures u.None? <==> forall x :: x in xs ==> x in names
    ensures u.Some? ==> u.value in xs && u.value !in names
    ensures u.Some? ==> exists k :: FirstOutside(xs, k, names) && xs[k] == u.value
  {
    if xs == [] then None
    else if xs[0] !in names then
      assert FirstOutside(xs, 0, names);
      Some(xs[0])
    else
      var rest := FirstUnknown(xs[1..], names);
      assert rest.Some? ==> exists k :: FirstOutside(xs, k, names) && xs[k] == rest.value by {
        if rest.Some? {
          var k :| FirstOutside(xs[1..], k, names) && xs[1..][k] == rest.value;
          assert xs[k + 1] == xs[1..][k];
          forall m | 0 <= m < k + 1 ensures xs[m] in names {
            if m > 0 {
              assert xs[m] == xs[1..][m - 1];
            }
          }
          assert FirstOutside(xs, k + 1, names);
        }
      }
      rest
  }

  /** The checks on one type record, given the type names declared before it. */
  function CheckType(r: Record, typeNames: set<string>): (p: Option<Problem>)
    ensures p.Some? ==> p.value.InvalidKey? || p.value.DuplicateKey? || p.value.MissingKeys? || p.value.NonUniqueName?
    ensures p.Some? && p.value.MissingKeys? ==> p.value.missing != {} && p.value.missing <= TypeMandatoryKeys
    ensures p.Some? && p.value.NonUniqueName? ==> p.value.name == NameOf(r) && p.value.name in typeNames
  {
    match ScanKeys(r, TypeKeys, {})
    case Some(p) => Some(p)
    case None =>
      if !(TypeMandatoryKeys <= KeySet(r)) then Some(MissingKeys(TypeMandatoryKeys - KeySet(r)))
      else if NameOf(r) in typeNames then Some(NonUniqueName(NameOf(r)))
      else None
  }

  /**
   The checks on one symbol record, given the symbol names declared before it
   and the names of all types.
   */
  function CheckSymbol(r: Record, symbolNames: set<string>, typeNames: set<string>): (p: Option<Problem>)
    ensures p.Some? && p.value.MissingKeys? ==> p.value.missing != {} && p.value.missing <= SymbolMandatoryKeys
    ensures p.Some? && p.value.NonUniqueName? ==> p.value.name == NameOf(r) && p.value.name in symbolNames
    ensures p.Some? && p.value.UnknownArgType? ==>
              p.value.argType in StrsAt(r, "arg_types") && p.value.argType !in typeNames
    ensures p.Some? && p.value.UnknownReturnType? ==>
              p.value.returnType == StrAt(r, "return_type") && p.value.returnType !in typeNames
  {
    match ScanKeys(r, SymbolKeys, {})
    case Some(p) => Some(p)
    case None =>
      if !(SymbolMandatoryKeys <= KeySet(r)) then Some(MissingKeys(SymbolMandatoryKeys - KeySet(r)))
      else if NameOf(r) in symbolNames then Some(NonUniqueName(NameOf(r)))
      else match FirstUnknown(StrsAt(r, "arg_types"), typeNames)
        case Some(a) => Some(UnknownArgType(a))
        case None =>
          if StrAt(r, "return_type") !in typeNames then Some(UnknownReturnType(StrAt(r, "return_type")))
          else None
  }

  /** One step of the type scan: check the record at `idx`, then declare its name. */
  function ExtendTypes(s: Scan, r: Record, idx: nat): Scan
  {
    match s
    case Stopped(v) => Stopped(v)
    case Scanned(names) =>
      match CheckType(r, names)
      case Some(p) => Stopped(Violation(Types, idx, p))
      case None => Scanned(names + {NameOf(r)})
  }

  /** The type scan over all of `types`, in order. */
  function ScanTypes(types: seq<Record>): (s: Scan)
    ensures s.Stopped? ==> s.violation.collection == Types && s.violation.idx < |types|
  {
    if types == [] then Scanned({})
    else ExtendTypes(ScanTypes(types[..|types| - 1]), types[|types| - 1], |types| - 1)
  }

  /** One step of the symbol scan. */
  function ExtendSymbols(s: Scan, r: Record, idx: nat, typeNames: set<string>): Scan
  {
    match s
    case Stopped(v) => Stopped(v)
    case Scanned(names) =>
      match CheckSymbol(r, names, typeNames)
      case Some(p) => Stopped(Violation(Symbols, idx, p))
      case None => Scanned(names + {NameOf(r)})
  }

  /** The symbol scan over all of `symbols`, against a fixed set of type names. */
  function ScanSymbols(symbols: seq<Record>, typeNames: set<string>): (s: Scan)
    ensures s.Stopped? ==> s.violation.collection == Symbols && s.violation.idx < |symbols|
  {
    if symbols == [] then Scanned({})
    else ExtendSymbols(ScanSymbols(symbols[..|symbols| - 1], typeNames), symbols[|symbols| - 1], |symbols| - 1, typeNames)
  }

  /** The whole check: all types first, then all symbols against every type name. */
  function Validate(types: seq<Record>, symbols: seq<Record>): (o: Outcome)
    ensures o.Fail? && o.violation.collection == Types ==> o.violation.idx < |types|
    ensures o.Fail? && o.violation.collection == Symbols ==>
              o.violation.idx < |symbols| && ScanTypes(types).Scanned?
  {
    match ScanTypes(types)
    case Stopped(v) => Fail(v)
    case Scanned(typeNames) =>
      match ScanSymbols(symbols, typeNames)
      case Stopped(v) => Fail(v)
      case Scanned(_) => Pass
  }

  /** A type's supertype is present but not among the names declared before it. */
  predicate UnknownSupertype(r: Record, typeNames: set<string>)
  {
    "supertype" in KeySet(r) && StrAt(r, "supertype") !in typeNames
  }

  /**
   The indices, in order, of the types whose supertype is reported unknown.
   The report is a diagnostic only; it never stops the scan.
   */
  function SupertypeWarnings(types: seq<Record>): (w: seq<nat>)
    ensures |w| <= |types|
    ensures forall k :: 0 <= k < |w| ==> w[k] < |types|
  {
    if types == [] then []
    else
      var last := |types| - 1;
      SupertypeWarnings(types[..last])
      + (if UnknownSupertype(types[last], Names(types[..last])) then [last] else [])
  }

  // ---------------------------------------------------------------------------
  // The declarative reading
  // ---------------------------------------------------------------------------

  /** Only allowed keys, none twice, every mandatory key present. */
  predicate Shaped(r: Record, allowed: set<string>, mandatory: set<string>)
  {
    KeySet(r) <= allowed && DistinctKeys(r) && mandatory <= KeySet(r)
  }

  predicate UniqueNames(rs: seq<Record>)
  {
    forall a, b :: 0 <= a < b < |rs| ==> NameOf(rs[a]) != NameOf(rs[b])
  }

  predicate TypesWellFormed(types: seq<Record>)
  {
    && (forall i :: 0 <= i < |types| ==> Shaped(types[i], TypeKeys, TypeMandatoryKeys))
    && UniqueNames(types)
  }

  /** Every argument type and the return type of a symbol is a declared type. */
  predicate Resolves(r: Record, typeNames: set<string>)
  {
    && (forall a :: a in StrsAt(r, "arg_types") ==> a in typeNames)
    && StrAt(r, "return_type") in typeNames
  }

  predicate SymbolsWellFormed(symbols: seq<Record>, typeNames: set<string>)
  {
    && (forall i :: 0 <= i < |symbols| ==> Shaped(symbols[i], SymbolKeys, SymbolMandatoryKeys))
    && (forall i :: 0 <= i < |symbols| ==> Resolves(symbols[i], typeNames))
    && UniqueNames(symbols)
  }

  /** A well-formed ontology. Supertypes play no part in it. */
  predicate WellFormed(types: seq<Record>, symbols: seq<Record>)
  {
    TypesWellFormed(types) && SymbolsWellFormed(symbols, Names(types))
  }

  /**
   The key problem `p` is about the first entry of `r` the key walk rejects:
   every entry before it has an allowed key, not in `seen` and not repeated.
   */
  ghost predicate FirstBadKey(p: Problem, r: Record, allowed: set<string>, seen: set<string>)
  {
    && (p.InvalidKey? || p.DuplicateKey?)
    && exists j ::
         && 0 <= j < |r|
         && r[j].0 == p.key
         && KeySet(r[..j]) <= allowed && DistinctKeys(r[..j]) && KeySet(r[..j]) !! seen
         && (p.InvalidKey? <==> r[j].0 !in allowed)
         && (p.DuplicateKey? ==> r[j].0 in KeySet(r[..j]) + seen)
  }

  /**
   Every check that comes before the one that reported `p` passed on `r`:
   the key problems are about the first bad entry, the missing keys are
   looked for only among allowed and distinct keys, the name only once the
   record is shaped, an argument type only once the name is new (and it is the
   first undeclared one), the return type only once every argument type is
   declared.
   */
  ghost predicate EarlierChecksPass(p: Problem, r: Record, allowed: set<string>, mandatory: set<string>,
                                    ownNames: set<string>, typeNames: set<string>)
  {
    match p
    case InvalidKey(_) => FirstBadKey(p, r, allowed, {})
    case DuplicateKey(_) => FirstBadKey(p, r, allowed, {})
    case MissingKeys(_) => KeySet(r) <= allowed && DistinctKeys(r)
    case NonUniqueName(_) => Shaped(r, allowed, mandatory)
    case UnknownArgType(t) =>
      && Shaped(r, allowed, mandatory) && NameOf(r) !in ownNames
      && exists k :: FirstOutside(StrsAt(r, "arg_types"), k, typeNames) && StrsAt(r, "arg_types")[k] == t
    case UnknownReturnType(_) =>
      && Shaped(r, allowed, mandatory) && NameOf(r) !in ownNames
      && forall a :: a in StrsAt(r, "arg_types") ==> a in typeNames
  }

  /** What each kind of problem asserts about the record it was reported for. */
  ghost predicate Describes(p: Problem, r: Record, allowed: set<string>, mandatory: set<string>,
                            ownNames: set<string>, typeNames: set<string>)
  {
    match p
    case InvalidKey(k) => k in KeySet(r) && k !in allowed
    case DuplicateKey(k) => exists a, b :: 0 <= a < b < |r| && r[a].0 == k && r[b].0 == k
    case MissingKeys(m) => m != {} && m == mandatory - KeySet(r)
    case NonUniqueName(n) => n == NameOf(r) && n in ownNames
    case UnknownArgType(t) => t in StrsAt(r, "arg_types") && t !in typeNames
    case UnknownReturnType(t) => t == StrAt(r, "return_type") && t !in typeNames
  }
}
