// What the direct resolver answers, name by name: index strings, names that are not
// there, and the type names it returns.
module Lookup {
  import opened Common
  import opened Decimal
  import opened DebugTypes
  import opened TypePaths
  import opened Resolver
  import opened Spelling
  import opened Offsets
  import opened Layout

  /** An array takes any string that starts with a number, blanks and a sign in front of
      it included: it raises where `std::stoi` does, knows no negative index, and checks no
      upper bound. */
  lemma IndexLookup(e: DIType, n: nat, name: string, blanks: string, sign: string, digits: string, rest: string)
    requires Parts(name, blanks, sign, digits, rest)
    ensures MemberInfo(Array(e, n), name) ==
            if digits == "" || DigitsValue(digits) > 0x8000_0000 || (DigitsValue(digits) == 0x8000_0000 && sign != "-")
            then Raised
            else if sign == "-" && DigitsValue(digits) > 0 then Unresolved
            else Resolved([TypedIndex(DigitsValue(digits), TypeNode(e))])
  {
    StoiExact(name, blanks, sign, digits, rest);
  }

  /** A name the record does not have: the answer is of unknown type and size 0, and there
      is no offset. */
  lemma AbsentField(t: DIType, name: string, rest: seq<string>)
    requires t.Struct? && WellFormed(t) && name !in Names(t)
    ensures DirectInfo(t, [name] + rest) == Info(FieldInfo("unknown", 0, 0, []))
    ensures OffsetInBits(t, [name] + rest) == None
  {
    AbsentName(t, name);
  }

  /** The type name of a field: that of its basic type, through typedefs and arrays; PTR
      for a pointer; "unknown" for a record or an array of records or pointers. */
  lemma FieldTypeName(t: DIType, p: Path)
    requires t.Struct? && WellFormed(t) && ValidPath(t, p) && p != [] && EndsNamed(t, p)
    requires !StopsAtElementRecord(t, p)
    ensures var r := DirectInfo(t, Designators(t, p));
            && r.Info?
            && match Strip(TypeAt(t, p))
               case Basic(name, _, _) => r.info.basicType == name
               case Pointer(_, _) => r.info.basicType == "PTR"
               case Array(e, _) => r.info.basicType == if Strip(e).Basic? then Strip(e).name else "unknown"
               case _ => r.info.basicType == "unknown"
  {
    SpellingInfo(t, p);
    LastIndex(t, p);
    SizeRecorded(t, p);
    TypeAtWellFormed(t, p);
    StripFacts(TypeAt(t, p));
    var u := Strip(TypeAt(t, p));
    if u.Array? { NameOfElement(u.elem); }
  }

  /** The walk checks no upper bound either: any index of an array counts that many
      elements on. */
  lemma IndexUnchecked(t: DIType, p: Path, e: DIType, n: nat, at: nat, i: nat)
    requires WellFormed(t) && ValidPath(t, p) && Strip(TypeAt(t, p)) == Array(e, n)
    requires Walk(Lower(t), GepOf(t, p)) == Some(Place(at, Lower(TypeAt(t, p))))
    ensures Walk(Lower(t), GepOf(t, p) + [i]) == Some(Place(at + i * Size(e), Lower(e)))
  {
    hide GepOf, TypeAt, ValidPath, Size, Lower, WellFormed, Walk;
    TypeAtWellFormed(t, p);
    StripFacts(TypeAt(t, p));
    LowerStrip(TypeAt(t, p));
    WalksCompose(Lower(t), GepOf(t, p), [i]);
    ElementWalk(e, n, i);
  }

  lemma ElementWalk(e: DIType, n: nat, i: nat)
    requires WellFormed(Array(e, n))
    ensures Walk(Lower(Array(e, n)), [i]) == Some(Place(i * Size(e), Lower(e)))
  {
    LowerKeepsSize(e);
    WalkCons(Lower(Array(e, n)), i, []);
    assert [i] + [] == [i];
  }

  lemma {:induction false} NameOfElement(e: DIType)
    requires !Strip(e).Array?
    ensures BasicOf(e) == if Strip(e).Basic? then Some(Strip(e).name) else None
  {
    if e.Typedef? { NameOfElement(e.base); }
  }
}
