/** The two closed enumerations of DiscountApp and their short codes.

    The application finds short codes by reflection: every public static
    field of an enum type may carry a display-name attribute. Here that
    metadata is an explicit table of `Field`s in declaration order, and the
    two lookups (`TryParseByDisplayName` from code to member,
    `GetDisplayNameOrDefault` from member to code) are functions over it. */
module Enums {
  import opened Core

  datatype PackageSize = Small | Medium | Large

  /** The shipping carrier (the source calls the same enum both `Carrier`
      and `Provider`). */
  datatype Carrier = LaPoste | MondialRelay

  /** One enum member: its declared name, its value and the name of its
      display-name attribute, if any. */
  datatype Field<T> = Field(name: string, value: T, displayName: Option<string>)

  /** The name a member is registered under when parsing: its display name,
      or its own name when it has none. */
  function LookupKey<T>(field: Field<T>): string {
    match field.displayName
    case Some(n) => n
    case None => field.name
  }

  predicate HasKey<T>(fields: seq<Field<T>>, key: string) {
    exists i :: 0 <= i < |fields| && LookupKey(fields[i]) == key
  }

  /** The position of the first member registered under `key`. */
  function FirstWithKey<T>(fields: seq<Field<T>>, key: string): (i: nat)
    requires HasKey(fields, key)
    ensures i < |fields| && LookupKey(fields[i]) == key
    ensures forall j :: 0 <= j < i ==> LookupKey(fields[j]) != key
  {
    if LookupKey(fields[0]) == key then 0
    else
      assert HasKey(fields[1..], key) by {
        var i :| 0 <= i < |fields| && LookupKey(fields[i]) == key;
        assert LookupKey(fields[1..][i - 1]) == key;
      }
      1 + FirstWithKey(fields[1..], key)
  }

  /** Names and values are pairwise distinct, as in a C# enum without aliases. */
  predicate Distinct<T(==)>(fields: seq<Field<T>>) {
    forall i, j :: 0 <= i < j < |fields| ==>
      fields[i].name != fields[j].name && fields[i].value != fields[j].value
  }

  /** No two members are registered under the same lookup key. */
  predicate DistinctKeys<T>(fields: seq<Field<T>>) {
    forall i, j :: 0 <= i < j < |fields| ==> LookupKey(fields[i]) != LookupKey(fields[j])
  }

  lemma FirstWithKeyOfPrefix<T>(fields: seq<Field<T>>, k: nat, key: string)
    requires k <= |fields|
    requires HasKey(fields[..k], key)
    ensures HasKey(fields, key)
    ensures FirstWithKey(fields, key) == FirstWithKey(fields[..k], key)
  {
    var b := FirstWithKey(fields[..k], key);
    assert LookupKey(fields[b]) == key;
    forall j | 0 <= j < b
      ensures LookupKey(fields[j]) != key
    {
      assert fields[j] == fields[..k][j];
    }
  }

  /** A key is registered in a table exactly when it is registered in the
      table without its last member or is the last member's key. */
  lemma HasKeyOfSnoc<T>(fields: seq<Field<T>>, key: string)
    requires |fields| > 0
    ensures HasKey(fields, key) <==>
      HasKey(fields[..|fields| - 1], key) || LookupKey(fields[|fields| - 1]) == key
  {
    var prefix := fields[..|fields| - 1];
    if HasKey(fields, key) {
      var i :| 0 <= i < |fields| && LookupKey(fields[i]) == key;
      if i < |fields| - 1 {
        assert LookupKey(prefix[i]) == key;
      }
    }
    if HasKey(prefix, key) {
      var i :| 0 <= i < |prefix| && LookupKey(prefix[i]) == key;
      assert LookupKey(fields[i]) == key;
    }
  }

  /** A key first registered by the last member is found there. */
  lemma FirstWithKeyOfLast<T>(fields: seq<Field<T>>)
    requires |fields| > 0
    requires !HasKey(fields[..|fields| - 1], LookupKey(fields[|fields| - 1]))
    ensures HasKey(fields, LookupKey(fields[|fields| - 1]))
    ensures FirstWithKey(fields, LookupKey(fields[|fields| - 1])) == |fields| - 1
  {
    var key := LookupKey(fields[|fields| - 1]);
    var prefix := fields[..|fields| - 1];
    forall j | 0 <= j < |prefix|
      ensures LookupKey(fields[j]) != key
    {
      assert fields[j] == prefix[j];
    }
  }

  /** The key-to-member dictionary: members are visited in declaration order
      and a key already present keeps its first member. */
  function BuildValueLookup<T>(fields: seq<Field<T>>): map<string, T> {
    if |fields| == 0 then map[]
    else
      var lookup := BuildValueLookup(fields[..|fields| - 1]);
      var last := fields[|fields| - 1];
      if LookupKey(last) in lookup then lookup else lookup[LookupKey(last) := last.value]
  }

  /** The dictionary holds exactly the registered keys, each mapped to the
      value of the first member registered under it. */
  lemma {:induction false} BuildValueLookupFirstWins<T>(fields: seq<Field<T>>)
    ensures forall key :: key in BuildValueLookup(fields) <==> HasKey(fields, key)
    ensures forall key :: key in BuildValueLookup(fields) ==>
      BuildValueLookup(fields)[key] == fields[FirstWithKey(fields, key)].value
  {
    if |fields| > 0 {
      var prefix := fields[..|fields| - 1];
      var last := fields[|fields| - 1];
      var lookup := BuildValueLookup(prefix);
      BuildValueLookupFirstWins(prefix);
      forall key
        ensures key in BuildValueLookup(fields) <==> HasKey(fields, key)
      {
        HasKeyOfSnoc(fields, key);
      }
      forall key | key in BuildValueLookup(fields)
        ensures BuildValueLookup(fields)[key] == fields[FirstWithKey(fields, key)].value
      {
        if key in lookup {
          FirstWithKeyOfPrefix(fields, |fields| - 1, key);
        } else {
          FirstWithKeyOfLast(fields);
        }
      }
    }
  }

  /** Parses a member from its registered name, case-sensitively. On failure
      the result is the type's default value. */
  function TryParseByDisplayName<T>(fields: seq<Field<T>>, input: string, default: T): (r: (bool, T))
    ensures r.0 <==> HasKey(fields, input)
    ensures r.0 ==> r.1 == fields[FirstWithKey(fields, input)].value
    ensures !r.0 ==> r.1 == default
    ensures |fields| == 0 ==> !r.0
  {
    BuildValueLookupFirstWins(fields);
    var lookup := BuildValueLookup(fields);
    if |lookup| == 0 then (false, default)
    else if input in lookup then (true, lookup[input])
    else (false, default)
  }

  /** `Enum.GetName`: the name of the first member with value `v`, or null
      when `v` is not a named member. */
  function GetName<T(==)>(fields: seq<Field<T>>, v: T): (r: Option<string>)
    ensures r.None? <==> forall i :: 0 <= i < |fields| ==> fields[i].value != v
    ensures r.Some? ==> exists i :: 0 <= i < |fields| && fields[i].value == v && fields[i].name == r.value
    ensures forall i :: (0 <= i < |fields| && fields[i].value == v &&
      (forall j :: 0 <= j < i ==> fields[j].value != v)) ==> r == Some(fields[i].name)
  {
    if |fields| == 0 then None
    else if fields[0].value == v then Some(fields[0].name)
    else
      var r := GetName(fields[1..], v);
      assert forall i :: 1 <= i < |fields| ==> fields[i] == fields[1..][i - 1];
      r
  }

  /** The first member declared under `name`. */
  function FieldNamed<T>(fields: seq<Field<T>>, name: string): (f: Field<T>)
    requires exists i :: 0 <= i < |fields| && fields[i].name == name
    ensures f.name == name
    ensures forall i :: (0 <= i < |fields| && fields[i].name == name &&
      (forall j :: 0 <= j < i ==> fields[j].name != name)) ==> f == fields[i]
  {
    if fields[0].name == name then fields[0]
    else
      assert forall i :: 1 <= i < |fields| ==> fields[i] == fields[1..][i - 1];
      FieldNamed(fields[1..], name)
  }

  /** The display name of a member, or null when the value is not a named
      member or the member has no display-name attribute. */
  function GetDisplayNameOrDefault<T(==)>(fields: seq<Field<T>>, v: T): (r: Option<string>)
    ensures (forall i :: 0 <= i < |fields| ==> fields[i].value != v) ==> r == None
    ensures forall i :: 0 <= i < |fields| && fields[i].value == v && Distinct(fields) ==>
      r == fields[i].displayName
  {
    match GetName(fields, v)
    case None => None
    case Some(name) => FieldNamed(fields, name).displayName
  }

  /** Looking up a member's display name and parsing it back yields the
      member, when names, values and keys are all distinct. */
  lemma DisplayNameRoundTrip<T>(fields: seq<Field<T>>, i: nat, default: T)
    requires i < |fields|
    requires Distinct(fields) && DistinctKeys(fields)
    requires fields[i].displayName.Some?
    ensures GetDisplayNameOrDefault(fields, fields[i].value) == fields[i].displayName
    ensures TryParseByDisplayName(fields, fields[i].displayName.value, default) == (true, fields[i].value)
  {
    var key := fields[i].displayName.value;
    assert LookupKey(fields[i]) == key;
    assert HasKey(fields, key);
    var k := FirstWithKey(fields, key);
    assert LookupKey(fields[k]) == LookupKey(fields[i]);
    assert k == i;
  }

  /** Declaration of `PackageSize`, with its display-name attributes. */
  const SizeFields: seq<Field<PackageSize>> := [
    Field("Small", Small, Some("S")),
    Field("Medium", Medium, Some("M")),
    Field("Large", Large, Some("L"))
  ]

  /** Declaration of `Carrier`, with its display-name attributes. */
  const CarrierFields: seq<Field<Carrier>> := [
    Field("LaPoste", LaPoste, Some("LP")),
    Field("MondialRelay", MondialRelay, Some("MR"))
  ]

  /** The short code of a size, as its display-name attribute gives it. */
  function SizeName(size: PackageSize): string {
    match size
    case Small => "S"
    case Medium => "M"
    case Large => "L"
  }

  /** The short code of a carrier, as its display-name attribute gives it. */
  function CarrierName(carrier: Carrier): string {
    match carrier
    case LaPoste => "LP"
    case MondialRelay => "MR"
  }

  /** Parses a size code. The codes are case-sensitive; on failure the size
      is `Small`, the enum's zero member. */
  function ParseSize(token: string): (r: (bool, PackageSize))
    ensures r.0 <==> token == "S" || token == "M" || token == "L"
    ensures r.0 ==> SizeName(r.1) == token
    ensures !r.0 ==> r.1 == Small
  {
    if token == "S" then (true, Small)
    else if token == "M" then (true, Medium)
    else if token == "L" then (true, Large)
    else (false, Small)
  }

  /** Parses a carrier code. The codes are case-sensitive; on failure the
      carrier is `LaPoste`, the enum's zero member. */
  function ParseCarrier(token: string): (r: (bool, Carrier))
    ensures r.0 <==> token == "LP" || token == "MR"
    ensures r.0 ==> CarrierName(r.1) == token
    ensures !r.0 ==> r.1 == LaPoste
  {
    if token == "LP" then (true, LaPoste)
    else if token == "MR" then (true, MondialRelay)
    else (false, LaPoste)
  }

  /** The size codes are the display names of the declaration of
      `PackageSize`. */
  lemma SizeNamesMatchDeclaration(size: PackageSize)
    ensures GetDisplayNameOrDefault(SizeFields, size) == Some(SizeName(size))
  {
    assert Distinct(SizeFields);
    assert SizeFields[0].value == Small && SizeFields[1].value == Medium && SizeFields[2].value == Large;
  }

  /** Parsing a size code agrees with the display-name lookup over the
      declaration of `PackageSize`, accepted codes and rejected ones alike. */
  lemma SizeParsingMatchesDeclaration(token: string)
    ensures TryParseByDisplayName(SizeFields, token, Small) == ParseSize(token)
  {
    assert LookupKey(SizeFields[0]) == "S" && LookupKey(SizeFields[1]) == "M" && LookupKey(SizeFields[2]) == "L";
    assert SizeFields[0].value == Small && SizeFields[1].value == Medium && SizeFields[2].value == Large;
  }

  /** The carrier codes are the display names of the declaration of
      `Carrier`. */
  lemma CarrierNamesMatchDeclaration(carrier: Carrier)
    ensures GetDisplayNameOrDefault(CarrierFields, carrier) == Some(CarrierName(carrier))
  {
    assert Distinct(CarrierFields);
    assert CarrierFields[0].value == LaPoste && CarrierFields[1].value == MondialRelay;
  }

  /** Parsing a carrier code agrees with the display-name lookup over the
      declaration of `Carrier`, accepted codes and rejected ones alike. */
  lemma CarrierParsingMatchesDeclaration(token: string)
    ensures TryParseByDisplayName(CarrierFields, token, LaPoste) == ParseCarrier(token)
  {
    assert LookupKey(CarrierFields[0]) == "LP" && LookupKey(CarrierFields[1]) == "MR";
    assert CarrierFields[0].value == LaPoste && CarrierFields[1].value == MondialRelay;
  }

  /** Every size's code parses back to that size. */
  lemma SizeCodeRoundTrip(size: PackageSize)
    ensures ParseSize(SizeName(size)) == (true, size)
  {
    var r := ParseSize(SizeName(size));
    assert SizeName(r.1) == SizeName(size);
  }

  /** Every carrier's code parses back to that carrier. */
  lemma CarrierCodeRoundTrip(carrier: Carrier)
    ensures ParseCarrier(CarrierName(carrier)) == (true, carrier)
  {
    var r := ParseCarrier(CarrierName(carrier));
    assert CarrierName(r.1) == CarrierName(carrier);
  }

  /** Every size has a display name, and parsing it with the lookup over
      the declaration of `PackageSize` gives the size back. */
  lemma SizeDisplayNameRoundTrip(size: PackageSize)
    ensures GetDisplayNameOrDefault(SizeFields, size).Some?
    ensures TryParseByDisplayName(SizeFields, GetDisplayNameOrDefault(SizeFields, size).value, Small) == (true, size)
  {
    SizeNamesMatchDeclaration(size);
    SizeParsingMatchesDeclaration(SizeName(size));
    SizeCodeRoundTrip(size);
  }

  /** Every carrier has a display name, and parsing it with the lookup over
      the declaration of `Carrier` gives the carrier back. */
  lemma CarrierDisplayNameRoundTrip(carrier: Carrier)
    ensures GetDisplayNameOrDefault(CarrierFields, carrier).Some?
    ensures TryParseByDisplayName(CarrierFields, GetDisplayNameOrDefault(CarrierFields, carrier).value, LaPoste) == (true, carrier)
  {
    CarrierNamesMatchDeclaration(carrier);
    CarrierParsingMatchesDeclaration(CarrierName(carrier));
    CarrierCodeRoundTrip(carrier);
  }

  /** The lookup over the declaration of `PackageSize` accepts exactly the
      codes "S", "M" and "L": member names and lower-case codes are not
      accepted. */
  lemma SizeLookupAcceptsCodesOnly(token: string)
    ensures TryParseByDisplayName(SizeFields, token, Small).0 <==> token in {"S", "M", "L"}
    ensures TryParseByDisplayName(SizeFields, "Small", Small) == (false, Small)
    ensures TryParseByDisplayName(SizeFields, "s", Small) == (false, Small)
  {
    SizeParsingMatchesDeclaration(token);
    SizeParsingMatchesDeclaration("Small");
    SizeParsingMatchesDeclaration("s");
  }

  /** A member without a display name is registered under its own name, and
      of two members registered under one key the first wins. */
  lemma FirstRegistrationWins()
    ensures TryParseByDisplayName([Field("A", 0, None), Field("B", 1, Some("A"))], "A", 7) == (true, 0)
    ensures TryParseByDisplayName([Field("A", 0, None), Field("B", 1, Some("A"))], "B", 7) == (false, 7)
    ensures GetDisplayNameOrDefault([Field("A", 0, None), Field("B", 1, Some("A"))], 0) == None
    ensures GetDisplayNameOrDefault([Field("A", 0, None), Field("B", 1, Some("A"))], 2) == None
  {
    var fields := [Field("A", 0, None), Field("B", 1, Some("A"))];
    assert LookupKey(fields[0]) == "A" && LookupKey(fields[1]) == "A";
    assert Distinct(fields);
  }
}
