/**
 From a shape and a shaped JSON object to callback bytes: the check that the object has
 exactly the fields of the shape, the plan that coerces each field to an encoding, and
 the proof that the bytes can be decoded by a reader who knows the shape only.
 */
module AbiPlan {
  import opened AbiFormat
  import opened Ascii
  import opened Bytes
  import opened RustText
  import opened Shape
  import opened Wrappers

  datatype Json =
    | JNull
    | JBool(flag: bool)
    | JNumber(text: string)
    | JString(chars: string)
    | JArray(items: seq<Json>)
    | JObject(members: map<string, Json>)

  /** Library conversions of a JSON leaf: its text as bytes, its byte string, and the ABI word
      of a bool, address, uint or int. Everything below holds whatever they compute. */
  datatype Leaves = Leaves(
    text: Json -> seq<byte>,
    bytes: Json -> Option<seq<byte>>,
    word: (string, Json) -> Option<Word>)

  datatype PlanError =
    | BadShape(error: ShapeError)
    | NotAnObject
    | MissingField(name: string)
    | BadValue
    | WrongByteCount
    | NotOneWord
    | UnsupportedAbiType

  type PlanResult<T> = Result<T, PlanError>

  // ----- coercion of one field -----

  function OneWord(word: Option<Word>): PlanResult<FieldEncoding> {
    match word
    case None => Err(BadValue)
    case Some(w) => Ok(StaticWord(w))
  }

  /** A fixed byte string, padded on the right to the one word it must fill. */
  function FixedBytes(bytes: seq<byte>): PlanResult<FieldEncoding> {
    if 1 <= |bytes| <= WORD_BYTES then Ok(StaticWord(bytes + Zeros(WORD_BYTES - |bytes|)))
    else Err(NotOneWord)
  }

  function Coerce(solidityType: string, value: Json, leaves: Leaves): PlanResult<FieldEncoding> {
    CoerceLower(Lower(Trim(solidityType)), value, leaves)
  }

  function CoerceLower(ty: string, value: Json, leaves: Leaves): PlanResult<FieldEncoding> {
    if ty == "string" then Ok(DynamicBytes(leaves.text(value)))
    else if ty == "bytes" then
      match leaves.bytes(value)
      case None => Err(BadValue)
      case Some(bytes) => Ok(DynamicBytes(bytes))
    else if ty == "bool" || ty == "address" then OneWord(leaves.word(ty, value))
    else if "bytes" <= ty then
      match leaves.bytes(value)
      case None => Err(BadValue)
      case Some(bytes) =>
        match ParseUsize(TrimStartMatches(ty, "bytes"))
        case None => Ok(DynamicBytes(bytes))
        case Some(expected) =>
          if expected != |bytes| then Err(WrongByteCount) else FixedBytes(bytes)
    else if "uint" <= ty || "int" <= ty then OneWord(leaves.word(ty, value))
    else Err(UnsupportedAbiType)
  }

  /** The kind a supported type is laid out as: only `string` and `bytes` have a tail. */
  function KindOfType(solidityType: string): Kind {
    if Lower(solidityType) == "string" || Lower(solidityType) == "bytes" then Dynamic else Static
  }

  function KindsOfShape(fields: seq<FieldSpec>): (ks: seq<Kind>)
    ensures |ks| == |fields|
    ensures forall i :: 0 <= i < |fields| ==> ks[i] == KindOfType(fields[i].solidityType)
  {
    seq(|fields|, i requires 0 <= i < |fields| => KindOfType(fields[i].solidityType))
  }

  /** In a field that came from a shape string, `bytesN` has a width both parsers read alike. */
  lemma FixedBytesWidth(ty: string)
    requires JsonTypeOf(ty).Ok?
    requires "bytes" <= ty && ty != "bytes"
    ensures TrimStartMatches(ty, "bytes") == ty[5..]
    ensures var width := ParseUsize(ty[5..]); width.Some? && 1 <= width.value <= WORD_BYTES
  {
    var width := ty[5..];
    assert ty[0] == "bytes"[0];
    assert ty != "string" && ty != "address";
    assert TrimStartMatches(ty, "bytes") == TrimStartMatches(width, "bytes");
    assert IsBytesWidth(width);
    assert width[0] != "bytes"[0];
  }

  lemma CoercedKindLower(ty: string, value: Json, leaves: Leaves)
    requires JsonTypeOf(ty).Ok?
    requires CoerceLower(ty, value, leaves).Ok?
    ensures KindOf(CoerceLower(ty, value, leaves).value) == if ty == "string" || ty == "bytes" then Dynamic else Static
  {
    if "bytes" <= ty && ty != "bytes" {
      FixedBytesWidth(ty);
    }
  }

  /** The kind of an encoding is decided by the type alone, never by the value. */
  lemma CoercedKind(field: FieldSpec, value: Json, leaves: Leaves)
    requires SupportedField(field)
    requires Coerce(field.solidityType, value, leaves).Ok?
    ensures KindOf(Coerce(field.solidityType, value, leaves).value) == KindOfType(field.solidityType)
  {
    TrimIsTrimmed(field.solidityType);
    CoercedKindLower(Lower(field.solidityType), value, leaves);
  }

  // ----- what a field carries -----

  /** The encoding carries this leaf as its type demands: a string or byte string as it is; `bytesN` as a
      word that begins with exactly N given bytes and is zero behind them; any other type as its word. */
  predicate Carries(ty: string, value: Json, leaves: Leaves, e: FieldEncoding) {
    if ty == "string" then e == DynamicBytes(leaves.text(value))
    else if ty == "bytes" then e.DynamicBytes? && leaves.bytes(value) == Some(e.bytes)
    else if "bytes" <= ty then
      var width := ParseUsize(ty[5..]);
      && e.StaticWord? && width.Some? && width.value <= WORD_BYTES
      && leaves.bytes(value) == Some(e.word[..width.value])
      && forall i :: width.value <= i < WORD_BYTES ==> e.word[i] == 0
    else e.StaticWord? && leaves.word(ty, value) == Some(e.word)
  }

  /** The leaf converts, and to the right number of bytes. */
  predicate Converts(ty: string, value: Json, leaves: Leaves) {
    if ty == "string" then true
    else if ty == "bytes" then leaves.bytes(value).Some?
    else if "bytes" <= ty then
      leaves.bytes(value).Some? && ParseUsize(ty[5..]) == Some(|leaves.bytes(value).value|)
    else leaves.word(ty, value).Some?
  }

  lemma FixedBytesCarried(ty: string, value: Json, leaves: Leaves, e: FieldEncoding)
    requires JsonTypeOf(ty).Ok? && "bytes" <= ty && ty != "bytes"
    ensures CoerceLower(ty, value, leaves) == Ok(e) <==> Carries(ty, value, leaves, e)
    ensures CoerceLower(ty, value, leaves).Ok? <==> Converts(ty, value, leaves)
  {
    FixedBytesWidth(ty);
    var width := ParseUsize(ty[5..]).value;
    if Carries(ty, value, leaves, e) {
      assert e.word == e.word[..width] + Zeros(WORD_BYTES - width);
    }
  }

  lemma CarriedLower(ty: string, value: Json, leaves: Leaves, e: FieldEncoding)
    requires JsonTypeOf(ty).Ok?
    ensures CoerceLower(ty, value, leaves) == Ok(e) <==> Carries(ty, value, leaves, e)
    ensures CoerceLower(ty, value, leaves).Ok? <==> Converts(ty, value, leaves)
  {
    if "bytes" <= ty && ty != "bytes" {
      FixedBytesCarried(ty, value, leaves, e);
    }
  }

  /** Coercing a field of a supported type gives precisely the encoding that carries its leaf, and fails
      precisely when the leaf does not convert. */
  lemma CoerceCarries(field: FieldSpec, value: Json, leaves: Leaves, e: FieldEncoding)
    requires SupportedField(field)
    ensures Coerce(field.solidityType, value, leaves) == Ok(e) <==> Carries(Lower(field.solidityType), value, leaves, e)
    ensures Coerce(field.solidityType, value, leaves).Ok? <==> Converts(Lower(field.solidityType), value, leaves)
  {
    TrimIsTrimmed(field.solidityType);
    CarriedLower(Lower(field.solidityType), value, leaves, e);
  }

  // ----- the plan -----

  function PlanField(field: FieldSpec, members: map<string, Json>, leaves: Leaves): PlanResult<FieldEncoding> {
    if field.name !in members then Err(MissingField(field.name))
    else Coerce(field.solidityType, members[field.name], leaves)
  }

  function Planner(members: map<string, Json>, leaves: Leaves): FieldSpec -> PlanResult<FieldEncoding> {
    field => PlanField(field, members, leaves)
  }

  function BuildPlan(fields: seq<FieldSpec>, shaped: Json, leaves: Leaves): PlanResult<seq<FieldEncoding>> {
    match Validate(fields)
    case Err(e) => Err(BadShape(e))
    case Ok(_) =>
      if !shaped.JObject? then Err(NotAnObject)
      else Traverse(Planner(shaped.members, leaves), fields)
  }

  method BuildAbiEncodingPlan(fields: seq<FieldSpec>, shaped: Json, leaves: Leaves)
    returns (r: PlanResult<seq<FieldEncoding>>)
    ensures r == BuildPlan(fields, shaped, leaves)
  {
    var valid := ValidateFields(fields);
    if valid.Err? {
      return Err(BadShape(valid.error));
    }
    if !shaped.JObject? {
      return Err(NotAnObject);
    }
    var members := shaped.members;
    var encodings: seq<FieldEncoding> := [];
    for i := 0 to |fields|
      invariant Traverse(Planner(members, leaves), fields[..i]) == Ok(encodings)
    {
      assert fields[..i + 1][..i] == fields[..i];
      TraverseFirstError(Planner(members, leaves), fields, i + 1);
      if fields[i].name !in members {
        return Err(MissingField(fields[i].name));
      }
      var encoding := Coerce(fields[i].solidityType, members[fields[i].name], leaves);
      if encoding.Err? {
        return Err(encoding.error);
      }
      encodings := encodings + [encoding.value];
    }
    assert fields[..|fields|] == fields;
    r := Ok(encodings);
  }

  // ----- the check on the structured output -----

  datatype OutputError =
    | OutputNotAnObject
    | OutputMissing(name: string)
    | OutputUnexpected

  function NameSet(fields: seq<FieldSpec>): set<string> {
    set i | 0 <= i < |fields| :: fields[i].name
  }

  /** What the node checks: every field name is there, and the counts agree. */
  predicate PassesOutputCheck(fields: seq<FieldSpec>, members: map<string, Json>) {
    NameSet(fields) <= members.Keys && |members| == |fields|
  }

  method ValidateStructuredOutput(fields: seq<FieldSpec>, shaped: Json) returns (r: Result<(), OutputError>)
    ensures r.Ok? <==> shaped.JObject? && PassesOutputCheck(fields, shaped.members)
    ensures r == Err(OutputNotAnObject) <==> !shaped.JObject?
    ensures r == Err(OutputUnexpected) <==>
      shaped.JObject? && NameSet(fields) <= shaped.members.Keys && |shaped.members| != |fields|
    ensures r.Err? && r.error.OutputMissing? ==> exists i ::
      && 0 <= i < |fields| && fields[i].name == r.error.name
      && r.error.name !in shaped.members
      && forall j :: 0 <= j < i ==> fields[j].name in shaped.members
    ensures ValidFields(fields) ==>
      (r.Ok? <==> shaped.JObject? && shaped.members.Keys == NameSet(fields))
  {
    if !shaped.JObject? {
      return Err(OutputNotAnObject);
    }
    var members := shaped.members;
    for i := 0 to |fields|
      invariant forall j :: 0 <= j < i ==> fields[j].name in members
    {
      if fields[i].name !in members {
        assert fields[i].name in NameSet(fields);
        return Err(OutputMissing(fields[i].name));
      }
    }
    if |members| != |fields| {
      if ValidFields(fields) {
        DistinctNamesCount(fields);
        assert |members.Keys| == |members|;
      }
      return Err(OutputUnexpected);
    }
    r := Ok(());
    if ValidFields(fields) {
      ExactKeys(fields, members);
    }
  }

  lemma {:induction false} DistinctNamesCount(fields: seq<FieldSpec>)
    requires forall i, j :: 0 <= i < j < |fields| ==> fields[i].name != fields[j].name
    ensures |NameSet(fields)| == |fields|
  {
    if fields != [] {
      var n := |fields| - 1;
      DistinctNamesCount(fields[..n]);
      assert NameSet(fields) == NameSet(fields[..n]) + {fields[n].name};
    }
  }

  lemma SubsetOfEqualSize<T>(a: set<T>, b: set<T>)
    requires a <= b && |a| == |b|
    ensures a == b
  {
    assert |b - a| == 0;
  }

  /** Counting is enough: with distinct names, holding them all and no more members is equality. */
  lemma ExactKeys(fields: seq<FieldSpec>, members: map<string, Json>)
    requires ValidFields(fields)
    ensures PassesOutputCheck(fields, members) <==> members.Keys == NameSet(fields)
  {
    DistinctNamesCount(fields);
    assert |members.Keys| == |members|;
    if PassesOutputCheck(fields, members) {
      SubsetOfEqualSize(NameSet(fields), members.Keys);
    }
  }

  // ----- shape to bytes, end to end -----

  ghost predicate PlannedInOrder(fields: seq<FieldSpec>, members: map<string, Json>, leaves: Leaves,
                                 plan: seq<FieldEncoding>)
  {
    && |plan| == |fields|
    && forall i :: 0 <= i < |fields| ==>
         fields[i].name in members && Carries(Lower(fields[i].solidityType), members[fields[i].name], leaves, plan[i])
  }

  /** The value does not convert, or a fixed byte string has the wrong number of bytes. */
  predicate IsValueError(e: PlanError) {
    e == BadValue || e == WrongByteCount
  }

  lemma CoerceErrorsLower(ty: string, value: Json, leaves: Leaves)
    requires JsonTypeOf(ty).Ok?
    ensures var r := CoerceLower(ty, value, leaves); r.Err? ==> IsValueError(r.error)
  {
    if "bytes" <= ty && ty != "bytes" {
      FixedBytesWidth(ty);
    }
  }

  /** A supported type fails to coerce only because of the value. */
  lemma CoerceErrors(field: FieldSpec, value: Json, leaves: Leaves)
    requires SupportedField(field)
    ensures var r := Coerce(field.solidityType, value, leaves); r.Err? ==> IsValueError(r.error)
  {
    TrimIsTrimmed(field.solidityType);
    CoerceErrorsLower(Lower(field.solidityType), value, leaves);
  }

  lemma NoFieldMissing(fields: seq<FieldSpec>, members: map<string, Json>, leaves: Leaves)
    requires forall i :: 0 <= i < |fields| ==> SupportedField(fields[i])
    requires NameSet(fields) <= members.Keys
    ensures var r := Traverse(Planner(members, leaves), fields); r.Err? ==> IsValueError(r.error)
  {
    var r := Traverse(Planner(members, leaves), fields);
    if r.Err? {
      var i := TraverseError(Planner(members, leaves), fields);
      assert fields[i].name in NameSet(fields);
      CoerceErrors(fields[i], members[fields[i].name], leaves);
    }
  }

  /** A plan that follows the shape: one encoding per field, in order, that carries the field's value, of
      the kinds that the shape alone decides, so that those kinds decode the callback bytes to it. */
  ghost predicate FollowsShape(fields: seq<FieldSpec>, members: map<string, Json>, leaves: Leaves,
                               plan: seq<FieldEncoding>)
  {
    && PlannedInOrder(fields, members, leaves, plan)
    && Kinds(plan) == KindsOfShape(fields)
    && (Addressable(plan) ==> Decode(KindsOfShape(fields), Encoding(plan)) == Some(plan))
  }

  lemma CarriedKind(ty: string, value: Json, leaves: Leaves, e: FieldEncoding)
    requires Carries(ty, value, leaves, e)
    ensures KindOf(e) == if ty == "string" || ty == "bytes" then Dynamic else Static
  {
  }

  lemma PlannedFieldsFollow(fields: seq<FieldSpec>, members: map<string, Json>, leaves: Leaves,
                            plan: seq<FieldEncoding>)
    requires PlannedInOrder(fields, members, leaves, plan)
    ensures FollowsShape(fields, members, leaves, plan)
  {
    forall i | 0 <= i < |fields|
      ensures Kinds(plan)[i] == KindsOfShape(fields)[i]
    {
      CarriedKind(Lower(fields[i].solidityType), members[fields[i].name], leaves, plan[i]);
    }
    if Addressable(plan) {
      RoundTrip(plan);
    }
  }

  /** Every field's value converts. */
  ghost predicate AllConvert(fields: seq<FieldSpec>, members: map<string, Json>, leaves: Leaves) {
    forall i :: 0 <= i < |fields| ==>
      fields[i].name in members && Converts(Lower(fields[i].solidityType), members[fields[i].name], leaves)
  }

  lemma TraversedInOrder(fields: seq<FieldSpec>, members: map<string, Json>, leaves: Leaves)
    requires forall i :: 0 <= i < |fields| ==> SupportedField(fields[i])
    requires NameSet(fields) <= members.Keys
    ensures var r := Traverse(Planner(members, leaves), fields);
      && (r.Ok? ==> PlannedInOrder(fields, members, leaves, r.value))
      && (r.Ok? <==> AllConvert(fields, members, leaves))
  {
    var r := Traverse(Planner(members, leaves), fields);
    forall i | 0 <= i < |fields|
      ensures fields[i].name in members
      ensures Planner(members, leaves)(fields[i]).Ok?
         <==> Converts(Lower(fields[i].solidityType), members[fields[i].name], leaves)
    {
      assert fields[i].name in NameSet(fields);
      CoerceCarries(fields[i], members[fields[i].name], leaves, StaticWord(Zeros(WORD_BYTES)));
    }
    if r.Ok? {
      TraverseElements(Planner(members, leaves), fields);
      forall i | 0 <= i < |fields|
        ensures Carries(Lower(fields[i].solidityType), members[fields[i].name], leaves, r.value[i])
      {
        assert Planner(members, leaves)(fields[i]) == Ok(r.value[i]);
        CoerceCarries(fields[i], members[fields[i].name], leaves, r.value[i]);
      }
    } else {
      var i := TraverseError(Planner(members, leaves), fields);
    }
  }

  lemma FieldsToBytes(fields: seq<FieldSpec>, members: map<string, Json>, leaves: Leaves)
    requires Canonical(fields)
    requires NameSet(fields) <= members.Keys
    ensures BuildPlan(fields, JObject(members), leaves).Ok? <==> AllConvert(fields, members, leaves)
    ensures match BuildPlan(fields, JObject(members), leaves)
      case Err(e) => IsValueError(e)
      case Ok(plan) => FollowsShape(fields, members, leaves, plan)
  {
    ValidateIffValid(fields);
    NoFieldMissing(fields, members, leaves);
    TraversedInOrder(fields, members, leaves);
    var planned := Traverse(Planner(members, leaves), fields);
    if planned.Ok? {
      PlannedFieldsFollow(fields, members, leaves, planned.value);
    }
  }

  /** When the shape string parses and the object passes the check, the object's keys are the field
      names, planning fails exactly when some value does not convert, and any plan follows the shape:
      the callback bytes decode to the converted values. */
  lemma ShapeToBytes(shape: string, members: map<string, Json>, leaves: Leaves)
    requires Parse(shape).Ok?
    requires PassesOutputCheck(Parse(shape).value, members)
    ensures members.Keys == NameSet(Parse(shape).value)
    ensures BuildPlan(Parse(shape).value, JObject(members), leaves).Ok?
       <==> AllConvert(Parse(shape).value, members, leaves)
    ensures match BuildPlan(Parse(shape).value, JObject(members), leaves)
      case Err(e) => IsValueError(e)
      case Ok(plan) => FollowsShape(Parse(shape).value, members, leaves, plan)
  {
    ParseIsCanonical(shape);
    ExactKeys(Parse(shape).value, members);
    FieldsToBytes(Parse(shape).value, members, leaves);
  }
}
