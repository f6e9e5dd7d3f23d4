/**
 The type grammar of the data shaping guide (primitives, nested tuples, arrays), spelled out
 as text, and the proof of exactly which of its shapes the parser accepts.
 */
module GuideShapes {
  import opened Ascii
  import opened Bytes
  import opened RustText
  import opened Shape
  import opened Wrappers

  datatype GuideType =
    | GBool
    | GAddress
    | GString
    | GBytes
    | GFixedBytes(width: nat)
    | GUint(width: nat)
    | GInt(width: nat)
    | GTuple(fields: seq<GuideField>)
    | GList(element: GuideType)
    | GArray(element: GuideType, length: nat)

  datatype GuideField = GuideField(name: string, kind: GuideType)

  function Spell(t: GuideType): string {
    match t
    case GBool => "bool"
    case GAddress => "address"
    case GString => "string"
    case GBytes => "bytes"
    case GFixedBytes(width) => "bytes" + DecimalText(width)
    case GUint(width) => "uint" + DecimalText(width)
    case GInt(width) => "int" + DecimalText(width)
    case GTuple(fields) =>
      var items := seq(|fields|, i requires 0 <= i < |fields| => fields[i].name + ":" + Spell(fields[i].kind));
      "tuple(" + (if items == [] then "" else Join(items, ',')) + ")"
    case GList(element) => Spell(element) + "[]"
    case GArray(element, length) => Spell(element) + "[" + DecimalText(length) + "]"
  }

  /** The grammar's side conditions: field names are identifiers, and a tuple has a field. */
  predicate InGrammar(t: GuideType) {
    match t
    case GTuple(fields) =>
      fields != [] && forall i :: 0 <= i < |fields| ==> IsValidFieldName(fields[i].name) && InGrammar(fields[i].kind)
    case GList(element) => InGrammar(element)
    case GArray(element, _) => InGrammar(element)
    case _ => true
  }

  predicate IsPrimitive(t: GuideType) {
    !t.GTuple? && !t.GList? && !t.GArray?
  }

  /** The types a field may have. */
  predicate Supported(t: GuideType) {
    match t
    case GFixedBytes(width) => 1 <= width <= 32
    case GUint(width) => 8 <= width <= 128 && width % 8 == 0
    case GInt(width) => 8 <= width <= 128 && width % 8 == 0
    case _ => IsPrimitive(t)
  }

  predicate DistinctNames(fields: seq<GuideField>) {
    forall i, j :: 0 <= i < j < |fields| ==> fields[i].name != fields[j].name
  }

  /** A flat tuple of supported types under different names. */
  predicate Parses(t: GuideType) {
    t.GTuple? && DistinctNames(t.fields) && forall i :: 0 <= i < |t.fields| ==> Supported(t.fields[i].kind)
  }

  // ----- primitive types -----

  /** A written width parses back, if it is a 64-bit number. */
  lemma WidthParses(m: nat)
    ensures ParseUsize(DecimalText(m)) == if m < TWO_64 then Some(m) else None
  {
    DecimalReadsBack(m);
    assert IsDigit(DecimalText(m)[0]);
  }

  lemma UintType(digits: string)
    ensures JsonTypeOf("uint" + digits) == if IsIntegerWidth(digits) then Ok("integer") else Err(UnsupportedType)
  {
    var ty := "uint" + digits;
    assert ty[0] == 'u' && ty[4..] == digits;
  }

  lemma IntType(digits: string)
    ensures JsonTypeOf("int" + digits) == if IsIntegerWidth(digits) then Ok("integer") else Err(UnsupportedType)
  {
    var ty := "int" + digits;
    assert ty[0] == 'i' && ty[3..] == digits;
  }

  lemma BytesType(digits: string)
    requires digits != ""
    ensures JsonTypeOf("bytes" + digits) == if IsBytesWidth(digits) then Ok("string") else Err(UnsupportedType)
  {
    var ty := "bytes" + digits;
    assert ty[0] == 'b' && |ty| > 5 && ty[5..] == digits;
  }

  /** Which widths the guide's numeric families are supported in. */
  lemma SupportedWidths(m: nat)
    ensures JsonTypeOf("uint" + DecimalText(m))
         == if 8 <= m <= 128 && m % 8 == 0 then Ok("integer") else Err(UnsupportedType)
    ensures JsonTypeOf("int" + DecimalText(m))
         == if 8 <= m <= 128 && m % 8 == 0 then Ok("integer") else Err(UnsupportedType)
    ensures JsonTypeOf("bytes" + DecimalText(m)) == if 1 <= m <= 32 then Ok("string") else Err(UnsupportedType)
  {
    WidthParses(m);
    UintType(DecimalText(m));
    IntType(DecimalText(m));
    BytesType(DecimalText(m));
  }

  predicate IsLowerChar(c: char) {
    'a' <= c <= 'z' || IsDigit(c)
  }

  predicate AllLowerChars(s: string) {
    forall i :: 0 <= i < |s| ==> IsLowerChar(s[i])
  }

  lemma LowerCharsUnchanged(s: string)
    requires AllLowerChars(s)
    ensures Lower(s) == s && Trim(s) == s && Trimmed(s) && AllTypeChars(s) && AllItemChars(s)
  {
    TrimIsTrimmed(s);
    assert forall i :: 0 <= i < |s| ==> LowerChar(s[i]) == s[i];
  }

  lemma PrimitiveChars(t: GuideType)
    requires IsPrimitive(t)
    ensures Spell(t) != "" && AllLowerChars(Spell(t))
  {
  }

  function SpecOf(field: GuideField): FieldSpec {
    FieldSpec(field.name, Spell(field.kind), None, None, None)
  }

  /** The JSON type a field of this type is requested as. */
  function JsonNameOf(t: GuideType): string {
    if t.GBool? then "boolean" else if t.GUint? || t.GInt? then "integer" else "string"
  }

  lemma PrimitiveSupportedIff(field: GuideField)
    requires IsPrimitive(field.kind)
    ensures InferJsonType(SpecOf(field)).Ok? <==> Supported(field.kind)
    ensures Supported(field.kind) ==> InferJsonType(SpecOf(field)) == Ok(JsonNameOf(field.kind))
  {
    PrimitiveChars(field.kind);
    LowerCharsUnchanged(Spell(field.kind));
    SpelledJsonType(field.kind);
  }

  lemma SpelledJsonType(t: GuideType)
    requires IsPrimitive(t)
    ensures JsonTypeOf(Spell(t)) == if Supported(t) then Ok(JsonNameOf(t)) else Err(UnsupportedType)
  {
    match t
    case GFixedBytes(width) => SupportedWidths(width);
    case GUint(width) => SupportedWidths(width);
    case GInt(width) => SupportedWidths(width);
    case _ =>
  }

  // ----- the text of a type -----

  function SpellItems(fields: seq<GuideField>): (items: seq<string>)
    ensures |items| == |fields|
    ensures forall i :: 0 <= i < |fields| ==> items[i] == fields[i].name + ":" + Spell(fields[i].kind)
  {
    seq(|fields|, i requires 0 <= i < |fields| => fields[i].name + ":" + Spell(fields[i].kind))
  }

  lemma SpellTuple(fields: seq<GuideField>)
    requires fields != []
    ensures Spell(GTuple(fields)) == "tuple(" + Join(SpellItems(fields), ',') + ")"
  {
    var items := seq(|fields|, i requires 0 <= i < |fields| => fields[i].name + ":" + Spell(fields[i].kind));
    assert items == SpellItems(fields);
  }

  lemma NameChars(name: string)
    requires IsValidFieldName(name)
    ensures AllItemChars(name) && Trim(name) == name != ""
  {
    ItemCharsArePlain(name);
  }

  lemma {:induction false} SpellChars(t: GuideType)
    requires InGrammar(t)
    ensures AllShapeChars(Spell(t)) && Spell(t) != ""
  {
    match t
    case GTuple(fields) =>
      forall i | 0 <= i < |fields|
        ensures AllShapeChars(SpellItems(fields)[i])
      {
        NameChars(fields[i].name);
        SpellChars(fields[i].kind);
        ShapeCharsConcat(fields[i].name + ":", Spell(fields[i].kind));
      }
      SpellTuple(fields);
      JoinChars(SpellItems(fields));
      ShapeCharsConcat("tuple(", Join(SpellItems(fields), ','));
      ShapeCharsConcat("tuple(" + Join(SpellItems(fields), ','), ")");
    case GList(element) =>
      SpellChars(element);
      ShapeCharsConcat(Spell(element), "[]");
    case GArray(element, length) =>
      SpellChars(element);
      ShapeCharsConcat(Spell(element), "[" + DecimalText(length) + "]");
    case _ =>
      PrimitiveChars(t);
      LowerCharsUnchanged(Spell(t));
  }

  /** Tuples and arrays are spelled with brackets. */
  lemma NestedNotPlain(t: GuideType)
    requires !IsPrimitive(t)
    ensures !Plain(Spell(t))
  {
    var text := Spell(t);
    match t
    case GTuple(fields) => assert text[5] == '(' && text[5] in text;
    case GList(element) => assert text[|text| - 1] == ']' && text[|text| - 1] in text;
    case GArray(element, length) => assert text[|text| - 1] == ']' && text[|text| - 1] in text;
  }

  lemma ItemNotPlain(field: GuideField)
    requires !IsPrimitive(field.kind)
    ensures !Plain(field.name + ":" + Spell(field.kind))
  {
    NestedNotPlain(field.kind);
    var c :| c in Spell(field.kind) && IsBracket(c);
    assert c in field.name + ":" + Spell(field.kind);
  }

  lemma {:induction false} PartsOfPlainJoin(parts: seq<string>, separator: char, i: nat)
    requires i < |parts| && Plain(Join(parts, separator))
    ensures Plain(parts[i])
  {
    if |parts| > 1 {
      var rest := Join(parts[1..], separator);
      assert forall c :: c in rest ==> c in Join(parts, separator);
      if i > 0 {
        PartsOfPlainJoin(parts[1..], separator, i - 1);
      }
    }
  }

  // ----- what parses -----

  lemma NotATuple(t: GuideType)
    requires InGrammar(t) && !t.GTuple?
    ensures Parse(Spell(t)) == Err(NotTuple)
  {
    var text := Spell(t);
    SpellChars(t);
    CompactIdentity(text);
    if IsPrimitive(t) {
      assert "tuple("[0] == 't';
    } else {
      assert text[|text| - 1] == ']';
    }
  }

  lemma NestedRefused(fields: seq<GuideField>, i: nat)
    requires InGrammar(GTuple(fields))
    requires i < |fields| && !IsPrimitive(fields[i].kind)
    ensures Parse(Spell(GTuple(fields))).Err?
  {
    var text, items := Spell(GTuple(fields)), SpellItems(fields);
    var body := Join(items, ',');
    TupleText(fields);
    ParsedBodyIsPlain(text);
    ItemNotPlain(fields[i]);
    if Plain(body) {
      PartsOfPlainJoin(items, ',', i);
      assert false;
    }
  }

  lemma TupleText(fields: seq<GuideField>)
    requires InGrammar(GTuple(fields))
    ensures TupleBody(Spell(GTuple(fields))) == Ok(Join(SpellItems(fields), ','))
  {
    var items := SpellItems(fields);
    SpellTuple(fields);
    forall i | 0 <= i < |items|
      ensures AllShapeChars(items[i])
    {
      NameChars(fields[i].name);
      SpellChars(fields[i].kind);
      ShapeCharsConcat(fields[i].name + ":", Spell(fields[i].kind));
    }
    JoinChars(items);
    WrappedBody(Join(items, ','));
  }

  function Specs(fields: seq<GuideField>): (specs: seq<FieldSpec>)
    ensures |specs| == |fields|
    ensures forall i :: 0 <= i < |fields| ==> specs[i] == SpecOf(fields[i])
  {
    seq(|fields|, i requires 0 <= i < |fields| => SpecOf(fields[i]))
  }

  lemma FlatPrintable(fields: seq<GuideField>)
    requires InGrammar(GTuple(fields))
    requires forall i :: 0 <= i < |fields| ==> IsPrimitive(fields[i].kind)
    ensures Printable(Specs(fields)) && Spell(GTuple(fields)) == RenderText(Specs(fields))
  {
    forall i | 0 <= i < |fields|
      ensures PrintableField(Specs(fields)[i])
    {
      PrimitiveChars(fields[i].kind);
      LowerCharsUnchanged(Spell(fields[i].kind));
    }
    SpellTuple(fields);
    assert Items(Specs(fields)) == SpellItems(fields);
  }

  lemma FlatValidIff(fields: seq<GuideField>)
    requires InGrammar(GTuple(fields))
    requires forall i :: 0 <= i < |fields| ==> IsPrimitive(fields[i].kind)
    ensures ValidFields(Specs(fields)) <==> Parses(GTuple(fields))
  {
    var specs := Specs(fields);
    forall i | 0 <= i < |fields|
      ensures Trim(specs[i].name) != "" && Trim(specs[i].solidityType) != ""
      ensures InferJsonType(specs[i]).Ok? <==> Supported(fields[i].kind)
    {
      NameChars(fields[i].name);
      PrimitiveChars(fields[i].kind);
      LowerCharsUnchanged(Spell(fields[i].kind));
      PrimitiveSupportedIff(fields[i]);
    }
  }

  /** Of all the guide's types, the parser accepts exactly the flat tuples of supported primitives under
      different names, and reads them back field by field. */
  lemma GuideShapeParsesIff(t: GuideType)
    requires InGrammar(t)
    ensures Parse(Spell(t)).Ok? <==> Parses(t)
    ensures Parses(t) ==> Parse(Spell(t)) == Ok(Specs(t.fields))
  {
    if !t.GTuple? {
      NotATuple(t);
    } else if i :| 0 <= i < |t.fields| && !IsPrimitive(t.fields[i].kind) {
      NestedRefused(t.fields, i);
    } else {
      FlatPrintable(t.fields);
      ParsePrintable(Specs(t.fields));
      ValidateIffValid(Specs(t.fields));
      FlatValidIff(t.fields);
    }
  }

  /** The widths Solidity itself has. */
  predicate SolidityWidths(t: GuideType) {
    match t
    case GFixedBytes(width) => 1 <= width <= 32
    case GUint(width) => 8 <= width <= 256 && width % 8 == 0
    case GInt(width) => 8 <= width <= 256 && width % 8 == 0
    case _ => true
  }

  predicate IsWide(t: GuideType) {
    (t.GUint? || t.GInt?) && t.width > 128
  }

  /** For a tuple of types that Solidity has, under different names, that is: exactly when every type is
      primitive and no integer is wider than 128 bits. */
  lemma RefusedIffNestedOrWide(fields: seq<GuideField>)
    requires InGrammar(GTuple(fields)) && DistinctNames(fields)
    requires forall i :: 0 <= i < |fields| ==> SolidityWidths(fields[i].kind)
    ensures Parse(Spell(GTuple(fields))).Err?
       <==> exists i :: 0 <= i < |fields| && (!IsPrimitive(fields[i].kind) || IsWide(fields[i].kind))
  {
    GuideShapeParsesIff(GTuple(fields));
    forall i | 0 <= i < |fields|
      ensures Supported(fields[i].kind) <==> IsPrimitive(fields[i].kind) && !IsWide(fields[i].kind)
    {
      SupportedIffNarrow(fields[i].kind);
    }
  }

  lemma SupportedIffNarrow(t: GuideType)
    requires SolidityWidths(t)
    ensures Supported(t) <==> IsPrimitive(t) && !IsWide(t)
  {
  }

  lemma WideDigits()
    ensures DecimalText(256) == "256" && DecimalText(64) == "64"
  {
    TwoDigits(2, 5);
    TwoDigits(6, 4);
    assert DecimalText(256) == DecimalText(25) + [DigitChar(6)];
  }

  lemma TwoDigits(a: nat, b: nat)
    requires 0 < a < 10 && b < 10
    ensures DecimalText(10 * a + b) == [DigitChar(a), DigitChar(b)]
  {
  }

  lemma WideItems(nav: GuideField, asOf: GuideField)
    requires nav == GuideField("nav", GUint(256)) && asOf == GuideField("asOf", GUint(64))
    ensures Join(SpellItems([nav, asOf]), ',') == "nav:uint256,asOf:uint64"
  {
    WideDigits();
    var items := SpellItems([nav, asOf]);
    var a, b := "nav" + ":" + ("uint" + "256"), "asOf" + ":" + ("uint" + "64");
    assert items[0] == a && items[1] == b;
    assert items[1..] == [b];
    assert Join(items, ',') == a + [','] + b;
  }

  lemma UnsupportedRefused(a: GuideField, b: GuideField)
    requires IsValidFieldName(a.name) && IsValidFieldName(b.name)
    requires IsPrimitive(a.kind) && IsPrimitive(b.kind) && !Supported(a.kind)
    ensures Parse("tuple(" + Join(SpellItems([a, b]), ',') + ")").Err?
  {
    var fields := [a, b];
    assert fields[0].kind == a.kind;
    SpellTuple(fields);
    GuideShapeParsesIff(GTuple(fields));
  }

  const NAV: GuideField := GuideField("nav", GUint(256))
  const AS_OF: GuideField := GuideField("asOf", GUint(64))

  lemma ExampleText()
    ensures "tuple(" + Join(SpellItems([NAV, AS_OF]), ',') + ")" == "tuple(nav:uint256,asOf:uint64)"
  {
    WideItems(NAV, AS_OF);
  }

  lemma ExampleRefused()
    ensures Parse("tuple(" + Join(SpellItems([NAV, AS_OF]), ',') + ")").Err?
  {
    UnsupportedRefused(NAV, AS_OF);
  }

  /** The guide's first example is refused. */
  lemma GuideExampleRefused()
    ensures Parse("tuple(nav:uint256,asOf:uint64)").Err?
  {
    ExampleText();
    ExampleRefused();
  }
}
