/**
 White space in shape strings: blanks around the text, its fields, their names and their types do
 not change what is parsed.
 */
module ShapeSpacing {
  import opened Ascii
  import opened RustText
  import opened Shape
  import opened Wrappers

  /** Spaces, tabs and line breaks. */
  predicate Blank(s: string) {
    forall i :: 0 <= i < |s| ==> s[i] == ' ' || s[i] == '\t' || s[i] == '\n' || s[i] == '\r'
  }

  // ----- trimming -----

  lemma {:induction false} TrimStartBlank(w: string, s: string)
    requires Blank(w) && (s != "" ==> !IsWhitespace(s[0]))
    ensures TrimStart(w + s) == s
  {
    if w == "" {
      assert w + s == s;
    } else {
      TrimStartBlank(w[1..], s);
      assert (w + s)[1..] == w[1..] + s;
    }
  }

  lemma {:induction false} TrimEndBlank(s: string, w: string)
    requires Blank(w) && (s != "" ==> !IsWhitespace(s[|s| - 1]))
    ensures TrimEnd(s + w) == s
  {
    if w == "" {
      assert s + w == s;
    } else {
      var n := |w| - 1;
      TrimEndBlank(s, w[..n]);
      assert (s + w)[..|s + w| - 1] == s + w[..n];
    }
  }

  /** Trimming takes off exactly the blanks around a text that begins and ends with something else. */
  lemma TrimBlanks(before: string, s: string, after: string)
    requires Blank(before) && Blank(after) && s != "" && Trimmed(s)
    ensures Trim(before + s + after) == s
  {
    assert before + s + after == before + (s + after);
    TrimStartBlank(before, s + after);
    TrimEndBlank(s, after);
  }

  // ----- removing line breaks -----

  lemma {:induction false} WithoutConcat(a: string, b: string)
    ensures WithoutLineBreaks(a + b) == WithoutLineBreaks(a) + WithoutLineBreaks(b)
  {
    if a == "" {
      assert a + b == b;
    } else {
      WithoutConcat(a[1..], b);
      WithoutCons(a[0], a[1..] + b);
      WithoutCons(a[0], a[1..]);
      assert [a[0]] + a[1..] == a && [a[0]] + (a[1..] + b) == a + b;
      Associate(if IsLineBreakOrTab(a[0]) then "" else [a[0]], WithoutLineBreaks(a[1..]), WithoutLineBreaks(b));
    }
  }

  lemma WithoutCons(c: char, s: string)
    ensures WithoutLineBreaks([c] + s) == (if IsLineBreakOrTab(c) then "" else [c]) + WithoutLineBreaks(s)
  {
    assert ([c] + s)[1..] == s;
  }

  lemma Associate(a: string, b: string, c: string)
    ensures a + (b + c) == a + b + c
  {
  }

  lemma {:induction false} WithoutBlank(w: string)
    requires Blank(w)
    ensures Blank(WithoutLineBreaks(w))
  {
    if w != "" {
      WithoutBlank(w[1..]);
    }
  }

  // ----- one field -----

  /** The blanks before a name, behind it, before the type, and behind that. */
  datatype Spacing = Spacing(before: string, behind: string, inner: string, after: string)

  predicate Blanks(p: Spacing) {
    Blank(p.before) && Blank(p.behind) && Blank(p.inner) && Blank(p.after)
  }

  function Spaced(field: FieldSpec, p: Spacing): string {
    p.before + (field.name + p.behind + ":" + (p.inner + field.solidityType)) + p.after
  }

  lemma NameIsItem(name: string)
    requires IsValidFieldName(name)
    ensures AllItemChars(name)
  {
  }

  lemma PlainPiece(w: string, s: string, v: string)
    requires Blank(w) && Blank(v) && AllItemChars(s) && ':' !in s
    ensures Plain(w + s + v) && ':' !in w + s + v && ',' !in w + s + v
  {
    forall c | c in w + s + v
      ensures !IsBracket(c) && c != ':' && c != ','
    {
      var i :| 0 <= i < |w + s + v| && (w + s + v)[i] == c;
      assert c == if i < |w| then w[i] else if i < |w| + |s| then s[i - |w|] else v[i - |w| - |s|];
    }
  }

  /** A field reads the same with blanks around its name and its type. */
  lemma SpacedFieldParses(field: FieldSpec, p: Spacing)
    requires PrintableField(field) && Blanks(p)
    ensures ParseField(Spaced(field, p)) == Ok(field)
  {
    ItemChars(field);
    ItemCharsArePlain(field.name);
    ItemCharsArePlain(field.solidityType);
    PiecesTrim(field.name, p.behind, p.inner, field.solidityType);
    TrimBlanks(p.before, field.name + p.behind + ":" + (p.inner + field.solidityType), p.after);
    PlainPiece("", field.name, p.behind);
    PlainPiece(p.inner, field.solidityType, "");
    SplitPair(field.name + p.behind, p.inner + field.solidityType);
  }

  lemma PiecesTrim(name: string, behind: string, inner: string, ty: string)
    requires name != "" && ty != "" && Trimmed(name) && Trimmed(ty) && Blank(behind) && Blank(inner)
    ensures Trim(name + behind) == name && Trim(inner + ty) == ty
    ensures "" + name + behind == name + behind && inner + ty + "" == inner + ty
    ensures Trimmed(name + behind + ":" + (inner + ty))
  {
    TrimBlanks("", name, behind);
    TrimBlanks(inner, ty, "");
    assert "" + name + behind == name + behind && inner + ty + "" == inner + ty;
  }

  lemma SplitPair(left: string, right: string)
    requires Plain(left) && Plain(right) && ':' !in left && ':' !in right
    ensures Split(left + ":" + right, ':') == Ok([left, right])
  {
    var pieces := [left, right];
    assert pieces[1..] == [right];
    assert Join(pieces, ':') == left + ":" + right;
    SplitOfJoin(pieces, ':');
  }

  // ----- a whole shape -----

  function SpacedItems(fields: seq<FieldSpec>, ps: seq<Spacing>): (items: seq<string>)
    requires |fields| == |ps|
    ensures |items| == |fields|
    ensures forall i :: 0 <= i < |fields| ==> items[i] == Spaced(fields[i], ps[i])
  {
    seq(|fields|, i requires 0 <= i < |fields| => Spaced(fields[i], ps[i]))
  }

  predicate AllBlanks(ps: seq<Spacing>) {
    forall i :: 0 <= i < |ps| ==> Blanks(ps[i])
  }

  function NoBreaks(p: Spacing): Spacing {
    Spacing(WithoutLineBreaks(p.before), WithoutLineBreaks(p.behind),
            WithoutLineBreaks(p.inner), WithoutLineBreaks(p.after))
  }

  function AllNoBreaks(ps: seq<Spacing>): (qs: seq<Spacing>)
    ensures |qs| == |ps|
    ensures forall i :: 0 <= i < |ps| ==> qs[i] == NoBreaks(ps[i])
  {
    seq(|ps|, i requires 0 <= i < |ps| => NoBreaks(ps[i]))
  }

  lemma ItemWithoutBreaks(s: string)
    requires AllItemChars(s)
    ensures WithoutLineBreaks(s) == s
  {
    assert NoWhitespace(s);
    WithoutNoLineBreaks(s);
  }

  /** Removing the line breaks from a spaced field leaves a spaced field. */
  lemma SpacedWithoutBreaks(field: FieldSpec, p: Spacing)
    requires PrintableField(field) && Blanks(p)
    ensures WithoutLineBreaks(Spaced(field, p)) == Spaced(field, NoBreaks(p)) && Blanks(NoBreaks(p))
  {
    ItemChars(field);
    ItemWithoutBreaks(field.name);
    ItemWithoutBreaks(field.solidityType);
    ItemWithoutBreaks(":");
    WithoutConcat(p.before + (field.name + p.behind + ":" + (p.inner + field.solidityType)), p.after);
    WithoutConcat(p.before, field.name + p.behind + ":" + (p.inner + field.solidityType));
    WithoutConcat(field.name + p.behind + ":", p.inner + field.solidityType);
    WithoutConcat(field.name + p.behind, ":");
    WithoutConcat(field.name, p.behind);
    WithoutConcat(p.inner, field.solidityType);
    WithoutBlank(p.before);
    WithoutBlank(p.behind);
    WithoutBlank(p.inner);
    WithoutBlank(p.after);
  }

  lemma {:induction false} JoinWithoutBreaks(parts: seq<string>, clean: seq<string>)
    requires parts != [] && |clean| == |parts|
    requires forall i :: 0 <= i < |parts| ==> clean[i] == WithoutLineBreaks(parts[i])
    ensures WithoutLineBreaks(Join(parts, ',')) == Join(clean, ',')
  {
    if |parts| > 1 {
      JoinWithoutBreaks(parts[1..], clean[1..]);
      ItemBreak();
      WithoutConcat(parts[0] + [','], Join(parts[1..], ','));
      WithoutConcat(parts[0], [',']);
    }
  }

  lemma ItemBreak()
    ensures WithoutLineBreaks([',']) == [',']
  {
    assert [','][1..] == "";
  }

  /** The text of a shape, spaced out. */
  function SpacedShape(fields: seq<FieldSpec>, ps: seq<Spacing>, before: string, after: string): string
    requires |fields| == |ps| && fields != []
  {
    before + ("tuple(" + Join(SpacedItems(fields, ps), ',') + ")") + after
  }

  lemma SpacedItemPlain(field: FieldSpec, p: Spacing)
    requires PrintableField(field) && Blanks(p)
    ensures Plain(Spaced(field, p)) && ',' !in Spaced(field, p)
  {
    ItemChars(field);
    PlainPiece(p.before, field.name, p.behind);
    PlainPiece(p.inner, field.solidityType, p.after);
    var a, b := p.before + field.name + p.behind, p.inner + field.solidityType + p.after;
    assert Spaced(field, p) == a + ":" + b;
    assert forall c :: c in a + ":" + b ==> c in a || c == ':' || c in b;
  }

  lemma SpacedItemsParse(fields: seq<FieldSpec>, ps: seq<Spacing>)
    requires |fields| == |ps| && Printable(fields) && AllBlanks(ps)
    ensures ParseBody(Join(SpacedItems(fields, ps), ','))
         == match Validate(fields) case Err(e) => Err(e) case Ok(_) => Ok(fields)
  {
    var items := SpacedItems(fields, ps);
    forall i | 0 <= i < |items|
      ensures Plain(items[i]) && ',' !in items[i] && ParseField(items[i]) == Ok(fields[i])
    {
      SpacedItemPlain(fields[i], ps[i]);
      SpacedFieldParses(fields[i], ps[i]);
    }
    SplitOfJoin(items, ',');
    TraverseOk(ParseField, items, fields);
  }

  lemma {:induction false} NotAllBlank(s: string, i: nat)
    requires i < |s| && !IsWhitespace(s[i])
    ensures TrimStart(s) != "" && Trim(s) != ""
  {
    if IsWhitespace(s[0]) {
      NotAllBlank(s[1..], i - 1);
    } else {
      EndKeepsFirst(s);
    }
  }

  lemma {:induction false} EndKeepsFirst(s: string)
    requires s != "" && !IsWhitespace(s[0])
    ensures TrimEnd(s) != ""
  {
    if IsWhitespace(s[|s| - 1]) {
      EndKeepsFirst(s[..|s| - 1]);
    }
  }

  lemma {:induction false} JoinHasFirst(parts: seq<string>, i: nat)
    requires parts != [] && i < |parts[0]|
    ensures |Join(parts, ',')| > i && Join(parts, ',')[i] == parts[0][i]
  {
  }

  lemma BodyNotBlank(fields: seq<FieldSpec>, ps: seq<Spacing>)
    requires |fields| == |ps| && Printable(fields) && AllBlanks(ps)
    ensures Trim(Join(SpacedItems(fields, ps), ',')) != ""
  {
    var items, i := SpacedItems(fields, ps), |ps[0].before|;
    assert PrintableField(fields[0]);
    assert items[0][i] == fields[0].name[0];
    JoinHasFirst(items, i);
    NotAllBlank(Join(items, ','), i);
  }

  lemma ShapeWithoutBreaks(s: string)
    requires AllShapeChars(s)
    ensures WithoutLineBreaks(s) == s
  {
    assert NoWhitespace(s);
    WithoutNoLineBreaks(s);
  }

  lemma WrapWithoutBreaks(body: string)
    ensures WithoutLineBreaks("tuple(" + body + ")") == "tuple(" + WithoutLineBreaks(body) + ")"
  {
    WithoutConcat("tuple(" + body, ")");
    WithoutConcat("tuple(", body);
    ShapeWithoutBreaks("tuple(");
    ShapeWithoutBreaks(")");
  }

  lemma WrappedIsTrimmed(body: string)
    ensures var core := "tuple(" + body + ")"; core != "" && Trimmed(core) && Trim(core) == core
  {
    var core := "tuple(" + body + ")";
    assert core[0] == 't' && core[|core| - 1] == ')';
    TrimIsTrimmed(core);
  }

  lemma CompactSpaced(body: string, clean: string, before: string, after: string)
    requires Blank(before) && Blank(after) && clean == WithoutLineBreaks(body)
    ensures CompactWhitespace(before + ("tuple(" + body + ")") + after) == "tuple(" + clean + ")"
  {
    WrappedIsTrimmed(body);
    TrimBlanks(before, "tuple(" + body + ")", after);
    WrapWithoutBreaks(body);
    WrappedIsTrimmed(clean);
  }

  /** A shape spaced out with blanks, around the text, around its fields and inside them, parses exactly
      as the printed one. */
  lemma SpacedShapeParses(fields: seq<FieldSpec>, ps: seq<Spacing>, before: string, after: string)
    requires |fields| == |ps| && Printable(fields) && AllBlanks(ps) && Blank(before) && Blank(after)
    ensures Parse(SpacedShape(fields, ps, before, after)) == Parse(RenderText(fields))
  {
    var items, qs := SpacedItems(fields, ps), AllNoBreaks(ps);
    forall i | 0 <= i < |fields|
      ensures SpacedItems(fields, qs)[i] == WithoutLineBreaks(items[i]) && Blanks(qs[i])
    {
      SpacedWithoutBreaks(fields[i], ps[i]);
    }
    JoinWithoutBreaks(items, SpacedItems(fields, qs));
    var clean := Join(SpacedItems(fields, qs), ',');
    CompactSpaced(Join(items, ','), clean, before, after);
    BodyNotBlank(fields, qs);
    BodyOfTuple(SpacedShape(fields, ps, before, after), clean);
    SpacedItemsParse(fields, qs);
    ParsePrintable(fields);
  }

  lemma BodyOfTuple(shape: string, body: string)
    requires CompactWhitespace(shape) == "tuple(" + body + ")" && Trim(body) != ""
    ensures TupleBody(shape) == Ok(body)
  {
    var text := "tuple(" + body + ")";
    assert text[6..|text| - 1] == body && "tuple(" <= text;
  }
}
