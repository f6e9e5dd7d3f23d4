/**
 The shape language `tuple(name:type,...)`: its splitter, parser, validator and
 printer, and the proof that parser and printer undo each other.
 */
module Shape {
  import opened Ascii
  import opened RustText
  import opened Wrappers

  datatype FieldSpec = FieldSpec(
    name: string,
    solidityType: string,
    jsonType: Option<string>,
    description: Option<string>,
    optional: Option<bool>)

  datatype ShapeError =
    | Unbalanced
    | NotTuple
    | EmptyTuple
    | EmptyField
    | NotNameAndType
    | InvalidName
    | EmptyType
    | NestedType
    | NoFields
    | NameRequired
    | TypeRequired
    | DuplicateName
    | UnsupportedType

  type ShapeResult<T> = Result<T, ShapeError>

  // ===== bracket depth and top-level splitting =====

  function Depth(s: string, open: char, close: char): int {
    if s == [] then 0
    else
      Depth(s[..|s| - 1], open, close)
      + (if s[|s| - 1] == open then 1 else 0)
      - (if s[|s| - 1] == close then 1 else 0)
  }

  function Parens(s: string): int { Depth(s, '(', ')') }

  function Brackets(s: string): int { Depth(s, '[', ']') }

  predicate IsBracket(c: char) {
    c == '(' || c == ')' || c == '[' || c == ']'
  }

  ghost predicate NeverNegative(s: string) {
    forall k :: 0 <= k <= |s| ==> Parens(s[..k]) >= 0 && Brackets(s[..k]) >= 0
  }

  ghost predicate Balanced(s: string) {
    NeverNegative(s) && Parens(s) == 0 && Brackets(s) == 0
  }

  /** Position `j` holds a separator outside every bracket. */
  predicate IsCut(s: string, separator: char, j: nat)
    requires j < |s|
  {
    s[j] == separator && Parens(s[..j + 1]) == 0 && Brackets(s[..j + 1]) == 0
  }

  function Pieces(s: string, separator: char, last: nat, j: nat): (parts: seq<string>)
    requires last <= j <= |s|
    ensures parts != []
    decreases |s| - j
  {
    if j == |s| then [s[last..]]
    else if IsCut(s, separator, j) then [s[last..j]] + Pieces(s, separator, j + 1, j + 1)
    else Pieces(s, separator, last, j + 1)
  }

  ghost function Split(s: string, separator: char): ShapeResult<seq<string>> {
    if Balanced(s) then Ok(Pieces(s, separator, 0, 0)) else Err(Unbalanced)
  }

  function Join(parts: seq<string>, separator: char): string
    requires parts != []
  {
    if |parts| == 1 then parts[0] else parts[0] + [separator] + Join(parts[1..], separator)
  }

  /** What splitting means: the parts rejoin to the input, and inside each (balanced)
      part every separator sits within some bracket. */
  ghost predicate IsPart(part: string, separator: char) {
    Balanced(part) && forall j :: 0 <= j < |part| ==> !IsCut(part, separator, j)
  }

  ghost predicate IsSplit(parts: seq<string>, s: string, separator: char) {
    && parts != []
    && Join(parts, separator) == s
    && forall i :: 0 <= i < |parts| ==> IsPart(parts[i], separator)
  }

  method SplitTopLevel(input: string, separator: char) returns (r: ShapeResult<seq<string>>)
    requires !IsBracket(separator)
    ensures r == Split(input, separator)
    ensures r.Ok? ==> IsSplit(r.value, input, separator)
  {
    var parts: seq<string> := [];
    var last := 0;
    var depthParen, depthBracket := 0, 0;
    for idx := 0 to |input|
      invariant 0 <= last <= idx
      invariant depthParen == Parens(input[..idx])
      invariant depthBracket == Brackets(input[..idx])
      invariant forall k :: 0 <= k <= idx ==> Parens(input[..k]) >= 0 && Brackets(input[..k]) >= 0
      invariant parts + Pieces(input, separator, last, idx) == Pieces(input, separator, 0, 0)
    {
      assert input[..idx + 1][..idx] == input[..idx];
      var ch := input[idx];
      match ch {
      case '(' => depthParen := depthParen + 1;
      case ')' =>
        depthParen := depthParen - 1;
        if depthParen < 0 {
          assert Parens(input[..idx + 1]) < 0;
          return Err(Unbalanced);
        }
      case '[' => depthBracket := depthBracket + 1;
      case ']' =>
        depthBracket := depthBracket - 1;
        if depthBracket < 0 {
          assert Brackets(input[..idx + 1]) < 0;
          return Err(Unbalanced);
        }
      case _ =>
      }
      if ch == separator && depthParen == 0 && depthBracket == 0 {
        parts := parts + [input[last..idx]];
        last := idx + 1;
      }
    }
    assert input[..|input|] == input;
    if depthParen != 0 || depthBracket != 0 {
      return Err(Unbalanced);
    }
    parts := parts + [input[last..]];
    r := Ok(parts);
    SplitIsSplit(input, separator);
  }

  lemma {:induction false} DepthAppend(a: string, b: string, open: char, close: char)
    ensures Depth(a + b, open, close) == Depth(a, open, close) + Depth(b, open, close)
  {
    if b == [] {
      assert a + b == a;
    } else {
      DepthAppend(a, b[..|b| - 1], open, close);
      assert (a + b)[..|a + b| - 1] == a + b[..|b| - 1];
    }
  }

  lemma SliceDepth(s: string, lo: nat, hi: nat)
    requires lo <= hi <= |s|
    ensures Parens(s[lo..hi]) == Parens(s[..hi]) - Parens(s[..lo])
    ensures Brackets(s[lo..hi]) == Brackets(s[..hi]) - Brackets(s[..lo])
  {
    assert s[..hi] == s[..lo] + s[lo..hi];
    DepthAppend(s[..lo], s[lo..hi], '(', ')');
    DepthAppend(s[..lo], s[lo..hi], '[', ']');
  }

  /** A slice between two depth-0 points is balanced, and its cuts are those of the whole text. */
  lemma SliceIsPart(s: string, separator: char, lo: nat, hi: nat)
    requires NeverNegative(s)
    requires lo <= hi <= |s|
    requires Parens(s[..lo]) == Brackets(s[..lo]) == 0
    requires Parens(s[..hi]) == Brackets(s[..hi]) == 0
    requires forall k :: lo <= k < hi ==> !IsCut(s, separator, k)
    ensures IsPart(s[lo..hi], separator)
  {
    var part := s[lo..hi];
    forall k | 0 <= k <= |part|
      ensures Parens(part[..k]) == Parens(s[..lo + k]) && Brackets(part[..k]) == Brackets(s[..lo + k])
    {
      assert part[..k] == s[lo..lo + k];
      SliceDepth(s, lo, lo + k);
    }
    assert part[..|part|] == part;
    forall j | 0 <= j < |part|
      ensures !IsCut(part, separator, j)
    {
      assert !IsCut(s, separator, lo + j);
    }
  }

  lemma CutText(s: string, last: nat, j: nat)
    requires last <= j < |s|
    ensures s[last..] == s[last..j] + [s[j]] + s[j + 1..]
  {
  }

  lemma {:induction false} PiecesAreParts(s: string, separator: char, last: nat, j: nat)
    requires Balanced(s) && !IsBracket(separator)
    requires last <= j <= |s|
    requires Parens(s[..last]) == Brackets(s[..last]) == 0
    requires forall k :: last <= k < j ==> !IsCut(s, separator, k)
    ensures IsSplit(Pieces(s, separator, last, j), s[last..], separator)
    decreases |s| - j
  {
    if j == |s| {
      assert s[..j] == s;
      SliceIsPart(s, separator, last, j);
      assert s[last..j] == s[last..];
    } else if IsCut(s, separator, j) {
      assert s[..j + 1][..j] == s[..j];
      SliceIsPart(s, separator, last, j);
      PiecesAreParts(s, separator, j + 1, j + 1);
      var rest := Pieces(s, separator, j + 1, j + 1);
      assert ([s[last..j]] + rest)[1..] == rest;
      CutText(s, last, j);
    } else {
      PiecesAreParts(s, separator, last, j + 1);
    }
  }

  /** Splitting succeeds on balanced text only, and then cuts exactly at the top-level separators. */
  lemma SplitIsSplit(s: string, separator: char)
    requires !IsBracket(separator)
    ensures Balanced(s) <==> Split(s, separator).Ok?
    ensures Balanced(s) ==> IsSplit(Split(s, separator).value, s, separator)
  {
    if Balanced(s) {
      PiecesAreParts(s, separator, 0, 0);
      assert s[0..] == s;
    }
  }

  lemma FirstPartNoLonger(a: seq<string>, b: seq<string>, s: string, separator: char)
    requires !IsBracket(separator)
    requires IsSplit(a, s, separator) && IsSplit(b, s, separator)
    ensures |a[0]| >= |b[0]|
  {
    if |a[0]| < |b[0]| {
      var j := |a[0]|;
      assert b[0] == s[..|b[0]|];
      assert a[0] == s[..j];
      assert |s| > |a[0]|;
      assert s[j] == separator;
      assert b[0][..j] == a[0];
      assert b[0][..j + 1] == a[0] + [separator];
      DepthAppend(a[0], [separator], '(', ')');
      DepthAppend(a[0], [separator], '[', ']');
      assert IsPart(a[0], separator);
      assert IsPart(b[0], separator);
      assert IsCut(b[0], separator, j);
      assert false;
    }
  }

  /** There is only one way to split a text. */
  lemma {:induction false} SplitUnique(a: seq<string>, b: seq<string>, s: string, separator: char)
    requires !IsBracket(separator)
    requires IsSplit(a, s, separator) && IsSplit(b, s, separator)
    ensures a == b
    decreases |a|
  {
    FirstPartNoLonger(a, b, s, separator);
    FirstPartNoLonger(b, a, s, separator);
    var n := |a[0]|;
    assert a[0] == s[..n] == b[0];
    if |a| == 1 || |b| == 1 {
      assert |a| > 1 ==> |s| > n;
      assert |b| > 1 ==> |s| > n;
    } else {
      assert Join(a[1..], separator) == s[n + 1..] == Join(b[1..], separator);
      SplitUnique(a[1..], b[1..], s[n + 1..], separator);
      assert a == [a[0]] + a[1..] && b == [b[0]] + b[1..];
    }
  }

  predicate Plain(s: string) {
    forall c :: c in s ==> !IsBracket(c)
  }

  lemma {:induction false} PlainDepth(s: string)
    requires Plain(s)
    ensures Parens(s) == Brackets(s) == 0
  {
    if s != [] {
      assert s[|s| - 1] in s;
      PlainDepth(s[..|s| - 1]);
    }
  }

  lemma PlainBalanced(s: string)
    requires Plain(s)
    ensures Balanced(s)
  {
    PlainDepth(s);
    forall k | 0 <= k <= |s| {
      PlainDepth(s[..k]);
    }
  }

  lemma {:induction false} PlainJoin(parts: seq<string>, separator: char)
    requires parts != [] && !IsBracket(separator)
    requires forall i :: 0 <= i < |parts| ==> Plain(parts[i])
    ensures Plain(Join(parts, separator))
  {
    if |parts| > 1 {
      PlainJoin(parts[1..], separator);
    }
  }

  /** Bracket-free parts without separators are what their own join splits into. */
  lemma SplitOfJoin(parts: seq<string>, separator: char)
    requires parts != [] && !IsBracket(separator)
    requires forall i :: 0 <= i < |parts| ==> Plain(parts[i]) && separator !in parts[i]
    ensures Split(Join(parts, separator), separator) == Ok(parts)
  {
    var s := Join(parts, separator);
    PlainJoin(parts, separator);
    PlainBalanced(s);
    forall i | 0 <= i < |parts|
      ensures IsPart(parts[i], separator)
    {
      PlainBalanced(parts[i]);
    }
    SplitIsSplit(s, separator);
    SplitUnique(parts, Split(s, separator).value, s, separator);
  }

  // ===== validation =====

  predicate IsNameStart(c: char) { c == '_' || IsLetter(c) }

  predicate IsNameChar(c: char) { IsNameStart(c) || IsDigit(c) }

  predicate IsValidFieldName(name: string) {
    && name != []
    && IsNameStart(name[0])
    && forall i :: 1 <= i < |name| ==> IsNameChar(name[i])
  }

  predicate IsIntegerWidth(width: string) {
    match ParseUsize(width)
    case None => false
    case Some(n) => 8 <= n <= 128 && n % 8 == 0
  }

  predicate IsBytesWidth(width: string) {
    match ParseUsize(width)
    case None => false
    case Some(n) => 1 <= n <= 32
  }

  /** The JSON type a lower-case Solidity type is requested as, if the type is supported. */
  function JsonTypeOf(ty: string): ShapeResult<string> {
    if ty == "string" || ty == "address" || ty == "bytes" then Ok("string")
    else if "bytes" <= ty then
      if IsBytesWidth(ty[5..]) then Ok("string") else Err(UnsupportedType)
    else if ty == "bool" then Ok("boolean")
    else if "uint" <= ty then
      if IsIntegerWidth(ty[4..]) then Ok("integer") else Err(UnsupportedType)
    else if "int" <= ty then
      if IsIntegerWidth(ty[3..]) then Ok("integer") else Err(UnsupportedType)
    else Err(UnsupportedType)
  }

  lemma OneDigit(digits: string)
    requires |digits| == 1 && AllDigits(digits)
    ensures DecimalValue(digits) == DigitValue(digits[0])
  {
    assert digits[..0] == "";
  }

  lemma TwoDigits(digits: string)
    requires |digits| == 2 && AllDigits(digits)
    ensures DecimalValue(digits) == 10 * DigitValue(digits[0]) + DigitValue(digits[1])
  {
    OneDigit(digits[..1]);
  }

  lemma OddSpellings(plus: string, padded: string, wide: string)
    requires plus == "bytes+4" && padded == "uint08" && wide == "uint256"
    ensures JsonTypeOf(plus) == Ok("string")
    ensures JsonTypeOf(padded) == Ok("integer")
    ensures JsonTypeOf(wide) == Err(UnsupportedType)
  {
    assert plus[5..] == "+4" && plus[5..][1..] == "4" && padded[4..] == "08" && wide[4..] == "256";
    OneDigit(plus[5..][1..]);
    TwoDigits(padded[4..]);
    assert wide[4..][..2] == "25";
    TwoDigits(wide[4..][..2]);
  }

  /** Integer parsing lets in a plus sign and leading zeros, so one type has many spellings. */
  lemma OddSpellingsSupported()
    ensures JsonTypeOf("bytes+4") == Ok("string")
    ensures JsonTypeOf("uint08") == Ok("integer")
    ensures JsonTypeOf("uint256") == Err(UnsupportedType)
  {
    OddSpellings("bytes+4", "uint08", "uint256");
  }

  function InferJsonType(field: FieldSpec): ShapeResult<string> {
    if field.jsonType.Some? then Ok(field.jsonType.value)
    else JsonTypeOf(Lower(Trim(field.solidityType)))
  }

  function Names(fields: seq<FieldSpec>): (names: seq<string>)
    ensures |names| == |fields|
    ensures forall i :: 0 <= i < |fields| ==> names[i] == fields[i].name
  {
    seq(|fields|, i requires 0 <= i < |fields| => fields[i].name)
  }

  /** The first complaint about field `idx`, given the fields before it. */
  function FieldIssue(fields: seq<FieldSpec>, idx: nat): Option<ShapeError>
    requires idx < |fields|
  {
    var field := fields[idx];
    if Trim(field.name) == "" then Some(NameRequired)
    else if Trim(field.solidityType) == "" then Some(TypeRequired)
    else if field.name in Names(fields[..idx]) then Some(DuplicateName)
    else match InferJsonType(field)
      case Ok(_) => None
      case Err(e) => Some(e)
  }

  function Issues(fields: seq<FieldSpec>): (issues: seq<Option<ShapeError>>)
    ensures |issues| == |fields|
    ensures forall i :: 0 <= i < |fields| ==> issues[i] == FieldIssue(fields, i)
  {
    seq(|fields|, i requires 0 <= i < |fields| => FieldIssue(fields, i))
  }

  function Validate(fields: seq<FieldSpec>): ShapeResult<()> {
    if fields == [] then Err(NoFields)
    else match FirstSome(Issues(fields), 0)
      case Some(e) => Err(e)
      case None => Ok(())
  }

  predicate ValidFields(fields: seq<FieldSpec>) {
    && fields != []
    && (forall i :: 0 <= i < |fields| ==>
          Trim(fields[i].name) != "" && Trim(fields[i].solidityType) != "" && InferJsonType(fields[i]).Ok?)
    && (forall i, j :: 0 <= i < j < |fields| ==> fields[i].name != fields[j].name)
  }

  method ValidateFields(fields: seq<FieldSpec>) returns (r: ShapeResult<()>)
    ensures r == Validate(fields)
  {
    if fields == [] {
      return Err(NoFields);
    }
    var seen: set<string> := {};
    for idx := 0 to |fields|
      invariant AreNames(seen, fields, idx)
      invariant forall k :: 0 <= k < idx ==> FieldIssue(fields, k) == None
    {
      var issue := CheckField(fields, idx, seen);
      if issue.Some? {
        FirstIssueAt(Issues(fields), 0, idx);
        return Err(issue.value);
      }
      NamesGrow(seen, fields, idx);
      seen := seen + {fields[idx].name};
    }
    FirstSomeNone(Issues(fields), 0);
    r := Ok(());
  }

  /** These are the names of the first `n` fields. */
  predicate AreNames(seen: set<string>, fields: seq<FieldSpec>, n: nat)
    requires n <= |fields|
  {
    seen == set i | 0 <= i < n :: fields[i].name
  }

  lemma NamesGrow(seen: set<string>, fields: seq<FieldSpec>, n: nat)
    requires n < |fields| && AreNames(seen, fields, n)
    ensures AreNames(seen + {fields[n].name}, fields, n + 1)
  {
  }

  lemma {:induction false} FirstIssueAt(issues: seq<Option<ShapeError>>, from: nat, i: nat)
    requires from <= i < |issues| && issues[i].Some?
    requires forall k :: from <= k < i ==> issues[k] == None
    ensures FirstSome(issues, from) == issues[i]
    decreases i - from
  {
    if from < i {
      FirstIssueAt(issues, from + 1, i);
    }
  }

  /** The loop body of the validator: the complaint about one field. */
  method CheckField(fields: seq<FieldSpec>, idx: nat, seen: set<string>) returns (issue: Option<ShapeError>)
    requires idx < |fields| && AreNames(seen, fields, idx)
    ensures issue == FieldIssue(fields, idx)
  {
    assert forall k :: 0 <= k < idx ==> Names(fields[..idx])[k] == fields[k].name;
    var field := fields[idx];
    if Trim(field.name) == "" {
      return Some(NameRequired);
    }
    if Trim(field.solidityType) == "" {
      return Some(TypeRequired);
    }
    if field.name in seen {
      return Some(DuplicateName);
    }
    var inferred := InferJsonType(field);
    issue := if inferred.Err? then Some(inferred.error) else None;
  }

  lemma FieldIssueNone(fields: seq<FieldSpec>, i: nat)
    requires i < |fields|
    ensures FieldIssue(fields, i) == None <==>
      && Trim(fields[i].name) != "" && Trim(fields[i].solidityType) != "" && InferJsonType(fields[i]).Ok?
      && forall k :: 0 <= k < i ==> fields[k].name != fields[i].name
  {
    var before := Names(fields[..i]);
    assert forall k :: 0 <= k < i ==> before[k] == fields[k].name;
  }

  lemma ValidateIffValid(fields: seq<FieldSpec>)
    ensures Validate(fields).Ok? <==> ValidFields(fields)
  {
    var issues := Issues(fields);
    FirstSomeNone(issues, 0);
    forall i | 0 <= i < |fields|
      ensures issues[i] == None <==>
        && Trim(fields[i].name) != "" && Trim(fields[i].solidityType) != "" && InferJsonType(fields[i]).Ok?
        && forall k :: 0 <= k < i ==> fields[k].name != fields[i].name
    {
      FieldIssueNone(fields, i);
    }
  }

  /** What is wrong with field `i`, given that nothing is wrong before it. */
  predicate Complaint(fields: seq<FieldSpec>, i: nat, e: ShapeError)
    requires i < |fields|
  {
    var named, typed := Trim(fields[i].name) != "", Trim(fields[i].solidityType) != "";
    var repeated := exists k :: 0 <= k < i && fields[k].name == fields[i].name;
    match e
    case NameRequired => !named
    case TypeRequired => named && !typed
    case DuplicateName => named && typed && repeated
    case UnsupportedType => named && typed && !repeated && InferJsonType(fields[i]).Err?
    case _ => false
  }

  /** A field list is rejected for the first thing that is wrong with its first bad field. */
  lemma RejectedForFirstComplaint(fields: seq<FieldSpec>) returns (i: nat)
    requires fields != [] && Validate(fields).Err?
    ensures i < |fields| && Complaint(fields, i, Validate(fields).error)
    ensures forall k :: 0 <= k < i ==> FieldIssue(fields, k) == None
  {
    i := FirstIssue(Issues(fields), 0);
    IssueIsComplaint(fields, i, Validate(fields).error);
  }

  lemma IssueIsComplaint(fields: seq<FieldSpec>, i: nat, e: ShapeError)
    requires i < |fields| && FieldIssue(fields, i) == Some(e)
    ensures Complaint(fields, i, e)
  {
    var before := Names(fields[..i]);
    if fields[i].name in before {
      var k :| 0 <= k < |before| && before[k] == fields[i].name;
      assert fields[k].name == fields[i].name;
    } else if k :| 0 <= k < i && fields[k].name == fields[i].name {
      assert before[k] == fields[i].name;
    }
  }

  lemma {:induction false} FirstIssue(issues: seq<Option<ShapeError>>, from: nat) returns (i: nat)
    requires from <= |issues| && FirstSome(issues, from).Some?
    ensures from <= i < |issues| && issues[i] == FirstSome(issues, from)
    ensures forall k :: from <= k < i ==> issues[k] == None
    decreases |issues| - from
  {
    if issues[from].Some? {
      i := from;
    } else {
      i := FirstIssue(issues, from + 1);
    }
  }

  // ===== printer =====

  function Item(field: FieldSpec): string {
    field.name + ":" + field.solidityType
  }

  function Items(fields: seq<FieldSpec>): (items: seq<string>)
    ensures |items| == |fields|
    ensures forall i :: 0 <= i < |fields| ==> items[i] == Item(fields[i])
  {
    seq(|fields|, i requires 0 <= i < |fields| => Item(fields[i]))
  }

  function RenderText(fields: seq<FieldSpec>): string
    requires fields != []
  {
    "tuple(" + Join(Items(fields), ',') + ")"
  }

  function Render(fields: seq<FieldSpec>): ShapeResult<string> {
    match Validate(fields)
    case Err(e) => Err(e)
    case Ok(_) => Ok(RenderText(fields))
  }

  /** What the printer has written after `k` fields. */
  function Written(fields: seq<FieldSpec>, k: nat): string
    requires k <= |fields|
  {
    "tuple(" + (if k == 0 then "" else Join(Items(fields[..k]), ','))
  }

  method RenderExpectedShapeDsl(fields: seq<FieldSpec>) returns (r: ShapeResult<string>)
    ensures r == Render(fields)
  {
    var valid := ValidateFields(fields);
    if valid.Err? {
      return Err(valid.error);
    }
    var out := "tuple(";
    for idx := 0 to |fields|
      invariant out == Written(fields, idx)
    {
      WrittenStep(fields, idx);
      if idx > 0 {
        out := out + [','];
      }
      out := out + fields[idx].name;
      out := out + [':'];
      out := out + fields[idx].solidityType;
    }
    out := out + [')'];
    assert fields[..|fields|] == fields;
    r := Ok(out);
  }

  lemma WrittenStep(fields: seq<FieldSpec>, k: nat)
    requires k < |fields|
    ensures Written(fields, k + 1)
         == Written(fields, k) + (if k > 0 then [','] else []) + fields[k].name + [':'] + fields[k].solidityType
  {
    assert fields[..k + 1][..k] == fields[..k];
    assert Items(fields[..k + 1]) == Items(fields[..k]) + [Item(fields[k])];
    JoinSnoc(Items(fields[..k]), Item(fields[k]), ',');
    if k == 0 {
      assert Items(fields[..k]) == [];
    }
    assert Item(fields[k]) == fields[k].name + [':'] + fields[k].solidityType;
  }

  lemma {:induction false} JoinSnoc(parts: seq<string>, last: string, separator: char)
    ensures Join(parts + [last], separator)
         == if parts == [] then last else Join(parts, separator) + [separator] + last
  {
    if parts == [] {
      assert parts + [last] == [last];
    } else if |parts| > 1 {
      JoinSnoc(parts[1..], last, separator);
      assert (parts + [last])[1..] == parts[1..] + [last];
    } else {
      assert (parts + [last])[1..] == [last];
    }
  }

  // ===== parser =====

  function CompactWhitespace(input: string): string {
    Trim(WithoutLineBreaks(Trim(input)))
  }

  ghost function ParseField(part: string): ShapeResult<FieldSpec> {
    var item := Trim(part);
    if item == "" then Err(EmptyField)
    else
      match Split(item, ':')
      case Err(e) => Err(e)
      case Ok(pieces) =>
        if |pieces| != 2 then Err(NotNameAndType)
        else
          var name, ty := Trim(pieces[0]), Trim(pieces[1]);
          if !IsValidFieldName(name) then Err(InvalidName)
          else if ty == "" then Err(EmptyType)
          else if !Plain(ty) then Err(NestedType)
          else Ok(FieldSpec(name, ty, None, None, None))
  }

  ghost function ParseBody(body: string): ShapeResult<seq<FieldSpec>> {
    match Split(body, ',')
    case Err(e) => Err(e)
    case Ok(parts) =>
      match Traverse(ParseField, parts)
      case Err(e) => Err(e)
      case Ok(fields) =>
        match Validate(fields)
        case Err(e) => Err(e)
        case Ok(_) => Ok(fields)
  }

  /** The text between the parentheses of `tuple(...)`. */
  function TupleBody(shape: string): ShapeResult<string> {
    var normalized := CompactWhitespace(shape);
    if !("tuple(" <= normalized) || normalized[|normalized| - 1] != ')' then Err(NotTuple)
    else
      var body := normalized[6..|normalized| - 1];
      if Trim(body) == "" then Err(EmptyTuple) else Ok(body)
  }

  ghost function Parse(shape: string): ShapeResult<seq<FieldSpec>> {
    match TupleBody(shape)
    case Err(e) => Err(e)
    case Ok(body) => ParseBody(body)
  }

  method ParseExpectedShapeDsl(expectedShape: string) returns (r: ShapeResult<seq<FieldSpec>>)
    ensures r == Parse(expectedShape)
  {
    var body := TupleBody(expectedShape);
    if body.Err? {
      return Err(body.error);
    }
    r := ParseTupleBody(body.value);
  }

  method ParseTupleBody(body: string) returns (r: ShapeResult<seq<FieldSpec>>)
    ensures r == ParseBody(body)
  {
    var split := SplitTopLevel(body, ',');
    if split.Err? {
      return Err(split.error);
    }
    var parts := split.value;
    var fields: seq<FieldSpec> := [];
    for i := 0 to |parts|
      invariant Traverse(ParseField, parts[..i]) == Ok(fields)
    {
      assert parts[..i + 1][..i] == parts[..i];
      TraverseFirstError(ParseField, parts, i + 1);
      var field := ParseOneField(parts[i]);
      if field.Err? {
        return Err(field.error);
      }
      fields := fields + [field.value];
    }
    assert parts[..|parts|] == parts;
    var valid := ValidateFields(fields);
    if valid.Err? {
      return Err(valid.error);
    }
    r := Ok(fields);
  }

  method ParseOneField(part: string) returns (r: ShapeResult<FieldSpec>)
    ensures r == ParseField(part)
  {
    var item := Trim(part);
    if item == "" {
      return Err(EmptyField);
    }
    var pair := SplitTopLevel(item, ':');
    if pair.Err? {
      return Err(pair.error);
    }
    var pieces := pair.value;
    if |pieces| != 2 {
      return Err(NotNameAndType);
    }
    var name, ty := Trim(pieces[0]), Trim(pieces[1]);
    if !IsValidFieldName(name) {
      return Err(InvalidName);
    }
    if ty == "" {
      return Err(EmptyType);
    }
    if '(' in ty || ')' in ty || '[' in ty || ']' in ty {
      return Err(NestedType);
    }
    r := Ok(FieldSpec(name, ty, None, None, None));
  }

  // ===== parser and printer undo each other =====

  /** What the parser produces: identifier names, all different; trimmed supported types; nothing optional. */
  predicate CanonicalField(field: FieldSpec) {
    && IsValidFieldName(field.name)
    && field.solidityType != ""
    && Trimmed(field.solidityType)
    && field.jsonType == None && field.description == None && field.optional == None
  }

  predicate Canonical(fields: seq<FieldSpec>) {
    ValidFields(fields) && forall i :: 0 <= i < |fields| ==> CanonicalField(fields[i])
  }

  lemma ParsedFieldCanonical(part: string)
    ensures ParseField(part).Ok? ==> CanonicalField(ParseField(part).value)
  {
    var item := Trim(part);
    if item != "" && Split(item, ':').Ok? && |Split(item, ':').value| == 2 {
      TrimIsTrimmed(Split(item, ':').value[1]);
    }
  }

  lemma BodyIsCanonical(body: string)
    ensures ParseBody(body).Ok? ==> Canonical(ParseBody(body).value)
  {
    if ParseBody(body).Ok? {
      var parts, fields := Split(body, ',').value, ParseBody(body).value;
      TraverseElements(ParseField, parts);
      ValidateIffValid(fields);
      forall i | 0 <= i < |fields|
        ensures CanonicalField(fields[i])
      {
        ParsedFieldCanonical(parts[i]);
      }
    }
  }

  /** Whatever parses is canonical. */
  lemma ParseIsCanonical(shape: string)
    ensures Parse(shape).Ok? ==> Canonical(Parse(shape).value)
  {
    if Parse(shape).Ok? {
      BodyIsCanonical(TupleBody(shape).value);
    }
  }

  // The characters of names, types and everything the printer writes.

  predicate IsTypeChar(c: char) {
    IsLetter(c) || IsDigit(c) || c == '+'
  }

  predicate AllTypeChars(s: string) {
    forall i :: 0 <= i < |s| ==> IsTypeChar(s[i])
  }

  lemma WidthChars(ty: string, k: nat)
    requires k <= |ty|
    requires AllTypeChars(ty[..k]) && ParseUsize(ty[k..]).Some?
    ensures AllTypeChars(ty)
  {
    forall i | 0 <= i < |ty|
      ensures IsTypeChar(ty[i])
    {
      assert ty[i] == if i < k then ty[..k][i] else ty[k..][i - k];
    }
  }

  lemma SupportedLowerChars(ty: string)
    requires JsonTypeOf(ty).Ok?
    ensures AllTypeChars(ty)
  {
    if ty == "string" || ty == "address" || ty == "bytes" || ty == "bool" {
    } else if "bytes" <= ty {
      assert ty[..5] == "bytes";
      WidthChars(ty, 5);
    } else if "uint" <= ty {
      assert ty[..4] == "uint";
      WidthChars(ty, 4);
    } else {
      assert ty[..3] == "int";
      WidthChars(ty, 3);
    }
  }

  /** A supported trimmed type is spelled with letters, digits and `+` only. */
  lemma SupportedTypeChars(field: FieldSpec)
    requires field.jsonType == None
    requires Trimmed(field.solidityType)
    requires InferJsonType(field).Ok?
    ensures AllTypeChars(field.solidityType)
  {
    TrimIsTrimmed(field.solidityType);
    var ty := Lower(field.solidityType);
    SupportedLowerChars(ty);
    forall i | 0 <= i < |ty|
      ensures IsTypeChar(field.solidityType[i])
    {
      assert IsTypeChar(ty[i]) && ty[i] == LowerChar(field.solidityType[i]);
    }
  }

  predicate IsItemChar(c: char) {
    IsNameChar(c) || IsTypeChar(c) || c == ':'
  }

  predicate SupportedField(field: FieldSpec) {
    CanonicalField(field) && InferJsonType(field).Ok?
  }

  predicate AllItemChars(s: string) {
    forall i :: 0 <= i < |s| ==> IsItemChar(s[i])
  }

  /** A field the printer writes unambiguously, whether its type is supported or not. */
  predicate PrintableField(field: FieldSpec) {
    CanonicalField(field) && AllTypeChars(field.solidityType)
  }

  lemma SupportedIsPrintable(field: FieldSpec)
    requires SupportedField(field)
    ensures PrintableField(field)
  {
    SupportedTypeChars(field);
  }

  lemma ItemChars(field: FieldSpec)
    requires PrintableField(field)
    ensures AllItemChars(field.name) && ':' !in field.name
    ensures AllItemChars(field.solidityType) && ':' !in field.solidityType
    ensures AllItemChars(Item(field)) && Item(field) != ""
  {
    var item, n := Item(field), |field.name|;
    forall i | 0 <= i < |item|
      ensures IsItemChar(item[i])
    {
      assert item[i] == if i < n then field.name[i] else if i == n then ':' else field.solidityType[i - n - 1];
    }
  }

  lemma ItemCharsArePlain(s: string)
    requires AllItemChars(s)
    ensures Plain(s) && ',' !in s && Trim(s) == s
  {
    TrimIsTrimmed(s);
  }

  lemma ParseItem(field: FieldSpec)
    requires PrintableField(field)
    ensures ParseField(Item(field)) == Ok(field)
  {
    ItemChars(field);
    ItemCharsArePlain(Item(field));
    ItemCharsArePlain(field.name);
    ItemCharsArePlain(field.solidityType);
    var pieces := [field.name, field.solidityType];
    assert pieces[1..] == [field.solidityType];
    assert Join(pieces, ':') == Item(field);
    SplitOfJoin(pieces, ':');
  }

  predicate IsShapeChar(c: char) {
    IsItemChar(c) || c == ',' || IsBracket(c)
  }

  predicate AllShapeChars(s: string) {
    forall i :: 0 <= i < |s| ==> IsShapeChar(s[i])
  }

  lemma {:induction false} JoinChars(parts: seq<string>)
    requires parts != []
    requires forall i :: 0 <= i < |parts| ==> AllShapeChars(parts[i])
    ensures AllShapeChars(Join(parts, ','))
    ensures |Join(parts, ',')| >= |parts[0]|
  {
    if |parts| > 1 {
      JoinChars(parts[1..]);
    }
  }

  lemma ShapeCharsConcat(a: string, b: string)
    requires AllShapeChars(a) && AllShapeChars(b)
    ensures AllShapeChars(a + b)
  {
  }

  lemma CompactIdentity(s: string)
    requires AllShapeChars(s)
    ensures CompactWhitespace(s) == s
    ensures Trim(s) == s
  {
    assert NoWhitespace(s);
    TrimIsTrimmed(s);
    WithoutNoLineBreaks(s);
  }

  predicate Printable(fields: seq<FieldSpec>) {
    fields != [] && forall i :: 0 <= i < |fields| ==> PrintableField(fields[i])
  }

  lemma RenderedBody(fields: seq<FieldSpec>)
    requires Printable(fields)
    ensures var body := Join(Items(fields), ',');
      && Trim(body) == body != ""
      && Split(body, ',') == Ok(Items(fields))
      && AllShapeChars(body)
  {
    var items := Items(fields);
    forall i | 0 <= i < |items|
      ensures Plain(items[i]) && ',' !in items[i] && items[i] != "" && AllItemChars(items[i])
    {
      ItemChars(fields[i]);
      ItemCharsArePlain(items[i]);
    }
    JoinChars(items);
    CompactIdentity(Join(items, ','));
    SplitOfJoin(items, ',');
  }

  lemma WrappedBody(body: string)
    requires AllShapeChars(body)
    ensures var text := "tuple(" + body + ")";
      && CompactWhitespace(text) == text
      && "tuple(" <= text && text[|text| - 1] == ')'
      && text[6..|text| - 1] == body
      && (body != "" ==> TupleBody(text) == Ok(body))
  {
    ShapeCharsConcat("tuple(", body);
    ShapeCharsConcat("tuple(" + body, ")");
    CompactIdentity("tuple(" + body + ")");
    CompactIdentity(body);
  }

  /** What the parser makes of printed fields: it reads each one back, and then validates them. */
  lemma ParsePrintable(fields: seq<FieldSpec>)
    requires Printable(fields)
    ensures Parse(RenderText(fields)) == (match Validate(fields) case Err(e) => Err(e) case Ok(_) => Ok(fields))
  {
    RenderedBody(fields);
    WrappedBody(Join(Items(fields), ','));
    forall i | 0 <= i < |fields|
      ensures ParseField(Items(fields)[i]) == Ok(fields[i])
    {
      ParseItem(fields[i]);
    }
    TraverseOk(ParseField, Items(fields), fields);
  }

  /** Parsing a rendered shape gives the fields back. */
  lemma ParseOfRender(fields: seq<FieldSpec>)
    requires Canonical(fields)
    ensures Render(fields) == Ok(RenderText(fields))
    ensures Parse(RenderText(fields)) == Ok(fields)
  {
    ValidateIffValid(fields);
    forall i | 0 <= i < |fields|
      ensures PrintableField(fields[i])
    {
      SupportedIsPrintable(fields[i]);
    }
    ParsePrintable(fields);
  }

  // ===== no nesting =====

  lemma {:induction false} TrimStartPlain(s: string)
    requires Plain(TrimStart(s))
    ensures Plain(s)
  {
    if s != [] && IsWhitespace(s[0]) {
      TrimStartPlain(s[1..]);
      assert s == [s[0]] + s[1..];
    }
  }

  lemma {:induction false} TrimEndPlain(s: string)
    requires Plain(TrimEnd(s))
    ensures Plain(s)
  {
    if s != [] && IsWhitespace(s[|s| - 1]) {
      TrimEndPlain(s[..|s| - 1]);
      assert s == s[..|s| - 1] + [s[|s| - 1]];
    }
  }

  lemma TrimPlain(s: string)
    requires Plain(Trim(s))
    ensures Plain(s)
  {
    TrimEndPlain(TrimStart(s));
    TrimStartPlain(s);
  }

  lemma ParsedFieldIsPlain(part: string)
    ensures ParseField(part).Ok? ==> Plain(part)
  {
    if ParseField(part).Ok? {
      var item := Trim(part);
      var pieces := Split(item, ':').value;
      SplitIsSplit(item, ':');
      var name := Trim(pieces[0]);
      assert forall c :: c in name ==> IsNameChar(c);
      TrimPlain(pieces[0]);
      TrimPlain(pieces[1]);
      PlainJoin(pieces, ':');
      TrimPlain(part);
    }
  }

  /** No shape with a bracket inside its outer parentheses ever parses: no array and no nested tuple. */
  lemma ParsedBodyIsPlain(shape: string)
    ensures Parse(shape).Ok? ==> Plain(TupleBody(shape).value)
  {
    if Parse(shape).Ok? {
      var body := TupleBody(shape).value;
      var parts := Split(body, ',').value;
      SplitIsSplit(body, ',');
      TraverseElements(ParseField, parts);
      forall i | 0 <= i < |parts|
        ensures Plain(parts[i])
      {
        ParsedFieldIsPlain(parts[i]);
      }
      PlainJoin(parts, ',');
    }
  }

  // ===== the exact-shape gate =====

  /** The gate of the Noir backend: the shape parses and prints back unchanged. */
  ghost predicate PassesExactShapeGate(shape: string) {
    match Parse(shape)
    case Err(_) => false
    case Ok(fields) => Render(fields) == Ok(shape)
  }

  ghost predicate IsRenderingOf(shape: string, fields: seq<FieldSpec>) {
    Canonical(fields) && shape == RenderText(fields)
  }

  /** The shapes that pass the gate are precisely the renderings of canonical field lists. */
  lemma GateIsRenderings(shape: string)
    ensures PassesExactShapeGate(shape) <==> exists fields :: IsRenderingOf(shape, fields)
  {
    if PassesExactShapeGate(shape) {
      ParseIsCanonical(shape);
      assert IsRenderingOf(shape, Parse(shape).value);
    }
    if exists fields :: IsRenderingOf(shape, fields) {
      var fields :| IsRenderingOf(shape, fields);
      ParseOfRender(fields);
    }
  }

  /** Printing what was parsed is a canonical form: it parses to the same fields, prints to
      itself, passes the gate, and equals the input only for inputs that passed already. */
  lemma RenderOfParseIsCanonicalForm(shape: string)
    requires Parse(shape).Ok?
    ensures var text := RenderText(Parse(shape).value);
      && Render(Parse(shape).value) == Ok(text)
      && Parse(text) == Parse(shape)
      && PassesExactShapeGate(text)
      && (text == shape <==> PassesExactShapeGate(shape))
  {
    ParseIsCanonical(shape);
    ParseOfRender(Parse(shape).value);
  }
}
