/**
 The callback layout of the oracle node: a flat tuple of static words and dynamic
 byte strings, written as a head of 32-byte slots followed by the tails.
 `Encoding` is the recursive definition of the Solidity Contract ABI Specification,
 section "Formal Specification of the Encoding"; the node's single-pass loop is
 proved equal to it, and `Decode` reads the fields back.
 */
module AbiFormat {
  import opened Bytes
  import opened Wrappers

  datatype FieldEncoding =
    | StaticWord(word: Word)
    | DynamicBytes(bytes: seq<byte>)

  datatype Kind = Static | Dynamic

  function KindOf(f: FieldEncoding): Kind {
    if f.StaticWord? then Static else Dynamic
  }

  function Kinds(fields: seq<FieldEncoding>): (ks: seq<Kind>)
    ensures |ks| == |fields|
    ensures forall i :: 0 <= i < |fields| ==> ks[i] == KindOf(fields[i])
  {
    seq(|fields|, i requires 0 <= i < |fields| => KindOf(fields[i]))
  }

  // ----- the layout, as the ABI specification defines it -----

  /** A usize as an ABI word: sixteen zero bytes, then the value as a big-endian u128. */
  function WordFromUsize(value: nat): Word {
    Zeros(16) + ToBytes(value, 16)
  }

  /** The least multiple of the word size that is at least `len`. */
  function PaddedLen(len: nat): (p: nat)
    ensures p % WORD_BYTES == 0
    ensures len <= p < len + WORD_BYTES
  {
    if len == 0 then 0 else ((len + (WORD_BYTES - 1)) / WORD_BYTES) * WORD_BYTES
  }

  function DynamicTail(bytes: seq<byte>): (t: seq<byte>)
    ensures |t| == WORD_BYTES + PaddedLen(|bytes|)
  {
    WordFromUsize(|bytes|) + bytes + Zeros(PaddedLen(|bytes|) - |bytes|)
  }

  function Tail(f: FieldEncoding): seq<byte> {
    match f
    case StaticWord(_) => []
    case DynamicBytes(bytes) => DynamicTail(bytes)
  }

  function Tails(fields: seq<FieldEncoding>): seq<byte> {
    if fields == [] then [] else Tails(fields[..|fields| - 1]) + Tail(fields[|fields| - 1])
  }

  function HeadSize(fields: seq<FieldEncoding>): nat {
    |fields| * WORD_BYTES
  }

  /** Where the tail of field `i` starts: after the head and the tails before it. */
  function Offset(fields: seq<FieldEncoding>, i: nat): nat
    requires i <= |fields|
  {
    HeadSize(fields) + |Tails(fields[..i])|
  }

  function Head(fields: seq<FieldEncoding>, i: nat): Word
    requires i < |fields|
  {
    match fields[i]
    case StaticWord(word) => word
    case DynamicBytes(_) => WordFromUsize(Offset(fields, i))
  }

  function Heads(fields: seq<FieldEncoding>, k: nat): (h: seq<byte>)
    requires k <= |fields|
    ensures |h| == k * WORD_BYTES
  {
    if k == 0 then [] else Heads(fields, k - 1) + Head(fields, k - 1)
  }

  function Encoding(fields: seq<FieldEncoding>): seq<byte> {
    Heads(fields, |fields|) + Tails(fields)
  }

  /** The encoding is a byte vector, so its length is a usize. */
  predicate Addressable(fields: seq<FieldEncoding>) {
    |Encoding(fields)| < TWO_64
  }

  // ----- the node's encoder -----

  method AbiWordFromUsize(value: nat) returns (word: Word)
    ensures word == WordFromUsize(value)
    ensures value < TWO_64 ==> FromBytes(word) == value
  {
    var buffer: seq<byte> := Zeros(WORD_BYTES);
    buffer := buffer[..16] + ToBytes(value, 16);
    assert buffer[..16] == Zeros(16);
    word := buffer;
    if value < TWO_64 {
      WordRoundTrip(value);
    }
  }

  method EncodeDynamicAbiBytes(bytes: seq<byte>) returns (out: seq<byte>)
    ensures out == DynamicTail(bytes)
  {
    var word := AbiWordFromUsize(|bytes|);
    out := word;
    out := out + bytes;
    // Vec::resize with a zero fill.
    out := out + Zeros(WORD_BYTES + PaddedLen(|bytes|) - |out|);
  }

  method EncodeFieldEncodings(fields: seq<FieldEncoding>) returns (out: seq<byte>)
    ensures out == Encoding(fields)
    ensures Addressable(fields) ==> Decode(Kinds(fields), out) == Some(fields)
  {
    var headSize := |fields| * WORD_BYTES;
    var head: seq<byte> := [];
    var tail: seq<byte> := [];
    for i := 0 to |fields|
      invariant head == Heads(fields, i)
      invariant tail == Tails(fields[..i])
    {
      assert fields[..i + 1][..i] == fields[..i];
      match fields[i]
      case StaticWord(word) =>
        head := head + word;
      case DynamicBytes(bytes) =>
        var offset := headSize + |tail|;
        var word := AbiWordFromUsize(offset);
        head := head + word;
        var more := EncodeDynamicAbiBytes(bytes);
        tail := tail + more;
    }
    assert fields[..|fields|] == fields;
    out := head + tail;
    if Addressable(fields) {
      RoundTrip(fields);
    }
  }

  // ----- the decoder a consumer needs -----

  function DecodeField(kind: Kind, data: seq<byte>, i: nat): Option<FieldEncoding> {
    var slot := i * WORD_BYTES;
    if |data| < slot + WORD_BYTES then None
    else
      var word := data[slot..slot + WORD_BYTES];
      match kind
      case Static => Some(StaticWord(word))
      case Dynamic =>
        var at := FromBytes(word);
        if |data| < at + WORD_BYTES then None
        else
          var len := FromBytes(data[at..at + WORD_BYTES]);
          var from := at + WORD_BYTES;
          if |data| < from + len then None else Some(DynamicBytes(data[from..from + len]))
  }

  function DecodeFrom(kinds: seq<Kind>, data: seq<byte>, i: nat): Option<seq<FieldEncoding>>
    requires i <= |kinds|
    decreases |kinds| - i
  {
    if i == |kinds| then Some([])
    else
      match DecodeField(kinds[i], data, i)
      case None => None
      case Some(f) =>
        match DecodeFrom(kinds, data, i + 1)
        case None => None
        case Some(rest) => Some([f] + rest)
  }

  /** Reads a tuple from its bytes, knowing only which fields are dynamic. */
  function Decode(kinds: seq<Kind>, data: seq<byte>): Option<seq<FieldEncoding>> {
    DecodeFrom(kinds, data, 0)
  }

  // ----- lemmas -----

  lemma {:induction false} WordRoundTrip(value: nat)
    requires value < TWO_64
    ensures FromBytes(WordFromUsize(value)) == value
  {
    Pow256Values();
    FromToBytes(value, 16);
    FromBytesLeadingZeros(16, ToBytes(value, 16));
  }

  lemma {:induction false} HeadAt(fields: seq<FieldEncoding>, k: nat, i: nat)
    requires i < k <= |fields|
    ensures Heads(fields, k)[i * WORD_BYTES..(i + 1) * WORD_BYTES] == Head(fields, i)
  {
    if i < k - 1 {
      HeadAt(fields, k - 1, i);
      assert Heads(fields, k)[i * WORD_BYTES..(i + 1) * WORD_BYTES]
          == Heads(fields, k - 1)[i * WORD_BYTES..(i + 1) * WORD_BYTES];
    }
  }

  lemma {:induction false} TailsPrefix(fields: seq<FieldEncoding>, i: nat)
    requires i <= |fields|
    ensures |Tails(fields[..i])| <= |Tails(fields)|
    ensures Tails(fields)[..|Tails(fields[..i])|] == Tails(fields[..i])
  {
    if i < |fields| {
      var init := fields[..|fields| - 1];
      TailsPrefix(init, i);
      assert init[..i] == fields[..i];
      var n := |Tails(fields[..i])|;
      assert Tails(fields)[..n] == Tails(init)[..n];
    } else {
      assert fields[..i] == fields;
    }
  }

  lemma {:induction false} TailAt(fields: seq<FieldEncoding>, i: nat)
    requires i < |fields|
    ensures |Tails(fields[..i])| + |Tail(fields[i])| == |Tails(fields[..i + 1])| <= |Tails(fields)|
    ensures Tails(fields)[|Tails(fields[..i])|..|Tails(fields[..i + 1])|] == Tail(fields[i])
  {
    TailsPrefix(fields, i + 1);
    var upTo := fields[..i + 1];
    assert upTo[..i] == fields[..i];
    assert Tails(upTo) == Tails(fields[..i]) + Tail(fields[i]);
    var a, b := |Tails(fields[..i])|, |Tails(upTo)|;
    assert Tails(fields)[a..b] == Tails(fields)[..b][a..];
  }

  /** The tails tile the region behind the head: they start where the head ends, each
      begins where the one before it ends, and the last one ends the encoding. Every
      tail is found at its own offset, which is what the head slot of a dynamic field holds. */
  lemma TailsTile(fields: seq<FieldEncoding>)
    requires Addressable(fields)
    ensures Offset(fields, 0) == HeadSize(fields)
    ensures Offset(fields, |fields|) == |Encoding(fields)|
    ensures forall i | 0 <= i < |fields| :: OnItsOwnTail(fields, i)
  {
    assert fields[..|fields|] == fields;
    forall i | 0 <= i < |fields|
      ensures OnItsOwnTail(fields, i)
    {
      FieldTail(fields, i);
      FieldHead(fields, i);
      WordRoundTrip(Offset(fields, i));
    }
  }

  ghost predicate OnItsOwnTail(fields: seq<FieldEncoding>, i: nat)
    requires i < |fields|
  {
    var data, at, end := Encoding(fields), Offset(fields, i), Offset(fields, i + 1);
    && at + |Tail(fields[i])| == end <= |data|
    && data[at..end] == Tail(fields[i])
    && (i + 1) * WORD_BYTES <= |data|
    && (fields[i].DynamicBytes? ==> FromBytes(data[i * WORD_BYTES..(i + 1) * WORD_BYTES]) == at)
  }

  lemma FieldTail(fields: seq<FieldEncoding>, i: nat)
    requires i < |fields|
    ensures Offset(fields, i) + |Tail(fields[i])| == Offset(fields, i + 1) <= |Encoding(fields)|
    ensures Encoding(fields)[Offset(fields, i)..Offset(fields, i + 1)] == Tail(fields[i])
  {
    OffsetStep(fields, i);
    TailLayout(fields, i, Heads(fields, |fields|));
  }

  lemma FieldHead(fields: seq<FieldEncoding>, i: nat)
    requires i < |fields|
    ensures (i + 1) * WORD_BYTES <= HeadSize(fields) <= |Encoding(fields)|
    ensures Encoding(fields)[i * WORD_BYTES..(i + 1) * WORD_BYTES] == Head(fields, i)
  {
    HeadLayout(fields, i, Tails(fields));
  }

  /** Behind any head of the right size, the tail of field `i` is at its offset. */
  lemma TailLayout(fields: seq<FieldEncoding>, i: nat, heads: seq<byte>)
    requires i < |fields| && |heads| == HeadSize(fields)
    ensures var data := heads + Tails(fields);
      && Offset(fields, i) + |Tail(fields[i])| <= |data|
      && data[Offset(fields, i)..Offset(fields, i) + |Tail(fields[i])|] == Tail(fields[i])
  {
    TailOf(fields, i);
    TailBehind(heads, Tails(fields), |Tails(fields[..i])|, Tail(fields[i]), heads + Tails(fields), Offset(fields, i));
  }

  lemma TailOf(fields: seq<FieldEncoding>, i: nat)
    requires i < |fields|
    ensures var at, tail := |Tails(fields[..i])|, Tail(fields[i]);
      at + |tail| <= |Tails(fields)| && Tails(fields)[at..at + |tail|] == tail
  {
    TailAt(fields, i);
  }

  lemma OffsetStep(fields: seq<FieldEncoding>, i: nat)
    requires i < |fields|
    ensures Offset(fields, i) + |Tail(fields[i])| == Offset(fields, i + 1)
  {
    TailAt(fields, i);
  }

  lemma TailBehind(heads: seq<byte>, tails: seq<byte>, at: nat, tail: seq<byte>, data: seq<byte>, offset: nat)
    requires at + |tail| <= |tails| && tails[at..at + |tail|] == tail
    requires data == heads + tails && offset == |heads| + at
    ensures offset + |tail| <= |data| && data[offset..offset + |tail|] == tail
  {
    SliceRight(heads, tails, at, at + |tail|);
  }

  lemma HeadLayout(fields: seq<FieldEncoding>, i: nat, tails: seq<byte>)
    requires i < |fields|
    ensures (i + 1) * WORD_BYTES <= HeadSize(fields)
    ensures (Heads(fields, |fields|) + tails)[i * WORD_BYTES..(i + 1) * WORD_BYTES] == Head(fields, i)
  {
    HeadAt(fields, |fields|, i);
    SliceLeft(Heads(fields, |fields|), tails, i * WORD_BYTES, (i + 1) * WORD_BYTES);
  }

  lemma DecodeFieldAt(fields: seq<FieldEncoding>, i: nat)
    requires Addressable(fields)
    requires i < |fields|
    ensures DecodeField(KindOf(fields[i]), Encoding(fields), i) == Some(fields[i])
  {
    FieldTail(fields, i);
    FieldHead(fields, i);
    var data, at := Encoding(fields), Offset(fields, i);
    match fields[i]
    case StaticWord(word) =>
      DecodeStaticField(data, i, word);
    case DynamicBytes(bytes) =>
      WordRoundTrip(at);
      DecodeDynamicField(data, i, at, bytes);
  }

  lemma DecodeStaticField(data: seq<byte>, i: nat, word: Word)
    requires (i + 1) * WORD_BYTES <= |data|
    requires data[i * WORD_BYTES..(i + 1) * WORD_BYTES] == word
    ensures DecodeField(Static, data, i) == Some(StaticWord(word))
  {
  }

  lemma DecodeDynamicField(data: seq<byte>, i: nat, at: nat, bytes: seq<byte>)
    requires (i + 1) * WORD_BYTES <= |data| < TWO_64
    requires FromBytes(data[i * WORD_BYTES..(i + 1) * WORD_BYTES]) == at
    requires at + |DynamicTail(bytes)| <= |data|
    requires data[at..at + |DynamicTail(bytes)|] == DynamicTail(bytes)
    ensures DecodeField(Dynamic, data, i) == Some(DynamicBytes(bytes))
  {
    TailParts(data, at, bytes);
    WordRoundTrip(|bytes|);
  }

  lemma {:induction false} DecodeFromAt(fields: seq<FieldEncoding>, data: seq<byte>, i: nat)
    requires i <= |fields|
    requires forall j :: 0 <= j < |fields| ==> DecodeField(KindOf(fields[j]), data, j) == Some(fields[j])
    ensures DecodeFrom(Kinds(fields), data, i) == Some(fields[i..])
    decreases |fields| - i
  {
    if i == |fields| {
      assert fields[i..] == [];
    } else {
      DecodeFromAt(fields, data, i + 1);
      assert fields[i..] == [fields[i]] + fields[i + 1..];
    }
  }

  /** A reader that knows only the kinds recovers every field. */
  lemma RoundTrip(fields: seq<FieldEncoding>)
    requires Addressable(fields)
    ensures Decode(Kinds(fields), Encoding(fields)) == Some(fields)
  {
    forall j | 0 <= j < |fields|
      ensures DecodeField(KindOf(fields[j]), Encoding(fields), j) == Some(fields[j])
    {
      DecodeFieldAt(fields, j);
    }
    DecodeFromAt(fields, Encoding(fields), 0);
  }

  /** Two tuples of the same kinds never share an encoding. */
  lemma Injective(a: seq<FieldEncoding>, b: seq<FieldEncoding>)
    requires Addressable(a)
    requires Kinds(a) == Kinds(b)
    requires Encoding(a) == Encoding(b)
    ensures a == b
  {
    RoundTrip(a);
    RoundTrip(b);
  }

  // ----- the encoding is canonical -----

  /** What a strict reader makes of one slot: a field, and where the next tail begins. */
  datatype Reading = Reading(field: FieldEncoding, next: nat)

  /** Strict reading: an offset is where the tail before it ends, and every padding byte is zero. */
  function StrictField(kind: Kind, word: Word, data: seq<byte>, at: nat): Option<Reading> {
    match kind
    case Static => Some(Reading(StaticWord(word), at))
    case Dynamic =>
      if FromBytes(word) != at || |data| < at + WORD_BYTES then None
      else
        var len := FromBytes(data[at..at + WORD_BYTES]);
        var from := at + WORD_BYTES;
        var end := from + PaddedLen(len);
        if |data| < end || data[from + len..end] != Zeros(end - from - len) then None
        else Some(Reading(DynamicBytes(data[from..from + len]), end))
  }

  function Slot(data: seq<byte>, i: nat): Word
    requires (i + 1) * WORD_BYTES <= |data|
  {
    data[i * WORD_BYTES..(i + 1) * WORD_BYTES]
  }

  /** Reads the fields from `i` on, whose tails begin at `at`; nothing may follow the last tail. */
  function StrictFrom(kinds: seq<Kind>, data: seq<byte>, i: nat, at: nat): Option<seq<FieldEncoding>>
    requires i <= |kinds| && |kinds| * WORD_BYTES <= |data|
    decreases |kinds| - i
  {
    if i == |kinds| then (if at == |data| then Some([]) else None)
    else
      match StrictField(kinds[i], Slot(data, i), data, at)
      case None => None
      case Some(reading) =>
        match StrictFrom(kinds, data, i + 1, reading.next)
        case None => None
        case Some(rest) => Some([reading.field] + rest)
  }

  function StrictDecode(kinds: seq<Kind>, data: seq<byte>): Option<seq<FieldEncoding>> {
    if |data| < |kinds| * WORD_BYTES then None else StrictFrom(kinds, data, 0, |kinds| * WORD_BYTES)
  }

  lemma WordIsOf(word: Word)
    requires FromBytes(word) < TWO_64
    ensures word == WordFromUsize(FromBytes(word))
  {
    var value := FromBytes(word);
    WordRoundTrip(value);
    ToFromBytes(word);
    ToFromBytes(WordFromUsize(value));
  }

  /** The slot of a field whose tail begins at `at`. */
  function SlotOf(f: FieldEncoding, at: nat): Word {
    match f
    case StaticWord(word) => word
    case DynamicBytes(_) => WordFromUsize(at)
  }

  lemma TailParts(data: seq<byte>, at: nat, bytes: seq<byte>)
    requires at + |DynamicTail(bytes)| <= |data|
    ensures var from, end := at + WORD_BYTES, at + WORD_BYTES + PaddedLen(|bytes|);
      data[at..end] == DynamicTail(bytes)
      <==> data[at..from] == WordFromUsize(|bytes|) && data[from..from + |bytes|] == bytes
           && data[from + |bytes|..end] == Zeros(end - from - |bytes|)
  {
    var tail, n := DynamicTail(bytes), |bytes|;
    var from, end := at + WORD_BYTES, at + WORD_BYTES + PaddedLen(n);
    assert data[at..end] == data[at..from] + data[from..from + n] + data[from + n..end];
    assert data[at..from] == data[at..end][..WORD_BYTES];
    assert data[from..from + n] == data[at..end][WORD_BYTES..WORD_BYTES + n];
    assert data[from + n..end] == data[at..end][WORD_BYTES + n..];
    assert tail[..WORD_BYTES] == WordFromUsize(n) && tail[WORD_BYTES..WORD_BYTES + n] == bytes;
  }

  /** The strict reader reads a field exactly if its slot and its tail are there as the encoding has them. */
  lemma StrictFieldIff(kind: Kind, word: Word, data: seq<byte>, at: nat, f: FieldEncoding, next: nat)
    requires at <= |data| < TWO_64
    ensures StrictField(kind, word, data, at) == Some(Reading(f, next))
       <==> && KindOf(f) == kind && word == SlotOf(f, at)
            && next == at + |Tail(f)| <= |data| && data[at..next] == Tail(f)
  {
    WordRoundTrip(at);
    if kind == Dynamic && f.DynamicBytes? {
      if FromBytes(word) == at {
        WordIsOf(word);
      }
      DynamicFieldIff(data, at, f.bytes, next);
    }
  }

  lemma DynamicFieldIff(data: seq<byte>, at: nat, bytes: seq<byte>, next: nat)
    requires at <= |data| < TWO_64
    ensures StrictField(Dynamic, WordFromUsize(at), data, at) == Some(Reading(DynamicBytes(bytes), next))
       <==> next == at + |DynamicTail(bytes)| <= |data| && data[at..next] == DynamicTail(bytes)
  {
    WordRoundTrip(at);
    if at + WORD_BYTES <= |data| {
      var word := data[at..at + WORD_BYTES];
      if FromBytes(word) < TWO_64 {
        WordIsOf(word);
      }
      if at + |DynamicTail(bytes)| <= |data| {
        WordRoundTrip(|bytes|);
        TailParts(data, at, bytes);
      }
    }
  }

  /** The part of the data before field `i` and its tail is as the encoding has it. */
  ghost predicate EncodedUpTo(data: seq<byte>, fields: seq<FieldEncoding>, i: nat, at: nat)
    requires i <= |fields| && HeadSize(fields) <= |data|
  {
    && at == Offset(fields, i) <= |data|
    && data[..i * WORD_BYTES] == Heads(fields, i)
    && data[HeadSize(fields)..at] == Tails(fields[..i])
  }

  lemma HeadsStep(data: seq<byte>, fields: seq<FieldEncoding>, i: nat)
    requires i < |fields| && HeadSize(fields) <= |data|
    requires data[..i * WORD_BYTES] == Heads(fields, i) && Slot(data, i) == Head(fields, i)
    ensures data[..(i + 1) * WORD_BYTES] == Heads(fields, i + 1)
  {
    assert data[..(i + 1) * WORD_BYTES] == data[..i * WORD_BYTES] + Slot(data, i);
  }

  lemma TailsStep(fields: seq<FieldEncoding>, i: nat)
    requires i < |fields|
    ensures Tails(fields[..i + 1]) == Tails(fields[..i]) + Tail(fields[i])
    ensures Offset(fields, i + 1) == Offset(fields, i) + |Tail(fields[i])|
  {
    assert fields[..i + 1][..i] == fields[..i];
  }

  lemma EncodedStep(data: seq<byte>, fields: seq<FieldEncoding>, i: nat, at: nat, next: nat)
    requires i < |fields| && HeadSize(fields) <= |data|
    requires EncodedUpTo(data, fields, i, at)
    requires Slot(data, i) == SlotOf(fields[i], at)
    requires next == at + |Tail(fields[i])| <= |data| && data[at..next] == Tail(fields[i])
    ensures EncodedUpTo(data, fields, i + 1, next)
  {
    HeadsStep(data, fields, i);
    TailsStep(fields, i);
    var head := HeadSize(fields);
    assert data[head..next] == data[head..at] + data[at..next];
  }

  lemma StrictAdvance(kinds: seq<Kind>, data: seq<byte>, fields: seq<FieldEncoding>, i: nat, at: nat) returns (next: nat)
    requires i < |kinds| == |fields| && |kinds| * WORD_BYTES <= |data| < TWO_64
    requires EncodedUpTo(data, fields, i, at) && StrictFrom(kinds, data, i, at) == Some(fields[i..])
    ensures KindOf(fields[i]) == kinds[i]
    ensures EncodedUpTo(data, fields, i + 1, next) && StrictFrom(kinds, data, i + 1, next) == Some(fields[i + 1..])
  {
    next := StrictNext(kinds, data, fields, i, at);
    EncodedStep(data, fields, i, at, next);
  }

  lemma {:induction false} StrictIsEncoding(kinds: seq<Kind>, data: seq<byte>, fields: seq<FieldEncoding>, i: nat, at: nat)
    requires |data| < TWO_64 && i <= |kinds| == |fields| && HeadSize(fields) <= |data|
    requires EncodedUpTo(data, fields, i, at)
    requires StrictFrom(kinds, data, i, at) == Some(fields[i..])
    ensures data == Encoding(fields)
    ensures forall j :: i <= j < |fields| ==> KindOf(fields[j]) == kinds[j]
    decreases |fields| - i
  {
    if i == |fields| {
      EncodedWhole(data, fields);
    } else {
      var next := StrictAdvance(kinds, data, fields, i, at);
      StrictIsEncoding(kinds, data, fields, i + 1, next);
    }
  }

  lemma EncodedWhole(data: seq<byte>, fields: seq<FieldEncoding>)
    requires HeadSize(fields) <= |data| && EncodedUpTo(data, fields, |fields|, |data|)
    ensures data == Encoding(fields)
  {
    assert fields[..|fields|] == fields;
    Halves(data, HeadSize(fields), Heads(fields, |fields|), Tails(fields));
  }

  lemma Halves(data: seq<byte>, k: nat, left: seq<byte>, right: seq<byte>)
    requires k <= |data| && data[..k] == left && data[k..|data|] == right
    ensures data == left + right
  {
    assert data == data[..k] + data[k..];
  }

  lemma StrictNext(kinds: seq<Kind>, data: seq<byte>, fields: seq<FieldEncoding>, i: nat, at: nat) returns (next: nat)
    requires i < |kinds| == |fields| && |kinds| * WORD_BYTES <= |data| < TWO_64 && at <= |data|
    requires StrictFrom(kinds, data, i, at) == Some(fields[i..])
    ensures KindOf(fields[i]) == kinds[i] && Slot(data, i) == SlotOf(fields[i], at)
    ensures next == at + |Tail(fields[i])| <= |data| && data[at..next] == Tail(fields[i])
    ensures StrictFrom(kinds, data, i + 1, next) == Some(fields[i + 1..])
  {
    var reading := StrictField(kinds[i], Slot(data, i), data, at).value;
    next := reading.next;
    assert fields[i..][0] == fields[i] && fields[i..][1..] == fields[i + 1..];
    StrictFieldIff(kinds[i], Slot(data, i), data, at, fields[i], next);
  }

  lemma {:induction false} StrictLength(kinds: seq<Kind>, data: seq<byte>, i: nat, at: nat)
    requires i <= |kinds| && |kinds| * WORD_BYTES <= |data|
    ensures StrictFrom(kinds, data, i, at).Some? ==> |StrictFrom(kinds, data, i, at).value| == |kinds| - i
    decreases |kinds| - i
  {
    if i < |kinds| {
      var reading := StrictField(kinds[i], Slot(data, i), data, at);
      if reading.Some? {
        StrictLength(kinds, data, i + 1, reading.value.next);
      }
    }
  }

  lemma StrictReadsField(fields: seq<FieldEncoding>, i: nat)
    requires Addressable(fields) && i < |fields|
    ensures (i + 1) * WORD_BYTES <= |Encoding(fields)|
    ensures StrictField(KindOf(fields[i]), Slot(Encoding(fields), i), Encoding(fields), Offset(fields, i))
         == Some(Reading(fields[i], Offset(fields, i + 1)))
  {
    FieldTail(fields, i);
    FieldHead(fields, i);
    StrictFieldIff(KindOf(fields[i]), Slot(Encoding(fields), i), Encoding(fields), Offset(fields, i),
                   fields[i], Offset(fields, i + 1));
  }

  lemma StrictCons(kinds: seq<Kind>, data: seq<byte>, i: nat, at: nat, next: nat, fields: seq<FieldEncoding>)
    requires i < |kinds| == |fields| && |kinds| * WORD_BYTES <= |data|
    requires StrictField(kinds[i], Slot(data, i), data, at) == Some(Reading(fields[i], next))
    requires StrictFrom(kinds, data, i + 1, next) == Some(fields[i + 1..])
    ensures StrictFrom(kinds, data, i, at) == Some(fields[i..])
  {
    assert fields[i..] == [fields[i]] + fields[i + 1..];
  }

  lemma {:induction false} StrictAccepts(fields: seq<FieldEncoding>, i: nat)
    requires Addressable(fields) && i <= |fields|
    ensures StrictFrom(Kinds(fields), Encoding(fields), i, Offset(fields, i)) == Some(fields[i..])
    decreases |fields| - i
  {
    if i == |fields| {
      assert fields[..i] == fields && fields[i..] == [];
    } else {
      StrictAccepts(fields, i + 1);
      StrictReadsField(fields, i);
      StrictCons(Kinds(fields), Encoding(fields), i, Offset(fields, i), Offset(fields, i + 1), fields);
    }
  }

  /** Every encoding is canonical: what the strict reader accepts for a list of kinds is precisely the
      encoding of a list of those kinds, down to the last padding byte. */
  lemma StrictDecodeIff(kinds: seq<Kind>, data: seq<byte>, fields: seq<FieldEncoding>)
    requires |data| < TWO_64
    ensures StrictDecode(kinds, data) == Some(fields) <==> Kinds(fields) == kinds && data == Encoding(fields)
  {
    assert fields[..0] == [] && fields[0..] == fields;
    if StrictDecode(kinds, data) == Some(fields) {
      StrictLength(kinds, data, 0, |kinds| * WORD_BYTES);
      StrictIsEncoding(kinds, data, fields, 0, |kinds| * WORD_BYTES);
    }
    if Kinds(fields) == kinds && data == Encoding(fields) {
      StrictAccepts(fields, 0);
    }
  }
}
