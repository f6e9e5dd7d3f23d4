/**
 Preparing a Noir proof: the consistency checks, the fixed-size zero-padded witness
 arrays, and the proof that nothing put into those arrays is lost.
 */
module NoirWitness {
  import opened AbiFormat
  import opened Bytes
  import opened NoirInputs
  import opened Shape
  import opened Wrappers
  import RustText
  import Utf8

  const MAX_FIELDS: nat := 16
  const MAX_DYNAMIC_BYTES: nat := 256
  const MAX_CALLBACK_BYTES: nat := 1024
  const MAX_NAME_BYTES: nat := 64
  const MAX_TYPE_BYTES: nat := 16

  const SIGNATURE_BYTES: nat := 64

  type Signature = b: seq<byte> | |b| == SIGNATURE_BYTES witness Zeros(SIGNATURE_BYTES)

  const KIND_STATIC: byte := 0
  const KIND_DYNAMIC: byte := 1

  datatype Request = Request(
    expectedShape: string,
    query: string,
    model: string,
    inputDataJson: string,
    baseUrl: string,
    endpoint: string,
    url: string,
    header: string,
    verb: string,
    body: string)

  datatype Attestation = Attestation(
    attestor: Address,
    pubkeyX: Word,
    pubkeyY: Word,
    signature: Signature,
    recipient: Address,
    timestampMillis: U64,
    requestUrl: seq<byte>,
    requestHeader: seq<byte>,
    requestMethod: seq<byte>,
    requestBody: seq<byte>,
    responseKeyName: seq<byte>,
    responseParseType: seq<byte>,
    responseParsePath: seq<byte>,
    attestationData: seq<byte>,
    attConditions: seq<byte>,
    additionParams: seq<byte>,
    responseId: seq<byte>,
    responseBody: seq<byte>)

  datatype NoirInput = NoirInput(
    plan: seq<FieldEncoding>,
    fields: seq<FieldSpec>,
    request: Request,
    commitment: Commitment,
    attestation: Attestation,
    hub: Address,
    chainId: U64)

  /** The arrays that hold the fields and the ABI plan, one slot a field. */
  datatype FieldTables = FieldTables(
    nameLengths: seq<nat>,
    names: seq<seq<byte>>,
    typeLengths: seq<nat>,
    types: seq<seq<byte>>,
    kinds: seq<byte>,
    staticWords: seq<Word>,
    dynamicLengths: seq<nat>,
    dynamicBytes: seq<seq<byte>>)

  /** The entries of fixed size, copied one by one. */
  datatype Scalars = Scalars(
    hub: Address,
    chainId: U64,
    client: Address,
    bidIdWord: Word,
    autoFlow: bool,
    clientVersion: U64,
    pubkeyX: Word,
    pubkeyY: Word,
    signature: Signature,
    recipient: Address,
    timestampMillis: U64)

  /** The witness file: the public inputs in decimal, the fixed-size entries, the field tables, and the
      other byte strings, each with its length and its fixed-size buffer. */
  datatype Witness = Witness(
    prefixInputs: seq<string>,
    urlChunks: seq<string>,
    endpointChunks: seq<string>,
    scalars: Scalars,
    fieldCount: nat,
    tables: FieldTables,
    blobLengths: seq<nat>,
    blobs: seq<seq<byte>>)

  datatype PreparedProof = PreparedProof(
    callbackData: seq<byte>,
    publicInputs: seq<U256>,
    packedPublicInputs: seq<byte>,
    witnessFile: Witness)

  datatype PrepareError =
    | TooManyFields
    | FieldCountMismatch
    | CallbackTooLong
    | HashMismatch
    | TimestampMismatch
    | AttestedBytesMismatch
    | RecipientMismatch
    | ShapeRejected(error: ShapeError)
    | ShapeMismatch
    | TooLong
    | ChunksTooLong

  /** The byte strings with buffers of their own, in the order of the witness file. */
  function Blobs(input: NoirInput): (b: seq<seq<byte>>)
    ensures |b| == |BLOB_LIMITS|
  {
    var r, a := input.request, input.attestation;
    [ Utf8.Encode(r.query), Utf8.Encode(r.model), Utf8.Encode(r.inputDataJson),
      Utf8.Encode(r.baseUrl), Utf8.Encode(r.endpoint),
      a.requestUrl, a.requestHeader, a.requestMethod, a.requestBody,
      a.responseKeyName, a.responseParseType, a.responseParsePath,
      a.attestationData, a.attConditions, a.additionParams, a.responseId, a.responseBody ]
  }

  const BLOB_LIMITS: seq<nat> :=
    [2048, 64, 4096, 256, 128, 256, 1024, 8, 8192, 66, 16, 128, 4096, 2048, 1024, 66, 8192]

  // ----- fixed-size arrays -----

  method FitBytes(value: seq<byte>, maxLen: nat) returns (r: Result<seq<byte>, PrepareError>)
    ensures r.Ok? <==> |value| <= maxLen
    ensures r.Ok? ==> r.value == Padded(value, maxLen)
    ensures r.Err? ==> r.error == TooLong
  {
    if |value| > maxLen {
      return Err(TooLong);
    }
    var out := Zeros(maxLen);
    out := value + out[|value|..];
    r := Ok(out);
  }

  predicate WellSized(t: FieldTables) {
    && |t.nameLengths| == |t.names| == |t.typeLengths| == |t.types| == MAX_FIELDS
    && |t.kinds| == |t.staticWords| == |t.dynamicLengths| == |t.dynamicBytes| == MAX_FIELDS
    && (forall i :: 0 <= i < MAX_FIELDS ==> |t.names[i]| == MAX_NAME_BYTES)
    && (forall i :: 0 <= i < MAX_FIELDS ==> |t.types[i]| == MAX_TYPE_BYTES)
    && (forall i :: 0 <= i < MAX_FIELDS ==> |t.dynamicBytes[i]| == MAX_DYNAMIC_BYTES)
  }

  predicate FieldFits(field: FieldSpec, encoding: FieldEncoding) {
    && |Utf8.Encode(field.name)| <= MAX_NAME_BYTES
    && |Utf8.Encode(field.solidityType)| <= MAX_TYPE_BYTES
    && (encoding.DynamicBytes? ==> |encoding.bytes| <= MAX_DYNAMIC_BYTES)
  }

  /** Slot `i` is still all zeros. */
  predicate Unused(t: FieldTables, i: nat)
    requires WellSized(t) && i < MAX_FIELDS
  {
    && t.nameLengths[i] == t.typeLengths[i] == t.dynamicLengths[i] == 0
    && t.kinds[i] == 0
    && t.names[i] == Zeros(MAX_NAME_BYTES)
    && t.types[i] == Zeros(MAX_TYPE_BYTES)
    && t.staticWords[i] == Zeros(WORD_BYTES)
    && t.dynamicBytes[i] == Zeros(MAX_DYNAMIC_BYTES)
  }

  /** Slot `i` holds this field and this encoding. */
  predicate Holds(t: FieldTables, i: nat, field: FieldSpec, encoding: FieldEncoding)
    requires WellSized(t) && i < MAX_FIELDS
    requires FieldFits(field, encoding)
  {
    var name, ty := Utf8.Encode(field.name), Utf8.Encode(field.solidityType);
    && t.nameLengths[i] == |name| && t.names[i] == Padded(name, MAX_NAME_BYTES)
    && t.typeLengths[i] == |ty| && t.types[i] == Padded(ty, MAX_TYPE_BYTES)
    && match encoding
       case StaticWord(word) =>
         t.kinds[i] == KIND_STATIC && t.staticWords[i] == word
         && t.dynamicLengths[i] == 0 && t.dynamicBytes[i] == Zeros(MAX_DYNAMIC_BYTES)
       case DynamicBytes(bytes) =>
         t.kinds[i] == KIND_DYNAMIC && t.staticWords[i] == Zeros(WORD_BYTES)
         && t.dynamicLengths[i] == |bytes| && t.dynamicBytes[i] == Padded(bytes, MAX_DYNAMIC_BYTES)
  }

  predicate AllFit(fields: seq<FieldSpec>, plan: seq<FieldEncoding>)
    requires |fields| == |plan|
  {
    forall i :: 0 <= i < |plan| ==> FieldFits(fields[i], plan[i])
  }

  predicate Filled(t: FieldTables, fields: seq<FieldSpec>, plan: seq<FieldEncoding>)
    requires |fields| == |plan| <= MAX_FIELDS
    requires AllFit(fields, plan)
  {
    && WellSized(t)
    && (forall i :: 0 <= i < |plan| ==> Holds(t, i, fields[i], plan[i]))
    && (forall i :: |plan| <= i < MAX_FIELDS ==> Unused(t, i))
  }

  function EmptyTables(): (t: FieldTables)
    ensures WellSized(t)
    ensures forall i :: 0 <= i < MAX_FIELDS ==> Unused(t, i)
  {
    FieldTables(
      seq(MAX_FIELDS, _ => 0), seq(MAX_FIELDS, _ => Zeros(MAX_NAME_BYTES)),
      seq(MAX_FIELDS, _ => 0), seq(MAX_FIELDS, _ => Zeros(MAX_TYPE_BYTES)),
      seq(MAX_FIELDS, _ => 0), seq(MAX_FIELDS, _ => Zeros(WORD_BYTES)),
      seq(MAX_FIELDS, _ => 0), seq(MAX_FIELDS, _ => Zeros(MAX_DYNAMIC_BYTES)))
  }

  method FillSlot(t: FieldTables, idx: nat, field: FieldSpec, encoding: FieldEncoding)
    returns (r: Result<FieldTables, PrepareError>)
    requires WellSized(t) && idx < MAX_FIELDS && Unused(t, idx)
    ensures r.Ok? <==> FieldFits(field, encoding)
    ensures r.Ok? ==> WellSized(r.value) && Holds(r.value, idx, field, encoding)
    ensures r.Ok? ==> forall i :: 0 <= i < MAX_FIELDS && i != idx ==> SameSlot(t, r.value, i)
  {
    var name, ty := Utf8.Encode(field.name), Utf8.Encode(field.solidityType);
    var nameLengths := t.nameLengths[idx := |name|];
    var fitName := FitBytes(name, MAX_NAME_BYTES);
    if fitName.Err? {
      return Err(fitName.error);
    }
    var names := t.names[idx := fitName.value];
    var typeLengths := t.typeLengths[idx := |ty|];
    var fitType := FitBytes(ty, MAX_TYPE_BYTES);
    if fitType.Err? {
      return Err(fitType.error);
    }
    var types := t.types[idx := fitType.value];
    var kinds, staticWords := t.kinds, t.staticWords;
    var dynamicLengths, dynamicBytes := t.dynamicLengths, t.dynamicBytes;
    match encoding {
      case StaticWord(word) =>
        kinds := kinds[idx := KIND_STATIC];
        staticWords := staticWords[idx := word];
      case DynamicBytes(bytes) =>
        if |bytes| > MAX_DYNAMIC_BYTES {
          return Err(TooLong);
        }
        kinds := kinds[idx := KIND_DYNAMIC];
        dynamicLengths := dynamicLengths[idx := |bytes|];
        dynamicBytes := dynamicBytes[idx := bytes + dynamicBytes[idx][|bytes|..]];
        assert dynamicBytes[idx] == Padded(bytes, MAX_DYNAMIC_BYTES);
    }
    r := Ok(FieldTables(nameLengths, names, typeLengths, types, kinds, staticWords, dynamicLengths, dynamicBytes));
  }

  predicate SameSlot(s: FieldTables, t: FieldTables, i: nat)
    requires WellSized(s) && WellSized(t) && i < MAX_FIELDS
  {
    && s.nameLengths[i] == t.nameLengths[i] && s.names[i] == t.names[i]
    && s.typeLengths[i] == t.typeLengths[i] && s.types[i] == t.types[i]
    && s.kinds[i] == t.kinds[i] && s.staticWords[i] == t.staticWords[i]
    && s.dynamicLengths[i] == t.dynamicLengths[i] && s.dynamicBytes[i] == t.dynamicBytes[i]
  }

  method FillTables(fields: seq<FieldSpec>, plan: seq<FieldEncoding>)
    returns (r: Result<FieldTables, PrepareError>)
    requires |fields| == |plan| <= MAX_FIELDS
    ensures r.Ok? <==> AllFit(fields, plan)
    ensures r.Ok? ==> Filled(r.value, fields, plan)
  {
    var t := EmptyTables();
    for idx := 0 to |plan|
      invariant WellSized(t)
      invariant forall i :: 0 <= i < idx ==> FieldFits(fields[i], plan[i]) && Holds(t, i, fields[i], plan[i])
      invariant forall i :: idx <= i < MAX_FIELDS ==> Unused(t, i)
    {
      var slot := FillSlot(t, idx, fields[idx], plan[idx]);
      if slot.Err? {
        return Err(slot.error);
      }
      ghost var before := t;
      t := slot.value;
      forall i | 0 <= i < idx
        ensures Holds(t, i, fields[i], plan[i])
      {
        assert SameSlot(before, t, i) && Holds(before, i, fields[i], plan[i]);
      }
      forall i | idx < i < MAX_FIELDS
        ensures Unused(t, i)
      {
        assert SameSlot(before, t, i) && Unused(before, i);
      }
    }
    r := Ok(t);
  }

  // ----- reading the witness back -----

  function Prefix(buffer: seq<byte>, length: nat): seq<byte> {
    if length <= |buffer| then buffer[..length] else buffer
  }

  function ReadField(t: FieldTables, i: nat): FieldSpec
    requires WellSized(t) && i < MAX_FIELDS
  {
    FieldSpec(
      Utf8.Decode(Prefix(t.names[i], t.nameLengths[i])),
      Utf8.Decode(Prefix(t.types[i], t.typeLengths[i])),
      None, None, None)
  }

  function ReadEncoding(t: FieldTables, i: nat): FieldEncoding
    requires WellSized(t) && i < MAX_FIELDS
  {
    if t.kinds[i] == 0 then StaticWord(t.staticWords[i])
    else DynamicBytes(Prefix(t.dynamicBytes[i], t.dynamicLengths[i]))
  }

  function ReadFields(t: FieldTables, count: nat): seq<FieldSpec>
    requires WellSized(t) && count <= MAX_FIELDS
  {
    seq(count, i requires 0 <= i < count => ReadField(t, i))
  }

  function ReadPlan(t: FieldTables, count: nat): seq<FieldEncoding>
    requires WellSized(t) && count <= MAX_FIELDS
  {
    seq(count, i requires 0 <= i < count => ReadEncoding(t, i))
  }

  /** The part of a field the witness carries: its name and type. */
  function Bare(field: FieldSpec): FieldSpec {
    FieldSpec(field.name, field.solidityType, None, None, None)
  }

  function BareFields(fields: seq<FieldSpec>): (bare: seq<FieldSpec>)
    ensures |bare| == |fields|
    ensures forall i :: 0 <= i < |fields| ==> bare[i] == Bare(fields[i])
  {
    seq(|fields|, i requires 0 <= i < |fields| => Bare(fields[i]))
  }

  lemma HeldFieldReadsBack(t: FieldTables, i: nat, field: FieldSpec, encoding: FieldEncoding)
    requires WellSized(t) && i < MAX_FIELDS
    requires FieldFits(field, encoding) && Holds(t, i, field, encoding)
    ensures ReadField(t, i) == Bare(field)
    ensures ReadEncoding(t, i) == encoding
  {
    Utf8.RoundTrip(field.name);
    Utf8.RoundTrip(field.solidityType);
  }

  /** Filled tables read back as the fields' names and types, and as the plan. */
  lemma TablesReadBack(t: FieldTables, fields: seq<FieldSpec>, plan: seq<FieldEncoding>)
    requires |fields| == |plan| <= MAX_FIELDS
    requires AllFit(fields, plan) && Filled(t, fields, plan)
    ensures ReadFields(t, |plan|) == BareFields(fields)
    ensures ReadPlan(t, |plan|) == plan
  {
    forall i | 0 <= i < |plan|
      ensures ReadField(t, i) == Bare(fields[i]) && ReadEncoding(t, i) == plan[i]
    {
      HeldFieldReadsBack(t, i, fields[i], plan[i]);
    }
  }

  /** Dropping the optional attributes does not change how a shape prints. */
  lemma BareRendersAlike(fields: seq<FieldSpec>)
    requires fields != []
    ensures RenderText(BareFields(fields)) == RenderText(fields)
    ensures Canonical(fields) ==> BareFields(fields) == fields
  {
    assert Items(BareFields(fields)) == Items(fields);
  }

  // ----- the preparation -----

  ghost predicate HashesAgree(input: NoirInput, keccak: seq<byte> -> Word) {
    var r, c := input.request, input.commitment;
    && keccak(Encoding(input.plan)) == c.callbackHash
    && keccak(Utf8.Encode(r.inputDataJson)) == c.inputDataHash
    && keccak(Utf8.Encode(r.query)) == c.queryHash
    && keccak(Utf8.Encode(r.model)) == c.modelHash
    && keccak(Utf8.Encode(r.expectedShape)) == c.shapeHash
  }

  ghost predicate AttestationAgrees(input: NoirInput) {
    var r, a := input.request, input.attestation;
    && a.timestampMillis / 1000 == input.commitment.requestTimestamp
    && a.requestUrl == Utf8.Encode(r.url)
    && a.requestHeader == Utf8.Encode(r.header)
    && a.requestMethod == Utf8.Encode(r.verb)
    && a.requestBody == Utf8.Encode(r.body)
    && a.recipient == input.commitment.fulfiller
  }

  predicate Within(raw: seq<seq<byte>>, limits: seq<nat>)
    requires |raw| == |limits|
  {
    forall i :: 0 <= i < |raw| ==> |raw[i]| <= limits[i]
  }

  predicate Buffered(buffers: seq<seq<byte>>, raw: seq<seq<byte>>, limits: seq<nat>)
    requires |raw| == |limits| && Within(raw, limits)
  {
    |buffers| == |raw| && forall i :: 0 <= i < |raw| ==> buffers[i] == Padded(raw[i], limits[i])
  }

  function Lengths(raw: seq<seq<byte>>): (lengths: seq<nat>)
    ensures |lengths| == |raw|
    ensures forall i :: 0 <= i < |raw| ==> lengths[i] == |raw[i]|
  {
    seq(|raw|, i requires 0 <= i < |raw| => |raw[i]|)
  }

  function StatementOf(input: NoirInput): Statement {
    Statement(input.commitment, input.attestation.attestor, input.hub, input.chainId,
              Utf8.Encode(input.request.baseUrl), Utf8.Encode(input.request.endpoint))
  }

  /** What is checked before anything is written. */
  ghost predicate Checked(input: NoirInput, keccak: seq<byte> -> Word) {
    && |input.fields| == |input.plan| <= MAX_FIELDS
    && |Encoding(input.plan)| <= MAX_CALLBACK_BYTES
    && HashesAgree(input, keccak)
    && AttestationAgrees(input)
    && Render(input.fields) == Ok(input.request.expectedShape)
  }

  /** Exactly when preparation succeeds. */
  ghost predicate Preparable(input: NoirInput, keccak: seq<byte> -> Word) {
    && Checked(input, keccak)
    && AllFit(input.fields, input.plan)
    && Chunkable(StatementOf(input))
    && Within(Blobs(input), BLOB_LIMITS)
  }

  method CheckInput(input: NoirInput, keccak: seq<byte> -> Word) returns (r: Result<seq<byte>, PrepareError>)
    ensures r.Ok? <==> Checked(input, keccak)
    ensures r.Ok? ==> r.value == Encoding(input.plan)
  {
    if |input.plan| > MAX_FIELDS {
      return Err(TooManyFields);
    }
    if |input.fields| != |input.plan| {
      return Err(FieldCountMismatch);
    }
    var callbackData := EncodeFieldEncodings(input.plan);
    if |callbackData| > MAX_CALLBACK_BYTES {
      return Err(CallbackTooLong);
    }
    var q, c, a := input.request, input.commitment, input.attestation;
    if keccak(callbackData) != c.callbackHash || keccak(Utf8.Encode(q.inputDataJson)) != c.inputDataHash {
      return Err(HashMismatch);
    }
    if a.timestampMillis / 1000 != c.requestTimestamp {
      return Err(TimestampMismatch);
    }
    if a.requestUrl != Utf8.Encode(q.url) || a.requestHeader != Utf8.Encode(q.header)
      || a.requestMethod != Utf8.Encode(q.verb) || a.requestBody != Utf8.Encode(q.body)
    {
      return Err(AttestedBytesMismatch);
    }
    if keccak(Utf8.Encode(q.query)) != c.queryHash || keccak(Utf8.Encode(q.model)) != c.modelHash {
      return Err(HashMismatch);
    }
    if a.recipient != c.fulfiller {
      return Err(RecipientMismatch);
    }
    var rendered := RenderExpectedShapeDsl(input.fields);
    if rendered.Err? {
      return Err(ShapeRejected(rendered.error));
    }
    if rendered.value != q.expectedShape {
      return Err(ShapeMismatch);
    }
    if keccak(Utf8.Encode(q.expectedShape)) != c.shapeHash {
      return Err(HashMismatch);
    }
    r := Ok(callbackData);
  }

  method FitAll(raw: seq<seq<byte>>, limits: seq<nat>) returns (r: Result<seq<seq<byte>>, PrepareError>)
    requires |raw| == |limits|
    ensures r.Ok? <==> Within(raw, limits)
    ensures r.Ok? ==> Buffered(r.value, raw, limits)
  {
    var out: seq<seq<byte>> := [];
    for i := 0 to |raw|
      invariant |out| == i
      invariant forall j :: 0 <= j < i ==> |raw[j]| <= limits[j] && out[j] == Padded(raw[j], limits[j])
    {
      var fit := FitBytes(raw[i], limits[i]);
      if fit.Err? {
        return Err(fit.error);
      }
      out := out + [fit.value];
    }
    r := Ok(out);
  }

  /** The public inputs, as words and packed, and the chunks among them. */
  datatype Publics = Publics(words: seq<U256>, packed: seq<byte>, urlChunks: seq<U256>, endpointChunks: seq<U256>)

  method PreparePublicInputs(s: Statement) returns (r: Result<Publics, PrepareError>)
    ensures r.Ok? <==> Chunkable(s)
    ensures r.Ok? ==>
      r.value == Publics(PublicInputs(s), Pack(PublicInputs(s)),
                         ChunkWords(s.url, URL_CHUNKS), ChunkWords(s.endpoint, ENDPOINT_CHUNKS))
  {
    var url := ChunkPublicFields(s.url, URL_CHUNKS);
    if url.Err? {
      return Err(ChunksTooLong);
    }
    var endpoint := ChunkPublicFields(s.endpoint, ENDPOINT_CHUNKS);
    if endpoint.Err? {
      return Err(ChunksTooLong);
    }
    var inputs := BuildPublicInputs(s, url.value.1, url.value.0, endpoint.value.1, endpoint.value.0);
    var packed := PackPublicInputs(inputs);
    r := Ok(Publics(inputs, packed, url.value.0, endpoint.value.0));
  }

  // ----- the copied entries and the public inputs in decimal -----

  function Decimals(words: seq<U256>): (texts: seq<string>)
    ensures |texts| == |words|
    ensures forall i :: 0 <= i < |words| ==> texts[i] == RustText.DecimalText(words[i])
  {
    seq(|words|, i requires 0 <= i < |words| => RustText.DecimalText(words[i]))
  }

  /** The numbers that decimal texts stand for. */
  predicate ReadAsWords(texts: seq<string>, words: seq<U256>) {
    && |texts| == |words|
    && forall i :: 0 <= i < |words| ==>
         RustText.AllDigits(texts[i]) && RustText.DecimalValue(texts[i]) == words[i]
  }

  lemma DecimalsReadBack(words: seq<U256>)
    ensures ReadAsWords(Decimals(words), words)
  {
    forall i | 0 <= i < |words|
      ensures RustText.DecimalValue(Decimals(words)[i]) == words[i]
    {
      RustText.DecimalReadsBack(words[i]);
    }
  }

  lemma DecimalPublics(a: seq<U256>, b: seq<U256>, c: seq<U256>)
    ensures ReadAsWords(Decimals(a) + Decimals(b) + Decimals(c), a + b + c)
  {
    DecimalsReadBack(a + b + c);
    assert Decimals(a + b + c) == Decimals(a) + Decimals(b) + Decimals(c);
  }

  function CopyScalars(input: NoirInput): Scalars {
    var c, a := input.commitment, input.attestation;
    Scalars(input.hub, input.chainId, c.client, ToBytes(c.bidId, WORD_BYTES), c.autoFlow, c.clientVersion,
            a.pubkeyX, a.pubkeyY, a.signature, a.recipient, a.timestampMillis)
  }

  /** The fixed-size entries are the input's, and agree with the statement the public inputs carry. */
  predicate ScalarsAgree(w: Scalars, input: NoirInput, public: Statement) {
    var a := input.attestation;
    && w.hub == public.hub && w.chainId == public.chainId
    && w.client == public.commitment.client && FromBytes(w.bidIdWord) == public.commitment.bidId
    && w.autoFlow == public.commitment.autoFlow && w.clientVersion == public.commitment.clientVersion
    && w.recipient == public.commitment.fulfiller
    && w.timestampMillis / 1000 == public.commitment.requestTimestamp
    && (w.pubkeyX, w.pubkeyY, w.signature) == (a.pubkeyX, a.pubkeyY, a.signature)
    && (w.recipient, w.timestampMillis) == (a.recipient, a.timestampMillis)
  }

  /** The statement as it is proved: the request was fulfilled. */
  function Fulfilled(s: Statement): Statement {
    s.(commitment := s.commitment.(llmFulfilled := true))
  }

  lemma ScalarsReadBack(input: NoirInput)
    requires AttestationAgrees(input)
    ensures ScalarsAgree(CopyScalars(input), input, Fulfilled(StatementOf(input)))
  {
    BidWordReadsBack(input.commitment.bidId);
  }

  lemma BidWordReadsBack(v: U256)
    ensures FromBytes(ToBytes(v, WORD_BYTES)) == v
  {
    Pow256Values();
    FromToBytes(v, WORD_BYTES);
  }

  /** What a prepared proof says about its input: the witness reads back as the fields and the plan,
      which in turn give the callback bytes and the shape string; every buffer reads back as its
      byte string; the public inputs, packed or in decimal, read back as the whole statement; and the
      fixed-size entries agree with it. */
  ghost predicate Faithful(input: NoirInput, p: PreparedProof)
    requires |input.fields| == |input.plan| <= MAX_FIELDS && input.fields != []
  {
    && TablesFaithful(input, p.witnessFile.tables, p.witnessFile.fieldCount, p.callbackData)
    && ReadBack(p.witnessFile.blobs, p.witnessFile.blobLengths, Blobs(input), BLOB_LIMITS)
    && RequestBuffers(input.request, p.witnessFile)
    && AttestationBuffers(input.attestation, p.witnessFile)
    && PublicsFaithful(input, p)
  }

  /** The `k`-th buffer of the witness file has this size and holds these bytes. */
  predicate HoldsAt(w: Witness, k: nat, size: nat, raw: seq<byte>) {
    && k < |w.blobs| && k < |w.blobLengths|
    && w.blobLengths[k] == |raw| && |w.blobs[k]| == size
    && Prefix(w.blobs[k], |raw|) == raw
  }

  /** The buffers of the request, in the order of the witness file and of the circuit's sizes. */
  predicate RequestBuffers(r: Request, w: Witness) {
    && HoldsAt(w, 0, 2048, Utf8.Encode(r.query))
    && HoldsAt(w, 1, 64, Utf8.Encode(r.model))
    && HoldsAt(w, 2, 4096, Utf8.Encode(r.inputDataJson))
    && HoldsAt(w, 3, 256, Utf8.Encode(r.baseUrl))
    && HoldsAt(w, 4, 128, Utf8.Encode(r.endpoint))
  }

  predicate AttestationBuffers(a: Attestation, w: Witness) {
    && HoldsAt(w, 5, 256, a.requestUrl)
    && HoldsAt(w, 6, 1024, a.requestHeader)
    && HoldsAt(w, 7, 8, a.requestMethod)
    && HoldsAt(w, 8, 8192, a.requestBody)
    && HoldsAt(w, 9, 66, a.responseKeyName)
    && HoldsAt(w, 10, 16, a.responseParseType)
    && HoldsAt(w, 11, 128, a.responseParsePath)
    && HoldsAt(w, 12, 4096, a.attestationData)
    && HoldsAt(w, 13, 2048, a.attConditions)
    && HoldsAt(w, 14, 1024, a.additionParams)
    && HoldsAt(w, 15, 66, a.responseId)
    && HoldsAt(w, 16, 8192, a.responseBody)
  }

  lemma BufferHolds(input: NoirInput, w: Witness, k: nat)
    requires k < |BLOB_LIMITS|
    requires ReadBack(w.blobs, w.blobLengths, Blobs(input), BLOB_LIMITS)
    requires w.blobLengths == Lengths(Blobs(input))
    ensures HoldsAt(w, k, BLOB_LIMITS[k], Blobs(input)[k])
  {
  }

  lemma RequestNamed(input: NoirInput, w: Witness)
    requires forall k :: 0 <= k < |BLOB_LIMITS| ==> HoldsAt(w, k, BLOB_LIMITS[k], Blobs(input)[k])
    ensures RequestBuffers(input.request, w)
  {
    assert HoldsAt(w, 0, BLOB_LIMITS[0], Blobs(input)[0]) && HoldsAt(w, 1, BLOB_LIMITS[1], Blobs(input)[1]);
    assert HoldsAt(w, 2, BLOB_LIMITS[2], Blobs(input)[2]) && HoldsAt(w, 3, BLOB_LIMITS[3], Blobs(input)[3]);
    assert HoldsAt(w, 4, BLOB_LIMITS[4], Blobs(input)[4]);
  }

  lemma AttestationNamed(input: NoirInput, w: Witness)
    requires forall k :: 0 <= k < |BLOB_LIMITS| ==> HoldsAt(w, k, BLOB_LIMITS[k], Blobs(input)[k])
    ensures AttestationBuffers(input.attestation, w)
  {
    assert HoldsAt(w, 5, BLOB_LIMITS[5], Blobs(input)[5]) && HoldsAt(w, 6, BLOB_LIMITS[6], Blobs(input)[6]);
    assert HoldsAt(w, 7, BLOB_LIMITS[7], Blobs(input)[7]) && HoldsAt(w, 8, BLOB_LIMITS[8], Blobs(input)[8]);
    assert HoldsAt(w, 9, BLOB_LIMITS[9], Blobs(input)[9]) && HoldsAt(w, 10, BLOB_LIMITS[10], Blobs(input)[10]);
    assert HoldsAt(w, 11, BLOB_LIMITS[11], Blobs(input)[11]) && HoldsAt(w, 12, BLOB_LIMITS[12], Blobs(input)[12]);
    assert HoldsAt(w, 13, BLOB_LIMITS[13], Blobs(input)[13]) && HoldsAt(w, 14, BLOB_LIMITS[14], Blobs(input)[14]);
    assert HoldsAt(w, 15, BLOB_LIMITS[15], Blobs(input)[15]) && HoldsAt(w, 16, BLOB_LIMITS[16], Blobs(input)[16]);
  }

  lemma BuffersNamed(input: NoirInput, w: Witness)
    requires ReadBack(w.blobs, w.blobLengths, Blobs(input), BLOB_LIMITS)
    requires w.blobLengths == Lengths(Blobs(input))
    ensures RequestBuffers(input.request, w) && AttestationBuffers(input.attestation, w)
  {
    forall k | 0 <= k < |BLOB_LIMITS|
      ensures HoldsAt(w, k, BLOB_LIMITS[k], Blobs(input)[k])
    {
      BufferHolds(input, w, k);
    }
    RequestNamed(input, w);
    AttestationNamed(input, w);
  }

  ghost predicate TablesFaithful(input: NoirInput, t: FieldTables, fieldCount: nat, callbackData: seq<byte>)
    requires |input.fields| == |input.plan| <= MAX_FIELDS && input.fields != []
  {
    && WellSized(t)
    && fieldCount == |input.plan|
    && ReadFields(t, fieldCount) == BareFields(input.fields)
    && (Canonical(input.fields) ==> ReadFields(t, fieldCount) == input.fields)
    && ReadPlan(t, fieldCount) == input.plan
    && Encoding(ReadPlan(t, fieldCount)) == callbackData
    && RenderText(ReadFields(t, fieldCount)) == input.request.expectedShape
  }

  ghost predicate PublicsFaithful(input: NoirInput, p: PreparedProof) {
    var w := p.witnessFile;
    && Chunkable(StatementOf(input))
    && p.publicInputs == PublicInputs(StatementOf(input))
    && p.packedPublicInputs == Pack(p.publicInputs)
    && |p.publicInputs| == PREFIX_WORDS + URL_CHUNKS + ENDPOINT_CHUNKS
    && ReadStatement(p.publicInputs) == Fulfilled(StatementOf(input))
    && Unpack(p.packedPublicInputs) == p.publicInputs
    && ReadAsWords(w.prefixInputs + w.urlChunks + w.endpointChunks, p.publicInputs)
    && ScalarsAgree(w.scalars, input, ReadStatement(p.publicInputs))
  }

  method PrepareNoirProofInput(input: NoirInput, keccak: seq<byte> -> Word)
    returns (r: Result<PreparedProof, PrepareError>)
    ensures r.Ok? <==> Preparable(input, keccak)
    ensures r.Ok? ==> Faithful(input, r.value)
  {
    var callbackData := CheckInput(input, keccak);
    if callbackData.Err? {
      return Err(callbackData.error);
    }
    var tables := FillTables(input.fields, input.plan);
    if tables.Err? {
      return Err(tables.error);
    }
    var public := PreparePublicInputs(StatementOf(input));
    if public.Err? {
      return Err(public.error);
    }
    var blobs := FitAll(Blobs(input), BLOB_LIMITS);
    if blobs.Err? {
      return Err(blobs.error);
    }
    var prepared := PreparedProof(
      callbackData.value, public.value.words, public.value.packed,
      Witness(Decimals(public.value.words[..PREFIX_WORDS]), Decimals(public.value.urlChunks),
              Decimals(public.value.endpointChunks), CopyScalars(input),
              |input.plan|, tables.value, Lengths(Blobs(input)), blobs.value));
    PublicsReadBack(input, prepared);
    TablesAreFaithful(input, tables.value);
    BuffersReadBack(blobs.value, Blobs(input), BLOB_LIMITS);
    BuffersNamed(input, prepared.witnessFile);
    r := Ok(prepared);
  }

  lemma PublicsReadBack(input: NoirInput, p: PreparedProof)
    requires Chunkable(StatementOf(input)) && AttestationAgrees(input)
    requires p.publicInputs == PublicInputs(StatementOf(input)) && p.packedPublicInputs == Pack(p.publicInputs)
    requires var s, w := StatementOf(input), p.witnessFile;
      && w.prefixInputs == Decimals(p.publicInputs[..PREFIX_WORDS])
      && w.urlChunks == Decimals(ChunkWords(s.url, URL_CHUNKS))
      && w.endpointChunks == Decimals(ChunkWords(s.endpoint, ENDPOINT_CHUNKS))
      && w.scalars == CopyScalars(input)
    ensures PublicsFaithful(input, p)
  {
    var s, w := StatementOf(input), p.witnessFile;
    ReadsBack(s);
    PackRoundTrip(p.publicInputs);
    ScalarsReadBack(input);
    DecimalPublics(PrefixWords(s), ChunkWords(s.url, URL_CHUNKS), ChunkWords(s.endpoint, ENDPOINT_CHUNKS));
    assert p.publicInputs[..PREFIX_WORDS] == PrefixWords(s);
  }

  lemma TablesAreFaithful(input: NoirInput, t: FieldTables)
    requires |input.fields| == |input.plan| <= MAX_FIELDS && input.fields != []
    requires RenderText(input.fields) == input.request.expectedShape
    requires AllFit(input.fields, input.plan) && Filled(t, input.fields, input.plan)
    ensures TablesFaithful(input, t, |input.plan|, Encoding(input.plan))
  {
    TablesReadBack(t, input.fields, input.plan);
    BareRendersAlike(input.fields);
  }

  predicate ReadBack(buffers: seq<seq<byte>>, lengths: seq<nat>, raw: seq<seq<byte>>, limits: seq<nat>) {
    && |buffers| == |lengths| == |raw| == |limits|
    && forall i :: 0 <= i < |raw| ==> |buffers[i]| == limits[i] && Prefix(buffers[i], lengths[i]) == raw[i]
  }

  lemma BuffersReadBack(buffers: seq<seq<byte>>, raw: seq<seq<byte>>, limits: seq<nat>)
    requires |raw| == |limits| && Within(raw, limits)
    requires Buffered(buffers, raw, limits)
    ensures ReadBack(buffers, Lengths(raw), raw, limits)
  {
    forall i | 0 <= i < |raw|
      ensures |buffers[i]| == limits[i] && Prefix(buffers[i], |raw[i]|) == raw[i]
    {
    }
  }
}
