/** Receiver envelopes, record identities, gap notices, batches and acknowledgements. */
module Wire {
  import opened Finite
  import opened Json

  const MIN_TIMESTAMP_MS: int := 946_684_800_000
  const MAX_EVENT_CLOCK_LEAD_MS: int := 300_000

  // ---------------------------------------------------------------------------
  // Envelopes
  // ---------------------------------------------------------------------------

  datatype Envelope = Envelope(
    version: nat, vin: string, txid: string, txType: string,
    receivedAt: int, timestamp: int, payload: Value,
    deviceClientVersion: Option<string>, firmwareVersion: Option<string>)

  predicate VinChar(c: char) {
    '0' <= c <= '9' || ('A' <= c <= 'Z' && c != 'I' && c != 'O' && c != 'Q')
  }

  predicate VisibleAscii(s: string, low: nat, high: nat) {
    low <= |s| <= high && forall i :: 0 <= i < |s| ==> '!' <= s[i] <= '~'
  }

  /** Letters and digits only, in lower case. */
  function NormalizedType(s: string): string {
    if s == "" then ""
    else
      var c := s[0];
      var rest := NormalizedType(s[1..]);
      if 'A' <= c <= 'Z' then [c + 32 as char] + rest
      else if 'a' <= c <= 'z' || '0' <= c <= '9' then [c] + rest
      else rest
  }

  const KNOWN_TYPES: set<string> := {"v", "data", "vehicledata", "connectivity", "alerts", "errors"}

  /** What `validate` accepts. */
  predicate ValidEnvelope(e: Envelope) {
    && e.version == 1
    && |e.vin| == 17 && (forall i :: 0 <= i < 17 ==> VinChar(e.vin[i]))
    && VisibleAscii(e.txid, 1, 128)
    && VisibleAscii(e.txType, 1, 64) && NormalizedType(e.txType) in KNOWN_TYPES
    && InI64(e.receivedAt) && InI64(e.timestamp)
    && MIN_TIMESTAMP_MS <= e.receivedAt && MIN_TIMESTAMP_MS <= e.timestamp
    && e.timestamp <= SaturatingAddI64(e.receivedAt, MAX_EVENT_CLOCK_LEAD_MS)
    && e.payload.Object?
    && (e.deviceClientVersion.Some? ==> VisibleAscii(e.deviceClientVersion.value, 1, 64))
    && (e.firmwareVersion.Some? ==> VisibleAscii(e.firmwareVersion.value, 1, 64))
  }

  /** The characters a vehicle identification number is written with: no I, O and Q. */
  const VIN_ALPHABET: set<char> :=
    {'0', '1', '2', '3', '4', '5', '6', '7', '8', '9', 'A', 'B', 'C', 'D', 'E', 'F', 'G', 'H', 'J', 'K', 'L', 'M',
     'N', 'P', 'R', 'S', 'T', 'U', 'V', 'W', 'X', 'Y', 'Z'}

  /** What of a valid envelope may be replaced by what, field by field. */
  lemma VinDecides(e: Envelope, vin: string)
    requires ValidEnvelope(e)
    ensures ValidEnvelope(e.(vin := vin)) <==> |vin| == 17 && forall c :: c in vin ==> c in VIN_ALPHABET
  {
    forall c: char ensures VinChar(c) <==> c in VIN_ALPHABET { InAlphabet(c); }
    assert (forall c :: c in vin ==> VinChar(c)) <==> forall i :: 0 <= i < |vin| ==> VinChar(vin[i]);
  }

  lemma InAlphabet(c: char)
    ensures VinChar(c) <==> c in VIN_ALPHABET
  {
  }

  lemma TimesDecide(e: Envelope, receivedAt: int, timestamp: int)
    requires ValidEnvelope(e) && InI64(receivedAt) && InI64(timestamp)
    ensures ValidEnvelope(e.(receivedAt := receivedAt, timestamp := timestamp)) <==>
            946_684_800_000 <= receivedAt && 946_684_800_000 <= timestamp <= receivedAt + 300_000
  {
  }

  /** Every character is a visible one of ASCII. */
  predicate Visible(s: string) { forall c :: c in s ==> 0x21 <= c as int <= 0x7E }

  lemma TextsDecide(e: Envelope, txid: string, device: Option<string>, firmware: Option<string>, payload: Value)
    requires ValidEnvelope(e)
    ensures ValidEnvelope(e.(txid := txid)) <==> 1 <= |txid| <= 128 && Visible(txid)
    ensures ValidEnvelope(e.(deviceClientVersion := device)) <==>
            device.None? || (1 <= |device.value| <= 64 && Visible(device.value))
    ensures ValidEnvelope(e.(firmwareVersion := firmware)) <==>
            firmware.None? || (1 <= |firmware.value| <= 64 && Visible(firmware.value))
    ensures ValidEnvelope(e.(payload := payload)) <==> payload.Object?
    ensures forall n: nat :: ValidEnvelope(e.(version := n)) <==> n == 1
  {
    VisibleMeans(txid);
    if device.Some? { VisibleMeans(device.value); }
    if firmware.Some? { VisibleMeans(firmware.value); }
  }

  lemma VisibleMeans(s: string)
    ensures Visible(s) <==> forall i :: 0 <= i < |s| ==> '!' <= s[i] <= '~'
  {
    if Visible(s) { forall i | 0 <= i < |s| ensures '!' <= s[i] <= '~' { assert s[i] in s; } }
  }

  predicate Alphanumeric(c: char) { '0' <= c <= '9' || 'A' <= c <= 'Z' || 'a' <= c <= 'z' }

  /** The letters and digits of the text spell the word, whatever their case. */
  predicate Spells(t: string, word: string) {
    if t == "" then word == ""
    else if !Alphanumeric(t[0]) then Spells(t[1..], word)
    else
      && word != "" && Spells(t[1..], word[1..])
      && (t[0] == word[0] || ('A' <= t[0] <= 'Z' && word[0] as int == t[0] as int + 32))
      && !('A' <= word[0] <= 'Z')
  }

  lemma {:induction false} SpellsNormalized(t: string, word: string)
    ensures Spells(t, word) <==> NormalizedType(t) == word
  {
    if t != "" {
      SpellsNormalized(t[1..], if Alphanumeric(t[0]) && word != "" then word[1..] else word);
      if Alphanumeric(t[0]) && word != "" { assert word == [word[0]] + word[1..]; }
    }
  }

  lemma SpellsSome(t: string, words: set<string>)
    ensures NormalizedType(t) in words <==> exists word :: word in words && Spells(t, word)
  {
    SpellsNormalized(t, NormalizedType(t));
    forall word | Spells(t, word) ensures NormalizedType(t) == word { SpellsNormalized(t, word); }
  }

  /** A transaction type is any visible spelling of one of the known words. */
  lemma TypeDecides(e: Envelope, t: string, words: set<string>)
    requires ValidEnvelope(e) && words == {"v", "data", "vehicledata", "connectivity", "alerts", "errors"}
    ensures ValidEnvelope(e.(txType := t)) <==>
            1 <= |t| <= 64 && Visible(t) && exists word :: word in words && Spells(t, word)
  {
    VisibleMeans(t);
    SpellsSome(t, words);
  }

  /** Optional labels are written only when present. */
  function Optional(key: string, text: Option<string>): map<string, Value> {
    if text.Some? then map[key := Str(text.value)] else map[]
  }

  /** The envelope as the JSON object it serializes to. */
  function ToValue(e: Envelope): Value {
    Object(
      map["version" := Int(e.version), "vin" := Str(e.vin), "txid" := Str(e.txid), "tx_type" := Str(e.txType),
          "received_at_ms" := Int(e.receivedAt), "timestamp_ms" := Int(e.timestamp), "payload" := e.payload]
      + Optional("device_client_version", e.deviceClientVersion) + Optional("firmware_version", e.firmwareVersion))
  }

  /** The identity object of `stable_record_id`: no arrival time, identity version 2. */
  function StableValue(e: Envelope): Value {
    Object(
      map["version" := Int(2), "vin" := Str(e.vin), "txid" := Str(e.txid), "tx_type" := Str(e.txType),
          "timestamp_ms" := Int(e.timestamp), "payload" := e.payload]
      + Optional("device_client_version", e.deviceClientVersion) + Optional("firmware_version", e.firmwareVersion))
  }

  function TextAt(v: Value, key: string): Option<string> {
    if v.Object? && key in v.fields && v.fields[key].Str? then Some(v.fields[key].s) else None
  }

  function NumberAt(v: Value, key: string): Option<int> {
    if v.Object? && key in v.fields && v.fields[key].Int? then Some(v.fields[key].i) else None
  }

  function ValueAt(v: Value, key: string): Option<Value> {
    if v.Object? && key in v.fields then Some(v.fields[key]) else None
  }

  lemma KeysDiffer()
    ensures "version" != "tx_type" && "version" != "payload" && "tx_type" != "payload"
  {
    assert "version"[0] == 'v' && "tx_type"[0] == 't' && "payload"[0] == 'p';
  }

  lemma NumbersOf(e: Envelope)
    ensures NumberAt(ToValue(e), "version") == Some(e.version)
    ensures NumberAt(ToValue(e), "received_at_ms") == Some(e.receivedAt)
    ensures NumberAt(ToValue(e), "timestamp_ms") == Some(e.timestamp)
    ensures ValueAt(ToValue(e), "payload") == Some(e.payload)
  {
    KeysDiffer();
  }

  lemma TextsOf(e: Envelope)
    ensures TextAt(ToValue(e), "vin") == Some(e.vin) && TextAt(ToValue(e), "txid") == Some(e.txid)
    ensures TextAt(ToValue(e), "tx_type") == Some(e.txType)
  {
    KeysDiffer();
  }

  lemma LabelsOf(e: Envelope)
    ensures TextAt(ToValue(e), "device_client_version") == e.deviceClientVersion
    ensures TextAt(ToValue(e), "firmware_version") == e.firmwareVersion
  {
  }

  lemma StableFieldsOf(e: Envelope)
    ensures NumberAt(StableValue(e), "timestamp_ms") == Some(e.timestamp)
    ensures ValueAt(StableValue(e), "payload") == Some(e.payload)
    ensures TextAt(StableValue(e), "vin") == Some(e.vin) && TextAt(StableValue(e), "txid") == Some(e.txid)
    ensures TextAt(StableValue(e), "tx_type") == Some(e.txType)
  {
    KeysDiffer();
  }

  lemma StableLabelsOf(e: Envelope)
    ensures TextAt(StableValue(e), "device_client_version") == e.deviceClientVersion
    ensures TextAt(StableValue(e), "firmware_version") == e.firmwareVersion
  {
  }

  // ---------------------------------------------------------------------------
  // Identities: a digest is an injective constructor over what was hashed
  // ---------------------------------------------------------------------------

  datatype Reason = RetentionExpired | IntegrityQuarantine

  datatype Evidence = Evidence(spoolSeq: nat, identity: RecordId, reason: Reason)

  datatype RecordId =
    | LegacyDigest(canonical: Value)
    | StableDigest(identity: Value)
    | NoticeDigest(spoolSeq: nat, reason: Reason, evidence: Evidence)

  /** The envelope with the numbers of its payload as canonical JSON writes them; no other field holds
      a number with more than one spelling. */
  function Plain(e: Envelope): Envelope { e.(payload := Canon(e.payload)) }

  /** A stand-in for the order of the digits of identifiers. */
  type Rank = RecordId -> int

  ghost predicate Injective(rank: Rank) { forall a, b :: rank(a) == rank(b) ==> a == b }

  function LegacyId(e: Envelope): RecordId { LegacyDigest(ToValue(Plain(e))) }

  function StableId(e: Envelope): RecordId { StableDigest(StableValue(Plain(e))) }

  /** Two envelopes that agree on everything but the receiver's arrival time and the spelling of
      numbers in the payload. */
  ghost predicate SameEvent(a: Envelope, b: Envelope) {
    && a.version == b.version && a.vin == b.vin && a.txid == b.txid && a.txType == b.txType
    && a.timestamp == b.timestamp && Alike(a.payload, b.payload)
    && a.deviceClientVersion == b.deviceClientVersion && a.firmwareVersion == b.firmwareVersion
  }

  lemma SamePlain(a: Envelope, b: Envelope)
    ensures SameEvent(a, b) <==> Plain(a).(receivedAt := 0) == Plain(b).(receivedAt := 0)
    ensures SameEvent(a, b) && a.receivedAt == b.receivedAt <==> Plain(a) == Plain(b)
  {
    CanonIsAlike(a.payload, b.payload);
  }

  lemma SameObject(a: Envelope, b: Envelope)
    ensures ToValue(a) == ToValue(b) <==> a == b
  {
    if ToValue(a) == ToValue(b) {
      NumbersOf(a);
      NumbersOf(b);
      TextsOf(a);
      TextsOf(b);
      LabelsOf(a);
      LabelsOf(b);
    }
  }

  lemma SameStableObject(a: Envelope, b: Envelope)
    requires a.version == b.version
    ensures StableValue(a) == StableValue(b) <==> a.(receivedAt := 0) == b.(receivedAt := 0)
  {
    if StableValue(a) == StableValue(b) {
      StableFieldsOf(a);
      StableFieldsOf(b);
      StableLabelsOf(a);
      StableLabelsOf(b);
    }
    if a.(receivedAt := 0) == b.(receivedAt := 0) {
      assert a == b.(receivedAt := a.receivedAt);
    }
  }

  /** The legacy identity separates two envelopes exactly if they differ in more than the spelling of
      numbers. */
  lemma LegacyIdIsExact(a: Envelope, b: Envelope)
    ensures LegacyId(a) == LegacyId(b) <==> SameEvent(a, b) && a.receivedAt == b.receivedAt
  {
    SameObject(Plain(a), Plain(b));
    SamePlain(a, b);
  }

  /** Valid envelopes share the stable identity exactly when they differ at most in arrival time and in
      the spelling of numbers. */
  lemma StableIdIsExact(a: Envelope, b: Envelope)
    requires ValidEnvelope(a) && ValidEnvelope(b)
    ensures StableId(a) == StableId(b) <==> SameEvent(a, b)
  {
    SameStableObject(Plain(a), Plain(b));
    SamePlain(a, b);
  }

  /** Reordering the members of the incoming document changes neither identity, whatever decoder reads
      the envelope from the value of the document. */
  lemma IdentityIgnoresKeyOrder(a: Raw, b: Raw, decode: Value -> Option<Envelope>)
    requires Unique(a) && Unique(b) && Tokens(a) && Tokens(b) && Reordered(a, b)
    ensures decode(Meaning(a)).Some? <==> decode(Meaning(b)).Some?
    ensures decode(Meaning(a)).Some? ==>
              && LegacyId(decode(Meaning(a)).value) == LegacyId(decode(Meaning(b)).value)
              && StableId(decode(Meaning(a)).value) == StableId(decode(Meaning(b)).value)
  {
    SameMeaningIsReordering(a, b);
  }

  // ---------------------------------------------------------------------------
  // Gap notices
  // ---------------------------------------------------------------------------

  datatype GapNotice = GapNotice(noticeId: RecordId, spoolSeq: nat, occurredAt: int, reason: Reason, evidence: Evidence)

  /** `gap_notice_for_identity` */
  function NoticeFor(spoolSeq: nat, identity: RecordId, occurredAt: int, reason: Reason): GapNotice {
    var evidence := Evidence(spoolSeq, identity, reason);
    GapNotice(NoticeDigest(spoolSeq, reason, evidence), spoolSeq, occurredAt, reason, evidence)
  }

  /** `valid_gap_notice`: the identifier is the digest of sequence, reason and evidence. */
  predicate ValidNotice(n: GapNotice) {
    0 < n.spoolSeq && n.noticeId == NoticeDigest(n.spoolSeq, n.reason, n.evidence)
  }

  // ---------------------------------------------------------------------------
  // Batches and acknowledgements
  // ---------------------------------------------------------------------------

  datatype ItemKey = ItemKey(spoolSeq: nat, isRecord: bool, id: RecordId)

  /** A 64-digit batch identifier: a digest of version 1 or 2, or any other text a Hub may send. */
  datatype BatchId =
    | BatchV1Digest(ids: seq<RecordId>)
    | BatchV2Digest(items: seq<ItemKey>)
    | OtherText(text: string)

  predicate LowerHex(c: char) { '0' <= c <= '9' || 'a' <= c <= 'f' }

  predicate ValidDigest(b: BatchId) {
    b.OtherText? ==> |b.text| == 64 && forall i :: 0 <= i < 64 ==> LowerHex(b.text[i])
  }

  datatype RecordV1 = RecordV1(recordId: RecordId, receivedAt: int, env: Envelope)

  datatype BatchV1 = BatchV1(batchId: BatchId, records: seq<RecordV1>)

  datatype RecordV2 = RecordV2(recordId: RecordId, legacyId: RecordId, spoolSeq: nat, receivedAt: int, env: Envelope)

  datatype BatchV2 = BatchV2(batchId: BatchId, records: seq<RecordV2>, gaps: seq<GapNotice>)

  datatype AckV1 = AckV1(version: nat, batchId: BatchId, recordIds: seq<RecordId>)

  datatype AckV2 = AckV2(version: nat, batchId: BatchId, recordIds: seq<RecordId>, gapIds: seq<RecordId>)

  datatype AckResultV1 = AckResultV1(recordIds: seq<RecordId>)

  datatype AckResultV2 = AckResultV2(recordIds: seq<RecordId>, gapIds: seq<RecordId>)

  predicate Distinct<T(==)>(xs: seq<T>) {
    forall i, j :: 0 <= i < j < |xs| ==> xs[i] != xs[j]
  }

  function Members<T>(xs: seq<T>): set<T> { set x | x in xs }

  /** `same_record_ids`: same length and same set. */
  predicate SameIds(a: seq<RecordId>, b: seq<RecordId>) {
    |a| == |b| && Members(a) == Members(b)
  }

  // ---------------------------------------------------------------------------
  // Encoded lengths: the fixed punctuation and 64-digit identifiers of each structure plus its
  // numbers and its envelope
  // ---------------------------------------------------------------------------

  ghost function EnvelopeLength(e: Envelope): nat { ValueLength(ToValue(e)) }

  function V1RecordLength(receivedAt: int, envelope: nat): nat { 110 + IntLength(receivedAt) + envelope }

  function V2RecordLength(spoolSeq: nat, receivedAt: int, envelope: nat): nat {
    209 + DigitCount(spoolSeq) + IntLength(receivedAt) + envelope
  }

  function GapLength(n: GapNotice): nat {
    208 + DigitCount(n.spoolSeq) + IntLength(n.occurredAt) + (if n.reason.RetentionExpired? then 17 else 20)
  }

  ghost function MemberLength(fs: map<string, Value>, k: string): nat
    requires k in fs
  {
    StringLength(k) + 1 + ValueLength(fs[k])
  }

  /** An object is at least as long as any three of its members. */
  lemma ObjectAtLeast(fs: map<string, Value>, a: string, b: string, c: string)
    requires a in fs && b in fs && c in fs && a != b && b != c && a != c
    ensures MemberLength(fs, a) + MemberLength(fs, b) + MemberLength(fs, c) <= ValueLength(Object(fs))
  {
    var m := map k | k in fs :: StringLength(k) + 1 + ValueLength(fs[k]);
    TotalSplit(m, a);
    TotalSplit(m - {a}, b);
    TotalSplit(m - {a} - {b}, c);
  }

  lemma MemberAtLeast(fs: map<string, Value>, k: string)
    requires k in fs
    ensures |k| + 3 <= MemberLength(fs, k)
    ensures fs[k].Str? ==> |k| + |fs[k].s| + 5 <= MemberLength(fs, k)
  {
    TextAtLeast(k);
    if fs[k].Str? { TextAtLeast(fs[k].s); }
  }

  lemma MembersOf(e: Envelope)
    ensures "vin" in ToValue(e).fields && "received_at_ms" in ToValue(e).fields && "timestamp_ms" in ToValue(e).fields
    ensures ToValue(e).fields["vin"] == Str(e.vin)
  {
    NumbersOf(e);
    TextsOf(e);
  }

  lemma EnvelopeIsLong(e: Envelope)
    requires ValidEnvelope(e)
    ensures 45 <= EnvelopeLength(e)
  {
    MembersOf(e);
    LongFields(ToValue(e).fields, e.vin);
  }

  lemma LongFields(fs: map<string, Value>, vin: string)
    requires "vin" in fs && "received_at_ms" in fs && "timestamp_ms" in fs && fs["vin"] == Str(vin) && |vin| == 17
    ensures 45 <= ValueLength(Object(fs))
  {
    ObjectAtLeast(fs, "vin", "received_at_ms", "timestamp_ms");
    MemberAtLeast(fs, "vin");
    MemberAtLeast(fs, "received_at_ms");
    MemberAtLeast(fs, "timestamp_ms");
  }

  lemma {:induction false} TextAtLeast(s: string)
    ensures |s| <= TextLength(s)
  {
    if s != "" { TextAtLeast(s[1..]); }
  }

  lemma I64Digits(i: int)
    requires InI64(i)
    ensures IntLength(i) <= 21
  {
    U64Digits(if i < 0 then -i else i);
  }

  /** A gap notice never encodes longer than the record it stands for, whatever its time and reason. */
  lemma GapFitsWhereRecordFits(n: GapNotice, e: Envelope, receivedAt: int)
    requires ValidEnvelope(e) && InI64(n.occurredAt)
    ensures GapLength(n) <= V2RecordLength(n.spoolSeq, receivedAt, EnvelopeLength(e))
  {
    EnvelopeIsLong(e);
    I64Digits(n.occurredAt);
  }
}
