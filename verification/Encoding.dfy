/** Compact JSON as bytes, the reference the counted lengths are measured against. Bytes are characters
    below 256; object members may be written in any order. */
module Encoding {
  import opened Finite
  import opened Json
  import opened Wire
  import opened Durable
  import opened FileNames
  import Credentials

  // ---------------------------------------------------------------------------
  // Numbers and strings
  // ---------------------------------------------------------------------------

  /** Decimal digits without leading zeros. */
  function Decimal(n: nat): (t: string)
    ensures t != "" && AllDigits(t)
  {
    if n < 10 then [DigitChar(n)] else Decimal(n / 10) + [DigitChar(n % 10)]
  }

  /** The digits read back as the number, start with zero only for zero, and are as many as counted. */
  lemma {:induction false} DecimalIsExact(n: nat)
    ensures DecimalValue(Decimal(n)) == n && (Decimal(n)[0] == '0' <==> n == 0) && |Decimal(n)| == DigitCount(n)
  {
    var t := Decimal(n);
    if n >= 10 {
      DecimalIsExact(n / 10);
      assert t[..|t| - 1] == Decimal(n / 10);
    } else {
      assert t[..0] == "";
    }
  }

  function IntText(i: int): string { if i < 0 then "-" + Decimal(-i) else Decimal(i) }

  lemma IntTextLength(i: int)
    ensures |IntText(i)| == IntLength(i)
  {
    DecimalIsExact(if i < 0 then -i else i);
  }

  function HexChar(d: nat): char
    requires d < 16
  {
    if d < 10 then '0' + d as char else 'a' + (d - 10) as char
  }

  /** A byte of a UTF-8 sequence. */
  function ByteChar(b: nat): char
    requires b < 256
  {
    b as char
  }

  /** A character inside a string: a short escape, a \u escape, itself or its UTF-8 bytes. */
  function CharText(c: char): string {
    var u := c as int;
    if c == '"' then "\\\"" else if c == '\\' then "\\\\"
    else if u == 8 then "\\b" else if u == 9 then "\\t" else if u == 10 then "\\n"
    else if u == 12 then "\\f" else if u == 13 then "\\r"
    else if u < 0x20 then "\\u00" + [HexChar(u / 16), HexChar(u % 16)]
    else if u < 0x80 then [c]
    else if u < 0x800 then [ByteChar(0xC0 + u / 64), ByteChar(0x80 + u % 64)]
    else if u < 0x1_0000 then
      [ByteChar(0xE0 + u / 4096), ByteChar(0x80 + u / 64 % 64), ByteChar(0x80 + u % 64)]
    else
      [ByteChar(0xF0 + u / 262_144), ByteChar(0x80 + u / 4096 % 64), ByteChar(0x80 + u / 64 % 64),
       ByteChar(0x80 + u % 64)]
  }

  function Escaped(s: string): string { if s == "" then "" else CharText(s[0]) + Escaped(s[1..]) }

  lemma {:induction false} EscapedLength(s: string)
    ensures |Escaped(s)| == TextLength(s)
  {
    if s != "" { EscapedLength(s[1..]); }
  }

  function Quoted(s: string): string { "\"" + Escaped(s) + "\"" }

  // ---------------------------------------------------------------------------
  // Values
  // ---------------------------------------------------------------------------

  /** The texts one after the other with commas between them. */
  function Joined(ts: seq<string>): string {
    if ts == [] then "" else if |ts| == 1 then ts[0] else Joined(ts[..|ts| - 1]) + "," + ts[|ts| - 1]
  }

  /** The keys of a map, each once. */
  ghost predicate Enumerates<K(!new)>(ks: seq<K>, keys: set<K>) {
    (forall i, j :: 0 <= i < j < |ks| ==> ks[i] != ks[j]) && (forall k :: k in ks <==> k in keys)
  }

  /** The text is a compact encoding of the value. */
  ghost predicate Writes(v: Value, t: string)
    decreases v, 2
  {
    match v
    case Null => t == "null"
    case Bool(b) => t == if b then "true" else "false"
    case Int(i) => t == IntText(i)
    case Float(x, _) => t == x
    case Str(s) => t == Quoted(s)
    case Array(xs) => exists ts :: ItemsWritten(v, ts) && t == "[" + Joined(ts) + "]"
    case Object(fs) => exists ks, ts :: MembersWritten(v, ks, ts) && t == "{" + Joined(ts) + "}"
  }

  ghost predicate ItemsWritten(v: Value, ts: seq<string>)
    requires v.Array?
    decreases v, 0
  {
    |ts| == |v.items| && forall i :: 0 <= i < |ts| ==> Writes(v.items[i], ts[i])
  }

  ghost predicate MembersWritten(v: Value, ks: seq<string>, ts: seq<string>)
    requires v.Object?
    decreases v, 1
  {
    && Enumerates(ks, v.fields.Keys) && |ts| == |ks|
    && forall i :: 0 <= i < |ks| ==> ks[i] in v.fields && MemberWritten(v, ks[i], ts[i])
  }

  ghost predicate MemberWritten(v: Value, k: string, t: string)
    requires v.Object? && k in v.fields
    decreases v, 0
  {
    var head := Quoted(k) + ":";
    |head| <= |t| && t[..|head|] == head && Writes(v.fields[k], t[|head|..])
  }

  /** Every value can be written. */
  lemma {:induction false} HasText(v: Value) returns (t: string)
    ensures Writes(v, t)
    decreases v, 1
  {
    match v
    case Null => t := "null";
    case Bool(b) => t := if b then "true" else "false";
    case Int(i) => t := IntText(i);
    case Float(x, _) => t := x;
    case Str(s) => t := Quoted(s);
    case Array(xs) => {
      var ts: seq<string> := [];
      for i := 0 to |xs|
        invariant |ts| == i && forall j :: 0 <= j < i ==> Writes(xs[j], ts[j])
      {
        var next := HasText(xs[i]);
        ts := ts + [next];
      }
      t := "[" + Joined(ts) + "]";
      assert ItemsWritten(v, ts);
    }
    case Object(fs) => {
      var ks, ts := HasMembers(v);
      t := "{" + Joined(ts) + "}";
    }
  }

  lemma {:induction false} HasMembers(v: Value) returns (ks: seq<string>, ts: seq<string>)
    requires v.Object?
    ensures MembersWritten(v, ks, ts)
    decreases v, 0
  {
    ks, ts := [], [];
    var rest := v.fields.Keys;
    while rest != {}
      invariant rest <= v.fields.Keys && Enumerates(ks, v.fields.Keys - rest) && |ts| == |ks|
      invariant forall i :: 0 <= i < |ks| ==> ks[i] in v.fields && MemberWritten(v, ks[i], ts[i])
      decreases |rest|
    {
      var k :| k in rest;
      var next := HasText(v.fields[k]);
      var text := Quoted(k) + ":" + next;
      assert text[..|Quoted(k) + ":"|] == Quoted(k) + ":" && text[|Quoted(k) + ":"|..] == next;
      EnumeratesMore(ks, v.fields.Keys - rest, k);
      assert v.fields.Keys - (rest - {k}) == v.fields.Keys - rest + {k};
      ks, ts, rest := ks + [k], ts + [text], rest - {k};
    }
    assert v.fields.Keys - rest == v.fields.Keys;
  }

  lemma EnumeratesMore<K(!new)>(ks: seq<K>, keys: set<K>, k: K)
    requires Enumerates(ks, keys) && k !in keys
    ensures Enumerates(ks + [k], keys + {k})
  {
  }

  function Lengths(ts: seq<string>): nat { if ts == [] then 0 else Lengths(ts[..|ts| - 1]) + |ts[|ts| - 1]| }

  lemma {:induction false} JoinedLength(ts: seq<string>)
    ensures |Joined(ts)| == Lengths(ts) + Separators(|ts|)
  {
    if ts != [] { JoinedLength(ts[..|ts| - 1]); }
  }

  /** However a value is written, its length is the counted one. */
  lemma {:induction false} WrittenLength(v: Value, t: string)
    requires Writes(v, t)
    ensures |t| == ValueLength(v)
    decreases v, 1
  {
    match v
    case Int(i) => IntTextLength(i);
    case Str(s) => EscapedLength(s);
    case Array(xs) => {
      var ts :| ItemsWritten(v, ts) && t == "[" + Joined(ts) + "]";
      JoinedLength(ts);
      forall i | 0 <= i < |xs| ensures |ts[i]| == ValueLength(xs[i]) { WrittenLength(xs[i], ts[i]); }
      ItemsTotal(xs, ts);
    }
    case Object(fs) => {
      var ks, ts :| MembersWritten(v, ks, ts) && t == "{" + Joined(ts) + "}";
      JoinedLength(ts);
      forall i | 0 <= i < |ks|
        ensures ks[i] in fs && |ts[i]| == MemberLength(fs, ks[i])
      {
        MemberTotal(v, ks[i], ts[i]);
      }
      MembersTotal(fs, ks, ts);
    }
    case _ =>
  }

  lemma {:induction false} MemberTotal(v: Value, k: string, t: string)
    requires v.Object? && k in v.fields && MemberWritten(v, k, t)
    ensures |t| == MemberLength(v.fields, k)
    decreases v, 0
  {
    EscapedLength(k);
    WrittenLength(v.fields[k], t[|Quoted(k)| + 1..]);
  }

  lemma {:induction false} ItemsTotal(xs: seq<Value>, ts: seq<string>)
    requires |ts| == |xs| && forall i :: 0 <= i < |xs| ==> |ts[i]| == ValueLength(xs[i])
    ensures Lengths(ts) == ItemsLength(xs)
  {
    if xs != [] { ItemsTotal(xs[..|xs| - 1], ts[..|ts| - 1]); }
  }

  lemma MembersTotal(fs: map<string, Value>, ks: seq<string>, ts: seq<string>)
    requires Enumerates(ks, fs.Keys) && |ts| == |ks|
    requires forall i :: 0 <= i < |ks| ==> ks[i] in fs && |ts[i]| == MemberLength(fs, ks[i])
    ensures Lengths(ts) == Total(FieldLengths(fs)) && |fs| == |ks|
  {
    LengthsTotal(FieldLengths(fs), ks, ts);
    assert FieldLengths(fs).Keys == fs.Keys;
    assert |FieldLengths(fs)| == |fs.Keys|;
  }

  /** A sum taken in any order. */
  lemma {:induction false} LengthsTotal<K(!new)>(m: map<K, nat>, ks: seq<K>, ts: seq<string>)
    requires Enumerates(ks, m.Keys) && |ts| == |ks| && forall i :: 0 <= i < |ks| ==> ks[i] in m && |ts[i]| == m[ks[i]]
    ensures Lengths(ts) == Total(m) && |m| == |ks|
    decreases |ks|
  {
    if ks == [] {
      assert m.Keys == {};
      assert m == map[];
    } else {
      var last := ks[|ks| - 1];
      OneKeyLess(ks, m.Keys);
      TotalSplit(m, last);
      WithoutKey(m, last);
      LengthsTotal(m - {last}, ks[..|ks| - 1], ts[..|ts| - 1]);
    }
  }

  lemma WithoutKey<K, V>(m: map<K, V>, k: K)
    requires k in m
    ensures (m - {k}).Keys == m.Keys - {k} && |m| == |m - {k}| + 1
  {
    assert m.Keys == (m - {k}).Keys + {k};
    assert |m.Keys| == |m| && |(m - {k}).Keys| == |m - {k}|;
  }

  lemma OneKeyLess<K(!new)>(ks: seq<K>, keys: set<K>)
    requires Enumerates(ks, keys) && ks != []
    ensures Enumerates(ks[..|ks| - 1], keys - {ks[|ks| - 1]})
  {
    var rest, last := ks[..|ks| - 1], ks[|ks| - 1];
    forall k
      ensures k in rest <==> k in keys - {last}
    {
      if k in keys && k != last {
        assert k in ks;
        var i :| 0 <= i < |ks| && ks[i] == k;
        assert rest[i] == k;
      }
    }
  }

  // ---------------------------------------------------------------------------
  // Structures
  // ---------------------------------------------------------------------------

  /** An identifier or evidence digest as text. */
  predicate HexText(t: string) { |t| == 64 && forall i :: 0 <= i < |t| ==> LowerHex(t[i]) }

  lemma {:induction false} PlainText(t: string)
    requires forall i :: 0 <= i < |t| ==> ' ' <= t[i] <= '~' && t[i] != '"' && t[i] != '\\'
    ensures TextLength(t) == |t|
  {
    if t != "" { PlainText(t[1..]); }
  }

  /** Sums over maps with three, five and seven keys. */
  lemma Total3<K>(m: map<K, nat>, a: K, b: K, c: K)
    requires m.Keys == {a, b, c}
    requires a != b && a != c && b != c
    ensures Total(m) == m[a] + m[b] + m[c] && |m.Keys| == 3
  {
    TotalSplit(m, a);
    var m1 := m - {a};
    TotalSplit(m1, b);
    var m2 := m1 - {b};
    TotalSplit(m2, c);
    assert m2 - {c} == map[];
  }

  lemma Total5<K>(m: map<K, nat>, a: K, b: K, c: K, d: K, e: K)
    requires m.Keys == {a, b, c, d, e}
    requires a != b && a != c && a != d && a != e && b != c && b != d && b != e && c != d && c != e && d != e
    ensures Total(m) == m[a] + m[b] + m[c] + m[d] + m[e] && |m.Keys| == 5
  {
    TotalSplit(m, a);
    var m1 := m - {a};
    TotalSplit(m1, b);
    var m2 := m1 - {b};
    TotalSplit(m2, c);
    var m3 := m2 - {c};
    TotalSplit(m3, d);
    var m4 := m3 - {d};
    TotalSplit(m4, e);
    assert m4 - {e} == map[];
  }

  lemma Total7<K>(m: map<K, nat>, a: K, b: K, c: K, d: K, e: K, f: K, g: K)
    requires m.Keys == {a, b, c, d, e, f, g}
    requires a != b && a != c && a != d && a != e && a != f && a != g && b != c && b != d && b != e && b != f
    requires b != g && c != d && c != e && c != f && c != g && d != e && d != f && d != g && e != f && e != g
    requires f != g
    ensures Total(m) == m[a] + m[b] + m[c] + m[d] + m[e] + m[f] + m[g] && |m.Keys| == 7
  {
    TotalSplit(m, a);
    TotalSplit(m - {a}, b);
    Total5(m - {a} - {b}, c, d, e, f, g);
    assert m.Keys == (m - {a} - {b}).Keys + {a, b};
  }

  lemma HexLength(t: string)
    requires HexText(t)
    ensures StringLength(t) == 66
  {
    PlainText(t);
  }

  /** The length of an object from its members. */
  lemma ObjectLength(fs: map<string, Value>)
    ensures ValueLength(Object(fs)) == Total(FieldLengths(fs)) + Separators(|fs.Keys|) + 2
    ensures FieldLengths(fs).Keys == fs.Keys
  {
    assert |fs| == |fs.Keys|;
  }

  /** A key of letters, digits and underscores needs no escapes. */
  predicate PlainKey(k: string) { forall i :: 0 <= i < |k| ==> ' ' <= k[i] <= '~' && k[i] != '"' && k[i] != '\\' }

  lemma PlainMember(fs: map<string, Value>, k: string)
    requires k in fs && PlainKey(k)
    ensures MemberLength(fs, k) == |k| + 3 + ValueLength(fs[k])
  {
    PlainText(k);
  }

  lemma Object3(fs: map<string, Value>, a: string, b: string, c: string)
    requires fs.Keys == {a, b, c} && a != b && a != c && b != c && PlainKey(a) && PlainKey(b) && PlainKey(c)
    ensures ValueLength(Object(fs)) ==
            |a| + |b| + |c| + 13 + ValueLength(fs[a]) + ValueLength(fs[b]) + ValueLength(fs[c])
  {
    ObjectLength(fs);
    Total3(FieldLengths(fs), a, b, c);
    PlainMember(fs, a);
    PlainMember(fs, b);
    PlainMember(fs, c);
  }

  lemma Object5(fs: map<string, Value>, a: string, b: string, c: string, d: string, e: string)
    requires fs.Keys == {a, b, c, d, e} && a != b && a != c && a != d && a != e && b != c && b != d && b != e
    requires c != d && c != e && d != e && PlainKey(a) && PlainKey(b) && PlainKey(c) && PlainKey(d) && PlainKey(e)
    ensures ValueLength(Object(fs)) ==
            |a| + |b| + |c| + |d| + |e| + 21
            + ValueLength(fs[a]) + ValueLength(fs[b]) + ValueLength(fs[c]) + ValueLength(fs[d]) + ValueLength(fs[e])
  {
    ObjectLength(fs);
    Total5(FieldLengths(fs), a, b, c, d, e);
    PlainMember(fs, a);
    PlainMember(fs, b);
    PlainMember(fs, c);
    PlainMember(fs, d);
    PlainMember(fs, e);
  }

  lemma Object7(fs: map<string, Value>, a: string, b: string, c: string, d: string, e: string, f: string, g: string)
    requires fs.Keys == {a, b, c, d, e, f, g} && a != b && a != c && a != d && a != e && a != f && a != g && b != c
    requires b != d && b != e && b != f && b != g && c != d && c != e && c != f && c != g && d != e && d != f
    requires d != g && e != f && e != g && f != g
    requires PlainKey(a) && PlainKey(b) && PlainKey(c) && PlainKey(d) && PlainKey(e) && PlainKey(f) && PlainKey(g)
    ensures ValueLength(Object(fs)) ==
            |a| + |b| + |c| + |d| + |e| + |f| + |g| + 29
            + ValueLength(fs[a]) + ValueLength(fs[b]) + ValueLength(fs[c]) + ValueLength(fs[d]) + ValueLength(fs[e])
            + ValueLength(fs[f]) + ValueLength(fs[g])
  {
    ObjectLength(fs);
    Total7(FieldLengths(fs), a, b, c, d, e, f, g);
    PlainMember(fs, a);
    PlainMember(fs, b);
    PlainMember(fs, c);
    PlainMember(fs, d);
    PlainMember(fs, e);
    PlainMember(fs, f);
    PlainMember(fs, g);
  }

  /** A record of a version 1 batch. */
  function RecordV1Value(id: string, receivedAt: int, env: Value): Value {
    Object(map["record_id" := Str(id), "received_at_ms" := Int(receivedAt), "envelope" := env])
  }

  lemma RecordV1IsEncoded(id: string, receivedAt: int, env: Value)
    requires HexText(id)
    ensures ValueLength(RecordV1Value(id, receivedAt, env)) == V1RecordLength(receivedAt, ValueLength(env))
  {
    HexLength(id);
    Object3(RecordV1Value(id, receivedAt, env).fields, "record_id", "received_at_ms", "envelope");
  }

  lemma Shown5<K, V>(a: K, u: V, b: K, v: V, c: K, w: V, d: K, x: V, e: K, y: V)
    requires a != b && a != c && a != d && a != e && b != c && b != d && b != e && c != d && c != e && d != e
    ensures var m := map[a := u, b := v, c := w, d := x, e := y];
            && m.Keys == {a, b, c, d, e} && m[a] == u && m[b] == v && m[c] == w && m[d] == x && m[e] == y
  {
  }

  lemma FiveMembers(a: string, u: Value, b: string, v: Value, c: string, w: Value, d: string, x: Value,
                    e: string, y: Value)
    requires PlainKey(a) && PlainKey(b) && PlainKey(c) && PlainKey(d) && PlainKey(e)
    requires a != b && a != c && a != d && a != e && b != c && b != d && b != e && c != d && c != e && d != e
    ensures ValueLength(Object(map[a := u, b := v, c := w, d := x, e := y])) ==
            |a| + |b| + |c| + |d| + |e| + 21
            + ValueLength(u) + ValueLength(v) + ValueLength(w) + ValueLength(x) + ValueLength(y)
  {
    Shown5(a, u, b, v, c, w, d, x, e, y);
    Object5(map[a := u, b := v, c := w, d := x, e := y], a, b, c, d, e);
  }

  /** The keys of a record of a version 2 batch, by position. */
  predicate RecordV2Keys(ks: seq<string>) {
    ks == ["record_id", "legacy_record_id", "spool_seq", "received_at_ms", "envelope"]
  }

  lemma RecordV2KeysPlain(ks: seq<string>)
    requires RecordV2Keys(ks)
    ensures |ks| == 5 && forall i :: 0 <= i < 5 ==> PlainKey(ks[i])
    ensures |ks[0]| == 9 && |ks[1]| == 16 && |ks[2]| == 9 && |ks[3]| == 14 && |ks[4]| == 8 && ks[0] != ks[2]
  {
    assert ks[0][0] == 'r' && ks[2][0] == 's';
  }

  /** A record of a version 2 batch. */
  function RecordV2Value(ks: seq<string>, id: string, legacy: string, s: nat, receivedAt: int, env: Value): Value
    requires RecordV2Keys(ks)
  {
    Object(map[ks[0] := Str(id), ks[1] := Str(legacy), ks[2] := Int(s), ks[3] := Int(receivedAt), ks[4] := env])
  }

  lemma RecordV2IsEncoded(ks: seq<string>, id: string, legacy: string, s: nat, receivedAt: int, env: Value)
    requires RecordV2Keys(ks) && HexText(id) && HexText(legacy)
    ensures ValueLength(RecordV2Value(ks, id, legacy, s, receivedAt, env)) ==
            V2RecordLength(s, receivedAt, ValueLength(env))
  {
    HexLength(id);
    HexLength(legacy);
    RecordV2KeysPlain(ks);
    FiveMembers(ks[0], Str(id), ks[1], Str(legacy), ks[2], Int(s), ks[3], Int(receivedAt), ks[4], env);
  }

  function ReasonText(r: Reason): string {
    match r
    case RetentionExpired => "retention_expired"
    case IntegrityQuarantine => "integrity_quarantine"
  }

  lemma ReasonPlain(r: Reason)
    ensures PlainKey(ReasonText(r)) && |ReasonText(r)| == if r.RetentionExpired? then 17 else 20
  {
  }

  /** The keys of a gap of a version 2 batch and of a gap file, by position. */
  predicate GapKeys(ks: seq<string>) {
    ks == ["notice_id", "spool_seq", "occurred_at_ms", "reason", "evidence_sha256"]
  }

  lemma GapKeysPlain(ks: seq<string>)
    requires GapKeys(ks)
    ensures |ks| == 5 && forall i :: 0 <= i < 5 ==> PlainKey(ks[i])
    ensures |ks[0]| == 9 && |ks[1]| == 9 && |ks[2]| == 14 && |ks[3]| == 6 && |ks[4]| == 15 && ks[0] != ks[1]
  {
    assert ks[0][0] == 'n' && ks[1][0] == 's';
  }

  function GapValue(ks: seq<string>, id: string, s: nat, occurredAt: int, reason: string, evidence: string): Value
    requires GapKeys(ks)
  {
    Object(map[ks[0] := Str(id), ks[1] := Int(s), ks[2] := Int(occurredAt), ks[3] := Str(reason),
               ks[4] := Str(evidence)])
  }

  lemma GapIsEncoded(ks: seq<string>, n: GapNotice, id: string, reason: string, evidence: string)
    requires GapKeys(ks) && HexText(id) && HexText(evidence) && reason == ReasonText(n.reason)
    ensures ValueLength(GapValue(ks, id, n.spoolSeq, n.occurredAt, reason, evidence)) == GapLength(n)
  {
    ReasonPlain(n.reason);
    GapKeysPlain(ks);
    GapTextLength(ks, n, id, reason, evidence);
  }

  lemma GapTextLength(ks: seq<string>, n: GapNotice, id: string, reason: string, evidence: string)
    requires |ks| == 5 && (forall i :: 0 <= i < 5 ==> PlainKey(ks[i]))
    requires |ks[0]| == 9 && |ks[1]| == 9 && |ks[2]| == 14 && |ks[3]| == 6 && |ks[4]| == 15 && ks[0] != ks[1]
    requires HexText(id) && HexText(evidence) && PlainKey(reason)
    requires |reason| == if n.reason.RetentionExpired? then 17 else 20
    ensures ValueLength(Object(map[ks[0] := Str(id), ks[1] := Int(n.spoolSeq), ks[2] := Int(n.occurredAt),
                                   ks[3] := Str(reason), ks[4] := Str(evidence)])) == GapLength(n)
  {
    HexLength(id);
    HexLength(evidence);
    PlainText(reason);
    FiveMembers(ks[0], Str(id), ks[1], Int(n.spoolSeq), ks[2], Int(n.occurredAt), ks[3], Str(reason),
                ks[4], Str(evidence));
  }

  /** The keys of a pending file, by position. */
  predicate StoredKeys(ks: seq<string>) {
    ks == ["version", "record_id", "stable_record_id", "spool_seq", "admitted_at_ms", "expires_at_ms", "envelope"]
  }

  lemma StoredKeysPlain(ks: seq<string>)
    requires StoredKeys(ks)
    ensures |ks| == 7 && forall i :: 0 <= i < 7 ==> PlainKey(ks[i])
    ensures |ks[0]| == 7 && |ks[1]| == 9 && |ks[2]| == 16 && |ks[3]| == 9
    ensures |ks[4]| == 14 && |ks[5]| == 13 && |ks[6]| == 8
    ensures ks[1] != ks[3]
  {
    assert ks[1][0] == 'r' && ks[3][0] == 's';
  }

  /** The contents of a pending file. */
  function StoredValue(ks: seq<string>, id: string, stable: string, s: nat, admittedAt: int, expiresAt: int,
                       env: Value): Value
    requires StoredKeys(ks)
  {
    Object(map[ks[0] := Int(2), ks[1] := Str(id), ks[2] := Str(stable), ks[3] := Int(s),
               ks[4] := Int(admittedAt), ks[5] := Int(expiresAt), ks[6] := env])
  }

  lemma StoredIsEncoded(ks: seq<string>, id: string, stable: string, s: nat, admittedAt: int, expiresAt: int,
                        env: Value)
    requires StoredKeys(ks) && HexText(id) && HexText(stable)
    ensures ValueLength(StoredValue(ks, id, stable, s, admittedAt, expiresAt, env)) ==
            StoredLength(s, admittedAt, expiresAt, ValueLength(env))
  {
    HexLength(id);
    HexLength(stable);
    StoredKeysPlain(ks);
    SevenMembers(ks[0], Int(2), ks[1], Str(id), ks[2], Str(stable), ks[3], Int(s), ks[4], Int(admittedAt),
                 ks[5], Int(expiresAt), ks[6], env);
  }

  lemma Shown7<K, V>(a: K, t: V, b: K, u: V, c: K, v: V, d: K, w: V, e: K, x: V, f: K, y: V, g: K, z: V)
    requires a != b && a != c && a != d && a != e && a != f && a != g && b != c && b != d && b != e && b != f
    requires b != g && c != d && c != e && c != f && c != g && d != e && d != f && d != g && e != f && e != g
    requires f != g
    ensures var m := map[a := t, b := u, c := v, d := w, e := x, f := y, g := z];
            && m.Keys == {a, b, c, d, e, f, g}
            && m[a] == t && m[b] == u && m[c] == v && m[d] == w && m[e] == x && m[f] == y && m[g] == z
  {
  }

  lemma SevenMembers(a: string, t: Value, b: string, u: Value, c: string, v: Value, d: string, w: Value,
                     e: string, x: Value, f: string, y: Value, g: string, z: Value)
    requires PlainKey(a) && PlainKey(b) && PlainKey(c) && PlainKey(d) && PlainKey(e) && PlainKey(f) && PlainKey(g)
    requires |a| == 7 && |b| == 9 && |c| == 16 && |d| == 9 && |e| == 14 && |f| == 13 && |g| == 8 && b != d
    ensures ValueLength(Object(map[a := t, b := u, c := v, d := w, e := x, f := y, g := z])) ==
            105 + ValueLength(t) + ValueLength(u) + ValueLength(v) + ValueLength(w) + ValueLength(x) + ValueLength(y)
            + ValueLength(z)
  {
    Shown7(a, t, b, u, c, v, d, w, e, x, f, y, g, z);
    Object7(map[a := t, b := u, c := v, d := w, e := x, f := y, g := z], a, b, c, d, e, f, g);
  }

  // ---------------------------------------------------------------------------
  // The credential store, indented
  // ---------------------------------------------------------------------------

  function OptionalText(i: Option<int>): string { if i.Some? then IntText(i.value) else "null" }

  function Line(key: string, value: string): string { "      \"" + key + "\": " + value }

  /** One entry; identifiers and digests are given as their texts. */
  function CredentialText(c: Credentials.Credential, id: string, digest: string, from: string): string {
    "    {\n" + Line("id", "\"" + id + "\"") + ",\n" + Line("label", Quoted(c.name)) + ",\n"
    + Line("secret_digest", "\"" + digest + "\"") + ",\n" + Line("created_at_ms", IntText(c.createdAt)) + ",\n"
    + Line("expires_at_ms", IntText(c.expiresAt)) + ",\n" + Line("valid_until_ms", OptionalText(c.validUntil)) + ",\n"
    + Line("revoked_at_ms", OptionalText(c.revokedAt)) + ",\n"
    + Line("rotation_of", if c.rotationOf.Some? then "\"" + from + "\"" else "null") + "\n    }"
  }

  /** Texts of entries one after the other. */
  function EntriesText(ts: seq<string>): string {
    if ts == [] then "" else if |ts| == 1 then ts[0] else EntriesText(ts[..|ts| - 1]) + ",\n" + ts[|ts| - 1]
  }

  function FileText(ts: seq<string>): string {
    "{\n  \"version\": 1,\n  \"credentials\": ["
    + (if ts == [] then "]" else "\n" + EntriesText(ts) + "\n  ]") + "\n}"
  }

  lemma {:induction false} LabelLength(s: string)
    requires forall i :: 0 <= i < |s| ==> !Credentials.IsControl(s[i])
    ensures |Escaped(s)| == Credentials.EscapedBytes(s)
  {
    if s != "" {
      var rest, last := s[..|s| - 1], s[|s| - 1];
      LabelLength(rest);
      EscapedMore(rest, last);
      assert s == rest + [last];
    }
  }

  lemma {:induction false} EscapedMore(s: string, c: char)
    ensures Escaped(s + [c]) == Escaped(s) + CharText(c)
  {
    if s == "" {
      assert s + [c] == [c] && [c][1..] == "";
    } else {
      EscapedMore(s[1..], c);
      assert (s + [c])[1..] == s[1..] + [c];
    }
  }

  lemma OptionalTextLength(i: Option<int>)
    ensures |OptionalText(i)| == Credentials.OptionalLength(i)
  {
    if i.Some? { IntTextLength(i.value); }
  }

  /** An entry is as long as counted. */
  lemma CredentialIsEncoded(c: Credentials.Credential, id: string, digest: string, from: string)
    requires |id| == 36 && |digest| == 64 && |from| == 36 && Credentials.ValidLabel(c.name)
    ensures |CredentialText(c, id, digest, from)| == Credentials.CredentialLength(c)
  {
    LabelLength(c.name);
    IntTextLength(c.createdAt);
    IntTextLength(c.expiresAt);
    OptionalTextLength(c.validUntil);
    OptionalTextLength(c.revokedAt);
  }

  lemma {:induction false} EntriesTextLength(ts: seq<string>, file: Credentials.Credentials)
    requires |ts| == |file| && forall i :: 0 <= i < |ts| ==> |ts[i]| == Credentials.CredentialLength(file[i])
    ensures |EntriesText(ts)| == Credentials.EntriesLength(file) + (if ts == [] then 0 else 2 * (|ts| - 1))
  {
    if ts != [] { EntriesTextLength(ts[..|ts| - 1], file[..|file| - 1]); }
  }

  /** The store is as long as counted. */
  lemma StoreIsEncoded(ts: seq<string>, file: Credentials.Credentials)
    requires |ts| == |file| && forall i :: 0 <= i < |ts| ==> |ts[i]| == Credentials.CredentialLength(file[i])
    ensures |FileText(ts)| == Credentials.FileLength(file)
  {
    EntriesTextLength(ts, file);
  }
}
