/** JSON input as text order presents it, JSON values, and the fold from one to the other that
    refuses repeated object keys. */
module Json {
  import opened Finite

  /** What a number is once its spelling is normalised: 1 and 1.0 are both whole. */
  datatype Number = Whole(i: int) | Fraction(text: string)

  /** A JSON value; objects are maps, so key order is not part of a value. A floating number keeps the
      text it serialises to beside the number canonical JSON writes for it. */
  datatype Value =
    | Null
    | Bool(b: bool)
    | Int(i: int)
    | Float(text: string, number: Number)
    | Str(s: string)
    | Array(items: seq<Value>)
    | Object(fields: map<string, Value>)

  /** A JSON document as the reader meets it: object entries in text order, repeats included. */
  datatype Raw =
    | RawScalar(value: Value)
    | RawArray(elements: seq<Raw>)
    | RawObject(entries: seq<Member>)

  datatype Member = Member(key: string, value: Raw)

  /** A scalar token never is an array or an object. */
  ghost predicate Tokens(raw: Raw) {
    match raw
    case RawScalar(v) => !v.Array? && !v.Object?
    case RawArray(es) => forall i :: 0 <= i < |es| ==> Tokens(es[i])
    case RawObject(ms) => forall i :: 0 <= i < |ms| ==> Tokens(ms[i].value)
  }

  /** No object at any depth has two members with one key. */
  ghost predicate Unique(raw: Raw) {
    match raw
    case RawScalar(_) => true
    case RawArray(es) => forall i :: 0 <= i < |es| ==> Unique(es[i])
    case RawObject(ms) =>
      && (forall i, j :: 0 <= i < j < |ms| ==> ms[i].key != ms[j].key)
      && (forall i :: 0 <= i < |ms| ==> Unique(ms[i].value))
  }

  /** The value a document denotes. */
  ghost function Meaning(raw: Raw): Value
    decreases raw
  {
    match raw
    case RawScalar(v) => v
    case RawArray(es) => Array(seq(|es|, i requires 0 <= i < |es| => Meaning(es[i])))
    case RawObject(ms) => Object(Fields(ms))
  }

  ghost function Fields(ms: seq<Member>): map<string, Value>
    decreases ms
  {
    if ms == [] then map[]
    else
      var last := ms[|ms| - 1];
      Fields(ms[..|ms| - 1])[last.key := Meaning(last.value)]
  }

  /** The visitor over one value: it answers None exactly for input with a repeated key somewhere. */
  method Visit(raw: Raw) returns (r: Option<Value>)
    ensures r.Some? <==> Unique(raw)
    ensures r.Some? ==> r.value == Meaning(raw)
    decreases raw
  {
    match raw
    case RawScalar(v) => r := Some(v);
    case RawArray(es) => r := VisitArray(raw, es);
    case RawObject(ms) => r := VisitObject(raw, ms);
  }

  method VisitArray(ghost whole: Raw, es: seq<Raw>) returns (r: Option<Value>)
    requires whole == RawArray(es)
    ensures r.Some? <==> Unique(whole)
    ensures r.Some? ==> r.value == Meaning(whole)
    decreases whole, 0
  {
    var values: seq<Value> := [];
    for n := 0 to |es|
      invariant |values| == n
      invariant forall i :: 0 <= i < n ==> Unique(es[i]) && values[i] == Meaning(es[i])
    {
      var next := Visit(es[n]);
      if next.None? { return None; }
      values := values + [next.value];
    }
    r := Some(Array(values));
    assert values == seq(|es|, i requires 0 <= i < |es| => Meaning(es[i]));
  }

  method VisitObject(ghost whole: Raw, ms: seq<Member>) returns (r: Option<Value>)
    requires whole == RawObject(ms)
    ensures r.Some? <==> Unique(whole)
    ensures r.Some? ==> r.value == Meaning(whole)
    decreases whole, 0
  {
    var seen: set<string> := {};
    var values: map<string, Value> := map[];
    for n := 0 to |ms|
      invariant forall k :: k in seen <==> exists i :: 0 <= i < n && ms[i].key == k
      invariant values == Fields(ms[..n])
      invariant forall i, j :: 0 <= i < j < n ==> ms[i].key != ms[j].key
      invariant forall i :: 0 <= i < n ==> Unique(ms[i].value)
    {
      if ms[n].key in seen { return None; }
      seen := seen + {ms[n].key};
      var next := Visit(ms[n].value);
      if next.None? { return None; }
      values := values[ms[n].key := next.value];
      assert ms[..n + 1][..n] == ms[..n];
    }
    assert ms[..|ms|] == ms;
    r := Some(Object(values));
  }

  /** The document stands for the value: token by token, element by element in order, member by member. */
  ghost predicate Denotes(raw: Raw, v: Value)
    decreases raw
  {
    match raw
    case RawScalar(x) => v == x
    case RawArray(es) =>
      v.Array? && |v.items| == |es| && forall i :: 0 <= i < |es| ==> Denotes(es[i], v.items[i])
    case RawObject(ms) =>
      && v.Object? && (forall k :: k in v.fields ==> exists i :: 0 <= i < |ms| && ms[i].key == k)
      && forall i :: 0 <= i < |ms| ==> ms[i].key in v.fields && Denotes(ms[i].value, v.fields[ms[i].key])
  }

  /** An accepted document stands for exactly one value, the one the fold returns. */
  lemma {:induction false} MeaningIsDenoted(raw: Raw, v: Value)
    requires Unique(raw)
    ensures Meaning(raw) == v <==> Denotes(raw, v)
    decreases raw
  {
    match raw
    case RawScalar(_) =>
    case RawArray(es) => if v.Array? { ItemsDenoted(raw, v); }
    case RawObject(ms) => if v.Object? { FieldsDenoted(raw, v); }
  }

  lemma {:induction false} ItemsDenoted(raw: Raw, v: Value)
    requires Unique(raw) && raw.RawArray? && v.Array?
    ensures Meaning(raw) == v <==> Denotes(raw, v)
    decreases raw, 0
  {
    var es, xs, ys := raw.elements, Meaning(raw).items, v.items;
    assert |xs| == |es|;
    if |ys| == |es| {
      forall i | 0 <= i < |es|
        ensures xs[i] == ys[i] <==> Denotes(es[i], ys[i])
      {
        MeaningIsDenoted(es[i], ys[i]);
      }
      assert xs == ys <==> forall i :: 0 <= i < |es| ==> xs[i] == ys[i];
    }
  }

  lemma {:induction false} FieldsDenoted(raw: Raw, v: Value)
    requires Unique(raw) && raw.RawObject? && v.Object?
    ensures Meaning(raw) == v <==> Denotes(raw, v)
    decreases raw, 0
  {
    var ms, fs := raw.entries, v.fields;
    FieldsOf(ms);
    forall i | 0 <= i < |ms| && ms[i].key in fs
      ensures Meaning(ms[i].value) == fs[ms[i].key] <==> Denotes(ms[i].value, fs[ms[i].key])
    {
      MeaningIsDenoted(ms[i].value, fs[ms[i].key]);
    }
    if Denotes(raw, v) { assert Fields(ms).Keys == fs.Keys; }
    assert Fields(ms) == fs <==> Fields(ms).Keys == fs.Keys && forall k :: k in fs ==> Fields(ms)[k] == fs[k];
  }

  /** Two documents that differ only in the order of object members, at any depth. */
  ghost predicate Reordered(a: Raw, b: Raw)
    decreases a
  {
    match a
    case RawScalar(v) => a == b
    case RawArray(es) =>
      b.RawArray? && |es| == |b.elements| && forall i :: 0 <= i < |es| ==> Reordered(es[i], b.elements[i])
    case RawObject(ms) =>
      && b.RawObject? && KeysWithin(ms, b.entries) && KeysWithin(b.entries, ms)
      && forall i, j :: 0 <= i < |ms| && 0 <= j < |b.entries| && ms[i].key == b.entries[j].key ==>
           Reordered(ms[i].value, b.entries[j].value)
  }

  ghost predicate KeysWithin(ns: seq<Member>, ms: seq<Member>) {
    forall j :: 0 <= j < |ns| ==> exists i :: 0 <= i < |ms| && ms[i].key == ns[j].key
  }

  /** Documents without repeats denote the same value exactly when they are reorderings. */
  lemma {:induction false} SameMeaningIsReordering(a: Raw, b: Raw)
    requires Unique(a) && Unique(b) && Tokens(a) && Tokens(b)
    ensures Meaning(a) == Meaning(b) <==> Reordered(a, b)
    decreases a
  {
    match a
    case RawScalar(v) =>
    case RawArray(es) =>
      if b.RawArray? && |es| == |b.elements| {
        var xs, ys := Meaning(a).items, Meaning(b).items;
        forall i | 0 <= i < |es|
          ensures Meaning(es[i]) == xs[i] && Meaning(b.elements[i]) == ys[i]
          ensures xs[i] == ys[i] <==> Reordered(es[i], b.elements[i])
        {
          SameMeaningIsReordering(es[i], b.elements[i]);
        }
        assert xs == ys <==> forall i :: 0 <= i < |es| ==> xs[i] == ys[i];
      } else if b.RawArray? {
        assert |Meaning(a).items| == |es| && |Meaning(b).items| == |b.elements|;
      }
    case RawObject(ms) =>
      if b.RawObject? { SameMeaningObjects(a, b); }
  }

  lemma {:induction false} SameMeaningObjects(a: Raw, b: Raw)
    requires Unique(a) && Unique(b) && Tokens(a) && Tokens(b) && a.RawObject? && b.RawObject?
    ensures Meaning(a) == Meaning(b) <==> Reordered(a, b)
    decreases a, 0
  {
    var ms, ns := a.entries, b.entries;
    forall i, j | 0 <= i < |ms| && 0 <= j < |ns|
      ensures Meaning(ms[i].value) == Meaning(ns[j].value) <==> Reordered(ms[i].value, ns[j].value)
    {
      SameMeaningIsReordering(ms[i].value, ns[j].value);
    }
    SameFields(ms, ns);
  }

  ghost predicate DistinctKeys(ms: seq<Member>) {
    forall i, j :: 0 <= i < j < |ms| ==> ms[i].key != ms[j].key
  }

  lemma SameFields(ms: seq<Member>, ns: seq<Member>)
    requires DistinctKeys(ms) && DistinctKeys(ns)
    ensures Fields(ms) == Fields(ns) <==>
            && KeysWithin(ms, ns) && KeysWithin(ns, ms)
            && forall i, j :: 0 <= i < |ms| && 0 <= j < |ns| && ms[i].key == ns[j].key ==>
                 Meaning(ms[i].value) == Meaning(ns[j].value)
  {
    FieldsOf(ms);
    FieldsOf(ns);
    KeysOfFields(ms, ns);
    KeysOfFields(ns, ms);
    var f, g := Fields(ms), Fields(ns);
    if f.Keys == g.Keys {
      assert f == g <==> forall k :: k in f ==> f[k] == g[k];
    }
  }

  lemma KeysOfFields(ms: seq<Member>, ns: seq<Member>)
    requires DistinctKeys(ms) && DistinctKeys(ns)
    ensures Fields(ms).Keys <= Fields(ns).Keys <==> KeysWithin(ms, ns)
  {
    FieldsOf(ms);
    FieldsOf(ns);
    if Fields(ms).Keys <= Fields(ns).Keys {
      forall i | 0 <= i < |ms|
        ensures exists j :: 0 <= j < |ns| && ns[j].key == ms[i].key
      {
        assert ms[i].key in Fields(ms);
        assert ms[i].key in Fields(ns);
      }
    }
  }

  /** The fields of an object without repeats, member by member. */
  lemma {:induction false} FieldsOf(ms: seq<Member>)
    requires DistinctKeys(ms)
    ensures forall k :: k in Fields(ms) <==> exists i :: 0 <= i < |ms| && ms[i].key == k
    ensures forall i :: 0 <= i < |ms| ==> ms[i].key in Fields(ms) && Fields(ms)[ms[i].key] == Meaning(ms[i].value)
  {
    if ms != [] {
      var init := ms[..|ms| - 1];
      FieldsOf(init);
      assert forall i :: 0 <= i < |init| ==> init[i] == ms[i];
    }
  }

  // ---------------------------------------------------------------------------
  // Canonical form
  // ---------------------------------------------------------------------------

  /** The value canonical JSON stands for: numbers without their spelling, at any depth. */
  function Canon(v: Value): Value
    decreases v
  {
    match v
    case Float(_, Whole(i)) => Int(i)
    case Float(_, Fraction(t)) => Float("", Fraction(t))
    case Array(xs) => Array(seq(|xs|, i requires 0 <= i < |xs| => Canon(xs[i])))
    case Object(fs) => Object(map k | k in fs :: Canon(fs[k]))
    case _ => v
  }

  /** Equal up to the spelling of numbers: the same structure, a whole number alike in either form. */
  ghost predicate Alike(a: Value, b: Value)
    decreases a
  {
    match a
    case Int(i) => b == Int(i) || (b.Float? && b.number == Whole(i))
    case Float(_, Whole(i)) => b == Int(i) || (b.Float? && b.number == Whole(i))
    case Float(_, Fraction(t)) => b.Float? && b.number == Fraction(t)
    case Array(xs) =>
      b.Array? && |b.items| == |xs| && forall i :: 0 <= i < |xs| ==> Alike(xs[i], b.items[i])
    case Object(fs) =>
      b.Object? && b.fields.Keys == fs.Keys && forall k :: k in fs ==> Alike(fs[k], b.fields[k])
    case _ => b == a
  }

  /** Two values have one canonical form exactly if they are equal up to the spelling of numbers. */
  lemma {:induction false} CanonIsAlike(a: Value, b: Value)
    ensures Canon(a) == Canon(b) <==> Alike(a, b)
    decreases a
  {
    match a
    case Array(xs) => if b.Array? { CanonItems(a, b); }
    case Object(fs) => if b.Object? { CanonFields(a, b); }
    case _ =>
  }

  lemma {:induction false} CanonItems(a: Value, b: Value)
    requires a.Array? && b.Array?
    ensures Canon(a) == Canon(b) <==> Alike(a, b)
    decreases a, 0
  {
    var xs, ys := a.items, b.items;
    var cs, ds := Canon(a).items, Canon(b).items;
    assert |cs| == |xs| && |ds| == |ys|;
    if |xs| == |ys| {
      forall i | 0 <= i < |xs|
        ensures cs[i] == ds[i] <==> Alike(xs[i], ys[i])
      {
        CanonIsAlike(xs[i], ys[i]);
      }
      assert cs == ds <==> forall i :: 0 <= i < |xs| ==> cs[i] == ds[i];
    }
  }

  lemma {:induction false} CanonFields(a: Value, b: Value)
    requires a.Object? && b.Object?
    ensures Canon(a) == Canon(b) <==> Alike(a, b)
    decreases a, 0
  {
    var fs, gs := a.fields, b.fields;
    var cs, ds := Canon(a).fields, Canon(b).fields;
    assert cs.Keys == fs.Keys && ds.Keys == gs.Keys;
    if fs.Keys == gs.Keys {
      forall k | k in fs
        ensures cs[k] == ds[k] <==> Alike(fs[k], gs[k])
      {
        CanonIsAlike(fs[k], gs[k]);
      }
      assert cs == ds <==> forall k :: k in fs ==> cs[k] == ds[k];
    }
  }

  // ---------------------------------------------------------------------------
  // Encoded length
  // ---------------------------------------------------------------------------

  /** Bytes one character takes inside an encoded string: short escapes, \u escapes, UTF-8. */
  function CharLength(c: char): nat {
    var u := c as int;
    if c == '"' || c == '\\' || u == 8 || u == 9 || u == 10 || u == 12 || u == 13 then 2
    else if u < 0x20 then 6
    else if u < 0x80 then 1
    else if u < 0x800 then 2
    else if u < 0x10000 then 3
    else 4
  }

  function TextLength(s: string): nat {
    if s == "" then 0 else CharLength(s[0]) + TextLength(s[1..])
  }

  /** Quoted string. */
  function StringLength(s: string): nat { TextLength(s) + 2 }

  /** The length of the compact encoding of a value. */
  ghost function ValueLength(v: Value): nat
    decreases v
  {
    match v
    case Null => 4
    case Bool(b) => if b then 4 else 5
    case Int(i) => IntLength(i)
    case Float(t, _) => |t|
    case Str(s) => StringLength(s)
    case Array(xs) => ItemsLength(xs) + Separators(|xs|) + 2
    case Object(fs) => Total(map k | k in fs :: StringLength(k) + 1 + ValueLength(fs[k])) + Separators(|fs|) + 2
  }

  ghost function ItemsLength(xs: seq<Value>): nat
    decreases xs
  {
    if xs == [] then 0 else ItemsLength(xs[..|xs| - 1]) + ValueLength(xs[|xs| - 1])
  }

  function Separators(n: nat): nat { if n == 0 then 0 else n - 1 }

  /** Measures a value, taking object members in any order. */
  method Measure(v: Value) returns (n: nat)
    ensures n == ValueLength(v)
    decreases v, 1
  {
    match v
    case Null => n := 4;
    case Bool(b) => n := if b then 4 else 5;
    case Int(i) => n := IntLength(i);
    case Float(t, _) => n := |t|;
    case Str(s) => n := StringLength(s);
    case Array(xs) => {
      var sum := MeasureItems(xs, v);
      n := sum + Separators(|xs|) + 2;
    }
    case Object(fs) => {
      var sum := MeasureFields(fs, v);
      n := sum + Separators(|fs|) + 2;
    }
  }

  method MeasureItems(xs: seq<Value>, ghost v: Value) returns (sum: nat)
    requires v == Array(xs)
    ensures sum == ItemsLength(xs)
    decreases v, 0
  {
    sum := 0;
    for i := 0 to |xs|
      invariant sum == ItemsLength(xs[..i])
    {
      var m := Measure(xs[i]);
      sum := sum + m;
      assert xs[..i + 1][..i] == xs[..i];
    }
    assert xs[..|xs|] == xs;
  }

  ghost function FieldLengths(fs: map<string, Value>): map<string, nat> {
    map k | k in fs :: StringLength(k) + 1 + ValueLength(fs[k])
  }

  method MeasureFields(fs: map<string, Value>, ghost v: Value) returns (sum: nat)
    requires v == Object(fs)
    ensures sum == Total(FieldLengths(fs))
    decreases v, 0
  {
    var rest := fs.Keys;
    ghost var done: map<string, nat>, lengths := map[], FieldLengths(fs);
    sum := 0;
    while rest != {}
      invariant rest <= fs.Keys && done.Keys == fs.Keys - rest
      invariant forall k :: k in done ==> done[k] == lengths[k]
      invariant sum == Total(done)
      decreases |rest|
    {
      var k :| k in rest;
      var m := Measure(fs[k]);
      TotalAdd(done, k, lengths[k]);
      done := done[k := lengths[k]];
      sum := sum + StringLength(k) + 1 + m;
      rest := rest - {k};
    }
    assert done == lengths;
  }
}
