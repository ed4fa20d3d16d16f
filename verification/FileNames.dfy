/** Names of pending files: writing and parsing them. */
module FileNames {
  import opened Finite

  // ---------------------------------------------------------------------------
  // Decimal text of fixed width
  // ---------------------------------------------------------------------------

  predicate IsDigit(c: char) { '0' <= c <= '9' }

  predicate AllDigits(t: string) { forall i :: 0 <= i < |t| ==> IsDigit(t[i]) }

  function DigitChar(d: nat): char
    requires d < 10
  {
    '0' + d as char
  }

  function DigitOf(c: char): nat
    requires IsDigit(c)
  {
    (c - '0') as nat
  }

  /** The last `width` digits of a number, with leading zeros. */
  function Padded(n: nat, width: nat): (t: string)
    ensures |t| == width && AllDigits(t)
  {
    if width == 0 then "" else Padded(n / 10, width - 1) + [DigitChar(n % 10)]
  }

  function DecimalValue(t: string): nat
    requires AllDigits(t)
  {
    if t == "" then 0 else DecimalValue(t[..|t| - 1]) * 10 + DigitOf(t[|t| - 1])
  }

  lemma {:induction false} ValueOfPadded(n: nat, width: nat)
    requires n < Pow10(width)
    ensures DecimalValue(Padded(n, width)) == n
  {
    if width > 0 {
      ValueOfPadded(n / 10, width - 1);
      assert Padded(n, width)[..width - 1] == Padded(n / 10, width - 1);
    }
  }

  lemma {:induction false} PaddedOfValue(t: string)
    requires AllDigits(t)
    ensures Padded(DecimalValue(t), |t|) == t && DecimalValue(t) < Pow10(|t|)
  {
    if t != "" {
      PaddedOfValue(t[..|t| - 1]);
      assert t == t[..|t| - 1] + [t[|t| - 1]];
    }
  }

  // ---------------------------------------------------------------------------
  // Names
  // ---------------------------------------------------------------------------

  const PREFIX: string := "v2-"
  const SUFFIX: string := ".tles"

  /** A record identifier as text. */
  predicate ValidId(id: string) {
    |id| == 64 && forall i :: 0 <= i < |id| ==> IsDigit(id[i]) || 'a' <= id[i] <= 'f'
  }

  /** The name `enqueue` gives a pending file: the number with 20 digits and the record identifier. */
  function PendingName(s: nat, id: string): string { PREFIX + Padded(s, 20) + "-" + id + SUFFIX }

  function StripPrefix(t: string, prefix: string): Option<string> {
    if prefix <= t then Some(t[|prefix|..]) else None
  }

  function StripSuffix(t: string, suffix: string): Option<string> {
    if |suffix| <= |t| && t[|t| - |suffix|..] == suffix then Some(t[..|t| - |suffix|]) else None
  }

  /** The position of the first occurrence, or the length. */
  function Find(t: string, c: char): (i: nat)
    ensures i <= |t| && (forall j :: 0 <= j < i ==> t[j] != c) && (i < |t| ==> t[i] == c)
  {
    if t == "" || t[0] == c then 0 else 1 + Find(t[1..], c)
  }

  /** The standard library's parser of 64-bit numbers takes a leading plus sign. */
  function ParseU64(t: string): Option<nat> {
    var digits := if t != "" && t[0] == '+' then t[1..] else t;
    if digits == "" || !AllDigits(digits) || DecimalValue(digits) > U64_MAX then None else Some(DecimalValue(digits))
  }

  /** `parse_v2_pending_file_name` */
  function Parse(name: string): Option<(nat, string)> {
    var tail := StripPrefix(name, PREFIX);
    if tail.None? then None
    else
      var body := StripSuffix(tail.value, SUFFIX);
      if body.None? then None
      else
        var dash := Find(body.value, '-');
        if dash == |body.value| || dash != 20 then None
        else
          var s, id := ParseU64(body.value[..dash]), body.value[dash + 1..];
          if s.None? || s.value == 0 || !ValidId(id) then None else Some((s.value, id))
  }

  lemma BodyOf(digits: string, id: string)
    ensures StripPrefix(PREFIX + digits + "-" + id + SUFFIX, PREFIX) == Some(digits + "-" + id + SUFFIX)
    ensures StripSuffix(digits + "-" + id + SUFFIX, SUFFIX) == Some(digits + "-" + id)
  {
    var name, tail := PREFIX + digits + "-" + id + SUFFIX, digits + "-" + id + SUFFIX;
    assert name == PREFIX + tail;
    assert tail == (digits + "-" + id) + SUFFIX;
  }

  lemma FirstDash(digits: string, id: string)
    requires forall i :: 0 <= i < |digits| ==> digits[i] != '-'
    ensures var body := digits + "-" + id;
            Find(body, '-') == |digits| && body[..|digits|] == digits && body[|digits| + 1..] == id && |digits| < |body|
  {
    var body := digits + "-" + id;
    assert body[|digits|] == '-';
    assert forall i :: 0 <= i < |digits| ==> body[i] == digits[i];
  }

  lemma U64Below()
    ensures U64_MAX < Pow10(20)
  {
    assert Pow10(5) == 100_000 by { assert Pow10(3) == 1_000; }
    assert Pow10(10) == 10_000_000_000 by { assert Pow10(8) == 100_000_000; }
    assert Pow10(15) == 1_000_000_000_000_000 by { assert Pow10(13) == 10_000_000_000_000; }
    assert Pow10(20) == 100_000_000_000_000_000_000 by { assert Pow10(18) == 1_000_000_000_000_000_000; }
  }

  /** Parsing the text of a number field. */
  lemma ParsePadded(s: nat)
    requires s <= U64_MAX
    ensures ParseU64(Padded(s, 20)) == Some(s)
  {
    U64Below();
    ValueOfPadded(s, 20);
    assert Padded(s, 20)[0] != '+';
  }

  lemma ParseSigned(s: nat)
    requires s < Pow10(19) && s <= U64_MAX
    ensures ParseU64("+" + Padded(s, 19)) == Some(s)
  {
    ValueOfPadded(s, 19);
    assert ("+" + Padded(s, 19))[1..] == Padded(s, 19);
  }

  /** A text of 20 characters that parses is the padded number, or a plus sign and 19 digits. */
  lemma NumberText(t: string, s: nat)
    requires |t| == 20 && ParseU64(t) == Some(s)
    ensures t == Padded(s, 20) || (s < Pow10(19) && t == "+" + Padded(s, 19))
    ensures s <= U64_MAX
  {
    if t[0] == '+' {
      PaddedOfValue(t[1..]);
      assert t == "+" + t[1..];
    } else {
      PaddedOfValue(t);
    }
  }

  /** Every name the spool writes parses back to its number and identifier. */
  lemma RoundTrip(s: nat, id: string)
    requires 1 <= s <= U64_MAX && ValidId(id)
    ensures Parse(PendingName(s, id)) == Some((s, id))
  {
    BodyOf(Padded(s, 20), id);
    FirstDash(Padded(s, 20), id);
    ParsePadded(s);
  }

  /** Exactly which names parse: those the spool writes, and the same with a plus sign in front of 19
      digits, which the spool never writes. */
  lemma ParseIsExact(name: string, s: nat, id: string)
    ensures Parse(name) == Some((s, id)) <==>
            && 1 <= s <= U64_MAX && ValidId(id)
            && (name == PendingName(s, id) || (s < Pow10(19)
                && name == PREFIX + ("+" + Padded(s, 19)) + "-" + id + SUFFIX))
  {
    if 1 <= s <= U64_MAX && ValidId(id) {
      RoundTrip(s, id);
      if s < Pow10(19) {
        var digits := "+" + Padded(s, 19);
        BodyOf(digits, id);
        FirstDash(digits, id);
        ParseSigned(s);
      }
    }
    if Parse(name) == Some((s, id)) { Parsed(name, s, id); }
  }

  lemma Parsed(name: string, s: nat, id: string)
    requires Parse(name) == Some((s, id))
    ensures 1 <= s <= U64_MAX && ValidId(id)
    ensures name == PendingName(s, id) || (s < Pow10(19) && name == PREFIX + ("+" + Padded(s, 19)) + "-" + id + SUFFIX)
  {
    var tail := name[|PREFIX|..];
    var body := tail[..|tail| - |SUFFIX|];
    var digits := body[..20];
    NumberText(digits, s);
    Rejoined(name, tail, body, id);
  }

  lemma Rejoined(name: string, tail: string, body: string, id: string)
    requires PREFIX <= name && tail == name[|PREFIX|..]
    requires |SUFFIX| <= |tail| && tail[|tail| - |SUFFIX|..] == SUFFIX && body == tail[..|tail| - |SUFFIX|]
    requires 20 < |body| && body[20] == '-' && id == body[21..]
    ensures name == PREFIX + body[..20] + "-" + id + SUFFIX
  {
    assert name == PREFIX + tail;
    assert tail == body + SUFFIX;
    assert body == body[..20] + "-" + id;
  }
}
