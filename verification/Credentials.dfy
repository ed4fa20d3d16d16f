/** The credential store: a file that several processes read, edit and replace under a lock. */
module Credentials {
  import opened Finite

  const MAX_TTL_MS: int := 31_622_400_000
  const MAX_ROTATION_OVERLAP_MS: int := 86_400_000
  const MAX_FILE_BYTES: nat := 1_048_576

  datatype Error =
    | InvalidLabel | InvalidLifetime | InvalidOverlap | UnknownCredential | InactiveCredential | InvalidStore

  datatype Result<+T> = Ok(value: T) | Err(error: Error)

  /** The digest of a secret is an injective constructor over what was hashed. */
  datatype Digest = SecretDigest(id: nat, secret: seq<bv8>)

  datatype Credential = Credential(
    id: nat, name: string, digest: Digest, createdAt: int, expiresAt: int,
    validUntil: Option<int>, revokedAt: Option<int>, rotationOf: Option<nat>)

  type Credentials = seq<Credential>

  // ---------------------------------------------------------------------------
  // Validity
  // ---------------------------------------------------------------------------

  predicate Until(t: int, bound: Option<int>) { bound.Some? ==> t < bound.value }

  /** `active_at` */
  predicate ActiveAt(c: Credential, t: int) {
    c.createdAt <= t < c.expiresAt && Until(t, c.validUntil) && Until(t, c.revokedAt)
  }

  function CharBytes(c: char): nat {
    if c < 0x80 as char then 1 else if c < 0x800 as char then 2 else if c < 0x1_0000 as char then 3 else 4
  }

  function LabelBytes(t: string): nat { if t == "" then 0 else LabelBytes(t[..|t| - 1]) + CharBytes(t[|t| - 1]) }

  predicate IsControl(c: char) { c < ' ' || 0x7F as char <= c <= 0x9F as char }

  predicate ValidLabel(t: string) { 1 <= LabelBytes(t) <= 64 && forall i :: 0 <= i < |t| ==> !IsControl(t[i]) }

  predicate ValidTtl(ttl: int) { 1_000 <= ttl <= MAX_TTL_MS }

  // ---------------------------------------------------------------------------
  // The file
  // ---------------------------------------------------------------------------

  function EscapedBytes(t: string): nat {
    if t == "" then 0
    else
      var c := t[|t| - 1];
      EscapedBytes(t[..|t| - 1]) + (if c == '"' || c == '\\' then 2 else CharBytes(c))
  }

  function OptionalLength(t: Option<int>): nat { if t.Some? then IntLength(t.value) else 4 }

  /** One credential in indented JSON. */
  function CredentialLength(c: Credential): nat {
    296 + EscapedBytes(c.name) + IntLength(c.createdAt) + IntLength(c.expiresAt)
    + OptionalLength(c.validUntil) + OptionalLength(c.revokedAt) + (if c.rotationOf.Some? then 38 else 4)
  }

  function EntriesLength(file: Credentials): nat {
    if file == [] then 0 else EntriesLength(file[..|file| - 1]) + CredentialLength(file[|file| - 1])
  }

  function FileLength(file: Credentials): nat {
    if file == [] then 39 else 43 + EntriesLength(file) + 2 * (|file| - 1)
  }

  predicate DistinctIds(file: Credentials) {
    forall i, j :: 0 <= i < j < |file| ==> file[i].id != file[j].id
  }

  predicate SoundEntry(c: Credential) { ValidLabel(c.name) && c.createdAt < c.expiresAt }

  predicate Sound(file: Credentials) { DistinctIds(file) && forall i :: 0 <= i < |file| ==> SoundEntry(file[i]) }

  /** What `load` accepts of a file that `save` wrote. */
  predicate Loads(file: Credentials) { FileLength(file) <= MAX_FILE_BYTES && Sound(file) }

  /** The credential with the identifier, if any. */
  function Lookup(file: Credentials, id: nat): Option<Credential> {
    if file == [] then None
    else if file[0].id == id then Some(file[0])
    else Lookup(file[1..], id)
  }

  predicate Known(file: Credentials, id: nat) { exists i :: 0 <= i < |file| && file[i].id == id }

  /** In a file with distinct identifiers the lookup finds the one entry with the identifier. */
  lemma {:induction false} LookupIs(file: Credentials, id: nat)
    ensures Lookup(file, id).Some? <==> Known(file, id)
    ensures DistinctIds(file) ==> forall i :: 0 <= i < |file| && file[i].id == id ==> Lookup(file, id) == Some(file[i])
    ensures Lookup(file, id).Some? ==> Lookup(file, id).value.id == id && Lookup(file, id).value in file
  {
    if file != [] {
      LookupIs(file[1..], id);
      if Known(file, id) && file[0].id != id {
        var i :| 0 <= i < |file| && file[i].id == id;
        assert file[1..][i - 1] == file[i];
      }
      if Known(file[1..], id) {
        var i :| 0 <= i < |file[1..]| && file[1..][i].id == id;
        assert file[i + 1].id == id;
      }
      forall i | 0 <= i < |file| && file[i].id == id && DistinctIds(file)
        ensures Lookup(file, id) == Some(file[i])
      {
        if i > 0 { assert file[1..][i - 1] == file[i]; }
      }
    }
  }

  // ---------------------------------------------------------------------------
  // The mutations, one at a time
  // ---------------------------------------------------------------------------

  /** A mutation with the identifier and the secret it draws. A target that is no identifier at all is
      absent. */
  datatype Op =
    | Enrol(name: string, now: int, ttl: int, newId: nat, secret: seq<bv8>)
    | Rotate(target: Option<nat>, now: int, overlap: int, ttl: int, newId: nat, secret: seq<bv8>)
    | Revoke(target: Option<nat>, now: int)

  predicate Timely(op: Op) {
    InI64(op.now) && (op.Enrol? || op.Rotate? ==> InI64(op.ttl)) && (op.Rotate? ==> InI64(op.overlap))
  }

  /** `issue` */
  function Issued(name: string, from: Option<nat>, now: int, ttl: int, id: nat, secret: seq<bv8>): Credential
    requires InI64(now) && InI64(ttl)
  {
    Credential(id, name, SecretDigest(id, secret), now, SaturatingAddI64(now, ttl), None, None, from)
  }

  function Min(a: int, b: int): int { if a < b then a else b }

  function Retired(c: Credential, now: int, overlap: int): Credential
    requires InI64(now) && InI64(overlap)
  {
    c.(validUntil := Some(Min(SaturatingAddI64(now, overlap), c.expiresAt)))
  }

  function Revoked(c: Credential, now: int): Credential {
    c.(revokedAt := Some(if c.revokedAt.Some? then Min(c.revokedAt.value, now) else now))
  }

  /** The file with the first entry of an identifier replaced. */
  function Replaced(file: Credentials, id: nat, c: Credential): Credentials {
    if file == [] then []
    else if file[0].id == id then [c] + file[1..]
    else [file[0]] + Replaced(file[1..], id, c)
  }

  /** What a mutation makes of a file, or why it is refused. */
  function Outcome(file: Credentials, op: Op): Result<Credentials>
    requires Timely(op)
  {
    match op
    case Enrol(name, now, ttl, id, secret) =>
      if !ValidLabel(name) then Err(InvalidLabel)
      else if !ValidTtl(ttl) then Err(InvalidLifetime)
      else if !Loads(file) then Err(InvalidStore)
      else Ok(file + [Issued(name, None, now, ttl, id, secret)])
    case Rotate(target, now, overlap, ttl, id, secret) =>
      if !ValidTtl(ttl) then Err(InvalidLifetime)
      else if !(0 <= overlap <= MAX_ROTATION_OVERLAP_MS) then Err(InvalidOverlap)
      else if target.None? then Err(UnknownCredential)
      else if !Loads(file) then Err(InvalidStore)
      else
        var found := Lookup(file, target.value);
        if found.None? then Err(UnknownCredential)
        else if !ActiveAt(found.value, now) then Err(InactiveCredential)
        else
          Ok(Replaced(file, target.value, Retired(found.value, now, overlap))
             + [Issued(found.value.name, target, now, ttl, id, secret)])
    case Revoke(target, now) =>
      if target.None? then Err(UnknownCredential)
      else if !Loads(file) then Err(InvalidStore)
      else
        var found := Lookup(file, target.value);
        if found.None? then Err(UnknownCredential) else Ok(Replaced(file, target.value, Revoked(found.value, now)))
  }

  function Next(file: Credentials, op: Op): Credentials
    requires Timely(op)
  {
    if Outcome(file, op).Ok? then Outcome(file, op).value else file
  }

  /** The store of one process. */
  class CredentialStore {
    var file: Credentials

    constructor ()
      ensures file == [] && Loads(file)
    {
      file := [];
    }

    /** The position of an identifier, or the number of entries. */
    method Find(credentials: Credentials, id: nat) returns (i: nat)
      ensures i <= |credentials| && (forall j :: 0 <= j < i ==> credentials[j].id != id)
      ensures i < |credentials| ==> credentials[i].id == id
    {
      i := 0;
      while i < |credentials| && credentials[i].id != id
        invariant i <= |credentials| && forall j :: 0 <= j < i ==> credentials[j].id != id
      {
        i := i + 1;
      }
    }

    method Enrol(name: string, now: int, ttl: int, id: nat, secret: seq<bv8>) returns (r: Result<Credential>)
      requires InI64(now) && InI64(ttl)
      modifies this
      ensures var op := Op.Enrol(name, now, ttl, id, secret);
              && file == Next(old(file), op) && (r.Ok? <==> Outcome(old(file), op).Ok?)
              && (r.Ok? ==> file == old(file) + [r.value] && r.value.digest == SecretDigest(id, secret))
              && (r.Err? ==> Outcome(old(file), op) == Err(r.error))
    {
      if !ValidLabel(name) { return Err(InvalidLabel); }
      if !ValidTtl(ttl) { return Err(InvalidLifetime); }
      if !Loads(file) { return Err(InvalidStore); }
      var issued := Issued(name, None, now, ttl, id, secret);
      file := file + [issued];
      r := Ok(issued);
    }

    method Rotate(target: Option<nat>, now: int, overlap: int, ttl: int, id: nat,
                  secret: seq<bv8>) returns (r: Result<Credential>)
      requires InI64(now) && InI64(overlap) && InI64(ttl)
      modifies this
      ensures var op := Op.Rotate(target, now, overlap, ttl, id, secret);
              && file == Next(old(file), op) && (r.Ok? <==> Outcome(old(file), op).Ok?)
              && (r.Ok? ==> file != [] && file[|file| - 1] == r.value && r.value.digest == SecretDigest(id, secret))
              && (r.Err? ==> Outcome(old(file), op) == Err(r.error))
    {
      if !ValidTtl(ttl) { return Err(InvalidLifetime); }
      if !(0 <= overlap <= MAX_ROTATION_OVERLAP_MS) { return Err(InvalidOverlap); }
      if target.None? { return Err(UnknownCredential); }
      if !Loads(file) { return Err(InvalidStore); }
      var i := Find(file, target.value);
      FoundIsLookup(file, target.value, i);
      if i == |file| { return Err(UnknownCredential); }
      var c := file[i];
      if !ActiveAt(c, now) { return Err(InactiveCredential); }
      ReplacedIsUpdate(file, target.value, i, Retired(c, now, overlap));
      var issued := Issued(c.name, Some(c.id), now, ttl, id, secret);
      file := file[i := Retired(c, now, overlap)] + [issued];
      r := Ok(issued);
    }

    method Revoke(target: Option<nat>, now: int) returns (r: Result<bool>)
      requires InI64(now)
      modifies this
      ensures var op := Op.Revoke(target, now);
              && file == Next(old(file), op) && (r.Ok? <==> Outcome(old(file), op).Ok?)
              && (r.Err? ==> Outcome(old(file), op) == Err(r.error))
    {
      if target.None? { return Err(UnknownCredential); }
      if !Loads(file) { return Err(InvalidStore); }
      var i := Find(file, target.value);
      FoundIsLookup(file, target.value, i);
      if i == |file| { return Err(UnknownCredential); }
      ReplacedIsUpdate(file, target.value, i, Revoked(file[i], now));
      file := file[i := Revoked(file[i], now)];
      r := Ok(true);
    }
  }

  lemma {:induction false} FoundIsLookup(file: Credentials, id: nat, i: nat)
    requires i <= |file| && (forall j :: 0 <= j < i ==> file[j].id != id) && (i < |file| ==> file[i].id == id)
    ensures Lookup(file, id) == if i < |file| then Some(file[i]) else None
  {
    if i > 0 { FoundIsLookup(file[1..], id, i - 1); }
  }

  lemma {:induction false} ReplacedIsUpdate(file: Credentials, id: nat, i: nat, c: Credential)
    requires i < |file| && (forall j :: 0 <= j < i ==> file[j].id != id) && file[i].id == id
    ensures Replaced(file, id, c) == file[i := c]
  {
    if i > 0 { ReplacedIsUpdate(file[1..], id, i - 1, c); }
  }

  // ---------------------------------------------------------------------------
  // What one mutation keeps
  // ---------------------------------------------------------------------------

  /** The identifier a mutation draws is new to the file. */
  predicate DrawsNew(file: Credentials, op: Op) { op.Enrol? || op.Rotate? ==> !Known(file, op.newId) }

  predicate Targets(op: Op, id: nat) { (op.Rotate? || op.Revoke?) && op.target == Some(id) }

  predicate Draws(op: Op, id: nat) { (op.Enrol? || op.Rotate?) && op.newId == id }

  lemma {:induction false} LookupAppended(file: Credentials, c: Credential, id: nat)
    ensures Lookup(file + [c], id) == if Lookup(file, id).Some? then Lookup(file, id)
            else if c.id == id then Some(c) else None
  {
    if file != [] {
      LookupAppended(file[1..], c, id);
      assert (file + [c])[1..] == file[1..] + [c];
    }
  }

  lemma {:induction false} LookupReplaced(file: Credentials, target: nat, c: Credential, id: nat)
    requires c.id == target
    ensures |Replaced(file, target, c)| == |file|
    ensures Lookup(Replaced(file, target, c), id) == if id == target
            && Lookup(file, id).Some? then Some(c) else Lookup(file, id)
    ensures forall i :: 0 <= i < |file| ==> Replaced(file, target, c)[i].id == file[i].id
    ensures forall i :: 0 <= i < |file| ==> Replaced(file, target, c)[i] == file[i] || Replaced(file, target, c)[i] == c
  {
    if file != [] && file[0].id != target { LookupReplaced(file[1..], target, c, id); }
  }

  /** A mutation leaves every entry it does not target exactly as it was, an entry whose identifier it
      happens to draw again included. */
  lemma OthersUnchanged(file: Credentials, op: Op, id: nat)
    requires Timely(op) && !Targets(op, id) && (Draws(op, id) ==> Known(file, id))
    ensures Lookup(Next(file, op), id) == Lookup(file, id)
  {
    LookupIs(file, id);
    if Outcome(file, op).Ok? {
      match op
      case Enrol(name, now, ttl, newId, secret) =>
        LookupAppended(file, Issued(name, None, now, ttl, newId, secret), id);
      case Rotate(target, now, overlap, ttl, newId, secret) =>
        var c := Lookup(file, target.value).value;
        var retired := Retired(c, now, overlap);
        LookupIs(file, target.value);
        LookupReplaced(file, target.value, retired, id);
        LookupAppended(Replaced(file, target.value, retired), Issued(c.name, target, now, ttl, newId, secret), id);
      case Revoke(target, now) =>
        LookupIs(file, target.value);
        LookupReplaced(file, target.value, Revoked(Lookup(file, target.value).value, now), id);
    }
  }

  /** What a mutation does to its target: it stays, with a new overlap deadline or an earlier
      revocation, and with everything else as it was. */
  lemma TargetAfter(file: Credentials, op: Op, id: nat)
    requires Timely(op) && Targets(op, id) && Outcome(file, op).Ok?
    ensures Lookup(file, id).Some?
    ensures Lookup(Next(file, op), id) ==
            Some(if op.Rotate? then Retired(Lookup(file, id).value, op.now, op.overlap)
                else Revoked(Lookup(file, id).value, op.now))
  {
    LookupIs(file, id);
    var c := Lookup(file, id).value;
    match op
    case Rotate(target, now, overlap, ttl, newId, secret) =>
      LookupReplaced(file, id, Retired(c, now, overlap), id);
      LookupAppended(Replaced(file, id, Retired(c, now, overlap)), Issued(c.name, target, now, ttl, newId, secret), id);
    case Revoke(target, now) => LookupReplaced(file, id, Revoked(c, now), id);
  }

  /** By how many bytes a mutation that is carried out makes the file longer. */
  function Growth(file: Credentials, op: Op): int
    requires Timely(op) && Outcome(file, op).Ok?
  {
    match op
    case Enrol(name, now, ttl, newId, secret) =>
      CredentialLength(Issued(name, None, now, ttl, newId, secret)) + (if file == [] then 4 else 2)
    case Rotate(target, now, overlap, ttl, newId, secret) =>
      var c := Lookup(file, target.value).value;
      OptionalLength(Retired(c, now, overlap).validUntil) - OptionalLength(c.validUntil)
      + CredentialLength(Issued(c.name, target, now, ttl, newId, secret)) + 2
    case Revoke(target, now) =>
      var c := Lookup(file, target.value).value;
      OptionalLength(Revoked(c, now).revokedAt) - OptionalLength(c.revokedAt)
  }

  lemma {:induction false} EntriesLengthFirst(c: Credential, file: Credentials)
    ensures EntriesLength([c] + file) == CredentialLength(c) + EntriesLength(file)
  {
    if file == [] {
      assert [c] + file == [c] && [c][..0] == [];
    } else {
      EntriesLengthFirst(c, file[..|file| - 1]);
      assert ([c] + file)[..|file|] == [c] + file[..|file| - 1];
    }
  }

  lemma {:induction false} ReplacedLength(file: Credentials, id: nat, c: Credential)
    requires Lookup(file, id).Some?
    ensures |Replaced(file, id, c)| == |file|
    ensures EntriesLength(Replaced(file, id, c)) ==
            EntriesLength(file) - CredentialLength(Lookup(file, id).value) + CredentialLength(c)
  {
    assert file == [file[0]] + file[1..];
    EntriesLengthFirst(file[0], file[1..]);
    if file[0].id == id {
      EntriesLengthFirst(c, file[1..]);
    } else {
      ReplacedLength(file[1..], id, c);
      EntriesLengthFirst(file[0], Replaced(file[1..], id, c));
    }
  }

  lemma AppendedLength(file: Credentials, c: Credential)
    ensures FileLength(file + [c]) == FileLength(file) + CredentialLength(c) + (if file == [] then 4 else 2)
  {
    var more := file + [c];
    assert more[..|more| - 1] == file && more[|more| - 1] == c;
    assert EntriesLength(more) == EntriesLength(file) + CredentialLength(c);
  }

  /** The length of the file after a mutation. */
  lemma GrowthIsExact(file: Credentials, op: Op)
    requires Timely(op) && Outcome(file, op).Ok?
    ensures FileLength(Next(file, op)) == FileLength(file) + Growth(file, op)
  {
    match op
    case Enrol(name, now, ttl, newId, secret) => AppendedLength(file, Issued(name, None, now, ttl, newId, secret));
    case Rotate(target, now, overlap, ttl, newId, secret) =>
      var c := Lookup(file, target.value).value;
      ReplacedLength(file, target.value, Retired(c, now, overlap));
      AppendedLength(Replaced(file, target.value, Retired(c, now, overlap)),
                     Issued(c.name, target, now, ttl, newId, secret));
    case Revoke(target, now) =>
      ReplacedLength(file, target.value, Revoked(Lookup(file, target.value).value, now));
  }

  /** A mutation leaves a file that can be read: what it adds fits, and a newly issued credential has a
      lifetime at all, that is, the clock does not stand at its maximum. */
  predicate LeavesReadable(file: Credentials, op: Op)
    requires Timely(op) && Outcome(file, op).Ok?
  {
    FileLength(file) + Growth(file, op) <= MAX_FILE_BYTES && (op.Revoke? || op.now < I64_MAX)
  }

  lemma SoundAfterIssue(file: Credentials, name: string, from: Option<nat>, now: int, ttl: int, id: nat,
                        secret: seq<bv8>)
    requires InI64(now) && ValidTtl(ttl) && ValidLabel(name) && Sound(file) && !Known(file, id)
    ensures Sound(file + [Issued(name, from, now, ttl, id, secret)]) <==> now < I64_MAX
  {
    AppendedSound(file, Issued(name, from, now, ttl, id, secret));
  }

  lemma SoundAfterRotate(file: Credentials, op: Op)
    requires op.Rotate? && Timely(op) && Outcome(file, op).Ok? && DrawsNew(file, op)
    ensures Sound(Next(file, op)) <==> op.now < I64_MAX
  {
    var id := op.target.value;
    LookupIs(file, id);
    var c := Lookup(file, id).value;
    var rest := Replaced(file, id, Retired(c, op.now, op.overlap));
    ReplacedSound(file, id, Retired(c, op.now, op.overlap));
    SoundAfterIssue(rest, c.name, op.target, op.now, op.ttl, op.newId, op.secret);
  }

  lemma SoundAfterRevoke(file: Credentials, op: Op)
    requires op.Revoke? && Timely(op) && Outcome(file, op).Ok?
    ensures Sound(Next(file, op))
  {
    var id := op.target.value;
    LookupIs(file, id);
    ReplacedSound(file, id, Revoked(Lookup(file, id).value, op.now));
  }

  /** The saved file loads again exactly under this condition, which the mutation does not check. */
  lemma SavedFileLoads(file: Credentials, op: Op)
    requires Timely(op) && Outcome(file, op).Ok? && DrawsNew(file, op)
    ensures Loads(Next(file, op)) <==> LeavesReadable(file, op)
  {
    GrowthIsExact(file, op);
    if op.Enrol? { SoundAfterIssue(file, op.name, None, op.now, op.ttl, op.newId, op.secret); }
    if op.Rotate? { SoundAfterRotate(file, op); }
    if op.Revoke? { SoundAfterRevoke(file, op); }
  }

  /** A file that cannot be read refuses every mutation and every token. */
  lemma UnreadableRefuses(file: Credentials, op: Op, token: Token, t: int)
    requires Timely(op) && !Loads(file)
    ensures Outcome(file, op).Err? && Verify(file, Some(token), t) == Err(InvalidStore)
  {
  }

  const LAST_INSTANT: Op := Op.Enrol("a", I64_MAX, 1_000, 0, [])

  /** An enrolment with the clock at its maximum succeeds and writes a file that never loads again:
      every later mutation and every verification of a token fails. */
  lemma LastInstantLocksOut(op: Op, token: Token, t: int)
    requires Timely(op)
    ensures Timely(LAST_INSTANT) && Outcome([], LAST_INSTANT).Ok? && !Loads(Next([], LAST_INSTANT))
    ensures Outcome(Next([], LAST_INSTANT), op).Err?
    ensures Verify(Next([], LAST_INSTANT), Some(token), t) == Err(InvalidStore)
  {
    ShortLabel();
    SavedFileLoads([], LAST_INSTANT);
    UnreadableRefuses(Next([], LAST_INSTANT), op, token, t);
  }

  lemma ShortLabel()
    ensures ValidLabel("a") && EscapedBytes("a") == 1
  {
    assert "a"[..0] == "";
  }

  /** A store of `n` credentials enrolled one after the other with the same short name. */
  function Filled(n: nat): Credentials {
    seq(n, i requires 0 <= i < n => Issued("a", None, 0, 1_000, i, []))
  }

  lemma {:induction false} FilledLength(n: nat)
    ensures EntriesLength(Filled(n)) == 314 * n
  {
    if n > 0 {
      FilledLength(n - 1);
      assert Filled(n)[..n - 1] == Filled(n - 1);
      ShortLabel();
      assert DigitCount(1_000) == 4 by { assert DigitCount(10) == 2; }
    }
  }

  const ONE_MORE: Op := Op.Enrol("a", 0, 1_000, 3318, [])

  lemma FilledLoads()
    ensures Loads(Filled(3318)) && FileLength(Filled(3319)) > MAX_FILE_BYTES
  {
    FilledLength(3318);
    FilledLength(3319);
    ShortLabel();
  }

  /** A store of 3318 such credentials loads; one more enrolment succeeds and locks everybody out: every
      verification of a token and every later mutation fails. */
  lemma FullStoreLocksOut(op: Op, token: Token, t: int)
    requires Timely(op)
    ensures Loads(Filled(3318)) && Outcome(Filled(3318), ONE_MORE).Ok? && Verify(Filled(3318), Some(token), t).Ok?
    ensures !Loads(Next(Filled(3318), ONE_MORE)) && Outcome(Next(Filled(3318), ONE_MORE), op).Err?
    ensures Verify(Next(Filled(3318), ONE_MORE), Some(token), t) == Err(InvalidStore)
  {
    FilledLoads();
    ShortLabel();
    assert Next(Filled(3318), ONE_MORE) == Filled(3319);
    UnreadableRefuses(Filled(3319), op, token, t);
  }

  lemma AppendedSound(file: Credentials, c: Credential)
    requires Sound(file) && !Known(file, c.id)
    ensures Sound(file + [c]) <==> SoundEntry(c)
  {
    var more := file + [c];
    if SoundEntry(c) {
      forall i, j | 0 <= i < j < |more| ensures more[i].id != more[j].id { assert file[i].id == more[i].id; }
    }
    if Sound(more) { assert SoundEntry(more[|file|]); }
  }

  lemma ReplacedSound(file: Credentials, id: nat, c: Credential)
    requires Sound(file) && c.id == id && SoundEntry(c)
    ensures Sound(Replaced(file, id, c)) && forall k: nat :: Known(Replaced(file, id, c), k) <==> Known(file, k)
  {
    var after := Replaced(file, id, c);
    LookupReplaced(file, id, c, id);
    forall k: nat
      ensures Known(after, k) <==> Known(file, k)
    {
      if Known(file, k) {
        var i :| 0 <= i < |file| && file[i].id == k;
        assert after[i].id == k;
      }
      if Known(after, k) {
        var i :| 0 <= i < |after| && after[i].id == k;
        assert file[i].id == k;
      }
    }
  }

  // ---------------------------------------------------------------------------
  // Verification
  // ---------------------------------------------------------------------------

  datatype Token = Token(id: nat, secret: seq<bv8>)

  /** `verify`; a token that does not parse is absent. */
  function Verify(file: Credentials, token: Option<Token>, t: int): Result<bool> {
    if token.None? then Ok(false)
    else if !Loads(file) then Err(InvalidStore)
    else
      var c := Lookup(file, token.value.id);
      if c.None? || !ActiveAt(c.value, t) then Ok(false)
      else Ok(SecretDigest(c.value.id, token.value.secret) == c.value.digest)
  }

  /** A token is accepted exactly if the store can be read and has a credential with its identifier, made
      with its secret, that has begun and is neither expired, retired nor revoked. The store cannot be read
      exactly if it is over 1 MiB, repeats an identifier or holds an entry that is not sound. */
  lemma VerifyIsExact(file: Credentials, token: Option<Token>, t: int)
    ensures Verify(file, token, t) == Ok(true) <==>
            token.Some? && Readable(file) && exists c :: c in file && Accepts(c, token.value, t)
    ensures Verify(file, token, t) == Err(InvalidStore) <==> token.Some? && !Readable(file)
    ensures Verify(file, token, t) in {Ok(true), Ok(false), Err(InvalidStore)}
  {
    if token.Some? {
      LookupIs(file, token.value.id);
      if Loads(file) && Verify(file, token, t) == Ok(true) {
        assert Accepts(Lookup(file, token.value.id).value, token.value, t);
      }
      if Loads(file) && exists c :: c in file && Accepts(c, token.value, t) {
        var c :| c in file && Accepts(c, token.value, t);
        var i :| 0 <= i < |file| && file[i] == c;
      }
    }
  }

  ghost predicate Accepts(c: Credential, token: Token, t: int) {
    && c.id == token.id && c.digest == SecretDigest(token.id, token.secret) && c.createdAt <= t && t < c.expiresAt
    && (c.validUntil.None? || t < c.validUntil.value) && (c.revokedAt.None? || t < c.revokedAt.value)
  }

  ghost predicate Readable(file: Credentials) {
    && FileLength(file) <= 1_048_576 && (forall c :: c in file ==> ValidLabel(c.name) && c.createdAt < c.expiresAt)
    && forall i, j :: 0 <= i < |file| && 0 <= j < |file| && file[i].id == file[j].id ==> i == j
  }

  /** The token of an enrolment verifies during its whole lifetime, and no other secret ever does. */
  lemma EnrolledVerifies(file: Credentials, op: Op, token: Token, t: int)
    requires op.Enrol? && Timely(op) && Outcome(file, op).Ok? && DrawsNew(file, op) && Loads(Next(file, op))
    requires token.id == op.newId
    ensures Verify(Next(file, op), Some(token), t) == Ok(token.secret == op.secret
            && op.now <= t < End(op.now, op.ttl))
  {
    LookupIs(file, op.newId);
    LookupAppended(file, Issued(op.name, None, op.now, op.ttl, op.newId, op.secret), op.newId);
  }

  /** The instant a lifetime of `ttl` from `now` ends. */
  function End(now: int, ttl: int): int {
    if now + ttl > 0x7FFF_FFFF_FFFF_FFFF then 0x7FFF_FFFF_FFFF_FFFF else now + ttl
  }

  /** The token a rotation issues verifies during its whole lifetime, and no other secret of it ever
      does. It carries the label of the credential it replaces and names it. */
  lemma RotatedIssues(file: Credentials, op: Op, id: nat, token: Token, t: int)
    requires op.Rotate? && Timely(op) && op.target == Some(id) && Outcome(file, op).Ok? && DrawsNew(file, op)
    requires Loads(Next(file, op)) && token.id == op.newId
    ensures Verify(Next(file, op), Some(token), t) ==
            Ok(token.secret == op.secret && op.now <= t < End(op.now, op.ttl))
    ensures Lookup(Next(file, op), op.newId).Some? && Lookup(file, id).Some?
    ensures var c := Lookup(Next(file, op), op.newId).value;
            c.name == Lookup(file, id).value.name && c.rotationOf == Some(id)
  {
    NewEntry(file, op, id);
  }

  lemma NewEntry(file: Credentials, op: Op, id: nat)
    requires op.Rotate? && Timely(op) && op.target == Some(id) && Outcome(file, op).Ok? && DrawsNew(file, op)
    ensures Lookup(file, id).Some?
    ensures Lookup(Next(file, op), op.newId) ==
            Some(Issued(Lookup(file, id).value.name, op.target, op.now, op.ttl, op.newId, op.secret))
  {
    var retired := Retired(Lookup(file, id).value, op.now, op.overlap);
    var issued := Issued(Lookup(file, id).value.name, op.target, op.now, op.ttl, op.newId, op.secret);
    LookupIs(file, id);
    LookupIs(file, op.newId);
    LookupReplaced(file, id, retired, op.newId);
    LookupAppended(Replaced(file, id, retired), issued, op.newId);
    assert Next(file, op) == Replaced(file, id, retired) + [issued];
  }

  /** Some secret of the credential verifies at the instant. */
  ghost predicate Works(file: Credentials, id: nat, t: int) {
    exists secret :: Verify(file, Some(Token(id, secret)), t) == Ok(true)
  }

  /** Entries whose digest is one of their own identifier, as every entry a mutation writes is. */
  predicate OwnDigests(file: Credentials) { forall i :: 0 <= i < |file| ==> file[i].digest.id == file[i].id }

  lemma WorksMeans(file: Credentials, id: nat, t: int)
    requires Loads(file) && OwnDigests(file)
    ensures Works(file, id, t) <==> Lookup(file, id).Some? && ActiveAt(Lookup(file, id).value, t)
  {
    LookupIs(file, id);
    if Lookup(file, id).Some? && ActiveAt(Lookup(file, id).value, t) {
      var c := Lookup(file, id).value;
      assert Verify(file, Some(Token(id, c.digest.secret)), t) == Ok(true);
    }
  }

  /** Mutations keep entries under their own digests. */
  lemma OwnDigestsKept(file: Credentials, op: Op)
    requires Timely(op) && OwnDigests(file)
    ensures OwnDigests(Next(file, op))
  {
    if (op.Rotate? || op.Revoke?) && Outcome(file, op).Ok? {
      var c := Lookup(file, op.target.value).value;
      LookupIs(file, op.target.value);
      OwnReplaced(file, op.target.value,
                  if op.Rotate? then Retired(c, op.now, op.overlap) else Revoked(c, op.now));
    }
  }

  lemma {:induction false} OwnReplaced(file: Credentials, id: nat, c: Credential)
    requires OwnDigests(file) && c.digest.id == id && c.id == id
    ensures OwnDigests(Replaced(file, id, c))
  {
    if file != [] && file[0].id != id { OwnReplaced(file[1..], id, c); }
  }

  /** A rotation succeeds exactly if its lifetime and overlap are allowed and a token of its target
      verifies at that very instant; a credential that is revoked, expired or past its overlap is refused. */
  lemma RotateIsExact(file: Credentials, op: Op)
    requires op.Rotate? && Timely(op) && OwnDigests(file)
    ensures var allowed := 1_000 <= op.ttl <= 31_622_400_000 && 0 <= op.overlap <= 86_400_000;
            && (Outcome(file, op).Ok? <==> allowed && op.target.Some? && Works(file, op.target.value, op.now))
            && (Outcome(file, op) == Err(InactiveCredential) <==>
                  allowed && op.target.Some? && Loads(file) && Known(file, op.target.value)
                  && !Works(file, op.target.value, op.now))
            && (Outcome(file, op) == Err(UnknownCredential) <==>
                  allowed && (op.target.None? || (Loads(file) && !Known(file, op.target.value))))
            && (Outcome(file, op) == Err(InvalidStore) <==> allowed && op.target.Some? && !Loads(file))
            && (Outcome(file, op) == Err(InvalidOverlap) <==>
                  1_000 <= op.ttl <= 31_622_400_000 && !(0 <= op.overlap <= 86_400_000))
            && (Outcome(file, op) == Err(InvalidLifetime) <==> !(1_000 <= op.ttl <= 31_622_400_000))
  {
    if op.target.Some? {
      LookupIs(file, op.target.value);
      if Loads(file) { WorksMeans(file, op.target.value, op.now); }
    }
  }

  /** An enrolment succeeds exactly if its label and lifetime are allowed and the store can be read. */
  lemma EnrolIsExact(file: Credentials, op: Op)
    requires op.Enrol? && Timely(op)
    ensures Outcome(file, op).Ok? <==>
            ValidLabel(op.name) && 1_000 <= op.ttl <= 31_622_400_000 && Loads(file)
    ensures Outcome(file, op) == Err(InvalidLabel) <==> !ValidLabel(op.name)
    ensures Outcome(file, op) == Err(InvalidLifetime) <==>
            ValidLabel(op.name) && !(1_000 <= op.ttl <= 31_622_400_000)
  {
  }

  /** A label of visible characters and blanks is allowed exactly if it has 1 to 64 of them, and no label
      with a control character is. */
  lemma AsciiLabel(t: string)
    ensures (forall i :: 0 <= i < |t| ==> ' ' <= t[i] <= '~') ==> (ValidLabel(t) <==> 1 <= |t| <= 64)
    ensures (exists i :: 0 <= i < |t| && (t[i] < ' ' || '\U{7F}' <= t[i] <= '\U{9F}')) ==> !ValidLabel(t)
  {
    if forall i :: 0 <= i < |t| ==> ' ' <= t[i] <= '~' { AsciiBytes(t); }
  }

  lemma {:induction false} AsciiBytes(t: string)
    requires forall i :: 0 <= i < |t| ==> ' ' <= t[i] <= '~'
    ensures LabelBytes(t) == |t|
  {
    if t != "" { AsciiBytes(t[..|t| - 1]); }
  }

  /** A revocation succeeds exactly if the store can be read and has the credential; the token then works
      as before until the revocation and never again. */
  lemma RevokedStops(file: Credentials, op: Op, id: nat, secret: seq<bv8>, t: int)
    requires op.Revoke? && Timely(op) && op.target == Some(id)
    ensures Outcome(file, op).Ok? <==> Loads(file) && Known(file, id)
    ensures Outcome(file, op).Ok? && Loads(Next(file, op)) ==>
              Verify(Next(file, op), Some(Token(id, secret)), t) ==
              if t < op.now then Verify(file, Some(Token(id, secret)), t) else Ok(false)
  {
    LookupIs(file, id);
    if Outcome(file, op).Ok? { TargetAfter(file, op, id); }
  }

  /** A mutation leaves the verification of every token of another credential as it was exactly if it
      leaves a file that can be read; otherwise verification fails for everybody. */
  lemma OthersVerifyAlike(file: Credentials, op: Op, token: Token, t: int)
    requires Timely(op) && Loads(file) && DrawsNew(file, op) && !Targets(op, token.id) && !Draws(op, token.id)
    ensures Verify(Next(file, op), Some(token), t) == Verify(file, Some(token), t) <==>
            Outcome(file, op).Err? || LeavesReadable(file, op)
  {
    OthersUnchanged(file, op, token.id);
    if Outcome(file, op).Ok? { SavedFileLoads(file, op); }
  }

  /** The credential works at an instant from `now` on only in its later form. */
  predicate WorksOnlyAfter(c: Credential, after: Credential, now: int, t: int) {
    now <= t && ActiveAt(after, t) && !ActiveAt(c, t)
  }

  /** A rotation makes the old token work at some later instant at which it would not have worked
      before, exactly if the new deadline lies after the one an earlier rotation had set and the token
      is not revoked by then. */
  lemma RotationExtends(file: Credentials, op: Op, id: nat, u: int)
    requires op.Rotate? && Timely(op) && op.target == Some(id) && Outcome(file, op).Ok?
    requires Lookup(file, id).Some? && Lookup(file, id).value.validUntil == Some(u)
    ensures Lookup(Next(file, op), id).Some?
    ensures (exists t :: WorksOnlyAfter(Lookup(file, id).value, Lookup(Next(file, op), id).value, op.now, t)) <==>
            Min(SaturatingAddI64(op.now, op.overlap), Lookup(file, id).value.expiresAt) > u
                && Until(u, Lookup(file, id).value.revokedAt)
  {
    TargetAfter(file, op, id);
    var c, after := Lookup(file, id).value, Lookup(Next(file, op), id).value;
    if Min(SaturatingAddI64(op.now, op.overlap), c.expiresAt) > u && Until(u, c.revokedAt) {
      assert WorksOnlyAfter(c, after, op.now, u);
    }
  }

  /** A credential rotated at 0 with an overlap of one second and again at 500 with two seconds: its
      token works at 1500 after the second rotation, not after the first. */
  lemma SecondRotationExtends()
    ensures var file := [Issued("a", None, 0, 1_000_000, 0, [])];
            var first := Op.Rotate(Some(0), 0, 1_000, 1_000, 1, []);
            var second := Op.Rotate(Some(0), 500, 2_000, 1_000, 2, []);
            && Timely(first) && Timely(second) && Outcome(file, first).Ok? && Outcome(Next(file, first), second).Ok?
            && Lookup(Next(file, first), 0).Some? && !ActiveAt(Lookup(Next(file, first), 0).value, 1_500)
            && Lookup(Next(Next(file, first), second), 0).Some?
            && ActiveAt(Lookup(Next(Next(file, first), second), 0).value, 1_500)
  {
    var c := Issued("a", None, 0, 1_000_000, 0, []);
    var file := [c];
    var first, second := Op.Rotate(Some(0), 0, 1_000, 1_000, 1, []), Op.Rotate(Some(0), 500, 2_000, 1_000, 2, []);
    ShortLabel();
    ShortNumbers();
    AppendedLength([], c);
    assert [] + [c] == file && SoundEntry(c) && CredentialLength(c) == 317;
    assert Loads(file);
    assert Lookup(file, 0) == Some(c) && ActiveAt(c, 0);
    SavedFileLoads(file, first);
    assert Growth(file, first) <= 400;
    TargetAfter(file, first, 0);
    TargetAfter(Next(file, first), second, 0);
  }

  lemma ShortNumbers()
    ensures DigitCount(0) == 1 && DigitCount(1_000) == 4 && DigitCount(1_000_000) == 7
  {
    assert DigitCount(10) == 2;
    assert DigitCount(10_000) == 5;
  }

  /** After a rotation the old token works until the overlap ends, or its own expiry or revocation if
      these come first, whatever overlap an earlier rotation had set. */
  lemma RotatedOverlaps(file: Credentials, op: Op, id: nat, secret: seq<bv8>, t: int)
    requires op.Rotate? && Timely(op) && op.target == Some(id) && Outcome(file, op).Ok?
    requires Loads(Next(file, op)) && op.now <= t
    ensures Lookup(file, id).Some?
    ensures var c := Lookup(file, id).value;
            Verify(Next(file, op), Some(Token(id, secret)), t) ==
            Ok(c.digest == SecretDigest(id, secret) && t < SaturatingAddI64(op.now, op.overlap)
                && t < c.expiresAt && Until(t, c.revokedAt))
  {
    LookupIs(file, id);
    TargetAfter(file, op, id);
  }

  /** The file after a sequence of mutations, one after the other. */
  function Serial(file: Credentials, ops: seq<Op>): Credentials
    requires forall op :: op in ops ==> Timely(op)
  {
    if ops == [] then file else Next(Serial(file, ops[..|ops| - 1]), ops[|ops| - 1])
  }

  predicate RevokedBy(file: Credentials, id: nat, r: int) {
    var c := Lookup(file, id);
    c.Some? && c.value.revokedAt.Some? && c.value.revokedAt.value <= r
  }

  /** A revocation that is carried out at `r` revokes from `r` on at the latest. */
  lemma RevokeRevokes(file: Credentials, id: nat, r: int)
    requires InI64(r) && Outcome(file, Op.Revoke(Some(id), r)).Ok?
    ensures RevokedBy(Next(file, Op.Revoke(Some(id), r)), id, r)
  {
    TargetAfter(file, Op.Revoke(Some(id), r), id);
  }

  lemma RevocationStays(file: Credentials, op: Op, id: nat, r: int)
    requires Timely(op) && RevokedBy(file, id, r)
    ensures RevokedBy(Next(file, op), id, r)
  {
    LookupIs(file, id);
    if Targets(op, id) {
      if Outcome(file, op).Ok? { TargetAfter(file, op, id); }
    } else {
      OthersUnchanged(file, op, id);
    }
  }

  /** Once a credential is revoked at `r`, no sequence of further mutations makes any token of it
      verify at `r` or later. */
  lemma {:induction false} RevokedForever(file: Credentials, ops: seq<Op>, id: nat, r: int, secret: seq<bv8>, t: int)
    requires (forall op :: op in ops ==> Timely(op)) && RevokedBy(file, id, r) && r <= t
    ensures RevokedBy(Serial(file, ops), id, r)
    ensures Verify(Serial(file, ops), Some(Token(id, secret)), t) != Ok(true)
  {
    if ops != [] {
      RevokedForever(file, ops[..|ops| - 1], id, r, secret, t);
      RevocationStays(Serial(file, ops[..|ops| - 1]), ops[|ops| - 1], id, r);
    }
  }

  // ---------------------------------------------------------------------------
  // Several processes
  // ---------------------------------------------------------------------------

  /** Where a process is in a mutation: it holds the lock, has read the file, has replaced the file. */
  datatype Phase = Idle | Locked(op: Op) | Read(op: Op, copy: Credentials) | Written

  /** The shared file, the lock and the processes; `done` lists the mutations in the order they were
      carried out or refused. */
  datatype System = System(file: Credentials, holder: Option<nat>, phases: map<nat, Phase>, done: seq<Op>)

  /** One step of one process. A process may stop anywhere; the operating system then drops its lock. */
  datatype Step = Lock(p: nat, op: Op) | Load(p: nat) | Write(p: nat) | Unlock(p: nat) | Stop(p: nat)

  function PhaseOf(s: System, p: nat): Phase { if p in s.phases then s.phases[p] else Idle }

  predicate Enabled(s: System, step: Step) {
    match step
    case Lock(p, op) => s.holder.None? && PhaseOf(s, p).Idle? && Timely(op)
    case Load(p) => PhaseOf(s, p).Locked?
    case Write(p) => PhaseOf(s, p).Read? && Timely(PhaseOf(s, p).op)
    case Unlock(p) => PhaseOf(s, p).Written?
    case Stop(p) => true
  }

  function Take(s: System, step: Step): System
    requires Enabled(s, step)
  {
    match step
    case Lock(p, op) => s.(holder := Some(p), phases := s.phases[p := Locked(op)])
    case Load(p) => s.(phases := s.phases[p := Read(PhaseOf(s, p).op, s.file)])
    case Write(p) =>
      var Read(op, copy) := PhaseOf(s, p);
      s.(file := if Outcome(copy, op).Ok? then Outcome(copy, op).value else s.file,
         phases := s.phases[p := Written], done := s.done + [op])
    case Unlock(p) => s.(holder := None, phases := s.phases[p := Idle])
    case Stop(p) => s.(holder := if s.holder == Some(p) then None else s.holder, phases := s.phases[p := Idle])
  }

  predicate AllEnabled(s: System, steps: seq<Step>)
    decreases |steps|
  {
    steps != [] ==> Enabled(s, steps[0]) && AllEnabled(Take(s, steps[0]), steps[1..])
  }

  function Run(s: System, steps: seq<Step>): System
    requires AllEnabled(s, steps)
    decreases |steps|
  {
    if steps == [] then s else Run(Take(s, steps[0]), steps[1..])
  }

  /** Mutual exclusion: exactly the holder of the lock is busy, and what it has read is still the file. */
  ghost predicate Exclusive(s: System) {
    && (forall p: nat :: PhaseOf(s, p).Idle? <==> s.holder != Some(p))
    && (forall p: nat :: PhaseOf(s, p).Read? ==> PhaseOf(s, p).copy == s.file && Timely(PhaseOf(s, p).op))
    && (forall p: nat :: PhaseOf(s, p).Locked? ==> Timely(PhaseOf(s, p).op))
    && (forall op :: op in s.done ==> Timely(op))
  }

  lemma TakeKeeps(s: System, step: Step)
    requires Exclusive(s) && Enabled(s, step)
    ensures Exclusive(Take(s, step))
    ensures step.Write? ==>
              && Take(s, step).file == Next(s.file, PhaseOf(s, step.p).op)
              && Take(s, step).done == s.done + [PhaseOf(s, step.p).op]
    ensures !step.Write? ==> Take(s, step).file == s.file && Take(s, step).done == s.done
  {
  }

  lemma {:induction false} SerialThen(file: Credentials, ops: seq<Op>, more: seq<Op>)
    requires (forall op :: op in ops ==> Timely(op)) && (forall op :: op in more ==> Timely(op))
    ensures forall op :: op in ops + more ==> Timely(op)
    ensures Serial(file, ops + more) == Serial(Serial(file, ops), more)
  {
    if more == [] {
      assert ops + more == ops;
    } else {
      SerialThen(file, ops, more[..|more| - 1]);
      assert (ops + more)[..|ops + more| - 1] == ops + more[..|more| - 1];
    }
  }

  /** Serialisable mutations. Whatever way the processes interleave and wherever they stop, the file
      is the result of running the mutations one after the other, in the order they held the lock. */
  lemma {:induction false} Serialisable(s: System, steps: seq<Step>) returns (ops: seq<Op>)
    requires Exclusive(s) && AllEnabled(s, steps)
    ensures Exclusive(Run(s, steps)) && (forall op :: op in ops ==> Timely(op))
    ensures Run(s, steps).done == s.done + ops && Run(s, steps).file == Serial(s.file, ops)
    decreases |steps|
  {
    if steps == [] { return []; }
    var next := Take(s, steps[0]);
    TakeKeeps(s, steps[0]);
    var rest := Serialisable(next, steps[1..]);
    if steps[0].Write? {
      var op := PhaseOf(s, steps[0].p).op;
      ops := [op] + rest;
      assert s.done + ops == next.done + rest;
      assert Serial(s.file, [op]) == next.file by { assert [op][..0] == []; }
      SerialThen(s.file, [op], rest);
    } else {
      ops := rest;
    }
  }

  /** A revocation that was carried out holds in every later state of every interleaving. */
  lemma RevokedEverywhere(s: System, steps: seq<Step>, id: nat, r: int, secret: seq<bv8>, t: int) returns (ops: seq<Op>)
    requires Exclusive(s) && AllEnabled(s, steps) && RevokedBy(s.file, id, r) && r <= t
    ensures (forall op :: op in ops ==> Timely(op)) && Run(s, steps).done == s.done + ops
    ensures Verify(Run(s, steps).file, Some(Token(id, secret)), t) != Ok(true)
  {
    ops := Serialisable(s, steps);
    RevokedForever(s.file, ops, id, r, secret, t);
  }
}
