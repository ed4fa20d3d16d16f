/** Numbering of records that an older format stored without numbers. A pass lists the pending files in
    any order, sorts them by admission time and identifier, rewrites each unnumbered one in place with the
    next number and renames it; a stop after any of these writes is followed by a new pass. Identifiers
    are compared through `rank`, an injective stand-in for the order of their digits. */
module Migration {
  import opened Finite
  import opened Wire

  /** A pending file during migration: its number once it has one, and whether it has its final name. */
  datatype Pending = Pending(admittedAt: int, id: RecordId, number: Option<nat>, renamed: bool)

  /** The files in the order of a pass. */
  type Files = seq<Pending>

  // ---------------------------------------------------------------------------
  // Listing and sorting
  // ---------------------------------------------------------------------------

  /** The pending directory, by record identifier. */
  type Directory = map<RecordId, Pending>

  ghost predicate WellNamed(dir: Directory) { forall id :: id in dir ==> dir[id].id == id }

  function ByTime(rank: Rank, p: Pending): Keyed<Pending> { Keyed(p.admittedAt, rank(p.id), p) }

  predicate Earlier(rank: Rank, a: Pending, b: Pending) { Before(a.admittedAt, rank(a.id), b.admittedAt, rank(b.id)) }

  predicate InOrder(rank: Rank, xs: Files) { forall i, j :: 0 <= i < j < |xs| ==> Earlier(rank, xs[i], xs[j]) }

  ghost predicate Holds(dir: Directory, p: Pending) { p.id in dir && dir[p.id] == p }

  /** The files of a directory by admission time and identifier. */
  ghost predicate Listed(rank: Rank, dir: Directory, xs: Files) {
    InOrder(rank, xs) && forall p :: p in xs <==> Holds(dir, p)
  }

  /** Whatever order a directory is listed in, sorting gives one sequence. */
  lemma ListedOnce(rank: Rank, dir: Directory, xs: Files, ys: Files)
    requires Listed(rank, dir, xs) && Listed(rank, dir, ys)
    ensures xs == ys
  {
    var a := seq(|xs|, i requires 0 <= i < |xs| => ByTime(rank, xs[i]));
    var b := seq(|ys|, i requires 0 <= i < |ys| => ByTime(rank, ys[i]));
    forall k
      ensures k in a <==> k == ByTime(rank, k.value) && Holds(dir, k.value)
      ensures k in b <==> k == ByTime(rank, k.value) && Holds(dir, k.value)
    {
      if k == ByTime(rank, k.value) && Holds(dir, k.value) {
        assert k.value in xs && k.value in ys;
        var i :| 0 <= i < |xs| && xs[i] == k.value;
        var j :| 0 <= j < |ys| && ys[j] == k.value;
        assert a[i] == k && b[j] == k;
      }
      if k in a { var i :| 0 <= i < |a| && a[i] == k; assert xs[i] in xs; }
      if k in b { var i :| 0 <= i < |b| && b[i] == k; assert ys[i] in ys; }
    }
    StrictOrderIsUnique(a, b);
    forall i | 0 <= i < |xs| ensures xs[i] == ys[i] { assert a[i] == b[i]; }
  }

  /** Lists the directory in any order and sorts. */
  method List(rank: Rank, dir: Directory) returns (xs: Files)
    requires WellNamed(dir) && Injective(rank)
    ensures Listed(rank, dir, xs)
  {
    var keyed: seq<Keyed<Pending>> := [];
    var rest := dir.Keys;
    while rest != {}
      invariant rest <= dir.Keys
      invariant forall k :: k in keyed <==> k == ByTime(rank, k.value) && Holds(dir, k.value) && k.value.id !in rest
      invariant DifferentKeys(keyed)
      decreases |rest|
    {
      var id :| id in rest;
      forall i | 0 <= i < |keyed| ensures keyed[i].minor != rank(id) { assert keyed[i] in keyed; }
      keyed := keyed + [ByTime(rank, dir[id])];
      rest := rest - {id};
    }
    SortStrictly(keyed);
    var sorted := Sort(keyed);
    assert forall i :: 0 <= i < |sorted| ==> sorted[i] in keyed;
    xs := seq(|sorted|, i requires 0 <= i < |sorted| => sorted[i].value);
    forall p
      ensures p in xs <==> Holds(dir, p)
    {
      if Holds(dir, p) {
        assert ByTime(rank, p) in sorted;
        var i :| 0 <= i < |sorted| && sorted[i] == ByTime(rank, p);
        assert xs[i] == p;
      }
    }
  }

  /** Rewriting and renaming change neither admission time nor identifier. */
  predicate SameKeys(xs: Files, ys: Files) {
    |ys| == |xs| && forall i :: 0 <= i < |xs| ==> ys[i].admittedAt == xs[i].admittedAt && ys[i].id == xs[i].id
  }

  /** The directory with its files rewritten. */
  method Rewritten(rank: Rank, dir: Directory, ghost xs: Files, ys: Files) returns (dir': Directory)
    requires WellNamed(dir) && Listed(rank, dir, xs) && SameKeys(xs, ys)
    ensures WellNamed(dir') && Listed(rank, dir', ys)
  {
    OrderKept(rank, xs, ys);
    dir' := map[];
    for i := 0 to |ys|
      invariant WellNamed(dir') && forall p :: Holds(dir', p) <==> p in ys[..i]
    {
      NewName(rank, dir, xs, ys, i);
      dir' := dir'[ys[i].id := ys[i]];
    }
    assert ys[..|ys|] == ys;
  }

  lemma OrderKept(rank: Rank, xs: Files, ys: Files)
    requires InOrder(rank, xs) && SameKeys(xs, ys)
    ensures InOrder(rank, ys)
  {
    forall j, k | 0 <= j < k < |ys| ensures Earlier(rank, ys[j], ys[k]) { assert Earlier(rank, xs[j], xs[k]); }
  }

  lemma NewName(rank: Rank, dir: Directory, xs: Files, ys: Files, i: nat)
    requires Listed(rank, dir, xs) && SameKeys(xs, ys) && i < |ys|
    ensures (forall p :: p in ys[..i] ==> p.id != ys[i].id) && ys[..i + 1] == ys[..i] + [ys[i]]
  {
    forall j | 0 <= j < i
      ensures ys[j].id != ys[i].id
    {
      assert xs[j] in xs && xs[i] in xs;
      assert Holds(dir, xs[j]) && Holds(dir, xs[i]) && Earlier(rank, xs[j], xs[i]);
    }
  }

  // ---------------------------------------------------------------------------
  // Numbers
  // ---------------------------------------------------------------------------

  function NumberOf(f: Pending): nat { if f.number.Some? then f.number.value else 0 }

  /** The highest number in use, 0 if there is none. */
  function Highest(xs: Files): nat {
    if xs == [] then 0
    else Max(Highest(xs[..|xs| - 1]), NumberOf(xs[|xs| - 1]))
  }

  /** The first number a pass hands out. */
  function First(xs: Files, gapMax: nat): nat { Max(Highest(xs), gapMax) + 1 }

  function Unnumbered(xs: Files): nat {
    if xs == [] then 0 else Unnumbered(xs[..|xs| - 1]) + (if xs[|xs| - 1].number.None? then 1 else 0)
  }

  /** An uninterrupted pass: the unnumbered files get consecutive numbers from `next` on, in order. */
  function Numbered(xs: Files, next: nat): (ys: Files)
    ensures |ys| == |xs|
  {
    if xs == [] then []
    else
      var rest, last := xs[..|xs| - 1], xs[|xs| - 1];
      var number := if last.number.Some? then last.number else Some(next + Unnumbered(rest));
      Numbered(rest, next) + [last.(number := number, renamed := true)]
  }

  function Final(xs: Files, gapMax: nat): Files { Numbered(xs, First(xs, gapMax)) }

  // ---------------------------------------------------------------------------
  // Interrupted passes
  // ---------------------------------------------------------------------------

  lemma {:induction false} NumberedAt(xs: Files, next: nat, i: nat)
    requires i < |xs|
    ensures Numbered(xs, next)[i] ==
            xs[i].(number := if xs[i].number.Some? then xs[i].number
                else Some(next + Unnumbered(xs[..i])), renamed := true)
    decreases |xs|
  {
    if i < |xs| - 1 {
      NumberedAt(xs[..|xs| - 1], next, i);
      assert xs[..|xs| - 1][..i] == xs[..i];
    }
  }

  lemma {:induction false} HighestBounds(xs: Files, i: nat)
    requires i < |xs| && xs[i].number.Some?
    ensures xs[i].number.value <= Highest(xs)
    decreases |xs|
  {
    if i < |xs| - 1 { HighestBounds(xs[..|xs| - 1], i); }
  }

  lemma {:induction false} HighestAttained(xs: Files, bound: nat)
    requires forall i :: 0 <= i < |xs| && xs[i].number.Some? ==> xs[i].number.value <= bound
    ensures Highest(xs) <= bound
  {
    if xs != [] { HighestAttained(xs[..|xs| - 1], bound); }
  }

  /** How far a pass has come: the first `i` files are done and the next number is `next`. */
  ghost predicate Reached(xs: Files, ys: Files, i: nat, first: nat, next: nat) {
    && |ys| == |xs| && i <= |xs| && next == first + Unnumbered(xs[..i])
    && (forall j :: 0 <= j < i ==> ys[j] == Numbered(xs, first)[j])
    && (forall j :: i <= j < |xs| ==> ys[j] == xs[j])
  }

  /** The file at `i` has its number but not yet its name. */
  ghost predicate HalfDone(xs: Files, ys: Files, i: nat, first: nat) {
    && |ys| == |xs| && i < |xs|
    && (forall j :: 0 <= j < i ==> ys[j] == Numbered(xs, first)[j])
    && ys[i] == Numbered(xs, first)[i].(renamed := xs[i].renamed)
    && (forall j :: i < j < |xs| ==> ys[j] == xs[j])
  }

  /** What a stop leaves: numbers handed out so far to an initial stretch of files. */
  ghost predicate Partial(xs: Files, ys: Files, i: nat, first: nat) {
    && |ys| == |xs| && i <= |xs|
    && (forall j :: 0 <= j < i ==> ys[j].(renamed := true) == Numbered(xs, first)[j])
    && (forall j :: i <= j < |xs| ==> ys[j].(renamed := true) == xs[j].(renamed := true))
  }

  lemma {:induction false} NoneUnnumbered(ys: Files, n: nat)
    requires n <= |ys| && forall j :: 0 <= j < n ==> ys[j].number.Some?
    ensures Unnumbered(ys[..n]) == 0
  {
    if n > 0 {
      NoneUnnumbered(ys, n - 1);
      assert ys[..n][..n - 1] == ys[..n - 1];
    }
  }

  /** Beyond the numbered stretch a stop leaves as many unnumbered files as there were. */
  lemma {:induction false} UnnumberedLeft(xs: Files, ys: Files, i: nat, first: nat, j: nat)
    requires Partial(xs, ys, i, first) && i <= j <= |xs|
    ensures Unnumbered(ys[..j]) + Unnumbered(xs[..i]) == Unnumbered(xs[..j])
  {
    if j == i {
      forall k | 0 <= k < i ensures ys[k].number.Some? { NumberedAt(xs, first, k); }
      NoneUnnumbered(ys, i);
    } else {
      UnnumberedLeft(xs, ys, i, first, j - 1);
      assert ys[..j][..j - 1] == ys[..j - 1] && xs[..j][..j - 1] == xs[..j - 1];
      assert ys[j - 1].number == xs[j - 1].number;
    }
  }

  lemma {:induction false} UnnumberedGrows(xs: Files, i: nat, j: nat)
    requires i <= j <= |xs|
    ensures Unnumbered(xs[..i]) <= Unnumbered(xs[..j])
  {
    if i < j {
      UnnumberedGrows(xs, i, j - 1);
      assert xs[..j][..j - 1] == xs[..j - 1];
    }
  }

  /** The highest number after a stop: the old one, or the last number handed out. */
  lemma HighestAfterStop(xs: Files, ys: Files, i: nat, gapMax: nat)
    requires Partial(xs, ys, i, First(xs, gapMax))
    ensures First(ys, gapMax) == First(xs, gapMax) + Unnumbered(xs[..i])
  {
    var first := First(xs, gapMax);
    var last := first + Unnumbered(xs[..i]) - 1;
    forall j | 0 <= j < |ys| && ys[j].number.Some?
      ensures ys[j].number.value <= Max(last, gapMax)
    {
      if xs[j].number.Some? { HighestBounds(xs, j); }
      if j < i {
        NumberedAt(xs, first, j);
        UnnumberedStep(xs, j, i);
      }
    }
    HighestAttained(ys, Max(last, gapMax));
    if Unnumbered(xs[..i]) > 0 {
      var j := LastHandedOut(xs, i);
      NumberedAt(xs, first, j);
      HighestBounds(ys, j);
    } else {
      forall j | 0 <= j < |xs| && xs[j].number.Some?
        ensures xs[j].number.value <= Highest(ys)
      {
        if j < i { NumberedAt(xs, first, j); }
        HighestBounds(ys, j);
      }
      HighestAttained(xs, Highest(ys));
    }
  }

  lemma UnnumberedStep(xs: Files, j: nat, i: nat)
    requires j < i <= |xs|
    ensures xs[j].number.None? ==> Unnumbered(xs[..j]) + 1 <= Unnumbered(xs[..i])
  {
    UnnumberedGrows(xs, j + 1, i);
    assert xs[..j + 1][..j] == xs[..j];
  }

  /** The file that got the last number. */
  lemma {:induction false} LastHandedOut(xs: Files, i: nat) returns (j: nat)
    requires i <= |xs| && Unnumbered(xs[..i]) > 0
    ensures j < i && xs[j].number.None? && Unnumbered(xs[..j]) + 1 == Unnumbered(xs[..i])
  {
    assert i > 0;
    assert xs[..i][..i - 1] == xs[..i - 1];
    if xs[i - 1].number.None? { return i - 1; }
    j := LastHandedOut(xs, i - 1);
  }

  /** A stop anywhere changes nothing about where the migration ends. */
  lemma StopKeepsFinal(xs: Files, ys: Files, i: nat, gapMax: nat)
    requires Partial(xs, ys, i, First(xs, gapMax))
    ensures Final(ys, gapMax) == Final(xs, gapMax)
  {
    var first := First(xs, gapMax);
    HighestAfterStop(xs, ys, i, gapMax);
    forall j | 0 <= j < |xs|
      ensures Final(ys, gapMax)[j] == Final(xs, gapMax)[j]
    {
      NumberedAt(xs, first, j);
      NumberedAt(ys, First(ys, gapMax), j);
      if j >= i { UnnumberedLeft(xs, ys, i, first, j); }
    }
  }

  /** One pass of the migration loop of `recover`, stopped after `writes` rewrites and renames. It keeps
      the final assignment whatever the stop; a pass that runs through reaches it. */
  method Pass(files: array<Pending>, gapMax: nat, writes: nat) returns (finished: bool)
    modifies files
    ensures Final(files[..], gapMax) == Final(old(files[..]), gapMax)
    ensures finished ==> files[..] == Final(old(files[..]), gapMax)
    ensures SameKeys(old(files[..]), files[..])
    ensures !finished ==> writes < 2 * files.Length || First(old(files[..]), gapMax) + files.Length > U64_MAX
  {
    ghost var xs := files[..];
    var next: nat := First(files[..], gapMax);
    ghost var first: nat := next;
    var left: nat, i: nat := writes, 0;
    assert xs[..0] == [];
    while i < files.Length
      invariant i <= files.Length && Reached(xs, files[..], i, first, next)
      invariant left <= writes && writes - left <= 2 * i && next <= first + i && SameKeys(xs, files[..])
    {
      NumberedAt(xs, first, i);
      assert xs[..i + 1][..i] == xs[..i];
      if files[i].number.None? {
        if next >= U64_MAX || left == 0 {
          StoppedAt(xs, files[..], i, first, next, gapMax);
          return false;
        }
        files[i] := files[i].(number := Some(next));
        next, left := next + 1, left - 1;
      }
      if !files[i].renamed {
        if left == 0 {
          HalfStopped(xs, files[..], i, first, gapMax);
          return false;
        }
        files[i] := files[i].(renamed := true);
        left := left - 1;
      }
      i := i + 1;
    }
    assert files[..] == Numbered(xs, first);
    StoppedAt(xs, files[..], i, first, next, gapMax);
    finished := true;
  }

  lemma StoppedAt(xs: Files, ys: Files, i: nat, first: nat, next: nat, gapMax: nat)
    requires Reached(xs, ys, i, first, next) && first == First(xs, gapMax)
    ensures Final(ys, gapMax) == Final(xs, gapMax)
  {
    forall j | 0 <= j < i ensures ys[j].(renamed := true) == Numbered(xs, first)[j] { NumberedAt(xs, first, j); }
    StopKeepsFinal(xs, ys, i, gapMax);
  }

  lemma HalfStopped(xs: Files, ys: Files, i: nat, first: nat, gapMax: nat)
    requires HalfDone(xs, ys, i, first) && first == First(xs, gapMax)
    ensures Final(ys, gapMax) == Final(xs, gapMax)
  {
    forall j | 0 <= j < i + 1 ensures ys[j].(renamed := true) == Numbered(xs, first)[j] { NumberedAt(xs, first, j); }
    StopKeepsFinal(xs, ys, i + 1, gapMax);
  }

  /** A directory on its way: sorted before and after, and where the migration ends. */
  ghost predicate OnTheWay(rank: Rank, dir: Directory, dir': Directory, gapMax: nat, finished: bool, xs: Files,
                           ys: Files) {
    && Listed(rank, dir, xs) && Listed(rank, dir', ys) && WellNamed(dir')
    && Final(ys, gapMax) == Final(xs, gapMax) && (finished ==> ys == Final(xs, gapMax))
  }

  /** A pass over a directory: it lists the files afresh, sorts them and goes through them. */
  method PassOver(rank: Rank, dir: Directory, gapMax: nat, writes: nat)
    returns (finished: bool, dir': Directory, ghost xs: Files, ghost ys: Files)
    requires WellNamed(dir) && Injective(rank)
    ensures OnTheWay(rank, dir, dir', gapMax, finished, xs, ys)
  {
    var sorted := List(rank, dir);
    var files := new Pending[|sorted|](i requires 0 <= i < |sorted| => sorted[i]);
    assert files[..] == sorted;
    finished := Pass(files, gapMax, writes);
    xs, ys := sorted, files[..];
    dir' := Rewritten(rank, dir, sorted, files[..]);
  }

  /** Any number of passes, each over a fresh listing and each stopped anywhere, keep the assignment an
      uninterrupted pass over the first directory makes; a last pass that runs through reaches it. */
  method Migrate(rank: Rank, dir: Directory, gapMax: nat, stops: seq<nat>)
    returns (finished: bool, dir': Directory, ghost xs: Files, ghost ys: Files)
    requires WellNamed(dir) && Injective(rank)
    ensures OnTheWay(rank, dir, dir', gapMax, finished, xs, ys)
  {
    dir', finished := dir, false;
    xs := SomeOrder(rank, dir);
    ys := xs;
    for k := 0 to |stops|
      invariant OnTheWay(rank, dir, dir', gapMax, finished, xs, ys)
    {
      ghost var from, to;
      var done, next;
      done, next, from, to := PassOver(rank, dir', gapMax, stops[k]);
      ListedOnce(rank, dir', ys, from);
      dir', ys, finished := next, to, done;
    }
  }

  /** Every directory has its order. */
  lemma {:induction false} SomeOrder(rank: Rank, dir: Directory) returns (xs: Files)
    requires WellNamed(dir) && Injective(rank)
    ensures Listed(rank, dir, xs)
    decreases |dir|
  {
    if dir == map[] { return []; }
    var id :| id in dir;
    var rest := SomeOrder(rank, dir - {id});
    var keyed := seq(|rest|, i requires 0 <= i < |rest| => ByTime(rank, rest[i]));
    forall k | k in keyed
      ensures !SameKey(ByTime(rank, dir[id]), k)
    {
      var i :| 0 <= i < |keyed| && keyed[i] == k;
      assert rest[i] in rest;
    }
    assert StrictlyAscending(keyed);
    InsertStrictly(ByTime(rank, dir[id]), keyed);
    xs := Unkeyed(rank, dir, dir[id], rest, keyed);
  }

  lemma Unkeyed(rank: Rank, dir: Directory, p: Pending, rest: Files, keyed: seq<Keyed<Pending>>) returns (xs: Files)
    requires WellNamed(dir) && p.id in dir && dir[p.id] == p && Listed(rank, dir - {p.id}, rest)
    requires keyed == seq(|rest|, i requires 0 <= i < |rest| => ByTime(rank, rest[i]))
    requires Ascending(keyed) && StrictlyAscending(Insert(ByTime(rank, p), keyed))
    ensures Listed(rank, dir, xs)
  {
    var all := Insert(ByTime(rank, p), keyed);
    forall i | 0 <= i < |all|
      ensures all[i] == ByTime(rank, all[i].value) && Holds(dir, all[i].value)
    {
      assert all[i] in all;
      if all[i] != ByTime(rank, p) {
        var j :| 0 <= j < |keyed| && keyed[j] == all[i];
        assert rest[j] in rest;
      }
    }
    xs := seq(|all|, i requires 0 <= i < |all| => all[i].value);
    forall q | Holds(dir, q)
      ensures q in xs
    {
      if q != p {
        assert q in rest;
        var j :| 0 <= j < |rest| && rest[j] == q;
        assert keyed[j] == ByTime(rank, q);
      }
      assert ByTime(rank, q) in all;
      var i :| 0 <= i < |all| && all[i] == ByTime(rank, q);
      assert xs[i] == q;
    }
  }

  // ---------------------------------------------------------------------------
  // The assignment
  // ---------------------------------------------------------------------------

  /** The assignment keeps given numbers, gives new ones in order above all numbers in use, and gives
      different files different numbers if they had different ones. */
  lemma AssignmentIsSound(xs: Files, gapMax: nat, i: nat, j: nat)
    requires i < j < |xs| && (xs[i].number.Some? && xs[j].number.Some? ==> xs[i].number != xs[j].number)
    ensures var ys := Final(xs, gapMax);
            && ys[i].number.Some? && ys[j].number.Some? && ys[i].number != ys[j].number
            && (xs[i].number.None? && xs[j].number.None? ==> ys[i].number.value < ys[j].number.value)
            && (xs[i].number.Some? ==> ys[i].number == xs[i].number)
            && (xs[i].number.None? ==> ys[i].number.value > gapMax && ys[i].number.value > Highest(xs))
  {
    var first := First(xs, gapMax);
    NumberedAt(xs, first, i);
    NumberedAt(xs, first, j);
    UnnumberedStep(xs, i, j);
    if xs[i].number.Some? { HighestBounds(xs, i); }
    if xs[j].number.Some? { HighestBounds(xs, j); }
  }

  /** The numbers handed out follow one another, from the one after the highest in use. */
  lemma NumbersFollow(xs: Files, gapMax: nat, i: nat)
    requires i < |xs| && xs[i].number.None?
    ensures Final(xs, gapMax)[i].number ==
            Some(Max(gapMax, Highest(xs)) + 1 + |set j | 0 <= j < i && xs[j].number.None?|)
  {
    NumberedAt(xs, First(xs, gapMax), i);
    UnnumberedCount(xs, i);
  }

  /** The migration keeps every file, its record and its number, and gives each its number and its name. */
  lemma MigrationKeeps(xs: Files, gapMax: nat, i: nat)
    requires i < |xs|
    ensures |Final(xs, gapMax)| == |xs| && Final(xs, gapMax)[i].number.Some? && Final(xs, gapMax)[i].renamed
    ensures Final(xs, gapMax)[i].id == xs[i].id && Final(xs, gapMax)[i].admittedAt == xs[i].admittedAt
    ensures xs[i].number.Some? ==> Final(xs, gapMax)[i].number == xs[i].number
  {
    NumberedAt(xs, First(xs, gapMax), i);
  }

  lemma {:induction false} UnnumberedCount(xs: Files, i: nat)
    requires i <= |xs|
    ensures Unnumbered(xs[..i]) == |set j | 0 <= j < i && xs[j].number.None?|
  {
    var now := set j | 0 <= j < i && xs[j].number.None?;
    if i == 0 {
      assert now == {};
    } else {
      var before := set j | 0 <= j < i - 1 && xs[j].number.None?;
      UnnumberedCount(xs, i - 1);
      assert xs[..i][..i - 1] == xs[..i - 1];
      assert now == if xs[i - 1].number.None? then before + {i - 1} else before;
    }
  }

  /** The stored next number is not consulted: the numbers handed out avoid all numbers below it exactly
      if it is not above the first number of the pass. */
  lemma StoredNextIgnored(xs: Files, gapMax: nat, stored: nat)
    requires Unnumbered(xs) > 0
    ensures (forall i :: 0 <= i < |xs| && xs[i].number.None? ==> stored <= NumberOf(Final(xs, gapMax)[i])) <==>
            stored <= First(xs, gapMax)
  {
    var first := First(xs, gapMax);
    forall i | 0 <= i < |xs|
      ensures xs[i].number.None? ==> first <= NumberOf(Final(xs, gapMax)[i])
    {
      NumberedAt(xs, first, i);
    }
    var i := FirstHandedOut(xs);
    NumberedAt(xs, first, i);
  }

  /** A single old record in a spool whose stored next number is 10 gets number 1 again. */
  lemma StoredNextReused(id: RecordId)
    ensures var xs := [Pending(0, id, None, false)];
            Final(xs, 0) == [Pending(0, id, Some(1), true)] && NumberOf(Final(xs, 0)[0]) < 10
  {
    var xs := [Pending(0, id, None, false)];
    assert xs[..0] == [];
    assert Highest(xs) == 0;
  }

  /** New numbers ascend by admission time and identifier. */
  lemma NumbersAscendInTime(rank: Rank, dir: Directory, xs: Files, gapMax: nat, i: nat, j: nat)
    requires Listed(rank, dir, xs) && i < |xs| && j < |xs| && xs[i].number.None? && xs[j].number.None?
    ensures NumberOf(Final(xs, gapMax)[i]) < NumberOf(Final(xs, gapMax)[j]) <==>
            || xs[i].admittedAt < xs[j].admittedAt
            || (xs[i].admittedAt == xs[j].admittedAt && rank(xs[i].id) < rank(xs[j].id))
  {
    if i < j { AssignmentIsSound(xs, gapMax, i, j); }
    if j < i {
      AssignmentIsSound(xs, gapMax, j, i);
      assert Earlier(rank, xs[j], xs[i]);
    }
  }

  lemma {:induction false} FirstHandedOut(xs: Files) returns (i: nat)
    requires Unnumbered(xs) > 0
    ensures i < |xs| && xs[i].number.None? && Unnumbered(xs[..i]) == 0
  {
    var rest := xs[..|xs| - 1];
    if Unnumbered(rest) > 0 {
      i := FirstHandedOut(rest);
      assert rest[..i] == xs[..i];
    } else {
      i := |xs| - 1;
    }
  }
}
