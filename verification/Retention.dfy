/** Backup retention: scripts/backup_database.py, and its mirror in src/web/queries.py. */
module Retention {

  /** One listed file: its timestamp, the ISO (year, week) of that timestamp, and its path. */
  datatype Backup = Backup(when: int, week: (int, int), path: int)

  predicate NotOlder(b: Backup, bs: seq<Backup>) {
    forall x | x in bs :: b.when >= x.when
  }

  /** Newest first; equal timestamps in any order. */
  predicate Descending(bs: seq<Backup>) {
    bs == [] || (NotOlder(bs[0], bs[1..]) && Descending(bs[1..]))
  }

  predicate DistinctPaths(bs: seq<Backup>) {
    bs == [] || ((forall x | x in bs[1..] :: bs[0].path != x.path) && DistinctPaths(bs[1..]))
  }

  /** A listing as `_list_backups` returns it. */
  predicate NewestFirst(bs: seq<Backup>) {
    Descending(bs) && DistinctPaths(bs)
  }

  /** No two files carry the same timestamp. */
  predicate NoTies(bs: seq<Backup>) {
    forall x, y | x in bs && y in bs && x != y :: x.when != y.when
  }

  // ------------------------------------------------------- the retention rule

  /** The first backup of each of the first `budget` weeks not in `seen`. */
  function FirstPerWeek(bs: seq<Backup>, budget: int, seen: set<(int, int)>): seq<Backup> {
    if bs == [] || budget <= 0 then []
    else if bs[0].week in seen then FirstPerWeek(bs[1..], budget, seen)
    else [bs[0]] + FirstPerWeek(bs[1..], budget - 1, seen + {bs[0].week})
  }

  /** What one prune of the listing leaves. */
  function Kept(bs: seq<Backup>, daily: int, weekly: int): seq<Backup> {
    if daily <= 0 then []
    else if |bs| <= daily then bs
    else bs[..daily] + FirstPerWeek(bs[daily..], weekly, {})
  }

  function Paths(bs: seq<Backup>): (ps: set<int>)
    ensures forall p :: p in ps <==> exists i :: 0 <= i < |bs| && bs[i].path == p
  {
    set b | b in bs :: b.path
  }

  function Elements(bs: seq<Backup>): set<Backup> {
    set b | b in bs
  }

  /** `bs` is the newest-first listing of the directory `files`. */
  ghost predicate Lists(bs: seq<Backup>, files: set<Backup>) {
    NewestFirst(bs) && Elements(bs) == files
  }

  // ---------------------------------------------------- listings and paths

  lemma PathsOfPrefix(bs: seq<Backup>, i: nat)
    requires i < |bs|
    ensures Paths(bs[..i + 1]) == Paths(bs[..i]) + {bs[i].path}
  {
  }

  /** Where `sort(key=when, reverse=True)` puts one more file. */
  function Insert(b: Backup, bs: seq<Backup>): seq<Backup> {
    if bs == [] || b.when > bs[0].when then [b] + bs else [bs[0]] + Insert(b, bs[1..])
  }

  lemma {:induction false} InsertElements(b: Backup, bs: seq<Backup>)
    ensures forall x :: x in Insert(b, bs) <==> x == b || x in bs
  {
    if bs != [] && !(b.when > bs[0].when) {
      InsertElements(b, bs[1..]);
      assert forall x :: x in bs <==> x == bs[0] || x in bs[1..];
    }
  }

  lemma {:induction false} InsertDescends(b: Backup, bs: seq<Backup>)
    requires Descending(bs)
    ensures Descending(Insert(b, bs))
  {
    if bs != [] {
      if b.when > bs[0].when {
        assert ([b] + bs)[1..] == bs;
        assert forall x | x in bs :: x == bs[0] || x in bs[1..];
      } else {
        InsertDescends(b, bs[1..]);
        InsertElements(b, bs[1..]);
        assert ([bs[0]] + Insert(b, bs[1..]))[1..] == Insert(b, bs[1..]);
      }
    }
  }

  lemma {:induction false} InsertKeepsPaths(b: Backup, bs: seq<Backup>)
    requires DistinctPaths(bs) && forall x | x in bs :: x.path != b.path
    ensures DistinctPaths(Insert(b, bs))
  {
    if bs != [] {
      assert bs[0] in bs;
      if b.when > bs[0].when {
        assert ([b] + bs)[1..] == bs;
      } else {
        InsertKeepsPaths(b, bs[1..]);
        InsertElements(b, bs[1..]);
        assert ([bs[0]] + Insert(b, bs[1..]))[1..] == Insert(b, bs[1..]);
      }
    }
  }

  /** A directory without ties has one newest-first listing. */
  lemma {:induction false} ListingIsUnique(a: seq<Backup>, b: seq<Backup>)
    requires NewestFirst(a) && NewestFirst(b) && NoTies(a)
    requires forall x :: x in a <==> x in b
    ensures a == b
  {
    assert |b| > 0 ==> b[0] in b;
    if a != [] {
      assert a[0] in b && b[0] in a;
      assert a[0] == b[0];
      assert a[0] !in a[1..] && b[0] !in b[1..];
      forall x
        ensures x in a[1..] <==> x in b[1..]
      {
        assert x in a <==> x == a[0] || x in a[1..];
        assert x in b <==> x == b[0] || x in b[1..];
      }
      ListingIsUnique(a[1..], b[1..]);
    }
  }

  lemma {:induction false} PathsTellApart(bs: seq<Backup>, x: Backup, y: Backup)
    requires DistinctPaths(bs) && x in bs && y in bs && x != y
    ensures x.path != y.path
  {
    if x != bs[0] && y != bs[0] {
      PathsTellApart(bs[1..], x, y);
    }
  }

  lemma {:induction false} SuffixDescends(bs: seq<Backup>, k: nat)
    requires Descending(bs) && k <= |bs|
    ensures Descending(bs[k..])
    ensures forall x, y | x in bs[..k] && y in bs[k..] :: x.when >= y.when
  {
    if k > 0 {
      SuffixDescends(bs[1..], k - 1);
      assert bs[k..] == bs[1..][k - 1..];
      forall x, y | x in bs[..k] && y in bs[k..]
        ensures x.when >= y.when
      {
        assert y in bs[1..];
        if x != bs[0] {
          assert x in bs[1..][..k - 1];
        }
      }
    }
  }

  lemma {:induction false} SuffixKeepsPaths(bs: seq<Backup>, k: nat)
    requires DistinctPaths(bs) && k <= |bs|
    ensures DistinctPaths(bs[k..])
  {
    if k > 0 {
      SuffixKeepsPaths(bs[1..], k - 1);
      assert bs[k..] == bs[1..][k - 1..];
    }
  }

  lemma {:induction false} JoinListings(bs: seq<Backup>, k: nat, tail: seq<Backup>)
    requires NewestFirst(bs) && k <= |bs| && NewestFirst(tail)
    requires forall x | x in tail :: x in bs[k..]
    ensures NewestFirst(bs[..k] + tail)
    decreases k
  {
    if k == 0 {
      assert bs[..0] + tail == tail;
    } else {
      var rest := bs[1..];
      assert bs[k..] == rest[k - 1..];
      JoinListings(rest, k - 1, tail);
      assert (bs[..k] + tail)[1..] == rest[..k - 1] + tail;
      assert forall x | x in rest[..k - 1] + tail :: x in rest;
    }
  }

  // -------------------------------------------- the rule as a set of paths

  lemma {:induction false} FirstPerWeekSubset(bs: seq<Backup>, budget: int, seen: set<(int, int)>)
    ensures Paths(FirstPerWeek(bs, budget, seen)) <= Paths(bs)
    ensures forall x | x in FirstPerWeek(bs, budget, seen) :: x in bs
    ensures |FirstPerWeek(bs, budget, seen)| <= if budget <= 0 then 0 else budget
  {
    if bs != [] && budget > 0 {
      FirstPerWeekSubset(bs[1..], budget, seen);
      FirstPerWeekSubset(bs[1..], budget - 1, seen + {bs[0].week});
    }
  }

  lemma {:induction false} FirstPerWeekOrder(bs: seq<Backup>, budget: int, seen: set<(int, int)>)
    requires NewestFirst(bs)
    ensures NewestFirst(FirstPerWeek(bs, budget, seen))
  {
    if bs != [] && budget > 0 {
      if bs[0].week in seen {
        FirstPerWeekOrder(bs[1..], budget, seen);
      } else {
        var rest := FirstPerWeek(bs[1..], budget - 1, seen + {bs[0].week});
        FirstPerWeekOrder(bs[1..], budget - 1, seen + {bs[0].week});
        FirstPerWeekSubset(bs[1..], budget - 1, seen + {bs[0].week});
        assert ([bs[0]] + rest)[1..] == rest;
      }
    }
  }

  lemma KeptPaths(bs: seq<Backup>, daily: int, weekly: int)
    ensures 0 < daily < |bs| ==>
              Paths(Kept(bs, daily, weekly)) == Paths(bs[..daily]) + Paths(FirstPerWeek(bs[daily..], weekly, {}))
  {
  }

  /** What a prune leaves is again a listing, and is what its paths select from the old one. */
  lemma KeptIsListing(bs: seq<Backup>, daily: int, weekly: int)
    requires NewestFirst(bs)
    ensures NewestFirst(Kept(bs, daily, weekly))
    ensures forall b | b in bs :: b in Kept(bs, daily, weekly) <==> b.path in Paths(Kept(bs, daily, weekly))
    ensures forall b | b in Kept(bs, daily, weekly) :: b in bs
  {
    var kept := Kept(bs, daily, weekly);
    if 0 < daily < |bs| {
      SuffixDescends(bs, daily);
      SuffixKeepsPaths(bs, daily);
      FirstPerWeekOrder(bs[daily..], weekly, {});
      FirstPerWeekSubset(bs[daily..], weekly, {});
      JoinListings(bs, daily, FirstPerWeek(bs[daily..], weekly, {}));
    }
    assert forall b | b in kept :: b in bs;
    forall b | b in bs && b.path in Paths(kept)
      ensures b in kept
    {
      var i :| 0 <= i < |kept| && kept[i].path == b.path;
      assert kept[i] in kept;
      if b != kept[i] {
        PathsTellApart(bs, b, kept[i]);
      }
    }
  }

  // ------------------------------------------------------------ the directory

  datatype DumpOutcome = PgDumpFailed(code: int) | TimedOut | Rejected | Sound(backup: Backup)

  /** The listing after one backup cycle, whatever timestamp the new backup has. */
  function AfterCycle(before: seq<Backup>, outcome: DumpOutcome, daily: int, weekly: int): seq<Backup> {
    match outcome
    case Sound(b) => Kept(Insert(b, before), daily, weekly)
    case _ => before
  }

  /** The files once `b` is written: a file of the same name is overwritten. */
  function WithNew(files: set<Backup>, b: Backup): set<Backup> {
    (set x | x in files && x.path != b.path) + {b}
  }

  lemma WeeklyStep(bs: seq<Backup>, i: nat, budget: int, seen: set<(int, int)>)
    requires i < |bs| && budget > 0
    ensures Paths(FirstPerWeek(bs[i..], budget, seen)) ==
              if bs[i].week in seen then Paths(FirstPerWeek(bs[i + 1..], budget, seen))
              else {bs[i].path} + Paths(FirstPerWeek(bs[i + 1..], budget - 1, seen + {bs[i].week}))
  {
  }

  /**
   The weekly loop, which both files of the source spell out: newest first, one path per unseen week, until the
   budget breaks it off.
   */
  method AddWeekly(keep0: set<int>, older: seq<Backup>, weeklyKeep: int) returns (keep: set<int>)
    ensures keep == keep0 + Paths(FirstPerWeek(older, weeklyKeep, {}))
  {
    keep := keep0;
    if older == [] || weeklyKeep <= 0 {
      return;
    }
    var seenWeeks: set<(int, int)> := {};
    var kept := 0;
    var i := 0;
    while i < |older|
      invariant 0 <= i <= |older| && 0 <= kept < weeklyKeep
      invariant keep + Paths(FirstPerWeek(older[i..], weeklyKeep - kept, seenWeeks))
             == keep0 + Paths(FirstPerWeek(older, weeklyKeep, {}))
    {
      var b := older[i];
      WeeklyStep(older, i, weeklyKeep - kept, seenWeeks);
      if b.week !in seenWeeks {
        seenWeeks := seenWeeks + {b.week};
        keep := keep + {b.path};
        kept := kept + 1;
        if kept >= weeklyKeep {
          break;
        }
      }
      i := i + 1;
    }
  }

  lemma ListedPaths(bs: seq<Backup>, files: set<Backup>)
    requires Lists(bs, files)
    ensures forall b | b in files :: b.path in Paths(bs)
    ensures forall p | p in Paths(bs) :: exists b :: b in files && b.path == p
  {
    forall b | b in files
      ensures b.path in Paths(bs)
    {
      assert b in bs;
    }
    forall p | p in Paths(bs)
      ensures exists b :: b in files && b.path == p
    {
      var i :| 0 <= i < |bs| && bs[i].path == p;
      assert bs[i] in bs;
      assert bs[i] in files;
    }
  }

  /** Without ties the listing after a write is the old one with the new file put in its place. */
  lemma NewListing(before: seq<Backup>, files: set<Backup>, b: Backup, listing: seq<Backup>)
    requires Lists(before, files) && NoTies([b] + before) && b.path !in Paths(before)
    requires Lists(listing, WithNew(files, b))
    ensures listing == Insert(b, before)
  {
    ListedPaths(before, files);
    assert forall x :: x in before <==> x in Elements(before);
    assert forall x :: x in listing <==> x in Elements(listing);
    assert forall x | x in before :: x.path != b.path;
    InsertElements(b, before);
    InsertDescends(b, before);
    InsertKeepsPaths(b, before);
    assert forall x :: x in listing <==> x in Insert(b, before);
    assert forall x | x in listing :: x in [b] + before;
    ListingIsUnique(listing, Insert(b, before));
  }

  /** Deleting from a listed directory whatever the rule does not keep leaves a directory listed by the rule. */
  lemma PrunedListing(bs: seq<Backup>, before: set<Backup>, after: set<Backup>, daily: int, weekly: int)
    requires Lists(bs, before)
    requires after == set b | b in before && (b.path in Paths(Kept(bs, daily, weekly)) || b.path !in Paths(bs))
    ensures Lists(Kept(bs, daily, weekly), after)
  {
    hide Kept, Paths;
    KeptIsListing(bs, daily, weekly);
    ListedPaths(bs, before);
    assert forall b :: b in bs <==> b in Elements(bs);
  }

  /** The listing after a run of backup cycles, oldest outcome first. */
  function Streamed(before: seq<Backup>, outcomes: seq<DumpOutcome>, daily: int, weekly: int): seq<Backup> {
    if outcomes == [] then before
    else
      var front := Streamed(before, outcomes[..|outcomes| - 1], daily, weekly);
      AfterCycle(front, outcomes[|outcomes| - 1], daily, weekly)
  }

  /** The files a directory has had: those it started with and every sound backup. */
  function Seen(before: seq<Backup>, outcomes: seq<DumpOutcome>): set<Backup> {
    if outcomes == [] then Elements(before)
    else
      var front := Seen(before, outcomes[..|outcomes| - 1]);
      match outcomes[|outcomes| - 1]
      case Sound(b) => front + {b}
      case _ => front
  }

  /** Every sound backup of the run has a name and a timestamp of its own. */
  predicate NewNames(before: seq<Backup>, outcomes: seq<DumpOutcome>) {
    if outcomes == [] then NoTies(before)
    else
      var front := outcomes[..|outcomes| - 1];
      NewNames(before, front) && match outcomes[|outcomes| - 1]
                                 case Sound(b) => forall x <- Seen(before, front) ::
                                   x.when != b.when && x.path != b.path
                                 case _ => true
  }

  lemma KeptSubset(bs: seq<Backup>, daily: int, weekly: int)
    ensures forall x | x in Kept(bs, daily, weekly) :: x in bs
  {
    if 0 < daily < |bs| {
      FirstPerWeekSubset(bs[daily..], weekly, {});
    }
  }

  lemma {:induction false} StreamedIsSeen(before: seq<Backup>, outcomes: seq<DumpOutcome>, daily: int, weekly: int)
    ensures forall x | x in Streamed(before, outcomes, daily, weekly) :: x in Seen(before, outcomes)
  {
    if outcomes != [] {
      var front := outcomes[..|outcomes| - 1];
      StreamedIsSeen(before, front, daily, weekly);
      match outcomes[|outcomes| - 1]
      case Sound(b) =>
        var listing := Insert(b, Streamed(before, front, daily, weekly));
        InsertElements(b, Streamed(before, front, daily, weekly));
        KeptSubset(listing, daily, weekly);
      case _ =>
    }
  }

  lemma {:induction false} SeenHasNoTies(before: seq<Backup>, outcomes: seq<DumpOutcome>)
    requires NewNames(before, outcomes)
    ensures forall x, y | x in Seen(before, outcomes) && y in Seen(before, outcomes) && x != y :: x.when != y.when
  {
    if outcomes == [] {
      assert forall x | x in Elements(before) :: x in before;
    } else {
      SeenHasNoTies(before, outcomes[..|outcomes| - 1]);
    }
  }

  /** The next sound backup ties with nothing that is still there. */
  lemma NextBackupIsNew(before: seq<Backup>, outcomes: seq<DumpOutcome>, b: Backup, daily: int, weekly: int)
    requires NewNames(before, outcomes + [Sound(b)])
    ensures NewNames(before, outcomes)
    ensures var listing := Streamed(before, outcomes, daily, weekly);
            NoTies([b] + listing) && b.path !in Paths(listing)
  {
    assert (outcomes + [Sound(b)])[..|outcomes|] == outcomes;
    var listing := Streamed(before, outcomes, daily, weekly);
    StreamedIsSeen(before, outcomes, daily, weekly);
    SeenHasNoTies(before, outcomes);
    assert forall x | x in [b] + listing :: x == b || x in Seen(before, outcomes);
  }

  lemma {:induction false} NewNamesOfPrefix(before: seq<Backup>, outcomes: seq<DumpOutcome>, i: nat)
    requires NewNames(before, outcomes) && i <= |outcomes|
    ensures NewNames(before, outcomes[..i])
    decreases |outcomes|
  {
    if i == |outcomes| {
      assert outcomes[..i] == outcomes;
    } else {
      assert outcomes[..|outcomes| - 1][..i] == outcomes[..i];
      NewNamesOfPrefix(before, outcomes[..|outcomes| - 1], i);
    }
  }

  class BackupDirectory {
    var files: set<Backup>

    /** A path names one file. */
    ghost predicate Valid()
      reads this
    {
      forall x, y | x in files && y in files && x != y :: x.path != y.path
    }

    constructor ()
      ensures Valid() && files == {}
    {
      files := {};
    }

    /** `_list_backups`: the directory is read in no particular order and sorted newest first. */
    method ListBackups() returns (bs: seq<Backup>)
      requires Valid()
      ensures Lists(bs, files)
    {
      bs := [];
      var todo := files;
      while todo != {}
        invariant todo <= files && Lists(bs, files - todo)
        decreases todo
      {
        var b :| b in todo;
        assert forall x | x in bs :: x in Elements(bs);
        InsertElements(b, bs);
        InsertDescends(b, bs);
        InsertKeepsPaths(b, bs);
        assert Elements(Insert(b, bs)) == Elements(bs) + {b};
        bs := Insert(b, bs);
        todo := todo - {b};
      }
    }

    /** `p.unlink()`, where a missing file is FileNotFoundError. */
    method Unlink(p: int) returns (found: bool)
      modifies this
      ensures files == set b | b in old(files) && b.path != p
      ensures found <==> exists b :: b in old(files) && b.path == p
      ensures old(Valid()) ==> Valid()
    {
      found := exists b :: b in files && b.path == p;
      files := set b | b in files && b.path != p;
    }

    /** `_delete_not_in`, on a listing that may be out of date: a file that is already gone is passed over. */
    method DeleteNotIn(backups: seq<Backup>, keep: set<int>) returns (deleted: seq<int>)
      modifies this
      ensures files == set b | b in old(files) && (b.path in keep || b.path !in Paths(backups))
      ensures forall p :: p in deleted <==>
                p in Paths(backups) && p !in keep && exists b :: b in old(files) && b.path == p
      ensures old(Valid()) ==> Valid()
    {
      deleted := [];
      for i := 0 to |backups|
        invariant files == set b | b in old(files) && (b.path in keep || b.path !in Paths(backups[..i]))
        invariant forall p :: p in deleted <==>
                    p in Paths(backups[..i]) && p !in keep && exists b :: b in old(files) && b.path == p
        invariant old(Valid()) ==> Valid()
      {
        var p := backups[i].path;
        PathsOfPrefix(backups, i);
        if p !in keep {
          var found := Unlink(p);
          if found {
            deleted := deleted + [p];
          }
        }
      }
      assert backups[..|backups|] == backups;
    }

    /** `_prune`: on a true listing of the directory the rule's files are what remains. */
    method Prune(backups: seq<Backup>, dailyKeep: int, weeklyKeep: int) returns (deleted: seq<int>)
      modifies this
      ensures files == set b | b in old(files) &&
                (b.path in Paths(Kept(backups, dailyKeep, weeklyKeep)) || b.path !in Paths(backups))
      ensures forall p | p in deleted :: p in Paths(backups) && p !in Paths(Kept(backups, dailyKeep, weeklyKeep))
      ensures Lists(backups, old(files)) ==> Lists(Kept(backups, dailyKeep, weeklyKeep), files)
      ensures Lists(backups, old(files)) ==>
                forall p | p in Paths(backups) && p !in Paths(Kept(backups, dailyKeep, weeklyKeep)) :: p in deleted
      ensures old(Valid()) ==> Valid()
    {
      var keep: set<int> := {};
      if dailyKeep > 0 {
        var head := if |backups| <= dailyKeep then backups else backups[..dailyKeep];
        var older := if |backups| <= dailyKeep then [] else backups[dailyKeep..];
        keep := AddWeekly(Paths(head), older, weeklyKeep);
      }
      KeptPaths(backups, dailyKeep, weeklyKeep);
      assert keep == Paths(Kept(backups, dailyKeep, weeklyKeep));
      deleted := DeleteNotIn(backups, keep);
      hide Kept, Paths, Lists;
      if Lists(backups, old(files)) {
        PrunedListing(backups, old(files), files, dailyKeep, weeklyKeep);
        ListedPaths(backups, old(files));
      }
    }

    /**
     `run_backup`: an unusable dump touches nothing. A sound one is written and the directory, listed anew in some
     order of equal timestamps, is pruned; without equal timestamps the result is determined.
     */
    method RunBackup(outcome: DumpOutcome, dailyKeep: int, weeklyKeep: int) returns (rc: int)
      requires Valid()
      modifies this
      ensures Valid()
      ensures rc == 0 <==> outcome.Sound?
      ensures outcome.PgDumpFailed? && outcome.code != 0 ==> rc == outcome.code
      ensures outcome.PgDumpFailed? && outcome.code == 0 ==> rc == 1
      ensures outcome.TimedOut? ==> rc == 124
      ensures outcome.Rejected? ==> rc == 3
      ensures !outcome.Sound? ==> files == old(files)
      ensures outcome.Sound? ==>
                exists listing :: Lists(listing, WithNew(old(files), outcome.backup))
                                  && Lists(Kept(listing, dailyKeep, weeklyKeep), files)
      ensures outcome.Sound? ==>
                forall before | Lists(before, old(files)) && NoTies([outcome.backup] + before)
                                && outcome.backup.path !in Paths(before) ::
                  Lists(AfterCycle(before, outcome, dailyKeep, weeklyKeep), files)
    {
      match outcome
      case PgDumpFailed(code) => rc := if code == 0 then 1 else code;
      case TimedOut => rc := 124;
      case Rejected => rc := 3;
      case Sound(b) =>
        files := WithNew(files, b);
        var listing := ListBackups();
        forall before | Lists(before, old(files)) && NoTies([b] + before) && b.path !in Paths(before)
          ensures listing == Insert(b, before)
        {
          NewListing(before, old(files), b, listing);
        }
        var _ := Prune(listing, dailyKeep, weeklyKeep);
        rc := 0;
    }

    /** One `run_backup` after another, from a directory listed by `before`. */
    method RunBackups(outcomes: seq<DumpOutcome>, dailyKeep: int, weeklyKeep: int, ghost before: seq<Backup>)
      requires Valid() && Lists(before, files) && NewNames(before, outcomes)
      modifies this
      ensures Valid() && Lists(Streamed(before, outcomes, dailyKeep, weeklyKeep), files)
    {
      for i := 0 to |outcomes|
        invariant Valid() && Lists(Streamed(before, outcomes[..i], dailyKeep, weeklyKeep), files)
      {
        hide Lists, Kept, NewNames, NoTies;
        assert outcomes[..i + 1] == outcomes[..i] + [outcomes[i]];
        assert outcomes[..i + 1][..i] == outcomes[..i];
        NewNamesOfPrefix(before, outcomes, i + 1);
        if outcomes[i].Sound? {
          NextBackupIsNew(before, outcomes[..i], outcomes[i].backup, dailyKeep, weeklyKeep);
        }
        var _ := RunBackup(outcomes[i], dailyKeep, weeklyKeep);
      }
      assert outcomes[..|outcomes|] == outcomes;
    }
  }

  // ------------------------------------------------------ streaming is batch

  /** Choosing weeks twice, the second time with one more week seen or one less in the budget, is choosing once. */
  lemma {:induction false} FirstPerWeekTwice(bs: seq<Backup>, wide: int, seen: set<(int, int)>, week: (int, int))
    ensures FirstPerWeek(FirstPerWeek(bs, wide, seen), wide, seen) == FirstPerWeek(bs, wide, seen)
    ensures week !in seen ==>
              FirstPerWeek(FirstPerWeek(bs, wide, seen), wide - 1, seen + {week})
                == FirstPerWeek(bs, wide - 1, seen + {week})
  {
    if bs == [] || wide <= 0 {
    } else if bs[0].week in seen {
      FirstPerWeekTwice(bs[1..], wide, seen, week);
    } else {
      var head, seen' := bs[0], seen + {bs[0].week};
      var rest := FirstPerWeek(bs[1..], wide - 1, seen');
      var once := FirstPerWeek(bs, wide, seen);
      assert once == [head] + rest && once[1..] == rest;
      FirstPerWeekTwice(bs[1..], wide - 1, seen', week);
      if week !in seen {
        if head.week == week {
          assert seen' == seen + {week};
        } else if wide > 1 {
          assert seen' + {week} == seen + {week} + {head.week};
        }
      }
    }
  }

  lemma {:induction false} FirstPerWeekOlder(bs: seq<Backup>, budget: int, seen: set<(int, int)>, b: Backup)
    requires bs != [] && Descending(bs) && b.when > bs[0].when
    ensures Insert(b, FirstPerWeek(bs, budget, seen)) == [b] + FirstPerWeek(bs, budget, seen)
  {
    FirstPerWeekSubset(bs, budget, seen);
    var firsts := FirstPerWeek(bs, budget, seen);
    if firsts != [] {
      assert firsts[0] in bs;
    }
  }

  /** A file put anywhere among the chosen, or among all, leads to the same choice. */
  lemma {:induction false} FirstPerWeekAbsorbs(b: Backup, bs: seq<Backup>, budget: int, seen: set<(int, int)>)
    requires Descending(bs)
    ensures FirstPerWeek(Insert(b, FirstPerWeek(bs, budget, seen)), budget, seen)
            == FirstPerWeek(Insert(b, bs), budget, seen)
  {
    if bs == [] || budget <= 0 {
    } else if b.when > bs[0].when {
      FirstPerWeekOlder(bs, budget, seen, b);
      FirstPerWeekTwice(bs, budget, seen, b.week);
      var firsts := FirstPerWeek(bs, budget, seen);
      assert ([b] + firsts)[1..] == firsts && ([b] + bs)[1..] == bs;
    } else {
      var head, tail := bs[0], bs[1..];
      var seen' := seen + {head.week};
      assert ([head] + Insert(b, tail))[1..] == Insert(b, tail);
      if head.week in seen {
        FirstPerWeekAbsorbs(b, tail, budget, seen);
      } else {
        FirstPerWeekAbsorbs(b, tail, budget - 1, seen');
        var rest := FirstPerWeek(tail, budget - 1, seen');
        assert ([head] + rest)[1..] == rest;
        assert ([head] + Insert(b, rest))[1..] == Insert(b, rest);
      }
    }
  }

  lemma InsertStep(b: Backup, head: Backup, tail: seq<Backup>)
    ensures Insert(b, [head] + tail) == if b.when > head.when then [b] + ([head] + tail) else [head] + Insert(b, tail)
  {
    assert ([head] + tail)[1..] == tail;
  }

  lemma LastIsOldest(a: seq<Backup>)
    requires a != [] && Descending(a)
    ensures a[|a| - 1].when <= a[0].when
  {
    assert |a| > 1 ==> a[|a| - 1] == a[1..][|a| - 2] && a[1..][|a| - 2] in a[1..];
  }

  lemma Associative(a: seq<Backup>, b: seq<Backup>, c: seq<Backup>)
    ensures a + (b + c) == (a + b) + c
  {
  }

  lemma {:induction false} InsertIntoJoined(b: Backup, a: seq<Backup>, c: seq<Backup>)
    requires Descending(a)
    ensures Insert(b, a + c) == if a != [] && b.when > a[|a| - 1].when then Insert(b, a) + c else a + Insert(b, c)
  {
    if a == [] {
      assert a + c == c;
    } else {
      var head, tail := a[0], a[1..];
      assert a == [head] + tail;
      Associative([head], tail, c);
      LastIsOldest(a);
      InsertStep(b, head, tail + c);
      InsertStep(b, head, tail);
      if b.when > head.when {
        Associative([b], a, c);
      } else {
        InsertIntoJoined(b, tail, c);
        Associative([head], tail, Insert(b, c));
        Associative([head], Insert(b, tail), c);
        assert tail != [] ==> tail[|tail| - 1] == a[|a| - 1];
      }
    }
  }

  lemma {:induction false} InsertLength(b: Backup, bs: seq<Backup>)
    ensures |Insert(b, bs)| == |bs| + 1
    ensures bs != [] && b.when > bs[|bs| - 1].when ==> Insert(b, bs)[|bs|] == bs[|bs| - 1]
  {
    if bs != [] && !(b.when > bs[0].when) {
      InsertLength(b, bs[1..]);
    }
  }

  lemma KeptOfJoined(head: seq<Backup>, older: seq<Backup>, daily: int, weekly: int)
    requires |head| == daily && daily > 0
    ensures Kept(head + older, daily, weekly) == head + FirstPerWeek(older, weekly, {})
  {
    if older == [] {
      assert head + older == head;
    } else {
      assert (head + older)[..daily] == head && (head + older)[daily..] == older;
    }
  }

  /** A file that falls out of the daily window is the newest of the older ones, chosen or not. */
  lemma PushedIntoWeekly(older: seq<Backup>, weekly: int, last: Backup)
    ensures FirstPerWeek([last] + FirstPerWeek(older, weekly, {}), weekly, {})
            == FirstPerWeek([last] + older, weekly, {})
  {
    var chosen := FirstPerWeek(older, weekly, {});
    FirstPerWeekTwice(older, weekly, {}, last.week);
    assert ([last] + chosen)[1..] == chosen && ([last] + older)[1..] == older;
    assert {} + {last.week} == {last.week};
  }

  lemma {:induction false} PrefixDescends(bs: seq<Backup>, k: nat)
    requires Descending(bs) && k <= |bs|
    ensures Descending(bs[..k])
  {
    if k > 0 {
      PrefixDescends(bs[1..], k - 1);
      assert bs[..k][1..] == bs[1..][..k - 1];
    }
  }

  lemma AbsorbInDaily(b: Backup, head: seq<Backup>, older: seq<Backup>, weekly: int)
    requires head != [] && Descending(head) && b.when > head[|head| - 1].when
    ensures Kept(Insert(b, head + FirstPerWeek(older, weekly, {})), |head|, weekly)
            == Kept(Insert(b, head + older), |head|, weekly)
  {
    hide Kept, FirstPerWeek;
    var chosen, last, daily := FirstPerWeek(older, weekly, {}), head[|head| - 1], |head|;
    InsertIntoJoined(b, head, older);
    InsertIntoJoined(b, head, chosen);
    InsertLength(b, head);
    var newHead := Insert(b, head)[..daily];
    assert Insert(b, head) == newHead + [last];
    PushedIntoWeekly(older, weekly, last);
    KeptOfJoined(newHead, [last] + older, daily, weekly);
    KeptOfJoined(newHead, [last] + chosen, daily, weekly);
    assert newHead + [last] + older == newHead + ([last] + older);
    assert newHead + [last] + chosen == newHead + ([last] + chosen);
  }

  lemma AbsorbInWeekly(b: Backup, head: seq<Backup>, older: seq<Backup>, weekly: int)
    requires head != [] && Descending(head) && Descending(older) && b.when <= head[|head| - 1].when
    ensures Kept(Insert(b, head + FirstPerWeek(older, weekly, {})), |head|, weekly)
            == Kept(Insert(b, head + older), |head|, weekly)
  {
    hide Kept, FirstPerWeek;
    var chosen := FirstPerWeek(older, weekly, {});
    InsertIntoJoined(b, head, older);
    InsertIntoJoined(b, head, chosen);
    FirstPerWeekAbsorbs(b, older, weekly, {});
    KeptOfJoined(head, Insert(b, older), |head|, weekly);
    KeptOfJoined(head, Insert(b, chosen), |head|, weekly);
  }

  /** Pruning an already pruned history after one more backup equals pruning the whole history with it. */
  lemma PruneAbsorbs(b: Backup, history: seq<Backup>, daily: int, weekly: int)
    requires Descending(history)
    ensures Kept(Insert(b, Kept(history, daily, weekly)), daily, weekly) == Kept(Insert(b, history), daily, weekly)
  {
    if 0 < daily < |history| {
      hide FirstPerWeek, Insert;
      var head, older := history[..daily], history[daily..];
      assert history == head + older;
      PrefixDescends(history, daily);
      SuffixDescends(history, daily);
      if b.when > history[daily - 1].when {
        AbsorbInDaily(b, head, older, weekly);
      } else {
        AbsorbInWeekly(b, head, older, weekly);
      }
    }
  }

  /** `_prune` deletes nothing the second time. */
  lemma PruneIsIdempotent(history: seq<Backup>, daily: int, weekly: int)
    ensures Kept(Kept(history, daily, weekly), daily, weekly) == Kept(history, daily, weekly)
    ensures |Kept(history, daily, weekly)| <= (if daily <= 0 then 0 else daily) + (if weekly <= 0 then 0 else weekly)
  {
    if 0 < daily < |history| {
      var kept := Kept(history, daily, weekly);
      FirstPerWeekTwice(history[daily..], weekly, {}, (0, 0));
      FirstPerWeekSubset(history[daily..], weekly, {});
      assert kept[..daily] == history[..daily] && kept[daily..] == FirstPerWeek(history[daily..], weekly, {});
    }
  }

  /** Every sound backup of the run put into an old listing, newest first, as if nothing had ever been pruned. */
  function History(before: seq<Backup>, outcomes: seq<DumpOutcome>): seq<Backup> {
    if outcomes == [] then before
    else
      var front := History(before, outcomes[..|outcomes| - 1]);
      match outcomes[|outcomes| - 1]
      case Sound(b) => Insert(b, front)
      case _ => front
  }

  /**
   Pruning after every cycle leaves exactly what one prune over the whole history would, for every retention setting,
   on any directory that was pruned before, and in whatever order the timestamps arrive.
   */
  lemma {:induction false} StreamingEqualsBatch(before: seq<Backup>, outcomes: seq<DumpOutcome>, daily: int,
                                                weekly: int)
    requires Descending(before)
    ensures Descending(History(before, outcomes))
    ensures Streamed(Kept(before, daily, weekly), outcomes, daily, weekly)
            == Kept(History(before, outcomes), daily, weekly)
  {
    if outcomes != [] {
      var front := outcomes[..|outcomes| - 1];
      StreamingEqualsBatch(before, front, daily, weekly);
      match outcomes[|outcomes| - 1]
      case Sound(b) =>
        PruneAbsorbs(b, History(before, front), daily, weekly);
        InsertDescends(b, History(before, front));
      case _ =>
    }
  }

  /** From an empty directory, any run of backups leaves the files one prune over the whole history would. */
  method BackupsFromScratch(outcomes: seq<DumpOutcome>, dailyKeep: int, weeklyKeep: int) returns (dir: BackupDirectory)
    requires NewNames([], outcomes)
    ensures Lists(Kept(History([], outcomes), dailyKeep, weeklyKeep), dir.files)
  {
    dir := new BackupDirectory();
    assert Elements([]) == {};
    dir.RunBackups(outcomes, dailyKeep, weeklyKeep, []);
    StreamingEqualsBatch([], outcomes, dailyKeep, weeklyKeep);
    assert Kept([], dailyKeep, weeklyKeep) == [];
  }

  // ----------------------------------------------------- what weeks are kept

  /** The weeks of `bs` that are not in `seen`. */
  function NewWeeks(bs: seq<Backup>, seen: set<(int, int)>): set<(int, int)> {
    (set b | b in bs :: b.week) - seen
  }

  lemma NewWeeksOfCons(b: Backup, bs: seq<Backup>, seen: set<(int, int)>)
    ensures b.week in seen ==> NewWeeks([b] + bs, seen) == NewWeeks(bs, seen)
    ensures b.week !in seen ==>
              && NewWeeks([b] + bs, seen) == NewWeeks(bs, seen + {b.week}) + {b.week}
              && |NewWeeks([b] + bs, seen)| == |NewWeeks(bs, seen + {b.week})| + 1
  {
    assert forall x :: x in [b] + bs <==> x == b || x in bs;
  }

  /** `bs[i]` is the newest of an unseen week, and fewer than `budget` unseen weeks are newer. */
  predicate OpensWeekWithin(bs: seq<Backup>, budget: int, seen: set<(int, int)>, i: nat)
    requires i < |bs|
  {
    bs[i].week !in seen && bs[i].week !in NewWeeks(bs[..i], seen) && |NewWeeks(bs[..i], seen)| < budget
  }

  lemma OpensWeekStep(bs: seq<Backup>, budget: int, seen: set<(int, int)>, i: nat)
    requires 0 < i < |bs|
    ensures var w, tail := bs[0].week, bs[1..];
            OpensWeekWithin(bs, budget, seen, i) <==>
              if w in seen then OpensWeekWithin(tail, budget, seen, i - 1)
              else OpensWeekWithin(tail, budget - 1, seen + {w}, i - 1)
  {
    assert bs[..i] == [bs[0]] + bs[1..][..i - 1];
    NewWeeksOfCons(bs[0], bs[1..][..i - 1], seen);
  }

  lemma FirstPerWeekStep(bs: seq<Backup>, budget: int, seen: set<(int, int)>, i: nat)
    requires 0 < i < |bs| && NewestFirst(bs)
    ensures var w, tail := bs[0].week, bs[1..];
            bs[i] in FirstPerWeek(bs, budget, seen) <==>
              if w in seen then tail[i - 1] in FirstPerWeek(tail, budget, seen)
              else tail[i - 1] in FirstPerWeek(tail, budget - 1, seen + {w})
  {
  }

  lemma FirstPerWeekHead(bs: seq<Backup>, budget: int, seen: set<(int, int)>)
    requires bs != [] && NewestFirst(bs)
    ensures bs[0] in FirstPerWeek(bs, budget, seen) <==> bs[0].week !in seen && 0 < budget
  {
    FirstPerWeekSubset(bs[1..], budget, seen);
    assert bs[0] !in bs[1..];
  }

  /** The weekly part is right: outside the daily window exactly those files survive. */
  lemma {:induction false} FirstPerWeekMeaning(bs: seq<Backup>, budget: int, seen: set<(int, int)>, i: nat)
    requires i < |bs| && NewestFirst(bs)
    ensures bs[i] in FirstPerWeek(bs, budget, seen) <==> OpensWeekWithin(bs, budget, seen, i)
    decreases |bs|
  {
    if i == 0 {
      FirstPerWeekHead(bs, budget, seen);
      assert NewWeeks(bs[..0], seen) == {};
    } else {
      OpensWeekStep(bs, budget, seen, i);
      FirstPerWeekStep(bs, budget, seen, i);
      if bs[0].week in seen {
        FirstPerWeekMeaning(bs[1..], budget, seen, i - 1);
      } else {
        FirstPerWeekMeaning(bs[1..], budget - 1, seen + {bs[0].week}, i - 1);
      }
    }
  }

  // ---------------------------------------------- the rule, file by file

  /** `bs[i]` is the newest of its week from `start` on, and fewer than `budget` weeks there are newer. */
  predicate OpensWeek(bs: seq<Backup>, start: nat, budget: int, i: nat)
    requires i < |bs|
  {
    && start <= i && (forall j | start <= j < i :: bs[j].week != bs[i].week)
    && |set j | start <= j < i :: bs[j].week| < budget
  }

  lemma OpensWeekFrom(bs: seq<Backup>, start: nat, budget: int, i: nat)
    requires start <= i < |bs|
    ensures OpensWeek(bs, start, budget, i) <==> OpensWeekWithin(bs[start..], budget, {}, i - start)
  {
    var newer := bs[start..][..i - start];
    var weeks := set j | start <= j < i :: bs[j].week;
    assert newer == bs[start..i];
    forall w
      ensures w in NewWeeks(newer, {}) <==> w in weeks
    {
      if w in weeks {
        var j :| start <= j < i && bs[j].week == w;
        assert newer[j - start] == bs[j] && newer[j - start] in newer;
      }
    }
    assert NewWeeks(newer, {}) == weeks;
  }

  lemma {:induction false} PathsAreDistinct(bs: seq<Backup>, i: nat, j: nat)
    requires DistinctPaths(bs) && i < j < |bs|
    ensures bs[i].path != bs[j].path
  {
    if i == 0 {
      assert bs[1..][j - 1] in bs[1..];
    } else {
      PathsAreDistinct(bs[1..], i - 1, j - 1);
    }
  }

  lemma InDailyWindowIff(bs: seq<Backup>, k: nat, i: nat)
    requires DistinctPaths(bs) && k <= |bs| && i < |bs|
    ensures bs[i].path in Paths(bs[..k]) <==> i < k
    ensures bs[i] in bs[..k] <==> i < k
  {
    if i < k {
      assert bs[..k][i] == bs[i];
    } else {
      forall j | 0 <= j < k
        ensures bs[..k][j].path != bs[i].path
      {
        PathsAreDistinct(bs, j, i);
      }
    }
  }

  lemma PathOfChosen(bs: seq<Backup>, chosen: seq<Backup>, b: Backup)
    requires DistinctPaths(bs) && b in bs && forall x | x in chosen :: x in bs
    ensures b.path in Paths(chosen) <==> b in chosen
  {
    if b.path in Paths(chosen) {
      var k :| 0 <= k < |chosen| && chosen[k].path == b.path;
      assert chosen[k] in chosen;
      if chosen[k] != b {
        PathsTellApart(bs, chosen[k], b);
      }
    }
  }

  lemma InTailIff(bs: seq<Backup>, start: nat, i: nat)
    requires DistinctPaths(bs) && start <= |bs| && i < |bs|
    ensures bs[i] in bs[start..] <==> start <= i
  {
    if start <= i {
      assert bs[start..][i - start] == bs[i];
    } else if bs[i] in bs[start..] {
      var j :| 0 <= j < |bs[start..]| && bs[start..][j] == bs[i];
      PathsAreDistinct(bs, i, start + j);
    }
  }

  lemma InWeeklyTailIff(bs: seq<Backup>, start: nat, weekly: int, i: nat)
    requires NewestFirst(bs) && start <= i < |bs|
    ensures bs[i] in FirstPerWeek(bs[start..], weekly, {}) <==> OpensWeek(bs, start, weekly, i)
  {
    hide OpensWeek, OpensWeekWithin;
    SuffixDescends(bs, start);
    SuffixKeepsPaths(bs, start);
    OpensWeekFrom(bs, start, weekly, i);
    FirstPerWeekMeaning(bs[start..], weekly, {}, i - start);
  }

  lemma InWeeklyWindowIff(bs: seq<Backup>, start: nat, weekly: int, i: nat)
    requires NewestFirst(bs) && start <= |bs| && i < |bs|
    ensures var chosen := FirstPerWeek(bs[start..], weekly, {});
            && (bs[i] in chosen <==> OpensWeek(bs, start, weekly, i))
            && (bs[i].path in Paths(chosen) <==> bs[i] in chosen)
  {
    assert OpensWeek(bs, start, weekly, i) ==> start <= i;
    hide OpensWeek, Paths;
    FirstPerWeekSubset(bs[start..], weekly, {});
    PathOfChosen(bs, FirstPerWeek(bs[start..], weekly, {}), bs[i]);
    InTailIff(bs, start, i);
    if start <= i {
      InWeeklyTailIff(bs, start, weekly, i);
    }
  }

  /**
   What a prune keeps: the newest `daily` files, and of the others the newest of each of the `weekly` most recent weeks;
   nothing for a non-positive daily window.
   */
  lemma KeptMeans(bs: seq<Backup>, daily: int, weekly: int, i: nat)
    requires NewestFirst(bs) && i < |bs|
    ensures bs[i] in Kept(bs, daily, weekly) <==> daily > 0 && (i < daily || OpensWeek(bs, daily, weekly, i))
  {
    if 0 < daily < |bs| {
      InDailyWindowIff(bs, daily, i);
      InWeeklyWindowIff(bs, daily, weekly, i);
    }
  }

  // ------------------------------------------------ weeks held, calendar weeks

  /** Weeks numbered consecutively: newer files never in a lower week, one number to a week, none after today's. */
  predicate Numbered(bs: seq<Backup>, number: ((int, int)) -> int, today: int) {
    && (forall i | 0 <= i < |bs| :: number(bs[i].week) <= today)
    && forall i, j | 0 <= i < j < |bs| ::
         number(bs[i].week) >= number(bs[j].week)
           && (number(bs[i].week) == number(bs[j].week) ==> bs[i].week == bs[j].week)
  }

  /** The docstring's reading: the newest file of its week, and that week less than `budget` weeks back from today's. */
  predicate InCalendarWindow(bs: seq<Backup>, number: ((int, int)) -> int, today: int, budget: int, i: nat)
    requires i < |bs|
  {
    bs[i].week !in NewWeeks(bs[..i], {}) && today - number(bs[i].week) < budget
  }

  lemma {:induction false} SubsetSize<T>(a: set<T>, b: set<T>)
    requires a <= b
    ensures |a| <= |b|
    decreases a
  {
    if a != {} {
      var x :| x in a;
      SubsetSize(a - {x}, b - {x});
    }
  }

  lemma NewWeeksGrow(bs: seq<Backup>, i: nat, j: nat)
    requires i <= j <= |bs|
    ensures NewWeeks(bs[..i], {}) <= NewWeeks(bs[..j], {}) && |NewWeeks(bs[..i], {})| <= |NewWeeks(bs[..j], {})|
  {
    assert forall b | b in bs[..i] :: b in bs[..j];
    SubsetSize(NewWeeks(bs[..i], {}), NewWeeks(bs[..j], {}));
  }

  lemma NewWeeksOfSnoc(bs: seq<Backup>, k: nat)
    requires k < |bs|
    ensures NewWeeks(bs[..k + 1], {}) == NewWeeks(bs[..k], {}) + {bs[k].week}
  {
    assert bs[..k + 1] == bs[..k] + [bs[k]];
    assert forall x :: x in bs[..k + 1] <==> x in bs[..k] || x == bs[k];
  }

  lemma WeekSeen(bs: seq<Backup>, i: nat, k: nat)
    requires i < k <= |bs|
    ensures bs[i].week in NewWeeks(bs[..k], {})
  {
    assert bs[i] in bs[..k];
  }

  lemma NoWeeks(bs: seq<Backup>)
    ensures NewWeeks(bs[..0], {}) == {}
  {
  }

  /** The weeks that hold the first files are no more than the calendar weeks they span. */
  lemma {:induction false} WeeksFitTheirSpan(bs: seq<Backup>, number: ((int, int)) -> int, today: int, k: nat)
    requires Numbered(bs, number, today) && 0 < k <= |bs|
    ensures |NewWeeks(bs[..k], {})| <= today - number(bs[k - 1].week) + 1
    decreases k
  {
    hide NewWeeks;
    NewWeeksOfSnoc(bs, k - 1);
    if k == 1 {
      NoWeeks(bs);
    } else {
      WeeksFitTheirSpan(bs, number, today, k - 1);
      WeekSeen(bs, k - 2, k - 1);
      var before, week := NewWeeks(bs[..k - 1], {}), bs[k - 1].week;
      if week in before {
        assert before + {week} == before;
      }
    }
  }

  lemma {:induction false} FirstOfItsWeek(bs: seq<Backup>, j: nat) returns (i: nat)
    requires j < |bs|
    ensures i <= j && bs[i].week == bs[j].week && bs[i].week !in NewWeeks(bs[..i], {})
    decreases j
  {
    if bs[j].week in NewWeeks(bs[..j], {}) {
      var b :| b in bs[..j] && b.week == bs[j].week;
      var k :| 0 <= k < j && bs[k] == b;
      i := FirstOfItsWeek(bs, k);
    } else {
      i := j;
    }
  }

  lemma NewerWeeksThanAge(bs: seq<Backup>, number: ((int, int)) -> int, today: int, i: nat)
    requires Numbered(bs, number, today) && i < |bs| && bs[i].week !in NewWeeks(bs[..i], {})
    ensures |NewWeeks(bs[..i], {})| <= today - number(bs[i].week)
  {
    if i == 0 {
      assert NewWeeks(bs[..0], {}) == {};
    } else {
      WeeksFitTheirSpan(bs, number, today, i);
      assert bs[i - 1] in bs[..i];
      assert bs[i - 1].week in NewWeeks(bs[..i], {});
    }
  }

  lemma KeptWeekMeans(bs: seq<Backup>, budget: int, number: ((int, int)) -> int, today: int, i: nat)
    requires NewestFirst(bs) && Numbered(bs, number, today) && i < |bs|
    ensures var newer := NewWeeks(bs[..i], {});
            && (bs[i] in FirstPerWeek(bs, budget, {}) <==> bs[i].week !in newer && |newer| < budget)
            && (bs[i].week !in newer ==> |newer| <= today - number(bs[i].week))
  {
    FirstPerWeekMeaning(bs, budget, {}, i);
    if bs[i].week !in NewWeeks(bs[..i], {}) {
      NewerWeeksThanAge(bs, number, today, i);
    }
  }

  /** Past the calendar window with budget left: the first file of that week is kept against the calendar. */
  lemma KeptBeyondCalendar(bs: seq<Backup>, budget: int, number: ((int, int)) -> int, today: int, j: nat)
    returns (i: nat)
    requires NewestFirst(bs) && Numbered(bs, number, today) && j < |bs|
    requires today - number(bs[j].week) >= budget && |NewWeeks(bs[..j], {})| < budget
    ensures i < |bs| && bs[i] in FirstPerWeek(bs, budget, {}) && !InCalendarWindow(bs, number, today, budget, i)
  {
    hide NewWeeks, FirstPerWeek, NewestFirst, Numbered;
    i := FirstOfItsWeek(bs, j);
    NewWeeksGrow(bs, i, j);
    KeptWeekMeans(bs, budget, number, today, i);
  }

  /** Every file older than the window has a full budget of newer weeks before it. */
  predicate BudgetSpentInWindow(bs: seq<Backup>, budget: int, number: ((int, int)) -> int, today: int) {
    forall j | 0 <= j < |bs| && today - number(bs[j].week) >= budget :: |NewWeeks(bs[..j], {})| >= budget
  }

  /**
   `_prune` spends its weekly budget on weeks that hold a backup. It keeps all that a window of calendar weeks would,
   and the same files exactly when every file older than that window has a full budget of newer weeks before it.
   */
  lemma WeeklyWindowIsCalendarIff(bs: seq<Backup>, budget: int, number: ((int, int)) -> int, today: int)
    requires NewestFirst(bs) && Numbered(bs, number, today)
    ensures forall i | 0 <= i < |bs| && InCalendarWindow(bs, number, today, budget, i) ::
            bs[i] in FirstPerWeek(bs, budget, {})
    ensures (forall i | 0 <= i < |bs| ::
               bs[i] in FirstPerWeek(bs, budget, {}) <==> InCalendarWindow(bs, number, today, budget, i))
       <==> BudgetSpentInWindow(bs, budget, number, today)
  {
    hide NewWeeks, FirstPerWeek, NewestFirst, Numbered;
    forall i | 0 <= i < |bs|
      ensures InCalendarWindow(bs, number, today, budget, i) ==> bs[i] in FirstPerWeek(bs, budget, {})
      ensures BudgetSpentInWindow(bs, budget, number, today) ==>
                (bs[i] in FirstPerWeek(bs, budget, {}) <==> InCalendarWindow(bs, number, today, budget, i))
    {
      KeptWeekMeans(bs, budget, number, today, i);
    }
    if j :| 0 <= j < |bs| && today - number(bs[j].week) >= budget && |NewWeeks(bs[..j], {})| < budget {
      var i := KeptBeyondCalendar(bs, budget, number, today, j);
    }
  }

  /** With a gap of seven weeks a budget of two keeps a file eight weeks old. */
  lemma GapKeepsAnOldWeek()
    ensures var bs := [Backup(20, (2024, 10), 1), Backup(10, (2024, 3), 2)];
            var number := (week: (int, int)) => week.1;
            && NewestFirst(bs) && Numbered(bs, number, 11)
            && bs[1] in FirstPerWeek(bs, 2, {}) && !InCalendarWindow(bs, number, 11, 2, 1)
  {
    var bs := [Backup(20, (2024, 10), 1), Backup(10, (2024, 3), 2)];
    assert bs[1..] == [bs[1]] && bs[1..][1..] == [];
    assert FirstPerWeek(bs[1..], 1, {} + {(2024, 10)}) == [bs[1]];
  }

  // ------------------------------------------------------- the operator's view

  datatype Kind = Daily | Weekly | Extra

  /** Python's `xs[k:]`, whose negative `k` counts from the end. */
  function SliceFrom(bs: seq<Backup>, k: int): seq<Backup> {
    if k >= |bs| then [] else if k >= 0 then bs[k..] else if -k >= |bs| then bs else bs[|bs| + k..]
  }

  function DailyPaths(bs: seq<Backup>, daily: int): set<int> {
    if daily <= 0 then {} else Paths(if |bs| <= daily then bs else bs[..daily])
  }

  function WeeklyPaths(bs: seq<Backup>, daily: int, weekly: int): set<int> {
    if |bs| <= daily then {} else Paths(FirstPerWeek(SliceFrom(bs, daily), weekly, {}))
  }

  function LabelIn(dailySet: set<int>, weeklySet: set<int>, path: int): Kind {
    if path in dailySet then Daily else if path in weeklySet then Weekly else Extra
  }

  /** The label `list_backup_payloads` gives a listed path. */
  function Label(bs: seq<Backup>, daily: int, weekly: int, path: int): Kind {
    LabelIn(DailyPaths(bs, daily), WeeklyPaths(bs, daily, weekly), path)
  }

  /** The two retention windows `list_backup_payloads` marks. */
  method RetentionWindows(indexed: seq<Backup>, dailyKeep: int, weeklyKeep: int)
    returns (dailySet: set<int>, weeklySet: set<int>)
    ensures dailySet == DailyPaths(indexed, dailyKeep)
    ensures weeklySet == WeeklyPaths(indexed, dailyKeep, weeklyKeep)
  {
    dailySet, weeklySet := {}, {};
    if dailyKeep > 0 {
      dailySet := Paths(if |indexed| <= dailyKeep then indexed else indexed[..dailyKeep]);
    }
    if weeklyKeep > 0 && |indexed| > dailyKeep {
      weeklySet := AddWeekly({}, SliceFrom(indexed, dailyKeep), weeklyKeep);
    }
  }

  /** `list_backup_payloads`, reduced to its (path, kind) columns. */
  method ListBackupPayloads(indexed: seq<Backup>, dailyKeep: int, weeklyKeep: int) returns (rows: seq<(int, Kind)>)
    ensures |rows| == |indexed|
    ensures forall i | 0 <= i < |rows| ::
              rows[i] == (indexed[i].path, Label(indexed, dailyKeep, weeklyKeep, indexed[i].path))
  {
    var dailySet, weeklySet := RetentionWindows(indexed, dailyKeep, weeklyKeep);
    rows := [];
    for i := 0 to |indexed|
      invariant |rows| == i
      invariant forall k | 0 <= k < i :: rows[k] == (indexed[k].path, LabelIn(dailySet, weeklySet, indexed[k].path))
    {
      var p := indexed[i].path;
      rows := rows + [(p, if p in dailySet then Daily else if p in weeklySet then Weekly else Extra)];
    }
  }

  // ----------------------------------------------------- the label is honest

  /** Where the weekly window of the page starts; a negative daily window counts from the end of the listing. */
  function WeeklyStart(count: nat, daily: int): int {
    if daily >= 0 then daily else if -daily >= count then 0 else count + daily
  }

  /**
   The labels: the first `daily` files are daily, of the files from the start of the weekly window on the newest of each
   of the `weekly` most recent weeks is weekly, and the rest are extra.
   */
  lemma LabelMeans(bs: seq<Backup>, daily: int, weekly: int, i: nat)
    requires NewestFirst(bs) && i < |bs|
    ensures Label(bs, daily, weekly, bs[i].path) ==
              if i < daily then Daily
              else if OpensWeek(bs, WeeklyStart(|bs|, daily), weekly, i) then Weekly else Extra
  {
    var start := WeeklyStart(|bs|, daily);
    if 0 < daily < |bs| {
      InDailyWindowIff(bs, daily, i);
    } else if daily >= |bs| {
      assert bs[i] in bs;
    }
    if daily < |bs| {
      assert SliceFrom(bs, daily) == bs[start..];
      InWeeklyWindowIff(bs, start, weekly, i);
    }
  }

  /** For a positive daily window a file is labelled extra exactly when the next prune of this listing deletes it. */
  lemma ExtraMeansPruned(bs: seq<Backup>, daily: int, weekly: int, i: nat)
    requires i < |bs| && daily >= 1
    ensures Label(bs, daily, weekly, bs[i].path) == Extra <==> bs[i].path !in Paths(Kept(bs, daily, weekly))
  {
  }

  /**
   With a non-positive daily window `_prune` deletes everything while the page still labels weeks.
   The two agree on a whole listing exactly under this condition.
   */
  lemma LabelsAgreeWithPruneIff(bs: seq<Backup>, daily: int, weekly: int)
    ensures (forall i | 0 <= i < |bs| ::
               Label(bs, daily, weekly, bs[i].path) == Extra <==> bs[i].path !in Paths(Kept(bs, daily, weekly)))
       <==> (daily >= 1 || weekly <= 0 || bs == [])
  {
    if daily >= 1 {
      forall i | 0 <= i < |bs|
        ensures Label(bs, daily, weekly, bs[i].path) == Extra <==> bs[i].path !in Paths(Kept(bs, daily, weekly))
      {
        ExtraMeansPruned(bs, daily, weekly, i);
      }
    } else if weekly > 0 && bs != [] {
      var rest := SliceFrom(bs, daily);
      var firsts := FirstPerWeek(rest, weekly, {});
      assert firsts[0] == rest[0];
      var k := if daily == 0 || -daily >= |bs| then 0 else |bs| + daily;
      assert rest[0] == bs[k];
      assert bs[k].path in Paths(firsts);
      assert Label(bs, daily, weekly, bs[k].path) == Weekly;
    }
  }

  /** A daily window of 0 deletes the only backup while the page calls it weekly. */
  lemma WeeklyLabelOnADeletedFile()
    ensures var bs := [Backup(1, (2024, 1), 7)];
            Kept(bs, 0, 1) == [] && Label(bs, 0, 1, 7) == Weekly
  {
    var bs := [Backup(1, (2024, 1), 7)];
    assert FirstPerWeek(bs, 1, {}) == bs;
    assert bs[0].path in Paths(bs);
  }
}
