/** What the two-phase rename guarantees, for plans whose sources are present
    and distinct, whose targets are distinct, and whose staging names are
    free and are nobody's target: the contents end up at their targets, a
    failure leaves a described intermediate state, and nothing is lost. */
module ExecutionSafety {
  import opened Paths
  import opened Execution

  function Sources(rs: seq<(Path, Path)>): set<Path> {
    set i | 0 <= i < |rs| :: rs[i].0
  }

  function Temps(rs: seq<(Path, Path)>): set<Path> {
    set i | 0 <= i < |rs| :: TempPath(rs[i].0)
  }

  function Targets(rs: seq<(Path, Path)>): set<Path> {
    set i | 0 <= i < |rs| :: rs[i].1
  }

  /** `x` has the same content before and after, or is absent from both. */
  ghost predicate Untouched(before: Files, after: Files, x: Path) {
    (x in after <==> x in before) && (x in after ==> after[x] == before[x])
  }

  /** What `rename_files` does not check but relies on: every source exists,
      sources are distinct, targets are distinct, and every staging name is
      free and is not a target. */
  ghost predicate SafePlan(files: Files, rs: seq<(Path, Path)>) {
    && (forall i :: 0 <= i < |rs| ==> rs[i].0 in files && TempPath(rs[i].0) !in files)
    && (forall i, j :: 0 <= i < j < |rs| ==> rs[i].0 != rs[j].0 && rs[i].1 != rs[j].1)
    && (forall i, j :: 0 <= i < |rs| && 0 <= j < |rs| ==> TempPath(rs[i].0) != rs[j].1)
  }

  /** The first `k` sources are at their staging names with their contents,
      and nothing else has changed. */
  ghost predicate StagedUpTo(before: Files, after: Files, rs: seq<(Path, Path)>, k: nat)
    requires k <= |rs|
  {
    && (forall i :: 0 <= i < k ==>
          rs[i].0 in before && rs[i].0 !in after &&
          TempPath(rs[i].0) in after && after[TempPath(rs[i].0)] == before[rs[i].0])
    && (forall x :: x !in Sources(rs[..k]) && x !in Temps(rs[..k]) ==> Untouched(before, after, x))
  }

  /** The first `k` contents are at their targets, the others still at their
      staging names; no source keeps its old content; nothing outside the
      plan has changed. */
  ghost predicate CommittedUpTo(before: Files, after: Files, rs: seq<(Path, Path)>, k: nat)
    requires k <= |rs|
  {
    && (forall i :: 0 <= i < k ==>
          rs[i].0 in before && TempPath(rs[i].0) !in after &&
          rs[i].1 in after && after[rs[i].1] == before[rs[i].0])
    && (forall i :: k <= i < |rs| ==>
          rs[i].0 in before &&
          TempPath(rs[i].0) in after && after[TempPath(rs[i].0)] == before[rs[i].0])
    && (forall x :: x in Sources(rs) && x !in Targets(rs[..k]) ==> x !in after)
    && (forall x :: x !in Sources(rs) && x !in Temps(rs) && x !in Targets(rs[..k]) ==>
          Untouched(before, after, x))
  }

  /** Staging rename `i` is refused. */
  predicate StageDenied(denied: set<(Path, Path)>, rs: seq<(Path, Path)>, i: nat)
    requires i < |rs|
  {
    (rs[i].0, TempPath(rs[i].0)) in denied
  }

  /** Commit rename `i` is refused. */
  predicate CommitDenied(denied: set<(Path, Path)>, rs: seq<(Path, Path)>, i: nat)
    requires i < |rs|
  {
    (TempPath(rs[i].0), rs[i].1) in denied
  }

  lemma PrefixSets(rs: seq<(Path, Path)>, k: nat)
    requires k < |rs|
    ensures Sources(rs[..k + 1]) == Sources(rs[..k]) + {rs[k].0}
    ensures Temps(rs[..k + 1]) == Temps(rs[..k]) + {TempPath(rs[k].0)}
    ensures Targets(rs[..k + 1]) == Targets(rs[..k]) + {rs[k].1}
  {
    var a, b := rs[..k + 1], rs[..k];
    assert forall i :: 0 <= i < k ==> a[i] == b[i];
    assert a[k] == rs[k];
  }

  /** One staging rename extends the staged prefix by one. */
  lemma StageStep(before: Files, now: Files, rs: seq<(Path, Path)>, k: nat)
    requires SafePlan(before, rs) && k < |rs|
    requires StagedUpTo(before, now, rs, k)
    ensures rs[k].0 in now
    ensures StagedUpTo(before, Move(now, rs[k].0, TempPath(rs[k].0)), rs, k + 1)
  {
    var s, t := rs[k].0, TempPath(rs[k].0);
    PrefixSets(rs, k);
    forall i | 0 <= i < k ensures TempPath(rs[i].0) != t {
      TempPathInjective(rs[i].0, s);
    }
    assert s !in Sources(rs[..k]);
    assert s !in Temps(rs[..k]);
    assert Untouched(before, now, s);
    var after := Move(now, s, t);
    forall x | x !in Sources(rs[..k + 1]) && x !in Temps(rs[..k + 1])
      ensures Untouched(before, after, x)
    {
      assert Untouched(before, now, x);
    }
  }

  /** One commit rename extends the committed prefix by one. */
  lemma CommitStep(before: Files, now: Files, rs: seq<(Path, Path)>, k: nat)
    requires SafePlan(before, rs) && k < |rs|
    requires CommittedUpTo(before, now, rs, k)
    ensures TempPath(rs[k].0) in now
    ensures CommittedUpTo(before, Move(now, TempPath(rs[k].0), rs[k].1), rs, k + 1)
  {
    var t, g := TempPath(rs[k].0), rs[k].1;
    var after := Move(now, t, g);
    PrefixSets(rs, k);
    forall i | 0 <= i < |rs| && i != k ensures TempPath(rs[i].0) != t {
      TempPathInjective(rs[i].0, rs[k].0);
    }
    forall x | x in Sources(rs) && x !in Targets(rs[..k + 1]) ensures x !in after {
      assert x !in Targets(rs[..k]);
    }
    forall x | x !in Sources(rs) && x !in Temps(rs) && x !in Targets(rs[..k + 1])
      ensures Untouched(before, after, x)
    {
      assert Untouched(before, now, x);
    }
  }

  /** When every source is staged, the commit pass starts from that state. */
  lemma StagedIsCommittedNone(before: Files, now: Files, rs: seq<(Path, Path)>)
    requires SafePlan(before, rs)
    requires StagedUpTo(before, now, rs, |rs|)
    ensures CommittedUpTo(before, now, rs, 0)
  {
    assert rs[..|rs|] == rs;
    forall x | x in Sources(rs) ensures x !in now {
      var i :| 0 <= i < |rs| && rs[i].0 == x;
    }
  }

  /** While no staging rename is refused, the first pass stages one source
      after the other. */
  lemma {:induction false} StagingRun(before: Files, denied: set<(Path, Path)>, rs: seq<(Path, Path)>, k: nat)
    requires SafePlan(before, rs) && k <= |rs|
    requires forall i :: 0 <= i < k ==> !StageDenied(denied, rs, i)
    ensures !Apply(before, denied, StageMoves(rs)[..k]).failed
    ensures StagedUpTo(before, Apply(before, denied, StageMoves(rs)[..k]).files, rs, k)
  {
    var moves := StageMoves(rs);
    if k == 0 {
      assert moves[..0] == [];
    } else {
      StagingRun(before, denied, rs, k - 1);
      var now := Apply(before, denied, moves[..k - 1]).files;
      StageStep(before, now, rs, k - 1);
      ApplyExtend(before, denied, moves, k - 1, now);
      assert moves[k - 1] == (rs[k - 1].0, TempPath(rs[k - 1].0));
      assert !StageDenied(denied, rs, k - 1);
      assert CanMove(now, denied, moves[k - 1].0, moves[k - 1].1);
    }
  }

  /** While no commit rename is refused, the second pass commits one staged
      file after the other. */
  lemma {:induction false} CommitRun(before: Files, staged: Files, denied: set<(Path, Path)>,
                                     rs: seq<(Path, Path)>, k: nat)
    requires SafePlan(before, rs) && k <= |rs|
    requires StagedUpTo(before, staged, rs, |rs|)
    requires forall i :: 0 <= i < k ==> !CommitDenied(denied, rs, i)
    ensures !Apply(staged, denied, CommitMoves(rs)[..k]).failed
    ensures CommittedUpTo(before, Apply(staged, denied, CommitMoves(rs)[..k]).files, rs, k)
  {
    var moves := CommitMoves(rs);
    if k == 0 {
      assert moves[..0] == [];
      StagedIsCommittedNone(before, staged, rs);
    } else {
      CommitRun(before, staged, denied, rs, k - 1);
      var now := Apply(staged, denied, moves[..k - 1]).files;
      CommitStep(before, now, rs, k - 1);
      ApplyExtend(staged, denied, moves, k - 1, now);
      assert moves[k - 1] == (TempPath(rs[k - 1].0), rs[k - 1].1);
      assert !CommitDenied(denied, rs, k - 1);
      assert CanMove(now, denied, moves[k - 1].0, moves[k - 1].1);
    }
  }

  /** With no rename refused, `rename_files` returns `len(renames)` (0 for an
      empty plan) and every source's content is at its target. */
  lemma ExecuteSucceeds(before: Files, denied: set<(Path, Path)>, rs: seq<(Path, Path)>)
    requires SafePlan(before, rs)
    requires forall i :: 0 <= i < |rs| ==> !StageDenied(denied, rs, i) && !CommitDenied(denied, rs, i)
    ensures Execute(before, denied, rs).0 == Renamed(|rs|)
    ensures CommittedUpTo(before, Execute(before, denied, rs).1, rs, |rs|)
  {
    StagingRun(before, denied, rs, |rs|);
    assert StageMoves(rs)[..|rs|] == StageMoves(rs);
    var staged := Apply(before, denied, StageMoves(rs)).files;
    CommitRun(before, staged, denied, rs, |rs|);
    assert CommitMoves(rs)[..|rs|] == CommitMoves(rs);
  }

  /** An empty plan returns 0 and changes nothing. */
  lemma EmptyPlan(files: Files, denied: set<(Path, Path)>)
    ensures Execute(files, denied, []) == (Renamed(0), files)
  {
    assert StageMoves([]) == [] && CommitMoves([]) == [];
  }

  /** A refused staging rename at `k` is re-raised with the first `k` sources
      left at their staging names and the rest untouched. */
  lemma ExecuteStageFailure(before: Files, denied: set<(Path, Path)>, rs: seq<(Path, Path)>, k: nat)
    requires SafePlan(before, rs) && k < |rs|
    requires forall i :: 0 <= i < k ==> !StageDenied(denied, rs, i)
    requires StageDenied(denied, rs, k)
    ensures Execute(before, denied, rs).0 == Raised(Stage, k)
    ensures StagedUpTo(before, Execute(before, denied, rs).1, rs, k)
  {
    StagingRun(before, denied, rs, k);
    var moves := StageMoves(rs);
    var now := Apply(before, denied, moves[..k]).files;
    ApplyExtend(before, denied, moves, k, now);
    assert moves[k] == (rs[k].0, TempPath(rs[k].0));
    ApplyStops(before, denied, moves, k + 1);
  }

  /** A refused commit rename at `k` is re-raised with the first `k` contents
      at their targets and the rest at their staging names. */
  lemma ExecuteCommitFailure(before: Files, denied: set<(Path, Path)>, rs: seq<(Path, Path)>, k: nat)
    requires SafePlan(before, rs) && k < |rs|
    requires forall i :: 0 <= i < |rs| ==> !StageDenied(denied, rs, i)
    requires forall i :: 0 <= i < k ==> !CommitDenied(denied, rs, i)
    requires CommitDenied(denied, rs, k)
    ensures Execute(before, denied, rs).0 == Raised(Commit, k)
    ensures CommittedUpTo(before, Execute(before, denied, rs).1, rs, k)
  {
    StagingRun(before, denied, rs, |rs|);
    assert StageMoves(rs)[..|rs|] == StageMoves(rs);
    var staged := Apply(before, denied, StageMoves(rs)).files;
    CommitRun(before, staged, denied, rs, k);
    var moves := CommitMoves(rs);
    var now := Apply(staged, denied, moves[..k]).files;
    ApplyExtend(staged, denied, moves, k, now);
    assert moves[k] == (TempPath(rs[k].0), rs[k].1);
    ApplyStops(staged, denied, moves, k + 1);
  }

  /** Where the content at `x` is meant to end up: the target of the pair
      whose source is `x`, or `x` itself when it is no source. */
  function Destination(rs: seq<(Path, Path)>, x: Path): Path {
    if rs == [] then x
    else if rs[0].0 == x then rs[0].1
    else Destination(rs[1..], x)
  }

  /** A source's content is meant for its own target. */
  lemma {:induction false} DestinationOfSource(rs: seq<(Path, Path)>, i: nat)
    requires i < |rs|
    requires forall a, b :: 0 <= a < b < |rs| ==> rs[a].0 != rs[b].0
    ensures Destination(rs, rs[i].0) == rs[i].1
  {
    if i > 0 {
      DestinationOfSource(rs[1..], i - 1);
    }
  }

  /** A path that is no source keeps its content where it is. */
  lemma {:induction false} DestinationOfOther(rs: seq<(Path, Path)>, x: Path)
    requires x !in Sources(rs)
    ensures Destination(rs, x) == x
  {
    if rs != [] {
      assert rs[0].0 in Sources(rs);
      assert Sources(rs[1..]) <= Sources(rs) by {
        forall y | y in Sources(rs[1..]) ensures y in Sources(rs) {
          var i :| 0 <= i < |rs[1..]| && rs[1..][i].0 == y;
          assert rs[i + 1].0 == y;
        }
      }
      DestinationOfOther(rs[1..], x);
    }
  }

  /** Where the content that ends up at `z` comes from: the source of the
      pair whose target is `z`, or `z` itself when it is no target. */
  function Origin(rs: seq<(Path, Path)>, z: Path): Path {
    if rs == [] then z
    else if rs[0].1 == z then rs[0].0
    else Origin(rs[1..], z)
  }

  /** The content at a target comes from that pair's source. */
  lemma {:induction false} OriginOfTarget(rs: seq<(Path, Path)>, i: nat)
    requires i < |rs|
    requires forall a, b :: 0 <= a < b < |rs| ==> rs[a].1 != rs[b].1
    ensures Origin(rs, rs[i].1) == rs[i].0
  {
    if i > 0 {
      OriginOfTarget(rs[1..], i - 1);
    }
  }

  /** No target names a file that is not itself being renamed. */
  ghost predicate NoOverwrite(before: Files, rs: seq<(Path, Path)>) {
    forall i :: 0 <= i < |rs| && rs[i].1 in before ==> rs[i].1 in Sources(rs)
  }

  /** After a complete commit every file's content is at its destination. */
  lemma CommittedContents(before: Files, after: Files, rs: seq<(Path, Path)>)
    requires SafePlan(before, rs) && NoOverwrite(before, rs)
    requires CommittedUpTo(before, after, rs, |rs|)
    ensures forall x :: x in before ==> Destination(rs, x) in after && after[Destination(rs, x)] == before[x]
  {
    assert rs[..|rs|] == rs;
    forall x | x in before
      ensures Destination(rs, x) in after && after[Destination(rs, x)] == before[x]
    {
      if x in Sources(rs) {
        var i :| 0 <= i < |rs| && rs[i].0 == x;
        DestinationOfSource(rs, i);
      } else {
        DestinationOfOther(rs, x);
        assert x !in Temps(rs);
        assert x !in Targets(rs);
        assert Untouched(before, after, x);
      }
    }
  }

  /** Distinct files have distinct destinations, when sources are distinct,
      targets are distinct and no target is a file outside the plan. */
  lemma DestinationInjective(before: Files, rs: seq<(Path, Path)>, x: Path, y: Path)
    requires forall a, b :: 0 <= a < b < |rs| ==> rs[a].0 != rs[b].0 && rs[a].1 != rs[b].1
    requires NoOverwrite(before, rs)
    requires x in before && y in before && x != y
    ensures Destination(rs, x) != Destination(rs, y)
  {
    if x in Sources(rs) && y in Sources(rs) {
      var i :| 0 <= i < |rs| && rs[i].0 == x;
      var j :| 0 <= j < |rs| && rs[j].0 == y;
      DestinationOfSource(rs, i);
      DestinationOfSource(rs, j);
      assert i != j;
    } else if x in Sources(rs) {
      var i :| 0 <= i < |rs| && rs[i].0 == x;
      DestinationOfSource(rs, i);
      DestinationOfOther(rs, y);
      assert rs[i].1 in before ==> rs[i].1 in Sources(rs);
    } else if y in Sources(rs) {
      var j :| 0 <= j < |rs| && rs[j].0 == y;
      DestinationOfSource(rs, j);
      DestinationOfOther(rs, x);
      assert rs[j].1 in before ==> rs[j].1 in Sources(rs);
    } else {
      DestinationOfOther(rs, x);
      DestinationOfOther(rs, y);
    }
  }

  /** After a complete commit every file present holds the content of its
      origin, which was there before. */
  lemma CommittedOnto(before: Files, after: Files, rs: seq<(Path, Path)>, z: Path)
    requires forall a, b :: 0 <= a < b < |rs| ==> rs[a].0 != rs[b].0 && rs[a].1 != rs[b].1
    requires CommittedUpTo(before, after, rs, |rs|)
    requires z in after
    ensures Origin(rs, z) in before && Destination(rs, Origin(rs, z)) == z
    ensures after[z] == before[Origin(rs, z)]
  {
    assert rs[..|rs|] == rs;
    if z in Targets(rs) {
      var i :| 0 <= i < |rs| && rs[i].1 == z;
      OriginOfTarget(rs, i);
      DestinationOfSource(rs, i);
      assert after[rs[i].1] == before[rs[i].0];
    } else {
      LeftInPlace(before, after, rs, z);
      DestinationOfOther(rs, z);
      OriginOfOther(rs, z);
    }
  }

  /** The content at a path that is no target was already there. */
  lemma {:induction false} OriginOfOther(rs: seq<(Path, Path)>, z: Path)
    requires z !in Targets(rs)
    ensures Origin(rs, z) == z
  {
    if rs != [] {
      assert rs[0].1 in Targets(rs);
      assert Targets(rs[1..]) <= Targets(rs) by {
        forall y | y in Targets(rs[1..]) ensures y in Targets(rs) {
          var i :| 0 <= i < |rs[1..]| && rs[1..][i].1 == y;
          assert rs[i + 1].1 == y;
        }
      }
      OriginOfOther(rs[1..], z);
    }
  }

  /** A file present after a complete commit that is no target was not part
      of the plan and is unchanged. */
  lemma LeftInPlace(before: Files, after: Files, rs: seq<(Path, Path)>, z: Path)
    requires CommittedUpTo(before, after, rs, |rs|)
    requires z in after && z !in Targets(rs)
    ensures z !in Sources(rs) && z in before
    ensures after[z] == before[z]
  {
    assert rs[..|rs|] == rs;
    forall i | 0 <= i < |rs| ensures TempPath(rs[i].0) != z {
      assert TempPath(rs[i].0) !in after;
    }
    assert z !in Temps(rs);
    assert Untouched(before, after, z);
  }

  /** Origin undoes Destination on the files present before the run. */
  lemma OriginOfDestination(before: Files, rs: seq<(Path, Path)>, x: Path)
    requires forall a, b :: 0 <= a < b < |rs| ==> rs[a].0 != rs[b].0 && rs[a].1 != rs[b].1
    requires NoOverwrite(before, rs)
    requires x in before
    ensures Origin(rs, Destination(rs, x)) == x
  {
    if x in Sources(rs) {
      var i :| 0 <= i < |rs| && rs[i].0 == x;
      DestinationOfSource(rs, i);
      OriginOfTarget(rs, i);
    } else {
      DestinationOfOther(rs, x);
      forall j | 0 <= j < |rs| ensures rs[j].1 != x {
        assert rs[j].1 in before ==> rs[j].1 in Sources(rs);
      }
      OriginOfOther(rs, x);
    }
  }

  /** No data loss: after a successful run every file's content is at its
      destination, distinct files have distinct destinations, and every file
      present is the destination of a file that was there before. */
  lemma NoDataLoss(before: Files, denied: set<(Path, Path)>, rs: seq<(Path, Path)>)
    requires SafePlan(before, rs) && NoOverwrite(before, rs)
    requires forall i :: 0 <= i < |rs| ==> !StageDenied(denied, rs, i) && !CommitDenied(denied, rs, i)
    ensures var after := Execute(before, denied, rs).1;
      forall x :: x in before ==> Destination(rs, x) in after && after[Destination(rs, x)] == before[x]
    ensures forall x, y :: x in before && y in before && x != y ==> Destination(rs, x) != Destination(rs, y)
    ensures var after := Execute(before, denied, rs).1;
      forall z :: z in after ==> Origin(rs, z) in before && Destination(rs, Origin(rs, z)) == z
  {
    ExecuteSucceeds(before, denied, rs);
    var after := Execute(before, denied, rs).1;
    CommittedContents(before, after, rs);
    forall x, y | x in before && y in before && x != y
      ensures Destination(rs, x) != Destination(rs, y)
    {
      DestinationInjective(before, rs, x, y);
    }
    forall z | z in after ensures Origin(rs, z) in before && Destination(rs, Origin(rs, z)) == z {
      CommittedOnto(before, after, rs, z);
    }
  }

  /** The swap plan below meets the conditions of NoDataLoss. */
  lemma SwapPlanSafe(a: Path, b: Path, c: Path, ca: Content, cb: Content, cc: Content)
    requires a != b && c != a && c != b
    requires TempPath(a) !in {a, b, c} && TempPath(b) !in {a, b, c}
    ensures SafePlan(map[a := ca, b := cb, c := cc], [(a, b), (b, a)])
    ensures NoOverwrite(map[a := ca, b := cb, c := cc], [(a, b), (b, a)])
    ensures Sources([(a, b), (b, a)]) == {a, b}
  {
    var rs := [(a, b), (b, a)];
    assert rs[0].0 == a && rs[1].0 == b;
    assert Sources(rs) == {a, b};
  }

  /** After the swap below, the two contents have traded places and the
      third file is as it was. */
  lemma SwapFiles(a: Path, b: Path, c: Path, ca: Content, cb: Content, cc: Content)
    requires a != b && c != a && c != b
    requires TempPath(a) !in {a, b, c} && TempPath(b) !in {a, b, c}
    ensures Execute(map[a := ca, b := cb, c := cc], {}, [(a, b), (b, a)]).1 == map[a := cb, b := ca, c := cc]
  {
    var before := map[a := ca, b := cb, c := cc];
    var rs := [(a, b), (b, a)];
    SwapPlanSafe(a, b, c, ca, cb, cc);
    NoDataLoss(before, {}, rs);
    var after := Execute(before, {}, rs).1;
    DestinationOfSource(rs, 0);
    DestinationOfSource(rs, 1);
    DestinationOfOther(rs, c);
    assert after.Keys == {a, b, c} by {
      forall z | z in after ensures z in {a, b, c} {
        assert Origin(rs, z) in before;
      }
    }
    assert after[a] == cb && after[b] == ca && after[c] == cc;
  }

  /** Two files that trade names (`01.heic` and `02.heic` in reverse order of
      creation) exchange contents through the staging names, and a third file
      of the same directory (`readme.txt`) is left alone. */
  lemma SwapExample(a: Path, b: Path, c: Path, ca: Content, cb: Content, cc: Content)
    requires a != b && c != a && c != b
    requires TempPath(a) !in {a, b, c} && TempPath(b) !in {a, b, c}
    ensures Execute(map[a := ca, b := cb, c := cc], {}, [(a, b), (b, a)]) ==
              (Renamed(2), map[a := cb, b := ca, c := cc])
  {
    SwapPlanSafe(a, b, c, ca, cb, cc);
    ExecuteSucceeds(map[a := ca, b := cb, c := cc], {}, [(a, b), (b, a)]);
    SwapFiles(a, b, c, ca, cb, cc);
  }

  /** `rename_files` does not check that a staging name is free: a file
      already there is silently replaced by the staging rename, and its
      content is gone after a successful run. */
  lemma OccupiedStagingName(s: Path, t: Path, cs: Content, ct: Content)
    requires t != s && t != TempPath(s)
    ensures Execute(map[s := cs, TempPath(s) := ct], {}, [(s, t)]) == (Renamed(1), map[t := cs])
  {
    var before := map[s := cs, TempPath(s) := ct];
    var temp := TempPath(s);
    assert |temp.name| > |s.name|;
    var stage := StageMoves([(s, t)]);
    assert stage == [(s, temp)] && stage[..0] == [];
    var staged := Apply(before, {}, stage);
    assert Apply(before, {}, stage[..0]) == Run(before, 0, false);
    assert staged == Run(Move(before, s, temp), 1, false);
    assert Move(before, s, temp) == map[temp := cs];
    var commit := CommitMoves([(s, t)]);
    assert commit == [(temp, t)] && commit[..0] == [];
    assert Apply(staged.files, {}, commit[..0]) == Run(staged.files, 0, false);
    assert Apply(staged.files, {}, commit) == Run(map[t := cs], 1, false);
  }
}
