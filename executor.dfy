/**
 * The executor: every plan is checked again just before acting; a plan whose
 * destination now exists is skipped, in a dry run nothing is touched, and
 * otherwise the file is renamed. A failed rename is reported and the remaining
 * plans still run. The log lines become the outcome report.
 */
module Executor {
  import opened Wrappers
  import opened Filesystem
  import opened Planning

  datatype Outcome =
    | Renamed(plan: RenamePlan)
    | DryRun(plan: RenamePlan)
    | Collision(plan: RenamePlan)
    | Failed(plan: RenamePlan, error: IoError)

  /** The filesystem after a batch, and one outcome per plan. */
  datatype Execution = Execution(nodes: map<string, Kind>, report: seq<Outcome>)

  /** The body of the executor's `for_each` for one plan. */
  function Step(nodes: map<string, Kind>, plan: RenamePlan, dryRun: bool, refuses: (string, string) -> bool)
    : (r: (map<string, Kind>, Outcome))
    ensures r.1.plan == plan
    ensures r.1.Collision? <==> plan.newPath in nodes
    ensures r.1.Renamed? <==> plan.newPath !in nodes && !dryRun && plan.originalPath in nodes
                              && !refuses(plan.originalPath, plan.newPath)
    ensures r.1.DryRun? <==> plan.newPath !in nodes && dryRun
    ensures r.1.Failed? <==> plan.newPath !in nodes && !dryRun
                             && RenameEffect(nodes, plan.originalPath, plan.newPath, refuses).Failure?
    ensures r.1.Failed? ==> r.1.error == RenameEffect(nodes, plan.originalPath, plan.newPath, refuses).error
    ensures r.1.Renamed? ==> r.0 == RenameEffect(nodes, plan.originalPath, plan.newPath, refuses).value
    ensures !r.1.Renamed? ==> r.0 == nodes
  {
    if plan.newPath in nodes then (nodes, Collision(plan))
    else if dryRun then (nodes, DryRun(plan))
    else match RenameEffect(nodes, plan.originalPath, plan.newPath, refuses)
      case Success(after) => (after, Renamed(plan))
      case Failure(e) => (nodes, Failed(plan, e))
  }

  /** The whole batch, plan after plan, each seeing the filesystem its
      predecessors left. */
  function Executed(nodes: map<string, Kind>, plans: seq<RenamePlan>, dryRun: bool, refuses: (string, string) -> bool)
    : (r: Execution)
    ensures |r.report| == |plans|
  {
    if plans == [] then Execution(nodes, [])
    else
      var prev := Executed(nodes, plans[..|plans| - 1], dryRun, refuses);
      var step := Step(prev.nodes, plans[|plans| - 1], dryRun, refuses);
      Execution(step.0, prev.report + [step.1])
  }

  /** The filesystem just before plan `i` is acted on. */
  function Before(nodes: map<string, Kind>, plans: seq<RenamePlan>, dryRun: bool, refuses: (string, string) -> bool, i: nat)
    : map<string, Kind>
    requires i <= |plans|
  {
    Executed(nodes, plans[..i], dryRun, refuses).nodes
  }

  /** The outcome of plan `i` is the step taken on the filesystem left by the
      plans before it, and the filesystem after it is what that step leaves. */
  lemma {:induction false} ExecutedAt(nodes: map<string, Kind>, plans: seq<RenamePlan>, dryRun: bool,
                                      refuses: (string, string) -> bool, i: nat)
    requires i < |plans|
    ensures Executed(nodes, plans, dryRun, refuses).report[i]
            == Step(Before(nodes, plans, dryRun, refuses, i), plans[i], dryRun, refuses).1
    ensures Before(nodes, plans, dryRun, refuses, i + 1)
            == Step(Before(nodes, plans, dryRun, refuses, i), plans[i], dryRun, refuses).0
  {
    var n := |plans|;
    assert plans[..i + 1][..i] == plans[..i];
    if i < n - 1 {
      var init := plans[..n - 1];
      ExecutedAt(nodes, init, dryRun, refuses, i);
      assert init[..i] == plans[..i];
      assert init[..i + 1] == plans[..i + 1];
      assert init[i] == plans[i];
    } else {
      assert plans[..i + 1] == plans;
    }
  }

  /** The report has one outcome per plan, in plan order. */
  lemma ReportFollowsPlans(nodes: map<string, Kind>, plans: seq<RenamePlan>, dryRun: bool,
                           refuses: (string, string) -> bool, i: nat)
    requires i < |plans|
    ensures Executed(nodes, plans, dryRun, refuses).report[i].plan == plans[i]
  {
    ExecutedAt(nodes, plans, dryRun, refuses, i);
  }

  /** No rename is ever performed onto a path that exists at that moment, and a
      performed rename moves exactly the planned entry. */
  lemma NeverRenamesOntoExisting(nodes: map<string, Kind>, plans: seq<RenamePlan>, dryRun: bool,
                                 refuses: (string, string) -> bool, i: nat)
    requires i < |plans|
    requires Executed(nodes, plans, dryRun, refuses).report[i].Renamed?
    ensures plans[i].newPath !in Before(nodes, plans, dryRun, refuses, i)
    ensures plans[i].originalPath in Before(nodes, plans, dryRun, refuses, i)
    ensures Before(nodes, plans, dryRun, refuses, i + 1).Keys
            == (Before(nodes, plans, dryRun, refuses, i).Keys - {plans[i].originalPath}) + {plans[i].newPath}
  {
    ExecutedAt(nodes, plans, dryRun, refuses, i);
  }

  /** A plan whose destination exists when its turn comes is skipped and changes
      nothing; so is every plan in a dry run; a failed rename changes nothing. */
  lemma OnlyRenamesChangeState(nodes: map<string, Kind>, plans: seq<RenamePlan>, dryRun: bool,
                               refuses: (string, string) -> bool, i: nat)
    requires i < |plans|
    ensures !Executed(nodes, plans, dryRun, refuses).report[i].Renamed? ==>
              Before(nodes, plans, dryRun, refuses, i + 1) == Before(nodes, plans, dryRun, refuses, i)
    ensures Executed(nodes, plans, dryRun, refuses).report[i].Collision?
            <==> plans[i].newPath in Before(nodes, plans, dryRun, refuses, i)
  {
    ExecutedAt(nodes, plans, dryRun, refuses, i);
  }

  /** In a live run no plan is reported as a dry run, and a plan is reported as
      failed, with the system's error, exactly when its destination was free
      and the rename itself failed. */
  lemma LiveRunReportsFailures(nodes: map<string, Kind>, plans: seq<RenamePlan>,
                               refuses: (string, string) -> bool, i: nat)
    requires i < |plans|
    ensures !Executed(nodes, plans, false, refuses).report[i].DryRun?
    ensures var before := Before(nodes, plans, false, refuses, i);
            Executed(nodes, plans, false, refuses).report[i].Failed?
            <==> plans[i].newPath !in before
                 && RenameEffect(before, plans[i].originalPath, plans[i].newPath, refuses).Failure?
  {
    ExecutedAt(nodes, plans, false, refuses, i);
  }

  /** A dry run leaves the filesystem exactly as it was and reports every plan as
      either a dry run or a collision. */
  lemma {:induction false} DryRunChangesNothing(nodes: map<string, Kind>, plans: seq<RenamePlan>,
                                               refuses: (string, string) -> bool)
    ensures Executed(nodes, plans, true, refuses).nodes == nodes
    ensures forall i :: 0 <= i < |plans| ==>
              Executed(nodes, plans, true, refuses).report[i].DryRun?
              || Executed(nodes, plans, true, refuses).report[i].Collision?
  {
    if plans != [] {
      DryRunChangesNothing(nodes, plans[..|plans| - 1], refuses);
    }
  }

  /** Renaming only onto free paths, a batch neither loses nor adds entries: no
      file is ever overwritten. */
  lemma {:induction false} ExecutionKeepsEntryCount(nodes: map<string, Kind>, plans: seq<RenamePlan>, dryRun: bool,
                                                   refuses: (string, string) -> bool)
    ensures |Executed(nodes, plans, dryRun, refuses).nodes| == |nodes|
  {
    if plans != [] {
      var prev := Executed(nodes, plans[..|plans| - 1], dryRun, refuses);
      ExecutionKeepsEntryCount(nodes, plans[..|plans| - 1], dryRun, refuses);
      var p := plans[|plans| - 1];
      if Step(prev.nodes, p, dryRun, refuses).1.Renamed? {
        RenameKeepsCount(prev.nodes, p.originalPath, p.newPath, refuses);
      }
    }
  }

  /** The sources and destinations of a batch whose renames cannot disturb one
      another: sources exist and are distinct, destinations are free and distinct. */
  ghost predicate Independent(nodes: map<string, Kind>, plans: seq<RenamePlan>)
  {
    && (forall i :: 0 <= i < |plans| ==> plans[i].originalPath in nodes && plans[i].newPath !in nodes)
    && (forall i, j :: 0 <= i < j < |plans| ==> plans[i].originalPath != plans[j].originalPath)
    && (forall i, j :: 0 <= i < j < |plans| ==> plans[i].newPath != plans[j].newPath)
  }

  /** The paths a batch moves away from. */
  ghost function Sources(plans: seq<RenamePlan>): set<string>
  {
    set i | 0 <= i < |plans| :: plans[i].originalPath
  }

  /** The paths a batch moves onto. */
  ghost function Destinations(plans: seq<RenamePlan>): set<string>
  {
    set i | 0 <= i < |plans| :: plans[i].newPath
  }

  lemma EndpointsSnoc(plans: seq<RenamePlan>)
    requires plans != []
    ensures Sources(plans) == Sources(plans[..|plans| - 1]) + {plans[|plans| - 1].originalPath}
    ensures Destinations(plans) == Destinations(plans[..|plans| - 1]) + {plans[|plans| - 1].newPath}
  {
    var init := plans[..|plans| - 1];
    assert forall i :: 0 <= i < |init| ==> init[i] == plans[i];
  }

  /** The collision filter keeps a batch whose sources exist and are distinct and
      whose destinations are distinct an independent one. */
  lemma {:induction false} KeptPlansIndependent(plans: seq<RenamePlan>, nodes: map<string, Kind>)
    requires forall i :: 0 <= i < |plans| ==> plans[i].originalPath in nodes
    requires forall i, j :: 0 <= i < j < |plans| ==> plans[i].originalPath != plans[j].originalPath
    requires forall i, j :: 0 <= i < j < |plans| ==> plans[i].newPath != plans[j].newPath
    ensures Independent(nodes, KeepAbsent(plans, nodes))
  {
    if plans != [] {
      var p := plans[0];
      var tail := plans[1..];
      assert forall i :: 0 <= i < |tail| ==> tail[i] == plans[i + 1];
      KeptPlansIndependent(tail, nodes);
      var rest := KeepAbsent(tail, nodes);
      if p.newPath !in nodes {
        forall q | q in rest
          ensures q.originalPath != p.originalPath && q.newPath != p.newPath
        {
          KeepAbsentMembers(tail, nodes, q);
          var k :| 0 <= k < |tail| && tail[k] == q;
          assert plans[k + 1] == q;
        }
        var kept := [p] + rest;
        assert KeepAbsent(plans, nodes) == kept;
        forall i, j | 0 <= i < j < |kept|
          ensures kept[i].originalPath != kept[j].originalPath && kept[i].newPath != kept[j].newPath
        {
          assert kept[j] == rest[j - 1];
          if i > 0 {
            assert kept[i] == rest[i - 1];
          } else {
            assert kept[j] in rest;
          }
        }
        assert forall i :: 0 <= i < |kept| ==> kept[i] == p || kept[i] in rest;
        forall q | q in rest
          ensures q.originalPath in nodes
        {
          KeepAbsentMembers(tail, nodes, q);
        }
      }
    }
  }

  /** In an independent batch the last plan's source is still in place and its
      destination still free once the earlier plans have moved their files. */
  lemma LastPlanUndisturbed(nodes: map<string, Kind>, plans: seq<RenamePlan>, keys: set<string>)
    requires plans != [] && Independent(nodes, plans)
    requires keys == (nodes.Keys - Sources(plans[..|plans| - 1])) + Destinations(plans[..|plans| - 1])
    ensures plans[|plans| - 1].originalPath in keys
    ensures plans[|plans| - 1].newPath !in keys
  {
    var n := |plans|;
    var init := plans[..n - 1];
    var p := plans[n - 1];
    assert forall i :: 0 <= i < |init| ==> init[i] == plans[i];
    assert p.originalPath !in Sources(init);
    assert p.newPath !in Destinations(init);
  }

  /** A live batch of independent plans that the system does not refuse renames
      every file: each source leaves and each destination appears, and no plan is
      skipped by the second check. */
  lemma {:induction false} IndependentBatchRenamesAll(nodes: map<string, Kind>, plans: seq<RenamePlan>,
                                                     refuses: (string, string) -> bool)
    requires Independent(nodes, plans)
    requires forall i :: 0 <= i < |plans| ==> !refuses(plans[i].originalPath, plans[i].newPath)
    ensures forall i :: 0 <= i < |plans| ==> Executed(nodes, plans, false, refuses).report[i].Renamed?
    ensures Executed(nodes, plans, false, refuses).nodes.Keys == (nodes.Keys - Sources(plans)) + Destinations(plans)
  {
    if plans != [] {
      var n := |plans|;
      var init := plans[..n - 1];
      assert Independent(nodes, init);
      IndependentBatchRenamesAll(nodes, init, refuses);
      var prev := Executed(nodes, init, false, refuses);
      LastPlanUndisturbed(nodes, plans, prev.nodes.Keys);
      EndpointsSnoc(plans);
      var r := Executed(nodes, plans, false, refuses);
      assert r.report == prev.report + [Step(prev.nodes, plans[n - 1], false, refuses).1];
      assert r.report[n - 1].Renamed?;
    }
  }

  /** The executor loop (`par_iter().for_each`, run here one plan after another). */
  method Execute(fs: FileSystem, plans: seq<RenamePlan>, dryRun: bool, refuses: (string, string) -> bool)
    returns (report: seq<Outcome>)
    modifies fs
    ensures Execution(fs.nodes, report) == Executed(old(fs.nodes), plans, dryRun, refuses)
  {
    report := [];
    for i := 0 to |plans|
      invariant Execution(fs.nodes, report) == Executed(old(fs.nodes), plans[..i], dryRun, refuses)
    {
      var plan := plans[i];
      var taken := fs.Exists(plan.newPath);
      if taken {
        report := report + [Collision(plan)];
      } else if dryRun {
        report := report + [DryRun(plan)];
      } else {
        var r := fs.Rename(plan.originalPath, plan.newPath, refuses);
        if r.Success? {
          report := report + [Renamed(plan)];
        } else {
          report := report + [Failed(plan, r.error)];
        }
      }
      assert plans[..i + 1][..i] == plans[..i];
    }
    assert plans[..|plans|] == plans;
  }

  /** Two plans that share a free destination both survive the planning-time
      check; one after the other, the first is renamed and the second is then
      stopped by the executor's own check. Entry counts and "never onto an
      existing path" are about this sequential order only. */
  lemma SharedDestinationCollides(nodes: map<string, Kind>, p: RenamePlan, q: RenamePlan,
                                  refuses: (string, string) -> bool)
    requires p.newPath == q.newPath && p.newPath !in nodes
    requires p.originalPath in nodes && !refuses(p.originalPath, p.newPath)
    ensures KeepAbsent([p, q], nodes) == [p, q]
    ensures Executed(nodes, KeepAbsent([p, q], nodes), false, refuses).report == [Renamed(p), Collision(q)]
  {
    assert [p, q][1..] == [q];
    assert [q][1..] == [];
    var first := Executed(nodes, [p], false, refuses);
    assert [p][..0] == [];
    assert Executed(nodes, [p][..0], false, refuses) == Execution(nodes, []);
    var step := Step(nodes, p, false, refuses);
    assert step.1 == Renamed(p);
    assert first == Execution(step.0, [] + [step.1]);
    assert first.nodes == RenameEffect(nodes, p.originalPath, p.newPath, refuses).value;
    assert first.report == [Renamed(p)];
    assert p.newPath in first.nodes;
    assert [p, q][..1] == [p];
  }
}
