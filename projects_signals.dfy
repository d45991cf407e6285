/**
 * The cached project total: after every save or delete of a budget source,
 * the owning project's total_budget is recomputed as the sum of its sources.
 */
module ProjectsSignals {
  import opened Wrappers
  import opened Ids
  import opened Money
  import opened ProjectStore
  import P = ProjectsModels

  function AmountIn(s: P.BudgetSource, pid: ProjectId): Satang
  {
    if s.project == pid then s.amount else 0
  }

  /** The aggregate Sum('amount') over the project's sources, 0 when it has none. */
  function SourceTotal(sources: seq<P.BudgetSource>, pid: ProjectId): Satang
  {
    if sources == [] then 0 else AmountIn(sources[0], pid) + SourceTotal(sources[1..], pid)
  }

  lemma {:induction false} SourceTotalNoSources(sources: seq<P.BudgetSource>, pid: ProjectId)
    requires forall i :: 0 <= i < |sources| ==> sources[i].project != pid
    ensures SourceTotal(sources, pid) == 0
  {
    if sources != [] {
      SourceTotalNoSources(sources[1..], pid);
    }
  }

  lemma {:induction false} SourceTotalUpdate(sources: seq<P.BudgetSource>, i: nat, s: P.BudgetSource, pid: ProjectId)
    requires i < |sources|
    ensures SourceTotal(sources[i := s], pid) == SourceTotal(sources, pid) - AmountIn(sources[i], pid) + AmountIn(s, pid)
  {
    if i > 0 {
      assert sources[i := s][1..] == sources[1..][i - 1 := s];
      SourceTotalUpdate(sources[1..], i - 1, s, pid);
    } else {
      assert sources[i := s][1..] == sources[1..];
    }
  }

  lemma {:induction false} SourceTotalRemove(sources: seq<P.BudgetSource>, i: nat, pid: ProjectId)
    requires i < |sources|
    ensures SourceTotal(sources[..i] + sources[i + 1..], pid) == SourceTotal(sources, pid) - AmountIn(sources[i], pid)
  {
    if i > 0 {
      assert (sources[..i] + sources[i + 1..])[0] == sources[0];
      assert (sources[..i] + sources[i + 1..])[1..] == sources[1..][..i - 1] + sources[1..][i..];
      SourceTotalRemove(sources[1..], i - 1, pid);
    } else {
      assert sources[..i] + sources[i + 1..] == sources[1..];
    }
  }

  lemma {:induction false} SourceTotalAppend(sources: seq<P.BudgetSource>, s: P.BudgetSource, pid: ProjectId)
    ensures SourceTotal(sources + [s], pid) == SourceTotal(sources, pid) + AmountIn(s, pid)
  {
    if sources == [] {
      assert [s][1..] == [];
    } else {
      assert (sources + [s])[1..] == sources[1..] + [s];
      SourceTotalAppend(sources[1..], s, pid);
    }
  }

  /** Project.objects.filter(pk=pid).update(total_budget=total): only rows with that id are written. */
  function SetTotal(projects: seq<P.Project>, pid: ProjectId, total: Satang): (r: seq<P.Project>)
    ensures |r| == |projects|
    ensures forall k :: 0 <= k < |projects| && projects[k].id != pid ==> r[k] == projects[k]
    ensures forall k :: 0 <= k < |projects| && projects[k].id == pid ==> r[k] == projects[k].(totalBudget := total)
  {
    if projects == [] then []
    else [if projects[0].id == pid then projects[0].(totalBudget := total) else projects[0]] + SetTotal(projects[1..], pid, total)
  }

  /** Recomputing twice in a row gives the same tables as recomputing once. */
  lemma RecomputeIdempotent(projects: seq<P.Project>, sources: seq<P.BudgetSource>, pid: ProjectId)
    ensures var once := SetTotal(projects, pid, SourceTotal(sources, pid));
            SetTotal(once, pid, SourceTotal(sources, pid)) == once
  {
  }

  /** Every project's cached total_budget equals the sum of its sources. */
  predicate TotalsCached(t: Tables)
  {
    forall p :: p in t.projects ==> p.totalBudget == SourceTotal(t.budgetSources, p.id)
  }

  /** A mutation of project pid's sources leaves every other project's sum as it was. */
  ghost predicate OnlyProjectChanged(before: seq<P.BudgetSource>, after: seq<P.BudgetSource>, pid: ProjectId)
  {
    forall q :: q != pid ==> SourceTotal(after, q) == SourceTotal(before, q)
  }

  /** Recomputing the one project whose sources changed restores the cache for every project. */
  lemma RecomputeRestoresCache(t: Tables, sources': seq<P.BudgetSource>, pid: ProjectId)
    requires TotalsCached(t)
    requires OnlyProjectChanged(t.budgetSources, sources', pid)
    ensures TotalsCached(t.(budgetSources := sources', projects := SetTotal(t.projects, pid, SourceTotal(sources', pid))))
  {
    var ps := SetTotal(t.projects, pid, SourceTotal(sources', pid));
    forall p | p in ps ensures p.totalBudget == SourceTotal(sources', p.id) {
      var k :| 0 <= k < |ps| && ps[k] == p;
      assert t.projects[k] in t.projects;
    }
  }

  function FindSource(rows: seq<P.BudgetSource>, id: SourceId): (r: Option<nat>)
    ensures r.Some? ==> r.value < |rows| && rows[r.value].id == id
    ensures r.None? ==> forall k :: 0 <= k < |rows| ==> rows[k].id != id
  {
    if rows == [] then None
    else if rows[0].id == id then Some(0)
    else var r := FindSource(rows[1..], id); if r.None? then None else Some(r.value + 1)
  }

  /** update_project_total_budget for the project of the saved or deleted source. */
  method UpdateProjectTotalBudget(db: Store, pid: ProjectId)
    modifies db
    ensures db.Snapshot() == old(db.Snapshot()).(projects := SetTotal(old(db.projects), pid, SourceTotal(db.budgetSources, pid)))
  {
    var total := SourceTotal(db.budgetSources, pid);
    db.projects := SetTotal(db.projects, pid, total);
  }

  /**
   * Saving a source (an update of its row when the id exists, an insert
   * otherwise), followed by the post_save hook. When the source stays in its
   * project, every project's cache is right afterwards.
   */
  method SaveSource(db: Store, s: P.BudgetSource)
    modifies db
    ensures var k := FindSource(old(db.budgetSources), s.id);
            db.budgetSources == if k.Some? then old(db.budgetSources)[k.value := s] else old(db.budgetSources) + [s]
    ensures db.Snapshot() == old(db.Snapshot()).(budgetSources := db.budgetSources,
                                                 projects := SetTotal(old(db.projects), s.project, SourceTotal(db.budgetSources, s.project)))
    ensures TotalsCached(old(db.Snapshot())) &&
            (FindSource(old(db.budgetSources), s.id).None? ||
             old(db.budgetSources)[FindSource(old(db.budgetSources), s.id).value].project == s.project)
            ==> TotalsCached(db.Snapshot())
  {
    ghost var t := db.Snapshot();
    var k := FindSource(db.budgetSources, s.id);
    if k.Some? {
      if db.budgetSources[k.value].project == s.project {
        forall q | q != s.project ensures SourceTotal(db.budgetSources[k.value := s], q) == SourceTotal(db.budgetSources, q) {
          SourceTotalUpdate(db.budgetSources, k.value, s, q);
        }
      }
      db.budgetSources := db.budgetSources[k.value := s];
    } else {
      forall q | q != s.project ensures SourceTotal(db.budgetSources + [s], q) == SourceTotal(db.budgetSources, q) {
        SourceTotalAppend(db.budgetSources, s, q);
      }
      db.budgetSources := db.budgetSources + [s];
    }
    UpdateProjectTotalBudget(db, s.project);
    if TotalsCached(t) && (k.None? || t.budgetSources[k.value].project == s.project) {
      RecomputeRestoresCache(t, db.budgetSources, s.project);
    }
  }

  /** Deleting a source, followed by the post_delete hook for its project. */
  method DeleteSource(db: Store, id: SourceId)
    modifies db
    ensures var k := FindSource(old(db.budgetSources), id);
            k.None? ==> db.Snapshot() == old(db.Snapshot())
    ensures var k := FindSource(old(db.budgetSources), id);
            k.Some? ==>
              var pid := old(db.budgetSources)[k.value].project;
              && db.budgetSources == old(db.budgetSources)[..k.value] + old(db.budgetSources)[k.value + 1..]
              && db.Snapshot() == old(db.Snapshot()).(budgetSources := db.budgetSources,
                                                      projects := SetTotal(old(db.projects), pid, SourceTotal(db.budgetSources, pid)))
    ensures TotalsCached(old(db.Snapshot())) ==> TotalsCached(db.Snapshot())
  {
    ghost var t := db.Snapshot();
    var k := FindSource(db.budgetSources, id);
    if k.None? {
      return;
    }
    var pid := db.budgetSources[k.value].project;
    forall q | q != pid ensures SourceTotal(db.budgetSources[..k.value] + db.budgetSources[k.value + 1..], q) == SourceTotal(db.budgetSources, q) {
      SourceTotalRemove(db.budgetSources, k.value, q);
    }
    db.budgetSources := db.budgetSources[..k.value] + db.budgetSources[k.value + 1..];
    UpdateProjectTotalBudget(db, pid);
    if TotalsCached(t) {
      RecomputeRestoresCache(t, db.budgetSources, pid);
    }
  }
}
