/** Whole runs of the registry. */
module RegistryRuns {
  import opened Sorting
  import opened Registry

  // Integrity holds in every reachable state, and listings are in creation order although
  // positions are reused after deletions.

  /** The registry and the ids of its spaces and projects in creation order. */
  datatype History = History(reg: Registry, spaceOrder: seq<string>, projectOrder: seq<string>)

  function Survivors(order: seq<string>, ids: set<string>): (r: seq<string>)
    ensures forall x :: x in r <==> x in order && x in ids
  {
    if order == [] then []
    else (if order[0] in ids then [order[0]] else []) + Survivors(order[1..], ids)
  }

  ghost function Step(h: History, op: Op, newId: string): (h': History)
  {
    var (r, out) := Apply(h.reg, op, newId);
    History(r,
            Survivors(h.spaceOrder, r.spaces.Keys) + (if out.GotSpace? then [out.space.id] else []),
            Survivors(h.projectOrder, r.projects.Keys) + (if out.GotProject? then [out.project.id] else []))
  }

  /** The state after a run of operations, each with the id it may draw. */
  ghost function Run(steps: seq<(Op, string)>): (h: History)
  {
    if steps == [] then History(EMPTY, [], [])
    else
      var n := |steps| - 1;
      Step(Run(steps[..n]), steps[n].0, steps[n].1)
  }

  ghost predicate Before(spaces: map<string, Space>, a: string, b: string)
  {
    a in spaces && b in spaces && spaces[a].position < spaces[b].position
  }

  /** Projects are ordered within their space only. */
  ghost predicate BeforeInSpace(projects: map<string, Project>, a: string, b: string)
  {
    && a in projects && b in projects && a != b
    && (projects[a].spaceId == projects[b].spaceId ==> projects[a].position < projects[b].position)
  }

  ghost predicate SpacesInOrder(spaces: map<string, Space>, order: seq<string>)
  {
    && (forall x :: x in order <==> x in spaces)
    && Sorted(order, (a, b) => Before(spaces, a, b))
  }

  ghost predicate ProjectsInOrder(projects: map<string, Project>, order: seq<string>)
  {
    && (forall x :: x in order <==> x in projects)
    && Sorted(order, (a, b) => BeforeInSpace(projects, a, b))
  }

  ghost predicate Sound(h: History)
  {
    Integrity(h.reg) && SpacesInOrder(h.reg.spaces, h.spaceOrder) && ProjectsInOrder(h.reg.projects, h.projectOrder)
  }

  lemma {:induction false} SurvivorsSorted(order: seq<string>, ids: set<string>, lt: (string, string) -> bool)
    requires Sorted(order, lt)
    ensures Sorted(Survivors(order, ids), lt)
  {
    if order != [] {
      var rest := Survivors(order[1..], ids);
      SurvivorsSorted(order[1..], ids, lt);
      forall y | y in rest
        ensures lt(order[0], y)
      {
        var j :| 0 <= j < |order[1..]| && order[1..][j] == y;
        assert order[j + 1] == y;
      }
    }
  }

  lemma SpacesFrame(r: Registry, op: Op, newId: string)
    ensures op.CreateSpace? || op.RenameSpace? || op.DeleteSpace? || Apply(r, op, newId).0.spaces == r.spaces
    ensures Apply(r, op, newId).1.GotSpace? ==> op.CreateSpace?
  {
  }

  lemma ProjectsFrame(r: Registry, op: Op, newId: string)
    ensures op.CreateProject? || op.RenameProject? || op.DeleteProject? || op.DeleteSpace?
         || Apply(r, op, newId).0.projects == r.projects
    ensures Apply(r, op, newId).1.GotProject? ==> op.CreateProject?
  {
  }

  /** A space that is neither new nor gone keeps its position. */
  ghost predicate SpacesKept(before: map<string, Space>, after: map<string, Space>, added: set<string>)
  {
    && (forall s | s in after :: s in before || s in added)
    && (forall s | s in before && s in after :: after[s].position == before[s].position)
  }

  /** A project that is neither new nor gone keeps its position and its space. */
  ghost predicate ProjectsKept(before: map<string, Project>, after: map<string, Project>, added: set<string>)
  {
    && (forall p | p in after :: p in before || p in added)
    && (forall p | p in before && p in after ::
          after[p].position == before[p].position && after[p].spaceId == before[p].spaceId)
  }

  lemma SpacesStable(r: Registry, op: Op, newId: string)
    ensures var (r', out) := Apply(r, op, newId);
            SpacesKept(r.spaces, r'.spaces, if out.GotSpace? then {out.space.id} else {})
  {
    SpacesFrame(r, op, newId);
    if op.RenameSpace? {
      assert SpacesKept(r.spaces, DoRenameSpace(r, op.id, op.name).0.spaces, {});
    } else if op.DeleteSpace? {
      assert SpacesKept(r.spaces, DoDeleteSpace(r, op.id).0.spaces, {});
    }
  }

  lemma ProjectsStable(r: Registry, op: Op, newId: string)
    ensures var (r', out) := Apply(r, op, newId);
            ProjectsKept(r.projects, r'.projects, if out.GotProject? then {out.project.id} else {})
  {
    ProjectsFrame(r, op, newId);
    if op.RenameProject? {
      assert ProjectsKept(r.projects, DoRenameProject(r, op.id, op.name).0.projects, {});
    } else if op.DeleteProject? {
      assert ProjectsKept(r.projects, DoDeleteProject(r, op.id).0.projects, {});
    } else if op.DeleteSpace? {
      assert ProjectsKept(r.projects, DoDeleteSpace(r, op.id).0.projects, {});
    }
  }

  lemma NewSpaceIsLast(r: Registry, op: Op, newId: string)
    ensures var (r', out) := Apply(r, op, newId);
            out.GotSpace? ==>
              && out.space.id !in r.spaces && out.space.id in r'.spaces
              && forall s | s in r.spaces :: Before(r'.spaces, s, out.space.id)
  {
    SpacesFrame(r, op, newId);
    if op.CreateSpace? {
      var ps := SpacePositions(r.spaces);
      NextPositionAbove(ps);
      assert forall s | s in r.spaces :: r.spaces[s].position == ps[s];
    }
  }

  lemma NewProjectIsLast(r: Registry, op: Op, newId: string)
    ensures var (r', out) := Apply(r, op, newId);
            out.GotProject? ==>
              && out.project.id !in r.projects && out.project.id in r'.projects
              && forall p | p in r.projects :: BeforeInSpace(r'.projects, p, out.project.id)
  {
    ProjectsFrame(r, op, newId);
    if op.CreateProject? {
      var ps := ProjectPositions(r.projects, op.spaceId);
      NextPositionAbove(ps);
      assert forall p | p in r.projects && r.projects[p].spaceId == op.spaceId :: r.projects[p].position == ps[p];
    }
  }

  lemma StepKeepsSpaceOrder(h: History, op: Op, newId: string)
    requires SpacesInOrder(h.reg.spaces, h.spaceOrder)
    ensures SpacesInOrder(Step(h, op, newId).reg.spaces, Step(h, op, newId).spaceOrder)
  {
    var (r, out) := Apply(h.reg, op, newId);
    SpacesStable(h.reg, op, newId);
    NewSpaceIsLast(h.reg, op, newId);
    var kept := Survivors(h.spaceOrder, r.spaces.Keys);
    SurvivorsSorted(h.spaceOrder, r.spaces.Keys, (a, b) => Before(h.reg.spaces, a, b));
    OrderCarriesOver(kept, h.reg.spaces, r.spaces);
    var order := Step(h, op, newId).spaceOrder;
    assert Sorted(order, (a, b) => Before(r.spaces, a, b));
  }

  lemma OrderCarriesOver(kept: seq<string>, before: map<string, Space>, after: map<string, Space>)
    requires Sorted(kept, (a, b) => Before(before, a, b))
    requires forall x | x in kept :: x in before && x in after && after[x].position == before[x].position
    ensures Sorted(kept, (a, b) => Before(after, a, b))
  {
    forall i, j | 0 <= i < j < |kept|
      ensures Before(after, kept[i], kept[j])
    {
      assert kept[i] in kept && kept[j] in kept;
      assert Before(before, kept[i], kept[j]);
    }
  }

  lemma StepKeepsProjectOrder(h: History, op: Op, newId: string)
    requires ProjectsInOrder(h.reg.projects, h.projectOrder)
    ensures ProjectsInOrder(Step(h, op, newId).reg.projects, Step(h, op, newId).projectOrder)
  {
    var (r, out) := Apply(h.reg, op, newId);
    ProjectsStable(h.reg, op, newId);
    NewProjectIsLast(h.reg, op, newId);
    var kept := Survivors(h.projectOrder, r.projects.Keys);
    SurvivorsSorted(h.projectOrder, r.projects.Keys, (a, b) => BeforeInSpace(h.reg.projects, a, b));
    ProjectOrderCarriesOver(kept, h.reg.projects, r.projects);
    var order := Step(h, op, newId).projectOrder;
    assert Sorted(order, (a, b) => BeforeInSpace(r.projects, a, b));
  }

  lemma ProjectOrderCarriesOver(kept: seq<string>, before: map<string, Project>, after: map<string, Project>)
    requires Sorted(kept, (a, b) => BeforeInSpace(before, a, b))
    requires forall x | x in kept ::
               && x in before && x in after
               && after[x].position == before[x].position && after[x].spaceId == before[x].spaceId
    ensures Sorted(kept, (a, b) => BeforeInSpace(after, a, b))
  {
    forall i, j | 0 <= i < j < |kept|
      ensures BeforeInSpace(after, kept[i], kept[j])
    {
      assert kept[i] in kept && kept[j] in kept;
      assert BeforeInSpace(before, kept[i], kept[j]);
    }
  }

  /** Every reachable registry is sound. */
  lemma {:induction false} RunIsSound(steps: seq<(Op, string)>)
    ensures Sound(Run(steps))
  {
    if steps != [] {
      var n := |steps| - 1;
      var h, op, newId := Run(steps[..n]), steps[n].0, steps[n].1;
      RunIsSound(steps[..n]);
      KeepsIntegrity(h.reg, op, newId);
      StepKeepsSpaceOrder(h, op, newId);
      StepKeepsProjectOrder(h, op, newId);
      assert Run(steps) == Step(h, op, newId);
    }
  }

  // ----------------------------------------------------------------- listings

  predicate SpaceLe(a: Space, b: Space)
  {
    a.position < b.position || (a.position == b.position && StrLe(a.name, b.name))
  }

  /** What `list_spaces` promises: all rows, by position and then by name. */
  ghost predicate IsSpaceListing(spaces: map<string, Space>, rows: seq<Space>)
  {
    && Sorted(rows, SpaceLe)
    && NoDuplicates(rows)
    && (forall s :: s in rows <==> s.id in spaces && spaces[s.id] == s)
  }

  predicate ProjectLe(a: Project, b: Project)
  {
    a.position < b.position || (a.position == b.position && StrLe(a.name, b.name))
  }

  /** What `list_projects` promises for one space. */
  ghost predicate IsProjectListing(projects: map<string, Project>, spaceId: string, rows: seq<Project>)
  {
    && Sorted(rows, ProjectLe)
    && NoDuplicates(rows)
    && (forall p :: p in rows <==> p.id in projects && projects[p.id] == p && p.spaceId == spaceId)
  }

  lemma SpaceListingUnique(spaces: map<string, Space>, order: seq<string>, rows: seq<Space>)
    requires SpacesOk(spaces) && SpacesInOrder(spaces, order) && IsSpaceListing(spaces, rows)
    ensures |rows| == |order| && forall i | 0 <= i < |rows| :: rows[i].id == order[i]
  {
    assert forall x | x in order :: x in spaces;
    var created := seq(|order|, i requires 0 <= i < |order| => spaces[order[i]]);
    forall i, j | 0 <= i < j < |created|
      ensures SpaceLe(created[i], created[j]) && created[i] != created[j]
    {
      assert Before(spaces, order[i], order[j]);
    }
    forall s
      ensures s in created <==> s in rows
    {
      if s in rows {
        assert s.id in order;
        var i :| 0 <= i < |order| && order[i] == s.id;
        assert created[i] == s;
      }
    }
    SortedUnique(rows, created, SpaceLe);
  }

  /** After any run, listing the spaces gives the survivors in creation order. */
  lemma SpaceListingIsCreationOrder(steps: seq<(Op, string)>, rows: seq<Space>)
    requires IsSpaceListing(Run(steps).reg.spaces, rows)
    ensures var h := Run(steps);
            && |rows| == |h.spaceOrder|
            && forall i | 0 <= i < |rows| :: rows[i].id == h.spaceOrder[i]
  {
    RunIsSound(steps);
    SpaceListingUnique(Run(steps).reg.spaces, Run(steps).spaceOrder, rows);
  }

  /** The projects of one space, in creation order. */
  function InSpace(order: seq<string>, projects: map<string, Project>, spaceId: string): (r: seq<Project>)
    requires forall x | x in order :: x in projects
    ensures forall p | p in r :: exists x | x in order :: projects[x] == p && p.spaceId == spaceId
    ensures forall x | x in order && projects[x].spaceId == spaceId :: projects[x] in r
  {
    if order == [] then [] else
    var x := order[0];
    (if projects[x].spaceId == spaceId then [projects[x]] else []) + InSpace(order[1..], projects, spaceId)
  }

  lemma {:induction false} InSpaceSorted(order: seq<string>, projects: map<string, Project>, spaceId: string)
    requires forall x | x in order :: x in projects
    requires Sorted(order, (a, b) => BeforeInSpace(projects, a, b))
    ensures Sorted(InSpace(order, projects, spaceId), ProjectLe)
    ensures NoDuplicates(InSpace(order, projects, spaceId))
  {
    if order != [] {
      var x := order[0];
      InSpaceSorted(order[1..], projects, spaceId);
      if projects[x].spaceId == spaceId {
        forall p | p in InSpace(order[1..], projects, spaceId)
          ensures projects[x].position < p.position
        {
          var y :| y in order[1..] && projects[y] == p;
          var j :| 0 <= j < |order[1..]| && order[1..][j] == y;
          assert order[j + 1] == y;
          assert BeforeInSpace(projects, order[0], order[j + 1]);
        }
      }
    }
  }

  lemma ProjectListingUnique(projects: map<string, Project>, order: seq<string>, spaceId: string, rows: seq<Project>)
    requires forall p | p in projects :: projects[p].id == p
    requires forall a, b | a in projects && b in projects && projects[a].spaceId == projects[b].spaceId
                           && projects[a].position == projects[b].position :: a == b
    requires ProjectsInOrder(projects, order) && IsProjectListing(projects, spaceId, rows)
    ensures (forall x | x in order :: x in projects) && rows == InSpace(order, projects, spaceId)
  {
    assert forall x | x in order :: x in projects;
    InSpaceSorted(order, projects, spaceId);
    var created := InSpace(order, projects, spaceId);
    forall p
      ensures p in created <==> p in rows
    {
      if p in created {
        var x :| x in order && projects[x] == p && p.spaceId == spaceId;
        assert p.id == x;
      }
      if p in rows {
        assert p.id in order && projects[p.id].spaceId == spaceId;
      }
    }
    SortedUnique(rows, created, ProjectLe);
  }

  /** After any run, listing a space's projects gives its survivors in creation order. */
  lemma ProjectListingIsCreationOrder(steps: seq<(Op, string)>, spaceId: string, rows: seq<Project>)
    requires IsProjectListing(Run(steps).reg.projects, spaceId, rows)
    ensures var h := Run(steps);
            && (forall x | x in h.projectOrder :: x in h.reg.projects)
            && rows == InSpace(h.projectOrder, h.reg.projects, spaceId)
  {
    RunIsSound(steps);
    ProjectListingUnique(Run(steps).reg.projects, Run(steps).projectOrder, spaceId, rows);
  }
}
