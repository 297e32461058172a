/** The browser-side project store (mockData.js): the project list lives as JSON under one
    local-storage key; reading an unset key yields the sample projects. The stored text is
    modelled by the list it encodes, and `None` stands for the unset key. */
module ProjectStore {
  import opened Wrappers
  import opened Seqs
  import opened Scene
  import opened MockData

  datatype Project = Project(id: string, name: string, description: string, parts: seq<PlacedPart>, wires: seq<Wire>)

  /** The contents of the storage key. */
  type Storage = Option<seq<Project>>

  /** `mockProjects`: the one sample project. */
  const MockProjects: seq<Project> := [
    Project("project-1", "LED Blink Circuit", "Simple LED blink circuit with Arduino", SampleParts, SampleWires)]

  /** `getProjects`: the stored list, or a copy of the samples when nothing is stored. A stored
      empty list is still a stored value (its text "[]" is truthy), so the samples do not return. */
  function GetProjects(st: Storage): (r: seq<Project>)
    ensures st.None? ==> r == MockProjects
    ensures st.Some? ==> r == st.value
  {
    if st.Some? then st.value else MockProjects
  }

  /** `findIndex(p => p.id === id)`: the first position with the id, or `None` (-1). */
  function FindIndex(ps: seq<Project>, id: string): (r: Option<nat>)
    ensures r.None? <==> forall i :: 0 <= i < |ps| ==> ps[i].id != id
    ensures r.Some? ==> r.value < |ps| && ps[r.value].id == id && forall j :: 0 <= j < r.value ==> ps[j].id != id
  {
    if |ps| == 0 then None
    else if ps[0].id == id then Some(0)
    else
      var rest := FindIndex(ps[1..], id);
      assert forall i :: 1 <= i < |ps| ==> ps[i] == ps[1..][i - 1];
      if rest.Some? then Some(rest.value + 1) else None
  }

  /** `saveProject`: replace the first project with the same id in place, or append. The list
      written back is the one read, so saving into an empty store writes the samples too. */
  function SaveProject(st: Storage, p: Project): (r: Storage)
    ensures r.Some?
    ensures var before := GetProjects(st);
      match FindIndex(before, p.id)
      case Some(k) => r.value == before[k := p]
      case None => r.value == before + [p]
  {
    var before := GetProjects(st);
    match FindIndex(before, p.id)
    case Some(k) => Some(before[k := p])
    case None => Some(before + [p])
  }

  /** `getProject`: the first project with the id. */
  function GetProject(st: Storage, id: string): (r: Option<Project>)
    ensures r.None? <==> forall i :: 0 <= i < |GetProjects(st)| ==> GetProjects(st)[i].id != id
    ensures r.Some? ==> r.value in GetProjects(st) && r.value.id == id
    ensures r.Some? ==>
      exists k :: 0 <= k < |GetProjects(st)| && GetProjects(st)[k] == r.value && forall j :: 0 <= j < k ==> GetProjects(st)[j].id != id
  {
    var k := FindIndex(GetProjects(st), id);
    if k.Some? then Some(GetProjects(st)[k.value]) else None
  }

  function KeepOthers(id: string): Project -> bool {
    (p: Project) => p.id != id
  }

  /** `deleteProject`: write back every project whose id differs. */
  function DeleteProject(st: Storage, id: string): (r: Storage)
    ensures r.Some?
    ensures forall p :: p in r.value <==> p in GetProjects(st) && p.id != id
    ensures IsSubseq(r.value, GetProjects(st))
  {
    FilterIsSubseq(GetProjects(st), KeepOthers(id));
    Some(Filter(GetProjects(st), KeepOthers(id)))
  }

  /** The first position carrying an id is the one `FindIndex` reports. */
  lemma {:induction false} FindIndexIsFirst(ps: seq<Project>, id: string, k: nat)
    requires k < |ps| && ps[k].id == id
    requires forall j :: 0 <= j < k ==> ps[j].id != id
    ensures FindIndex(ps, id) == Some(k)
  {
    if k > 0 {
      FindIndexIsFirst(ps[1..], id, k - 1);
    }
  }

  /** A project just saved is the one read back under its id. */
  lemma SaveThenGet(st: Storage, p: Project)
    ensures GetProject(SaveProject(st, p), p.id) == Some(p)
  {
    var before := GetProjects(st);
    var after := SaveProject(st, p).value;
    match FindIndex(before, p.id)
    case Some(k) =>
      assert after == before[k := p];
      FindIndexIsFirst(after, p.id, k);
    case None =>
      FindIndexIsFirst(after, p.id, |before|);
  }

  /** Saving one project leaves what every other id reads unchanged. */
  lemma SaveKeepsOthers(st: Storage, p: Project, id: string)
    requires id != p.id
    ensures GetProject(SaveProject(st, p), id) == GetProject(st, id)
  {
    var before := GetProjects(st);
    var after := SaveProject(st, p).value;
    match FindIndex(before, id)
    case Some(k) =>
      FindIndexIsFirst(after, id, k);
    case None =>
      assert forall i :: 0 <= i < |after| ==> after[i].id != id by {
        if FindIndex(before, p.id).None? {
          assert forall i :: 0 <= i < |before| ==> after[i] == before[i];
        }
      }
  }

  /** Saving the same project twice stores what saving it once does. */
  lemma SaveIdempotent(st: Storage, p: Project)
    ensures SaveProject(SaveProject(st, p), p) == SaveProject(st, p)
  {
    var before := GetProjects(st);
    var once := SaveProject(st, p).value;
    match FindIndex(before, p.id)
    case Some(k) =>
      FindIndexIsFirst(once, p.id, k);
      assert once[k := p] == once;
    case None =>
      FindIndexIsFirst(once, p.id, |before|);
      assert once[|before| := p] == once;
  }

  /** A saved project grows the list by one exactly when its id was not stored yet. */
  lemma SaveCount(st: Storage, p: Project)
    ensures |SaveProject(st, p).value| == |GetProjects(st)| + (if exists i :: 0 <= i < |GetProjects(st)| && GetProjects(st)[i].id == p.id then 0 else 1)
  {
  }

  /** Deleting a project removes every copy of each project with that id and keeps every copy
      of each other project. */
  lemma DeleteProjectCounts(st: Storage, id: string)
    ensures forall p :: multiset(DeleteProject(st, id).value)[p] == if p.id != id then multiset(GetProjects(st))[p] else 0
  {
    FilterCounts(GetProjects(st), KeepOthers(id));
  }

  /** Reading an id past a first project with another id reads the rest of the list. */
  lemma GetProjectSkipsHead(ps: seq<Project>, id: string)
    requires |ps| > 0 && ps[0].id != id
    ensures GetProject(Some(ps), id) == GetProject(Some(ps[1..]), id)
  {
    var rest := FindIndex(ps[1..], id);
    if rest.Some? {
      assert ps[rest.value + 1] == ps[1..][rest.value];
    }
  }

  /** Dropping the projects with one id changes nothing that another id reads. */
  lemma {:induction false} FilterKeepsOtherReads(ps: seq<Project>, id: string, other: string)
    requires other != id
    ensures GetProject(Some(Filter(ps, KeepOthers(id))), other) == GetProject(Some(ps), other)
  {
    if |ps| > 0 {
      FilterKeepsOtherReads(ps[1..], id, other);
      var rest := Filter(ps[1..], KeepOthers(id));
      if ps[0].id == id {
        assert Filter(ps, KeepOthers(id)) == rest;
        GetProjectSkipsHead(ps, other);
      } else if ps[0].id != other {
        var kept := [ps[0]] + rest;
        assert Filter(ps, KeepOthers(id)) == kept;
        assert kept[1..] == rest;
        GetProjectSkipsHead(kept, other);
        GetProjectSkipsHead(ps, other);
      } else {
        assert Filter(ps, KeepOthers(id)) == [ps[0]] + rest;
      }
    }
  }

  /** After a delete no project with that id is read back, and every other id reads exactly
      the project it read before. */
  lemma DeleteThenGet(st: Storage, id: string, other: string)
    requires other != id
    ensures GetProject(DeleteProject(st, id), id).None?
    ensures GetProject(DeleteProject(st, id), other) == GetProject(st, other)
  {
    FilterKeepsOtherReads(GetProjects(st), id, other);
  }

  /** A fresh store lists the samples; deleting every project leaves an empty list that stays
      empty rather than falling back to the samples. */
  lemma SamplesOnlyWhenUnset()
    ensures GetProjects(None) == MockProjects
    ensures GetProjects(DeleteProject(None, "project-1")) == []
  {
    assert MockProjects[1..] == [];
    assert Filter(MockProjects, KeepOthers("project-1")) == [] + Filter(MockProjects[1..], KeepOthers("project-1"));
  }
}
