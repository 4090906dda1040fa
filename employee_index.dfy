/**
 * Employees looked up by id, as the pages do it: folding the list into a record or a `Map`
 * keyed by id, where a later employee with the same id overwrites an earlier one.
 */
module EmployeeIndex {
  import opened Wrappers
  import opened Types


  /** The position of the last employee with id `id`, which is the one the map keeps. */
  function LastWithId(es: seq<Employee>, id: string): (r: Option<nat>)
    ensures r.None? <==> forall i :: 0 <= i < |es| ==> es[i].id != id
    ensures r.Some? ==> r.value < |es| && es[r.value].id == id
    ensures r.Some? ==> forall i :: r.value < i < |es| ==> es[i].id != id
  {
    if es == [] then None
    else if es[|es| - 1].id == id then Some(|es| - 1)
    else LastWithId(es[..|es| - 1], id)
  }

  /** What a map holds when it sends each id to the last employee carrying it. */
  ghost predicate MapsToLast(m: map<string, Employee>, es: seq<Employee>)
  {
    forall id :: (id in m <==> LastWithId(es, id).Some?) &&
      (id in m ==> m[id] == es[LastWithId(es, id).value])
  }

  lemma LastWithIdSnoc(es: seq<Employee>, e: Employee, id: string)
    ensures LastWithId(es + [e], id) == if e.id == id then Some(|es|) else LastWithId(es, id)
  {
    assert (es + [e])[..|es|] == es;
  }

  /** Writing `acc[e.id] = e` keeps the map pointing at the last employee of each id. */
  lemma MapsToLastSnoc(m: map<string, Employee>, es: seq<Employee>, e: Employee)
    requires MapsToLast(m, es)
    ensures MapsToLast(m[e.id := e], es + [e])
  {
    forall id ensures (id in m[e.id := e] <==> LastWithId(es + [e], id).Some?) &&
      (id in m[e.id := e] ==> m[e.id := e][id] == (es + [e])[LastWithId(es + [e], id).value])
    {
      LastWithIdSnoc(es, e, id);
    }
  }

  /** The fold `acc[e.id] = e` over the list, in list order. */
  method IndexById(es: seq<Employee>) returns (m: map<string, Employee>)
    ensures forall id :: id in m <==> exists i :: 0 <= i < |es| && es[i].id == id
    ensures MapsToLast(m, es)
  {
    m := map[];
    for i := 0 to |es|
      invariant MapsToLast(m, es[..i])
    {
      assert es[..i + 1] == es[..i] + [es[i]];
      MapsToLastSnoc(m, es[..i], es[i]);
      m := m[es[i].id := es[i]];
    }
    assert es[..|es|] == es;
  }
}
