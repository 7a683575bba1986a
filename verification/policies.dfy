/** The policy list and the operations the store performs on it: find the
    active record, find a record by id, replace one, append one, and flip
    `isActive` on every record. */
module Policies {
  import opened Common
  import opened Domain

  /** The policy the store starts with. */
  const DefaultPolicy := PolicyParams(
    "1", "Default 2025Q3", WeightedAvg, 365, 90, 1.5, 2, 7, 3, 120, 50, ToMultiple, true)

  /** `findIndex(p => p.is_active)`, with -1 as None. */
  function ActiveIndex(ps: seq<PolicyParams>): (r: Option<nat>)
    ensures r.Some? ==> r.value < |ps| && ps[r.value].isActive
    ensures r.Some? ==> forall j :: 0 <= j < r.value ==> !ps[j].isActive
    ensures r.None? ==> forall j :: 0 <= j < |ps| ==> !ps[j].isActive
  {
    if |ps| == 0 then None
    else if ps[0].isActive then Some(0)
    else match ActiveIndex(ps[1..])
      case None => None
      case Some(k) => Some(k + 1)
  }

  /** `findIndex(p => p.id === id)`, with -1 as None. */
  function IndexOfId(ps: seq<PolicyParams>, id: string): (r: Option<nat>)
    ensures r.Some? ==> r.value < |ps| && ps[r.value].id == id
    ensures r.Some? ==> forall j :: 0 <= j < r.value ==> ps[j].id != id
    ensures r.None? ==> forall j :: 0 <= j < |ps| ==> ps[j].id != id
  {
    if |ps| == 0 then None
    else if ps[0].id == id then Some(0)
    else match IndexOfId(ps[1..], id)
      case None => None
      case Some(k) => Some(k + 1)
  }

  /** getActivePolicy: the first active record, or the "No active policy found" failure. */
  function GetActive(ps: seq<PolicyParams>): (r: Result<PolicyParams>)
    ensures r.Err? <==> forall j :: 0 <= j < |ps| ==> !ps[j].isActive
    ensures r.Ok? ==> r.value.isActive && r.value in ps
    ensures r.Ok? ==> exists k :: 0 <= k < |ps| && ps[k] == r.value && (forall j :: 0 <= j < k ==> !ps[j].isActive)
  {
    match ActiveIndex(ps)
    case None => Err("No active policy found")
    case Some(k) => Ok(ps[k])
  }

  /** updatePolicy: replace the first record carrying the same id, or fail. */
  function Update(ps: seq<PolicyParams>, p: PolicyParams): (r: Result<seq<PolicyParams>>)
    ensures r.Err? <==> forall j :: 0 <= j < |ps| ==> ps[j].id != p.id
    ensures r.Ok? ==> |r.value| == |ps|
    ensures r.Ok? ==> exists k :: 0 <= k < |ps| && ps[k].id == p.id && r.value == ps[k := p] &&
                        (forall j :: 0 <= j < k ==> ps[j].id != p.id)
  {
    match IndexOfId(ps, p.id)
    case None => Err("Policy not found")
    case Some(k) => Ok(ps[k := p])
  }

  /** setActivePolicy: every record's `isActive` becomes "its id is `id`". */
  function Activate(ps: seq<PolicyParams>, id: string): (r: seq<PolicyParams>)
    ensures |r| == |ps|
    ensures forall i :: 0 <= i < |ps| ==> (r[i].isActive <==> ps[i].id == id)
    ensures forall i :: 0 <= i < |ps| ==> r[i].(isActive := ps[i].isActive) == ps[i]
  {
    seq(|ps|, i requires 0 <= i < |ps| => ps[i].(isActive := ps[i].id == id))
  }

  predicate UniqueIds(ps: seq<PolicyParams>) {
    forall i, j :: 0 <= i < j < |ps| ==> ps[i].id != ps[j].id
  }

  /** Number of active records. */
  function ActiveCount(ps: seq<PolicyParams>): nat {
    if |ps| == 0 then 0 else (if ps[0].isActive then 1 else 0) + ActiveCount(ps[1..])
  }

  /** Activating an id that no record carries leaves no record active (it does not fail). */
  lemma ActivateUnknownId(ps: seq<PolicyParams>, id: string)
    requires forall i :: 0 <= i < |ps| ==> ps[i].id != id
    ensures GetActive(Activate(ps, id)).Err?
  {
  }

  /** With distinct ids, activating a present id leaves exactly one active record,
      and it is the one getActivePolicy then returns. */
  lemma {:induction false} ActivateSingle(ps: seq<PolicyParams>, id: string)
    requires UniqueIds(ps)
    requires exists i :: 0 <= i < |ps| && ps[i].id == id
    ensures ActiveCount(Activate(ps, id)) == 1
    ensures GetActive(Activate(ps, id)).Ok? && GetActive(Activate(ps, id)).value.id == id
  {
    var a := Activate(ps, id);
    if ps[0].id == id {
      assert forall i :: 1 <= i < |ps| ==> ps[i].id != id;
      NoneActiveCount(a[1..]);
    } else {
      assert a[1..] == Activate(ps[1..], id);
      ActivateSingle(ps[1..], id);
    }
  }

  lemma {:induction false} NoneActiveCount(ps: seq<PolicyParams>)
    requires forall i :: 0 <= i < |ps| ==> !ps[i].isActive
    ensures ActiveCount(ps) == 0
  {
    if |ps| > 0 {
      NoneActiveCount(ps[1..]);
    }
  }

  /** Appending a record that is not active changes neither the active policy nor the count. */
  lemma {:induction false} SaveInactiveKeepsActive(ps: seq<PolicyParams>, p: PolicyParams)
    requires !p.isActive
    ensures ActiveIndex(ps + [p]) == ActiveIndex(ps)
    ensures ActiveCount(ps + [p]) == ActiveCount(ps)
  {
    if |ps| > 0 {
      assert (ps + [p])[1..] == ps[1..] + [p];
      SaveInactiveKeepsActive(ps[1..], p);
    } else {
      assert (ps + [p])[1..] == [];
    }
  }

  /** Updating a record without changing its activation keeps the active count. */
  lemma {:induction false} UpdateKeepsActiveCount(ps: seq<PolicyParams>, k: nat, p: PolicyParams)
    requires k < |ps| && p.isActive == ps[k].isActive
    ensures ActiveCount(ps[k := p]) == ActiveCount(ps)
  {
    if k > 0 {
      assert ps[k := p][1..] == ps[1..][k - 1 := p];
      UpdateKeepsActiveCount(ps[1..], k - 1, p);
    } else {
      assert ps[k := p][1..] == ps[1..];
    }
  }
}
