/** Entity numbers of a media device, and how an application enumerates them. */
module EntityIds {
  import opened Basics

  const FLAG_NEXT := 0x8000_0000

  /** The numbers in the list ascend, are not 0 and lie below the next one to be given. */
  ghost predicate Sound(ids: seq<nat>, next: nat) {
    Ascending(ids) && next > 0 && forall k :: 0 <= k < |ids| ==> 0 < ids[k] < next
  }

  /** The number an entity gets: the next one, unless it already has one. */
  function Assigned(id: nat, next: nat): nat {
    if id == 0 then next else id
  }

  function NextAfter(id: nat, next: nat): nat {
    if id == 0 then next + 1 else if id + 1 > next then id + 1 else next
  }

  /** Registering keeps the list in order exactly if the entity comes without a number or
      with one greater than all in the list. */
  lemma {:induction false} RegisterExactly(ids: seq<nat>, next: nat, id: nat)
    requires Sound(ids, next)
    ensures Sound(ids + [Assigned(id, next)], NextAfter(id, next)) <==> (id == 0 || |ids| == 0 || id > ids[|ids| - 1])
  {
    var ids' := ids + [Assigned(id, next)];
    if id != 0 && |ids| > 0 && id <= ids[|ids| - 1] {
      assert ids'[|ids| - 1] >= ids'[|ids|];
    }
  }

  lemma {:induction false} UnregisterKeeps(ids: seq<nat>, next: nat, p: nat)
    requires Sound(ids, next) && p < |ids|
    ensures Sound(ids[..p] + ids[p + 1..], next)
  {
  }

  /** The first entity, from k on, with number id or, if next is asked for, a greater one. */
  function Search(ids: seq<nat>, id: nat, next: bool, k: nat): Option<nat>
    requires k <= |ids|
    decreases |ids| - k
  {
    if k == |ids| then None
    else if (ids[k] == id && !next) || (ids[k] > id && next) then Some(k)
    else Search(ids, id, next, k + 1)
  }

  lemma {:induction false} SearchFinds(ids: seq<nat>, id: nat, next: bool, k: nat)
    requires k <= |ids|
    ensures var r := Search(ids, id, next, k);
            if r.Some? then k <= r.value < |ids| && (if next then ids[r.value] > id else ids[r.value] == id)
                            && forall j :: k <= j < r.value ==> if next then ids[j] <= id else ids[j] != id
            else forall j :: k <= j < |ids| ==> if next then ids[j] <= id else ids[j] != id
    decreases |ids| - k
  {
    if k < |ids| {
      SearchFinds(ids, id, next, k + 1);
    }
  }

  /** Asking for the entity after number j of the list gives number j + 1, and asking
      after the last one gives none. */
  lemma {:induction false} NextIsNext(ids: seq<nat>, next: nat, j: int)
    requires Sound(ids, next) && -1 <= j < |ids|
    ensures Search(ids, if j == -1 then 0 else ids[j], true, 0) == if j + 1 < |ids| then Some(j + 1) else None
  {
    SearchFinds(ids, if j == -1 then 0 else ids[j], true, 0);
    if j + 1 < |ids| {
      assert ids[j + 1] > if j == -1 then 0 else ids[j];
    }
  }

  /** Registering an entity without a number, or taking one off the list. */
  datatype Op = Register | Unregister(place: nat)

  /** How many of the first k calls register. */
  ghost function Registered(ops: seq<Op>, k: nat): nat
    requires k <= |ops|
  {
    if k == 0 then 0 else Registered(ops, k - 1) + if ops[k - 1].Register? then 1 else 0
  }

  /** How many of n entities and those registered are in the list after the first k calls. */
  ghost function Listed(ops: seq<Op>, k: nat, n: nat): nat
    requires k <= |ops|
  {
    if k == 0 then n
    else
      var before := Listed(ops, k - 1, n);
      if ops[k - 1].Register? then before + 1 else if ops[k - 1].place < before then before - 1 else before
  }

  class EntityList {
    /** The numbers of the registered entities, in list order. */
    var entities: seq<nat>
    var entityId: nat

    constructor ()
      ensures entities == [] && entityId == 1 && Sound(entities, entityId)
    {
      entities, entityId := [], 1;
    }

    /** Registers an entity that has number id, or 0 for none yet. */
    method RegisterEntity(id: nat) returns (given: nat)
      modifies this
      ensures given == (if id == 0 then old(entityId) else id) && entities == old(entities) + [given]
      ensures entityId >= old(entityId) && entityId > given && (entityId == old(entityId) || entityId == given + 1)
      ensures old(Sound(entities, entityId)) && id == 0 ==> Sound(entities, entityId)
    {
      if old(Sound(entities, entityId)) {
        RegisterExactly(entities, entityId, id);
      }
      given := id;
      if id == 0 {
        given := entityId;
        entityId := entityId + 1;
      } else {
        entityId := if id + 1 > entityId then id + 1 else entityId;
      }
      entities := entities + [given];
    }

    /** Takes the entity at place p off the list. */
    method UnregisterEntity(p: nat)
      requires p < |entities|
      modifies this`entities
      ensures entities == old(entities)[..p] + old(entities)[p + 1..]
      ensures old(Sound(entities, entityId)) ==> Sound(entities, entityId)
    {
      if old(Sound(entities, entityId)) {
        UnregisterKeeps(entities, entityId, p);
      }
      entities := entities[..p] + entities[p + 1..];
    }

    /** Any history of entities that come without a number and of entities that are taken
        off the list. The numbers given ascend, so none is given twice. */
    method RunAll(ops: seq<Op>) returns (given: seq<nat>)
      requires Sound(entities, entityId)
      modifies this
      ensures Sound(entities, entityId) && entityId >= old(entityId)
      ensures |given| == Registered(ops, |ops|) && |entities| == Listed(ops, |ops|, |old(entities)|)
      ensures Ascending(given) && forall k :: 0 <= k < |given| ==> old(entityId) <= given[k] < entityId
      ensures forall id :: id in entities ==> id in given || id in old(entities)
    {
      given := [];
      for i := 0 to |ops|
        invariant Sound(entities, entityId) && entityId >= old(entityId) && Ascending(given)
        invariant |given| == Registered(ops, i) && |entities| == Listed(ops, i, |old(entities)|)
        invariant forall k :: 0 <= k < |given| ==> old(entityId) <= given[k] < entityId
        invariant forall id :: id in entities ==> id in given || id in old(entities)
      {
        match ops[i] {
          case Register =>
            var id := RegisterEntity(0);
            given := given + [id];
          case Unregister(p) =>
            if p < |entities| {
              UnregisterEntity(p);
            }
        }
      }
    }

    /** Finds an entity by a request word: a number and the flag that asks for the next. */
    method FindEntity(request: nat) returns (r: Option<nat>)
      requires request < 2 * FLAG_NEXT
      ensures r == Search(entities, request % FLAG_NEXT, request >= FLAG_NEXT, 0)
      ensures r.Some? ==> r.value < |entities|
      ensures request < 0x8000_0000 ==>
                && (r.Some? ==> entities[r.value] == request && request !in entities[..r.value])
                && (r == None ==> request !in entities)
      ensures request >= 0x8000_0000 ==>
                && (r.Some? ==> entities[r.value] > request - 0x8000_0000)
                && forall j :: 0 <= j < (if r.Some? then r.value else |entities|) ==>
                     entities[j] <= request - 0x8000_0000
    {
      SearchFinds(entities, request % FLAG_NEXT, request >= FLAG_NEXT, 0);
      var next := request >= FLAG_NEXT;
      var id := request % FLAG_NEXT;
      var k := 0;
      while k < |entities|
        invariant k <= |entities| && Search(entities, id, next, k) == Search(entities, id, next, 0)
      {
        if (entities[k] == id && !next) || (entities[k] > id && next) {
          return Some(k);
        }
        k := k + 1;
      }
      return None;
    }

    /** Enumerates as an application does: the last number and the flag, until nothing is
        found. Every entity is visited once, in list order. */
    method Enumerate() returns (seen: seq<nat>)
      requires Sound(entities, entityId) && entityId <= FLAG_NEXT
      ensures seen == entities
    {
      seen := [];
      var last := 0;
      while true
        invariant |seen| <= |entities| && seen == entities[..|seen|]
        invariant last == if |seen| == 0 then 0 else entities[|seen| - 1]
        decreases |entities| - |seen|
      {
        NextIsNext(entities, entityId, |seen| - 1);
        var r := FindEntity(last + FLAG_NEXT);
        if r == None {
          break;
        }
        last := entities[r.value];
        seen := seen + [last];
      }
    }
  }
}
