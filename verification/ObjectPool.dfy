/** The bounded pools from which buffers, packets, connections and requests are allocated. */
module ObjectPool {
  import opened Memory

  /** The memory of one object. */
  class Instance {
    constructor () {}
  }

  class ObjectType {
    const id: Word
    const minInstances: Word
    const maxInstances: Word
    var instanceCount: Word
    var inUseCount: Word
    var instances: seq<Instance>

    /** The objects handed out and not yet given back. */
    ghost var inUse: set<Instance>

    /** Every instance is either in use or on the free list, once, and there are no more than allowed. */
    ghost predicate Valid()
      reads this
    {
      && instanceCount <= maxInstances && inUseCount == |inUse|
      && inUseCount + |instances| == instanceCount
      && (forall i, j | 0 <= i < j < |instances| :: instances[i] != instances[j])
      && (forall o | o in instances :: o !in inUse)
    }

    constructor (id: Word, minInstances: Word, maxInstances: Word)
      ensures Valid() && this.id == id && this.minInstances == minInstances && this.maxInstances == maxInstances
      ensures instanceCount == 0 && instances == [] && inUse == {}
    {
      this.id, this.minInstances, this.maxInstances := id, minInstances, maxInstances;
      instanceCount, inUseCount, instances, inUse := 0, 0, [], {};
    }

    /** APB_CreateInstance */
    method CreateInstance(haveMemory: bool) returns (obj: Instance?)
      modifies this`instanceCount
      ensures obj != null <==> old(instanceCount) < maxInstances && haveMemory
      ensures obj != null ==> fresh(obj) && instanceCount == old(instanceCount) + 1
      ensures obj == null ==> instanceCount == old(instanceCount)
    {
      if instanceCount >= maxInstances {
        return null;
      }
      if !haveMemory {
        return null;
      }
      obj := new Instance();
      instanceCount := instanceCount + 1;
    }

    /** APB_AllocInstance: an object that is not in use; where there is memory, only a pool with all
        objects it may have in use has none. */
    method AllocInstance(haveMemory: bool) returns (obj: Instance?)
      requires Valid()
      modifies this`instanceCount, this`inUseCount, this`instances, this`inUse
      ensures Valid() && instanceCount >= old(instanceCount)
      ensures obj == null <==> old(instances) == [] && (old(inUseCount) == maxInstances || !haveMemory)
      ensures obj != null ==>
                && obj !in old(inUse) && inUse == old(inUse) + {obj} && (fresh(obj) || obj in old(Objects(this)))
                && Objects(this) <= old(Objects(this)) + {obj}
      ensures obj == null ==> inUse == old(inUse) && instances == old(instances) && Objects(this) == old(Objects(this))
    {
      if inUseCount == instanceCount {
        obj := CreateInstance(haveMemory);
        if obj == null {
          return;
        }
      } else {
        obj := instances[0];
        instances := instances[1..];
      }
      inUseCount := inUseCount + 1;
      inUse := inUse + {obj};
    }

    /** APB_ReleaseInstance: an object in use goes back; instances above the minimum are given up. */
    method ReleaseInstance(obj: Instance)
      requires Valid() && obj in inUse
      modifies this`instanceCount, this`inUseCount, this`instances, this`inUse
      ensures Valid() && inUse == old(inUse) - {obj} && Objects(this) <= old(Objects(this))
      ensures if old(instanceCount) > minInstances then
                instances == old(instances) && instanceCount == old(instanceCount) - 1
              else
                instances == old(instances) + [obj] && instanceCount == old(instanceCount)
      ensures old(Stocked(this)) ==> Stocked(this)
    {
      if instanceCount > minInstances {
        instanceCount := instanceCount - 1;
      } else {
        instances := instances + [obj];
      }
      inUseCount := inUseCount - 1;
      inUse := inUse - {obj};
    }

    /** The loop of APB_RegisterObjectTypeInternal: instances are made in advance, `memory` of them at most. */
    method Fill(memory: nat)
      requires Valid() && instanceCount == 0
      modifies this`instanceCount, this`instances
      ensures Valid() && inUse == old(inUse) && (forall o | o in instances :: fresh(o))
      ensures instanceCount == Least(Least(minInstances, maxInstances), memory)
    {
      var left := memory;
      while instanceCount < minInstances
        invariant Valid() && inUse == {} && (forall o | o in instances :: fresh(o))
        invariant instanceCount <= minInstances && left + instanceCount == memory && left >= 0
        decreases minInstances - instanceCount
      {
        var obj := CreateInstance(left > 0);
        if obj == null {
          break;
        }
        left := left - 1;
        instances := instances + [obj];
      }
    }
  }

  function Least(a: nat, b: nat): nat {
    if a < b then a else b
  }

  /** The type has as many instances as it is never to fall below again. */
  ghost predicate Stocked(t: ObjectType)
    reads t`instanceCount
  {
    t.instanceCount >= t.minInstances
  }

  /** All objects a type knows. */
  ghost function Objects(t: ObjectType): set<Instance>
    reads t
  {
    t.inUse + set o | o in t.instances
  }

  ghost predicate AllValid(types: seq<ObjectType>)
    reads types
  {
    forall i | 0 <= i < |types| :: types[i].Valid()
  }

  ghost predicate DistinctIds(types: seq<ObjectType>) {
    forall i, j | 0 <= i < |types| && 0 <= j < |types| && i != j :: types[i].id != types[j].id
  }

  /** No object belongs to two types. */
  ghost predicate Apart(types: seq<ObjectType>)
    reads types
  {
    forall i, j | 0 <= i < |types| && 0 <= j < |types| && i != j :: Objects(types[i]) !! Objects(types[j])
  }

  class ObjectPool {
    var types: seq<ObjectType>

    ghost predicate Valid()
      reads this, types
    {
      AllValid(types) && DistinctIds(types) && Apart(types)
    }

    constructor ()
      ensures Valid() && types == []
    {
      types := [];
    }

    /** APB_GetObjectType */
    method GetObjectType(id: Word) returns (t: ObjectType?, ghost i: nat)
      ensures i <= |types| && (forall j | 0 <= j < i :: types[j].id != id)
      ensures if i < |types| then t == types[i] && t.id == id else t == null
    {
      i := 0;
      for k := 0 to |types|
        invariant i == k && forall j | 0 <= j < k :: types[j].id != id
      {
        if types[k].id == id {
          return types[k], i;
        }
        i := i + 1;
      }
      t := null;
    }

    /** APB_RegisterObjectTypeInternal; a type that is known stays as it is. There is memory for the type
        itself if `haveType`, and for as many instances as `memory` says. */
    method RegisterObjectType(id: Word, minInstances: Word, maxInstances: Word, haveType: bool, memory: nat)
      requires Valid()
      modifies this`types
      ensures Valid() && old(types) <= types
      ensures if !haveType || exists i :: 0 <= i < |old(types)| && old(types)[i].id == id then types == old(types)
              else
                |types| == |old(types)| + 1
                && var t := types[|old(types)|];
                fresh(t) && t.id == id && t.inUse == {}
                && t.minInstances == minInstances && t.maxInstances == maxInstances
                && t.instanceCount == Least(Least(minInstances, maxInstances), memory)
                && (Stocked(t) <==> minInstances <= maxInstances && minInstances <= memory)
      ensures forall i | 0 <= i < |old(types)| && old(Stocked(types[i])) :: Stocked(types[i])
    {
      var known, i := GetObjectType(id);
      if known != null || !haveType {
        return;
      }
      hide AllValid, Apart, DistinctIds, ObjectType.Valid, Objects;
      var t := new ObjectType(id, minInstances, maxInstances);
      t.Fill(memory);
      OneMore(t);
      types := types + [t];
    }

    /** A type with new instances joins the others. */
    lemma OneMore(t: ObjectType)
      requires Valid() && t.Valid() && t.inUse == {} && forall i | 0 <= i < |types| :: types[i].id != t.id
      requires forall i | 0 <= i < |types| :: forall o | o in t.instances :: o !in Objects(types[i])
      ensures AllValid(types + [t]) && DistinctIds(types + [t]) && Apart(types + [t])
    {
      hide ObjectType.Valid;
      assert forall i | 0 <= i < |types| :: Objects(types[i]) !! Objects(t);
    }

    /** Type number `i` on the one hand, the others on the other. */
    lemma Focus(i: nat)
      requires Valid() && i < |types|
      ensures types[i].Valid() && DistinctIds(types)
      ensures forall j | 0 <= j < |types| && j != i ::
                && types[j] != types[i] && types[j].Valid()
                && (forall o | o in types[j].inUse :: o in Objects(types[j]))
      ensures forall j, k | 0 <= j < |types| && 0 <= k < |types| && j != k :: Objects(types[j]) !! Objects(types[k])
      ensures forall o | o in types[i].inUse :: o in Objects(types[i])
    {
      hide ObjectType.Valid;
    }

    lemma Whole(i: nat)
      requires i < |types| && types[i].Valid() && DistinctIds(types)
      requires forall j | 0 <= j < |types| && j != i :: types[j].Valid()
      requires forall j | 0 <= j < |types| && j != i :: Objects(types[i]) !! Objects(types[j])
      requires forall j, k | 0 <= j < |types| && 0 <= k < |types| && j != k && j != i && k != i ::
                 Objects(types[j]) !! Objects(types[k])
      ensures Valid()
    {
      hide ObjectType.Valid, Objects;
    }

    static lemma AllAllocated(types: seq<ObjectType>)
      ensures forall j | 0 <= j < |types| :: forall o | o in Objects(types[j]) :: allocated(o)
    {
    }

    /** APB_AllocInstance for type number `i`. */
    method AllocFrom(ghost i: nat, t: ObjectType, haveMemory: bool) returns (obj: Instance?)
      requires Valid() && i < |types| && t == types[i]
      modifies t
      ensures Valid() && t.instanceCount >= old(t.instanceCount)
      ensures obj == null <==> old(t.instances) == [] && (old(t.inUseCount) == t.maxInstances || !haveMemory)
      ensures obj != null ==>
                && t.inUse == old(t.inUse) + {obj} && obj !in old(t.inUse)
                && forall j | 0 <= j < |types| && j != i :: obj !in types[j].inUse
      ensures obj == null ==> t.inUse == old(t.inUse)
    {
      hide *;
      AllAllocated(types);
      Focus(i);
      assert forall j | 0 <= j < |types| && j != i :: forall o | o in Objects(types[j]) :: o !in Objects(t);
      obj := t.AllocInstance(haveMemory);
      Whole(i);
    }

    /** APB_ReleaseInstance for type number `i`. */
    method ReleaseTo(ghost i: nat, t: ObjectType, obj: Instance)
      requires Valid() && i < |types| && t == types[i] && obj in t.inUse
      modifies t
      ensures Valid() && t.inUse == old(t.inUse) - {obj}
      ensures old(Stocked(t)) ==> Stocked(t)
      ensures forall j | 0 <= j < |types| && j != i :: obj !in types[j].inUse
    {
      hide *;
      Focus(i);
      t.ReleaseInstance(obj);
      Whole(i);
    }

    /** Where there is memory, a type has no object left exactly when all it may have are in use. */
    lemma NoneLeft(i: nat, haveMemory: bool)
      requires Valid() && i < |types| && haveMemory
      ensures types[i].instances == [] && types[i].inUseCount == types[i].maxInstances
              <==> |types[i].inUse| == types[i].maxInstances
    {
    }

    /** APB_AllocObjectInternal: an object that is in use nowhere. With memory available it fails exactly for
        an unknown type and for one all of whose objects are in use. */
    method AllocObject(id: Word, haveMemory: bool) returns (obj: Instance?)
      requires Valid()
      modifies types
      ensures Valid()
      ensures haveMemory ==>
                (obj == null <==>
                 forall i | 0 <= i < |types| && types[i].id == id :: |old(types[i].inUse)| == types[i].maxInstances)
      ensures obj != null ==> forall i | 0 <= i < |types| :: obj !in old(types[i].inUse)
      ensures forall i | 0 <= i < |types| :: types[i].instanceCount >= old(types[i].instanceCount)
      ensures forall i | 0 <= i < |types| && old(Stocked(types[i])) :: Stocked(types[i])
      ensures forall i | 0 <= i < |types| ::
                types[i].inUse == old(types[i].inUse) + if obj != null && types[i].id == id then {obj} else {}
    {
      var t, i := GetObjectType(id);
      if t == null {
        return null;
      }
      Focus(i);
      NoneLeft(i, true);
      Others(i);
      hide Valid, AllValid, Apart, DistinctIds, ObjectType.Valid, Objects;
      obj := AllocFrom(i, t, haveMemory);
    }

    lemma Others(i: nat)
      requires DistinctIds(types) && i < |types|
      ensures forall j | 0 <= j < |types| && j != i :: types[j].id != types[i].id && types[j] != types[i]
    {
    }

    /** APB_FreeObjectInternal: an object in use goes back to its type, and nothing happens for an unknown
        type. Once a type has reached its minimum of instances, it never goes below it. */
    method FreeObject(id: Word, obj: Instance)
      requires Valid() && forall i | 0 <= i < |types| && types[i].id == id :: obj in types[i].inUse
      modifies types
      ensures Valid()
      ensures forall i | 0 <= i < |types| ::
                types[i].inUse == old(types[i].inUse) - if types[i].id == id then {obj} else {}
      ensures forall i | 0 <= i < |types| && old(Stocked(types[i])) :: Stocked(types[i])
    {
      var t, i := GetObjectType(id);
      if t != null {
        Focus(i);
        Others(i);
        hide Valid, AllValid, Apart, DistinctIds, ObjectType.Valid, Objects;
        ReleaseTo(i, t, obj);
      }
    }
  }
}
