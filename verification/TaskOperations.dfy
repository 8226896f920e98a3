/** The registry operations as code.  Each method runs alone here; how their Redis
    commands interleave is the subject of `TaskRegistry`. */
module TaskOperations {
  import opened Collections
  import opened TaskRegistry

  class RedisServer {
    var hash: map<Tid, Item>
    var sets: map<Item, set<Tid>>

    constructor ()
      ensures Contents() == Store(map[], map[])
    {
      hash, sets := map[], map[];
    }

    function Contents(): Store
      reads this
    {
      Store(hash, sets)
    }

    method Save(tid: Tid, item: Option<Item>)
      modifies this
      ensures Contents() == SaveTask(old(Contents()), tid, item)
    {
      hash := hash[tid := if Given(item) then item.value else ""];
      if Given(item) {
        var members := if item.value in sets then sets[item.value] else {};
        sets := sets[item.value := members + {tid}];
      }
    }

    /** `SREM`; a set that becomes empty is gone. */
    method Remove(item: Item, tid: Tid)
      modifies this`sets
      ensures sets == ForgetTask(old(Contents()), tid, Some(item)).sets
    {
      if item != "" && item in sets {
        var rest := sets[item] - {tid};
        sets := if rest == {} then sets - {item} else sets[item := rest];
      }
    }

    /** `redis_cleanup_task`.  Undisturbed, the trailing `scard` and `delete` find
        nothing left to delete. */
    method Cleanup(tid: Tid, item: Option<Item>)
      modifies this
      ensures Contents() == ForgetTask(old(Contents()), tid, item)
    {
      hash := hash - {tid};
      if Given(item) {
        Remove(item.value, tid);
        var count := if item.value in sets then |sets[item.value]| else 0;
        if count == 0 {
          assert item.value !in sets;
          sets := sets - {item.value};
        }
      }
    }
  }

  class Registry {
    var tasks: set<Tid>
    var itemTasks: map<Option<Item>, seq<Tid>>

    constructor ()
      ensures Contents() == Local({}, map[])
    {
      tasks, itemTasks := {}, map[];
    }

    function Contents(): Local
      reads this
    {
      Local(tasks, itemTasks)
    }

    method CreateTask(redis: RedisServer?, tid: Tid, id: Option<Item>)
      modifies this, redis
      ensures Contents() == CreateLocal(old(Contents()), tid, id)
      ensures redis != null ==> redis.Contents() == SaveTask(old(redis.Contents()), tid, id)
    {
      tasks := tasks + {tid};
      if id in itemTasks && itemTasks[id] != [] {
        itemTasks := itemTasks[id := itemTasks[id] + [tid]];
      } else {
        assert [] + [tid] == [tid];
        itemTasks := itemTasks[id := [tid]];
      }
      if redis != null {
        redis.Save(tid, id);
      }
    }

    method CleanupTask(redis: RedisServer?, tid: Tid, id: Option<Item>)
      modifies this, redis
      ensures Contents() == CleanLocal(old(Contents()), tid, id)
      ensures redis != null ==> redis.Contents() == ForgetTask(old(redis.Contents()), tid, id)
    {
      if redis != null {
        redis.Cleanup(tid, id);
      }
      tasks := tasks - {tid};
      if Given(id) && id in itemTasks && tid in itemTasks[id] {
        itemTasks := itemTasks[id := Without(itemTasks[id], tid)];
        if itemTasks[id] == [] {
          itemTasks := itemTasks - {id};
        }
      }
    }

    /** With Redis the entry is looked up and forgotten, whoever runs the task;
        without, only a local task can be stopped. */
    method StopTask(redis: RedisServer?, tid: Tid) returns (stopped: bool)
      modifies this, redis
      ensures redis != null ==> stopped && Contents() == old(Contents())
      ensures redis != null ==>
                var s := old(redis.Contents());
                redis.Contents() == ForgetTask(s, tid, if tid in s.hash && s.hash[tid] != "" then Some(s.hash[tid]) else None)
      ensures redis == null ==> stopped == (tid in old(tasks)) && Contents() == StopLocal(old(Contents()), tid)
    {
      if redis != null {
        var item: Option<Item> := if tid in redis.hash then Some(redis.hash[tid]) else None;
        redis.Cleanup(tid, if Given(item) then item else None);
        return true;
      }
      stopped := tid in tasks;
      tasks := tasks - {tid};
    }

    /** Stopping every task of an item empties its set, takes exactly its members out
        of the hash, and leaves all other items alone. */
    method StopItemTasks(redis: RedisServer, item: Item) returns (stopped: bool)
      requires SetsInHash(redis.Contents())
      modifies this, redis
      ensures stopped && SetsInHash(redis.Contents())
      ensures Members(redis.Contents(), item) == {}
      ensures redis.hash == old(redis.hash) - old(Members(redis.Contents(), item))
      ensures forall i :: i != item ==> Members(redis.Contents(), i) == old(Members(redis.Contents(), i))
    {
      var todo := Members(redis.Contents(), item);
      while todo != {}
        invariant SetsInHash(redis.Contents())
        invariant Members(redis.Contents(), item) == todo <= old(Members(redis.Contents(), item))
        invariant redis.hash == old(redis.hash) - (old(Members(redis.Contents(), item)) - todo)
        invariant forall i :: i != item ==> Members(redis.Contents(), i) == old(Members(redis.Contents(), i))
        decreases todo
      {
        var tid :| tid in todo;
        assert Filed(redis.Contents(), tid, item);
        ForgetKeeps(redis.Contents(), tid, Some(item));
        ForgetMembers(redis.Contents(), tid, Some(item));
        var ok := StopTask(redis, tid);
        if !ok { return false; }
        todo := todo - {tid};
      }
      stopped := true;
    }
  }

  /** When hash and sets agree, an item has active tasks exactly when some task of the
      hash belongs to it; otherwise a reported task is at least in the hash. */
  lemma ActiveMeansListed(s: Store, item: Item)
    requires SetsInHash(s) && item != ""
    ensures Members(s, item) != {} ==> exists t :: t in s.hash && s.hash[t] == item
    ensures HashInSets(s) && (exists t :: t in s.hash && s.hash[t] == item) ==> Members(s, item) != {}
  {
    if t :| t in Members(s, item) {
      assert Filed(s, t, item);
    }
  }
}
