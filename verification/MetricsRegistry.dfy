/** internal/o11y/metrics.go: the list of metric controllers that the periodic collect walks over.

    The list is a Go slice: a backing array that may be shared with the snapshot a running collect
    iterates over, a length, and an index from id to position. Removal swaps the last element into
    the gap. While a collect is active, removals are only recorded and carried out at its end.
    All of it is shown to behave like a plain set of controllers. */
module MetricsRegistry {
  import opened Runs

  type Id(==, !new)
  type Reader(==, !new)

  datatype Controller = Controller(id: Id, reader: Reader)

  /** What other goroutines may ask of the registry. */
  datatype Op = Register(controller: Controller) | Remove(id: Id)

  // ----- the plain set

  /** The registered controllers by id, and all ids ever handed out by the id generator. */
  datatype Plain = Plain(live: map<Id, Controller>, used: set<Id>)

  /** Ids are never reused, and only a registered controller is ever removed. */
  predicate Permitted(p: Plain, op: Op)
  {
    match op
    case Register(c) => c.id !in p.used
    case Remove(id) => id in p.used
  }

  function Apply(p: Plain, op: Op): Plain
  {
    if !Permitted(p, op) then p
    else match op
      case Register(c) => Plain(p.live[c.id := c], p.used + {c.id})
      case Remove(id) => p.(live := p.live - {id})
  }

  function ApplyAll(p: Plain, ops: seq<Op>): Plain
  {
    if ops == [] then p else Apply(ApplyAll(p, ops[..|ops| - 1]), ops[|ops| - 1])
  }

  /** The effect of the first `n` rounds of a schedule. */
  function ApplyRounds(p: Plain, schedule: nat -> seq<Op>, n: nat): Plain
  {
    if n == 0 then p else ApplyAll(ApplyRounds(p, schedule, n - 1), schedule(n - 1))
  }

  // ----- the registry

  class Registry {
    var backing: array<Option<Controller>>   // None is a nil slot
    var len: nat
    var idx: map<Id, nat>
    var dropped: set<Id>
    var active: bool
    var snapshot: array<Option<Controller>>  // the slice held by the running collect
    var snapshotLen: nat
    var used: set<Id>                        // ids handed out by the id generator
    ghost var taken: seq<Controller>         // the snapshot's contents when the collect began

    /** The list and the index are inverse to each other. */
    ghost predicate Indexed()
      reads this, backing
    {
      && len <= backing.Length
      && (forall i :: 0 <= i < len ==> backing[i].Some? && backing[i].value.id in idx && idx[backing[i].value.id] == i)
      && (forall id :: id in idx ==> idx[id] < len && backing[idx[id]].Some? && backing[idx[id]].value.id == id)
      && idx.Keys <= used && dropped <= used
    }

    /** The slice being iterated still holds what it held when the collect began. */
    ghost predicate SnapshotIntact()
      reads this, snapshot
    {
      && snapshotLen == |taken| <= snapshot.Length
      && (snapshot == backing ==> snapshotLen <= len)
      && forall i :: 0 <= i < snapshotLen ==> snapshot[i] == Some(taken[i])
    }

    ghost predicate Valid()
      reads this, backing, snapshot
    {
      && Indexed()
      && (!active ==> dropped == {})
      && (active ==> SnapshotIntact())
    }

    /** The list as a sequence. */
    ghost function Contents(): (s: seq<Controller>)
      requires Indexed()
      reads this, backing
      ensures |s| == len && forall i :: 0 <= i < len ==> s[i] == backing[i].value
    {
      seq(len, i requires 0 <= i < len && Indexed() reads this, backing => backing[i].value)
    }

    /** The controllers in the list, by id. */
    ghost function Table(): map<Id, Controller>
      requires Indexed()
      reads this, backing
    {
      map id | id in idx :: backing[idx[id]].value
    }

    /** The plain set that the registry stands for: dropped controllers no longer belong to it. */
    ghost function View(): Plain
      requires Indexed()
      reads this, backing
    {
      Plain(Table() - dropped, used)
    }

    /** Between collects the list holds exactly the controllers of the plain set, each once. */
    lemma ContentsAreLive()
      requires Valid() && !active
      ensures forall i, j :: 0 <= i < j < len ==> Contents()[i].id != Contents()[j].id
      ensures forall c :: c in Contents() <==> c in View().live.Values
    {
      var s, live := Contents(), View().live;
      forall c ensures c in s <==> c in live.Values {
        if c in s {
          var i :| 0 <= i < len && s[i] == c;
          assert c.id in live && live[c.id] == c;
        }
        if c in live.Values {
          var id :| id in live && live[id] == c;
          assert s[idx[id]] == c;
        }
      }
    }

    constructor ()
      ensures Valid() && !active && View() == Plain(map[], {})
      ensures fresh(backing) && fresh(snapshot)
    {
      backing, len, idx, dropped, active := new Option<Controller>[0], 0, map[], {}, false;
      snapshot, snapshotLen, used, taken := new Option<Controller>[0], 0, {}, [];
    }

    /** unregisterWithIDNoLock: swap-remove, never run during a collect. */
    method UnregisterWithId(id: Id)
      requires Indexed() && !active
      modifies this`len, this`idx, backing
      ensures Indexed() && Table() == old(Table()) - {id}
      ensures len == old(len) - (if id in old(idx) then 1 else 0)
    {
      if id !in idx {
        return;
      }
      var at := idx[id];
      var last := len - 1;
      var moved := backing[last].value;
      backing[at] := Some(moved);
      backing[last] := None;
      len := last;
      idx := idx[moved.id := at];
      idx := idx - {id};
    }

    /** unregisterDroppedNoLock: carry out the recorded removals, in whatever order. */
    method UnregisterDropped()
      requires Indexed() && !active
      modifies this`len, this`idx, this`dropped, backing
      ensures Indexed() && dropped == {}
      ensures Table() == old(Table()) - old(dropped)
    {
      var todo := dropped;
      while todo != {}
        invariant Indexed() && todo <= old(dropped) && dropped == old(dropped)
        invariant Table() == old(Table()) - (old(dropped) - todo)
        decreases |todo|
      {
        var id :| id in todo;
        UnregisterWithId(id);
        todo := todo - {id};
      }
      dropped := {};
    }

    /** append: in place when the backing array has room, else into a larger copy. */
    method Append(c: Controller)
      requires len <= backing.Length
      modifies this`backing, this`len, backing
      ensures len == old(len) + 1 <= backing.Length
      ensures backing == old(backing) || fresh(backing)
      ensures forall i :: 0 <= i < old(len) ==> backing[i] == old(backing[i])
      ensures backing[old(len)] == Some(c)
      ensures forall i :: 0 <= i < old(len) ==> old(backing)[i] == old(backing[i])
    {
      if len == backing.Length {
        var larger := new Option<Controller>[2 * len + 1](_ => None);
        for i := 0 to len
          invariant backing == old(backing) && len == old(len) && fresh(larger)
          invariant forall j :: 0 <= j < i ==> larger[j] == old(backing[j])
          invariant forall j :: 0 <= j < len ==> backing[j] == old(backing[j])
        {
          larger[i] := backing[i];
        }
        backing := larger;
      }
      backing[len] := Some(c);
      len := len + 1;
    }

    /** The end of register: append and index. No slot of the old list changes, in place or not. */
    method AppendIndexed(c: Controller)
      requires Indexed() && c.id !in used
      modifies this`backing, this`len, this`idx, this`used, backing
      ensures Indexed() && Table() == old(Table())[c.id := c] && used == old(used) + {c.id}
      ensures len == old(len) + 1 && (backing == old(backing) || fresh(backing))
      ensures forall i :: 0 <= i < old(len) ==> old(backing)[i] == old(backing[i])
    {
      var at := len;
      Append(c);
      idx := idx[c.id := at];
      used := used + {c.id};
    }

    method RegisterController(c: Controller)
      requires Valid() && c.id !in used
      modifies this, backing
      ensures Valid() && View() == Apply(old(View()), Register(c))
      ensures View().live == old(View().live)[c.id := c] && used == old(used) + {c.id}
      ensures backing == old(backing) || fresh(backing)
      ensures active == old(active) && taken == old(taken)
      ensures snapshot == old(snapshot) && snapshotLen == old(snapshotLen)
    {
      if !active {
        UnregisterDropped();
      }
      AppendIndexed(c);
    }

    method RemoveController(id: Id)
      requires Valid() && id in used
      modifies this, backing
      ensures Valid() && View() == Apply(old(View()), Remove(id))
      ensures View().live == old(View().live) - {id} && used == old(used)
      ensures backing == old(backing)
      ensures active == old(active) && taken == old(taken)
      ensures snapshot == old(snapshot) && snapshotLen == old(snapshotLen)
    {
      if active {
        dropped := dropped + {id};
        return;
      }
      UnregisterDropped();
      UnregisterWithId(id);
    }

    /** Other goroutines perform `ops`; what they may not do is skipped. */
    method Others(ops: seq<Op>)
      requires Valid()
      modifies this, backing
      ensures Valid() && View() == ApplyAll(old(View()), ops)
      ensures backing == old(backing) || fresh(backing)
      ensures active == old(active) && taken == old(taken)
      ensures snapshot == old(snapshot) && snapshotLen == old(snapshotLen)
    {
      for i := 0 to |ops|
        invariant Valid() && View() == ApplyAll(old(View()), ops[..i])
        invariant backing == old(backing) || fresh(backing)
        invariant active == old(active) && taken == old(taken)
        invariant snapshot == old(snapshot) && snapshotLen == old(snapshotLen)
      {
        assert ops[..i + 1][..i] == ops[..i];
        var op := ops[i];
        match op
        case Register(c) =>
          if c.id !in used {
            RegisterController(c);
          }
        case Remove(id) =>
          if id in used {
            RemoveController(id);
          }
      }
      assert ops[..|ops|] == ops;
    }

    /** The locked section that begins a collect: the collector keeps a slice of the list. */
    method BeginCollect()
      requires Valid() && !active
      modifies this`active, this`snapshot, this`snapshotLen, this`taken
      ensures Valid() && active && taken == Contents() == old(Contents()) && View() == old(View())
    {
      active := true;
      snapshot, snapshotLen := backing, len;
      taken := Contents();
    }

    /** The deferred locked section that ends a collect. */
    method EndCollect()
      requires Valid() && active
      modifies this`active, this`len, this`idx, this`dropped, backing
      ensures Valid() && !active && View() == old(View())
    {
      active := false;
      UnregisterDropped();
    }

    /** The loop of collect over the slice, until the context is done (`limit`), while other
        goroutines run `schedule(0)` before the first export and a further round after each. */
    method ExportSnapshot(schedule: nat -> seq<Op>, limit: nat) returns (exported: seq<Controller>)
      requires Valid() && active
      modifies this, backing
      ensures Valid() && active && (backing == old(backing) || fresh(backing))
      ensures exported == old(taken)[..if limit < |old(taken)| then limit else |old(taken)|]
      ensures View() == ApplyRounds(old(View()), schedule, |exported| + 1)
    {
      exported := [];
      var i := 0;
      assert ApplyRounds(View(), schedule, 0) == View();
      Others(schedule(0));
      while i < snapshotLen && i < limit
        invariant Valid() && active && taken == old(taken)
        invariant i <= snapshotLen && i <= limit && exported == taken[..i]
        invariant backing == old(backing) || fresh(backing)
        invariant View() == ApplyRounds(old(View()), schedule, i + 1)
      {
        exported := exported + [snapshot[i].value];
        i := i + 1;
        Others(schedule(i));
      }
    }

    /** collect. Without cancellation it exports every controller registered when it began exactly
        once, whatever is registered and removed meanwhile. */
    method Collect(schedule: nat -> seq<Op>, limit: nat) returns (exported: seq<Controller>)
      requires Valid() && !active
      modifies this, backing
      ensures Valid() && !active
      ensures exported == old(Contents())[..if limit < old(len) then limit else old(len)]
      ensures forall i, j :: 0 <= i < j < |exported| ==> exported[i].id != exported[j].id
      ensures limit >= old(len) ==> forall c :: c in exported <==> c in old(View()).live.Values
      ensures View() == ApplyRounds(old(View()), schedule, |exported| + 1)
    {
      ContentsAreLive();
      ghost var before, view := Contents(), View();
      BeginCollect();
      exported := ExportSnapshot(schedule, limit);
      assert exported == before[..|exported|];
      assert limit >= |before| ==> exported == before;
      EndCollect();
    }
  }

  // ----- what the plain set says about a collect

  /** No rounds of any schedule bring back a removed controller or replace a registered one. */
  lemma {:induction false} ApplyAllKeeps(p: Plain, ops: seq<Op>, id: Id)
    requires id in p.used && p.live.Keys <= p.used
    ensures var q := ApplyAll(p, ops);
      && p.used <= q.used && q.live.Keys <= q.used
      && (id in q.live ==> id in p.live && q.live[id] == p.live[id])
  {
    if ops != [] {
      ApplyAllKeeps(p, ops[..|ops| - 1], id);
    }
  }

  lemma {:induction false} ApplyRoundsKeeps(p: Plain, schedule: nat -> seq<Op>, n: nat, id: Id)
    requires id in p.used && p.live.Keys <= p.used
    ensures var q := ApplyRounds(p, schedule, n);
      && p.used <= q.used && q.live.Keys <= q.used
      && (id in q.live ==> id in p.live && q.live[id] == p.live[id])
  {
    if n > 0 {
      ApplyRoundsKeeps(p, schedule, n - 1, id);
      ApplyAllKeeps(ApplyRounds(p, schedule, n - 1), schedule(n - 1), id);
    }
  }
}
