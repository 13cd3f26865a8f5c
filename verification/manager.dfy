/** The blockout manager: a registry of blockout windows keyed by name, and
    the decision queries evaluated over what it currently holds. */
module Manager {
  import opened Wrappers
  import opened Blockout
  import Evaluator

  datatype BlockoutError =
    | NotFound(name: string)
    | DuplicateName(name: string)
    | InvalidDefinition(name: string)

  class BlockoutManager {
    /** The registered windows, each stored under its own name. */
    var blockouts: map<string, BlockoutWindow>

    ghost predicate Valid()
      reads this
    {
      forall n :: n in blockouts ==> blockouts[n].name == n && WellFormed(blockouts[n])
    }

    constructor ()
      ensures Valid() && blockouts == map[]
    {
      blockouts := map[];
    }

    /** addBlockout: registers a new window under its name; a name already
        taken or an ill-formed definition is refused and changes nothing. */
    method AddBlockout(b: BlockoutWindow) returns (res: Outcome<BlockoutError>)
      requires Valid()
      modifies this
      ensures Valid()
      ensures res == if b.name in old(blockouts) then Fail(DuplicateName(b.name))
                     else if !WellFormed(b) then Fail(InvalidDefinition(b.name))
                     else Pass
      ensures blockouts == if res.Pass? then old(blockouts)[b.name := b] else old(blockouts)
    {
      if b.name in blockouts {
        res := Fail(DuplicateName(b.name));
      } else if !WellFormed(b) {
        res := Fail(InvalidDefinition(b.name));
      } else {
        blockouts := blockouts[b.name := b];
        res := Pass;
      }
    }

    /** getBlockout: the window stored under a name, or NotFound. */
    method GetBlockout(name: string) returns (res: Result<BlockoutWindow, BlockoutError>)
      requires Valid()
      ensures name in blockouts ==> res.Success? && res.value == blockouts[name] && res.value.name == name
      ensures name !in blockouts ==> res == Failure(NotFound(name))
    {
      if name in blockouts {
        res := Success(blockouts[name]);
      } else {
        res := Failure(NotFound(name));
      }
    }

    /** getBlockouts: every registered window exactly once. */
    method GetBlockouts() returns (r: seq<BlockoutWindow>)
      requires Valid()
      ensures |r| == |blockouts|
      ensures forall i :: 0 <= i < |r| ==> r[i].name in blockouts && blockouts[r[i].name] == r[i]
      ensures forall i, j :: 0 <= i < j < |r| ==> r[i].name != r[j].name
      ensures Evaluator.Windows(r) == blockouts.Values
    {
      r := [];
      var todo := blockouts.Keys;
      ghost var done: set<string> := {};
      while todo != {}
        invariant todo !! done && todo + done == blockouts.Keys
        invariant ListedExactly(r, done)
        decreases todo
      {
        var n :| n in todo;
        ListStep(r, done, n);
        r := r + [blockouts[n]];
        todo := todo - {n};
        done := done + {n};
      }
      ListedAll(r);
    }

    /** r lists the windows registered under the names in done, each once. */
    ghost predicate ListedExactly(r: seq<BlockoutWindow>, done: set<string>)
      reads this
    {
      && done <= blockouts.Keys
      && |r| == |done|
      && (forall i :: 0 <= i < |r| ==> r[i].name in done && blockouts[r[i].name] == r[i])
      && (forall n :: n in done ==> blockouts[n] in r)
      && (forall i, j :: 0 <= i < j < |r| ==> r[i].name != r[j].name)
    }

    /** Listing one more registered name keeps the listing exact. */
    lemma ListStep(r: seq<BlockoutWindow>, done: set<string>, n: string)
      requires Valid() && ListedExactly(r, done)
      requires n in blockouts && n !in done
      ensures ListedExactly(r + [blockouts[n]], done + {n})
    {
      var r' := r + [blockouts[n]];
      assert |done + {n}| == |done| + 1;
      assert forall i :: 0 <= i < |r| ==> r'[i] == r[i];
    }

    /** An exact listing of every registered name holds exactly the registered windows. */
    lemma ListedAll(r: seq<BlockoutWindow>)
      requires ListedExactly(r, blockouts.Keys)
      ensures |r| == |blockouts|
      ensures Evaluator.Windows(r) == blockouts.Values
    {
      forall w | w in blockouts.Values ensures w in Evaluator.Windows(r) {
        var n :| n in blockouts && blockouts[n] == w;
      }
    }

    /** updateBlockout: replaces the definition stored under an existing
        name wholesale; the stored copy keeps the key as its name. */
    method UpdateBlockout(name: string, b: BlockoutWindow) returns (res: Outcome<BlockoutError>)
      requires Valid()
      modifies this
      ensures Valid()
      ensures res == if name !in old(blockouts) then Fail(NotFound(name))
                     else if !WellFormed(b) then Fail(InvalidDefinition(name))
                     else Pass
      ensures blockouts == if res.Pass? then old(blockouts)[name := b.(name := name)] else old(blockouts)
    {
      if name !in blockouts {
        res := Fail(NotFound(name));
      } else if !WellFormed(b) {
        res := Fail(InvalidDefinition(name));
      } else {
        blockouts := blockouts[name := b.(name := name)];
        res := Pass;
      }
    }

    /** deleteBlockout: removes a name; reports whether it was registered. */
    method DeleteBlockout(name: string) returns (deleted: bool)
      requires Valid()
      modifies this
      ensures Valid()
      ensures deleted == (name in old(blockouts))
      ensures blockouts == old(blockouts) - {name}
    {
      deleted := name in blockouts;
      blockouts := blockouts - {name};
    }

    /** The test fixture's tear-down: delete every listed name in turn. */
    method DeleteAll()
      requires Valid()
      modifies this
      ensures Valid() && blockouts == map[]
    {
      var listed := GetBlockouts();
      var i := 0;
      while i < |listed|
        invariant Valid()
        invariant 0 <= i <= |listed|
        invariant blockouts.Keys == old(blockouts).Keys - set k | 0 <= k < i :: listed[k].name
        invariant forall n :: n in blockouts ==> blockouts[n] == old(blockouts)[n]
      {
        var _ := DeleteBlockout(listed[i].name);
        i := i + 1;
      }
      assert blockouts.Keys == {} by {
        forall n | n in old(blockouts).Keys ensures n in set k | 0 <= k < |listed| :: listed[k].name {
          assert old(blockouts)[n] in Evaluator.Windows(listed);
          var k :| 0 <= k < |listed| && listed[k] == old(blockouts)[n];
        }
      }
    }

    /** shouldFireNow: now lies outside every registered window. */
    method ShouldFireNow(now: int) returns (r: bool)
      requires Valid()
      ensures r <==> forall n :: n in blockouts ==> !Blocked(blockouts[n], now)
    {
      var listed := GetBlockouts();
      r := Evaluator.ShouldFireNow(listed, now);
      assert forall w :: w in listed <==> w in blockouts.Values;
    }

    /** isPartiallyBlocked: some firing of the schedule lands inside some registered window. */
    method IsPartiallyBlocked(s: Evaluator.Schedule) returns (r: bool)
      requires Valid()
      ensures r <==> Evaluator.PartiallyBlockedSpec(blockouts.Values, s)
    {
      var listed := GetBlockouts();
      r := Evaluator.IsPartiallyBlocked(listed, s);
    }

    /** willFire: some firing of the schedule escapes every registered window. */
    method WillFire(s: Evaluator.Schedule) returns (r: bool)
      requires Valid()
      ensures r <==> Evaluator.WillFireSpec(blockouts.Values, s)
    {
      var listed := GetBlockouts();
      r := Evaluator.WillFire(listed, s);
    }
  }
}
