/**
 Nonce allocation for hot wallets, shared by any number of callers. Models
 internal/tx/nonce.go: a locked read-and-increment when the row exists, and a
 read followed by a plain insert when it does not.
 */
module Nonces {
  import opened Outcomes

  /** A caller that found no row and has asked the chain; its insert is still to come. */
  datatype Miss = Miss(address: string, onChain: nat)

  /** `handed` lists the nonces given out per address, oldest first. */
  datatype State = State(next: map<string, nat>, misses: map<nat, Miss>, handed: map<string, seq<nat>>)

  const EMPTY := State(map[], map[], map[])

  function Handed(st: State, address: string): seq<nat>
  {
    if address in st.handed then st.handed[address] else []
  }

  function HandOut(st: State, address: string, nonce: nat): State
  {
    State(st.next[address := nonce + 1], st.misses, st.handed[address := Handed(st, address) + [nonce]])
  }

  datatype Step =
    | AllocateLocked(address: string)
    | AllocateMiss(caller: nat, address: string, onChain: nat)
    | AllocateInsert(caller: nat)
    | SyncFromChain(address: string, onChain: nat)

  function Max(a: nat, b: nat): nat { if a >= b then a else b }

  function Next(st: State, step: Step): State
  {
    match step
    case AllocateLocked(address) =>
      if address in st.next then HandOut(st, address, st.next[address]) else st
    case AllocateMiss(caller, address, onChain) =>
      if address !in st.next && caller !in st.misses
      then st.(misses := st.misses[caller := Miss(address, onChain)]) else st
    case AllocateInsert(caller) =>
      if caller !in st.misses then st
      else
        var m := st.misses[caller];
        var st1 := st.(misses := st.misses - {caller});
        if m.address in st.next then st1 else HandOut(st1, m.address, m.onChain)
    case SyncFromChain(address, onChain) =>
      st.(next := st.next[address := if address in st.next then Max(st.next[address], onChain) else onChain])
  }

  function Run(steps: seq<Step>): State
  {
    if |steps| == 0 then EMPTY else Next(Run(steps[..|steps| - 1]), steps[|steps| - 1])
  }

  ghost predicate Increasing(s: seq<nat>)
  {
    forall i, j :: 0 <= i < j < |s| ==> s[i] < s[j]
  }

  /** Everything handed out lies below the stored next nonce; no row means nothing was handed out. */
  ghost predicate Inv(st: State)
  {
    forall a :: Increasing(Handed(st, a)) && Below(Handed(st, a), if a in st.next then st.next[a] else 0)
  }

  ghost predicate Below(s: seq<nat>, bound: nat)
  {
    forall i :: 0 <= i < |s| ==> s[i] < bound
  }

  lemma HandOutKeepsInv(st: State, address: string, nonce: nat)
    requires Inv(st) && (address in st.next ==> nonce >= st.next[address])
    ensures Inv(HandOut(st, address, nonce))
  {
    var st' := HandOut(st, address, nonce);
    forall a
      ensures Increasing(Handed(st', a)) && Below(Handed(st', a), if a in st'.next then st'.next[a] else 0)
    {
      assert Increasing(Handed(st, a)) && Below(Handed(st, a), if a in st.next then st.next[a] else 0);
    }
  }

  lemma StepKeepsInv(st: State, step: Step)
    requires Inv(st)
    ensures Inv(Next(st, step))
  {
    var st' := Next(st, step);
    match step
    case AllocateLocked(address) =>
      if address in st.next { HandOutKeepsInv(st, address, st.next[address]); }
    case AllocateInsert(caller) =>
      if caller in st.misses {
        var st1 := st.(misses := st.misses - {caller});
        assert Inv(st1) by { SameHands(st, st1); }
        if st.misses[caller].address !in st.next {
          HandOutKeepsInv(st1, st.misses[caller].address, st.misses[caller].onChain);
        }
      }
    case AllocateMiss(caller, address, onChain) => SameHands(st, st');
    case SyncFromChain(address, onChain) => SameHands(st, st');
  }

  lemma SameHands(st: State, st': State)
    requires Inv(st) && st'.handed == st.handed && st.next.Keys <= st'.next.Keys
    requires forall a :: a in st.next ==> st'.next[a] >= st.next[a]
    ensures Inv(st')
  {
    forall a
      ensures Increasing(Handed(st', a)) && Below(Handed(st', a), if a in st'.next then st'.next[a] else 0)
    {
      assert Increasing(Handed(st, a)) && Below(Handed(st, a), if a in st.next then st.next[a] else 0);
    }
  }

  /**
   However allocations, failed first inserts and chain syncs interleave, the nonces
   handed out for an address strictly increase, so none is ever given twice.
   */
  lemma {:induction false} NoncesStrictlyIncrease(steps: seq<Step>, address: string)
    ensures Inv(Run(steps))
    ensures Increasing(Handed(Run(steps), address))
  {
    if |steps| > 0 {
      NoncesStrictlyIncrease(steps[..|steps| - 1], address);
      StepKeepsInv(Run(steps[..|steps| - 1]), steps[|steps| - 1]);
    }
    assert Inv(Run(steps));
  }

  /**
   What each statement does to the stored nonce and hands out: a locked allocation hands out
   the stored nonce and stores the next; a first insert hands out the chain's and stores the
   next; a sync raises the stored nonce to the chain's if that is higher, and stores it where
   there is none. No other address is touched.
   */
  lemma StatementsExactly(st: State, a: string, onChain: nat, caller: nat)
    ensures a in st.next ==>
              var st' := Next(st, AllocateLocked(a));
              st'.next == st.next[a := st.next[a] + 1] && Handed(st', a) == Handed(st, a) + [st.next[a]]
    ensures a !in st.next ==> Next(st, AllocateLocked(a)) == st
    ensures caller in st.misses && st.misses[caller] == Miss(a, onChain) && a !in st.next ==>
              var st' := Next(st, AllocateInsert(caller));
              st'.next == st.next[a := onChain + 1] && Handed(st', a) == Handed(st, a) + [onChain]
    ensures var st' := Next(st, SyncFromChain(a, onChain));
            && st'.next.Keys == st.next.Keys + {a} && st'.handed == st.handed
            && (forall b :: b in st.next && b != a ==> st'.next[b] == st.next[b])
            && (a !in st.next || st.next[a] < onChain ==> st'.next[a] == onChain)
            && (a in st.next && st.next[a] >= onChain ==> st'.next[a] == st.next[a])
  {
  }

  /**
   Of two callers that both found no row, the one that inserts second gets an error and
   no nonce, whatever the chain told it.
   */
  lemma SecondInsertFails(st: State, first: nat, second: nat)
    requires first in st.misses && second in st.misses && first != second
    requires st.misses[first].address == st.misses[second].address && st.misses[first].address !in st.next
    ensures var a := st.misses[first].address;
            var one := Next(st, AllocateInsert(first));
            var two := Next(one, AllocateInsert(second));
            && Handed(one, a) == Handed(st, a) + [st.misses[first].onChain]
            && Handed(two, a) == Handed(one, a) && two.next == one.next
  {
  }

  /** The stored rows alone, with no caller in between two statements and nothing handed out yet. */
  function Stored(next: map<string, nat>): State { State(next, map[], map[]) }

  /** The allocator as the program holds it: each statement is one of the steps above. */
  class Allocator {
    var next: map<string, nat>

    constructor ()
      ensures next == map[]
    {
      next := map[];
    }

    /** The plain insert of a caller that found no row: it fails when the row has appeared since. */
    method InsertFirst(address: string, onChain: nat) returns (r: Result<nat, Error>)
      modifies this
      ensures var st' := Next(Stored(old(next)).(misses := map[0 := Miss(address, onChain)]), AllocateInsert(0));
              next == st'.next && Handed(st', address) == if r.Ok? then [r.value] else []
      ensures r == if address in old(next) then Err(DuplicateRow) else Ok(onChain)
    {
      if address in next {
        return Err(DuplicateRow);
      }
      next := next[address := onChain + 1];
      r := Ok(onChain);
    }

    /**
     `onChain` is the node's answer, consulted only when no row exists; the node is asked
     between the lookup and the insert, and `raced` is the row another caller commits then.
     */
    method Allocate(address: string, onChain: Option<nat>, raced: Option<nat>) returns (r: Result<nat, Error>)
      modifies this
      ensures address in old(next) ==>
                var st' := Next(Stored(old(next)), AllocateLocked(address));
                next == st'.next && r.Ok? && Handed(st', address) == [r.value]
      ensures address in old(next) ==> r == Ok(old(next)[address]) && next == old(next)[address := r.value + 1]
      ensures r.Ok? ==> address in next && next[address] == r.value + 1
      ensures address !in old(next) && onChain.None? ==> r == Err(ChainUnavailable) && next == old(next)
      ensures address !in old(next) && onChain.Some? && raced.None? ==>
                var st1 := Next(Stored(old(next)), AllocateMiss(0, address, onChain.value));
                var st' := Next(st1, AllocateInsert(0));
                next == st'.next && r.Ok? && Handed(st', address) == [r.value]
      ensures address !in old(next) && onChain.Some? && raced.Some? ==>
                r == Err(DuplicateRow) && next == old(next)[address := raced.value]
    {
      if address !in next {
        if onChain.None? {
          return Err(ChainUnavailable);
        }
        if raced.Some? {
          next := next[address := raced.value];
        }
        r := InsertFirst(address, onChain.value);
        return;
      }
      var nonce := next[address];
      next := next[address := nonce + 1];
      r := Ok(nonce);
    }

    method Sync(address: string, onChain: nat)
      modifies this
      ensures next == Next(Stored(old(next)), SyncFromChain(address, onChain)).next
      ensures address in next && next[address] >= onChain
      ensures forall a :: a in old(next) ==> a in next && next[a] >= old(next)[a]
    {
      if address !in next || next[address] < onChain {
        next := next[address := onChain];
      }
    }
  }
}
