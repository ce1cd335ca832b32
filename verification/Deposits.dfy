/**
 Deposit rows, their crediting and their reversal when blocks are orphaned.
 Models internal/exchange/deposit.go and the deposit half of
 internal/exchange/store.go. A row's id is its position in the table.
 */
module Deposits {
  import opened Outcomes
  import opened Ledger
  import Notices

  datatype Status = Pending | Credited | Orphaned

  datatype Key = Key(txHash: string, logIndex: nat)

  datatype Deposit = Deposit(key: Key, account: Account, amount: nat, block: nat, status: Status)

  /** What the indexer read off the chain for one incoming transfer. */
  datatype Capture = Capture(key: Key, account: Account, amount: nat, block: nat)

  /** The tables that one capture may touch. */
  datatype Desk = Desk(book: Book, deposits: seq<Deposit>, outbox: seq<Notices.Notice>)

  /** Lookup under the unique key (tx hash, log index). */
  function Find(ds: seq<Deposit>, key: Key): (r: Option<nat>)
    ensures r.Some? ==> r.value < |ds| && ds[r.value].key == key
    ensures r.None? ==> forall i :: 0 <= i < |ds| ==> ds[i].key != key
  {
    if |ds| == 0 then None
    else if ds[|ds| - 1].key == key then Some(|ds| - 1)
    else Find(ds[..|ds| - 1], key)
  }

  function MarkCredited(ds: seq<Deposit>, id: nat): seq<Deposit>
    requires id < |ds|
  {
    if ds[id].status == Credited then ds else ds[id := ds[id].(status := Credited)]
  }

  function CaptureAndCredit(t: Desk, p: Capture, merchants: seq<string>): Result<Desk, Error>
  {
    var found := Find(t.deposits, p.key);
    var id := if found.Some? then found.value else |t.deposits|;
    var ds := if found.Some? then t.deposits
              else t.deposits + [Deposit(p.key, p.account, p.amount, p.block, Pending)];
    if ds[id].status == Credited then Ok(t.(deposits := ds))
    else
      var ds1 := if ds[id].status == Orphaned then ds[id := ds[id].(status := Pending, block := p.block)] else ds;
      if HasEntry(t.book.entries, DepositRef, id, DepositCredit) then
        Ok(t.(deposits := MarkCredited(ds1, id)))
      else
        match Apply(t.book, p.account, CreditDeposit(p.amount, id))
        case Err(e) => Err(e)
        case Ok(b) => Ok(Desk(b, MarkCredited(ds1, id), Notices.EnqueueDeposit(t.outbox, merchants, id)))
  }

  // ---------------------------------------------------------------------
  // What is true of every deposit between transactions.
  // ---------------------------------------------------------------------

  function CreditFact(d: Deposit): Fact { Fact(DepositCredit, d.account, d.amount) }

  function ReverseFact(d: Deposit): Fact { Fact(DepositReverse, d.account, d.amount) }

  /** Credited once, reversed at most once and after it; an orphaned row has been reversed. */
  ghost predicate Told(es: seq<Entry>, d: Deposit, id: nat)
  {
    && d.status != Pending
    && (Story(es, DepositRef, id) == [CreditFact(d)] || Story(es, DepositRef, id) == [CreditFact(d), ReverseFact(d)])
    && (d.status == Orphaned ==> Story(es, DepositRef, id) == [CreditFact(d), ReverseFact(d)])
  }

  ghost predicate AllTold(es: seq<Entry>, ds: seq<Deposit>)
  {
    && (forall id :: 0 <= id < |ds| ==> Told(es, ds[id], id))
    && (forall id: nat :: id >= |ds| ==> Story(es, DepositRef, id) == [])
    && (forall i, j :: 0 <= i < j < |ds| ==> ds[i].key != ds[j].key)
  }

  /** Net change of the owner's available balance over a story. */
  function NetEffect(story: seq<Fact>): int
  {
    if |story| == 0 then 0
    else NetEffect(story[..|story| - 1]) +
         EffectOf(story[|story| - 1].entryType, story[|story| - 1].amount).available
  }

  function Times(story: seq<Fact>, t: EntryType): nat
  {
    if |story| == 0 then 0
    else Times(story[..|story| - 1], t) + if story[|story| - 1].entryType == t then 1 else 0
  }

  /** The consequences a reader cares about: counts and net effect of any deposit. */
  lemma NetOfStory(d: Deposit)
    ensures NetEffect([CreditFact(d)]) == d.amount && NetEffect([CreditFact(d), ReverseFact(d)]) == 0
    ensures Times([CreditFact(d)], DepositCredit) == Times([CreditFact(d), ReverseFact(d)], DepositCredit) == 1
    ensures Times([CreditFact(d)], DepositReverse) == 0 && Times([CreditFact(d), ReverseFact(d)], DepositReverse) == 1
  {
    var c := [CreditFact(d)];
    var cr := [CreditFact(d), ReverseFact(d)];
    assert c[..0] == [] && cr[..1] == c;
    assert NetEffect([]) == 0;
    assert NetEffect(c) == d.amount;
    assert forall t :: Times(c, t) == if t == DepositCredit then 1 else 0;
  }

  lemma DepositAccounting(es: seq<Entry>, ds: seq<Deposit>, id: nat)
    requires AllTold(es, ds) && id < |ds|
    ensures Times(Story(es, DepositRef, id), DepositCredit) == 1
    ensures Times(Story(es, DepositRef, id), DepositReverse) <= 1
    ensures ds[id].status == Orphaned ==> NetEffect(Story(es, DepositRef, id)) == 0
    ensures NetEffect(Story(es, DepositRef, id)) ==
            if HasEntry(es, DepositRef, id, DepositReverse) then 0 else ds[id].amount
  {
    var d, s := ds[id], Story(es, DepositRef, id);
    assert Told(es, d, id);
    HasEntryIffMentioned(es, DepositRef, id, DepositReverse);
    NetOfStory(d);
    if s == [CreditFact(d), ReverseFact(d)] {
      assert s[1].entryType == DepositReverse;
    } else {
      assert !Mentions(s, DepositReverse);
    }
  }

  /** Nothing outside the deposits' own stories and the available balances has moved. */
  ghost predicate DepositFrame(b: Book, b': Book)
  {
    && (forall a :: Frozen(b', a) == Frozen(b, a))
    && (forall r, id :: r != DepositRef ==> Story(b'.entries, r, id) == Story(b.entries, r, id))
  }

  lemma CreditedOnce(es: seq<Entry>, ds: seq<Deposit>, id: nat)
    requires AllTold(es, ds)
    ensures HasEntry(es, DepositRef, id, DepositCredit) <==> id < |ds|
  {
    HasEntryIffMentioned(es, DepositRef, id, DepositCredit);
    if id < |ds| {
      assert Told(es, ds[id], id);
      assert Story(es, DepositRef, id)[0].entryType == DepositCredit;
    }
  }

  /**
   A capture always commits. It pays out exactly when its key is new; a key seen
   before never pays again, whatever the amount or owner now claimed for it, and
   an orphaned row comes back to life at the new height without being paid.
   */
  lemma CaptureKeepsTold(t: Desk, p: Capture, merchants: seq<string>)
    requires Sound(t.book) && AllTold(t.book.entries, t.deposits)
    ensures CaptureAndCredit(t, p, merchants).Ok?
    ensures var t' := CaptureAndCredit(t, p, merchants).value;
            && Sound(t'.book) && AllTold(t'.book.entries, t'.deposits) && DepositFrame(t.book, t'.book)
            && (Find(t.deposits, p.key).Some? ==> t'.book == t.book && t'.outbox == t.outbox)
            && (Find(t.deposits, p.key).None? ==>
                  && |t'.deposits| == |t.deposits| + 1
                  && Available(t'.book, p.account) == Available(t.book, p.account) + p.amount
                  && t'.outbox == Notices.EnqueueDeposit(t.outbox, merchants, |t.deposits|))
    ensures var t' := CaptureAndCredit(t, p, merchants).value;
            && |t'.deposits| >= |t.deposits|
            && (forall i :: 0 <= i < |t'.deposits| ==>
                  || (i < |t.deposits| && t'.deposits[i] == t.deposits[i])
                  || (t'.deposits[i].key == p.key && t'.deposits[i].block == p.block
                      && t'.deposits[i].status == Credited))
  {
    hide Sound, AllTold, Notices.EnqueueDeposit, Told;
    var t' := CaptureAndCredit(t, p, merchants).value;
    var found := Find(t.deposits, p.key);
    if found.Some? {
      var id := found.value;
      CreditedOnce(t.book.entries, t.deposits, id);
      NeverPending(t.book.entries, t.deposits, id);
      if t.deposits[id].status == Orphaned {
        assert t'.deposits == t.deposits[id := t.deposits[id].(status := Credited, block := p.block)];
        ToldAfterRecapture(t.book.entries, t.deposits, id, p.block);
      }
    } else {
      var id := |t.deposits|;
      CreditedOnce(t.book.entries, t.deposits, id);
      var op := CreditDeposit(p.amount, id);
      ApplyMoves(t.book, p.account, op);
      ApplyKeepsSound(t.book, p.account, op);
      var d := Deposit(p.key, p.account, p.amount, p.block, Credited);
      assert t'.deposits == t.deposits + [d];
      ToldAfterCredit(t.book, t'.book, t.deposits, d);
    }
  }

  lemma NeverPending(es: seq<Entry>, ds: seq<Deposit>, id: nat)
    requires AllTold(es, ds) && id < |ds|
    ensures ds[id].status != Pending
  {
    assert Told(es, ds[id], id);
  }

  lemma ToldAfterRecapture(es: seq<Entry>, ds: seq<Deposit>, id: nat, block: nat)
    requires AllTold(es, ds) && id < |ds|
    ensures AllTold(es, ds[id := ds[id].(status := Credited, block := block)])
  {
    var ds' := ds[id := ds[id].(status := Credited, block := block)];
    forall i | 0 <= i < |ds'| ensures Told(es, ds'[i], i) {
      assert Told(es, ds[i], i);
    }
  }

  lemma ToldAfterCredit(b: Book, b': Book, ds: seq<Deposit>, d: Deposit)
    requires AllTold(b.entries, ds) && Find(ds, d.key).None? && d.status == Credited
    requires Moved(b, b', d.account, CreditDeposit(d.amount, |ds|))
    ensures AllTold(b'.entries, ds + [d])
  {
    hide Told, Moved;
    var ds' := ds + [d];
    forall id: nat ensures Story(b'.entries, DepositRef, id) ==
                           Story(b.entries, DepositRef, id) + if id == |ds| then [CreditFact(d)] else []
    {
      StoryMoved(b, b', d.account, CreditDeposit(d.amount, |ds|), id);
    }
    forall i | 0 <= i < |ds'| ensures Told(b'.entries, ds'[i], i) {
      if i < |ds| {
        assert Told(b.entries, ds[i], i);
        SameStory(b.entries, b'.entries, ds[i], i);
      } else {
        assert Story(b.entries, DepositRef, i) == [];
        NewStory(b'.entries, d, i);
      }
    }
  }

  lemma StoryMoved(b: Book, b': Book, a: Account, op: Op, id: nat)
    requires Moved(b, b', a, op)
    ensures Story(b'.entries, DepositRef, id) ==
            Story(b.entries, DepositRef, id) +
            if op.refType == DepositRef && id == op.refId then [Fact(op.entryType, a, op.amount)] else []
  {
  }

  lemma SameStory(es: seq<Entry>, es': seq<Entry>, d: Deposit, i: nat)
    requires Told(es, d, i) && Story(es', DepositRef, i) == Story(es, DepositRef, i) + []
    ensures Told(es', d, i)
  {
    assert Story(es', DepositRef, i) == Story(es, DepositRef, i);
  }

  lemma NewStory(es: seq<Entry>, d: Deposit, i: nat)
    requires Story(es, DepositRef, i) == [] + [CreditFact(d)] && d.status == Credited
    ensures Told(es, d, i)
  {
  }

  /** The exact effect of a capture on rows and balances, by whether its key is new. */
  lemma CaptureExactly(t: Desk, p: Capture, merchants: seq<string>)
    requires Sound(t.book) && AllTold(t.book.entries, t.deposits)
    ensures CaptureAndCredit(t, p, merchants).Ok?
    ensures var t' := CaptureAndCredit(t, p, merchants).value;
            match Find(t.deposits, p.key)
            case None =>
              && t'.deposits == t.deposits + [Deposit(p.key, p.account, p.amount, p.block, Credited)]
              && (forall a :: Available(t'.book, a) == Available(t.book, a) + if a == p.account then p.amount else 0)
            case Some(id) =>
              && t'.book == t.book
              && t'.deposits == if t.deposits[id].status == Orphaned
                                then t.deposits[id := t.deposits[id].(status := Credited, block := p.block)]
                                else t.deposits
  {
    hide Sound, AllTold, Notices.EnqueueDeposit;
    var found := Find(t.deposits, p.key);
    if found.Some? {
      CreditedOnce(t.book.entries, t.deposits, found.value);
      NeverPending(t.book.entries, t.deposits, found.value);
    } else {
      var id := |t.deposits|;
      CreditedOnce(t.book.entries, t.deposits, id);
      ApplyMoves(t.book, p.account, CreditDeposit(p.amount, id));
    }
  }

  // ---------------------------------------------------------------------
  // Reorgs.
  // ---------------------------------------------------------------------

  predicate Affected(d: Deposit, from: nat) { d.block >= from && d.status != Orphaned }

  function OrphanFrom(ds: seq<Deposit>, from: nat): seq<Deposit>
  {
    seq(|ds|, i requires 0 <= i < |ds| => if Affected(ds[i], from) then ds[i].(status := Orphaned) else ds[i])
  }

  /** `rows` lists the affected ids below `n` once each; the query promises no order. */
  ghost predicate Enumerates(rows: seq<nat>, ds: seq<Deposit>, from: nat, n: nat)
    requires n <= |ds|
  {
    && ValidRows(rows, ds) && Distinct(rows)
    && (forall id :: id in rows <==> 0 <= id < n && Affected(ds[id], from))
  }

  predicate NeedsReversal(es: seq<Entry>, d: Deposit, id: nat)
  {
    && d.status == Credited
    && !HasEntry(es, DepositRef, id, DepositReverse)
    && HasEntry(es, DepositRef, id, DepositCredit)
  }

  /** Distinct positions of the deposit table. */
  predicate ValidRows(rows: seq<nat>, ds: seq<Deposit>)
  {
    forall i :: 0 <= i < |rows| ==> rows[i] < |ds|
  }

  predicate Distinct(rows: seq<nat>)
  {
    forall i, j :: 0 <= i < j < |rows| ==> rows[i] != rows[j]
  }

  /** The loop over the orphaned rows: the first reversal that fails aborts everything. */
  function ReverseAll(b: Book, ds: seq<Deposit>, rows: seq<nat>): Result<Book, Error>
    requires ValidRows(rows, ds)
    decreases |rows|
  {
    if |rows| == 0 then Ok(b)
    else
      var id := rows[0];
      if !NeedsReversal(b.entries, ds[id], id) then ReverseAll(b, ds, rows[1..])
      else
        match Apply(b, ds[id].account, ReverseDeposit(ds[id].amount, id))
        case Err(e) => Err(e)
        case Ok(b1) => ReverseAll(b1, ds, rows[1..])
  }

  function Claim(es: seq<Entry>, d: Deposit, id: nat, a: Account): nat
  {
    if d.account == a && NeedsReversal(es, d, id) then d.amount else 0
  }

  /** What the listed rows still owe back on account `a`. */
  function RowsDue(es: seq<Entry>, ds: seq<Deposit>, rows: seq<nat>, a: Account): nat
    requires ValidRows(rows, ds)
    decreases |rows|
  {
    if |rows| == 0 then 0
    else
      Claim(es, ds[rows[0]], rows[0], a) + RowsDue(es, ds, rows[1..], a)
  }

  /** What the first `n` deposit rows at or above height `from` still owe back on account `a`. */
  function Due(es: seq<Entry>, ds: seq<Deposit>, from: nat, a: Account, n: nat): nat
    requires n <= |ds|
  {
    if n == 0 then 0
    else Due(es, ds, from, a, n - 1) +
         if Affected(ds[n - 1], from) then Claim(es, ds[n - 1], n - 1, a) else 0
  }

  lemma {:induction false} RowsDueRemove(es: seq<Entry>, ds: seq<Deposit>, rows: seq<nat>, k: nat, a: Account)
    requires ValidRows(rows, ds) && k < |rows|
    ensures ValidRows(rows[..k] + rows[k + 1..], ds)
    ensures RowsDue(es, ds, rows, a) ==
            Claim(es, ds[rows[k]], rows[k], a) + RowsDue(es, ds, rows[..k] + rows[k + 1..], a)
    decreases k
  {
    if k == 0 {
      assert rows[..0] + rows[1..] == rows[1..];
    } else {
      RowsDueRemove(es, ds, rows[1..], k - 1, a);
      var rest := rows[..k] + rows[k + 1..];
      assert rest[1..] == rows[1..][..k - 1] + rows[1..][k..];
      assert rest[0] == rows[0];
    }
  }

  lemma EnumeratesWithout(rows: seq<nat>, ds: seq<Deposit>, from: nat, n: nat, k: nat)
    requires 0 < n <= |ds| && Enumerates(rows, ds, from, n)
    requires k < |rows| && rows[k] == n - 1
    ensures Enumerates(rows[..k] + rows[k + 1..], ds, from, n - 1)
  {
    var rest := rows[..k] + rows[k + 1..];
    assert forall i :: 0 <= i < |rest| ==> rest[i] == if i < k then rows[i] else rows[i + 1];
    forall id ensures id in rest <==> 0 <= id < n - 1 && Affected(ds[id], from) {
      if id in rest {
        var i :| 0 <= i < |rest| && rest[i] == id;
        assert id == if i < k then rows[i] else rows[i + 1];
        assert id in rows && id != n - 1;
      }
      if 0 <= id < n - 1 && Affected(ds[id], from) {
        assert id in rows;
        var i :| 0 <= i < |rows| && rows[i] == id;
        assert rest[if i < k then i else i - 1] == id;
      }
    }
  }

  lemma EmptyOrMember(rows: seq<nat>)
    ensures |rows| == 0 || exists id :: id in rows
  {
    if |rows| > 0 { assert rows[0] in rows; }
  }

  /** The amount due does not depend on the order in which the rows arrive. */
  lemma {:induction false} RowsDueIsDue(es: seq<Entry>, ds: seq<Deposit>, from: nat, rows: seq<nat>, a: Account, n: nat)
    requires n <= |ds| && Enumerates(rows, ds, from, n)
    ensures RowsDue(es, ds, rows, a) == Due(es, ds, from, a, n)
    decreases n
  {
    hide NeedsReversal;
    if n == 0 {
      EmptyOrMember(rows);
    } else if Affected(ds[n - 1], from) {
      assert n - 1 in rows;
      var k :| 0 <= k < |rows| && rows[k] == n - 1;
      RowsDueRemove(es, ds, rows, k, a);
      var rest := rows[..k] + rows[k + 1..];
      EnumeratesWithout(rows, ds, from, n, k);
      RowsDueIsDue(es, ds, from, rest, a, n - 1);
    } else {
      RowsDueIsDue(es, ds, from, rows, a, n - 1);
    }
  }

  lemma NeedsReversalFrame(es: seq<Entry>, es': seq<Entry>, d: Deposit, id: nat)
    requires Story(es', DepositRef, id) == Story(es, DepositRef, id)
    ensures NeedsReversal(es', d, id) == NeedsReversal(es, d, id)
  {
    HasEntryIffMentioned(es, DepositRef, id, DepositReverse);
    HasEntryIffMentioned(es', DepositRef, id, DepositReverse);
    HasEntryIffMentioned(es, DepositRef, id, DepositCredit);
    HasEntryIffMentioned(es', DepositRef, id, DepositCredit);
  }

  lemma {:induction false} RowsDueFrame(es: seq<Entry>, es': seq<Entry>, ds: seq<Deposit>, rows: seq<nat>, a: Account)
    requires ValidRows(rows, ds)
    requires forall i :: 0 <= i < |rows| ==> Story(es', DepositRef, rows[i]) == Story(es, DepositRef, rows[i])
    ensures RowsDue(es', ds, rows, a) == RowsDue(es, ds, rows, a)
    decreases |rows|
  {
    if |rows| > 0 {
      NeedsReversalFrame(es, es', ds[rows[0]], rows[0]);
      RowsDueFrame(es, es', ds, rows[1..], a);
    }
  }

  function ReversalOf(es: seq<Entry>, ds: seq<Deposit>, rows: seq<nat>, r: RefType, id: nat): seq<Fact>
    requires ValidRows(rows, ds)
  {
    if r == DepositRef && id in rows && NeedsReversal(es, ds[id], id) then [ReverseFact(ds[id])] else []
  }

  /** The outcome of the reversal loop, read off the tables it started from. */
  ghost predicate Reversed(b: Book, b': Book, ds: seq<Deposit>, rows: seq<nat>)
    requires ValidRows(rows, ds)
  {
    && Sound(b')
    && (forall a :: Available(b', a) == Available(b, a) - RowsDue(b.entries, ds, rows, a))
    && (forall a :: Frozen(b', a) == Frozen(b, a))
    && (forall r, id :: Story(b'.entries, r, id) ==
                        Story(b.entries, r, id) + ReversalOf(b.entries, ds, rows, r, id))
  }

  ghost predicate Covered(b: Book, ds: seq<Deposit>, rows: seq<nat>)
    requires ValidRows(rows, ds)
  {
    forall a :: RowsDue(b.entries, ds, rows, a) <= Available(b, a)
  }

  lemma DueAfterOne(b: Book, b1: Book, ds: seq<Deposit>, rows: seq<nat>)
    requires |rows| > 0 && ValidRows(rows, ds)
    requires Distinct(rows)
    requires NeedsReversal(b.entries, ds[rows[0]], rows[0])
    requires Moved(b, b1, ds[rows[0]].account, ReverseDeposit(ds[rows[0]].amount, rows[0]))
    ensures forall a :: RowsDue(b1.entries, ds, rows[1..], a) == RowsDue(b.entries, ds, rows[1..], a)
    ensures Covered(b1, ds, rows[1..]) <==> Covered(b, ds, rows)
  {
    var rest := rows[1..];
    forall a ensures RowsDue(b1.entries, ds, rest, a) == RowsDue(b.entries, ds, rest, a) {
      RowsDueFrame(b.entries, b1.entries, ds, rest, a);
    }
    var h, m := ds[rows[0]].account, ds[rows[0]].amount;
    assert forall a :: RowsDue(b.entries, ds, rows, a) == (if a == h then m else 0) + RowsDue(b.entries, ds, rest, a);
    if Covered(b, ds, rows) {
      forall a ensures RowsDue(b1.entries, ds, rest, a) <= Available(b1, a) {
        assert RowsDue(b.entries, ds, rows, a) <= Available(b, a);
      }
    }
    if Covered(b1, ds, rest) {
      forall a ensures RowsDue(b.entries, ds, rows, a) <= Available(b, a) {
        assert RowsDue(b1.entries, ds, rest, a) <= Available(b1, a);
      }
    }
  }

  /** The loop succeeds exactly when every account covers the total it owes back. */
  lemma {:induction false} ReverseAllIff(b: Book, ds: seq<Deposit>, rows: seq<nat>)
    requires Sound(b) && ValidRows(rows, ds)
    requires Distinct(rows)
    ensures ReverseAll(b, ds, rows).Ok? <==> Covered(b, ds, rows)
    ensures ReverseAll(b, ds, rows).Ok? ==> Reversed(b, ReverseAll(b, ds, rows).value, ds, rows)
    decreases |rows|
  {
    if |rows| > 0 {
      var id, rest := rows[0], rows[1..];
      assert id in rows && id !in rest;
      var d := ds[id];
      if NeedsReversal(b.entries, d, id) {
        var op := ReverseDeposit(d.amount, id);
        ApplyMoves(b, d.account, op);
        if Apply(b, d.account, op).Ok? {
          ApplyKeepsSound(b, d.account, op);
          var b1 := Apply(b, d.account, op).value;
          DueAfterOne(b, b1, ds, rows);
          ReverseAllIff(b1, ds, rest);
          if ReverseAll(b1, ds, rest).Ok? {
            ReversedStep(b, b1, ReverseAll(b1, ds, rest).value, ds, rows);
          }
        } else {
          assert RowsDue(b.entries, ds, rows, d.account) > Available(b, d.account);
        }
      } else {
        ReverseAllIff(b, ds, rest);
        assert forall a :: RowsDue(b.entries, ds, rows, a) == RowsDue(b.entries, ds, rest, a);
        assert Covered(b, ds, rows) <==> Covered(b, ds, rest) by {
          assert forall a :: RowsDue(b.entries, ds, rows, a) <= Available(b, a) <==>
                             RowsDue(b.entries, ds, rest, a) <= Available(b, a);
        }
        assert forall r, k :: ReversalOf(b.entries, ds, rows, r, k) == ReversalOf(b.entries, ds, rest, r, k);
      }
    }
  }

  lemma ReversedStep(b: Book, b1: Book, b': Book, ds: seq<Deposit>, rows: seq<nat>)
    requires |rows| > 0 && ValidRows(rows, ds)
    requires Distinct(rows)
    requires NeedsReversal(b.entries, ds[rows[0]], rows[0])
    requires Moved(b, b1, ds[rows[0]].account, ReverseDeposit(ds[rows[0]].amount, rows[0]))
    requires Reversed(b1, b', ds, rows[1..])
    ensures Reversed(b, b', ds, rows)
  {
    var id, rest := rows[0], rows[1..];
    DueAfterOne(b, b1, ds, rows);
    forall a ensures Available(b', a) == Available(b, a) - RowsDue(b.entries, ds, rows, a) {
      assert Available(b', a) == Available(b1, a) - RowsDue(b1.entries, ds, rest, a);
    }
    forall r, k: nat
      ensures Story(b'.entries, r, k) == Story(b.entries, r, k) + ReversalOf(b.entries, ds, rows, r, k)
    {
      assert Story(b'.entries, r, k) == Story(b1.entries, r, k) + ReversalOf(b1.entries, ds, rest, r, k);
      assert id !in rest;
      if r == DepositRef && k in rest {
        assert k in rows;
        NeedsReversalFrame(b.entries, b1.entries, ds[k], k);
      }
    }
  }

  /** After the loop, the orphaned table tells a consistent story again. */
  lemma ReorgKeepsTold(b: Book, b': Book, ds: seq<Deposit>, from: nat, rows: seq<nat>)
    requires AllTold(b.entries, ds) && Enumerates(rows, ds, from, |ds|)
    requires Reversed(b, b', ds, rows)
    ensures AllTold(b'.entries, OrphanFrom(ds, from))
    ensures DepositFrame(b, b')
  {
    forall id: nat ensures Story(b'.entries, DepositRef, id) ==
                      Story(b.entries, DepositRef, id) + ReversalOf(b.entries, ds, rows, DepositRef, id)
    {
    }
    var ds' := OrphanFrom(ds, from);
    forall id | 0 <= id < |ds'| ensures Told(b'.entries, ds'[id], id) {
      assert Told(b.entries, ds[id], id);
      HasEntryIffMentioned(b.entries, DepositRef, id, DepositReverse);
      CreditedOnce(b.entries, ds, id);
      var s := Story(b.entries, DepositRef, id);
      if s == [CreditFact(ds[id]), ReverseFact(ds[id])] {
        assert s[1].entryType == DepositReverse;
      } else {
        assert !Mentions(s, DepositReverse);
      }
    }
  }
}
