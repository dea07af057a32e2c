/**
 * The in-memory transaction store: a table from id to Transaction, updated in
 * place. The fresh id (randomUUID) and the clock (new Date()) are parameters
 * of CreateTransaction.
 */
module Storage {
  import opened Wrappers
  import opened Schema

  /** Newest first: `createdAt` never increases along the sequence. */
  ghost predicate NewestFirst(s: seq<Transaction>) {
    forall i, j :: 0 <= i < j < |s| ==> s[i].createdAt >= s[j].createdAt
  }

  /** Places `t` into a sequence, ahead of the first row not newer than it. */
  function InsertNewestFirst(s: seq<Transaction>, t: Transaction): (r: seq<Transaction>)
    ensures multiset(r) == multiset(s) + multiset{t}
    ensures |r| == |s| + 1
  {
    if s == [] then [t]
    else if s[0].createdAt <= t.createdAt then [t] + s
    else
      assert s == [s[0]] + s[1..];
      [s[0]] + InsertNewestFirst(s[1..], t)
  }

  /** Inserting into a newest-first sequence keeps it newest first. */
  lemma {:induction false} InsertKeepsNewestFirst(s: seq<Transaction>, t: Transaction)
    requires NewestFirst(s)
    ensures NewestFirst(InsertNewestFirst(s, t))
  {
    if s != [] && s[0].createdAt > t.createdAt {
      var rest := InsertNewestFirst(s[1..], t);
      InsertKeepsNewestFirst(s[1..], t);
      var r := [s[0]] + rest;
      forall j | 0 <= j < |rest| ensures rest[j].createdAt <= s[0].createdAt {
        assert rest[j] in multiset(rest);
        if rest[j] != t {
          assert rest[j] in multiset(s[1..]);
        }
      }
      forall i, j | 0 <= i < j < |r| ensures r[i].createdAt >= r[j].createdAt {
        if i > 0 {
          assert r[i] == rest[i - 1] && r[j] == rest[j - 1];
        } else {
          assert r[j] == rest[j - 1];
        }
      }
    }
  }

  /** The rows of `m` filed under the ids in `ids`. */
  ghost function RowsAt(m: map<Id, Transaction>, ids: set<Id>): set<Transaction> {
    set id | id in ids && id in m :: m[id]
  }

  /** Taking in one more id of a well-filed table adds exactly its row, which was not there yet. */
  lemma RowsAtAdd(m: map<Id, Transaction>, ids: set<Id>, id: Id)
    requires forall k :: k in m ==> m[k].id == k
    requires id in m && id !in ids
    ensures m[id] !in RowsAt(m, ids)
    ensures multiset(RowsAt(m, ids + {id})) == multiset(RowsAt(m, ids)) + multiset{m[id]}
  {
    assert RowsAt(m, ids + {id}) == RowsAt(m, ids) + {m[id]};
  }

  /** Under all its ids a table holds exactly its values. */
  lemma RowsAtAll(m: map<Id, Transaction>)
    ensures RowsAt(m, m.Keys) == m.Values
  {
    forall t | t in m.Values ensures t in RowsAt(m, m.Keys) {
      var id :| id in m && m[id] == t;
    }
  }

  class MemStorage {
    var transactions: map<Id, Transaction>

    /** Every row is filed under its own id. */
    ghost predicate Valid()
      reads this
    {
      forall id :: id in transactions ==> transactions[id].id == id
    }

    constructor ()
      ensures Valid()
      ensures transactions == map[]
    {
      transactions := map[];
    }

    /** The row filed under `id`, or None (`undefined`) when there is none. */
    method GetTransaction(id: Id) returns (r: Option<Transaction>)
      requires Valid()
      ensures r.Some? <==> id in transactions
      ensures r.Some? ==> r.value == transactions[id] && r.value.id == id
    {
      if id in transactions {
        r := Some(transactions[id]);
      } else {
        r := None;
      }
    }

    /** Every stored row exactly once, newest first; the order among equal timestamps is unspecified. */
    method GetAllTransactions() returns (r: seq<Transaction>)
      requires Valid()
      ensures NewestFirst(r)
      ensures multiset(r) == multiset(transactions.Values)
      ensures |r| == |transactions|
    {
      var remaining := transactions.Keys;
      ghost var done: set<Id> := {};
      r := [];
      while remaining != {}
        invariant remaining <= transactions.Keys
        invariant done == transactions.Keys - remaining
        invariant NewestFirst(r)
        invariant multiset(r) == multiset(RowsAt(transactions, done))
        invariant |r| == |done|
        decreases remaining
      {
        var id :| id in remaining;
        var t := transactions[id];
        RowsAtAdd(transactions, done, id);
        InsertKeepsNewestFirst(r, t);
        assert |done + {id}| == |done| + 1;
        r := InsertNewestFirst(r, t);
        remaining := remaining - {id};
        done := done + {id};
      }
      RowsAtAll(transactions);
      assert done == transactions.Keys;
    }

    /** Stores `{...draft, id, createdAt: now}` under `id` and returns it. */
    method CreateTransaction(draft: InsertTransaction, id: Id, now: int) returns (t: Transaction)
      requires Valid()
      modifies this
      ensures Valid()
      ensures t.id == id && t.createdAt == now && Draft(t) == draft
      ensures transactions == old(transactions)[id := t]
      ensures |transactions| == |old(transactions)| + (if id in old(transactions) then 0 else 1)
    {
      t := Stamp(draft, id, now);
      transactions := transactions[id := t];
    }

    /** Removes the row filed under `id`; reports whether there was one. */
    method DeleteTransaction(id: Id) returns (existed: bool)
      requires Valid()
      modifies this
      ensures Valid()
      ensures existed <==> id in old(transactions)
      ensures transactions == old(transactions) - {id}
      ensures existed ==> |transactions| == |old(transactions)| - 1
      ensures !existed ==> transactions == old(transactions)
    {
      existed := id in transactions;
      transactions := transactions - {id};
    }
  }

  /**
   * Create, then look up: the lookup returns the created row; a delete then
   * succeeds, after which the lookup finds nothing and a second delete fails.
   */
  method CreateGetDelete(store: MemStorage, draft: InsertTransaction, id: Id, now: int)
    returns (created: Transaction, found: Option<Transaction>, deleted: bool,
             foundAfter: Option<Transaction>, deletedAgain: bool)
    requires store.Valid()
    modifies store
    ensures found == Some(created) && Draft(created) == draft
    ensures deleted && foundAfter == None && !deletedAgain
    ensures store.transactions == old(store.transactions) - {id}
  {
    created := store.CreateTransaction(draft, id, now);
    found := store.GetTransaction(id);
    deleted := store.DeleteTransaction(id);
    foundAfter := store.GetTransaction(id);
    deletedAgain := store.DeleteTransaction(id);
  }
}
