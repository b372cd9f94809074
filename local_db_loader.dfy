/** LocalDBLoader: an in-memory table of records keyed by ids it hands out
    itself, 1, 2, 3, ... in load order, until clear starts again at 1. */
module LocalDB {
  import opened Wrappers
  import opened EtlData

  /** The ids 1 .. n - 1. */
  function IdRange(n: int): (ids: set<int>)
    ensures forall id :: id in ids <==> 1 <= id < n
    decreases n
  {
    if n <= 1 then {} else IdRange(n - 1) + {n - 1}
  }

  lemma {:induction false} IdRangeSize(n: int)
    requires n >= 1
    ensures |IdRange(n)| == n - 1
    decreases n
  {
    if n > 1 {
      IdRangeSize(n - 1);
    }
  }

  /** The records db stores under the ids 1 .. n - 1, listed by id. */
  function ById<T>(db: map<int, T>, n: int): seq<T>
    decreases n
  {
    if n <= 1 then [] else ById(db, n - 1) + (if n - 1 in db then [db[n - 1]] else [])
  }

  /** The ids in 1 .. n - 1 under which db stores v. */
  function IdsHolding<T(==)>(db: map<int, T>, n: int, v: T): set<int>
    decreases n
  {
    if n <= 1 then {}
    else IdsHolding(db, n - 1, v) + (if n - 1 in db && db[n - 1] == v then {n - 1} else {})
  }

  lemma {:induction false} ByIdLength<T>(db: map<int, T>, n: int)
    requires n >= 1
    requires forall id :: 1 <= id < n ==> id in db
    ensures |ById(db, n)| == n - 1
    decreases n
  {
    if n > 1 {
      ByIdLength(db, n - 1);
    }
  }

  lemma {:induction false} IdsHoldingMembers<T>(db: map<int, T>, n: int, v: T)
    ensures forall id :: id in IdsHolding(db, n, v) <==> 1 <= id < n && id in db && db[id] == v
    decreases n
  {
    if n > 1 {
      IdsHoldingMembers(db, n - 1, v);
    }
  }

  /** Listing by id yields each record once per id that stores it. */
  lemma {:induction false} ByIdCounts<T>(db: map<int, T>, n: int, v: T)
    ensures multiset(ById(db, n))[v] == |IdsHolding(db, n, v)|
    decreases n
  {
    if n > 1 {
      ByIdCounts(db, n - 1, v);
      var prev := IdsHolding(db, n - 1, v);
      if n - 1 in db && db[n - 1] == v {
        IdsHoldingMembers(db, n - 1, v);
        assert n - 1 !in prev;
        assert multiset(ById(db, n)) == multiset(ById(db, n - 1)) + multiset{v};
        assert |prev + {n - 1}| == |prev| + 1;
      } else if n - 1 in db {
        assert multiset(ById(db, n)) == multiset(ById(db, n - 1)) + multiset{db[n - 1]};
      } else {
        assert ById(db, n) == ById(db, n - 1) + [];
      }
    }
  }

  class LocalDBLoader {
    var database: map<int, Record>
    var nextId: int

    /** The ids in use are exactly 1 .. nextId - 1, and the counter stays a Java int. */
    ghost predicate Valid()
      reads this
    {
      && 1 <= nextId <= Int32Max
      && forall id :: id in database <==> 1 <= id < nextId
    }

    /** The table holds one record per id handed out since it was created or cleared. */
    lemma CountMatchesCounter()
      requires Valid()
      ensures |database| == nextId - 1
    {
      assert database.Keys == IdRange(nextId);
      IdRangeSize(nextId);
    }

    constructor ()
      ensures Valid()
      ensures database == map[] && nextId == 1
    {
      database := map[];
      nextId := 1;
    }

    /** LocalDBLoader.load: stores the records in order under nextId, nextId + 1, ...
        and returns how many it stored. */
    method Load(records: seq<Record>) returns (count: int)
      requires Valid()
      requires nextId + |records| <= Int32Max
      modifies this
      ensures Valid()
      ensures count == |records|
      ensures nextId == old(nextId) + |records|
      ensures forall i :: 0 <= i < |records| ==>
                old(nextId) + i in database && database[old(nextId) + i] == records[i]
      ensures forall id :: id in old(database) ==> id in database && database[id] == old(database)[id]
      ensures |database| == |old(database)| + |records|
    {
      ghost var first := nextId;
      count := 0;
      for i := 0 to |records|
        invariant nextId == first + i && count == i
        invariant forall id :: id in database <==> 1 <= id < nextId
        invariant forall j :: 0 <= j < i ==> first + j in database && database[first + j] == records[j]
        invariant forall id :: id in old(database) ==> id in database && database[id] == old(database)[id]
      {
        database := database[nextId := records[i]];
        nextId := nextId + 1;
        count := count + 1;
      }
      CountMatchesCounter();
      assert |old(database)| == first - 1 by {
        assert old(database).Keys == IdRange(first);
        IdRangeSize(first);
      }
    }

    /** LocalDBLoader.getAllRecords: a new list holding every stored record once
        per id it is stored under. The order is unspecified, like a HashMap's. */
    method GetAllRecords() returns (all: seq<Record>)
      requires Valid()
      ensures |all| == |database|
      ensures forall v :: multiset(all)[v] == |set id | id in database && database[id] == v|
      ensures forall v :: v in all <==> exists id :: id in database && database[id] == v
    {
      all := [];
      for id := 1 to nextId
        invariant all == ById(database, id)
      {
        all := all + [database[id]];
      }
      CountMatchesCounter();
      ByIdLength(database, nextId);
      forall v
        ensures multiset(all)[v] == |set id | id in database && database[id] == v|
        ensures v in all <==> exists id :: id in database && database[id] == v
      {
        ByIdCounts(database, nextId, v);
        IdsHoldingMembers(database, nextId, v);
        var holding := IdsHolding(database, nextId, v);
        var stored := set id | id in database && database[id] == v;
        assert forall id :: id in stored <==> id in holding;
        assert stored == holding;
        if exists id :: id in database && database[id] == v {
          var id :| id in database && database[id] == v;
          assert id in holding;
        }
        if v in all {
          assert multiset(all)[v] > 0;
          var id :| id in holding;
          assert database[id] == v;
        }
      }
    }

    /** LocalDBLoader.getRecord: the record stored under id, or nothing (Java's
        null) for an id never handed out: 0, a negative id, or one past the last. */
    method GetRecord(id: int) returns (r: Option<Record>)
      requires Valid()
      ensures r.Some? <==> 1 <= id < nextId
      ensures r.Some? ==> id in database && r.value == database[id]
    {
      if id in database {
        r := Some(database[id]);
      } else {
        r := None;
      }
    }

    /** LocalDBLoader.getRecordCount: the table's size, which is the last id handed out. */
    method GetRecordCount() returns (n: int)
      requires Valid()
      ensures n == |database| && n == nextId - 1
    {
      CountMatchesCounter();
      n := |database|;
    }

    /** LocalDBLoader.clear: empties the table and restarts ids at 1. The new
        state does not depend on the old one, so a second clear changes nothing. */
    method Clear()
      modifies this
      ensures Valid()
      ensures database == map[] && nextId == 1
    {
      database := map[];
      nextId := 1;
    }
  }

  /** Two loads, then two clears then a load: ids run on across the first two
      batches, and the table starts over at id 1 after clearing. */
  method BatchesThenClear(a: seq<Record>, b: seq<Record>) returns (s: LocalDBLoader)
    requires |a| + |b| < Int32Max
    ensures fresh(s) && s.Valid()
    ensures s.nextId == |b| + 1
    ensures forall i :: 0 <= i < |b| ==> i + 1 in s.database && s.database[i + 1] == b[i]
  {
    s := new LocalDBLoader();
    var n := s.Load(a);
    var m := s.Load(b);
    assert forall i :: 0 <= i < |a| ==> s.database[i + 1] == a[i];
    assert forall i :: 0 <= i < |b| ==> s.database[|a| + 1 + i] == b[i];
    var c := s.GetRecordCount();
    assert c == |a| + |b|;
    s.Clear();
    s.Clear();
    var none := s.GetRecord(1);
    assert none == None;
    var k := s.Load(b);
  }
}
