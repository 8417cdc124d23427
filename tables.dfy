/** Row ids of database tables: how SQLite numbers a new row of a table with
    an integer primary key, and the ids of a table in order. */
module Tables {

  /** A non-empty set has an element. */
  lemma HasElement(s: set<int>)
    requires s != {}
    ensures exists k :: k in s
  {
    if forall k :: k !in s {
      assert false;
    }
  }

  /** The largest of a non-empty set of ids. */
  method Largest(s: set<int>) returns (m: int)
    requires s != {}
    ensures m in s && forall k | k in s :: k <= m
  {
    HasElement(s);
    m :| m in s;
    var rest := s - {m};
    while rest != {}
      invariant rest <= s && m in s
      invariant forall k | k in s && k !in rest :: k <= m
      decreases |rest|
    {
      HasElement(rest);
      var k :| k in rest;
      if k > m {
        m := k;
      }
      rest := rest - {k};
    }
  }

  /** The id SQLite gives the next row of a table with an integer primary
      key (without AUTOINCREMENT): one more than the largest id, or 1 for an
      empty table. */
  method NextRowId(ids: set<int>) returns (id: int)
    requires forall k | k in ids :: k > 0
    ensures id > 0 && id !in ids
    ensures forall k | k in ids :: k < id
    ensures id == 1 <==> ids == {}
    ensures id == 1 || id - 1 in ids
  {
    if ids == {} {
      return 1;
    }
    var largest := Largest(ids);
    id := largest + 1;
  }

  /** The ids of a table from high to low (`ORDER BY id DESC`). */
  method Descending(s: set<int>) returns (ids: seq<int>)
    ensures |ids| == |s|
    ensures forall i, j | 0 <= i < j < |ids| :: ids[i] > ids[j]
    ensures forall k :: k in ids <==> k in s
  {
    ids := [];
    var rest := s;
    while rest != {}
      invariant rest <= s
      invariant |ids| + |rest| == |s|
      invariant forall i, j | 0 <= i < j < |ids| :: ids[i] > ids[j]
      invariant forall k :: k in ids <==> k in s && k !in rest
      invariant forall i, k | 0 <= i < |ids| && k in rest :: ids[i] > k
      decreases |rest|
    {
      var top := Largest(rest);
      ids := ids + [top];
      rest := rest - {top};
    }
  }

  /** The ids of a table from low to high, the order a scan of a table
      keyed by row id visits them. */
  method Ascending(s: set<int>) returns (ids: seq<int>)
    ensures |ids| == |s|
    ensures forall i, j | 0 <= i < j < |ids| :: ids[i] < ids[j]
    ensures forall k :: k in ids <==> k in s
  {
    var down := Descending(s);
    ids := [];
    var n := 0;
    while n < |down|
      invariant 0 <= n <= |down|
      invariant |ids| == n
      invariant forall i | 0 <= i < n :: ids[i] == down[|down| - 1 - i]
    {
      ids := ids + [down[|down| - 1 - n]];
      n := n + 1;
    }
    forall k | k in s ensures k in ids {
      var i :| 0 <= i < |down| && down[i] == k;
      assert ids[|down| - 1 - i] == k;
    }
  }
}
