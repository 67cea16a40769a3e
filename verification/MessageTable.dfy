/** The messages table and the keyset queries the history windows run against it. */
module MessageTable {
  import opened MessageOrder
  import opened MessageWindow

  /** The WHERE conditions of the cursor queries. */
  datatype Condition =
    | AtOrOlder(key: Key)
    | StrictlyOlder(key: Key)
    | StrictlyNewer(key: Key)
    | Between(key: Key, olderBound: Key)
  {
    predicate Holds(row: Key) {
      match this
      case AtOrOlder(c) => row.orderAt < c.orderAt || (row.orderAt == c.orderAt && row.id >= c.id)
      case StrictlyOlder(c) => row.orderAt < c.orderAt || (row.orderAt == c.orderAt && row.id > c.id)
      case StrictlyNewer(c) => row.orderAt > c.orderAt || (row.orderAt == c.orderAt && row.id < c.id)
      case Between(c, lo) =>
        (row.orderAt < c.orderAt || (row.orderAt == c.orderAt && row.id > c.id)) &&
        (row.orderAt > lo.orderAt || (row.orderAt == lo.orderAt && row.id < lo.id))
    }
  }

  function Take<T>(s: seq<T>, n: nat): seq<T> {
    if |s| <= n then s else s[..n]
  }

  function Drop<T>(s: seq<T>, n: nat): seq<T> {
    if |s| <= n then [] else s[n..]
  }

  function Last<T>(s: seq<T>): T
    requires s != []
  {
    s[|s| - 1]
  }

  /** The matching rows in the order ORDER BY order_at DESC, id ASC. The table itself is listed
      in that order, so filtering it is the whole query. */
  function Where(table: seq<Row>, condition: Condition): seq<Row> {
    if table == [] then []
    else (if condition.Holds(table[0].key) then [table[0]] else []) + Where(table[1..], condition)
  }

  lemma {:induction false} WhereMembers(table: seq<Row>, condition: Condition, row: Row)
    ensures row in Where(table, condition) <==> row in table && condition.Holds(row.key)
  {
    if table != [] {
      WhereMembers(table[1..], condition, row);
      assert table == [table[0]] + table[1..];
    }
  }

  lemma BelowHead(table: seq<Row>, condition: Condition, rest: seq<Row>)
    requires IsWindow(table) && table != [] && rest == Where(table[1..], condition)
    ensures forall k :: 0 <= k < |rest| ==>
              IsMessageOrderNewer(table[0].key, rest[k].key) && table[0].key.id != rest[k].key.id
  {
    forall k | 0 <= k < |rest|
      ensures IsMessageOrderNewer(table[0].key, rest[k].key) && table[0].key.id != rest[k].key.id
    {
      WhereMembers(table[1..], condition, rest[k]);
      HeadIsNewer(table, rest[k]);
    }
  }

  lemma {:induction false} WhereIsWindow(table: seq<Row>, condition: Condition)
    requires IsWindow(table)
    ensures IsWindow(Where(table, condition))
  {
    if table != [] {
      var rest := Where(table[1..], condition);
      WhereIsWindow(table[1..], condition);
      BelowHead(table, condition, rest);
      WindowCons(table[0], rest);
    }
  }

  /** The query result is the only newest-first list of the matching rows. */
  lemma WhereIs(table: seq<Row>, condition: Condition, rows: seq<Row>)
    requires IsWindow(table) && NewestFirst(rows)
    requires forall row :: row in rows <==> row in table && condition.Holds(row.key)
    ensures Where(table, condition) == rows
  {
    WhereIsWindow(table, condition);
    forall row ensures row in Where(table, condition) <==> row in rows {
      WhereMembers(table, condition, row);
    }
    WindowIsUnique(Where(table, condition), rows);
  }
}
