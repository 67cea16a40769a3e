/** The total order of messages shared by the SQL queries and the in-memory windows. */
module MessageOrder {

  /** A message cursor. `id` is the 256-bit event id read as a number: ids are fixed-length
      lower-case hexadecimal strings, and HexOrderIsNumericOrder shows that comparing such
      strings is comparing these numbers. */
  datatype Key = Key(orderAt: int, id: nat)

  /** A stored row. `version` stands for every column the ordering does not look at. */
  datatype Row = Row(key: Key, version: nat)

  /** Later timestamps win, and the smaller event id wins ties. */
  predicate IsMessageOrderNewer(candidate: Key, current: Key) {
    candidate.orderAt > current.orderAt ||
    (candidate.orderAt == current.orderAt && candidate.id < current.id)
  }

  ghost predicate NewestFirst(rows: seq<Row>) {
    forall i, j :: 0 <= i < j < |rows| ==> IsMessageOrderNewer(rows[i].key, rows[j].key)
  }

  ghost predicate OldestFirst(rows: seq<Row>) {
    forall i, j :: 0 <= i < j < |rows| ==> IsMessageOrderNewer(rows[j].key, rows[i].key)
  }

  ghost predicate DistinctIds(rows: seq<Row>) {
    forall i, j :: 0 <= i < j < |rows| ==> rows[i].key.id != rows[j].key.id
  }

  function Ids(rows: seq<Row>): set<nat> {
    set row | row in rows :: row.key.id
  }

  function Reverse<T>(s: seq<T>): (r: seq<T>)
    ensures |r| == |s|
    ensures forall i :: 0 <= i < |s| ==> r[i] == s[|s| - 1 - i]
  {
    seq(|s|, i requires 0 <= i < |s| => s[|s| - 1 - i])
  }

  // ----- the order on hexadecimal ids

  /** String comparison by code unit, as both the engine and SQLite's BINARY collation do it. */
  predicate StringLess(a: string, b: string) {
    b != "" && (a == "" || a[0] < b[0] || (a[0] == b[0] && StringLess(a[1..], b[1..])))
  }

  predicate IsHexDigit(c: char) {
    '0' <= c <= '9' || 'a' <= c <= 'f'
  }

  predicate IsHex(s: string) {
    forall i :: 0 <= i < |s| ==> IsHexDigit(s[i])
  }

  function HexDigit(c: char): nat
    requires IsHexDigit(c)
  {
    if c <= '9' then c as int - '0' as int else 10 + (c as int - 'a' as int)
  }

  function Pow16(n: nat): (r: nat)
    ensures r > 0
  {
    if n == 0 then 1 else 16 * Pow16(n - 1)
  }

  function HexValue(s: string): nat
    requires IsHex(s)
  {
    if s == "" then 0
    else HexDigit(s[0]) * Pow16(|s| - 1) + HexValue(s[1..])
  }

  lemma Scale(x: nat, y: nat, p: nat)
    requires x <= y
    ensures x * p <= y * p
  {}

  lemma {:induction false} HexValueBound(s: string)
    requires IsHex(s)
    ensures HexValue(s) < Pow16(|s|)
  {
    if s != "" {
      HexValueBound(s[1..]);
      Scale(HexDigit(s[0]), 15, Pow16(|s| - 1));
    }
  }

  /** Two leading digits decide the comparison unless they are equal. */
  lemma LeadingDigit(x: nat, y: nat, p: nat, u: nat, v: nat)
    requires u < p && v < p
    ensures x < y ==> x * p + u < y * p + v
    ensures x > y ==> x * p + u > y * p + v
  {
    if x < y {
      Scale(x + 1, y, p);
    } else if y < x {
      Scale(y + 1, x, p);
    }
  }

  lemma HexDigitInjective(c: char, d: char)
    requires IsHexDigit(c) && IsHexDigit(d)
    ensures c < d <==> HexDigit(c) < HexDigit(d)
    ensures c == d <==> HexDigit(c) == HexDigit(d)
  {}

  /** On ids of one length, the string order the source uses is the numeric order used here. */
  lemma {:induction false} HexOrderIsNumericOrder(a: string, b: string)
    requires IsHex(a) && IsHex(b) && |a| == |b|
    ensures StringLess(a, b) <==> HexValue(a) < HexValue(b)
    ensures a == b <==> HexValue(a) == HexValue(b)
  {
    if a != "" {
      HexOrderIsNumericOrder(a[1..], b[1..]);
      HexValueBound(a[1..]);
      HexValueBound(b[1..]);
      HexDigitInjective(a[0], b[0]);
      assert a == [a[0]] + a[1..] && b == [b[0]] + b[1..];
      LeadingDigit(HexDigit(a[0]), HexDigit(b[0]), Pow16(|a| - 1), HexValue(a[1..]), HexValue(b[1..]));
    }
  }
}
