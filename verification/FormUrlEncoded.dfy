/** The query-string list of the iOS notification extension, ios-notification-extension/bootstrap.js:51-73. */
module FormUrlEncoded {
  import opened PercentDecoding
  import opened PercentEncoding
  import opened Wrappers

  datatype Entry = Entry(name: string, value: string)

  // ----- printing and parsing

  function PrintEntry(e: Entry): string {
    Encode(e.name) + "=" + Encode(e.value)
  }

  function Items(entries: seq<Entry>): seq<string> {
    if entries == [] then [] else [PrintEntry(entries[0])] + Items(entries[1..])
  }

  function JoinItems(items: seq<string>): string {
    if items == [] then "" else if |items| == 1 then items[0] else items[0] + "&" + JoinItems(items[1..])
  }

  function Print(entries: seq<Entry>): string {
    JoinItems(Items(entries))
  }

  /** split('&') */
  function Split(s: string): (parts: seq<string>)
    ensures parts != []
  {
    if s == "" then [""]
    else
      var rest := Split(s[1..]);
      if s[0] == '&' then [""] + rest else [[s[0]] + rest[0]] + rest[1..]
  }

  function IndexOfEquals(s: string): (i: int)
    ensures -1 <= i < |s|
    ensures i < 0 ==> '=' !in s
    ensures i >= 0 ==> s[i] == '=' && '=' !in s[..i]
  {
    if s == "" then -1
    else if s[0] == '=' then 0
    else var i := IndexOfEquals(s[1..]); if i < 0 then -1 else i + 1
  }

  function ParseItem(item: string): Option<Entry> {
    var i := IndexOfEquals(item);
    var name := Decode(if i < 0 then item else item[..i]);
    var value := Decode(if i < 0 then "" else item[i + 1..]);
    if name.Some? && value.Some? then Some(Entry(name.value, value.value)) else None
  }

  /** filter(Boolean).map(...): one malformed escape makes the whole parse throw. */
  function ParseItems(items: seq<string>): Option<seq<Entry>> {
    if items == [] then Some([])
    else if items[0] == "" then ParseItems(items[1..])
    else match (ParseItem(items[0]), ParseItems(items[1..]))
      case (Some(e), Some(rest)) => Some([e] + rest)
      case _ => None
  }

  function Parse(query: string): Option<seq<Entry>> {
    ParseItems(Split(if query != "" && query[0] == '?' then query[1..] else query))
  }

  // ----- round trip

  lemma {:induction false} SplitPlain(s: string)
    requires '&' !in s
    ensures Split(s) == [s]
  {
    if s != "" {
      SplitPlain(s[1..]);
      assert [s[0]] + s[1..] == s;
    }
  }

  lemma {:induction false} SplitFirst(s: string, rest: string)
    requires '&' !in s
    ensures Split(s + "&" + rest) == [s] + Split(rest)
  {
    if s == "" {
      assert s + "&" + rest == "&" + rest && ("&" + rest)[1..] == rest;
    } else {
      SplitFirst(s[1..], rest);
      assert (s + "&" + rest)[1..] == s[1..] + "&" + rest;
      var parts := Split(s[1..] + "&" + rest);
      assert parts[0] == s[1..] && parts[1..] == Split(rest);
      assert [s[0]] + s[1..] == s;
    }
  }

  lemma {:induction false} SplitJoin(items: seq<string>)
    requires items != [] && forall item :: item in items ==> '&' !in item
    ensures Split(JoinItems(items)) == items
  {
    if |items| == 1 {
      SplitPlain(items[0]);
    } else {
      SplitJoin(items[1..]);
      SplitFirst(items[0], JoinItems(items[1..]));
    }
  }

  lemma PrintedEntryIsPlain(e: Entry)
    ensures '&' !in PrintEntry(e) && PrintEntry(e) != "" && PrintEntry(e)[0] != '?'
  {
    EncodeIsPlain(e.name);
    EncodeIsPlain(e.value);
  }

  lemma {:induction false} FirstEquals(front: string, back: string)
    requires '=' !in front
    ensures IndexOfEquals(front + "=" + back) == |front|
  {
    if front == "" {
      assert front + "=" + back == "=" + back;
    } else {
      assert (front + "=" + back)[1..] == front[1..] + "=" + back;
      FirstEquals(front[1..], back);
    }
  }

  lemma ParsePrintedEntry(e: Entry)
    ensures ParseItem(PrintEntry(e)) == Some(e)
  {
    var front, back := Encode(e.name), Encode(e.value);
    EncodeIsPlain(e.name);
    FirstEquals(front, back);
    assert PrintEntry(e)[..|front|] == front && PrintEntry(e)[|front| + 1..] == back;
    DecodeEncode(e.name);
    DecodeEncode(e.value);
  }

  lemma {:induction false} ParsePrintedItems(entries: seq<Entry>)
    ensures ParseItems(Items(entries)) == Some(entries)
    ensures forall item :: item in Items(entries) ==> '&' !in item
  {
    if entries != [] {
      ParsePrintedItems(entries[1..]);
      ParsePrintedEntry(entries[0]);
      PrintedEntryIsPlain(entries[0]);
      assert [entries[0]] + entries[1..] == entries;
    }
  }

  lemma PrintedHead(entries: seq<Entry>)
    ensures entries == [] <==> Print(entries) == ""
    ensures entries != [] ==> Print(entries)[0] != '?'
  {
    if entries != [] { PrintedEntryIsPlain(entries[0]); }
  }

  /** Parsing what toString prints gives the list back: empty names and values, spaces, and every
      separator included. */
  lemma ParsePrint(entries: seq<Entry>)
    ensures Parse(Print(entries)) == Some(entries)
  {
    PrintedHead(entries);
    ParsePrintedItems(entries);
    if entries == [] {
      assert Split("") == [""];
      assert ParseItems([""]) == ParseItems([]);
    } else {
      SplitJoin(Items(entries));
    }
  }

  /** What the change callback of URL.searchParams stores in the URL. */
  function Search(entries: seq<Entry>): string {
    if Print(entries) == "" then "" else "?" + Print(entries)
  }

  /** The searchParams getter parses the stored text afresh, and finds the list that stored it. */
  lemma ParseSearch(entries: seq<Entry>)
    ensures Parse(Search(entries)) == Some(entries)
  {
    ParsePrint(entries);
    PrintedHead(entries);
    assert ("?" + Print(entries))[1..] == Print(entries);
  }

  /** The URL has a search part exactly when the list has an entry, and it starts with the question mark. */
  lemma SearchIsEmptyWithTheList(entries: seq<Entry>)
    ensures Search(entries) == "" <==> entries == []
    ensures entries != [] ==> Search(entries)[0] == '?'
  {
    PrintedHead(entries);
  }

  /** So printing is injective: two lists never share a query string. */
  lemma PrintIsInjective(a: seq<Entry>, b: seq<Entry>)
    requires Print(a) == Print(b)
    ensures a == b
  {
    ParsePrint(a);
    ParsePrint(b);
  }

  // ----- what the constructor accepts

  /** A text whose percent triplets, its plus signs read as spaces, all spell characters. */
  ghost predicate Legible(s: string) {
    exists t :: Spells(PlusToSpace(s), t)
  }

  lemma LegibleIsDecoded(s: string)
    ensures Legible(s) <==> Decode(s).Some?
  {
    if Legible(s) {
      var t :| Spells(PlusToSpace(s), t);
      DecodesExactlyWhatIsSpelled(PlusToSpace(s), t);
    } else if Decode(s).Some? {
      DecodesExactlyWhatIsSpelled(PlusToSpace(s), Decode(s).value);
    }
  }

  lemma ItemIsDecoded(item: string)
    ensures ParseItem(item).Some? <==> Decode(item).Some?
  {
    var i := IndexOfEquals(item);
    if i >= 0 {
      assert item == item[..i] + ['='] + item[i + 1..];
      FormDecodesApart(item[..i], '=', item[i + 1..]);
    }
  }

  lemma {:induction false} FirstAmpersand(s: string) returns (i: nat)
    requires '&' in s
    ensures i < |s| && s[i] == '&' && '&' !in s[..i]
  {
    if s[0] == '&' {
      i := 0;
    } else {
      assert s == [s[0]] + s[1..];
      i := FirstAmpersand(s[1..]);
      assert s[1..][..i] == s[1..i + 1];
      i := i + 1;
      assert s[..i] == [s[0]] + s[1..i];
    }
  }

  lemma {:induction false} ItemsAreDecoded(s: string)
    ensures ParseItems(Split(s)).Some? <==> Decode(s).Some?
    decreases |s|
  {
    if '&' !in s {
      SplitPlain(s);
      ItemsFrom(s, []);
    } else {
      var i := FirstAmpersand(s);
      var rest := s[i + 1..];
      assert s == s[..i] + "&" + rest;
      SplitFirst(s[..i], rest);
      ItemsFrom(s[..i], Split(rest));
      ItemsAreDecoded(rest);
      FormDecodesApart(s[..i], '&', rest);
    }
  }

  lemma ItemsFrom(item: string, items: seq<string>)
    ensures ParseItems([item] + items).Some? <==> Decode(item).Some? && ParseItems(items).Some?
    ensures [item] + [] == [item]
  {
    ItemIsDecoded(item);
    assert ([item] + items)[1..] == items;
  }

  /** The constructor throws exactly when some triplet of the query does not spell a character, wherever
      the separators of the list stand. */
  lemma ParsesExactlyTheLegible(query: string)
    ensures Parse(query).Some? <==> Legible(query)
  {
    LegibleIsDecoded(query);
    if query != "" && query[0] == '?' {
      ItemsAreDecoded(query[1..]);
      assert query == "" + ['?'] + query[1..];
      FormDecodesApart("", '?', query[1..]);
    } else {
      ItemsAreDecoded(query);
    }
  }

  // ----- the list operations

  function Named(entries: seq<Entry>, name: string): seq<Entry> {
    if entries == [] then []
    else (if entries[0].name == name then [entries[0]] else []) + Named(entries[1..], name)
  }

  function OthersThan(entries: seq<Entry>, name: string): seq<Entry> {
    if entries == [] then []
    else (if entries[0].name == name then [] else [entries[0]]) + OthersThan(entries[1..], name)
  }

  /** What get answers. */
  function First(entries: seq<Entry>, name: string): Option<string> {
    if Named(entries, name) == [] then None else Some(Named(entries, name)[0].value)
  }

  lemma {:induction false} NamedConcat(a: seq<Entry>, b: seq<Entry>, name: string)
    ensures Named(a + b, name) == Named(a, name) + Named(b, name)
  {
    if a == [] {
      assert a + b == b;
    } else {
      assert (a + b)[1..] == a[1..] + b;
      NamedConcat(a[1..], b, name);
      ConcatAssociative(if a[0].name == name then [a[0]] else [], Named(a[1..], name), Named(b, name));
    }
  }

  lemma {:induction false} OthersConcat(a: seq<Entry>, b: seq<Entry>, name: string)
    ensures OthersThan(a + b, name) == OthersThan(a, name) + OthersThan(b, name)
  {
    if a == [] {
      assert a + b == b;
    } else {
      assert (a + b)[1..] == a[1..] + b;
      OthersConcat(a[1..], b, name);
      ConcatAssociative(if a[0].name == name then [] else [a[0]], OthersThan(a[1..], name), OthersThan(b, name));
    }
  }

  lemma {:induction false} NamedOthers(entries: seq<Entry>, gone: string, name: string)
    ensures Named(OthersThan(entries, gone), name) == if name == gone then [] else Named(entries, name)
  {
    if entries != [] {
      NamedOthers(entries[1..], gone, name);
      NamedConcat(if entries[0].name == gone then [] else [entries[0]], OthersThan(entries[1..], gone), name);
    }
  }

  /** After set there is exactly one value under the name, at the end of the list, and the entries
      under every other name are untouched. */
  lemma SetReplaces(entries: seq<Entry>, name: string, value: string, other: string)
    ensures var after := OthersThan(entries, name) + [Entry(name, value)];
            Named(after, other) == if other == name then [Entry(name, value)] else Named(entries, other)
  {
    NamedOthers(entries, name, other);
    NamedConcat(OthersThan(entries, name), [Entry(name, value)], other);
    assert Named(entries, other) + [] == Named(entries, other);
  }

  /** The set of the URL Standard (section 6.2, "set(name, value)"): the first entry under the name
      takes the value, further ones go, and without one the entry is appended. */
  function StandardSet(entries: seq<Entry>, name: string, value: string): seq<Entry> {
    if entries == [] then [Entry(name, value)]
    else if entries[0].name == name then [Entry(name, value)] + OthersThan(entries[1..], name)
    else [entries[0]] + StandardSet(entries[1..], name, value)
  }

  /** An entry of another name stands behind one under this name. */
  predicate OtherFollows(entries: seq<Entry>, name: string) {
    exists i, j :: 0 <= i < j < |entries| && entries[i].name == name && entries[j].name != name
  }

  lemma {:induction false} NoOthers(entries: seq<Entry>, name: string)
    ensures OthersThan(entries, name) == [] <==> forall j :: 0 <= j < |entries| ==> entries[j].name == name
    ensures OthersThan(entries, name) != [] ==> OthersThan(entries, name)[0].name != name
  {
    if entries != [] {
      NoOthers(entries[1..], name);
      assert forall j :: 0 <= j < |entries[1..]| ==> entries[1..][j] == entries[j + 1];
      if entries[0].name == name {
        assert forall j :: 1 <= j < |entries| ==> entries[j] == entries[1..][j - 1];
      }
    }
  }

  lemma FollowsInTail(entries: seq<Entry>, name: string)
    requires entries != [] && entries[0].name != name
    ensures OtherFollows(entries, name) <==> OtherFollows(entries[1..], name)
  {
    var rest := entries[1..];
    if OtherFollows(entries, name) {
      var i, j :| 0 <= i < j < |entries| && entries[i].name == name && entries[j].name != name;
      assert rest[i - 1].name == name && rest[j - 1].name != name;
    }
    if OtherFollows(rest, name) {
      var i, j :| 0 <= i < j < |rest| && rest[i].name == name && rest[j].name != name;
      assert entries[i + 1].name == name && entries[j + 1].name != name;
    }
  }

  lemma FollowsFirst(entries: seq<Entry>, name: string)
    requires entries != [] && entries[0].name == name
    ensures OtherFollows(entries, name) <==> OthersThan(entries[1..], name) != []
  {
    var rest := entries[1..];
    NoOthers(rest, name);
    if OtherFollows(entries, name) {
      var i, j :| 0 <= i < j < |entries| && entries[i].name == name && entries[j].name != name;
      assert rest[j - 1].name != name;
    }
    if OthersThan(rest, name) != [] {
      var j :| 0 <= j < |rest| && rest[j].name != name;
      assert entries[0].name == name && entries[j + 1].name != name;
    }
  }

  lemma PutFirstOrLast(e: Entry, others: seq<Entry>)
    requires others != [] ==> others[0].name != e.name
    ensures [e] + others == others + [e] <==> others == []
  {
    if others != [] { assert ([e] + others)[0] != (others + [e])[0]; }
  }

  lemma SameHead(head: Entry, a: seq<Entry>, b: seq<Entry>)
    ensures [head] + a == [head] + b <==> a == b
  {
    assert ([head] + a)[1..] == a && ([head] + b)[1..] == b;
  }

  /** This set agrees with the standard's exactly when no entry of another name stands behind one
      under the name that is set. */
  lemma {:induction false} SetIsStandardExactlyWhenLast(entries: seq<Entry>, name: string, value: string)
    ensures StandardSet(entries, name, value) == OthersThan(entries, name) + [Entry(name, value)] <==>
              !OtherFollows(entries, name)
  {
    if entries != [] {
      var rest := entries[1..];
      if entries[0].name == name {
        NoOthers(rest, name);
        FollowsFirst(entries, name);
        PutFirstOrLast(Entry(name, value), OthersThan(rest, name));
      } else {
        SetIsStandardExactlyWhenLast(rest, name, value);
        FollowsInTail(entries, name);
        ConcatAssociative([entries[0]], OthersThan(rest, name), [Entry(name, value)]);
        SameHead(entries[0], StandardSet(rest, name, value), OthersThan(rest, name) + [Entry(name, value)]);
      }
    }
  }

  /** The two differ in nothing but the place of the entry: under every name they list the same. */
  lemma {:induction false} SetListsWhatTheStandardLists(entries: seq<Entry>, name: string, value: string, other: string)
    ensures Named(StandardSet(entries, name, value), other) ==
              Named(OthersThan(entries, name) + [Entry(name, value)], other)
  {
    SetReplaces(entries, name, value, other);
    if entries != [] {
      var rest := entries[1..];
      if entries[0].name == name {
        NamedOthers(rest, name, other);
        NamedCons(Entry(name, value), OthersThan(rest, name), other);
      } else {
        SetListsWhatTheStandardLists(rest, name, value, other);
        SetReplaces(rest, name, value, other);
        NamedCons(entries[0], StandardSet(rest, name, value), other);
      }
    }
  }

  /** The shortest list they order differently. */
  lemma SetMovesTheEntry()
    ensures var entries := [Entry("a", "1"), Entry("b", "2")];
            && StandardSet(entries, "a", "3") == [Entry("a", "3"), Entry("b", "2")]
            && OthersThan(entries, "a") + [Entry("a", "3")] == [Entry("b", "2"), Entry("a", "3")]
  {
    var entries := [Entry("a", "1"), Entry("b", "2")];
    assert entries[1..] == [Entry("b", "2")] && entries[1..][1..] == [];
    assert "a" != "b";
  }

  // ----- sorting

  /** The code units JavaScript compares strings by. */
  function Units(s: string): seq<int> {
    if s == "" then []
    else
      var n := s[0] as int;
      (if n < 0x10000 then [n] else [0xD800 + (n - 0x10000) / 1024, 0xDC00 + (n - 0x10000) % 1024]) + Units(s[1..])
  }

  lemma UnitsCons(c: char, rest: string)
    ensures Units([c] + rest) == Units([c]) + Units(rest)
  {
    assert ([c] + rest)[1..] == rest && [c][1..] == "";
    HeadAndTail(Units([c]));
  }

  /** One UTF-16 code unit for a character of the basic plane, a surrogate pair for any other. */
  lemma UnitsOfChar(c: char)
    ensures var u, n := Units([c]), c as int;
            if n < 0x10000 then u == [n] && !(0xD800 <= n < 0xE000)
            else |u| == 2 && 0xD800 <= u[0] < 0xDC00 <= u[1] < 0xE000 && 0x10000 + (u[0] - 0xD800) * 1024 + (u[1] - 0xDC00) == n
  {
    assert [c][1..] == "";
  }

  /** The code units determine the string, so the sort treats two names alike only when they are equal. */
  lemma {:induction false} UnitsAreInjective(a: string, b: string)
    requires Units(a) == Units(b)
    ensures a == b
  {
    if a != "" && b != "" {
      HeadAndTail(a);
      HeadAndTail(b);
      UnitsCons(a[0], a[1..]);
      UnitsCons(b[0], b[1..]);
      UnitsOfChar(a[0]);
      UnitsOfChar(b[0]);
      SameHeadUnits(a[0], a[1..], b[0], b[1..]);
      UnitsAreInjective(a[1..], b[1..]);
    } else {
      if a != "" { HeadAndTail(a); UnitsCons(a[0], a[1..]); UnitsOfChar(a[0]); }
      if b != "" { HeadAndTail(b); UnitsCons(b[0], b[1..]); UnitsOfChar(b[0]); }
    }
  }

  lemma SameHeadUnits(x: char, xs: string, y: char, ys: string)
    requires Units([x]) + Units(xs) == Units([y]) + Units(ys)
    ensures x == y && Units(xs) == Units(ys)
  {
    UnitsOfChar(x);
    UnitsOfChar(y);
    var u := Units([x]) + Units(xs);
    assert u[0] == Units([x])[0] == Units([y])[0];
    assert |Units([x])| == |Units([y])|;
    if |Units([x])| == 2 { assert u[1] == Units([x])[1] == Units([y])[1]; }
    assert u[|Units([x])|..] == Units(xs) && u[|Units([y])|..] == Units(ys);
  }

  lemma {:induction false} BelowIsTotal(a: seq<int>, b: seq<int>)
    ensures Below(a, b) || Below(b, a) || a == b
  {
    if a != [] && b != [] {
      BelowIsTotal(a[1..], b[1..]);
      HeadAndTail(a);
      HeadAndTail(b);
    }
  }

  /** Two names are in order one way or the other unless they are the same. */
  lemma NamesAreOrdered(a: Entry, b: Entry)
    ensures Before(a, b) || Before(b, a) <==> a.name != b.name
  {
    BelowIsTotal(Units(a.name), Units(b.name));
    if Units(a.name) == Units(b.name) {
      UnitsAreInjective(a.name, b.name);
      BelowIsOrder(Units(a.name), [], []);
    }
    if a.name == b.name { BelowIsOrder(Units(a.name), [], []); }
  }

  predicate Below(a: seq<int>, b: seq<int>) {
    b != [] && (a == [] || a[0] < b[0] || (a[0] == b[0] && Below(a[1..], b[1..])))
  }

  predicate Before(a: Entry, b: Entry) {
    Below(Units(a.name), Units(b.name))
  }

  lemma {:induction false} BelowIsOrder(a: seq<int>, b: seq<int>, c: seq<int>)
    ensures !Below(a, a) && !(Below(a, b) && Below(b, a))
    ensures Below(a, b) && !Below(c, b) ==> Below(a, c)
    ensures !Below(b, a) && !Below(c, b) ==> !Below(c, a)
    decreases |a| + |b| + |c|
  {
    if a != [] && b != [] && c != [] { BelowIsOrder(a[1..], b[1..], c[1..]); }
    if a != [] { BelowIsOrder(a[1..], [], []); }
    if a != [] && b != [] { BelowIsOrder(a[1..], b[1..], []); }
  }

  predicate Sorted(entries: seq<Entry>) {
    forall i, j :: 0 <= i < j < |entries| ==> !Before(entries[j], entries[i])
  }

  function Insert(e: Entry, sorted: seq<Entry>): seq<Entry> {
    if sorted == [] || !Before(sorted[0], e) then [e] + sorted else [sorted[0]] + Insert(e, sorted[1..])
  }

  /** The stable order Array.prototype.sort arranges for this comparison. */
  function StableSort(entries: seq<Entry>): seq<Entry> {
    if entries == [] then [] else Insert(entries[0], StableSort(entries[1..]))
  }

  lemma {:induction false} InsertMembers(e: Entry, sorted: seq<Entry>)
    ensures forall x :: x in Insert(e, sorted) <==> x == e || x in sorted
  {
    if !(sorted == [] || !Before(sorted[0], e)) {
      InsertMembers(e, sorted[1..]);
      assert sorted == [sorted[0]] + sorted[1..];
    }
  }

  lemma SortedCons(e: Entry, rest: seq<Entry>)
    requires Sorted(rest) && forall x :: x in rest ==> !Before(x, e)
    ensures Sorted([e] + rest)
  {}

  lemma {:induction false} InsertSorts(e: Entry, sorted: seq<Entry>)
    requires Sorted(sorted)
    ensures Sorted(Insert(e, sorted))
  {
    if sorted == [] {
    } else if !Before(sorted[0], e) {
      forall x | x in sorted ensures !Before(x, e) {
        var i :| 0 <= i < |sorted| && sorted[i] == x;
        BelowIsOrder(Units(e.name), Units(sorted[0].name), Units(x.name));
        BelowIsOrder(Units(x.name), Units(x.name), Units(x.name));
      }
      SortedCons(e, sorted);
    } else {
      var head, rest := sorted[0], sorted[1..];
      InsertSorts(e, rest);
      InsertMembers(e, rest);
      BelowIsOrder(Units(head.name), Units(e.name), []);
      SortedCons(head, Insert(e, rest));
    }
  }

  lemma {:induction false} InsertIsStable(e: Entry, sorted: seq<Entry>, name: string)
    ensures Named(Insert(e, sorted), name) == Named([e] + sorted, name)
  {
    if !(sorted == [] || !Before(sorted[0], e)) {
      var head, rest := sorted[0], sorted[1..];
      InsertIsStable(e, rest, name);
      BelowIsOrder(Units(head.name), [], []);
      assert head.name != e.name;
      HeadAndTail(sorted);
      SwapOthers(e, head, rest, name);
      NamedConcat([head], Insert(e, rest), name);
      NamedConcat([head], [e] + rest, name);
    }
  }

  /** Entries of different names can change places unnoticed by either. */
  lemma SwapOthers(e: Entry, head: Entry, rest: seq<Entry>, name: string)
    requires head.name != e.name
    ensures Named([head] + ([e] + rest), name) == Named([e] + ([head] + rest), name)
  {
    NamedCons(head, [e] + rest, name);
    NamedCons(e, rest, name);
    NamedCons(e, [head] + rest, name);
    NamedCons(head, rest, name);
  }

  lemma NamedCons(head: Entry, rest: seq<Entry>, name: string)
    ensures Named([head] + rest, name) == if head.name == name then [head] + Named(rest, name) else Named(rest, name)
  {
    assert ([head] + rest)[1..] == rest;
    HeadAndTail(Named(rest, name));
  }

  /** sort orders the names and keeps, under each name, the same entries in the same order: a
      stable permutation. */
  lemma {:induction false} SortIsStable(entries: seq<Entry>, name: string)
    ensures Sorted(StableSort(entries))
    ensures Named(StableSort(entries), name) == Named(entries, name)
  {
    if entries != [] {
      SortIsStable(entries[1..], name);
      InsertSorts(entries[0], StableSort(entries[1..]));
      InsertIsStable(entries[0], StableSort(entries[1..]), name);
      NamedConcat([entries[0]], StableSort(entries[1..]), name);
      NamedConcat([entries[0]], entries[1..], name);
      assert [entries[0]] + entries[1..] == entries;
    }
  }

  class URLSearchParams {
    var entriesList: seq<Entry>
    /** The search text of the URL that handed this object out, written by the change callback. */
    var search: string

    constructor (entries: seq<Entry>, text: string)
      ensures entriesList == entries && search == text
    {
      entriesList, search := entries, text;
    }

    method Get(key: string) returns (value: Option<string>)
      ensures value == First(entriesList, key)
      ensures value.None? <==> forall i :: 0 <= i < |entriesList| ==> entriesList[i].name != key
      ensures value.Some? ==> exists i :: 0 <= i < |entriesList| && entriesList[i] == Entry(key, value.value) &&
                                          forall j :: 0 <= j < i ==> entriesList[j].name != key
    {
      var i := 0;
      while i < |entriesList|
        invariant 0 <= i <= |entriesList|
        invariant forall j :: 0 <= j < i ==> entriesList[j].name != key
        invariant Named(entriesList, key) == Named(entriesList[i..], key)
      {
        if entriesList[i].name == key { return Some(entriesList[i].value); }
        assert entriesList[i..][1..] == entriesList[i + 1..];
        i := i + 1;
      }
      return None;
    }

    method Append(key: string, value: string)
      modifies this
      ensures entriesList == old(entriesList) + [Entry(key, value)] && search == Search(entriesList)
      ensures Parse(search) == Some(entriesList)
      ensures forall name :: Named(entriesList, name) ==
                               Named(old(entriesList), name) + if name == key then [Entry(key, value)] else []
    {
      forall name
        ensures Named(entriesList + [Entry(key, value)], name) ==
                  Named(entriesList, name) + if name == key then [Entry(key, value)] else []
      {
        NamedConcat(entriesList, [Entry(key, value)], name);
        NamedCons(Entry(key, value), [], name);
      }
      entriesList := entriesList + [Entry(key, value)];
      search := Search(entriesList);
      ParseSearch(entriesList);
    }

    method Delete(key: string)
      modifies this
      ensures entriesList == OthersThan(old(entriesList), key) && search == Search(entriesList)
      ensures Parse(search) == Some(entriesList) && First(entriesList, key) == None
    {
      var kept: seq<Entry> := [];
      var i := 0;
      while i < |entriesList|
        invariant 0 <= i <= |entriesList|
        invariant kept == OthersThan(entriesList[..i], key)
        invariant entriesList == old(entriesList)
      {
        OthersConcat(entriesList[..i], [entriesList[i]], key);
        assert entriesList[..i + 1] == entriesList[..i] + [entriesList[i]];
        if entriesList[i].name != key { kept := kept + [entriesList[i]]; }
        i := i + 1;
      }
      assert entriesList[..i] == entriesList;
      NamedOthers(entriesList, key, key);
      entriesList := kept;
      search := Search(entriesList);
      ParseSearch(entriesList);
    }

    method Set(key: string, value: string)
      modifies this
      ensures entriesList == OthersThan(old(entriesList), key) + [Entry(key, value)] && search == Search(entriesList)
      ensures Parse(search) == Some(entriesList) && First(entriesList, key) == Some(value)
    {
      SetReplaces(entriesList, key, value, key);
      Delete(key);
      Append(key, value);
    }

    method Sort()
      modifies this
      ensures Sorted(entriesList) && forall name :: Named(entriesList, name) == Named(old(entriesList), name)
      ensures entriesList == StableSort(old(entriesList))
      ensures search == Search(entriesList) && Parse(search) == Some(entriesList)
    {
      forall name ensures Sorted(StableSort(entriesList)) && Named(StableSort(entriesList), name) == Named(entriesList, name) {
        SortIsStable(entriesList, name);
      }
      SortIsStable(entriesList, "");
      entriesList := StableSort(entriesList);
      search := Search(entriesList);
      ParseSearch(entriesList);
    }

    method ToString() returns (query: string)
      ensures query == Print(entriesList) && Parse(query) == Some(entriesList)
    {
      ParsePrint(entriesList);
      query := Print(entriesList);
    }
  }

  /** The constructor: it throws when an escape is malformed. */
  method Create(query: string) returns (params: Option<URLSearchParams>)
    ensures params.Some? <==> Legible(query)
    ensures params.Some? ==> fresh(params.value) && Parse(query) == Some(params.value.entriesList)
  {
    ParsesExactlyTheLegible(query);
    var entries := Parse(query);
    if entries.None? { return None; }
    var created := new URLSearchParams(entries.value, query);
    return Some(created);
  }
}
