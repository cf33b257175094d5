/**
 * Market prices: rows grouped by produce name, the average price of a group
 * and the price trend between a group's earliest and latest entries.
 */
module MarketPrices {
  import opened Wrappers

  /** A market_prices row; `recordedAtMs` is the recorded_at instant, if any. */
  datatype PriceRow = PriceRow(
    produceName: string,
    pricePerKg: real,
    marketName: string,
    location: string,
    recordedAtMs: Option<int>)

  /** The sort key of a row: a missing instant reads as the epoch, 0 ms. */
  function TimeKey(row: PriceRow): int
  {
    match row.recordedAtMs
    case None => 0
    case Some(t) => t
  }

  // ---------------------------------------------------------------------------
  // Grouping by produce name

  /** The rows named `name`, in input order. */
  function RowsNamed(rows: seq<PriceRow>, name: string): (group: seq<PriceRow>)
    ensures |group| <= |rows|
  {
    if rows == [] then []
    else
      var last := rows[|rows| - 1];
      RowsNamed(rows[..|rows| - 1], name) + if last.produceName == name then [last] else []
  }

  /** A group holds only rows of the input, all with the group's name. */
  lemma {:induction false} RowsNamedMembers(rows: seq<PriceRow>, name: string)
    ensures forall r :: r in RowsNamed(rows, name) ==> r in rows && r.produceName == name
  {
    if rows != [] {
      var front := rows[..|rows| - 1];
      RowsNamedMembers(front, name);
      assert forall r :: r in front ==> r in rows;
    }
  }

  /** The produce names of `rows`, each once, in order of first appearance. */
  function Names(rows: seq<PriceRow>): (names: seq<string>)
    ensures forall n :: n in names <==> exists i :: 0 <= i < |rows| && rows[i].produceName == n
    ensures forall i, j :: 0 <= i < j < |names| ==> names[i] != names[j]
  {
    if rows == [] then []
    else
      var front := rows[..|rows| - 1];
      var last := rows[|rows| - 1];
      var names := Names(front);
      assert forall i :: 0 <= i < |front| ==> front[i] == rows[i];
      if last.produceName in names then names else names + [last.produceName]
  }

  /**
   * The dictionary the view builds: its own keys in insertion order and the
   * array stored under each key.
   */
  datatype PriceGroups = PriceGroups(keys: seq<string>, entries: map<string, seq<PriceRow>>)

  /** A name that occurs in no row has no rows. */
  lemma {:induction false} RowsNamedAbsent(rows: seq<PriceRow>, name: string)
    requires name !in Names(rows)
    ensures RowsNamed(rows, name) == []
  {
    if rows != [] {
      var front := rows[..|rows| - 1];
      assert forall i :: 0 <= i < |front| ==> front[i] == rows[i];
      RowsNamedAbsent(front, name);
    }
  }

  /** `g` holds the names of `rows` as its keys and each name's rows as its entry. */
  ghost predicate GroupedAs(rows: seq<PriceRow>, g: PriceGroups)
  {
    && g.keys == Names(rows)
    && (forall k :: k in g.entries <==> k in g.keys)
    && (forall k :: k in g.entries ==> g.entries[k] == RowsNamed(rows, k))
  }

  /** Such groups are GroupsOf(rows). */
  lemma GroupsOfCharacterized(rows: seq<PriceRow>, g: PriceGroups)
    requires GroupedAs(rows, g)
    ensures g == GroupsOf(rows)
  {
    assert g.entries == GroupsOf(rows).entries;
  }

  /** Pushing the next row onto the array of a name already seen gives the groups of the longer prefix. */
  lemma GroupedAsPush(rows: seq<PriceRow>, i: int, g: PriceGroups)
    requires 0 <= i < |rows| && GroupedAs(rows[..i], g) && rows[i].produceName in g.entries
    ensures GroupedAs(rows[..i + 1],
      g.(entries := g.entries[rows[i].produceName := g.entries[rows[i].produceName] + [rows[i]]]))
  {
    var row, name := rows[i], rows[i].produceName;
    var g' := g.(entries := g.entries[name := g.entries[name] + [row]]);
    assert g'.keys == Names(rows[..i + 1]) by {
      assert name in Names(rows[..i]);
      NamesStep(rows, i);
    }
    assert g'.entries.Keys == g.entries.Keys;
    forall k | k in g'.entries
      ensures g'.entries[k] == RowsNamed(rows[..i + 1], k)
    {
      RowsNamedStep(rows, i, k);
      if k != name {
        assert g'.entries[k] == g.entries[k];
      }
    }
  }

  /** A new name gets a one-row array as the last key, giving the groups of the longer prefix. */
  lemma GroupedAsCreate(rows: seq<PriceRow>, i: int, g: PriceGroups)
    requires 0 <= i < |rows| && GroupedAs(rows[..i], g) && rows[i].produceName !in g.entries
    ensures GroupedAs(rows[..i + 1],
      PriceGroups(g.keys + [rows[i].produceName], g.entries[rows[i].produceName := [rows[i]]]))
  {
    var row, name := rows[i], rows[i].produceName;
    var g' := PriceGroups(g.keys + [name], g.entries[name := [row]]);
    assert g'.keys == Names(rows[..i + 1]) by {
      NamesStep(rows, i);
    }
    assert forall k :: k in g'.entries <==> k in g'.keys;
    assert RowsNamed(rows[..i], name) == [] by {
      RowsNamedAbsent(rows[..i], name);
    }
    forall k | k in g'.entries
      ensures g'.entries[k] == RowsNamed(rows[..i + 1], k)
    {
      RowsNamedStep(rows, i, k);
    }
  }

  /** The names of a prefix grow by the next row's name when it is new. */
  lemma NamesStep(rows: seq<PriceRow>, i: int)
    requires 0 <= i < |rows|
    ensures Names(rows[..i + 1])
         == if rows[i].produceName in Names(rows[..i]) then Names(rows[..i])
            else Names(rows[..i]) + [rows[i].produceName]
  {
    assert rows[..i + 1][..i] == rows[..i];
  }

  /** The group of `k` in a prefix grows by the next row when it is named `k`. */
  lemma RowsNamedStep(rows: seq<PriceRow>, i: int, k: string)
    requires 0 <= i < |rows|
    ensures RowsNamed(rows[..i + 1], k)
         == RowsNamed(rows[..i], k) + if rows[i].produceName == k then [rows[i]] else []
  {
    assert rows[..i + 1][..i] == rows[..i];
  }


  /**
   * Groups the rows by produce name, pushing each row onto the array of its
   * name and creating that array the first time the name is seen.
   */
  method GroupByProduce(rows: seq<PriceRow>) returns (g: PriceGroups)
    ensures g.keys == Names(rows)
    ensures forall k :: k in g.entries <==> k in g.keys
    ensures forall k :: k in g.entries ==> g.entries[k] == RowsNamed(rows, k)
    ensures g == GroupsOf(rows)
  {
    var keys: seq<string> := [];
    var entries: map<string, seq<PriceRow>> := map[];
    for i := 0 to |rows|
      invariant GroupedAs(rows[..i], PriceGroups(keys, entries))
    {
      var row := rows[i];
      var name := row.produceName;
      if name !in entries {
        GroupedAsCreate(rows, i, PriceGroups(keys, entries));
        entries := entries[name := [row]];
        keys := keys + [name];
      } else {
        GroupedAsPush(rows, i, PriceGroups(keys, entries));
        entries := entries[name := entries[name] + [row]];
      }
    }
    assert rows[..|rows|] == rows;
    g := PriceGroups(keys, entries);
    GroupsOfCharacterized(rows, g);
  }


  /** The dictionary of groups described name by name. */
  function GroupsOf(rows: seq<PriceRow>): (g: PriceGroups)
    ensures g.keys == Names(rows)
    ensures forall k :: k in g.entries <==> k in Names(rows)
  {
    PriceGroups(Names(rows), map k | k in Names(rows) :: RowsNamed(rows, k))
  }

  /**
   * The members every object literal inherits from Object.prototype. Looking
   * one of these names up on `{}` yields a function or an object, never
   * undefined.
   */
  const InheritedMembers: set<string> := {
    "constructor", "hasOwnProperty", "isPrototypeOf", "propertyIsEnumerable",
    "toString", "toLocaleString", "valueOf", "__proto__",
    "__defineGetter__", "__defineSetter__", "__lookupGetter__", "__lookupSetter__"
  }

  /** What the reduce over the rows ends with: the object, or the TypeError thrown by `push`. */
  datatype Reduced = Grouped(groups: PriceGroups) | PushNotAFunction(name: string)

  /**
   * One step of the reduce as written, on an object literal: an own array is
   * pushed to; a missing name gets a new array first; an inherited member is
   * truthy, so no array is made and `push` on it throws.
   */
  function PushAsWritten(acc: PriceGroups, row: PriceRow): (r: Reduced)
    ensures r.PushNotAFunction? <==> row.produceName !in acc.entries && row.produceName in InheritedMembers
  {
    var name := row.produceName;
    if name in acc.entries then Grouped(acc.(entries := acc.entries[name := acc.entries[name] + [row]]))
    else if name in InheritedMembers then PushNotAFunction(name)
    else Grouped(PriceGroups(acc.keys + [name], acc.entries[name := [row]]))
  }

  /** The reduce as written, from the empty object literal. */
  function GroupAsWritten(rows: seq<PriceRow>): (r: Reduced)
  {
    if rows == [] then Grouped(PriceGroups([], map[]))
    else
      match GroupAsWritten(rows[..|rows| - 1])
      case PushNotAFunction(name) => PushNotAFunction(name)
      case Grouped(acc) => PushAsWritten(acc, rows[|rows| - 1])
  }

  /** No row is named after an inherited member. */
  predicate NoInheritedNames(rows: seq<PriceRow>)
  {
    forall i :: 0 <= i < |rows| ==> rows[i].produceName !in InheritedMembers
  }

  /** Away from inherited names, one step as written adds the last row to the groups of the others. */
  lemma PushAsWrittenStep(rows: seq<PriceRow>)
    requires rows != [] && rows[|rows| - 1].produceName !in InheritedMembers
    ensures PushAsWritten(GroupsOf(rows[..|rows| - 1]), rows[|rows| - 1]) == Grouped(GroupsOf(rows))
  {
    var front := rows[..|rows| - 1];
    var last := rows[|rows| - 1];
    var name := last.produceName;
    var acc := GroupsOf(front);
    var g := GroupsOf(rows);
    if name in Names(front) {
      KnownNameEntries(rows);
    } else {
      NewNameEntries(rows);
    }
    assert PushAsWritten(acc, last).groups == g;
  }

  /** The groups after a row whose name was seen before: that name's group grows by the row. */
  lemma KnownNameEntries(rows: seq<PriceRow>)
    requires rows != [] && rows[|rows| - 1].produceName in Names(rows[..|rows| - 1])
    ensures GroupsOf(rows).keys == GroupsOf(rows[..|rows| - 1]).keys
    ensures GroupsOf(rows).entries
         == GroupsOf(rows[..|rows| - 1]).entries[rows[|rows| - 1].produceName :=
              RowsNamed(rows[..|rows| - 1], rows[|rows| - 1].produceName) + [rows[|rows| - 1]]]
  {
    var front := rows[..|rows| - 1];
    var last := rows[|rows| - 1];
    var name := last.produceName;
    var pushed := GroupsOf(front).entries[name := RowsNamed(front, name) + [last]];
    var entries := GroupsOf(rows).entries;
    assert entries.Keys == pushed.Keys by {
      SameNames(rows);
    }
    forall k | k in entries
      ensures entries[k] == pushed[k]
    {
      RowsNamedLast(rows, k);
    }
    assert entries == pushed;
  }

  /** A name seen before adds no key. */
  lemma SameNames(rows: seq<PriceRow>)
    requires rows != [] && rows[|rows| - 1].produceName in Names(rows[..|rows| - 1])
    ensures Names(rows) == Names(rows[..|rows| - 1])
  {
  }

  /** The group of a name after one more row. */
  lemma RowsNamedLast(rows: seq<PriceRow>, k: string)
    requires rows != []
    ensures RowsNamed(rows, k)
         == RowsNamed(rows[..|rows| - 1], k) + if k == rows[|rows| - 1].produceName then [rows[|rows| - 1]] else []
  {
  }

  /** The groups after a row whose name is new: the earlier groups and a group of that row alone. */
  lemma NewNameEntries(rows: seq<PriceRow>)
    requires rows != [] && rows[|rows| - 1].produceName !in Names(rows[..|rows| - 1])
    ensures GroupsOf(rows).keys == GroupsOf(rows[..|rows| - 1]).keys + [rows[|rows| - 1].produceName]
    ensures GroupsOf(rows).entries
         == GroupsOf(rows[..|rows| - 1]).entries[rows[|rows| - 1].produceName := [rows[|rows| - 1]]]
  {
    var front := rows[..|rows| - 1];
    var last := rows[|rows| - 1];
    var name := last.produceName;
    RowsNamedAbsent(front, name);
    var pushed := GroupsOf(front).entries[name := [last]];
    var entries := GroupsOf(rows).entries;
    assert entries.Keys == pushed.Keys;
    forall k | k in entries
      ensures entries[k] == pushed[k]
    {
    }
  }

  /** With no inherited name among the rows, the reduce as written builds the intended groups. */
  lemma {:induction false} GroupAsWrittenAgrees(rows: seq<PriceRow>)
    requires NoInheritedNames(rows)
    ensures GroupAsWritten(rows) == Grouped(GroupsOf(rows))
  {
    if rows != [] {
      var front := rows[..|rows| - 1];
      assert NoInheritedNames(front) by {
        assert forall i :: 0 <= i < |front| ==> front[i] == rows[i];
      }
      GroupAsWrittenAgrees(front);
      PushAsWrittenStep(rows);
    }
  }

  /** The reduce as written throws exactly when some produce name is an inherited member. */
  lemma {:induction false} GroupAsWrittenThrows(rows: seq<PriceRow>)
    ensures GroupAsWritten(rows).PushNotAFunction? <==> !NoInheritedNames(rows)
  {
    if !NoInheritedNames(rows) {
      var front := rows[..|rows| - 1];
      var last := rows[|rows| - 1];
      assert forall i :: 0 <= i < |front| ==> front[i] == rows[i];
      GroupAsWrittenThrows(front);
      if NoInheritedNames(front) {
        GroupAsWrittenAgrees(front);
        assert last.produceName in InheritedMembers;
        assert last.produceName !in Names(front);
      }
    } else {
      GroupAsWrittenAgrees(rows);
    }
  }

  /** A single price row for a produce called "constructor" makes the view throw. */
  lemma ConstructorCrashesGrouping()
    ensures GroupAsWritten([PriceRow("constructor", 40.0, "Azadpur", "Delhi", None)]).PushNotAFunction?
  {
    var rows := [PriceRow("constructor", 40.0, "Azadpur", "Delhi", None)];
    assert rows[..0] == [];
  }

  /** Every name that has a group has at least one row in it. */
  lemma {:induction false} GroupsNonEmpty(rows: seq<PriceRow>, name: string)
    requires name in Names(rows)
    ensures |RowsNamed(rows, name)| > 0
  {
    var front := rows[..|rows| - 1];
    assert forall i :: 0 <= i < |front| ==> front[i] == rows[i];
    if rows[|rows| - 1].produceName != name {
      GroupsNonEmpty(front, name);
    }
  }

  /** Every row is in the group of its own name (and, by RowsNamed, in no other). */
  lemma {:induction false} RowInItsGroup(rows: seq<PriceRow>, i: nat)
    requires i < |rows|
    ensures rows[i] in RowsNamed(rows, rows[i].produceName)
  {
    var front := rows[..|rows| - 1];
    if i < |rows| - 1 {
      RowInItsGroup(front, i);
    }
  }

  /** Grouping keeps input order: the group of a concatenation is the concatenation of groups. */
  lemma {:induction false} RowsNamedConcat(a: seq<PriceRow>, b: seq<PriceRow>, name: string)
    ensures RowsNamed(a + b, name) == RowsNamed(a, name) + RowsNamed(b, name)
  {
    if b == [] {
      assert a + b == a;
    } else {
      var b' := b[..|b| - 1];
      assert (a + b)[..|a + b| - 1] == a + b';
      assert (a + b)[|a + b| - 1] == b[|b| - 1];
      RowsNamedConcat(a, b', name);
    }
  }

  /** The total number of rows in the groups of `keys`. */
  function GroupSizes(rows: seq<PriceRow>, keys: seq<string>): nat
  {
    if keys == [] then 0 else |RowsNamed(rows, keys[0])| + GroupSizes(rows, keys[1..])
  }

  /** Adding one row grows exactly one of a set of distinct groups, if any, by one. */
  lemma {:induction false} GroupSizesPush(rows: seq<PriceRow>, row: PriceRow, keys: seq<string>)
    requires forall i, j :: 0 <= i < j < |keys| ==> keys[i] != keys[j]
    ensures GroupSizes(rows + [row], keys)
         == GroupSizes(rows, keys) + if row.produceName in keys then 1 else 0
  {
    if keys != [] {
      assert (rows + [row])[..|rows + [row]| - 1] == rows;
      assert row.produceName in keys[1..] ==> row.produceName != keys[0];
      assert row.produceName in keys <==> row.produceName == keys[0] || row.produceName in keys[1..];
      GroupSizesPush(rows, row, keys[1..]);
    }
  }

  lemma {:induction false} GroupSizesAppendKey(rows: seq<PriceRow>, keys: seq<string>, k: string)
    ensures GroupSizes(rows, keys + [k]) == GroupSizes(rows, keys) + |RowsNamed(rows, k)|
  {
    if keys != [] {
      assert (keys + [k])[1..] == keys[1..] + [k];
      GroupSizesAppendKey(rows, keys[1..], k);
    }
  }

  /** Grouping loses no row and duplicates none: the group sizes add up to the row count. */
  lemma {:induction false} GroupSizesTotal(rows: seq<PriceRow>)
    ensures GroupSizes(rows, Names(rows)) == |rows|
  {
    if rows != [] {
      var front := rows[..|rows| - 1];
      var last := rows[|rows| - 1];
      assert rows == front + [last];
      GroupSizesTotal(front);
      GroupSizesPush(front, last, Names(front));
      if last.produceName !in Names(front) {
        GroupSizesAppendKey(rows, Names(front), last.produceName);
        RowsNamedAbsent(front, last.produceName);
      }
    }
  }

  /** The "no market prices" card shows exactly when there are no rows. */
  lemma EmptyStateIffNoRows(rows: seq<PriceRow>)
    ensures |Names(rows)| == 0 <==> |rows| == 0
  {
    if rows != [] {
      assert rows[0].produceName in Names(rows);
    }
  }

  // ---------------------------------------------------------------------------
  // Average price

  /** The sum of the prices, added left to right. */
  function Total(prices: seq<PriceRow>): real
  {
    if prices == [] then 0.0 else Total(prices[..|prices| - 1]) + prices[|prices| - 1].pricePerKg
  }

  /** The group average: the running sum of the prices divided by their count. */
  method AveragePrice(prices: seq<PriceRow>) returns (avg: real)
    requires |prices| > 0
    ensures avg * |prices| as real == Total(prices)
  {
    var sum := 0.0;
    for i := 0 to |prices|
      invariant sum == Total(prices[..i])
    {
      assert prices[..i + 1][..i] == prices[..i];
      sum := sum + prices[i].pricePerKg;
    }
    assert prices[..|prices|] == prices;
    avg := sum / |prices| as real;
  }

  /** The sum of prices that all lie in [lo, hi] lies in [n * lo, n * hi]. */
  lemma {:induction false} TotalBounds(prices: seq<PriceRow>, lo: real, hi: real)
    requires forall i :: 0 <= i < |prices| ==> lo <= prices[i].pricePerKg <= hi
    ensures |prices| as real * lo <= Total(prices) <= |prices| as real * hi
  {
    if prices != [] {
      var front := prices[..|prices| - 1];
      TotalBounds(front, lo, hi);
      var m := |front| as real;
      assert |prices| as real * lo == m * lo + lo;
      assert |prices| as real * hi == m * hi + hi;
    }
  }

  /** An average lies between the lowest and highest price it averages. */
  lemma AverageWithinRange(prices: seq<PriceRow>, avg: real, lo: real, hi: real)
    requires |prices| > 0 && avg * |prices| as real == Total(prices)
    requires forall i :: 0 <= i < |prices| ==> lo <= prices[i].pricePerKg <= hi
    ensures lo <= avg <= hi
  {
    TotalBounds(prices, lo, hi);
    var n := |prices| as real;
    assert n * lo <= n * avg <= n * hi;
  }

  // ---------------------------------------------------------------------------
  // Price trend

  /** Rows in ascending order of their instants. */
  predicate SortedByTime(rows: seq<PriceRow>)
  {
    forall i, j :: 0 <= i < j < |rows| ==> TimeKey(rows[i]) <= TimeKey(rows[j])
  }

  /** Puts `row` in front of the first entry that is not earlier than it. */
  function InsertByTime(row: PriceRow, sorted: seq<PriceRow>): (r: seq<PriceRow>)
    ensures |r| == |sorted| + 1
    ensures multiset(r) == multiset(sorted) + multiset{row}
    ensures r[0] == if sorted == [] || TimeKey(row) <= TimeKey(sorted[0]) then row else sorted[0]
  {
    if sorted == [] || TimeKey(row) <= TimeKey(sorted[0]) then [row] + sorted
    else
      assert sorted == [sorted[0]] + sorted[1..];
      [sorted[0]] + InsertByTime(row, sorted[1..])
  }

  /** Inserting into a sorted sequence keeps it sorted. */
  lemma {:induction false} InsertByTimeSorted(row: PriceRow, sorted: seq<PriceRow>)
    requires SortedByTime(sorted)
    ensures SortedByTime(InsertByTime(row, sorted))
  {
    if sorted != [] && TimeKey(row) > TimeKey(sorted[0]) {
      var rest := InsertByTime(row, sorted[1..]);
      InsertByTimeSorted(row, sorted[1..]);
      assert TimeKey(sorted[0]) <= TimeKey(rest[0]);
      assert InsertByTime(row, sorted) == [sorted[0]] + rest;
    }
  }

  /**
   * A stable sort by instant: rows with equal instants keep their input
   * order, as with Array.prototype.sort and a numeric comparator.
   */
  function SortByTime(rows: seq<PriceRow>): (sorted: seq<PriceRow>)
    ensures |sorted| == |rows|
    ensures multiset(sorted) == multiset(rows)
    ensures SortedByTime(sorted)
  {
    if rows == [] then []
    else
      assert rows == [rows[0]] + rows[1..];
      InsertByTimeSorted(rows[0], SortByTime(rows[1..]));
      InsertByTime(rows[0], SortByTime(rows[1..]))
  }

  /** The rows recorded at instant `t`, in their order in `rows`. */
  function RowsAt(rows: seq<PriceRow>, t: int): seq<PriceRow>
  {
    if rows == [] then []
    else (if TimeKey(rows[0]) == t then [rows[0]] else []) + RowsAt(rows[1..], t)
  }

  /** Inserting a row puts it before every row of its own instant. */
  lemma {:induction false} InsertByTimeRowsAt(row: PriceRow, sorted: seq<PriceRow>, t: int)
    ensures RowsAt(InsertByTime(row, sorted), t)
         == (if TimeKey(row) == t then [row] else []) + RowsAt(sorted, t)
  {
    var r := InsertByTime(row, sorted);
    var mine := if TimeKey(row) == t then [row] else [];
    if sorted == [] || TimeKey(row) <= TimeKey(sorted[0]) {
      assert r[0] == row && r[1..] == sorted;
    } else {
      var rest := InsertByTime(row, sorted[1..]);
      var first := if TimeKey(sorted[0]) == t then [sorted[0]] else [];
      assert r[0] == sorted[0] && r[1..] == rest;
      InsertByTimeRowsAt(row, sorted[1..], t);
      // The first row is strictly earlier than `row`, so at most one of them is at t.
      assert first == [] || mine == [];
      calc {
        RowsAt(r, t);
        first + RowsAt(rest, t);
        first + (mine + RowsAt(sorted[1..], t));
        mine + (first + RowsAt(sorted[1..], t));
        mine + RowsAt(sorted, t);
      }
    }
  }

  /** The sort is stable: at every instant the rows keep their input order. */
  lemma {:induction false} SortByTimeStable(rows: seq<PriceRow>, t: int)
    ensures RowsAt(SortByTime(rows), t) == RowsAt(rows, t)
  {
    if rows != [] {
      SortByTimeStable(rows[1..], t);
      InsertByTimeRowsAt(rows[0], SortByTime(rows[1..]), t);
    }
  }

  /** The last entry of `row` inserted into a sorted sequence. */
  lemma {:induction false} InsertByTimeLast(row: PriceRow, sorted: seq<PriceRow>)
    requires SortedByTime(sorted)
    ensures var r := InsertByTime(row, sorted);
      r[|r| - 1] == if sorted == [] || TimeKey(row) > TimeKey(sorted[|sorted| - 1]) then row
                    else sorted[|sorted| - 1]
  {
    if sorted != [] && TimeKey(row) > TimeKey(sorted[0]) {
      InsertByTimeLast(row, sorted[1..]);
    }
  }

  /** The first of the earliest entries: no entry is earlier, none before it is as early. */
  function EarliestIndex(rows: seq<PriceRow>): (i: nat)
    requires |rows| > 0
    ensures i < |rows|
    ensures forall j :: 0 <= j < |rows| ==> TimeKey(rows[i]) <= TimeKey(rows[j])
    ensures forall j :: 0 <= j < i ==> TimeKey(rows[j]) > TimeKey(rows[i])
  {
    if |rows| == 1 then 0
    else
      var k := EarliestIndex(rows[1..]) + 1;
      if TimeKey(rows[0]) <= TimeKey(rows[k]) then 0 else k
  }

  /** The last of the latest entries: no entry is later, none after it is as late. */
  function LatestIndex(rows: seq<PriceRow>): (i: nat)
    requires |rows| > 0
    ensures i < |rows|
    ensures forall j :: 0 <= j < |rows| ==> TimeKey(rows[j]) <= TimeKey(rows[i])
    ensures forall j :: i < j < |rows| ==> TimeKey(rows[j]) < TimeKey(rows[i])
  {
    if |rows| == 1 then 0
    else
      var k := LatestIndex(rows[1..]) + 1;
      if TimeKey(rows[0]) > TimeKey(rows[k]) then 0 else k
  }

  /**
   * The ends of the stable sort: the first entry is the first of the earliest
   * rows and the last entry is the last of the latest rows.
   */
  lemma {:induction false} SortByTimeEnds(rows: seq<PriceRow>)
    requires |rows| > 0
    ensures SortByTime(rows)[0] == rows[EarliestIndex(rows)]
    ensures SortByTime(rows)[|rows| - 1] == rows[LatestIndex(rows)]
  {
    if |rows| > 1 {
      var tail := rows[1..];
      var sortedTail := SortByTime(tail);
      SortByTimeEnds(tail);
      InsertByTimeLast(rows[0], sortedTail);
      assert SortByTime(rows) == InsertByTime(rows[0], sortedTail);
      assert rows[EarliestIndex(tail) + 1] == sortedTail[0];
      assert rows[LatestIndex(tail) + 1] == sortedTail[|sortedTail| - 1];
    }
  }

  /** The direction of a group's price. */
  datatype Trend = Up | Down | Stable

  /** "up" when the price rose, "down" when it fell, "stable" otherwise. */
  function Direction(oldPrice: real, newPrice: real): (trend: Trend)
    ensures trend == Up <==> newPrice > oldPrice
    ensures trend == Down <==> newPrice < oldPrice
    ensures trend == Stable <==> newPrice == oldPrice
  {
    if newPrice > oldPrice then Up
    else if newPrice < oldPrice then Down
    else Stable
  }

  /**
   * No trend for fewer than two entries; otherwise the price at the end of
   * a sorted copy is compared with the price at its start.
   */
  function PriceTrend(prices: seq<PriceRow>): (trend: Option<Trend>)
    ensures trend.None? <==> |prices| < 2
  {
    if |prices| < 2 then None
    else
      var sorted := SortByTime(prices);
      Some(Direction(sorted[0].pricePerKg, sorted[|sorted| - 1].pricePerKg))
  }

  /**
   * The trend compares the price of the last of the latest entries with that
   * of the first of the earliest entries.
   */
  lemma PriceTrendCompares(prices: seq<PriceRow>)
    requires |prices| >= 2
    ensures PriceTrend(prices)
         == Some(Direction(prices[EarliestIndex(prices)].pricePerKg, prices[LatestIndex(prices)].pricePerKg))
  {
    SortByTimeEnds(prices);
  }

  /** Entries that all share one instant: the trend compares the last entry with the first. */
  lemma PriceTrendSameInstant(prices: seq<PriceRow>)
    requires |prices| >= 2
    requires forall i :: 0 <= i < |prices| ==> TimeKey(prices[i]) == TimeKey(prices[0])
    ensures PriceTrend(prices) == Some(Direction(prices[0].pricePerKg, prices[|prices| - 1].pricePerKg))
  {
    PriceTrendCompares(prices);
    var last := |prices| - 1;
    assert TimeKey(prices[last]) == TimeKey(prices[LatestIndex(prices)]);
    assert EarliestIndex(prices) == 0;
    assert LatestIndex(prices) == last;
  }
}
