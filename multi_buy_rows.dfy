/** The reading half of `test_multi_buy_sell_logic`
    (test_multi_buy_import.py): each CSV row goes through a tolerant filter
    and lands in a group keyed by (calendar date, contract), groups kept in
    order of first appearance. Dates, clock times and numbers are read by
    parsers given as parameters. */
module MultiBuyRows {
  import opened Common

  /** A `csv.DictReader` row: column name to cell text. */
  type Row = map<string, string>

  /** Seconds since midnight, as `strptime(..., '%H:%M:%S')` yields them. */
  type Second = s: int | 0 <= s < 86400

  /** `strptime(date_str, '%m/%d/%y')` as a day number, the clock part of
      `strptime(time_part, '%H:%M:%S')`, and `float(text)`; None where
      Python raises `ValueError`. */
  datatype Parsers = Parsers(
    date: string -> Option<int>,
    clock: string -> Option<Second>,
    number: string -> Option<real>)

  /** An order dict: `side`, `quantity`, `price`, `datetime` in seconds
      (day * 86400 + second of the day), `order_id`. */
  datatype Order = Order(side: string, quantity: real, price: real, datetime: int, orderId: string)

  /** `(trade_date.date(), symbol)`. */
  datatype Key = Key(day: int, symbol: string)

  /** What one admitted row does to the defaultdict: it names the key
      `trades_by_date_symbol[key]`, which creates the group if it is new,
      and then appends its order, or nothing when `float` raised
      `ValueError` after the key was already created. */
  datatype Entry = Entry(key: Key, order: Option<Order>)

  /** One `trades_by_date_symbol` slot. */
  datatype Group = Group(key: Key, orders: seq<Order>)

  /** `row.get(key, '')`. */
  function Get(row: Row, key: string): string {
    if key in row then row[key] else ""
  }

  /** The characters before the first space. */
  function Field(s: string): string {
    if s == [] || s[0] == ' ' then [] else [s[0]] + Field(s[1..])
  }

  /** What follows the first space. */
  function AfterSpace(s: string): string {
    if s == [] then [] else if s[0] == ' ' then s[1..] else AfterSpace(s[1..])
  }

  /** `fill_time.split(' ')[1] if ' ' in fill_time else fill_time`. */
  function TimePart(s: string): string {
    if ' ' in s then Field(AfterSpace(s)) else s
  }

  /** For a cell `date time` or `date time more…`, the time part is the
      second space-separated field; a cell without a space is kept whole. */
  lemma {:induction false} TimePartFields(a: string, b: string, c: string)
    requires ' ' !in a && ' ' !in b
    requires c == [] || c[0] == ' '
    ensures TimePart(a + [' '] + b + c) == b
    ensures TimePart(a) == a
  {
    var s := a + [' '] + b + c;
    assert s[|a|] == ' ';
    AfterFirstSpace(a, b + c);
    assert a + [' '] + b + c == a + [' '] + (b + c);
    FieldUpToSpace(b, c);
  }

  lemma {:induction false} AfterFirstSpace(a: string, rest: string)
    requires ' ' !in a
    ensures AfterSpace(a + [' '] + rest) == rest
    decreases |a|
  {
    if a == [] {
      assert a + [' '] + rest == [' '] + rest;
    } else {
      assert a[0] in a;
      assert (a + [' '] + rest)[1..] == a[1..] + [' '] + rest;
      assert forall x :: x in a[1..] ==> x in a;
      AfterFirstSpace(a[1..], rest);
    }
  }

  lemma {:induction false} FieldUpToSpace(b: string, c: string)
    requires ' ' !in b
    requires c == [] || c[0] == ' '
    ensures Field(b + c) == b
    decreases |b|
  {
    if b == [] {
      assert b + c == c;
    } else {
      assert b[0] in b;
      assert (b + c)[1..] == b[1..] + c;
      assert forall x :: x in b[1..] ==> x in b;
      FieldUpToSpace(b[1..], c);
    }
  }

  /** The second of the day a row's `Fill Time` cell sets: its parsed
      clock, or midnight when the cell is empty or does not parse (the
      bare `except: pass`). */
  function ClockOf(fillTime: string, p: Parsers): Second {
    if fillTime == "" then 0
    else match p.clock(TimePart(fillTime))
      case Some(c) => c
      case None => 0
  }

  /** The body of the `for row in csv_reader` loop: None where the row is
      skipped by a `continue` before the defaultdict is touched; otherwise
      the row's key, with its order, or with None where `float` raises
      `ValueError` (the subscription that creates the key is evaluated
      before the dict literal holding the two `float` calls). */
  function Admit(row: Row, p: Parsers): Option<Entry> {
    if Strip(Get(row, "Status")) != "Filled" then None
    else
      var symbol := Get(row, "Contract");
      var side := Strip(Get(row, "B/S"));
      var quantity := Get(row, "filledQty");
      var price := Get(row, "avgPrice");
      var dateStr := Get(row, "Date");
      if symbol == "" || side == "" || quantity == "" || price == "" || dateStr == "" then None
      else
        match p.date(dateStr)
        case None => None
        case Some(day) =>
          var datetime := day * 86400 + ClockOf(Get(row, "Fill Time"), p);
          var order := match (p.number(quantity), p.number(price))
            case (Some(q), Some(pr)) => Some(Order(side, q, pr, datetime, Get(row, "orderId")))
            case _ => None;
          Some(Entry(Key(day, symbol), order))
  }

  /** A row reaches the defaultdict exactly when its stripped status is
      `Filled`, the five required cells are non-empty and its date parses;
      it is then keyed by its parsed date and its contract. It carries an
      order exactly when both numbers parse too; that order falls on the
      key's date, at the parsed clock time or at midnight when the fill
      time is missing or does not parse. */
  lemma AdmitFacts(row: Row, p: Parsers)
    ensures Admit(row, p).Some? <==>
      && Strip(Get(row, "Status")) == "Filled"
      && Get(row, "Contract") != "" && Strip(Get(row, "B/S")) != ""
      && Get(row, "filledQty") != "" && Get(row, "avgPrice") != "" && Get(row, "Date") != ""
      && p.date(Get(row, "Date")).Some?
    ensures Admit(row, p).Some? ==>
      var e := Admit(row, p).value;
      && e.key == Key(p.date(Get(row, "Date")).value, Get(row, "Contract"))
      && (e.order.Some? <==> p.number(Get(row, "filledQty")).Some? && p.number(Get(row, "avgPrice")).Some?)
      && (e.order.Some? ==>
           && e.order.value.datetime / 86400 == e.key.day
           && e.order.value.datetime % 86400 == ClockOf(Get(row, "Fill Time"), p)
           && e.order.value.side == Strip(Get(row, "B/S"))
           && e.order.value.quantity == p.number(Get(row, "filledQty")).value
           && e.order.value.price == p.number(Get(row, "avgPrice")).value)
  {
    if Admit(row, p).Some? && Admit(row, p).value.order.Some? {
      var e := Admit(row, p).value;
      var c := ClockOf(Get(row, "Fill Time"), p);
      DayAndClock(e.key.day, c);
    }
  }

  lemma DayAndClock(day: int, c: Second)
    ensures (day * 86400 + c) / 86400 == day && (day * 86400 + c) % 86400 == c
  {
  }

  /** The position of the group keyed `key`, if there is one. */
  function Find(groups: seq<Group>, key: Key): Option<nat> {
    if groups == [] then None
    else if groups[|groups| - 1].key == key then Some(|groups| - 1)
    else Find(groups[..|groups| - 1], key)
  }

  /** The orders an entry appends: its order, or none. */
  function Listed(o: Option<Order>): seq<Order> {
    if o.Some? then [o.value] else []
  }

  /** `trades_by_date_symbol[key].append(order)`: the subscription adds
      an empty group for a new key, then the order, if any, is appended. */
  function AddEntry(groups: seq<Group>, e: Entry): seq<Group> {
    match Find(groups, e.key)
    case None => groups + [Group(e.key, Listed(e.order))]
    case Some(i) =>
      if i < |groups| then groups[i := Group(e.key, groups[i].orders + Listed(e.order))] else groups
  }

  /** The groups after the entries, in order. */
  function Grouped(entries: seq<Entry>): seq<Group> {
    if entries == [] then []
    else AddEntry(Grouped(entries[..|entries| - 1]), entries[|entries| - 1])
  }

  /** The entries the admitted rows produce, in row order. */
  function Admitted(rows: seq<Row>, p: Parsers): seq<Entry> {
    if rows == [] then []
    else
      var e := Admit(rows[|rows| - 1], p);
      Admitted(rows[..|rows| - 1], p) + (if e.Some? then [e.value] else [])
  }

  /** The orders of the entries keyed `key`, in order. */
  function OrdersOf(entries: seq<Entry>, key: Key): seq<Order> {
    if entries == [] then []
    else
      var e := entries[|entries| - 1];
      OrdersOf(entries[..|entries| - 1], key) + (if e.key == key then Listed(e.order) else [])
  }

  /** The distinct keys of the entries, in order of first appearance. */
  function FirstKeys(entries: seq<Entry>): seq<Key> {
    if entries == [] then []
    else
      var init := FirstKeys(entries[..|entries| - 1]);
      var k := entries[|entries| - 1].key;
      if k in init then init else init + [k]
  }

  function Keys(groups: seq<Group>): seq<Key> {
    seq(|groups|, i requires 0 <= i < |groups| => groups[i].key)
  }

  lemma {:induction false} FindFacts(groups: seq<Group>, key: Key)
    ensures Find(groups, key).Some? <==> key in Keys(groups)
    ensures Find(groups, key).Some? ==>
      Find(groups, key).value < |groups| && groups[Find(groups, key).value].key == key
    decreases |groups|
  {
    if groups != [] {
      var init := groups[..|groups| - 1];
      FindFacts(init, key);
      assert Keys(groups) == Keys(init) + [groups[|groups| - 1].key];
    }
  }

  /** Each group of the defaultdict holds exactly the orders with its key,
      in input order (none, for a key whose rows all failed `float`). */
  lemma {:induction false} GroupedExactly(entries: seq<Entry>)
    ensures forall i :: 0 <= i < |Grouped(entries)| ==>
      Grouped(entries)[i].orders == OrdersOf(entries, Grouped(entries)[i].key)
    decreases |entries|
  {
    if entries != [] {
      var init := entries[..|entries| - 1];
      var e := entries[|entries| - 1];
      var g := Grouped(init);
      GroupedExactly(init);
      KeysDistinct(init);
      FindFacts(g, e.key);
      var g' := Grouped(entries);
      assert g' == AddEntry(g, e);
      if e.key in Keys(g) {
        var j := Find(g, e.key).value;
        assert g' == g[j := Group(e.key, g[j].orders + Listed(e.order))];
        assert Keys(g') == Keys(g);
        forall i | 0 <= i < |g'|
          ensures g'[i].orders == OrdersOf(entries, g'[i].key)
        {
          if i != j {
            assert g'[i] == g[i];
            assert g[i].key != g[j].key;
          }
        }
      } else {
        assert g' == g + [Group(e.key, Listed(e.order))];
        forall i | 0 <= i < |g'|
          ensures g'[i].orders == OrdersOf(entries, g'[i].key)
        {
          if i < |g| {
            assert g'[i] == g[i];
            assert g[i].key == Keys(g)[i];
          } else {
            NoOrdersOfNewKey(init, e.key);
          }
        }
      }
    }
  }

  /** One group per distinct key of the rows that reached the
      defaultdict, whether or not they carried an order, in order of first
      appearance: group keys never repeat. */
  lemma {:induction false} KeysDistinct(entries: seq<Entry>)
    ensures Keys(Grouped(entries)) == FirstKeys(entries)
    ensures forall i, j :: 0 <= i < j < |Grouped(entries)| ==> Grouped(entries)[i].key != Grouped(entries)[j].key
    decreases |entries|
  {
    if entries != [] {
      var init := entries[..|entries| - 1];
      var e := entries[|entries| - 1];
      var g := Grouped(init);
      KeysDistinct(init);
      FindFacts(g, e.key);
      var g' := Grouped(entries);
      assert g' == AddEntry(g, e);
      if e.key in Keys(g) {
        var j := Find(g, e.key).value;
        assert g' == g[j := Group(e.key, g[j].orders + Listed(e.order))];
        assert Keys(g') == Keys(g);
        assert FirstKeys(entries) == FirstKeys(init);
        forall i, k | 0 <= i < k < |g'|
          ensures g'[i].key != g'[k].key
        {
          assert g'[i].key == g[i].key && g'[k].key == g[k].key;
        }
      } else {
        assert g' == g + [Group(e.key, Listed(e.order))];
        assert Keys(g') == Keys(g) + [e.key];
        assert FirstKeys(entries) == FirstKeys(init) + [e.key];
        forall i, k | 0 <= i < k < |g'|
          ensures g'[i].key != g'[k].key
        {
          assert g'[i] == g[i] && g[i].key == Keys(g)[i];
          if k < |g| {
            assert g'[k] == g[k];
          }
        }
      }
    }
  }

  /** A row whose numbers fail still places its key: its group comes
      before a group first filled later, even though its own order never
      arrives. */
  lemma KeyBeforeOrder(a: Key, b: Key, oa: Order, ob: Order)
    requires a != b
    ensures Grouped([Entry(a, None), Entry(b, Some(ob)), Entry(a, Some(oa))])
      == [Group(a, [oa]), Group(b, [ob])]
  {
    var es := [Entry(a, None), Entry(b, Some(ob)), Entry(a, Some(oa))];
    assert es[..2][..1] == [Entry(a, None)] && es[..2] == [Entry(a, None), Entry(b, Some(ob))];
    var g1 := [Group(a, [])];
    assert Grouped([Entry(a, None)]) == g1 by {
      assert [Entry(a, None)][..0] == [];
    }
    assert Find(g1, b) == None by {
      assert g1[..0] == [];
    }
    var g2 := g1 + [Group(b, [ob])];
    assert Grouped(es[..2]) == g2;
    assert Find(g2, a) == Some(0) by {
      assert g2[..1] == g1;
    }
    assert Grouped(es) == AddEntry(g2, Entry(a, Some(oa)));
    assert [] + [oa] == [oa];
    assert g2[0 := Group(a, [] + [oa])] == [Group(a, [oa]), Group(b, [ob])];
  }

  /** A key that is not among the first keys has no orders. */
  lemma {:induction false} NoOrdersOfNewKey(entries: seq<Entry>, key: Key)
    requires key !in FirstKeys(entries)
    ensures OrdersOf(entries, key) == []
    decreases |entries|
  {
    if entries != [] {
      var init := entries[..|entries| - 1];
      var init' := FirstKeys(init);
      assert forall k :: k in init' ==> k in FirstKeys(entries);
      NoOrdersOfNewKey(init, key);
    }
  }

  /** The reading loop: every row through `Admit`, every admitted entry
      appended to its group. */
  method ReadGroups(rows: seq<Row>, p: Parsers) returns (groups: seq<Group>)
    ensures groups == Grouped(Admitted(rows, p))
  {
    groups := [];
    for i := 0 to |rows|
      invariant groups == Grouped(Admitted(rows[..i], p))
    {
      var e := Admit(rows[i], p);
      AdmittedStep(rows, i, p);
      if e.None? {
        continue;
      }
      groups := AddEntry(groups, e.value);
    }
    assert rows[..|rows|] == rows;
  }

  lemma AdmittedStep(rows: seq<Row>, i: nat, p: Parsers)
    requires i < |rows|
    ensures var e := Admit(rows[i], p);
      && (e.None? ==> Admitted(rows[..i + 1], p) == Admitted(rows[..i], p))
      && (e.Some? ==> Grouped(Admitted(rows[..i + 1], p)) == AddEntry(Grouped(Admitted(rows[..i], p)), e.value))
  {
    var e := Admit(rows[i], p);
    assert rows[..i + 1][..i] == rows[..i];
    var before := Admitted(rows[..i], p);
    if e.None? {
      assert before + [] == before;
    } else {
      var a := before + [e.value];
      assert Admitted(rows[..i + 1], p) == a;
      assert a[..|a| - 1] == before;
    }
  }
}
