/** The post-query grouping both monthly views do: a `forEach` over the query rows fills a
    dictionary keyed by an integer id, creating an entry from the first row with that id
    and appending one item per row (when the row has one), and `Object.values` then lists
    the entries in ascending id order. */
module Grouping {
  import opened Wrappers
  import opened JsObject

  /** A query row as the grouping sees it: the id it is grouped by, the header fields an
      entry takes from its first row, and the item the row appends (none for a row that
      appends nothing). */
  datatype Row<H, I> = Row(id: nat, header: H, item: Option<I>)

  datatype Group<H, I> = Group(header: H, items: seq<I>)

  /** The index of the first row with id `k`, or |rows| when there is none. */
  function FirstIndex<H, I>(rows: seq<Row<H, I>>, k: nat): (i: nat)
    ensures i <= |rows|
    ensures i < |rows| ==> rows[i].id == k
    ensures forall j :: 0 <= j < i ==> rows[j].id != k
  {
    if rows == [] then 0
    else if rows[0].id == k then 0
    else
      var i := FirstIndex(rows[1..], k);
      assert forall j :: 1 <= j < i + 1 ==> rows[j] == rows[1..][j - 1];
      1 + i
  }

  /** Some row has id `k`. */
  predicate Occurs<H, I>(rows: seq<Row<H, I>>, k: nat) {
    FirstIndex(rows, k) < |rows|
  }

  lemma OccursIff<H, I>(rows: seq<Row<H, I>>, k: nat)
    ensures Occurs(rows, k) <==> exists i :: 0 <= i < |rows| && rows[i].id == k
  {
  }

  lemma {:induction false} FirstIndexAppend<H, I>(rows: seq<Row<H, I>>, r: Row<H, I>, k: nat)
    ensures FirstIndex(rows + [r], k) ==
      if FirstIndex(rows, k) < |rows| then FirstIndex(rows, k)
      else if r.id == k then |rows| else |rows| + 1
  {
    if rows != [] {
      assert (rows + [r])[1..] == rows[1..] + [r];
      FirstIndexAppend(rows[1..], r, k);
    }
  }

  /** The ids of `rows`, each once, in ascending order: the key order of the dictionary. */
  function KeysOf<H, I>(rows: seq<Row<H, I>>): (ks: seq<nat>)
    ensures StrictlyIncreasing(ks)
  {
    if rows == [] then []
    else InsertKey(KeysOf(rows[..|rows| - 1]), rows[|rows| - 1].id)
  }

  /** An id is listed exactly when some row has it. */
  lemma {:induction false} KeysOfMembers<H, I>(rows: seq<Row<H, I>>)
    ensures forall k :: k in KeysOf(rows) <==> Occurs(rows, k)
  {
    if rows != [] {
      var init := rows[..|rows| - 1];
      var last := rows[|rows| - 1];
      assert rows == init + [last];
      KeysOfMembers(init);
      forall k ensures Occurs(rows, k) <==> Occurs(init, k) || last.id == k {
        FirstIndexAppend(init, last, k);
      }
    }
  }

  /** What one row appends to its entry. */
  function Extra<H, I>(r: Row<H, I>): seq<I> {
    if r.item.Some? then [r.item.value] else []
  }

  /** The items of the rows with id `k`, in row order; a row without an item adds nothing. */
  function Items<H, I>(rows: seq<Row<H, I>>, k: nat): seq<I> {
    if rows == [] then []
    else
      var last := rows[|rows| - 1];
      Items(rows[..|rows| - 1], k) + (if last.id == k then Extra(last) else [])
  }

  /** The number of items under each id. */
  function ItemCounts<H, I>(rows: seq<Row<H, I>>): nat -> nat {
    k => |Items(rows, k)|
  }

  /** The number of rows that carry an item. */
  function CountItems<H, I>(rows: seq<Row<H, I>>): nat {
    if rows == [] then 0
    else CountItems(rows[..|rows| - 1]) + |Extra(rows[|rows| - 1])|
  }

  /** The entry for id `k`: the header of the first row with that id and its items. */
  function GroupOf<H, I>(rows: seq<Row<H, I>>, k: nat): Group<H, I>
    requires Occurs(rows, k)
  {
    Group(rows[FirstIndex(rows, k)].header, Items(rows, k))
  }

  /** `Object.values` of the dictionary built from `rows`. */
  function Grouped<H, I>(rows: seq<Row<H, I>>)
    : seq<Group<H, I>>
  {
    var ks := KeysOf(rows);
    KeysOfMembers(rows);
    seq(|ks|, j requires 0 <= j < |ks| => GroupOf(rows, ks[j]))
  }

  // ---------------------------------------------------------------------------------
  // The loop.

  /** One step of the `forEach`: the entry for the row's id is created from the row when
      missing, then the row's item is appended to it. */
  function AddRow<H, I>(d: map<nat, Group<H, I>>, r: Row<H, I>): map<nat, Group<H, I>>
  {
    var k := r.id;
    var g := if k in d then d[k] else Group(r.header, []);
    d[k := g.(items := g.items + Extra(r))]
  }

  /** The dictionary after the `forEach` has seen `rows`. */
  function DictOf<H, I>(rows: seq<Row<H, I>>)
    : map<nat, Group<H, I>>
  {
    if rows == [] then map[]
    else AddRow(DictOf(rows[..|rows| - 1]), rows[|rows| - 1])
  }

  /** The key list after one more row. */
  lemma KeysSnoc<H, I>(rows: seq<Row<H, I>>, r: Row<H, I>)
    ensures KeysOf(rows + [r]) == InsertKey(KeysOf(rows), r.id)
  {
    var s := rows + [r];
    assert s[..|s| - 1] == rows;
  }

  /** The dictionary after one more row. */
  lemma DictSnoc<H, I>(rows: seq<Row<H, I>>, r: Row<H, I>)
    ensures DictOf(rows + [r]) == AddRow(DictOf(rows), r)
  {
    var s := rows + [r];
    assert s[..|s| - 1] == rows;
  }

  /** The dictionary holds, under each id that occurs, exactly that id's entry. */
  lemma {:induction false} DictOfIsGroups<H, I>(rows: seq<Row<H, I>>)
    ensures forall k :: k in DictOf(rows) <==> Occurs(rows, k)
    ensures forall k :: k in DictOf(rows) ==>
      DictOf(rows)[k] == GroupOf(rows, k)
  {
    if rows != [] {
      var init := rows[..|rows| - 1];
      var r := rows[|rows| - 1];
      assert rows == init + [r];
      DictOfIsGroups(init);
      StepGroups(init, r);
      forall k ensures Occurs(rows, k) <==> Occurs(init, k) || r.id == k {
        FirstIndexAppend(init, r, k);
      }
    }
  }

  /** The two statements of one `forEach` step: `map[id] = map[id] || {...}` and the
      conditional `push`, which together make `AddRow`. */
  lemma AddRowSteps<H, I>(d: map<nat, Group<H, I>>, r: Row<H, I>)
    ensures var d1 := if r.id in d then d else d[r.id := Group(r.header, [])];
      AddRow(d, r) ==
        if r.item.Some? then d1[r.id := d1[r.id].(items := d1[r.id].items + [r.item.value])]
        else d1
  {
    var k := r.id;
    var d1 := if r.id in d then d else d[r.id := Group(r.header, [])];
    if r.item.None? {
      assert d1[k].items + [] == d1[k].items;
      assert d1 == d1[k := d1[k]];
    }
  }

  /** The `forEach` that fills the dictionary, then `Object.values`: `ks` is the object's
      key list, in the ascending order JavaScript enumerates integer keys in. */
  method GroupRows<H, I>(rows: seq<Row<H, I>>)
    returns (groups: seq<Group<H, I>>)
    ensures groups == Grouped(rows)
  {
    var ks: seq<nat> := [];
    var dict: map<nat, Group<H, I>> := map[];
    var i := 0;
    while i < |rows|
      invariant 0 <= i <= |rows|
      invariant ks == KeysOf(rows[..i])
      invariant dict == DictOf(rows[..i])
    {
      PrefixStep(rows, i);
      dict, ks := Visit(dict, ks, rows[i]);
      i := i + 1;
    }
    assert rows[..i] == rows;
    KeysInDict(rows);
    groups := Values(dict, ks);
    ValuesAreGrouped(rows, groups);
  }

  /** The arrow function the `forEach` calls on each row: `grouped[id]` is created from
      the row when missing, then the row's item is pushed onto it. Setting a new integer key
      puts it in its place in the object's key list. */
  method Visit<H, I>(dict: map<nat, Group<H, I>>, ks: seq<nat>, r: Row<H, I>)
    returns (dict': map<nat, Group<H, I>>, ks': seq<nat>)
    requires StrictlyIncreasing(ks)
    ensures dict' == AddRow(dict, r)
    ensures ks' == InsertKey(ks, r.id)
  {
    var k := r.id;
    dict' := dict;
    if k !in dict' {
      dict' := dict'[k := Group(r.header, [])];
    }
    ks' := InsertKey(ks, k);
    if r.item.Some? {
      dict' := dict'[k := dict'[k].(items := dict'[k].items + [r.item.value])];
    }
    AddRowSteps(dict, r);
  }

  /** The key list and the dictionary after one more row of `rows`. */
  lemma PrefixStep<H, I>(rows: seq<Row<H, I>>, i: nat)
    requires i < |rows|
    ensures KeysOf(rows[..i + 1]) == InsertKey(KeysOf(rows[..i]), rows[i].id)
    ensures DictOf(rows[..i + 1]) == AddRow(DictOf(rows[..i]), rows[i])
  {
    assert rows[..i + 1] == rows[..i] + [rows[i]];
    KeysSnoc(rows[..i], rows[i]);
    DictSnoc(rows[..i], rows[i]);
  }

  /** Every listed key has an entry in the dictionary. */
  lemma KeysInDict<H, I>(rows: seq<Row<H, I>>)
    ensures forall n :: 0 <= n < |KeysOf(rows)| ==> KeysOf(rows)[n] in DictOf(rows)
  {
    DictOfValues(rows);
  }

  /** The entries listed in key order are `Grouped`. */
  lemma ValuesAreGrouped<H, I>(rows: seq<Row<H, I>>, vs: seq<Group<H, I>>)
    requires forall n :: 0 <= n < |KeysOf(rows)| ==> KeysOf(rows)[n] in DictOf(rows)
    requires |vs| == |KeysOf(rows)|
    requires forall n :: 0 <= n < |KeysOf(rows)| ==> vs[n] == DictOf(rows)[KeysOf(rows)[n]]
    ensures vs == Grouped(rows)
  {
    DictOfValues(rows);
  }

  /** The dictionary holds an entry under every listed key, and listing the entries in key
      order gives `Grouped`. */
  lemma DictOfValues<H, I>(rows: seq<Row<H, I>>)
    ensures forall n :: 0 <= n < |KeysOf(rows)| ==> KeysOf(rows)[n] in DictOf(rows)
    ensures |Grouped(rows)| == |KeysOf(rows)|
    ensures forall n :: 0 <= n < |KeysOf(rows)| ==> Grouped(rows)[n] == DictOf(rows)[KeysOf(rows)[n]]
  {
    DictOfIsGroups(rows);
    KeysOfMembers(rows);
    var ks := KeysOf(rows);
    forall n | 0 <= n < |ks| ensures ks[n] in DictOf(rows) {
      assert ks[n] in ks;
    }
  }

  /** How one more row changes the dictionary: its id's entry is created if new and gains
      the row's item; the other entries are unchanged. */
  lemma StepGroups<H, I>(rows: seq<Row<H, I>>, r: Row<H, I>)
    ensures KeysOf(rows + [r]) == InsertKey(KeysOf(rows), r.id)
    ensures Occurs(rows + [r], r.id)
    ensures forall k :: k != r.id && Occurs(rows, k) ==>
      Occurs(rows + [r], k) &&
      GroupOf(rows + [r], k) == GroupOf(rows, k)
    ensures Occurs(rows, r.id) ==>
      GroupOf(rows + [r], r.id) ==
        Group(GroupOf(rows, r.id).header,
              GroupOf(rows, r.id).items + Extra(r))
    ensures !Occurs(rows, r.id) ==>
      GroupOf(rows + [r], r.id) == Group(r.header, Extra(r))
  {
    var s := rows + [r];
    assert s[..|s| - 1] == rows;
    FirstIndexAppend(rows, r, r.id);
    forall k | Occurs(rows, k)
      ensures FirstIndex(s, k) == FirstIndex(rows, k)
    {
      FirstIndexAppend(rows, r, k);
    }
    if !Occurs(rows, r.id) {
      ItemsAbsent(rows, r.id);
    }
  }

  lemma {:induction false} ItemsAbsent<H, I>(rows: seq<Row<H, I>>, k: nat)
    requires !Occurs(rows, k)
    ensures Items(rows, k) == []
  {
    if rows != [] {
      var init := rows[..|rows| - 1];
      assert rows == init + [rows[|rows| - 1]];
      FirstIndexAppend(init, rows[|rows| - 1], k);
      ItemsAbsent(init, k);
    }
  }

  // ---------------------------------------------------------------------------------
  // What the grouping promises.

  /** There is one entry per distinct id, in ascending id order; each entry's header comes
      from the first row with its id, and its items are those of the rows with its id. */
  lemma GroupedShape<H, I>(rows: seq<Row<H, I>>)
    ensures |Grouped(rows)| == |KeysOf(rows)|
    ensures forall j :: 0 <= j < |Grouped(rows)| ==>
      var k := KeysOf(rows)[j];
      var f := FirstIndex(rows, k);
      && f < |rows| && rows[f].id == k
      && (forall n :: 0 <= n < f ==> rows[n].id != k)
      && Grouped(rows)[j].header == rows[f].header
      && Grouped(rows)[j].items == Items(rows, k)
  {
    var ks := KeysOf(rows);
    KeysOfMembers(rows);
    forall j | 0 <= j < |ks|
      ensures Occurs(rows, ks[j]) && Grouped(rows)[j] == GroupOf(rows, ks[j])
    {
      assert ks[j] in ks;
    }
  }

  /** Every row with an item lands in exactly one entry: the entries' items together number
      as many as the rows that carry one. */
  lemma {:induction false} TotalItems<H, I>(rows: seq<Row<H, I>>)
    ensures SumOver(KeysOf(rows), ItemCounts(rows)) == CountItems(rows)
  {
    if rows != [] {
      var init := rows[..|rows| - 1];
      var r := rows[|rows| - 1];
      assert rows == init + [r];
      TotalItems(init);
      TotalItemsSnoc(init, r);
    }
  }

  lemma TotalItemsSnoc<H, I>(rows: seq<Row<H, I>>, r: Row<H, I>)
    requires SumOver(KeysOf(rows), ItemCounts(rows)) == CountItems(rows)
    ensures SumOver(KeysOf(rows + [r]), ItemCounts(rows + [r])) == CountItems(rows + [r])
  {
    var f := ItemCounts(rows);
    var g := ItemCounts(rows + [r]);
    var ks := KeysOf(rows);
    assert forall x :: g(x) == f(x) + (if x == r.id then |Extra(r)| else 0) by {
      ItemsSnoc(rows, r);
    }
    assert r.id !in ks ==> f(r.id) == 0 by {
      KeysOfMembers(rows);
      if !Occurs(rows, r.id) {
        ItemsAbsent(rows, r.id);
      }
    }
    SumOverStep(ks, r.id, f, g, |Extra(r)|);
    assert CountItems(rows + [r]) == CountItems(rows) + |Extra(r)| by {
      ItemsSnoc(rows, r);
    }
    KeysSnoc(rows, r);
  }

  /** One more row adds its item to its own id's items only. */
  lemma ItemsSnoc<H, I>(rows: seq<Row<H, I>>, r: Row<H, I>)
    ensures forall k :: Items(rows + [r], k) == Items(rows, k) + (if r.id == k then Extra(r) else [])
    ensures CountItems(rows + [r]) == CountItems(rows) + |Extra(r)|
  {
    var s := rows + [r];
    assert s[..|s| - 1] == rows;
  }

  /** Every row has an entry, and the row's item is among the entry's items. */
  lemma EntryOf<H, I>(rows: seq<Row<H, I>>, n: nat)
    requires n < |rows|
    ensures exists j ::
              && 0 <= j < |Grouped(rows)|
              && KeysOf(rows)[j] == rows[n].id
              && (rows[n].item.Some? ==> rows[n].item.value in Grouped(rows)[j].items)
  {
    KeysOfMembers(rows);
    OccursIff(rows, rows[n].id);
    GroupedShape(rows);
    if rows[n].item.Some? {
      ItemsHave(rows, n);
    }
    var ks := KeysOf(rows);
    var j :| 0 <= j < |ks| && ks[j] == rows[n].id;
    assert Grouped(rows)[j].items == Items(rows, ks[j]);
  }

  /** Every item of id `k` is the item of some row with id `k`. */
  lemma {:induction false} ItemsFrom<H, I>(rows: seq<Row<H, I>>, k: nat, x: I)
    requires x in Items(rows, k)
    ensures exists i :: 0 <= i < |rows| && rows[i].id == k && rows[i].item == Some(x)
  {
    var init := rows[..|rows| - 1];
    var last := rows[|rows| - 1];
    if x in Items(init, k) {
      ItemsFrom(init, k, x);
      var i :| 0 <= i < |init| && init[i].id == k && init[i].item == Some(x);
      assert rows[i] == init[i];
    } else {
      assert last.id == k && last.item == Some(x);
    }
  }

  /** The item of a row is among the items of its id. */
  lemma {:induction false} ItemsHave<H, I>(rows: seq<Row<H, I>>, i: nat)
    requires i < |rows| && rows[i].item.Some?
    ensures rows[i].item.value in Items(rows, rows[i].id)
  {
    var init := rows[..|rows| - 1];
    if i < |init| {
      assert init[i] == rows[i];
      ItemsHave(init, i);
    }
  }

  /** The items of one entry are never more than the rows that carry one. */
  lemma {:induction false} ItemsBound<H, I>(rows: seq<Row<H, I>>, k: nat)
    ensures |Items(rows, k)| <= CountItems(rows)
  {
    if rows != [] {
      ItemsBound(rows[..|rows| - 1], k);
    }
  }
}
