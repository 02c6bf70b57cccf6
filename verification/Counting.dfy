/** The aggregate operator (task_executable/aggregate/aggregate.go). */
module Counting {
  import opened Orders

  datatype Item = Item(id: string, key: string)

  datatype Input = BlankLine | Undecodable | EndOfStream | Data(item: Item)

  datatype Output = Output(originalId: string, key: string, count: nat)

  function Items(lines: seq<Input>): seq<Item> {
    if lines == [] then []
    else
      var before, last := Items(lines[..|lines| - 1]), lines[|lines| - 1];
      if last.Data? then before + [last.item] else before
  }

  function CountKey(items: seq<Item>, key: string): nat {
    if items == [] then 0
    else CountKey(items[..|items| - 1], key) + (if items[|items| - 1].key == key then 1 else 0)
  }

  /** One output per data line: how often its key has come so far. */
  function Emitted(items: seq<Item>): seq<Output> {
    seq(|items|, i requires 0 <= i < |items| => Output(items[i].id, items[i].key, CountKey(items[..i + 1], items[i].key)))
  }

  /** The count in the latest output for a key, 0 when there is none. */
  function LastValue(outputs: seq<Output>, key: string): nat {
    if outputs == [] then 0
    else if outputs[|outputs| - 1].key == key then outputs[|outputs| - 1].count
    else LastValue(outputs[..|outputs| - 1], key)
  }

  ghost predicate Tallies(keyCounts: map<string, nat>, items: seq<Item>) {
    forall key :: CountKey(items, key) == if key in keyCounts then keyCounts[key] else 0
  }

  lemma TallyOneMore(keyCounts: map<string, nat>, items: seq<Item>, item: Item)
    requires Tallies(keyCounts, items)
    ensures var count := 1 + if item.key in keyCounts then keyCounts[item.key] else 0;
            && count == CountKey(items + [item], item.key)
            && Tallies(keyCounts[item.key := count], items + [item])
  {
    assert (items + [item])[..|items|] == items;
  }

  ghost predicate Answers(keyCounts: map<string, nat>, items: seq<Item>, outputs: seq<Output>) {
    Tallies(keyCounts, items) && outputs == Emitted(items)
  }

  lemma AnswerOneMore(keyCounts: map<string, nat>, items: seq<Item>, outputs: seq<Output>, item: Item)
    requires Answers(keyCounts, items, outputs)
    ensures var count := 1 + if item.key in keyCounts then keyCounts[item.key] else 0;
            Answers(keyCounts[item.key := count], items + [item], outputs + [Output(item.id, item.key, count)])
  {
    TallyOneMore(keyCounts, items, item);
    EmittedOneMore(items, item);
  }

  lemma ItemsOneMore(lines: seq<Input>, i: nat)
    requires i < |lines|
    ensures Items(lines[..i + 1]) ==
            if lines[i].Data? then Items(lines[..i]) + [lines[i].item] else Items(lines[..i])
  {
    assert lines[..i + 1][..i] == lines[..i];
  }

  method Aggregate(lines: seq<Input>) returns (outputs: seq<Output>)
    ensures outputs == Emitted(Items(lines))
  {
    outputs := [];
    var keyCounts: map<string, nat> := map[];
    ghost var items := [];
    var i := 0;
    while i < |lines|
      invariant 0 <= i <= |lines|
      invariant items == Items(lines[..i])
      invariant Answers(keyCounts, items, outputs)
    {
      ItemsOneMore(lines, i);
      match lines[i] {
        case BlankLine =>
        case Undecodable =>
        case EndOfStream =>
        case Data(item) =>
          AnswerOneMore(keyCounts, items, outputs, item);
          var count := 1 + if item.key in keyCounts then keyCounts[item.key] else 0;
          keyCounts := keyCounts[item.key := count];
          outputs := outputs + [Output(item.id, item.key, count)];
          items := items + [item];
      }
      i := i + 1;
    }
    assert lines[..i] == lines;
  }

  lemma EmittedOneMore(items: seq<Item>, item: Item)
    ensures Emitted(items + [item]) ==
            Emitted(items) + [Output(item.id, item.key, CountKey(items + [item], item.key))]
  {
    var more := items + [item];
    assert more[..|more|] == more;
    forall i | 0 <= i < |items|
      ensures Emitted(more)[i] == Emitted(items)[i]
    {
      assert more[..i + 1] == items[..i + 1];
    }
  }

  lemma {:induction false} LastValueIsCount(items: seq<Item>, key: string)
    ensures LastValue(Emitted(items), key) == CountKey(items, key)
  {
    if items != [] {
      var init, last := items[..|items| - 1], items[|items| - 1];
      assert items == init + [last];
      EmittedOneMore(init, last);
      LastValueIsCount(init, key);
      assert Emitted(items)[..|items| - 1] == Emitted(init);
    }
  }

  // ---- What an operator reads ----

  /** The lines of a list of tuple IDs, when each ID carries one key. */
  function ItemsOf(ids: seq<string>, keyOf: string -> string): seq<Item> {
    seq(|ids|, i requires 0 <= i < |ids| => Item(ids[i], keyOf(ids[i])))
  }

  function WithKey(ids: set<string>, keyOf: string -> string, key: string): set<string> {
    set id | id in ids && keyOf(id) == key
  }

  /** With each ID read once, the last value for a key is the number of IDs that carry it. */
  lemma {:induction false} DistinctCount(ids: seq<string>, keyOf: string -> string, key: string)
    requires forall i, j :: 0 <= i < j < |ids| ==> ids[i] != ids[j]
    ensures CountKey(ItemsOf(ids, keyOf), key) == |WithKey(Elements(ids), keyOf, key)|
  {
    if ids == [] {
      assert WithKey(Elements(ids), keyOf, key) == {};
    } else {
      var init, last := ids[..|ids| - 1], ids[|ids| - 1];
      assert ids == init + [last];
      assert ItemsOf(ids, keyOf)[..|ids| - 1] == ItemsOf(init, keyOf);
      DistinctCount(init, keyOf, key);
      var seen := WithKey(Elements(init), keyOf, key);
      assert WithKey(Elements(ids), keyOf, key) == if keyOf(last) == key then seen + {last} else seen;
    }
  }

  /** Each ID read is answered by one line of its own, in the order read. */
  lemma EachReadIsAnsweredOnce(ids: seq<string>, keyOf: string -> string)
    ensures Answered(Emitted(ItemsOf(ids, keyOf))) == ids
  {
    assert |Answered(Emitted(ItemsOf(ids, keyOf)))| == |ids|;
  }

  function Answered(outputs: seq<Output>): seq<string> {
    seq(|outputs|, i requires 0 <= i < |outputs| => outputs[i].originalId)
  }

  lemma LastValueCountsDistinct(ids: seq<string>, keyOf: string -> string, key: string)
    requires forall i, j :: 0 <= i < j < |ids| ==> ids[i] != ids[j]
    ensures LastValue(Emitted(ItemsOf(ids, keyOf)), key) == |WithKey(Elements(ids), keyOf, key)|
  {
    LastValueIsCount(ItemsOf(ids, keyOf), key);
    DistinctCount(ids, keyOf, key);
  }
}
