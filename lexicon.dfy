/**
 * The anchor lexicon of the sentence scorer: a table of rows (word, hypo,
 * hyper, flow) read into a dict keyed by the lower-cased, stripped word, whose
 * insertion order gives the list of anchor words.
 */
module AnchorLexicon {

  import opened Wrappers
  import opened Text
  import opened States

  /**
   * One row of the lexicon table. A weight is `None` when the table has no
   * column for that state, which `row.get(col, 0.0)` reads as 0.0.
   */
  datatype Row = Row(word: string, hypo: Option<real>, hyper: Option<real>, flow: Option<real>)

  /** The cell of `row` in the column of state `s`. */
  function Cell(row: Row, s: State): Option<real>
  {
    match s
    case Hypo => row.hypo
    case Hyper => row.hyper
    case Flow => row.flow
  }

  /** The lexicon key of a table word: lower-cased, then stripped of surrounding whitespace. */
  function Key(word: string): string
  {
    Strip(Lower(word))
  }

  /** A key has no upper-case letter and no whitespace at either end. */
  lemma KeyIsNormal(word: string)
    ensures forall i :: 0 <= i < |Key(word)| ==> !IsUpper(Key(word)[i])
    ensures Key(word) != [] ==> !IsSpace(Key(word)[0]) && !IsSpace(Key(word)[|Key(word)| - 1])
  {
    var l := Lower(word);
    StripTrims(l);
    var a, b :| 0 <= a <= b <= |l| && Key(word) == l[a..b];
    assert forall i :: 0 <= i < |Key(word)| ==> Key(word)[i] == l[a + i];
  }

  /** The weights stored for a row: each present cell, or 0.0 for an absent column. */
  function WeightsOf(row: Row): (w: Tally)
    ensures forall s :: Cell(row, s).Some? ==> w.Get(s) == Cell(row, s).value
    ensures forall s :: Cell(row, s).None? ==> w.Get(s) == 0.0
  {
    Tally(row.hypo.GetOr(0.0), row.hyper.GetOr(0.0), row.flow.GetOr(0.0))
  }

  /** One assignment `self.lexicon[word] = {...}` of the loop. */
  datatype Item = Item(key: string, weights: Tally)

  /** The assignments the loop performs, one per row, in table order. */
  function Items(rows: seq<Row>): seq<Item>
  {
    seq(|rows|, i requires 0 <= i < |rows| => Item(Key(rows[i].word), WeightsOf(rows[i])))
  }

  /** The dict's contents after the assignments, in order. */
  function Store(items: seq<Item>): map<string, Tally>
  {
    if items == [] then map[]
    else
      var last := items[|items| - 1];
      Store(items[..|items| - 1])[last.key := last.weights]
  }

  /**
   * The dict's key order: a key takes its place when first assigned, and a
   * later assignment to it replaces the value but keeps that place.
   */
  function Order(items: seq<Item>): seq<string>
  {
    if items == [] then []
    else
      var prefix := items[..|items| - 1];
      var k := items[|items| - 1].key;
      if k in Store(prefix) then Order(prefix) else Order(prefix) + [k]
  }

  /** `self.lexicon` once every row is stored. */
  function Build(rows: seq<Row>): map<string, Tally>
  {
    Store(Items(rows))
  }

  /** `self.anchor_words`, that is `list(self.lexicon.keys())`. */
  function Anchors(rows: seq<Row>): seq<string>
  {
    Order(Items(rows))
  }

  predicate Distinct(s: seq<string>)
  {
    forall i, j :: 0 <= i < j < |s| ==> s[i] != s[j]
  }

  lemma {:induction false} StoreKeys(items: seq<Item>, k: string)
    ensures k in Store(items) <==> exists i :: 0 <= i < |items| && items[i].key == k
  {
    if items != [] {
      var prefix := items[..|items| - 1];
      StoreKeys(prefix, k);
      if exists i :: 0 <= i < |prefix| && prefix[i].key == k {
        var i :| 0 <= i < |prefix| && prefix[i].key == k;
        assert items[i] == prefix[i];
      }
      if exists i :: 0 <= i < |items| && items[i].key == k {
        var i :| 0 <= i < |items| && items[i].key == k;
        if i < |prefix| {
          assert prefix[i] == items[i];
        }
      }
    }
  }

  /** The keys are exactly the keys of the rows' words. */
  lemma BuildKeys(rows: seq<Row>, k: string)
    ensures k in Build(rows) <==> exists i :: 0 <= i < |rows| && Key(rows[i].word) == k
  {
    var items := Items(rows);
    StoreKeys(items, k);
    if exists i :: 0 <= i < |rows| && Key(rows[i].word) == k {
      var i :| 0 <= i < |rows| && Key(rows[i].word) == k;
      assert items[i].key == k;
    }
  }

  lemma {:induction false} StoreLastWins(items: seq<Item>, i: nat)
    requires i < |items|
    requires forall j :: i < j < |items| ==> items[j].key != items[i].key
    ensures items[i].key in Store(items) && Store(items)[items[i].key] == items[i].weights
  {
    if i < |items| - 1 {
      var prefix := items[..|items| - 1];
      assert prefix[i] == items[i];
      StoreLastWins(prefix, i);
    }
  }

  /** A key holds the weights of the last row whose word has that key. */
  lemma LastRowWins(rows: seq<Row>, i: nat)
    requires i < |rows|
    requires forall j :: i < j < |rows| ==> Key(rows[j].word) != Key(rows[i].word)
    ensures Key(rows[i].word) in Build(rows)
    ensures Build(rows)[Key(rows[i].word)] == WeightsOf(rows[i])
  {
    StoreLastWins(Items(rows), i);
  }

  lemma {:induction false} StoreValues(items: seq<Item>, k: string)
    requires k in Store(items)
    ensures exists i :: 0 <= i < |items| && items[i] == Item(k, Store(items)[k])
  {
    var prefix := items[..|items| - 1];
    if items[|items| - 1].key != k {
      StoreValues(prefix, k);
      var i :| 0 <= i < |prefix| && prefix[i] == Item(k, Store(prefix)[k]);
      assert items[i] == prefix[i];
    }
  }

  /** Every stored weight comes from some row with that key; in particular a table without the column of `s` stores 0.0 for `s` everywhere. */
  lemma WeightsFromRows(rows: seq<Row>, k: string)
    requires k in Build(rows)
    ensures exists i :: 0 <= i < |rows| && Key(rows[i].word) == k && Build(rows)[k] == WeightsOf(rows[i])
  {
    StoreValues(Items(rows), k);
    var i :| 0 <= i < |rows| && Items(rows)[i] == Item(k, Build(rows)[k]);
  }

  /** A table without the column of state `s` gives every word the weight 0.0 for `s`. */
  lemma AbsentColumnIsZero(rows: seq<Row>, s: State, k: string)
    requires forall i :: 0 <= i < |rows| ==> Cell(rows[i], s).None?
    requires k in Build(rows)
    ensures Build(rows)[k].Get(s) == 0.0
  {
    WeightsFromRows(rows, k);
  }

  lemma {:induction false} OrderListsKeys(items: seq<Item>)
    ensures forall k :: k in Order(items) <==> k in Store(items)
    ensures Distinct(Order(items))
  {
    if items != [] {
      OrderListsKeys(items[..|items| - 1]);
    }
  }

  /** The anchor words hold every key of the lexicon exactly once and nothing else. */
  lemma AnchorsListKeys(rows: seq<Row>)
    ensures forall k :: k in Anchors(rows) <==> k in Build(rows)
    ensures Distinct(Anchors(rows))
  {
    OrderListsKeys(Items(rows));
  }

  /** `k` is assigned somewhere before any assignment to `k'`. */
  predicate AssignedBefore(items: seq<Item>, k: string, k': string)
  {
    exists i :: 0 <= i < |items| && items[i].key == k && forall j :: 0 <= j <= i ==> items[j].key != k'
  }

  lemma {:induction false} OrderByFirstAssignment(items: seq<Item>, a: nat, b: nat)
    requires a < b < |Order(items)|
    ensures AssignedBefore(items, Order(items)[a], Order(items)[b])
  {
    var prefix := items[..|items| - 1];
    var k := items[|items| - 1].key;
    var order := Order(items);
    if k in Store(prefix) || b < |Order(prefix)| {
      assert order[a] == Order(prefix)[a] && order[b] == Order(prefix)[b];
      OrderByFirstAssignment(prefix, a, b);
      var i :| 0 <= i < |prefix| && prefix[i].key == order[a] && forall j :: 0 <= j <= i ==> prefix[j].key != order[b];
      assert items[i] == prefix[i];
      assert forall j :: 0 <= j <= i ==> items[j] == prefix[j];
    } else {
      OrderListsKeys(prefix);
      assert order[b] == k && order[a] == Order(prefix)[a];
      StoreKeys(prefix, order[a]);
      StoreKeys(prefix, k);
      var i :| 0 <= i < |prefix| && prefix[i].key == order[a];
      assert items[i] == prefix[i];
      assert forall j :: 0 <= j <= i ==> items[j] == prefix[j];
    }
  }

  /** Anchor words come in the order in which their keys first occur in the table. */
  lemma AnchorsByFirstOccurrence(rows: seq<Row>, a: nat, b: nat)
    requires a < b < |Anchors(rows)|
    ensures exists i ::
              && 0 <= i < |rows| && Key(rows[i].word) == Anchors(rows)[a]
              && forall j :: 0 <= j <= i ==> Key(rows[j].word) != Anchors(rows)[b]
  {
    var items := Items(rows);
    OrderByFirstAssignment(items, a, b);
    var i :| 0 <= i < |items| && items[i].key == Anchors(rows)[a] && forall j :: 0 <= j <= i ==> items[j].key != Anchors(rows)[b];
    assert forall j :: 0 <= j <= i ==> Key(rows[j].word) == items[j].key;
  }

  /** One pass of the constructor's loop: row `i` is stored under its key, which joins the order only if new. */
  lemma BuildStep(rows: seq<Row>, i: nat)
    requires i < |rows|
    ensures Build(rows[..i + 1]) == Build(rows[..i])[Key(rows[i].word) := WeightsOf(rows[i])]
    ensures Anchors(rows[..i + 1]) ==
              if Key(rows[i].word) in Build(rows[..i]) then Anchors(rows[..i]) else Anchors(rows[..i]) + [Key(rows[i].word)]
  {
    var items := Items(rows[..i + 1]);
    assert items[..i] == Items(rows[..i]);
    assert items[i] == Item(Key(rows[i].word), WeightsOf(rows[i]));
  }
}
