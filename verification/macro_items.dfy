/**
 * Ordering a trigger's items by their first use in its expressions
 * (sortItemsByExpressionOrder) and collecting the macros of an item test
 * (extractItemTestMacros), both in ui/include/classes/macros/CMacrosResolver.php.
 */
module MacroItems {

  // ---------------------------------------------------------------------
  // Numbering the functions of the expressions

  /**
   * A trigger: the functionids of its expression and recovery expression, in
   * order of first appearance and without repetition (as the macro extractor
   * returns them), and the itemids of its items.
   */
  datatype Trigger = Trigger(functionids: seq<string>, items: seq<string>)

  /** The position of a functionid among its trigger's functions, and the index of that trigger. */
  datatype Number = Number(num: nat, key: nat)

  /**
   * The inner loop for the trigger at `key`: each functionid not numbered
   * yet gets the next number; returns the map and the next number.
   */
  function NumberIds(acc: map<string, Number>, ids: seq<string>, key: nat): (map<string, Number>, nat)
  {
    if ids == [] then (acc, 0)
    else
      var n := |ids| - 1;
      var (m, num) := NumberIds(acc, ids[..n], key);
      if ids[n] in m then (m, num) else (m[ids[n] := Number(num, key)], num + 1)
  }

  /** The outer loop: only triggers with at least two items are numbered. */
  function Numbering(triggers: seq<Trigger>): map<string, Number>
  {
    if triggers == [] then map[]
    else
      var n := |triggers| - 1;
      var acc := Numbering(triggers[..n]);
      if |triggers[n].items| < 2 then acc else NumberIds(acc, triggers[n].functionids, n).0
  }

  method NumberFunctions(triggers: seq<Trigger>) returns (functionids: map<string, Number>)
    ensures functionids == Numbering(triggers)
  {
    functionids := map[];
    for key := 0 to |triggers|
      invariant functionids == Numbering(triggers[..key])
    {
      assert triggers[..key + 1][..key] == triggers[..key];
      var ids := triggers[key].functionids;
      if |triggers[key].items| >= 2 {
        ghost var before := functionids;
        var num := 0;
        for j := 0 to |ids|
          invariant (functionids, num) == NumberIds(before, ids[..j], key)
        {
          assert ids[..j + 1][..j] == ids[..j];
          if ids[j] !in functionids {
            functionids := functionids[ids[j] := Number(num, key)];
            num := num + 1;
          }
        }
        assert ids[..|ids|] == ids;
      }
    }
    assert triggers[..|triggers|] == triggers;
  }

  /** A functionid numbered by an earlier trigger keeps its number; the others are the trigger's own. */
  lemma {:induction false} NumberIdsKeeps(acc: map<string, Number>, ids: seq<string>, key: nat)
    ensures NumberIds(acc, ids, key).0.Keys == acc.Keys + set i | 0 <= i < |ids| :: ids[i]
    ensures forall f :: f in acc ==> NumberIds(acc, ids, key).0[f] == acc[f]
    decreases |ids|
  {
    if ids != [] {
      var n := |ids| - 1;
      NumberIdsKeeps(acc, ids[..n], key);
      assert (set i | 0 <= i < |ids| :: ids[i]) == (set i | 0 <= i < n :: ids[..n][i]) + {ids[n]} by {
        forall i | 0 <= i < n
          ensures ids[..n][i] == ids[i]
        {
        }
      }
    }
  }

  /** `ids` has no repetition and none of it was numbered before. */
  predicate Fresh(acc: map<string, Number>, ids: seq<string>)
  {
    (forall i, j :: 0 <= i < j < |ids| ==> ids[i] != ids[j]) && (forall i :: 0 <= i < |ids| ==> ids[i] !in acc)
  }

  /** A trigger's own functions are numbered 0, 1, 2, ... in order of first appearance. */
  lemma {:induction false} NumberIdsInOrder(acc: map<string, Number>, ids: seq<string>, key: nat)
    requires Fresh(acc, ids)
    ensures NumberIds(acc, ids, key).1 == |ids|
    ensures forall i :: 0 <= i < |ids| ==> ids[i] in NumberIds(acc, ids, key).0
    ensures forall i :: 0 <= i < |ids| ==> NumberIds(acc, ids, key).0[ids[i]] == Number(i, key)
    decreases |ids|
  {
    if ids != [] {
      var n := |ids| - 1;
      var init := ids[..n];
      assert Fresh(acc, init) by {
        forall i | 0 <= i < n
          ensures init[i] == ids[i]
        {
        }
      }
      NumberIdsInOrder(acc, init, key);
      NumberIdsKeeps(acc, init, key);
      var m := NumberIds(acc, init, key).0;
      assert ids[n] !in m;
      forall i | 0 <= i < n
        ensures ids[i] == init[i]
      {
      }
    }
  }

  // ---------------------------------------------------------------------
  // Item order per trigger

  /** A row of the functions table: a functionid and the item it reads. */
  datatype FunctionRow = FunctionRow(functionid: string, itemid: string)

  /** For each trigger index, each item's number: that of the first row for the item. */
  function ItemOrder(rows: seq<FunctionRow>, functionids: map<string, Number>): map<nat, map<string, nat>>
    requires forall r :: r in rows ==> r.functionid in functionids
  {
    if rows == [] then map[]
    else
      var n := |rows| - 1;
      var prev := ItemOrder(rows[..n], functionids);
      var row := rows[n];
      var key := functionids[row.functionid].key;
      if key in prev && row.itemid in prev[key] then prev
      else prev[key := (if key in prev then prev[key] else map[])[row.itemid := functionids[row.functionid].num]]
  }

  method ItemOrders(rows: seq<FunctionRow>, functionids: map<string, Number>) returns (itemOrder: map<nat, map<string, nat>>)
    requires forall r :: r in rows ==> r.functionid in functionids
    ensures itemOrder == ItemOrder(rows, functionids)
  {
    itemOrder := map[];
    for i := 0 to |rows|
      invariant itemOrder == ItemOrder(rows[..i], functionids)
    {
      assert rows[..i + 1][..i] == rows[..i];
      var key := functionids[rows[i].functionid].key;
      var num := functionids[rows[i].functionid].num;
      if key !in itemOrder || rows[i].itemid !in itemOrder[key] {
        var order := if key in itemOrder then itemOrder[key] else map[];
        itemOrder := itemOrder[key := order[rows[i].itemid := num]];
      }
    }
    assert rows[..|rows|] == rows;
  }

  /** Row `i` is the first row for its item in its trigger. */
  predicate FirstRow(rows: seq<FunctionRow>, functionids: map<string, Number>, i: nat)
    requires forall r :: r in rows ==> r.functionid in functionids
  {
    i < |rows|
    && forall j :: 0 <= j < i ==>
         !(functionids[rows[j].functionid].key == functionids[rows[i].functionid].key && rows[j].itemid == rows[i].itemid)
  }

  /** Each item of a trigger is ordered by the number of the first row that reads it. */
  lemma {:induction false} FirstRowWins(rows: seq<FunctionRow>, functionids: map<string, Number>, i: nat)
    requires forall r :: r in rows ==> r.functionid in functionids
    requires FirstRow(rows, functionids, i)
    ensures functionids[rows[i].functionid].key in ItemOrder(rows, functionids)
    ensures rows[i].itemid in ItemOrder(rows, functionids)[functionids[rows[i].functionid].key]
    ensures ItemOrder(rows, functionids)[functionids[rows[i].functionid].key][rows[i].itemid]
            == functionids[rows[i].functionid].num
    decreases |rows|
  {
    var n := |rows| - 1;
    var init := rows[..n];
    assert forall r :: r in init ==> r in rows;
    if i < n {
      assert FirstRow(init, functionids, i) by {
        forall j | 0 <= j < i
          ensures init[j] == rows[j]
        {
        }
      }
      FirstRowWins(init, functionids, i);
    } else {
      ItemOrderDomain(init, functionids);
    }
  }

  /** An item has a number in a trigger's order only when some row reads it for that trigger. */
  lemma {:induction false} ItemOrderDomain(rows: seq<FunctionRow>, functionids: map<string, Number>)
    requires forall r :: r in rows ==> r.functionid in functionids
    ensures forall key, item :: key in ItemOrder(rows, functionids) && item in ItemOrder(rows, functionids)[key] ==>
              exists j :: 0 <= j < |rows| && functionids[rows[j].functionid].key == key && rows[j].itemid == item
    decreases |rows|
  {
    if rows != [] {
      var n := |rows| - 1;
      var init := rows[..n];
      assert forall r :: r in init ==> r in rows;
      ItemOrderDomain(init, functionids);
      forall key, item | key in ItemOrder(rows, functionids) && item in ItemOrder(rows, functionids)[key]
        ensures exists j :: 0 <= j < |rows| && functionids[rows[j].functionid].key == key && rows[j].itemid == item
      {
        var prev := ItemOrder(init, functionids);
        if key in prev && item in prev[key] {
          var j :| 0 <= j < |init| && functionids[init[j].functionid].key == key && init[j].itemid == item;
          assert rows[j] == init[j];
        } else {
          assert functionids[rows[n].functionid].key == key && rows[n].itemid == item;
        }
      }
    }
  }

  // ---------------------------------------------------------------------
  // Sorting the items

  /** The number of an item in an order; an item without one counts as 0, as PHP's null does in a subtraction. */
  function Rank(order: map<string, nat>, item: string): nat
  {
    if item in order then order[item] else 0
  }

  predicate Ascending(s: seq<string>, order: map<string, nat>)
  {
    forall i, j :: 0 <= i < j < |s| ==> Rank(order, s[i]) <= Rank(order, s[j])
  }

  /** Inserts `x` before the first element that does not rank below it. */
  function Insert(x: string, s: seq<string>, order: map<string, nat>): (r: seq<string>)
    ensures multiset(r) == multiset(s) + multiset{x}
  {
    if s == [] then [x]
    else if Rank(order, x) <= Rank(order, s[0]) then [x] + s
    else
      assert s == [s[0]] + s[1..];
      [s[0]] + Insert(x, s[1..], order)
  }

  /** uasort by the rank: a stable insertion sort. */
  function SortByRank(s: seq<string>, order: map<string, nat>): (r: seq<string>)
    ensures multiset(r) == multiset(s)
  {
    if s == [] then []
    else
      assert s == [s[0]] + s[1..];
      Insert(s[0], SortByRank(s[1..], order), order)
  }

  lemma {:induction false} InsertAscending(x: string, s: seq<string>, order: map<string, nat>)
    requires Ascending(s, order)
    ensures Ascending(Insert(x, s, order), order)
    decreases |s|
  {
    if s != [] && Rank(order, x) > Rank(order, s[0]) {
      var rest := s[1..];
      assert Ascending(rest, order) by {
        forall i, j | 0 <= i < j < |rest|
          ensures Rank(order, rest[i]) <= Rank(order, rest[j])
        {
          assert rest[i] == s[i + 1] && rest[j] == s[j + 1];
        }
      }
      InsertAscending(x, rest, order);
      var r := Insert(x, rest, order);
      forall k | 0 <= k < |r|
        ensures Rank(order, s[0]) <= Rank(order, r[k])
      {
        assert r[k] in multiset(r);
        if r[k] != x {
          assert r[k] in multiset(rest);
          var m :| 0 <= m < |rest| && rest[m] == r[k];
          assert rest[m] == s[m + 1];
        }
      }
    }
  }

  /** The sorted items are in ascending order of rank. */
  lemma {:induction false} SortByRankAscending(s: seq<string>, order: map<string, nat>)
    ensures Ascending(SortByRank(s, order), order)
    decreases |s|
  {
    if s != [] {
      SortByRankAscending(s[1..], order);
      InsertAscending(s[0], SortByRank(s[1..], order), order);
    }
  }

  /** Items of equal rank keep their order: with no order at all, nothing moves. */
  lemma {:induction false} SortWithoutOrder(s: seq<string>)
    ensures SortByRank(s, map[]) == s
    decreases |s|
  {
    if s != [] {
      SortWithoutOrder(s[1..]);
      if s[1..] != [] {
        assert Rank(map[], s[0]) <= Rank(map[], s[1..][0]);
      }
    }
  }

  // ---------------------------------------------------------------------
  // sortItemsByExpressionOrder

  /** The item order of the trigger at `key`; a trigger without one has every item at 0. */
  function OrderOf(itemOrder: map<nat, map<string, nat>>, key: nat): map<string, nat>
  {
    if key in itemOrder then itemOrder[key] else map[]
  }

  /** `after` is `before` with its items ordered by `order`; a trigger with fewer than two items is untouched. */
  predicate SortedTrigger(before: Trigger, after: Trigger, order: map<string, nat>)
  {
    after.functionids == before.functionids
    && multiset(after.items) == multiset(before.items)
    && Ascending(after.items, order)
    && (|before.items| < 2 ==> after == before)
  }

  /**
   * Numbers the functions of every trigger with at least two items, reads
   * the item of each numbered function (`rows`, in the order the database
   * returns them) and sorts each such trigger's items by the number of their
   * first row.
   */
  method SortItemsByExpressionOrder(triggers: seq<Trigger>, rows: seq<FunctionRow>) returns (result: seq<Trigger>)
    requires forall r :: r in rows ==> r.functionid in Numbering(triggers)
    ensures |result| == |triggers|
    ensures forall k :: 0 <= k < |triggers| ==>
              SortedTrigger(triggers[k], result[k], OrderOf(ItemOrder(rows, Numbering(triggers)), k))
  {
    var functionids := NumberFunctions(triggers);
    if functionids == map[] {
      NoFunctionsUnsorted(triggers, rows);
      return triggers;
    }
    var itemOrder := ItemOrders(rows, functionids);
    result := SortTriggers(triggers, itemOrder);
  }

  /** The uasort loop: every trigger with at least two items has them sorted by its order. */
  method SortTriggers(triggers: seq<Trigger>, itemOrder: map<nat, map<string, nat>>) returns (result: seq<Trigger>)
    ensures |result| == |triggers|
    ensures forall k :: 0 <= k < |triggers| ==> SortedTrigger(triggers[k], result[k], OrderOf(itemOrder, k))
  {
    result := [];
    for k := 0 to |triggers|
      invariant SortedAll(triggers[..k], result, itemOrder)
    {
      var trigger := triggers[k];
      var order := OrderOf(itemOrder, k);
      if |trigger.items| > 1 {
        trigger := Trigger(trigger.functionids, SortByRank(trigger.items, order));
      }
      SortedAllStep(triggers, k, result, itemOrder, trigger);
      result := result + [trigger];
    }
    assert triggers[..|triggers|] == triggers;
    SortedAllMeaning(triggers, result, itemOrder);
  }

  /** Each trigger of `after` is the one of `before` at the same index, sorted by that index's order. */
  predicate SortedAll(before: seq<Trigger>, after: seq<Trigger>, itemOrder: map<nat, map<string, nat>>)
  {
    |before| == |after|
    && (before != [] ==>
          var n := |before| - 1;
          SortedAll(before[..n], after[..n], itemOrder) && SortedTrigger(before[n], after[n], OrderOf(itemOrder, n)))
  }

  lemma SortedAllStep(triggers: seq<Trigger>, k: nat, result: seq<Trigger>, itemOrder: map<nat, map<string, nat>>, t: Trigger)
    requires k < |triggers| && SortedAll(triggers[..k], result, itemOrder)
    requires |triggers[k].items| > 1 ==> t == Trigger(triggers[k].functionids, SortByRank(triggers[k].items, OrderOf(itemOrder, k)))
    requires |triggers[k].items| <= 1 ==> t == triggers[k]
    ensures SortedAll(triggers[..k + 1], result + [t], itemOrder)
  {
    SortStep(triggers[k], t, OrderOf(itemOrder, k));
    SortedAllAppend(triggers[..k], result, itemOrder, triggers[k], t);
    assert triggers[..k + 1] == triggers[..k] + [triggers[k]];
  }

  lemma SortedAllAppend(before: seq<Trigger>, after: seq<Trigger>, itemOrder: map<nat, map<string, nat>>, t: Trigger, u: Trigger)
    requires SortedAll(before, after, itemOrder)
    requires SortedTrigger(t, u, OrderOf(itemOrder, |before|))
    ensures SortedAll(before + [t], after + [u], itemOrder)
  {
    assert (before + [t])[..|before|] == before && (after + [u])[..|after|] == after;
  }

  lemma {:induction false} SortedAllMeaning(before: seq<Trigger>, after: seq<Trigger>, itemOrder: map<nat, map<string, nat>>)
    requires SortedAll(before, after, itemOrder)
    ensures |after| == |before|
    ensures forall k :: 0 <= k < |before| ==> SortedTrigger(before[k], after[k], OrderOf(itemOrder, k))
    decreases |before|
  {
    if before != [] {
      var n := |before| - 1;
      SortedAllMeaning(before[..n], after[..n], itemOrder);
      forall k | 0 <= k < n
        ensures before[k] == before[..n][k] && after[k] == after[..n][k]
      {
      }
    }
  }

  lemma SortStep(before: Trigger, after: Trigger, order: map<string, nat>)
    requires |before.items| > 1 ==> after == Trigger(before.functionids, SortByRank(before.items, order))
    requires |before.items| <= 1 ==> after == before
    ensures SortedTrigger(before, after, order)
  {
    if |before.items| > 1 {
      SortByRankAscending(before.items, order);
    }
  }

  /** Without numbered functions no row is read, and every trigger is already in order. */
  lemma NoFunctionsUnsorted(triggers: seq<Trigger>, rows: seq<FunctionRow>)
    requires Numbering(triggers) == map[]
    requires forall r :: r in rows ==> r.functionid in Numbering(triggers)
    ensures forall k :: 0 <= k < |triggers| ==>
              SortedTrigger(triggers[k], triggers[k], OrderOf(ItemOrder(rows, Numbering(triggers)), k))
  {
    if rows == [] {
      forall k | 0 <= k < |triggers|
        ensures SortedTrigger(triggers[k], triggers[k], map[])
      {
        SortWithoutOrder(triggers[k].items);
        SortByRankAscending(triggers[k].items, map[]);
      }
    }
  }

  // ---------------------------------------------------------------------
  // extractItemTestMacros

  /** A preprocessing step: its parameters and its error handler parameters. */
  datatype Step = Step(params: string, errorHandlerParams: string)

  /** The non-empty parameters of one step. */
  function TextsOf(step: Step): seq<string>
  {
    (if step.params != [] then [step.params] else [])
    + (if step.errorHandlerParams != [] then [step.errorHandlerParams] else [])
  }

  /** The non-empty parameters of the steps, in order. */
  function StepTexts(steps: seq<Step>): seq<string>
  {
    if steps == [] then [] else StepTexts(steps[..|steps| - 1]) + TextsOf(steps[|steps| - 1])
  }

  /** `t` is a non-empty parameter of `step`. */
  predicate UsedBy(step: Step, t: string)
  {
    t != [] && (step.params == t || step.errorHandlerParams == t)
  }

  /** A text is scanned exactly when it is a non-empty parameter of some step. */
  lemma {:induction false} StepTextsMeaning(steps: seq<Step>, t: string)
    ensures t in StepTexts(steps) <==> exists i :: 0 <= i < |steps| && UsedBy(steps[i], t)
    decreases |steps|
  {
    if steps != [] {
      var n := |steps| - 1;
      var init, last := steps[..n], steps[n];
      var a, b := StepTexts(init), TextsOf(last);
      assert StepTexts(steps) == a + b;
      assert (t in a + b) == (t in a || t in b);
      assert t in b <==> UsedBy(last, t);
      assert t in a <==> exists i :: 0 <= i < |init| && UsedBy(init[i], t) by {
        StepTextsMeaning(init, t);
      }
      UsedBySplit(steps, t);
    }
  }

  /** A step of `steps` uses `t` exactly when one of all but the last does, or the last one does. */
  lemma UsedBySplit(steps: seq<Step>, t: string)
    requires steps != []
    ensures var n := |steps| - 1;
      (exists i :: 0 <= i < |steps| && UsedBy(steps[i], t)) <==>
      (exists i :: 0 <= i < |steps[..n]| && UsedBy(steps[..n][i], t)) || UsedBy(steps[n], t)
  {
    var n := |steps| - 1;
    var init := steps[..n];
    if exists i :: 0 <= i < |steps| && UsedBy(steps[i], t) {
      var i :| 0 <= i < |steps| && UsedBy(steps[i], t);
      if i < n {
        assert UsedBy(init[i], t);
      }
    }
    if exists i :: 0 <= i < |init| && UsedBy(init[i], t) {
      var i :| 0 <= i < |init| && UsedBy(init[i], t);
      assert UsedBy(steps[i], t);
    }
  }

  /** The texts scanned for user and LLD macros: the step texts, then the delay unless empty or already there. */
  function ScanTexts(steps: seq<Step>, delay: string): seq<string>
  {
    if delay != [] && delay !in StepTexts(steps) then StepTexts(steps) + [delay] else StepTexts(steps)
  }

  /** What the item test knows besides the steps and the delay. */
  datatype TestData = TestData(
    supportedValues: map<string, string>,          // the supported macros found, with their values
    userTexts: seq<string>,                        // further texts that may hold user macros
    lldTexts: seq<string>,                         // further texts that may hold LLD macros
    supportLld: bool,
    userMacrosIn: seq<string> -> map<string, string>,  // user macros found in texts, with their effective values
    lldMacrosIn: seq<string> -> set<string>)           // LLD macros found in texts

  /** The user macros found, or none when there is no text to scan. */
  function UserMacros(data: TestData, texts: seq<string>): map<string, string>
  {
    var all := texts + data.userTexts;
    if all != [] then data.userMacrosIn(all) else map[]
  }

  /** The LLD macros found, or none when LLD macros are not supported or there is no text to scan. */
  function LldMacros(data: TestData, texts: seq<string>): set<string>
  {
    var all := if data.supportLld then texts + data.lldTexts else [];
    if all != [] then data.lldMacrosIn(all) else {}
  }

  /**
   * Every macro found with its value, before the delay is looked at: an LLD
   * macro stands for itself and wins over a user macro, which wins over a
   * supported macro.
   */
  function Found(data: TestData, texts: seq<string>): (r: map<string, string>)
    ensures r.Keys == data.supportedValues.Keys + UserMacros(data, texts).Keys + LldMacros(data, texts)
    ensures forall m :: m in LldMacros(data, texts) ==> r[m] == m
    ensures forall m :: m !in LldMacros(data, texts) && m in UserMacros(data, texts) ==> r[m] == UserMacros(data, texts)[m]
    ensures forall m :: m !in LldMacros(data, texts) && m !in UserMacros(data, texts) && m in data.supportedValues ==>
              r[m] == data.supportedValues[m]
  {
    data.supportedValues + UserMacros(data, texts) + map m | m in LldMacros(data, texts) :: m
  }

  /** The result: the update interval to test with, and the macros with their values. */
  datatype TestMacros = TestMacros(delay: string, macros: map<string, string>)

  /**
   * When the delay is itself a macro that was found, the interval becomes its
   * value, and the macro is dropped from the list unless it is in `dual`
   * use (a preprocessing step has it too).
   */
  function ApplyDelay(found: map<string, string>, delay: string, dual: bool): (r: TestMacros)
    ensures delay in found ==> r.delay == found[delay]
    ensures delay !in found ==> r.delay == delay
    ensures forall m :: m != delay ==> (m in r.macros <==> m in found)
    ensures forall m :: m != delay && m in r.macros ==> r.macros[m] == found[m]
    ensures delay in r.macros <==> delay in found && dual
  {
    if delay !in found then TestMacros(delay, found)
    else if dual then TestMacros(found[delay], found)
    else TestMacros(found[delay], found - {delay})
  }

  method CollectStepTexts(steps: seq<Step>) returns (texts: seq<string>)
    ensures texts == StepTexts(steps)
  {
    texts := [];
    for i := 0 to |steps|
      invariant texts == StepTexts(steps[..i])
    {
      assert steps[..i + 1][..i] == steps[..i];
      ghost var before := texts;
      if steps[i].params != [] {
        texts := texts + [steps[i].params];
      }
      if steps[i].errorHandlerParams != [] {
        texts := texts + [steps[i].errorHandlerParams];
      }
      assert texts == before + TextsOf(steps[i]);
    }
    assert steps[..|steps|] == steps;
  }

  /** The macros of an item test: the found macros, with the delay macro applied as ApplyDelay says. */
  method ExtractItemTestMacros(steps: seq<Step>, delay: string, data: TestData) returns (r: TestMacros)
    ensures r == ApplyDelay(Found(data, ScanTexts(steps, delay)), delay, delay != [] && delay in StepTexts(steps))
  {
    var texts := CollectStepTexts(steps);
    var dual := false;
    if delay != [] {
      if delay in texts {
        dual := true;
      } else {
        texts := texts + [delay];
      }
    }

    var macros := data.supportedValues;
    var userTexts := texts + data.userTexts;
    var userMacros := if userTexts != [] then data.userMacrosIn(userTexts) else map[];
    macros := macros + userMacros;
    var lldTexts := if data.supportLld then texts + data.lldTexts else [];
    var lldMacros := if lldTexts != [] then data.lldMacrosIn(lldTexts) else {};
    macros := macros + map m | m in lldMacros :: m;

    var newDelay := delay;
    if delay in macros {
      newDelay := macros[delay];
      if !dual {
        macros := macros - {delay};
      }
    }
    r := TestMacros(newDelay, macros);
  }
}
