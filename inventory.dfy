/** The inventory service's stock ledger (`InventoryStore`): a map from item
    id to its record, an all-or-nothing multi-line reservation that locks the
    requested ids in sorted order, and a locked point read. Locks are ghost
    state: `lockTable` is the set of ids the lazily grown lock table has an
    entry for, `held` the ids whose lock the current call holds. */
module InventoryService {
  import opened Wrappers
  import opened KeyOrder

  /** One stock record: the item's display name and the quantity on hand. */
  datatype Item = Item(name: string, quantity: int)

  /** One request line: `{'item_id': …, 'quantity': …}`. */
  datatype Line = Line(itemId: string, quantity: int)

  /** Why a reservation was refused, naming the offending item. */
  datatype Failure = NotFound(itemId: string) | Insufficient(itemId: string)

  /** The reason string returned to the caller. */
  function Message(f: Failure): string
  {
    match f
    case NotFound(id) => "Item " + id + " not found"
    case Insufficient(id) => "Insufficient quantity for " + id
  }

  /** The reason string determines the failure: its kind and the item id
      can be read back from it. */
  lemma MessageIdentifiesFailure(f: Failure, g: Failure)
    requires Message(f) == Message(g)
    ensures f == g
  {
    var m := Message(f);
    assert m[1] == (if f.NotFound? then 't' else 'n');
    assert Message(g)[1] == (if g.NotFound? then 't' else 'n');
    if f.NotFound? {
      assert f.itemId == m[5..|m| - 10];
      assert g.itemId == Message(g)[5..|m| - 10];
    } else {
      assert f.itemId == m[26..];
      assert g.itemId == Message(g)[26..];
    }
  }

  /** Stock every seeded item starts with. */
  const SeedQuantity := 9999999

  /** The four items the store is created with. */
  function Seed(): (inv: map<string, Item>)
    ensures inv.Keys == {"item_001", "item_002", "item_003", "item_004"}
    ensures forall id | id in inv :: inv[id].quantity == SeedQuantity
  {
    map["item_001" := Item("Laptop", SeedQuantity),
        "item_002" := Item("Mouse", SeedQuantity),
        "item_003" := Item("Keyboard", SeedQuantity),
        "item_004" := Item("Monitor", SeedQuantity)]
  }

  ghost predicate NonNegative(inv: map<string, Item>)
  {
    forall id | id in inv :: inv[id].quantity >= 0
  }

  ghost predicate DistinctIds(lines: seq<Line>)
  {
    forall i, j :: 0 <= i < j < |lines| ==> lines[i].itemId != lines[j].itemId
  }

  ghost predicate AllKnown(inv: map<string, Item>, lines: seq<Line>)
  {
    forall i :: 0 <= i < |lines| ==> lines[i].itemId in inv
  }

  function Ids(lines: seq<Line>): (ids: seq<string>)
    ensures |ids| == |lines|
    ensures forall i :: 0 <= i < |lines| ==> ids[i] == lines[i].itemId
  {
    seq(|lines|, i requires 0 <= i < |lines| => lines[i].itemId)
  }

  /** The locks a reservation takes, in the order it takes them:
      `sorted(set(item['item_id'] for item in items))`. */
  function LockOrder(lines: seq<Line>): (order: seq<string>)
    ensures StrictlySorted(order)
    ensures forall id :: id in order <==> exists i :: 0 <= i < |lines| && lines[i].itemId == id
  {
    var ids := Ids(lines);
    assert forall id :: id in ids <==> exists i :: 0 <= i < |lines| && lines[i].itemId == id;
    SortedDistinct(ids)
  }

  /** The check one line gets, against the stock as it was on entry: an
      unknown id fails before the quantity is looked at. */
  function LineFailure(inv: map<string, Item>, l: Line): Option<Failure>
  {
    if l.itemId !in inv then Some(NotFound(l.itemId))
    else if inv[l.itemId].quantity < l.quantity then Some(Insufficient(l.itemId))
    else None
  }

  /** The validation phase: the failure of the first failing line, in request
      order, or None when every line passes. */
  function FirstFailure(inv: map<string, Item>, lines: seq<Line>): Option<Failure>
  {
    if lines == [] then None
    else if LineFailure(inv, lines[0]).Some? then LineFailure(inv, lines[0])
    else FirstFailure(inv, lines[1..])
  }

  ghost predicate FailsFirstAt(inv: map<string, Item>, lines: seq<Line>, k: int)
  {
    && 0 <= k < |lines|
    && LineFailure(inv, lines[k]).Some?
    && forall j :: 0 <= j < k ==> LineFailure(inv, lines[j]) == None
  }

  /** Validation passes exactly when every line names a known item with at
      least the requested quantity in stock. */
  lemma {:induction false} FirstFailureNoneIffAllPass(inv: map<string, Item>, lines: seq<Line>)
    ensures FirstFailure(inv, lines) == None <==>
      forall k :: 0 <= k < |lines| ==>
        lines[k].itemId in inv && inv[lines[k].itemId].quantity >= lines[k].quantity
  {
    if lines != [] {
      FirstFailureNoneIffAllPass(inv, lines[1..]);
      assert forall k :: 1 <= k < |lines| ==> lines[k] == lines[1..][k - 1];
    }
  }

  /** A refusal reports the first failing line in request order, and that
      line's own failure (not found before insufficient). */
  lemma {:induction false} FirstFailureIsFirstFailingLine(inv: map<string, Item>, lines: seq<Line>, k: int)
    requires FailsFirstAt(inv, lines, k)
    ensures FirstFailure(inv, lines) == LineFailure(inv, lines[k])
  {
    if k > 0 {
      assert FailsFirstAt(inv, lines[1..], k - 1) by {
        forall j | 0 <= j < k - 1 ensures LineFailure(inv, lines[1..][j]) == None {
          assert lines[1..][j] == lines[j + 1];
        }
      }
      FirstFailureIsFirstFailingLine(inv, lines[1..], k - 1);
    }
  }

  /** Conversely, every refusal comes from some first failing line. */
  lemma {:induction false} FirstFailureHasWitness(inv: map<string, Item>, lines: seq<Line>)
    requires FirstFailure(inv, lines).Some?
    ensures exists k :: FailsFirstAt(inv, lines, k)
  {
    if LineFailure(inv, lines[0]).Some? {
      assert FailsFirstAt(inv, lines, 0);
    } else {
      FirstFailureHasWitness(inv, lines[1..]);
      var k :| FailsFirstAt(inv, lines[1..], k);
      assert FailsFirstAt(inv, lines, k + 1) by {
        forall j | 0 <= j < k + 1 ensures LineFailure(inv, lines[j]) == None {
          if j > 0 { assert lines[j] == lines[1..][j - 1]; }
        }
      }
    }
  }

  /** Total quantity the lines request of item `id`. */
  function Demand(lines: seq<Line>, id: string): int
  {
    if lines == [] then 0
    else
      var last := lines[|lines| - 1];
      Demand(lines[..|lines| - 1], id) + (if last.itemId == id then last.quantity else 0)
  }

  lemma {:induction false} DemandOfUnrequested(lines: seq<Line>, id: string)
    requires forall i :: 0 <= i < |lines| ==> lines[i].itemId != id
    ensures Demand(lines, id) == 0
  {
    if lines != [] {
      DemandOfUnrequested(lines[..|lines| - 1], id);
    }
  }

  /** Without repeated ids, an item's demand is the quantity of its one line. */
  lemma {:induction false} DemandOfDistinct(lines: seq<Line>, k: int)
    requires DistinctIds(lines) && 0 <= k < |lines|
    ensures Demand(lines, lines[k].itemId) == lines[k].quantity
  {
    var init := lines[..|lines| - 1];
    if k == |lines| - 1 {
      DemandOfUnrequested(init, lines[k].itemId);
    } else {
      DemandOfDistinct(init, k);
    }
  }

  /** The reserve phase: every line is subtracted from its item, in request
      order. */
  function Debit(inv: map<string, Item>, lines: seq<Line>): (r: map<string, Item>)
    requires AllKnown(inv, lines)
    ensures r.Keys == inv.Keys
  {
    if lines == [] then inv
    else
      var prev := Debit(inv, lines[..|lines| - 1]);
      var l := lines[|lines| - 1];
      prev[l.itemId := prev[l.itemId].(quantity := prev[l.itemId].quantity - l.quantity)]
  }

  /** After the reserve phase each item holds its old quantity minus its total
      demand; names, the set of items and every unrequested item are
      untouched. */
  lemma {:induction false} DebitSubtractsDemand(inv: map<string, Item>, lines: seq<Line>)
    requires AllKnown(inv, lines)
    ensures Debit(inv, lines).Keys == inv.Keys
    ensures forall id | id in inv ::
      Debit(inv, lines)[id] == inv[id].(quantity := inv[id].quantity - Demand(lines, id))
  {
    if lines != [] {
      DebitSubtractsDemand(inv, lines[..|lines| - 1]);
    }
  }

  /** Subtracting one more line, the `j`-th, from the debited prefix. */
  lemma DebitStep(inv: map<string, Item>, lines: seq<Line>, j: int)
    requires AllKnown(inv, lines) && 0 <= j < |lines|
    ensures AllKnown(inv, lines[..j]) && AllKnown(inv, lines[..j + 1])
    ensures lines[j].itemId in Debit(inv, lines[..j])
    ensures var prev, l := Debit(inv, lines[..j]), lines[j];
      Debit(inv, lines[..j + 1]) == prev[l.itemId := prev[l.itemId].(quantity := prev[l.itemId].quantity - l.quantity)]
  {
    assert lines[..j + 1][..j] == lines[..j];
    DebitSubtractsDemand(inv, lines[..j]);
  }

  /** With distinct item ids, a reservation that passes validation leaves no
      stock negative. */
  lemma ReserveKeepsStockNonNegative(inv: map<string, Item>, lines: seq<Line>)
    requires NonNegative(inv) && DistinctIds(lines)
    requires FirstFailure(inv, lines) == None
    ensures AllKnown(inv, lines)
    ensures NonNegative(Debit(inv, lines))
  {
    FirstFailureNoneIffAllPass(inv, lines);
    DebitSubtractsDemand(inv, lines);
    var r := Debit(inv, lines);
    forall id | id in r ensures r[id].quantity >= 0 {
      if k :| 0 <= k < |lines| && lines[k].itemId == id {
        DemandOfDistinct(lines, k);
      } else {
        DemandOfUnrequested(lines, id);
      }
    }
  }

  /** With a repeated id the guarantee fails: on the seeded store, two lines
      for `item_001` of 9999999 and 1 each pass validation, since each is
      compared with the full stock, and the item ends at -1. */
  lemma DuplicateIdsCanOverdraw()
    ensures var lines := [Line("item_001", SeedQuantity), Line("item_001", 1)];
      && NonNegative(Seed())
      && FirstFailure(Seed(), lines) == None
      && AllKnown(Seed(), lines)
      && Debit(Seed(), lines)["item_001"].quantity == -1
  {
    var lines := [Line("item_001", SeedQuantity), Line("item_001", 1)];
    var inv := Seed();
    assert LineFailure(inv, lines[0]) == None && LineFailure(inv, lines[1]) == None;
    assert lines[1..][1..] == [];
    assert FirstFailure(inv, lines[1..]) == None;
    assert lines[..1][..0] == [];
    assert Demand(lines[..1], "item_001") == SeedQuantity;
    assert Demand(lines, "item_001") == SeedQuantity + 1;
    DebitSubtractsDemand(inv, lines);
  }

  class InventoryStore {
    var inventory: map<string, Item>
    /** Ids the lock table has created a lock for (it grows on first use). */
    ghost var lockTable: set<string>
    /** Ids whose lock is currently held. */
    ghost var held: set<string>
    /** Every lock acquisition so far, in the order it happened. */
    ghost var log: seq<string>

    /** Between calls no lock is held. */
    ghost predicate Valid()
      reads this
    {
      held == {}
    }

    /** The lock of every line's item is held. */
    ghost predicate HoldsLocksFor(lines: seq<Line>)
      reads this
    {
      forall i :: 0 <= i < |lines| ==> lines[i].itemId in held
    }

    constructor ()
      ensures Valid()
      ensures inventory == Seed() && lockTable == {} && log == []
    {
      inventory := Seed();
      lockTable := {};
      held := {};
      log := [];
    }

    /** Taking a lock is allowed only above every lock already held: this is
        the sorted acquisition discipline, checked at every call. */
    ghost method Acquire(id: string)
      requires id in lockTable
      requires forall h | h in held :: Below(h, id)
      modifies this`held, this`log
      ensures id !in old(held)
      ensures held == old(held) + {id}
      ensures log == old(log) + [id]
    {
      if id in held {
        BelowIrreflexive(id);
      }
      held := held + {id};
      log := log + [id];
    }

    ghost method Release(id: string)
      requires id in held
      modifies this`held
      ensures held == old(held) - {id}
    {
      held := held - {id};
    }

    /** Phase 1: create the locks of `order` and take them one by one, in
        that (sorted) order, as the acquisition log records. */
    ghost method AcquireAll(order: seq<string>)
      requires Valid() && StrictlySorted(order)
      modifies this`lockTable, this`held, this`log
      ensures lockTable == old(lockTable) + set id | id in order
      ensures forall x :: x in held <==> x in order
      ensures log == old(log) + order
    {
      lockTable := lockTable + set id | id in order;
      for i := 0 to |order|
        invariant forall x :: x in held <==> x in order[..i]
        invariant log == old(log) + order[..i]
        invariant lockTable == old(lockTable) + set id | id in order
      {
        forall h | h in held ensures Below(h, order[i]) {
          var k :| 0 <= k < i && order[k] == h;
        }
        Acquire(order[i]);
        assert order[..i + 1] == order[..i] + [order[i]];
      }
      assert order[..|order|] == order;
    }

    /** The `finally` block: release every lock of `order`. */
    ghost method ReleaseAll(order: seq<string>)
      requires StrictlySorted(order)
      requires forall x :: x in held <==> x in order
      modifies this`held
      ensures Valid()
    {
      for j := 0 to |order|
        invariant forall x :: x in held <==> x in order[j..]
      {
        BelowIrreflexive(order[j]);
        assert forall k :: j < k < |order| ==> order[k] != order[j];
        Release(order[j]);
      }
    }

    /** Phase 2: with every line's lock held, check every line against the
        stock as it stands, stopping at the first failing line. */
    method Validate(lines: seq<Line>) returns (failure: Option<Failure>)
      requires HoldsLocksFor(lines)
      ensures failure == FirstFailure(inventory, lines)
    {
      failure := None;
      var i := 0;
      while i < |lines| && failure == None
        invariant 0 <= i <= |lines|
        invariant failure == None ==> FirstFailure(inventory, lines) == FirstFailure(inventory, lines[i..])
        invariant failure != None ==> failure == FirstFailure(inventory, lines)
      {
        var l := lines[i];
        if l.itemId !in inventory {
          failure := Some(NotFound(l.itemId));
        } else if inventory[l.itemId].quantity < l.quantity {
          failure := Some(Insufficient(l.itemId));
        }
        assert lines[i..][1..] == lines[i + 1..];
        i := i + 1;
      }
    }

    /** Phase 3: with every line's lock still held, subtract every line from
        its item, in request order. */
    method ReserveAll(lines: seq<Line>)
      requires HoldsLocksFor(lines) && AllKnown(inventory, lines)
      modifies this`inventory
      ensures inventory == Debit(old(inventory), lines)
    {
      ghost var start := inventory;
      for j := 0 to |lines|
        invariant AllKnown(start, lines[..j])
        invariant inventory == Debit(start, lines[..j])
      {
        var l := lines[j];
        DebitStep(start, lines, j);
        inventory := inventory[l.itemId := inventory[l.itemId].(quantity := inventory[l.itemId].quantity - l.quantity)];
      }
      assert lines[..|lines|] == lines;
    }

    /** `check_and_reserve`: lock the requested ids in sorted order, validate
        every line against the stock on entry, and only if all pass subtract
        every line; release every lock on every path. */
    method CheckAndReserve(lines: seq<Line>) returns (ok: bool, reason: Option<string>)
      requires Valid()
      modifies this`inventory, this`lockTable, this`held, this`log
      ensures Valid()
      ensures log == old(log) + LockOrder(lines)
      ensures lockTable == old(lockTable) + set id | id in LockOrder(lines)
      ensures ok <==> FirstFailure(old(inventory), lines) == None
      ensures !ok ==> reason == Some(Message(FirstFailure(old(inventory), lines).value))
      ensures !ok ==> inventory == old(inventory)
      ensures ok ==> reason == None && AllKnown(old(inventory), lines)
      ensures ok ==> inventory == Debit(old(inventory), lines)
    {
      var order := LockOrder(lines);
      AcquireAll(order);
      assert HoldsLocksFor(lines) by {
        forall i | 0 <= i < |lines| ensures lines[i].itemId in order {
          assert exists j :: 0 <= j < |lines| && lines[j].itemId == lines[i].itemId;
        }
      }
      var failure := Validate(lines);
      if failure == None {
        FirstFailureNoneIffAllPass(inventory, lines);
        ReserveAll(lines);
        ok, reason := true, None;
      } else {
        ok, reason := false, Some(Message(failure.value));
      }
      ReleaseAll(order);
    }

    /** The read `get_quantity` makes while holding the item's lock: the
        stored quantity, or 0 for an unknown id. */
    method ReadQuantity(itemId: string) returns (q: int)
      requires itemId in held
      ensures q == if itemId in inventory then inventory[itemId].quantity else 0
    {
      q := if itemId in inventory then inventory[itemId].quantity else 0;
    }

    /** `get_quantity`: take the item's lock, read, release. The map is not
        changed; the id gains a lock table entry and one acquisition. */
    method GetQuantity(itemId: string) returns (q: int)
      requires Valid()
      modifies this`lockTable, this`held, this`log
      ensures Valid()
      ensures lockTable == old(lockTable) + {itemId} && log == old(log) + [itemId]
      ensures q == if itemId in inventory then inventory[itemId].quantity else 0
    {
      lockTable := lockTable + {itemId};
      Acquire(itemId);
      q := ReadQuantity(itemId);
      Release(itemId);
    }
  }
}
