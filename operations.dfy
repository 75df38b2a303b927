/**
 Operations of a path entry and the operation-id rename rule of mixin.go: an
 operation whose id is already taken gets "Mixin" and the mixin's index
 appended, and every resulting id is added to the running id set.
 */
module Operations {
  import opened OpenApi

  /** appendOp: add `op` to `ops` unless it is nil. */
  function AppendOp(ops: seq<Operation>, op: Option<Operation>): (r: seq<Operation>)
    ensures op.None? ==> r == ops
    ensures op.Some? ==> |r| == |ops| + 1 && r[..|ops|] == ops && r[|ops|] == op.value
  {
    if op.None? then ops else ops + [op.value]
  }

  /** pathItemOps: the non-nil operations of a path entry, in the order
      Get, Put, Post, Delete, Head, Patch. */
  function PathItemOps(p: PathItem): seq<Operation>
  {
    var rv := AppendOp([], p.get);
    var rv := AppendOp(rv, p.put);
    var rv := AppendOp(rv, p.post);
    var rv := AppendOp(rv, p.delete);
    var rv := AppendOp(rv, p.head);
    AppendOp(rv, p.patch)
  }

  /** The six slots of a path entry, in verb order. */
  function Slots(p: PathItem): (r: seq<Option<Operation>>)
    ensures |r| == 6
  {
    [p.get, p.put, p.post, p.delete, p.head, p.patch]
  }

  function Slot(p: PathItem, i: nat): Option<Operation>
    requires i < 6
  {
    Slots(p)[i]
  }

  /** The path entry with slot `i` replaced by `o`. */
  function WithSlot(p: PathItem, i: nat, o: Option<Operation>): (r: PathItem)
    requires i < 6
    ensures Slot(r, i) == o
    ensures forall j :: 0 <= j < 6 && j != i ==> Slot(r, j) == Slot(p, j)
  {
    match i
    case 0 => p.(get := o)
    case 1 => p.(put := o)
    case 2 => p.(post := o)
    case 3 => p.(delete := o)
    case 4 => p.(head := o)
    case 5 => p.(patch := o)
  }

  /** The operations present in `slots`, in order (an independent reference
      definition of pathItemOps). */
  function Present(slots: seq<Option<Operation>>): seq<Operation>
  {
    if slots == [] then []
    else Present(slots[..|slots| - 1]) + (if slots[|slots| - 1].Some? then [slots[|slots| - 1].value] else [])
  }

  /** pathItemOps returns exactly the present operations, in verb order. */
  lemma PathItemOpsArePresent(p: PathItem)
    ensures PathItemOps(p) == Present(Slots(p))
    ensures |PathItemOps(p)| <= 6
    ensures forall op :: op in PathItemOps(p) <==> Some(op) in Slots(p)
  {
    var s := Slots(p);
    PresentSnoc([], p.get);
    PresentSnoc([p.get], p.put);
    PresentSnoc([p.get, p.put], p.post);
    PresentSnoc([p.get, p.put, p.post], p.delete);
    PresentSnoc([p.get, p.put, p.post, p.delete], p.head);
    PresentSnoc([p.get, p.put, p.post, p.delete, p.head], p.patch);
    assert [] + [p.get] == [p.get];
    assert [p.get] + [p.put] == [p.get, p.put];
    assert [p.get, p.put] + [p.post] == [p.get, p.put, p.post];
    assert [p.get, p.put, p.post] + [p.delete] == [p.get, p.put, p.post, p.delete];
    assert [p.get, p.put, p.post, p.delete] + [p.head] == [p.get, p.put, p.post, p.delete, p.head];
    assert [p.get, p.put, p.post, p.delete, p.head] + [p.patch] == s;
    PresentMembers(s);
  }

  lemma PresentSnoc(slots: seq<Option<Operation>>, o: Option<Operation>)
    ensures Present(slots + [o]) == AppendOp(Present(slots), o)
  {
    assert (slots + [o])[..|slots|] == slots;
  }

  lemma {:induction false} PresentMembers(slots: seq<Option<Operation>>)
    ensures |Present(slots)| <= |slots|
    ensures forall op :: op in Present(slots) <==> Some(op) in slots
  {
    if slots != [] {
      PresentMembers(slots[..|slots| - 1]);
      assert slots == slots[..|slots| - 1] + [slots[|slots| - 1]];
    }
  }

  /** The ids of a list of operations. */
  function IdsOf(ops: seq<Operation>): (r: seq<string>)
    ensures |r| == |ops| && forall i :: 0 <= i < |ops| ==> r[i] == ops[i].id
  {
    if ops == [] then [] else IdsOf(ops[..|ops| - 1]) + [ops[|ops| - 1].id]
  }


  /** The ids of the operations in the first `n` slots. */
  function SlotIds(p: PathItem, n: nat): seq<string>
    requires n <= 6
  {
    if n == 0 then []
    else SlotIds(p, n - 1) + (if Slot(p, n - 1).Some? then [Slot(p, n - 1).value.id] else [])
  }

  lemma {:induction false} IdsOfPresent(slots: seq<Option<Operation>>, p: PathItem, n: nat)
    requires n <= 6 && slots == Slots(p)[..n]
    ensures IdsOf(Present(slots)) == SlotIds(p, n)
  {
    if n > 0 {
      assert slots[..n - 1] == Slots(p)[..n - 1];
      IdsOfPresent(slots[..n - 1], p, n - 1);
      var ops := Present(slots);
      var init := Present(slots[..n - 1]);
      if Slot(p, n - 1).Some? {
        assert ops == init + [Slot(p, n - 1).value];
        assert ops[..|ops| - 1] == init;
      } else {
        assert ops == init;
      }
    }
  }

  /** The operation ids of a path entry, in verb order. */
  function ItemIds(p: PathItem): seq<string>
  {
    SlotIds(p, 6)
  }

  /** They are the ids of the operations pathItemOps lists. */
  lemma ItemIdsAreOpIds(p: PathItem)
    ensures ItemIds(p) == IdsOf(PathItemOps(p))
  {
    PathItemOpsArePresent(p);
    assert Slots(p)[..6] == Slots(p);
    IdsOfPresent(Slots(p), p, 6);
  }

  /** An id is among a path entry's ids exactly when one of the operations
      pathItemOps lists carries it. */
  lemma ItemIdsMembers(p: PathItem, id: string)
    ensures id in ItemIds(p) <==> exists op :: op in PathItemOps(p) && op.id == id
  {
    ItemIdsAreOpIds(p);
    var ops := PathItemOps(p);
    if id in ItemIds(p) {
      var i :| 0 <= i < |IdsOf(ops)| && IdsOf(ops)[i] == id;
      assert ops[i] in ops;
    }
    if exists op :: op in ops && op.id == id {
      var op :| op in ops && op.id == id;
      var i :| 0 <= i < |ops| && ops[i] == op;
      assert IdsOf(ops)[i] == id;
    }
  }

  lemma {:induction false} SlotIdsFrame(p: PathItem, q: PathItem, n: nat)
    requires n <= 6
    requires forall j :: 0 <= j < n ==> Slot(p, j) == Slot(q, j)
    ensures SlotIds(p, n) == SlotIds(q, n)
  {
    if n > 0 {
      SlotIdsFrame(p, q, n - 1);
    }
  }

  /** Decimal digits of a natural number, as `%v` prints it. */
  function DecimalDigits(n: nat): (r: string)
    ensures |r| > 0
    ensures forall c :: c in r ==> '0' <= c <= '9'
  {
    var d := ['0', '1', '2', '3', '4', '5', '6', '7', '8', '9'][n % 10];
    if n < 10 then [d] else DecimalDigits(n / 10) + [d]
  }

  /** The text appended to a colliding operation id by the mixin at `mixIndex`. */
  function Suffix(mixIndex: nat): (r: string)
    ensures |r| > 5 && r[..5] == "Mixin"
  {
    "Mixin" + DecimalDigits(mixIndex)
  }

  /** The id an operation ends up with, given the ids taken so far. */
  function RenamedId(id: string, taken: set<string>, suffix: string): string
  {
    if id in taken then id + suffix else id
  }

  /** The path entry and the running id set after the first `n` slots have
      been visited (the loop over pathItemOps in mergePaths). */
  function RenameUpTo(v: PathItem, ids: set<string>, suffix: string, n: nat): (PathItem, set<string>)
    requires n <= 6
  {
    if n == 0 then (v, ids)
    else
      var prev := RenameUpTo(v, ids, suffix, n - 1);
      match Slot(prev.0, n - 1)
      case None => prev
      case Some(op) =>
        var id := RenamedId(op.id, prev.1, suffix);
        (WithSlot(prev.0, n - 1, Some(op.(id := id))), prev.1 + {id})
  }

  /** A rename lands on an id that is already taken: the case mergePaths does
      not re-check. */
  predicate RenameClash(v: PathItem, ids: set<string>, suffix: string, n: nat)
    requires n <= 6
  {
    n > 0 &&
    (RenameClash(v, ids, suffix, n - 1) ||
      var prev := RenameUpTo(v, ids, suffix, n - 1);
      Slot(v, n - 1).Some? && Slot(v, n - 1).value.id in prev.1 && Slot(v, n - 1).value.id + suffix in prev.1)
  }

  /** The rename rule, slot by slot: slots not yet visited are untouched, a
      visited empty slot stays empty, and a visited operation keeps everything
      but its id, which gets the suffix exactly when it was already taken. */
  lemma {:induction false} RenameRule(v: PathItem, ids: set<string>, suffix: string, n: nat)
    requires n <= 6
    ensures var r := RenameUpTo(v, ids, suffix, n);
      forall i :: 0 <= i < 6 ==>
        if i >= n || Slot(v, i).None? then Slot(r.0, i) == Slot(v, i)
        else Slot(r.0, i) == Some(Slot(v, i).value.(id := RenamedId(Slot(v, i).value.id, RenameUpTo(v, ids, suffix, i).1, suffix)))
  {
    if n > 0 {
      RenameRule(v, ids, suffix, n - 1);
    }
  }

  /** The id set only grows, and it grows by exactly the final ids of the
      visited slots; in particular every final id is in the set. */
  lemma {:induction false} RenameIds(v: PathItem, ids: set<string>, suffix: string, n: nat)
    requires n <= 6
    ensures var r := RenameUpTo(v, ids, suffix, n);
      ids <= r.1 && r.1 == ids + Elems(SlotIds(r.0, n))
  {
    if n > 0 {
      RenameIds(v, ids, suffix, n - 1);
      RenameRule(v, ids, suffix, n - 1);
      var prev := RenameUpTo(v, ids, suffix, n - 1);
      var r := RenameUpTo(v, ids, suffix, n);
      SlotIdsFrame(prev.0, r.0, n - 1);
      assert Slot(prev.0, n - 1) == Slot(v, n - 1);
    }
  }

  /** When no rename clashes, the final ids of the visited slots are fresh
      (not in the initial set) and pairwise distinct. */
  lemma {:induction false} RenameFresh(v: PathItem, ids: set<string>, suffix: string, n: nat)
    requires n <= 6
    requires !RenameClash(v, ids, suffix, n)
    requires |suffix| > 0
    ensures var r := RenameUpTo(v, ids, suffix, n);
      Distinct(SlotIds(r.0, n)) && Elems(SlotIds(r.0, n)) !! ids
  {
    if n > 0 {
      RenameFresh(v, ids, suffix, n - 1);
      RenameIds(v, ids, suffix, n - 1);
      RenameRule(v, ids, suffix, n - 1);
      var prev := RenameUpTo(v, ids, suffix, n - 1);
      var r := RenameUpTo(v, ids, suffix, n);
      SlotIdsFrame(prev.0, r.0, n - 1);
      assert Slot(prev.0, n - 1) == Slot(v, n - 1);
      var before := SlotIds(prev.0, n - 1);
      if Slot(v, n - 1).Some? {
        var op := Slot(v, n - 1).value;
        var id := RenamedId(op.id, prev.1, suffix);
        assert id !in prev.1;
        assert SlotIds(r.0, n) == before + [id];
        assert id !in before;
        forall i, j | 0 <= i < j < |before| + 1 ensures (before + [id])[i] != (before + [id])[j] {
          if j < |before| {
            assert (before + [id])[i] == before[i] && (before + [id])[j] == before[j];
          } else {
            assert (before + [id])[i] == before[i];
          }
        }
      }
    }
  }

  /** The first mixin brings a GET operation "list" while the ids "list" and
      "listMixin0" are both taken: the operation is renamed to "listMixin0",
      an id that is already in use, and the rename is not checked again. */
  lemma RenameClashExample()
    ensures var v := PathItem(Some(Operation("list", Null)), None, None, None, None, None);
      var ids := {"list", "listMixin0"};
      && RenameClash(v, ids, Suffix(0), 6)
      && Slot(RenameUpTo(v, ids, Suffix(0), 6).0, 0) == Some(Operation("listMixin0", Null))
  {
    assert DecimalDigits(0) == "0";
    assert Suffix(0) == "Mixin0";
    assert "list" + Suffix(0) == "listMixin0";
    var v := PathItem(Some(Operation("list", Null)), None, None, None, None, None);
    var ids := {"list", "listMixin0"};
    assert RenameUpTo(v, ids, Suffix(0), 0) == (v, ids);
    assert RenameClash(v, ids, Suffix(0), 1);
    var r1 := RenameUpTo(v, ids, Suffix(0), 1);
    assert Slot(r1.0, 0) == Some(Operation("listMixin0", Null));
    RenameRule(v, ids, Suffix(0), 6);
  }

  /** The rename loop of mergePaths on one path entry. */
  method RenameOperations(v: PathItem, ids: set<string>, mixIndex: nat) returns (w: PathItem, ids': set<string>)
    ensures (w, ids') == RenameUpTo(v, ids, Suffix(mixIndex), 6)
  {
    var suffix := Suffix(mixIndex);
    w, ids' := v, ids;
    for i := 0 to 6
      invariant (w, ids') == RenameUpTo(v, ids, suffix, i)
    {
      var slot := Slot(w, i);
      if slot.Some? {
        var op := slot.value;
        if op.id in ids' {
          op := op.(id := op.id + suffix);
        }
        ids' := ids' + {op.id};
        w := WithSlot(w, i, Some(op));
      }
    }
  }
}
