/**
 The string dictionary: parallel arrays of keys, values and cached hashes
 (src/config_parser/dictionary.cpp).  It refines a map.
 */
module Dictionary {
  import opened Words
  import opened CText
  import opened IniText

  // ----- The hash -----

  /** `(unsigned)key[i]`: a signed char widened to 32 bits. */
  function Widened(c: char): Word {
    var code := c as int % 0x100;
    if code < 0x80 then code else SIZE - 0x100 + code
  }

  function Plus(a: Word, b: nat): Word { (a + b) % SIZE }

  function HashStep(hash: Word, c: char): Word {
    var h1 := Plus(hash, Widened(c));
    var h2 := Plus(h1, Shl(h1, 10));
    Fold(h2, 6)
  }

  function HashLoop(key: string): Word {
    if key == "" then 0 else HashStep(HashLoop(key[..|key| - 1]), key[|key| - 1])
  }

  function HashOf(key: string): Word {
    var h1 := HashLoop(key);
    var h2 := Fold(Plus(h1, Shl(h1, 3)), 11);
    Plus(h2, Shl(h2, 15))
  }

  method DictionaryHash(key: string) returns (hash: Word)
    ensures hash == HashOf(key)
  {
    hash := 0;
    for i := 0 to |key|
      invariant hash == HashLoop(key[..i])
    {
      assert key[..i + 1][..i] == key[..i];
      hash := HashStep(hash, key[i]);
    }
    assert key[..|key|] == key;
    hash := Fold(Plus(hash, Shl(hash, 3)), 11);
    hash := Plus(hash, Shl(hash, 15));
  }

  // ----- Slots and the map they represent -----

  function Occupied(slots: seq<Slot>): nat {
    if slots == [] then 0
    else Occupied(slots[..|slots| - 1]) + if slots[|slots| - 1].Some? then 1 else 0
  }

  lemma {:induction false} OccupiedUpdate(slots: seq<Slot>, i: nat, slot: Slot)
    requires i < |slots|
    ensures Occupied(slots[i := slot])
         == Occupied(slots) - (if slots[i].Some? then 1 else 0) + (if slot.Some? then 1 else 0)
    decreases |slots|
  {
    var n := |slots| - 1;
    if i < n {
      OccupiedUpdate(slots[..n], i, slot);
      assert slots[i := slot][..n] == slots[..n][i := slot];
    } else {
      assert slots[i := slot][..n] == slots[..n];
    }
  }

  lemma {:induction false} OccupiedWithFree(slots: seq<Slot>, n: nat)
    ensures Occupied(slots + Free(n)) == Occupied(slots)
  {
    if n == 0 {
      assert slots + Free(n) == slots;
    } else {
      OccupiedWithFree(slots, n - 1);
      assert (slots + Free(n))[..|slots| + n - 1] == slots + Free(n - 1);
    }
  }

  function Free(n: nat): seq<Slot> {
    seq(n, _ => None)
  }

  /** While the count is below the size, some slot is free. */
  lemma {:induction false} SomeSlotFree(slots: seq<Slot>) returns (i: nat)
    requires Occupied(slots) < |slots|
    ensures i < |slots| && slots[i] == None
    decreases |slots|
  {
    var n := |slots| - 1;
    if slots[n].None? {
      i := n;
    } else {
      i := SomeSlotFree(slots[..n]);
    }
  }

  lemma {:induction false} NoEntryWhenEmpty(slots: seq<Slot>, i: nat)
    requires Occupied(slots) == 0 && i < |slots|
    ensures slots[i] == None
    decreases |slots|
  {
    var n := |slots| - 1;
    if i < n {
      NoEntryWhenEmpty(slots[..n], i);
    }
  }

  /** Storing a pair in the key's own slot, or in a free one, updates the map. */
  lemma StoreInSlot(slots: seq<Slot>, i: nat, k: string, v: Option<string>)
    requires DistinctKeys(slots) && i < |slots|
    requires if slots[i].Some? then slots[i].value.key == k else !HasKey(slots, k)
    ensures var slots' := slots[i := Some(Entry(k, v))];
            && DistinctKeys(slots')
            && Contents(slots') == Contents(slots)[k := v]
  {
    hide Contents;
    var slots' := slots[i := Some(Entry(k, v))];
    ContentsOfSlots(slots);
    assert slots'[i].value.key == k;
    forall k' | k' in Contents(slots) && k' != k
      ensures HasKey(slots', k')
    {
      OtherSlotsKeep(slots, i, slots'[i], k');
    }
    ContentsDetermined(slots', Contents(slots)[k := v]);
  }

  lemma ClearSlot(slots: seq<Slot>, i: nat)
    requires DistinctKeys(slots) && i < |slots| && slots[i].Some?
    ensures var slots' := slots[i := None];
            && DistinctKeys(slots')
            && Contents(slots') == Contents(slots) - {slots[i].value.key}
  {
    hide Contents;
    ContentsOfSlots(slots);
    forall k' | k' in Contents(slots) && k' != slots[i].value.key
      ensures HasKey(slots[i := None], k')
    {
      OtherSlotsKeep(slots, i, None, k');
    }
    ContentsDetermined(slots[i := None], Contents(slots) - {slots[i].value.key});
  }

  lemma OtherSlotsKeep(slots: seq<Slot>, i: nat, slot: Slot, k: string)
    requires i < |slots| && HasKey(slots, k) && (slots[i].Some? ==> slots[i].value.key != k)
    ensures HasKey(slots[i := slot], k)
  {
    var j :| 0 <= j < |slots| && slots[j].Some? && slots[j].value.key == k;
    assert slots[i := slot][j] == slots[j];
  }

  lemma AppendFree(slots: seq<Slot>, n: nat)
    requires DistinctKeys(slots)
    ensures DistinctKeys(slots + Free(n)) && Contents(slots + Free(n)) == Contents(slots)
  {
    hide Contents;
    ContentsOfSlots(slots);
    var grown := slots + Free(n);
    forall k | HasKey(slots, k)
      ensures HasKey(grown, k)
    {
      var j :| 0 <= j < |slots| && slots[j].Some? && slots[j].value.key == k;
      assert grown[j] == slots[j];
    }
    ContentsDetermined(grown, Contents(slots));
  }

  /** A map that holds every occupied slot and no other key is the contents. */
  lemma ContentsDetermined(slots: seq<Slot>, d: Dict)
    requires DistinctKeys(slots)
    requires forall i | 0 <= i < |slots| && slots[i].Some? ::
               slots[i].value.key in d && d[slots[i].value.key] == slots[i].value.val
    requires forall k | k in d :: HasKey(slots, k)
    ensures Contents(slots) == d
  {
    hide Contents;
    ContentsOfSlots(slots);
    var c := Contents(slots);
    forall k | k in c
      ensures k in d && c[k] == d[k]
    {
      var i :| 0 <= i < |slots| && slots[i].Some? && slots[i].value.key == k;
    }
    forall k | k in d
      ensures k in c
    {
      var i :| 0 <= i < |slots| && slots[i].Some? && slots[i].value.key == k;
    }
  }

  const DICTMINSZ: nat := 128

  class Dictionary {
    var n: nat
    var size: nat
    var key: array<Option<string>>
    var val: array<Option<string>>
    var hash: array<Word>

    ghost function Slots(): seq<Slot>
      requires key.Length == val.Length
      reads this, key, val
    {
      seq(key.Length, i requires 0 <= i < key.Length == val.Length reads this, key, val =>
        if key[i].Some? then Some(Entry(key[i].value, val[i])) else None)
    }

    /** Distinct keys, matching hashes, and `n` the number of occupied slots. */
    ghost predicate Valid()
      reads this, key, val, hash
    {
      && size == key.Length == val.Length == hash.Length
      && size > 0 && key != val
      && DistinctKeys(Slots())
      && n == Occupied(Slots())
      && forall i | 0 <= i < size && key[i].Some? :: hash[i] == HashOf(key[i].value)
    }

    ghost function Map(): Dict
      requires key.Length == val.Length
      reads this, key, val
    {
      Contents(Slots())
    }

    constructor (size: nat)
      ensures Valid() && fresh(key) && fresh(val) && fresh(hash)
      ensures Map() == map[] && this.size == if size < 128 then 128 else size
    {
      var m := if size < DICTMINSZ then DICTMINSZ else size;
      this.size := m;
      n := 0;
      key := new Option<string>[m](_ => None);
      val := new Option<string>[m](_ => None);
      hash := new Word[m](_ => 0);
      new;
      assert Slots() == [] + Free(m);
      OccupiedWithFree([], m);
      AppendFree([], m);
      ContentsDetermined([], map[]);
    }

    /** The scan shared by get, set and unset: hashes first, then the strings. */
    method Scan(k: string) returns (i: nat)
      requires Valid()
      ensures i <= size
      ensures i < size ==> Slots()[i].Some? && Slots()[i].value.key == k
      ensures i < size <==> HasKey(Slots(), k)
    {
      hide Contents, HashOf, Occupied, DistinctKeys;
      var h := DictionaryHash(k);
      i := 0;
      while i < size
        invariant i <= size
        invariant forall j | 0 <= j < i :: Slots()[j].None? || Slots()[j].value.key != k
      {
        if key[i].Some? && h == hash[i] && k == key[i].value {
          assert Slots()[i].Some? && Slots()[i].value.key == k;
          return;
        }
        assert Slots()[i].None? || Slots()[i].value.key != k;
        i := i + 1;
      }
    }

    method Get(k: string, def: Option<string>) returns (found: bool, v: Option<string>)
      requires Valid()
      ensures found == (k in Map())
      ensures v == if found then Map()[k] else def
    {
      hide Contents;
      ContentsOfSlots(Slots());
      var i := Scan(k);
      if i < size {
        assert Slots()[i].value.val == val[i];
        return true, val[i];
      }
      return false, def;
    }

    /** The first free slot from `n` on, wrapping at the end. */
    method Probe() returns (i: nat)
      requires Valid() && n < size
      ensures i < size && key[i] == None
    {
      ghost var f := SomeSlotFree(Slots());
      assert key[f] == None;
      i := n;
      while key[i].Some?
        invariant i < size
        decreases if i <= f then f - i else f - i + size
      {
        i := i + 1;
        if i == size { i := 0; }
      }
    }

    /** `mem_double` on the three arrays. */
    method Grow()
      requires Valid()
      modifies this
      ensures Valid() && fresh(key) && fresh(val) && fresh(hash)
      ensures size == 2 * old(size) && n == old(n)
      ensures Slots() == old(Slots()) + Free(old(size))
    {
      ghost var was := Slots();
      var m := 2 * size;
      var key' := new Option<string>[m](i requires i >= 0 reads this, key => if i < key.Length then key[i] else None);
      var val' := new Option<string>[m](i requires i >= 0 reads this, val => if i < val.Length then val[i] else None);
      var hash' := new Word[m](i requires i >= 0 reads this, hash => if i < hash.Length then hash[i] else 0);
      AppendFree(was, size);
      OccupiedWithFree(was, size);
      key, val, hash, size := key', val', hash', m;
      assert Slots() == was + Free(old(size));
    }

    /** Write one slot; the count follows. */
    method Store(i: nat, k: string, v: Option<string>, h: Word)
      requires Valid() && i < size && h == HashOf(k)
      requires if key[i].Some? then key[i].value == k else !HasKey(Slots(), k)
      modifies this`n, key, val, hash
      ensures Valid()
      ensures Map() == old(Map())[k := v]
    {
      hide Contents, HashOf;
      ghost var was := Slots();
      assert was[i].Some? <==> key[i].Some?;
      StoreInSlot(was, i, k, v);
      OccupiedUpdate(was, i, Some(Entry(k, v)));
      if key[i].None? {
        n := n + 1;
      }
      key[i], val[i], hash[i] := Some(k), v, h;
      assert Slots() == was[i := Some(Entry(k, v))];
    }

    /** Replace the value of a present key, or put the pair in a free slot, growing first if full. */
    method Set(k: Option<string>, v: Option<string>) returns (code: int)
      requires Valid()
      modifies this, key, val, hash
      ensures Valid()
      ensures (key == old(key) || fresh(key)) && (val == old(val) || fresh(val)) && (hash == old(hash) || fresh(hash))
      ensures k == None ==> code == -1 && Map() == old(Map())
      ensures k.Some? ==> code == 0 && Map() == old(Map())[k.value := v]
    {
      if k == None {
        return -1;
      }
      hide Contents, HashOf, Occupied;
      var h := DictionaryHash(k.value);
      if n > 0 {
        var i := Scan(k.value);
        if i < size {
          Store(i, k.value, v, h);
          return 0;
        }
      } else {
        AbsentWhenEmpty(Slots(), k.value);
      }
      Add(k.value, v, h);
      return 0;
    }

    /** Put a new pair in a free slot, growing first if there is none. */
    method Add(k: string, v: Option<string>, h: Word)
      requires Valid() && h == HashOf(k) && !HasKey(Slots(), k)
      modifies this, key, val, hash
      ensures Valid() && Map() == old(Map())[k := v]
      ensures (key == old(key) || fresh(key)) && (val == old(val) || fresh(val)) && (hash == old(hash) || fresh(hash))
    {
      hide Contents, HashOf, Occupied;
      NotMoreThanSize(Slots());
      if n == size {
        ghost var was := Slots();
        Grow();
        AppendFree(was, old(size));
        StillAbsent(was, old(size), k);
      }
      var i := Probe();
      Store(i, k, v, h);
    }

    method Unset(k: Option<string>)
      requires Valid()
      modifies this, key, val, hash
      ensures Valid() && key == old(key) && val == old(val) && hash == old(hash) && size == old(size)
      ensures Map() == if k == None then old(Map()) else old(Map()) - {k.value}
    {
      if k == None {
        return;
      }
      hide Contents, HashOf;
      var i := Scan(k.value);
      if i >= size {
        ContentsOfSlots(Slots());
        assert Map() - {k.value} == Map();
        return;
      }
      Clear(i);
    }

    method Clear(i: nat)
      requires Valid() && i < size && key[i].Some?
      modifies this`n, key, val, hash
      ensures Valid() && Map() == old(Map()) - {old(key[i].value)}
    {
      hide Contents, HashOf;
      ghost var was := Slots();
      assert was[i].Some? && was[i].value.key == key[i].value;
      ClearSlot(was, i);
      OccupiedUpdate(was, i, None);
      key[i], val[i], hash[i] := None, None, 0;
      n := n - 1;
      assert Slots() == was[i := None];
    }
  }

  // ----- Whole histories -----

  datatype Op = SetOp(key: Option<string>, val: Option<string>) | UnsetOp(key: Option<string>)

  function Applied(m: Dict, ops: seq<Op>): Dict {
    if ops == [] then m
    else
      var before := Applied(m, ops[..|ops| - 1]);
      match ops[|ops| - 1]
      case SetOp(Some(k), v) => before[k := v]
      case UnsetOp(Some(k)) => before - {k}
      case _ => before
  }

  /** Any history of updates leaves the map that the same history leaves on a plain map. */
  method Replay(d: Dictionary, ops: seq<Op>)
    requires d.Valid()
    modifies d, d.key, d.val, d.hash
    ensures d.Valid() && d.Map() == Applied(old(d.Map()), ops)
  {
    hide Contents, HashOf;
    for i := 0 to |ops|
      invariant d.Valid() && d.Map() == Applied(old(d.Map()), ops[..i])
      invariant (d.key == old(d.key) || fresh(d.key)) && (d.val == old(d.val) || fresh(d.val))
                && (d.hash == old(d.hash) || fresh(d.hash))
    {
      assert ops[..i + 1][..i] == ops[..i];
      match ops[i]
      case SetOp(k, v) =>
        var _ := d.Set(k, v);
      case UnsetOp(k) =>
        d.Unset(k);
    }
    assert ops[..|ops|] == ops;
  }

  lemma AbsentWhenEmpty(slots: seq<Slot>, k: string)
    requires Occupied(slots) == 0
    ensures !HasKey(slots, k)
  {
    forall i | 0 <= i < |slots|
      ensures slots[i] == None
    {
      NoEntryWhenEmpty(slots, i);
    }
  }

  lemma StillAbsent(slots: seq<Slot>, n: nat, k: string)
    requires !HasKey(slots, k)
    ensures !HasKey(slots + Free(n), k)
  {
    var grown := slots + Free(n);
    forall i | 0 <= i < |grown| && grown[i].Some?
      ensures grown[i].value.key != k
    {
      assert grown[i] == slots[i];
    }
  }

  lemma {:induction false} NotMoreThanSize(slots: seq<Slot>)
    ensures Occupied(slots) <= |slots|
    decreases |slots|
  {
    if slots != [] {
      NotMoreThanSize(slots[..|slots| - 1]);
    }
  }
}
