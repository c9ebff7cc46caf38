/** Linear probing with tombstones, as the hash maps of the store do it: a slot's hash is 0 when it was never
    used and SkipCode when its entry was removed; a search starts at the hash's home slot and goes round. */
module Probing {

  /** What items are filed under. */
  type Key = seq<nat>

  const SkipCode: nat := 0xFFFF_FFFF
  const AValidHashCode: nat := 1

  predicate Occupied(h: nat) {
    h != 0 && h != SkipCode
  }

  /** The two reserved values are replaced. */
  function HashCode(raw: nat): (h: nat)
    ensures Occupied(h) && (h == raw <==> Occupied(raw))
  {
    if raw == 0 || raw == SkipCode then AValidHashCode else raw
  }

  /** The home slot; the capacity is a power of two, so masking is the remainder. */
  function Home(h: nat, n: nat): (o: nat)
    requires n > 0
    ensures o < n
  {
    if h < n then h else Home(h - n, n)
  }

  lemma {:induction false} HomeIsRemainder(h: nat, n: nat) returns (q: nat)
    requires n > 0
    ensures h == q * n + Home(h, n)
  {
    q := 0;
    if h >= n {
      var p := HomeIsRemainder(h - n, n);
      q := p + 1;
    }
  }

  /** The slot j steps after o, going round. */
  function Step(o: nat, j: nat, n: nat): (s: nat)
    requires o < n && j < n
    ensures s < n
  {
    if o + j < n then o + j else o + j - n
  }

  /** The number of steps from o to s. */
  function Distance(o: nat, s: nat, n: nat): (j: nat)
    requires o < n && s < n
    ensures j < n && Step(o, j, n) == s
  {
    if o <= s then s - o else s - o + n
  }

  /** No never-used slot among the first d slots from o. */
  predicate Chain(hashes: seq<nat>, o: nat, d: nat)
    requires o < |hashes| && d <= |hashes|
  {
    forall j :: 0 <= j < d ==> hashes[Step(o, j, |hashes|)] != 0
  }

  /** Every entry can be reached from its home slot. */
  predicate Reachable(hashes: seq<nat>) {
    forall s :: 0 <= s < |hashes| && Occupied(hashes[s]) ==>
      Chain(hashes, Home(hashes[s], |hashes|), Distance(Home(hashes[s], |hashes|), s, |hashes|))
  }

  lemma WriteReachable(hashes: seq<nat>, s: nat, h: nat)
    requires s < |hashes| && Reachable(hashes) && h != 0
    requires Occupied(h) ==> Chain(hashes, Home(h, |hashes|), Distance(Home(h, |hashes|), s, |hashes|))
    ensures Reachable(hashes[s := h])
  {
    var r := hashes[s := h];
    forall t | 0 <= t < |r| && Occupied(r[t])
      ensures Chain(r, Home(r[t], |r|), Distance(Home(r[t], |r|), t, |r|))
    {
      if t != s { assert Chain(hashes, Home(r[t], |r|), Distance(Home(r[t], |r|), t, |r|)); }
    }
  }

  /** The number of the first i slots without an entry, tombstones included. */
  function FreeAmong(hashes: seq<nat>, i: nat): (c: nat)
    requires i <= |hashes|
    ensures c <= i
  {
    if i == 0 then 0 else FreeAmong(hashes, i - 1) + if Occupied(hashes[i - 1]) then 0 else 1
  }

  function CountFree(hashes: seq<nat>): (c: nat)
    ensures c <= |hashes|
  {
    FreeAmong(hashes, |hashes|)
  }

  lemma {:induction false} WriteAmong(hashes: seq<nat>, s: nat, h: nat, i: nat)
    requires s < |hashes| && i <= |hashes|
    ensures FreeAmong(hashes[s := h], i) == FreeAmong(hashes, i) +
      if s < i then (if Occupied(hashes[s]) then 1 else 0) - (if Occupied(h) then 1 else 0) else 0
  {
    if i > 0 { WriteAmong(hashes, s, h, i - 1); }
  }

  lemma WriteCount(hashes: seq<nat>, s: nat, h: nat)
    requires s < |hashes|
    ensures CountFree(hashes[s := h]) ==
      CountFree(hashes) + (if Occupied(hashes[s]) then 1 else 0) - (if Occupied(h) then 1 else 0)
  {
    WriteAmong(hashes, s, h, |hashes|);
  }

  lemma {:induction false} NoneFree(hashes: seq<nat>, i: nat)
    requires i <= |hashes| && forall s :: 0 <= s < i ==> Occupied(hashes[s])
    ensures FreeAmong(hashes, i) == 0
  {
    if i > 0 { NoneFree(hashes, i - 1); }
  }

  lemma {:induction false} AllFree(hashes: seq<nat>, i: nat)
    requires i <= |hashes| && forall s :: 0 <= s < i ==> !Occupied(hashes[s])
    ensures FreeAmong(hashes, i) == i
  {
    if i > 0 { AllFree(hashes, i - 1); }
  }

  /** The first i slots have no more entries than the first j. */
  lemma {:induction false} PrefixEntries(hashes: seq<nat>, i: nat, j: nat)
    requires i <= j <= |hashes|
    ensures i - FreeAmong(hashes, i) <= j - FreeAmong(hashes, j)
  {
    if i < j { PrefixEntries(hashes, i, j - 1); }
  }

  datatype Search = Found(slot: nat) | Missing
  datatype Placing = Free(slot: nat) | Duplicate(at: nat) | Full

  /** The search loop: the first entry on the probe path that has the hash and is one of those wanted. */
  method Find<T>(hashes: seq<nat>, items: seq<T>, h: nat, wanted: T -> bool) returns (r: Search)
    requires 0 < |hashes| == |items| && Reachable(hashes) && Occupied(h)
    ensures r.Found? ==> r.slot < |hashes| && hashes[r.slot] == h && wanted(items[r.slot])
    ensures r.Missing? ==> forall s :: 0 <= s < |hashes| && hashes[s] == h ==> !wanted(items[s])
  {
    var n := |hashes|;
    ghost var o := Home(h, n);
    var offset := Home(h, n);
    var attempts := 0;
    while true
      invariant 0 <= attempts < n && offset == Step(o, attempts, n)
      invariant forall j :: 0 <= j < attempts ==>
        hashes[Step(o, j, n)] != 0 && !(hashes[Step(o, j, n)] == h && wanted(items[Step(o, j, n)]))
      decreases n - attempts
    {
      var hash := hashes[offset];
      if hash == 0 {
        forall s | 0 <= s < n && hashes[s] == h ensures !wanted(items[s]) {
          var d := Distance(o, s, n);
          assert Chain(hashes, o, d);
        }
        return Missing;
      }
      if hash == h && wanted(items[offset]) {
        return Found(offset);
      }
      offset := if offset + 1 < n then offset + 1 else 0;
      attempts := attempts + 1;
      if attempts == n {
        forall s | 0 <= s < n && hashes[s] == h ensures !wanted(items[s]) {
          var d := Distance(o, s, n);
        }
        return Missing;
      }
    }
  }

  /** The first d slots of the probe path hold entries, none of them the item's. */
  predicate Passed<T(==)>(hashes: seq<nat>, items: seq<T>, h: nat, item: T, d: nat)
    requires 0 < |hashes| == |items| && d <= |hashes|
  {
    var o, n := Home(h, |hashes|), |hashes|;
    forall j :: 0 <= j < d ==>
      Occupied(hashes[Step(o, j, n)]) && !(hashes[Step(o, j, n)] == h && items[Step(o, j, n)] == item)
  }

  /** What the insertion loop answers: the first slot of the path that is free or holds the item, or neither. */
  predicate Placed<T(==)>(hashes: seq<nat>, items: seq<T>, h: nat, item: T, r: Placing)
    requires 0 < |hashes| == |items|
  {
    var o, n := Home(h, |hashes|), |hashes|;
    match r
    case Free(s) => s < n && !Occupied(hashes[s]) && Passed(hashes, items, h, item, Distance(o, s, n))
    case Duplicate(s) =>
      s < n && hashes[s] == h && items[s] == item && Passed(hashes, items, h, item, Distance(o, s, n))
    case Full => Passed(hashes, items, h, item, n)
  }

  /** There is one answer. */
  lemma OneAnswer<T>(hashes: seq<nat>, items: seq<T>, h: nat, item: T, r: Placing, q: Placing)
    requires 0 < |hashes| == |items| && Occupied(h)
    requires Placed(hashes, items, h, item, r) && Placed(hashes, items, h, item, q)
    ensures r == q
  {
    var o, n := Home(h, |hashes|), |hashes|;
    var s, t := SlotOf(r, o, n), SlotOf(q, o, n);
    assert Step(o, Distance(o, s, n), n) == s && Step(o, Distance(o, t, n), n) == t;
  }

  function SlotOf(r: Placing, o: nat, n: nat): (s: nat)
    requires o < n
    ensures s < n
  {
    if r.Free? && r.slot < n then r.slot else if r.Duplicate? && r.at < n then r.at else o
  }

  /** The insertion loop. An item behind a free slot is not noticed. */
  method FindFree<T(==)>(hashes: seq<nat>, items: seq<T>, h: nat, item: T) returns (r: Placing)
    requires 0 < |hashes| == |items| && Occupied(h)
    ensures Placed(hashes, items, h, item, r)
    ensures r.Free? ==>
      && r.slot < |hashes| && Chain(hashes, Home(h, |hashes|), Distance(Home(h, |hashes|), r.slot, |hashes|))
    ensures r.Full? ==> CountFree(hashes) == 0 && forall s :: 0 <= s < |hashes| && hashes[s] == h ==> items[s] != item
  {
    var n := |hashes|;
    ghost var o := Home(h, n);
    var offset := Home(h, n);
    var attempts := 0;
    while true
      invariant 0 <= attempts < n && offset == Step(o, attempts, n) && Passed(hashes, items, h, item, attempts)
      decreases n - attempts
    {
      var hash := hashes[offset];
      assert Distance(o, offset, n) == attempts;
      if hash == 0 || hash == SkipCode {
        return Free(offset);
      }
      if hash == h && items[offset] == item {
        return Duplicate(offset);
      }
      offset := if offset + 1 < n then offset + 1 else 0;
      attempts := attempts + 1;
      if attempts >= n {
        forall s | 0 <= s < n ensures Occupied(hashes[s]) && !(hashes[s] == h && items[s] == item) {
          assert Step(o, Distance(o, s, n), n) == s;
        }
        NoneFree(hashes, n);
        return Full;
      }
    }
  }

  /** The item is filed at a slot, and no slot before it on the probe path is free. */
  predicate MetFirst<T(==)>(hashes: seq<nat>, items: seq<T>, h: nat, item: T, s: nat) {
    && s < |hashes| == |items| && hashes[s] == h && items[s] == item
    && forall j :: 0 <= j < Distance(Home(h, |hashes|), s, |hashes|) ==>
      Occupied(hashes[Step(Home(h, |hashes|), j, |hashes|)])
  }

  /** A duplicate is noticed exactly if an entry of the item has no free slot before it. */
  lemma DuplicateNoticed<T>(hashes: seq<nat>, items: seq<T>, h: nat, item: T, r: Placing)
    requires 0 < |hashes| == |items| && Occupied(h) && Placed(hashes, items, h, item, r)
    ensures r.Duplicate? <==> exists s: nat :: MetFirst(hashes, items, h, item, s)
  {
    var o, n := Home(h, |hashes|), |hashes|;
    if s: nat :| MetFirst(hashes, items, h, item, s) {
      var t := SlotOf(r, o, n);
      assert Step(o, Distance(o, s, n), n) == s && Step(o, Distance(o, t, n), n) == t;
      assert r.Duplicate?;
    } else if r.Duplicate? {
      assert MetFirst(hashes, items, h, item, r.at);
    }
  }

  /** Capacities: minimumSize is itself a power of two, and a map only doubles and halves. */
  predicate PowerOfTwo(n: nat) {
    n == 1 || (n > 0 && n % 2 == 0 && PowerOfTwo(n / 2))
  }

  lemma DoublePower(n: nat)
    requires PowerOfTwo(n)
    ensures PowerOfTwo(2 * n)
  {
    assert 2 * n / 2 == n;
  }

  /** The items of the first i slots that hold an entry. */
  function EntriesAmong<T(!new)>(hashes: seq<nat>, items: seq<T>, i: nat): (m: set<T>)
    requires i <= |hashes| == |items|
  {
    set s | 0 <= s < i && Occupied(hashes[s]) :: items[s]
  }

  function Entries<T(!new)>(hashes: seq<nat>, items: seq<T>): (m: set<T>)
    requires |hashes| == |items|
  {
    EntriesAmong(hashes, items, |hashes|)
  }

  // Filing items, named by numbers, under keys.

  /** Every entry is filed under its item's hash and the item's back-index names the slot. */
  ghost predicate Linked(hash: Key -> nat, keys: map<nat, Key>, hashes: seq<nat>, items: seq<nat>,
                         back: map<nat, int>) {
    && |hashes| == |items| && Reachable(hashes)
    && forall s :: 0 <= s < |hashes| && Occupied(hashes[s]) ==>
      && items[s] in keys && hashes[s] == HashCode(hash(keys[items[s]]))
      && items[s] in back && back[items[s]] == s
  }

  /** A back-index is -1 or names the slot of its item. */
  ghost predicate BackLinked(hashes: seq<nat>, items: seq<nat>, back: map<nat, int>) {
    && |hashes| == |items|
    && forall c :: c in back ==>
      back[c] == -1 || (0 <= back[c] < |hashes| && Occupied(hashes[back[c]]) && items[back[c]] == c)
  }

  /** Filing is read through the keys of filed items only. */
  lemma LinkedRekeyed(hash: Key -> nat, keys: map<nat, Key>, keys1: map<nat, Key>, hashes: seq<nat>, items: seq<nat>,
                      place: map<nat, int>)
    requires Linked(hash, keys, hashes, items, place)
    requires forall e :: e in Entries(hashes, items) ==> e in keys && e in keys1 && keys1[e] == keys[e]
    ensures Linked(hash, keys1, hashes, items, place)
  {
    forall s | 0 <= s < |hashes| && Occupied(hashes[s]) ensures items[s] in Entries(hashes, items) {}
  }

  lemma WriteEntry(hash: Key -> nat, keys: map<nat, Key>, hashes: seq<nat>, items: seq<nat>, back: map<nat, int>,
                   slot: nat, item: nat)
    requires Linked(hash, keys, hashes, items, back) && slot < |hashes| && !Occupied(hashes[slot]) && item in keys
    requires item !in Entries(hashes, items)
    requires var h := HashCode(hash(keys[item]));
      Chain(hashes, Home(h, |hashes|), Distance(Home(h, |hashes|), slot, |hashes|))
    ensures var h := HashCode(hash(keys[item]));
      && Linked(hash, keys, hashes[slot := h], items[slot := item], back[item := slot])
      && Entries(hashes[slot := h], items[slot := item]) == Entries(hashes, items) + {item}
      && CountFree(hashes[slot := h]) == CountFree(hashes) - 1
      && (BackLinked(hashes, items, back) ==> BackLinked(hashes[slot := h], items[slot := item], back[item := slot]))
  {
    var h := HashCode(hash(keys[item]));
    WriteReachable(hashes, slot, h);
    WriteCount(hashes, slot, h);
    var hs1, cs1 := hashes[slot := h], items[slot := item];
    forall x ensures x in Entries(hs1, cs1) <==> x in Entries(hashes, items) + {item} {
      if x in Entries(hashes, items) {
        var s :| 0 <= s < |hashes| && Occupied(hashes[s]) && items[s] == x;
        assert Occupied(hs1[s]) && cs1[s] == x;
      }
      if x == item { assert Occupied(hs1[slot]) && cs1[slot] == x; }
    }
  }

  lemma EraseEntry(hash: Key -> nat, keys: map<nat, Key>, hashes: seq<nat>, items: seq<nat>, back: map<nat, int>,
                   slot: nat)
    requires Linked(hash, keys, hashes, items, back) && slot < |hashes| && Occupied(hashes[slot])
    ensures Linked(hash, keys, hashes[slot := SkipCode], items, back[items[slot] := -1])
    ensures Entries(hashes[slot := SkipCode], items) == Entries(hashes, items) - {items[slot]}
    ensures CountFree(hashes[slot := SkipCode]) == CountFree(hashes) + 1
  {
    WriteReachable(hashes, slot, SkipCode);
    WriteCount(hashes, slot, SkipCode);
    var hs1 := hashes[slot := SkipCode];
    forall s | 0 <= s < |hashes| && Occupied(hs1[s]) ensures items[s] != items[slot] {
      assert back[items[s]] == s && back[items[slot]] == slot;
    }
    forall x ensures x in Entries(hs1, items) <==> x in Entries(hashes, items) && x != items[slot] {
      if x in Entries(hashes, items) && x != items[slot] {
        var s :| 0 <= s < |hashes| && Occupied(hashes[s]) && items[s] == x;
        assert Occupied(hs1[s]);
      }
    }
  }

  /** The insertion loop and the writes after it. The probe always finds a slot. */
  method Insert(hash: Key -> nat, keys: map<nat, Key>, hashes: seq<nat>, items: seq<nat>, ghost back: map<nat, int>,
                item: nat)
    returns (hs: seq<nat>, xs: seq<nat>, slot: nat)
    requires 0 < |hashes| && Linked(hash, keys, hashes, items, back) && CountFree(hashes) > 0
    requires item in keys && item !in Entries(hashes, items)
    ensures |hs| == |hashes| && Linked(hash, keys, hs, xs, back[item := slot])
    ensures BackLinked(hashes, items, back) ==> BackLinked(hs, xs, back[item := slot])
    ensures Entries(hs, xs) == Entries(hashes, items) + {item} && CountFree(hs) == CountFree(hashes) - 1
  {
    var desiredHash := HashCode(hash(keys[item]));
    var r := FindFree(hashes, items, desiredHash, item);
    NotDuplicate(hashes, items, desiredHash, item, r);
    WriteEntry(hash, keys, hashes, items, back, r.slot, item);
    slot := r.slot;
    hs, xs := hashes[slot := desiredHash], items[slot := item];
  }

  lemma NotDuplicate(hashes: seq<nat>, items: seq<nat>, h: nat, item: nat, r: Placing)
    requires 0 < |hashes| == |items| && Occupied(h) && Placed(hashes, items, h, item, r)
    requires item !in Entries(hashes, items)
    ensures !r.Duplicate?
  {
  }

  /** Two items with the same home slot, of which the first is removed: the second is still filed, behind the
      tombstone, and the insertion loop passes it by. Filing it again leaves two entries, which no back-index fits, and
      taking either away leaves the item filed. */
  lemma DuplicateUnnoticed(first: nat, second: nat)
    requires first != second
    ensures var both, items := [4, 4, 0, 0], [first, second, 0, 0];
      var hashes := both[0 := SkipCode];
      var hs, xs := hashes[0 := 4], items[0 := second];
      && Reachable(both) && Reachable(hashes) && second in Entries(hashes, items)
      && Placed(hashes, items, 4, second, Free(0))
      && (forall hash: Key -> nat, keys, back :: !Linked(hash, keys, hs, xs, back))
      && second in Entries(hs[0 := SkipCode], xs) && second in Entries(hs[1 := SkipCode], xs)
  {
    var both, items := [4, 4, 0, 0], [first, second, 0, 0];
    var hashes := both[0 := SkipCode];
    var hs, xs := hashes[0 := 4], items[0 := second];
    assert Home(4, 4) == 0;
    assert Occupied(hashes[1]) && items[1] == second;
    forall hash: Key -> nat, keys, back ensures !Linked(hash, keys, hs, xs, back) {
      assert Occupied(hs[0]) && Occupied(hs[1]) && xs[0] == xs[1];
    }
    assert Occupied(hs[0 := SkipCode][1]) && Occupied(hs[1 := SkipCode][0]) && xs[1] == xs[0] == second;
  }

  /** No item has two entries. */
  lemma FreshEntry(hash: Key -> nat, keys: map<nat, Key>, hashes: seq<nat>, items: seq<nat>, back: map<nat, int>,
                   i: nat)
    requires Linked(hash, keys, hashes, items, back) && i < |hashes| && Occupied(hashes[i])
    ensures items[i] !in EntriesAmong(hashes, items, i)
  {
    forall s | 0 <= s < i && Occupied(hashes[s]) ensures items[s] != items[i] {
      assert back[items[s]] == s && back[items[i]] == i;
    }
  }

  /** How far a resize has come: the entries of the first i slots are filed in the new arrays, at the places
      given by slots. */
  ghost predicate Moved(hash: Key -> nat, keys: map<nat, Key>, hashes: seq<nat>, items: seq<nat>,
                        hs: seq<nat>, xs: seq<nat>, slots: map<nat, int>, i: nat)
    requires |hashes| == |items| && i <= |hashes|
  {
    && Linked(hash, keys, hs, xs, slots) && BackLinked(hs, xs, slots)
    && Entries(hs, xs) == EntriesAmong(hashes, items, i) == slots.Keys
    && CountFree(hs) == |hs| - (i - FreeAmong(hashes, i))
    && forall c :: c in slots ==> slots[c] != -1
  }

  /** One turn of appendFrom; there is room, and after it a third of the slots is still free. */
  method MoveSlot(hash: Key -> nat, keys: map<nat, Key>, hashes: seq<nat>, items: seq<nat>, ghost back: map<nat, int>,
                  hs0: seq<nat>, xs0: seq<nat>, slots0: map<nat, int>, offset: nat)
    returns (hs: seq<nat>, xs: seq<nat>, slots: map<nat, int>)
    requires Linked(hash, keys, hashes, items, back) && offset < |hashes|
    requires |hs0| > 0 && |hs0| - (|hashes| - CountFree(hashes)) >= |hs0| / 3
    requires Moved(hash, keys, hashes, items, hs0, xs0, slots0, offset)
    ensures |hs| == |hs0| && Moved(hash, keys, hashes, items, hs, xs, slots, offset + 1)
    ensures CountFree(hs) >= |hs| / 3
  {
    hs, xs, slots := hs0, xs0, slots0;
    PrefixEntries(hashes, offset + 1, |hashes|);
    assert EntriesAmong(hashes, items, offset + 1) ==
      EntriesAmong(hashes, items, offset) + if Occupied(hashes[offset]) then {items[offset]} else {};
    if Occupied(hashes[offset]) {
      var item := items[offset];
      FreshEntry(hash, keys, hashes, items, back, offset);
      var slot;
      hs, xs, slot := Insert(hash, keys, hs, xs, slots, item);
      slots := slots[item := slot];
    }
  }

  /** init and appendFrom of a resize; slots gives each item's new place. */
  method Rehash(hash: Key -> nat, keys: map<nat, Key>, hashes: seq<nat>, items: seq<nat>, ghost back: map<nat, int>,
                size: nat)
    returns (hs: seq<nat>, xs: seq<nat>, slots: map<nat, int>)
    requires Linked(hash, keys, hashes, items, back) && BackLinked(hashes, items, back)
    requires size > 0 && size - (|hashes| - CountFree(hashes)) >= size / 3
    ensures |hs| == size && Linked(hash, keys, hs, xs, back + slots) && BackLinked(hs, xs, back + slots)
    ensures Entries(hs, xs) == Entries(hashes, items) == slots.Keys
    ensures CountFree(hs) == size - (|hashes| - CountFree(hashes))
  {
    hs, xs, slots := seq(size, _ => 0), seq(size, _ => 0), map[];
    AllFree(hs, size);
    var offset := 0;
    while offset < |hashes|
      invariant 0 <= offset <= |hashes| && |hs| == size
      invariant Moved(hash, keys, hashes, items, hs, xs, slots, offset)
    {
      hs, xs, slots := MoveSlot(hash, keys, hashes, items, back, hs, xs, slots, offset);
      offset := offset + 1;
    }
    AllMoved(hash, keys, hashes, items, back, hs, xs, slots);
  }

  /** A back-index that was not renewed belongs to no member, so it was -1. */
  lemma AllMoved(hash: Key -> nat, keys: map<nat, Key>, hashes: seq<nat>, items: seq<nat>, back: map<nat, int>,
                 hs: seq<nat>, xs: seq<nat>, slots: map<nat, int>)
    requires BackLinked(hashes, items, back)
    requires Linked(hash, keys, hs, xs, slots) && BackLinked(hs, xs, slots)
    requires Entries(hs, xs) == Entries(hashes, items) == slots.Keys
    ensures Linked(hash, keys, hs, xs, back + slots) && BackLinked(hs, xs, back + slots)
  {
    var bk := back + slots;
    forall c | c in bk
      ensures bk[c] == -1 || (0 <= bk[c] < |hs| && Occupied(hs[bk[c]]) && xs[bk[c]] == c)
    {
      if c !in slots {
        assert c !in Entries(hashes, items);
        assert back[c] == -1;
      }
    }
    forall s | 0 <= s < |hs| && Occupied(hs[s]) ensures xs[s] in bk && bk[xs[s]] == s {
      assert xs[s] in slots;
    }
  }
}
