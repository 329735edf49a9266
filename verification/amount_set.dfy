/**
 * The sorted amount set: a container of (element, amount) pairs, unique under an
 * injected comparator, kept in ascending comparator order, whose amounts never
 * go below zero.
 *
 * The comparator is modelled by an integer key projection `key`: two elements
 * compare equal when their keys are equal and compare in the order of their keys.
 * The linked list of nodes becomes a sequence of entries; a node pointer becomes
 * an index into that sequence.
 */
module AmountSets {

  datatype Option<T> = None | Some(value: T)

  /** The result codes of the amount set operations. */
  datatype AmountSetResult =
    | AsSuccess
    | AsOutOfMemory
    | AsNullArgument
    | AsItemAlreadyExists
    | AsItemDoesNotExist
    | AsInsufficientAmount

  /** One node of the set: the element and its amount. */
  datatype Entry<E> = Entry(elem: E, amount: real)

  // ---------------------------------------------------------------------------
  // Specification functions over the sequence of entries
  // ---------------------------------------------------------------------------

  /** Keys strictly increase along the sequence: sorted, and no key twice. */
  ghost predicate Ascending<E>(s: seq<Entry<E>>, key: E -> int) {
    forall i, j :: 0 <= i < j < |s| ==> key(s[i].elem) < key(s[j].elem)
  }

  ghost predicate NonNegative<E>(s: seq<Entry<E>>) {
    forall i :: 0 <= i < |s| ==> s[i].amount >= 0.0
  }

  /**
   * The abstract contents: every key present, mapped to the amount of the first
   * entry carrying it (on a valid set there is only one).
   */
  function Amounts<E>(s: seq<Entry<E>>, key: E -> int): (m: map<int, real>)
    decreases |s|
  {
    if s == [] then map[] else Amounts(s[1..], key)[key(s[0].elem) := s[0].amount]
  }

  /** A key is in the contents exactly when some entry compares equal to it. */
  lemma {:induction false} AmountsDomain<E>(s: seq<Entry<E>>, key: E -> int, k: int)
    ensures k in Amounts(s, key) <==> exists i :: 0 <= i < |s| && key(s[i].elem) == k
    decreases |s|
  {
    if s != [] {
      AmountsDomain(s[1..], key, k);
      if k in Amounts(s[1..], key) {
        var i :| 0 <= i < |s[1..]| && key(s[1..][i].elem) == k;
        assert s[i + 1] == s[1..][i];
      }
      if exists i :: 0 <= i < |s| && key(s[i].elem) == k {
        var i :| 0 <= i < |s| && key(s[i].elem) == k;
        if i > 0 {
          assert s[1..][i - 1] == s[i];
        }
      }
    }
  }

  /** Position of the first entry comparing equal to `k` (what FindElement walks to). */
  function IndexOf<E>(s: seq<Entry<E>>, key: E -> int, k: int): (i: nat)
    requires k in Amounts(s, key)
    ensures i < |s| && key(s[i].elem) == k
    ensures s[i].amount == Amounts(s, key)[k]
    ensures forall j :: 0 <= j < i ==> key(s[j].elem) != k
    decreases |s|
  {
    if key(s[0].elem) == k then 0 else 1 + IndexOf(s[1..], key, k)
  }

  /** Registration: a new entry with amount 0 placed before the first larger key. */
  function Insert<E>(s: seq<Entry<E>>, key: E -> int, e: E): (r: seq<Entry<E>>)
    requires key(e) !in Amounts(s, key)
    ensures |r| == |s| + 1
    decreases |s|
  {
    if s == [] || key(e) < key(s[0].elem) then [Entry(e, 0.0)] + s
    else [s[0]] + Insert(s[1..], key, e)
  }

  /** Deletion: every entry comparing equal to `k` is dropped, the rest keep their order. */
  function Remove<E>(s: seq<Entry<E>>, key: E -> int, k: int): (r: seq<Entry<E>>)
    ensures |r| <= |s|
    decreases |s|
  {
    if s == [] then []
    else if key(s[0].elem) == k then Remove(s[1..], key, k)
    else [s[0]] + Remove(s[1..], key, k)
  }

  /** Amount change: the first entry comparing equal to `k` gets `delta` added. */
  function ChangeAt<E>(s: seq<Entry<E>>, key: E -> int, k: int, delta: real): (r: seq<Entry<E>>)
    requires k in Amounts(s, key)
    ensures |r| == |s|
    decreases |s|
  {
    if key(s[0].elem) == k then [Entry(s[0].elem, s[0].amount + delta)] + s[1..]
    else [s[0]] + ChangeAt(s[1..], key, k, delta)
  }

  /** Registration adds the new key with amount 0 to the contents and changes nothing else. */
  lemma {:induction false} InsertAmounts<E>(s: seq<Entry<E>>, key: E -> int, e: E)
    requires key(e) !in Amounts(s, key)
    ensures Amounts(Insert(s, key, e), key) == Amounts(s, key)[key(e) := 0.0]
    decreases |s|
  {
    if s == [] || key(e) < key(s[0].elem) {
      assert ([Entry(e, 0.0)] + s)[1..] == s;
    } else {
      var rest := Insert(s[1..], key, e);
      InsertAmounts(s[1..], key, e);
      assert ([s[0]] + rest)[1..] == rest;
      UpdatesCommute(Amounts(s[1..], key), key(s[0].elem), s[0].amount, key(e), 0.0);
    }
  }

  /** Deletion removes the key from the contents and changes nothing else. */
  lemma {:induction false} RemoveAmounts<E>(s: seq<Entry<E>>, key: E -> int, k: int)
    ensures Amounts(Remove(s, key, k), key) == Amounts(s, key) - {k}
    decreases |s|
  {
    if s != [] {
      RemoveAmounts(s[1..], key, k);
      var rest := Remove(s[1..], key, k);
      if key(s[0].elem) == k {
        assert Amounts(s, key) - {k} == Amounts(s[1..], key) - {k};
      } else {
        assert ([s[0]] + rest)[1..] == rest;
        assert Amounts(s, key) - {k} == (Amounts(s[1..], key) - {k})[key(s[0].elem) := s[0].amount];
      }
    }
  }

  /** An amount change moves the amount of that key by `delta` and changes nothing else. */
  lemma {:induction false} ChangeAtAmounts<E>(s: seq<Entry<E>>, key: E -> int, k: int, delta: real)
    requires k in Amounts(s, key)
    ensures Amounts(ChangeAt(s, key, k, delta), key) == Amounts(s, key)[k := Amounts(s, key)[k] + delta]
    decreases |s|
  {
    var m := Amounts(s[1..], key);
    if key(s[0].elem) == k {
      assert ChangeAt(s, key, k, delta)[1..] == s[1..];
    } else {
      var rest := ChangeAt(s[1..], key, k, delta);
      ChangeAtAmounts(s[1..], key, k, delta);
      assert ([s[0]] + rest)[1..] == rest;
      UpdatesCommute(m, key(s[0].elem), s[0].amount, k, m[k] + delta);
    }
  }

  /** Registration stores the element itself, at amount 0, where a lookup of its key finds it. */
  lemma {:induction false} InsertFind<E>(s: seq<Entry<E>>, key: E -> int, e: E)
    requires key(e) !in Amounts(s, key)
    ensures key(e) in Amounts(Insert(s, key, e), key)
    ensures Insert(s, key, e)[IndexOf(Insert(s, key, e), key, key(e))] == Entry(e, 0.0)
    decreases |s|
  {
    InsertAmounts(s, key, e);
    var r := Insert(s, key, e);
    if !(s == [] || key(e) < key(s[0].elem)) {
      InsertFind(s[1..], key, e);
      assert r[1..] == Insert(s[1..], key, e);
    }
  }

  /** An amount change keeps the element and moves only its amount. */
  lemma {:induction false} ChangeAtFind<E>(s: seq<Entry<E>>, key: E -> int, k: int, delta: real)
    requires k in Amounts(s, key)
    ensures k in Amounts(ChangeAt(s, key, k, delta), key)
    ensures var i := IndexOf(s, key, k);
      ChangeAt(s, key, k, delta)[IndexOf(ChangeAt(s, key, k, delta), key, k)] == Entry(s[i].elem, s[i].amount + delta)
    decreases |s|
  {
    ChangeAtAmounts(s, key, k, delta);
    var r := ChangeAt(s, key, k, delta);
    if key(s[0].elem) != k {
      ChangeAtFind(s[1..], key, k, delta);
      assert r[1..] == ChangeAt(s[1..], key, k, delta);
    }
  }

  lemma UpdatesCommute(m: map<int, real>, k0: int, a: real, k: int, v: real)
    requires k0 != k
    ensures m[k0 := a][k := v] == m[k := v][k0 := a]
  {
  }

  /** What re-registering every element of `s` produces: the same elements, each at amount 0. */
  function ZeroAmounts<E>(s: seq<Entry<E>>): (r: seq<Entry<E>>)
    ensures |r| == |s|
    ensures forall i :: 0 <= i < |s| ==> r[i] == Entry(s[i].elem, 0.0)
  {
    seq(|s|, i requires 0 <= i < |s| => Entry(s[i].elem, 0.0))
  }

  // ---------------------------------------------------------------------------
  // Lemmas: the invariant is kept, and the loops of the methods compute the
  // specification functions
  // ---------------------------------------------------------------------------

  /** The tail of a sorted set is sorted and lies above its head. */
  lemma AscendingTail<E>(s: seq<Entry<E>>, key: E -> int)
    requires Ascending(s, key) && s != []
    ensures Ascending(s[1..], key)
    ensures forall i :: 0 <= i < |s[1..]| ==> key(s[0].elem) < key(s[1..][i].elem)
  {
    forall i, j | 0 <= i < j < |s[1..]| ensures key(s[1..][i].elem) < key(s[1..][j].elem) {
      assert s[1..][i] == s[i + 1] && s[1..][j] == s[j + 1];
    }
  }

  /** Registering a key that is not there keeps the entries sorted, unique and non-negative. */
  lemma {:induction false} InsertKeepsInvariant<E>(s: seq<Entry<E>>, key: E -> int, e: E)
    requires Ascending(s, key) && NonNegative(s) && key(e) !in Amounts(s, key)
    ensures Ascending(Insert(s, key, e), key) && NonNegative(Insert(s, key, e))
  {
    var i := 0;
    while i < |s| && key(s[i].elem) < key(e)
      invariant 0 <= i <= |s|
      invariant forall j :: 0 <= j < i ==> key(s[j].elem) < key(e)
    {
      i := i + 1;
    }
    if i < |s| && key(s[i].elem) == key(e) {
      AmountsDomain(s, key, key(e));
    }
    InsertSplice(s, key, e, i);
    SpliceInKeepsInvariant(s, key, Entry(e, 0.0), i);
  }

  /** Linking a non-negative entry between the smaller and the larger keys keeps the invariant. */
  lemma SpliceInKeepsInvariant<E>(s: seq<Entry<E>>, key: E -> int, x: Entry<E>, i: nat)
    requires Ascending(s, key) && NonNegative(s) && x.amount >= 0.0
    requires i <= |s|
    requires forall j :: 0 <= j < i ==> key(s[j].elem) < key(x.elem)
    requires i < |s| ==> key(x.elem) < key(s[i].elem)
    ensures Ascending(s[..i] + [x] + s[i..], key) && NonNegative(s[..i] + [x] + s[i..])
  {
    var r := s[..i] + [x] + s[i..];
    forall a | 0 <= a < |r|
      ensures r[a] == if a < i then s[a] else if a == i then x else s[a - 1]
    {
    }
    forall a, b | 0 <= a < b < |r| ensures key(r[a].elem) < key(r[b].elem) {
      if b < i {
        assert r[a] == s[a] && r[b] == s[b];
      } else if b == i {
        assert r[a] == s[a];
      } else if a == i {
        assert r[b] == s[b - 1];
      } else if a < i {
        assert r[a] == s[a] && r[b] == s[b - 1];
      } else {
        assert r[a] == s[a - 1] && r[b] == s[b - 1];
      }
    }
  }

  /**
   * The linear scan of registration: once every key before position `i` is smaller
   * and the key at `i` (if any) is larger, the new entry goes exactly at `i`.
   */
  lemma {:induction false} InsertSplice<E>(s: seq<Entry<E>>, key: E -> int, e: E, i: nat)
    requires key(e) !in Amounts(s, key)
    requires i <= |s|
    requires forall j :: 0 <= j < i ==> key(s[j].elem) < key(e)
    requires i < |s| ==> key(e) < key(s[i].elem)
    ensures Insert(s, key, e) == s[..i] + [Entry(e, 0.0)] + s[i..]
    decreases i
  {
    var x := Entry(e, 0.0);
    if i == 0 {
      assert s[..0] + [x] + s[0..] == [x] + s;
    } else {
      var t := s[1..];
      assert key(e) !in Amounts(t, key);
      assert forall j :: 0 <= j < i - 1 ==> key(t[j].elem) < key(e) by {
        forall j | 0 <= j < i - 1 ensures key(t[j].elem) < key(e) {
          assert t[j] == s[j + 1];
        }
      }
      assert i - 1 < |t| ==> key(e) < key(t[i - 1].elem) by {
        if i - 1 < |t| {
          assert t[i - 1] == s[i];
        }
      }
      InsertSplice(t, key, e, i - 1);
      assert Insert(s, key, e) == [s[0]] + Insert(t, key, e);
      assert s[..i] == [s[0]] + t[..i - 1];
      assert s[i..] == t[i - 1..];
    }
  }

  /** Deleting keeps the entries sorted, unique and non-negative. */
  lemma RemoveKeepsInvariant<E>(s: seq<Entry<E>>, key: E -> int, k: int)
    requires Ascending(s, key) && NonNegative(s)
    ensures Ascending(Remove(s, key, k), key) && NonNegative(Remove(s, key, k))
  {
    if k in Amounts(s, key) {
      RemoveSplice(s, key, k);
      var i := IndexOf(s, key, k);
      var r := s[..i] + s[i + 1..];
      forall a | 0 <= a < |r| ensures r[a] == s[if a < i then a else a + 1] && r[a].amount >= 0.0 {
      }
      forall a, b | 0 <= a < b < |r| ensures key(r[a].elem) < key(r[b].elem) {
        assert r[a] == s[if a < i then a else a + 1] && r[b] == s[if b < i then b else b + 1];
      }
    } else {
      AmountsDomain(s, key, k);
      RemoveAbsent(s, key, k);
    }
  }

  /** Deleting a key no entry carries changes nothing. */
  lemma {:induction false} RemoveAbsent<E>(s: seq<Entry<E>>, key: E -> int, k: int)
    requires forall i :: 0 <= i < |s| ==> key(s[i].elem) != k
    ensures Remove(s, key, k) == s
    decreases |s|
  {
    if s != [] {
      assert forall i :: 0 <= i < |s| - 1 ==> s[1..][i] == s[i + 1];
      RemoveAbsent(s[1..], key, k);
    }
  }

  /**
   * On a sorted set, deleting a present key unlinks exactly one entry, the one
   * the walk of the delete loop stops at; the others keep their order and amounts.
   */
  lemma {:induction false} RemoveSplice<E>(s: seq<Entry<E>>, key: E -> int, k: int)
    requires Ascending(s, key) && k in Amounts(s, key)
    ensures var i := IndexOf(s, key, k);
      Remove(s, key, k) == s[..i] + s[i + 1..] && |Remove(s, key, k)| == |s| - 1
    decreases |s|
  {
    AscendingTail(s, key);
    if key(s[0].elem) == k {
      RemoveAbsent(s[1..], key, k);
      assert s[..0] + s[1..] == s[1..];
    } else {
      RemoveSplice(s[1..], key, k);
      var i := IndexOf(s, key, k);
      assert s[..i] == [s[0]] + s[1..][..i - 1];
      assert s[i + 1..] == s[1..][i..];
    }
  }

  /** The amount change of the reference definition touches exactly the first position holding the key. */
  lemma {:induction false} ChangeAtIndex<E>(s: seq<Entry<E>>, key: E -> int, k: int, delta: real, i: nat)
    requires k in Amounts(s, key)
    requires i < |s| && key(s[i].elem) == k
    requires forall j :: 0 <= j < i ==> key(s[j].elem) != k
    ensures ChangeAt(s, key, k, delta) == s[i := Entry(s[i].elem, s[i].amount + delta)]
    decreases i
  {
    var x := Entry(s[i].elem, s[i].amount + delta);
    if i > 0 {
      var t := s[1..];
      assert key(s[0].elem) != k;
      forall j | 0 <= j < i - 1 ensures key(t[j].elem) != k {
        assert t[j] == s[j + 1];
      }
      assert t[i - 1] == s[i];
      ChangeAtIndex(t, key, k, delta, i - 1);
      assert [s[0]] + t[i - 1 := x] == s[i := x];
    }
  }

  /** An amount change that stays non-negative keeps the invariant and the keys in place. */
  lemma ChangeAtKeepsInvariant<E>(s: seq<Entry<E>>, key: E -> int, k: int, delta: real)
    requires Ascending(s, key) && NonNegative(s)
    requires k in Amounts(s, key) && Amounts(s, key)[k] + delta >= 0.0
    ensures Ascending(ChangeAt(s, key, k, delta), key) && NonNegative(ChangeAt(s, key, k, delta))
  {
    var i := IndexOf(s, key, k);
    ChangeAtIndex(s, key, k, delta, i);
    var r := ChangeAt(s, key, k, delta);
    assert forall j :: 0 <= j < |s| ==> r[j].elem == s[j].elem;
  }

  /** Round trip: registering a new key and then deleting it gives back the original set. */
  lemma {:induction false} RemoveInsert<E>(s: seq<Entry<E>>, key: E -> int, e: E)
    requires key(e) !in Amounts(s, key)
    ensures Remove(Insert(s, key, e), key, key(e)) == s
    decreases |s|
  {
    if s == [] || key(e) < key(s[0].elem) {
      AmountsDomain(s, key, key(e));
      RemoveAbsent(s, key, key(e));
      assert ([Entry(e, 0.0)] + s)[1..] == s;
    } else {
      assert key(e) !in Amounts(s[1..], key);
      RemoveInsert(s[1..], key, e);
      assert ([s[0]] + Insert(s[1..], key, e))[1..] == Insert(s[1..], key, e);
    }
  }

  /** An amount change leaves every other entry as it was. */
  lemma {:induction false} RemoveChangeAt<E>(s: seq<Entry<E>>, key: E -> int, k: int, delta: real)
    requires k in Amounts(s, key)
    ensures Remove(ChangeAt(s, key, k, delta), key, k) == Remove(s, key, k)
    decreases |s|
  {
    if key(s[0].elem) != k {
      RemoveChangeAt(s[1..], key, k, delta);
      var t := ChangeAt(s[1..], key, k, delta);
      assert ([s[0]] + t)[1..] == t;
    } else {
      assert ([Entry(s[0].elem, s[0].amount + delta)] + s[1..])[1..] == s[1..];
    }
  }

  // ---------------------------------------------------------------------------
  // The set object
  // ---------------------------------------------------------------------------

  /**
   * An amount set. `entries` stands for the list hanging off `first_node`, `size`
   * is the separately kept counter, and `key` is the injected comparator. The copy
   * and free callbacks only manage memory and have no counterpart here; elements
   * are values. The internal iterator is not modelled.
   */
  class AmountSet<E> {
    const key: E -> int
    var entries: seq<Entry<E>>
    var size: int

    /** The set invariant: sorted, unique keys, non-negative amounts, size bookkeeping. */
    ghost predicate Valid()
      reads this
    {
      Ascending(entries, key) && NonNegative(entries) && size == |entries|
    }

    /**
     * asCreate. The source returns NULL unless all three callbacks are NULL (its null
     * check is inverted, and names an undeclared comparator variable) and builds a
     * dummy head node from a NULL element; the model follows the evident intent: an
     * empty set, with no head node.
     */
    constructor (key: E -> int)
      ensures Valid()
      ensures this.key == key && entries == [] && size == 0
    {
      this.key := key;
      entries := [];
      size := 0;
    }

    /** asContains: some entry compares equal to `e`. */
    predicate Contains(e: E)
      reads this
      ensures Contains(e) <==> exists i :: 0 <= i < |entries| && key(entries[i].elem) == key(e)
    {
      AmountsDomain(entries, key, key(e));
      key(e) in Amounts(entries, key)
    }

    /** FindElement: walk from the head to the first entry comparing equal to `e`. */
    method FindElement(e: E) returns (found: bool, i: nat)
      ensures found <==> key(e) in Amounts(entries, key)
      ensures found ==> i < |entries| && i == IndexOf(entries, key, key(e))
    {
      i := 0;
      while i < |entries|
        invariant 0 <= i <= |entries|
        invariant forall j :: 0 <= j < i ==> key(entries[j].elem) != key(e)
      {
        if key(entries[i].elem) == key(e) {
          AmountsDomain(entries, key, key(e));
          return true, i;
        }
        i := i + 1;
      }
      AmountsDomain(entries, key, key(e));
      found := false;
    }

    /**
     * asRegister (its body is not part of this model): fails on a duplicate key,
     * otherwise links a new entry with amount 0 before the first larger key,
     * found by a linear scan from the head.
     */
    method Register(element: Option<E>) returns (r: AmountSetResult)
      requires Valid()
      modifies this
      ensures Valid()
      ensures element.None? ==> r == AsNullArgument && entries == old(entries)
      ensures element.Some? && key(element.value) in old(Amounts(entries, key)) ==>
        r == AsItemAlreadyExists && entries == old(entries)
      ensures element.Some? && key(element.value) !in old(Amounts(entries, key)) ==>
        r == AsSuccess && entries == Insert(old(entries), key, element.value)
    {
      if element.None? {
        return AsNullArgument;
      }
      var e := element.value;
      var i := 0;
      while i < |entries| && key(entries[i].elem) < key(e)
        invariant 0 <= i <= |entries|
        invariant forall j :: 0 <= j < i ==> key(entries[j].elem) < key(e)
      {
        i := i + 1;
      }
      AmountsDomain(entries, key, key(e));
      if i < |entries| && key(entries[i].elem) == key(e) {
        return AsItemAlreadyExists;
      }
      InsertSplice(entries, key, e, i);
      InsertKeepsInvariant(entries, key, e);
      entries := entries[..i] + [Entry(e, 0.0)] + entries[i..];
      size := size + 1;
      r := AsSuccess;
    }

    /**
     * asDelete. The head is checked first; otherwise the walk stops at the node
     * before the match, or before the tail, which must then be the match. The
     * source's tail branch clears the link before freeing through it; the model
     * unlinks the tail as intended.
     */
    method Delete(element: Option<E>) returns (r: AmountSetResult)
      requires Valid()
      modifies this
      ensures Valid()
      ensures element.None? ==> r == AsNullArgument && entries == old(entries)
      ensures element.Some? && key(element.value) !in old(Amounts(entries, key)) ==>
        r == AsItemDoesNotExist && entries == old(entries)
      ensures element.Some? && key(element.value) in old(Amounts(entries, key)) ==>
        r == AsSuccess && entries == Remove(old(entries), key, key(element.value)) &&
        size == old(size) - 1 && !Contains(element.value)
    {
      if element.None? {
        return AsNullArgument;
      }
      var k := key(element.value);
      if !Contains(element.value) {
        return AsItemDoesNotExist;
      }
      ghost var idx := IndexOf(entries, key, k);
      RemoveSplice(entries, key, k);
      RemoveKeepsInvariant(entries, key, k);
      RemoveAmounts(entries, key, k);
      if key(entries[0].elem) == k {
        assert entries[..0] + entries[1..] == entries[1..];
        entries := entries[1..];
        size := size - 1;
        return AsSuccess;
      }
      var i := 0;
      while i + 2 < |entries| && key(entries[i + 1].elem) != k
        invariant 0 <= i < idx
        decreases |entries| - i
      {
        i := i + 1;
      }
      assert i + 1 == idx;
      entries := entries[..i + 1] + entries[i + 2..];
      size := size - 1;
      r := AsSuccess;
    }

    /**
     * asClear: every entry is released; the set is empty afterwards. The source frees
     * all nodes but the last without relinking the head or updating the size, and then
     * hands the last node itself to asDelete as if it were an element; the model
     * empties the set as intended, one head entry at a time.
     */
    method Clear()
      requires Valid()
      modifies this
      ensures Valid()
      ensures entries == [] && size == 0
      ensures forall e :: !Contains(e)
    {
      while entries != []
        invariant Valid()
        decreases |entries|
      {
        AscendingTail(entries, key);
        entries := entries[1..];
        size := size - 1;
      }
    }

    /** asGetAmount: reports the stored amount of `element`, changing nothing. */
    method GetAmount(element: Option<E>) returns (r: AmountSetResult, amount: real)
      ensures element.None? ==> r == AsNullArgument
      ensures element.Some? && key(element.value) !in Amounts(entries, key) ==> r == AsItemDoesNotExist
      ensures element.Some? && key(element.value) in Amounts(entries, key) ==>
        r == AsSuccess && amount == Amounts(entries, key)[key(element.value)]
    {
      if element.None? {
        return AsNullArgument, 0.0;
      }
      var found, i := FindElement(element.value);
      if !found {
        return AsItemDoesNotExist, 0.0;
      }
      r, amount := AsSuccess, entries[i].amount;
    }

    /**
     * asChangeAmount: adds `delta` (of either sign) to the stored amount, unless the
     * result would be negative; no other entry, the order and the size stay as they were.
     */
    method ChangeAmount(element: Option<E>, delta: real) returns (r: AmountSetResult)
      requires Valid()
      modifies this
      ensures Valid()
      ensures element.None? ==> r == AsNullArgument && entries == old(entries)
      ensures element.Some? && key(element.value) !in old(Amounts(entries, key)) ==>
        r == AsItemDoesNotExist && entries == old(entries)
      ensures element.Some? && key(element.value) in old(Amounts(entries, key)) ==>
        if old(Amounts(entries, key))[key(element.value)] + delta < 0.0 then
          r == AsInsufficientAmount && entries == old(entries)
        else
          r == AsSuccess && entries == ChangeAt(old(entries), key, key(element.value), delta)
    {
      if element.None? {
        return AsNullArgument;
      }
      var found, i := FindElement(element.value);
      if !found {
        return AsItemDoesNotExist;
      }
      if entries[i].amount + delta < 0.0 {
        return AsInsufficientAmount;
      }
      ChangeAtIndex(entries, key, key(element.value), delta, i);
      ChangeAtKeepsInvariant(entries, key, key(element.value), delta);
      entries := entries[i := Entry(entries[i].elem, entries[i].amount + delta)];
      r := AsSuccess;
    }
  }

  /** asGetSize: the number of entries, or -1 for a NULL set. */
  function GetSize<E>(s: AmountSet?<E>): (n: int)
    reads s
    ensures s == null ==> n == -1
    ensures s != null && s.Valid() ==> n == |s.entries| && n >= 0
  {
    if s == null then -1 else s.size
  }

  /**
   * asCopy with the evident intent: a new set with the same comparator and the
   * same entries, amounts included, in the same order. Each entry is registered
   * and then given its amount; registering in ascending order appends.
   */
  method Copy<E>(s: AmountSet?<E>) returns (c: AmountSet?<E>)
    requires s != null ==> s.Valid()
    ensures s == null ==> c == null
    ensures s != null ==> c != null && fresh(c) && c.Valid() && c.key == s.key && c.entries == s.entries
  {
    if s == null {
      return null;
    }
    var copy := new AmountSet(s.key);
    var i := 0;
    while i < |s.entries|
      invariant 0 <= i <= |s.entries|
      invariant fresh(copy) && copy.Valid() && copy.key == s.key
      invariant copy.entries == s.entries[..i]
    {
      var e := s.entries[i];
      PrefixBelow(s.entries, s.key, i);
      var registered := copy.Register(Some(e.elem));
      var changed := copy.ChangeAmount(Some(e.elem), e.amount);
      i := i + 1;
    }
    assert s.entries[..i] == s.entries;
    return copy;
  }

  /**
   * asCopy as written: the copy re-registers every element, and registration
   * starts each entry at 0, so every amount is lost.
   */
  method CopyAsWritten<E>(s: AmountSet?<E>) returns (c: AmountSet?<E>)
    requires s != null ==> s.Valid()
    ensures s == null ==> c == null
    ensures s != null ==> c != null && fresh(c) && c.Valid() && c.entries == ZeroAmounts(s.entries)
  {
    if s == null {
      return null;
    }
    var copy := new AmountSet(s.key);
    var i := 0;
    while i < |s.entries|
      invariant 0 <= i <= |s.entries|
      invariant fresh(copy) && copy.Valid() && copy.key == s.key
      invariant copy.entries == ZeroAmounts(s.entries[..i])
    {
      var e := s.entries[i];
      PrefixBelow(ZeroAmounts(s.entries[..i + 1]), s.key, i);
      assert ZeroAmounts(s.entries[..i + 1])[..i] == ZeroAmounts(s.entries[..i]);
      var registered := copy.Register(Some(e.elem));
      assert ZeroAmounts(s.entries[..i + 1]) == ZeroAmounts(s.entries[..i]) + [Entry(e.elem, 0.0)];
      i := i + 1;
    }
    assert s.entries[..i] == s.entries;
    return copy;
  }

  /** As written, copying a set in which some amount is not 0 does not reproduce it. */
  lemma CopyAsWrittenLosesAmounts<E>(s: seq<Entry<E>>, i: nat)
    requires i < |s| && s[i].amount != 0.0
    ensures ZeroAmounts(s) != s
  {
    assert ZeroAmounts(s)[i].amount == 0.0;
  }

  /**
   * In a sorted sequence, registering the entry at position `i` into the prefix before
   * it appends it at the end.
   */
  lemma PrefixBelow<E>(s: seq<Entry<E>>, key: E -> int, i: nat)
    requires Ascending(s, key) && i < |s|
    ensures key(s[i].elem) !in Amounts(s[..i], key)
    ensures Insert(s[..i], key, s[i].elem) == s[..i] + [Entry(s[i].elem, 0.0)]
    ensures key(s[i].elem) in Amounts(s[..i] + [Entry(s[i].elem, 0.0)], key)
    ensures Amounts(s[..i] + [Entry(s[i].elem, 0.0)], key)[key(s[i].elem)] == 0.0
    ensures ChangeAt(s[..i] + [Entry(s[i].elem, 0.0)], key, key(s[i].elem), s[i].amount) == s[..i + 1]
  {
    AmountsDomain(s[..i], key, key(s[i].elem));
    InsertSplice(s[..i], key, s[i].elem, i);
    InsertAmounts(s[..i], key, s[i].elem);
    var t := s[..i] + [Entry(s[i].elem, 0.0)];
    assert t[i] == Entry(s[i].elem, 0.0);
    AmountsDomain(t, key, key(s[i].elem));
    forall j | 0 <= j < i ensures key(t[j].elem) != key(s[i].elem) {
      assert t[j] == s[j];
    }
    ChangeAtIndex(t, key, key(s[i].elem), s[i].amount, i);
    assert t[i := Entry(s[i].elem, 0.0 + s[i].amount)] == s[..i + 1];
  }
}
