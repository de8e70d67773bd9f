/**
 * The container library every analysis sits on: a growable list, fixed-width
 * bitsets, a duplicate-free FIFO worklist on a power-of-two ring, an
 * association list (the bucket of the hash map) and a hash map with a
 * distinguished "top" state that is the identity of intersection.
 */
module Container {
  import opened Base

  /* ------------------------------------------------------------------ */
  /* Growable list                                                       */
  /* ------------------------------------------------------------------ */

  class List<T(0)> {
    var arr: array<T>
    var size: nat

    ghost predicate Valid()
      reads this
    {
      0 < arr.Length && size <= arr.Length
    }

    /** The elements in order: the first `size` slots of the array. */
    function Items(): seq<T>
      reads this, arr
      requires Valid()
    {
      arr[..size]
    }

    constructor ()
      ensures Valid() && Items() == [] && arr.Length == 8
      ensures fresh(arr)
    {
      arr := new T[8];
      size := 0;
    }

    /** list_append: doubles the capacity when full, then stores last. */
    method Append(elem: T)
      requires Valid()
      modifies this, arr
      ensures Valid() && Items() == old(Items()) + [elem]
      ensures old(size) == old(arr.Length) ==> fresh(arr) && arr.Length == 2 * old(arr.Length)
      ensures old(size) < old(arr.Length) ==> arr == old(arr)
    {
      ghost var items := arr[..size];
      if arr.Length == size {
        var grown := new T[2 * arr.Length];
        var i := 0;
        while i < size
          invariant 0 <= i <= size == arr.Length
          invariant arr[..size] == items
          invariant grown.Length == 2 * arr.Length
          invariant grown[..i] == arr[..i]
        {
          grown[i] := arr[i];
          i := i + 1;
        }
        assert grown[..size] == items;
        arr := grown;
      }
      assert arr[..size] == items;
      arr[size] := elem;
      assert arr[..size + 1] == items + [elem];
      size := size + 1;
    }

    /** list_clear: forgets the elements, keeps the storage. */
    method Clear()
      requires Valid()
      modifies this
      ensures Valid() && Items() == [] && arr == old(arr)
    {
      size := 0;
    }

    /** list_last: the most recently appended element of a non-empty list. */
    method Last() returns (elem: T)
      requires Valid() && size > 0
      ensures elem == Items()[|Items()| - 1]
    {
      elem := arr[size - 1];
    }
  }

  /* ------------------------------------------------------------------ */
  /* Bitsets                                                             */
  /* ------------------------------------------------------------------ */

  /** One 64-bit word of a bitset: entry j is bit j (MASK(j) in the C code). */
  type Word = w: seq<bool> | |w| == 64 witness seq(64, _ => false)

  /** A word with every bit equal to `b` (memset 0 or 0xff). */
  function Fill(b: bool): (w: Word)
    ensures forall j :: 0 <= j < 64 ==> w[j] == b
  {
    seq(64, _ => b)
  }

  /** `a & b` on words. */
  function WordAnd(a: Word, b: Word): (w: Word)
    ensures forall j :: 0 <= j < 64 ==> w[j] == (a[j] && b[j])
  {
    seq(64, j requires 0 <= j < 64 => a[j] && b[j])
  }

  /** `a | b` on words. */
  function WordOr(a: Word, b: Word): (w: Word)
    ensures forall j :: 0 <= j < 64 ==> w[j] == (a[j] || b[j])
  {
    seq(64, j requires 0 <= j < 64 => a[j] || b[j])
  }

  /** Bit n of a bitset lives in word n / 64 at position n % 64. */
  lemma SplitIndex(k: nat, n: nat)
    ensures k == n <==> (k / 64 == n / 64 && k % 64 == n % 64)
  {
  }

  class Bitset {
    var words: array<Word>

    /** Number of addressable bits: 64 per word. */
    function Capacity(): nat
      reads this
    {
      64 * words.Length
    }

    /** bitset_test: bit n of word n / 64. */
    predicate Has(n: nat)
      reads this, words
      requires n < Capacity()
    {
      words[n / 64][n % 64]
    }

    /** new_bitset(n, i): (n + 63) / 64 words, all clear, or all set when `ones`. */
    constructor (n: nat, ones: bool)
      ensures words.Length == (n + 63) / 64 && n <= Capacity()
      ensures fresh(words)
      ensures forall k: nat :: k < Capacity() ==> Has(k) == ones
    {
      words := new Word[(n + 63) / 64](_ => Fill(ones));
    }

    /** bitset_set: bit n becomes set, every other bit keeps its value. */
    method Set(n: nat)
      requires n < Capacity()
      modifies words
      ensures forall k: nat :: k < Capacity() ==> Has(k) == (old(Has(k)) || k == n)
    {
      words[n / 64] := words[n / 64][n % 64 := true];
      forall k: nat | k < Capacity()
        ensures Has(k) == (old(Has(k)) || k == n)
      {
        SplitIndex(k, n);
      }
    }

    /** bitset_clear: bit n becomes clear, every other bit keeps its value. */
    method Clear(n: nat)
      requires n < Capacity()
      modifies words
      ensures forall k: nat :: k < Capacity() ==> Has(k) == (old(Has(k)) && k != n)
    {
      words[n / 64] := words[n / 64][n % 64 := false];
      forall k: nat | k < Capacity()
        ensures Has(k) == (old(Has(k)) && k != n)
      {
        SplitIndex(k, n);
      }
    }

    /** bitset_zero and bitset_one: every word filled with `b`. */
    method FillAll(b: bool)
      modifies words
      ensures forall k: nat :: k < Capacity() ==> Has(k) == b
    {
      forall i | 0 <= i < words.Length {
        words[i] := Fill(b);
      }
    }

    /** bitset_copy: the words of `src` are copied over. */
    method CopyFrom(src: Bitset)
      requires src.words.Length == words.Length
      modifies words
      ensures words[..] == old(src.words[..])
      ensures forall k: nat :: k < Capacity() ==> Has(k) == old(src.Has(k))
    {
      forall i | 0 <= i < words.Length {
        words[i] := src.words[i];
      }
    }

    /** bitset_and: word-wise intersection with a set of the same size. */
    method And(src: Bitset)
      requires src.words.Length == words.Length
      modifies words
      ensures forall k: nat :: k < Capacity() ==> Has(k) == (old(Has(k)) && old(src.Has(k)))
    {
      ghost var a, b := words[..], src.words[..];
      var i := 0;
      while i < words.Length
        invariant 0 <= i <= words.Length
        invariant forall j :: 0 <= j < i ==> words[j] == WordAnd(a[j], b[j])
        invariant forall j :: i <= j < words.Length ==> words[j] == a[j] && src.words[j] == b[j]
      {
        words[i] := WordAnd(words[i], src.words[i]);
        i := i + 1;
      }
    }

    /** bitset_or: word-wise union with a set of the same size. */
    method Or(src: Bitset)
      requires src.words.Length == words.Length
      modifies words
      ensures forall k: nat :: k < Capacity() ==> Has(k) == (old(Has(k)) || old(src.Has(k)))
    {
      ghost var a, b := words[..], src.words[..];
      var i := 0;
      while i < words.Length
        invariant 0 <= i <= words.Length
        invariant forall j :: 0 <= j < i ==> words[j] == WordOr(a[j], b[j])
        invariant forall j :: i <= j < words.Length ==> words[j] == a[j] && src.words[j] == b[j]
      {
        words[i] := WordOr(words[i], src.words[i]);
        i := i + 1;
      }
    }

    /** bitset_cmp: reports a difference exactly when some bit differs. */
    method Differs(src: Bitset) returns (differ: bool)
      requires src.words.Length == words.Length
      ensures differ <==> exists k: nat :: k < Capacity() && Has(k) != src.Has(k)
    {
      var i := 0;
      while i < words.Length
        invariant 0 <= i <= words.Length
        invariant forall j :: 0 <= j < i ==> words[j] == src.words[j]
      {
        if words[i] != src.words[i] {
          var b :| 0 <= b < 64 && words[i][b] != src.words[i][b];
          var k: nat := 64 * i + b;
          assert k / 64 == i && k % 64 == b;
          assert Has(k) != src.Has(k);
          return true;
        }
        i := i + 1;
      }
      forall k: nat | k < Capacity()
        ensures Has(k) == src.Has(k)
      {
        assert words[k / 64] == src.words[k / 64];
      }
      return false;
    }
  }

  /* ------------------------------------------------------------------ */
  /* Worklist                                                            */
  /* ------------------------------------------------------------------ */

  /* ------------------------------------------------------------------ */
  /* Worklist                                                            */
  /* ------------------------------------------------------------------ */

  predicate IsPow2(m: nat)
  {
    m == 1 || (m > 1 && m % 2 == 0 && IsPow2(m / 2))
  }

  /**
   * round2power(x): the least power of two that is at least x (the C code
   * gets it by smearing the top bit of x - 1 downward and adding one).
   */
  function CeilPow2(x: nat): (r: nat)
    requires x > 0
    ensures IsPow2(r) && x <= r < 2 * x
  {
    if x == 1 then 1 else 2 * CeilPow2((x + 1) / 2)
  }

  predicate Distinct(s: seq<nat>)
  {
    forall i, j :: 0 <= i < j < |s| ==> s[i] != s[j]
  }

  /** Dropping the head of a duplicate-free queue removes exactly that id. */
  lemma DistinctTail(s: seq<nat>)
    requires Distinct(s) && |s| > 0
    ensures Distinct(s[1..])
    ensures forall y :: y in s[1..] <==> (y in s && y != s[0])
  {
    forall y | y in s && y != s[0]
      ensures y in s[1..]
    {
      var i :| 0 <= i < |s| && s[i] == y;
      assert s[1..][i - 1] == y;
    }
  }

  /** The ids a queue holds. */
  function Elems(s: seq<nat>): set<nat>
  {
    set x: nat | x in s
  }

  lemma {:induction false} DistinctCard(s: seq<nat>)
    requires Distinct(s)
    ensures |Elems(s)| == |s|
  {
    if |s| > 0 {
      var t, last := s[..|s| - 1], s[|s| - 1];
      assert s == t + [last];
      assert Distinct(t);
      DistinctCard(t);
      assert Elems(s) == Elems(t) + {last};
      assert last !in Elems(t);
    } else {
      assert Elems(s) == {};
    }
  }

  /** The ids below n. */
  function Below(n: nat): (r: set<nat>)
    ensures forall x: nat :: x in r <==> x < n
    ensures |r| == n
  {
    if n == 0 then {} else
      var b := Below(n - 1);
      assert n - 1 !in b;
      b + {n - 1}
  }

  lemma SubsetCard<T>(a: set<T>, b: set<T>)
    requires a <= b
    ensures |a| <= |b|
  {
    if a != {} {
      var x :| x in a;
      SubsetCard(a - {x}, b - {x});
    }
  }

  lemma SubsetEq<T>(a: set<T>, b: set<T>)
    requires a <= b && |a| == |b|
    ensures a == b
  {
    if a != b {
      var x :| x in b && x !in a;
      SubsetCard(a, b - {x});
    }
  }

  /**
   * A duplicate-free queue of ids below n holds at most n ids, and when it
   * holds exactly n it holds every id.
   */
  lemma QueueBound(s: seq<nat>, n: nat)
    requires Distinct(s) && forall k :: 0 <= k < |s| ==> s[k] < n
    ensures |s| <= n
    ensures |s| == n ==> forall x: nat :: x < n ==> x in s
  {
    DistinctCard(s);
    var inS := Elems(s);
    assert inS <= Below(n);
    SubsetCard(inS, Below(n));
    if |s| == n {
      SubsetEq(inS, Below(n));
      forall x: nat | x < n
        ensures x in s
      {
        assert x in Elems(s);
      }
    }
  }

  /** Slot (start + k) mod |ring| holds the k-th queued id. */
  ghost predicate RingHolds(ring: seq<nat>, start: nat, c: seq<nat>)
  {
    |ring| > 0 && forall k :: 0 <= k < |c| ==> ring[(start + k) % |ring|] == c[k]
  }

  /** Writing the slot after the last queued id appends to the queue. */
  lemma RingPush(ring: seq<nat>, start: nat, c: seq<nat>, x: nat)
    requires RingHolds(ring, start, c) && |c| < |ring|
    ensures RingHolds(ring[(start + |c|) % |ring| := x], start, c + [x])
  {
    var r := ring[(start + |c|) % |ring| := x];
    forall k | 0 <= k < |c| + 1
      ensures r[(start + k) % |ring|] == (c + [x])[k]
    {
      if k < |c| {
        RingSlotsDiffer(start, k, |c|, |ring|);
      }
    }
  }

  /** Advancing the start drops the oldest id, which sits in the start slot. */
  lemma RingPop(ring: seq<nat>, start: nat, c: seq<nat>)
    requires RingHolds(ring, start, c) && |c| > 0
    ensures ring[start % |ring|] == c[0]
    ensures RingHolds(ring, start + 1, c[1..])
  {
    assert ring[(start + 0) % |ring|] == c[0];
    forall k | 0 <= k < |c| - 1
      ensures ring[(start + 1 + k) % |ring|] == c[1..][k]
    {
      assert ring[(start + (k + 1)) % |ring|] == c[k + 1];
      assert start + 1 + k == start + (k + 1);
    }
  }

  lemma RingSlotsDiffer(a: nat, k: nat, m: nat, cap: nat)
    requires k < m < cap
    ensures (a + k) % cap != (a + m) % cap
  {
    var q1, r1 := (a + k) / cap, (a + k) % cap;
    var q2, r2 := (a + m) / cap, (a + m) % cap;
    assert a + k == cap * q1 + r1;
    assert a + m == cap * q2 + r2;
    if r1 == r2 {
      var d := q2 - q1;
      assert m - k == cap * d;
      if d <= 0 {
        MulNonPos(cap, d);
      } else {
        MulAtLeast(cap, d);
      }
    }
  }

  lemma MulNonPos(c: nat, d: int)
    requires d <= 0
    ensures c * d <= 0
  {
  }

  lemma MulAtLeast(c: nat, d: int)
    requires d >= 1
    ensures c * d >= c
  {
  }

  class Worklist {
    var lst: array<nat>
    var start: nat
    var end: nat
    const size: nat
    var isIn: Bitset
    /** The queued ids, oldest first. */
    ghost var Contents: seq<nat>
    ghost var Repr: set<object>

    ghost predicate Valid()
      reads this, Repr
    {
      this in Repr && lst in Repr && isIn in Repr && isIn.words in Repr &&
      Repr == {this, lst, isIn, isIn.words} && lst as object != isIn.words &&
      size <= lst.Length && 0 < lst.Length && size <= isIn.Capacity() &&
      start <= end && end - start == |Contents| <= size &&
      RingHolds(lst[..], start, Contents) &&
      (forall k :: 0 <= k < |Contents| ==> Contents[k] < size) &&
      (forall x: nat :: x < size ==> (isIn.Has(x) <==> x in Contents)) &&
      Distinct(Contents)
    }

    /** new_worklist(n): ring capacity round2power(n), membership bitset of n bits. */
    constructor (n: nat)
      requires 0 < n <= 0x4000_0000
      ensures Valid() && fresh(Repr) && size == n && Contents == []
    {
      var m := CeilPow2(n);
      size := n;
      lst := new nat[m];
      start, end := 0, 0;
      isIn := new Bitset(n, false);
      Contents := [];
      new;
      Repr := {this, lst, isIn, isIn.words};
    }

    method Empty() returns (e: bool)
      requires Valid()
      ensures e <==> Contents == []
    {
      e := start == end;
    }

    /** The queue holds `size` ids: the test `worklist_add` asserts against. */
    method Full() returns (f: bool)
      requires Valid()
      ensures f <==> |Contents| == size
    {
      f := end == start + size;
    }

    /**
     * worklist_add: queues x at the back unless it is already queued. The
     * queue must not be full (checked before the membership test).
     */
    method Add(x: nat)
      requires Valid() && x < size && |Contents| < size
      modifies Repr
      ensures Valid() && Repr == old(Repr)
      ensures Contents == if x in old(Contents) then old(Contents) else old(Contents) + [x]
    {
      var queued := isIn.Has(x);
      if !queued {
        ghost var ring := lst[..];
        RingPush(ring, start, Contents, x);
        var slot := end % lst.Length;
        lst[slot] := x;
        assert lst[..] == ring[(start + |Contents|) % |ring| := x];
        end := end + 1;
        Contents := Contents + [x];
        isIn.Set(x);
      }
    }

    /** An id that is not queued always finds room: at most `size` distinct ids fit. */
    lemma RoomFor(x: nat)
      requires Valid() && x < size && x !in Contents
      ensures |Contents| < size
    {
      QueueBound(Contents, size);
    }

    /** worklist_pop: removes the oldest id and clears its membership. */
    method Pop() returns (x: nat)
      requires Valid() && |Contents| > 0
      modifies Repr
      ensures Valid() && Repr == old(Repr)
      ensures x == old(Contents)[0] && Contents == old(Contents)[1..]
      ensures x < size && x !in Contents
    {
      RingPop(lst[..], start, Contents);
      DistinctTail(Contents);
      x := lst[start % lst.Length];
      start := start + 1;
      isIn.Clear(x);
      Contents := Contents[1..];
    }
  }

  /* ------------------------------------------------------------------ */
  /* Association list                                                    */
  /* ------------------------------------------------------------------ */

  /** The map an entry list denotes; an earlier entry hides a later one. */
  function AsMap<K(==), V>(es: seq<(K, V)>): map<K, V>
  {
    if |es| == 0 then map[] else AsMap(es[1..])[es[0].0 := es[0].1]
  }

  predicate DistinctKeys<K(==), V>(es: seq<(K, V)>)
  {
    forall i, j :: 0 <= i < j < |es| ==> es[i].0 != es[j].0
  }

  lemma {:induction false} AsMapKeys<K, V>(es: seq<(K, V)>, k: K)
    ensures k in AsMap(es) <==> exists i :: 0 <= i < |es| && es[i].0 == k
  {
    if |es| > 0 {
      AsMapKeys(es[1..], k);
      if k != es[0].0 && k in AsMap(es) {
        var i :| 0 <= i < |es[1..]| && es[1..][i].0 == k;
        assert es[i + 1].0 == k;
      }
      if exists i :: 0 <= i < |es| && es[i].0 == k {
        var i :| 0 <= i < |es| && es[i].0 == k;
        if i > 0 {
          assert es[1..][i - 1].0 == k;
        }
      }
    }
  }

  lemma {:induction false} AsMapAt<K, V>(es: seq<(K, V)>, i: int)
    requires DistinctKeys(es) && 0 <= i < |es|
    ensures es[i].0 in AsMap(es) && AsMap(es)[es[i].0] == es[i].1
  {
    if i > 0 {
      assert DistinctKeys(es[1..]);
      AsMapAt(es[1..], i - 1);
    }
  }

  lemma {:induction false} AsMapUpdate<K, V>(es: seq<(K, V)>, i: int, v: V)
    requires DistinctKeys(es) && 0 <= i < |es|
    ensures DistinctKeys(es[i := (es[i].0, v)])
    ensures AsMap(es[i := (es[i].0, v)]) == AsMap(es)[es[i].0 := v]
  {
    if i > 0 {
      assert DistinctKeys(es[1..]);
      AsMapUpdate(es[1..], i - 1, v);
      assert es[i := (es[i].0, v)][1..] == es[1..][i - 1 := (es[i].0, v)];
    } else {
      assert es[i := (es[i].0, v)][1..] == es[1..];
    }
  }

  lemma {:induction false} AsMapDelete<K, V>(es: seq<(K, V)>, i: int)
    requires DistinctKeys(es) && 0 <= i < |es|
    ensures DistinctKeys(es[..i] + es[i + 1..])
    ensures AsMap(es[..i] + es[i + 1..]) == AsMap(es) - {es[i].0}
  {
    var rest := es[..i] + es[i + 1..];
    if i == 0 {
      assert rest == es[1..];
      assert DistinctKeys(es[1..]);
      forall j | 0 <= j < |es[1..]|
        ensures es[1..][j].0 != es[0].0
      {
        assert es[1..][j] == es[j + 1];
      }
      AsMapKeys(es[1..], es[0].0);
    } else {
      assert DistinctKeys(es[1..]);
      AsMapDelete(es[1..], i - 1);
      assert rest == [es[0]] + (es[1..][..i - 1] + es[1..][i..]);
      assert rest[1..] == es[1..][..i - 1] + es[1..][i..];
    }
  }

  lemma {:induction false} AsMapSize<K, V>(es: seq<(K, V)>)
    requires DistinctKeys(es)
    ensures |AsMap(es)| == |es|
  {
    if |es| > 0 {
      assert DistinctKeys(es[1..]);
      AsMapSize(es[1..]);
      AsMapKeys(es[1..], es[0].0);
      forall j | 0 <= j < |es[1..]|
        ensures es[1..][j].0 != es[0].0
      {
        assert es[1..][j] == es[j + 1];
      }
    }
  }

  /** Appending an entry with a new key adds exactly that binding. */
  lemma {:induction false} AsMapSnoc<K, V>(es: seq<(K, V)>, e: (K, V))
    requires e.0 !in AsMap(es)
    ensures AsMap(es + [e]) == AsMap(es)[e.0 := e.1]
  {
    if |es| > 0 {
      assert (es + [e])[1..] == es[1..] + [e];
      assert e.0 != es[0].0;
      AsMapSnoc(es[1..], e);
    } else {
      assert (es + [e])[1..] == [];
    }
  }

  lemma DistinctSnoc<K, V>(es: seq<(K, V)>, e: (K, V))
    requires DistinctKeys(es) && e.0 !in AsMap(es)
    ensures DistinctKeys(es + [e])
  {
    AsMapKeys(es, e.0);
  }

  /** One more entry of a duplicate-free list: its key is new to the prefix. */
  lemma PrefixStep<K, V>(es: seq<(K, V)>, i: int)
    requires DistinctKeys(es) && 0 <= i < |es|
    ensures DistinctKeys(es[..i])
    ensures es[i].0 !in AsMap(es[..i])
    ensures es[..i + 1] == es[..i] + [es[i]]
    ensures AsMap(es[..i + 1]) == AsMap(es[..i])[es[i].0 := es[i].1]
  {
    AsMapKeys(es[..i], es[i].0);
    assert es[..i + 1] == es[..i] + [es[i]];
    AsMapSnoc(es[..i], es[i]);
  }

  function GetOpt<K(==), V>(m: map<K, V>, k: K): Option<V>
  {
    if k in m then Some(m[k]) else None
  }

  /** The keys of a map whose binding fails `cond` are kept. */
  function FilterMap<K(==), V>(m: map<K, V>, cond: (K, V) -> bool): map<K, V>
  {
    map k | k in m && !cond(k, m[k]) :: m[k]
  }

  lemma FilterMapStep<K, V>(m: map<K, V>, k: K, v: V, cond: (K, V) -> bool)
    requires k !in m
    ensures FilterMap(m[k := v], cond) == if cond(k, v) then FilterMap(m, cond) else FilterMap(m, cond)[k := v]
  {
  }

  /** First loop of map_combine: each dst binding recombined with src's value. */
  function FirstPass<K(==), V>(d: map<K, V>, s: map<K, V>,
                               comb: (K, Option<V>, Option<V>) -> Option<V>): map<K, V>
  {
    map k | k in d && comb(k, Some(d[k]), GetOpt(s, k)).Some? :: comb(k, Some(d[k]), GetOpt(s, k)).value
  }

  /** Second loop of map_combine: src keys still unbound get comb(NULL, value). */
  function SecondPass<K(==), V>(a: map<K, V>, t: map<K, V>,
                                comb: (K, Option<V>, Option<V>) -> Option<V>): map<K, V>
  {
    map k | k in a.Keys + t.Keys && (k in a || comb(k, None, Some(t[k])).Some?) ::
      if k in a then a[k] else comb(k, None, Some(t[k])).value
  }

  /** What map_combine(dst, src, comb) leaves in dst. */
  function CombineMap<K(==), V>(d: map<K, V>, s: map<K, V>,
                                comb: (K, Option<V>, Option<V>) -> Option<V>): map<K, V>
  {
    SecondPass(FirstPass(d, s, comb), s, comb)
  }

  lemma FirstPassStep<K, V>(m: map<K, V>, s: map<K, V>, k: K, v: V,
                                comb: (K, Option<V>, Option<V>) -> Option<V>)
    requires k !in m
    ensures k !in FirstPass(m, s, comb)
    ensures FirstPass(m[k := v], s, comb) ==
              if comb(k, Some(v), GetOpt(s, k)).Some?
              then FirstPass(m, s, comb)[k := comb(k, Some(v), GetOpt(s, k)).value]
              else FirstPass(m, s, comb)
  {
  }

  lemma SecondPassStep<K, V>(a: map<K, V>, t: map<K, V>, k: K, v: V,
                                 comb: (K, Option<V>, Option<V>) -> Option<V>)
    requires k !in t
    ensures k in SecondPass(a, t, comb) <==> k in a
    ensures SecondPass(a, t[k := v], comb) ==
              if k !in a && comb(k, None, Some(v)).Some?
              then SecondPass(a, t, comb)[k := comb(k, None, Some(v)).value]
              else SecondPass(a, t, comb)
  {
  }

  /** map_and_comb: NULL unless both values exist and are equal. */
  function AndComb<K, V(==)>(k: K, v1: Option<V>, v2: Option<V>): Option<V>
  {
    if v1.None? || v2.None? then None else if v1.value == v2.value then v1 else None
  }

  /** Keys present in both maps with equal values. */
  function Intersect<K(==), V(==)>(d: map<K, V>, s: map<K, V>): map<K, V>
  {
    map k | k in d && k in s && d[k] == s[k] :: d[k]
  }

  /** map_and: combining with map_and_comb is exactly intersection. */
  lemma CombineAndIsIntersect<K, V>(d: map<K, V>, s: map<K, V>)
    ensures CombineMap(d, s, AndComb) == Intersect(d, s)
  {
    var f := FirstPass(d, s, AndComb);
    assert f == Intersect(d, s);
    assert SecondPass(f, s, AndComb) == f;
  }

  class AssocMap<K(==), V(==)> {
    /** The nodes in list order. */
    var entries: seq<(K, V)>

    ghost predicate Valid()
      reads this
    {
      DistinctKeys(entries)
    }

    function Model(): map<K, V>
      reads this
    {
      AsMap(entries)
    }

    constructor ()
      ensures Valid() && entries == []
    {
      entries := [];
    }

    /** map_find: the position of the node holding key, or -1. */
    method Find(key: K) returns (i: int)
      requires Valid()
      ensures -1 <= i < |entries|
      ensures i == -1 <==> key !in Model()
      ensures 0 <= i ==> entries[i].0 == key
    {
      AsMapKeys(entries, key);
      i := 0;
      while i < |entries|
        invariant 0 <= i <= |entries|
        invariant forall j :: 0 <= j < i ==> entries[j].0 != key
      {
        if entries[i].0 == key {
          return;
        }
        i := i + 1;
      }
      i := -1;
    }

    /** map_get: the value bound to key, or NULL. */
    method Get(key: K) returns (v: Option<V>)
      requires Valid()
      ensures v == GetOpt(Model(), key)
    {
      var i := Find(key);
      if i >= 0 {
        AsMapAt(entries, i);
        v := Some(entries[i].1);
      } else {
        v := None;
      }
    }

    /** map_remove: unlinks the node holding key and returns its value. */
    method Remove(key: K) returns (v: Option<V>)
      requires Valid()
      modifies this
      ensures Valid()
      ensures v == GetOpt(old(Model()), key)
      ensures Model() == old(Model()) - {key}
    {
      var i := Find(key);
      if i >= 0 {
        AsMapAt(entries, i);
        AsMapDelete(entries, i);
        v := Some(entries[i].1);
        entries := entries[..i] + entries[i + 1..];
      } else {
        v := None;
      }
    }

    /**
     * map_put: a NULL value removes the key (-1); otherwise an existing node
     * is updated (0) or a new node is linked at the front (1).
     */
    method Put(key: K, value: Option<V>) returns (r: int)
      requires Valid()
      modifies this
      ensures Valid()
      ensures value.None? ==> r == -1 && Model() == old(Model()) - {key}
      ensures value.Some? ==> Model() == old(Model())[key := value.value]
      ensures value.Some? ==> (r == 0 <==> key in old(Model())) && (r == 1 <==> key !in old(Model()))
    {
      if value.None? {
        var _ := Remove(key);
        return -1;
      }
      var i := Find(key);
      if i >= 0 {
        AsMapUpdate(entries, i, value.value);
        entries := entries[i := (key, value.value)];
        return 0;
      }
      AsMapKeys(entries, key);
      entries := [(key, value.value)] + entries;
      return 1;
    }

    /** map_removeif: unlinks every node satisfying cond; returns how many. */
    method RemoveIf(cond: (K, V) -> bool) returns (removed: nat)
      requires Valid()
      modifies this
      ensures Valid()
      ensures Model() == FilterMap(old(Model()), cond)
      ensures removed == |old(entries)| - |entries|
    {
      var es := entries;
      var kept: seq<(K, V)> := [];
      var i := 0;
      removed := 0;
      while i < |es|
        invariant 0 <= i <= |es|
        invariant DistinctKeys(kept)
        invariant AsMap(kept) == FilterMap(AsMap(es[..i]), cond)
        invariant removed + |kept| == i
      {
        var e := es[i];
        PrefixStep(es, i);
        FilterMapStep(AsMap(es[..i]), e.0, e.1, cond);
        if cond(e.0, e.1) {
          removed := removed + 1;
        } else {
          DistinctSnoc(kept, e);
          AsMapSnoc(kept, e);
          kept := kept + [e];
        }
        i := i + 1;
      }
      assert es[..i] == es;
      entries := kept;
    }

    /** map_removeall: the map becomes empty. */
    method RemoveAll()
      modifies this
      ensures Valid() && entries == []
    {
      entries := [];
    }

    /**
     * map_combine: every dst node is recombined with src's value for its key
     * (a NULL result unlinks it), then every src key left without a dst
     * value is combined with NULL and, when non-NULL, put into dst.
     */
    method Combine(src: AssocMap<K, V>, comb: (K, Option<V>, Option<V>) -> Option<V>)
      requires Valid() && src.Valid() && src != this
      modifies this
      ensures Valid()
      ensures Model() == CombineMap(old(Model()), src.Model(), comb)
    {
      ghost var s := src.Model();
      var es := entries;
      var kept: seq<(K, V)> := [];
      var i := 0;
      while i < |es|
        invariant 0 <= i <= |es|
        invariant DistinctKeys(kept)
        invariant AsMap(kept) == FirstPass(AsMap(es[..i]), s, comb)
      {
        var e := es[i];
        PrefixStep(es, i);
        FirstPassStep(AsMap(es[..i]), s, e.0, e.1, comb);
        var sv := src.Get(e.0);
        var v := comb(e.0, Some(e.1), sv);
        if v.Some? {
          DistinctSnoc(kept, (e.0, v.value));
          AsMapSnoc(kept, (e.0, v.value));
          kept := kept + [(e.0, v.value)];
        }
        i := i + 1;
      }
      assert es[..i] == es;
      ghost var afterFirst := AsMap(kept);
      entries := kept;
      var srcEntries := src.entries;
      i := 0;
      while i < |srcEntries|
        invariant 0 <= i <= |srcEntries|
        invariant Valid()
        invariant Model() == SecondPass(afterFirst, AsMap(srcEntries[..i]), comb)
      {
        var e := srcEntries[i];
        PrefixStep(srcEntries, i);
        SecondPassStep(afterFirst, AsMap(srcEntries[..i]), e.0, e.1, comb);
        var dv := Get(e.0);
        if dv.None? {
          var v := comb(e.0, None, Some(e.1));
          if v.Some? {
            var _ := Put(e.0, v);
          }
        }
        i := i + 1;
      }
      assert srcEntries[..i] == srcEntries;
    }

    /** map_copy: dst is emptied, then every src binding is put. */
    method CopyFrom(src: AssocMap<K, V>)
      requires src.Valid() && src != this
      modifies this
      ensures Valid() && Model() == src.Model()
    {
      entries := [];
      var i := 0;
      while i < |src.entries|
        invariant 0 <= i <= |src.entries|
        invariant Valid() && Model() == AsMap(src.entries[..i])
      {
        var e := src.entries[i];
        PrefixStep(src.entries, i);
        var _ := Put(e.0, Some(e.1));
        i := i + 1;
      }
      assert src.entries[..i] == src.entries;
    }

    /** map_and: keeps exactly the keys bound in both maps to equal values. */
    method And(src: AssocMap<K, V>)
      requires Valid() && src.Valid() && src != this
      modifies this
      ensures Valid()
      ensures Model() == Intersect(old(Model()), src.Model())
    {
      CombineAndIsIntersect(Model(), src.Model());
      Combine(src, AndComb);
    }

    /** map_cmp: 1 when the sizes differ or some binding of this map is not in m2. */
    method Differs(m2: AssocMap<K, V>) returns (differ: bool)
      requires Valid() && m2.Valid()
      ensures differ <==> Model() != m2.Model()
    {
      AsMapSize(entries);
      AsMapSize(m2.entries);
      if |entries| != |m2.entries| {
        return true;
      }
      var i := 0;
      while i < |entries|
        invariant 0 <= i <= |entries|
        invariant forall j :: 0 <= j < i ==> entries[j].0 in m2.Model() && m2.Model()[entries[j].0] == entries[j].1
      {
        var v2 := m2.Get(entries[i].0);
        AsMapAt(entries, i);
        if v2.None? || v2.value != entries[i].1 {
          return true;
        }
        i := i + 1;
      }
      forall k | k in Model()
        ensures k in m2.Model() && m2.Model()[k] == Model()[k]
      {
        AsMapKeys(entries, k);
        var j :| 0 <= j < |entries| && entries[j].0 == k;
        AsMapAt(entries, j);
      }
      SubsetEq(Model().Keys, m2.Model().Keys);
      return false;
    }
  }

  /* ------------------------------------------------------------------ */
  /* Hash map with top                                                   */
  /* ------------------------------------------------------------------ */

  /** The three answers of hmap_get: ANY on top, the value, or NULL. */
  datatype Lookup<V> = Any | Found(value: V) | Absent

  /** A hash-map value: the distinguished top, or a finite map. */
  datatype Fact<K, V> = Top | Known(m: map<K, V>)

  /** Intersection meet with top as identity. */
  function Meet<K(==), V(==)>(a: Fact<K, V>, b: Fact<K, V>): Fact<K, V>
  {
    if a.Top? then b else if b.Top? then a else Known(Intersect(a.m, b.m))
  }

  lemma MeetTopIdentity<K, V>(a: Fact<K, V>)
    ensures Meet(Top, a) == a && Meet(a, Top) == a
  {
  }

  lemma MeetCommutes<K, V>(a: Fact<K, V>, b: Fact<K, V>)
    ensures Meet(a, b) == Meet(b, a)
  {
    if a.Known? && b.Known? {
      assert Intersect(a.m, b.m) == Intersect(b.m, a.m);
    }
  }

  lemma MeetAssociates<K, V>(a: Fact<K, V>, b: Fact<K, V>, c: Fact<K, V>)
    ensures Meet(Meet(a, b), c) == Meet(a, Meet(b, c))
  {
    if a.Known? && b.Known? && c.Known? {
      assert Intersect(Intersect(a.m, b.m), c.m) == Intersect(a.m, Intersect(b.m, c.m));
    }
  }

  lemma MeetIdempotent<K, V>(a: Fact<K, V>)
    ensures Meet(a, a) == a
  {
    if a.Known? {
      assert Intersect(a.m, a.m) == a.m;
    }
  }

  /** The meet keeps only bindings that both sides hold. */
  lemma MeetIsLowerBound<K, V>(a: Fact<K, V>, b: Fact<K, V>, k: K)
    requires Meet(a, b).Known? && k in Meet(a, b).m
    ensures a.Known? ==> k in a.m && a.m[k] == Meet(a, b).m[k]
    ensures b.Known? ==> k in b.m && b.m[k] == Meet(a, b).m[k]
  {
  }

  class HashMap<K(==), V(==)> {
    var contents: map<K, V>
    var isTop: bool

    /** A top map holds no entries (hmap_copy empties it before going top). */
    ghost predicate Valid()
      reads this
    {
      isTop ==> contents == map[]
    }

    function Value(): Fact<K, V>
      reads this
    {
      if isTop then Top else Known(contents)
    }

    /** new_hmap: an empty map, top or not. */
    constructor (top: bool)
      ensures Valid() && contents == map[] && isTop == top
    {
      contents := map[];
      isTop := top;
    }

    /** hmap_put: the map must not be top; a NULL value removes the key. */
    method Put(key: K, value: Option<V>)
      requires Valid() && !isTop
      modifies this
      ensures Valid() && !isTop
      ensures contents == if value.None? then old(contents) - {key} else old(contents)[key := value.value]
    {
      if value.None? {
        contents := contents - {key};
      } else {
        contents := contents[key := value.value];
      }
    }

    /** hmap_get: ANY on top, else the stored value or NULL. */
    method Get(key: K) returns (r: Lookup<V>)
      requires Valid()
      ensures isTop ==> r == Any
      ensures !isTop ==> r == if key in contents then Found(contents[key]) else Absent
    {
      if isTop {
        return Any;
      }
      r := if key in contents then Found(contents[key]) else Absent;
    }

    /** hmap_remove: the map must not be top; returns the removed value. */
    method Remove(key: K) returns (v: Option<V>)
      requires Valid() && !isTop
      modifies this
      ensures Valid() && !isTop
      ensures v == if key in old(contents) then Some(old(contents)[key]) else None
      ensures contents == old(contents) - {key}
    {
      v := if key in contents then Some(contents[key]) else None;
      contents := contents - {key};
    }

    /** hmap_removeif: the map must not be top; returns how many were removed. */
    method RemoveIf(cond: (K, V) -> bool) returns (removed: nat)
      requires Valid() && !isTop
      modifies this
      ensures Valid() && !isTop
      ensures contents == FilterMap(old(contents), cond)
      ensures removed == |old(contents)| - |contents|
    {
      var kept := FilterMap(contents, cond);
      assert kept.Keys <= contents.Keys;
      SubsetCard(kept.Keys, contents.Keys);
      removed := |contents| - |kept|;
      contents := kept;
    }

    /** hmap_removeall: the map must not be top. */
    method RemoveAll()
      requires Valid() && !isTop
      modifies this
      ensures Valid() && !isTop && contents == map[]
    {
      contents := map[];
    }

    /** hmap_combine: bucket-wise map_combine; neither map may be top. */
    method Combine(src: HashMap<K, V>, comb: (K, Option<V>, Option<V>) -> Option<V>)
      requires Valid() && src.Valid() && !isTop && !src.isTop
      modifies this
      ensures Valid() && !isTop
      ensures contents == CombineMap(old(contents), old(src.contents), comb)
    {
      contents := CombineMap(contents, src.contents, comb);
    }

    /** hmap_copy: dst becomes top iff src is top, else gets src's entries. */
    method CopyFrom(src: HashMap<K, V>)
      requires Valid() && src.Valid()
      modifies this
      ensures Valid() && isTop == old(src.isTop)
      ensures Value() == old(src.Value())
    {
      if src.isTop {
        if !isTop {
          contents := map[];
          isTop := true;
        }
      } else {
        isTop := false;
        contents := src.contents;
      }
    }

    /** hmap_and: intersection meet in place, top being its identity. */
    method And(src: HashMap<K, V>)
      requires Valid() && src.Valid()
      modifies this
      ensures Valid()
      ensures Value() == Meet(old(Value()), old(src.Value()))
    {
      if src.isTop {
        return;
      } else if isTop {
        CopyFrom(src);
      } else {
        CombineAndIsIntersect(contents, src.contents);
        Combine(src, AndComb);
      }
    }

    /** hmap_cmp: equal iff both are top or both hold the same entries. */
    method Differs(other: HashMap<K, V>) returns (differ: bool)
      requires Valid() && other.Valid()
      ensures differ <==> Value() != other.Value()
    {
      if isTop || other.isTop {
        return isTop != other.isTop;
      }
      if |contents| != |other.contents| {
        return true;
      }
      var todo := contents.Keys;
      while todo != {}
        invariant todo <= contents.Keys
        invariant forall k :: k in contents && k !in todo ==> k in other.contents && other.contents[k] == contents[k]
        decreases |todo|
      {
        var k :| k in todo;
        if k !in other.contents || other.contents[k] != contents[k] {
          return true;
        }
        todo := todo - {k};
      }
      SubsetEq(contents.Keys, other.contents.Keys);
      assert contents == other.contents;
      return false;
    }
  }
}
