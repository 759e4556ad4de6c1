/** Structural equality of JavaScript values. */
module DeepEqual {

  /**
   Values without NaN. An object has an identity, which `===` compares, and its own properties in the order
   of `Object.keys`.
   */
  datatype Value =
    | Undefined
    | Null
    | Boolean(b: bool)
    | Number(r: real)
    | Text(s: string)
    | Array(id: nat, items: seq<Value>)
    | Object(id: nat, entries: seq<(string, Value)>)

  predicate IsObject(v: Value) { v.Array? || v.Object? }

  /** An array index as a property name. */
  function Decimal(n: nat): (s: string)
    ensures s != ""
  {
    var digit := ['0' + (n % 10) as char];
    if n < 10 then digit else Decimal(n / 10) + digit
  }

  lemma {:induction false} DecimalIsInjective(m: nat, n: nat)
    requires Decimal(m) == Decimal(n)
    ensures m == n
    decreases m
  {
    var s, t := Decimal(m), Decimal(n);
    assert s[|s| - 1] == '0' + (m % 10) as char && t[|t| - 1] == '0' + (n % 10) as char;
    assert m % 10 == n % 10;
    if m >= 10 && n >= 10 {
      assert s[..|s| - 1] == Decimal(m / 10) && t[..|t| - 1] == Decimal(n / 10);
      DecimalIsInjective(m / 10, n / 10);
    }
  }

  /** The number a text of digits stands for. */
  function NumberOf(s: string): nat
    requires forall i | 0 <= i < |s| :: '0' <= s[i] <= '9'
  {
    if s == "" then 0 else NumberOf(s[..|s| - 1]) * 10 + (s[|s| - 1] as int - '0' as int)
  }

  /** It is the number, in digits, without a leading zero. */
  lemma {:induction false} DecimalPrints(n: nat)
    ensures forall i | 0 <= i < |Decimal(n)| :: '0' <= Decimal(n)[i] <= '9'
    ensures NumberOf(Decimal(n)) == n
    ensures Decimal(n)[0] == '0' ==> n == 0
  {
    var s := Decimal(n);
    if n >= 10 {
      DecimalPrints(n / 10);
      assert s[..|s| - 1] == Decimal(n / 10);
    } else {
      assert s[..|s| - 1] == "";
    }
  }

  function Width(v: Value): nat
    requires IsObject(v)
  {
    if v.Array? then |v.items| else |v.entries|
  }

  function Key(v: Value, i: nat): string
    requires IsObject(v) && i < Width(v)
  {
    if v.Array? then Decimal(i) else v.entries[i].0
  }

  /** `Object.keys`. */
  function Keys(v: Value): seq<string>
    requires IsObject(v)
  {
    seq(Width(v), i requires 0 <= i < Width(v) => Key(v, i))
  }

  function Find(keys: seq<string>, k: string): (i: nat)
    requires k in keys
    ensures i < |keys| && keys[i] == k
  {
    if keys[0] == k then 0 else 1 + Find(keys[1..], k)
  }

  /** `===`. */
  predicate Same(a: Value, b: Value)
  {
    if IsObject(a) && IsObject(b) then a.id == b.id else a == b
  }

  /** A property's value; a value contains it. */
  function Child(v: Value, i: nat): (c: Value)
    requires IsObject(v) && i < Width(v)
    ensures c < v
  {
    if v.Array? then v.items[i] else v.entries[i].1
  }

  /** The value of `b` under the key of the `i`-th property of `a`. */
  function Counterpart(a: Value, b: Value, i: nat): Value
    requires IsObject(a) && IsObject(b) && i < Width(a) && Key(a, i) in Keys(b)
  {
    Child(b, Find(Keys(b), Key(a, i)))
  }

  predicate DeepEq(a: Value, b: Value)
    decreases a
  {
    || Same(a, b)
    || (IsObject(a) && IsObject(b) && Width(a) == Width(b)
        && forall i | 0 <= i < Width(a) ::
             Key(a, i) in Keys(b) && DeepEq(Child(a, i), Counterpart(a, b, i)))
  }

  /** `deepEqual`: the keys of the first value are checked one after the other. */
  method Compare(obj1: Value, obj2: Value) returns (equal: bool)
    ensures equal == DeepEq(obj1, obj2)
    decreases obj1
  {
    if Same(obj1, obj2) {
      return true;
    }
    if !IsObject(obj1) || !IsObject(obj2) {
      return false;
    }
    if Width(obj1) != Width(obj2) {
      return false;
    }
    for i := 0 to Width(obj1)
      invariant forall k | 0 <= k < i ::
                  Key(obj1, k) in Keys(obj2) && DeepEq(Child(obj1, k), Counterpart(obj1, obj2, k))
    {
      if Key(obj1, i) !in Keys(obj2) {
        return false;
      }
      var same := Compare(Child(obj1, i), Counterpart(obj1, obj2, i));
      if !same {
        return false;
      }
    }
    equal := true;
  }

  // ----- What it decides -----

  /** A value without identities and key order; arrays are objects keyed by index. */
  datatype Structure = Leaf(v: Value) | Node(children: map<string, Structure>)

  function Erase(v: Value): Structure
    decreases v
  {
    if !IsObject(v) then Leaf(v)
    else Node(map k | k in Keys(v) :: Erase(Child(v, Find(Keys(v), k))))
  }

  /** Object keys are distinct, throughout. */
  ghost predicate WellFormed(v: Value)
    decreases v
  {
    match v
    case Array(_, items) => forall i | 0 <= i < |items| :: WellFormed(items[i])
    case Object(_, entries) =>
      && (forall i, j | 0 <= i < j < |entries| :: entries[i].0 != entries[j].0)
      && (forall i | 0 <= i < |entries| :: WellFormed(entries[i].1))
    case _ => true
  }

  /** One memory: an identity stands for one object. */
  ghost predicate InMemory(v: Value, memory: nat -> Value)
    decreases v
  {
    match v
    case Array(id, items) => memory(id) == v && forall i | 0 <= i < |items| :: InMemory(items[i], memory)
    case Object(id, entries) => memory(id) == v && forall i | 0 <= i < |entries| :: InMemory(entries[i].1, memory)
    case _ => true
  }

  lemma KeysAreDistinct(v: Value)
    requires IsObject(v) && WellFormed(v)
    ensures forall i, j | 0 <= i < j < |Keys(v)| :: Keys(v)[i] != Keys(v)[j]
  {
    if v.Array? {
      forall i, j | 0 <= i < j < |Keys(v)| ensures Keys(v)[i] != Keys(v)[j] {
        if Decimal(i) == Decimal(j) { DecimalIsInjective(i, j); }
      }
    }
  }

  function Elements(s: seq<string>): set<string> { set x | x in s }

  lemma {:induction false} DistinctSize(s: seq<string>)
    requires forall i, j | 0 <= i < j < |s| :: s[i] != s[j]
    ensures |Elements(s)| == |s|
  {
    if s != [] {
      DistinctSize(s[1..]);
      assert Elements(s) == Elements(s[1..]) + {s[0]};
    }
  }

  lemma SubsetOfSameSize(a: set<string>, b: set<string>)
    requires a <= b && |a| == |b|
    ensures a == b
  {
    assert b == a + (b - a);
    assert |b| == |a| + |b - a|;
  }

  /** Equal length and one-way inclusion of distinct keys give the same keys. */
  lemma OneWayInclusionIsEnough(a: seq<string>, b: seq<string>)
    requires forall i, j | 0 <= i < j < |a| :: a[i] != a[j]
    requires forall i, j | 0 <= i < j < |b| :: b[i] != b[j]
    requires |a| == |b| && forall k | k in a :: k in b
    ensures Elements(a) == Elements(b)
  {
    DistinctSize(a);
    DistinctSize(b);
    SubsetOfSameSize(Elements(a), Elements(b));
  }

  lemma FindKey(v: Value, i: nat)
    requires IsObject(v) && WellFormed(v) && i < Width(v)
    ensures Keys(v)[i] in Keys(v) && Find(Keys(v), Key(v, i)) == i
  {
    KeysAreDistinct(v);
  }

  /** The erased children, key by key. */
  lemma ErasedChild(v: Value, i: nat)
    requires IsObject(v) && WellFormed(v) && i < Width(v)
    ensures Erase(v).Node? && Key(v, i) in Erase(v).children && Erase(v).children[Key(v, i)] == Erase(Child(v, i))
  {
    FindKey(v, i);
  }

  lemma ErasedKeys(v: Value)
    requires IsObject(v)
    ensures Erase(v).Node? && Erase(v).children.Keys == Elements(Keys(v))
  {
  }

  lemma NamesOfObject(id: nat, entries: seq<(string, Value)>)
    ensures Elements(Keys(Object(id, entries))) == set e | e in entries :: e.0
  {
    var keys := Keys(Object(id, entries));
    forall k ensures k in keys <==> k in set e | e in entries :: e.0 {
      if k in keys {
        var i :| 0 <= i < |keys| && keys[i] == k;
        assert entries[i] in entries;
      }
      if e :| e in entries && e.0 == k {
        var i :| 0 <= i < |entries| && entries[i] == e;
        assert keys[i] == k;
      }
    }
  }

  function Positions(n: nat): set<string> { set i: nat | i < n :: Decimal(i) }

  lemma NamesOfArray(id: nat, items: seq<Value>)
    ensures Elements(Keys(Array(id, items))) == Positions(|items|)
  {
    var keys := Keys(Array(id, items));
    var names := Positions(|items|);
    forall k ensures k in Elements(keys) <==> k in names {
      if k in keys {
        var i :| 0 <= i < |keys| && keys[i] == k;
        assert Decimal(i) == k;
      }
      if i: nat :| i < |items| && Decimal(i) == k {
        assert keys[i] == k;
      }
    }
    assert Elements(keys) == names;
  }

  /** An object without identity and order: its names, each with its own value. */
  lemma {:induction false} ErasedObject(id: nat, entries: seq<(string, Value)>)
    requires WellFormed(Object(id, entries))
    ensures var erased := Erase(Object(id, entries));
            && erased.Node? && erased.children.Keys == (set e | e in entries :: e.0)
            && forall i | 0 <= i < |entries| ::
                 entries[i].0 in erased.children && erased.children[entries[i].0] == Erase(entries[i].1)
  {
    var v := Object(id, entries);
    ErasedKeys(v);
    NamesOfObject(id, entries);
    forall i | 0 <= i < |entries|
      ensures entries[i].0 in Erase(v).children && Erase(v).children[entries[i].0] == Erase(entries[i].1)
    {
      ErasedChild(v, i);
      assert Key(v, i) == entries[i].0 && Child(v, i) == entries[i].1;
    }
  }

  /** An array likewise, with the positions in digits for names. */
  lemma {:induction false} ErasedArray(id: nat, items: seq<Value>)
    requires WellFormed(Array(id, items))
    ensures var erased := Erase(Array(id, items));
            && erased.Node? && erased.children.Keys == Positions(|items|)
            && forall i | 0 <= i < |items| ::
                 Decimal(i) in erased.children && erased.children[Decimal(i)] == Erase(items[i])
  {
    var v := Array(id, items);
    ErasedKeys(v);
    NamesOfArray(id, items);
    forall i | 0 <= i < |items|
      ensures Decimal(i) in Erase(v).children && Erase(v).children[Decimal(i)] == Erase(items[i])
    {
      ErasedChild(v, i);
      assert Key(v, i) == Decimal(i) && Child(v, i) == items[i];
    }
  }

  /** Anything else is itself. */
  lemma ErasedLeaf(v: Value)
    requires !v.Array? && !v.Object?
    ensures Erase(v) == Leaf(v)
  {
  }

  lemma {:induction false} ErasedCounterpart(a: Value, b: Value, i: nat)
    requires WellFormed(a) && WellFormed(b) && IsObject(a) && IsObject(b) && i < Width(a) && Key(a, i) in Keys(b)
    ensures Key(a, i) in Erase(a).children && Key(a, i) in Erase(b).children
    ensures Erase(a).children[Key(a, i)] == Erase(Child(a, i))
    ensures Erase(b).children[Key(a, i)] == Erase(Counterpart(a, b, i))
  {
    ErasedChild(a, i);
    ErasedChild(b, Find(Keys(b), Key(a, i)));
  }

  lemma {:induction false} ErasedChildrenDecide(a: Value, b: Value)
    requires WellFormed(a) && WellFormed(b) && IsObject(a) && IsObject(b) && Elements(Keys(a)) == Elements(Keys(b))
    requires forall i | 0 <= i < Width(a) ::
               Key(a, i) in Keys(b) && Erase(Child(a, i)) == Erase(Counterpart(a, b, i))
    ensures Erase(a) == Erase(b)
  {
    ErasedKeys(a);
    ErasedKeys(b);
    forall k | k in Erase(a).children ensures Erase(a).children[k] == Erase(b).children[k] {
      ErasedCounterpart(a, b, Find(Keys(a), k));
    }
    assert Erase(a).children == Erase(b).children;
  }

  lemma {:induction false} EqualSoErasedEqual(a: Value, b: Value, memory: nat -> Value)
    requires WellFormed(a) && WellFormed(b) && InMemory(a, memory) && InMemory(b, memory)
    requires DeepEq(a, b)
    ensures Erase(a) == Erase(b)
    decreases a
  {
    if !Same(a, b) {
      EqualSoSameKeys(a, b);
      forall i | 0 <= i < Width(a)
        ensures Key(a, i) in Keys(b) && Erase(Child(a, i)) == Erase(Counterpart(a, b, i))
      {
        EqualChild(a, b, i, memory);
        EqualSoErasedEqual(Child(a, i), Counterpart(a, b, i), memory);
      }
      ErasedChildrenDecide(a, b);
    }
  }

  lemma EqualSoSameKeys(a: Value, b: Value)
    requires WellFormed(a) && WellFormed(b) && DeepEq(a, b) && !Same(a, b)
    ensures IsObject(a) && IsObject(b) && Elements(Keys(a)) == Elements(Keys(b))
  {
    KeysAreDistinct(a);
    KeysAreDistinct(b);
    forall k | k in Keys(a) ensures k in Keys(b) {
      assert Key(a, Find(Keys(a), k)) in Keys(b);
    }
    OneWayInclusionIsEnough(Keys(a), Keys(b));
  }

  lemma EqualChild(a: Value, b: Value, i: nat, memory: nat -> Value)
    requires WellFormed(a) && WellFormed(b) && InMemory(a, memory) && InMemory(b, memory)
    requires DeepEq(a, b) && !Same(a, b) && IsObject(a) && IsObject(b) && i < Width(a)
    ensures Key(a, i) in Keys(b)
    ensures var c, d := Child(a, i), Counterpart(a, b, i);
            DeepEq(c, d) && WellFormed(c) && WellFormed(d) && InMemory(c, memory) && InMemory(d, memory)
  {
  }

  lemma {:induction false} ErasedEqualChild(a: Value, b: Value, i: nat)
    requires WellFormed(a) && WellFormed(b) && IsObject(a) && IsObject(b) && Erase(a) == Erase(b) && i < Width(a)
    ensures Key(a, i) in Keys(b) && Erase(Child(a, i)) == Erase(Counterpart(a, b, i))
    ensures WellFormed(Child(a, i)) && WellFormed(Counterpart(a, b, i))
  {
    ErasedKeys(b);
    ErasedChild(a, i);
    ErasedCounterpart(a, b, i);
  }

  lemma {:induction false} ErasedEqualSameWidth(a: Value, b: Value)
    requires WellFormed(a) && WellFormed(b) && IsObject(a) && IsObject(b) && Erase(a) == Erase(b)
    ensures Width(a) == Width(b)
  {
    KeysAreDistinct(a);
    KeysAreDistinct(b);
    ErasedKeys(a);
    ErasedKeys(b);
    DistinctSize(Keys(a));
    DistinctSize(Keys(b));
  }

  lemma {:induction false} ErasedEqualSoEqual(a: Value, b: Value)
    requires WellFormed(a) && WellFormed(b) && Erase(a) == Erase(b)
    ensures DeepEq(a, b)
    decreases a
  {
    if IsObject(a) && IsObject(b) {
      ErasedEqualSameWidth(a, b);
      forall i | 0 <= i < Width(a)
        ensures Key(a, i) in Keys(b) && DeepEq(Child(a, i), Counterpart(a, b, i))
      {
        ErasedEqualChild(a, b, i);
        ErasedEqualSoEqual(Child(a, i), Counterpart(a, b, i));
      }
    }
  }

  /**
   On values of one memory, `deepEqual` is equality of structure: same leaves under the same keys, whatever
   the key order, and whether an array or an object holds them.
   */
  lemma DeepEqualIsStructural(a: Value, b: Value, memory: nat -> Value)
    requires WellFormed(a) && WellFormed(b) && InMemory(a, memory) && InMemory(b, memory)
    ensures DeepEq(a, b) <==> Erase(a) == Erase(b)
  {
    if DeepEq(a, b) { EqualSoErasedEqual(a, b, memory); }
    if Erase(a) == Erase(b) { ErasedEqualSoEqual(a, b); }
  }

  /** Two arrays are equal exactly when they are equal item by item. */
  lemma ArraysEqualIff(i: nat, xs: seq<Value>, j: nat, ys: seq<Value>)
    requires i != j
    ensures DeepEq(Array(i, xs), Array(j, ys)) <==> |xs| == |ys| && forall k | 0 <= k < |xs| :: DeepEq(xs[k], ys[k])
  {
    var a, b := Array(i, xs), Array(j, ys);
    forall k | 0 <= k < |xs| && |xs| == |ys| ensures Decimal(k) in Keys(b) && Counterpart(a, b, k) == ys[k] {
      assert Keys(b)[k] == Decimal(k);
      DecimalIsInjective(Find(Keys(b), Decimal(k)), k);
    }
    if DeepEq(a, b) {
      forall k | 0 <= k < |xs| ensures DeepEq(xs[k], ys[k]) { assert Key(a, k) == Decimal(k); }
    }
  }

  /** Some property of the second object has the name and an equal value. */
  ghost predicate HasEqual(name: string, value: Value, f: seq<(string, Value)>)
  {
    exists l :: 0 <= l < |f| && f[l].0 == name && DeepEq(value, f[l].1)
  }

  /** Two objects, exactly when they have as many properties, and each of one is in the other with an equal value. */
  lemma ObjectsEqualIff(i: nat, e: seq<(string, Value)>, j: nat, f: seq<(string, Value)>)
    requires i != j && WellFormed(Object(j, f))
    ensures DeepEq(Object(i, e), Object(j, f))
            <==> |e| == |f| && forall k | 0 <= k < |e| :: HasEqual(e[k].0, e[k].1, f)
  {
    var a, b := Object(i, e), Object(j, f);
    forall k | 0 <= k < |e|
      ensures (Key(a, k) in Keys(b) && DeepEq(Child(a, k), Counterpart(a, b, k))) <==> HasEqual(e[k].0, e[k].1, f)
    {
      CounterpartIff(a, b, k);
    }
  }

  lemma {:induction false} CounterpartIff(a: Value, b: Value, k: nat)
    requires a.Object? && b.Object? && WellFormed(b) && k < Width(a)
    ensures Key(a, k) in Keys(b) && DeepEq(Child(a, k), Counterpart(a, b, k))
            <==> HasEqual(a.entries[k].0, a.entries[k].1, b.entries)
  {
    if Key(a, k) in Keys(b) {
      var l := Find(Keys(b), Key(a, k));
      assert b.entries[l].0 == Keys(b)[l] && Counterpart(a, b, k) == b.entries[l].1;
    }
    if l: nat :| l < |b.entries| && b.entries[l].0 == a.entries[k].0 && DeepEq(a.entries[k].1, b.entries[l].1) {
      FindKey(b, l);
      assert Keys(b)[l] == Key(a, k) && Counterpart(a, b, k) == b.entries[l].1;
    }
  }

  /** So it is an equivalence. */
  lemma DeepEqualIsEquivalence(a: Value, b: Value, c: Value, memory: nat -> Value)
    requires WellFormed(a) && WellFormed(b) && WellFormed(c)
    requires InMemory(a, memory) && InMemory(b, memory) && InMemory(c, memory)
    ensures DeepEq(a, a)
    ensures DeepEq(a, b) <==> DeepEq(b, a)
    ensures DeepEq(a, b) && DeepEq(b, c) ==> DeepEq(a, c)
  {
    DeepEqualIsStructural(a, a, memory);
    DeepEqualIsStructural(a, b, memory);
    DeepEqualIsStructural(b, a, memory);
    DeepEqualIsStructural(b, c, memory);
    DeepEqualIsStructural(a, c, memory);
  }
}
