/** lessql/utils.py: a mapping keyed by classes whose lookup falls back along
    the key's method resolution order (MRO). The MRO is passed in explicitly. */
module ClassDicts {
  import opened Results

  /** A key as handed to ClassDict: either a class or an instance of one. */
  datatype Obj<K> = ClassObj(cls: K) | Instance(cls: K)

  /** get_class: a class is returned as is, an instance yields its class. */
  function GetClass<K>(o: Obj<K>): K
  {
    match o
    case ClassObj(c) => c
    case Instance(c) => c
  }

  datatype ClassDict<K, V> = ClassDict(data: map<K, V>)

  function Empty<K, V>(): ClassDict<K, V>
  {
    ClassDict(map[])
  }

  /** Index of the first class of mro that has an entry, or |mro| if none. */
  function FirstRegistered<K, V>(data: map<K, V>, mro: seq<K>): (i: nat)
    ensures i <= |mro|
    ensures forall j :: 0 <= j < i ==> mro[j] !in data
    ensures i < |mro| ==> mro[i] in data
  {
    if |mro| == 0 then 0
    else if mro[0] in data then 0
    else 1 + FirstRegistered(data, mro[1..])
  }

  /** The value of the first class in mro that has an entry. */
  function Find<K, V>(data: map<K, V>, mro: seq<K>): (r: Option<V>)
    ensures r.None? <==> forall j :: 0 <= j < |mro| ==> mro[j] !in data
    ensures r.Some? ==> FirstRegistered(data, mro) < |mro|
                        && r.value == data[mro[FirstRegistered(data, mro)]]
  {
    var i := FirstRegistered(data, mro);
    if i < |mro| then Some(data[mro[i]]) else None
  }

  /** Find looks at the first class of the MRO, then at the rest. */
  lemma FindStep<K, V>(data: map<K, V>, mro: seq<K>)
    requires |mro| > 0
    ensures Find(data, mro) == if mro[0] in data then Some(data[mro[0]]) else Find(data, mro[1..])
  {
    if mro[0] !in data {
      assert FirstRegistered(data, mro) == 1 + FirstRegistered(data, mro[1..]);
      assert forall j :: 0 <= j < |mro[1..]| ==> mro[1..][j] == mro[j + 1];
    }
  }

  /** __getitem__: None models the KeyError raised when no class of the
      key's MRO is registered. */
  function Get<K, V>(d: ClassDict<K, V>, item: Obj<K>, mroOf: K -> seq<K>): Option<V>
  {
    Find(d.data, mroOf(GetClass(item)))
  }

  /** __getitem__ as the source writes it: a loop over the MRO. */
  method Lookup<K, V>(d: ClassDict<K, V>, item: Obj<K>, mroOf: K -> seq<K>) returns (r: Option<V>)
    ensures r.None? <==> forall j :: 0 <= j < |mroOf(GetClass(item))| ==> mroOf(GetClass(item))[j] !in d.data
    ensures r.Some? ==> exists j :: 0 <= j < |mroOf(GetClass(item))| && mroOf(GetClass(item))[j] in d.data
                                    && r.value == d.data[mroOf(GetClass(item))[j]]
                                    && forall k :: 0 <= k < j ==> mroOf(GetClass(item))[k] !in d.data
  {
    var mro := mroOf(GetClass(item));
    var i := 0;
    while i < |mro|
      invariant 0 <= i <= |mro|
      invariant forall k :: 0 <= k < i ==> mro[k] !in d.data
    {
      if mro[i] in d.data {
        return Some(d.data[mro[i]]);
      }
      i := i + 1;
    }
    return None;
  }

  /** __setitem__: stores under the exact class of the key. */
  function Set<K, V>(d: ClassDict<K, V>, item: Obj<K>, v: V): (r: ClassDict<K, V>)
    ensures GetClass(item) in r.data && r.data[GetClass(item)] == v
  {
    ClassDict(d.data[GetClass(item) := v])
  }

  /** __setitem__ adds exactly the key's class and keeps every other entry. */
  lemma SetKeepsOthers<K, V>(d: ClassDict<K, V>, item: Obj<K>, v: V)
    ensures Keys(Set(d, item, v)) == Keys(d) + {GetClass(item)}
    ensures forall k :: k in d.data && k != GetClass(item) ==> Set(d, item, v).data[k] == d.data[k]
  {
  }

  /** __delitem__: removes the exact class only; None models the KeyError
      raised when that class itself has no entry. */
  function Delete<K, V>(d: ClassDict<K, V>, item: Obj<K>): (r: Option<ClassDict<K, V>>)
    ensures r.Some? <==> GetClass(item) in d.data
    ensures r.Some? ==> r.value.data.Keys == d.data.Keys - {GetClass(item)}
    ensures r.Some? ==> forall k :: k in r.value.data ==> r.value.data[k] == d.data[k]
  {
    var c := GetClass(item);
    if c in d.data then Some(ClassDict(d.data - {c})) else None
  }

  /** __iter__ yields the registered classes (in no specified order). */
  function Keys<K, V>(d: ClassDict<K, V>): set<K>
  {
    d.data.Keys
  }

  /** __len__ counts registered classes only. */
  function Len<K, V>(d: ClassDict<K, V>): (n: nat)
    ensures n == |Keys(d)|
  {
    |d.data|
  }

  /** __bool__: true iff something is registered. */
  function Bool<K, V>(d: ClassDict<K, V>): (b: bool)
    ensures b <==> Len(d) > 0
  {
    Keys(d) != {}
  }

  /** An exact entry wins over every ancestor. */
  lemma ExactKeyWins<K, V>(d: ClassDict<K, V>, c: K, mroOf: K -> seq<K>)
    requires |mroOf(c)| > 0 && mroOf(c)[0] == c
    requires c in d.data
    ensures Get(d, ClassObj(c), mroOf) == Some(d.data[c])
    ensures Get(d, Instance(c), mroOf) == Some(d.data[c])
  {
  }

  /** Setting a class leaves the lookup of every MRO not containing it unchanged. */
  lemma {:induction false} SetLeavesOtherMros<K, V>(d: ClassDict<K, V>, c: K, v: V, mro: seq<K>)
    requires c !in mro
    ensures Find(Set(d, ClassObj(c), v).data, mro) == Find(d.data, mro)
    ensures FirstRegistered(Set(d, ClassObj(c), v).data, mro) == FirstRegistered(d.data, mro)
  {
    if |mro| > 0 {
      SetLeavesOtherMros(d, c, v, mro[1..]);
    }
  }

  /** A class keyed by an instance or by itself is the same key, so the later
      registration overwrites the earlier one. */
  lemma SetKeysOnClass<K, V>(d: ClassDict<K, V>, c: K, v: V, w: V)
    ensures Set(d, Instance(c), v) == Set(d, ClassObj(c), v)
    ensures Set(Set(d, ClassObj(c), v), Instance(c), w) == Set(d, ClassObj(c), w)
  {
  }

  /** Registering grows the length only for a class not registered before. */
  lemma LenAfterSet<K, V>(d: ClassDict<K, V>, item: Obj<K>, v: V)
    ensures GetClass(item) in d.data ==> Len(Set(d, item, v)) == Len(d)
    ensures GetClass(item) !in d.data ==> Len(Set(d, item, v)) == Len(d) + 1
  {
  }

  /** Delete ignores the MRO: a class covered only through an ancestor
      cannot be deleted, although it can be looked up. */
  lemma DeleteIgnoresAncestors<K, V>(d: ClassDict<K, V>, c: K, mroOf: K -> seq<K>)
    requires c !in d.data
    requires Get(d, ClassObj(c), mroOf).Some?
    ensures Delete(d, ClassObj(c)).None?
  {
  }
}
