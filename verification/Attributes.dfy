/** The attribute engine: keyvals that live as long as somebody needs them,
    attributes cached on objects, and deletion in reverse order of setting. */
module Attributes {

  datatype Kind = CommAttr | TypeAttr | WinAttr
  datatype Obj = Obj(kind: Kind, id: nat)
  datatype Keyval = Keyval(kind: Kind, predefined: bool, refs: nat)
  datatype Attr = Attr(value: int, sequence: nat)
  type Table = map<nat, Attr>

  datatype Status = Success | BadParam | NotFound | KeyvalInvalid | CallbackError(code: int)

  /** The keyval hash, the key bitmap and the objects' attribute tables (an
      object outside the map has none yet); of the history, the keyvals that
      have not been freed and the log of values set. */
  datatype World = World(keyvals: map<nat, Keyval>, bits: set<nat>, tables: map<Obj, Table>, unfreed: set<nat>,
                         log: seq<(Obj, nat)>)

  // ----- the invariant -----

  /** The objects that have an attribute under this key. */
  function Holders(tables: map<Obj, Table>, key: nat): set<Obj> {
    set o | o in tables && key in tables[o]
  }

  /** When the attribute was last set, as a position in the log. */
  function LastSet(log: seq<(Obj, nat)>, o: Obj, key: nat): (r: int)
    ensures -1 <= r < |log|
    ensures r >= 0 ==> log[r] == (o, key)
    ensures forall j :: r < j < |log| ==> log[j] != (o, key)
  {
    if log == [] then -1
    else if log[|log| - 1] == (o, key) then |log| - 1
    else LastSet(log[..|log| - 1], o, key)
  }

  /** A keyval is alive exactly while it is not freed or some attribute uses
      it, and its reference count says how many reasons there are. */
  ghost predicate Counted(w: World, key: nat) {
    var holders := Holders(w.tables, key);
    && (key in w.keyvals <==> key in w.unfreed || holders != {})
    && (key in w.keyvals ==> w.keyvals[key].refs == (if key in w.unfreed then 1 else 0) + |holders|)
  }

  /** An attribute finds its keyval, of the right kind, and is stamped with
      the time it was set. */
  ghost predicate Filed(w: World, o: Obj, key: nat)
    requires o in w.tables && key in w.tables[o]
  {
    key in w.keyvals && w.keyvals[key].kind == o.kind && w.tables[o][key].sequence == LastSet(w.log, o, key)
  }

  ghost predicate Inv(w: World) {
    && w.bits == w.keyvals.Keys
    && (forall key: nat :: Counted(w, key))
    && forall o, key :: o in w.tables && key in w.tables[o] ==> Filed(w, o, key)
  }

  /** No keyval changes its kind, and none appears. */
  ghost predicate SameKeyvals(w: World, w': World) {
    forall key :: key in w'.keyvals ==>
      key in w.keyvals && w'.keyvals[key].kind == w.keyvals[key].kind &&
      w'.keyvals[key].predefined == w.keyvals[key].predefined
  }

  /** Under the invariant the counts follow from the tables, so two worlds that
      agree on everything else agree. */
  lemma CountsDetermined(w: World, w': World)
    requires Inv(w) && Inv(w') && w.tables == w'.tables && w.unfreed == w'.unfreed && w.log == w'.log
    requires SameKeyvals(w, w')
    ensures w == w'
  {
    forall key: nat
      ensures key in w.keyvals <==> key in w'.keyvals
      ensures key in w.keyvals ==> w.keyvals[key] == w'.keyvals[key]
    {
      assert Counted(w, key) && Counted(w', key);
    }
    assert w.keyvals == w'.keyvals;
  }

  /** Two attributes of an object are never stamped alike. */
  lemma SequencesDistinct(w: World, o: Obj, key: nat, key': nat)
    requires Inv(w) && o in w.tables && key in w.tables[o] && key' in w.tables[o] && key != key'
    ensures w.tables[o][key].sequence != w.tables[o][key'].sequence
  {
    assert Filed(w, o, key) && Filed(w, o, key');
  }

  // ----- the elementary changes -----

  /** Dropping one reference; the last one destroys the keyval. */
  function Released(w: World, key: nat): World
    requires key in w.keyvals && w.keyvals[key].refs > 0
  {
    var k := w.keyvals[key];
    if k.refs == 1 then w.(keyvals := w.keyvals - {key}, bits := w.bits - {key})
    else w.(keyvals := w.keyvals[key := k.(refs := k.refs - 1)])
  }

  function Created(w: World, key: nat, kind: Kind, predefined: bool): World {
    w.(keyvals := w.keyvals[key := Keyval(kind, predefined, 1)], bits := w.bits + {key}, unfreed := w.unfreed + {key})
  }

  function FreedKeyval(w: World, key: nat): World
    requires key in w.keyvals && w.keyvals[key].refs > 0
  {
    Released(w.(unfreed := w.unfreed - {key}), key)
  }

  function TableOf(w: World, o: Obj): Table {
    if o in w.tables then w.tables[o] else map[]
  }

  function Stored(w: World, o: Obj, key: nat, value: int): World
    requires key in w.keyvals
  {
    var t, k := TableOf(w, o), w.keyvals[key];
    w.(tables := w.tables[o := t[key := Attr(value, |w.log|)]],
       log := w.log + [(o, key)],
       keyvals := if key in t then w.keyvals else w.keyvals[key := k.(refs := k.refs + 1)])
  }

  function Dropped(w: World, o: Obj, key: nat): World
    requires key in w.keyvals && w.keyvals[key].refs > 0 && o in w.tables
  {
    Released(w.(tables := w.tables[o := w.tables[o] - {key}]), key)
  }

  lemma CreatedKeeps(w: World, key: nat, kind: Kind, predefined: bool)
    requires Inv(w) && key !in w.bits
    ensures Inv(Created(w, key, kind, predefined))
  {
    var w' := Created(w, key, kind, predefined);
    forall k: nat
      ensures Counted(w', k)
    {
      assert Counted(w, k);
    }
    forall o, k | o in w'.tables && k in w'.tables[o]
      ensures Filed(w', o, k)
    {
      assert Filed(w, o, k);
    }
  }

  lemma FreedKeeps(w: World, key: nat)
    requires Inv(w) && key in w.unfreed
    ensures key in w.keyvals && w.keyvals[key].refs > 0 && Inv(FreedKeyval(w, key))
    ensures key in FreedKeyval(w, key).keyvals <==> Holders(w.tables, key) != {}
  {
    assert Counted(w, key);
    var w' := FreedKeyval(w, key);
    forall k: nat
      ensures Counted(w', k)
    {
      assert Counted(w, k);
    }
    forall o, k | o in w'.tables && k in w'.tables[o]
      ensures Filed(w', o, k)
    {
      assert Filed(w, o, k);
      assert o in Holders(w.tables, k);
    }
  }

  /** Freeing a keyval once more takes away a reference that an attribute needs. */
  lemma SecondFreeBreaks(w: World, key: nat)
    requires Inv(w) && key in w.keyvals && key !in w.unfreed
    ensures w.keyvals[key].refs > 0 && !Inv(FreedKeyval(w, key))
  {
    assert Counted(w, key);
    assert !Counted(FreedKeyval(w, key), key);
  }

  lemma LastSetMore(log: seq<(Obj, nat)>, entry: (Obj, nat), o: Obj, key: nat)
    ensures LastSet(log + [entry], o, key) == if entry == (o, key) then |log| else LastSet(log, o, key)
  {
    assert (log + [entry])[..|log|] == log;
  }

  lemma StoredHolders(w: World, o: Obj, key: nat, value: int)
    requires key in w.keyvals
    ensures var t := Stored(w, o, key, value).tables;
      && Holders(t, key) == Holders(w.tables, key) + {o}
      && forall k :: k != key ==> Holders(t, k) == Holders(w.tables, k)
  {
    var t := Stored(w, o, key, value).tables;
    forall k | k != key
      ensures Holders(t, k) == Holders(w.tables, k)
    {
      assert forall x :: x in Holders(t, k) <==> x in Holders(w.tables, k);
    }
  }

  lemma StoredCounted(w: World, o: Obj, key: nat, value: int, k: nat)
    requires key in w.keyvals && Counted(w, key) && Counted(w, k)
    ensures Counted(Stored(w, o, key, value), k)
  {
    StoredHolders(w, o, key, value);
    assert o in Holders(w.tables, key) <==> key in TableOf(w, o);
  }

  lemma StoredFiled(w: World, o: Obj, key: nat, value: int, x: Obj, k: nat)
    requires key in w.keyvals && w.keyvals[key].kind == o.kind
    requires var w' := Stored(w, o, key, value); x in w'.tables && k in w'.tables[x]
    requires (x, k) != (o, key) ==> x in w.tables && k in w.tables[x] && Filed(w, x, k)
    ensures Filed(Stored(w, o, key, value), x, k)
  {
    LastSetMore(w.log, (o, key), x, k);
  }

  lemma StoredKeeps(w: World, o: Obj, key: nat, value: int)
    requires Inv(w) && key in w.keyvals && w.keyvals[key].kind == o.kind
    ensures Inv(Stored(w, o, key, value))
  {
    var w' := Stored(w, o, key, value);
    forall k: nat
      ensures Counted(w', k)
    {
      StoredCounted(w, o, key, value, k);
    }
    forall x, k | x in w'.tables && k in w'.tables[x]
      ensures Filed(w', x, k)
    {
      StoredFiled(w, o, key, value, x, k);
    }
  }

  lemma DroppedHolders(w: World, o: Obj, key: nat)
    requires o in w.tables && key in w.tables[o]
    ensures var t := w.tables[o := w.tables[o] - {key}];
      && Holders(t, key) == Holders(w.tables, key) - {o}
      && forall k :: k != key ==> Holders(t, k) == Holders(w.tables, k)
  {
    var t := w.tables[o := w.tables[o] - {key}];
    forall k | k != key
      ensures Holders(t, k) == Holders(w.tables, k)
    {
      assert forall x :: x in Holders(t, k) <==> x in Holders(w.tables, k);
    }
  }

  lemma DroppedAlive(w: World, o: Obj, key: nat)
    requires Inv(w) && o in w.tables && key in w.tables[o]
    ensures key in w.keyvals && w.keyvals[key].refs > 0 && SameKeyvals(w, Dropped(w, o, key))
  {
    assert Counted(w, key) && Filed(w, o, key);
    assert o in Holders(w.tables, key);
  }

  lemma DroppedCounted(w: World, o: Obj, key: nat, k: nat)
    requires key in w.keyvals && w.keyvals[key].refs > 0 && o in w.tables && key in w.tables[o]
    requires Counted(w, key) && Counted(w, k)
    ensures Counted(Dropped(w, o, key), k)
  {
    assert o in Holders(w.tables, key);
    DroppedHolders(w, o, key);
  }

  lemma DroppedFiled(w: World, o: Obj, key: nat, x: Obj, k: nat)
    requires key in w.keyvals && w.keyvals[key].refs > 0 && o in w.tables && key in w.tables[o]
    requires var w' := Dropped(w, o, key); x in w'.tables && k in w'.tables[x] && Counted(w', k)
    requires x in w.tables && k in w.tables[x] && Filed(w, x, k)
    ensures Filed(Dropped(w, o, key), x, k)
  {
    assert x in Holders(Dropped(w, o, key).tables, k);
  }

  lemma DroppedKeeps(w: World, o: Obj, key: nat)
    requires Inv(w) && o in w.tables && key in w.tables[o]
    ensures key in w.keyvals && w.keyvals[key].refs > 0 && Inv(Dropped(w, o, key)) && SameKeyvals(w, Dropped(w, o, key))
  {
    DroppedAlive(w, o, key);
    var w' := Dropped(w, o, key);
    forall k: nat
      ensures Counted(w', k)
    {
      DroppedCounted(w, o, key, k);
    }
    forall x, k | x in w'.tables && k in w'.tables[x]
      ensures Filed(w', x, k)
    {
      DroppedFiled(w, o, key, x, k);
    }
  }

  /** No attribute but this one differs. */
  ghost predicate OnlyAt(before: map<Obj, Table>, after: map<Obj, Table>, o: Obj, key: nat) {
    forall x, k: nat :: (x, k) != (o, key) ==> SameAttr(before, after, x, k)
  }

  predicate SameAttr(before: map<Obj, Table>, after: map<Obj, Table>, x: Obj, k: nat) {
    if x in before && k in before[x] then x in after && k in after[x] && after[x][k] == before[x][k]
    else !(x in after && k in after[x])
  }

  lemma StoredOnly(w: World, o: Obj, key: nat, value: int)
    requires key in w.keyvals
    ensures var tables := Stored(w, o, key, value).tables;
      && OnlyAt(w.tables, tables, o, key)
      && o in tables && key in tables[o] && tables[o][key] == Attr(value, |w.log|)
  {}

  lemma DroppedOnly(w: World, o: Obj, key: nat)
    requires key in w.keyvals && w.keyvals[key].refs > 0 && o in w.tables
    ensures var tables := Dropped(w, o, key).tables;
      OnlyAt(w.tables, tables, o, key) && o in tables && key !in tables[o]
  {}

  /** The last attribute of a freed keyval takes the keyval with it. */
  lemma LastAttributeDestroys(w: World, o: Obj, key: nat)
    requires Inv(w) && o in w.tables && key in w.tables[o] && key !in w.unfreed
    ensures key in w.keyvals && w.keyvals[key].refs > 0
    ensures key !in Dropped(w, o, key).bits <==> Holders(w.tables, key) == {o}
  {
    DroppedKeeps(w, o, key);
    DroppedHolders(w, o, key);
    assert o in Holders(w.tables, key);
    assert Counted(w, key) && Counted(Dropped(w, o, key), key);
  }

  // ----- deletion of all attributes of an object -----

  /** The attributes of t with the given keys. */
  function Restricted(t: Table, keys: seq<nat>): Table {
    map k | k in t && k in keys :: t[k]
  }

  /** Some attribute set no earlier than this one has a delete callback that fails. */
  predicate Shielded(t: Table, del: nat -> int, key: nat)
    requires key in t
  {
    exists f :: f in t && del(f) != 0 && t[f].sequence >= t[key].sequence
  }

  ghost predicate SortedKeys(t: Table, keys: seq<nat>) {
    && (forall k :: k in keys <==> k in t)
    && forall i, j :: 0 <= i < j < |keys| ==> t[keys[i]].sequence < t[keys[j]].sequence
  }

  ghost predicate Stamped(t: Table) {
    forall k, k' :: k in t && k' in t && k != k' ==> t[k].sequence != t[k'].sequence
  }

  ghost predicate Ascending(t: Table, keys: seq<nat>) {
    && (forall k :: k in keys ==> k in t)
    && forall i, j :: 0 <= i < j < |keys| ==> t[keys[i]].sequence < t[keys[j]].sequence
  }

  lemma InsertKey(t: Table, keys: seq<nat>, at: nat, key: nat)
    requires Ascending(t, keys) && key in t && at <= |keys|
    requires forall i :: 0 <= i < at ==> t[keys[i]].sequence < t[key].sequence
    requires at < |keys| ==> t[key].sequence < t[keys[at]].sequence
    ensures Ascending(t, keys[..at] + [key] + keys[at..])
    ensures forall k :: k in keys[..at] + [key] + keys[at..] <==> k in keys || k == key
  {
    var r := keys[..at] + [key] + keys[at..];
    assert keys == keys[..at] + keys[at..];
    forall i, j | 0 <= i < j < |r|
      ensures t[r[i]].sequence < t[r[j]].sequence
    {
      if i == at && j > at + 1 {
        assert t[keys[at]].sequence < t[keys[j - 1]].sequence;
      }
    }
  }

  /** The keys of a table in the order in which their values were set. */
  method SortBySequence(t: Table) returns (keys: seq<nat>)
    requires Stamped(t)
    ensures SortedKeys(t, keys)
  {
    keys := [];
    var left := t.Keys;
    while left != {}
      invariant left <= t.Keys && Ascending(t, keys)
      invariant forall k :: k in keys <==> k in t && k !in left
      decreases left
    {
      var key :| key in left;
      var at := 0;
      while at < |keys| && t[keys[at]].sequence < t[key].sequence
        invariant at <= |keys|
        invariant forall i :: 0 <= i < at ==> t[keys[i]].sequence < t[key].sequence
      {
        at := at + 1;
      }
      InsertKey(t, keys, at, key);
      keys, left := keys[..at] + [key] + keys[at..], left - {key};
    }
  }

  /** What deleting everything leaves: an attribute stays if the callback of one
      set no earlier fails. */
  function Survivors(t: Table, del: nat -> int): Table {
    map k | k in t && Shielded(t, del, k) :: t[k]
  }

  /** keys[i - 1] is the last of the keys, if any, whose callback fails. */
  ghost predicate StopsAt(del: nat -> int, keys: seq<nat>, i: nat) {
    && i <= |keys|
    && (forall j :: i <= j < |keys| ==> del(keys[j]) == 0)
    && (i > 0 ==> del(keys[i - 1]) != 0)
  }

  lemma KeysDistinct(t: Table, keys: seq<nat>)
    requires Ascending(t, keys)
    ensures forall i, j :: 0 <= i < j < |keys| ==> keys[i] != keys[j]
  {
    forall i, j | 0 <= i < j < |keys|
      ensures keys[i] != keys[j]
    {
      assert t[keys[i]].sequence < t[keys[j]].sequence;
    }
  }

  lemma SurvivesIf(t: Table, del: nat -> int, keys: seq<nat>, i: nat, a: nat)
    requires SortedKeys(t, keys) && StopsAt(del, keys, i) && a < |keys|
    ensures Shielded(t, del, keys[a]) <==> keys[a] in keys[..i]
  {
    KeysDistinct(t, keys);
    if a < i {
      assert keys[i - 1] in t && t[keys[i - 1]].sequence >= t[keys[a]].sequence;
      assert keys[..i][a] == keys[a];
    } else {
      forall f | f in t && del(f) != 0
        ensures t[f].sequence < t[keys[a]].sequence
      {
        var b :| 0 <= b < |keys| && keys[b] == f;
      }
    }
  }

  lemma SurvivorsAre(t: Table, del: nat -> int, keys: seq<nat>, i: nat)
    requires SortedKeys(t, keys) && StopsAt(del, keys, i)
    ensures Survivors(t, del) == Restricted(t, keys[..i])
  {
    forall k | k in t
      ensures Shielded(t, del, k) <==> k in keys[..i]
    {
      var a :| 0 <= a < |keys| && keys[a] == k;
      SurvivesIf(t, del, keys, i, a);
    }
  }

  lemma AllGoneIfNoneFails(t: Table, del: nat -> int, keys: seq<nat>, i: nat)
    requires SortedKeys(t, keys) && StopsAt(del, keys, i)
    ensures i == 0 <==> forall k :: k in t ==> del(k) == 0
  {
    if i > 0 { assert keys[i - 1] in t; }
  }

  /** The callbacks for these keys of an object, in this order. */
  function Calls(o: Obj, t: Table, order: seq<nat>): seq<(Obj, nat, int)>
    requires forall k :: k in order ==> k in t
  {
    if order == [] then []
    else
      var n := |order| - 1;
      Calls(o, t, order[..n]) + [(o, order[n], t[order[n]].value)]
  }

  /** `order` is keys[i..] backwards. */
  ghost predicate Backwards(order: seq<nat>, keys: seq<nat>, i: nat) {
    i <= |keys| && |order| == |keys| - i && forall j :: 0 <= j < |order| ==> order[j] == keys[|keys| - 1 - j]
  }

  /** Callbacks run for exactly the attributes set no earlier than any whose
      callback fails, latest first. */
  ghost predicate LatestFirst(log: seq<(Obj, nat)>, o: Obj, t: Table, del: nat -> int, order: seq<nat>) {
    && (forall i, j :: 0 <= i < j < |order| ==> LastSet(log, o, order[i]) > LastSet(log, o, order[j]))
    && forall k :: k in order <==>
        k in t && forall f :: f in t && del(f) != 0 ==> LastSet(log, o, f) <= LastSet(log, o, k)
  }

  lemma OrderIsLatestFirst(w: World, o: Obj, del: nat -> int, keys: seq<nat>, i: nat, order: seq<nat>)
    requires Inv(w) && o in w.tables && SortedKeys(w.tables[o], keys) && StopsAt(del, keys, i)
    requires Backwards(order, keys, if i == 0 then 0 else i - 1)
    ensures LatestFirst(w.log, o, w.tables[o], del, order)
  {
    var t := w.tables[o];
    forall k | k in t
      ensures LastSet(w.log, o, k) == t[k].sequence
    {
      assert Filed(w, o, k);
    }
    assert forall j :: 0 <= j < |order| ==> order[j] in keys;
    forall k | k in t
      ensures k in order <==> forall f :: f in t && del(f) != 0 ==> t[f].sequence <= t[k].sequence
    {
      CalledOrBeaten(t, del, keys, i, order, k);
    }
  }

  lemma CalledOrBeaten(t: Table, del: nat -> int, keys: seq<nat>, i: nat, order: seq<nat>, k: nat)
    requires SortedKeys(t, keys) && StopsAt(del, keys, i) && Backwards(order, keys, if i == 0 then 0 else i - 1)
    requires k in t
    ensures k in order <==> forall f :: f in t && del(f) != 0 ==> t[f].sequence <= t[k].sequence
  {
    KeysDistinct(t, keys);
    var a :| 0 <= a < |keys| && keys[a] == k;
    if a + 1 >= i {
      assert order[|keys| - 1 - a] == k;
      forall f | f in t && del(f) != 0
        ensures t[f].sequence <= t[k].sequence
      {
        var b :| 0 <= b < |keys| && keys[b] == f;
      }
    } else {
      assert keys[i - 1] in t && t[k].sequence < t[keys[i - 1]].sequence;
    }
  }

  /** The callbacks for keys[at..] have been called, and none has failed. */
  ghost predicate Called(t: Table, del: nat -> int, keys: seq<nat>, at: nat, order: seq<nat>) {
    && Backwards(order, keys, at)
    && (forall j :: at <= j < |keys| ==> del(keys[j]) == 0)
    && forall k :: k in order ==> k in t
  }

  lemma CalledNext(t: Table, del: nat -> int, keys: seq<nat>, at: nat, order: seq<nat>)
    requires Called(t, del, keys, at, order) && at > 0 && keys[at - 1] in t
    ensures Backwards(order + [keys[at - 1]], keys, at - 1) && forall k :: k in order + [keys[at - 1]] ==> k in t
    ensures if del(keys[at - 1]) == 0 then Called(t, del, keys, at - 1, order + [keys[at - 1]])
        else StopsAt(del, keys, at)
  {}

  /** While o's attributes are deleted: keys[..i] are left. */
  ghost predicate Deleting(w0: World, w: World, o: Obj, keys: seq<nat>, i: nat) {
    && o in w0.tables && i <= |keys|
    && w.tables == w0.tables[o := Restricted(w0.tables[o], keys[..i])]
    && w.unfreed == w0.unfreed && w.log == w0.log && SameKeyvals(w0, w)
  }

  lemma RestrictedStep(t: Table, keys: seq<nat>, i: nat)
    requires SortedKeys(t, keys) && 0 < i <= |keys|
    ensures keys[i - 1] in Restricted(t, keys[..i])
    ensures Restricted(t, keys[..i]) - {keys[i - 1]} == Restricted(t, keys[..i - 1])
  {
    var key := keys[i - 1];
    assert key in keys;
    assert key in keys[..i] && key !in keys[..i - 1] by { KeysDistinct(t, keys); }
    assert keys[..i] == keys[..i - 1] + [key];
    hide SortedKeys;
    assert forall k :: k in keys[..i - 1] <==> k in keys[..i] && k != key;
  }

  lemma DeletingStep(w0: World, w: World, o: Obj, keys: seq<nat>, i: nat)
    requires Inv(w) && Deleting(w0, w, o, keys, i) && i > 0 && SortedKeys(w0.tables[o], keys)
    ensures var key := keys[i - 1];
      && o in w.tables && key in w.tables[o] && w.tables[o][key] == w0.tables[o][key]
      && key in w.keyvals && w.keyvals[key].kind == o.kind && w.keyvals[key].refs > 0
      && Deleting(w0, Dropped(w, o, key), o, keys, i - 1)
  {
    RestrictedStep(w0.tables[o], keys, i);
    assert Filed(w, o, keys[i - 1]);
    DroppedAlive(w, o, keys[i - 1]);
    DroppedIsDeleting(w0, w, o, keys, i);
  }

  lemma DroppedIsDeleting(w0: World, w: World, o: Obj, keys: seq<nat>, i: nat)
    requires Deleting(w0, w, o, keys, i) && i > 0 && keys[i - 1] in w.keyvals && w.keyvals[keys[i - 1]].refs > 0
    requires Restricted(w0.tables[o], keys[..i]) - {keys[i - 1]} == Restricted(w0.tables[o], keys[..i - 1])
    requires SameKeyvals(w, Dropped(w, o, keys[i - 1]))
    ensures Deleting(w0, Dropped(w, o, keys[i - 1]), o, keys, i - 1)
  {
    hide Restricted;
  }

  lemma TableStamped(w: World, o: Obj)
    requires Inv(w) && o in w.tables
    ensures Stamped(w.tables[o])
  {
    forall k, k' | k in w.tables[o] && k' in w.tables[o] && k != k'
      ensures w.tables[o][k].sequence != w.tables[o][k'].sequence
    {
      SequencesDistinct(w, o, k, k');
    }
  }

  lemma DeletingStarts(w: World, o: Obj, keys: seq<nat>)
    requires Inv(w) && o in w.tables && SortedKeys(w.tables[o], keys)
    ensures Deleting(w, w, o, keys, |keys|)
  {
    assert Restricted(w.tables[o], keys[..|keys|]) == w.tables[o];
  }

  lemma CallsMore(o: Obj, t: Table, order: seq<nat>, key: nat, before: seq<(Obj, nat, int)>)
    requires key in t && forall k :: k in order ==> k in t
    ensures forall k :: k in order + [key] ==> k in t
    ensures before + Calls(o, t, order) + [(o, key, t[key].value)] == before + Calls(o, t, order + [key])
  {
    assert (order + [key])[..|order|] == order;
  }

  /** While attributes are copied to an object: those of the keys in `done` are. */
  ghost predicate Copying(w0: World, w: World, to: Obj, copy: nat -> CopyResult, done: set<nat>) {
    && to in w0.tables && w.tables.Keys == w0.tables.Keys && w0.log <= w.log
    && w.unfreed == w0.unfreed && SameKeyvals(w0, w)
    && (forall o :: o in w0.tables && o != to ==> w.tables[o] == w0.tables[o])
    && CopiedTo(w0.tables[to], w.tables[to], copy, done)
  }

  /** Exactly the attributes whose copy callback raised its flag arrive, with
      the value the callback gave; the others are as they were. */
  ghost predicate CopiedTo(before: Table, after: Table, copy: nat -> CopyResult, done: set<nat>) {
    forall k :: Arrived(before, after, copy, done, k)
  }

  predicate Arrived(before: Table, after: Table, copy: nat -> CopyResult, done: set<nat>, k: nat) {
    if k in done && copy(k).flag == 1 then k in after && after[k].value == copy(k).value
    else if k in before then k in after && after[k] == before[k]
    else k !in after
  }

  lemma CopyingStep(w0: World, w: World, to: Obj, copy: nat -> CopyResult, done: set<nat>, key: nat)
    requires Copying(w0, w, to, copy, done) && key in w.keyvals
    ensures Copying(w0, if copy(key).flag == 1 then Stored(w, to, key, copy(key).value) else w, to, copy, done + {key})
      || key in done
  {
    var w' := if copy(key).flag == 1 then Stored(w, to, key, copy(key).value) else w;
    if key !in done {
      forall k: nat
        ensures Arrived(w0.tables[to], w'.tables[to], copy, done + {key}, k)
      {
        assert Arrived(w0.tables[to], w.tables[to], copy, done, k);
      }
    }
  }

  /** What copying decides about one attribute. */
  datatype CopyResult = CopyResult(error: int, flag: int, value: int)

  /** The error of the copy callback, or else of deleting what is replaced. */
  function FailureOf(copyError: int, deleteError: int): Status {
    CallbackError(if copyError != 0 then copyError else deleteError)
  }

  class Engine {
    var keyvals: map<nat, Keyval>
    var keyBits: set<nat>
    var tables: map<Obj, Table>
    var attrSequence: nat
    /** The delete callbacks that have been invoked. */
    var deletions: seq<(Obj, nat, int)>
    ghost var unfreed: set<nat>
    ghost var log: seq<(Obj, nat)>

    ghost function View(): World
      reads this
    {
      World(keyvals, keyBits, tables, unfreed, log)
    }

    ghost predicate Valid()
      reads this
    {
      Inv(View()) && attrSequence == |log|
    }

    constructor ()
      ensures Valid() && View() == World(map[], {}, map[], {}, []) && deletions == []
    {
      keyvals, keyBits, tables, attrSequence, deletions := map[], {}, map[], 0, [];
      unfreed, log := {}, [];
      new;
      assert forall key: nat :: Holders(tables, key) == {};
    }

    /** The lowest unused key is taken. */
    method CreateKeyval(kind: Kind, predefined: bool) returns (key: nat)
      requires Valid()
      modifies this
      ensures Valid() && deletions == old(deletions)
      ensures key !in old(keyBits) && forall k: nat :: k < key ==> k in old(keyBits)
      ensures View() == Created(old(View()), key, kind, predefined)
    {
      key := 0;
      ghost var above := keyBits;
      while key in keyBits
        invariant forall k: nat :: k < key ==> k in keyBits
        invariant forall k :: k in above <==> k in keyBits && k >= key
        decreases above
      {
        above := above - {key};
        key := key + 1;
      }
      CreatedKeeps(View(), key, kind, predefined);
      keyBits, keyvals := keyBits + {key}, keyvals[key := Keyval(kind, predefined, 1)];
      unfreed := unfreed + {key};
    }

    /** One reference less; at the last one the destructor removes the hash entry and the key bit. */
    method Release(key: nat)
      requires key in keyvals && keyvals[key].refs > 0
      modifies this`keyvals, this`keyBits
      ensures View() == Released(old(View()), key)
    {
      var k := keyvals[key];
      if k.refs == 1 {
        keyvals, keyBits := keyvals - {key}, keyBits - {key};
      } else {
        keyvals := keyvals[key := k.(refs := k.refs - 1)];
      }
    }

    /** The checks every operation on a key starts with. */
    predicate Refused(kind: Kind, key: nat, predefined: bool)
      reads this
    {
      key !in keyvals || keyvals[key].kind != kind || (!predefined && keyvals[key].predefined)
    }

    /** Frees a keyval; the invariant survives exactly the first time. */
    method FreeKeyval(kind: Kind, key: nat, predefined: bool) returns (r: Status)
      requires Valid()
      modifies this
      ensures deletions == old(deletions)
      ensures old(Refused(kind, key, predefined)) ==> r == BadParam && View() == old(View())
      ensures !old(Refused(kind, key, predefined)) ==>
                r == Success && old(keyvals[key].refs) > 0 && View() == FreedKeyval(old(View()), key)
      ensures Valid() <==> old(Refused(kind, key, predefined)) || key in old(unfreed)
      ensures r == Success <==>
                old(key in keyvals && keyvals[key].kind == kind && (predefined || !keyvals[key].predefined))
    {
      if Refused(kind, key, predefined) { return BadParam; }
      if key in unfreed { FreedKeeps(View(), key); } else { SecondFreeBreaks(View(), key); }
      unfreed := unfreed - {key};
      Release(key);
      r := Success;
    }

    /** Whether an attribute is there; only an unknown key is an error. */
    method Get(o: Obj, key: nat) returns (r: Status, flag: bool, value: int)
      requires Valid()
      ensures r == (if key in keyvals then Success else KeyvalInvalid)
      ensures flag <==> key in TableOf(View(), o)
      ensures flag ==> value == tables[o][key].value && LastSet(log, o, key) == tables[o][key].sequence
    {
      r, flag, value := Success, false, 0;
      if o in tables && key in tables[o] {
        assert Filed(View(), o, key);
        assert o in Holders(tables, key) && Counted(View(), key);
      }
      if key !in keyvals { return KeyvalInvalid, false, 0; }
      if o !in tables { return; }
      if key in tables[o] {
        flag, value := true, tables[o][key].value;
      }
    }

    /** Sets an attribute; a value that is already there is deleted first, and
        stays if its delete callback fails. */
    method SetValue(o: Obj, key: nat, value: int, predefined: bool, del: nat -> int) returns (r: Status)
      requires Valid()
      modifies this
      ensures Valid()
      ensures old(Refused(o.kind, key, predefined)) ==>
          r == BadParam && View() == old(View()) && deletions == old(deletions)
      ensures !old(Refused(o.kind, key, predefined)) && key !in TableOf(old(View()), o) ==>
                r == Success && deletions == old(deletions) && View() == Stored(old(View()), o, key, value)
      ensures !old(Refused(o.kind, key, predefined)) && key in TableOf(old(View()), o) ==>
                && deletions == old(deletions) + [(o, key, old(tables[o][key].value))]
                && r == (if del(key) == 0 then Success else CallbackError(del(key)))
                && View() == if del(key) == 0 then Stored(old(View()), o, key, value) else old(View())
      ensures r != BadParam <==>
                old(key in keyvals && keyvals[key].kind == o.kind && (predefined || !keyvals[key].predefined))
      ensures r == Success ==>
                o in tables && key in tables[o] && tables[o][key].value == value && OnlyAt(old(tables), tables, o, key)
    {
      if Refused(o.kind, key, predefined) { return BadParam; }
      StoredKeeps(View(), o, key, value);
      StoredOnly(View(), o, key, value);
      hide OnlyAt, Inv;
      var table: Table := if o in tables then tables[o] else map[];
      var hadOld := false;
      if key in table {
        deletions := deletions + [(o, key, table[key].value)];
        if del(key) != 0 { return CallbackError(del(key)); }
        hadOld := true;
      }
      tables := tables[o := table[key := Attr(value, attrSequence)]];
      attrSequence, log := attrSequence + 1, log + [(o, key)];
      if !hadOld {
        var k := keyvals[key];
        keyvals := keyvals[key := k.(refs := k.refs + 1)];
      }
      r := Success;
    }

    /** Deletes one attribute, unless its delete callback fails. */
    method DeleteAttribute(o: Obj, key: nat, predefined: bool, del: nat -> int) returns (r: Status)
      requires Valid()
      modifies this
      ensures Valid()
      ensures old(Refused(o.kind, key, predefined)) || o !in old(tables) ==>
                r == BadParam && View() == old(View()) && deletions == old(deletions)
      ensures !old(Refused(o.kind, key, predefined)) && o in old(tables) && key !in old(tables)[o] ==>
                r == NotFound && View() == old(View()) && deletions == old(deletions)
      ensures !old(Refused(o.kind, key, predefined)) && o in old(tables) && key in old(tables)[o] ==>
                && deletions == old(deletions) + [(o, key, old(tables)[o][key].value)]
                && r == (if del(key) == 0 then Success else CallbackError(del(key)))
                && old(keyvals)[key].refs > 0
                && View() == if del(key) == 0 then Dropped(old(View()), o, key) else old(View())
      ensures r != BadParam <==>
                && o in old(tables)
                && old(key in keyvals && keyvals[key].kind == o.kind && (predefined || !keyvals[key].predefined))
      ensures r == Success ==> key !in TableOf(View(), o) && OnlyAt(old(tables), tables, o, key)
    {
      if Refused(o.kind, key, predefined) || o !in tables { return BadParam; }
      if key !in tables[o] { return NotFound; }
      DroppedKeeps(View(), o, key);
      DroppedOnly(View(), o, key);
      deletions := deletions + [(o, key, tables[o][key].value)];
      if del(key) != 0 { return CallbackError(del(key)); }
      tables := tables[o := tables[o] - {key}];
      Release(key);
      r := Success;
    }

    /** The callbacks for keys[at..] have been called, the others' attributes are left. */
    ghost predicate Underway(o: Obj, del: nat -> int, w0: World, keys: seq<nat>, at: nat, order: seq<nat>,
                             before: seq<(Obj, nat, int)>)
      reads this
    {
      && Valid() && Deleting(w0, View(), o, keys, at) && Called(w0.tables[o], del, keys, at, order)
      && deletions == before + Calls(o, w0.tables[o], order)
    }

    ghost predicate Stopped(o: Obj, del: nat -> int, w0: World, keys: seq<nat>, at: nat, order: seq<nat>,
                            before: seq<(Obj, nat, int)>)
      reads this
    {
      && Valid() && Deleting(w0, View(), o, keys, at) && StopsAt(del, keys, at)
      && Backwards(order, keys, if at == 0 then 0 else at - 1)
      && (forall k :: k in order ==> k in w0.tables[o]) && deletions == before + Calls(o, w0.tables[o], order)
    }

    method DeleteNext(o: Obj, key: nat, del: nat -> int, ghost w0: World, ghost keys: seq<nat>, ghost i: nat,
                      ghost order: seq<nat>,
                      ghost before: seq<(Obj, nat, int)>)
      returns (r: Status)
      requires Underway(o, del, w0, keys, i, order, before) && i > 0 && key == keys[i - 1]
      requires SortedKeys(w0.tables[o], keys)
      modifies this
      ensures r == if del(key) == 0 then Success else CallbackError(del(key))
      ensures r == Success ==> Underway(o, del, w0, keys, i - 1, order + [key], before)
      ensures r != Success ==> Stopped(o, del, w0, keys, i, order + [key], before)
    {
      DeletingStep(w0, View(), o, keys, i);
      CallsMore(o, w0.tables[o], order, key, before);
      CalledNext(w0.tables[o], del, keys, i, order);
      r := DeleteAttribute(o, key, true, del);
    }

    /** Nothing has failed when the last key is through. */
    lemma AllDeleted(o: Obj, del: nat -> int, w0: World, keys: seq<nat>, order: seq<nat>, before: seq<(Obj, nat, int)>)
      requires Underway(o, del, w0, keys, 0, order, before)
      ensures Stopped(o, del, w0, keys, 0, order, before)
    {}

    /** The loop of DeleteAll, from the last key to the first. */
    method DeleteSorted(o: Obj, del: nat -> int, keys: seq<nat>, ghost w0: World)
        returns (r: Status, ghost i: nat, ghost order: seq<nat>)
      requires Underway(o, del, w0, keys, |keys|, [], deletions) && SortedKeys(w0.tables[o], keys)
      modifies this
      ensures Stopped(o, del, w0, keys, i, order, old(deletions))
      ensures r == if i == 0 then Success else CallbackError(del(keys[i - 1]))
    {
      r, order := Success, [];
      hide Inv, Deleting, Called, Calls, StopsAt, Backwards;
      ghost var before := deletions;
      var at: nat := |keys|;
      while at > 0
        invariant Underway(o, del, w0, keys, at, order, before)
      {
        r := DeleteNext(o, keys[at - 1], del, w0, keys, at, order, before);
        order := order + [keys[at - 1]];
        if r != Success { return r, at, order; }
        at := at - 1;
      }
      AllDeleted(o, del, w0, keys, order, before);
      r, i := Success, 0;
    }

    /** Deletes all attributes of an object in the reverse of the order in
        which their values were last set, up to the first failure. */
    method DeleteAll(o: Obj, del: nat -> int) returns (r: Status, ghost order: seq<nat>)
      requires Valid()
      modifies this
      ensures Valid() && unfreed == old(unfreed) && log == old(log) && SameKeyvals(old(View()), View())
      ensures o !in old(tables) ==> r == Success && View() == old(View()) && deletions == old(deletions)
      ensures o in old(tables) ==>
                && tables == old(tables)[o := Survivors(old(tables)[o], del)]
                && LatestFirst(log, o, old(tables)[o], del, order)
                && deletions == old(deletions) + Calls(o, old(tables)[o], order)
                && (r == Success <==> forall k :: k in old(tables)[o] ==> del(k) == 0)
                && (r != Success ==> order != [] && r == CallbackError(del(order[|order| - 1])))
    {
      order := [];
      if o !in tables { return Success, []; }
      ghost var w0 := View();
      TableStamped(w0, o);
      var keys := SortBySequence(tables[o]);
      DeletingStarts(w0, o, keys);
      ghost var i;
      r, i, order := DeleteSorted(o, del, keys, w0);
      SurvivorsAre(w0.tables[o], del, keys, i);
      AllGoneIfNoneFails(w0.tables[o], del, keys, i);
      OrderIsLatestFirst(w0, o, del, keys, i, order);
    }

    /** One attribute; nothing but the deletions changes if a callback fails. */
    method CopyNext(from: Obj, to: Obj, key: nat, copy: nat -> CopyResult, del: nat -> int, ghost w0: World,
                    ghost done: set<nat>)
      returns (r: Status)
      requires Valid() && Copying(w0, View(), to, copy, done) && key !in done
      requires from in tables && key in tables[from] && from.kind == to.kind
      modifies this
      ensures Valid() && Copying(w0, View(), to, copy, if r == Success then done + {key} else done)
      ensures r == Success ==> copy(key).error == 0
      ensures r != Success ==> r == FailureOf(copy(key).error, del(key))
    {
      assert Filed(View(), from, key);
      var c := copy(key);
      if c.error != 0 { return CallbackError(c.error); }
      CopyingStep(w0, View(), to, copy, done, key);
      r := Success;
      if c.flag == 1 { r := SetValue(to, key, c.value, true, del); }
    }

    /** Copies the attributes of one object to another of the same kind, in the
        order of the hash table, up to the first failure. */
    method CopyAll(from: Obj, to: Obj, copy: nat -> CopyResult, del: nat -> int)
        returns (r: Status, ghost done: set<nat>)
      requires Valid() && from != to && from.kind == to.kind && to in tables
      modifies this
      ensures Valid() && Copying(old(View()), View(), to, copy, done)
      ensures done <= TableOf(old(View()), from).Keys && forall k :: k in done ==> copy(k).error == 0
      ensures r == Success <==> done == TableOf(old(View()), from).Keys
      ensures r != Success ==>
                exists k :: k in TableOf(old(View()), from) && k !in done && r == FailureOf(copy(k).error, del(k))
    {
      r, done := Success, {};
      if from !in tables { return; }
      ghost var w0 := View();
      var left := tables[from].Keys;
      while left != {}
        invariant Valid() && Copying(w0, View(), to, copy, done)
        invariant left !! done && left + done == w0.tables[from].Keys
        invariant forall k :: k in done ==> copy(k).error == 0
        decreases left
      {
        var key :| key in left;
        var status := CopyNext(from, to, key, copy, del, w0, done);
        if status != Success { return status, done; }
        done, left := done + {key}, left - {key};
      }
    }
  }

  /** What a user may do with a keyval of his own, in any state of the engine:
      set an attribute, read it back, delete it, and free the keyval, which is
      then gone. */
  method UseOwnKeyval(engine: Engine, o: Obj, value: int, del: nat -> int)
    returns (key: nat, found: bool, read: int, left: bool, results: seq<Status>)
    requires engine.Valid()
    modifies engine
    ensures key !in old(engine.keyvals) && found && read == value
    ensures results == [Success, Success, if del(key) == 0 then Success else CallbackError(del(key)), Success, Success]
    ensures left <==> del(key) != 0
    ensures key in engine.keyvals <==> left
    ensures engine.Valid() && OnlyAt(old(engine.tables), engine.tables, o, key)
  {
    key := engine.CreateKeyval(o.kind, false);
    var status := engine.SetValue(o, key, value, false, del);
    results := [status];
    var unused;
    status, found, read := engine.Get(o, key);
    results := results + [status];
    status := engine.DeleteAttribute(o, key, false, del);
    results := results + [status];
    status, left, unused := engine.Get(o, key);
    results := results + [status];
    status := engine.FreeKeyval(o.kind, key, false);
    results := results + [status];
  }
}
