/** The `classes` registry: an insertion-ordered map from class name to
    class body with the semantics of a JavaScript `Map`. */
module ClassMap {
  import opened Wrappers

  /** The entries of the map in insertion order. */
  type Registry = seq<(string, string)>

  function Keys(r: Registry): seq<string> {
    seq(|r|, i requires 0 <= i < |r| => r[i].0)
  }

  /** The registered names as a set. */
  function Names(r: Registry): set<string> {
    set i | 0 <= i < |r| :: r[i].0
  }

  /** `Array.from(classes.values())` */
  function Bodies(r: Registry): seq<string> {
    seq(|r|, i requires 0 <= i < |r| => r[i].1)
  }

  /** A `Map` never holds a key twice. */
  predicate UniqueKeys(r: Registry) {
    forall i, j :: 0 <= i < j < |r| ==> r[i].0 != r[j].0
  }

  /** The position of the first entry for `k`. */
  function IndexOf(r: Registry, k: string): (i: nat)
    requires k in Names(r)
    ensures i < |r| && r[i].0 == k
    ensures forall j :: 0 <= j < i ==> r[j].0 != k
  {
    IndexFrom(r, k, 0)
  }

  /** The position of the first entry for `k` at or after `from`. */
  function IndexFrom(r: Registry, k: string, from: nat): (i: nat)
    requires from <= |r| && exists j :: from <= j < |r| && r[j].0 == k
    ensures from <= i < |r| && r[i].0 == k
    ensures forall j :: from <= j < i ==> r[j].0 != k
    decreases |r| - from
  {
    if r[from].0 == k then from else IndexFrom(r, k, from + 1)
  }

  /** `classes.get(k)` */
  function Lookup(r: Registry, k: string): Option<string> {
    if k in Names(r) then Some(r[IndexOf(r, k)].1) else None
  }

  /** `classes.set(k, b)`: a new key goes to the end; an existing key keeps
      its position and gets the new body. */
  function Assign(r: Registry, k: string, b: string): Registry {
    if k in Names(r) then r[IndexOf(r, k) := (k, b)] else r + [(k, b)]
  }

  /** `Assign` behaves as `Map.prototype.set`: the key sequence gains `k`
      at the end if it is new and is unchanged otherwise; `k` now maps to
      `b`; every other key maps to what it did; keys stay unique; an entry
      under another key stays where it was; and every entry is either the
      new one or an old one in its old place. */
  lemma AssignIsMapSet(r: Registry, k: string, b: string)
    ensures Keys(Assign(r, k, b)) == if k in Names(r) then Keys(r) else Keys(r) + [k]
    ensures Names(Assign(r, k, b)) == Names(r) + {k}
    ensures Lookup(Assign(r, k, b), k) == Some(b)
    ensures forall k' :: k' != k ==> Lookup(Assign(r, k, b), k') == Lookup(r, k')
    ensures UniqueKeys(r) ==> UniqueKeys(Assign(r, k, b))
    ensures forall j :: 0 <= j < |r| && r[j].0 != k ==> Assign(r, k, b)[j] == r[j]
    ensures forall j :: 0 <= j < |Assign(r, k, b)| ==>
      Assign(r, k, b)[j] == (k, b) || (j < |r| && Assign(r, k, b)[j] == r[j])
  {
    var r' := Assign(r, k, b);
    if k in Names(r) {
      assert forall j :: 0 <= j < |r| ==> r'[j].0 == r[j].0;
      assert Names(r') == Names(r);
    } else {
      assert Names(r') == Names(r) + {k} by {
        assert r'[|r|].0 == k;
        assert forall j :: 0 <= j < |r| ==> r'[j] == r[j];
      }
      forall k' | k' in Names(r) ensures Lookup(r', k') == Lookup(r, k') {
        LookupInPrefix(r, r', k');
      }
    }
  }

  /** Entries already in a registry are still found, with the same body,
      in any registry that extends it. */
  lemma {:induction false} LookupInPrefix(r: Registry, r': Registry, k: string)
    requires r <= r'
    requires k in Names(r)
    ensures Lookup(r', k) == Lookup(r, k)
  {
    var i := IndexOf(r, k);
    assert r'[i] == r[i];
    assert k in Names(r');
  }

  /** Extending a registry keeps every name it has. */
  lemma PrefixNames(r: Registry, r': Registry)
    requires r <= r'
    ensures Names(r) <= Names(r')
  {
    forall k | k in Names(r) ensures k in Names(r') {
      var j :| 0 <= j < |r| && r[j].0 == k;
      assert r'[j] == r[j];
    }
  }

  lemma PrefixTransitive(a: Registry, b: Registry, c: Registry)
    requires a <= b && b <= c
    ensures a <= c
  {
  }

  /** Setting a name that a prefix of the registry does not hold leaves
      that prefix in place. */
  lemma AssignAfterPrefix(reg: Registry, r: Registry, k: string, b: string)
    requires reg <= r && k !in Names(reg)
    ensures reg <= Assign(r, k, b)
  {
    var r' := Assign(r, k, b);
    forall j | 0 <= j < |reg| ensures r'[j] == reg[j] {
      assert r[j] == reg[j];
      assert r[j].0 in Names(reg);
    }
  }

  /** The mutable registry the converters fill. */
  class ClassRegistry {
    var entries: Registry

    /** `new Map()` */
    constructor ()
      ensures entries == []
    {
      entries := [];
    }

    /** `classes.has(name)` */
    function Has(name: string): bool
      reads this
    {
      name in Names(entries)
    }

    /** `classes.set(name, body)` */
    method Set(name: string, body: string)
      modifies this
      ensures entries == Assign(old(entries), name, body)
    {
      entries := Assign(entries, name, body);
    }

    /** `Array.from(classes.values())` */
    function Values(): seq<string>
      reads this
    {
      Bodies(entries)
    }
  }
}
