/**
 * The flag catalog, `FLAGS`: a dictionary from flag id to display name,
 * loaded once and only read afterwards. A Python dictionary keeps its keys in
 * insertion order, and both the list of keys a target is drawn from and the
 * list of distractor candidates follow that order, so the model keeps the keys as a sequence beside the map.
 */
module FlagCatalog {

  type FlagId = string

  datatype Catalog = Catalog(ids: seq<FlagId>, names: map<FlagId, string>)

  predicate Distinct<T(==)>(s: seq<T>) {
    forall i, j :: 0 <= i < j < |s| ==> s[i] != s[j]
  }

  /** The catalog is a dictionary: each key once, and `ids` lists exactly the keys of `names`. */
  predicate Valid(c: Catalog) {
    && Distinct(c.ids)
    && (forall k :: k in c.names ==> k in c.ids)
    && (forall k :: k in c.ids ==> k in c.names)
  }

  /** The catalog ids other than the target, in catalog order: the population distractors are sampled from. */
  function Others(ids: seq<FlagId>, target: FlagId): (pop: seq<FlagId>)
    ensures forall x :: x in pop <==> x in ids && x != target
    ensures |pop| <= |ids|
  {
    if ids == [] then []
    else if ids[0] != target then [ids[0]] + Others(ids[1..], target)
    else Others(ids[1..], target)
  }

  /** Dropping the target from a list of distinct keys keeps them distinct and removes exactly one entry when the target is a key. */
  lemma {:induction false} OthersOfDistinct(ids: seq<FlagId>, target: FlagId)
    requires Distinct(ids)
    ensures Distinct(Others(ids, target))
    ensures |Others(ids, target)| == if target in ids then |ids| - 1 else |ids|
  {
    if ids != [] {
      assert Distinct(ids[1..]);
      OthersOfDistinct(ids[1..], target);
      assert target in ids <==> target == ids[0] || target in ids[1..];
      assert ids[0] !in ids[1..];
    }
  }

  /** The catalog display name of each option, in the options' order. */
  function NamesOf(c: Catalog, opts: seq<FlagId>): seq<string>
    requires forall o :: o in opts ==> o in c.names
  {
    seq(|opts|, i requires 0 <= i < |opts| => c.names[opts[i]])
  }
}
