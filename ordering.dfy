/**
 * What `ORDER BY updatedAt DESC` (SQLite, PostgREST) and Dexie's reversed `sortBy`
 * promise: some enumeration of the selected keys, each once, whose stamps never
 * increase. Rows with equal stamps may come in any order, so a query is modelled
 * as choosing any enumeration that satisfies this; Arrange shows one always exists.
 */
module Ordering {

  /** No key occurs twice. */
  predicate Distinct<K(==)>(ks: seq<K>) {
    forall i, j :: 0 <= i < j < |ks| ==> ks[i] != ks[j]
  }

  /** ks enumerates exactly the keys of keep, each once, in some order. */
  predicate Enumerates<K(==)>(ks: seq<K>, keep: set<K>) {
    && Distinct(ks)
    && (forall i :: 0 <= i < |ks| ==> ks[i] in keep)
    && (forall k :: k in keep ==> k in ks)
  }

  /** Stamps never increase along ks: newest first. */
  predicate NonIncreasing<K(==)>(ks: seq<K>, stamp: map<K, int>) {
    forall i, j :: 0 <= i < j < |ks| ==> ks[i] in stamp && ks[j] in stamp && stamp[ks[i]] >= stamp[ks[j]]
  }

  /** ks is a result of selecting keep and ordering it by stamp, descending. */
  predicate OrderedSelection<K(==)>(ks: seq<K>, keep: set<K>, stamp: map<K, int>) {
    keep <= stamp.Keys && Enumerates(ks, keep) && NonIncreasing(ks, stamp)
  }

  /** A non-empty finite selection has a newest key. */
  lemma {:induction false} NewestExists<K>(keep: set<K>, stamp: map<K, int>)
    requires keep != {} && keep <= stamp.Keys
    ensures exists k :: k in keep && forall j :: j in keep ==> stamp[j] <= stamp[k]
    decreases keep
  {
    var x :| x in keep;
    if keep != {x} {
      NewestExists(keep - {x}, stamp);
      var y :| y in keep - {x} && forall j :: j in keep - {x} ==> stamp[j] <= stamp[y];
      if stamp[x] <= stamp[y] {
        assert forall j :: j in keep ==> stamp[j] <= stamp[y];
      } else {
        assert forall j :: j in keep ==> stamp[j] <= stamp[x];
      }
    } else {
      assert forall j :: j in keep ==> stamp[j] <= stamp[x];
    }
  }

  /** One ordered selection of keep, built newest first. */
  ghost function Arrange<K>(keep: set<K>, stamp: map<K, int>): (ks: seq<K>)
    requires keep <= stamp.Keys
    ensures OrderedSelection(ks, keep, stamp)
    decreases keep
  {
    if keep == {} then []
    else
      NewestExists(keep, stamp);
      var k :| k in keep && forall j :: j in keep ==> stamp[j] <= stamp[k];
      var rest := Arrange(keep - {k}, stamp);
      PrependNewest(k, rest, keep, stamp);
      [k] + rest
  }

  /** Putting the newest key in front of an ordered selection of the others orders them all. */
  lemma PrependNewest<K>(k: K, rest: seq<K>, keep: set<K>, stamp: map<K, int>)
    requires keep <= stamp.Keys
    requires k in keep && forall j :: j in keep ==> stamp[j] <= stamp[k]
    requires OrderedSelection(rest, keep - {k}, stamp)
    ensures OrderedSelection([k] + rest, keep, stamp)
  {
    var ks := [k] + rest;
    assert forall i :: 0 < i < |ks| ==> ks[i] == rest[i - 1];
    assert k !in rest;
    assert Distinct(ks);
    assert NonIncreasing(ks, stamp);
    forall j | j in keep ensures j in ks {
      if j != k {
        assert j in rest;
      }
    }
  }
}
